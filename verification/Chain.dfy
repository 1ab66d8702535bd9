/**
  The prev-hash chain: verification (infra/cwp/chainverify.py) and in-memory extension (infra/cwp/ledger.py).
  A link is an entry without its back-pointer; its digest under the chain's schema major is a parameter.
 */
module Chain {
  import opened Prelude
  import opened Encoding
  import opened Json

  type Link = map<string, Json>

  type LinkDigest = Link -> Digest

  datatype Entry = Dict(fields: Link) | Other(v: Json)

  const ZERO := ZeroDigest()

  /** The back-pointer of a genesis. */
  function ZeroDigest(): Digest
  {
    seq(32, _ => 0)
  }

  function Get(e: Entry, key: string): Option<Json>
  {
    if e.Dict? && key in e.fields then Some(e.fields[key]) else None
  }

  function LinkOf(e: Entry): Link
  {
    if e.Dict? then e.fields - {"prev"} else map[]
  }

  function PrevField(d: Digest): Option<Json>
  {
    Some(Str(Hex(d)))
  }

  lemma PrevFieldInjective(c: Digest, d: Digest)
    requires PrevField(c) == PrevField(d)
    ensures c == d
  {
    HexInjective(c, d);
  }

  /** A real integer, not a bool. */
  function SeqOf(e: Entry): Option<int>
  {
    match Get(e, "seq")
    case Some(Int(n)) => Some(n)
    case _ => None
  }

  /** Python truthiness of a field that may be missing. */
  predicate Truthy(v: Option<Json>)
  {
    match v
    case None => false
    case Some(Null) => false
    case Some(Bool(b)) => b
    case Some(Int(n)) => n != 0
    case Some(Float(x)) => !x.Zero?
    case Some(Str(s)) => s != ""
    case Some(Arr(items)) => items != []
    case Some(Obj(members)) => members != []
  }

  datatype Kind =
    | Empty | NotObject | NotGenesis | PrevNotZero | NoOrigin | WrongRun | WrongPlan
    | SecondGenesis | PrevMismatch | SeqMissing | SeqGap

  datatype Problem = Problem(kind: Kind, at: nat)

  predicate IsGenesis(e: Entry)
  {
    Get(e, "type") == Some(Str("genesis"))
  }

  predicate BindsOrigin(g: Entry)
  {
    || (Truthy(Get(g, "run_id")) && Truthy(Get(g, "plan_sha")))
    || Truthy(Get(g, "supersedes_head"))
    || Truthy(Get(g, "supersedes"))
  }

  predicate Expected(g: Entry, key: string, value: Option<string>)
  {
    value.Some? ==> Get(g, key) == Some(Str(value.value))
  }

  ghost predicate GenesisOk(g: Entry, run: Option<string>, plan: Option<string>)
  {
    && g.Dict? && IsGenesis(g) && Get(g, "prev") == PrevField(ZERO)
    && BindsOrigin(g) && Expected(g, "run_id", run) && Expected(g, "plan_sha", plan)
  }

  /** Record i is an acceptable successor of record i - 1. */
  ghost predicate Follows(digest: LinkDigest, entries: seq<Entry>, i: nat)
    requires 0 < i < |entries|
  {
    var e := entries[i];
    && e.Dict? && !IsGenesis(e) && Get(e, "prev") != PrevField(ZERO)
    && Get(e, "prev") == PrevField(digest(LinkOf(entries[i - 1])))
    && SeqOf(e).Some?
    && (SeqOf(entries[i - 1]).Some? ==> SeqOf(e).value == SeqOf(entries[i - 1]).value + 1)
  }

  /** The objection to record i: the first of the demands on a successor that it does not meet. */
  ghost predicate Objects(digest: LinkDigest, entries: seq<Entry>, i: nat, kind: Kind)
    requires 0 < i < |entries|
  {
    var e := entries[i];
    match kind
    case NotObject => !e.Dict?
    case SecondGenesis => e.Dict? && (IsGenesis(e) || Get(e, "prev") == PrevField(ZERO))
    case PrevMismatch => e.Dict? && !IsGenesis(e) && Get(e, "prev") !in {PrevField(ZERO), PrevField(digest(LinkOf(entries[i - 1])))}
    case SeqMissing => !IsGenesis(e) && Get(e, "prev") != PrevField(ZERO)
                       && Get(e, "prev") == PrevField(digest(LinkOf(entries[i - 1]))) && SeqOf(e).None?
    case SeqGap => !IsGenesis(e) && Get(e, "prev") != PrevField(ZERO)
                   && Get(e, "prev") == PrevField(digest(LinkOf(entries[i - 1])))
                   && SeqOf(e).Some? && SeqOf(entries[i - 1]).Some? && SeqOf(e).value != SeqOf(entries[i - 1]).value + 1
    case _ => false
  }

  /** A faithful, origin-bound record of a run. */
  ghost predicate Accepted(digest: LinkDigest, entries: seq<Entry>, run: Option<string>, plan: Option<string>)
  {
    && entries != []
    && GenesisOk(entries[0], run, plan)
    && forall i | 0 < i < |entries| :: Follows(digest, entries, i)
  }

  ghost predicate Valid(digest: LinkDigest, entries: seq<Entry>)
  {
    Accepted(digest, entries, None, None)
  }

  method CheckGenesis(g: Entry, run: Option<string>, plan: Option<string>) returns (problems: seq<Problem>)
    requires g.Dict?
    ensures problems == [] <==> GenesisOk(g, run, plan)
    ensures forall p | p in problems :: p.at == 0 && p.kind in {NotGenesis, PrevNotZero, NoOrigin, WrongRun, WrongPlan}
    ensures Problem(NotGenesis, 0) in problems <==> !IsGenesis(g)
    ensures Problem(PrevNotZero, 0) in problems <==> Get(g, "prev") != PrevField(ZERO)
    ensures Problem(NoOrigin, 0) in problems <==> !BindsOrigin(g)
    ensures Problem(WrongRun, 0) in problems <==> !Expected(g, "run_id", run)
    ensures Problem(WrongPlan, 0) in problems <==> !Expected(g, "plan_sha", plan)
  {
    hide IsGenesis, BindsOrigin, Expected, Get, PrevField;
    problems := [];
    if !IsGenesis(g) {
      problems := problems + [Problem(NotGenesis, 0)];
    }
    if Get(g, "prev") != PrevField(ZERO) {
      problems := problems + [Problem(PrevNotZero, 0)];
    }
    if !BindsOrigin(g) {
      problems := problems + [Problem(NoOrigin, 0)];
    }
    if !Expected(g, "run_id", run) {
      problems := problems + [Problem(WrongRun, 0)];
    }
    if !Expected(g, "plan_sha", plan) {
      problems := problems + [Problem(WrongPlan, 0)];
    }
  }

  /** One turn of the pass: the first objection to record i, given what is remembered of the record before it. */
  method CheckRecord(digest: LinkDigest, entries: seq<Entry>, i: nat, prevDigest: Digest, lastSeq: Option<int>)
    returns (defect: Option<Kind>)
    requires i < |entries|
    requires prevDigest == if i == 0 then ZERO else digest(LinkOf(entries[i - 1]))
    requires i > 0 ==> lastSeq == SeqOf(entries[i - 1])
    ensures i == 0 ==> (defect.None? <==> entries[0].Dict? && Get(entries[0], "prev") == PrevField(ZERO))
    ensures i > 0 ==> (defect.None? <==> Follows(digest, entries, i))
    ensures i > 0 && defect.Some? ==> Objects(digest, entries, i, defect.value)
  {
    var e := entries[i];
    if !e.Dict? {
      return Some(NotObject);
    }
    if i > 0 && (IsGenesis(e) || Get(e, "prev") == PrevField(ZERO)) {
      return Some(SecondGenesis);
    }
    if Get(e, "prev") != PrevField(prevDigest) {
      return Some(PrevMismatch);
    }
    if i > 0 && SeqOf(e).None? {
      return Some(SeqMissing);
    }
    if i > 0 && lastSeq.Some? && SeqOf(e).value != lastSeq.value + 1 {
      return Some(SeqGap);
    }
    return None;
  }

  /** The records after an accepted genesis are all in order, or the first that is not is named. */
  method CheckRecords(digest: LinkDigest, entries: seq<Entry>) returns (problem: Option<Problem>)
    requires entries != [] && entries[0].Dict? && Get(entries[0], "prev") == PrevField(ZERO)
    ensures problem.None? ==> forall i | 0 < i < |entries| :: Follows(digest, entries, i)
    ensures problem.Some? ==>
              && 0 < problem.value.at < |entries|
              && !Follows(digest, entries, problem.value.at)
              && Objects(digest, entries, problem.value.at, problem.value.kind)
              && forall i | 0 < i < problem.value.at :: Follows(digest, entries, i)
  {
    hide Objects, Follows, PrevField;
    var prevDigest, lastSeq := ZERO, None;
    for i := 0 to |entries|
      invariant prevDigest == if i == 0 then ZERO else digest(LinkOf(entries[i - 1]))
      invariant i > 0 ==> lastSeq == SeqOf(entries[i - 1])
      invariant forall k | 0 < k < i :: Follows(digest, entries, k)
    {
      var defect := CheckRecord(digest, entries, i, prevDigest, lastSeq);
      if defect.Some? {
        return Some(Problem(defect.value, i));
      }
      lastSeq := SeqOf(entries[i]);
      prevDigest := digest(LinkOf(entries[i]));
    }
    return None;
  }

  /** The single pass accepts exactly the accepted chains, and otherwise names the first record that does not follow. */
  method VerifyChain(digest: LinkDigest, entries: seq<Entry>, run: Option<string>, plan: Option<string>)
    returns (ok: bool, problems: seq<Problem>)
    ensures ok <==> Accepted(digest, entries, run, plan)
    ensures ok <==> problems == []
    ensures !ok && entries != [] && GenesisOk(entries[0], run, plan) ==>
              && |problems| == 1
              && 0 < problems[0].at < |entries|
              && !Follows(digest, entries, problems[0].at)
              && Objects(digest, entries, problems[0].at, problems[0].kind)
              && forall i | 0 < i < problems[0].at :: Follows(digest, entries, i)
  {
    if entries == [] {
      return false, [Problem(Empty, 0)];
    }
    if !entries[0].Dict? {
      return false, [Problem(NotObject, 0)];
    }
    problems := CheckGenesis(entries[0], run, plan);
    if problems != [] {
      return false, problems;
    }
    var problem := CheckRecords(digest, entries);
    return problem.None?, if problem.Some? then [problem.value] else [];
  }

  function Head(digest: LinkDigest, entries: seq<Entry>): Digest
  {
    if entries == [] then ZERO else digest(LinkOf(entries[|entries| - 1]))
  }

  method HeadOf(digest: LinkDigest, entries: seq<Entry>) returns (head: Digest)
    ensures head == Head(digest, entries)
  {
    head := ZERO;
    for i := 0 to |entries|
      invariant head == Head(digest, entries[..i])
    {
      head := digest(LinkOf(entries[i]));
      assert entries[..i + 1][i] == entries[i];
    }
    assert entries[..|entries|] == entries;
  }

  // ----- extension

  function Genesis(runId: string, planSha: string): Entry
  {
    Dict(map["type" := Str("genesis"), "schema" := Int(2), "seq" := Int(0),
             "run_id" := Str(runId), "plan_sha" := Str(planSha), "prev" := Str(Hex(ZERO))])
  }

  /**
    The previous record's seq as int() reads it, its position when the field is missing; None where the record is no
    dict or int() raises.
   */
  function LastSeq(entries: seq<Entry>): Option<int>
    requires entries != []
  {
    var last := entries[|entries| - 1];
    if !last.Dict? then None
    else
      match Get(last, "seq")
      case None => Some(|entries| - 1)
      case Some(Int(n)) => Some(n)
      case Some(Bool(b)) => Some(if b then 1 else 0)
      case _ => None
  }

  function Linked(digest: LinkDigest, last: Entry, lastSeq: int, record: Link): Entry
  {
    Dict(record["seq" := Int(lastSeq + 1)]["prev" := Str(Hex(digest(LinkOf(last))))])
  }

  /** The next seq: one more than an integer seq, a bool counting as 0 or 1; the length of the chain where there is none. */
  lemma NextSeq(entries: seq<Entry>, n: int)
    requires entries != [] && entries[|entries| - 1].Dict?
    ensures var last := entries[|entries| - 1].fields;
      LastSeq(entries) == Some(n - 1) <==>
        || ("seq" !in last && n == |entries|)
        || ("seq" in last && last["seq"] == Int(n - 1))
        || ("seq" in last && last["seq"].Bool? && n == if last["seq"].b then 2 else 1)
  {
  }

  lemma GenesisAccepted(digest: LinkDigest, run: string, plan: string)
    requires run != "" && plan != ""
    ensures Accepted(digest, [Genesis(run, plan)], Some(run), Some(plan)) && Valid(digest, [Genesis(run, plan)])
    ensures SeqOf(Genesis(run, plan)) == LastSeq([Genesis(run, plan)]) == Some(0)
  {
    hide Hex, ZeroDigest;
    var g := Genesis(run, plan);
    assert Get(g, "type") == Some(Str("genesis")) && Get(g, "prev") == PrevField(ZERO);
    assert Get(g, "run_id") == Some(Str(run)) && Get(g, "plan_sha") == Some(Str(plan)) && Get(g, "seq") == Some(Int(0));
  }

  /** A chain held in memory as the list that append extends in place. */
  class Ledger {
    var entries: seq<Entry>

    constructor (runId: string, planSha: string)
      ensures entries == [Genesis(runId, planSha)]
    {
      entries := [Genesis(runId, planSha)];
    }

    method Append(digest: LinkDigest, record: Link) returns (rec: Option<Entry>)
      requires entries != []
      modifies this
      ensures rec.Some? <==> LastSeq(old(entries)).Some?
      ensures rec.None? ==> entries == old(entries)
      ensures rec.Some? ==>
                && rec.value == Linked(digest, old(entries)[|old(entries)| - 1], LastSeq(old(entries)).value, record)
                && entries == old(entries) + [rec.value]
    {
      var prev := entries[|entries| - 1];
      var lastSeq := LastSeq(entries);
      if lastSeq.None? {
        return None;
      }
      var fields := record;
      fields := fields["seq" := Int(lastSeq.value + 1)];
      fields := fields["prev" := Str(Hex(digest(LinkOf(prev))))];
      entries := entries + [Dict(fields)];
      return Some(Dict(fields));
    }
  }

  /**
    Extending an accepted chain keeps it accepted exactly when the record is not a genesis and the tip's digest is
    not the all-zero root.
   */
  lemma AppendAccepted(digest: LinkDigest, entries: seq<Entry>, record: Link, run: Option<string>, plan: Option<string>)
    requires Accepted(digest, entries, run, plan) && LastSeq(entries).Some?
    ensures var last := entries[|entries| - 1];
            Accepted(digest, entries + [Linked(digest, last, LastSeq(entries).value, record)], run, plan)
            <==> !IsGenesis(Dict(record)) && digest(LinkOf(last)) != ZERO
  {
    var last := entries[|entries| - 1];
    var rec := Linked(digest, last, LastSeq(entries).value, record);
    LinkedFollows(digest, last, LastSeq(entries).value, record);
    PrefixFollows(digest, entries, rec);
    assert SeqOf(last).Some? ==> SeqOf(last) == LastSeq(entries);
  }

  /** Only the last record decides whether a longer chain is accepted. */
  lemma PrefixFollows(digest: LinkDigest, entries: seq<Entry>, rec: Entry)
    requires entries != []
    ensures forall run, plan :: Accepted(digest, entries + [rec], run, plan)
              <==> Accepted(digest, entries, run, plan) && Follows(digest, entries + [rec], |entries|)
  {
    var all := entries + [rec];
    forall i | 0 < i < |entries| ensures Follows(digest, all, i) <==> Follows(digest, entries, i) {
      assert all[i] == entries[i] && all[i - 1] == entries[i - 1];
    }
    assert all[0] == entries[0];
  }

  lemma LinkedFollows(digest: LinkDigest, last: Entry, lastSeq: int, record: Link)
    ensures var rec := Linked(digest, last, lastSeq, record);
            && (IsGenesis(rec) <==> IsGenesis(Dict(record)))
            && Get(rec, "prev") == PrevField(digest(LinkOf(last)))
            && SeqOf(rec) == Some(lastSeq + 1)
            && (Get(rec, "prev") == PrevField(ZERO) <==> digest(LinkOf(last)) == ZERO)
  {
    if PrevField(digest(LinkOf(last))) == PrevField(ZERO) {
      PrevFieldInjective(digest(LinkOf(last)), ZERO);
    }
  }

  // ----- what the back-pointers commit to

  /** Two different links, one from each chain, with one digest. */
  ghost predicate LinksCollide(digest: LinkDigest, xs: seq<Entry>, ys: seq<Entry>)
  {
    exists i, j | 0 <= i < |xs| && 0 <= j < |ys| ::
      LinkOf(xs[i]) != LinkOf(ys[j]) && digest(LinkOf(xs[i])) == digest(LinkOf(ys[j]))
  }

  /** A back-pointer fixes the content of the record before it, unless two links collide. */
  lemma PrevFixesPredecessor(digest: LinkDigest, xs: seq<Entry>, ys: seq<Entry>, i: nat)
    requires Valid(digest, xs) && Valid(digest, ys) && i + 1 < |xs| && i + 1 < |ys|
    requires Get(xs[i + 1], "prev") == Get(ys[i + 1], "prev")
    ensures LinkOf(xs[i]) == LinkOf(ys[i]) || LinksCollide(digest, xs, ys)
  {
    assert Follows(digest, xs, i + 1) && Follows(digest, ys, i + 1);
    PrevFieldInjective(digest(LinkOf(xs[i])), digest(LinkOf(ys[i])));
  }

  /**
    Only the predecessor: a link leaves out prev, so the head forgets everything before the last record. Chains of two
    different runs that end in the same record are both accepted and share their head.
   */
  lemma HeadForgetsHistory(digest: LinkDigest, runA: string, runB: string, plan: string, record: Link)
    requires runA != "" && runB != "" && runA != runB && plan != "" && !IsGenesis(Dict(record))
    requires digest(LinkOf(Genesis(runA, plan))) != ZERO && digest(LinkOf(Genesis(runB, plan))) != ZERO
    ensures var a, b := Genesis(runA, plan), Genesis(runB, plan);
            var xs, ys := [a, Linked(digest, a, 0, record)], [b, Linked(digest, b, 0, record)];
            Valid(digest, xs) && Valid(digest, ys) && xs != ys && Head(digest, xs) == Head(digest, ys)
  {
    var a, b := Genesis(runA, plan), Genesis(runB, plan);
    TwoRecordChain(digest, runA, plan, record);
    TwoRecordChain(digest, runB, plan, record);
    assert Get(a, "run_id") == Some(Str(runA)) && Get(b, "run_id") == Some(Str(runB));
    assert LinkOf(Linked(digest, a, 0, record)) == LinkOf(Linked(digest, b, 0, record));
  }

  lemma TwoRecordChain(digest: LinkDigest, run: string, plan: string, record: Link)
    requires run != "" && plan != "" && !IsGenesis(Dict(record))
    requires digest(LinkOf(Genesis(run, plan))) != ZERO
    ensures Valid(digest, [Genesis(run, plan), Linked(digest, Genesis(run, plan), 0, record)])
  {
    var g := Genesis(run, plan);
    GenesisAccepted(digest, run, plan);
    AppendAccepted(digest, [g], record, None, None);
    assert [g] + [Linked(digest, g, 0, record)] == [g, Linked(digest, g, 0, record)];
  }


  // ----- acceptance, field by field

  /** Present, and none of the values that count as false. */
  ghost predicate Given(fields: Link, key: string)
  {
    key in fields && fields[key] !in {Null, Bool(false), Int(0), Float(Zero(true)), Float(Zero(false)), Str(""), Arr([]), Obj([])}
  }

  ghost predicate Says(fields: Link, key: string, text: string)
  {
    key in fields && fields[key] == Str(text)
  }

  function SixtyFourZeros(): string
  {
    seq(64, _ => '0')
  }

  lemma {:induction false} HexOfZeros(n: nat)
    ensures Hex(seq(n, _ => 0)) == seq(2 * n, _ => '0')
  {
    if n > 0 {
      HexOfZeros(n - 1);
      var zeros: Bytes := seq(n, _ => 0);
      assert zeros[1..] == seq(n - 1, _ => 0);
    }
  }

  lemma ZeroIsZeros()
    ensures Hex(ZERO) == SixtyFourZeros()
  {
    HexOfZeros(32);
    var zeros: Bytes := seq(32, _ => 0);
    assert ZERO == zeros;
  }

  /**
    The first entry is a genesis with the zero back-pointer that names a run and a plan, or the chain it supersedes, and
    the run and plan that are expected.
   */
  lemma GenesisMeans(g: Entry, run: Option<string>, plan: Option<string>)
    ensures GenesisOk(g, run, plan) <==>
              && g.Dict? && Says(g.fields, "type", "genesis") && Says(g.fields, "prev", SixtyFourZeros())
              && ((Given(g.fields, "run_id") && Given(g.fields, "plan_sha")) || Given(g.fields, "supersedes_head")
                  || Given(g.fields, "supersedes"))
              && (run.Some? ==> Says(g.fields, "run_id", run.value))
              && (plan.Some? ==> Says(g.fields, "plan_sha", plan.value))
  {
    ZeroIsZeros();
    if g.Dict? {
      GivenMeans(g, "run_id");
      GivenMeans(g, "plan_sha");
      GivenMeans(g, "supersedes_head");
      GivenMeans(g, "supersedes");
    }
  }

  lemma GivenMeans(g: Entry, key: string)
    requires g.Dict?
    ensures Truthy(Get(g, key)) <==> Given(g.fields, key)
  {
  }

  /** Every later entry points back at the content of the one before it and counts on from it. */
  lemma FollowsMeans(digest: LinkDigest, entries: seq<Entry>, i: nat)
    requires 0 < i < |entries| && entries[i - 1].Dict?
    ensures Follows(digest, entries, i) <==>
              && entries[i].Dict?
              && var before, fields := entries[i - 1].fields, entries[i].fields;
              && !Says(fields, "type", "genesis") && !Says(fields, "prev", SixtyFourZeros())
              && Says(fields, "prev", Hex(digest(before - {"prev"})))
              && "seq" in fields && fields["seq"].Int?
              && ("seq" in before && before["seq"].Int? ==> fields["seq"].n == before["seq"].n + 1)
  {
    ZeroIsZeros();
  }

  /** One entry alone is a chain, for no expectation, exactly if it is such a genesis. */
  lemma OneEntryChain(digest: LinkDigest, g: Entry)
    ensures Accepted(digest, [g], None, None) <==>
              && g.Dict? && Says(g.fields, "type", "genesis") && Says(g.fields, "prev", SixtyFourZeros())
              && ((Given(g.fields, "run_id") && Given(g.fields, "plan_sha")) || Given(g.fields, "supersedes_head")
                  || Given(g.fields, "supersedes"))
  {
    GenesisMeans(g, None, None);
  }

  /** A migrated chain starts from a genesis that names no run, only the head it supersedes. */
  lemma MigrationGenesis(digest: LinkDigest, head: string)
    requires head != ""
    ensures Accepted(digest, [Dict(map["type" := Str("genesis"), "schema" := Int(2), "seq" := Int(0),
                                       "prev" := Str(SixtyFourZeros()), "supersedes_head" := Str(head)])], None, None)
  {
    var fields := map["type" := Str("genesis"), "schema" := Int(2), "seq" := Int(0),
                      "prev" := Str(SixtyFourZeros()), "supersedes_head" := Str(head)];
    assert Given(fields, "supersedes_head") && Says(fields, "type", "genesis") && Says(fields, "prev", SixtyFourZeros());
    OneEntryChain(digest, Dict(fields));
  }
}
