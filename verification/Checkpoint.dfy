/** Merkle checkpoints inside a chain (infra/cwp/checkpoint.py): building, cold verification and audit. */
module Checkpoint {
  import opened Prelude
  import opened Decimal
  import opened Encoding
  import opened Json
  import opened Chain
  import Merkle

  predicate IsCheckpoint(e: Entry)
  {
    Get(e, "type") == Some(Str("checkpoint"))
  }

  function Leaves(digest: LinkDigest, window: seq<Entry>): (leaves: seq<Digest>)
    ensures |leaves| == |window|
    ensures forall i | 0 <= i < |window| :: leaves[i] == digest(LinkOf(window[i]))
  {
    seq<Digest>(|window|, i requires 0 <= i < |window| => digest(LinkOf(window[i])))
  }

  function RootField(sha: Hash, digest: LinkDigest, window: seq<Entry>): Option<Json>
  {
    Some(Str(Hex(Merkle.Root(sha, Leaves(digest, window)))))
  }

  /** The bounds a window records: the seq of its first and last entry, null when it is empty. */
  function Bound(window: seq<Entry>, i: int): Json
    requires window == [] || 0 <= i < |window|
    requires window != [] ==> SeqOf(window[i]).Some?
  {
    if window == [] then Null else Int(SeqOf(window[i]).value)
  }

  function MakeCheckpoint(sha: Hash, digest: LinkDigest, window: seq<Entry>): Link
    requires window != [] ==> SeqOf(window[0]).Some? && SeqOf(window[|window| - 1]).Some?
  {
    map["type" := Str("checkpoint"),
        "window_start" := Bound(window, 0),
        "window_end" := Bound(window, |window| - 1),
        "count" := Int(|window|),
        "merkle_root" := RootField(sha, digest, window).value]
  }

  function DataRecord(i: nat): Link
  {
    map["i" := Int(i), "data" := Str("entry-" + DigitsOf(i))]
  }

  // ----- building

  /** Every entry's seq is its position. */
  ghost predicate Numbered(entries: seq<Entry>)
  {
    forall k | 0 <= k < |entries| :: SeqOf(entries[k]) == Some(k)
  }

  /** A chain under construction and the data entries since its last checkpoint. */
  datatype Build = Build(entries: seq<Entry>, window: seq<Entry>) {
    ghost predicate Ok() {
      && entries != [] && Numbered(entries)
      && |window| < |entries| && window == entries[|entries| - |window|..]
    }
  }

  /** Append to a chain whose seqs are its positions. */
  function Extend(digest: LinkDigest, entries: seq<Entry>, record: Link): (r: seq<Entry>)
    requires entries != [] && Numbered(entries)
    ensures |r| == |entries| + 1 && r[..|entries|] == entries && Numbered(r)
    ensures LastSeq(entries) == Some(|entries| - 1)
    ensures r == entries + [Linked(digest, entries[|entries| - 1], |entries| - 1, record)]
  {
    assert SeqOf(entries[|entries| - 1]).Some?;
    var rec := Linked(digest, entries[|entries| - 1], |entries| - 1, record);
    assert Get(rec, "seq") == Some(Int(|entries|));
    entries + [rec]
  }

  function AddData(digest: LinkDigest, b: Build, record: Link): (r: Build)
    requires b.Ok()
    ensures r.Ok() && |r.entries| == |b.entries| + 1 && |r.window| == |b.window| + 1
  {
    var entries := Extend(digest, b.entries, record);
    Build(entries, b.window + [entries[|b.entries|]])
  }

  function AddCheckpoint(digest: LinkDigest, b: Build, record: Link): (r: Build)
    requires b.Ok()
    ensures r.Ok() && |r.entries| == |b.entries| + 1 && r.window == []
  {
    Build(Extend(digest, b.entries, record), [])
  }

  function Start(run: string, plan: string): (b: Build)
    ensures b.Ok() && b.window == []
  {
    assert Get(Genesis(run, plan), "seq") == Some(Int(0));
    Build([Genesis(run, plan)], [])
  }

  /** One turn of the building loop: a data entry, and a checkpoint after every interval of them. */
  function Step(sha: Hash, digest: LinkDigest, b: Build, i: nat, due: bool): (r: Build)
    requires b.Ok()
    ensures r.Ok() && |r.window| == if due then 0 else |b.window| + 1
  {
    var c := AddData(digest, b, DataRecord(i));
    if due then AddCheckpoint(digest, c, MakeCheckpoint(sha, digest, c.window)) else c
  }

  /** When a checkpoint is due: after how many data entries. */
  type Schedule = nat -> bool

  function Every(interval: int): Schedule
    requires interval != 0
  {
    n => n % interval == 0
  }

  /** The chain and the open window after n data entries. */
  function Built(sha: Hash, digest: LinkDigest, run: string, plan: string, n: nat, due: Schedule): (b: Build)
    ensures b.Ok()
  {
    if n == 0 then Start(run, plan)
    else Step(sha, digest, Built(sha, digest, run, plan, n - 1, due), n - 1, due(n))
  }

  method AppendNumbered(chain: Ledger, digest: LinkDigest, record: Link) returns (rec: Entry)
    requires chain.entries != [] && Numbered(chain.entries)
    modifies chain
    ensures chain.entries == Extend(digest, old(chain.entries), record)
    ensures rec == chain.entries[|old(chain.entries)|]
  {
    ghost var before := Extend(digest, chain.entries, record);
    var r := chain.Append(digest, record);
    rec := r.value;
  }

  method BuildTurn(sha: Hash, digest: LinkDigest, chain: Ledger, window: seq<Entry>, i: nat, due: bool)
    returns (window': seq<Entry>)
    requires Build(chain.entries, window).Ok()
    modifies chain
    ensures Build(chain.entries, window') == Step(sha, digest, Build(old(chain.entries), window), i, due)
  {
    hide DataRecord, MakeCheckpoint, Linked, Get;
    ghost var b := AddData(digest, Build(chain.entries, window), DataRecord(i));
    var rec := AppendNumbered(chain, digest, DataRecord(i));
    window' := window + [rec];
    assert Build(chain.entries, window') == b;
    if due {
      var _ := AppendNumbered(chain, digest, MakeCheckpoint(sha, digest, window'));
      window' := [];
    }
  }

  method BuildCheckpointedChain(sha: Hash, digest: LinkDigest, n: nat, interval: int, run: string, plan: string)
    returns (entries: seq<Entry>)
    requires interval != 0
    ensures entries == Built(sha, digest, run, plan, n, Every(interval)).entries
  {
    hide Step, Genesis;
    var chain := new Ledger(run, plan);
    var window := [];
    assert Build(chain.entries, window) == Start(run, plan);
    for i := 0 to n
      invariant fresh(chain)
      invariant Build(chain.entries, window) == Built(sha, digest, run, plan, i, Every(interval))
    {
      window := BuildTurn(sha, digest, chain, window, i, (i + 1) % interval == 0);
    }
    return chain.entries;
  }

  // ----- cold verification

  /** The last checkpoint, or the genesis when there is none. */
  function LastCheckpoint(entries: seq<Entry>): (p: nat)
    requires entries != []
    ensures p < |entries| && (p == 0 || IsCheckpoint(entries[p]))
    ensures forall k | p < k < |entries| :: !IsCheckpoint(entries[k])
  {
    var last := |entries| - 1;
    if last == 0 || IsCheckpoint(entries[last]) then last
    else
      var p := LastCheckpoint(entries[..last]);
      assert forall k | p < k < last :: entries[k] == entries[..last][k];
      p
  }

  ghost predicate LinksBack(digest: LinkDigest, entries: seq<Entry>, i: nat)
    requires 0 < i < |entries|
  {
    Get(entries[i], "prev") == PrevField(digest(LinkOf(entries[i - 1])))
  }

  ghost predicate TailLinks(digest: LinkDigest, entries: seq<Entry>)
    requires entries != []
  {
    forall i | LastCheckpoint(entries) < i < |entries| :: LinksBack(digest, entries, i)
  }

  method ColdVerify(digest: LinkDigest, entries: seq<Entry>) returns (ok: bool, tail: nat)
    ensures entries == [] ==> ok && tail == 0
    ensures entries != [] ==> (ok <==> TailLinks(digest, entries))
    ensures entries != [] && ok ==> tail == |entries| - 1 - LastCheckpoint(entries)
    ensures !ok && entries != [] ==>
              && var bad := LastCheckpoint(entries) + 1 + tail;
              && bad < |entries| && !LinksBack(digest, entries, bad)
              && forall i | LastCheckpoint(entries) < i < bad :: LinksBack(digest, entries, i)
  {
    var lastCp: int := |entries| - 1;
    while lastCp > 0 && !IsCheckpoint(entries[lastCp])
      invariant if entries == [] then lastCp == -1 else 0 <= lastCp < |entries|
      invariant entries != [] ==> LastCheckpoint(entries[..lastCp + 1]) == LastCheckpoint(entries)
    {
      assert entries[..lastCp + 1][..lastCp] == entries[..lastCp];
      lastCp := lastCp - 1;
    }
    assert entries != [] ==> lastCp == LastCheckpoint(entries);
    tail := 0;
    for i := lastCp + 1 to |entries|
      invariant tail == i - lastCp - 1
      invariant entries != [] ==> forall k | lastCp < k < i :: LinksBack(digest, entries, k)
    {
      if Get(entries[i], "prev") != PrevField(digest(LinkOf(entries[i - 1]))) {
        assert !LinksBack(digest, entries, i);
        return false, tail;
      }
      tail := tail + 1;
    }
    return true, tail;
  }

  /** What cold verification leaves to the full pass: the record's type and its contiguous seq. */
  ghost predicate Shaped(entries: seq<Entry>, i: nat)
    requires 0 < i < |entries|
  {
    var e := entries[i];
    && e.Dict? && !IsGenesis(e) && Get(e, "prev") != PrevField(ZERO)
    && SeqOf(e).Some?
    && (SeqOf(entries[i - 1]).Some? ==> SeqOf(e).value == SeqOf(entries[i - 1]).value + 1)
  }

  ghost predicate TailShaped(entries: seq<Entry>)
    requires entries != []
  {
    forall i | LastCheckpoint(entries) < i < |entries| :: Shaped(entries, i)
  }

  /** The full pass is cold verification, plus an accepted chain up to the trusted checkpoint and a well-shaped tail. */
  lemma ColdAgreesWithFullPass(digest: LinkDigest, entries: seq<Entry>)
    requires entries != []
    ensures var trusted := entries[..LastCheckpoint(entries) + 1];
            Valid(digest, entries) <==> Valid(digest, trusted) && TailLinks(digest, entries) && TailShaped(entries)
  {
    var p := LastCheckpoint(entries);
    var trusted := entries[..p + 1];
    assert trusted[0] == entries[0];
    forall i | 0 < i < |entries|
      ensures Follows(digest, entries, i) <==> LinksBack(digest, entries, i) && Shaped(entries, i)
    {
      FollowsSplits(digest, entries, i);
    }
    forall i | 0 < i <= p ensures Follows(digest, entries, i) <==> Follows(digest, trusted, i) {
      FollowsLocal(digest, entries, trusted, i);
    }
  }

  lemma FollowsSplits(digest: LinkDigest, entries: seq<Entry>, i: nat)
    requires 0 < i < |entries|
    ensures Follows(digest, entries, i) <==> LinksBack(digest, entries, i) && Shaped(entries, i)
  {
  }

  lemma FollowsLocal(digest: LinkDigest, xs: seq<Entry>, ys: seq<Entry>, i: nat)
    requires 0 < i < |xs| && i < |ys| && xs[i] == ys[i] && xs[i - 1] == ys[i - 1]
    ensures Follows(digest, xs, i) <==> Follows(digest, ys, i)
  {
  }

  // ----- audit

  /** Entries by seq; a later entry replaces an earlier one of the same seq. */
  function BySeq(entries: seq<Entry>): map<int, Entry>
  {
    if entries == [] then map[]
    else
      var last := entries[|entries| - 1];
      var m := BySeq(entries[..|entries| - 1]);
      if SeqOf(last).Some? then m[SeqOf(last).value := last] else m
  }

  function WindowOf(bySeq: map<int, Entry>, start: int, stop: int): seq<Entry>
    decreases stop - start
  {
    if start >= stop then []
    else
      (if start in bySeq && !IsCheckpoint(bySeq[start]) then [bySeq[start]] else [])
      + WindowOf(bySeq, start + 1, stop)
  }

  function IntField(e: Entry, key: string): Option<int>
  {
    match Get(e, key)
    case Some(Int(n)) => Some(n)
    case _ => None
  }

  datatype Verdict = Clean | Forged(at: nat) | Failed

  /** A checkpoint with integer bounds whose root is the root of its window. */
  ghost predicate RootMatches(sha: Hash, digest: LinkDigest, entries: seq<Entry>, e: Entry)
  {
    var ws, we := IntField(e, "window_start"), IntField(e, "window_end");
    && ws.Some? && we.Some?
    && RootField(sha, digest, WindowOf(BySeq(entries), ws.value, we.value + 1)) == Get(e, "merkle_root")
  }

  ghost predicate AuditClean(sha: Hash, digest: LinkDigest, entries: seq<Entry>)
  {
    forall i | 0 <= i < |entries| && IsCheckpoint(entries[i]) :: RootMatches(sha, digest, entries, entries[i])
  }

  method IndexBySeq(entries: seq<Entry>) returns (bySeq: map<int, Entry>)
    ensures bySeq == BySeq(entries)
  {
    bySeq := map[];
    for i := 0 to |entries|
      invariant bySeq == BySeq(entries[..i])
    {
      assert entries[..i + 1][..i] == entries[..i];
      if SeqOf(entries[i]).Some? {
        bySeq := bySeq[SeqOf(entries[i]).value := entries[i]];
      }
    }
    assert entries[..|entries|] == entries;
  }

  method CollectWindow(bySeq: map<int, Entry>, ws: int, we: int) returns (window: seq<Entry>)
    ensures window == WindowOf(bySeq, ws, we + 1)
  {
    window := [];
    var s := ws;
    while s <= we
      invariant window + WindowOf(bySeq, s, we + 1) == WindowOf(bySeq, ws, we + 1)
    {
      if s in bySeq && !IsCheckpoint(bySeq[s]) {
        window := window + [bySeq[s]];
      }
      s := s + 1;
    }
  }

  /** The deep pass: clean exactly when every checkpoint's root is the root of its window; Failed is a TypeError. */
  method AuditCheckpoints(sha: Hash, digest: LinkDigest, entries: seq<Entry>) returns (verdict: Verdict)
    ensures verdict.Clean? <==> AuditClean(sha, digest, entries)
    ensures verdict.Forged? ==>
              && verdict.at < |entries| && IsCheckpoint(entries[verdict.at])
              && !RootMatches(sha, digest, entries, entries[verdict.at])
              && forall k | 0 <= k < verdict.at && IsCheckpoint(entries[k]) :: RootMatches(sha, digest, entries, entries[k])
  {
    var bySeq := IndexBySeq(entries);
    for i := 0 to |entries|
      invariant forall k | 0 <= k < i && IsCheckpoint(entries[k]) :: RootMatches(sha, digest, entries, entries[k])
    {
      var e := entries[i];
      if IsCheckpoint(e) {
        var ws, we := IntField(e, "window_start"), IntField(e, "window_end");
        if ws.None? || we.None? {
          return Failed;
        }
        var window := CollectWindow(bySeq, ws.value, we.value);
        var root := Merkle.MerkleRoot(sha, Leaves(digest, window));
        if Some(Str(Hex(root))) != Get(e, "merkle_root") {
          return Forged(i);
        }
      }
    }
    return Clean;
  }
}
