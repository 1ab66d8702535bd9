/**
  durable_append (infra/cwp/ledger.py) as a protocol: any number of processes share one file under an exclusive lock,
  every write may be short, a process may die between any two steps, and a power loss may drop bytes not yet synced.
 */
module DurableLedger {
  import opened Prelude
  import opened Encoding
  import opened Json
  import opened Chain
  import opened StoredForm
  import opened LedgerFile

  /** The environment of a run: the codec, the digest of the chain's schema, and the origin of the genesis. */
  datatype World = World(codec: Codec, digest: LinkDigest, run: string, plan: string) {
    ghost predicate Ok() {
      codec.Faithful() && run != "" && plan != "" && forall l: Link :: digest(l) != ZERO
    }
  }

  datatype Phase =
    | Idle
    | Waiting(record: Link)             // wants the lock
    | Locked(record: Link)              // holds it, has read nothing yet
    | Ready(rec: Link, cleanEnd: nat)   // has linked its record to the tip
    | Writing(rec: Link, off: nat)      // torn tail dropped, off bytes of the line written
    | Synced(rec: Link)                 // fsync has returned

  predicate Critical(ph: Phase)
  {
    ph.Locked? || ph.Ready? || ph.Writing? || ph.Synced?
  }

  datatype State = State(file: Bytes, synced: nat, lock: Option<nat>, procs: map<nat, Phase>, acked: seq<Link>) {
    function At(p: nat): Phase {
      if p in procs then procs[p] else Idle
    }

    function Move(p: nat, ph: Phase): State {
      this.(procs := procs[p := ph])
    }

    /** The process is gone; the kernel drops its lock. */
    function Release(p: nat): State {
      this.(procs := procs[p := Idle], lock := if lock == Some(p) then None else lock)
    }
  }

  datatype Step =
    | Call(p: nat, record: Link)
    | Acquire(p: nat)
    | Read(p: nat)
    | Heal(p: nat)
    | Write(p: nat, n: nat)
    | Sync(p: nat)
    | Return(p: nat)
    | Die(p: nat)
    | PowerLoss(n: nat)

  ghost predicate Enabled(w: World, s: State, step: Step)
  {
    match step
    case Call(p, record) => s.At(p).Idle? && Storable(record)
    case Acquire(p) => s.At(p).Waiting? && s.lock.None?
    case Read(p) => s.At(p).Locked?
    case Heal(p) => s.At(p).Ready?
    case Write(p, n) =>
      s.At(p).Writing? && 1 <= n && s.At(p).off + n <= |LineOf(w.codec, s.At(p).rec)|
    case Sync(p) => s.At(p).Writing? && s.At(p).off == |LineOf(w.codec, s.At(p).rec)|
    case Return(p) => s.At(p).Synced?
    case Die(p) => true
    case PowerLoss(n) => s.synced <= n <= |s.file|
  }

  /** What the reader of the tip goes on with; an exception unlocks and ends the call. */
  function AfterRead(w: World, s: State, p: nat, record: Link): State
  {
    var tail := TailOf(w.codec, s.file);
    if tail.Raised? then s.Release(p)
    else
      match LinkRecord(w.digest, tail.tip, record)
      case None => s.Release(p)
      case Some(rec) => s.Move(p, Ready(rec, tail.cleanEnd))
  }

  ghost function Apply(w: World, s: State, step: Step): State
    requires Enabled(w, s, step)
  {
    match step
    case Call(p, record) => s.Move(p, Waiting(record))
    case Acquire(p) => s.Move(p, Locked(s.At(p).record)).(lock := Some(p))
    case Read(p) => AfterRead(w, s, p, s.At(p).record)
    case Heal(p) =>
      var n := if s.At(p).cleanEnd < |s.file| then s.At(p).cleanEnd else |s.file|;
      s.Move(p, Writing(s.At(p).rec, 0)).(file := s.file[..n], synced := if s.synced < n then s.synced else n)
    case Write(p, n) =>
      var ph := s.At(p);
      var line := LineOf(w.codec, ph.rec);
      s.Move(p, Writing(ph.rec, ph.off + n)).(file := s.file + line[ph.off..ph.off + n])
    case Sync(p) => s.Move(p, Synced(s.At(p).rec)).(synced := |s.file|)
    case Return(p) => s.Release(p).(acked := s.acked + [s.At(p).rec])
    case Die(p) => s.Release(p)
    case PowerLoss(n) => s.(file := s.file[..n], lock := None, procs := map[])
  }

  /** s' is reached from s by these steps. */
  ghost predicate Run(w: World, s: State, steps: seq<Step>, s': State)
    decreases |steps|
  {
    if steps == [] then s == s'
    else Enabled(w, s, steps[0]) && Run(w, Apply(w, s, steps[0]), steps[1..], s')
  }

  function GenesisFields(w: World): Link
  {
    Genesis(w.run, w.plan).fields
  }

  /** A freshly written genesis file, synced, with no process at work. */
  function Initial(w: World): State
  {
    var file := LineOf(w.codec, GenesisFields(w));
    State(file, |file|, None, map[], [])
  }

  /** An empty file and no process at work. */
  function Fresh(): State
  {
    State([], 0, None, map[], [])
  }

  // ----- what the file holds

  function Decode(codec: Codec, lines: seq<Bytes>): (recs: seq<Link>)
    ensures |recs| == |lines|
  {
    seq(|lines|, i requires 0 <= i < |lines| =>
      match codec.loads(lines[i])
      case Some(Dict(fields)) => fields
      case _ => map[])
  }

  function Records(w: World, file: Bytes): seq<Link>
  {
    Decode(w.codec, Lines(file))
  }

  function Dicts(recs: seq<Link>): (entries: seq<Entry>)
    ensures |entries| == |recs|
  {
    seq(|recs|, i requires 0 <= i < |recs| => Dict(recs[i]))
  }

  /** Committed lines that parse, and that the full verification accepts unless there is none. */
  ghost predicate Sound(w: World, lines: seq<Bytes>)
  {
    var recs := Decode(w.codec, lines);
    && (forall i | 0 <= i < |lines| :: w.codec.loads(lines[i]) == Some(Dict(recs[i])) && !Blank(lines[i]))
    && (lines != [] ==> Accepted(w.digest, Dicts(recs), Some(w.run), Some(w.plan)))
    && (forall i | 0 <= i < |recs| :: SeqOf(Dict(recs[i])) == Some(i))
  }

  ghost predicate FileOk(w: World, file: Bytes)
  {
    Sound(w, Lines(file))
  }

  /** The acknowledged records as the file gives them back. */
  function StoredAll(recs: seq<Link>): (stored: seq<Link>)
    ensures |stored| == |recs|
  {
    seq(|recs|, i requires 0 <= i < |recs| => StoredRecord(recs[i]))
  }

  // ----- which record may come next

  /** A genesis of this run and plan that binds its origin. */
  ghost predicate Founds(w: World, record: Link)
  {
    var e := Dict(record);
    IsGenesis(e) && BindsOrigin(e) && Expected(e, "run_id", Some(w.run)) && Expected(e, "plan_sha", Some(w.plan))
  }

  /** With no committed line the genesis of the run, and afterwards no genesis. */
  ghost predicate Apt(w: World, file: Bytes, record: Link)
  {
    if Lines(file) == [] then Founds(w, record) else !IsGenesis(Dict(record))
  }

  ghost predicate AptStep(w: World, s: State, step: Step)
  {
    step.Read? && s.At(step.p).Locked? ==> Apt(w, s.file, s.At(step.p).record)
  }

  /** A run in which every record is apt for the file it is linked to. */
  ghost predicate AptRun(w: World, s: State, steps: seq<Step>, s': State)
    decreases |steps|
  {
    if steps == [] then s == s'
    else Enabled(w, s, steps[0]) && AptStep(w, s, steps[0]) && AptRun(w, Apply(w, s, steps[0]), steps[1..], s')
  }

  /** xs is what remains of ys after dropping some elements. */
  ghost predicate Subsequence<T>(xs: seq<T>, ys: seq<T>)
  {
    xs == [] || (ys != [] && (Subsequence(xs, ys[..|ys| - 1])
                              || (xs[|xs| - 1] == ys[|ys| - 1] && Subsequence(xs[..|xs| - 1], ys[..|ys| - 1]))))
  }

  lemma {:induction false} SubsequenceExtends<T>(xs: seq<T>, ys: seq<T>, more: seq<T>)
    requires Subsequence(xs, ys)
    ensures Subsequence(xs, ys + more)
    decreases |more|
  {
    if more == [] {
      assert ys + more == ys;
    } else {
      SubsequenceExtends(xs, ys, more[..|more| - 1]);
      assert (ys + more)[..|ys + more| - 1] == ys + more[..|more| - 1];
    }
  }

  lemma SubsequenceAppend<T>(xs: seq<T>, ys: seq<T>, x: T)
    requires Subsequence(xs, ys)
    ensures Subsequence(xs + [x], ys + [x])
  {
    assert (xs + [x])[..|xs|] == xs && (ys + [x])[..|ys|] == ys;
  }

  // ----- the invariant

  ghost predicate PhaseOk(w: World, s: State, ph: Phase)
  {
    match ph
    case Idle => true
    case Waiting(record) => Storable(record)
    case Locked(record) => Storable(record)
    case Ready(rec, cleanEnd) =>
      cleanEnd == CleanEnd(s.file) && Storable(rec) && FileOk(w, s.file[..cleanEnd] + LineOf(w.codec, rec))
    case Writing(rec, off) =>
      var line := LineOf(w.codec, rec);
      && off <= |line| && s.synced + off <= |s.file| && Storable(rec)
      && var base := s.file[..|s.file| - off];
         Clean(base) && s.file == base + line[..off] && FileOk(w, base + line)
    case Synced(rec) =>
      var line := LineOf(w.codec, rec);
      && s.synced == |s.file| && |line| <= |s.file| && Storable(rec)
      && var base := s.file[..|s.file| - |line|];
         Clean(base) && s.file == base + line && Subsequence(StoredAll(s.acked), Records(w, base))
  }

  ghost predicate Inv(w: World, s: State)
  {
    && FileOk(w, s.file)
    && s.synced <= |s.file| && Clean(s.file[..s.synced])
    && Subsequence(StoredAll(s.acked), Records(w, s.file[..s.synced]))
    && (forall p: nat :: Critical(s.At(p)) ==> s.lock == Some(p))
    && (forall p: nat :: PhaseOk(w, s, s.At(p)))
  }

  // ----- facts about the file

  /** The lines of a clean prefix are the first lines. */
  lemma PrefixRecords(w: World, a: Bytes, rest: Bytes)
    requires Clean(a)
    ensures Records(w, a + rest) == Records(w, a) + Decode(w.codec, Lines(rest))
  {
    LinesConcat(a, rest);
  }

  lemma SoundPrefix(w: World, lines: seq<Bytes>, n: nat)
    requires Sound(w, lines) && n <= |lines|
    ensures Sound(w, lines[..n])
  {
    hide Get, Blank, LinkOf;
    var recs := Decode(w.codec, lines);
    assert Decode(w.codec, lines[..n]) == recs[..n];
    assert Dicts(recs[..n]) == Dicts(recs)[..n];
    forall i | 0 < i < n ensures Follows(w.digest, Dicts(recs)[..n], i) {
      assert Follows(w.digest, Dicts(recs), i);
    }
  }

  lemma SplitAt(file: Bytes, n: nat)
    requires n <= |file|
    ensures file == file[..n] + file[n..]
  {
  }

  lemma LinesOfCut(file: Bytes, k: nat)
    requires k <= |file|
    ensures Lines(file[..k]) <= Lines(file)
  {
    var cut := file[..k];
    var n := CleanEnd(cut);
    CleanPart(cut);
    hide Lines, CleanEnd;
    assert cut[..n] == file[..n];
    SplitAt(file, n);
    LinesConcat(file[..n], file[n..]);
  }

  lemma LinesNonEmpty(file: Bytes, k: nat)
    requires 0 < k <= |file| && Clean(file[..k])
    ensures Lines(file) != []
  {
    assert file == file[..k] + file[k..];
    var line, rest := FirstLine(file[..k]);
    LinesStep(line, rest);
    LinesConcat(file[..k], file[k..]);
  }

  /** Cutting a sound file anywhere leaves a sound file. */
  lemma CutOk(w: World, file: Bytes, k: nat)
    requires FileOk(w, file) && k <= |file|
    ensures FileOk(w, file[..k])
  {
    LinesOfCut(file, k);
    SoundPrefix(w, Lines(file), |Lines(file[..k])|);
    assert Lines(file)[..|Lines(file[..k])|] == Lines(file[..k]);
  }

  lemma TornOk(w: World, base: Bytes, torn: Bytes)
    requires Clean(base) && NoNewline(torn)
    ensures FileOk(w, base + torn) <==> FileOk(w, base)
  {
    LinesAppend(base, [], torn);
  }

  /** A synced clean prefix lies within the part the healer keeps. */
  lemma SyncedIsKept(file: Bytes, synced: nat)
    requires synced <= |file| && Clean(file[..synced])
    ensures synced <= CleanEnd(file)
  {
    if synced > 0 {
      assert file[synced - 1] == NEWLINE;
      RFindLast(file, |file|);
    }
  }

  lemma StoredField(record: Link, key: string)
    ensures Get(Dict(StoredRecord(record)), key).Some? <==> Get(Dict(record), key).Some?
    ensures forall t :: Get(Dict(StoredRecord(record)), key) == Some(Str(t)) <==> Get(Dict(record), key) == Some(Str(t))
    ensures forall n :: Get(Dict(StoredRecord(record)), key) == Some(Int(n)) <==> Get(Dict(record), key) == Some(Int(n))
  {
  }

  /** Scalars are stored as they are. */
  lemma StoredUpdate(record: Link, key: string, v: Json)
    requires v.Str? || v.Int?
    ensures StoredRecord(record[key := v]) == StoredRecord(record)[key := v]
    ensures Storable(record) ==> Storable(record[key := v])
  {
    assert Stored(v) == v;
  }

  /** Linking and storing commute. */
  lemma StoredLinked(digest: LinkDigest, last: Entry, n: int, record: Link)
    ensures StoredRecord(Linked(digest, last, n, record).fields) == Linked(digest, last, n, StoredRecord(record)).fields
    ensures Storable(record) ==> Storable(Linked(digest, last, n, record).fields)
  {
    hide StoredRecord, Storable, LinkOf;
    StoredUpdate(record, "seq", Int(n + 1));
    StoredUpdate(record["seq" := Int(n + 1)], "prev", Str(Hex(digest(LinkOf(last)))));
  }

  lemma StoredFirst(record: Link)
    ensures var first := record["seq" := Int(0)]["prev" := Str(Hex(ZERO))];
            && StoredRecord(first) == StoredRecord(record)["seq" := Int(0)]["prev" := Str(Hex(ZERO))]
            && (Storable(record) ==> Storable(first))
  {
    hide StoredRecord, Storable;
    StoredUpdate(record, "seq", Int(0));
    StoredUpdate(record["seq" := Int(0)], "prev", Str(Hex(ZERO)));
  }

  /**
    The record that a call writes can always be linked to a sound file, and the file stays sound exactly if the record
    is apt for it.
   */
  lemma LinkedLineOk(w: World, file: Bytes, record: Link)
    requires w.Ok() && FileOk(w, file) && Storable(record)
    ensures var tail := TailOf(w.codec, file);
            && tail.Tail? && tail.cleanEnd == CleanEnd(file)
            && LinkRecord(w.digest, tail.tip, record).Some?
            && var rec := LinkRecord(w.digest, tail.tip, record).value;
               Storable(rec) && (FileOk(w, file[..tail.cleanEnd] + LineOf(w.codec, rec)) <==> Apt(w, file, record))
  {
    hide FileOk, TailOf, LinkRecord, Lines, CleanEnd, IsGenesis, World.Ok, Linked, LineOf, Apt, Storable, StoredRecord;
    var recs := Records(w, file);
    if Lines(file) == [] {
      TipOfEmpty(w, file);
      FirstFileOk(w, file, record);
    } else {
      TipOfSound(w, file);
      LinkToTip(w.digest, recs[|recs| - 1], |recs| - 1, record);
      LinkedFileOk(w, file, record);
    }
  }

  lemma TipOfEmpty(w: World, file: Bytes)
    requires Lines(file) == []
    ensures TailOf(w.codec, file) == Tail(None, 0) && CleanEnd(file) == 0
    ensures forall record :: LinkRecord(w.digest, None, record) == Some(record["seq" := Int(0)]["prev" := Str(Hex(ZERO))])
  {
    if CleanEnd(file) > 0 {
      LastLineIs(file);
    }
  }

  lemma TipOfSound(w: World, file: Bytes)
    requires w.Ok() && FileOk(w, file) && Lines(file) != []
    ensures var recs := Records(w, file);
            && recs != [] && SeqOf(Dict(recs[|recs| - 1])) == Some(|recs| - 1)
            && TailOf(w.codec, file) == Tail(Some(Dict(recs[|recs| - 1])), CleanEnd(file))
  {
    hide Get, Accepted, CleanEnd, Lines;
    CleanEndOf(w.codec, file);
  }

  lemma LinkToTip(digest: LinkDigest, last: Link, n: int, record: Link)
    requires SeqOf(Dict(last)) == Some(n)
    ensures LinkRecord(digest, Some(Dict(last)), record) == Some(Linked(digest, Dict(last), n, record).fields)
  {
  }

  lemma LinesOfNewLine(w: World, file: Bytes, rec: Link)
    requires w.Ok() && Storable(rec)
    ensures Lines(file[..CleanEnd(file)] + LineOf(w.codec, rec)) == Lines(file) + [w.codec.dumps(rec)]
  {
    hide Lines, CleanEnd;
    var base := file[..CleanEnd(file)];
    CleanPart(file);
    LinesAppend(base, w.codec.dumps(rec), []);
    assert base + LineOf(w.codec, rec) + [] == base + LineOf(w.codec, rec);
  }

  /** The first record of a file is accepted on its own exactly if it founds the run. */
  lemma FirstFileOk(w: World, file: Bytes, record: Link)
    requires w.Ok() && FileOk(w, file) && Storable(record) && Lines(file) == []
    ensures var first := record["seq" := Int(0)]["prev" := Str(Hex(ZERO))];
            Storable(first) && (FileOk(w, file[..CleanEnd(file)] + LineOf(w.codec, first)) <==> Apt(w, file, record))
  {
    hide Lines, CleanEnd, LineOf, Storable, StoredRecord, Accepted, IsGenesis, Decode;
    var first := record["seq" := Int(0)]["prev" := Str(Hex(ZERO))];
    StoredFirst(record);
    LinesOfNewLine(w, file, first);
    assert [] + [w.codec.dumps(first)] == [w.codec.dumps(first)];
    SoundOne(w, first);
    FirstAccepted(w, record);
  }

  lemma SoundOne(w: World, rec: Link)
    requires w.Ok() && Storable(rec) && SeqOf(Dict(StoredRecord(rec))) == Some(0)
    ensures Sound(w, [w.codec.dumps(rec)]) <==> Accepted(w.digest, [Dict(StoredRecord(rec))], Some(w.run), Some(w.plan))
  {
    hide Accepted;
    var lines := [w.codec.dumps(rec)];
    assert Decode(w.codec, lines) == [StoredRecord(rec)];
    assert Dicts([StoredRecord(rec)]) == [Dict(StoredRecord(rec))];
  }

  /** A file that begins with the record is accepted exactly if the record is a genesis binding the run and the plan. */
  lemma FirstAccepted(w: World, record: Link)
    ensures var first := StoredRecord(record["seq" := Int(0)]["prev" := Str(Hex(ZERO))]);
            && SeqOf(Dict(first)) == Some(0)
            && (Accepted(w.digest, [Dict(first)], Some(w.run), Some(w.plan)) <==> Founds(w, record))
  {
    var first := StoredRecord(record["seq" := Int(0)]["prev" := Str(Hex(ZERO))]);
    var e, f := Dict(first), Dict(StoredRecord(record));
    FirstFields(record);
    hide StoredRecord, Truthy, Get;
    StoredField(record, "type");
    StoredField(record, "run_id");
    StoredField(record, "plan_sha");
    StoredOrigin(record);
  }

  lemma FirstFields(record: Link)
    ensures var e, f := Dict(StoredRecord(record["seq" := Int(0)]["prev" := Str(Hex(ZERO))])), Dict(StoredRecord(record));
            && Get(e, "seq") == Some(Int(0)) && Get(e, "prev") == PrevField(ZERO)
            && Get(e, "type") == Get(f, "type") && Get(e, "run_id") == Get(f, "run_id") && Get(e, "plan_sha") == Get(f, "plan_sha")
            && Get(e, "supersedes_head") == Get(f, "supersedes_head") && Get(e, "supersedes") == Get(f, "supersedes")
  {
    hide StoredRecord;
    StoredFirst(record);
  }

  lemma StoredTruthy(record: Link, key: string)
    ensures Truthy(Get(Dict(StoredRecord(record)), key)) <==> Truthy(Get(Dict(record), key))
  {
    match Get(Dict(record), key) {
      case Some(Obj(members)) =>
        StoredDict(members);
        SortByCodeKeeps(StoredMembers(members));
      case _ =>
    }
  }

  lemma StoredOrigin(record: Link)
    ensures BindsOrigin(Dict(StoredRecord(record))) <==> BindsOrigin(Dict(record))
  {
    hide StoredRecord, Truthy, Get;
    StoredTruthy(record, "run_id");
    StoredTruthy(record, "plan_sha");
    StoredTruthy(record, "supersedes_head");
    StoredTruthy(record, "supersedes");
  }

  lemma LinkedFileOk(w: World, file: Bytes, record: Link)
    requires w.Ok() && FileOk(w, file) && Storable(record) && Lines(file) != []
    ensures var recs := Records(w, file);
            var rec := Linked(w.digest, Dict(recs[|recs| - 1]), |recs| - 1, record).fields;
            Storable(rec) && (FileOk(w, file[..CleanEnd(file)] + LineOf(w.codec, rec)) <==> Apt(w, file, record))
  {
    var lines, recs := Lines(file), Records(w, file);
    var rec := Linked(w.digest, Dict(recs[|recs| - 1]), |recs| - 1, record).fields;
    hide Linked, Sound, Lines, CleanEnd, IsGenesis, Decode, LineOf, World.Ok, Storable, StoredRecord;
    StoredLinked(w.digest, Dict(recs[|recs| - 1]), |recs| - 1, record);
    LinesOfNewLine(w, file, rec);
    SoundAppend(w, lines, record);
  }

  lemma DecodeAppend(w: World, lines: seq<Bytes>, rec: Link)
    requires w.Ok() && Storable(rec)
    ensures Decode(w.codec, lines + [w.codec.dumps(rec)]) == Decode(w.codec, lines) + [StoredRecord(rec)]
    ensures Dicts(Decode(w.codec, lines) + [StoredRecord(rec)])
         == Dicts(Decode(w.codec, lines)) + [Dict(StoredRecord(rec))]
  {
    hide StoredRecord, Storable;
    assert w.codec.loads(w.codec.dumps(rec)) == Some(Dict(StoredRecord(rec)));
  }

  lemma SoundAppend(w: World, lines: seq<Bytes>, record: Link)
    requires w.Ok() && Sound(w, lines) && lines != [] && Storable(record)
    ensures var recs := Decode(w.codec, lines);
            var n := |lines|;
            Sound(w, lines + [w.codec.dumps(Linked(w.digest, Dict(recs[n - 1]), n - 1, record).fields)])
            <==> !IsGenesis(Dict(record))
  {
    var recs := Decode(w.codec, lines);
    var n, entries := |lines|, Dicts(recs);
    var last := entries[n - 1];
    var rec := Linked(w.digest, last, n - 1, record).fields;
    var stored := Linked(w.digest, last, n - 1, StoredRecord(record));
    assert w.digest(LinkOf(last)) != ZERO && SeqOf(last) == Some(n - 1) && LastSeq(entries) == Some(n - 1);
    StoredField(record, "type");
    StoredLinked(w.digest, last, n - 1, record);
    GenesisByType(record);
    hide Accepted, IsGenesis, Linked, Get, SeqOf, LinkOf, LastSeq, StoredRecord, Storable, Decode, Blank;
    LinkedFollows(w.digest, last, n - 1, StoredRecord(record));
    AppendAccepted(w.digest, entries, StoredRecord(record), Some(w.run), Some(w.plan));
    DecodeAppend(w, lines, rec);
    SoundLonger(w, lines, w.codec.dumps(rec), StoredRecord(rec));
  }

  lemma GenesisByType(record: Link)
    ensures IsGenesis(Dict(StoredRecord(record))) <==> IsGenesis(Dict(record))
  {
    StoredField(record, "type");
  }

  lemma SoundLonger(w: World, lines: seq<Bytes>, line: Bytes, rec: Link)
    requires Sound(w, lines) && w.codec.loads(line) == Some(Dict(rec)) && !Blank(line)
    requires Decode(w.codec, lines + [line]) == Decode(w.codec, lines) + [rec]
    requires SeqOf(Dict(rec)) == Some(|lines|)
    ensures Sound(w, lines + [line]) <==>
              Accepted(w.digest, Dicts(Decode(w.codec, lines) + [rec]), Some(w.run), Some(w.plan))
  {
    hide Accepted, Get, Blank;
  }

  // ----- every step keeps the invariant

  /** Processes outside the critical section do not care about the file. */
  lemma Bystander(w: World, s: State, s': State, ph: Phase)
    requires PhaseOk(w, s, ph)
    requires !Critical(ph) || (s'.file == s.file && s'.synced == s.synced && s'.acked == s.acked)
    ensures PhaseOk(w, s', ph)
  {
  }

  /** One process moves; nobody else is critical, or nothing they look at changes. */
  lemma OthersOk(w: World, s: State, s': State, p: nat)
    requires Inv(w, s)
    requires forall q: nat | q != p :: s'.At(q) == s.At(q)
    requires || (forall q: nat | q != p :: !Critical(s.At(q)))
             || (s'.file == s.file && s'.synced == s.synced && s'.acked == s.acked && s'.lock == s.lock)
    requires Critical(s'.At(p)) ==> s'.lock == Some(p)
    requires PhaseOk(w, s', s'.At(p))
    ensures forall q: nat :: Critical(s'.At(q)) ==> s'.lock == Some(q)
    ensures forall q: nat :: PhaseOk(w, s', s'.At(q))
  {
    forall q: nat ensures PhaseOk(w, s', s'.At(q)) {
      if q != p {
        Bystander(w, s, s', s.At(q));
      }
    }
  }

  lemma ReadKeeps(w: World, s: State, p: nat)
    requires w.Ok() && Inv(w, s) && s.At(p).Locked? && Apt(w, s.file, s.At(p).record)
    ensures Inv(w, AfterRead(w, s, p, s.At(p).record))
  {
    hide FileOk, CleanEnd, Records, LineOf, Clean, Subsequence, TailOf, LinkRecord, IsGenesis, Apt, Storable;
    var record := s.At(p).record;
    assert PhaseOk(w, s, s.At(p));
    LinkedLineOk(w, s.file, record);
    OthersOk(w, s, AfterRead(w, s, p, record), p);
  }

  /** Dropping the torn tail loses no line and nothing that was synced. */
  lemma HealedFile(w: World, file: Bytes, synced: nat)
    requires FileOk(w, file) && synced <= |file| && Clean(file[..synced])
    ensures var healed := file[..CleanEnd(file)];
            && FileOk(w, healed) && Clean(healed)
            && synced <= |healed| && healed[..synced] == file[..synced]
  {
    hide FileOk, CleanEnd, RFind, Lines;
    CleanPart(file);
    SyncedIsKept(file, synced);
    CutOk(w, file, CleanEnd(file));
    PrefixOfPrefix(file, synced, CleanEnd(file));
  }

  lemma HealKeeps(w: World, s: State, p: nat)
    requires Inv(w, s) && s.At(p).Ready?
    ensures Inv(w, Apply(w, s, Heal(p)))
  {
    hide FileOk, CleanEnd, Records, LineOf, Clean, Subsequence, IsGenesis;
    assert PhaseOk(w, s, s.At(p));
    HealedFile(w, s.file, s.synced);
    var s' := Apply(w, s, Heal(p));
    NothingWritten(s'.file, LineOf(w.codec, s.At(p).rec));
    OthersOk(w, s, s', p);
  }

  lemma PrefixOfPrefix(file: Bytes, m: nat, n: nat)
    requires m <= n <= |file|
    ensures file[..n][..m] == file[..m]
  {
  }

  lemma NothingWritten(base: Bytes, line: Bytes)
    ensures base[..|base| - 0] == base && base + line[..0] == base
  {
  }

  /** A partly written line is torn; a fully written one is committed. */
  lemma WrittenOk(w: World, base: Bytes, rec: Link, off: nat)
    requires w.Ok() && Clean(base) && FileOk(w, base) && Storable(rec) && off <= |LineOf(w.codec, rec)|
    requires FileOk(w, base + LineOf(w.codec, rec))
    ensures FileOk(w, base + LineOf(w.codec, rec)[..off])
  {
    var line := LineOf(w.codec, rec);
    if off < |line| {
      assert NoNewline(w.codec.dumps(rec));
      assert line[..off] == w.codec.dumps(rec)[..off];
      TornOk(w, base, line[..off]);
    } else {
      assert line[..off] == line;
    }
  }

  lemma WriteKeeps(w: World, s: State, p: nat, n: nat)
    requires w.Ok() && Inv(w, s) && Enabled(w, s, Write(p, n))
    ensures Inv(w, Apply(w, s, Write(p, n)))
  {
    hide FileOk, Records, Decode, Storable, Subsequence, StoredAll;
    var s' := Apply(w, s, Write(p, n));
    var rec, off := s.At(p).rec, s.At(p).off;
    assert PhaseOk(w, s, s.At(p));
    var base := s.file[..|s.file| - off];
    CutOk(w, s.file, |s.file| - off);
    WrittenOk(w, base, rec, off + n);
    MoreWritten(base, LineOf(w.codec, rec), off, n, s.file, s.synced);
    hide Apply, Enabled, LineOf, Clean, World.Ok;
    WritingMoves(w, s, s', p, rec, off + n, base);
  }

  lemma WritingMoves(w: World, s: State, s': State, p: nat, rec: Link, off: nat, base: Bytes)
    requires Inv(w, s) && s.At(p).Writing? && FileOk(w, s'.file) && Storable(rec) && off <= |LineOf(w.codec, rec)|
    requires s'.synced == s.synced && s'.lock == s.lock && s'.acked == s.acked && s'.procs == s.procs[p := Writing(rec, off)]
    requires s.synced <= |base| && Clean(base) && FileOk(w, base + LineOf(w.codec, rec))
    requires s'.file == base + LineOf(w.codec, rec)[..off] && s'.file[..|s'.file| - off] == base
    requires s.synced <= |s.file| && s'.file[..s.synced] == s.file[..s.synced]
    ensures Inv(w, s')
  {
    hide FileOk, Records, Storable, Subsequence, StoredAll, LineOf, Clean;
    OthersOk(w, s, s', p);
  }

  lemma MoreWritten(base: Bytes, line: Bytes, off: nat, n: nat, file: Bytes, synced: nat)
    requires off + n <= |line| && file == base + line[..off] && synced <= |base|
    ensures var file' := file + line[off..off + n];
            && file' == base + line[..off + n] && file'[..|file'| - (off + n)] == base
            && file'[..synced] == file[..synced]
  {
    assert line[..off + n] == line[..off] + line[off..off + n];
  }

  /** Bytes after a clean part do not take its records away. */
  lemma RecordsKept(w: World, acked: seq<Link>, kept: Bytes, rest: Bytes)
    requires Clean(kept) && Subsequence(acked, Records(w, kept))
    ensures Subsequence(acked, Records(w, kept + rest))
  {
    hide Records, Decode, Subsequence, Clean;
    PrefixRecords(w, kept, rest);
    SubsequenceExtends(acked, Records(w, kept), Decode(w.codec, Lines(rest)));
  }

  lemma SyncKeeps(w: World, s: State, p: nat)
    requires w.Ok() && Inv(w, s) && Enabled(w, s, Sync(p))
    ensures Inv(w, Apply(w, s, Sync(p)))
  {
    hide FileOk, Records, Subsequence, Storable, StoredAll;
    var s' := Apply(w, s, Sync(p));
    var rec := s.At(p).rec;
    var line := LineOf(w.codec, rec);
    assert PhaseOk(w, s, s.At(p));
    var base := s.file[..|s.file| - |line|];
    assert line[..|line|] == line;
    EndsInNewline(w.codec, rec);
    hide Apply, Enabled, LineOf, World.Ok;
    SyncMoves(w, s, s', p, rec, base);
  }

  lemma EndsInNewline(codec: Codec, rec: Link)
    ensures var line := LineOf(codec, rec); line != [] && line[|line| - 1] == NEWLINE
  {
  }

  lemma SyncMoves(w: World, s: State, s': State, p: nat, rec: Link, base: Bytes)
    requires Inv(w, s) && s.At(p).Writing? && Storable(rec)
    requires s' == s.Move(p, Synced(rec)).(synced := |s.file|)
    requires s.file == base + LineOf(w.codec, rec) && Clean(base) && s.synced <= |base|
    requires var line := LineOf(w.codec, rec); line != [] && line[|line| - 1] == NEWLINE
    ensures Inv(w, s')
  {
    hide FileOk, Records, Subsequence, Storable, StoredAll, LineOf;
    StillRecorded(w, StoredAll(s.acked), s.file, s.synced, base, LineOf(w.codec, rec));
    hide Clean;
    OthersOk(w, s, s', p);
  }

  lemma StillRecorded(w: World, acked: seq<Link>, file: Bytes, synced: nat, base: Bytes, line: Bytes)
    requires file == base + line && Clean(base) && synced <= |base| && Clean(file[..synced])
    requires Subsequence(acked, Records(w, file[..synced])) && line != [] && line[|line| - 1] == NEWLINE
    ensures Subsequence(acked, Records(w, base)) && Subsequence(acked, Records(w, file))
    ensures file[..|file|] == file && file[..|file| - |line|] == base && Clean(file)
  {
    hide Records, Subsequence;
    assert base == file[..synced] + base[synced..];
    RecordsKept(w, acked, file[..synced], base[synced..]);
    RecordsKept(w, acked, base, line);
  }

  lemma SyncedIsRecorded(w: World, s: State, rec: Link)
    requires w.Ok() && PhaseOk(w, s, Synced(rec)) && s.synced <= |s.file|
    ensures Subsequence(StoredAll(s.acked + [rec]), Records(w, s.file[..s.synced]))
  {
    hide FileOk, Records, Decode, Subsequence, LineOf, StoredRecord, Storable;
    var line := LineOf(w.codec, rec);
    var base := s.file[..|s.file| - |line|];
    OneLine(w, rec);
    PrefixRecords(w, base, line);
    SubsequenceAppend(StoredAll(s.acked), Records(w, base), StoredRecord(rec));
    assert StoredAll(s.acked + [rec]) == StoredAll(s.acked) + [StoredRecord(rec)];
    assert s.file[..s.synced] == s.file;
  }

  lemma ReturnKeeps(w: World, s: State, p: nat)
    requires w.Ok() && Inv(w, s) && Enabled(w, s, Return(p))
    ensures Inv(w, Apply(w, s, Return(p)))
  {
    hide FileOk, Records, Subsequence, IsGenesis, LineOf, Clean;
    assert PhaseOk(w, s, s.At(p));
    SyncedIsRecorded(w, s, s.At(p).rec);
    OthersOk(w, s, Apply(w, s, Return(p)), p);
  }

  lemma OneLine(w: World, rec: Link)
    requires w.Ok() && Storable(rec)
    ensures Decode(w.codec, Lines(LineOf(w.codec, rec))) == [StoredRecord(rec)]
  {
    hide StoredRecord, Storable;
    LinesOfOne(w.codec.dumps(rec));
    assert w.codec.loads(w.codec.dumps(rec)) == Some(Dict(StoredRecord(rec)));
  }

  lemma PowerLossKeeps(w: World, s: State, n: nat)
    requires Inv(w, s) && s.synced <= n <= |s.file|
    ensures Inv(w, Apply(w, s, PowerLoss(n)))
  {
    hide FileOk, Records, LineOf, Clean, Subsequence, IsGenesis;
    CutOk(w, s.file, n);
    assert s.file[..n][..s.synced] == s.file[..s.synced];
  }

  lemma StepKeeps(w: World, s: State, step: Step)
    requires w.Ok() && Inv(w, s) && Enabled(w, s, step) && AptStep(w, s, step)
    ensures Inv(w, Apply(w, s, step))
  {
    hide FileOk, Records, Apt, Storable, Decode, StoredAll;
    match step {
      case Call(p, record) => OthersOk(w, s, Apply(w, s, step), p);
      case Acquire(p) =>
        assert PhaseOk(w, s, s.At(p));
        OthersOk(w, s, Apply(w, s, step), p);
      case Read(p) => ReadKeeps(w, s, p);
      case Heal(p) => HealKeeps(w, s, p);
      case Write(p, n) => WriteKeeps(w, s, p, n);
      case Sync(p) => SyncKeeps(w, s, p);
      case Return(p) => ReturnKeeps(w, s, p);
      case Die(p) => OthersOk(w, s, Apply(w, s, step), p);
      case PowerLoss(n) => PowerLossKeeps(w, s, n);
    }
  }
}
