/** Whole runs of the durable append, from a genesis file and from an empty one. */
module DurableRuns {
  import opened Prelude
  import opened Encoding
  import opened Json
  import opened Chain
  import opened StoredForm
  import opened LedgerFile
  import opened DurableLedger

  lemma FreshInv(w: World)
    ensures Inv(w, Fresh())
  {
  }

  /** Written to an empty file, a genesis of the run is linked to nothing and keeps its fields. */
  lemma GenesisLinked(w: World)
    requires w.Ok()
    ensures LinkRecord(w.digest, None, GenesisFields(w)) == Some(GenesisFields(w))
    ensures FileOk(w, LineOf(w.codec, GenesisFields(w)))
  {
    hide FileOk, LineOf, CleanEnd, GenesisFields, TailOf, Storable, StoredRecord, World.Ok;
    GenesisStored(w);
    NoEnd([]);
    EmptyFileOk(w);
    TipOfEmpty(w, []);
    GenesisUnchanged(w);
    LinkedLineOk(w, [], GenesisFields(w));
    assert [][..0] + LineOf(w.codec, GenesisFields(w)) == LineOf(w.codec, GenesisFields(w));
  }

  lemma EmptyFileOk(w: World)
    ensures FileOk(w, [])
  {
  }

  lemma GenesisUnchanged(w: World)
    ensures GenesisFields(w)["seq" := Int(0)]["prev" := Str(Hex(ZERO))] == GenesisFields(w)
  {
    var fields := GenesisFields(w);
    GenesisGets(w.run, w.plan);
    assert fields["seq"] == Int(0) && fields["prev"] == Str(Hex(ZERO));
    hide GenesisFields;
    assert fields["seq" := Int(0)] == fields;
  }

  lemma InitialInv(w: World)
    requires w.Ok()
    ensures Inv(w, Initial(w)) && Seeded(Initial(w))
  {
    hide FileOk, GenesisFields, Records, LineOf, CleanEnd, Storable;
    var s := Initial(w);
    EndsInNewline(w.codec, GenesisFields(w));
    GenesisLinked(w);
    assert s.file[|s.file| - 1] == NEWLINE && s.file[..s.synced] == s.file;
  }

  /** A genesis holds no nested dict. */
  lemma GenesisStored(w: World)
    requires w.Ok()
    ensures Storable(GenesisFields(w)) && StoredRecord(GenesisFields(w)) == GenesisFields(w)
    ensures Founds(w, GenesisFields(w))
  {
    GenesisScalars(w.run, w.plan);
    GenesisGets(w.run, w.plan);
    hide Genesis, Get;
    ScalarsStored(GenesisFields(w));
  }

  lemma GenesisScalars(run: string, plan: string)
    ensures var fields := Genesis(run, plan).fields; forall k | k in fields :: fields[k].Str? || fields[k].Int?
  {
    var fields := Genesis(run, plan).fields;
    forall k | k in fields ensures fields[k].Str? || fields[k].Int? {
      assert k in {"type", "schema", "seq", "run_id", "plan_sha", "prev"};
    }
  }

  lemma GenesisGets(run: string, plan: string)
    ensures var g := Genesis(run, plan);
            && g.Dict? && Get(g, "type") == Some(Str("genesis")) && Get(g, "prev") == PrevField(ZERO)
            && Get(g, "run_id") == Some(Str(run)) && Get(g, "plan_sha") == Some(Str(plan))
  {
  }

  lemma ScalarsStored(fields: Link)
    requires forall k | k in fields :: fields[k].Str? || fields[k].Int?
    ensures Storable(fields) && StoredRecord(fields) == fields
  {
  }

  // ----- runs

  lemma {:induction false} AptRunKeeps(w: World, s: State, steps: seq<Step>, s': State)
    requires w.Ok() && Inv(w, s) && AptRun(w, s, steps, s')
    ensures Inv(w, s')
    decreases |steps|
  {
    if steps != [] {
      StepKeeps(w, s, steps[0]);
      AptRunKeeps(w, Apply(w, s, steps[0]), steps[1..], s');
    }
  }

  /** What the invariant says about the file. */
  lemma InvIsSafe(w: World, s: State)
    requires w.Ok() && Inv(w, s)
    ensures var recs := Records(w, s.file);
            && (recs != [] ==> Accepted(w.digest, Dicts(recs), Some(w.run), Some(w.plan)))
            && (forall i | 0 <= i < |recs| :: SeqOf(Dict(recs[i])) == Some(i))
            && Subsequence(StoredAll(s.acked), recs)
    ensures forall p: nat, q: nat :: Critical(s.At(p)) && Critical(s.At(q)) ==> p == q
    ensures s.synced > 0 ==> Records(w, s.file) != []
  {
    hide PhaseOk, Accepted, Decode, Lines, Subsequence, Get;
    SplitAt(s.file, s.synced);
    RecordsKept(w, StoredAll(s.acked), s.file[..s.synced], s.file[s.synced..]);
    if s.synced > 0 {
      LinesNonEmpty(s.file, s.synced);
    }
  }

  /**
    From an empty file, under any interleaving of calls with apt records, short writes, deaths and power losses: the
    committed lines, once there are any, form a chain the full verification accepts for this run and plan, with seqs
    counting up from 0; every acknowledged record is still there, in order; and at most one process is in the critical
    section.
   */
  lemma EveryFreshRunIsSafe(w: World, steps: seq<Step>, s: State)
    requires w.Ok() && AptRun(w, Fresh(), steps, s)
    ensures var recs := Records(w, s.file);
            && (recs != [] ==> Accepted(w.digest, Dicts(recs), Some(w.run), Some(w.plan)))
            && (forall i | 0 <= i < |recs| :: SeqOf(Dict(recs[i])) == Some(i))
            && Subsequence(StoredAll(s.acked), recs)
    ensures forall p: nat, q: nat :: Critical(s.At(p)) && Critical(s.At(q)) ==> p == q
  {
    hide Inv, Accepted, Records, Subsequence;
    FreshInv(w);
    AptRunKeeps(w, Fresh(), steps, s);
    InvIsSafe(w, s);
  }

  // ----- runs that start from a genesis

  /** A committed line is synced, and no genesis waits to be appended. */
  ghost predicate Seeded(s: State)
  {
    && s.synced > 0
    && forall p: nat :: var ph := s.At(p); ph.Waiting? || ph.Locked? ==> !IsGenesis(Dict(ph.record))
  }

  ghost predicate Ordinary(step: Step)
  {
    step.Call? ==> !IsGenesis(Dict(step.record))
  }

  /** Then every record is apt, and it stays so as long as no call brings a genesis. */
  lemma SeededKeeps(w: World, s: State, step: Step)
    requires w.Ok() && Inv(w, s) && Seeded(s) && Enabled(w, s, step) && Ordinary(step)
    ensures AptStep(w, s, step) && Seeded(Apply(w, s, step))
  {
    hide FileOk, Records, IsGenesis, PhaseOk, CleanEnd, Subsequence, StoredAll, LineOf, TailOf, LinkRecord, Lines, Storable;
    LinesNonEmpty(s.file, s.synced);
    if step.Heal? {
      HealKeepsSynced(w, s, step.p);
    }
    var s' := Apply(w, s, step);
    forall q: nat | s'.At(q).Waiting? || s'.At(q).Locked? ensures !IsGenesis(Dict(s'.At(q).record)) {
      assert s.At(q).Waiting? || s.At(q).Locked? ==> !IsGenesis(Dict(s.At(q).record));
    }
  }

  lemma HealKeepsSynced(w: World, s: State, p: nat)
    requires Inv(w, s) && Enabled(w, s, Heal(p))
    ensures Apply(w, s, Heal(p)).synced >= s.synced
  {
    assert PhaseOk(w, s, s.At(p));
    hide CleanEnd, FileOk, Records, Lines;
    SyncedIsKept(s.file, s.synced);
  }

  lemma {:induction false} SeededRunIsApt(w: World, s: State, steps: seq<Step>, s': State)
    requires w.Ok() && Inv(w, s) && Seeded(s) && Run(w, s, steps, s') && forall i | 0 <= i < |steps| :: Ordinary(steps[i])
    ensures AptRun(w, s, steps, s') && Inv(w, s') && Seeded(s')
    decreases |steps|
  {
    if steps != [] {
      SeededKeeps(w, s, steps[0]);
      StepKeeps(w, s, steps[0]);
      hide Inv, Seeded, Enabled, Apply, Ordinary, AptStep, World.Ok;
      SeededRunIsApt(w, Apply(w, s, steps[0]), steps[1..], s');
    }
  }

  /**
    From a genesis file, after any interleaving of calls that bring no second genesis, short writes, deaths and power
    losses, all of this holds and the chain is never empty.
   */
  lemma EveryRunIsSafe(w: World, steps: seq<Step>, s: State)
    requires w.Ok() && Run(w, Initial(w), steps, s) && forall i | 0 <= i < |steps| :: Ordinary(steps[i])
    ensures var recs := Records(w, s.file);
            && Accepted(w.digest, Dicts(recs), Some(w.run), Some(w.plan))
            && (forall i | 0 <= i < |recs| :: SeqOf(Dict(recs[i])) == Some(i))
            && Subsequence(StoredAll(s.acked), recs)
    ensures forall p: nat, q: nat :: Critical(s.At(p)) && Critical(s.At(q)) ==> p == q
  {
    hide Inv, Accepted, Records, Subsequence, Run, Initial;
    InitialInv(w);
    SeededRunIsApt(w, Initial(w), steps, s);
    InvIsSafe(w, s);
  }

  // ----- the uninterrupted call

  /** One call on a sound file drops the torn tail and adds exactly its own record; the file stays sound if it is apt. */
  lemma CallAddsOneRecord(w: World, file: Bytes, record: Link)
    requires w.Ok() && FileOk(w, file) && Storable(record)
    ensures TailOf(w.codec, file).Tail? && LinkRecord(w.digest, TailOf(w.codec, file).tip, record).Some?
    ensures var rec := LinkRecord(w.digest, TailOf(w.codec, file).tip, record).value;
            var after := file[..CleanEnd(file)] + LineOf(w.codec, rec);
            Records(w, after) == Records(w, file) + [StoredRecord(rec)] && (FileOk(w, after) <==> Apt(w, file, record))
  {
    hide FileOk, TailOf, LinkRecord, Lines, LineOf, CleanEnd, Apt, Storable, Decode;
    LinkedLineOk(w, file, record);
    var rec := LinkRecord(w.digest, TailOf(w.codec, file).tip, record).value;
    CleanPart(file);
    PrefixRecords(w, file[..CleanEnd(file)], LineOf(w.codec, rec));
    OneLine(w, rec);
  }

  lemma {:induction false} RunConcat(w: World, s: State, a: seq<Step>, s': State, b: seq<Step>, s'': State)
    requires Run(w, s, a, s') && Run(w, s', b, s'')
    ensures Run(w, s, a + b, s'')
    decreases |a|
  {
    if a == [] {
      assert a + b == b;
    } else {
      RunConcat(w, Apply(w, s, a[0]), a[1..], s', b, s'');
      assert (a + b)[1..] == a[1..] + b;
    }
  }

  lemma RunTwo(w: World, s: State, a: Step, b: Step)
    requires Enabled(w, s, a) && Enabled(w, Apply(w, s, a), b)
    ensures Run(w, s, [a, b], Apply(w, Apply(w, s, a), b))
  {
    var s1 := Apply(w, s, a);
    hide Apply, Enabled;
    assert [a, b][1..] == [b] && [b][1..] == [];
    assert Run(w, s1, [b], Apply(w, s1, b));
  }

  /** The steps of one call that nothing interrupts, its line going out in a single write. */
  ghost function CallSteps(w: World, p: nat, record: Link, rec: Link): seq<Step>
  {
    [Call(p, record), Acquire(p)] + [Read(p), Heal(p)] + [Write(p, |LineOf(w.codec, rec)|), Sync(p)] + [Return(p)]
  }

  /** Run without interruption, the protocol does to the file what File.DurableAppend does. */
  lemma UninterruptedCall(w: World, s: State, p: nat, record: Link) returns (rec: Link, s': State)
    requires w.Ok() && Inv(w, s) && s.lock.None? && s.At(p).Idle? && Storable(record)
    ensures Some(rec) == LinkRecord(w.digest, TailOf(w.codec, s.file).tip, record)
    ensures Run(w, s, CallSteps(w, p, record, rec), s')
    ensures s'.file == s.file[..CleanEnd(s.file)] + LineOf(w.codec, rec) && s'.synced == |s'.file|
    ensures s'.lock.None? && s'.acked == s.acked + [rec]
  {
    hide TailOf, LinkRecord, LineOf, Storable, Inv, Run, FileOk, CleanEnd, Apply, Enabled, World.Ok;
    TipIsReadable(w, s, record);
    rec := LinkRecord(w.digest, TailOf(w.codec, s.file).tip, record).value;
    var s2 := EnterLocked(w, s, p, record);
    var s4 := ReadAndHeal(w, s2, p, record, rec);
    s' := WriteAndReturn(w, s4, p, rec);
    var a, b, c := [Call(p, record), Acquire(p)], [Read(p), Heal(p)], [Write(p, |LineOf(w.codec, rec)|), Sync(p)];
    RunConcat(w, s, a, s2, b, s4);
    RunConcat(w, s, a + b, s4, c + [Return(p)], s');
    assert a + b + (c + [Return(p)]) == a + b + c + [Return(p)];
  }

  lemma TipIsReadable(w: World, s: State, record: Link)
    requires w.Ok() && Inv(w, s) && Storable(record)
    ensures TailOf(w.codec, s.file).Tail? && TailOf(w.codec, s.file).cleanEnd == CleanEnd(s.file)
    ensures LinkRecord(w.digest, TailOf(w.codec, s.file).tip, record).Some?
  {
    LinkedLineOk(w, s.file, record);
  }

  lemma EnterLocked(w: World, s: State, p: nat, record: Link) returns (s': State)
    requires s.At(p).Idle? && s.lock.None? && Storable(record)
    ensures Run(w, s, [Call(p, record), Acquire(p)], s')
    ensures s'.At(p) == Locked(record) && s'.file == s.file && s'.lock == Some(p) && s'.acked == s.acked
    ensures s'.synced == s.synced && forall q: nat | q != p :: s'.At(q) == s.At(q)
  {
    hide Storable;
    RunTwo(w, s, Call(p, record), Acquire(p));
    s' := Apply(w, Apply(w, s, Call(p, record)), Acquire(p));
  }

  lemma ReadAndHeal(w: World, s: State, p: nat, record: Link, rec: Link) returns (s': State)
    requires s.At(p) == Locked(record) && TailOf(w.codec, s.file).Tail?
    requires TailOf(w.codec, s.file).cleanEnd == CleanEnd(s.file)
    requires LinkRecord(w.digest, TailOf(w.codec, s.file).tip, record) == Some(rec)
    ensures Run(w, s, [Read(p), Heal(p)], s')
    ensures s'.At(p) == Writing(rec, 0) && s'.file == s.file[..CleanEnd(s.file)]
    ensures s'.lock == s.lock && s'.acked == s.acked
    ensures s'.synced <= s.synced && forall q: nat | q != p :: s'.At(q) == s.At(q)
  {
    hide TailOf, LinkRecord, CleanEnd;
    RunTwo(w, s, Read(p), Heal(p));
    s' := Apply(w, Apply(w, s, Read(p)), Heal(p));
  }

  lemma WriteAndReturn(w: World, s: State, p: nat, rec: Link) returns (s': State)
    requires s.At(p) == Writing(rec, 0) && s.lock == Some(p)
    ensures Run(w, s, [Write(p, |LineOf(w.codec, rec)|), Sync(p)] + [Return(p)], s')
    ensures s'.file == s.file + LineOf(w.codec, rec) && s'.synced == |s'.file|
    ensures s'.lock.None? && s'.acked == s.acked + [rec]
  {
    var n := |LineOf(w.codec, rec)|;
    assert n >= 1;
    hide LineOf;
    RunTwo(w, s, Write(p, n), Sync(p));
    var s1 := Apply(w, Apply(w, s, Write(p, n)), Sync(p));
    s' := Apply(w, s1, Return(p));
    assert [Return(p)][1..] == [];
    assert Run(w, s1, [Return(p)], s');
    RunConcat(w, s, [Write(p, n), Sync(p)], s1, [Return(p)], s');
    assert LineOf(w.codec, rec)[0..n] == LineOf(w.codec, rec);
  }

  // ----- the store's way to seed a chain (infra/store/chainstore.py)

  /** The record that the store appends first: a genesis to a file of no bytes. */
  function FirstRecord(w: World, file: Bytes, record: Link): Link
  {
    if file == [] then GenesisFields(w) else record
  }

  /** The look at the file's size picks the right record exactly if the file is empty or holds a committed line. */
  lemma SizeCheckIff(w: World, file: Bytes, record: Link)
    requires w.Ok() && FileOk(w, file) && Storable(record) && !IsGenesis(Dict(record))
    ensures var linked := LinkRecord(w.digest, TailOf(w.codec, file).tip, FirstRecord(w, file, record));
            && linked.Some?
            && (FileOk(w, file[..CleanEnd(file)] + LineOf(w.codec, linked.value)) <==> file == [] || Lines(file) != [])
  {
    hide FileOk, TailOf, LinkRecord, LineOf, CleanEnd, Storable, GenesisFields, World.Ok, IsGenesis, Get;
    GenesisStored(w);
    LinkedLineOk(w, file, FirstRecord(w, file, record));
    NotFounding(w, record);
    if file == [] {
      NoEnd(file);
    }
  }

  lemma NotFounding(w: World, record: Link)
    requires !IsGenesis(Dict(record))
    ensures !Founds(w, record)
  {
  }

  /**
    The case between: a genesis torn by a crash after n bytes is no longer an empty file, so the store appends its
    record at once, the healer drops the torn genesis, and the acknowledged chain starts without one.
   */
  lemma TornGenesis(w: World, p: nat, n: nat, record: Link) returns (s: State, first: Link, s': State)
    requires w.Ok() && Storable(record) && !IsGenesis(Dict(record)) && 0 < n < |LineOf(w.codec, GenesisFields(w))|
    ensures var genesis := FirstRecord(w, Fresh().file, record);
            Run(w, Fresh(), [Call(p, genesis), Acquire(p)] + [Read(p), Heal(p)] + [Write(p, n), Die(p)], s)
    ensures FirstRecord(w, s.file, record) == record && Run(w, s, CallSteps(w, p, record, first), s')
    ensures s'.acked == [first] && Records(w, s'.file) == [StoredRecord(first)]
    ensures !Accepted(w.digest, Dicts(Records(w, s'.file)), Some(w.run), Some(w.plan))
  {
    hide FileOk, Inv, Accepted, Records, TailOf, LinkRecord, LineOf, CleanEnd, GenesisFields, Storable, StoredRecord, IsGenesis,
      World.Ok, Run, Enabled, Apply, CallSteps, Apt, Decode, Lines, Founds;
    s := TornWrite(w, p, n);
    GenesisStored(w);
    TornLines(w, GenesisFields(w), n);
    NothingCommitted(w, s);
    first, s' := UninterruptedCall(w, s, p, record);
    CallAddsOneRecord(w, s.file, record);
    TipOfEmpty(w, s.file);
    assert Records(w, s.file) == [] by { NoRecords(w, s.file); }
    assert [] + [StoredRecord(first)] == [StoredRecord(first)];
    assert Dicts([StoredRecord(first)]) == [Dict(StoredRecord(first))];
    FirstAccepted(w, record);
    NotFounding(w, record);
  }

  lemma NoRecords(w: World, file: Bytes)
    requires Lines(file) == []
    ensures Records(w, file) == []
  {
  }

  lemma TornLines(w: World, rec: Link, n: nat)
    requires w.Ok() && Storable(rec) && n < |LineOf(w.codec, rec)|
    ensures Lines(LineOf(w.codec, rec)[..n]) == []
  {
    hide Storable, StoredRecord, Lines;
    var text := w.codec.dumps(rec);
    assert NoNewline(text) && LineOf(w.codec, rec)[..n] == text[..n];
    LinesOfTorn(text[..n]);
  }

  /** A torn file with nobody at work. */
  lemma NothingCommitted(w: World, s: State)
    requires Lines(s.file) == [] && s.synced == 0 && s.lock == None && s.acked == [] && forall q: nat :: s.At(q) == Idle
    ensures FileOk(w, s.file) && Inv(w, s)
  {
    assert FileOk(w, s.file);
    hide FileOk, Records, Lines;
  }

  lemma TornWrite(w: World, p: nat, n: nat) returns (s: State)
    requires w.Ok() && 0 < n < |LineOf(w.codec, GenesisFields(w))|
    ensures Run(w, Fresh(), [Call(p, GenesisFields(w)), Acquire(p)] + [Read(p), Heal(p)] + [Write(p, n), Die(p)], s)
    ensures s.file == LineOf(w.codec, GenesisFields(w))[..n]
    ensures s.synced == 0 && s.lock == None && s.acked == [] && forall q: nat :: s.At(q) == Idle
  {
    var genesis := GenesisFields(w);
    GenesisStored(w);
    GenesisLinked(w);
    NoEnd([]);
    TipOfEmpty(w, []);
    hide GenesisFields, LineOf, Founds, StoredRecord, Storable, LinkRecord, TailOf, CleanEnd, Run, Enabled, Apply, World.Ok, Lines,
      FileOk;
    var s2 := EnterLocked(w, Fresh(), p, genesis);
    var s4 := ReadAndHeal(w, s2, p, genesis, genesis);
    s := WriteAndDie(w, s4, p, genesis, n);
    var a, b, c := [Call(p, genesis), Acquire(p)], [Read(p), Heal(p)], [Write(p, n), Die(p)];
    RunConcat(w, Fresh(), a, s2, b, s4);
    RunConcat(w, Fresh(), a + b, s4, c, s);
  }

  lemma WriteAndDie(w: World, s: State, p: nat, rec: Link, n: nat) returns (s': State)
    requires s.At(p) == Writing(rec, 0) && s.lock == Some(p) && 0 < n <= |LineOf(w.codec, rec)|
    ensures Run(w, s, [Write(p, n), Die(p)], s')
    ensures s'.file == s.file + LineOf(w.codec, rec)[..n] && s'.synced == s.synced && s'.lock.None? && s'.acked == s.acked
    ensures forall q: nat :: s'.At(q) == if q == p then Idle else s.At(q)
  {
    hide LineOf;
    RunTwo(w, s, Write(p, n), Die(p));
    s' := Apply(w, Apply(w, s, Write(p, n)), Die(p));
    assert LineOf(w.codec, rec)[0..n] == LineOf(w.codec, rec)[..n];
  }
}
