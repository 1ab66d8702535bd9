/** What building, cold verification and audit guarantee together. */
module CheckpointProofs {
  import opened Prelude
  import opened Encoding
  import opened Json
  import opened Chain
  import opened Checkpoint
  import Merkle

  // ----- the builder's chains pass every check

  ghost predicate NoCheckpoints(entries: seq<Entry>)
  {
    forall e | e in entries :: !IsCheckpoint(e)
  }

  /** The checkpoint at p commits to a stretch of data entries before it. */
  ghost predicate Commits(sha: Hash, digest: LinkDigest, entries: seq<Entry>, p: nat, ws: int, we: int)
    requires p < |entries|
  {
    && IntField(entries[p], "window_start") == Some(ws) && IntField(entries[p], "window_end") == Some(we)
    && 0 <= ws <= we < p
    && NoCheckpoints(entries[ws..we + 1])
    && RootField(sha, digest, entries[ws..we + 1]) == Get(entries[p], "merkle_root")
  }

  ghost predicate AllCommit(sha: Hash, digest: LinkDigest, entries: seq<Entry>)
  {
    forall p | 0 <= p < |entries| && IsCheckpoint(entries[p]) :: exists ws, we :: Commits(sha, digest, entries, p, ws, we)
  }

  /** Every record points back at its predecessor. */
  ghost predicate AllLink(digest: LinkDigest, entries: seq<Entry>)
  {
    forall i | 0 < i < |entries| :: LinksBack(digest, entries, i)
  }

  /** No link before the tip has the all-zero digest. */
  ghost predicate NoZeroLink(digest: LinkDigest, entries: seq<Entry>)
  {
    forall k | 0 <= k < |entries| - 1 :: digest(LinkOf(entries[k])) != ZERO
  }

  /** The invariant of the building loop. */
  ghost predicate Honest(sha: Hash, digest: LinkDigest, b: Build)
  {
    && b.Ok() && AllCommit(sha, digest, b.entries) && AllLink(digest, b.entries)
    && NoCheckpoints(b.window)
    && (var p := |b.entries| - |b.window| - 1; p == 0 || IsCheckpoint(b.entries[p]))
    && (Valid(digest, b.entries) <==> NoZeroLink(digest, b.entries))
  }

  lemma AllCommitExtends(sha: Hash, digest: LinkDigest, entries: seq<Entry>, rec: Entry)
    requires AllCommit(sha, digest, entries)
    requires IsCheckpoint(rec) ==> exists ws, we :: Commits(sha, digest, entries + [rec], |entries|, ws, we)
    ensures AllCommit(sha, digest, entries + [rec])
  {
    forall p | 0 <= p < |entries| && IsCheckpoint(entries[p])
      ensures exists ws, we :: Commits(sha, digest, entries + [rec], p, ws, we)
    {
      var ws, we :| Commits(sha, digest, entries, p, ws, we);
      assert (entries + [rec])[ws..we + 1] == entries[ws..we + 1];
      assert Commits(sha, digest, entries + [rec], p, ws, we);
    }
  }

  lemma AllLinkExtends(digest: LinkDigest, entries: seq<Entry>, n: int, record: Link)
    requires entries != [] && AllLink(digest, entries)
    ensures AllLink(digest, entries + [Linked(digest, entries[|entries| - 1], n, record)])
  {
    var last := entries[|entries| - 1];
    var r := entries + [Linked(digest, last, n, record)];
    LinkedFollows(digest, last, n, record);
    forall i | 0 < i < |r| ensures LinksBack(digest, r, i) {
      if i < |entries| {
        assert LinksBack(digest, entries, i);
      }
    }
  }

  lemma ValidityExtends(digest: LinkDigest, entries: seq<Entry>, record: Link)
    requires entries != [] && LastSeq(entries).Some? && !IsGenesis(Dict(record))
    requires Valid(digest, entries) <==> NoZeroLink(digest, entries)
    ensures var r := entries + [Linked(digest, entries[|entries| - 1], LastSeq(entries).value, record)];
            Valid(digest, r) <==> NoZeroLink(digest, r)
  {
    var n, last := |entries|, entries[|entries| - 1];
    var rec := Linked(digest, last, LastSeq(entries).value, record);
    NoZeroExtends(digest, entries, rec);
    PrefixFollows(digest, entries, rec);
    if Valid(digest, entries) {
      AppendAccepted(digest, entries, record, None, None);
    }
  }

  lemma NoZeroExtends(digest: LinkDigest, entries: seq<Entry>, rec: Entry)
    requires entries != []
    ensures NoZeroLink(digest, entries + [rec])
        <==> NoZeroLink(digest, entries) && digest(LinkOf(entries[|entries| - 1])) != ZERO
  {
    var r, n := entries + [rec], |entries|;
    assert forall k | 0 <= k < n :: r[k] == entries[k];
    if NoZeroLink(digest, r) {
      assert digest(LinkOf(r[n - 1])) != ZERO;
      assert forall k | 0 <= k < n - 1 :: digest(LinkOf(r[k])) != ZERO;
    }
  }

  /** What one append keeps, whatever the record, as long as a checkpoint record commits to what precedes it. */
  lemma ExtendKeeps(sha: Hash, digest: LinkDigest, entries: seq<Entry>, record: Link)
    requires entries != [] && Numbered(entries) && !IsGenesis(Dict(record))
    requires AllCommit(sha, digest, entries) && AllLink(digest, entries)
    requires Valid(digest, entries) <==> NoZeroLink(digest, entries)
    requires var r := Extend(digest, entries, record);
             IsCheckpoint(r[|entries|]) ==> exists ws, we :: Commits(sha, digest, r, |entries|, ws, we)
    ensures var r := Extend(digest, entries, record);
            && AllCommit(sha, digest, r) && AllLink(digest, r)
            && (Valid(digest, r) <==> NoZeroLink(digest, r))
  {
    var r := Extend(digest, entries, record);
    AllCommitExtends(sha, digest, entries, r[|entries|]);
    AllLinkExtends(digest, entries, |entries| - 1, record);
    ValidityExtends(digest, entries, record);
  }

  lemma DataRecordTypes(digest: LinkDigest, last: Entry, n: int, i: nat)
    ensures !IsGenesis(Dict(DataRecord(i))) && !IsCheckpoint(Linked(digest, last, n, DataRecord(i)))
  {
  }

  lemma DataKeepsHonest(sha: Hash, digest: LinkDigest, b: Build, record: Link)
    requires Honest(sha, digest, b) && !IsGenesis(Dict(record))
    requires !IsCheckpoint(Linked(digest, b.entries[|b.entries| - 1], |b.entries| - 1, record))
    ensures Honest(sha, digest, AddData(digest, b, record))
  {
    hide IsCheckpoint, RootField, Linked, SeqOf, IsGenesis, AllCommit, AllLink, Accepted, NoZeroLink, Get;
    var n := |b.entries|;
    ExtendKeeps(sha, digest, b.entries, record);
    var r := AddData(digest, b, record);
    assert r.entries[n - |b.window| - 1] == b.entries[n - |b.window| - 1];
  }

  /** The fields of a checkpoint record once it is linked in. */
  lemma CheckpointFields(sha: Hash, digest: LinkDigest, window: seq<Entry>, last: Entry, n: int)
    requires window != [] && SeqOf(window[0]).Some? && SeqOf(window[|window| - 1]).Some?
    ensures var record := MakeCheckpoint(sha, digest, window);
            var rec := Linked(digest, last, n, record);
            && !IsGenesis(Dict(record)) && IsCheckpoint(rec)
            && IntField(rec, "window_start") == SeqOf(window[0])
            && IntField(rec, "window_end") == SeqOf(window[|window| - 1])
            && Get(rec, "merkle_root") == RootField(sha, digest, window)
  {
  }

  lemma CheckpointKeepsHonest(sha: Hash, digest: LinkDigest, b: Build, record: Link)
    requires Honest(sha, digest, b) && b.window != [] && !IsGenesis(Dict(record))
    requires var n := |b.entries|;
             var rec := Linked(digest, b.entries[n - 1], n - 1, record);
             && IsCheckpoint(rec)
             && IntField(rec, "window_start") == Some(n - |b.window|) && IntField(rec, "window_end") == Some(n - 1)
             && Get(rec, "merkle_root") == RootField(sha, digest, b.window)
    ensures Honest(sha, digest, AddCheckpoint(digest, b, record))
  {
    hide IsCheckpoint, RootField, Linked, SeqOf, IsGenesis, AllCommit, AllLink, Accepted, NoZeroLink, IntField, Get;
    var n, k := |b.entries|, |b.window|;
    var r := Extend(digest, b.entries, record);
    assert r[n - k..n] == b.window;
    assert Commits(sha, digest, r, n, n - k, n - 1);
    ExtendKeeps(sha, digest, b.entries, record);
  }

  lemma WindowSeqs(b: Build)
    requires b.Ok() && b.window != []
    ensures SeqOf(b.window[0]) == Some(|b.entries| - |b.window|)
    ensures SeqOf(b.window[|b.window| - 1]) == Some(|b.entries| - 1)
  {
    assert b.window[0] == b.entries[|b.entries| - |b.window|];
    assert b.window[|b.window| - 1] == b.entries[|b.entries| - 1];
  }

  lemma ModStep(n: nat, interval: int)
    requires n > 0 && interval != 0 && n % interval != 0
    ensures (n - 1) % interval + 1 == n % interval
  {
    var q, r := (n - 1) / interval, (n - 1) % interval;
    var m := if interval < 0 then -interval else interval;
    assert n == q * interval + (r + 1);
    if r + 1 == m {
      assert n == (if interval < 0 then q - 1 else q + 1) * interval;
      MultipleMod(if interval < 0 then q - 1 else q + 1, interval);
    } else {
      QuotientUnique(n, interval, q, r + 1);
    }
  }

  lemma MultipleMod(q: int, interval: int)
    requires interval != 0
    ensures (q * interval) % interval == 0
  {
    QuotientUnique(q * interval, interval, q, 0);
  }

  lemma ProductNotNegative(a: int, b: int)
    requires a >= 0 && b >= 0
    ensures a * b >= 0
  {
  }

  lemma OneLess(d: int, m: int)
    ensures d * m == (d - 1) * m + m
  {
  }

  lemma Signs(d: int, m: int)
    ensures (-d) * m == -(d * m) && d * (-m) == -(d * m) && (-d) * (-m) == d * m
  {
  }

  lemma Far(d: int, m: int)
    requires d > 0 && m > 0
    ensures d * m >= m
  {
    ProductNotNegative(d - 1, m);
    OneLess(d, m);
  }

  lemma MultipleIsFar(d: int, m: int)
    requires d != 0 ==> m != 0
    ensures d != 0 && m > 0 ==> d * m >= m || d * m <= -m
    ensures d != 0 && m < 0 ==> d * m >= -m || d * m <= m
  {
    if d != 0 {
      Signs(d, m);
      Far(if d > 0 then d else -d, if m > 0 then m else -m);
    }
  }

  lemma QuotientUnique(n: int, interval: int, q: int, r: int)
    requires interval != 0 && n == q * interval + r && 0 <= r < (if interval < 0 then -interval else interval)
    ensures n % interval == r
  {
    var q', r' := n / interval, n % interval;
    assert n == q' * interval + r';
    assert (q - q') * interval == r' - r;
    MultipleIsFar(q - q', interval);
  }

  lemma StartHonest(sha: Hash, digest: LinkDigest, run: string, plan: string)
    requires run != "" && plan != ""
    ensures Honest(sha, digest, Start(run, plan))
  {
    GenesisAccepted(digest, run, plan);
    assert Get(Genesis(run, plan), "type") == Some(Str("genesis"));
  }

  lemma StepHonest(sha: Hash, digest: LinkDigest, b: Build, i: nat, due: bool)
    requires Honest(sha, digest, b)
    ensures Honest(sha, digest, Step(sha, digest, b, i, due))
  {
    assert b.Ok();
    hide Honest, IsCheckpoint, IsGenesis, Linked, DataRecord, MakeCheckpoint;
    var last := b.entries[|b.entries| - 1];
    DataRecordTypes(digest, last, |b.entries| - 1, i);
    DataKeepsHonest(sha, digest, b, DataRecord(i));
    if due {
      ClosedWindowHonest(sha, digest, AddData(digest, b, DataRecord(i)));
    }
  }

  lemma ClosedWindowHonest(sha: Hash, digest: LinkDigest, b: Build)
    requires Honest(sha, digest, b) && b.window != []
    ensures Honest(sha, digest, AddCheckpoint(digest, b, MakeCheckpoint(sha, digest, b.window)))
  {
    hide IsCheckpoint, IsGenesis, Linked, MakeCheckpoint, Get, IntField, RootField, AllCommit, AllLink, Accepted;
    WindowSeqs(b);
    CheckpointFields(sha, digest, b.window, b.entries[|b.entries| - 1], |b.entries| - 1);
    CheckpointKeepsHonest(sha, digest, b, MakeCheckpoint(sha, digest, b.window));
  }

  lemma {:induction false} BuiltHonest(sha: Hash, digest: LinkDigest, run: string, plan: string, n: nat, due: Schedule)
    requires run != "" && plan != ""
    ensures Honest(sha, digest, Built(sha, digest, run, plan, n, due))
  {
    hide Step, Start, Honest;
    if n == 0 {
      StartHonest(sha, digest, run, plan);
    } else {
      BuiltHonest(sha, digest, run, plan, n - 1, due);
      StepHonest(sha, digest, Built(sha, digest, run, plan, n - 1, due), n - 1, due(n));
    }
  }

  /** Data entries since the last checkpoint that was due. */
  function SinceDue(due: Schedule, n: nat): nat
  {
    if n == 0 || due(n) then 0 else SinceDue(due, n - 1) + 1
  }

  lemma {:induction false} OpenWindowLength(sha: Hash, digest: LinkDigest, run: string, plan: string, n: nat, due: Schedule)
    ensures |Built(sha, digest, run, plan, n, due).window| == SinceDue(due, n)
  {
    hide Step;
    if n > 0 {
      OpenWindowLength(sha, digest, run, plan, n - 1, due);
    }
  }

  lemma {:induction false} SinceEvery(interval: int, n: nat)
    requires interval != 0
    ensures SinceDue(Every(interval), n) == n % interval
  {
    if n > 0 {
      SinceEvery(interval, n - 1);
      if n % interval != 0 {
        ModStep(n, interval);
      }
    }
  }

  lemma {:induction false} BySeqIsPosition(entries: seq<Entry>, offset: int)
    requires forall k | 0 <= k < |entries| :: SeqOf(entries[k]) == Some(offset + k)
    ensures forall s :: s in BySeq(entries) <==> offset <= s < offset + |entries|
    ensures forall k | 0 <= k < |entries| :: BySeq(entries)[offset + k] == entries[k]
  {
    if entries != [] {
      BySeqIsPosition(entries[..|entries| - 1], offset);
    }
  }

  lemma AtPosition(entries: seq<Entry>, s: nat)
    requires Numbered(entries) && s < |entries|
    ensures s in BySeq(entries) && BySeq(entries)[s] == entries[s]
  {
    hide BySeq;
    assert forall k | 0 <= k < |entries| :: SeqOf(entries[k]) == Some(0 + k);
    BySeqIsPosition(entries, 0);
    assert BySeq(entries)[0 + s] == entries[s];
  }

  lemma {:induction false} WindowIsSlice(entries: seq<Entry>, ws: int, stop: int)
    requires Numbered(entries) && 0 <= ws <= stop <= |entries| && NoCheckpoints(entries[ws..stop])
    ensures WindowOf(BySeq(entries), ws, stop) == entries[ws..stop]
    decreases stop - ws
  {
    hide BySeq, SeqOf, Numbered, IsCheckpoint;
    if ws < stop {
      AtPosition(entries, ws);
      assert entries[ws] == entries[ws..stop][0] && entries[ws + 1..stop] == entries[ws..stop][1..];
      WindowIsSlice(entries, ws + 1, stop);
    }
  }

  lemma CommitsMatches(sha: Hash, digest: LinkDigest, entries: seq<Entry>)
    requires Numbered(entries) && AllCommit(sha, digest, entries)
    ensures AuditClean(sha, digest, entries)
  {
    hide IsCheckpoint, SeqOf, RootField, BySeq, WindowOf, Numbered;
    forall p | 0 <= p < |entries| && IsCheckpoint(entries[p]) ensures RootMatches(sha, digest, entries, entries[p]) {
      var ws, we :| Commits(sha, digest, entries, p, ws, we);
      WindowIsSlice(entries, ws, we + 1);
    }
  }

  lemma LastCheckpointIs(entries: seq<Entry>, p: nat)
    requires p < |entries| && (p == 0 || IsCheckpoint(entries[p])) && NoCheckpoints(entries[p + 1..])
    ensures LastCheckpoint(entries) == p
  {
    forall k | p < k < |entries| ensures !IsCheckpoint(entries[k]) {
      assert entries[k] == entries[p + 1..][k - p - 1];
    }
  }

  /**
    For every length and interval: the built chain audits clean, cold verification re-links exactly n mod interval
    entries, and the full pass accepts it exactly when no link but the tip's digests to the all-zero root.
   */
  lemma BuiltChainVerifies(sha: Hash, digest: LinkDigest, run: string, plan: string, n: nat, interval: int)
    requires interval != 0 && run != "" && plan != ""
    ensures var entries := Built(sha, digest, run, plan, n, Every(interval)).entries;
            && AuditClean(sha, digest, entries)
            && TailLinks(digest, entries) && |entries| - 1 - LastCheckpoint(entries) == n % interval
            && (Valid(digest, entries) <==> NoZeroLink(digest, entries))
  {
    BuiltHonest(sha, digest, run, plan, n, Every(interval));
    OpenWindowLength(sha, digest, run, plan, n, Every(interval));
    SinceEvery(interval, n);
    HonestVerifies(sha, digest, Built(sha, digest, run, plan, n, Every(interval)));
  }

  lemma HonestVerifies(sha: Hash, digest: LinkDigest, b: Build)
    requires Honest(sha, digest, b)
    ensures AuditClean(sha, digest, b.entries)
    ensures TailLinks(digest, b.entries) && |b.entries| - 1 - LastCheckpoint(b.entries) == |b.window|
    ensures Valid(digest, b.entries) <==> NoZeroLink(digest, b.entries)
  {
    hide AllCommit, IsCheckpoint, Accepted, NoZeroLink, LastCheckpoint;
    CommitsMatches(sha, digest, b.entries);
    LastCheckpointIs(b.entries, |b.entries| - |b.window| - 1);
  }
}
