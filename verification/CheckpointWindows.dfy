/** The audit said without an index: which entries a checkpoint answers for, and when it does. */
module CheckpointWindows {
  import opened Prelude
  import opened Encoding
  import opened Json
  import opened Chain
  import opened Checkpoint
  import Merkle

  ghost predicate HasSeq(e: Entry, s: int)
  {
    e.Dict? && "seq" in e.fields && e.fields["seq"] == Int(s)
  }

  /** Entry k is the last with this seq. */
  ghost predicate LastWith(entries: seq<Entry>, k: nat, s: int)
  {
    k < |entries| && HasSeq(entries[k], s) && forall l | k < l < |entries| :: !HasSeq(entries[l], s)
  }

  ghost predicate NamedCheckpoint(e: Entry)
  {
    e.Dict? && Says(e.fields, "type", "checkpoint")
  }

  lemma {:induction false} IndexMeans(entries: seq<Entry>, s: int)
    ensures s in BySeq(entries) <==> exists k: nat :: LastWith(entries, k, s)
    ensures forall k: nat | LastWith(entries, k, s) :: s in BySeq(entries) && BySeq(entries)[s] == entries[k]
  {
    if entries != [] {
      var n := |entries| - 1;
      var init := entries[..n];
      IndexMeans(init, s);
      SeqIs(entries[n], s);
      if SeqOf(entries[n]) == Some(s) {
        assert LastWith(entries, n, s);
      } else {
        forall k: nat ensures LastWith(entries, k, s) <==> LastWith(init, k, s) {
          if LastWith(init, k, s) {
            assert forall l | k < l < n :: entries[l] == init[l];
          }
          if LastWith(entries, k, s) {
            assert forall l | k < l < n :: entries[l] == init[l];
          }
        }
      }
    }
  }

  lemma SeqIs(e: Entry, s: int)
    ensures SeqOf(e) == Some(s) <==> HasSeq(e, s)
  {
  }

  ghost predicate InWindow(entries: seq<Entry>, k: nat, s: int)
  {
    k < |entries| && LastWith(entries, k, s) && !NamedCheckpoint(entries[k])
  }

  /** e is the last entry with this seq, and no checkpoint. */
  ghost predicate Stands(entries: seq<Entry>, s: int, e: Entry)
  {
    exists k: nat :: InWindow(entries, k, s) && e == entries[k]
  }

  /** The entries of ascending seqs, one for each seq from start up to stop whose last entry is no checkpoint. */
  ghost predicate Covers(entries: seq<Entry>, start: int, stop: int, seqs: seq<int>, window: seq<Entry>)
  {
    && |seqs| == |window|
    && (forall i, j | 0 <= i < j < |seqs| :: seqs[i] < seqs[j])
    && (forall s :: s in seqs <==> start <= s < stop && exists e :: Stands(entries, s, e))
    && (forall j | 0 <= j < |seqs| :: Stands(entries, seqs[j], window[j]))
  }

  lemma {:induction false} WindowMeans(entries: seq<Entry>, start: int, stop: int) returns (seqs: seq<int>)
    ensures Covers(entries, start, stop, seqs, WindowOf(BySeq(entries), start, stop))
    decreases stop - start
  {
    if start >= stop {
      seqs := [];
    } else {
      hide Stands, BySeq, Covers;
      var rest := WindowMeans(entries, start + 1, stop);
      FirstMeans(entries, start);
      var bySeq := BySeq(entries);
      var window := WindowOf(bySeq, start + 1, stop);
      if start in bySeq && !IsCheckpoint(bySeq[start]) {
        seqs := [start] + rest;
        CoversMore(entries, start, stop, rest, window, bySeq[start]);
      } else {
        seqs := rest;
        CoversNoMore(entries, start, stop, rest, window);
        assert [] + window == window;
      }
    }
  }

  lemma FirstMeans(entries: seq<Entry>, s: int)
    ensures var bySeq := BySeq(entries);
      && (s in bySeq && !IsCheckpoint(bySeq[s]) ==> Stands(entries, s, bySeq[s]))
      && (!(s in bySeq && !IsCheckpoint(bySeq[s])) ==> forall e :: !Stands(entries, s, e))
  {
    IndexMeans(entries, s);
    hide BySeq, HasSeq;
    if s in BySeq(entries) {
      var k: nat :| LastWith(entries, k, s);
      CheckpointNamed(entries[k]);
      assert !IsCheckpoint(entries[k]) ==> InWindow(entries, k, s);
    }
    forall e | Stands(entries, s, e) ensures s in BySeq(entries) && !IsCheckpoint(BySeq(entries)[s]) {
      var k: nat :| InWindow(entries, k, s) && e == entries[k];
      CheckpointNamed(e);
    }
  }

  lemma CoversMore(entries: seq<Entry>, start: int, stop: int, rest: seq<int>, window: seq<Entry>, e: Entry)
    requires start < stop && Covers(entries, start + 1, stop, rest, window) && Stands(entries, start, e)
    ensures Covers(entries, start, stop, [start] + rest, [e] + window)
  {
    hide Stands;
    var seqs := [start] + rest;
    forall i, j | 0 <= i < j < |seqs| ensures seqs[i] < seqs[j] {
      assert rest[j - 1] in rest;
    }
    forall s ensures s in seqs <==> start <= s < stop && exists x :: Stands(entries, s, x) {
      assert s in seqs <==> s == start || s in rest;
    }
    forall j | 0 <= j < |seqs| ensures Stands(entries, seqs[j], ([e] + window)[j]) {
      if j > 0 {
        assert seqs[j] == rest[j - 1] && ([e] + window)[j] == window[j - 1];
      }
    }
  }

  lemma CoversNoMore(entries: seq<Entry>, start: int, stop: int, rest: seq<int>, window: seq<Entry>)
    requires start < stop && Covers(entries, start + 1, stop, rest, window) && forall e :: !Stands(entries, start, e)
    ensures Covers(entries, start, stop, rest, window)
  {
    hide Stands;
  }

  /** The checkpoint e states the bounds of a window as integers, and the root over the links of its entries. */
  ghost predicate States(sha: Hash, digest: LinkDigest, e: Entry, ws: int, we: int, window: seq<Entry>)
  {
    && e.Dict? && "window_start" in e.fields && e.fields["window_start"] == Int(ws)
    && "window_end" in e.fields && e.fields["window_end"] == Int(we)
    && Says(e.fields, "merkle_root", Hex(Merkle.Root(sha, Leaves(digest, window))))
  }

  ghost predicate Answers(sha: Hash, digest: LinkDigest, entries: seq<Entry>, e: Entry,
                          ws: int, we: int, seqs: seq<int>, window: seq<Entry>)
  {
    Covers(entries, ws, we + 1, seqs, window) && States(sha, digest, e, ws, we, window)
  }

  /** Whatever the entries: the audit is clean exactly if every checkpoint states the root of the entries it answers for. */
  lemma AuditMeans(sha: Hash, digest: LinkDigest, entries: seq<Entry>)
    ensures AuditClean(sha, digest, entries) <==>
      forall i | 0 <= i < |entries| && NamedCheckpoint(entries[i]) ::
        exists ws, we, seqs, window :: Answers(sha, digest, entries, entries[i], ws, we, seqs, window)
  {
    hide RootMatches, Answers;
    forall i | 0 <= i < |entries|
      ensures IsCheckpoint(entries[i]) <==> NamedCheckpoint(entries[i])
      ensures RootMatches(sha, digest, entries, entries[i]) <==>
        exists ws, we, seqs, window :: Answers(sha, digest, entries, entries[i], ws, we, seqs, window)
    {
      CheckpointNamed(entries[i]);
      MatchMeans(sha, digest, entries, entries[i]);
    }
  }

  lemma CheckpointNamed(e: Entry)
    ensures IsCheckpoint(e) <==> NamedCheckpoint(e)
  {
  }

  lemma MatchMeans(sha: Hash, digest: LinkDigest, entries: seq<Entry>, e: Entry)
    ensures RootMatches(sha, digest, entries, e) <==>
      exists ws, we, seqs, window :: Answers(sha, digest, entries, e, ws, we, seqs, window)
  {
    hide Covers, BySeq, WindowOf, Merkle.Root, Leaves, Hex;
    if RootMatches(sha, digest, entries, e) {
      var ws, we := IntField(e, "window_start").value, IntField(e, "window_end").value;
      var seqs := WindowMeans(entries, ws, we + 1);
      assert Answers(sha, digest, entries, e, ws, we, seqs, WindowOf(BySeq(entries), ws, we + 1));
    }
    if ws, we, seqs, window :| Answers(sha, digest, entries, e, ws, we, seqs, window) {
      var again := WindowMeans(entries, ws, we + 1);
      OneWindow(entries, ws, we + 1, seqs, window, again, WindowOf(BySeq(entries), ws, we + 1));
    }
  }

  /** There is one such window. */
  lemma OneWindow(entries: seq<Entry>, start: int, stop: int, xs: seq<int>, xw: seq<Entry>, ys: seq<int>, yw: seq<Entry>)
    requires Covers(entries, start, stop, xs, xw) && Covers(entries, start, stop, ys, yw)
    ensures xs == ys && xw == yw
  {
    hide Stands;
    assert forall s :: s in xs <==> s in ys;
    SameAscending(xs, ys);
    forall j | 0 <= j < |xs| ensures xw[j] == yw[j] {
      LastIsOne(entries, xs[j], xw[j], yw[j]);
    }
  }

  lemma LastIsOne(entries: seq<Entry>, s: int, e: Entry, f: Entry)
    requires Stands(entries, s, e) && Stands(entries, s, f)
    ensures e == f
  {
    var k: nat :| InWindow(entries, k, s) && e == entries[k];
    var l: nat :| InWindow(entries, l, s) && f == entries[l];
    assert !(k < l) && !(l < k);
  }

  lemma {:induction false} SameAscending(xs: seq<int>, ys: seq<int>)
    requires forall i, j | 0 <= i < j < |xs| :: xs[i] < xs[j]
    requires forall i, j | 0 <= i < j < |ys| :: ys[i] < ys[j]
    requires forall s :: s in xs <==> s in ys
    ensures xs == ys
  {
    if ys != [] {
      assert ys[0] in ys;
    }
    if xs != [] {
      assert xs[0] in xs && xs[0] in ys;
      assert ys[0] in ys && ys[0] in xs;
      assert xs[0] == ys[0];
      forall s ensures s in xs[1..] <==> s in ys[1..] {
        assert s in xs <==> s == xs[0] || s in xs[1..];
        assert s in ys <==> s == ys[0] || s in ys[1..];
      }
      SameAscending(xs[1..], ys[1..]);
      assert xs == [xs[0]] + xs[1..] && ys == [ys[0]] + ys[1..];
    }
  }
}
