/** Checkpoints bind content: accepted and audited chains with the same checkpoints agree on everything windowed. */
module CheckpointBinding {
  import opened Prelude
  import opened Encoding
  import opened Json
  import opened Chain
  import opened Checkpoint
  import CheckpointProofs
  import Merkle

  /** The seq of entry k is c + k. */
  ghost predicate Offset(entries: seq<Entry>, c: int)
  {
    forall k | 0 <= k < |entries| :: SeqOf(entries[k]) == Some(c + k)
  }

  /** In an accepted chain whose genesis carries a seq, as genesis() writes it, seqs count the records. */
  lemma {:induction false} AcceptedIsOffset(digest: LinkDigest, entries: seq<Entry>, c: int, k: nat)
    requires Valid(digest, entries) && SeqOf(entries[0]) == Some(c) && k < |entries|
    ensures SeqOf(entries[k]) == Some(c + k)
  {
    if k > 0 {
      AcceptedIsOffset(digest, entries, c, k - 1);
      assert Follows(digest, entries, k);
    }
  }

  lemma AcceptedOffset(digest: LinkDigest, entries: seq<Entry>, c: int)
    requires Valid(digest, entries) && SeqOf(entries[0]) == Some(c)
    ensures Offset(entries, c)
  {
    forall k | 0 <= k < |entries| ensures SeqOf(entries[k]) == Some(c + k) {
      AcceptedIsOffset(digest, entries, c, k);
    }
  }

  /** Checkpoints stand at the same places before position p. */
  ghost predicate SamePlaces(xs: seq<Entry>, ys: seq<Entry>, p: nat)
  {
    && p <= |xs| && p <= |ys|
    && forall k | 0 <= k < p :: IsCheckpoint(xs[k]) <==> IsCheckpoint(ys[k])
  }

  /** The entry a window collects for seq s, if any. */
  lemma WindowStep(entries: seq<Entry>, c: int, s: int, stop: int)
    requires Offset(entries, c) && s < stop <= c + |entries|
    ensures var rest := WindowOf(BySeq(entries), s + 1, stop);
            WindowOf(BySeq(entries), s, stop)
            == if c <= s && !IsCheckpoint(entries[s - c]) then [entries[s - c]] + rest else rest
  {
    CheckpointProofs.BySeqIsPosition(entries, c);
    if c <= s {
      assert BySeq(entries)[c + (s - c)] == entries[s - c];
    }
  }

  /** Windows over the same seqs have the same length. */
  lemma {:induction false} WindowsSameLength(xs: seq<Entry>, ys: seq<Entry>, c: int, p: nat, s: int, stop: int)
    requires Offset(xs, c) && Offset(ys, c) && SamePlaces(xs, ys, p) && stop <= c + p
    ensures |WindowOf(BySeq(xs), s, stop)| == |WindowOf(BySeq(ys), s, stop)|
    decreases stop - s
  {
    if s < stop {
      WindowStep(xs, c, s, stop);
      WindowStep(ys, c, s, stop);
      WindowsSameLength(xs, ys, c, p, s + 1, stop);
    }
  }

  /** Windows with the same leaves hold links of equal digest at every position. */
  lemma {:induction false} WindowsPair(digest: LinkDigest, xs: seq<Entry>, ys: seq<Entry>, c: int, p: nat, s: int, stop: int, k: nat)
    requires Offset(xs, c) && Offset(ys, c) && SamePlaces(xs, ys, p) && stop <= c + p
    requires Leaves(digest, WindowOf(BySeq(xs), s, stop)) == Leaves(digest, WindowOf(BySeq(ys), s, stop))
    requires k < p && s <= c + k < stop && !IsCheckpoint(xs[k])
    ensures digest(LinkOf(xs[k])) == digest(LinkOf(ys[k]))
    decreases stop - s
  {
    hide BySeq, WindowOf, Leaves, LinkOf, SeqOf, IsCheckpoint;
    LeavesStep(digest, xs, c, s, stop);
    LeavesStep(digest, ys, c, s, stop);
    if c <= s && !IsCheckpoint(xs[s - c]) {
      SameHead(digest(LinkOf(xs[s - c])), Leaves(digest, WindowOf(BySeq(xs), s + 1, stop)),
               digest(LinkOf(ys[s - c])), Leaves(digest, WindowOf(BySeq(ys), s + 1, stop)));
    }
    if s != c + k {
      WindowsPair(digest, xs, ys, c, p, s + 1, stop, k);
    }
  }

  lemma LeavesStep(digest: LinkDigest, entries: seq<Entry>, c: int, s: int, stop: int)
    requires Offset(entries, c) && s < stop <= c + |entries|
    ensures var rest := Leaves(digest, WindowOf(BySeq(entries), s + 1, stop));
            Leaves(digest, WindowOf(BySeq(entries), s, stop))
            == if c <= s && !IsCheckpoint(entries[s - c]) then [digest(LinkOf(entries[s - c]))] + rest else rest
  {
    WindowStep(entries, c, s, stop);
    hide BySeq, WindowOf, LinkOf, SeqOf, IsCheckpoint, Offset;
    if c <= s {
      LeavesFirst(digest, entries[s - c], WindowOf(BySeq(entries), s + 1, stop));
    }
  }

  lemma SameHead<T>(x: T, xs: seq<T>, y: T, ys: seq<T>)
    requires [x] + xs == [y] + ys
    ensures x == y && xs == ys
  {
    assert ([x] + xs)[0] == ([y] + ys)[0] && ([x] + xs)[1..] == ([y] + ys)[1..];
    assert ([x] + xs)[1..] == xs && ([y] + ys)[1..] == ys;
  }

  lemma LeavesFirst(digest: LinkDigest, x: Entry, xs: seq<Entry>)
    ensures Leaves(digest, [x] + xs) == [digest(LinkOf(x))] + Leaves(digest, xs)
  {
    hide LinkOf;
    var all, more := Leaves(digest, [x] + xs), [digest(LinkOf(x))] + Leaves(digest, xs);
    forall i | 0 <= i < |all| ensures all[i] == more[i] {
      assert i > 0 ==> ([x] + xs)[i] == xs[i - 1];
    }
  }

  ghost function WindowInputs(sha: Hash, digest: LinkDigest, entries: seq<Entry>, p: nat): set<Bytes>
    requires p < |entries|
  {
    var ws, we := IntField(entries[p], "window_start"), IntField(entries[p], "window_end");
    if ws.None? || we.None? then {}
    else Merkle.TreeInputs(sha, Leaves(digest, WindowOf(BySeq(entries), ws.value, we.value + 1)))
  }

  /** Entry k lies in the window of the checkpoint at p, and that window ends before the checkpoint. */
  ghost predicate Covers(entries: seq<Entry>, p: nat, k: nat)
    requires k < p < |entries|
  {
    var ws, we := IntField(entries[p], "window_start"), IntField(entries[p], "window_end");
    && IsCheckpoint(entries[p]) && !IsCheckpoint(entries[k])
    && ws.Some? && we.Some? && SeqOf(entries[p]).Some? && SeqOf(entries[k]).Some?
    && ws.value <= SeqOf(entries[k]).value <= we.value < SeqOf(entries[p]).value
  }

  ghost predicate Audited(sha: Hash, digest: LinkDigest, entries: seq<Entry>)
  {
    Valid(digest, entries) && AuditClean(sha, digest, entries) && SeqOf(entries[0]).Some?
  }

  lemma RootFieldInjective(sha: Hash, digest: LinkDigest, a: seq<Entry>, b: seq<Entry>)
    requires RootField(sha, digest, a) == RootField(sha, digest, b)
    ensures Merkle.Root(sha, Leaves(digest, a)) == Merkle.Root(sha, Leaves(digest, b))
  {
    HexInjective(Merkle.Root(sha, Leaves(digest, a)), Merkle.Root(sha, Leaves(digest, b)));
  }

  /** Windows over the same seqs with the same root hold equal link digests, or show a collision. */
  lemma WindowsBind(sha: Hash, digest: LinkDigest, xs: seq<Entry>, ys: seq<Entry>, c: int, p: nat, s: int, stop: int, k: nat)
    requires Offset(xs, c) && Offset(ys, c) && SamePlaces(xs, ys, p) && stop <= c + p
    requires k < p && s <= c + k < stop && !IsCheckpoint(xs[k])
    requires Merkle.Root(sha, Leaves(digest, WindowOf(BySeq(xs), s, stop))) == Merkle.Root(sha, Leaves(digest, WindowOf(BySeq(ys), s, stop)))
    ensures || digest(LinkOf(xs[k])) == digest(LinkOf(ys[k]))
            || Collides(sha, Merkle.TreeInputs(sha, Leaves(digest, WindowOf(BySeq(xs), s, stop))),
                             Merkle.TreeInputs(sha, Leaves(digest, WindowOf(BySeq(ys), s, stop))))
  {
    hide BySeq, WindowOf, LinkOf, Offset, Collides, Merkle.Root, Merkle.TreeInputs;
    var a, b := Leaves(digest, WindowOf(BySeq(xs), s, stop)), Leaves(digest, WindowOf(BySeq(ys), s, stop));
    WindowsSameLength(xs, ys, c, p, s, stop);
    Merkle.RootBinds(sha, a, b);
    if a == b {
      WindowsPair(digest, xs, ys, c, p, s, stop, k);
    }
  }

  /** One shared checkpoint fixes one entry of its window. */
  lemma CheckpointBindsEntry(sha: Hash, digest: LinkDigest, xs: seq<Entry>, ys: seq<Entry>, p: nat, k: nat)
    requires Audited(sha, digest, xs) && Audited(sha, digest, ys)
    requires k < p && p < |xs| && p < |ys| && xs[p] == ys[p] && SamePlaces(xs, ys, p) && Covers(xs, p, k)
    ensures || LinkOf(xs[k]) == LinkOf(ys[k])
            || LinksCollide(digest, xs, ys)
            || Collides(sha, WindowInputs(sha, digest, xs, p), WindowInputs(sha, digest, ys, p))
  {
    hide BySeq, WindowOf, Leaves, LinkOf, Valid, Get, IsCheckpoint, IntField, SeqOf, RootField, Collides, Merkle.Root, Merkle.TreeInputs;
    var c := SeqOf(xs[0]).value;
    AcceptedOffset(digest, xs, c);
    AcceptedOffset(digest, ys, SeqOf(ys[0]).value);
    assert SeqOf(xs[p]) == Some(c + p) && SeqOf(ys[p]) == Some(SeqOf(ys[0]).value + p) && SeqOf(xs[k]) == Some(c + k);
    var ws, stop := IntField(xs[p], "window_start").value, IntField(xs[p], "window_end").value + 1;
    assert RootMatches(sha, digest, xs, xs[p]) && RootMatches(sha, digest, ys, ys[p]);
    RootFieldInjective(sha, digest, WindowOf(BySeq(xs), ws, stop), WindowOf(BySeq(ys), ws, stop));
    WindowsBind(sha, digest, xs, ys, c, p, ws, stop, k);
  }

  /** The checkpoints of both chains stand at the same positions and are the same records. */
  ghost predicate SameCheckpoints(xs: seq<Entry>, ys: seq<Entry>)
  {
    && (forall p | 0 <= p < |xs| && IsCheckpoint(xs[p]) :: p < |ys| && ys[p] == xs[p])
    && (forall p | 0 <= p < |ys| && IsCheckpoint(ys[p]) :: p < |xs| && xs[p] == ys[p])
  }

  /** Two accepted and audited chains with the same checkpoints agree on every windowed entry, or exhibit a collision. */
  lemma SameCheckpointsSameContent(sha: Hash, digest: LinkDigest, xs: seq<Entry>, ys: seq<Entry>)
    requires Audited(sha, digest, xs) && Audited(sha, digest, ys) && SameCheckpoints(xs, ys)
    ensures || (forall k, p | 0 <= k < p < |xs| && Covers(xs, p, k) :: p < |ys| && LinkOf(xs[k]) == LinkOf(ys[k]))
            || LinksCollide(digest, xs, ys)
            || (exists p :: 0 <= p < |xs| && p < |ys|
                         && Collides(sha, WindowInputs(sha, digest, xs, p), WindowInputs(sha, digest, ys, p)))
  {
    hide LinkOf, Valid, Get, IsCheckpoint, IntField, SeqOf, Collides, WindowInputs, LinksCollide;
    if !LinksCollide(digest, xs, ys)
    && !(exists p :: 0 <= p < |xs| && p < |ys|
                  && Collides(sha, WindowInputs(sha, digest, xs, p), WindowInputs(sha, digest, ys, p))) {
      forall k, p | 0 <= k < p < |xs| && Covers(xs, p, k) ensures p < |ys| && LinkOf(xs[k]) == LinkOf(ys[k]) {
        assert SamePlaces(xs, ys, p);
        CheckpointBindsEntry(sha, digest, xs, ys, p, k);
      }
    }
  }
}
