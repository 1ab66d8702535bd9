/**
  Merkle roots (infra/cwp/checkpoint.py) and inclusion proofs over them (infra/cwp/translog.py).
  The tree is rebuilt level by level and an odd node at the end of a level is paired with itself.
 */
module Merkle {
  import opened Prelude

  /** What is hashed to make node i of the level above: the two children, or the last child twice. */
  function Joined(level: seq<Digest>, i: nat): (r: Bytes)
    requires 2 * i < |level|
    ensures |r| == 64
  {
    var left: Bytes := level[2 * i];
    left + (if 2 * i + 1 < |level| then level[2 * i + 1] else level[2 * i])
  }

  function NextLevel(sha: Hash, level: seq<Digest>): (next: seq<Digest>)
    ensures |next| == (|level| + 1) / 2
  {
    seq<Digest>((|level| + 1) / 2, i requires 0 <= i < (|level| + 1) / 2 => sha(Joined(level, i)))
  }

  function Root(sha: Hash, leaves: seq<Digest>): Digest
    decreases |leaves|
  {
    if leaves == [] then sha([])
    else if |leaves| == 1 then leaves[0]
    else Root(sha, NextLevel(sha, leaves))
  }

  /** Every string hashed while the root is computed. */
  ghost function TreeInputs(sha: Hash, leaves: seq<Digest>): set<Bytes>
    decreases |leaves|
  {
    if |leaves| <= 1 then {}
    else (set i | 0 <= i < (|leaves| + 1) / 2 :: Joined(leaves, i)) + TreeInputs(sha, NextLevel(sha, leaves))
  }

  function Height(n: nat): nat
  {
    if n <= 1 then 0 else 1 + Height((n + 1) / 2)
  }

  function Sibling(idx: nat, n: nat): (sib: nat)
    requires idx < n
    ensures sib < n
  {
    var sib := if idx % 2 == 0 then idx + 1 else idx - 1;
    if sib >= n then idx else sib
  }

  /** The audit path, bottom-up. */
  function Path(sha: Hash, leaves: seq<Digest>, idx: nat): (path: seq<Digest>)
    requires idx < |leaves|
    ensures |path| == Height(|leaves|)
    decreases |leaves|
  {
    if |leaves| == 1 then []
    else [leaves[Sibling(idx, |leaves|)]] + Path(sha, NextLevel(sha, leaves), idx / 2)
  }

  /** What the checker hashes at one level; the sibling is ignored where the node has no right neighbour. */
  function StepInput(h: Bytes, idx: nat, span: nat, sib: Bytes): Bytes
  {
    if idx % 2 == 0 then h + (if idx + 1 < span then sib else h) else sib + h
  }

  function Climb(sha: Hash, h: Bytes, idx: nat, span: nat, path: seq<Bytes>): Bytes
    decreases |path|
  {
    if path == [] then h
    else Climb(sha, sha(StepInput(h, idx, span, path[0])), idx / 2, (span + 1) / 2, path[1..])
  }

  ghost function ClimbInputs(sha: Hash, h: Bytes, idx: nat, span: nat, path: seq<Bytes>): set<Bytes>
    decreases |path|
  {
    if path == [] then {}
    else
      var x := StepInput(h, idx, span, path[0]);
      {x} + ClimbInputs(sha, sha(x), idx / 2, (span + 1) / 2, path[1..])
  }

  // ----- the loops of the source, proved against the functions above

  method BuildLevel(sha: Hash, level: seq<Digest>) returns (next: seq<Digest>)
    ensures next == NextLevel(sha, level)
  {
    next := [];
    var i := 0;
    while i < |level|
      invariant i == 2 * |next|
      invariant |next| <= (|level| + 1) / 2
      invariant forall k :: 0 <= k < |next| ==> next[k] == NextLevel(sha, level)[k]
    {
      var a: Bytes := level[i];
      var b: Bytes := if i + 1 < |level| then level[i + 1] else level[i];
      assert Joined(level, |next|) == a + b;
      next := next + [sha(a + b)];
      i := i + 2;
    }
  }

  method MerkleRoot(sha: Hash, leaves: seq<Digest>) returns (root: Digest)
    ensures root == Root(sha, leaves)
  {
    if leaves == [] {
      return sha([]);
    }
    var level := leaves;
    while |level| > 1
      invariant |level| > 0
      invariant Root(sha, level) == Root(sha, leaves)
      decreases |level|
    {
      level := BuildLevel(sha, level);
    }
    root := level[0];
  }

  /** None stands for the IndexError of an index outside the log. */
  method InclusionProof(sha: Hash, index: int, leaves: seq<Digest>) returns (proof: Option<seq<Digest>>)
    ensures proof.Some? <==> 0 <= index < |leaves|
    ensures proof.Some? ==> proof.value == Path(sha, leaves, index)
  {
    if !(0 <= index < |leaves|) {
      return None;
    }
    var path, level, idx: nat := [], leaves, index;
    while |level| > 1
      invariant idx < |level|
      invariant path + Path(sha, level, idx) == Path(sha, leaves, index)
      decreases |level|
    {
      var sib := if idx % 2 == 0 then idx + 1 else idx - 1;
      if sib >= |level| {
        sib := idx;
      }
      path := path + [level[sib]];
      level := BuildLevel(sha, level);
      idx := idx / 2;
    }
    proof := Some(path);
  }

  ghost predicate Accepted(sha: Hash, leaf: Bytes, index: int, treeSize: int, proof: seq<Bytes>, root: Bytes)
  {
    0 <= index < treeSize && Climb(sha, leaf, index, treeSize, proof) == root
  }

  method VerifyInclusion(sha: Hash, leaf: Bytes, index: int, treeSize: int, proof: seq<Bytes>, root: Bytes)
    returns (ok: bool)
    ensures ok <==> Accepted(sha, leaf, index, treeSize, proof, root)
  {
    if !(0 <= index < treeSize) {
      return false;
    }
    var h, idx: nat, span: nat := leaf, index, treeSize;
    for k := 0 to |proof|
      invariant Climb(sha, h, idx, span, proof[k..]) == Climb(sha, leaf, index, treeSize, proof)
    {
      var sib := proof[k];
      if idx % 2 == 0 {
        h := sha(h + (if idx + 1 < span then sib else h));
      } else {
        h := sha(sib + h);
      }
      idx := idx / 2;
      span := (span + 1) / 2;
    }
    return h == root;
  }

  // ----- the builder and the checker agree

  /** The emitted path leads to the root; the checker's span only has to be large enough. */
  lemma {:induction false} PathClimbsToRoot(sha: Hash, leaves: seq<Digest>, index: nat, span: nat)
    requires index < |leaves| <= span
    ensures Climb(sha, leaves[index], index, span, Path(sha, leaves, index)) == Root(sha, leaves)
    decreases |leaves|
  {
    if |leaves| > 1 {
      var path := Path(sha, leaves, index);
      assert StepInput(leaves[index], index, span, path[0]) == Joined(leaves, index / 2);
      PathClimbsToRoot(sha, NextLevel(sha, leaves), index / 2, (span + 1) / 2);
      assert path[1..] == Path(sha, NextLevel(sha, leaves), index / 2);
    }
  }

  /** Completeness: for every log and every index the emitted path is accepted. */
  lemma InclusionComplete(sha: Hash, leaves: seq<Digest>, index: nat)
    requires index < |leaves|
    ensures Accepted(sha, leaves[index], index, |leaves|, Path(sha, leaves, index), Root(sha, leaves))
  {
    PathClimbsToRoot(sha, leaves, index, |leaves|);
  }

  /**
    Soundness: an accepted path of full height proves that the leaf sits at the index, unless the checker and the
    tree hashed two different strings to one digest.
   */
  lemma {:induction false} InclusionSound(sha: Hash, leaves: seq<Digest>, index: nat, leaf: Digest, proof: seq<Digest>)
    requires index < |leaves|
    requires |proof| == Height(|leaves|)
    requires Accepted(sha, leaf, index, |leaves|, proof, Root(sha, leaves))
    ensures leaf == leaves[index]
         || Collides(sha, ClimbInputs(sha, leaf, index, |leaves|, proof), TreeInputs(sha, leaves))
    decreases |leaves|
  {
    if |leaves| > 1 {
      var mine, theirs := StepInput(leaf, index, |leaves|, proof[0]), Joined(leaves, index / 2);
      var up := NextLevel(sha, leaves);
      InclusionSound(sha, up, index / 2, sha(mine), proof[1..]);
      if sha(mine) != up[index / 2] {
        CollidesMonotone(sha, ClimbInputs(sha, sha(mine), index / 2, |up|, proof[1..]), TreeInputs(sha, up),
                         ClimbInputs(sha, leaf, index, |leaves|, proof), TreeInputs(sha, leaves));
      } else if mine == theirs {
        HalvesAgree(leaf, index, leaves, proof[0]);
      } else {
        assert theirs in TreeInputs(sha, leaves);
      }
    }
  }

  lemma HalvesAgree(leaf: Digest, index: nat, leaves: seq<Digest>, sib: Digest)
    requires index < |leaves|
    requires StepInput(leaf, index, |leaves|, sib) == Joined(leaves, index / 2)
    ensures leaf == leaves[index]
  {
    var x, i := Joined(leaves, index / 2), index / 2;
    if index % 2 == 0 {
      assert leaf == x[..32];
      assert leaves[index] == x[..32];
    } else {
      assert leaf == x[32..];
      assert leaves[index] == x[32..];
    }
  }

  /**
    The checker does not look at the path's length, and soundness needs full height: in every log of at least two
    leaves the parent node of a leaf, claimed as the leaf at half the index, is accepted with the rest of the path.
   */
  lemma ParentPassesAsLeaf(sha: Hash, leaves: seq<Digest>, index: nat)
    requires index < |leaves| && |leaves| > 1
    ensures Accepted(sha, sha(Joined(leaves, index / 2)), index / 2, |leaves|, Path(sha, leaves, index)[1..],
                     Root(sha, leaves))
  {
    var up := NextLevel(sha, leaves);
    PathClimbsToRoot(sha, up, index / 2, |leaves|);
    assert Path(sha, leaves, index)[1..] == Path(sha, up, index / 2);
  }

  // ----- what a root commits to

  /** Two windows of one length with one root are the same window, or the two trees exhibit a collision. */
  lemma {:induction false} RootBinds(sha: Hash, xs: seq<Digest>, ys: seq<Digest>)
    requires |xs| == |ys| && Root(sha, xs) == Root(sha, ys)
    ensures xs == ys || Collides(sha, TreeInputs(sha, xs), TreeInputs(sha, ys))
    decreases |xs|
  {
    if |xs| > 1 {
      var xs', ys' := NextLevel(sha, xs), NextLevel(sha, ys);
      RootBinds(sha, xs', ys');
      if xs' != ys' {
        CollidesMonotone(sha, TreeInputs(sha, xs'), TreeInputs(sha, ys'), TreeInputs(sha, xs), TreeInputs(sha, ys));
      } else if xs != ys {
        var k :| 0 <= k < |xs| && xs[k] != ys[k];
        LevelDiffers(xs, ys, k);
        assert xs'[k / 2] == ys'[k / 2];
        assert Joined(xs, k / 2) in TreeInputs(sha, xs) && Joined(ys, k / 2) in TreeInputs(sha, ys);
      }
    }
  }

  lemma LevelDiffers(xs: seq<Digest>, ys: seq<Digest>, k: nat)
    requires |xs| == |ys| && k < |xs| && xs[k] != ys[k]
    ensures Joined(xs, k / 2) != Joined(ys, k / 2)
  {
    var x, y := Joined(xs, k / 2), Joined(ys, k / 2);
    if k % 2 == 0 {
      assert x[..32] == xs[k] && y[..32] == ys[k];
    } else {
      assert x[32..] == xs[k] && y[32..] == ys[k];
    }
  }

  /** The length has to be recorded beside the root: an odd window and the same window with its last leaf repeated share one. */
  lemma OddWindowShared(sha: Hash, xs: seq<Digest>)
    requires |xs| > 1 && |xs| % 2 == 1
    ensures Root(sha, xs) == Root(sha, xs + [xs[|xs| - 1]])
  {
    var ys := xs + [xs[|xs| - 1]];
    assert NextLevel(sha, xs) == NextLevel(sha, ys) by {
      forall i | 0 <= i < (|xs| + 1) / 2 ensures Joined(xs, i) == Joined(ys, i) {}
    }
  }


  // ----- the tree without its levels

  ghost function Doubled(k: nat): nat
  {
    if k == 0 then 1 else 2 * Doubled(k - 1)
  }

  /** A root raised by j levels on its own: hashed with itself each time. */
  ghost function Raised(sha: Hash, h: Digest, j: nat): Digest
    decreases j
  {
    if j == 0 then h else Raised(sha, sha(Concat(h, h)), j - 1)
  }

  ghost function Concat(a: Digest, b: Digest): Bytes
  {
    var left: Bytes := a;
    left + b
  }

  /**
    The root of a full left half of 2^k leaves and a right part of at most as many is the hash of the left root and
    then the right one, which is first raised to the same height.
   */
  lemma {:induction false} RootSplits(sha: Hash, xs: seq<Digest>, ys: seq<Digest>, k: nat)
    requires |xs| == Doubled(k) && 1 <= |ys| <= |xs|
    ensures Height(|ys|) <= k
    ensures Root(sha, xs + ys) == sha(Concat(Root(sha, xs), Raised(sha, Root(sha, ys), k - Height(|ys|))))
    decreases k
  {
    hide Root, Concat, Height, Raised, NextLevel;
    if k == 0 {
      RootOfTwo(sha, xs[0], ys[0]);
      RootOfOne(sha, xs[0]);
      RootOfOne(sha, ys[0]);
      assert xs == [xs[0]] && ys == [ys[0]] && xs + ys == [xs[0], ys[0]];
    } else {
      NextOfSplit(sha, xs, ys);
      RootSplits(sha, NextLevel(sha, xs), NextLevel(sha, ys), k - 1);
      RootUp(sha, xs + ys);
      RootUp(sha, xs);
      if |ys| == 1 {
        RootOfOne(sha, ys[0]);
        NextOfOne(sha, ys[0], k);
        assert ys == [ys[0]];
      } else {
        RootUp(sha, ys);
      }
    }
  }

  lemma RootUp(sha: Hash, leaves: seq<Digest>)
    requires |leaves| > 1
    ensures Root(sha, leaves) == Root(sha, NextLevel(sha, leaves)) && Height(|leaves|) == Height(|NextLevel(sha, leaves)|) + 1
  {
    hide NextLevel;
  }

  lemma RootOfOne(sha: Hash, x: Digest)
    ensures Root(sha, [x]) == x && Height(1) == 0 && Raised(sha, x, 0) == x
  {
  }

  lemma RootOfTwo(sha: Hash, x: Digest, y: Digest)
    ensures Root(sha, [x, y]) == sha(Concat(x, y))
  {
    assert Joined([x, y], 0) == Concat(x, y) by { JoinedAt([x, y], 0); }
    assert NextLevel(sha, [x, y]) == [sha(Joined([x, y], 0))];
    RootUp(sha, [x, y]);
  }

  /** A lone node is hashed with itself, which raises it by a level. */
  lemma NextOfOne(sha: Hash, x: Digest, k: nat)
    requires k > 0
    ensures var next := NextLevel(sha, [x]);
      |next| == 1 && Raised(sha, x, k) == Raised(sha, Root(sha, next), k - 1)
  {
    assert Joined([x], 0) == Concat(x, x) by { JoinedAt([x], 0); }
    assert NextLevel(sha, [x]) == [sha(Joined([x], 0))];
  }

  lemma JoinedAt(level: seq<Digest>, i: nat)
    requires 2 * i < |level|
    ensures Joined(level, i) == Concat(level[2 * i], if 2 * i + 1 < |level| then level[2 * i + 1] else level[2 * i])
  {
  }

  lemma NextOfSplit(sha: Hash, xs: seq<Digest>, ys: seq<Digest>)
    requires |xs| % 2 == 0
    ensures NextLevel(sha, xs + ys) == NextLevel(sha, xs) + NextLevel(sha, ys)
  {
    var all, n := xs + ys, |xs| / 2;
    forall i | 0 <= i < (|all| + 1) / 2 ensures NextLevel(sha, all)[i] == (NextLevel(sha, xs) + NextLevel(sha, ys))[i] {
      if i < n {
        assert Joined(all, i) == Joined(xs, i);
      } else {
        assert Joined(all, i) == Joined(ys, i - n);
      }
    }
  }


  lemma RootOfFew(sha: Hash, x: Digest, y: Digest, z: Digest)
    ensures Root(sha, []) == sha([]) && Root(sha, [x]) == x && Root(sha, [x, y]) == sha(Concat(x, y))
    ensures Root(sha, [x, y, z]) == sha(Concat(sha(Concat(x, y)), sha(Concat(z, z))))
  {
    assert [x, y] == [x] + [y] && [x, y, z] == [x, y] + [z];
    RootSplits(sha, [x], [y], 0);
    RootSplits(sha, [x, y], [z], 1);
  }
}
