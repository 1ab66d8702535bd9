/** Types shared by every component: bytes, digests, the abstract hash and Option. */
module Prelude {
  type byte = x: int | 0 <= x < 256

  type Bytes = seq<byte>

  /** The 32 bytes of a SHA-256 digest. */
  type Digest = d: Bytes | |d| == 32 witness seq(32, _ => 0)

  /** SHA-256 is a parameter everywhere: no theorem looks inside it. */
  type Hash = Bytes -> Digest

  datatype Option<+T> = None | Some(value: T) {
    function GetOr(default: T): T {
      match this
      case Some(v) => v
      case None => default
    }
  }

  /**
    A collision between two computations: an input hashed by one and a different input hashed by the other with the
    same digest. Both inputs are confined to finite sets of strings that were really hashed, because a bare
    "two strings collide" is true of every function into 32 bytes.
   */
  ghost predicate Collides(sha: Hash, left: set<Bytes>, right: set<Bytes>)
  {
    exists x, y | x in left && y in right :: x != y && sha(x) == sha(y)
  }

  lemma CollidesMonotone(sha: Hash, left: set<Bytes>, right: set<Bytes>, left': set<Bytes>, right': set<Bytes>)
    requires Collides(sha, left, right) && left <= left' && right <= right'
    ensures Collides(sha, left', right')
  {
    var x, y :| x in left && y in right && x != y && sha(x) == sha(y);
    assert x in left' && y in right';
  }
}
