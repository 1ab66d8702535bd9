/** The assertion verifier's time checks and its bounded, pruned cache of nonces. */
module ReplayCache {
  import opened Prelude
  import Graph

  /** nonce to expiry */
  type Cache = map<string, int>

  /** The entries that have not expired. */
  function Live(seen: Cache, now: int): Cache {
    map n | n in seen && seen[n] > now :: seen[n]
  }

  function Pruned(seen: Cache, now: int, cap: nat): Cache {
    if |seen| >= cap then Live(seen, now) else seen
  }

  function IsLive(seen: Cache, nonce: string, now: int): bool {
    (if nonce in seen then seen[nonce] else 0) > now
  }

  function Replayed(seen: Cache, nonce: string, now: int, cap: nat): bool {
    |Pruned(seen, now, cap)| >= cap || IsLive(Pruned(seen, now, cap), nonce, now)
  }

  function After(seen: Cache, nonce: string, exp: int, now: int, cap: nat): Cache {
    if Replayed(seen, nonce, now, cap) then Pruned(seen, now, cap) else Pruned(seen, now, cap)[nonce := exp]
  }

  /** wellFormed: the bearer decodes, and holds a nonce and a 32-byte key; subject is the key's id. */
  datatype Assertion = Assertion(wellFormed: bool, signed: bool, nonce: string, issued: int, expires: int, subject: string)

  class Verifier {
    const skew: int
    const maxTtl: int
    const cacheMax: nat
    var seen: Cache

    constructor (skew: int, maxTtl: int, cacheMax: nat)
      ensures seen == map[] && this.skew == skew && this.maxTtl == maxTtl && this.cacheMax == cacheMax
    {
      this.skew, this.maxTtl, this.cacheMax, seen := skew, maxTtl, cacheMax, map[];
    }

    /** Drops every expired entry. */
    method Prune(now: int)
      modifies this`seen
      ensures seen == Live(old(seen), now)
    {
      ghost var before := seen;
      var left := seen.Keys;
      while left != {}
        invariant left <= before.Keys
        invariant forall n :: n in seen <==> n in before && (n in left || before[n] > now)
        invariant forall n | n in seen :: seen[n] == before[n]
        decreases |left|
      {
        var n :| n in left;
        if seen[n] <= now {
          seen := seen - {n};
        }
        left := left - {n};
      }
    }

    method CheckReplayed(nonce: string, exp: int, now: int) returns (replayed: bool)
      modifies this`seen
      ensures replayed == Replayed(old(seen), nonce, now, cacheMax)
      ensures seen == After(old(seen), nonce, exp, now, cacheMax)
    {
      if |seen| >= cacheMax {
        Prune(now);
        if |seen| >= cacheMax {
          return true;
        }
      }
      if (if nonce in seen then seen[nonce] else 0) > now {
        return true;
      }
      seen := seen[nonce := exp];
      return false;
    }

    method Check(a: Assertion, now: int) returns (subject: Option<string>)
      modifies this`seen
      ensures subject == if InTime(a, now, skew, maxTtl) && !Replayed(old(seen), a.nonce, now, cacheMax) then Some(a.subject) else None
      ensures seen == if InTime(a, now, skew, maxTtl) then After(old(seen), a.nonce, a.expires, now, cacheMax) else old(seen)
    {
      if !a.wellFormed {
        return None;
      }
      if a.expires <= now || a.expires - a.issued > maxTtl {
        return None;
      }
      if a.issued > now + skew {
        return None;
      }
      if !a.signed {
        return None;
      }
      var replayed := CheckReplayed(a.nonce, a.expires, now);
      if replayed {
        return None;
      }
      return Some(a.subject);
    }
  }

  /** Everything but the nonce: decodable, signed, not expired, not too long-lived, not from the future. */
  predicate InTime(a: Assertion, now: int, skew: int, maxTtl: int) {
    a.wellFormed && a.signed && now < a.expires <= a.issued + maxTtl && a.issued <= now + skew
  }

  // ---- against a record that is never pruned ---------------------------------------------------

  /** The cache and the record agree on what is live. */
  ghost predicate Agrees(seen: Cache, record: Cache, now: int) {
    Live(seen, now) == Live(record, now)
  }

  lemma LiveNests(seen: Cache, now: int, later: int)
    requires now <= later
    ensures Live(Live(seen, now), later) == Live(seen, later)
  {
  }

  lemma StaysAgreed(seen: Cache, record: Cache, now: int, later: int)
    requires Agrees(seen, record, now) && now <= later
    ensures Agrees(seen, record, later)
  {
    LiveNests(seen, now, later);
    LiveNests(record, now, later);
  }

  lemma LiveIsSmaller(seen: Cache, now: int)
    ensures |Live(seen, now)| <= |seen|
  {
    Graph.SubsetSize(Live(seen, now).Keys, seen.Keys);
    assert |Live(seen, now).Keys| == |Live(seen, now)| && |seen.Keys| == |seen|;
  }

  /** Pruning only when full forgets nothing that matters: refused is what is live, or one too many. */
  lemma ReplayedMeansLiveOrFull(seen: Cache, record: Cache, nonce: string, now: int, cap: nat)
    requires Agrees(seen, record, now) && now >= 0
    ensures Replayed(seen, nonce, now, cap) <==> IsLive(record, nonce, now) || |Live(record, now)| >= cap
  {
    LiveNests(seen, now, now);
    assert IsLive(record, nonce, now) <==> nonce in Live(record, now);
    assert IsLive(Pruned(seen, now, cap), nonce, now) <==> nonce in Live(seen, now);
    LiveIsSmaller(seen, now);
  }

  lemma AfterAgrees(seen: Cache, record: Cache, nonce: string, exp: int, now: int, cap: nat)
    requires Agrees(seen, record, now) && |seen| <= cap
    ensures Agrees(After(seen, nonce, exp, now, cap), if Replayed(seen, nonce, now, cap) then record else record[nonce := exp], now)
    ensures |After(seen, nonce, exp, now, cap)| <= cap
  {
    hide Live;
    var pruned := Pruned(seen, now, cap);
    LiveNests(seen, now, now);
    LiveIsSmaller(seen, now);
    LiveUpdates(pruned, nonce, exp, now);
    LiveUpdates(record, nonce, exp, now);
    Grows(pruned, nonce, exp);
  }

  lemma LiveUpdates(m: Cache, nonce: string, exp: int, now: int)
    ensures Live(m[nonce := exp], now) == if exp > now then Live(m, now)[nonce := exp] else Live(m, now) - {nonce}
  {
  }

  lemma Grows(m: Cache, nonce: string, exp: int)
    ensures |m[nonce := exp]| <= |m| + 1
  {
    assert m[nonce := exp].Keys == m.Keys + {nonce};
    assert |m[nonce := exp].Keys| == |m[nonce := exp]| && |m.Keys| == |m|;
  }

  datatype Call = Call(assertion: Assertion, now: int)

  ghost predicate Clocked(calls: seq<Call>) {
    (forall i | 0 <= i < |calls| :: calls[i].now >= 0) && forall i, j | 0 <= i < j < |calls| :: calls[i].now <= calls[j].now
  }

  /** The cache after the calls, and the unbounded record of every assertion it accepted. */
  function Run(calls: seq<Call>, skew: int, maxTtl: int, cap: nat): (Cache, Cache) {
    if calls == [] then (map[], map[])
    else
      var n := |calls| - 1;
      var (seen, record) := Run(calls[..n], skew, maxTtl, cap);
      var a, now := calls[n].assertion, calls[n].now;
      if !InTime(a, now, skew, maxTtl) then (seen, record)
      else (After(seen, a.nonce, a.expires, now, cap),
            if Replayed(seen, a.nonce, now, cap) then record else record[a.nonce := a.expires])
  }

  lemma {:induction false} RunAgrees(calls: seq<Call>, skew: int, maxTtl: int, cap: nat, now: int)
    requires Clocked(calls) && forall i | 0 <= i < |calls| :: calls[i].now <= now
    ensures Agrees(Run(calls, skew, maxTtl, cap).0, Run(calls, skew, maxTtl, cap).1, now)
    ensures |Run(calls, skew, maxTtl, cap).0| <= cap
  {
    hide After, Replayed, Agrees, InTime;
    if calls == [] {
      assert Agrees(map[], map[], now) by { Same(map[], now); }
    } else {
      var n := |calls| - 1;
      var at := calls[n].now;
      var (seen, record) := Run(calls[..n], skew, maxTtl, cap);
      RunAgrees(calls[..n], skew, maxTtl, cap, at);
      AfterAgrees(seen, record, calls[n].assertion.nonce, calls[n].assertion.expires, at, cap);
      var (seen', record') := Run(calls, skew, maxTtl, cap);
      StaysAgreed(seen', record', at, now);
    }
  }

  lemma Same(seen: Cache, now: int)
    ensures Agrees(seen, seen, now)
  {
  }

  /** With a clock that never goes back, a call is accepted exactly when its times are good, the unbounded record holds
      no live entry of its nonce, and fewer than the cap are live; and the cache never holds more than the cap. */
  lemma AcceptsExactly(calls: seq<Call>, a: Assertion, now: int, skew: int, maxTtl: int, cap: nat)
    requires Clocked(calls + [Call(a, now)])
    ensures var (seen, record) := Run(calls, skew, maxTtl, cap);
      && |seen| <= cap
      && (InTime(a, now, skew, maxTtl) && !Replayed(seen, a.nonce, now, cap) <==>
          InTime(a, now, skew, maxTtl) && !IsLive(record, a.nonce, now) && |Live(record, now)| < cap)
  {
    hide InTime, Replayed, IsLive;
    var all := calls + [Call(a, now)];
    assert all[|calls|].now == now;
    assert forall i | 0 <= i < |calls| :: calls[i] == all[i] && all[i].now <= all[|calls|].now;
    RunAgrees(calls, skew, maxTtl, cap, now);
    var (seen, record) := Run(calls, skew, maxTtl, cap);
    ReplayedMeansLiveOrFull(seen, record, a.nonce, now, cap);
  }

  /** An accepted assertion blocks its place for a bounded time, so a full cache frees itself. */
  lemma {:induction false} RecordExpires(calls: seq<Call>, skew: int, maxTtl: int, cap: nat, now: int)
    requires forall i | 0 <= i < |calls| :: calls[i].now + skew + maxTtl <= now
    ensures Live(Run(calls, skew, maxTtl, cap).1, now) == map[]
  {
    hide After, Replayed;
    if calls != [] {
      var n := |calls| - 1;
      RecordExpires(calls[..n], skew, maxTtl, cap, now);
      var record := Run(calls[..n], skew, maxTtl, cap).1;
      var a := calls[n].assertion;
      if InTime(a, calls[n].now, skew, maxTtl) {
        assert a.expires <= now;
        assert Live(record[a.nonce := a.expires], now).Keys == Live(record, now).Keys - {a.nonce};
      }
    }
  }

  // ---- by history alone ------------------------------------------------------------------------

  /** Decodable and signed; not expired, not longer-lived than allowed, and issued no later than the skew from now. */
  ghost predicate Timely(c: Call, skew: int, maxTtl: int) {
    && c.assertion.wellFormed && c.assertion.signed
    && c.now < c.assertion.expires && c.assertion.expires - c.assertion.issued <= maxTtl && c.assertion.issued - c.now <= skew
  }

  /** The nonces of the earlier accepted calls that have not expired at the given time. */
  ghost function Holding(calls: seq<Call>, i: nat, now: int, skew: int, maxTtl: int, cap: nat): set<string>
    requires i <= |calls|
    decreases i, 0
  {
    set j | 0 <= j < i && Accepts(calls, j, skew, maxTtl, cap) && calls[j].assertion.expires > now :: calls[j].assertion.nonce
  }

  /** Timely, of a nonce that no accepted call still holds, and one of fewer than the cap. */
  ghost predicate Accepts(calls: seq<Call>, i: nat, skew: int, maxTtl: int, cap: nat)
    requires i < |calls|
    decreases i, 1
  {
    var held := Holding(calls, i, calls[i].now, skew, maxTtl, cap);
    Timely(calls[i], skew, maxTtl) && calls[i].assertion.nonce !in held && |held| < cap
  }

  /** What the verifier says of call i is said by the calls before it alone: there is no cache in Accepts. */
  lemma AcceptsByHistory(calls: seq<Call>, i: nat, skew: int, maxTtl: int, cap: nat)
    requires Clocked(calls) && i < |calls|
    ensures var a, now := calls[i].assertion, calls[i].now;
      InTime(a, now, skew, maxTtl) && !Replayed(Run(calls[..i], skew, maxTtl, cap).0, a.nonce, now, cap)
      <==> Accepts(calls, i, skew, maxTtl, cap)
    decreases i, 1
  {
    hide Replayed, Run, Holding;
    var a, now := calls[i].assertion, calls[i].now;
    assert calls[..i] + [Call(a, now)] == calls[..i + 1];
    AcceptsExactly(calls[..i], a, now, skew, maxTtl, cap);
    RecordIsHistory(calls, i, now, skew, maxTtl, cap);
    var live := Live(Run(calls[..i], skew, maxTtl, cap).1, now);
    assert |live.Keys| == |live|;
  }

  /** The unexpired part of the unbounded record is what the history holds. */
  lemma {:induction false} RecordIsHistory(calls: seq<Call>, i: nat, now: int, skew: int, maxTtl: int, cap: nat)
    requires Clocked(calls) && i <= |calls| && now >= 0 && forall k | 0 <= k < i :: calls[k].now <= now
    ensures Live(Run(calls[..i], skew, maxTtl, cap).1, now).Keys == Holding(calls, i, now, skew, maxTtl, cap)
    decreases i, 0
  {
    if i > 0 {
      var k := i - 1;
      var a, at := calls[k].assertion, calls[k].now;
      var record := Run(calls[..k], skew, maxTtl, cap).1;
      RecordIsHistory(calls, k, at, skew, maxTtl, cap);
      RecordIsHistory(calls, k, now, skew, maxTtl, cap);
      AcceptsByHistory(calls, k, skew, maxTtl, cap);
      RecordGrows(calls, k, skew, maxTtl, cap);
      HoldingGrows(calls, k, now, skew, maxTtl, cap);
      LiveUpdates(record, a.nonce, a.expires, now);
      LiveShrinks(record, at, now);
      assert Accepts(calls, k, skew, maxTtl, cap) ==> a.nonce !in Holding(calls, k, at, skew, maxTtl, cap);
      hide Live, Holding, Accepts, Run, Replayed, InTime, Clocked;
    }
  }

  lemma LiveShrinks(m: Cache, now: int, later: int)
    requires now <= later
    ensures Live(m, later).Keys <= Live(m, now).Keys
  {
  }

  lemma RecordGrows(calls: seq<Call>, k: nat, skew: int, maxTtl: int, cap: nat)
    requires k < |calls|
    ensures var (seen, record) := Run(calls[..k], skew, maxTtl, cap);
      var a, now := calls[k].assertion, calls[k].now;
      Run(calls[..k + 1], skew, maxTtl, cap).1
      == if InTime(a, now, skew, maxTtl) && !Replayed(seen, a.nonce, now, cap) then record[a.nonce := a.expires] else record
  {
    hide InTime, Replayed, After;
    assert calls[..k + 1][..k] == calls[..k];
  }

  lemma HoldingGrows(calls: seq<Call>, k: nat, now: int, skew: int, maxTtl: int, cap: nat)
    requires k < |calls|
    ensures Holding(calls, k + 1, now, skew, maxTtl, cap)
         == Holding(calls, k, now, skew, maxTtl, cap)
          + if Accepts(calls, k, skew, maxTtl, cap) && calls[k].assertion.expires > now then {calls[k].assertion.nonce} else {}
  {
    hide Accepts;
  }
}
