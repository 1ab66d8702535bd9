/** The token bucket in front of every principal. */
module RateLimit {
  /** A bucket without fields, or the level it was left at and when. */
  datatype Level = Untouched | Level(tokens: real, at: real)

  function Min(x: real, y: real): real { if y < x then y else x }

  function Elapsed(last: real, now: real): real { if now > last then now - last else 0.0 }

  /** What flows into the bucket in a time. */
  function Flow(d: real, rate: real): real { d * rate }

  /** The tokens on offer at a moment. */
  function Offer(b: Level, now: real, rate: real, burst: real): real {
    match b
    case Untouched => burst
    case Level(tokens, at) => Min(burst, tokens + Flow(Elapsed(at, now), rate))
  }

  function Admits(b: Level, now: real, rate: real, burst: real): bool {
    Offer(b, now, rate, burst) >= 1.0
  }

  function Next(b: Level, now: real, rate: real, burst: real): Level {
    Level(Offer(b, now, rate, burst) - if Admits(b, now, rate, burst) then 1.0 else 0.0, now)
  }

  /** The mutable dictionary; its two keys are set together. */
  class Bucket {
    var tokens: real
    var ts: real
    var touched: bool

    constructor ()
      ensures Value() == Untouched
    {
      tokens, ts, touched := 0.0, 0.0, false;
    }

    function Value(): Level
      reads this
    {
      if touched then Level(tokens, ts) else Untouched
    }

    method RateOk(now: real, rate: real, burst: real) returns (ok: bool)
      modifies this
      ensures ok <==> Admits(old(Value()), now, rate, burst)
      ensures Value() == Next(old(Value()), now, rate, burst)
    {
      var last := if touched then ts else now;
      var level := if touched then tokens else burst;
      var have := Min(burst, level + Flow(Elapsed(last, now), rate));
      Nothing(rate);
      touched, ts := true, now;
      if have >= 1.0 {
        tokens := have - 1.0;
        return true;
      }
      tokens := have;
      return false;
    }
  }

  lemma Nothing(rate: real)
    ensures Flow(0.0, rate) == 0.0
  {
  }

  // ---- a run of calls --------------------------------------------------------------------------

  ghost predicate InOrder(times: seq<real>) {
    forall i, j | 0 <= i < j < |times| :: times[i] <= times[j]
  }

  /** The bucket was last used no later than the first call. */
  ghost predicate Before(b: Level, times: seq<real>) {
    b.Level? && times != [] ==> b.at <= times[0]
  }

  function After(b: Level, times: seq<real>, rate: real, burst: real): Level
    decreases |times|
  {
    if times == [] then b else After(Next(b, times[0], rate, burst), times[1..], rate, burst)
  }

  function Decisions(b: Level, times: seq<real>, rate: real, burst: real): (ds: seq<bool>)
    ensures |ds| == |times|
    decreases |times|
  {
    if times == [] then [] else [Admits(b, times[0], rate, burst)] + Decisions(Next(b, times[0], rate, burst), times[1..], rate, burst)
  }

  function Allowed(ds: seq<bool>): nat {
    if ds == [] then 0 else (if ds[0] then 1 else 0) + Allowed(ds[1..])
  }

  lemma Spread(x: real, y: real, rate: real)
    ensures Flow(x + y, rate) == Flow(x, rate) + Flow(y, rate)
  {
  }

  lemma NotNegative(x: real, rate: real)
    requires x >= 0.0 && rate >= 0.0
    ensures Flow(x, rate) >= 0.0
  {
  }

  /** The level never leaves [0, burst]. */
  ghost predicate Sound(b: Level, burst: real) {
    b.Level? ==> 0.0 <= b.tokens <= burst
  }

  lemma NextSound(b: Level, now: real, rate: real, burst: real)
    requires Sound(b, burst) && rate >= 0.0 && burst >= 0.0
    ensures Sound(Next(b, now, rate, burst), burst) && 0.0 <= Offer(b, now, rate, burst) <= burst
  {
    hide Flow;
    if b.Level? {
      NotNegative(Elapsed(b.at, now), rate);
    }
  }

  lemma FirstDecision(b: Level, times: seq<real>, rate: real, burst: real)
    requires times != []
    ensures Allowed(Decisions(b, times, rate, burst))
         == Allowed(Decisions(Next(b, times[0], rate, burst), times[1..], rate, burst)) + if Admits(b, times[0], rate, burst) then 1 else 0
  {
    var rest := Decisions(Next(b, times[0], rate, burst), times[1..], rate, burst);
    assert ([Admits(b, times[0], rate, burst)] + rest)[1..] == rest;
  }

  /** What was allowed was on offer at first or has flowed in since. */
  lemma {:induction false} AllowedWithinFlow(b: Level, times: seq<real>, rate: real, burst: real)
    requires Sound(b, burst) && rate >= 0.0 && burst >= 0.0 && InOrder(times) && times != [] && Before(b, times)
    ensures Allowed(Decisions(b, times, rate, burst)) as real <= Offer(b, times[0], rate, burst) + Flow(times[|times| - 1] - times[0], rate)
    decreases |times|
  {
    hide Offer, Decisions, Allowed, Flow;
    var b1 := Next(b, times[0], rate, burst);
    NextSound(b, times[0], rate, burst);
    FirstDecision(b, times, rate, burst);
    var rest := times[1..];
    if rest == [] {
      NoneAllowed(b1, rate, burst);
      assert times[|times| - 1] - times[0] == 0.0;
      Nothing(rate);
    } else {
      assert InOrder(rest) && Before(b1, rest);
      AllowedWithinFlow(b1, rest, rate, burst);
      OfferFlows(b1, rest[0], rate, burst);
      var gap, span := times[1] - times[0], times[|times| - 1] - times[1];
      assert rest[0] == times[1] && rest[|rest| - 1] == times[|times| - 1];
      assert gap + span == times[|times| - 1] - times[0];
      Spread(gap, span, rate);
    }
  }

  lemma NoneAllowed(b: Level, rate: real, burst: real)
    ensures Allowed(Decisions(b, [], rate, burst)) == 0
  {
  }

  lemma OfferFlows(b: Level, now: real, rate: real, burst: real)
    requires b.Level? && b.at <= now
    ensures Offer(b, now, rate, burst) <= b.tokens + Flow(now - b.at, rate)
  {
  }

  lemma {:induction false} DecisionsFrom(b: Level, times: seq<real>, rate: real, burst: real, i: nat)
    requires i <= |times|
    ensures Decisions(b, times, rate, burst)[i..] == Decisions(After(b, times[..i], rate, burst), times[i..], rate, burst)
    ensures Decisions(b, times, rate, burst)[..i] == Decisions(b, times[..i], rate, burst)
    decreases i
  {
    if i > 0 {
      var b1 := Next(b, times[0], rate, burst);
      DecisionsFrom(b1, times[1..], rate, burst, i - 1);
      assert times[..i][1..] == times[1..][..i - 1] && times[i..] == times[1..][i - 1..];
      var ds := Decisions(b1, times[1..], rate, burst);
      assert Decisions(b, times, rate, burst)[i..] == ds[i - 1..];
      assert Decisions(b, times, rate, burst)[..i] == [Admits(b, times[0], rate, burst)] + ds[..i - 1];
    }
  }

  lemma {:induction false} AfterSound(b: Level, times: seq<real>, rate: real, burst: real)
    requires Sound(b, burst) && rate >= 0.0 && burst >= 0.0
    ensures Sound(After(b, times, rate, burst), burst)
    decreases |times|
  {
    if times != [] {
      NextSound(b, times[0], rate, burst);
      AfterSound(Next(b, times[0], rate, burst), times[1..], rate, burst);
    }
  }

  lemma {:induction false} AfterAt(b: Level, times: seq<real>, rate: real, burst: real)
    requires times != []
    ensures After(b, times, rate, burst).Level? && After(b, times, rate, burst).at == times[|times| - 1]
    decreases |times|
  {
    var b1 := Next(b, times[0], rate, burst);
    if |times| > 1 {
      AfterAt(b1, times[1..], rate, burst);
    } else {
      assert After(b1, times[1..], rate, burst) == b1;
    }
  }

  lemma WindowFlow(times: seq<real>, rate: real, burst: real, i: nat, j: nat, d: real)
    requires rate >= 0.0 && burst >= 0.0 && InOrder(times) && i < j <= |times| && times[j - 1] - times[i] <= d
    ensures Allowed(Decisions(Untouched, times, rate, burst)[i..j]) as real <= burst + Flow(d, rate)
  {
    hide Decisions, After, Offer, Allowed, Flow;
    var b := After(Untouched, times[..i], rate, burst);
    var window := times[i..j];
    AfterSound(Untouched, times[..i], rate, burst);
    if i > 0 {
      AfterAt(Untouched, times[..i], rate, burst);
    } else {
      NothingYet(Untouched, rate, burst);
      assert times[..0] == [] && times[0..] == times;
    }
    DecisionsFrom(Untouched, times, rate, burst, i);
    DecisionsFrom(b, times[i..], rate, burst, j - i);
    assert times[i..][..j - i] == window;
    assert Decisions(Untouched, times, rate, burst)[i..][..j - i] == Decisions(Untouched, times, rate, burst)[i..j];
    AllowedWithinFlow(b, window, rate, burst);
    NextSound(b, window[0], rate, burst);
    var span := times[j - 1] - times[i];
    assert window[0] == times[i] && window[|window| - 1] == times[j - 1];
    assert Decisions(Untouched, times, rate, burst)[i..j] == Decisions(b, window, rate, burst);
    assert span + (d - span) == d;
    Spread(span, d - span, rate);
    NotNegative(d - span, rate);
  }

  /** However the calls fall, those allowed in a window of length d number at most burst + rate * d. */
  lemma WindowBound(times: seq<real>, rate: real, burst: real, i: nat, j: nat, d: real)
    requires rate >= 0.0 && burst >= 0.0 && InOrder(times) && i < j <= |times| && times[j - 1] - times[i] <= d
    ensures Allowed(Decisions(Untouched, times, rate, burst)[i..j]) as real <= burst + d * rate
  {
    hide Decisions, Allowed;
    WindowFlow(times, rate, burst, i, j, d);
  }

  lemma NothingYet(b: Level, rate: real, burst: real)
    ensures After(b, [], rate, burst) == b
  {
  }

  /** Calls at least 1/rate apart are never throttled. */
  lemma {:induction false} SpacedAreNeverThrottled(b: Level, times: seq<real>, rate: real, burst: real, k: nat)
    requires rate > 0.0 && burst >= 1.0 && k < |times|
    requires b == Untouched || (b.tokens >= 0.0 && times[0] - b.at >= 1.0 / rate)
    requires forall i | 0 <= i < |times| - 1 :: times[i + 1] - times[i] >= 1.0 / rate
    ensures Decisions(b, times, rate, burst)[k]
    decreases |times|
  {
    hide Flow;
    if b.Level? {
      OneToken(times[0] - b.at, rate);
    }
    if k > 0 {
      var b1 := Next(b, times[0], rate, burst);
      forall i | 0 <= i < |times[1..]| - 1 ensures times[1..][i + 1] - times[1..][i] >= 1.0 / rate {
        assert times[i + 2] - times[i + 1] >= 1.0 / rate;
      }
      SpacedAreNeverThrottled(b1, times[1..], rate, burst, k - 1);
    }
  }

  lemma OneToken(gap: real, rate: real)
    requires rate > 0.0 && gap >= 1.0 / rate
    ensures gap > 0.0 && Flow(gap, rate) >= 1.0
  {
    assert Flow(1.0 / rate, rate) == 1.0;
    NotNegative(gap - 1.0 / rate, rate);
    Spread(1.0 / rate, gap - 1.0 / rate, rate);
  }

  // ---- denied calls ----------------------------------------------------------------------------

  /** Two buckets that offer the same from a moment on. */
  ghost predicate Alike(b: Level, c: Level, from: real, rate: real, burst: real) {
    forall now | now >= from :: Offer(b, now, rate, burst) == Offer(c, now, rate, burst)
  }

  lemma DeniedIsAlike(b: Level, now: real, rate: real, burst: real)
    requires rate >= 0.0 && !Admits(b, now, rate, burst) && (b.Level? ==> b.at <= now && b.tokens <= burst)
    ensures Alike(Next(b, now, rate, burst), b, now, rate, burst)
  {
    hide Flow;
    forall later | later >= now ensures Offer(Next(b, now, rate, burst), later, rate, burst) == Offer(b, later, rate, burst) {
      NotNegative(later - now, rate);
      if b.Level? {
        Spread(now - b.at, later - now, rate);
      }
    }
  }

  lemma {:induction false} AlikeDecide(b: Level, c: Level, times: seq<real>, rate: real, burst: real)
    requires InOrder(times) && (times != [] ==> Alike(b, c, times[0], rate, burst))
    ensures Decisions(b, times, rate, burst) == Decisions(c, times, rate, burst)
  {
    hide Offer;
    if times != [] {
      assert Offer(b, times[0], rate, burst) == Offer(c, times[0], rate, burst);
      assert Next(b, times[0], rate, burst) == Next(c, times[0], rate, burst);
    }
  }

  /** Striking a denied call from the history changes no other decision. */
  lemma {:induction false} DeniedCallsLeaveNoTrace(b: Level, times: seq<real>, rate: real, burst: real, k: nat)
    requires rate >= 0.0 && burst >= 0.0 && Sound(b, burst) && InOrder(times) && Before(b, times) && k < |times|
    requires !Decisions(b, times, rate, burst)[k]
    ensures Decisions(b, times[..k] + times[k + 1..], rate, burst)
         == Decisions(b, times, rate, burst)[..k] + Decisions(b, times, rate, burst)[k + 1..]
    decreases |times|
  {
    hide Offer, Next, Flow;
    var b1 := Next(b, times[0], rate, burst);
    var rest := times[1..];
    NextSound(b, times[0], rate, burst);
    NextAt(b, times[0], rate, burst);
    var ds, es := Decisions(b, times, rate, burst), Decisions(b1, rest, rate, burst);
    assert ds == [ds[0]] + es;
    if k == 0 {
      assert times[..0] + times[1..] == rest;
      DeniedIsAlike(b, times[0], rate, burst);
      AlikeDecide(b1, b, rest, rate, burst);
      assert ds[..0] + ds[1..] == es;
    } else {
      assert InOrder(rest) && Before(b1, rest);
      DeniedCallsLeaveNoTrace(b1, rest, rate, burst, k - 1);
      Strike(times, rest, k);
      Strike(ds, es, k);
      var less := rest[..k - 1] + rest[k..];
      assert ([times[0]] + less)[1..] == less;
    }
  }

  lemma NextAt(b: Level, now: real, rate: real, burst: real)
    ensures Next(b, now, rate, burst).Level? && Next(b, now, rate, burst).at == now
  {
  }

  lemma Strike<T>(xs: seq<T>, rest: seq<T>, k: nat)
    requires 0 < k < |xs| && xs[1..] == rest
    ensures xs[..k] + xs[k + 1..] == [xs[0]] + (rest[..k - 1] + rest[k..])
  {
  }

  // ---- bursts ----------------------------------------------------------------------------------

  /** Calls at one moment, when t tokens are on hand: the first floor(min(t, burst)) of them are admitted. */
  lemma {:induction false} AtOnce(tokens: real, now: real, n: nat, rate: real, burst: real, k: nat)
    requires k < n
    ensures Decisions(Level(tokens, now), seq(n, _ => now), rate, burst)[k]
        <==> (k + 1) as real <= tokens && (k + 1) as real <= burst
    decreases n
  {
    hide Flow;
    var b := Level(tokens, now);
    var times := seq(n, _ => now);
    assert times[1..] == seq(n - 1, _ => now);
    Nothing(rate);
    var b1 := Next(b, now, rate, burst);
    assert Decisions(b, times, rate, burst) == [Admits(b, now, rate, burst)] + Decisions(b1, times[1..], rate, burst);
    if k > 0 {
      assert b1 == Level(b1.tokens, now);
      AtOnce(b1.tokens, now, n - 1, rate, burst, k - 1);
    }
  }

  /**
    A burst comes back with time: of the calls made at one moment, exactly the first k are admitted for which k is at most
    the burst and at most what was left plus the rate times the time since; from a fresh bucket the whole burst.
   */
  lemma BurstComesBack(b: Level, now: real, n: nat, rate: real, burst: real, k: nat)
    requires k < n && (b.Level? ==> b.at <= now)
    ensures Decisions(b, seq(n, _ => now), rate, burst)[k] <==>
              (k + 1) as real <= burst && (b.Level? ==> (k + 1) as real <= b.tokens + (now - b.at) * rate)
  {
    var tokens := if b.Level? then b.tokens + (now - b.at) * rate else burst;
    var times := seq(n, _ => now);
    AtOnce(tokens, now, n, rate, burst, k);
    assert times[0] == now;
    Nothing(rate);
    assert Offer(b, now, rate, burst) == Min(burst, tokens) == Offer(Level(tokens, now), now, rate, burst);
    SameOffer(b, Level(tokens, now), times, rate, burst);
  }

  /** Buckets that offer the same at the first call decide alike. */
  lemma SameOffer(b: Level, c: Level, times: seq<real>, rate: real, burst: real)
    requires times != [] && Offer(b, times[0], rate, burst) == Offer(c, times[0], rate, burst)
    ensures Decisions(b, times, rate, burst) == Decisions(c, times, rate, burst)
  {
    hide Offer;
  }

  /** A bucket left alone long enough is full again: it admits what a fresh one admits, ever after. */
  lemma RefillsWhole(b: Level, times: seq<real>, rate: real, burst: real)
    requires b.Level? && times != [] && b.at <= times[0] && b.tokens + (times[0] - b.at) * rate >= burst
    ensures Decisions(b, times, rate, burst) == Decisions(Untouched, times, rate, burst)
  {
    SameOffer(b, Untouched, times, rate, burst);
  }

  /** A clock that has gone back refills nothing, and the next wait is measured from where it stands. */
  lemma StampIsNow(b: Level, now: real, rate: real, burst: real)
    requires b.Level? && now < b.at
    ensures Next(b, now, rate, burst) == Next(b.(at := now), now, rate, burst) && Next(b, now, rate, burst).at == now
  {
    Nothing(rate);
  }
}
