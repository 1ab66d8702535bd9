/** The largest-remainder split of a money amount. Amounts are whole units of 0.0001, quotas are exact. */
module Split {
  import opened Prelude

  function Sum(xs: seq<int>): int {
    if xs == [] then 0 else xs[0] + Sum(xs[1..])
  }

  function Total(ws: seq<real>): real {
    if ws == [] then 0.0 else ws[0] + Total(ws[1..])
  }

  /** What the source refuses: no weights, a negative weight, or nothing to share by. */
  predicate Refused(ws: seq<real>) {
    ws == [] || (exists w | w in ws :: w < 0.0) || Total(ws) == 0.0
  }

  function Ratio(u: real, w: real, t: real): real
    requires t != 0.0
  {
    u * w / t
  }

  /** The exact part of the whole that is due to a weight. */
  function Quota(units: int, ws: seq<real>, i: nat): real
    requires i < |ws| && Total(ws) != 0.0
  {
    Ratio(units as real, ws[i], Total(ws))
  }

  function Floor(units: int, ws: seq<real>, i: nat): int
    requires i < |ws| && Total(ws) != 0.0
  {
    Quota(units, ws, i).Floor
  }

  function Remainder(units: int, ws: seq<real>, i: nat): (r: real)
    requires i < |ws| && Total(ws) != 0.0
    ensures 0.0 <= r < 1.0
  {
    Quota(units, ws, i) - Floor(units, ws, i) as real
  }

  /** Larger remainder first, then smaller index. */
  predicate Before(rs: seq<real>, i: nat, j: nat)
    requires i < |rs| && j < |rs|
  {
    rs[i] > rs[j] || (rs[i] == rs[j] && i < j)
  }

  function Remainders(units: int, ws: seq<real>): (rs: seq<real>)
    requires Total(ws) != 0.0
    ensures |rs| == |ws| && forall i | 0 <= i < |ws| :: rs[i] == Remainder(units, ws, i)
  {
    seq(|ws|, i requires 0 <= i < |ws| => Remainder(units, ws, i))
  }

  ghost predicate Extra(units: int, ws: seq<real>, parts: seq<int>, i: nat)
    requires i < |ws| == |parts| && Total(ws) != 0.0
  {
    parts[i] == Floor(units, ws, i) + 1
  }

  /** Floors, plus one unit each for the first of the order, adding up to the whole. */
  ghost predicate IsSplit(units: int, ws: seq<real>, parts: seq<int>)
    requires Total(ws) != 0.0
  {
    && |parts| == |ws| && Sum(parts) == units
    && (forall i | 0 <= i < |ws| :: parts[i] == Floor(units, ws, i) || Extra(units, ws, parts, i))
    && (forall i, j | 0 <= i < |ws| && 0 <= j < |ws| && Extra(units, ws, parts, i) && !Extra(units, ws, parts, j) ::
          Before(Remainders(units, ws), i, j))
  }

  // ---- sums ------------------------------------------------------------------------------------

  function AsReals(xs: seq<int>): (rs: seq<real>)
    ensures |rs| == |xs| && forall i | 0 <= i < |xs| :: rs[i] == xs[i] as real
  {
    seq(|xs|, i requires 0 <= i < |xs| => xs[i] as real)
  }

  lemma {:induction false} SumAsReal(xs: seq<int>)
    ensures Total(AsReals(xs)) == Sum(xs) as real
  {
    if xs != [] {
      assert AsReals(xs)[1..] == AsReals(xs[1..]);
      SumAsReal(xs[1..]);
    }
  }

  /** Pointwise at most, and less somewhere: the sums are strictly ordered. */
  lemma {:induction false} TotalOrdered(xs: seq<real>, ys: seq<real>)
    requires |xs| == |ys| && forall i | 0 <= i < |xs| :: xs[i] <= ys[i]
    ensures Total(xs) <= Total(ys)
    ensures (exists i :: 0 <= i < |xs| && xs[i] < ys[i]) ==> Total(xs) < Total(ys)
  {
    if xs != [] {
      TotalOrdered(xs[1..], ys[1..]);
      if i :| 0 <= i < |xs| && xs[i] < ys[i] {
        if i > 0 {
          assert xs[1..][i - 1] < ys[1..][i - 1];
        }
      }
    }
  }

  function Scaled(q: real, ws: seq<real>): (rs: seq<real>)
    ensures |rs| == |ws| && forall i | 0 <= i < |ws| :: rs[i] == q * ws[i]
  {
    seq(|ws|, i requires 0 <= i < |ws| => q * ws[i])
  }

  lemma Distribute(q: real, x: real, y: real)
    ensures q * (x + y) == q * x + q * y
  {
  }

  lemma {:induction false} TotalScaled(q: real, ws: seq<real>)
    ensures Total(Scaled(q, ws)) == q * Total(ws)
  {
    if ws != [] {
      var rest := ws[1..];
      forall i | 0 <= i < |rest| ensures Scaled(q, ws)[1..][i] == Scaled(q, rest)[i] {
        assert Scaled(q, ws)[i + 1] == q * ws[i + 1];
      }
      assert Scaled(q, ws)[1..] == Scaled(q, rest);
      TotalScaled(q, rest);
      Distribute(q, ws[0], Total(rest));
    }
  }

  function Quotas(units: int, ws: seq<real>): (qs: seq<real>)
    requires Total(ws) != 0.0
    ensures |qs| == |ws| && forall i | 0 <= i < |ws| :: qs[i] == Quota(units, ws, i)
  {
    seq(|ws|, i requires 0 <= i < |ws| => Quota(units, ws, i))
  }

  /** The exact quotas add up to the whole. */
  lemma QuotasAddUp(units: int, ws: seq<real>)
    requires Total(ws) != 0.0
    ensures Total(Quotas(units, ws)) == units as real
  {
    hide Ratio;
    var u, t := units as real, Total(ws);
    forall i | 0 <= i < |ws| ensures Quotas(units, ws)[i] == Scaled(u / t, ws)[i] {
      RatioScales(u, ws[i], t);
    }
    assert Quotas(units, ws) == Scaled(u / t, ws);
    TotalScaled(u / t, ws);
    Cancel(u, t);
  }

  lemma RatioScales(u: real, w: real, t: real)
    requires t != 0.0
    ensures Ratio(u, w, t) == (u / t) * w
  {
  }

  lemma Cancel(u: real, t: real)
    requires t != 0.0
    ensures (u / t) * t == u
  {
  }

  // ---- what a split promises -------------------------------------------------------------------

  /** A share whose quota is a whole number, such as a zero weight's, is exactly its quota. */
  lemma WholeQuotaIsExact(units: int, ws: seq<real>, parts: seq<int>, z: nat)
    requires Total(ws) != 0.0 && IsSplit(units, ws, parts) && z < |ws| && Remainder(units, ws, z) == 0.0
    ensures parts[z] as real == Quota(units, ws, z)
  {
    if Extra(units, ws, parts, z) {
      forall i | 0 <= i < |ws| ensures Quotas(units, ws)[i] <= AsReals(parts)[i] {
        if !Extra(units, ws, parts, i) {
          assert Before(Remainders(units, ws), z, i);
        }
      }
      assert Quotas(units, ws)[z] < AsReals(parts)[z];
      TotalOrdered(Quotas(units, ws), AsReals(parts));
      QuotasAddUp(units, ws);
      SumAsReal(parts);
    }
  }

  lemma ZeroWeightGetsNothing(units: int, ws: seq<real>, parts: seq<int>, z: nat)
    requires Total(ws) != 0.0 && IsSplit(units, ws, parts) && z < |ws| && ws[z] == 0.0
    ensures parts[z] == 0
  {
    RatioZero(units as real, ws[z], Total(ws));
    WholeQuotaIsExact(units, ws, parts, z);
  }

  /** A larger quota never gets a smaller share. */
  lemma LargerQuotaNeverLess(units: int, ws: seq<real>, parts: seq<int>, i: nat, j: nat)
    requires Total(ws) != 0.0 && IsSplit(units, ws, parts) && i < |ws| && j < |ws|
    requires Quota(units, ws, i) > Quota(units, ws, j)
    ensures parts[i] >= parts[j]
  {
    assert Extra(units, ws, parts, j) && !Extra(units, ws, parts, i) ==> Before(Remainders(units, ws), j, i);
  }

  lemma RatioZero(u: real, w: real, t: real)
    requires t != 0.0 && (u == 0.0 || w == 0.0)
    ensures Ratio(u, w, t) == 0.0
  {
    assert u * w == 0.0;
  }

  lemma RatioOrder(u: real, w: real, v: real, t: real)
    requires w > v && t > 0.0
    ensures u > 0.0 ==> Ratio(u, w, t) > Ratio(u, v, t)
    ensures u < 0.0 ==> Ratio(u, w, t) < Ratio(u, v, t)
  {
    if u > 0.0 {
      Multiplied(v, w, u);
      Divided(u * v, u * w, t);
    } else if u < 0.0 {
      Multiplied(v, w, -u);
      Divided(u * w, u * v, t);
    }
  }

  lemma Multiplied(a: real, b: real, c: real)
    requires a < b && c > 0.0
    ensures c * a < c * b && -c * a > -c * b
  {
  }

  lemma Divided(a: real, b: real, c: real)
    requires a < b && c > 0.0
    ensures a / c < b / c
  {
  }

  lemma {:induction false} TotalPositive(ws: seq<real>)
    requires forall w | w in ws :: w >= 0.0
    ensures Total(ws) >= 0.0
  {
    if ws != [] {
      assert ws[0] in ws && forall w | w in ws[1..] :: w in ws;
      TotalPositive(ws[1..]);
    }
  }

  lemma WeightOrdersQuota(units: int, ws: seq<real>, i: nat, j: nat)
    requires !Refused(ws) && i < |ws| && j < |ws| && ws[i] > ws[j]
    ensures units > 0 ==> Quota(units, ws, i) > Quota(units, ws, j)
    ensures units < 0 ==> Quota(units, ws, i) < Quota(units, ws, j)
    ensures units == 0 ==> Quota(units, ws, i) == 0.0 == Quota(units, ws, j)
  {
    hide Ratio;
    TotalPositive(ws);
    RatioOrder(units as real, ws[i], ws[j], Total(ws));
    if units == 0 {
      RatioZero(units as real, ws[i], Total(ws));
      RatioZero(units as real, ws[j], Total(ws));
    }
  }

  /** A strictly larger weight never gets less of a total that is not negative, nor more of one that is. */
  lemma LargerWeightNeverLess(units: int, ws: seq<real>, parts: seq<int>, i: nat, j: nat)
    requires !Refused(ws) && IsSplit(units, ws, parts) && i < |ws| && j < |ws| && ws[i] > ws[j]
    ensures units >= 0 ==> parts[i] >= parts[j]
    ensures units < 0 ==> parts[i] <= parts[j]
  {
    hide Quota, IsSplit, Total;
    WeightOrdersQuota(units, ws, i, j);
    if units > 0 {
      LargerQuotaNeverLess(units, ws, parts, i, j);
    } else if units < 0 {
      LargerQuotaNeverLess(units, ws, parts, j, i);
    } else {
      WholeQuotaIsExact(units, ws, parts, i);
      WholeQuotaIsExact(units, ws, parts, j);
    }
  }

  /** What is refused, weight by weight: none at all, a negative one, or nothing but zeros. */
  lemma RefusedMeans(ws: seq<real>)
    ensures Refused(ws) <==> (exists i :: 0 <= i < |ws| && ws[i] < 0.0) || forall i | 0 <= i < |ws| :: ws[i] == 0.0
  {
    if forall w | w in ws :: w >= 0.0 {
      assert forall i | 0 <= i < |ws| :: ws[i] in ws;
      ZeroTotal(ws);
    } else {
      var w :| w in ws && w < 0.0;
      var i :| 0 <= i < |ws| && ws[i] == w;
    }
  }

  lemma {:induction false} ZeroTotal(ws: seq<real>)
    requires forall w | w in ws :: w >= 0.0
    ensures Total(ws) == 0.0 <==> forall i | 0 <= i < |ws| :: ws[i] == 0.0
    ensures Total(ws) >= 0.0
  {
    if ws != [] {
      assert ws[0] in ws && forall w | w in ws[1..] :: w in ws;
      ZeroTotal(ws[1..]);
      assert (forall i | 0 <= i < |ws| :: ws[i] == 0.0) <==> ws[0] == 0.0 && forall i | 0 <= i < |ws[1..]| :: ws[1..][i] == 0.0 by {
        forall i | 0 < i < |ws| ensures ws[i] == ws[1..][i - 1] {
        }
      }
    }
  }

  /** Equal weights get equal shares, but for one unit that goes to the earlier of them. */
  lemma EqualWeights(units: int, ws: seq<real>, parts: seq<int>, i: nat, j: nat)
    requires Total(ws) != 0.0 && IsSplit(units, ws, parts) && i < j < |ws| && ws[i] == ws[j]
    ensures parts[j] <= parts[i] <= parts[j] + 1
  {
    var rs := Remainders(units, ws);
    assert rs[i] == rs[j];
    assert !Before(rs, j, i);
  }

  /**
    In numbers: parts of units, each the quota rounded down or one more, and a part that is one more has the larger
    fraction cut off, or the same and the smaller index, than any that is not.
   */
  lemma SplitMeans(units: int, ws: seq<real>, parts: seq<int>)
    requires Total(ws) != 0.0 && |parts| == |ws|
    ensures IsSplit(units, ws, parts) <==>
      && Sum(parts) == units
      && (forall i: nat | i < |ws| :: parts[i] in {Exact(units, ws, i).Floor, Exact(units, ws, i).Floor + 1})
      && (forall i: nat, j: nat | i < |ws| && j < |ws| && parts[i] == Exact(units, ws, i).Floor + 1 && parts[j] == Exact(units, ws, j).Floor ::
            var cutI, cutJ := Cut(Exact(units, ws, i)), Cut(Exact(units, ws, j)); cutI > cutJ || (cutI == cutJ && i < j))
  {
    hide Quota;
    var rs := Remainders(units, ws);
    forall i: nat | i < |ws|
      ensures Floor(units, ws, i) == Exact(units, ws, i).Floor && rs[i] == Cut(Exact(units, ws, i))
      ensures Extra(units, ws, parts, i) <==> parts[i] == Exact(units, ws, i).Floor + 1
    {
      ExactIsQuota(units, ws, i);
      assert rs[i] == Remainder(units, ws, i);
    }
    assert forall i: nat, j: nat | i < |ws| && j < |ws| :: Before(rs, i, j) <==>
      rs[i] > rs[j] || (rs[i] == rs[j] && i < j);
    hide Exact, Sum, Total, Floor, Before, Extra, Cut, Remainders;
  }

  /** What rounding down cuts off. */
  ghost function Cut(x: real): real {
    x - x.Floor as real
  }

  /** The share of units that is in proportion to the weight. */
  ghost function Exact(units: int, ws: seq<real>, i: nat): real
    requires i < |ws| && Total(ws) != 0.0
  {
    units as real * ws[i] / Total(ws)
  }

  lemma ExactIsQuota(units: int, ws: seq<real>, i: nat)
    requires i < |ws| && Total(ws) != 0.0
    ensures Exact(units, ws, i) == Quota(units, ws, i)
  {
    var u, w, t := units as real, ws[i], Total(ws);
    assert Ratio(u, w, t) == u * w / t;
  }

  /** There is one split. */
  lemma SplitUnique(units: int, ws: seq<real>, a: seq<int>, b: seq<int>)
    requires Total(ws) != 0.0 && IsSplit(units, ws, a) && IsSplit(units, ws, b)
    ensures a == b
  {
    forall i | 0 <= i < |ws| ensures a[i] <= b[i] {
      NotAbove(units, ws, a, b, i);
    }
    forall i | 0 <= i < |ws| ensures b[i] <= a[i] {
      NotAbove(units, ws, b, a, i);
    }
  }

  lemma NotBothBefore(rs: seq<real>, i: nat, j: nat)
    requires i < |rs| && j < |rs|
    ensures !(Before(rs, i, j) && Before(rs, j, i))
  {
  }

  lemma NotAbove(units: int, ws: seq<real>, a: seq<int>, b: seq<int>, i: nat)
    requires Total(ws) != 0.0 && IsSplit(units, ws, a) && IsSplit(units, ws, b) && i < |ws|
    ensures a[i] <= b[i]
  {
    if a[i] > b[i] {
      assert Extra(units, ws, a, i) && !Extra(units, ws, b, i);
      forall j | 0 <= j < |ws| ensures AsReals(b)[j] <= AsReals(a)[j] {
        NotBothBefore(Remainders(units, ws), i, j);
      }
      assert AsReals(b)[i] < AsReals(a)[i];
      TotalOrdered(AsReals(b), AsReals(a));
      SumAsReal(a);
      SumAsReal(b);
    }
  }

  // ---- the algorithm ---------------------------------------------------------------------------

  ghost predicate Ranked(rs: seq<real>, order: seq<nat>) {
    && (forall k | 0 <= k < |order| :: order[k] < |rs|)
    && (forall k, l | 0 <= k < l < |order| :: Before(rs, order[k], order[l]))
  }

  function InsertIndex(rs: seq<real>, i: nat, order: seq<nat>): seq<nat>
    requires i < |rs| && forall k | 0 <= k < |order| :: order[k] < |rs|
  {
    if order == [] || Before(rs, i, order[0]) then [i] + order
    else [order[0]] + InsertIndex(rs, i, order[1..])
  }

  lemma {:induction false} InsertKeeps(rs: seq<real>, i: nat, order: seq<nat>)
    requires i < |rs| && Ranked(rs, order) && i !in order
    ensures |InsertIndex(rs, i, order)| == |order| + 1
    ensures forall j :: j in InsertIndex(rs, i, order) <==> j == i || j in order
    ensures Ranked(rs, InsertIndex(rs, i, order))
  {
    if order != [] && !Before(rs, i, order[0]) {
      var rest := order[1..];
      InsertKeeps(rs, i, rest);
      assert forall j :: j in order <==> j == order[0] || j in rest;
      assert InsertIndex(rs, i, order) == [order[0]] + InsertIndex(rs, i, rest);
      forall j | j in InsertIndex(rs, i, rest) ensures j < |rs| && Before(rs, order[0], j) {
      }
    }
  }

  /** The indices below n, sorted by the key of the source. */
  function Order(rs: seq<real>, n: nat): (order: seq<nat>)
    requires n <= |rs|
    ensures |order| == n && Ranked(rs, order) && forall j :: j in order <==> 0 <= j < n
  {
    if n == 0 then []
    else
      var order := Order(rs, n - 1);
      InsertKeeps(rs, n - 1, order);
      InsertIndex(rs, n - 1, order)
  }

  lemma {:induction false} SumBump(xs: seq<int>, i: nat)
    requires i < |xs|
    ensures Sum(xs[i := xs[i] + 1]) == Sum(xs) + 1
  {
    var ys := xs[i := xs[i] + 1];
    if i == 0 {
      assert ys[1..] == xs[1..];
    } else {
      assert ys[1..] == xs[1..][i - 1 := xs[1..][i - 1] + 1];
      SumBump(xs[1..], i - 1);
    }
  }

  function Floors(units: int, ws: seq<real>): (fs: seq<int>)
    requires Total(ws) != 0.0
    ensures |fs| == |ws| && forall i | 0 <= i < |ws| :: fs[i] == Floor(units, ws, i)
  {
    seq(|ws|, i requires 0 <= i < |ws| => Floor(units, ws, i))
  }

  /** Flooring leaves fewer units over than there are shares. */
  lemma LeftoverIsSmall(units: int, ws: seq<real>)
    requires Total(ws) != 0.0
    ensures 0 <= units - Sum(Floors(units, ws)) < |ws|
  {
    var fs := Floors(units, ws);
    QuotasAddUp(units, ws);
    SumAsReal(fs);
    TotalOrdered(AsReals(fs), Quotas(units, ws));
    var tops := seq(|ws|, i requires 0 <= i < |ws| => fs[i] + 1);
    assert Quotas(units, ws)[0] < AsReals(tops)[0];
    TotalOrdered(Quotas(units, ws), AsReals(tops));
    SumAsReal(tops);
    SumOneMore(fs, tops);
  }

  lemma {:induction false} SumOneMore(xs: seq<int>, ys: seq<int>)
    requires |ys| == |xs| && forall i | 0 <= i < |xs| :: ys[i] == xs[i] + 1
    ensures Sum(ys) == Sum(xs) + |xs|
  {
    if xs != [] {
      SumOneMore(xs[1..], ys[1..]);
    }
  }

  /** One more unit for each of the first k in the order. */
  method AddUnits(floors: seq<int>, rs: seq<real>, order: seq<nat>, remainder: nat) returns (alloc: seq<int>)
    requires |rs| == |floors| == |order| && Ranked(rs, order) && remainder < |order|
    ensures |alloc| == |floors| && Sum(alloc) == Sum(floors) + remainder
    ensures forall i: nat | i < |floors| :: alloc[i] == floors[i] + if i in order[..remainder] then 1 else 0
  {
    hide Sum, Ranked;
    alloc := floors;
    for k := 0 to remainder
      invariant |alloc| == |floors| && Sum(alloc) == Sum(floors) + k
      invariant forall i: nat | i < |floors| :: alloc[i] == floors[i] + if i in order[..k] then 1 else 0
    {
      RankedApart(rs, order, k);
      var i := order[k % |order|];
      SumBump(alloc, i);
      assert order[..k + 1] == order[..k] + [i];
      alloc := alloc[i := alloc[i] + 1];
    }
  }

  /** None stands for the exception. */
  method Split(units: int, ws: seq<real>) returns (parts: Option<seq<int>>)
    ensures parts.None? <==> Refused(ws)
    ensures parts.Some? ==> IsSplit(units, ws, parts.value)
  {
    hide Quota, Floor, Remainder, Sum, Before, Total;
    if Refused(ws) {
      return None;
    }
    var floors := Floors(units, ws);
    var floored := SumOf(floors);
    var rs := Remainders(units, ws);
    var order := Order(rs, |ws|);
    LeftoverIsSmall(units, ws);
    var alloc := AddUnits(floors, rs, order, units - floored);
    FirstOfOrder(rs, order, units - floored);
    return Some(alloc);
  }

  lemma RankedApart(rs: seq<real>, order: seq<nat>, k: nat)
    requires Ranked(rs, order) && k < |order|
    ensures k % |order| == k && order[k] < |rs| && order[k] !in order[..k]
  {
  }

  lemma FirstOfOrder(rs: seq<real>, order: seq<nat>, n: nat)
    requires Ranked(rs, order) && n <= |order| && forall i: nat | i < |rs| :: i in order
    ensures forall i: nat, j: nat | i < |rs| && j < |rs| && i in order[..n] && j !in order[..n] :: Before(rs, i, j)
  {
    forall i: nat, j: nat | i < |rs| && j < |rs| && i in order[..n] && j !in order[..n] ensures Before(rs, i, j) {
      var k :| 0 <= k < n && order[k] == i;
      assert j in order && order == order[..n] + order[n..];
      var l :| n <= l < |order| && order[l] == j;
    }
  }

  method SumOf(xs: seq<int>) returns (sum: int)
    ensures sum == Sum(xs)
  {
    sum := 0;
    for k := 0 to |xs|
      invariant sum + Sum(xs[k..]) == Sum(xs)
    {
      assert xs[k..][1..] == xs[k + 1..];
      sum := sum + xs[k];
    }
  }
}
