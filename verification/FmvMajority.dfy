/** What the cap on a controller's volume buys, in terms of the trades themselves. */
module FmvMajority {
  import opened Fmv
  import opened FmvIndex

  /** What a controller traded in all. */
  ghost function TradedBy(trades: seq<Trade>, c: string): int {
    Sum(LotsOf(trades, c))
  }

  ghost predicate AllTrade(trades: seq<Trade>) {
    forall t | t in trades :: t.volume >= 1
  }

  /**
    No lot is more than the mean of what all controllers traded, rounded down, and a controller that is cut down is cut
    to exactly that; where the mean is below one, it is cut to one.
   */
  lemma CapIsMean(trades: seq<Trade>, controls: seq<string>, lots: seq<Lot>, i: nat)
    requires Collapsed(trades, controls, lots) && i < |lots|
    ensures lots[i].volume <= TradedBy(trades, controls[i])
    ensures TradedVolume(trades) >= |controls| ==>
              && lots[i].volume * |controls| <= TradedVolume(trades)
              && (lots[i].volume < TradedBy(trades, controls[i]) ==> (lots[i].volume + 1) * |controls| > TradedVolume(trades))
    ensures TradedVolume(trades) < |controls| ==>
              lots[i].volume <= 1 && (lots[i].volume < TradedBy(trades, controls[i]) ==> lots[i].volume == 1)
  {
    hide Sum, LotsOf, TradedVolume, Controllers, IsIndex;
    var total, k := TradedVolume(trades), |controls|;
    assert k >= 1;
    Mean(total, k);
    var cap := Cap(trades, k);
    var v := lots[i].volume;
    assert v == Min(TradedBy(trades, controls[i]), cap);
    if total >= k {
      SmallerProduct(v, cap, k);
    }
  }

  lemma Mean(total: int, k: nat)
    requires k >= 1
    ensures total >= k ==> total / k >= 1 && (total / k) * k <= total < (total / k + 1) * k
    ensures total < k ==> total / k <= 0
  {
    assert total == (total / k) * k + total % k;
    if total < k && total / k >= 1 {
      SmallerProduct(1, total / k, k);
    }
    if total >= k && total / k <= 0 {
      SmallerProduct(total / k, 0, k);
    }
  }

  lemma SmallerProduct(x: int, y: int, k: nat)
    requires x <= y
    ensures x * k <= y * k && k * x <= k * y
  {
  }

  // ---- one controller against the others -------------------------------------------------------

  /** The volumes of the controllers in the group, each cut at the cap. */
  ghost function Capped(trades: seq<Trade>, controls: seq<string>, group: set<string>, cap: int): int {
    if controls == [] then 0
    else (if controls[0] in group then Min(TradedBy(trades, controls[0]), cap) else 0) + Capped(trades, controls[1..], group, cap)
  }

  ghost function Uncapped(trades: seq<Trade>, controls: seq<string>, group: set<string>): int {
    if controls == [] then 0
    else (if controls[0] in group then TradedBy(trades, controls[0]) else 0) + Uncapped(trades, controls[1..], group)
  }

  ghost function Count(controls: seq<string>, group: set<string>): nat {
    if controls == [] then 0 else (if controls[0] in group then 1 else 0) + Count(controls[1..], group)
  }

  lemma {:induction false} ShareIsCapped(trades: seq<Trade>, controls: seq<string>, lots: seq<Lot>, group: set<string>, cap: int)
    requires |controls| == |lots| && cap >= 1
    requires forall i | 0 <= i < |lots| ::
      TradedBy(trades, controls[i]) >= 1 && lots[i].volume == Min(TradedBy(trades, controls[i]), cap)
    ensures Volume(Share(controls, lots, group, true)) == Capped(trades, controls, group, cap)
  {
    hide TradedBy;
    if lots != [] {
      var rest := Share(controls[1..], lots[1..], group, true);
      assert forall i | 0 <= i < |lots[1..]| :: lots[1..][i] == lots[i + 1] && controls[1..][i] == controls[i + 1];
      ShareIsCapped(trades, controls[1..], lots[1..], group, cap);
      assert ([lots[0]] + rest)[1..] == rest && [] + rest == rest;
    }
  }

  lemma {:induction false} CappedBounds(trades: seq<Trade>, controls: seq<string>, group: set<string>, cap: int)
    requires cap >= 1 && forall c | c in controls :: TradedBy(trades, c) >= 1
    ensures Count(controls, group) <= Capped(trades, controls, group, cap) <= Uncapped(trades, controls, group)
    ensures (forall c | c in controls && c in group :: TradedBy(trades, c) <= cap) ==>
              Capped(trades, controls, group, cap) == Uncapped(trades, controls, group)
    ensures (exists c :: c in controls && c in group && TradedBy(trades, c) > cap) ==>
              Capped(trades, controls, group, cap) >= cap + Count(controls, group) - 1
  {
    hide TradedBy;
    if controls != [] {
      assert controls[0] in controls && forall c :: c in controls <==> c == controls[0] || c in controls[1..];
      CappedBounds(trades, controls[1..], group, cap);
    }
  }

  lemma {:induction false} OneBelow(trades: seq<Trade>, controls: seq<string>, group: set<string>, c: string)
    requires (forall d | d in controls :: TradedBy(trades, d) >= 1) && c in controls && c in group
    ensures TradedBy(trades, c) <= Uncapped(trades, controls, group)
  {
    hide TradedBy;
    assert controls[0] in controls && forall d :: d in controls <==> d == controls[0] || d in controls[1..];
    CappedBounds(trades, controls[1..], group, 1);
    if controls[0] != c {
      OneBelow(trades, controls[1..], group, c);
    }
  }

  lemma {:induction false} GroupSumFront(trades: seq<Trade>, controls: seq<string>)
    requires controls != []
    ensures GroupSum(trades, controls) == TradedBy(trades, controls[0]) + GroupSum(trades, controls[1..])
  {
    hide LotsOf, Sum;
    var n := |controls| - 1;
    if n == 0 {
      assert controls[..0] == [] && controls[1..] == [];
      assert GroupSum(trades, controls) == GroupSum(trades, []) + TradedBy(trades, controls[0]);
    } else {
      GroupSumFront(trades, controls[..n]);
      assert controls[..n][1..] == controls[1..][..n - 1] && controls[1..][n - 1] == controls[n];
    }
  }

  /** All but one of the controllers trade what that one does not. */
  lemma {:induction false} AllButOne(trades: seq<Trade>, controls: seq<string>, group: set<string>, w: string)
    requires forall i, j | 0 <= i < j < |controls| :: controls[i] != controls[j]
    requires forall c | c in controls :: c in group <==> c != w
    ensures GroupSum(trades, controls) == Uncapped(trades, controls, group) + if w in controls then TradedBy(trades, w) else 0
    ensures Count(controls, group) == |controls| - if w in controls then 1 else 0
  {
    hide TradedBy;
    if controls != [] {
      GroupSumFront(trades, controls);
      assert controls[0] in controls && forall c :: c in controls <==> c == controls[0] || c in controls[1..];
      assert controls[0] !in controls[1..];
      AllButOne(trades, controls[1..], group, w);
    }
  }

  lemma {:induction false} LotsAre(trades: seq<Trade>, c: string, x: Lot)
    ensures x in LotsOf(trades, c) <==> exists t :: t in trades && t.control == c && t.price == x.price && t.volume == x.volume
  {
    if trades != [] {
      var n := |trades| - 1;
      LotsAre(trades[..n], c, x);
      assert trades == trades[..n] + [trades[n]];
    }
  }

  lemma {:induction false} SumAtLeastOne(lots: seq<Lot>)
    requires lots != [] && forall x | x in lots :: x.volume >= 1
    ensures Sum(lots) >= 1
  {
    var n := |lots| - 1;
    assert lots[n] in lots && forall x | x in lots[..n] :: x in lots;
    if n > 0 {
      SumAtLeastOne(lots[..n]);
    }
  }

  lemma EachTrades(trades: seq<Trade>, controls: seq<string>, c: string)
    requires AllTrade(trades) && Controllers(trades, controls) && c in controls
    ensures LotsOf(trades, c) != [] && (forall x | x in LotsOf(trades, c) :: x.volume >= 1) && TradedBy(trades, c) >= 1
  {
    hide LotsOf;
    var t :| t in trades && t.control == c;
    LotsAre(trades, c, Lot(t.price, t.volume));
    forall x | x in LotsOf(trades, c) ensures x.volume >= 1 {
      LotsAre(trades, c, x);
    }
    SumAtLeastOne(LotsOf(trades, c));
  }

  ghost predicate PricedAt(trades: seq<Trade>, w: string, p: int) {
    forall t | t in trades && t.control == w :: t.price == p
  }

  /** A controller with one price is collapsed to that price. */
  lemma OnePrice(trades: seq<Trade>, controls: seq<string>, w: string, p: int, q: int)
    requires AllTrade(trades) && Controllers(trades, controls) && w in controls && PricedAt(trades, w, p)
    requires IsIndex(LotsOf(trades, w), q)
    ensures q == p
  {
    hide LotsOf, UpTo, Volume;
    EachTrades(trades, controls, w);
    var own := LotsOf(trades, w);
    forall x | x in own ensures x.price == p {
      LotsAre(trades, w, x);
    }
    AllUpTo(own, p);
    AllAbove(own, p - 1);
    SumBelowVolume(own);
    IndexUnique(own, p, q);
  }

  ghost function Others(controls: seq<string>, w: string): set<string> {
    set c | c in controls && c != w
  }

  /** The capped volumes of the two sides. */
  lemma TwoSides(trades: seq<Trade>, controls: seq<string>, lots: seq<Lot>, w: string)
    returns (others: int, own: int)
    requires AllTrade(trades) && Collapsed(trades, controls, lots) && w in controls && |controls| >= 3
    ensures Volume(Share(controls, lots, Others(controls, w), true)) == others
    ensures Volume(Share(controls, lots, Others(controls, w), false)) == own
    ensures others >= 2 && own >= 1 && Volume(lots) == others + own
    ensures var h, W := |controls| - 1, TradedBy(trades, w);
            others > own <==> W < h * (TradedVolume(trades) - W)
  {
    hide LotsOf, Sum, Controllers, IsIndex, Volume, TradedBy, TradedVolume;
    var group, k := Others(controls, w), |controls|;
    var cap, total, W := Cap(trades, k), TradedVolume(trades), TradedBy(trades, w);
    var i := IndexOf(trades, controls, w);
    forall c | c in controls ensures TradedBy(trades, c) >= 1 {
      EachTrades(trades, controls, c);
    }
    Distinct(trades, controls);
    LotVolumes(trades, controls, lots);
    ShareIsCapped(trades, controls, lots, group, cap);
    others := Capped(trades, controls, group, cap);
    SharesAddUp(controls, lots, group, 0);
    OutsideIsOne(trades, controls, lots, w, cap);
    own := Min(W, cap);
    CappedBounds(trades, controls, group, cap);
    AllButOne(trades, controls, group, w);
    GroupsAddUp(trades, controls);
    var rest := total - W;
    assert rest == Uncapped(trades, controls, group) && rest >= k - 1;
    Mean(total, k);
    assert cap == total / k;
    MeanAgainst(total, W, k, cap);
    if c :| c in controls && c in group && TradedBy(trades, c) > cap {
      OneBelow(trades, controls, group, c);
    }
  }

  lemma IndexOf(trades: seq<Trade>, controls: seq<string>, w: string) returns (i: nat)
    requires w in controls
    ensures i < |controls| && controls[i] == w
  {
    i :| i < |controls| && controls[i] == w;
  }

  lemma Distinct(trades: seq<Trade>, controls: seq<string>)
    requires Controllers(trades, controls)
    ensures forall i, j | 0 <= i < j < |controls| :: controls[i] != controls[j]
    ensures forall t | t in trades :: t.control in controls
  {
  }

  lemma LotVolumes(trades: seq<Trade>, controls: seq<string>, lots: seq<Lot>)
    requires Collapsed(trades, controls, lots) && controls != []
    ensures |controls| == |lots| && Cap(trades, |controls|) >= 1
    ensures forall i | 0 <= i < |lots| :: lots[i].volume == Min(TradedBy(trades, controls[i]), Cap(trades, |controls|))
  {
    hide LotsOf, Sum, TradedVolume;
  }

  /** Outside the group stands the one lot of w. */
  lemma OutsideIsOne(trades: seq<Trade>, controls: seq<string>, lots: seq<Lot>, w: string, cap: int)
    requires |controls| == |lots| && cap >= 1 && w in controls
    requires forall i, j | 0 <= i < j < |controls| :: controls[i] != controls[j]
    requires forall i | 0 <= i < |lots| ::
      TradedBy(trades, controls[i]) >= 1 && lots[i].volume == Min(TradedBy(trades, controls[i]), cap)
    ensures Volume(Share(controls, lots, Others(controls, w), false)) == Min(TradedBy(trades, w), cap)
  {
    OutsideGroup(trades, controls, lots, Others(controls, w), w, cap);
  }

  lemma {:induction false} OutsideGroup(trades: seq<Trade>, controls: seq<string>, lots: seq<Lot>, group: set<string>, w: string, cap: int)
    requires |controls| == |lots| && cap >= 1
    requires forall i, j | 0 <= i < j < |controls| :: controls[i] != controls[j]
    requires forall c | c in controls :: c in group <==> c != w
    requires forall i | 0 <= i < |lots| ::
      TradedBy(trades, controls[i]) >= 1 && lots[i].volume == Min(TradedBy(trades, controls[i]), cap)
    ensures Volume(Share(controls, lots, group, false)) == if w in controls then Min(TradedBy(trades, w), cap) else 0
  {
    hide TradedBy;
    if lots != [] {
      var rest := Share(controls[1..], lots[1..], group, false);
      assert forall i | 0 <= i < |lots[1..]| :: lots[1..][i] == lots[i + 1] && controls[1..][i] == controls[i + 1];
      assert controls[0] in controls && forall c :: c in controls <==> c == controls[0] || c in controls[1..];
      assert controls[0] !in controls[1..];
      OutsideGroup(trades, controls[1..], lots[1..], group, w, cap);
      assert ([lots[0]] + rest)[1..] == rest && [] + rest == rest;
    }
  }

  /** Where the mean stands against what the others trade. */
  lemma MeanAgainst(total: int, own: int, k: nat, cap: int)
    requires k >= 3 && own >= 1 && total - own >= k - 1 && cap * k <= total < (cap + 1) * k
    ensures cap < total - own <==> own < (k - 1) * (total - own)
    ensures own >= (k - 1) * (total - own) ==> own >= cap
  {
    var rest := total - own;
    OneTimesLess(k, rest);
    LessThanMean(total, rest, k, cap);
    if own < cap {
      SmallerProduct(own + 1, cap, k);
      FarBelow(own, rest, k);
    }
  }

  lemma OneTimesLess(k: int, x: int)
    ensures (k - 1) * x == x * k - x
  {
  }

  lemma LessThanMean(total: int, rest: int, k: nat, cap: int)
    requires cap * k <= total < (cap + 1) * k
    ensures cap < rest <==> total < rest * k
  {
    if cap < rest {
      SmallerProduct(cap + 1, rest, k);
    } else {
      SmallerProduct(rest, cap, k);
    }
  }

  lemma FarBelow(own: int, rest: int, k: nat)
    requires k >= 3 && own >= 1 && (own + 1) * k <= own + rest
    ensures own < (k - 1) * rest
  {
    SmallerProduct(3, k, own + 1);
    SmallerProduct(2, k - 1, rest);
  }

  /**
    One controller w against h >= 2 others, every trade of a unit or more. The index lies between the lowest and the
    highest price of the others, whatever w asks, exactly while w trades less than h times what all the others trade
    together: from there on a price below theirs is the index.
   */
  lemma OneAgainstAll(trades: seq<Trade>, controls: seq<string>, lots: seq<Lot>, r: Index, w: string, p: int, lo: int, hi: int)
    requires Publishes(trades, controls, lots, r) && AllTrade(trades) && w in controls && |controls| >= 3
    requires PricedWithin(trades, Others(controls, w), lo, hi) && PricedAt(trades, w, p)
    ensures var h, own := |controls| - 1, TradedBy(trades, w);
            if own < h * (TradedVolume(trades) - own) then lo <= r.index <= hi
            else p < lo ==> r.index == p
  {
    hide Multimodal, LotsOf, Sum, UpTo, Volume, Controllers, IsIndex, TradedBy, TradedVolume, Collapsed, Share, Trimmed;
    var group := Others(controls, w);
    SameSize(trades, controls, lots);
    var others, own := TwoSides(trades, controls, lots, w);
    if others > own {
      HonestMajorityBounds(trades, controls, lots, r, group, lo, hi);
    } else if p < lo {
      LowestTakesHalf(trades, controls, lots, w, p, lo, hi);
      TrimInvisible(lots, p, r.index);
    }
  }

  lemma LowestTakesHalf(trades: seq<Trade>, controls: seq<string>, lots: seq<Lot>, w: string, p: int, lo: int, hi: int)
    requires Collapsed(trades, controls, lots) && AllTrade(trades) && w in controls && p < lo
    requires PricedWithin(trades, Others(controls, w), lo, hi) && PricedAt(trades, w, p)
    requires |controls| == |lots|
    requires var inside, outside := Share(controls, lots, Others(controls, w), true), Share(controls, lots, Others(controls, w), false);
             0 < Volume(inside) <= Volume(outside)
    ensures IsIndex(lots, p)
  {
    hide LotsOf, Sum, UpTo, Volume, Controllers, TradedVolume, Cap, IsIndex;
    var group := Others(controls, w);
    var inside, outside := Share(controls, lots, group, true), Share(controls, lots, group, false);
    HonestLotsWithin(trades, controls, lots, group, lo, hi);
    WithinCounts(inside, lo, hi);
    UpToMonotone(inside, p, lo - 1);
    UpToMonotone(inside, p - 1, lo - 1);
    forall x | x in outside ensures x.price == p {
      OutsideLot(controls, lots, group, x);
      var i :| 0 <= i < |lots| && lots[i] == x && controls[i] !in group;
      assert controls[i] in controls;
      OnePrice(trades, controls, w, p, x.price);
    }
    AllUpTo(outside, p);
    AllAbove(outside, p - 1);
    SharesAddUp(controls, lots, group, p);
    SharesAddUp(controls, lots, group, p - 1);
    MedianHere(lots, p);
  }

  lemma MedianHere(lots: seq<Lot>, p: int)
    requires 2 * UpTo(lots, p - 1) < Volume(lots) <= 2 * UpTo(lots, p)
    ensures IsIndex(lots, p)
  {
  }

  lemma {:induction false} OutsideLot(controls: seq<string>, lots: seq<Lot>, group: set<string>, x: Lot)
    requires |controls| == |lots| && x in Share(controls, lots, group, false)
    ensures exists i :: 0 <= i < |lots| && lots[i] == x && controls[i] !in group
  {
    var rest := Share(controls[1..], lots[1..], group, false);
    if controls[0] !in group && x == lots[0] {
    } else {
      assert x in rest;
      OutsideLot(controls[1..], lots[1..], group, x);
      var i :| 0 <= i < |lots[1..]| && lots[1..][i] == x && controls[1..][i] !in group;
      assert lots[i + 1] == x && controls[i + 1] !in group;
    }
  }

  // ---- one price or several, lot by lot --------------------------------------------------------

  ghost predicate Counts(lots: seq<Lot>, x: Lot) {
    x in lots && x.volume > 0
  }

  /** No lot with volume is priced strictly between x and y, and from a quarter to three quarters of the volume lie up to x. */
  ghost predicate Apart(lots: seq<Lot>, x: Lot, y: Lot) {
    && Counts(lots, x) && Counts(lots, y) && x.price < y.price
    && (forall z | Counts(lots, z) :: z.price <= x.price || y.price <= z.price)
    && Volume(lots) <= 4 * UpTo(lots, x.price) && 4 * UpTo(lots, x.price) <= 3 * Volume(lots)
  }

  /** And their distance is at least half of that of any two lots with volume. */
  ghost predicate FarApart(lots: seq<Lot>, x: Lot, y: Lot) {
    Apart(lots, x, y) && forall a, b | Counts(lots, a) && Counts(lots, b) :: a.price - b.price <= 2 * (y.price - x.price)
  }

  lemma {:induction false} StepAt(lots: seq<Lot>, p: int)
    ensures UpTo(lots, p - 1) < UpTo(lots, p) <==> exists x :: Counts(lots, x) && x.price == p
  {
    if UpTo(lots, p - 1) < UpTo(lots, p) {
      SomeLotAt(lots, p);
      assert Counts(lots, Lot(p, SomeVolumeAt(lots, p)));
    }
    if x :| Counts(lots, x) && x.price == p {
      VolumeBetween(lots, p - 1, p, x);
    }
  }

  /** A lot with volume priced in (p, q] makes the volume grow from p to q. */
  lemma {:induction false} VolumeBetween(lots: seq<Lot>, p: int, q: int, x: Lot)
    requires Counts(lots, x) && p < x.price <= q
    ensures UpTo(lots, p) < UpTo(lots, q)
  {
    UpToMonotone(lots[1..], p, q);
    if x != lots[0] {
      VolumeBetween(lots[1..], p, q, x);
    }
  }

  lemma {:induction false} NothingBetween(lots: seq<Lot>, p: int, q: int)
    requires p <= q && forall x | Counts(lots, x) :: x.price <= p || q < x.price
    ensures UpTo(lots, p) == UpTo(lots, q)
  {
    if lots != [] {
      assert lots[0].volume > 0 ==> Counts(lots, lots[0]);
      forall x | Counts(lots[1..], x) ensures x.price <= p || q < x.price {
        assert Counts(lots, x);
      }
      NothingBetween(lots[1..], p, q);
    }
  }

  lemma GapIsApart(lots: seq<Lot>, x: int, y: int)
    requires SplittingGap(lots, x, y)
    ensures exists a, b :: Apart(lots, a, b) && a.price == x && b.price == y
  {
    hide UpTo, Volume, Counts;
    StepAt(lots, x);
    StepAt(lots, y);
    if y <= x {
      UpToMonotone(lots, y, x);
    }
    var a :| Counts(lots, a) && a.price == x;
    var b :| Counts(lots, b) && b.price == y;
    forall z | Counts(lots, z) ensures z.price <= x || y <= z.price {
      if x < z.price < y {
        VolumeBetween(lots, x, y - 1, z);
      }
    }
    assert Apart(lots, a, b);
  }

  lemma ApartIsGap(lots: seq<Lot>, a: Lot, b: Lot)
    requires Apart(lots, a, b)
    ensures SplittingGap(lots, a.price, b.price)
  {
    hide UpTo, Volume, Counts;
    StepAt(lots, a.price);
    StepAt(lots, b.price);
    NothingBetween(lots, a.price, b.price - 1);
  }

  /** The market is multimodal exactly if two lots with volume are far apart in this sense. */
  lemma MultimodalMeans(lots: seq<Lot>)
    ensures Multimodal(lots) <==> exists x, y :: FarApart(lots, x, y)
  {
    hide SplittingGap, Apart, UpTo, Volume;
    if x, y :| SplittingGap(lots, x, y) && HalfSpread(lots, x, y) {
      GapIsApart(lots, x, y);
      var a, b :| Apart(lots, a, b) && a.price == x && b.price == y;
      assert FarApart(lots, a, b);
    }
    if a, b :| FarApart(lots, a, b) {
      ApartIsGap(lots, a, b);
      forall c, d | c in lots && d in lots && c.volume > 0 && d.volume > 0 ensures 2 * (b.price - a.price) >= c.price - d.price {
        assert Counts(lots, c) && Counts(lots, d);
      }
      assert HalfSpread(lots, a.price, b.price);
    }
  }
}
