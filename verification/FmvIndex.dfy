/** The fair-market-value index over trades: one capped lot per controller, trimmed, then the median. */
module FmvIndex {
  import opened Fmv

  datatype Trade = Trade(control: string, price: int, volume: int)

  /** The trades of one controller, in order. */
  function LotsOf(trades: seq<Trade>, c: string): seq<Lot> {
    if trades == [] then []
    else
      var last := trades[|trades| - 1];
      LotsOf(trades[..|trades| - 1], c) + (if last.control == c then [Lot(last.price, last.volume)] else [])
  }

  function Sum(lots: seq<Lot>): int {
    if lots == [] then 0 else Sum(lots[..|lots| - 1]) + lots[|lots| - 1].volume
  }

  function TradedVolume(trades: seq<Trade>): int {
    if trades == [] then 0 else TradedVolume(trades[..|trades| - 1]) + trades[|trades| - 1].volume
  }

  /** The mean volume of a controller, rounded down, and at least one. */
  function Cap(trades: seq<Trade>, distinct: nat): int {
    Max(1, TradedVolume(trades) / Max(1, distinct))
  }

  ghost predicate Controllers(trades: seq<Trade>, controls: seq<string>) {
    && (forall i, j | 0 <= i < j < |controls| :: controls[i] != controls[j])
    && (forall c :: c in controls <==> exists t :: t in trades && t.control == c)
  }

  /** One lot per controller: its own index price, and its volume up to the cap. */
  ghost predicate Collapsed(trades: seq<Trade>, controls: seq<string>, lots: seq<Lot>) {
    && Controllers(trades, controls) && |lots| == |controls|
    && forall i | 0 <= i < |lots| ::
      && IsIndex(LotsOf(trades, controls[i]), lots[i].price)
      && lots[i].volume == Min(Sum(LotsOf(trades, controls[i])), Cap(trades, |controls|))
  }

  // ---- grouping --------------------------------------------------------------------------------

  ghost function GroupSum(trades: seq<Trade>, controls: seq<string>): int {
    if controls == [] then 0
    else GroupSum(trades, controls[..|controls| - 1]) + Sum(LotsOf(trades, controls[|controls| - 1]))
  }

  lemma SumAppends(lots: seq<Lot>, x: Lot)
    ensures Sum(lots + [x]) == Sum(lots) + x.volume
  {
    assert (lots + [x])[..|lots|] == lots;
  }

  lemma {:induction false} GroupGains(trades: seq<Trade>, t: Trade, controls: seq<string>)
    requires forall i, j | 0 <= i < j < |controls| :: controls[i] != controls[j]
    ensures GroupSum(trades + [t], controls) == GroupSum(trades, controls) + if t.control in controls then t.volume else 0
  {
    if controls != [] {
      var n := |controls| - 1;
      GroupGains(trades, t, controls[..n]);
      assert (trades + [t])[..|trades|] == trades;
      SumAppends(LotsOf(trades, controls[n]), Lot(t.price, t.volume));
      assert LotsOf(trades, controls[n]) + [] == LotsOf(trades, controls[n]);
      assert controls == controls[..n] + [controls[n]];
    }
  }

  /** Summing group by group is summing all trades. */
  lemma {:induction false} GroupsAddUp(trades: seq<Trade>, controls: seq<string>)
    requires forall i, j | 0 <= i < j < |controls| :: controls[i] != controls[j]
    requires forall t | t in trades :: t.control in controls
    ensures GroupSum(trades, controls) == TradedVolume(trades)
  {
    if trades == [] {
      NoTrades(controls);
    } else {
      var n := |trades| - 1;
      assert trades == trades[..n] + [trades[n]];
      GroupsAddUp(trades[..n], controls);
      GroupGains(trades[..n], trades[n], controls);
    }
  }

  lemma {:induction false} NoTrades(controls: seq<string>)
    ensures GroupSum([], controls) == 0
  {
    if controls != [] {
      NoTrades(controls[..|controls| - 1]);
    }
  }

  lemma NoLots()
    ensures Controllers([], []) && forall c :: LotsOf([], c) == []
  {
  }

  lemma LotsGrow(trades: seq<Trade>, t: Trade, c: string)
    ensures LotsOf(trades + [t], c) == LotsOf(trades, c) + if t.control == c then [Lot(t.price, t.volume)] else []
  {
    assert (trades + [t])[..|trades|] == trades;
  }

  lemma ControllersGrow(trades: seq<Trade>, t: Trade, controls: seq<string>)
    requires Controllers(trades, controls)
    ensures Controllers(trades + [t], if t.control in controls then controls else controls + [t.control])
  {
    var more := if t.control in controls then controls else controls + [t.control];
    forall c ensures c in more <==> exists u :: u in trades + [t] && u.control == c {
      if c == t.control {
        assert t in trades + [t];
      } else if c in controls {
        var u :| u in trades && u.control == c;
        assert u in trades + [t];
      }
    }
  }

  /** The dictionary of controllers, and its keys in insertion order. */
  method ByController(trades: seq<Trade>) returns (groups: map<string, seq<Lot>>, controls: seq<string>)
    ensures Controllers(trades, controls)
    ensures forall c :: c in groups <==> c in controls
    ensures forall c | c in groups :: groups[c] == LotsOf(trades, c)
  {
    hide LotsOf, Controllers;
    groups, controls := map[], [];
    NoLots();
    for k := 0 to |trades|
      invariant Controllers(trades[..k], controls)
      invariant forall c :: c in groups <==> c in controls
      invariant forall c | c in groups :: groups[c] == LotsOf(trades[..k], c)
      invariant forall c | c !in groups :: LotsOf(trades[..k], c) == []
    {
      var t := trades[k];
      assert trades[..k + 1] == trades[..k] + [t];
      forall c ensures LotsOf(trades[..k + 1], c) == LotsOf(trades[..k], c) + if t.control == c then [Lot(t.price, t.volume)] else [] {
        LotsGrow(trades[..k], t, c);
      }
      ControllersGrow(trades[..k], t, controls);
      if t.control !in groups {
        groups, controls := groups[t.control := []], controls + [t.control];
      }
      groups := groups[t.control := groups[t.control] + [Lot(t.price, t.volume)]];
    }
    assert trades[..|trades|] == trades;
  }

  method SumOf(lots: seq<Lot>) returns (sum: int)
    ensures sum == Sum(lots)
  {
    sum := 0;
    for k := 0 to |lots|
      invariant sum == Sum(lots[..k])
    {
      assert lots[..k + 1][..k] == lots[..k];
      sum := sum + lots[k].volume;
    }
    assert lots[..|lots|] == lots;
  }

  method GroupTotal(trades: seq<Trade>, groups: map<string, seq<Lot>>, controls: seq<string>) returns (total: int)
    requires Controllers(trades, controls)
    requires forall c | c in controls :: c in groups && groups[c] == LotsOf(trades, c)
    ensures total == TradedVolume(trades)
  {
    hide LotsOf, Sum;
    total := 0;
    assert controls[..|controls|] == controls;
    for k := 0 to |controls|
      invariant total == GroupSum(trades, controls[..k])
    {
      assert controls[..k + 1][..k] == controls[..k];
      var sum := SumOf(groups[controls[k]]);
      total := total + sum;
    }
    GroupsAddUp(trades, controls);
  }

  method CollapseControls(trades: seq<Trade>) returns (controls: seq<string>, lots: seq<Lot>)
    ensures Collapsed(trades, controls, lots)
  {
    hide LotsOf, Sum, IsIndex, Controllers, TradedVolume;
    var groups;
    groups, controls := ByController(trades);
    var total := GroupTotal(trades, groups, controls);
    var cap := Max(1, total / Max(1, |controls|));
    lots := [];
    for k := 0 to |controls|
      invariant |lots| == k
      invariant forall i | 0 <= i < k ::
        && IsIndex(LotsOf(trades, controls[i]), lots[i].price)
        && lots[i].volume == Min(Sum(LotsOf(trades, controls[i])), cap)
    {
      var price := VwMedian(groups[controls[k]]);
      var sum := SumOf(groups[controls[k]]);
      lots := lots + [Lot(price, Min(sum, cap))];
    }
  }

  // ---- one price or several --------------------------------------------------------------------

  /** No volume is offered strictly between x and y, and between a quarter and three quarters lie up to x. */
  ghost predicate SplittingGap(lots: seq<Lot>, x: int, y: int) {
    && UpTo(lots, x - 1) < UpTo(lots, x) == UpTo(lots, y - 1) < UpTo(lots, y)
    && Volume(lots) <= 4 * UpTo(lots, x) <= 3 * Volume(lots)
  }

  /** A splitting gap at least half as wide as the distance of any two prices. */
  ghost predicate Multimodal(lots: seq<Lot>) {
    exists x, y :: SplittingGap(lots, x, y) && HalfSpread(lots, x, y)
  }

  ghost predicate HalfSpread(lots: seq<Lot>, x: int, y: int) {
    forall a, b | a in lots && b in lots && a.volume > 0 && b.volume > 0 :: 2 * (y - x) >= a.price - b.price
  }

  lemma Around(items: seq<Lot>, i: nat)
    requires Ascending(items) && i + 1 < |items|
    ensures forall a | a in items[..i + 1] :: a.price <= items[i].price
    ensures forall a | a in items[i + 1..] :: a.price >= items[i + 1].price
  {
  }

  /** In price order, a step up in price at i is a gap, and every gap is such a step. */
  lemma StepIsGap(items: seq<Lot>, i: nat)
    requires Ascending(items) && (forall x | x in items :: x.volume > 0)
    requires i + 1 < |items| && items[i].price < items[i + 1].price
    ensures UpTo(items, items[i].price) == UpTo(items, items[i + 1].price - 1) == Volume(items[..i + 1])
    ensures UpTo(items, items[i].price - 1) < UpTo(items, items[i].price)
    ensures UpTo(items, items[i + 1].price - 1) < UpTo(items, items[i + 1].price)
  {
    hide UpTo, Volume, Ascending;
    var x, y := items[i].price, items[i + 1].price;
    Around(items, i);
    assert items == items[..i + 1] + items[i + 1..];
    SumsSplit(items[..i + 1], items[i + 1..], x);
    SumsSplit(items[..i + 1], items[i + 1..], y - 1);
    AllUpTo(items[..i + 1], x);
    AllUpTo(items[..i + 1], y - 1);
    AllAbove(items[i + 1..], x);
    AllAbove(items[i + 1..], y - 1);
    CutAt(items, i);
    CutAt(items, i + 1);
    VolumeGrows(items, i);
    VolumeGrows(items, i + 1);
  }

  lemma {:induction false} LastUpTo(items: seq<Lot>, x: int, n: nat) returns (i: nat)
    requires Ascending(items) && n <= |items|
    requires (exists k :: 0 <= k < n && items[k].price <= x) && (forall k | n <= k < |items| :: items[k].price > x)
    ensures i < n && items[i].price <= x && (forall k | i < k < |items| :: items[k].price > x)
  {
    if items[n - 1].price <= x {
      i := n - 1;
    } else {
      i := LastUpTo(items, x, n - 1);
    }
  }

  lemma GapIsStep(items: seq<Lot>, x: int, y: int) returns (i: nat)
    requires Ascending(items) && (forall a | a in items :: a.volume > 0)
    requires UpTo(items, x - 1) < UpTo(items, x) == UpTo(items, y - 1) < UpTo(items, y)
    ensures i + 1 < |items| && items[i].price == x < y == items[i + 1].price
  {
    hide UpTo, Volume, Ascending;
    SomeLotAt(items, x);
    SomeLotAt(items, y);
    assert x < y by {
      if y <= x {
        UpToMonotone(items, y, x);
      }
    }
    var j :| 0 <= j < |items| && items[j].price == x;
    i := LastUpTo(items, x, |items|);
    AscendingAt(items, j, i);
    var k :| 0 <= k < |items| && items[k].price == y;
    AscendingAt(items, k, i);
    AscendingAt(items, i + 1, k);
    StepIsGap(items, i);
    if items[i + 1].price < y {
      UpToMonotone(items, items[i + 1].price, y - 1);
    }
  }

  lemma AscendingAt(items: seq<Lot>, i: nat, j: nat)
    requires Ascending(items) && i < |items| && j < |items|
    ensures i <= j ==> items[i].price <= items[j].price
  {
  }

  ghost predicate StepSplits(items: seq<Lot>, i: nat, total: int) {
    i + 1 < |items| && total <= 4 * Volume(items[..i + 1]) <= 3 * total
  }

  /** max(0, ...) over the steps that split the volume. */
  method WidestGap(items: seq<Lot>) returns (widest: int)
    requires forall x | x in items :: x.volume > 0
    ensures widest >= 0
    ensures forall i | 0 <= i < |items| - 1 && StepSplits(items, i, Volume(items)) :: items[i + 1].price - items[i].price <= widest
    ensures widest > 0 ==> exists i :: 0 <= i < |items| - 1 && StepSplits(items, i, Volume(items)) && widest == items[i + 1].price - items[i].price
  {
    hide Volume;
    var total := TotalOf(items);
    assert items[..0] == [];
    TotalOfNone();
    var cum := 0;
    widest := 0;
    if |items| < 2 {
      return;
    }
    for i := 0 to |items| - 1
      invariant cum == Volume(items[..i]) && widest >= 0
      invariant forall k | 0 <= k < i && StepSplits(items, k, total) :: items[k + 1].price - items[k].price <= widest
      invariant widest > 0 ==> exists k :: 0 <= k < i && StepSplits(items, k, total) && widest == items[k + 1].price - items[k].price
    {
      VolumeGrows(items, i);
      cum := cum + items[i].volume;
      if total <= 4 * cum && 4 * cum <= 3 * total {
        assert StepSplits(items, i, total);
        widest := Max(widest, items[i + 1].price - items[i].price);
      }
    }
  }

  method IsMultimodal(lots: seq<Lot>) returns (multimodal: bool)
    ensures multimodal <==> Multimodal(lots)
  {
    hide Items, Ascending, UpTo, Volume, StepSplits;
    var items := Items(lots);
    ItemsKeep(lots, 0);
    if |items| < 2 {
      NoGap(lots);
      return false;
    }
    var spread := items[|items| - 1].price - items[0].price;
    if spread == 0 {
      NoGap(lots);
      return false;
    }
    EndsBound(items);
    var widest := WidestGap(items);
    multimodal := 2 * widest >= spread;
    WidestDecides(lots, widest);
  }

  ghost function Spread(items: seq<Lot>): int {
    if items == [] then 0 else items[|items| - 1].price - items[0].price
  }

  lemma EndsBound(items: seq<Lot>)
    requires Ascending(items)
    ensures forall k | 0 <= k < |items| :: items[0].price <= items[k].price <= items[|items| - 1].price
  {
  }

  lemma NoGap(lots: seq<Lot>)
    requires Spread(Items(lots)) == 0
    ensures !Multimodal(lots)
  {
    hide Items, UpTo, Ascending;
    var items := Items(lots);
    if x, y :| SplittingGap(lots, x, y) && HalfSpread(lots, x, y) {
      ItemsKeep(lots, x - 1);
      ItemsKeep(lots, x);
      ItemsKeep(lots, y - 1);
      ItemsKeep(lots, y);
      EndsBound(items);
      var i := GapIsStep(items, x, y);
    }
  }

  lemma SpreadIsHalf(lots: seq<Lot>, x: int, y: int)
    requires Items(lots) != []
    ensures HalfSpread(lots, x, y) <==> 2 * (y - x) >= Spread(Items(lots))
  {
    hide Items, Ascending;
    var items := Items(lots);
    ItemsKeep(lots, 0);
    if 2 * (y - x) >= Spread(items) {
      forall a, b | a in lots && b in lots && a.volume > 0 && b.volume > 0 ensures 2 * (y - x) >= a.price - b.price {
        var i :| 0 <= i < |items| && items[i] == a;
        var j :| 0 <= j < |items| && items[j] == b;
        AscendingAt(items, i, |items| - 1);
        AscendingAt(items, 0, j);
      }
    } else {
      var a, b := items[|items| - 1], items[0];
      assert a in items && b in items;
    }
  }

  lemma StepDecides(lots: seq<Lot>, i: nat)
    requires i + 1 < |Items(lots)| && StepSplits(Items(lots), i, Volume(lots))
    requires 2 * (Items(lots)[i + 1].price - Items(lots)[i].price) >= Spread(Items(lots)) > 0
    ensures Multimodal(lots)
  {
    hide Items, UpTo, Ascending, Volume, HalfSpread;
    var items := Items(lots);
    ItemsKeep(lots, 0);
    var x, y := items[i].price, items[i + 1].price;
    StepIsGap(items, i);
    GapOf(lots, x, y);
    SpreadIsHalf(lots, x, y);
    assert SplittingGap(lots, x, y);
  }

  lemma MultimodalHasStep(lots: seq<Lot>) returns (i: nat)
    requires Multimodal(lots) && Items(lots) != []
    ensures i + 1 < |Items(lots)| && StepSplits(Items(lots), i, Volume(lots))
    ensures 2 * (Items(lots)[i + 1].price - Items(lots)[i].price) >= Spread(Items(lots))
  {
    hide Items, UpTo, Ascending, Volume, HalfSpread;
    var items := Items(lots);
    ItemsKeep(lots, 0);
    var x, y :| SplittingGap(lots, x, y) && HalfSpread(lots, x, y);
    GapOf(lots, x, y);
    SpreadIsHalf(lots, x, y);
    i := GapIsStep(items, x, y);
    StepIsGap(items, i);
  }

  lemma WidestDecides(lots: seq<Lot>, widest: int)
    requires Spread(Items(lots)) > 0 && widest >= 0
    requires forall i | 0 <= i < |Items(lots)| - 1 && StepSplits(Items(lots), i, Volume(Items(lots))) ::
      Items(lots)[i + 1].price - Items(lots)[i].price <= widest
    requires widest > 0 ==> exists i :: 0 <= i < |Items(lots)| - 1 && StepSplits(Items(lots), i, Volume(Items(lots)))
                                     && widest == Items(lots)[i + 1].price - Items(lots)[i].price
    ensures 2 * widest >= Spread(Items(lots)) <==> Multimodal(lots)
  {
    hide Items, Volume, Multimodal, StepSplits;
    ItemsKeep(lots, 0);
    if Multimodal(lots) {
      var i := MultimodalHasStep(lots);
    }
    if 2 * widest >= Spread(Items(lots)) {
      var i: nat :| i < |Items(lots)| - 1 && StepSplits(Items(lots), i, Volume(Items(lots)))
                 && widest == Items(lots)[i + 1].price - Items(lots)[i].price;
      StepDecides(lots, i);
    }
  }

  lemma GapOf(lots: seq<Lot>, x: int, y: int)
    ensures UpTo(lots, x - 1) == UpTo(Items(lots), x - 1) && UpTo(lots, x) == UpTo(Items(lots), x)
    ensures UpTo(lots, y - 1) == UpTo(Items(lots), y - 1) && UpTo(lots, y) == UpTo(Items(lots), y)
  {
    ItemsKeep(lots, x - 1);
    ItemsKeep(lots, x);
    ItemsKeep(lots, y - 1);
    ItemsKeep(lots, y);
  }

  // ---- the index -------------------------------------------------------------------------------

  datatype Reason = Ok | BelowAdmission | NeedsClassSplit

  datatype Index = Index(index: int, n: nat, distinct: nat, multimodal: bool, admitted: bool, reason: Reason)

  const ADMISSION_N := 20
  const ADMISSION_DISTINCT := 8

  /** The published fields, for the collapsed lots of the trades. */
  ghost predicate Publishes(trades: seq<Trade>, controls: seq<string>, lots: seq<Lot>, r: Index) {
    && Collapsed(trades, controls, lots)
    && IsIndex(Trimmed(lots), r.index)
    && r.n == |trades| && r.distinct == |controls|
    && (r.multimodal <==> Multimodal(lots))
    && (r.admitted <==> |trades| >= 20 && |controls| >= 8 && !Multimodal(lots))
    && (r.reason == if Multimodal(lots) then NeedsClassSplit else if r.admitted then Ok else BelowAdmission)
  }

  method PublishIndex(trades: seq<Trade>) returns (r: Index, ghost controls: seq<string>, ghost lots: seq<Lot>)
    ensures Publishes(trades, controls, lots, r)
  {
    hide Multimodal, Trimmed, IsIndex;
    var keys, collapsed := CollapseControls(trades);
    var trimmed := Trim(collapsed);
    var index := VwMedian(trimmed);
    var multimodal := IsMultimodal(collapsed);
    var admitted := |trades| >= ADMISSION_N && |keys| >= ADMISSION_DISTINCT && !multimodal;
    var reason := if multimodal then NeedsClassSplit else if admitted then Ok else BelowAdmission;
    r := Index(index, |trades|, |keys|, multimodal, admitted, reason);
    controls, lots := keys, collapsed;
  }

  // ---- manipulation resistance -----------------------------------------------------------------

  /** The lots whose controller is in the group. */
  ghost function Share(controls: seq<string>, lots: seq<Lot>, group: set<string>, inside: bool): seq<Lot>
    requires |controls| == |lots|
  {
    if lots == [] then []
    else (if (controls[0] in group) == inside then [lots[0]] else []) + Share(controls[1..], lots[1..], group, inside)
  }

  lemma {:induction false} SharesAddUp(controls: seq<string>, lots: seq<Lot>, group: set<string>, p: int)
    requires |controls| == |lots|
    ensures UpTo(lots, p) == UpTo(Share(controls, lots, group, true), p) + UpTo(Share(controls, lots, group, false), p)
    ensures Volume(lots) == Volume(Share(controls, lots, group, true)) + Volume(Share(controls, lots, group, false))
  {
    if lots != [] {
      SharesAddUp(controls[1..], lots[1..], group, p);
      var inside := controls[0] in group;
      var rest := Share(controls[1..], lots[1..], group, inside);
      assert ([lots[0]] + rest)[1..] == rest;
      assert [] + Share(controls[1..], lots[1..], group, !inside) == Share(controls[1..], lots[1..], group, !inside);
    }
  }

  lemma {:induction false} ShareHolds(controls: seq<string>, lots: seq<Lot>, group: set<string>, x: Lot)
    requires |controls| == |lots| && x in Share(controls, lots, group, true)
    ensures exists i :: 0 <= i < |lots| && lots[i] == x && controls[i] in group
  {
    var rest := Share(controls[1..], lots[1..], group, true);
    if controls[0] in group && x == lots[0] {
    } else {
      assert x in rest;
      ShareHolds(controls[1..], lots[1..], group, x);
      var i :| 0 <= i < |lots[1..]| && lots[1..][i] == x && controls[1..][i] in group;
      assert lots[i + 1] == x && controls[i + 1] in group;
    }
  }

  /** A lot's price is the price of a trade of its controller that has volume. */
  lemma LotPriceIsTraded(trades: seq<Trade>, c: string, lot: Lot)
    requires IsIndex(LotsOf(trades, c), lot.price) && lot.volume <= Sum(LotsOf(trades, c)) && lot.volume > 0
    ensures exists t :: t in trades && t.control == c && t.volume > 0 && t.price == lot.price
  {
    SumBelowVolume(LotsOf(trades, c));
    SomeLotAt(LotsOf(trades, c), lot.price);
    LotsAreTraded(trades, c, Lot(lot.price, SomeVolumeAt(LotsOf(trades, c), lot.price)));
  }

  lemma {:induction false} SumBelowVolume(lots: seq<Lot>)
    ensures Sum(lots) <= Volume(lots)
  {
    if lots != [] {
      var n := |lots| - 1;
      SumBelowVolume(lots[..n]);
      assert lots == lots[..n] + [lots[n]] && [lots[n]][1..] == [];
      SumsSplit(lots[..n], [lots[n]], 0);
    }
  }

  lemma {:induction false} LotsAreTraded(trades: seq<Trade>, c: string, x: Lot)
    requires x in LotsOf(trades, c)
    ensures Trade(c, x.price, x.volume) in trades
  {
    var n := |trades| - 1;
    if x in LotsOf(trades[..n], c) {
      LotsAreTraded(trades[..n], c, x);
    }
  }

  /** The prices of the honest controllers' trades that have volume lie in [lo, hi]. */
  ghost predicate PricedWithin(trades: seq<Trade>, honest: set<string>, lo: int, hi: int) {
    forall t | t in trades && t.control in honest && t.volume > 0 :: lo <= t.price <= hi
  }

  lemma HonestLotsWithin(trades: seq<Trade>, controls: seq<string>, lots: seq<Lot>, honest: set<string>, lo: int, hi: int)
    requires Collapsed(trades, controls, lots) && PricedWithin(trades, honest, lo, hi)
    ensures forall x | x in Share(controls, lots, honest, true) && x.volume > 0 :: lo <= x.price <= hi
  {
    hide IsIndex, Controllers, Cap, Sum, LotsOf;
    forall x | x in Share(controls, lots, honest, true) && x.volume > 0 ensures lo <= x.price <= hi {
      ShareHolds(controls, lots, honest, x);
      var i :| 0 <= i < |lots| && lots[i] == x && controls[i] in honest;
      LotPriceIsTraded(trades, controls[i], x);
    }
  }

  /** UpTo counts only lots with volume, so only their prices matter. */
  lemma {:induction false} WithinCounts(lots: seq<Lot>, lo: int, hi: int)
    requires forall x | x in lots && x.volume > 0 :: lo <= x.price <= hi
    ensures UpTo(lots, lo - 1) == 0 && UpTo(lots, hi) == Volume(lots)
  {
    if lots != [] {
      assert forall x | x in lots[1..] :: x in lots;
      WithinCounts(lots[1..], lo, hi);
    }
  }

  /**
   * Whatever prices the others trade at: once the honest controllers hold more than half of the capped
   * volume, the published index of a deep market is between the lowest and the highest honest price.
   * A market of one unit, or of two single units, is published at zero: truncation leaves nothing to weigh.
   */
  lemma HonestMajorityBounds(trades: seq<Trade>, controls: seq<string>, lots: seq<Lot>, r: Index,
                             honest: set<string>, lo: int, hi: int)
    requires Publishes(trades, controls, lots, r) && PricedWithin(trades, honest, lo, hi)
    requires Volume(Share(controls, lots, honest, true)) > Volume(Share(controls, lots, honest, false))
    ensures if Deep(lots) then lo <= r.index <= hi else r.index == 0
  {
    hide UpTo, Volume, Collapsed, Trimmed, Multimodal, Deep;
    SameSize(trades, controls, lots);
    var good, bad := Share(controls, lots, honest, true), Share(controls, lots, honest, false);
    HonestLotsWithin(trades, controls, lots, honest, lo, hi);
    WithinCounts(good, lo, hi);
    var p := IndexExists(lots);
    TrimInvisible(lots, p, r.index);
    SharesAddUp(controls, lots, honest, p);
    SharesAddUp(controls, lots, honest, p - 1);
    UpToMonotone(bad, p, p);
    if p < lo {
      UpToMonotone(good, p, lo - 1);
    } else if hi < p {
      UpToMonotone(good, hi, p - 1);
    }
  }

  lemma SameSize(trades: seq<Trade>, controls: seq<string>, lots: seq<Lot>)
    requires Collapsed(trades, controls, lots)
    ensures |controls| == |lots|
  {
  }
}
