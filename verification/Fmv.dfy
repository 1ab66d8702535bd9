/** Volume-weighted median and trimming. */
module Fmv {
  /** A price in units of 0.0001 and a volume; the source bounds neither. */
  datatype Lot = Lot(price: int, volume: int)

  function Max(x: int, y: int): int { if x < y then y else x }
  function Min(x: int, y: int): int { if y < x then y else x }

  /** The volume offered at p or less; lots without volume count for nothing. */
  function UpTo(lots: seq<Lot>, p: int): nat {
    if lots == [] then 0
    else (if lots[0].volume > 0 && lots[0].price <= p then lots[0].volume else 0) + UpTo(lots[1..], p)
  }

  function Volume(lots: seq<Lot>): nat {
    if lots == [] then 0 else (if lots[0].volume > 0 then lots[0].volume else 0) + Volume(lots[1..])
  }

  /** p is where the cumulative volume reaches half: less than half lies below it, at least half up to it. */
  ghost predicate IsMedian(lots: seq<Lot>, p: int) {
    2 * UpTo(lots, p - 1) < Volume(lots) <= 2 * UpTo(lots, p)
  }

  /** A market without volume is priced zero. */
  ghost predicate IsIndex(lots: seq<Lot>, p: int) {
    if Volume(lots) == 0 then p == 0 else IsMedian(lots, p)
  }

  // ---- sums over lots --------------------------------------------------------------------------

  lemma TotalOfNone()
    ensures Volume([]) == 0
  {
  }

  lemma {:induction false} SumsSplit(a: seq<Lot>, b: seq<Lot>, p: int)
    ensures UpTo(a + b, p) == UpTo(a, p) + UpTo(b, p) && Volume(a + b) == Volume(a) + Volume(b)
  {
    if a == [] {
      assert a + b == b;
    } else {
      assert (a + b)[1..] == a[1..] + b;
      SumsSplit(a[1..], b, p);
    }
  }

  lemma {:induction false} UpToMonotone(lots: seq<Lot>, p: int, q: int)
    requires p <= q
    ensures UpTo(lots, p) <= UpTo(lots, q) <= Volume(lots)
  {
    if lots != [] {
      UpToMonotone(lots[1..], p, q);
    }
  }

  lemma {:induction false} AllAbove(lots: seq<Lot>, p: int)
    requires forall x | x in lots :: x.price > p
    ensures UpTo(lots, p) == 0
  {
    if lots != [] {
      assert forall x | x in lots[1..] :: x in lots;
      AllAbove(lots[1..], p);
    }
  }

  lemma {:induction false} AllUpTo(lots: seq<Lot>, p: int)
    requires forall x | x in lots :: x.price <= p
    ensures UpTo(lots, p) == Volume(lots)
  {
    if lots != [] {
      assert forall x | x in lots[1..] :: x in lots;
      AllUpTo(lots[1..], p);
    }
  }

  /** There is one index price, and only one. */
  lemma IndexUnique(lots: seq<Lot>, p: int, q: int)
    requires IsIndex(lots, p) && IsIndex(lots, q)
    ensures p == q
  {
    if p < q {
      UpToMonotone(lots, p, q - 1);
    } else if q < p {
      UpToMonotone(lots, q, p - 1);
    }
  }

  /** The median is the price of some lot that has volume. */
  lemma {:induction false} SomeLotAt(lots: seq<Lot>, p: int)
    requires UpTo(lots, p - 1) < UpTo(lots, p)
    ensures Lot(p, SomeVolumeAt(lots, p)) in lots && SomeVolumeAt(lots, p) > 0
  {
    if lots[0].price != p || lots[0].volume <= 0 {
      SomeLotAt(lots[1..], p);
    }
  }

  ghost function SomeVolumeAt(lots: seq<Lot>, p: int): int {
    if lots == [] then 0
    else if lots[0].price == p && lots[0].volume > 0 then lots[0].volume
    else SomeVolumeAt(lots[1..], p)
  }

  // ---- sorting ---------------------------------------------------------------------------------

  function Positive(lots: seq<Lot>): (out: seq<Lot>)
    ensures forall x :: x in out <==> x in lots && x.volume > 0
  {
    if lots == [] then []
    else
      var rest := Positive(lots[1..]);
      assert forall x :: x in lots <==> x == lots[0] || x in lots[1..];
      if lots[0].volume > 0 then [lots[0]] + rest else rest
  }

  function Insert(x: Lot, s: seq<Lot>): seq<Lot> {
    if s == [] || x.price <= s[0].price then [x] + s else [s[0]] + Insert(x, s[1..])
  }

  /** Stable, by price. */
  function Sorted(s: seq<Lot>): seq<Lot> {
    if s == [] then [] else Insert(s[0], Sorted(s[1..]))
  }

  function Items(lots: seq<Lot>): seq<Lot> {
    Sorted(Positive(lots))
  }

  ghost predicate Ascending(s: seq<Lot>) {
    forall i, j | 0 <= i < j < |s| :: s[i].price <= s[j].price
  }

  lemma {:induction false} InsertKeeps(x: Lot, s: seq<Lot>, p: int)
    requires Ascending(s)
    ensures Ascending(Insert(x, s))
    ensures forall y :: y in Insert(x, s) <==> y == x || y in s
    ensures UpTo(Insert(x, s), p) == UpTo([x] + s, p) && Volume(Insert(x, s)) == Volume([x] + s)
  {
    assert ([x] + s)[1..] == s;
    if s != [] && x.price > s[0].price {
      InsertKeeps(x, s[1..], p);
      assert ([x] + s[1..])[1..] == s[1..];
      assert Insert(x, s)[1..] == Insert(x, s[1..]);
      assert forall y :: y in s <==> y == s[0] || y in s[1..];
    }
  }

  lemma {:induction false} SortedKeeps(s: seq<Lot>, p: int)
    ensures Ascending(Sorted(s)) && forall y :: y in Sorted(s) <==> y in s
    ensures UpTo(Sorted(s), p) == UpTo(s, p) && Volume(Sorted(s)) == Volume(s)
  {
    if s != [] {
      SortedKeeps(s[1..], p);
      InsertKeeps(s[0], Sorted(s[1..]), p);
      assert ([s[0]] + Sorted(s[1..]))[1..] == Sorted(s[1..]);
      assert forall y :: y in s <==> y == s[0] || y in s[1..];
    }
  }

  lemma {:induction false} PositiveKeeps(lots: seq<Lot>, p: int)
    ensures UpTo(Positive(lots), p) == UpTo(lots, p) && Volume(Positive(lots)) == Volume(lots)
  {
    if lots != [] {
      PositiveKeeps(lots[1..], p);
    }
  }

  lemma ItemsKeep(lots: seq<Lot>, p: int)
    ensures Ascending(Items(lots)) && forall x :: x in Items(lots) <==> x in lots && x.volume > 0
    ensures UpTo(Items(lots), p) == UpTo(lots, p) && Volume(Items(lots)) == Volume(lots)
  {
    PositiveKeeps(lots, p);
    SortedKeeps(Positive(lots), p);
  }

  /** In price order, what lies before k and what lies up to k bound the volume around the price at k. */
  lemma CutAt(items: seq<Lot>, k: nat)
    requires Ascending(items) && k < |items|
    ensures UpTo(items, items[k].price - 1) <= Volume(items[..k])
    ensures Volume(items[..k + 1]) <= UpTo(items, items[k].price)
  {
    var p := items[k].price;
    assert items == items[..k] + items[k..] && items == items[..k + 1] + items[k + 1..];
    SumsSplit(items[..k], items[k..], p - 1);
    AllAbove(items[k..], p - 1);
    UpToMonotone(items[..k], p - 1, p - 1);
    SumsSplit(items[..k + 1], items[k + 1..], p);
    AllUpTo(items[..k + 1], p);
  }

  lemma VolumeGrows(items: seq<Lot>, k: nat)
    requires k < |items| && items[k].volume > 0
    ensures Volume(items[..k + 1]) == Volume(items[..k]) + items[k].volume
  {
    assert items[..k + 1] == items[..k] + [items[k]];
    SumsSplit(items[..k], [items[k]], 0);
    assert [items[k]][1..] == [];
  }

  method VwMedian(lots: seq<Lot>) returns (p: int)
    ensures IsIndex(lots, p)
  {
    hide UpTo, Items, Ascending;
    var items := Items(lots);
    ItemsKeep(lots, 0);
    if items == [] {
      return 0;
    }
    var total := TotalOf(items);
    var cum := 0;
    assert items[..|items|] == items;
    for k := 0 to |items|
      invariant cum == Volume(items[..k]) && (k > 0 ==> 2 * cum < total)
    {
      p := items[k].price;
      VolumeGrows(items, k);
      cum := cum + items[k].volume;
      if 2 * cum >= total {
        CutAt(items, k);
        ItemsKeep(lots, p);
        ItemsKeep(lots, p - 1);
        SomeVolume(items, k);
        return;
      }
    }
    assert false;
  }

  lemma SomeVolume(items: seq<Lot>, k: nat)
    requires k < |items| && forall x | x in items :: x.volume > 0
    ensures Volume(items) >= Volume(items[..k + 1]) && Volume(items[..k + 1]) > Volume(items[..k])
  {
    VolumeGrows(items, k);
    assert items == items[..k + 1] + items[k + 1..];
    SumsSplit(items[..k + 1], items[k + 1..], 0);
  }

  lemma {:induction false} HalfAt(items: seq<Lot>, n: nat) returns (k: nat)
    requires n <= |items| && 2 * Volume(items[..n]) >= Volume(items) > 0
    ensures k < |items| && 2 * Volume(items[..k]) < Volume(items) <= 2 * Volume(items[..k + 1])
  {
    assert items[..0] == [];
    if 2 * Volume(items[..n - 1]) >= Volume(items) {
      k := HalfAt(items, n - 1);
    } else {
      k := n - 1;
    }
  }

  lemma IndexExists(lots: seq<Lot>) returns (p: int)
    ensures IsIndex(lots, p)
  {
    hide UpTo, Items, Ascending;
    p := 0;
    if Volume(lots) > 0 {
      var items := Items(lots);
      ItemsKeep(lots, 0);
      assert items[..|items|] == items;
      var k := HalfAt(items, |items|);
      p := items[k].price;
      CutAt(items, k);
      ItemsKeep(lots, p);
      ItemsKeep(lots, p - 1);
    }
  }

  /** sum(v for _, v in items), where every volume is positive. */
  method TotalOf(items: seq<Lot>) returns (total: int)
    requires forall x | x in items :: x.volume > 0
    ensures total == Volume(items)
  {
    total := 0;
    for k := 0 to |items|
      invariant total == Volume(items[..k])
    {
      VolumeGrows(items, k);
      total := total + items[k].volume;
    }
    assert items[..|items|] == items;
  }

  // ---- trimming --------------------------------------------------------------------------------

  /** Ten times the part of [cum, cum + v] that lies between a tenth and nine tenths of the total. */
  function Kept(cum: int, v: int, total: int): int {
    Min(10 * (cum + v), 9 * total) - Max(10 * cum, total)
  }

  /** What trimming leaves of one lot. */
  function Segment(x: Lot, cum: int, total: int): seq<Lot> {
    var kept := Kept(cum, x.volume, total);
    if kept > 0 then [Lot(x.price, kept / 10)] else []
  }

  function TrimFrom(items: seq<Lot>, cum: int, total: int): seq<Lot> {
    if items == [] then []
    else Segment(items[0], cum, total) + TrimFrom(items[1..], cum + items[0].volume, total)
  }

  lemma TrimNothing(cum: int, total: int)
    ensures TrimFrom([], cum, total) == []
  {
  }

  lemma TrimUnfolds(items: seq<Lot>, cum: int, total: int, k: nat)
    requires k < |items|
    ensures TrimFrom(items[k..], cum, total) == Segment(items[k], cum, total) + TrimFrom(items[k + 1..], cum + items[k].volume, total)
  {
    assert items[k..][1..] == items[k + 1..];
  }

  function Trimmed(lots: seq<Lot>): seq<Lot> {
    var items := Items(lots);
    var out := TrimFrom(items, 0, Volume(lots));
    if Volume(lots) == 0 || out == [] then items else out
  }

  method Trim(lots: seq<Lot>) returns (out: seq<Lot>)
    ensures out == Trimmed(lots)
  {
    hide Items, Kept, TrimFrom;
    var items := Items(lots);
    ItemsKeep(lots, 0);
    var total := TotalOf(items);
    if total == 0 {
      return items;
    }
    out := [];
    var cum := 0;
    assert items[0..] == items;
    for k := 0 to |items|
      invariant out + TrimFrom(items[k..], cum, total) == TrimFrom(items, 0, total)
    {
      var kept := Kept(cum, items[k].volume, total);
      TrimUnfolds(items, cum, total, k);
      ghost var rest := TrimFrom(items[k + 1..], cum + items[k].volume, total);
      if kept > 0 {
        ghost var one := [Lot(items[k].price, kept / 10)];
        assert (out + one) + rest == out + (one + rest);
        out := out + [Lot(items[k].price, kept / 10)];
      } else {
        assert [] + rest == rest;
      }
      cum := cum + items[k].volume;
    }
    TrimNothing(cum, total);
    assert items[|items|..] == [] && out + [] == out;
    if out == [] {
      out := items;
    }
  }

  /** The whole units between the cut at a tenth, rounded up, and the cut at nine tenths, rounded down. */
  function Clamp(x: int, total: int): int {
    var cut := (total + 9) / 10;
    if x < cut then cut else if x > total - cut then total - cut else x
  }

  ghost predicate Spans(cum: int, v: int, total: int) {
    10 * cum < total && 10 * (cum + v) > 9 * total
  }

  lemma KeptIsClamped(cum: nat, v: nat, total: nat)
    requires total >= 2 && v > 0 && !Spans(cum, v, total)
    ensures (if Kept(cum, v, total) > 0 then Kept(cum, v, total) / 10 else 0) == Clamp(cum + v, total) - Clamp(cum, total)
  {
  }

  ghost predicate Unspanned(items: seq<Lot>, cum: int, total: int) {
    forall k | 0 <= k < |items| :: !Spans(cum + Volume(items[..k]), items[k].volume, total)
  }

  /** Where no lot spans both cuts, trimming clamps the cumulative volume at every price. */
  lemma {:induction false} TrimClamps(items: seq<Lot>, cum: nat, total: nat, p: int)
    requires Ascending(items) && total >= 2 && Unspanned(items, cum, total)
    requires forall x | x in items :: x.volume > 0
    ensures UpTo(TrimFrom(items, cum, total), p) == Clamp(cum + UpTo(items, p), total) - Clamp(cum, total)
  {
    hide Clamp, Kept, Spans, TrimFrom, Segment, UpTo, Volume, Unspanned, Ascending;
    if items == [] {
      TrimNothing(cum, total);
      assert UpTo([], p) == 0 by { AllAbove([], p); }
    } else {
      AscendingTail(items);
      if items[0].price > p {
        AllAbove(items, p);
        TrimKeepsPrices(items, cum, total);
        AllAbove(TrimFrom(items, cum, total), p);
      } else {
        UnspannedRest(items, cum, total);
        TrimClamps(items[1..], cum + items[0].volume, total, p);
        TrimClampsHead(items[0], items[1..], cum, total, p);
        assert items == [items[0]] + items[1..];
      }
    }
  }

  lemma AscendingTail(items: seq<Lot>)
    requires Ascending(items) && items != []
    ensures Ascending(items[1..]) && (forall x | x in items :: x.price >= items[0].price)
    ensures forall x | x in items[1..] :: x in items
  {
  }

  lemma TrimClampsHead(x: Lot, rest: seq<Lot>, cum: nat, total: nat, p: int)
    requires total >= 2 && x.volume > 0 && x.price <= p && !Spans(cum, x.volume, total)
    requires UpTo(TrimFrom(rest, cum + x.volume, total), p)
          == Clamp(cum + x.volume + UpTo(rest, p), total) - Clamp(cum + x.volume, total)
    ensures UpTo(TrimFrom([x] + rest, cum, total), p) == Clamp(cum + UpTo([x] + rest, p), total) - Clamp(cum, total)
  {
    hide Clamp, Kept, Spans, TrimFrom, Segment, UpTo, Volume;
    assert ([x] + rest)[0..] == [x] + rest && ([x] + rest)[1..] == rest;
    TrimUnfolds([x] + rest, cum, total, 0);
    SegmentClamps(x, cum, total, p);
    SumsSplit(Segment(x, cum, total), TrimFrom(rest, cum + x.volume, total), p);
    SumsSplit([x], rest, p);
    OneUpTo(x, p);
  }

  lemma OneUpTo(x: Lot, p: int)
    ensures UpTo([x], p) == if x.volume > 0 && x.price <= p then x.volume else 0
  {
    assert [x][1..] == [];
  }

  lemma SegmentClamps(x: Lot, cum: nat, total: nat, p: int)
    requires total >= 2 && x.volume > 0 && x.price <= p && !Spans(cum, x.volume, total)
    ensures UpTo(Segment(x, cum, total), p) == Clamp(cum + x.volume, total) - Clamp(cum, total)
  {
    hide Clamp, Kept, Spans;
    KeptIsClamped(cum, x.volume, total);
    OneUpTo(Lot(x.price, Kept(cum, x.volume, total) / 10), p);
  }

  lemma UnspannedRest(items: seq<Lot>, cum: nat, total: nat)
    requires items != [] && (forall x | x in items :: x.volume > 0) && Unspanned(items, cum, total)
    ensures Unspanned(items[1..], cum + items[0].volume, total) && !Spans(cum, items[0].volume, total)
  {
    hide Spans;
    var rest := items[1..];
    assert items[..0] == [] && Volume(items[..0]) == 0;
    forall k | 0 <= k < |rest| ensures !Spans(cum + items[0].volume + Volume(rest[..k]), rest[k].volume, total) {
      VolumeHead(items, k + 1);
      assert items[1..k + 1] == rest[..k] && items[k + 1] == rest[k];
    }
  }

  lemma VolumeHead(items: seq<Lot>, k: nat)
    requires 0 < k <= |items| && items[0].volume > 0
    ensures Volume(items[..k]) == items[0].volume + Volume(items[1..k])
  {
    assert items[..k][1..] == items[1..k];
  }

  lemma {:induction false} TrimKeepsPrices(items: seq<Lot>, cum: int, total: int)
    ensures forall x | x in TrimFrom(items, cum, total) :: exists y :: y in items && y.price == x.price
  {
    hide Kept;
    if items != [] {
      TrimKeepsPrices(items[1..], cum + items[0].volume, total);
      forall x | x in TrimFrom(items[1..], cum + items[0].volume, total) ensures exists y :: y in items && y.price == x.price {
        var y :| y in items[1..] && y.price == x.price;
        assert y in items;
      }
    }
  }

  lemma KeptOutside(cum: nat, v: nat, total: nat)
    ensures 10 * (cum + v) <= total || 10 * cum >= 9 * total ==> Kept(cum, v, total) <= 0
    ensures Spans(cum, v, total) ==> Kept(cum, v, total) == 8 * total
  {
  }

  lemma {:induction false} TrimBefore(items: seq<Lot>, cum: nat, total: nat, k: nat)
    requires k <= |items| && (forall x | x in items :: x.volume > 0)
    requires 10 * (cum + Volume(items[..k])) <= total
    ensures TrimFrom(items, cum, total) == TrimFrom(items[k..], cum + Volume(items[..k]), total)
  {
    hide Kept, TrimFrom, Volume;
    if k == 0 {
      assert items[..0] == [] && items[0..] == items;
      TotalOfNone();
    } else {
      VolumeHead(items, k);
      assert items[1..k] == items[1..][..k - 1] && items[k..] == items[1..][k - 1..] && items[0..] == items;
      assert forall x | x in items[1..] :: x in items;
      TrimUnfolds(items, cum, total, 0);
      KeptOutside(cum, items[0].volume, total);
      TrimBefore(items[1..], cum + items[0].volume, total, k - 1);
    }
  }

  lemma {:induction false} TrimAfter(items: seq<Lot>, cum: nat, total: nat)
    requires 10 * cum >= 9 * total && (forall x | x in items :: x.volume > 0)
    ensures TrimFrom(items, cum, total) == []
  {
    hide Kept;
    if items != [] {
      assert forall x | x in items[1..] :: x in items;
      KeptOutside(cum, items[0].volume, total);
      TrimAfter(items[1..], cum + items[0].volume, total);
    }
  }

  /** A lot that spans both cuts is all that trimming leaves, and it is where the median lies. */
  lemma TrimSpanned(items: seq<Lot>, k: nat)
    requires k < |items| && (forall x | x in items :: x.volume > 0)
    requires Spans(Volume(items[..k]), items[k].volume, Volume(items))
    ensures TrimFrom(items, 0, Volume(items)) == [Lot(items[k].price, 8 * Volume(items) / 10)]
  {
    hide Kept, Volume, TrimFrom;
    var total, cum := Volume(items), Volume(items[..k]);
    TrimBefore(items, 0, total, k);
    KeptOutside(cum, items[k].volume, total);
    TrimUnfolds(items, cum, total, k);
    TrimAfter(items[k + 1..], cum + items[k].volume, total);
  }

  lemma MedianSpanned(items: seq<Lot>, k: nat)
    requires Ascending(items) && k < |items| && items[k].volume > 0
    requires Spans(Volume(items[..k]), items[k].volume, Volume(items))
    ensures IsMedian(items, items[k].price)
  {
    hide UpTo, Volume, Ascending;
    VolumeGrows(items, k);
    CutAt(items, k);
  }

  lemma ClampKeepsHalf(below: nat, upTo: nat, total: nat)
    requires 2 * below < total <= 2 * upTo && upTo <= total && total >= 2
    ensures total == 2 ==> Clamp(total, total) == Clamp(0, total)
    ensures total >= 3 ==>
      2 * (Clamp(below, total) - Clamp(0, total)) < Clamp(total, total) - Clamp(0, total)
                                                  <= 2 * (Clamp(upTo, total) - Clamp(0, total))
  {
  }

  lemma TopBounds(items: seq<Lot>)
    requires Ascending(items)
    ensures forall x | x in items :: x.price <= items[|items| - 1].price
  {
  }

  /** Where no lot spans both cuts the median is kept, unless nothing is left to have one. */
  lemma TrimUnspanned(items: seq<Lot>, p: int)
    requires Ascending(items) && (forall x | x in items :: x.volume > 0) && IsMedian(items, p)
    requires Volume(items) >= 2
    requires Unspanned(items, 0, Volume(items))
    ensures Volume(items) >= 3 ==> IsMedian(TrimFrom(items, 0, Volume(items)), p)
    ensures Volume(items) == 2 ==> Volume(TrimFrom(items, 0, Volume(items))) == 0
  {
    hide UpTo, Volume, Unspanned, Clamp, TrimFrom, Ascending;
    var total := Volume(items);
    var out := TrimFrom(items, 0, total);
    var top := if items == [] then 0 else items[|items| - 1].price;
    TrimClamps(items, 0, total, p);
    TrimClamps(items, 0, total, p - 1);
    TrimClamps(items, 0, total, top);
    TrimKeepsPrices(items, 0, total);
    TopBounds(items);
    AllUpTo(items, top);
    AllUpTo(out, top);
    UpToMonotone(items, p, p);
    ClampKeepsHalf(UpTo(items, p - 1), UpTo(items, p), total);
  }

  /** At least three units, or a lot of two, or nothing at all. */
  ghost predicate Deep(lots: seq<Lot>) {
    Volume(lots) == 0 || Volume(lots) >= 3 || exists x :: x in lots && x.volume >= 2
  }

  lemma {:induction false} VolumeBounds(lots: seq<Lot>, x: Lot)
    requires x in lots && x.volume > 0
    ensures Volume(lots) >= x.volume
  {
    if lots[0] != x {
      VolumeBounds(lots[1..], x);
    }
  }

  lemma OneLot(p: int, v: int)
    ensures IsIndex([Lot(p, v)], if v > 0 then p else 0)
  {
    assert [Lot(p, v)][1..] == [];
  }

  lemma SpannedIndex(lots: seq<Lot>, k: nat)
    requires k < |Items(lots)| && Spans(Volume(Items(lots)[..k]), Items(lots)[k].volume, Volume(lots))
    ensures IsIndex(lots, Items(lots)[k].price)
    ensures IsIndex(Trimmed(lots), if Deep(lots) then Items(lots)[k].price else 0)
  {
    hide TrimFrom, Items;
    var items, total := Items(lots), Volume(lots);
    var p := items[k].price;
    ItemsKeep(lots, p);
    ItemsKeep(lots, p - 1);
    TrimSpanned(items, k);
    MedianSpanned(items, k);
    SomeVolume(items, k);
    assert Trimmed(lots) == [Lot(p, 8 * total / 10)];
    OneLot(p, 8 * total / 10);
    if total == 1 {
      forall x | x in lots ensures x.volume < 2 {
        if x.volume > 0 {
          VolumeBounds(lots, x);
        }
      }
    } else {
      assert items[k] in lots && (items[k].volume >= 2 || total >= 3);
    }
  }

  lemma UnspannedIndex(lots: seq<Lot>, p: int)
    requires IsIndex(lots, p) && Volume(lots) > 0
    requires Unspanned(Items(lots), 0, Volume(lots))
    ensures IsIndex(Trimmed(lots), if Deep(lots) then p else 0)
  {
    hide UpTo, Items;
    var items, total := Items(lots), Volume(lots);
    ItemsKeep(lots, p);
    ItemsKeep(lots, p - 1);
    assert items != [] && items[..0] == [];
    VolumeBounds(items, items[0]);
    assert !Spans(0, items[0].volume, total);
    TrimUnspanned(items, p);
    if total == 2 {
      forall x | x in lots ensures x.volume < 2 {
        if x.volume >= 2 {
          assert x in items;
          var k :| 0 <= k < |items| && items[k] == x;
          SomeVolume(items, k);
          VolumeGrows(items, k);
          assert false;
        }
      }
    }
  }

  /** Trimming never moves the index of a deep market, and zeroes the index of any other. */
  lemma TrimInvisible(lots: seq<Lot>, p: int, q: int)
    requires IsIndex(lots, p) && IsIndex(Trimmed(lots), q)
    ensures q == if Deep(lots) then p else 0
  {
    hide UpTo, TrimFrom, Items;
    var items, total := Items(lots), Volume(lots);
    ItemsKeep(lots, p);
    if total > 0 {
      if k :| 0 <= k < |items| && Spans(Volume(items[..k]), items[k].volume, total) {
        SpannedIndex(lots, k);
        IndexUnique(lots, p, items[k].price);
      } else {
        UnspannedIndex(lots, p);
      }
      IndexUnique(Trimmed(lots), q, if Deep(lots) then p else 0);
    }
  }
}
