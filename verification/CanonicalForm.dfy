/** Canonical text as a complete invariant of JSON values, and the digest built on it. */
module CanonicalForm {
  import opened Prelude
  import opened Binary64
  import opened Encoding
  import opened Json
  import opened Canonical
  import opened Reader
  import opened ReadBack
  import opened CanonicalNumbers

  /** Every int inside is unambiguous. */
  ghost predicate ClearInts(repr: Repr, v: Json)
  {
    match v
    case Int(n) => Unambiguous(repr, n)
    case Arr(items) => forall i | 0 <= i < |items| :: ClearInts(repr, items[i])
    case Obj(members) => forall i | 0 <= i < |members| :: ClearInts(repr, members[i].value)
    case _ => true
  }

  ghost predicate Clear(repr: Repr, v: Json)
  {
    Printable(v) && ClearInts(repr, v)
  }

  /** Two numbers of either kind share their text exactly if they are equal. */
  lemma NumbersAgree(repr: Repr, a: Json, b: Json)
    requires RoundTrips(repr) && Clear(repr, a) && Clear(repr, b) && (a.Int? || a.Float?) && (b.Int? || b.Float?)
    ensures Text(repr, a) == Text(repr, b) <==> ValueOf(NumberOf, a) == ValueOf(NumberOf, b)
  {
    hide RoundTrips, Unambiguous, Two;
    if a.Int? && b.Int? {
      if Text(repr, a) == Text(repr, b) {
        TextDeterminesReading(repr, a, b);
      }
    } else if a.Int? {
      UnambiguousFloat(repr, a.n, b.x);
    } else if b.Int? {
      UnambiguousFloat(repr, b.n, a.x);
    } else {
      FloatsAgree(repr, a.x, b.x);
    }
  }

  lemma FloatsAgree(repr: Repr, x: Double, y: Double)
    requires RoundTrips(repr) && x.Valid() && y.Valid() && (x.Zero? || x.Finite?) && (y.Zero? || y.Finite?)
    ensures Es6Number(repr, x) == Es6Number(repr, y) <==> NumberOf(x) == NumberOf(y)
  {
    hide RoundTrips, Magnitude.Value, Digits.Value, Es6Body;
    if x.Finite? {
      PositiveSize(x.size);
      PositiveDigits(repr(x.size));
    }
    if y.Finite? {
      PositiveSize(y.size);
      PositiveDigits(repr(y.size));
    }
    if Es6Number(repr, x) == Es6Number(repr, y) {
      TextDeterminesReading(repr, Float(x), Float(y));
      if x.Finite? && y.Finite? {
        ReprInjective(repr, x.size, y.size);
      }
    }
    if NumberOf(x) == NumberOf(y) && x.Finite? && y.Finite? {
      ValueUnique(x.size, y.size);
    }
  }

  /** Values that are equal, dicts compared without order and numbers by value, have one text. */
  lemma {:induction false} ValueDeterminesText(repr: Repr, a: Json, b: Json)
    requires RoundTrips(repr) && Clear(repr, a) && Clear(repr, b) && ValueOf(NumberOf, a) == ValueOf(NumberOf, b)
    ensures Text(repr, a) == Text(repr, b)
    decreases a
  {
    match a {
      case Int(_) => NumbersAgree(repr, a, b);
      case Float(_) => NumbersAgree(repr, a, b);
      case Arr(items) => SameItemsText(repr, a, items, b, b.items);
      case Obj(members) =>
        var xs, ys := SortMembers(members), SortMembers(b.members);
        SortKeeps(members);
        SortKeeps(b.members);
        SortAscends(members);
        SortAscends(b.members);
        AscendingDistinct(xs);
        AscendingDistinct(ys);
        SameMembers(NumberOf, a, members, xs);
        SameMembers(NumberOf, b, b.members, ys);
        ClearMembers(repr, a, members, xs);
        ClearMembers(repr, b, b.members, ys);
        SameMembersText(repr, a, xs, b, ys);
      case _ =>
    }
  }

  lemma ClearMembers(repr: Repr, v: Json, members: seq<Member>, sorted: seq<Member>)
    requires Clear(repr, v) && v == Obj(members) && forall m :: m in sorted <==> m in members
    ensures forall m | m in sorted :: m.value < v && Serializable(m.value) && Printable(m.value) && ClearInts(repr, m.value)
  {
  }

  lemma {:induction false} SameItemsText(repr: Repr, a: Json, xs: seq<Json>, b: Json, ys: seq<Json>)
    requires RoundTrips(repr)
    requires forall x | x in xs :: x < a && Serializable(x) && Printable(x) && ClearInts(repr, x)
    requires forall y | y in ys :: y < b && Serializable(y) && Printable(y) && ClearInts(repr, y)
    requires ItemValues(NumberOf, a, xs) == ItemValues(NumberOf, b, ys)
    ensures ItemsText(repr, a, xs) == ItemsText(repr, b, ys)
    decreases a, |xs|
  {
    hide Text, ValueOf, WellFormed, Serializable, ClearInts, RoundTrips;
    if xs != [] && ys != [] {
      assert (forall x | x in xs[1..] :: x in xs) && (forall y | y in ys[1..] :: y in ys);
      assert xs[0] in xs && ys[0] in ys;
      assert ItemValues(NumberOf, a, xs)[0] == ValueOf(NumberOf, xs[0]) && ItemValues(NumberOf, b, ys)[0] == ValueOf(NumberOf, ys[0]);
      assert ItemValues(NumberOf, a, xs)[1..] == ItemValues(NumberOf, a, xs[1..]) && ItemValues(NumberOf, b, ys)[1..] == ItemValues(NumberOf, b, ys[1..]);
      ValueDeterminesText(repr, xs[0], ys[0]);
      SameItemsText(repr, a, xs[1..], b, ys[1..]);
      ItemCount(a, xs);
      ItemCount(b, ys);
    }
  }

  lemma {:induction false} ItemCount(context: Json, items: seq<Json>)
    requires forall x | x in items :: x < context && Serializable(x)
    ensures |ItemValues(NumberOf, context, items)| == |items|
    decreases |items|
  {
    if items != [] {
      assert forall x | x in items[1..] :: x in items;
      ItemCount(context, items[1..]);
    }
  }

  /** Two ascending member lists with one key set start with the same key. */
  lemma SameFirstKey(xs: seq<Member>, ys: seq<Member>)
    requires Ascending(xs) && Ascending(ys) && xs != [] && ys != []
    requires exists i :: 0 <= i < |ys| && ys[i].key == xs[0].key
    requires exists j :: 0 <= j < |xs| && xs[j].key == ys[0].key
    ensures xs[0].key == ys[0].key
  {
    if xs[0].key != ys[0].key {
      KeyLessTotal(xs[0].key, ys[0].key);
    }
  }

  lemma SameFirstMember(a: Json, xs: seq<Member>, b: Json, ys: seq<Member>)
    requires forall x | x in xs :: x.value < a && Serializable(x.value)
    requires forall y | y in ys :: y.value < b && Serializable(y.value)
    requires Ascending(xs) && Ascending(ys)
    requires MemberValues(NumberOf, a, xs) == MemberValues(NumberOf, b, ys) && xs != [] && ys != []
    ensures xs[0].key == ys[0].key && ValueOf(NumberOf, xs[0].value) == ValueOf(NumberOf, ys[0].value)
    ensures MemberValues(NumberOf, a, xs[1..]) == MemberValues(NumberOf, b, ys[1..])
  {
    AscendingDistinct(xs);
    AscendingDistinct(ys);
    FirstMember(a, xs);
    FirstMember(b, ys);
    SameFirstKey(xs, ys) by {
      MemberKeys(NumberOf, a, xs);
      MemberKeys(NumberOf, b, ys);
    }
  }

  lemma FirstMember(context: Json, members: seq<Member>)
    requires forall m | m in members :: m.value < context && Serializable(m.value)
    requires DistinctKeys(members) && members != []
    ensures var all, key := MemberValues(NumberOf, context, members), members[0].key;
            key in all && all[key] == ValueOf(NumberOf, members[0].value) && MemberValues(NumberOf, context, members[1..]) == all - {key}
  {
    FirstKeyOnce(context, members);
  }

  lemma {:induction false} SameMembersText(repr: Repr, a: Json, xs: seq<Member>, b: Json, ys: seq<Member>)
    requires RoundTrips(repr)
    requires forall x | x in xs :: x.value < a && Serializable(x.value) && Printable(x.value) && ClearInts(repr, x.value)
    requires forall y | y in ys :: y.value < b && Serializable(y.value) && Printable(y.value) && ClearInts(repr, y.value)
    requires Ascending(xs) && Ascending(ys)
    requires MemberValues(NumberOf, a, xs) == MemberValues(NumberOf, b, ys)
    ensures MembersText(repr, a, xs) == MembersText(repr, b, ys)
    decreases a, |xs|
  {
    hide Text, ValueOf, WellFormed, Serializable, ClearInts, RoundTrips, Escaped;
    AscendingDistinct(xs);
    AscendingDistinct(ys);
    SameLength(a, xs, b, ys);
    if xs != [] {
      hide KeyLess;
      assert xs[0] in xs && ys[0] in ys;
      SameFirstMember(a, xs, b, ys);
      ValueDeterminesText(repr, xs[0].value, ys[0].value);
      assert (forall x | x in xs[1..] :: x in xs) && (forall y | y in ys[1..] :: y in ys);
      SameMembersText(repr, a, xs[1..], b, ys[1..]);
    }
  }

  lemma FirstKeyOnce(context: Json, members: seq<Member>)
    requires forall m | m in members :: m.value < context && Serializable(m.value)
    requires DistinctKeys(members) && members != []
    ensures members[0].key !in MemberValues(NumberOf, context, members[1..])
  {
    MemberKeys(NumberOf, context, members[1..]);
  }

  lemma {:induction false} KeyCount(context: Json, members: seq<Member>)
    requires forall m | m in members :: m.value < context && Serializable(m.value)
    requires DistinctKeys(members)
    ensures |MemberValues(NumberOf, context, members)| == |members|
    decreases |members|
  {
    if members != [] {
      FirstKeyOnce(context, members);
      KeyCount(context, members[1..]);
    }
  }

  lemma SameLength(a: Json, xs: seq<Member>, b: Json, ys: seq<Member>)
    requires forall x | x in xs :: x.value < a && Serializable(x.value)
    requires forall y | y in ys :: y.value < b && Serializable(y.value)
    requires DistinctKeys(xs) && DistinctKeys(ys) && MemberValues(NumberOf, a, xs) == MemberValues(NumberOf, b, ys)
    ensures |xs| == |ys|
  {
    KeyCount(a, xs);
    KeyCount(b, ys);
  }

  // ----- the other direction, item by item

  /** Values with one text are equal, numbers by their exact value. */
  lemma {:induction false} TextDeterminesValue(repr: Repr, a: Json, b: Json)
    requires RoundTrips(repr) && Clear(repr, a) && Clear(repr, b) && Text(repr, a) == Text(repr, b)
    ensures ValueOf(NumberOf, a) == ValueOf(NumberOf, b)
    decreases a
  {
    TextDeterminesReading(repr, a, b);
    match a {
      case Int(_) => NumbersAgree(repr, a, b);
      case Float(_) => NumbersAgree(repr, a, b);
      case Arr(items) =>
        SameInner("[", ItemsText(repr, a, items), ItemsText(repr, b, b.items), "]");
        ItemsOfText(repr, a, items, b, b.items);
      case Obj(members) =>
        var xs, ys := SortMembers(members), SortMembers(b.members);
        SortKeeps(members);
        SortKeeps(b.members);
        SortAscends(members);
        SortAscends(b.members);
        AscendingDistinct(xs);
        AscendingDistinct(ys);
        SameMembers(NumberOf, a, members, xs);
        SameMembers(NumberOf, b, b.members, ys);
        ClearMembers(repr, a, members, xs);
        ClearMembers(repr, b, b.members, ys);
        SameInner("{", MembersText(repr, a, xs), MembersText(repr, b, ys), "}");
        MembersOfText(repr, a, xs, b, ys);
      case _ =>
    }
  }

  lemma SameInner(open: string, x: string, y: string, close: string)
    requires |open| == |close| == 1 && open + x + close == open + y + close
    ensures x == y
  {
    var s := open + x + close;
    assert x == s[1..|s| - 1] && y == s[1..|s| - 1];
  }

  /** What follows the first item: nothing, or a comma and the others. */
  function Follow(alone: bool, others: string): string
  {
    if alone then "" else "," + others
  }

  lemma FollowDelimited(alone: bool, others: string)
    ensures Delimited(Follow(alone, others))
  {
  }

  lemma SameFollow(alone: bool, others: string, alone': bool, others': string)
    requires Follow(alone, others) == Follow(alone', others')
    ensures alone == alone' && (!alone ==> others == others')
  {
    if !alone && !alone' {
      assert ("," + others)[1..] == others && ("," + others')[1..] == others';
    }
  }

  lemma {:induction false} ItemsOfText(repr: Repr, a: Json, xs: seq<Json>, b: Json, ys: seq<Json>)
    requires RoundTrips(repr)
    requires forall x | x in xs :: x < a && Serializable(x) && Printable(x) && ClearInts(repr, x)
    requires forall y | y in ys :: y < b && Serializable(y) && Printable(y) && ClearInts(repr, y)
    requires ItemsText(repr, a, xs) == ItemsText(repr, b, ys)
    ensures ItemValues(NumberOf, a, xs) == ItemValues(NumberOf, b, ys)
    decreases a, |xs|
  {
    if xs != [] {
      ItemsOpen(repr, a, xs);
    }
    if ys != [] {
      ItemsOpen(repr, b, ys);
    }
    if xs != [] && ys != [] {
      assert (forall x | x in xs[1..] :: x in xs) && (forall y | y in ys[1..] :: y in ys);
      assert xs[0] in xs && ys[0] in ys;
      FirstItem(repr, a, xs, b, ys);
      TextDeterminesValue(repr, xs[0], ys[0]);
      ItemsOfText(repr, a, xs[1..], b, ys[1..]);
    }
  }

  lemma FirstItem(repr: Repr, a: Json, xs: seq<Json>, b: Json, ys: seq<Json>)
    requires forall x | x in xs :: x < a && Printable(x)
    requires forall y | y in ys :: y < b && Printable(y)
    requires xs != [] && ys != []
    requires (forall x | x in xs[1..] :: x < a && Printable(x)) && forall y | y in ys[1..] :: y < b && Printable(y)
    requires ItemsText(repr, a, xs) == ItemsText(repr, b, ys)
    ensures Text(repr, xs[0]) == Text(repr, ys[0])
    ensures ItemsText(repr, a, xs[1..]) == ItemsText(repr, b, ys[1..])
  {
    hide Text, Printable, Delimited;
    var others, others' := ItemsText(repr, a, xs[1..]), ItemsText(repr, b, ys[1..]);
    var one, one' := |xs| == 1, |ys| == 1;
    FollowDelimited(one, others);
    FollowDelimited(one', others');
    TextPrefix(repr, xs[0], Follow(one, others), ys[0], Follow(one', others'));
    SameFollow(one, others, one', others');
  }

  lemma {:induction false} MembersOfText(repr: Repr, a: Json, xs: seq<Member>, b: Json, ys: seq<Member>)
    requires RoundTrips(repr)
    requires forall x | x in xs :: x.value < a && Serializable(x.value) && Printable(x.value) && ClearInts(repr, x.value)
    requires forall y | y in ys :: y.value < b && Serializable(y.value) && Printable(y.value) && ClearInts(repr, y.value)
    requires MembersText(repr, a, xs) == MembersText(repr, b, ys)
    ensures MemberValues(NumberOf, a, xs) == MemberValues(NumberOf, b, ys)
    decreases a, |xs|
  {
    hide Text, ValueOf, WellFormed, Serializable, ClearInts, RoundTrips, Escaped;
    if xs != [] && ys != [] {
      assert (forall x | x in xs[1..] :: x in xs) && (forall y | y in ys[1..] :: y in ys);
      assert xs[0] in xs && ys[0] in ys;
      FirstEntry(repr, a, xs, b, ys);
      TextDeterminesValue(repr, xs[0].value, ys[0].value);
      MembersOfText(repr, a, xs[1..], b, ys[1..]);
    }
  }

  lemma FirstEntry(repr: Repr, a: Json, xs: seq<Member>, b: Json, ys: seq<Member>)
    requires forall x | x in xs :: x.value < a && Printable(x.value)
    requires forall y | y in ys :: y.value < b && Printable(y.value)
    requires xs != [] && ys != []
    requires forall x | x in xs[1..] :: x.value < a && Printable(x.value)
    requires forall y | y in ys[1..] :: y.value < b && Printable(y.value)
    requires MembersText(repr, a, xs) == MembersText(repr, b, ys)
    ensures xs[0].key == ys[0].key && Text(repr, xs[0].value) == Text(repr, ys[0].value)
    ensures MembersText(repr, a, xs[1..]) == MembersText(repr, b, ys[1..])
  {
    hide Text, Printable, Delimited, ReadChars;
    var others, others' := MembersText(repr, a, xs[1..]), MembersText(repr, b, ys[1..]);
    var one, one' := |xs| == 1, |ys| == 1;
    var rest, rest' := Follow(one, others), Follow(one', others');
    ReadEntry(repr, xs[0].key, xs[0].value, rest);
    ReadEntry(repr, ys[0].key, ys[0].value, rest');
    FollowDelimited(one, others);
    FollowDelimited(one', others');
    SameAfterColon(Text(repr, xs[0].value) + rest, Text(repr, ys[0].value) + rest');
    TextPrefix(repr, xs[0].value, rest, ys[0].value, rest');
    SameFollow(one, others, one', others');
  }

  lemma SameAfterColon(s: string, t: string)
    ensures ":" + s == ":" + t ==> s == t
  {
    assert (":" + s)[1..] == s && (":" + t)[1..] == t;
  }

  /** On values whose ints are unambiguous the text is equal exactly when the value is. */
  lemma CanonicalIff(repr: Repr, a: Json, b: Json)
    requires RoundTrips(repr) && Clear(repr, a) && Clear(repr, b)
    ensures Text(repr, a) == Text(repr, b) <==> ValueOf(NumberOf, a) == ValueOf(NumberOf, b)
  {
    if Text(repr, a) == Text(repr, b) {
      TextDeterminesValue(repr, a, b);
    }
    if ValueOf(NumberOf, a) == ValueOf(NumberOf, b) {
      ValueDeterminesText(repr, a, b);
    }
  }

  // ----- the digest

  function CanonicalBytes(repr: Repr, v: Json): Bytes
    requires Printable(v)
  {
    Utf8(Text(repr, v))
  }

  /**
    Unless the two canonical byte strings collide, equal digests mean values that are written alike, and equal values
    where the ints are unambiguous.
   */
  lemma DigestBinds(sha: Hash, repr: Repr, a: Json, b: Json)
    requires Printable(a) && Printable(b) && sha(CanonicalBytes(repr, a)) == sha(CanonicalBytes(repr, b))
    ensures || Collides(sha, {CanonicalBytes(repr, a)}, {CanonicalBytes(repr, b)})
            || (ValueOf(Written(repr), a) == ValueOf(Written(repr), b)
                && (RoundTrips(repr) && ClearInts(repr, a) && ClearInts(repr, b)
                    ==> ValueOf(NumberOf, a) == ValueOf(NumberOf, b)))
  {
    if CanonicalBytes(repr, a) == CanonicalBytes(repr, b) {
      Utf8PrefixFree();
      EncodeInjective(Utf8Char, Text(repr, a), Text(repr, b));
      TextDeterminesReading(repr, a, b);
      if RoundTrips(repr) && ClearInts(repr, a) && ClearInts(repr, b) {
        TextDeterminesValue(repr, a, b);
      }
    }
  }
}
