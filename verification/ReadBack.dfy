/** Canonical text determines the value, and the value determines the text. */
module ReadBack {
  import opened Prelude
  import opened Binary64
  import opened Decimal
  import opened Encoding
  import opened Json
  import opened Canonical
  import opened Reader

  /** What can follow a value inside canonical text. */
  ghost predicate Delimited(rest: string)
  {
    rest == "" || rest[0] == ',' || rest[0] == ']' || rest[0] == '}'
  }

  lemma {:induction false} SpanOf(digits: string, rest: string)
    requires AllDigits(digits) && (rest == "" || !IsDigit(rest[0]))
    ensures Span(digits + rest) == |digits|
    ensures (digits + rest)[..|digits|] == digits && (digits + rest)[|digits|..] == rest
  {
    if digits == "" {
      assert digits + rest == rest;
    } else {
      assert (digits + rest)[1..] == digits[1..] + rest;
      SpanOf(digits[1..], rest);
    }
  }

  /** The four number layouts are one shape: integer digits, perhaps a fraction, perhaps an exponent. */
  function Layout(whole: string, fraction: string, e: Option<int>): string
  {
    whole + FractionText(fraction) + ExponentText(e)
  }

  function FractionText(fraction: string): string
  {
    if fraction == "" then "" else "." + fraction
  }

  function ExponentText(e: Option<int>): string
  {
    match e
    case None => ""
    case Some(k) => "e" + (if k >= 0 then "+" else "-") + DigitsOf(if k < 0 then -k else k)
  }

  function SignedInt(neg: bool, n: int): int
  {
    if neg then -n else n
  }

  lemma ReadExponentDigits(sign: char, digits: string, rest: string)
    requires (sign == '+' || sign == '-') && AllDigits(digits) && Delimited(rest)
    ensures ReadExponent("e" + [sign] + digits + rest) == (SignedInt(sign == '-', Val(digits)), rest)
  {
    hide Val, Span;
    var s := "e" + [sign] + digits + rest;
    assert s[0] == 'e' && s[1] == sign && s[2..] == digits + rest;
    SpanOf(digits, rest);
  }

  lemma ReadExponentOf(e: Option<int>, rest: string)
    requires Delimited(rest)
    ensures ReadExponent(ExponentText(e) + rest) == (e.GetOr(0), rest)
  {
    match e {
      case None => assert ExponentText(e) + rest == rest;
      case Some(k) =>
        var digits := DigitsOf(if k < 0 then -k else k);
        var sign := if k >= 0 then '+' else '-';
        assert ExponentText(e) == "e" + [sign] + digits;
        ReadExponentDigits(sign, digits, rest);
    }
  }

  lemma ReadFractionOf(fraction: string, rest: string)
    requires AllDigits(fraction) && (rest == "" || (!IsDigit(rest[0]) && rest[0] != '.'))
    ensures ReadFraction(FractionText(fraction) + rest) == (fraction, rest)
  {
    var s := FractionText(fraction) + rest;
    if fraction == "" {
      assert s == rest;
    } else {
      assert s[1..] == fraction + rest;
      SpanOf(fraction, rest);
    }
  }

  lemma ReadUnsignedOf(neg: bool, whole: string, u: string, fraction: string, v: string, e: int, rest: string)
    requires AllDigits(whole) && whole != ""
    requires u == "" || !IsDigit(u[0])
    requires ReadFraction(u) == (fraction, v) && ReadExponent(v) == (e, rest)
    ensures ReadUnsigned(neg, whole + u) == Some((Numeral(neg, whole, fraction, e), rest))
  {
    SpanOf(whole, u);
  }

  lemma ReadLayout(neg: bool, whole: string, fraction: string, e: Option<int>, rest: string)
    requires AllDigits(whole) && AllDigits(fraction) && whole != "" && Delimited(rest)
    ensures ReadNumeral(SignText(neg) + Layout(whole, fraction, e) + rest)
         == Some((Numeral(neg, whole, fraction, e.GetOr(0)), rest))
  {
    var v := ExponentText(e) + rest;
    var u := FractionText(fraction) + v;
    ReadExponentOf(e, rest);
    ReadFractionOf(fraction, v);
    ReadUnsignedOf(neg, whole, u, fraction, v, e.GetOr(0), rest);
    Regroup(SignText(neg), whole, FractionText(fraction), ExponentText(e), rest);
    SignedNumeral(neg, whole, u);
  }

  lemma Regroup(a: string, b: string, c: string, d: string, e: string)
    ensures a + (b + c + d) + e == a + (b + (c + (d + e)))
  {
  }

  lemma SignedNumeral(neg: bool, whole: string, u: string)
    requires AllDigits(whole) && whole != ""
    ensures ReadNumeral(SignText(neg) + (whole + u)) == ReadUnsigned(neg, whole + u)
  {
    var t := whole + u;
    assert neg ==> (SignText(neg) + t)[1..] == t;
    assert !neg ==> SignText(neg) + t == t && t[0] == whole[0];
  }

  lemma ReadIntText(n: int, rest: string)
    requires Delimited(rest)
    ensures var whole := DigitsOf(if n < 0 then -n else n);
            ReadNumeral(IntText(n) + rest) == Some((Numeral(n < 0, whole, "", 0), rest))
            && Numeral(n < 0, whole, "", 0).Number() == n as real
  {
    var whole := DigitsOf(if n < 0 then -n else n);
    ReadLayout(n < 0, whole, "", None, rest);
    assert Layout(whole, "", None) == whole;
    assert whole + "" == whole;
  }

  /** The integer digits, the fraction and the exponent that each branch of the printer writes. */
  ghost function ShapeOf(s: string, exp: int): (r: (string, string, Option<int>))
    requires AllDigits(s) && s != ""
    ensures AllDigits(r.0) && AllDigits(r.1) && r.0 != ""
  {
    var k, n := |s|, exp + |s|;
    if k <= n <= 21 then (s + Zeros(n - k), "", None)
    else if 0 < n <= 21 then (s[..n], s[n..], None)
    else if -6 < n <= 0 then ("0", Zeros(-n) + s, None)
    else ([s[0]], s[1..], Some(n - 1))
  }

  lemma Es6Plain(s: string, exp: int)
    requires AllDigits(s) && s != "" && -6 < exp + |s| <= 21
    ensures var (whole, fraction, e) := ShapeOf(s, exp); Es6Body(s, exp) == Layout(whole, fraction, e)
  {
    var (whole, fraction, e) := ShapeOf(s, exp);
    var n := exp + |s|;
    assert Layout(whole, fraction, e) == whole + FractionText(fraction);
    if n <= 0 {
      Associate("0", ".", Zeros(-n), s);
    } else if n < |s| {
      assert whole + ("." + fraction) == whole + "." + fraction;
    } else {
      assert whole + "" == whole;
    }
  }

  lemma Es6Exponent(s: string, exp: int)
    requires AllDigits(s) && s != "" && !(-6 < exp + |s| <= 21)
    ensures var (whole, fraction, e) := ShapeOf(s, exp); Es6Body(s, exp) == Layout(whole, fraction, e)
  {
    var e := exp + |s| - 1;
    var mant := [s[0]] + (if |s| > 1 then "." + s[1..] else "");
    var sign, digits := if e >= 0 then "+" else "-", DigitsOf(if e < 0 then -e else e);
    assert mant == [s[0]] + FractionText(s[1..]);
    Associate(mant, "e", sign, digits);
  }

  lemma Associate(a: string, b: string, c: string, d: string)
    ensures a + (b + c + d) == a + b + c + d
    ensures a + (b + (c + d)) == a + b + c + d
  {
  }

  lemma Es6Shape(s: string, exp: int)
    requires AllDigits(s) && s != ""
    ensures var (whole, fraction, e) := ShapeOf(s, exp); Es6Body(s, exp) == Layout(whole, fraction, e)
  {
    if -6 < exp + |s| <= 21 {
      Es6Plain(s, exp);
    } else {
      Es6Exponent(s, exp);
    }
  }

  /** Every branch writes the number's digits, padded with zeros on one side, and scales them back to exp. */
  lemma ShapeDigits(s: string, exp: int)
    requires AllDigits(s) && s != ""
    ensures var (whole, fraction, e) := ShapeOf(s, exp);
            var n, scale := exp + |s|, e.GetOr(0) - |fraction|;
            if |s| <= n <= 21 then whole + fraction == s + Zeros(exp) && scale == 0
            else whole + fraction == Zeros(if -6 < n <= 0 then 1 - n else 0) + s && scale == exp
  {
    var n := exp + |s|;
    if |s| <= n <= 21 {
      assert s + Zeros(exp) + "" == s + Zeros(exp);
    } else if -6 < n <= 0 {
      assert "0" + Zeros(-n) == Zeros(1 - n);
      assert "0" + (Zeros(-n) + s) == "0" + Zeros(-n) + s;
    } else {
      assert Zeros(0) + s == s;
      assert s == if 0 < n <= 21 then s[..n] + s[n..] else [s[0]] + s[1..];
    }
  }

  ghost function Shape(neg: bool, d: ShortDigits): Numeral
  {
    var (whole, fraction, e) := ShapeOf(d.s, d.exp);
    Numeral(neg, whole, fraction, e.GetOr(0))
  }

  lemma ShapeValue(neg: bool, d: ShortDigits)
    ensures Shape(neg, d).Number() == Signed(neg, d.Value())
  {
    var s, exp, n := d.s, d.exp, d.exp + |d.s|;
    ShapeDigits(s, exp);
    if |s| <= n <= 21 {
      ZerosAfter(s, exp, 0);
    } else {
      ZerosBefore(s, if -6 < n <= 0 then 1 - n else 0);
    }
  }

  lemma ReadShape(neg: bool, d: ShortDigits, rest: string)
    requires Delimited(rest)
    ensures ReadNumeral(SignText(neg) + Es6Body(d.s, d.exp) + rest) == Some((Shape(neg, d), rest))
  {
    var (whole, fraction, e) := ShapeOf(d.s, d.exp);
    Es6Shape(d.s, d.exp);
    ReadLayout(neg, whole, fraction, e, rest);
  }

  /** Each of the four layouts reads back to digits * 10^exp. */
  lemma ReadEs6Number(repr: Repr, x: Double, rest: string)
    requires !x.NaN? && !x.Infinite? && Delimited(rest)
    ensures var r := ReadNumeral(Es6Number(repr, x) + rest);
            r.Some? && r.value.1 == rest && r.value.0.Number() == DecimalOf(repr, x)
  {
    if x.Zero? {
      ReadIntText(0, rest);
      assert IntText(0) == "0";
    } else {
      ReadShape(x.neg, repr(x.size), rest);
      ShapeValue(x.neg, repr(x.size));
    }
  }

  lemma ReadShortEscape(c: char, s: string)
    requires |EscapeChar(c)| == 2
    ensures ReadChars(EscapeChar(c) + s) == Prepend(c, ReadChars(s))
  {
    var t := EscapeChar(c) + s;
    assert t[0] == '\\' && t[1] == EscapeChar(c)[1] && t[2..] == s;
    assert Unescape(t[1]) == Some(c);
  }

  lemma ReadUnicodeEscape(c: char, s: string)
    requires |EscapeChar(c)| > 2
    ensures ReadChars(EscapeChar(c) + s) == Prepend(c, ReadChars(s))
  {
    var e := EscapeChar(c);
    var t := e + s;
    assert t[..6] == e && t[6..] == s;
    assert t[2] == e[2] == '0' && t[3] == e[3] == '0' && t[4] == e[4] && t[5] == e[5];
    assert t[2..][0] == t[2] && t[2..][1] == t[3] && t[2..][2] == t[4] && t[2..][3] == t[5];
    assert ReadUnit(t[2..]) == Some(c as nat);
  }

  lemma ReadEscape(c: char, s: string)
    ensures ReadChars(EscapeChar(c) + s) == Prepend(c, ReadChars(s))
  {
    if |EscapeChar(c)| == 1 {
      assert ([c] + s)[1..] == s;
    } else if |EscapeChar(c)| == 2 {
      ReadShortEscape(c, s);
    } else {
      ReadUnicodeEscape(c, s);
    }
  }

  lemma {:induction false} ReadEscaped(s: string, rest: string)
    ensures ReadChars(EscapeChars(s) + "\"" + rest) == Some((s, rest))
  {
    var tail := "\"" + rest;
    if s == "" {
      assert EscapeChars(s) + "\"" + rest == tail;
      assert tail[1..] == rest;
    } else {
      var inner := EscapeChars(s[1..]) + "\"" + rest;
      ReadEscaped(s[1..], rest);
      assert EscapeChars(s) + "\"" + rest == EscapeChar(s[0]) + inner;
      ReadEscape(s[0], inner);
      assert [s[0]] + s[1..] == s;
    }
  }

  // ----- the escapes are the shortest

  /** No literal that reads back to the same string is shorter. */
  lemma {:induction false} EscapeIsShortest(text: string)
    requires ReadChars(text).Some?
    ensures var (s, rest) := ReadChars(text).value; |text| >= |EscapeChars(s)| + 1 + |rest|
    decreases |text|
  {
    if text[0] != '"' {
      var n := if text[0] != '\\' then 1 else if text[1] == 'u' then ReadUnicode(text).value.1 else 2;
      EscapeIsShortest(text[n..]);
      var (s, rest) := ReadChars(text).value;
      assert s[1..] == ReadChars(text[n..]).value.0;
      ShortEscapes(s[0]);
    }
  }

  lemma ShortEscapes(c: char)
    ensures |EscapeChar(c)| <= 6
    ensures c as int >= 0x20 && c != '"' && c != '\\' ==> |EscapeChar(c)| == 1
    ensures (exists e :: Unescape(e) == Some(c)) ==> |EscapeChar(c)| <= 2
  {
  }

  /** The text of one character: itself, one of the seven short forms, or u00 and two lower-case hexadecimal digits. */
  lemma EscapeForm(c: char)
    ensures var n, e := c as int, EscapeChars([c]);
      if c == '"' then e == "\\\""
      else if c == '\\' then e == "\\\\"
      else if n >= 0x20 then e == [c]
      else if n == 8 then e == "\\b"
      else if n == 9 then e == "\\t"
      else if n == 10 then e == "\\n"
      else if n == 12 then e == "\\f"
      else if n == 13 then e == "\\r"
      else
        && |e| == 6 && e[..4] == "\\u00"
        && ('0' <= e[4] <= '9' || 'a' <= e[4] <= 'f') && ('0' <= e[5] <= '9' || 'a' <= e[5] <= 'f')
        && 16 * HexValue(e[4]) + HexValue(e[5]) == n
  {
    assert [c][1..] == "";
    assert EscapeChars([c]) == EscapeChar(c) + EscapeChars("") == EscapeChar(c);
  }

  lemma {:induction false} EscapeConcat(s: string, t: string)
    ensures EscapeChars(s + t) == EscapeChars(s) + EscapeChars(t)
  {
    if s == "" {
      assert s + t == t;
    } else {
      assert (s + t)[1..] == s[1..] + t;
      EscapeConcat(s[1..], t);
    }
  }

  // ----- values

  ghost predicate ReadsAs(s: string, v: Value, rest: string)
  {
    ReadValue(s) == Some((v, rest))
  }

  /** A value's text does not begin like the end of a list. */
  lemma {:induction false} TextOpens(repr: Repr, v: Json)
    requires Printable(v)
    ensures Text(repr, v) != "" && Text(repr, v)[0] != ']' && Text(repr, v)[0] != '}'
    ensures v.Int? || v.Float? ==> Text(repr, v)[0] == '-' || IsDigit(Text(repr, v)[0])
  {
    match v {
      case Int(n) => assert IntText(n)[0] == '-' || IntText(n)[0] == DigitsOf(n)[0];
      case Float(x) => if x.Finite? && !x.neg { Es6Start(repr(x.size).s, repr(x.size).exp); }
      case _ =>
    }
  }

  lemma Es6Start(s: string, exp: int)
    requires AllDigits(s) && s != ""
    ensures Es6Body(s, exp) != "" && IsDigit(Es6Body(s, exp)[0])
    ensures SignText(false) + Es6Body(s, exp) == Es6Body(s, exp)
  {
    Es6Shape(s, exp);
  }

  lemma ReadNumberAs(text: string, r: real, rest: string)
    requires text != "" && (text[0] == '-' || IsDigit(text[0]))
    requires ReadNumber(text + rest) == Some((VNum(r), rest))
    ensures ReadsAs(text + rest, VNum(r), rest)
  {
    var s := text + rest;
    assert s[0] == text[0];
    assert ReadValue(s) == ReadNumber(s);
  }

  lemma ReadWordAs(word: string, v: Value, rest: string)
    requires word != ""
    ensures ReadWord(word, v, word + rest) == Some((v, rest))
  {
    assert (word + rest)[|word|..] == rest;
  }

  lemma ReadStringAs(t: string, rest: string)
    ensures ReadsAs(Escaped(t) + rest, VStr(t), rest)
  {
    var s := Escaped(t) + rest;
    assert s[1..] == EscapeChars(t) + "\"" + rest;
    ReadEscaped(t, rest);
    assert ReadValue(s) == ReadString(s);
  }

  lemma Dispatch(s: string)
    requires s != ""
    ensures s[0] == '[' ==> ReadValue(s) == ReadArray(s)
    ensures s[0] == '{' ==> ReadValue(s) == ReadObject(s)
  {
  }

  lemma Enclosed(open: string, inner: string, close: string, rest: string)
    requires |open| == |close| == 1
    ensures var s := open + inner + close + rest;
            && s[0] == open[0]
            && s[1..] == inner + close + rest
            && s[1] == (if inner == "" then close[0] else inner[0])
            && (inner == "" ==> s[2..] == rest)
  {
  }

  lemma ReadListAs(inner: string, vs: seq<Value>, rest: string)
    requires if inner == "" then vs == []
             else inner[0] != ']' && ReadItems(inner + "]" + rest) == Some((vs, rest))
    ensures ReadsAs("[" + inner + "]" + rest, VArr(vs), rest)
  {
    Enclosed("[", inner, "]", rest);
    Dispatch("[" + inner + "]" + rest);
  }

  lemma ReadObjectAs(inner: string, m: map<string, Value>, rest: string)
    requires if inner == "" then m == map[]
             else inner[0] != '}' && ReadMembers(inner + "}" + rest) == Some((m, rest))
    ensures ReadsAs("{" + inner + "}" + rest, VObj(m), rest)
  {
    Enclosed("{", inner, "}", rest);
    Dispatch("{" + inner + "}" + rest);
  }

  /** The text of a value, followed by anything that may follow a value, reads back as that value and that rest. */
  lemma {:induction false} ReadText(repr: Repr, v: Json, rest: string)
    requires Printable(v) && Delimited(rest)
    ensures ReadsAs(Text(repr, v) + rest, ValueOf(Written(repr), v), rest)
    decreases v
  {
    match v {
      case Null => ReadWordAs("null", VNull, rest);
      case Bool(b) => ReadWordAs(if b then "true" else "false", VBool(b), rest);
      case Int(n) =>
        TextOpens(repr, v);
        ReadIntText(n, rest);
        ReadNumberAs(Text(repr, v), n as real, rest);
      case Float(x) =>
        TextOpens(repr, v);
        ReadEs6Number(repr, x, rest);
        ReadNumberAs(Text(repr, v), DecimalOf(repr, x), rest);
      case Str(t) => ReadStringAs(t, rest);
      case Arr(items) =>
        if items != [] {
          ReadItemsText(repr, v, items, rest);
          ItemsOpen(repr, v, items);
        }
        ReadListAs(ItemsText(repr, v, items), ItemValues(Written(repr), v, items), rest);
      case Obj(members) =>
        var sorted := SortMembers(members);
        SortKeeps(members);
        SortAscends(members);
        AscendingDistinct(sorted);
        SameMembers(Written(repr), v, members, sorted);
        if members != [] {
          ReadMembersText(repr, v, sorted, rest);
        }
        ReadObjectAs(MembersText(repr, v, sorted), MemberValues(Written(repr), v, sorted), rest);
    }
  }

  lemma ItemsOpen(repr: Repr, context: Json, items: seq<Json>)
    requires forall x | x in items :: x < context && Printable(x)
    requires items != []
    ensures ItemsText(repr, context, items) != "" && ItemsText(repr, context, items)[0] != ']'
  {
    TextOpens(repr, items[0]);
  }

  lemma {:induction false} ReadItemsText(repr: Repr, context: Json, items: seq<Json>, rest: string)
    requires forall x | x in items :: x < context && Printable(x)
    requires items != []
    ensures ReadItems(ItemsText(repr, context, items) + "]" + rest) == Some((ItemValues(Written(repr), context, items), rest))
    decreases context, |items|
  {
    var first := Text(repr, items[0]);
    assert forall x | x in items[1..] :: x in items;
    if |items| == 1 {
      ReadText(repr, items[0], "]" + rest);
      Last(first, "]", rest);
      assert items[1..] == [] && ItemValues(Written(repr), context, items) == [ValueOf(Written(repr), items[0])];
    } else {
      var more := ItemsText(repr, context, items[1..]) + "]" + rest;
      ReadText(repr, items[0], "," + more);
      ReadItemsText(repr, context, items[1..], rest);
      Splice(first, ItemsText(repr, context, items[1..]), "]", rest);
      assert ("," + more)[1..] == more;
    }
  }

  lemma Last(first: string, close: string, rest: string)
    requires |close| == 1
    ensures first + "" + close + rest == first + (close + rest)
    ensures (close + rest)[1..] == rest
  {
  }

  lemma Splice(first: string, others: string, close: string, rest: string)
    ensures first + ("," + others) + close + rest == first + ("," + (others + close + rest))
  {
  }

  lemma {:induction false} ReadMembersText(repr: Repr, context: Json, members: seq<Member>, rest: string)
    requires forall m | m in members :: m.value < context && Printable(m.value)
    requires members != [] && DistinctKeys(members)
    ensures ReadMembers(MembersText(repr, context, members) + "}" + rest) == Some((MemberValues(Written(repr), context, members), rest))
    decreases context, |members|
  {
    var key, value := members[0].key, members[0].value;
    var v, entry := ValueOf(Written(repr), value), Escaped(key) + ":" + Text(repr, value);
    if |members| == 1 {
      var tail := "}" + rest;
      ReadText(repr, value, tail);
      ReadEntry(repr, key, value, tail);
      Last(entry, "}", rest);
      ReadLastMember(entry + tail, key, v, Text(repr, value) + tail, tail);
      assert members[1..] == [];
    } else {
      var others := members[1..];
      var more := MembersText(repr, context, others) + "}" + rest;
      ReadText(repr, value, "," + more);
      ReadEntry(repr, key, value, "," + more);
      ReadMembersText(repr, context, others, rest);
      MemberKeys(Written(repr), context, others);
      Splice(entry, MembersText(repr, context, others), "}", rest);
      ReadFirstMember(entry + ("," + more), key, v, Text(repr, value) + ("," + more), more, MemberValues(Written(repr), context, others), rest);
    }
  }

  lemma ReadLastMember(s: string, key: string, v: Value, u: string, tail: string)
    requires s != "" && s[0] == '"' && ReadChars(s[1..]) == Some((key, ":" + u))
    requires ReadsAs(u, v, tail) && tail != "" && tail[0] == '}'
    ensures ReadMembers(s) == Some((map[key := v], tail[1..]))
  {
    assert (":" + u)[1..] == u;
  }

  lemma ReadFirstMember(s: string, key: string, v: Value, u: string, more: string, m: map<string, Value>, rest: string)
    requires s != "" && s[0] == '"' && ReadChars(s[1..]) == Some((key, ":" + u))
    requires ReadsAs(u, v, "," + more) && ReadMembers(more) == Some((m, rest)) && key !in m
    ensures ReadMembers(s) == Some((m[key := v], rest))
  {
    assert (":" + u)[1..] == u && ("," + more)[1..] == more;
  }

  /** One member is read up to whatever follows its value. */
  lemma ReadEntry(repr: Repr, key: string, value: Json, tail: string)
    requires Printable(value)
    ensures var s := Escaped(key) + ":" + Text(repr, value) + tail;
            s != "" && s[0] == '"' && ReadChars(s[1..]) == Some((key, ":" + (Text(repr, value) + tail)))
  {
    hide Text, EscapeChars, ReadChars;
    var s := Escaped(key) + ":" + Text(repr, value) + tail;
    assert s[1..] == EscapeChars(key) + "\"" + (":" + (Text(repr, value) + tail));
    ReadEscaped(key, ":" + (Text(repr, value) + tail));
  }

  lemma {:induction false} MemberKeys(num: Double -> real, context: Json, members: seq<Member>)
    requires forall m | m in members :: m.value < context && Serializable(m.value)
    ensures forall key :: key in MemberValues(num, context, members) <==> exists i :: 0 <= i < |members| && members[i].key == key
    ensures DistinctKeys(members) ==>
              forall i | 0 <= i < |members| :: MemberValues(num, context, members)[members[i].key] == ValueOf(num, members[i].value)
    decreases |members|
  {
    if members != [] {
      MemberKeys(num, context, members[1..]);
      assert forall i | 0 < i < |members| :: members[i] == members[1..][i - 1];
    }
  }

  /** Reordering the members of a dict does not change its value. */
  lemma SameMembers(num: Double -> real, context: Json, xs: seq<Member>, ys: seq<Member>)
    requires forall m | m in xs :: m.value < context && Serializable(m.value)
    requires forall m :: m in ys <==> m in xs
    requires DistinctKeys(xs) && DistinctKeys(ys)
    ensures MemberValues(num, context, xs) == MemberValues(num, context, ys)
  {
    hide Serializable, ValueOf, MemberValues;
    MemberKeys(num, context, xs);
    MemberKeys(num, context, ys);
    var a, b := MemberValues(num, context, xs), MemberValues(num, context, ys);
    forall key | key in a ensures key in b && a[key] == b[key] {
      var i :| 0 <= i < |xs| && xs[i].key == key;
      assert xs[i] in ys;
    }
    forall key | key in b ensures key in a {
      var i :| 0 <= i < |ys| && ys[i].key == key;
      assert ys[i] in xs;
    }
  }

  // ----- what the text says

  /** The reader recovers from the whole text the value with its floats as written. */
  lemma CanonicalReadsBack(repr: Repr, v: Json)
    requires Printable(v)
    ensures ReadValue(Text(repr, v)) == Some((ValueOf(Written(repr), v), ""))
  {
    ReadText(repr, v, "");
    assert Text(repr, v) + "" == Text(repr, v);
  }

  /** Equal text says the same. */
  lemma TextDeterminesReading(repr: Repr, a: Json, b: Json)
    requires Printable(a) && Printable(b) && Text(repr, a) == Text(repr, b)
    ensures ValueOf(Written(repr), a) == ValueOf(Written(repr), b)
  {
    CanonicalReadsBack(repr, a);
    CanonicalReadsBack(repr, b);
  }

  /** Texts that may be followed by the same things are equal with what follows them. */
  lemma TextPrefix(repr: Repr, a: Json, rest: string, b: Json, more: string)
    requires Printable(a) && Printable(b) && Delimited(rest) && Delimited(more)
    requires Text(repr, a) + rest == Text(repr, b) + more
    ensures Text(repr, a) == Text(repr, b) && rest == more
  {
    hide Text;
    ReadText(repr, a, rest);
    ReadText(repr, b, more);
    assert Text(repr, a) == (Text(repr, a) + rest)[..|Text(repr, a)|];
    assert Text(repr, b) == (Text(repr, b) + more)[..|Text(repr, b)|];
  }
}
