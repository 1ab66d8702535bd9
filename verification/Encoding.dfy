/** UTF-8 and UTF-16 (big-endian) as prefix-free character codes, and the byte order keys are sorted by. */
module Encoding {
  import opened Prelude

  type CharCode = char -> Bytes

  function Utf16Char(c: char): Bytes
  {
    var n := c as int;
    if n < 0x10000 then [n / 256, n % 256]
    else
      var high, low := 0xD800 + (n - 0x10000) / 0x400, 0xDC00 + (n - 0x10000) % 0x400;
      [high / 256, high % 256, low / 256, low % 256]
  }

  function Utf8Char(c: char): Bytes
  {
    var n := c as int;
    if n < 0x80 then [n]
    else if n < 0x800 then [0xC0 + n / 0x40, 0x80 + n % 0x40]
    else if n < 0x10000 then [0xE0 + n / 0x1000, 0x80 + n / 0x40 % 0x40, 0x80 + n % 0x40]
    else [0xF0 + n / 0x40000, 0x80 + n / 0x1000 % 0x40, 0x80 + n / 0x40 % 0x40, 0x80 + n % 0x40]
  }

  function Encode(code: CharCode, s: string): Bytes
  {
    if s == "" then [] else code(s[0]) + Encode(code, s[1..])
  }

  function Utf16(s: string): Bytes { Encode(Utf16Char, s) }

  function Utf8(s: string): Bytes { Encode(Utf8Char, s) }

  /** The first character of an encoded text can be told from its bytes alone. */
  ghost predicate PrefixFree(code: CharCode)
  {
    && (forall c :: code(c) != [])
    && (forall c, d | code(c) <= code(d) :: c == d)
  }

  lemma Utf16PrefixFree()
    ensures PrefixFree(Utf16Char)
  {
    forall c, d | Utf16Char(c) <= Utf16Char(d) ensures c == d {
      var m, n := c as int, d as int;
      assert Utf16Char(c)[0] == Utf16Char(d)[0] && Utf16Char(c)[1] == Utf16Char(d)[1];
      if m >= 0x10000 && n >= 0x10000 {
        assert Utf16Char(c)[2] == Utf16Char(d)[2] && Utf16Char(c)[3] == Utf16Char(d)[3];
      }
      assert m == n;
    }
  }

  function Utf8Scalar(x: seq<int>): int
    requires 1 <= |x| <= 4
  {
    if |x| == 1 then x[0]
    else if |x| == 2 then x[0] * 0x40 + x[1] - 0x3080
    else if |x| == 3 then x[0] * 0x1000 + x[1] * 0x40 + x[2] - 0xE2080
    else x[0] * 0x40000 + x[1] * 0x1000 + x[2] * 0x40 + x[3] - 0x3C82080
  }

  lemma Utf8Decodes(c: char)
    ensures Utf8Scalar(Utf8Char(c)) == c as int
  {
    var n := c as int;
    assert n / 0x1000 == n / 0x40000 * 0x40 + n / 0x1000 % 0x40;
    assert n / 0x40 == n / 0x1000 * 0x40 + n / 0x40 % 0x40;
    assert n == n / 0x40 * 0x40 + n % 0x40;
  }

  lemma Utf8PrefixFree()
    ensures PrefixFree(Utf8Char)
  {
    forall c, d | Utf8Char(c) <= Utf8Char(d) ensures c == d {
      var x, y := Utf8Char(c), Utf8Char(d);
      assert x[0] == y[0];
      assert |x| == |y|;
      assert x == y;
      Utf8Decodes(c);
      Utf8Decodes(d);
      assert c as int == d as int;
    }
  }

  lemma {:induction false} EncodeInjective(code: CharCode, s: string, t: string)
    requires PrefixFree(code) && Encode(code, s) == Encode(code, t)
    ensures s == t
  {
    if s != "" && t != "" {
      var a, b := code(s[0]), code(t[0]);
      var whole := Encode(code, s);
      assert a == whole[..|a|] && b == whole[..|b|];
      assert a <= b || b <= a;
      assert Encode(code, s[1..]) == whole[|a|..] && Encode(code, t[1..]) == whole[|b|..];
      EncodeInjective(code, s[1..], t[1..]);
      assert s == [s[0]] + s[1..] && t == [t[0]] + t[1..];
    }
  }

  /** Lexicographic order on byte strings, as Python compares them. */
  predicate Less(a: Bytes, b: Bytes)
  {
    if b == [] then false
    else if a == [] then true
    else a[0] < b[0] || (a[0] == b[0] && Less(a[1..], b[1..]))
  }

  predicate KeyLess(s: string, t: string)
  {
    Less(Utf16(s), Utf16(t))
  }

  lemma {:induction false} LessTotal(a: Bytes, b: Bytes)
    ensures Less(a, b) || Less(b, a) || a == b
  {
    if a != [] && b != [] && a[0] == b[0] {
      LessTotal(a[1..], b[1..]);
      assert a == [a[0]] + a[1..] && b == [b[0]] + b[1..];
    }
  }

  lemma {:induction false} LessTransitive(a: Bytes, b: Bytes, c: Bytes)
    requires Less(a, b) && Less(b, c)
    ensures Less(a, c)
  {
    if a != [] && a[0] == b[0] == c[0] {
      LessTransitive(a[1..], b[1..], c[1..]);
    }
  }

  lemma {:induction false} LessIrreflexive(a: Bytes)
    ensures !Less(a, a)
  {
    if a != [] {
      LessIrreflexive(a[1..]);
    }
  }

  /** UTF-16 order is total on strings: different keys are never tied. */
  lemma KeyLessTotal(s: string, t: string)
    requires s != t
    ensures KeyLess(s, t) != KeyLess(t, s)
  {
    LessTotal(Utf16(s), Utf16(t));
    if Utf16(s) == Utf16(t) {
      Utf16PrefixFree();
      EncodeInjective(Utf16Char, s, t);
    }
    if KeyLess(s, t) && KeyLess(t, s) {
      LessTransitive(Utf16(s), Utf16(t), Utf16(s));
      LessIrreflexive(Utf16(s));
    }
  }

  function HexDigit(d: nat): char
    requires d < 16
  {
    (if d < 10 then '0' as int + d else 'a' as int + d - 10) as char
  }

  function HexByte(b: byte): (s: string)
    ensures |s| == 2
  {
    [HexDigit(b / 16), HexDigit(b % 16)]
  }

  /** Lower-case hex, two digits a byte. */
  function Hex(bytes: Bytes): (s: string)
    ensures |s| == 2 * |bytes|
  {
    if bytes == [] then "" else HexByte(bytes[0]) + Hex(bytes[1..])
  }

  lemma HexByteInjective(a: byte, b: byte)
    requires HexByte(a) == HexByte(b)
    ensures a == b
  {
    assert HexByte(a)[0] == HexByte(b)[0] && HexByte(a)[1] == HexByte(b)[1];
  }

  lemma {:induction false} HexInjective(a: Bytes, b: Bytes)
    requires Hex(a) == Hex(b)
    ensures a == b
  {
    assert |a| == |b|;
    if a != [] {
      hide HexByte;
      assert Hex(a)[..2] == HexByte(a[0]) && Hex(b)[..2] == HexByte(b[0]);
      HexByteInjective(a[0], b[0]);
      assert Hex(a)[2..] == Hex(a[1..]) && Hex(b)[2..] == Hex(b[1..]);
      HexInjective(a[1..], b[1..]);
      assert a == [a[0]] + a[1..] && b == [b[0]] + b[1..];
    }
  }


  // ----- the codes, read with the formulas of RFC 3629 and RFC 2781

  lemma Utf8Form(c: char)
    ensures var n: int, x: seq<int> := c as int, Utf8Char(c);
            && |x| == (if n < 0x80 then 1 else if n < 0x800 then 2 else if n < 0x10000 then 3 else 4)
            && (|x| == 1 ==> x[0] == n)
            && (|x| == 2 ==> 0xC0 <= x[0] < 0xE0 && n == (x[0] - 0xC0) * 0x40 + (x[1] - 0x80))
            && (|x| == 3 ==> 0xE0 <= x[0] < 0xF0 && n == (x[0] - 0xE0) * 0x1000 + (x[1] - 0x80) * 0x40 + (x[2] - 0x80))
            && (|x| == 4 ==> 0xF0 <= x[0] < 0xF8
                             && n == (x[0] - 0xF0) * 0x40000 + (x[1] - 0x80) * 0x1000 + (x[2] - 0x80) * 0x40 + (x[3] - 0x80))
            && forall i | 0 < i < |x| :: 0x80 <= x[i] < 0xC0
  {
    Utf8Decodes(c);
  }

  /** A character of the basic plane is one unit, any other a high and a low surrogate. */
  lemma Utf16Form(c: char)
    ensures var n: int, x: seq<int> := c as int, Utf16Char(c);
            if n < 0x10000 then |x| == 2 && 0x100 * x[0] + x[1] == n
            else
              && |x| == 4
              && var high, low := 0x100 * x[0] + x[1], 0x100 * x[2] + x[3];
                 0xD800 <= high < 0xDC00 <= low < 0xE000 && n == 0x10000 + (high - 0xD800) * 0x400 + (low - 0xDC00)
  {
  }

  /** Lower-case digits, high half first. */
  lemma HexByteForm(b: byte)
    ensures var s := HexByte(b);
            && (forall i | 0 <= i < 2 :: '0' <= s[i] <= '9' || 'a' <= s[i] <= 'f')
            && 16 * (if s[0] <= '9' then s[0] as int - '0' as int else s[0] as int - 'a' as int + 10)
               + (if s[1] <= '9' then s[1] as int - '0' as int else s[1] as int - 'a' as int + 10) == b
  {
  }

  lemma {:induction false} HexAt(bytes: Bytes, i: nat)
    requires i < |bytes|
    ensures Hex(bytes)[2 * i..2 * i + 2] == HexByte(bytes[i])
  {
    hide HexByte;
    if i > 0 {
      HexAt(bytes[1..], i - 1);
      assert Hex(bytes)[2..] == Hex(bytes[1..]);
      assert Hex(bytes)[2 * i..2 * i + 2] == Hex(bytes)[2..][2 * (i - 1)..2 * (i - 1) + 2];
    }
  }

  // ----- the order of keys, character by character

  /** Surrogates stand between U+D7FF and U+E000, so every other plane sorts before the end of the basic one. */
  ghost predicate UnitsBefore(c: char, d: char)
  {
    var m, n := c as int, d as int;
    if (m < 0x10000) == (n < 0x10000) then m < n
    else if m < 0x10000 then m < 0xD800
    else n >= 0xE000
  }

  lemma {:induction false} LessAfterPrefix(p: Bytes, a: Bytes, b: Bytes)
    ensures Less(p + a, p + b) <==> Less(a, b)
  {
    if p == [] {
      assert p + a == a && p + b == b;
    } else {
      assert (p + a)[1..] == p[1..] + a && (p + b)[1..] == p[1..] + b;
      LessAfterPrefix(p[1..], a, b);
    }
  }

  lemma {:induction false} EncodeConcat(code: CharCode, s: string, t: string)
    ensures Encode(code, s + t) == Encode(code, s) + Encode(code, t)
  {
    if s == "" {
      assert s + t == t;
    } else {
      assert (s + t)[1..] == s[1..] + t;
      EncodeConcat(code, s[1..], t);
    }
  }

  lemma LessUnits(c: char, d: char, x: Bytes, y: Bytes)
    requires c != d
    ensures Less(Utf16Char(c) + x, Utf16Char(d) + y) <==> UnitsBefore(c, d)
  {
    var a, b := Utf16Char(c) + x, Utf16Char(d) + y;
    assert a[0] == Utf16Char(c)[0] && a[1] == Utf16Char(c)[1] && b[0] == Utf16Char(d)[0] && b[1] == Utf16Char(d)[1];
    LessTwo(a, b);
    if c as int >= 0x10000 && d as int >= 0x10000 && a[0] == b[0] && a[1] == b[1] {
      LessTwo(a[2..], b[2..]);
      assert a[2] == Utf16Char(c)[2] && a[3] == Utf16Char(c)[3] && b[2] == Utf16Char(d)[2] && b[3] == Utf16Char(d)[3];
    }
  }

  lemma LessTwo(a: Bytes, b: Bytes)
    requires |a| >= 2 && |b| >= 2
    ensures Less(a, b) <==> a[0] < b[0] || (a[0] == b[0] && (a[1] < b[1] || (a[1] == b[1] && Less(a[2..], b[2..]))))
  {
    assert a[1..][1..] == a[2..] && b[1..][1..] == b[2..];
    assert Less(a[1..], b[1..]) <==> a[1] < b[1] || (a[1] == b[1] && Less(a[2..], b[2..]));
  }

  /** The first character in which two keys differ decides, and a key comes before its extensions. */
  lemma KeyOrder(p: string, c: char, d: char, s: string, t: string)
    requires c != d
    ensures KeyLess(p + [c] + s, p + [d] + t) <==> UnitsBefore(c, d)
    ensures KeyLess(p, p + [c] + s) && !KeyLess(p + [c] + s, p)
  {
    hide Utf16Char, Less;
    AfterKey(p, c, s);
    AfterKey(p, d, t);
    LessAfterPrefix(Utf16(p), Utf16Char(c) + Utf16(s), Utf16Char(d) + Utf16(t));
    LessUnits(c, d, Utf16(s), Utf16(t));
    LessAfterPrefix(Utf16(p), [], Utf16Char(c) + Utf16(s));
    LessAfterPrefix(Utf16(p), Utf16Char(c) + Utf16(s), []);
    assert Utf16(p) + [] == Utf16(p);
    NothingIsLeast(Utf16Char(c) + Utf16(s)) by {
      Utf16Form(c);
    }
  }

  lemma NothingIsLeast(a: Bytes)
    requires a != []
    ensures Less([], a) && !Less(a, [])
  {
  }

  lemma AfterKey(p: string, c: char, s: string)
    ensures Utf16(p + [c] + s) == Utf16(p) + (Utf16Char(c) + Utf16(s))
  {
    hide Utf16Char;
    EncodeConcat(Utf16Char, p + [c], s);
    EncodeConcat(Utf16Char, p, [c]);
    assert [c][1..] == "";
    assert Encode(Utf16Char, [c]) == Utf16Char(c) + Encode(Utf16Char, "") == Utf16Char(c);
  }
}
