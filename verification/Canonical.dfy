/**
  RFC 8785 canonical JSON (infra/cwp/canonical.py): the printer, a reader for its output, and the proof that the text
  is a complete invariant of the value.
 */
module Canonical {
  import opened Prelude
  import opened Binary64
  import opened Decimal
  import opened Encoding
  import opened Json

  // ----- strings (section 3.2.2.2 of RFC 8785)

  function EscapeChar(c: char): (s: string)
    ensures s != ""
  {
    var o := c as int;
    if c == '"' then "\\\""
    else if c == '\\' then "\\\\"
    else if o == 0x08 then "\\b"
    else if o == 0x09 then "\\t"
    else if o == 0x0A then "\\n"
    else if o == 0x0C then "\\f"
    else if o == 0x0D then "\\r"
    else if o < 0x20 then "\\u00" + [HexDigit(o / 16), HexDigit(o % 16)]
    else [c]
  }

  function EscapeChars(s: string): string
  {
    if s == "" then "" else EscapeChar(s[0]) + EscapeChars(s[1..])
  }

  function Escaped(s: string): string
  {
    "\"" + EscapeChars(s) + "\""
  }

  method Escape(s: string) returns (text: string)
    ensures text == Escaped(s)
  {
    var out := "\"";
    for i := 0 to |s|
      invariant out + EscapeChars(s[i..]) == "\"" + EscapeChars(s)
    {
      assert s[i..][1..] == s[i + 1..];
      out := out + EscapeChar(s[i]);
    }
    text := out + "\"";
  }

  // ----- numbers (section 3.2.2.3 of RFC 8785)

  function SignText(neg: bool): string
  {
    if neg then "-" else ""
  }

  function IntText(n: int): string
  {
    SignText(n < 0) + DigitsOf(if n < 0 then -n else n)
  }

  /** ECMAScript Number::toString of the positive number s * 10^exp, with s its shortest digits. */
  function Es6Body(s: string, exp: int): string
    requires s != ""
  {
    var k := |s|;
    var n := exp + k;
    if k <= n <= 21 then s + Zeros(n - k)
    else if 0 < n <= 21 then s[..n] + "." + s[n..]
    else if -6 < n <= 0 then "0." + Zeros(-n) + s
    else
      var mant := [s[0]] + (if k > 1 then "." + s[1..] else "");
      var e := n - 1;
      mant + "e" + (if e >= 0 then "+" else "-") + DigitsOf(if e < 0 then -e else e)
  }

  function Es6Number(repr: Repr, x: Double): string
    requires !x.NaN? && !x.Infinite?
  {
    if x.Zero? then "0" else SignText(x.neg) + Es6Body(repr(x.size).s, repr(x.size).exp)
  }

  // ----- values (section 3.2.3 of RFC 8785 for the member order)

  /** Python's sorted() with the UTF-16 key. */
  function SortMembers(members: seq<Member>): seq<Member>
  {
    if members == [] then [] else InsertMember(members[0], SortMembers(members[1..]))
  }

  function InsertMember(m: Member, sorted: seq<Member>): seq<Member>
  {
    if sorted == [] || !KeyLess(sorted[0].key, m.key) then [m] + sorted
    else [sorted[0]] + InsertMember(m, sorted[1..])
  }

  /** The printer on values it does not reject. */
  function Text(repr: Repr, v: Json): string
    requires Printable(v)
    decreases v
  {
    match v
    case Null => "null"
    case Bool(b) => if b then "true" else "false"
    case Int(n) => IntText(n)
    case Float(x) => Es6Number(repr, x)
    case Str(s) => Escaped(s)
    case Arr(items) => "[" + ItemsText(repr, v, items) + "]"
    case Obj(members) =>
      SortedParts(members);
      "{" + MembersText(repr, v, SortMembers(members)) + "}"
  }

  function ItemsText(repr: Repr, ghost context: Json, items: seq<Json>): string
    requires forall x | x in items :: x < context && Printable(x)
    decreases context, |items|
  {
    if items == [] then ""
    else
      assert forall x | x in items[1..] :: x in items;
      Text(repr, items[0]) + (if |items| == 1 then "" else "," + ItemsText(repr, context, items[1..]))
  }

  function MembersText(repr: Repr, ghost context: Json, members: seq<Member>): string
    requires forall m | m in members :: m.value < context && Printable(m.value)
    decreases context, |members|
  {
    if members == [] then ""
    else
      assert forall m | m in members[1..] :: m in members;
      Escaped(members[0].key) + ":" + Text(repr, members[0].value)
      + (if |members| == 1 then "" else "," + MembersText(repr, context, members[1..]))
  }

  ghost predicate Printable(v: Json)
  {
    WellFormed(v) && Serializable(v)
  }

  lemma SortedParts(members: seq<Member>)
    requires Printable(Obj(members))
    ensures forall m | m in SortMembers(members) :: m.value < Obj(members) && Printable(m.value)
  {
    SortKeeps(members);
    forall m | m in SortMembers(members) ensures m.value < Obj(members) && Printable(m.value) {
      var i :| 0 <= i < |members| && members[i] == m;
    }
  }

  lemma {:induction false} SortKeeps(members: seq<Member>)
    ensures |SortMembers(members)| == |members|
    ensures forall m :: m in SortMembers(members) <==> m in members
  {
    if members != [] {
      SortKeeps(members[1..]);
      InsertKeeps(members[0], SortMembers(members[1..]));
    }
  }

  lemma {:induction false} InsertKeeps(m: Member, sorted: seq<Member>)
    ensures |InsertMember(m, sorted)| == |sorted| + 1
    ensures forall x :: x in InsertMember(m, sorted) <==> x == m || x in sorted
  {
    if sorted != [] && KeyLess(sorted[0].key, m.key) {
      InsertKeeps(m, sorted[1..]);
    }
  }

  ghost predicate Ascending(members: seq<Member>)
  {
    forall i, j | 0 <= i < j < |members| :: KeyLess(members[i].key, members[j].key)
  }

  /** Sorting puts members of distinct keys in strictly ascending UTF-16 order. */
  lemma {:induction false} SortAscends(members: seq<Member>)
    requires DistinctKeys(members)
    ensures Ascending(SortMembers(members))
  {
    if members != [] {
      var rest := members[1..];
      SortAscends(rest);
      SortKeeps(rest);
      forall x | x in SortMembers(rest) ensures x.key != members[0].key {
        assert x in rest;
      }
      InsertAscends(members[0], SortMembers(rest));
    }
  }

  lemma {:induction false} InsertAscends(m: Member, sorted: seq<Member>)
    requires Ascending(sorted) && forall x | x in sorted :: x.key != m.key
    ensures Ascending(InsertMember(m, sorted))
  {
    if sorted == [] {
    } else if KeyLess(sorted[0].key, m.key) {
      var rest := sorted[1..];
      InsertAscends(m, rest);
      InsertKeeps(m, rest);
      forall x | x in InsertMember(m, rest) ensures KeyLess(sorted[0].key, x.key) {
        assert x == m || x in rest;
      }
    } else {
      KeyLessTotal(m.key, sorted[0].key);
      forall x | x in sorted ensures KeyLess(m.key, x.key) {
        if x != sorted[0] {
          LessTransitive(Utf16(m.key), Utf16(sorted[0].key), Utf16(x.key));
        }
      }
    }
  }

  lemma AscendingDistinct(members: seq<Member>)
    requires Ascending(members)
    ensures DistinctKeys(members)
  {
    forall i, j | 0 <= i < j < |members| ensures members[i].key != members[j].key {
      LessIrreflexive(Utf16(members[i].key));
    }
  }

  // ----- the printer with its exception

  /** None stands for the ValueError that a NaN or an infinity raises wherever the recursion meets it. */
  function Canonicalize(repr: Repr, v: Json): Option<string>
    decreases v
  {
    match v
    case Null => Some("null")
    case Bool(b) => Some(if b then "true" else "false")
    case Int(n) => Some(IntText(n))
    case Float(x) => if x.NaN? || x.Infinite? then None else Some(Es6Number(repr, x))
    case Str(s) => Some(Escaped(s))
    case Arr(items) => Bracketed("[", CanonicalizeItems(repr, v, items), "]")
    case Obj(members) =>
      SortKeeps(members);
      assert forall m | m in members :: m.value < v;
      Bracketed("{", CanonicalizeMembers(repr, v, SortMembers(members)), "}")
  }

  function Bracketed(open: string, inner: Option<string>, close: string): Option<string>
  {
    match inner
    case None => None
    case Some(text) => Some(open + text + close)
  }

  function Labelled(key: string, value: Option<string>): Option<string>
  {
    match value
    case None => None
    case Some(text) => Some(Escaped(key) + ":" + text)
  }

  /** first, and the comma and others behind it unless it is alone; None if either raised. */
  function Joined(first: Option<string>, alone: bool, others: Option<string>): Option<string>
  {
    if first.None? || others.None? then None
    else Some(first.value + (if alone then "" else "," + others.value))
  }

  function CanonicalizeItems(repr: Repr, ghost context: Json, items: seq<Json>): Option<string>
    requires forall x | x in items :: x < context
    decreases context, |items|
  {
    if items == [] then Some("")
    else
      assert items[0] in items && forall x | x in items[1..] :: x in items;
      Joined(Canonicalize(repr, items[0]), |items| == 1, CanonicalizeItems(repr, context, items[1..]))
  }

  function CanonicalizeMembers(repr: Repr, ghost context: Json, members: seq<Member>): Option<string>
    requires forall m | m in members :: m.value < context
    decreases context, |members|
  {
    if members == [] then Some("")
    else
      assert members[0] in members && forall m | m in members[1..] :: m in members;
      var entry := Labelled(members[0].key, Canonicalize(repr, members[0].value));
      Joined(entry, |members| == 1, CanonicalizeMembers(repr, context, members[1..]))
  }

  /** The printer fails exactly on values with a NaN or an infinity inside, and else writes their text. */
  lemma {:induction false} CanonicalizeIff(repr: Repr, v: Json)
    requires WellFormed(v)
    ensures Canonicalize(repr, v) == if Serializable(v) then Some(Text(repr, v)) else None
    decreases v
  {
    match v {
      case Arr(items) => CanonicalizeItemsIff(repr, v, items);
      case Obj(members) =>
        SortKeeps(members);
        assert forall m | m in members :: m.value < v && WellFormed(m.value);
        CanonicalizeMembersIff(repr, v, SortMembers(members));
        assert Serializable(v) <==> forall m | m in SortMembers(members) :: Serializable(m.value) by {
          AllMembers(members, SortMembers(members));
        }
      case _ =>
    }
  }

  lemma AllMembers(members: seq<Member>, sorted: seq<Member>)
    requires forall m :: m in sorted <==> m in members
    ensures Serializable(Obj(members)) <==> forall m | m in sorted :: Serializable(m.value)
  {
    if forall m | m in sorted :: Serializable(m.value) {
      forall i | 0 <= i < |members| ensures Serializable(members[i].value) {
        assert members[i] in sorted;
      }
    }
  }

  lemma {:induction false} CanonicalizeItemsIff(repr: Repr, context: Json, items: seq<Json>)
    requires forall x | x in items :: x < context && WellFormed(x)
    ensures (forall x | x in items :: Serializable(x)) ==>
              CanonicalizeItems(repr, context, items) == Some(ItemsText(repr, context, items))
    ensures (exists x :: x in items && !Serializable(x)) ==> CanonicalizeItems(repr, context, items) == None
    decreases context, |items|
  {
    if items != [] {
      assert items[0] in items && forall x :: x in items <==> x == items[0] || x in items[1..];
      CanonicalizeIff(repr, items[0]);
      CanonicalizeItemsIff(repr, context, items[1..]);
    }
  }

  lemma {:induction false} CanonicalizeMembersIff(repr: Repr, context: Json, members: seq<Member>)
    requires forall m | m in members :: m.value < context && WellFormed(m.value)
    ensures (forall m | m in members :: Serializable(m.value)) ==>
              CanonicalizeMembers(repr, context, members) == Some(MembersText(repr, context, members))
    ensures (exists m :: m in members && !Serializable(m.value)) ==> CanonicalizeMembers(repr, context, members) == None
    decreases context, |members|
  {
    if members != [] {
      assert members[0] in members && forall m :: m in members <==> m == members[0] || m in members[1..];
      CanonicalizeIff(repr, members[0].value);
      CanonicalizeMembersIff(repr, context, members[1..]);
    }
  }
}
