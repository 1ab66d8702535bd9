/** A JSON reader written from the grammar, used to show that canonical text can be read back. */
module Reader {
  import opened Prelude
  import opened Decimal
  import opened Json

  /** Number of leading digits. */
  function Span(s: string): (n: nat)
    ensures n <= |s| && AllDigits(s[..n])
    ensures n < |s| ==> !IsDigit(s[n])
  {
    if s == "" || !IsDigit(s[0]) then 0
    else
      var n := Span(s[1..]);
      assert s[..n + 1] == [s[0]] + s[1..][..n];
      n + 1
  }

  function ReadFraction(s: string): (r: (string, string))
    ensures |r.1| <= |s|
  {
    if s != "" && s[0] == '.' then
      var n := Span(s[1..]);
      (s[1..][..n], s[1..][n..])
    else ("", s)
  }

  function ReadExponent(s: string): (r: (int, string))
    ensures |r.1| <= |s|
  {
    if |s| > 1 && s[0] == 'e' && (s[1] == '+' || s[1] == '-') then
      var n := Span(s[2..]);
      var e: int := Val(s[2..][..n]);
      (if s[1] == '-' then -e else e, s[2..][n..])
    else (0, s)
  }

  /** A number as written: sign, integer digits, fraction digits, exponent. */
  datatype Numeral = Numeral(neg: bool, whole: string, fraction: string, e: int) {
    ghost function Number(): real {
      Signed(neg, Scaled(Val(whole + fraction), e - |fraction|))
    }
  }

  function ReadNumeral(s: string): (r: Option<(Numeral, string)>)
    ensures r.Some? ==> |r.value.1| < |s|
  {
    if s != "" && s[0] == '-' then ReadUnsigned(true, s[1..]) else ReadUnsigned(false, s)
  }

  function ReadUnsigned(neg: bool, t: string): (r: Option<(Numeral, string)>)
    ensures r.Some? ==> |r.value.1| < |t|
  {
    var n := Span(t);
    if n == 0 then None
    else
      var (fraction, u) := ReadFraction(t[n..]);
      var (e, rest) := ReadExponent(u);
      Some((Numeral(neg, t[..n], fraction, e), rest))
  }

  predicate IsHex(c: char)
  {
    '0' <= c <= '9' || 'a' <= c <= 'f' || 'A' <= c <= 'F'
  }

  function HexValue(c: char): (d: nat)
    ensures d < 16
  {
    if '0' <= c <= '9' then c as int - '0' as int
    else if 'a' <= c <= 'f' then c as int - 'a' as int + 10
    else if 'A' <= c <= 'F' then c as int - 'A' as int + 10
    else 0
  }

  /** Four hexadecimal digits, as one UTF-16 unit. */
  function ReadUnit(s: string): (r: Option<nat>)
    ensures r.Some? ==> |s| >= 4 && r.value < 0x10000
  {
    if |s| >= 4 && IsHex(s[0]) && IsHex(s[1]) && IsHex(s[2]) && IsHex(s[3])
    then Some(0x1000 * HexValue(s[0]) + 0x100 * HexValue(s[1]) + 0x10 * HexValue(s[2]) + HexValue(s[3]))
    else None
  }

  /** The character behind a backslash and u, and the length of its escape: one unit, or a pair of surrogates. */
  function ReadUnicode(s: string): (r: Option<(char, nat)>)
    ensures r.Some? ==> 6 <= r.value.1 <= |s|
  {
    if |s| < 2 then None
    else
      match ReadUnit(s[2..])
      case None => None
      case Some(high) =>
        if !(0xD800 <= high < 0xE000) then Some((high as char, 6))
        else if high >= 0xDC00 || |s| < 12 || s[6..8] != "\\u" then None
        else
          match ReadUnit(s[8..])
          case None => None
          case Some(low) =>
            if 0xDC00 <= low < 0xE000 then Some(((0x10000 + (high - 0xD800) * 0x400 + (low - 0xDC00)) as char, 12)) else None
  }

  /** The rest of a string literal after its opening quote: no raw control characters, and the escapes of section 7 of RFC 8259. */
  function ReadChars(s: string): (r: Option<(string, string)>)
    ensures r.Some? ==> |r.value.1| < |s|
  {
    if s == "" then None
    else if s[0] == '"' then Some(("", s[1..]))
    else if s[0] != '\\' then if s[0] as int < 0x20 then None else Prepend(s[0], ReadChars(s[1..]))
    else if |s| < 2 then None
    else if s[1] == 'u' then
      match ReadUnicode(s)
      case None => None
      case Some((c, n)) => Prepend(c, ReadChars(s[n..]))
    else
      match Unescape(s[1])
      case None => None
      case Some(c) => Prepend(c, ReadChars(s[2..]))
  }

  function Prepend(c: char, r: Option<(string, string)>): Option<(string, string)>
  {
    match r
    case None => None
    case Some((s, rest)) => Some(([c] + s, rest))
  }

  function Unescape(c: char): Option<char>
  {
    match c
    case '"' => Some('"')
    case '\\' => Some('\\')
    case '/' => Some('/')
    case 'b' => Some(0x08 as char)
    case 't' => Some(0x09 as char)
    case 'n' => Some(0x0A as char)
    case 'f' => Some(0x0C as char)
    case 'r' => Some(0x0D as char)
    case _ => None
  }

  ghost function ReadValue(s: string): (r: Option<(Value, string)>)
    ensures r.Some? ==> |r.value.1| < |s|
    decreases |s|, 3
  {
    if s == "" then None
    else if s[0] == '-' || IsDigit(s[0]) then ReadNumber(s)
    else if s[0] == '{' then ReadObject(s)
    else if s[0] == '[' then ReadArray(s)
    else if s[0] == '"' then ReadString(s)
    else if s[0] == 't' then ReadWord("true", VBool(true), s)
    else if s[0] == 'f' then ReadWord("false", VBool(false), s)
    else ReadWord("null", VNull, s)
  }

  ghost function ReadObject(s: string): (r: Option<(Value, string)>)
    requires s != ""
    ensures r.Some? ==> |r.value.1| < |s|
    decreases |s|, 2
  {
    if |s| > 1 && s[1] == '}' then Some((VObj(map[]), s[2..]))
    else
      match ReadMembers(s[1..])
      case None => None
      case Some((m, rest)) => Some((VObj(m), rest))
  }

  ghost function ReadArray(s: string): (r: Option<(Value, string)>)
    requires s != ""
    ensures r.Some? ==> |r.value.1| < |s|
    decreases |s|, 2
  {
    if |s| > 1 && s[1] == ']' then Some((VArr([]), s[2..]))
    else
      match ReadItems(s[1..])
      case None => None
      case Some((vs, rest)) => Some((VArr(vs), rest))
  }

  ghost function ReadString(s: string): (r: Option<(Value, string)>)
    requires s != ""
    ensures r.Some? ==> |r.value.1| < |s|
  {
    match ReadChars(s[1..])
    case None => None
    case Some((t, rest)) => Some((VStr(t), rest))
  }

  ghost function ReadNumber(s: string): (r: Option<(Value, string)>)
    ensures r.Some? ==> |r.value.1| < |s|
  {
    match ReadNumeral(s)
    case None => None
    case Some((numeral, rest)) => Some((VNum(numeral.Number()), rest))
  }

  ghost function ReadWord(word: string, v: Value, s: string): (r: Option<(Value, string)>)
    requires word != ""
    ensures r.Some? ==> |r.value.1| < |s|
  {
    if word <= s then Some((v, s[|word|..])) else None
  }

  ghost function ReadItems(s: string): (r: Option<(seq<Value>, string)>)
    ensures r.Some? ==> |r.value.1| < |s|
    decreases |s|, 4
  {
    match ReadValue(s)
    case None => None
    case Some((v, t)) =>
      if t == "" then None
      else if t[0] == ']' then Some(([v], t[1..]))
      else if t[0] == ',' then
        match ReadItems(t[1..])
        case None => None
        case Some((vs, rest)) => Some(([v] + vs, rest))
      else None
  }

  ghost function ReadMembers(s: string): (r: Option<(map<string, Value>, string)>)
    ensures r.Some? ==> |r.value.1| < |s|
    decreases |s|, 2
  {
    if s == "" || s[0] != '"' then None
    else
      match ReadChars(s[1..])
      case None => None
      case Some((key, t)) =>
        if t == "" || t[0] != ':' then None
        else
          match ReadValue(t[1..])
          case None => None
          case Some((v, u)) =>
            if u == "" then None
            else if u[0] == '}' then Some((map[key := v], u[1..]))
            else if u[0] == ',' then
              match ReadMembers(u[1..])
              case None => None
              case Some((m, rest)) => if key in m then None else Some((m[key := v], rest))
            else None
  }
}
