/** Account names and record memos: the strings the settlement code builds and takes apart again. */
module Accounts {
  import opened Decimal

  /** Escrow, hold and bond accounts are named by a cut of the quote's hash; every other name is a party's own. */
  datatype Account = Escrow(key: string) | Hold(key: string) | Bond(key: string) | Party(name: string)

  const ESCROW := "escrow:"
  const HOLD := "hold:"
  const BOND := "dispute-bond:"

  function Cut(s: string, n: nat): string {
    if |s| <= n then s else s[..n]
  }

  function Name(a: Account): string {
    match a
    case Escrow(k) => ESCROW + k
    case Hold(k) => HOLD + k
    case Bond(k) => BOND + k
    case Party(n) => n
  }

  function EscrowFor(key: string): Account { Escrow(Cut(key, 32)) }
  function HoldFor(sha: string): Account { Hold(Cut(sha, 16)) }
  function BondFor(sha: string): Account { Bond(Cut(sha, 16)) }

  /** A party's name lies outside the three name spaces. */
  ghost predicate Outside(a: Account) {
    a.Party? ==> !(ESCROW <= a.name) && !(HOLD <= a.name) && !(BOND <= a.name)
  }

  /** Distinct accounts have distinct names, so an account may stand for its name. */
  lemma NameInjective(a: Account, b: Account)
    requires Outside(a) && Outside(b) && Name(a) == Name(b)
    ensures a == b
  {
    FirstLetter(a, b);
    if a.Escrow? {
      assert Name(a)[|ESCROW|..] == a.key && Name(b)[|ESCROW|..] == b.key;
    } else if a.Hold? {
      assert Name(a)[|HOLD|..] == a.key && Name(b)[|HOLD|..] == b.key;
    } else if a.Bond? {
      assert Name(a)[|BOND|..] == a.key && Name(b)[|BOND|..] == b.key;
    }
  }

  lemma FirstLetter(a: Account, b: Account)
    requires Outside(a) && Outside(b) && Name(a) == Name(b)
    ensures a.Escrow? == b.Escrow? && a.Hold? == b.Hold? && a.Bond? == b.Bond?
  {
    if !a.Party? && !b.Party? {
      assert Name(a)[0] == Name(b)[0];
    }
  }

  /** Two keys share an escrow exactly if they agree on their first 32 characters; hold and bond look at 16. */
  lemma SharedAccounts(k: string, l: string)
    ensures "escrow:" <= Name(EscrowFor(k)) && "hold:" <= Name(HoldFor(k)) && "dispute-bond:" <= Name(BondFor(k))
    ensures Name(EscrowFor(k)) == Name(EscrowFor(l)) <==> k == l || (|k| >= 32 && |l| >= 32 && k[..32] == l[..32])
    ensures Name(HoldFor(k)) == Name(HoldFor(l)) <==> k == l || (|k| >= 16 && |l| >= 16 && k[..16] == l[..16])
    ensures Name(BondFor(k)) == Name(BondFor(l)) <==> k == l || (|k| >= 16 && |l| >= 16 && k[..16] == l[..16])
    ensures |k| <= 32 ==> Name(EscrowFor(k)) == "escrow:" + k
    ensures |k| <= 16 ==> Name(HoldFor(k)) == "hold:" + k && Name(BondFor(k)) == "dispute-bond:" + k
  {
    SameCut(k, l, 32);
    SameCut(k, l, 16);
    hide Cut;
    SameTail("escrow:", Cut(k, 32), Cut(l, 32));
    SameTail("hold:", Cut(k, 16), Cut(l, 16));
    SameTail("dispute-bond:", Cut(k, 16), Cut(l, 16));
  }

  lemma SameTail(a: string, s: string, t: string)
    ensures a + s == a + t <==> s == t
  {
    assert (a + s)[|a|..] == s && (a + t)[|a|..] == t;
  }

  lemma SameCut(k: string, l: string, n: nat)
    ensures Cut(k, n) == Cut(l, n) <==> k == l || (|k| >= n && |l| >= n && k[..n] == l[..n])
    ensures |k| <= n ==> Cut(k, n) == k
  {
    assert |k| == n ==> k[..n] == k;
    assert |l| == n ==> l[..n] == l;
  }

  // ---- memos -----------------------------------------------------------------------------------

  datatype Memo =
    | Settled(sha: string)
    | IntelSettled(sha: string)
    | Funded(key: string, expires: int, funder: string)
    | Refunded(key: string)
    | Other(text: string)

  const SETTLE := "settle:quote:"
  const INTEL := "intel:quote:"
  const FUND := "escrow-fund:"
  const REFUND := "escrow-refund:"
  const EXP := ":exp="
  const FUNDER := ":funder="

  function IntString(n: int): string {
    if n < 0 then "-" + DigitsOf(-n) else DigitsOf(n)
  }

  /** int() of what IntString wrote. */
  function ReadInt(s: string): int {
    if s != "" && s[0] == '-' then 0 - Val(s[1..]) else Val(s)
  }

  lemma IntRoundTrip(n: int)
    ensures ReadInt(IntString(n)) == n
  {
    if n < 0 {
      assert IntString(n)[1..] == DigitsOf(-n);
    } else {
      assert IsDigit(DigitsOf(n)[0]);
    }
  }

  function MemoText(m: Memo): string {
    match m
    case Settled(sha) => SETTLE + sha
    case IntelSettled(sha) => INTEL + sha
    case Funded(key, expires, funder) => FUND + key + EXP + IntString(expires) + FUNDER + funder
    case Refunded(key) => REFUND + key
    case Other(text) => text
  }

  predicate Occurs(sep: string, s: string, i: nat) {
    i + |sep| <= |s| && s[i..i + |sep|] == sep
  }

  /** Where sep first occurs in s, or the length of s. */
  function Find(sep: string, s: string): (i: nat)
    ensures i <= |s| && forall j: nat | j < i :: !Occurs(sep, s, j)
    ensures i < |s| ==> Occurs(sep, s, i)
  {
    FindFrom(sep, s, 0)
  }

  function FindFrom(sep: string, s: string, k: nat): (i: nat)
    requires k <= |s|
    ensures k <= i <= |s| && forall j: nat | k <= j < i :: !Occurs(sep, s, j)
    ensures i < |s| ==> Occurs(sep, s, i)
    decreases |s| - k
  {
    if k == |s| || Occurs(sep, s, k) then k else FindFrom(sep, s, k + 1)
  }

  /** s.split(sep)[0] */
  function Head(sep: string, s: string): string {
    s[..Find(sep, s)]
  }

  /** s.split(sep)[1]; nothing after the separator stands for the missing element. */
  function Second(sep: string, s: string): string {
    var i := Find(sep, s);
    if i + |sep| <= |s| then Head(sep, s[i + |sep|..]) else ""
  }

  /** How the expiry sweep reads a memo. */
  function ReadMemo(text: string): Memo {
    if SETTLE <= text then Settled(text[|SETTLE|..])
    else if INTEL <= text then IntelSettled(text[|INTEL|..])
    else if FUND <= text then
      var rest := text[|FUND|..];
      Funded(Head(EXP, rest), ReadInt(Head(FUNDER, Second(EXP, rest))), Second(FUNDER, rest))
    else if REFUND <= text then Refunded(text[|REFUND|..])
    else Other(text)
  }

  ghost predicate Free(sep: string, s: string) {
    forall i: nat :: !Occurs(sep, s, i)
  }

  /** The text before the separator cannot make it occur early. */
  ghost predicate EndsClean(sep: string, s: string, rest: string) {
    forall i: nat | i < |s| :: !Occurs(sep, s + sep + rest, i)
  }

  lemma HeadIs(sep: string, s: string, rest: string)
    requires sep != "" && EndsClean(sep, s, rest)
    ensures Find(sep, s + sep + rest) == |s| && Head(sep, s + sep + rest) == s
    ensures (s + sep + rest)[|s| + |sep|..] == rest
  {
    var t := s + sep + rest;
    assert Occurs(sep, t, |s|) by {
      assert t[|s|..|s| + |sep|] == sep;
    }
    assert t[..|s|] == s;
  }

  lemma HeadOfFree(sep: string, s: string)
    requires sep != "" && Free(sep, s)
    ensures Find(sep, s) == |s| && Head(sep, s) == s
  {
  }

  /** A separator that starts with a colon and holds no other cannot straddle the end of s. */
  ghost predicate OneColon(sep: string) {
    sep != "" && sep[0] == ':' && forall i | 0 < i < |sep| :: sep[i] != ':'
  }

  lemma LetterAt(sep: string, t: string, i: nat, k: nat)
    ensures Occurs(sep, t, i) && k < |sep| ==> t[i + k] == sep[k]
  {
    if Occurs(sep, t, i) && k < |sep| {
      assert t[i..i + |sep|][k] == t[i + k];
    }
  }

  lemma NoEarlyOccurrence(sep: string, s: string, rest: string, i: nat)
    requires OneColon(sep) && Free(sep, s) && rest != "" && rest[0] == ':' && i < |s|
    ensures !Occurs(sep, s + rest, i)
  {
    var t := s + rest;
    LetterAt(sep, t, i, |s| - i);
    if i + |sep| <= |s| {
      assert t[i..i + |sep|] == s[i..i + |sep|];
      assert !Occurs(sep, s, i);
    }
  }

  lemma FreeEndsClean(sep: string, s: string, rest: string)
    requires OneColon(sep) && Free(sep, s)
    ensures EndsClean(sep, s, rest)
  {
    forall i: nat | i < |s| ensures !Occurs(sep, s + sep + rest, i) {
      NoEarlyOccurrence(sep, s, sep + rest, i);
      assert s + (sep + rest) == s + sep + rest;
    }
  }

  lemma NoColonNoSep(sep: string, t: string, i: nat)
    requires OneColon(sep) && i < |t| && t[i] != ':'
    ensures !Occurs(sep, t, i)
  {
    LetterAt(sep, t, i, 0);
  }

  lemma SecondLetter(sep: string, t: string, i: nat)
    requires |sep| > 1 && i + 1 < |t| && t[i + 1] != sep[1]
    ensures !Occurs(sep, t, i)
  {
    LetterAt(sep, t, i, 1);
  }

  lemma IntHasNoColon(n: int)
    ensures forall i | 0 <= i < |IntString(n)| :: IntString(n)[i] != ':'
  {
    assert AllDigits(DigitsOf(if n < 0 then -n else n));
  }

  /** No funder mark lies before the one that ends the expiry. */
  lemma FunderEndsClean(key: string, n: int, funder: string)
    requires Free(FUNDER, key)
    ensures EndsClean(FUNDER, key + EXP + IntString(n), funder)
  {
    hide IntString;
    var num := IntString(n);
    IntHasNoColon(n);
    var t := key + EXP + num + FUNDER + funder;
    forall i: nat | i < |key + EXP + num| ensures !Occurs(FUNDER, t, i) {
      if i < |key| {
        assert t == key + (EXP + num + FUNDER + funder);
        NoEarlyOccurrence(FUNDER, key, EXP + num + FUNDER + funder, i);
      } else if i == |key| {
        assert t[i + 1] == 'e' && FUNDER[1] == 'f';
        SecondLetter(FUNDER, t, i);
      } else {
        assert t[i] == (EXP + num)[i - |key|];
        NoColonNoSep(FUNDER, t, i);
      }
    }
  }

  /** A later expiry mark lies behind the funder mark. */
  lemma ExpLiesBehind(num: string, funder: string)
    requires forall i | 0 <= i < |num| :: num[i] != ':'
    ensures Find(EXP, num + FUNDER + funder) >= |num| + |FUNDER|
  {
    var t := num + FUNDER + funder;
    forall i: nat | i < |num| + |FUNDER| ensures !Occurs(EXP, t, i) {
      if i == |num| {
        assert t[i + 1] == 'f' && EXP[1] == 'e';
        SecondLetter(EXP, t, i);
      } else {
        assert t[i] == (num + FUNDER)[i];
        NoColonNoSep(EXP, t, i);
      }
    }
  }

  lemma NumberFree(n: int)
    ensures Free(FUNDER, IntString(n))
  {
    IntHasNoColon(n);
    forall i: nat ensures !Occurs(FUNDER, IntString(n), i) {
      if i < |IntString(n)| {
        NoColonNoSep(FUNDER, IntString(n), i);
      }
    }
  }

  lemma FundingRoundTrip(key: string, expires: int, funder: string)
    requires Free(EXP, key) && Free(FUNDER, key) && Free(FUNDER, funder)
    ensures ReadMemo(MemoText(Funded(key, expires, funder))) == Funded(key, expires, funder)
  {
    hide Find, IntString, ReadInt, Free, EndsClean;
    var num := IntString(expires);
    var rest := key + EXP + num + FUNDER + funder;
    var text := MemoText(Funded(key, expires, funder));
    assert text == FUND + rest && text[|FUND|..] == rest;
    assert FUND <= text && text[0] == 'e';
    IntRoundTrip(expires);
    KeyReads(key, num, funder);
    ExpiryReads(key, expires, funder);
    FunderEndsClean(key, expires, funder);
    HeadIs(FUNDER, key + EXP + num, funder);
    HeadOfFree(FUNDER, funder);
  }

  lemma KeyReads(key: string, num: string, funder: string)
    requires Free(EXP, key)
    ensures Head(EXP, key + EXP + num + FUNDER + funder) == key
    ensures Find(EXP, key + EXP + num + FUNDER + funder) == |key|
    ensures (key + EXP + num + FUNDER + funder)[|key| + |EXP|..] == num + FUNDER + funder
  {
    FreeEndsClean(EXP, key, num + FUNDER + funder);
    assert key + EXP + (num + FUNDER + funder) == key + EXP + num + FUNDER + funder;
    HeadIs(EXP, key, num + FUNDER + funder);
  }

  lemma ExpiryReads(key: string, n: int, funder: string)
    requires Free(EXP, key)
    ensures Head(FUNDER, Second(EXP, key + EXP + IntString(n) + FUNDER + funder)) == IntString(n)
  {
    hide Find, IntString, Free, EndsClean;
    var num := IntString(n);
    KeyReads(key, num, funder);
    IntHasNoColon(n);
    ExpLiesBehind(num, funder);
    var t := num + FUNDER + funder;
    var j := Find(EXP, t) - |num| - |FUNDER|;
    assert t[..Find(EXP, t)] == num + FUNDER + funder[..j];
    NumberFree(n);
    FreeEndsClean(FUNDER, num, funder[..j]);
    HeadIs(FUNDER, num, funder[..j]);
  }

  /** A text that none of the four prefixes opens is read as nothing of interest. */
  ghost predicate Unmarked(text: string) {
    !(SETTLE <= text) && !(INTEL <= text) && !(FUND <= text) && !(REFUND <= text)
  }

  ghost predicate Readable(m: Memo) {
    match m
    case Funded(key, _, funder) => Free(EXP, key) && Free(FUNDER, key) && Free(FUNDER, funder)
    case Other(text) => Unmarked(text)
    case _ => true
  }

  /** What the sweep reads from a memo is what was written, if no key holds a mark. */
  lemma MemoRoundTrip(m: Memo)
    requires Readable(m)
    ensures ReadMemo(MemoText(m)) == m
  {
    hide Find, IntString, ReadInt, Free;
    match m {
      case Settled(sha) => assert MemoText(m)[|SETTLE|..] == sha;
      case IntelSettled(sha) => assert MemoText(m)[0] == 'i' && MemoText(m)[|INTEL|..] == sha;
      case Funded(key, expires, funder) => FundingRoundTrip(key, expires, funder);
      case Refunded(key) =>
        assert MemoText(m)[0] == 'e' && MemoText(m)[7] == 'r' && FUND[7] == 'f';
        assert MemoText(m)[|REFUND|..] == key;
      case Other(_) =>
    }
  }

  /** Which texts count as a settlement, an intelligence settlement, a funding or a refund, and of what. */
  lemma MemoReads(text: string, sha: string)
    ensures ReadMemo(text) == Settled(sha) <==> text == "settle:quote:" + sha
    ensures ReadMemo(text) == IntelSettled(sha) <==> text == "intel:quote:" + sha
    ensures ReadMemo(text) == Refunded(sha) <==> text == "escrow-refund:" + sha
    ensures ReadMemo(text).Funded? <==> "escrow-fund:" <= text
  {
    hide Head, Second, ReadInt;
    Opens("settle:quote:", text, sha);
    Opens("intel:quote:", text, sha);
    Opens("escrow-refund:", text, sha);
    Clash("settle:quote:", "intel:quote:", text, 0);
    Clash("settle:quote:", "escrow-fund:", text, 0);
    Clash("settle:quote:", "escrow-refund:", text, 0);
    Clash("intel:quote:", "escrow-fund:", text, 0);
    Clash("intel:quote:", "escrow-refund:", text, 0);
    Clash("escrow-fund:", "escrow-refund:", text, 7);
  }

  lemma Opens(mark: string, text: string, rest: string)
    ensures text == mark + rest <==> mark <= text && text[|mark|..] == rest
  {
    if mark <= text {
      assert text == mark + text[|mark|..];
    }
  }

  lemma Clash(a: string, b: string, text: string, i: nat)
    requires i < |a| && i < |b| && a[i] != b[i]
    ensures !(a <= text && b <= text)
  {
  }
}
