/**
  The JSONL ledger file (infra/cwp/ledger.py): finding the tip by a backward read, healing a torn tail, linking and
  appending. The file is a byte string; a line is committed once its newline is written.
 */
module LedgerFile {
  import opened Prelude
  import opened Encoding
  import opened Json
  import opened Chain
  import opened StoredForm

  const NEWLINE: byte := 10
  const WINDOW := 65536

  ghost predicate NoNewline(s: Bytes)
  {
    forall i | 0 <= i < |s| :: s[i] != NEWLINE
  }

  /** rfind of the newline before position end: its last place there, or -1. */
  function RFind(s: Bytes, end: nat): (i: int)
    requires end <= |s|
    ensures -1 <= i < end
  {
    if end == 0 then -1 else if s[end - 1] == NEWLINE then end - 1 else RFind(s, end - 1)
  }

  lemma {:induction false} RFindLast(s: Bytes, end: nat)
    requires end <= |s|
    ensures RFind(s, end) >= 0 ==> s[RFind(s, end)] == NEWLINE
    ensures forall k | RFind(s, end) < k < end :: s[k] != NEWLINE
  {
    if end > 0 && s[end - 1] != NEWLINE {
      RFindLast(s, end - 1);
    }
  }

  lemma {:induction false} RFindIs(s: Bytes, end: nat, i: int)
    requires end <= |s| && -1 <= i < end && (i >= 0 ==> s[i] == NEWLINE)
    requires forall k | i < k < end :: s[k] != NEWLINE
    ensures RFind(s, end) == i
  {
    if i < end - 1 {
      RFindIs(s, end - 1, i);
    }
  }

  /** Position of the first newline, or the length. */
  function Find(s: Bytes): (i: nat)
    ensures i <= |s| && NoNewline(s[..i])
    ensures i < |s| ==> s[i] == NEWLINE
  {
    if s == [] || s[0] == NEWLINE then 0
    else
      var i := Find(s[1..]);
      assert s[..i + 1] == [s[0]] + s[1..][..i];
      i + 1
  }

  /** The newline-terminated lines, by a scan of the whole file; what follows the last newline is torn. */
  function Lines(file: Bytes): seq<Bytes>
  {
    var i := Find(file);
    if i == |file| then [] else [file[..i]] + Lines(file[i + 1..])
  }

  /** Where the torn bytes begin. */
  function CleanEnd(file: Bytes): (n: nat)
    ensures n <= |file|
  {
    RFind(file, |file|) + 1
  }

  /** Empty, or ending in a newline. */
  ghost predicate Clean(file: Bytes)
  {
    file == [] || file[|file| - 1] == NEWLINE
  }

  lemma {:induction false} FindSplits(line: Bytes, rest: Bytes)
    requires NoNewline(line)
    ensures Find(line + [NEWLINE] + rest) == |line|
  {
    var s := line + [NEWLINE] + rest;
    if line != [] {
      assert s[1..] == line[1..] + [NEWLINE] + rest;
      assert line[0] != NEWLINE;
      FindSplits(line[1..], rest);
    }
  }

  lemma {:induction false} FindNothing(s: Bytes)
    requires NoNewline(s)
    ensures Find(s) == |s|
  {
    if s != [] {
      assert s[0] != NEWLINE;
      FindNothing(s[1..]);
    }
  }

  lemma LinesStep(line: Bytes, rest: Bytes)
    requires NoNewline(line)
    ensures Lines(line + [NEWLINE] + rest) == [line] + Lines(rest)
  {
    var s := line + [NEWLINE] + rest;
    FindSplits(line, rest);
    assert s[..|line|] == line && s[|line| + 1..] == rest;
  }

  /** A nonempty clean file starts with a line. */
  lemma FirstLine(file: Bytes) returns (line: Bytes, rest: Bytes)
    requires Clean(file) && file != []
    ensures file == line + [NEWLINE] + rest && NoNewline(line) && Clean(rest)
  {
    var i := Find(file);
    assert file[|file| - 1] == NEWLINE && file[..|file|] == file;
    assert i < |file|;
    line, rest := file[..i], file[i + 1..];
    if rest != [] {
      assert rest[|rest| - 1] == file[|file| - 1];
    }
  }

  lemma Associate<T>(a: seq<T>, b: seq<T>, c: seq<T>)
    ensures a + b + c == a + (b + c)
  {
  }

  /** Lines of a clean prefix come first. */
  lemma {:induction false} LinesConcat(a: Bytes, b: Bytes)
    requires Clean(a)
    ensures Lines(a + b) == Lines(a) + Lines(b)
    decreases |a|
  {
    if a == [] {
      assert a + b == b;
    } else {
      hide Lines;
      var line, rest := FirstLine(a);
      LinesStep(line, rest);
      LinesStep(line, rest + b);
      LinesConcat(rest, b);
      Associate(line + [NEWLINE], rest, b);
      Associate([line], Lines(rest), Lines(b));
    }
  }

  lemma LinesOfTorn(torn: Bytes)
    requires NoNewline(torn)
    ensures Lines(torn) == []
  {
    FindNothing(torn);
  }

  lemma LinesOfOne(line: Bytes)
    requires NoNewline(line)
    ensures Lines(line + [NEWLINE]) == [line]
  {
    FindSplits(line, []);
    assert line + [NEWLINE] + [] == line + [NEWLINE];
    assert (line + [NEWLINE])[..|line|] == line && (line + [NEWLINE])[|line| + 1..] == [];
  }

  /** Appending a line to a clean file, with a torn fragment after it, adds exactly that line. */
  lemma LinesAppend(file: Bytes, line: Bytes, torn: Bytes)
    requires Clean(file) && NoNewline(line) && NoNewline(torn)
    ensures Lines(file + torn) == Lines(file)
    ensures Lines(file + (line + [NEWLINE]) + torn) == Lines(file) + [line]
  {
    LinesConcat(file, torn);
    LinesOfTorn(torn);
    LinesOfOne(line);
    LinesConcat(file, line + [NEWLINE]);
    LinesConcat(file + (line + [NEWLINE]), torn);
  }

  /** The part up to the last newline is clean and holds every line. */
  lemma CleanPart(file: Bytes)
    ensures var n := CleanEnd(file);
            && Clean(file[..n]) && NoNewline(file[n..])
            && Lines(file) == Lines(file[..n])
  {
    var n := CleanEnd(file);
    RFindLast(file, |file|);
    assert file == file[..n] + file[n..];
    LinesAppend(file[..n], [], file[n..]);
  }

  /** The bytes between the last two newlines. */
  ghost function LastLine(file: Bytes): Bytes
    requires CleanEnd(file) > 0
  {
    var last := CleanEnd(file) - 1;
    file[RFind(file, last) + 1..last]
  }

  lemma CutAt(file: Bytes, start: nat, last: nat)
    requires start <= last < |file| && file[last] == NEWLINE
    ensures file == file[..start] + (file[start..last] + [NEWLINE]) + file[last + 1..]
  {
  }

  lemma LastOfAppend(file: Bytes, line: Bytes, torn: Bytes)
    requires Clean(file) && NoNewline(line) && NoNewline(torn)
    ensures var lines := Lines(file + (line + [NEWLINE]) + torn); lines != [] && lines[|lines| - 1] == line
  {
    LinesAppend(file, line, torn);
  }

  lemma SlicesHaveNoNewline(file: Bytes, start: nat, last: nat)
    requires start <= last < |file|
    requires forall k | start <= k < last :: file[k] != NEWLINE
    requires forall k | last < k < |file| :: file[k] != NEWLINE
    requires start == 0 || file[start - 1] == NEWLINE
    ensures NoNewline(file[start..last]) && NoNewline(file[last + 1..]) && Clean(file[..start])
  {
  }

  lemma LastLineAt(file: Bytes, start: nat, last: nat)
    requires start <= last < |file| && file[last] == NEWLINE
    requires NoNewline(file[start..last]) && NoNewline(file[last + 1..]) && Clean(file[..start])
    ensures Lines(file) != [] && Lines(file)[|Lines(file)| - 1] == file[start..last]
  {
    hide Lines, NoNewline, Clean;
    LastOfAppend(file[..start], file[start..last], file[last + 1..]);
    CutAt(file, start, last);
  }

  /** It is the last line of the scan. */
  lemma LastLineIs(file: Bytes)
    requires CleanEnd(file) > 0
    ensures Lines(file) != [] && Lines(file)[|Lines(file)| - 1] == LastLine(file)
  {
    var last := CleanEnd(file) - 1;
    var start := RFind(file, last) + 1;
    hide Lines, RFind, NoNewline, Clean;
    RFindLast(file, |file|);
    RFindLast(file, last);
    SlicesHaveNoNewline(file, start, last);
    LastLineAt(file, start, last);
  }

  lemma NoLines(file: Bytes)
    requires CleanEnd(file) == 0
    ensures Lines(file) == []
  {
    RFindLast(file, |file|);
    LinesOfTorn(file);
  }

  // ----- reading the tip

  /** json.dumps(sort_keys=True) and json.loads, as far as the ledger relies on them. */
  datatype Codec = Codec(dumps: Link -> Bytes, loads: Bytes -> Option<Entry>) {
    /** A storable record reads back with its dicts sorted by key; its text holds no raw newline and is not blank. */
    ghost predicate Faithful() {
      forall l: Link | Storable(l) ::
        loads(dumps(l)) == Some(Dict(StoredRecord(l))) && NoNewline(dumps(l)) && !Blank(dumps(l))
    }
  }

  predicate Space(b: byte)
  {
    b == 32 || 9 <= b <= 13
  }

  /** bytes.strip() leaves nothing. */
  predicate Blank(s: Bytes)
  {
    forall i | 0 <= i < |s| :: Space(s[i])
  }

  /** The tip and the clean-end offset; Raised stands for a JSONDecodeError on the last line. */
  datatype Tail = Raised | Tail(tip: Option<Entry>, cleanEnd: nat)

  function Parsed(codec: Codec, line: Bytes, cleanEnd: nat): Tail
  {
    if Blank(line) then Tail(None, cleanEnd)
    else
      match codec.loads(line)
      case None => Raised
      case Some(e) => Tail(Some(e), cleanEnd)
  }

  /** What a scan of the whole file finds. */
  function TailOf(codec: Codec, file: Bytes): Tail
  {
    var lines := Lines(file);
    if lines == [] then Tail(None, 0) else Parsed(codec, lines[|lines| - 1], CleanEnd(file))
  }

  /** A last line of spaces, tabs, line breaks, vertical tabs and form feeds is no tip; any other is what it parses to. */
  lemma TailMeans(codec: Codec, file: Bytes, before: seq<Bytes>, last: Bytes)
    requires Lines(file) == before + [last]
    ensures if forall b | b in last :: b in {32, 9, 10, 11, 12, 13} then TailOf(codec, file) == Tail(None, CleanEnd(file))
            else match codec.loads(last)
                 case None => TailOf(codec, file) == Raised
                 case Some(e) => TailOf(codec, file) == Tail(Some(e), CleanEnd(file))
  {
    hide Lines, CleanEnd;
    assert (before + [last])[|before|] == last;
    if b :| b in last && b !in {32, 9, 10, 11, 12, 13} {
      var i :| 0 <= i < |last| && last[i] == b;
      assert !Space(last[i]);
    } else {
      assert forall i | 0 <= i < |last| :: last[i] in last;
    }
  }

  /** A newline found in a suffix is the last of the whole. */
  lemma RFindSuffix(file: Bytes, from: nat, end: nat)
    requires from + end <= |file| && RFind(file[from..], end) >= 0
    ensures RFind(file, from + end) == from + RFind(file[from..], end)
  {
    var j, chunk := RFind(file[from..], end), file[from..];
    RFindLast(chunk, end);
    forall k | from + j < k < from + end ensures file[k] != NEWLINE {
      assert file[k] == chunk[k - from];
    }
    RFindIs(file, from + end, from + j);
  }

  lemma SliceOfSuffix(file: Bytes, from: nat, lo: nat, hi: nat)
    requires lo <= hi && from + hi <= |file|
    ensures file[from..][lo..hi] == file[from + lo..from + hi]
  {
  }

  /** Once a window shows the last line's newline and the one before it, or reaches the start, it shows the last line. */
  lemma WindowShows(file: Bytes, from: nat)
    requires from <= |file|
    requires var chunk := file[from..]; RFind(chunk, |chunk|) >= 0
    ensures var chunk := file[from..];
            var last := RFind(chunk, |chunk|);
            var start := RFind(chunk, last);
            && CleanEnd(file) == from + last + 1
            && (start >= 0 || from == 0 ==> LastLine(file) == chunk[start + 1..last])
  {
    hide RFind;
    var chunk := file[from..];
    var last := RFind(chunk, |chunk|);
    var start := RFind(chunk, last);
    RFindSuffix(file, from, |chunk|);
    assert from + |chunk| == |file|;
    if start >= 0 {
      RFindSuffix(file, from, last);
      LastLineFrom(file, from + start, from + last);
      SliceOfSuffix(file, from, start + 1, last);
    } else if from == 0 {
      assert chunk == file;
      LastLineFrom(file, start, last);
    }
  }

  lemma LastLineFrom(file: Bytes, start: int, last: nat)
    requires CleanEnd(file) == last + 1 && RFind(file, last) == start
    ensures LastLine(file) == file[start + 1..last]
  {
  }

  /** What one window from the given place shows: the last line's place in it, or None if the window must widen. */
  method LookBack(file: Bytes, from: nat) returns (found: Option<(nat, nat)>)
    requires from < |file|
    ensures found.None? ==> from > 0 || CleanEnd(file) == 0
    ensures found.Some? ==>
              var (start, end) := found.value;
              && start <= end && from + end < |file|
              && CleanEnd(file) == from + end + 1
              && LastLine(file) == file[from..][start..end]
  {
    hide RFind, LastLine;
    var chunk := file[from..];
    var lastNl := RFind(chunk, |chunk|);
    if lastNl == -1 {
      assert from == 0 ==> chunk == file;
      return None;
    }
    WindowShows(file, from);
    var start := RFind(chunk, lastNl);
    if start == -1 && from > 0 {
      return None;
    }
    return Some((start + 1, lastNl));
  }

  /** The backward widening-window read finds what a scan of the whole file finds, whatever the line lengths. */
  method TailRecord(codec: Codec, file: Bytes) returns (tail: Tail)
    ensures tail == TailOf(codec, file)
  {
    hide CleanEnd, LastLine, Lines, Blank, Parsed;
    var size := |file|;
    if size == 0 {
      NoEnd(file);
      return Tail(None, 0);
    }
    var window := if size < WINDOW then size else WINDOW;
    while true
      invariant 0 < window <= size
      decreases size - window
    {
      var found := LookBack(file, size - window);
      if found.Some? {
        var (start, end) := found.value;
        LastLineIs(file);
        return Parsed(codec, file[size - window..][start..end], size - window + end + 1);
      }
      if window >= size {
        NoLines(file);
        return Tail(None, 0);
      }
      window := if size < window * 4 then size else window * 4;
    }
  }

  lemma NoEnd(file: Bytes)
    requires file == []
    ensures Lines(file) == []
  {
  }

  // ----- linking and appending

  /** int(tip.get("seq", 0)); None where int() raises. */
  function TipSeq(tip: Entry): Option<int>
  {
    match Get(tip, "seq")
    case None => Some(0)
    case Some(Int(n)) => Some(n)
    case Some(Bool(b)) => Some(if b then 1 else 0)
    case _ => None
  }

  /** Python truthiness of what a line was parsed to. */
  predicate IsTruthy(e: Entry)
  {
    if e.Dict? then e.fields != map[] else Truthy(Some(e.v))
  }

  /** The linked record. A falsy tip counts as no tip; None where a truthy one is no dict or its seq is not a number. */
  function LinkRecord(digest: LinkDigest, tip: Option<Entry>, record: Link): Option<Link>
  {
    if tip.None? || !IsTruthy(tip.value) then Some(record["seq" := Int(0)]["prev" := Str(Hex(ZERO))])
    else if !tip.value.Dict? || TipSeq(tip.value).None? then None
    else Some(record["seq" := Int(TipSeq(tip.value).value + 1)]["prev" := Str(Hex(digest(LinkOf(tip.value))))])
  }

  /** The parsed lines that count as no tip. */
  ghost predicate Falsy(e: Entry)
  {
    e in {Dict(map[]), Other(Null), Other(Bool(false)), Other(Int(0)), Other(Float(Zero(true))), Other(Float(Zero(false))),
          Other(Str("")), Other(Arr([])), Other(Obj([]))}
  }

  /**
    What is linked, by the kind of the tip: where there is none to speak of, a first record with seq 0 and the zero
    digest; behind a dict, its digest and one more than its seq, which counts 0 if it is missing and 0 or 1 as a bool.
   */
  lemma LinkMeans(digest: LinkDigest, tip: Option<Entry>, record: Link)
    ensures tip.None? || Falsy(tip.value) ==>
              LinkRecord(digest, tip, record) == Some(record["seq" := Int(0)]["prev" := Str(SixtyFourZeros())])
    ensures tip.Some? && !Falsy(tip.value) && tip.value.Other? ==> LinkRecord(digest, tip, record) == None
    ensures tip.Some? && tip.value.Dict? && tip.value.fields != map[] ==>
              var fields := tip.value.fields;
              var prev := Str(Hex(digest(fields - {"prev"})));
              match (if "seq" in fields then fields["seq"] else Int(0))
              case Int(n) => LinkRecord(digest, tip, record) == Some(record["seq" := Int(n + 1)]["prev" := prev])
              case Bool(b) => LinkRecord(digest, tip, record) == Some(record["seq" := Int(if b then 2 else 1)]["prev" := prev])
              case _ => LinkRecord(digest, tip, record) == None
  {
    hide Hex;
    ZeroIsZeros();
  }

  function LineOf(codec: Codec, rec: Link): Bytes
  {
    codec.dumps(rec) + [NEWLINE]
  }

  class File {
    var data: Bytes

    constructor (data: Bytes)
      ensures this.data == data
    {
      this.data := data;
    }

    /** Write all of the line, however few bytes each write transfers. */
    method WriteAll(line: Bytes)
      modifies this
      ensures data == old(data) + line
    {
      var off := 0;
      while off < |line|
        invariant off <= |line|
        invariant data == old(data) + line[..off]
      {
        var n :| 1 <= n <= |line| - off;
        assert line[..off + n] == line[..off] + line[off..off + n];
        data := data + line[off..off + n];
        off := off + n;
      }
      assert line[..off] == line;
    }

    method HealAndAppend(line: Bytes, cleanEnd: nat)
      requires cleanEnd <= |data|
      modifies this
      ensures data == old(data)[..cleanEnd] + line
    {
      if cleanEnd < |data| {
        data := data[..cleanEnd];
      }
      assert data == old(data)[..cleanEnd];
      WriteAll(line);
    }

    /** None, with the file untouched, where reading or linking the tip raises. */
    method DurableAppend(codec: Codec, digest: LinkDigest, record: Link) returns (rec: Option<Link>)
      modifies this
      ensures var tail := TailOf(codec, old(data));
              && rec == (if tail.Raised? then None else LinkRecord(digest, tail.tip, record))
              && (rec.None? ==> data == old(data))
              && (rec.Some? ==> data == old(data)[..CleanEnd(old(data))] + LineOf(codec, rec.value))
    {
      var tail := TailRecord(codec, data);
      if tail.Raised? {
        return None;
      }
      rec := LinkRecord(digest, tail.tip, record);
      if rec.Some? {
        CleanEndOf(codec, data);
        HealAndAppend(LineOf(codec, rec.value), tail.cleanEnd);
      }
    }
  }

  lemma CleanEndOf(codec: Codec, file: Bytes)
    requires TailOf(codec, file).Tail?
    ensures TailOf(codec, file).cleanEnd == CleanEnd(file)
  {
    if CleanEnd(file) > 0 {
      LastLineIs(file);
    }
  }
}
