/** Reading the ledger file back: what a reader makes of the committed lines and of a torn tail. */
module LedgerReader {
  import opened Prelude
  import opened Json
  import opened Chain
  import opened StoredForm
  import opened LedgerFile
  import opened DurableLedger
  import opened DurableRuns

  /** Broken stands for the JSONDecodeError on a line that is not the last. */
  datatype Reading = Broken | Entries(entries: seq<Entry>, torn: bool)

  /** The bytes behind the last newline. */
  function TornTail(file: Bytes): Bytes {
    file[CleanEnd(file)..]
  }

  /** The pieces between newlines that are not blank; the torn tail is the last. */
  function Pieces(file: Bytes): seq<Bytes> {
    NotBlank(Lines(file) + [TornTail(file)])
  }

  function NotBlank(lines: seq<Bytes>): seq<Bytes> {
    if lines == [] then []
    else (if Blank(lines[0]) then [] else [lines[0]]) + NotBlank(lines[1..])
  }

  /** Only the last piece may fail to parse, and only if a torn tail is allowed. */
  function ReadPieces(codec: Codec, pieces: seq<Bytes>, allowTorn: bool): Reading {
    if pieces == [] then Entries([], false)
    else
      match codec.loads(pieces[0])
      case None => if allowTorn && |pieces| == 1 then Entries([], true) else Broken
      case Some(e) =>
        match ReadPieces(codec, pieces[1..], allowTorn)
        case Broken => Broken
        case Entries(es, torn) => Entries([e] + es, torn)
  }

  function Prepend(es: seq<Entry>, r: Reading): Reading {
    if r.Broken? then Broken else Entries(es + r.entries, r.torn)
  }

  /** The seq of the last entry that has one. */
  function LastValidSeq(entries: seq<Entry>): (seq': Option<int>)
    ensures seq'.None? <==> forall i | 0 <= i < |entries| :: SeqOf(entries[i]).None?
    ensures seq'.Some? ==> exists i :: 0 <= i < |entries| && SeqOf(entries[i]) == seq'
                                       && forall k | i < k < |entries| :: SeqOf(entries[k]).None?
  {
    if entries == [] then None
    else
      var last := entries[|entries| - 1];
      if SeqOf(last).Some? then SeqOf(last) else LastValidSeq(entries[..|entries| - 1])
  }

  /** The report on a torn tail: the last seq in front of it and the index of its piece. */
  datatype Truncation = Truncation(lastValidSeq: Option<int>, tornLine: nat)

  function Report(r: Reading): Option<Truncation>
  {
    if r.Entries? && r.torn then Some(Truncation(LastValidSeq(r.entries), |r.entries|)) else None
  }

  method ParseJsonl(codec: Codec, file: Bytes, allowTorn: bool) returns (r: Reading, truncation: Option<Truncation>)
    ensures r == ReadPieces(codec, Pieces(file), allowTorn) && truncation == Report(r)
  {
    var pieces := Pieces(file);
    var entries: seq<Entry> := [];
    var lastSeq: Option<int> := None;
    assert pieces[0..] == pieces;
    for i := 0 to |pieces|
      invariant |entries| == i && lastSeq == LastValidSeq(entries)
      invariant Prepend(entries, ReadPieces(codec, pieces[i..], allowTorn)) == ReadPieces(codec, pieces, allowTorn)
    {
      assert pieces[i..][1..] == pieces[i + 1..];
      match codec.loads(pieces[i]) {
        case None =>
          assert entries + [] == entries;
          if allowTorn && i == |pieces| - 1 {
            return Entries(entries, true), Some(Truncation(lastSeq, i));
          }
          return Broken, None;
        case Some(e) =>
          PrependOne(entries, e, ReadPieces(codec, pieces[i + 1..], allowTorn));
          assert (entries + [e])[..i] == entries;
          entries := entries + [e];
          if SeqOf(e).Some? {
            lastSeq := SeqOf(e);
          }
      }
    }
    assert entries + [] == entries;
    return Entries(entries, false), None;
  }

  lemma PrependOne(es: seq<Entry>, e: Entry, r: Reading)
    ensures Prepend(es, Prepend([e], r)) == Prepend(es + [e], r)
  {
    if r.Entries? {
      assert es + ([e] + r.entries) == es + [e] + r.entries;
    }
  }

  // ----- the reader and the healer

  /** Every line parses to a dict and is not blank. */
  ghost predicate Parsable(w: World, lines: seq<Bytes>) {
    forall i | 0 <= i < |lines| :: w.codec.loads(lines[i]) == Some(Dict(Decode(w.codec, lines)[i])) && !Blank(lines[i])
  }

  lemma ParsableTail(w: World, lines: seq<Bytes>)
    requires Parsable(w, lines) && lines != []
    ensures var rec := Decode(w.codec, lines)[0];
      && !Blank(lines[0]) && w.codec.loads(lines[0]) == Some(Dict(rec)) && Parsable(w, lines[1..])
      && Dicts(Decode(w.codec, lines)) == [Dict(rec)] + Dicts(Decode(w.codec, lines[1..]))
  {
    hide Blank;
    assert Decode(w.codec, lines[1..]) == Decode(w.codec, lines)[1..];
  }

  lemma {:induction false} ParsableAreNotBlank(w: World, lines: seq<Bytes>, last: Bytes)
    requires Parsable(w, lines)
    ensures NotBlank(lines + [last]) == lines + NotBlank([last])
  {
    hide Parsable, Blank;
    if lines == [] {
      assert [] + [last] == [last] && [] + NotBlank([last]) == NotBlank([last]);
    } else {
      ParsableTail(w, lines);
      ParsableAreNotBlank(w, lines[1..], last);
      assert (lines + [last])[1..] == lines[1..] + [last];
      assert lines == [lines[0]] + lines[1..];
    }
  }

  lemma {:induction false} ReadsParsable(w: World, lines: seq<Bytes>, rest: seq<Bytes>, allowTorn: bool)
    requires Parsable(w, lines)
    ensures ReadPieces(w.codec, lines + rest, allowTorn) == Prepend(Dicts(Decode(w.codec, lines)), ReadPieces(w.codec, rest, allowTorn))
  {
    hide Parsable, Decode;
    if lines == [] {
      assert [] + rest == rest;
    } else {
      ParsableTail(w, lines);
      ReadsParsable(w, lines[1..], rest, allowTorn);
      assert (lines + rest)[1..] == lines[1..] + rest;
      PrependOne([], Dict(Decode(w.codec, lines)[0]), Prepend(Dicts(Decode(w.codec, lines[1..])), ReadPieces(w.codec, rest, allowTorn)));
    }
  }

  lemma OnePiece(tail: Bytes)
    ensures NotBlank([tail]) == if Blank(tail) then [] else [tail]
  {
    var one: seq<Bytes> := [tail];
    assert one[1..] == [];
  }

  lemma OnePieceRead(codec: Codec, tail: Bytes)
    ensures ReadPieces(codec, [], true) == Entries([], false)
    ensures ReadPieces(codec, [tail], true) == match codec.loads(tail) case None => Entries([], true) case Some(e) => Entries([e], false)
  {
    var one: seq<Bytes> := [tail];
    assert one[1..] == [];
  }

  /**
    What a reader that allows a torn tail sees of a file the protocol keeps: every committed record, and behind them
    nothing, a report that the tail is torn, or, if only its newline is missing, one more entry.
   */
  lemma ReaderSeesCommitted(w: World, file: Bytes)
    requires FileOk(w, file)
    ensures var recs, tail := Dicts(Records(w, file)), TornTail(file);
      ReadPieces(w.codec, Pieces(file), true)
      == if Blank(tail) then Entries(recs, false)
         else match w.codec.loads(tail)
              case None => Entries(recs, true)
              case Some(e) => Entries(recs + [e], false)
  {
    hide Lines, CleanEnd, Accepted, SeqOf, Blank;
    var lines, tail := Lines(file), TornTail(file);
    assert Sound(w, lines) && Parsable(w, lines);
    ParsableAreNotBlank(w, lines, tail);
    ReadsParsable(w, lines, NotBlank([tail]), true);
    OnePiece(tail);
    OnePieceRead(w.codec, tail);
  }

  /** A reader that allows no torn tail sees the same, except that it raises where the tail does not parse. */
  lemma StrictReaderSees(w: World, file: Bytes)
    requires FileOk(w, file)
    ensures var tail := TornTail(file);
      ReadPieces(w.codec, Pieces(file), false)
      == if !Blank(tail) && w.codec.loads(tail).None? then Broken else ReadPieces(w.codec, Pieces(file), true)
  {
    hide Lines, CleanEnd, Accepted, SeqOf, Blank;
    var lines, tail := Lines(file), TornTail(file);
    assert Sound(w, lines) && Parsable(w, lines);
    ParsableAreNotBlank(w, lines, tail);
    ReadsParsable(w, lines, NotBlank([tail]), false);
    ReadsParsable(w, lines, NotBlank([tail]), true);
    OnePiece(tail);
    OnePieceStrict(w.codec, tail);
    OnePieceRead(w.codec, tail);
  }

  lemma OnePieceStrict(codec: Codec, tail: Bytes)
    ensures ReadPieces(codec, [], false) == Entries([], false)
    ensures ReadPieces(codec, [tail], false) == match codec.loads(tail) case None => Broken case Some(e) => Entries([e], false)
  {
    var one: seq<Bytes> := [tail];
    assert one[1..] == [];
  }

  /** A piece that does not parse and is not the last is corruption to every reader. */
  lemma {:induction false} CorruptionRaises(codec: Codec, pieces: seq<Bytes>, i: nat, allowTorn: bool)
    requires i + 1 < |pieces| && codec.loads(pieces[i]).None?
    ensures ReadPieces(codec, pieces, allowTorn) == Broken
  {
    if i > 0 && codec.loads(pieces[0]).Some? {
      CorruptionRaises(codec, pieces[1..], i - 1, allowTorn);
    }
  }

  /** And its report on a torn tail names the seq of the last committed record and their number. */
  lemma ReportOfTorn(w: World, file: Bytes)
    requires FileOk(w, file) && !Blank(TornTail(file)) && w.codec.loads(TornTail(file)).None?
    ensures var n := |Records(w, file)|;
      Report(ReadPieces(w.codec, Pieces(file), true)) == Some(Truncation(if n == 0 then None else Some(n - 1), n))
  {
    hide Lines, CleanEnd, Accepted, Blank, Pieces, ReadPieces, TornTail;
    ReaderSeesCommitted(w, file);
  }

  /** A record whose line lacks only its newline is shown to a reader, and dropped by the next append. */
  lemma UnterminatedIsReadThenDropped(w: World, base: Bytes, rec: Link, next: Link)
    requires w.Ok() && Clean(base) && FileOk(w, base) && Storable(rec) && Storable(next)
    ensures var file := base + w.codec.dumps(rec);
      && ReadPieces(w.codec, Pieces(file), true) == Entries(Dicts(Records(w, base)) + [Dict(StoredRecord(rec))], false)
      && TailOf(w.codec, file).Tail? && LinkRecord(w.digest, TailOf(w.codec, file).tip, next).Some?
      && var linked := LinkRecord(w.digest, TailOf(w.codec, file).tip, next).value;
         Records(w, file[..CleanEnd(file)] + LineOf(w.codec, linked)) == Records(w, base) + [StoredRecord(linked)]
  {
    var file := base + w.codec.dumps(rec);
    TornOk(w, base, w.codec.dumps(rec));
    LinesAppend(base, [], w.codec.dumps(rec));
    hide Lines, FileOk, LinkRecord, TailOf, CleanEnd, StoredRecord, Storable, Blank;
    TornTailIs(base, w.codec.dumps(rec));
    ReaderSeesCommitted(w, file);
    CallAddsOneRecord(w, file, next);
  }

  lemma TornTailIs(base: Bytes, torn: Bytes)
    requires Clean(base) && NoNewline(torn)
    ensures CleanEnd(base + torn) == |base| && TornTail(base + torn) == torn && Lines(base + torn) == Lines(base)
  {
    var file := base + torn;
    RFindIs(file, |file|, |base| - 1);
    LinesConcat(base, torn);
    LinesOfTorn(torn);
    assert Lines(base) + [] == Lines(base);
  }
}
