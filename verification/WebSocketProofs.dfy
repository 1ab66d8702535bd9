/** Frames arrive as they were sent, one after the other. */
module WebSocketProofs {
  import opened Prelude
  import opened WebSocket
  import Encoding

  lemma ExactlyFirst(a: Bytes, rest: Bytes)
    ensures Exactly(a + rest, |a|) == (Some(a), rest)
  {
    assert (a + rest)[..|a|] == a && (a + rest)[|a|..] == rest;
  }

  lemma Powers()
    ensures Power256(2) == 65536
  {
    assert Power256(1) == 256;
  }

  /** All three encodings of a length read back to it. */
  lemma LengthReads(n: nat, maskBit: byte, rest: Bytes)
    requires (maskBit == 0 || maskBit == 128) && n < Power256(8)
    ensures var bytes := LengthBytes(n, maskBit);
      && bytes[0] / 128 == maskBit / 128
      && ReadLength(bytes[1..] + rest, bytes[0] % 128) == (Some(n), rest)
  {
    hide Power256, FromBytes, ToBytes;
    var bytes := LengthBytes(n, maskBit);
    if n < 126 {
      assert bytes[1..] + rest == rest;
    } else {
      var k := if n < 65536 then 2 else 8;
      Powers();
      BytesRoundTrip(n, k);
      assert bytes[1..] == ToBytes(n, k);
      ExactlyFirst(ToBytes(n, k), rest);
    }
  }

  lemma HeaderReads(opcode: nat, n: nat, maskBit: byte, body: Bytes)
    requires opcode < 16 && (maskBit == 0 || maskBit == 128) && n < Power256(8)
    ensures var s := [128 + opcode] + LengthBytes(n, maskBit) + body;
      var h := [128 + opcode, LengthBytes(n, maskBit)[0]];
      && Exactly(s, 2) == (Some(h), LengthBytes(n, maskBit)[1..] + body)
      && h[0] % 16 == opcode && (h[1] >= 128 <==> maskBit == 128)
      && ReadLength(LengthBytes(n, maskBit)[1..] + body, h[1] % 128) == (Some(n), body)
  {
    hide LengthBytes, ReadLength, Power256;
    var len := LengthBytes(n, maskBit);
    LengthHead(n, maskBit);
    LengthReads(n, maskBit, body);
    var h: Bytes := [128 + opcode, len[0]];
    assert [128 + opcode] + len + body == h + (len[1..] + body) by {
      assert len == [len[0]] + len[1..];
    }
    ExactlyFirst(h, len[1..] + body);
  }

  lemma LengthHead(n: nat, maskBit: byte)
    requires maskBit == 0 || maskBit == 128
    ensures LengthBytes(n, maskBit) != []
  {
  }

  /** What a client frame is read as, and what is left to read: the frame itself exactly up to the cap. */
  lemma ClientFrameReads(f: Frame, mask: Mask, rest: Bytes, cap: nat)
    requires Writable(f)
    ensures |f.payload| <= cap ==> ServerReads(ClientBytes(f, mask) + rest, cap) == (Got(f), rest)
    ensures |f.payload| > cap ==> ServerReads(ClientBytes(f, mask) + rest, cap) == (Closing(), mask + Masked(f.payload, mask) + rest)
  {
    hide LengthBytes, ReadLength, Power256, Masked, Exactly;
    var masked := Masked(f.payload, mask);
    var body := mask + masked + rest;
    HeaderReads(f.opcode, |f.payload|, 128, body);
    assert ClientBytes(f, mask) + rest == [128 + f.opcode] + LengthBytes(|f.payload|, 128) + body;
    assert body == mask + (masked + rest);
    ExactlyFirst(mask, masked + rest);
    ExactlyFirst(masked, rest);
    MaskedTwice(f.payload, mask);
  }

  lemma ServerFrameReads(f: Frame, rest: Bytes)
    requires Writable(f)
    ensures ClientReads(ServerBytes(f) + rest) == (if f.opcode == CLOSE then Gone else Data(f.payload), rest)
  {
    hide LengthBytes, ReadLength, Power256, Exactly;
    HeaderReads(f.opcode, |f.payload|, 0, f.payload + rest);
    assert ServerBytes(f) + rest == [128 + f.opcode] + LengthBytes(|f.payload|, 0) + (f.payload + rest);
    ExactlyFirst(f.payload, rest);
  }

  // ---- streams ---------------------------------------------------------------------------------

  datatype Sent = Sent(frame: Frame, mask: Mask)

  function ClientStream(sent: seq<Sent>): Bytes
    requires forall x | x in sent :: Writable(x.frame)
  {
    if sent == [] then [] else ClientBytes(sent[0].frame, sent[0].mask) + ClientStream(sent[1..])
  }

  lemma ReadShrinks(s: Bytes, cap: nat)
    ensures ServerReads(s, cap).0.Got? ==> |ServerReads(s, cap).1| < |s|
  {
  }

  /** What the session loop sees: frames until the end, or up to and with the first close. */
  function Session(s: Bytes, cap: nat): seq<Frame>
    decreases |s|
  {
    var (r, rest) := ServerReads(s, cap);
    match r
    case Ended => []
    case Got(f) =>
      ReadShrinks(s, cap);
      [f] + if f.opcode == CLOSE then [] else Session(rest, cap)
  }

  /** The frames up to the first that is over the cap or a close; the first kind arrives as a close. */
  function Delivered(sent: seq<Sent>, cap: nat): seq<Frame> {
    if sent == [] then []
    else if |sent[0].frame.payload| > cap then [Frame(CLOSE, [])]
    else [sent[0].frame] + if sent[0].frame.opcode == CLOSE then [] else Delivered(sent[1..], cap)
  }

  /** A concatenation of client frames is read as exactly the frames that were sent, up to the first it cannot take. */
  lemma {:induction false} StreamIsDelivered(sent: seq<Sent>, cap: nat)
    requires forall x | x in sent :: Writable(x.frame)
    ensures Session(ClientStream(sent), cap) == Delivered(sent, cap)
  {
    hide ServerReads, ClientBytes;
    if sent == [] {
      assert ServerReads([], cap).0 == Ended by { NothingReads(cap); }
    } else {
      assert sent[0] in sent && forall x | x in sent[1..] :: x in sent;
      ClientFrameReads(sent[0].frame, sent[0].mask, ClientStream(sent[1..]), cap);
      StreamIsDelivered(sent[1..], cap);
    }
  }

  lemma NothingReads(cap: nat)
    ensures ServerReads([], cap).0 == Ended
  {
  }

  function Frames(sent: seq<Sent>): (fs: seq<Frame>)
    ensures |fs| == |sent| && forall i | 0 <= i < |sent| :: fs[i] == sent[i].frame
  {
    seq(|sent|, i requires 0 <= i < |sent| => sent[i].frame)
  }

  /** When no close is sent, all frames arrive exactly when all are within the cap, whatever the masks. */
  lemma AllArriveWithinCap(sent: seq<Sent>, cap: nat)
    requires forall x | x in sent :: Writable(x.frame) && x.frame.opcode != CLOSE
    ensures Session(ClientStream(sent), cap) == Frames(sent) <==> forall x | x in sent :: |x.frame.payload| <= cap
  {
    hide Session, ClientStream;
    StreamIsDelivered(sent, cap);
    AllDelivered(sent, cap);
  }

  lemma {:induction false} AllDelivered(sent: seq<Sent>, cap: nat)
    requires forall x | x in sent :: x.frame.opcode != CLOSE
    ensures Delivered(sent, cap) == Frames(sent) <==> forall x | x in sent :: |x.frame.payload| <= cap
  {
    if sent != [] {
      var rest := sent[1..];
      assert sent[0] in sent && forall x :: x in sent <==> x == sent[0] || x in rest;
      AllDelivered(rest, cap);
      assert Frames(sent) == [sent[0].frame] + Frames(rest);
      if |sent[0].frame.payload| <= cap {
        assert Delivered(sent, cap) == [sent[0].frame] + Delivered(rest, cap);
        assert Delivered(sent, cap)[1..] == Delivered(rest, cap) && Frames(sent)[1..] == Frames(rest);
      } else {
        assert Delivered(sent, cap)[0].opcode == CLOSE;
      }
    }
  }

  function ServerStream(frames: seq<Frame>): Bytes
    requires forall f | f in frames :: Writable(f)
  {
    if frames == [] then [] else ServerBytes(frames[0]) + ServerStream(frames[1..])
  }

  /** The first k reads of the client. */
  function ClientReadsAll(s: Bytes, k: nat): seq<Text>
    decreases k
  {
    if k == 0 then [] else [ClientReads(s).0] + ClientReadsAll(ClientReads(s).1, k - 1)
  }

  function Told(frames: seq<Frame>): (out: seq<Text>)
    ensures |out| == |frames| && forall i | 0 <= i < |frames| :: out[i] == Data(frames[i].payload)
  {
    seq(|frames|, i requires 0 <= i < |frames| => Data(frames[i].payload))
  }

  /** Every server frame that is no close is read whole and in order. */
  lemma {:induction false} RepliesArrive(frames: seq<Frame>)
    requires forall f | f in frames :: Writable(f) && f.opcode != CLOSE
    ensures ClientReadsAll(ServerStream(frames), |frames|) == Told(frames)
  {
    hide ClientReads, ServerBytes, Power256;
    if frames != [] {
      assert frames[0] in frames && forall f | f in frames[1..] :: f in frames;
      ServerFrameReads(frames[0], ServerStream(frames[1..]));
      RepliesArrive(frames[1..]);
      assert Told(frames) == [Data(frames[0].payload)] + Told(frames[1..]);
    }
  }

  function TextFrames(texts: seq<string>): (frames: seq<Frame>)
    ensures |frames| == |texts| && forall i | 0 <= i < |texts| :: frames[i] == Frame(1, Encoding.Utf8(texts[i]))
  {
    seq(|texts|, i requires 0 <= i < |texts| => Frame(1, Encoding.Utf8(texts[i])))
  }

  ghost predicate Sendable(texts: seq<string>) {
    forall t | t in texts :: |Encoding.Utf8(t)| < Power256(8)
  }

  lemma TextsAreWritable(texts: seq<string>)
    requires Sendable(texts)
    ensures forall f | f in TextFrames(texts) :: Writable(f) && f.opcode != CLOSE
  {
    hide Power256, Encoding.Utf8;
    forall f | f in TextFrames(texts) ensures Writable(f) && f.opcode != CLOSE {
      var i :| 0 <= i < |texts| && TextFrames(texts)[i] == f;
      assert texts[i] in texts;
    }
  }

  /** What a client reads of replies that carry the texts. */
  function ReadReplies(texts: seq<string>): seq<Text>
    requires Sendable(texts)
  {
    TextsAreWritable(texts);
    ClientReadsAll(ServerStream(TextFrames(texts)), |texts|)
  }

  /** What the client reads determines the texts: two lists of replies that read alike are the same list. */
  lemma RepliesTellTheTexts(texts: seq<string>, others: seq<string>)
    requires Sendable(texts) && Sendable(others) && |texts| == |others|
    requires ReadReplies(texts) == ReadReplies(others)
    ensures texts == others
  {
    hide ClientReadsAll, ServerStream, Encoding.Utf8, Told, TextFrames, Writable;
    TextsAreWritable(texts);
    TextsAreWritable(others);
    RepliesArrive(TextFrames(texts));
    RepliesArrive(TextFrames(others));
    forall i | 0 <= i < |texts| ensures texts[i] == others[i] {
      assert Told(TextFrames(texts))[i] == Told(TextFrames(others))[i];
      Utf8Injective(texts[i], others[i]);
    }
  }

  lemma Utf8Injective(s: string, t: string)
    requires Encoding.Utf8(s) == Encoding.Utf8(t)
    ensures s == t
  {
    Encoding.Utf8PrefixFree();
    Encoding.EncodeInjective(Encoding.Utf8Char, s, t);
  }

  /** A frame without a mask reads as itself exactly if it is no data frame and within the cap, and else as a close. */
  lemma UnmaskedFrameReads(f: Frame, rest: Bytes, cap: nat)
    requires Writable(f)
    ensures ServerReads(ServerBytes(f) + rest, cap)
         == if f.opcode > 2 && |f.payload| <= cap then (Got(f), rest) else (Closing(), f.payload + rest)
  {
    hide LengthBytes, ReadLength, Power256, Exactly;
    HeaderReads(f.opcode, |f.payload|, 0, f.payload + rest);
    assert ServerBytes(f) + rest == [128 + f.opcode] + LengthBytes(|f.payload|, 0) + (f.payload + rest);
    ExactlyFirst(f.payload, rest);
  }

  // ---- the bytes on the wire -------------------------------------------------------------------

  /** Bit k of a number. */
  function Bit(n: nat, k: nat): nat {
    if k == 0 then n % 2 else Bit(n / 2, k - 1)
  }

  /** Exclusive or, bit by bit: set exactly where the two differ. */
  lemma {:induction false} XorBits(a: nat, b: nat, k: nat)
    ensures Bit(Xor(a, b), k) == if Bit(a, k) == Bit(b, k) then 0 else 1
    decreases k
  {
    var x := Xor(a, b);
    assert x / 2 == Xor(a / 2, b / 2) && x % 2 == if a % 2 == b % 2 then 0 else 1;
    if k > 0 {
      XorBits(a / 2, b / 2, k - 1);
    }
  }

  /** Each byte of a masked payload differs from the byte sent in exactly the bits of one of the four mask bytes, in turn. */
  lemma MaskedBits(data: Bytes, mask: Mask, i: nat, k: nat)
    requires i < |data|
    ensures |Masked(data, mask)| == |data|
    ensures Bit(Masked(data, mask)[i], k) == if Bit(data[i], k) == Bit(mask[i % 4], k) then 0 else 1
  {
    XorBits(data[i], mask[i % 4], k);
  }

  /** Four bytes of s from k on, highest byte first. */
  function Word(s: Bytes, k: nat): nat
    requires k + 4 <= |s|
  {
    0x100_0000 * (s[k] as nat) + 0x1_0000 * (s[k + 1] as nat) + 0x100 * (s[k + 2] as nat) + s[k + 3]
  }

  /** A header for a payload of n bytes: FIN and the opcode alone in the first byte, then the length, highest byte first. */
  ghost predicate HeaderIs(h: Bytes, opcode: nat, maskBit: nat, n: nat) {
    && h != [] && h[0] == 128 + opcode
    && if n < 126 then |h| == 2 && h[1] == maskBit + n
       else if n < 65536 then |h| == 4 && h[1] == maskBit + 126 && n == 256 * (h[2] as int) + h[3]
       else |h| == 10 && h[1] == maskBit + 127
            && n == 0x1_00000000 * Word(h, 2) + Word(h, 6)
  }

  lemma LengthIs(opcode: nat, n: nat, maskBit: byte)
    requires opcode < 16 && (maskBit == 0 || maskBit == 128) && n < Power256(8)
    ensures HeaderIs([128 + opcode] + LengthBytes(n, maskBit), opcode, maskBit, n)
  {
    if 126 <= n < 65536 {
      TwoBytes(n);
    } else if n >= 65536 {
      EightBytes(n);
    }
  }

  lemma TwoBytes(n: nat)
    requires n < 65536
    ensures ToBytes(n, 2) == [n / 256, n % 256]
  {
    assert ToBytes(n / 256, 1) == ToBytes(n / 256 / 256, 0) + [n / 256 % 256];
  }

  lemma FourBytes(n: nat, k: nat)
    ensures var s := ToBytes(n, k + 4);
      && s[..k] == ToBytes(n / 0x1_00000000, k)
      && Word(s, k) == n % 0x1_00000000
  {
    var a, b, c, d := n, n / 256, n / 256 / 256, n / 256 / 256 / 256;
    assert ToBytes(a, k + 4) == ToBytes(b, k + 3) + [a % 256];
    assert ToBytes(b, k + 3) == ToBytes(c, k + 2) + [b % 256];
    assert ToBytes(c, k + 2) == ToBytes(d, k + 1) + [c % 256];
    assert ToBytes(d, k + 1) == ToBytes(d / 256, k) + [d % 256];
    assert d / 256 == n / 0x1_00000000;
    assert ToBytes(n, k + 4)[..k] == ToBytes(d / 256, k);
  }

  lemma EightBytes(n: nat)
    requires n < Power256(8)
    ensures n == 0x1_00000000 * Word(ToBytes(n, 8), 0) + Word(ToBytes(n, 8), 4)
  {
    FourBytes(n, 4);
    FourBytes(n / 0x1_00000000, 0);
    assert ToBytes(n, 8)[..4] == ToBytes(n / 0x1_00000000, 4);
    Power256Is();
    assert n / 0x1_00000000 < 0x1_00000000;
  }

  lemma Power256Is()
    ensures Power256(8) == 0x1_00000000_00000000
  {
    assert Power256(2) == 65536 by { Powers(); }
    assert Power256(4) == 65536 * 65536;
  }

  /** A client frame byte by byte: final, of its opcode, masked, its length in the shortest form, the mask, the masked payload. */
  lemma ClientFrameIs(f: Frame, mask: Mask)
    requires Writable(f)
    ensures var n, out := |f.payload|, ClientBytes(f, mask);
      var k := if n < 126 then 2 else if n < 65536 then 4 else 10;
      && |out| == k + 4 + n && HeaderIs(out[..k], f.opcode, 128, n) && out[k..k + 4] == mask
      && forall i, b: nat | 0 <= i < n :: Bit(out[k + 4 + i], b) == if Bit(f.payload[i], b) == Bit(mask[i % 4], b) then 0 else 1
  {
    hide Xor, Bit, Power256, LengthBytes, HeaderIs;
    var n, out := |f.payload|, ClientBytes(f, mask);
    var k := if n < 126 then 2 else if n < 65536 then 4 else 10;
    var head, masked := [128 + f.opcode] + LengthBytes(n, 128), Masked(f.payload, mask);
    LengthIs(f.opcode, n, 128);
    LengthLength(n, 128);
    assert out == head + mask + masked && |head| == k && |masked| == n;
    ThreeParts(head, mask, masked);
    hide *;
    forall i, b: nat | 0 <= i < n ensures Bit(out[k + 4 + i], b) == if Bit(f.payload[i], b) == Bit(mask[i % 4], b) then 0 else 1 {
      MaskedBits(f.payload, mask, i, b);
    }
  }

  lemma ThreeParts(a: Bytes, b: Bytes, c: Bytes)
    ensures var s, k := a + b + c, |a| + |b|;
      s[..|a|] == a && s[|a|..k] == b && forall i | 0 <= i < |c| :: s[k + i] == c[i]
  {
    var s := a + b + c;
    assert s[..|a|] == a && s[|a|..|a| + |b|] == b;
  }

  lemma LengthLength(n: nat, maskBit: byte)
    requires maskBit == 0 || maskBit == 128
    ensures |LengthBytes(n, maskBit)| == if n < 126 then 1 else if n < 65536 then 3 else 9
  {
  }

  /** A server frame byte by byte: final, of its opcode, not masked, its length in the shortest form, the payload itself. */
  lemma ServerFrameIs(f: Frame)
    requires Writable(f)
    ensures var n, out := |f.payload|, ServerBytes(f);
      var k := if n < 126 then 2 else if n < 65536 then 4 else 10;
      |out| == k + n && HeaderIs(out[..k], f.opcode, 0, n) && out[k..] == f.payload
  {
    hide Power256, LengthBytes, HeaderIs;
    var n, out := |f.payload|, ServerBytes(f);
    var head := [128 + f.opcode] + LengthBytes(n, 0);
    LengthIs(f.opcode, n, 0);
    LengthLength(n, 0);
    assert out == head + f.payload;
    assert out[..|head|] == head;
  }

  /** A payload is writable exactly up to eight bytes of length. */
  lemma WritableMeans(f: Frame)
    ensures Writable(f) <==> f.opcode < 16 && |f.payload| < 0x1_00000000_00000000
  {
    Power256Is();
  }
}
