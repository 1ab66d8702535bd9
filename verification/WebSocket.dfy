/** Frames of RFC 6455, sections 5.2 and 5.3: what either end writes, and what the other end reads. */
module WebSocket {
  import opened Prelude

  const CLOSE := 8

  // ---- bits ------------------------------------------------------------------------------------

  /** Exclusive or, bit by bit from the low end. */
  function Xor(a: nat, b: nat): nat {
    if a == 0 && b == 0 then 0 else 2 * Xor(a / 2, b / 2) + (if a % 2 == b % 2 then 0 else 1)
  }

  lemma {:induction false} XorBelow(a: nat, b: nat, k: nat)
    requires a < Power(k) && b < Power(k)
    ensures Xor(a, b) < Power(k)
  {
    if a != 0 || b != 0 {
      XorBelow(a / 2, b / 2, k - 1);
    }
  }

  function Power(k: nat): nat {
    if k == 0 then 1 else 2 * Power(k - 1)
  }

  /** Masking twice is not masking. */
  lemma {:induction false} XorTwice(a: nat, b: nat)
    ensures Xor(Xor(a, b), b) == a
    decreases a + b
  {
    if a != 0 || b != 0 {
      XorTwice(a / 2, b / 2);
      var x := Xor(a, b);
      assert x / 2 == Xor(a / 2, b / 2) && x % 2 == if a % 2 == b % 2 then 0 else 1;
    }
  }

  function XorByte(a: byte, b: byte): byte {
    assert Power(8) == 256;
    XorBelow(a, b, 8);
    Xor(a, b)
  }

  type Mask = m: Bytes | |m| == 4 witness [0, 0, 0, 0]

  function Masked(data: Bytes, mask: Mask): (out: Bytes)
    ensures |out| == |data| && forall i | 0 <= i < |data| :: out[i] == XorByte(data[i], mask[i % 4])
  {
    seq<byte>(|data|, i requires 0 <= i < |data| => XorByte(data[i], mask[i % 4]))
  }

  lemma MaskedTwice(data: Bytes, mask: Mask)
    ensures Masked(Masked(data, mask), mask) == data
  {
    hide Xor;
    forall i | 0 <= i < |data| ensures Masked(Masked(data, mask), mask)[i] == data[i] {
      XorTwice(data[i], mask[i % 4]);
    }
  }

  // ---- big-endian lengths ----------------------------------------------------------------------

  function ToBytes(n: nat, k: nat): (out: Bytes)
    ensures |out| == k
  {
    if k == 0 then [] else ToBytes(n / 256, k - 1) + [n % 256]
  }

  function FromBytes(s: Bytes): nat {
    if s == [] then 0 else 256 * FromBytes(s[..|s| - 1]) + s[|s| - 1]
  }

  function Power256(k: nat): nat {
    if k == 0 then 1 else 256 * Power256(k - 1)
  }

  lemma {:induction false} BytesRoundTrip(n: nat, k: nat)
    requires n < Power256(k)
    ensures FromBytes(ToBytes(n, k)) == n
  {
    if k > 0 {
      BytesRoundTrip(n / 256, k - 1);
      var s := ToBytes(n, k);
      assert s[..|s| - 1] == ToBytes(n / 256, k - 1) && s[|s| - 1] == n % 256;
    }
  }

  /** The length field, after the second header byte whose top bit says whether a mask follows. */
  function LengthBytes(n: nat, maskBit: byte): Bytes
    requires maskBit == 0 || maskBit == 128
  {
    if n < 126 then [maskBit + n]
    else if n < 65536 then [maskBit + 126] + ToBytes(n, 2)
    else [maskBit + 127] + ToBytes(n, 8)
  }

  // ---- what is written -------------------------------------------------------------------------

  datatype Frame = Frame(opcode: nat, payload: Bytes)

  /** One opcode, and a length that eight bytes hold. */
  predicate Writable(f: Frame) {
    f.opcode < 16 && |f.payload| < Power256(8)
  }

  function ClientBytes(f: Frame, mask: Mask): Bytes
    requires Writable(f)
  {
    [128 + f.opcode] + LengthBytes(|f.payload|, 128) + mask + Masked(f.payload, mask)
  }

  function ServerBytes(f: Frame): Bytes
    requires Writable(f)
  {
    [128 + f.opcode] + LengthBytes(|f.payload|, 0) + f.payload
  }

  // ---- what is read ----------------------------------------------------------------------------

  /** A read that is answered in pieces is complete, or the stream ended first and the rest is lost. */
  function Exactly(s: Bytes, n: nat): (Option<Bytes>, Bytes) {
    if n <= |s| then (Some(s[..n]), s[n..]) else (None, [])
  }

  datatype Received = Ended | Got(frame: Frame)

  function Closing(): Received {
    Got(Frame(CLOSE, []))
  }

  /** The payload length, or None when the extended length is cut off; with the stream behind it. */
  function ReadLength(s: Bytes, short: nat): (Option<nat>, Bytes) {
    if short == 126 || short == 127 then
      var (ext, rest) := Exactly(s, if short == 126 then 2 else 8);
      (if ext.Some? then Some(FromBytes(ext.value)) else None, rest)
    else (Some(short), s)
  }

  /** The server's reader: every malformed, unmasked, oversized or cut frame reads as a close. */
  function ServerReads(s: Bytes, cap: nat): (Received, Bytes) {
    var (h, s1) := Exactly(s, 2);
    if h.None? then (Ended, s1)
    else
      var opcode, masked, short := h.value[0] % 16, h.value[1] >= 128, h.value[1] % 128;
      var (len, s2) := ReadLength(s1, short);
      if len.None? || len.value > cap || (!masked && opcode <= 2) then (Closing(), s2)
      else
        var (mask, s3) := if masked then Exactly(s2, 4) else (Some([0, 0, 0, 0]), s2);
        if mask.None? then (Closing(), s3)
        else
          var (data, s4) := Exactly(s3, len.value);
          if data.None? then (Closing(), s4)
          else (Got(Frame(opcode, if masked then Masked(data.value, mask.value) else data.value)), s4)
  }

  datatype Text = Gone | Broken | Data(bytes: Bytes)

  /** The client's reader: nothing after a close or at the end, broken when the extended length is cut, else the data. */
  function ClientReads(s: Bytes): (Text, Bytes) {
    var (h, s1) := Exactly(s, 2);
    if h.None? then (Gone, s1)
    else
      var opcode, short := h.value[0] % 16, h.value[1] % 128;
      var (len, s2) := ReadLength(s1, short);
      if len.None? then (Broken, s2)
      else
        var (data, s3) := Exactly(s2, len.value);
        if opcode == CLOSE then (Gone, s3) else (Data(if data.Some? then data.value else []), s3)
  }

  // ---- the loops -------------------------------------------------------------------------------

  class Stream {
    var rest: Bytes

    constructor (content: Bytes)
      ensures rest == content
    {
      rest := content;
    }

    /** A read answers with any non-empty part of what was asked for, and with nothing only at the end. */
    method Read(n: nat) returns (chunk: Bytes)
      requires n > 0
      modifies this
      ensures |chunk| <= n && old(rest) == chunk + rest && (chunk == [] <==> old(rest) == [])
    {
      if rest == [] {
        return [];
      }
      var k :| 1 <= k <= n && k <= |rest|;
      chunk := rest[..k];
      rest := rest[k..];
    }

    method ReadExact(n: nat) returns (r: Option<Bytes>)
      modifies this
      ensures (r, rest) == Exactly(old(rest), n)
    {
      var buf: Bytes := [];
      while |buf| < n
        invariant |buf| <= n && old(rest) == buf + rest
        decreases n - |buf|
      {
        var chunk := Read(n - |buf|);
        if chunk == [] {
          assert old(rest) == buf;
          return None;
        }
        assert buf + (chunk + rest) == (buf + chunk) + rest;
        buf := buf + chunk;
      }
      return Some(buf);
    }

    method ReadExtended(short: nat) returns (len: Option<nat>)
      modifies this
      ensures (len, rest) == ReadLength(old(rest), short)
    {
      if short == 126 {
        var ext := ReadExact(2);
        return if ext.Some? then Some(FromBytes(ext.value)) else None;
      }
      if short == 127 {
        var ext := ReadExact(8);
        return if ext.Some? then Some(FromBytes(ext.value)) else None;
      }
      return Some(short);
    }

    /** ws_recv */
    method ServerReceive(cap: nat) returns (r: Received)
      modifies this
      ensures (r, rest) == ServerReads(old(rest), cap)
    {
      hide FromBytes, XorByte;
      var h := ReadExact(2);
      if h.None? {
        return Ended;
      }
      var opcode, masked, short := h.value[0] % 16, h.value[1] >= 128, h.value[1] % 128;
      var len := ReadExtended(short);
      if len.None? || len.value > cap {
        return Closing();
      }
      if !masked && opcode <= 2 {
        return Closing();
      }
      var mask: Option<Bytes> := Some([0, 0, 0, 0]);
      if masked {
        mask := ReadExact(4);
      }
      if mask.None? {
        return Closing();
      }
      var data := ReadExact(len.value);
      if data.None? {
        return Closing();
      }
      var payload := data.value;
      if masked {
        var buffer := new byte[|payload|](i requires 0 <= i < |payload| => payload[i]);
        assert buffer[..] == payload;
        Unmask(buffer, mask.value);
        payload := buffer[..];
      }
      return Got(Frame(opcode, payload));
    }

    /** The client's _ws_recv, up to the decoding of the text. */
    method ClientReceive() returns (t: Text)
      modifies this
      ensures (t, rest) == ClientReads(old(rest))
    {
      hide FromBytes;
      var h := ReadExact(2);
      if h.None? {
        return Gone;
      }
      var len := ReadExtended(h.value[1] % 128);
      if len.None? {
        return Broken;
      }
      var data := ReadExact(len.value);
      if h.value[0] % 16 == CLOSE {
        return Gone;
      }
      return Data(if data.Some? then data.value else []);
    }
  }

  /** Unmasks a buffer in place. */
  method Unmask(data: array<byte>, mask: Bytes)
    requires |mask| == 4
    modifies data
    ensures data[..] == Masked(old(data[..]), mask)
  {
    hide XorByte;
    for i := 0 to data.Length
      invariant forall j | 0 <= j < i :: data[j] == XorByte(old(data[j]), mask[j % 4])
      invariant forall j | i <= j < data.Length :: data[j] == old(data[j])
    {
      data[i] := XorByte(data[i], mask[i % 4]);
    }
  }

  // ---- the writers -----------------------------------------------------------------------------

  /** The client's _ws_send: header, mask, masked payload. */
  method ClientSend(f: Frame, mask: Mask) returns (out: Bytes)
    requires Writable(f)
    ensures out == ClientBytes(f, mask)
  {
    var ln := |f.payload|;
    var hdr: Bytes := [128 + f.opcode];
    if ln < 126 {
      hdr := hdr + [128 + ln];
    } else if ln < 65536 {
      hdr := hdr + [128 + 126] + ToBytes(ln, 2);
    } else {
      hdr := hdr + [128 + 127] + ToBytes(ln, 8);
    }
    hdr := hdr + mask;
    var masked: Bytes := [];
    for i := 0 to ln
      invariant masked == Masked(f.payload, mask)[..i]
    {
      masked := masked + [XorByte(f.payload[i], mask[i % 4])];
    }
    out := hdr + masked;
  }

  /** ws_send */
  method ServerSend(f: Frame) returns (out: Bytes)
    requires Writable(f)
    ensures out == ServerBytes(f)
  {
    var ln := |f.payload|;
    var hdr: Bytes := [128 + f.opcode];
    if ln < 126 {
      hdr := hdr + [ln];
    } else if ln < 65536 {
      hdr := hdr + [126] + ToBytes(ln, 2);
    } else {
      hdr := hdr + [127] + ToBytes(ln, 8);
    }
    out := hdr + f.payload;
  }
}
