/** WebSocket frames on the wire (sections 5.2 and 5.3 of RFC 6455), and what the decoder makes of a buffer. */
module WebSocketFrame {
  import opened Bytes

  // ---------------------------------------------------------------- frames

  /** How the payload length is written: in seven bits, sixteen bits or sixty-four bits. */
  datatype Width = Bits7 | Bits16 | Bits64

  type Mask = m: seq<byte> | |m| == 4 witness Zeros(4)

  datatype Frame = Frame(first: byte, width: Width, mask: Option<Mask>, payload: seq<byte>)

  predicate WellFormed(f: Frame) {
    match f.width
    case Bits7 => |f.payload| <= 125
    case Bits16 => |f.payload| < 65536
    case Bits64 => |f.payload| < 0x8000_0000_0000_0000
  }

  function LengthCode(f: Frame): (c: nat)
    requires WellFormed(f)
    ensures c < 128
  {
    match f.width
    case Bits7 => |f.payload|
    case Bits16 => 126
    case Bits64 => 127
  }

  function SecondByte(f: Frame): byte
    requires WellFormed(f)
  {
    if f.mask.Some? then 0x80 | (LengthCode(f) as byte) else LengthCode(f) as byte
  }

  function ExtendedLength(f: Frame): seq<byte> {
    match f.width
    case Bits7 => []
    case Bits16 => ToNetwork(|f.payload|, 2)
    case Bits64 => ToNetwork(|f.payload|, 8)
  }

  /** Octet `i` is combined with octet `i mod 4` of the masking key; applying it twice gives the data back. */
  function ApplyMask(data: seq<byte>, mask: Mask): (r: seq<byte>)
    ensures |r| == |data|
  {
    seq(|data|, i requires 0 <= i < |data| => data[i] ^ mask[i % 4])
  }

  lemma MaskTwice(data: seq<byte>, mask: Mask)
    ensures ApplyMask(ApplyMask(data, mask), mask) == data
  {
    var once := ApplyMask(data, mask);
    forall i | 0 <= i < |data| ensures ApplyMask(once, mask)[i] == data[i] {
      XorTwice(data[i], mask[i % 4]);
    }
  }

  lemma XorTwice(a: byte, m: byte)
    ensures (a ^ m) ^ m == a
  {
  }

  function Header(f: Frame): seq<byte>
    requires WellFormed(f)
  {
    [f.first, SecondByte(f)] + ExtendedLength(f)
  }

  function Body(f: Frame): seq<byte> {
    if f.mask.Some? then f.mask.value + ApplyMask(f.payload, f.mask.value) else f.payload
  }

  function Wire(f: Frame): seq<byte>
    requires WellFormed(f)
  {
    Header(f) + Body(f)
  }

  // ---------------------------------------------------------------- decoding

  predicate IsMasked(buf: seq<byte>)
    requires |buf| >= 2
  {
    buf[1] & 0x80 != 0
  }

  function Code(buf: seq<byte>): nat
    requires |buf| >= 2
  {
    (buf[1] & 0x7f) as nat
  }

  /** The bytes before the mask, if the buffer holds them all. */
  function HeaderLength(buf: seq<byte>): Option<nat> {
    if |buf| < 2 then None
    else if Code(buf) == 126 then (if |buf| < 4 then None else Some(4))
    else if Code(buf) == 127 then (if |buf| < 10 then None else Some(10))
    else Some(2)
  }

  /** The payload length that the header declares. */
  function Declared(buf: seq<byte>): nat
    requires HeaderLength(buf).Some?
  {
    var pos := HeaderLength(buf).value;
    if pos == 2 then Code(buf) else FromNetwork(buf[2..pos])
  }

  /** What precedes the payload: the header and, if there is one, the mask. */
  function Overhead(buf: seq<byte>): (n: nat)
    requires HeaderLength(buf).Some?
    ensures n <= 14
  {
    HeaderLength(buf).value + if IsMasked(buf) then 4 else 0
  }

  /** The buffer holds a whole frame. */
  predicate Complete(buf: seq<byte>) {
    HeaderLength(buf).Some? && Overhead(buf) + Declared(buf) <= |buf|
  }

  const TWO_64: nat := 0x1_0000_0000_0000_0000

  /** The program's test for a whole frame: its sum is taken in 64 bits. */
  predicate Passes(buf: seq<byte>) {
    HeaderLength(buf).Some? && (Overhead(buf) + Declared(buf)) % TWO_64 <= |buf|
  }

  datatype Decoded = Decoded(payload: seq<byte>, used: nat)

  /** The first frame of a buffer, if the buffer holds all of it (section 5.2 of RFC 6455). */
  function Decode(buf: seq<byte>): Option<Decoded> {
    var header := HeaderLength(buf);
    if header.None? then None
    else
      var masked := IsMasked(buf);
      var pos := header.value + if masked then 4 else 0;
      var end := pos + Declared(buf);
      if |buf| < end then None
      else Some(Decoded(if masked then ApplyMask(buf[pos..end], buf[pos - 4..pos]) else buf[pos..end], end))
  }

  // ---------------------------------------------------------------- decoding inverts framing

  lemma HighBit(b: byte)
    ensures b & 0x80 == 0 <==> (b as nat) < 128
  {
  }

  lemma MaskBit(b: byte)
    requires b & 0x80 == 0
    ensures (0x80 | b) & 0x80 != 0 && (0x80 | b) & 0x7f == b && b & 0x7f == b
  {
  }

  lemma SecondByteBits(code: nat)
    requires code < 128
    ensures (0x80 | (code as byte)) & 0x80 != 0 && (code as byte) & 0x80 == 0
    ensures ((0x80 | (code as byte)) & 0x7f) as nat == code && ((code as byte) & 0x7f) as nat == code
  {
    NatOfByte(code);
    var b := code as byte;
    HighBit(b);
    MaskBit(b);
  }

  /** A buffer that begins with a frame's header is read as that header. */
  lemma ReadHeader(f: Frame, buf: seq<byte>)
    requires WellFormed(f) && Header(f) <= buf
    ensures HeaderLength(buf) == Some(|Header(f)|)
    ensures Declared(buf) == |f.payload| && IsMasked(buf) == f.mask.Some?
  {
    hide FromNetwork, ToNetwork;
    SecondByteBits(LengthCode(f));
    assert buf[1] == Header(f)[1];
    var pos := |Header(f)|;
    assert buf[2..pos] == Header(f)[2..pos] == ExtendedLength(f);
    match f.width
    case Bits7 =>
    case Bits16 =>
      assert Pow256(2) == 65536;
      NetworkRoundTrip(|f.payload|, 2);
    case Bits64 =>
      Pow256Of8();
      NetworkRoundTrip(|f.payload|, 8);
  }

  /** Round trip: a frame of any width, masked or not, followed by anything, decodes to its payload. */
  lemma DecodeWire(f: Frame, rest: seq<byte>)
    requires WellFormed(f)
    ensures Decode(Wire(f) + rest) == Some(Decoded(f.payload, |Wire(f)|))
  {
    hide ExtendedLength, SecondByte, HeaderLength, Declared, IsMasked, ApplyMask;
    var buf := Wire(f) + rest;
    ReadHeader(f, buf);
    var pos := |Header(f)|;
    assert buf[pos..|Wire(f)|] == Body(f);
    if f.mask.Some? {
      assert buf[pos..pos + 4] == Body(f)[..4] == f.mask.value;
      assert buf[pos + 4..|Wire(f)|] == Body(f)[4..] == ApplyMask(f.payload, f.mask.value);
      MaskTwice(f.payload, f.mask.value);
    }
  }

  /** No proper prefix of a frame decodes. */
  lemma DecodePrefix(f: Frame, n: nat)
    requires WellFormed(f) && n < |Wire(f)|
    ensures Decode(Wire(f)[..n]) == None
  {
    var buf := Wire(f)[..n];
    SecondByteBits(LengthCode(f));
    if |Header(f)| <= n {
      assert Header(f) <= buf;
      ReadHeader(f, buf);
    } else if 2 <= n {
      assert buf[1] == SecondByte(f);
    }
  }

  /** The frame that a decodable buffer begins with. */
  function FirstFrame(buf: seq<byte>): Frame
    requires Decode(buf).Some?
  {
    var pos := HeaderLength(buf).value;
    Frame(buf[0], if pos == 2 then Bits7 else if pos == 4 then Bits16 else Bits64,
          if IsMasked(buf) then Some(buf[pos..pos + 4]) else None, Decode(buf).value.payload)
  }

  /** The length field of a decodable buffer, read as a number and written back. */
  lemma LengthField(buf: seq<byte>)
    requires Decode(buf).Some? && |buf| < 0x8000_0000_0000_0000
    ensures WellFormed(FirstFrame(buf))
    ensures ExtendedLength(FirstFrame(buf)) == buf[2..HeaderLength(buf).value]
  {
    var pos := HeaderLength(buf).value;
    NetworkOfBytes(buf[2..pos]);
    FromNetworkBound(buf[2..pos]);
    assert |FirstFrame(buf).payload| == Declared(buf);
    assert Pow256(2) == 65536;
  }

  lemma FirstFrameHeader(buf: seq<byte>)
    requires Decode(buf).Some? && |buf| < 0x8000_0000_0000_0000
    ensures WellFormed(FirstFrame(buf)) && Header(FirstFrame(buf)) == buf[..HeaderLength(buf).value]
  {
    LengthField(buf);
    SecondByteRead(buf);
    var pos := HeaderLength(buf).value;
    assert buf[..pos] == [buf[0], buf[1]] + buf[2..pos];
    hide FirstFrame, Decode, HeaderLength, SecondByte;
  }

  /** The mask bit and the length code, written back, give the second byte. */
  lemma SecondByteRead(buf: seq<byte>)
    requires Decode(buf).Some? && WellFormed(FirstFrame(buf))
    ensures FirstFrame(buf).first == buf[0] && SecondByte(FirstFrame(buf)) == buf[1]
  {
    hide FromNetwork, ApplyMask;
    SplitSecondByte(buf[1]);
    assert LengthCode(FirstFrame(buf)) == Code(buf);
  }

  /** Only frames decode: whatever the decoder accepts is the wire form of a frame with that payload. */
  lemma DecodeOnlyFrames(buf: seq<byte>)
    requires Decode(buf).Some? && |buf| < 0x8000_0000_0000_0000
    ensures var f := FirstFrame(buf);
            WellFormed(f) && f.payload == Decode(buf).value.payload && Wire(f) == buf[..Decode(buf).value.used]
  {
    FirstFrameHeader(buf);
    FirstFrameBody(buf);
  }

  lemma Joined(buf: seq<byte>, a: nat, b: nat, c: nat)
    requires a <= b <= c <= |buf|
    ensures buf[a..b] + buf[b..c] == buf[a..c]
  {
  }

  lemma FirstFrameBody(buf: seq<byte>)
    requires Decode(buf).Some?
    ensures Body(FirstFrame(buf)) == buf[HeaderLength(buf).value..Decode(buf).value.used]
  {
    var pos := HeaderLength(buf).value;
    var end := Decode(buf).value.used;
    if IsMasked(buf) {
      var key, data := buf[pos..pos + 4], buf[pos + 4..end];
      MaskTwice(data, key);
      Joined(buf, pos, pos + 4, end);
    }
  }

  lemma MaskBitBack(b: byte)
    ensures b & 0x80 != 0 ==> 0x80 | (b & 0x7f) == b
    ensures b & 0x80 == 0 ==> b & 0x7f == b
  {
  }

  lemma SplitSecondByte(b: byte)
    ensures b & 0x80 != 0 ==> 0x80 | (((b & 0x7f) as nat) as byte) == b
    ensures b & 0x80 == 0 ==> ((b & 0x7f) as nat) as byte == b
  {
    MaskBitBack(b);
    ByteOfNat(b & 0x7f);
  }

  // ---------------------------------------------------------------- the program's test, in 64 bits

  /** What the program makes of a buffer; `Overrun` when its test passes without a whole frame, so that the copy leaves the buffer. */
  datatype Outcome = Incomplete | Whole(frame: Decoded) | Overrun

  function ProgramDecode(buf: seq<byte>): Outcome {
    if !Passes(buf) then Incomplete
    else if Complete(buf) then Whole(Decode(buf).value)
    else Overrun
  }

  lemma DeclaredBound(buf: seq<byte>)
    requires HeaderLength(buf).Some?
    ensures Declared(buf) < TWO_64
    ensures Declared(buf) >= 65536 ==> HeaderLength(buf).value == 10
  {
    var pos := HeaderLength(buf).value;
    if pos > 2 {
      FromNetworkBound(buf[2..pos]);
      assert Pow256(2) == 65536;
      Pow256Of8();
    }
  }

  lemma Wraps(sum: nat)
    requires sum < 2 * TWO_64
    ensures sum % TWO_64 == if sum < TWO_64 then sum else sum - TWO_64
  {
  }

  /**
   The program's test is the true one exactly when there is no header, the declared length leaves room for the
   sum in 64 bits, or the buffer is still shorter than the wrapped sum.
   */
  lemma PassesExactlyWhen(buf: seq<byte>)
    requires |buf| < TWO_64
    ensures (Passes(buf) <==> Complete(buf)) <==>
            || HeaderLength(buf).None?
            || Declared(buf) < TWO_64 - Overhead(buf)
            || |buf| < Overhead(buf) + Declared(buf) - TWO_64
  {
    if HeaderLength(buf).Some? {
      DeclaredBound(buf);
      Wraps(Overhead(buf) + Declared(buf));
    }
  }

  /** Once the header and the mask are there, only the declared length decides. */
  lemma PassesExactlyWhenMaskIsThere(buf: seq<byte>)
    requires |buf| < TWO_64 && HeaderLength(buf).Some? && Overhead(buf) <= |buf|
    ensures (Passes(buf) <==> Complete(buf)) <==> Declared(buf) < TWO_64 - Overhead(buf)
  {
    PassesExactlyWhen(buf);
    DeclaredBound(buf);
  }

  /** The program decodes as it should, or runs out of the buffer exactly when the declared length wraps its test. */
  lemma ProgramDecodesExactlyWhen(buf: seq<byte>)
    requires |buf| < TWO_64
    ensures Complete(buf) <==> Decode(buf).Some?
    ensures Decode(buf).Some? ==> ProgramDecode(buf) == Whole(Decode(buf).value)
    ensures ProgramDecode(buf) == Overrun <==>
            && HeaderLength(buf).Some? && Declared(buf) >= TWO_64 - Overhead(buf)
            && Overhead(buf) + Declared(buf) - TWO_64 <= |buf|
  {
    PassesExactlyWhen(buf);
    if HeaderLength(buf).Some? {
      DeclaredBound(buf);
      Wraps(Overhead(buf) + Declared(buf));
    }
  }

  /** A binary frame whose 64-bit length field is all ones, and nothing after it. */
  const LONGEST: seq<byte> := [0x82, 0x7f, 0xff, 0xff, 0xff, 0xff, 0xff, 0xff, 0xff, 0xff]

  /** The same with a mask. */
  const LONGEST_MASKED: seq<byte> := [0x82, 0xff, 0xff, 0xff, 0xff, 0xff, 0xff, 0xff, 0xff, 0xff, 1, 2, 3, 4]

  lemma {:induction false} AllOnes(b: seq<byte>)
    requires forall i :: 0 <= i < |b| ==> b[i] == 0xff
    ensures FromNetwork(b) == Pow256(|b|) - 1
  {
    if b != [] {
      AllOnes(b[..|b| - 1]);
    }
  }

  lemma CodeOfAllOnes(second: byte)
    requires second == 0x7f || second == 0xff
    ensures (second & 0x7f) as nat == 127
    ensures second & 0x80 != 0 <==> second == 0xff
  {
    NatOfByte(127);
    assert second & 0x7f == 0x7f;
  }

  lemma DeclaresAllOnes(buf: seq<byte>)
    requires |buf| >= 10 && (buf[1] == 0x7f || buf[1] == 0xff) && forall i :: 2 <= i < 10 ==> buf[i] == 0xff
    ensures HeaderLength(buf) == Some(10) && Declared(buf) == TWO_64 - 1
    ensures IsMasked(buf) <==> buf[1] == 0xff
  {
    CodeOfAllOnes(buf[1]);
    AllOnes(buf[2..10]);
    Pow256Of8();
  }

  /** Ten bytes, and fourteen with a mask, pass the program's test although no frame is complete. */
  lemma LongestOverruns()
    ensures Decode(LONGEST).None? && ProgramDecode(LONGEST) == Overrun
    ensures Decode(LONGEST_MASKED).None? && ProgramDecode(LONGEST_MASKED) == Overrun
  {
    DeclaresAllOnes(LONGEST);
    DeclaresAllOnes(LONGEST_MASKED);
    ProgramDecodesExactlyWhen(LONGEST);
    ProgramDecodesExactlyWhen(LONGEST_MASKED);
  }

  /** While the mask is still missing, the largest declared length is refused by both tests: the wrapped sum is 13. */
  lemma MaskedHeaderAlone()
    ensures !Passes(LONGEST_MASKED[..10]) && !Complete(LONGEST_MASKED[..10])
    ensures Declared(LONGEST_MASKED[..10]) >= TWO_64 - Overhead(LONGEST_MASKED[..10])
  {
    DeclaresAllOnes(LONGEST_MASKED[..10]);
    Wraps(14 + TWO_64 - 1);
  }

  /** What the program decodes is the wire form of a frame, for buffers below 2^63 bytes. */
  lemma ProgramDecodesOnlyFrames(buf: seq<byte>)
    requires |buf| < 0x8000_0000_0000_0000 && ProgramDecode(buf).Whole?
    ensures var d := ProgramDecode(buf).frame;
            WellFormed(FirstFrame(buf)) && FirstFrame(buf).payload == d.payload && Wire(FirstFrame(buf)) == buf[..d.used]
  {
    ProgramDecodesExactlyWhen(buf);
    DecodeOnlyFrames(buf);
  }

  /** On a frame that the standard allows, complete or cut short, the program never runs out of the buffer. */
  lemma FramesNeverOverrun(f: Frame, buf: seq<byte>)
    requires WellFormed(f) && |buf| < TWO_64 && (Wire(f) <= buf || buf <= Wire(f))
    ensures ProgramDecode(buf) != Overrun
  {
    if Wire(f) <= buf {
      DecodeWire(f, buf[|Wire(f)|..]);
      assert buf == Wire(f) + buf[|Wire(f)|..];
    } else if Header(f) <= buf {
      ReadHeader(f, buf);
    } else {
      HeaderCut(f, |buf|);
      assert buf == Wire(f)[..|buf|];
    }
    ProgramDecodesExactlyWhen(buf);
  }

  /** A header that is cut short is not read. */
  lemma HeaderCut(f: Frame, n: nat)
    requires WellFormed(f) && n < |Header(f)|
    ensures HeaderLength(Wire(f)[..n]) == None
  {
    SecondByteBits(LengthCode(f));
    if 2 <= n {
      assert Wire(f)[..n][1] == SecondByte(f);
    }
  }

  // ---------------------------------------------------------------- the frames the proxy sends

  /** A final binary frame, unmasked, with the shortest length form. */
  function Outgoing(payload: seq<byte>): Frame {
    Frame(0x82, if |payload| <= 125 then Bits7 else if |payload| <= 65535 then Bits16 else Bits64, None, payload)
  }

  /** What the proxy sends, its own decoder reads back: the payload and the exact frame length. */
  lemma SendRoundTrip(payload: seq<byte>, rest: seq<byte>)
    requires |payload| < 0x8000_0000_0000_0000
    ensures WellFormed(Outgoing(payload))
    ensures Decode(Wire(Outgoing(payload)) + rest) == Some(Decoded(payload, |Wire(Outgoing(payload))|))
    ensures |Wire(Outgoing(payload))| ==
      |payload| + if |payload| <= 125 then 2 else if |payload| <= 65535 then 4 else 10
  {
    DecodeWire(Outgoing(payload), rest);
  }
}
