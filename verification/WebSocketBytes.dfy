/**
 Frames byte by byte: what each octet of a buffer means to the decoder, and each octet the encoder puts on the wire
 (sections 5.2, 5.3 and 5.7 of RFC 6455).
 */
module WebSocketBytes {
  import opened Bytes
  import opened WebSocketFrame
  import opened WebSocketStream

  // ---------------------------------------------------------------- the header

  function Number16(b: seq<byte>): nat
    requires |b| == 2
  {
    0x100 * b[0] as nat + b[1] as nat
  }

  function Number32(b: seq<byte>): nat
    requires |b| == 4
  {
    0x1_0000 * Number16(b[..2]) + Number16(b[2..])
  }

  /** Most significant octet first. */
  function Number64(b: seq<byte>): nat
    requires |b| == 8
  {
    0x1_0000_0000 * Number32(b[..4]) + Number32(b[4..])
  }

  lemma {:induction false} NetworkConcat(x: seq<byte>, y: seq<byte>)
    ensures FromNetwork(x + y) == FromNetwork(x) * Pow256(|y|) + FromNetwork(y)
  {
    if y == [] {
      assert x + y == x;
    } else {
      var init, last := y[..|y| - 1], y[|y| - 1];
      assert (x + y)[..|x + y| - 1] == x + init;
      NetworkConcat(x, init);
      hide FromNetwork;
      assert Pow256(|y|) == 256 * Pow256(|init|);
      Distribute(FromNetwork(x), Pow256(|init|), FromNetwork(init), last as nat);
    }
  }

  lemma Distribute(high: nat, unit: nat, low: nat, last: nat)
    ensures 256 * (high * unit + low) + last == high * (256 * unit) + (256 * low + last)
  {
  }

  lemma Network16(b: seq<byte>)
    requires |b| == 2
    ensures FromNetwork(b) == Number16(b)
  {
    assert b[..1] == [b[0]];
    assert FromNetwork(b[..1]) == b[0] as nat;
  }

  lemma Network32(b: seq<byte>)
    requires |b| == 4
    ensures FromNetwork(b) == Number32(b)
  {
    assert Pow256(2) == 0x1_0000;
    Network16(b[..2]);
    Network16(b[2..]);
    NetworkConcat(b[..2], b[2..]);
    assert b == b[..2] + b[2..];
    hide FromNetwork, Number16, Pow256;
  }

  lemma Network64(b: seq<byte>)
    requires |b| == 8
    ensures FromNetwork(b) == Number64(b)
  {
    assert Pow256(4) == 0x1_0000_0000;
    Network32(b[..4]);
    Network32(b[4..]);
    NetworkConcat(b[..4], b[4..]);
    assert b == b[..4] + b[4..];
    hide FromNetwork, Number32, Pow256;
  }

  /** The header ends before `pos`, announces `length` bytes of payload, and says whether a mask follows. */
  predicate Announces(buf: seq<byte>, pos: nat, length: nat, masked: bool) {
    && |buf| >= 2 && masked == (buf[1] & 0x80 != 0)
    && var code := (buf[1] & 0x7f) as nat;
       if code == 126 then |buf| >= 4 == pos && length == Number16(buf[2..4])
       else if code == 127 then |buf| >= 10 == pos && length == Number64(buf[2..10])
       else pos == 2 && length == code
  }

  /** Two bytes, or four or ten when the second says so, are a header. */
  lemma HeaderIsReadExactlyWhen(buf: seq<byte>)
    ensures HeaderLength(buf).Some? <==> exists pos, length, masked :: Announces(buf, pos, length, masked)
  {
    if HeaderLength(buf).Some? {
      var code := (buf[1] & 0x7f) as nat;
      var masked := buf[1] & 0x80 != 0;
      if code == 126 {
        assert Announces(buf, 4, Number16(buf[2..4]), masked);
      } else if code == 127 {
        assert Announces(buf, 10, Number64(buf[2..10]), masked);
      } else {
        assert Announces(buf, 2, code, masked);
      }
    }
  }

  lemma AnnouncedLength(buf: seq<byte>, pos: nat, length: nat, masked: bool)
    requires Announces(buf, pos, length, masked)
    ensures HeaderLength(buf) == Some(pos) && Declared(buf) == length && IsMasked(buf) == masked
  {
    if pos == 4 {
      Network16(buf[2..4]);
    } else if pos == 10 {
      Network64(buf[2..10]);
    }
  }

  // ---------------------------------------------------------------- the payload

  /** `payload` is the `|payload|` octets before `used`, each combined with its octet of the key when there is one. */
  ghost predicate PayloadAt(buf: seq<byte>, used: nat, payload: seq<byte>) {
    && |payload| + 2 <= used <= |buf|
    && var p := used - |payload|;
       if buf[1] & 0x80 != 0 then
         && p >= 6
         && forall i :: 0 <= i < |payload| ==> payload[i] == buf[p + i] ^ buf[p - 4 + i % 4]
       else
         forall i :: 0 <= i < |payload| ==> payload[i] == buf[p + i]
  }

  lemma MaskedPayload(buf: seq<byte>, p: nat, used: nat)
    requires 6 <= p <= used <= |buf| && buf[1] & 0x80 != 0
    ensures PayloadAt(buf, used, ApplyMask(buf[p..used], buf[p - 4..p]))
  {
    var data, key := buf[p..used], buf[p - 4..p];
    forall i | 0 <= i < |data| ensures ApplyMask(data, key)[i] == buf[p + i] ^ buf[p - 4 + i % 4] {
      assert data[i] == buf[p + i] && key[i % 4] == buf[p - 4 + i % 4];
    }
    hide ApplyMask;
  }

  lemma PlainPayload(buf: seq<byte>, p: nat, used: nat)
    requires 2 <= p <= used <= |buf| && buf[1] & 0x80 == 0
    ensures PayloadAt(buf, used, buf[p..used])
  {
  }

  /** The decoder's slices, for a header as announced. */
  lemma DecodesSlices(buf: seq<byte>, pos: nat, length: nat, masked: bool)
    requires Announces(buf, pos, length, masked)
    ensures pos >= 2
    ensures var end := pos + (if masked then 4 else 0) + length;
            Decode(buf) ==
            if |buf| < end then None
            else if masked then Some(Decoded(ApplyMask(buf[pos + 4..end], buf[pos..pos + 4]), end))
            else Some(Decoded(buf[pos..end], end))
  {
    AnnouncedLength(buf, pos, length, masked);
    hide Declared, HeaderLength, ApplyMask;
  }

  /** A buffer decodes exactly when all the octets its header announces are there, and to those octets. */
  lemma DecodesBytes(buf: seq<byte>, pos: nat, length: nat, masked: bool)
    requires Announces(buf, pos, length, masked)
    ensures var end := pos + (if masked then 4 else 0) + length;
            && (Decode(buf).Some? <==> end <= |buf|)
            && (end <= |buf| ==>
                  && |Decode(buf).value.payload| == length && Decode(buf).value.used == end
                  && PayloadAt(buf, end, Decode(buf).value.payload))
  {
    DecodesSlices(buf, pos, length, masked);
    hide Decode, ApplyMask, PayloadAt;
    var end := pos + (if masked then 4 else 0) + length;
    if end <= |buf| {
      if masked {
        MaskedPayload(buf, pos + 4, end);
      } else {
        PlainPayload(buf, pos, end);
      }
    }
  }

  /** What the program takes off the front of its buffer, octet by octet. */
  lemma WholeBytes(buf: seq<byte>)
    requires ProgramDecode(buf).Whole?
    ensures PayloadAt(buf, ProgramDecode(buf).frame.used, ProgramDecode(buf).frame.payload)
  {
    var (pos, length, masked) := Announced(buf);
    DecodesBytes(buf, pos, length, masked);
    hide Decode, HeaderLength, Declared;
  }

  function Announced(buf: seq<byte>): (r: (nat, nat, bool))
    requires HeaderLength(buf).Some?
    ensures Announces(buf, r.0, r.1, r.2)
  {
    var code := (buf[1] & 0x7f) as nat;
    var masked := buf[1] & 0x80 != 0;
    if code == 126 then (4, Number16(buf[2..4]), masked)
    else if code == 127 then (10, Number64(buf[2..10]), masked)
    else (2, code, masked)
  }

  // ---------------------------------------------------------------- the standard's example

  /** A masked text frame with the five letters of "Hello". */
  const HELLO: seq<byte> := [0x81, 0x85, 0x37, 0xfa, 0x21, 0x3d, 0x7f, 0x9f, 0x4d, 0x51, 0x58]

  lemma Letters(payload: seq<byte>)
    requires |payload| == 5
    requires forall i :: 0 <= i < 5 ==> payload[i] == HELLO[6 + i] ^ HELLO[2 + i % 4]
    ensures payload == [0x48, 0x65, 0x6c, 0x6c, 0x6f]
  {
    assert payload[0] == 0x7f ^ 0x37 && payload[1] == 0x9f ^ 0xfa && payload[2] == 0x4d ^ 0x21;
    assert payload[3] == 0x51 ^ 0x3d && payload[4] == 0x58 ^ 0x37;
  }

  lemma HelloDecodes()
    ensures Decode(HELLO) == Some(Decoded([0x48, 0x65, 0x6c, 0x6c, 0x6f], 11))
    ensures ProgramDecode(HELLO) == Whole(Decoded([0x48, 0x65, 0x6c, 0x6c, 0x6f], 11))
  {
    HelloHeader();
    DecodesBytes(HELLO, 2, 5, true);
    ProgramDecodesExactlyWhen(HELLO);
    hide Decode, ProgramDecode, HeaderLength, Declared, Passes, Announces, Complete;
    HelloPayload(Decode(HELLO).value.payload);
  }

  lemma HelloHeader()
    ensures Announces(HELLO, 2, 5, true)
  {
  }

  lemma HelloPayload(payload: seq<byte>)
    requires PayloadAt(HELLO, 11, payload) && |payload| == 5
    ensures payload == [0x48, 0x65, 0x6c, 0x6c, 0x6f]
  {
    assert HELLO[1] & 0x80 != 0;
    Letters(payload);
    hide HELLO;
  }

  /** One read of the eleven bytes hands the five letters to the caller. */
  lemma HelloArrives()
    ensures Calls(StartBytes(HELLO), [Take(11)]).delivered == [[0x48, 0x65, 0x6c, 0x6c, 0x6f]]
  {
    HelloDecodes();
    hide ProgramDecode, Decode;
    var s, r := StartBytes(HELLO), Take(11);
    assert |HELLO| == 11;
    hide HELLO;
    assert Fill(s, r).pending == HELLO;
    assert [r][1..] == [];
    assert Calls(s, [r]) == Calls(Recv(s, r), []);
  }

  // ---------------------------------------------------------------- what is sent

  /** The octets of an outgoing frame: 0x82, the length in its shortest form without a mask bit, and the payload. */
  lemma SentBytes(payload: seq<byte>)
    requires |payload| < 0x8000_0000_0000_0000
    ensures WellFormed(Outgoing(payload))
    ensures var wire, n := Wire(Outgoing(payload)), |payload|;
            var pos := if n <= 125 then 2 else if n <= 65535 then 4 else 10;
            && |wire| == pos + n && wire[pos..] == payload
            && wire[0] == 0x82
            && wire[1] as nat == (if n <= 125 then n else if n <= 65535 then 126 else 127)
            && (125 < n <= 65535 ==> Number16(wire[2..4]) == n)
            && (65535 < n ==> Number64(wire[2..10]) == n)
  {
    var f := Outgoing(payload);
    assert LengthCode(f) < 128;
    NatOfByte(LengthCode(f));
    if 125 < |payload| <= 65535 {
      assert Wire(f)[2..4] == ToNetwork(|payload|, 2);
      assert Pow256(2) == 65536;
      NetworkRoundTrip(|payload|, 2);
      Network16(ToNetwork(|payload|, 2));
    } else if 65535 < |payload| {
      assert Wire(f)[2..10] == ToNetwork(|payload|, 8);
      Pow256Of8();
      NetworkRoundTrip(|payload|, 8);
      Network64(ToNetwork(|payload|, 8));
    }
  }

  /** Five bytes of payload. */
  lemma Sent5(payload: seq<byte>)
    requires |payload| == 5
    ensures WellFormed(Outgoing(payload)) && [0x82, 0x05] <= Wire(Outgoing(payload))
  {
    hide Wire, Outgoing, WellFormed;
    FirstOctets(payload, 0x05, []);
    assert [0x82, 0x05] + [] == [0x82, 0x05 as byte];
  }

  /** 256 bytes of payload: the sixteen-bit form, most significant octet first. */
  lemma Sent256(payload: seq<byte>)
    requires |payload| == 256
    ensures WellFormed(Outgoing(payload)) && [0x82, 0x7e, 0x01, 0x00] <= Wire(Outgoing(payload))
  {
    hide Wire, Outgoing, WellFormed, ToNetwork;
    Written256();
    FirstOctets(payload, 0x7e, [1, 0]);
    assert [0x82, 0x7e] + [1, 0] == [0x82, 0x7e, 0x01, 0x00 as byte];
  }

  /** 65536 bytes of payload: the sixty-four-bit form. */
  lemma Sent65536(payload: seq<byte>)
    requires |payload| == 65536
    ensures WellFormed(Outgoing(payload)) && [0x82, 0x7f, 0, 0, 0, 0, 0, 1, 0, 0] <= Wire(Outgoing(payload))
  {
    hide Wire, Outgoing, WellFormed, ToNetwork;
    Written65536();
    FirstOctets(payload, 0x7f, [0, 0, 0, 0, 0, 1, 0, 0]);
    assert [0x82, 0x7f] + [0, 0, 0, 0, 0, 1, 0, 0] == [0x82, 0x7f, 0, 0, 0, 0, 0, 1, 0, 0 as byte];
  }

  lemma Written256()
    ensures ToNetwork(256, 2) == [1, 0]
  {
  }

  lemma Written65536()
    ensures ToNetwork(65536, 8) == [0, 0, 0, 0, 0, 1, 0, 0]
  {
    assert ToNetwork(0, 3) == [0, 0, 0];
    hide ToNetwork;
    WrittenLast(0, 4, [0, 0, 0], 0);
    WrittenLast(0, 5, [0, 0, 0, 0], 0);
    WrittenLast(1, 6, [0, 0, 0, 0, 0], 1);
    WrittenLast(256, 7, [0, 0, 0, 0, 0, 1], 0);
    WrittenLast(65536, 8, [0, 0, 0, 0, 0, 1, 0], 0);
  }

  lemma FirstOctets(payload: seq<byte>, code: byte, extended: seq<byte>)
    requires |payload| < 0x8000_0000_0000_0000
    requires code as nat == if |payload| <= 125 then |payload| else if |payload| <= 65535 then 126 else 127
    requires extended == if |payload| <= 125 then [] else ToNetwork(|payload|, if |payload| <= 65535 then 2 else 8)
    ensures WellFormed(Outgoing(payload)) && [0x82, code] + extended <= Wire(Outgoing(payload))
  {
    hide ToNetwork;
    ByteOfNat(code);
    var f := Outgoing(payload);
    assert SecondByte(f) == code;
    assert Header(f) == [0x82, code] + extended;
  }
}
