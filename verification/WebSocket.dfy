/**
 The WebSocket endpoint after its handshake: bytes are read into a 1024-byte buffer, a frame at its start is
 decoded in place and moved out, and outgoing payloads are framed before they are sent.
 What an attempt to read or to send meets is an input.
 */
module WebSocketEndpoint {
  import opened Bytes
  import opened WebSocketFrame
  import opened WebSocketStream
  import opened WebSocketBytes

  /** What one attempt to send meets: so many bytes taken, no room, or a failure. */
  datatype SendOutcome = Took(count: nat) | NoRoom | Failure

  /** Nothing yet; a payload length and the bytes used; or a test that passed although the copy leaves the buffer. */
  datatype InPlace = NotYet | Decoded(length: nat, used: nat) | LeavesBuffer

  method MemCopy(dst: array<byte>, at: nat, src: seq<byte>)
    requires at + |src| <= dst.Length
    modifies dst
    ensures dst[..] == old(dst[..at]) + src + old(dst[at + |src|..])
  {
    for i := 0 to |src|
      invariant forall j :: at <= j < at + i ==> dst[j] == src[j - at]
      invariant forall j :: 0 <= j < dst.Length && !(at <= j < at + i) ==> dst[j] == old(dst[j])
    {
      dst[at + i] := src[i];
    }
  }

  /** Moves `count` bytes from `from` to the start; the ranges may overlap. */
  method MemMove(buf: array<byte>, from: nat, count: nat)
    requires from + count <= buf.Length
    modifies buf
    ensures buf[..count] == old(buf[from..from + count]) && buf[count..] == old(buf[count..])
  {
    for i := 0 to count
      invariant forall j :: 0 <= j < i ==> buf[j] == old(buf[from + j])
      invariant forall j :: i <= j < buf.Length ==> buf[j] == old(buf[j])
    {
      buf[i] := buf[from + i];
    }
  }

  /** Unmasks `count` bytes from `from` to the start of the same buffer. */
  method Unmask(buf: array<byte>, from: nat, count: nat, mask: Mask)
    requires from + count <= buf.Length
    modifies buf
    ensures buf[..count] == ApplyMask(old(buf[from..from + count]), mask) && buf[count..] == old(buf[count..])
  {
    for i := 0 to count
      invariant forall j :: 0 <= j < i ==> buf[j] == old(buf[from + j]) ^ mask[j % 4]
      invariant forall j :: i <= j < buf.Length ==> buf[j] == old(buf[j])
    {
      buf[i] := buf[from + i] ^ mask[i % 4];
    }
  }

  /** The header of a frame: where it ends, the declared length, and whether a mask follows. */
  method ReadLength(buf: array<byte>, n: nat) returns (r: Option<(nat, nat)>)
    requires n <= buf.Length
    ensures r.Some? <==> HeaderLength(buf[..n]).Some?
    ensures r.Some? ==> 2 <= n && r.value == (HeaderLength(buf[..n]).value, Declared(buf[..n]))
  {
    if n < 2 {
      return None;
    }
    var length := (buf[1] & 0x7f) as nat;
    var pos := 2;
    if length == 126 {
      if n < 4 {
        return None;
      }
      length := FromNetwork(buf[pos..pos + 2]);
      pos := pos + 2;
    } else if length == 127 {
      if n < 10 {
        return None;
      }
      length := FromNetwork(buf[pos..pos + 8]);
      pos := pos + 8;
    }
    assert buf[2..pos] == buf[..n][2..pos];
    return Some((pos, length));
  }

  /** What the header and the 64-bit test say of the first `n` bytes: where the header ends, the length, the mask bit. */
  datatype Examined = Short | Passed(pos: nat, length: nat, masked: bool)

  method Examine(buf: array<byte>, n: nat) returns (r: Examined)
    requires n <= buf.Length && n < TWO_64
    ensures r.Passed? <==> Passes(buf[..n])
    ensures r.Passed? ==>
      2 <= n && r == Passed(HeaderLength(buf[..n]).value, Declared(buf[..n]), IsMasked(buf[..n]))
  {
    hide HeaderLength, Declared;
    var header := ReadLength(buf, n);
    if header.None? {
      return Short;
    }
    var (pos, length) := header.value;
    var masked := buf[1] & 0x80 != 0;
    assert buf[1] == buf[..n][1];
    if masked {
      if n < (pos + 4 + length) % TWO_64 {
        return Short;
      }
    } else if n < (pos + length) % TWO_64 {
      return Short;
    }
    return Passed(pos, length, masked);
  }

  /** The payload of a complete frame, unmasked or moved to the start of the buffer. */
  method MovePayload(buf: array<byte>, n: nat, at: nat, length: nat, masked: bool) returns (used: nat)
    requires n <= buf.Length && Complete(buf[..n])
    requires at == HeaderLength(buf[..n]).value && length == Declared(buf[..n]) && masked == IsMasked(buf[..n])
    modifies buf
    ensures var d := Decode(old(buf[..n])).value;
            && length == |d.payload| && used == d.used && length <= used <= n
            && buf[..length] == d.payload && buf[length..] == old(buf[length..])
  {
    hide HeaderLength, Declared, ApplyMask, Decode;
    FrameDecoded(buf[..n]);
    var pos := at;
    if masked {
      var mask := buf[pos..pos + 4];
      SliceOfPrefix(buf[..], n, pos, pos + 4);
      pos := pos + 4;
      SliceOfPrefix(buf[..], n, pos, pos + length);
      Unmask(buf, pos, length, mask);
    } else {
      SliceOfPrefix(buf[..], n, pos, pos + length);
      MemMove(buf, pos, length);
    }
    return pos + length;
  }

  /** The start of the buffer is now the payload, octet by octet, of what was there before. */
  ghost predicate BytesUnmasked(before: seq<byte>, r: InPlace, after: seq<byte>) {
    r.Decoded? ==> r.length <= |after| && PayloadAt(before, r.used, after[..r.length])
  }

  /**
   Decodes the first frame of `buf[..n]` over the start of `buf`. Where the 64-bit test lets an incomplete frame
   pass, the copy that would follow leaves the buffer, and is not modelled.
   */
  method DecodeInPlace(buf: array<byte>, n: nat) returns (r: InPlace)
    requires n <= buf.Length && n < TWO_64
    modifies buf
    ensures match ProgramDecode(old(buf[..n]))
            case Incomplete => r == NotYet && buf[..] == old(buf[..])
            case Overrun => r == LeavesBuffer && buf[..] == old(buf[..])
            case Whole(d) =>
              && r == InPlace.Decoded(|d.payload|, d.used) && |d.payload| <= d.used <= n
              && buf[..|d.payload|] == d.payload && buf[|d.payload|..] == old(buf[|d.payload|..])
    ensures BytesUnmasked(old(buf[..n]), r, buf[..])
  {
    ProgramDecodesExactlyWhen(buf[..n]);
    if ProgramDecode(buf[..n]).Whole? {
      WholeBytes(buf[..n]);
    }
    hide HeaderLength, Declared, Decode, Passes, PayloadAt;
    var examined := Examine(buf, n);
    if examined == Short {
      return NotYet;
    }
    var Passed(pos, length, masked) := examined;
    if n < pos + (if masked then 4 else 0) + length {
      return LeavesBuffer;
    }
    var used := MovePayload(buf, n, pos, length, masked);
    return InPlace.Decoded(length, used);
  }

  lemma SliceOfPrefix(s: seq<byte>, n: nat, from: nat, to: nat)
    requires from <= to <= n <= |s|
    ensures s[..n][from..to] == s[from..to]
  {
  }

  lemma FrameDecoded(buf: seq<byte>)
    requires Complete(buf)
    ensures var pos := HeaderLength(buf).value;
            Decode(buf) == Some(WebSocketFrame.Decoded(
                                  if IsMasked(buf)
                                  then ApplyMask(buf[pos + 4..pos + 4 + Declared(buf)], buf[pos..pos + 4])
                                  else buf[pos..pos + Declared(buf)], Overhead(buf) + Declared(buf)))
  {
  }

  lemma TailUnmoved(before: seq<byte>, after: seq<byte>, length: nat, used: nat, n: nat)
    requires |before| == |after| && length <= used <= n <= |before| && after[length..] == before[length..]
    ensures after[used..n] == before[..n][used..]
  {
    forall i | used <= i < n ensures after[i] == before[i] {
      assert after[i] == after[length..][i - length];
    }
  }

  /** What the caller of `recv` gets, and what is left in its buffer. */
  ghost predicate CopiedOut(t: Stream, n: nat, result: int, before: seq<byte>, after: seq<byte>) {
    if !t.open then result == -1 && after == before
    else if t.delivered == [] then (result == 0 || t.broken) && after == before
    else
      && 0 <= result <= |before| && result == Min(n, |t.delivered[0]|)
      && after == t.delivered[0][..result] + before[result..]
  }

  lemma FillKeeps(s: Stream, r: Read)
    ensures Fill(s, r).delivered == s.delivered && Fill(s, r).broken == s.broken
  {
  }

  class WebSocket {
    var open: bool
    const pending: array<byte>
    var npending: nat
    /** Decoding has left the buffer; what the program does from then on is not modelled. */
    ghost var broken: bool

    ghost predicate Valid()
      reads this, pending
    {
      pending.Length == CAPACITY + 1 && npending <= CAPACITY
    }

    ghost function Pending(): seq<byte>
      requires Valid()
      reads this, pending
    {
      pending[..npending]
    }

    /** The endpoint together with the bytes that have not been read. */
    ghost function View(unread: seq<byte>): Stream
      requires Valid()
      reads this, pending
    {
      Stream(open, broken, Pending(), unread, [])
    }

    constructor ()
      ensures Valid() && fresh(pending) && View([]) == StartBytes([])
    {
      open, broken := true, false;
      npending := 0;
      pending := new byte[CAPACITY + 1];
    }

    method FillPending(r: Read, incoming: seq<byte>) returns (taken: nat)
      requires Valid()
      modifies this`open, this`npending, pending
      ensures Valid() && taken <= |incoming| && View(incoming[taken..]) == Fill(old(View(incoming)), r)
    {
      taken := 0;
      var space := pending.Length - 1 - npending;
      if open && space > 0 {
        match r
        case Again =>
        case Closed => open := false;
        case Take(most) =>
          taken := Min(most, Min(|incoming|, space));
          MemCopy(pending, npending, incoming[..taken]);
          npending := npending + taken;
      }
    }

    /** Moves what follows the first `used` pending bytes to the front. */
    method Discard(used: nat)
      requires Valid() && used <= npending
      modifies this`npending, pending
      ensures Valid() && Pending() == old(pending[used..npending])
    {
      MemMove(pending, used, npending - used);
      npending := npending - used;
    }

    /** Decodes the pending bytes, copies the payload out and discards the frame. */
    method Deliver(buf: array<byte>, n: nat, ghost unread: seq<byte>) returns (result: int)
      requires Valid() && open && !broken && buf != pending && n <= buf.Length
      modifies this`npending, this`broken, pending, buf
      ensures Valid()
      ensures var t := WebSocketStream.Deliver(old(View(unread)));
              View(unread) == t.(delivered := []) && CopiedOut(t, n, result, old(buf[..]), buf[..])
    {
      hide ProgramDecode, BytesUnmasked;
      ghost var all, whole := pending[..], Pending();
      var decoded := DecodeInPlace(pending, npending);
      match decoded
      case NotYet =>
        assert Pending() == pending[..][..npending] == whole;
        return 0;
      case LeavesBuffer =>
        assert Pending() == pending[..][..npending] == whole;
        broken := true;
        return 0;
      case Decoded(length, used) =>
        result := Min(n, length);
        assert pending[..result] == pending[..length][..result];
        TailUnmoved(all, pending[..], length, used, npending);
        MemCopy(buf, 0, pending[..result]);
        assert pending[used..npending] == whole[used..];
        Discard(used);
    }

    /** The payload of the next frame, cut to `n` bytes; 0 when there is none yet and -1 once closed. */
    method Recv(buf: array<byte>, n: nat, r: Read, incoming: seq<byte>) returns (result: int, taken: nat)
      requires Valid() && !broken && buf != pending && n <= buf.Length
      modifies this`open, this`npending, this`broken, pending, buf
      ensures Valid() && taken <= |incoming|
      ensures var t := WebSocketStream.Recv(old(View(incoming)), r);
              View(incoming[taken..]) == t.(delivered := []) && CopiedOut(t, n, result, old(buf[..]), buf[..])
    {
      hide Fill, WebSocketStream.Deliver;
      taken := FillPending(r, incoming);
      if !open {
        return -1, taken;
      }
      FillKeeps(Stream(old(open), old(broken), old(Pending()), incoming, []), r);
      result := Deliver(buf, n, incoming[taken..]);
    }

    /** Frames and sends `n` bytes: `n` when all of the frame went out, 0 when not, -1 on failure. */
    method Send(buf: array<byte>, n: nat, outcome: SendOutcome) returns (result: int, put: seq<byte>)
      requires n <= buf.Length && n < 0x8000_0000_0000_0000
      modifies this`open
      ensures var wire := Wire(Outgoing(buf[..n]));
              && put == (if outcome.Took? then wire[..Min(outcome.count, |wire|)] else [])
              && result == (if outcome.Failure? then -1 else if put == wire then n else 0)
              && open == (old(open) && !outcome.Failure?)
    {
      var pkt := BuildFrame(buf, n);
      match outcome
      case Failure =>
        open := false;
        return -1, [];
      case NoRoom => return 0, [];
      case Took(count) =>
        var sent := Min(count, pkt.Length);
        put := pkt[..sent];
        if sent < pkt.Length {
          return 0, put;
        }
        return n, put;
    }
  }

  method BuildHeader(payload: seq<byte>) returns (header: seq<byte>)
    requires |payload| < 0x8000_0000_0000_0000
    ensures header == Header(Outgoing(payload))
  {
    hide ToNetwork;
    var n := |payload|;
    header := [0x82];
    if n <= 125 {
      header := header + [n as byte];
    } else if n <= 65535 {
      header := header + [126] + ToNetwork(n, 2);
    } else {
      header := header + [127] + ToNetwork(n, 8);
    }
  }

  lemma OutgoingWire(payload: seq<byte>)
    requires |payload| < 0x8000_0000_0000_0000
    ensures WellFormed(Outgoing(payload)) && Wire(Outgoing(payload)) == Header(Outgoing(payload)) + payload
  {
  }

  /** The header, then the payload. */
  method BuildFrame(buf: array<byte>, n: nat) returns (pkt: array<byte>)
    requires n <= buf.Length && n < 0x8000_0000_0000_0000
    ensures fresh(pkt) && pkt[..] == Wire(Outgoing(buf[..n]))
  {
    hide Outgoing, Wire, Header, WellFormed;
    OutgoingWire(buf[..n]);
    var header := BuildHeader(buf[..n]);
    pkt := new byte[|header| + n];
    MemCopy(pkt, 0, header);
    MemCopy(pkt, |header|, buf[..n]);
  }
}
