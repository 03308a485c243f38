/** Reassembly over a connection: any split of the byte stream into attempts delivers the payloads in order. */
module WebSocketStream {
  import opened Bytes
  import opened WebSocketFrame

  /** The 1024-byte buffer is kept null-terminated, so 1023 bytes are usable. */
  const CAPACITY: nat := 1023

  /** What one attempt to read finds: at most so many bytes of the stream, nothing yet, or the end. */
  datatype Read = Take(most: nat) | Again | Closed

  /**
   The receiver, the bytes not yet read, and the payloads handed to the caller so far. `broken` says that decoding
   has run out of the buffer; nothing is modelled after that.
   */
  datatype Stream = Stream(open: bool, broken: bool, pending: seq<byte>, unread: seq<byte>, delivered: seq<seq<byte>>)

  /** How many bytes a read moves: no more than are left, or than fit. */
  function Moved(s: Stream, most: nat): nat {
    Min(most, Min(|s.unread|, if |s.pending| < CAPACITY then CAPACITY - |s.pending| else 0))
  }

  function Fill(s: Stream, r: Read): Stream {
    if !s.open || |s.pending| >= CAPACITY then s
    else match r
      case Take(most) =>
        var k := Moved(s, most);
        s.(pending := s.pending + s.unread[..k], unread := s.unread[k..])
      case Again => s
      case Closed => s.(open := false)
  }

  /** What is done with the pending bytes: a whole frame is delivered and taken off. */
  function Deliver(t: Stream): Stream {
    match ProgramDecode(t.pending)
    case Incomplete => t
    case Overrun => t.(broken := true)
    case Whole(d) => t.(pending := t.pending[Min(d.used, |t.pending|)..], delivered := t.delivered + [d.payload])
  }

  /** One call of `recv` with a buffer large enough for any payload. */
  function Recv(s: Stream, r: Read): Stream {
    if s.broken then s
    else
      var t := Fill(s, r);
      if t.open then Deliver(t) else t
  }

  /** A read moves the next bytes of the stream behind the pending ones: all it may, up to 1023 pending bytes. */
  lemma ReadMoves(s: Stream, most: nat)
    requires s.open && |s.pending| <= 1023
    ensures var t := Fill(s, Take(most));
            && t.pending + t.unread == s.pending + s.unread && s.pending <= t.pending
            && |t.pending| == Min(|s.pending| + most, Min(|s.pending| + |s.unread|, 1023))
            && t.open && t.delivered == s.delivered && t.broken == s.broken
    ensures Fill(s, Again) == s
    ensures |s.pending| < 1023 ==> Fill(s, Closed) == s.(open := false)
  {
    var k := Moved(s, most);
    assert s.unread == s.unread[..k] + s.unread[k..];
    assert s.pending + s.unread[..0] == s.pending;
  }

  function Calls(s: Stream, attempts: seq<Read>): Stream
    decreases |attempts|
  {
    if attempts == [] then s else Calls(Recv(s, attempts[0]), attempts[1..])
  }

  // ---------------------------------------------------------------- what is sent to us

  predicate Fits(f: Frame) {
    WellFormed(f) && |Wire(f)| <= CAPACITY
  }

  ghost predicate AllFit(frames: seq<Frame>) {
    forall i :: 0 <= i < |frames| ==> Fits(frames[i])
  }

  function Wires(frames: seq<Frame>): seq<byte>
    requires AllFit(frames)
  {
    if frames == [] then [] else Wire(frames[0]) + Wires(frames[1..])
  }

  function Payloads(frames: seq<Frame>): seq<seq<byte>> {
    if frames == [] then [] else [frames[0].payload] + Payloads(frames[1..])
  }

  function Start(frames: seq<Frame>): Stream
    requires AllFit(frames)
  {
    Stream(true, false, [], Wires(frames), [])
  }

  /** The receiver holds, together with the stream, exactly the frames that are still to be delivered. */
  ghost predicate Undelivered(s: Stream, rest: seq<Frame>) {
    AllFit(rest) && !s.broken && s.pending + s.unread == Wires(rest) && |s.pending| <= CAPACITY
  }

  lemma DecodeNothing()
    ensures Decode([]) == None && ProgramDecode([]) == Incomplete
  {
  }

  /** The pending bytes begin with a complete frame exactly when they decode, and they never overrun. */
  lemma HeadDecodes(s: Stream, rest: seq<Frame>)
    requires Undelivered(s, rest)
    ensures ProgramDecode(s.pending) ==
      if rest != [] && |Wire(rest[0])| <= |s.pending| then Whole(Decoded(rest[0].payload, |Wire(rest[0])|)) else Incomplete
  {
    hide Decode, Wire, WellFormed, ProgramDecode;
    var bytes := s.pending + s.unread;
    assert s.pending == bytes[..|s.pending|];
    if rest == [] {
      assert s.pending == [];
      DecodeNothing();
    } else {
      var head := Wire(rest[0]);
      assert bytes == head + Wires(rest[1..]);
      if |head| <= |s.pending| {
        assert s.pending == head + s.pending[|head|..];
        WholeFrame(rest[0], s.pending[|head|..]);
      } else {
        assert s.pending == head[..|s.pending|];
        CutFrame(rest[0], |s.pending|);
      }
    }
  }

  lemma WholeFrame(f: Frame, rest: seq<byte>)
    requires WellFormed(f) && |Wire(f) + rest| < TWO_64
    ensures ProgramDecode(Wire(f) + rest) == Whole(Decoded(f.payload, |Wire(f)|))
  {
    hide Decode, Wire;
    DecodeWire(f, rest);
    ProgramDecodesExactlyWhen(Wire(f) + rest);
  }

  lemma CutFrame(f: Frame, n: nat)
    requires WellFormed(f) && n < |Wire(f)| && n < TWO_64
    ensures ProgramDecode(Wire(f)[..n]) == Incomplete
  {
    hide Decode, Wire, Passes;
    DecodePrefix(f, n);
    FramesNeverOverrun(f, Wire(f)[..n]);
    ProgramDecodesExactlyWhen(Wire(f)[..n]);
  }

  /** One call delivers the next frame or nothing, and keeps the rest. */
  lemma RecvStep(s: Stream, r: Read, rest: seq<Frame>)
    requires Undelivered(s, rest)
    ensures var t := Recv(s, r);
            || (t.delivered == s.delivered && Undelivered(t, rest))
            || (rest != [] && t.delivered == s.delivered + [rest[0].payload] && Undelivered(t, rest[1..]))
  {
    hide ProgramDecode, Wire, WellFormed;
    var f := Fill(s, r);
    assert f.pending + f.unread == s.pending + s.unread;
    HeadDecodes(f, rest);
    if f.open && ProgramDecode(f.pending).Whole? {
      var head := Wire(rest[0]);
      assert (f.pending + f.unread)[|head|..] == f.pending[|head|..] + f.unread;
      assert (head + Wires(rest[1..]))[|head|..] == Wires(rest[1..]);
    }
  }

  lemma {:induction false} CallsKeep(s: Stream, attempts: seq<Read>, rest: seq<Frame>) returns (k: nat)
    requires Undelivered(s, rest)
    ensures k <= |rest|
    ensures Calls(s, attempts).delivered == s.delivered + Payloads(rest[..k])
    ensures Undelivered(Calls(s, attempts), rest[k..])
    decreases |attempts|
  {
    hide Recv, Undelivered;
    if attempts == [] {
      k := 0;
    } else {
      RecvStep(s, attempts[0], rest);
      var t := Recv(s, attempts[0]);
      if t.delivered == s.delivered && Undelivered(t, rest) {
        k := CallsKeep(t, attempts[1..], rest);
      } else {
        var j := CallsKeep(t, attempts[1..], rest[1..]);
        k := j + 1;
        assert rest[..k][1..] == rest[1..][..j];
        assert rest[k..] == rest[1..][j..];
      }
    }
  }

  /**
   However the stream is cut into reads, the payloads delivered are the first ones sent, in order and each
   once, and the pending and unread bytes are exactly the frames not delivered yet.
   */
  lemma Reassembly(frames: seq<Frame>, attempts: seq<Read>) returns (k: nat)
    requires AllFit(frames)
    ensures k <= |frames|
    ensures Calls(Start(frames), attempts).delivered == Payloads(frames[..k])
    ensures Undelivered(Calls(Start(frames), attempts), frames[k..])
  {
    k := CallsKeep(Start(frames), attempts, frames);
  }

  /** A full buffer begins with a complete frame, so the next call delivers it. */
  lemma NeverWedged(frames: seq<Frame>, attempts: seq<Read>, r: Read)
    requires AllFit(frames)
    ensures var s := Calls(Start(frames), attempts);
            s.open && |s.pending| == CAPACITY ==>
              ProgramDecode(s.pending).Whole? && |Recv(s, r).delivered| == |s.delivered| + 1
  {
    hide ProgramDecode, Wire, WellFormed, Calls;
    var k := Reassembly(frames, attempts);
    var s := Calls(Start(frames), attempts);
    if |s.pending| == CAPACITY {
      assert frames[k..] != [];
      HeadDecodes(s, frames[k..]);
    }
  }

  /** Frames that the standard allows never make the program leave its buffer. */
  lemma NeverBroken(frames: seq<Frame>, attempts: seq<Read>)
    requires AllFit(frames)
    ensures !Calls(Start(frames), attempts).broken
  {
    var k := Reassembly(frames, attempts);
  }

  /** The ten bytes of the longest declared length make it leave its buffer. */
  lemma LongestBreaks()
    ensures Calls(StartBytes(LONGEST), [Take(10)]).broken
  {
    hide ProgramDecode;
    LongestOverruns();
    var s, r := StartBytes(LONGEST), Take(10);
    assert Fill(s, r).pending == LONGEST;
    assert [r][1..] == [];
    assert Calls(s, [r]) == Calls(Recv(s, r), []);
  }

  /** A call that may read delivers the next frame, or has read at least one byte, or nothing is due. */
  lemma Progress(s: Stream, r: Read, rest: seq<Frame>)
    requires Undelivered(s, rest) && s.open && r.Take? && r.most > 0
    ensures var t := Recv(s, r);
            && t.open && |t.unread| <= |s.unread|
            && (|| (rest != [] && t.delivered == s.delivered + [rest[0].payload] && Undelivered(t, rest[1..]))
                || (t.delivered == s.delivered && Undelivered(t, rest) && (|t.unread| == 0 == |rest| || |t.unread| < |s.unread|)))
  {
    hide ProgramDecode, Wire, WellFormed;
    RecvStep(s, r, rest);
    var f := Fill(s, r);
    assert f.pending + f.unread == s.pending + s.unread;
    HeadDecodes(f, rest);
    if rest != [] && ProgramDecode(f.pending) == Incomplete {
      assert |f.pending| < |Wire(rest[0])| <= CAPACITY;
      assert |Wire(rest[0])| <= |Wires(rest)|;
    }
  }

  /** While every call may read, each call moves a byte or delivers a frame, so all frames arrive. */
  lemma {:induction false} AllArrive(s: Stream, attempts: seq<Read>, rest: seq<Frame>)
    requires Undelivered(s, rest) && s.open
    requires forall i :: 0 <= i < |attempts| ==> attempts[i].Take? && attempts[i].most > 0
    requires |attempts| >= |s.unread| + |rest|
    ensures Calls(s, attempts).delivered == s.delivered + Payloads(rest)
    decreases |attempts|
  {
    hide Recv, Undelivered;
    if attempts == [] {
      assert rest == [];
    } else {
      Progress(s, attempts[0], rest);
      var t := Recv(s, attempts[0]);
      if rest != [] && t.delivered == s.delivered + [rest[0].payload] && Undelivered(t, rest[1..]) {
        AllArrive(t, attempts[1..], rest[1..]);
      } else {
        AllArrive(t, attempts[1..], rest);
      }
    }
  }

  /** With enough calls that may each read something, every payload is delivered. */
  lemma Completeness(frames: seq<Frame>, attempts: seq<Read>)
    requires AllFit(frames)
    requires forall i :: 0 <= i < |attempts| ==> attempts[i].Take? && attempts[i].most > 0
    requires |attempts| >= |Wires(frames)| + |frames|
    ensures Calls(Start(frames), attempts).delivered == Payloads(frames)
  {
    AllArrive(Start(frames), attempts, frames);
  }

  // ---------------------------------------------------------------- larger frames

  /** The start of a frame too large for the buffer is never delivered, however the bytes arrive. */
  lemma {:induction false} LargeFrameWedges(f: Frame, s: Stream, attempts: seq<Read>)
    requires WellFormed(f) && |Wire(f)| > CAPACITY
    requires Wire(f) <= s.pending + s.unread && |s.pending| <= CAPACITY
    ensures Calls(s, attempts).delivered == s.delivered
    decreases |attempts|
  {
    hide ProgramDecode, Wire, WellFormed;
    if attempts != [] && !s.broken {
      var t := Fill(s, attempts[0]);
      assert t.pending + t.unread == s.pending + s.unread;
      assert t.pending == Wire(f)[..|t.pending|];
      CutFrame(f, |t.pending|);
      LargeFrameWedges(f, Recv(s, attempts[0]), attempts[1..]);
    } else if attempts != [] {
      LargeFrameWedges(f, s, attempts[1..]);
    }
  }

  function StartBytes(bytes: seq<byte>): Stream {
    Stream(true, false, [], bytes, [])
  }

  /** A frame that fits is delivered by one read of all of it. */
  lemma SmallFrameArrives(f: Frame, rest: seq<byte>)
    requires WellFormed(f) && |Wire(f)| <= CAPACITY
    ensures Calls(StartBytes(Wire(f) + rest), [Take(|Wire(f)|)]).delivered != []
  {
    hide ProgramDecode, Wire, WellFormed;
    var s, r := StartBytes(Wire(f) + rest), Take(|Wire(f)|);
    assert Fill(s, r).pending == Wire(f) + [];
    WholeFrame(f, []);
    assert [r][1..] == [];
    assert Calls(s, [r]) == Calls(Recv(s, r), []);
  }

  /** The first frame of a stream can be delivered exactly when it takes at most 1023 bytes. */
  lemma DeliverableExactlyWhen(f: Frame, rest: seq<byte>)
    requires WellFormed(f)
    ensures (exists attempts :: Calls(StartBytes(Wire(f) + rest), attempts).delivered != []) <==> |Wire(f)| <= CAPACITY
  {
    hide Calls, Wire, WellFormed;
    if |Wire(f)| <= CAPACITY {
      SmallFrameArrives(f, rest);
    } else {
      forall attempts ensures Calls(StartBytes(Wire(f) + rest), attempts).delivered == [] {
        LargeFrameWedges(f, StartBytes(Wire(f) + rest), attempts);
      }
    }
  }
}
