/** What the files hold: the open file is the accepted blocks apart from torn ones, and files begin with block 0. */
module BinlogFiles {
  import opened Bytes
  import opened BinlogSpec
  import opened BinlogInvariants

  // ---------------------------------------------------------------- the contents of a session file

  /** The last payload accepted for each seqno. */
  function Payloads(log: seq<Event>): map<nat, Payload> {
    if log == [] then map[]
    else
      var rest := Payloads(log[..|log| - 1]);
      if log[|log| - 1].Accepted? then rest[log[|log| - 1].seqno := log[|log| - 1].data] else rest
  }

  lemma PayloadsAppend(log: seq<Event>, e: Event)
    ensures Payloads(log + [e]) == if e.Accepted? then Payloads(log)[e.seqno := e.data] else Payloads(log)
  {
    assert (log + [e])[..|log|] == log;
  }

  lemma WriteAtLength(file: seq<byte>, off: nat, data: seq<byte>)
    requires data != []
    ensures |WriteAt(file, off, data)| == Max(|file|, off + |data|)
    ensures forall i :: 0 <= i < |WriteAt(file, off, data)| ==>
      WriteAt(file, off, data)[i] ==
        if off <= i < off + |data| then data[i - off] else if i < |file| then file[i] else 0
  {
  }

  /** Byte `i` of a file that holds each block in its place and zeros everywhere else. */
  function ByteAt(blocks: map<nat, Payload>, i: nat): byte {
    if i / BLOCK_BYTES in blocks then blocks[i / BLOCK_BYTES][i % BLOCK_BYTES] else 0
  }

  /**
   The file holds the blocks and zeros, apart from torn blocks, whose last write was cut short; it is `size`
   bytes long, or ends in a torn block beyond that.
   */
  ghost predicate Intact(file: seq<byte>, blocks: map<nat, Payload>, size: nat, torn: set<nat>) {
    && size <= |file|
    && (size < |file| ==> (|file| - 1) / BLOCK_BYTES in torn)
    && (forall i :: 0 <= i < |file| && i / BLOCK_BYTES !in torn ==> file[i] == ByteAt(blocks, i))
  }

  /** All keys lie in the first `size` bytes, which are whole blocks. */
  ghost predicate Covers(blocks: map<nat, Payload>, size: nat) {
    size % BLOCK_BYTES == 0 && forall k :: k in blocks ==> (k + 1) * BLOCK_BYTES <= size
  }

  lemma BlockOfByte(i: nat, k: nat)
    ensures i / BLOCK_BYTES == k <==> k * BLOCK_BYTES <= i < k * BLOCK_BYTES + BLOCK_BYTES
    ensures i / BLOCK_BYTES == k ==> i % BLOCK_BYTES == i - k * BLOCK_BYTES
  {
  }

  lemma BeyondIsZero(blocks: map<nat, Payload>, size: nat, i: nat)
    requires Covers(blocks, size) && size <= i
    ensures ByteAt(blocks, i) == 0
  {
    BlockOfByte(i, i / BLOCK_BYTES);
  }

  /** A complete write puts the block in place and mends it if it was torn. */
  lemma WholeWriteIntact(file: seq<byte>, blocks: map<nat, Payload>, size: nat, torn: set<nat>, k: nat, data: Payload)
    requires Intact(file, blocks, size, torn) && Covers(blocks, size)
    ensures Intact(WriteAt(file, k * BLOCK_BYTES, data), blocks[k := data], Prospective(size, k), torn - {k})
  {
    var after := WriteAt(file, k * BLOCK_BYTES, data);
    WriteAtLength(file, k * BLOCK_BYTES, data);
    forall i | 0 <= i < |after| && i / BLOCK_BYTES !in torn - {k} ensures after[i] == ByteAt(blocks[k := data], i) {
      BlockOfByte(i, k);
      if i >= |file| {
        BeyondIsZero(blocks, size, i);
      }
    }
    BlockOfByte(|after| - 1, k);
  }

  /** A write that is cut short tears the block and leaves all others as they were. */
  lemma ShortWriteIntact(file: seq<byte>, blocks: map<nat, Payload>, size: nat, torn: set<nat>, k: nat, data: seq<byte>)
    requires Intact(file, blocks, size, torn) && Covers(blocks, size) && 0 < |data| < BLOCK_BYTES
    ensures Intact(WriteAt(file, k * BLOCK_BYTES, data), blocks, size, torn + {k})
  {
    var after := WriteAt(file, k * BLOCK_BYTES, data);
    WriteAtLength(file, k * BLOCK_BYTES, data);
    forall i | 0 <= i < |after| && i / BLOCK_BYTES !in torn + {k} ensures after[i] == ByteAt(blocks, i) {
      BlockOfByte(i, k);
      if i >= |file| {
        BeyondIsZero(blocks, size, i);
      }
    }
    BlockOfByte(|after| - 1, k);
  }

  // ---------------------------------------------------------------- torn blocks

  /** The blocks of the open file whose last write was cut short, and those of each finished session. */
  datatype Damage = Damage(now: set<nat>, past: seq<set<nat>>)

  function TornOpen(s: State, torn: set<nat>, msg: BlockMsg, e: BlockEnv): set<nat> {
    if !WithinCaps(s, msg.seqno) || !e.seekOk || e.wrote == 0 then torn
    else if e.wrote < BLOCK_BYTES then torn + {msg.seqno as nat}
    else torn - {msg.seqno as nat}
  }

  function TornBlock(s: State, torn: set<nat>, sessionN: uint32, msg: BlockMsg, e: BlockEnv): set<nat> {
    if s.fp.Some? then TornOpen(s, torn, msg, e)
    else if msg.seqno != 0 || !e.openOk then torn
    else TornOpen(Open(s, sessionN, e), {}, msg, e)
  }

  ghost function DamageStep(s: State, d: Damage, op: Op): Damage {
    match op
    case OpBlock(n, msg, e) => d.(now := TornBlock(s, d.now, n, msg, e))
    case OpObserve(m, day) => if Watched(s, m) && DetectsReboot(s, m) then Damage({}, d.past + [d.now]) else d
    case _ => d
  }

  ghost function RunDamage(s: State, d: Damage, ops: seq<Op>): Damage
    decreases |ops|
  {
    if ops == [] then d else RunDamage(Step(s, ops[0]), DamageStep(s, d, ops[0]), ops[1..])
  }

  const UNDAMAGED: Damage := Damage({}, [])

  // ---------------------------------------------------------------- the open file

  /** The open file holds the accepted blocks apart from the torn ones. */
  ghost predicate FileMatches(s: State, torn: set<nat>) {
    && (forall k :: k in Payloads(s.log) <==> k in AcceptedSeqnos(s.log))
    && (s.fp.Some? ==>
          s.fp.value < |s.disk.inodes| && Intact(s.disk.inodes[s.fp.value], Payloads(s.log), s.size, torn))
  }

  lemma BookPayloads(s: State, msg: BlockMsg, e: BlockEnv)
    requires Tracking(s)
    ensures Payloads(Book(s, msg, e).log) == Payloads(s.log)[msg.seqno as nat := msg.data]
  {
    BookHistory(s, msg, e);
    PayloadsAppend(s.log, GapNoticed(NewGap(s, msg.seqno)));
    PayloadsAppend(s.log + [GapNoticed(NewGap(s, msg.seqno))], Accepted(msg.seqno, msg.data));
  }

  lemma SizeCovers(s: State, torn: set<nat>)
    requires Tracking(s) && FileMatches(s, torn) && s.fp.Some?
    ensures Covers(Payloads(s.log), s.size)
  {
    forall k | k in Payloads(s.log) ensures (k + 1) * BLOCK_BYTES <= s.size {
      assert k in s.seen;
    }
  }

  lemma HandleOpenFile(s: State, torn: set<nat>, msg: BlockMsg, e: BlockEnv)
    requires Inv(s) && FileMatches(s, torn) && s.fp.Some?
    ensures FileMatches(HandleOpen(s, msg, e), TornOpen(s, torn, msg, e))
  {
    if WithinCaps(s, msg.seqno) && e.seekOk {
      var latched := Latch(s, msg);
      SizeCovers(s, torn);
      if e.wrote == 0 {
        NothingWritten(latched, msg, e);
      } else if e.wrote < BLOCK_BYTES {
        ShortWriteIntact(s.disk.inodes[s.fp.value], Payloads(s.log), s.size, torn, msg.seqno, msg.data[..e.wrote]);
      } else {
        BlockWritten(s, torn, msg, e);
      }
    }
  }

  lemma NothingWritten(s: State, msg: BlockMsg, e: BlockEnv)
    requires e.wrote == 0
    ensures WriteBlock(s, msg, e) == s
  {
    assert msg.data[..0] == [];
    if s.fp.Some? && s.fp.value < |s.disk.inodes| {
      assert s.disk.inodes[s.fp.value := s.disk.inodes[s.fp.value]] == s.disk.inodes;
    }
  }

  lemma BlockWritten(s: State, torn: set<nat>, msg: BlockMsg, e: BlockEnv)
    requires Inv(s) && FileMatches(s, torn) && s.fp.Some? && e.seekOk && e.wrote >= BLOCK_BYTES
    requires WithinCaps(s, msg.seqno)
    ensures FileMatches(HandleOpen(s, msg, e), torn - {msg.seqno as nat})
  {
    hide AcceptedSeqnos, AckedSeqnos, Noticed, Gone, Accounting, Pacing, Payloads, Intact, WriteAt;
    SizeCovers(s, torn);
    var written := WriteBlock(Latch(s, msg), msg, e);
    assert msg.data[..BLOCK_BYTES] == msg.data;
    BookPayloads(written, msg, e);
    BookHistory(written, msg, e);
    WholeWriteIntact(s.disk.inodes[s.fp.value], Payloads(s.log), s.size, torn, msg.seqno, msg.data);
  }

  lemma OpenFile(s: State, torn: set<nat>, sessionN: uint32, e: BlockEnv)
    requires Inv(s) && FileMatches(s, torn) && s.fp.None?
    ensures FileMatches(Open(s, sessionN, e), {})
  {
    OpenInv(s, sessionN, e);
    var t := Open(s, sessionN, e);
    assert forall k :: k in Payloads(t.log) <==> k in t.seen;
  }

  /** Sends and prunes only extend the history with events that are not blocks. */
  ghost predicate SameFile(s: State, t: State) {
    && t.fp == s.fp && t.disk == s.disk && t.size == s.size
    && Payloads(t.log) == Payloads(s.log)
    && AcceptedSeqnos(t.log) == AcceptedSeqnos(s.log)
    && t.seen == s.seen && t.others == s.others
  }

  lemma Quiet(s: State, t: State, e: Event)
    requires !e.Accepted? && t.log == s.log + [e]
    requires t.fp == s.fp && t.disk == s.disk && t.size == s.size && t.seen == s.seen && t.others == s.others
    ensures SameFile(s, t)
  {
    PayloadsAppend(s.log, e);
    Append(s.log, e);
  }

  lemma {:induction false} DrainAcksFile(s: State, ok: nat -> bool, i: nat)
    ensures SameFile(s, DrainAcks(s, ok, i))
    decreases |s.acks|
  {
    if s.acks != [] {
      Quiet(s, SendAck(s, ok(i)), AckSent(s.acks[0], ok(i)));
      DrainAcksFile(SendAck(s, ok(i)), ok, i + 1);
    }
  }

  lemma {:induction false} RenackFile(s: State, order: seq<nat>, now: int, budget: nat, ok: nat -> bool, i: nat)
    ensures SameFile(s, Renack(s, order, now, budget, ok, i))
    decreases |order|
  {
    if order == [] || budget == 0 {
    } else if order[0] !in s.nacks || Throttled(s.nacks[order[0]], now) {
      RenackFile(s, order[1..], now, budget, ok, i);
    } else {
      Quiet(s, SendNack(s, order[0], now, ok(i)), NackSent(order[0], now, ok(i)));
      RenackFile(SendNack(s, order[0], now, ok(i)), order[1..], now, if ok(i) then budget - 1 else budget, ok, i + 1);
    }
  }

  /** A tick touches neither the directory nor any file, nor what has been accepted. */
  lemma TickFile(s: State, now: Micros, order: seq<nat>, ok: nat -> bool)
    ensures SameFile(s, Tick(s, now, order, ok))
  {
    Quiet(s, SendStart(s, now, ok(0)), StartSent(now, ok(0)));
    if s.anyBlock && s.fp.Some? {
      var started := MaybeStart(s, now, START_KEEPALIVE_US, ok(0));
      DrainAcksFile(started, ok, 1);
      var drained := DrainAcks(started, ok, 1);
      Quiet(drained, Prune(drained, now), Abandoned(StaleKeys(drained, now)));
      RenackFile(Prune(drained, now), order, now, MAX_NACKS_PER_TICK, ok, 1 + |s.acks|);
    }
  }

  lemma StepFile(s: State, d: Damage, op: Op)
    requires Inv(s) && FileMatches(s, d.now)
    ensures FileMatches(Step(s, op), DamageStep(s, d, op).now)
  {
    match op
    case OpBlock(n, msg, e) =>
      if s.fp.Some? {
        HandleOpenFile(s, d.now, msg, e);
      } else if msg.seqno == 0 && e.openOk {
        OpenInv(s, n, e);
        OpenFile(s, d.now, n, e);
        HandleOpenFile(Open(s, n, e), {}, msg, e);
      }
    case OpTick(now, order, ok) => TickFile(s, now, order, ok);
    case OpObserve(m, day) =>
    case OpTlogFile(day, n, content) =>
    case OpUnlink(name) =>
  }

  lemma {:induction false} RunFile(s: State, d: Damage, ops: seq<Op>)
    requires Inv(s) && FileMatches(s, d.now)
    ensures FileMatches(Run(s, ops), RunDamage(s, d, ops).now)
    decreases |ops|
  {
    hide Step, DamageStep, Inv, FileMatches;
    if |ops| != 0 {
      StepInv(s, ops[0]);
      StepFile(s, d, ops[0]);
      RunFile(Step(s, ops[0]), DamageStep(s, d, ops[0]), ops[1..]);
    }
  }

  /**
   After any run, whatever is written short: the open file holds the last payload of each accepted block in its
   place and zeros in the holes, apart from the blocks whose last write was cut short; it is as long as the
   tracked size, or ends in such a block.
   */
  lemma FileRefinement(filter: nat, disk: Disk, ops: seq<Op>)
    ensures var s := Run(Init(filter, disk), ops);
            var torn := RunDamage(Init(filter, disk), UNDAMAGED, ops).now;
            && (s.fp.None? ==> s.seen == {} && s.acks == [] && s.nacks == map[])
            && (s.fp.Some? ==>
                  && s.fp.value < |s.disk.inodes|
                  && (forall k :: k in Payloads(s.log) <==> k in s.seen)
                  && Intact(s.disk.inodes[s.fp.value], Payloads(s.log), s.size, torn))
  {
    hide Run, RunDamage, Intact;
    InitInv(filter, disk);
    RunInv(Init(filter, disk), ops);
    RunFile(Init(filter, disk), UNDAMAGED, ops);
  }

  // ---------------------------------------------------------------- writes that are all or nothing

  ghost predicate BlockWritesAtomic(op: Op) {
    op.OpBlock? ==> WriteAtomic(op.env)
  }

  ghost predicate Undamaged(d: Damage) {
    d.now == {} && forall i :: 0 <= i < |d.past| ==> d.past[i] == {}
  }

  lemma {:induction false} NoDamage(s: State, d: Damage, ops: seq<Op>)
    requires Undamaged(d) && forall i :: 0 <= i < |ops| ==> BlockWritesAtomic(ops[i])
    ensures Undamaged(RunDamage(s, d, ops))
    decreases |ops|
  {
    hide Step;
    if |ops| != 0 {
      assert BlockWritesAtomic(ops[0]);
      NoDamage(Step(s, ops[0]), DamageStep(s, d, ops[0]), ops[1..]);
    }
  }

  /** With writes that are all or nothing the open file is exactly the accepted blocks, and as long as the tracked size. */
  lemma WholeWritesRefine(filter: nat, disk: Disk, ops: seq<Op>)
    requires forall i :: 0 <= i < |ops| ==> BlockWritesAtomic(ops[i])
    ensures var s := Run(Init(filter, disk), ops);
            s.fp.Some? ==>
              && s.fp.value < |s.disk.inodes|
              && |s.disk.inodes[s.fp.value]| == s.size
              && forall i :: 0 <= i < s.size ==>
                   s.disk.inodes[s.fp.value][i] ==
                     if i / 200 in s.seen && i / 200 in Payloads(s.log) then Payloads(s.log)[i / 200][i % 200] else 0
  {
    hide Run, RunDamage;
    FileRefinement(filter, disk, ops);
    NoDamage(Init(filter, disk), UNDAMAGED, ops);
  }

  // ---------------------------------------------------------------- a write that is cut short

  lemma SameAfterExactlyWhen(file: seq<byte>, off: nat, data: seq<byte>)
    requires data != []
    ensures WriteAt(file, off, data) == file <==> off + |data| <= |file| && file[off..off + |data|] == data
  {
    var after := WriteAt(file, off, data);
    WriteAtLength(file, off, data);
    if after == file {
      forall i | 0 <= i < |data| ensures file[off..off + |data|][i] == data[i] {
        assert after[off + i] == data[i];
      }
    }
    if off + |data| <= |file| && file[off..off + |data|] == data {
      forall i | 0 <= i < |file| ensures after[i] == file[i] {
        assert off <= i < off + |data| ==> file[i] == file[off..off + |data|][i - off];
      }
    }
  }

  lemma ExactIsUnique(a: seq<byte>, b: seq<byte>, blocks: map<nat, Payload>, size: nat)
    requires Intact(a, blocks, size, {})
    ensures Intact(b, blocks, size, {}) <==> b == a
  {
    if Intact(b, blocks, size, {}) {
      forall i | 0 <= i < size ensures a[i] == b[i] {
        assert a[i] == ByteAt(blocks, i);
      }
    }
  }

  lemma ShortWriteEffect(s: State, msg: BlockMsg, e: BlockEnv)
    requires Tracking(s) && s.fp.Some? && WithinCaps(s, msg.seqno) && e.seekOk && 0 < e.wrote < BLOCK_BYTES
    ensures var t := HandleOpen(s, msg, e);
            && t.fp == s.fp && t.size == s.size && t.log == s.log && |t.disk.inodes| == |s.disk.inodes|
            && t.disk.inodes[s.fp.value] ==
                 WriteAt(s.disk.inodes[s.fp.value], msg.seqno * BLOCK_BYTES, msg.data[..e.wrote])
  {
    hide AcceptedSeqnos, WriteAt;
  }

  /** A short write leaves an exact file exact if and only if the bytes it wrote were there already. */
  lemma ShortWriteKeepsExactlyWhen(s: State, msg: BlockMsg, e: BlockEnv)
    requires Inv(s) && FileMatches(s, {}) && s.fp.Some?
    requires WithinCaps(s, msg.seqno) && e.seekOk && 0 < e.wrote < BLOCK_BYTES
    ensures var file, off := s.disk.inodes[s.fp.value], msg.seqno * BLOCK_BYTES;
            FileMatches(HandleOpen(s, msg, e), {}) <==>
            off + e.wrote <= |file| && file[off..off + e.wrote] == msg.data[..e.wrote]
  {
    hide HandleOpen, WriteAt, Intact, Payloads, AcceptedSeqnos, AckedSeqnos, Accounting, Pacing, WithinCaps;
    var file, off, data := s.disk.inodes[s.fp.value], msg.seqno * BLOCK_BYTES, msg.data[..e.wrote];
    ShortWriteEffect(s, msg, e);
    SameAfterExactlyWhen(file, off, data);
    ExactIsUnique(file, WriteAt(file, off, data), Payloads(s.log), s.size);
  }

  const ONES: Payload := seq(200, i => 1)

  /** A block is accepted, and its repetition is cut short: its first half is lost. */
  lemma ShortWriteDamages() returns (ops: seq<Op>)
    ensures var s := Run(Init(0, Disk([], map[])), ops);
            && s.seen == {0} && Payloads(s.log) == map[0 as nat := Zeros(200)]
            && s.fp == Some(0) && |s.disk.inodes| == 1 && |s.disk.inodes[0]| == 200
            && s.disk.inodes[0][..100] == ONES[..100] && s.disk.inodes[0][100..] == Zeros(200)[100..]
  {
    hide Step, Payloads;
    var whole := OpBlock(1, BlockMsg(1, 1, 0, Zeros(200)), BlockEnv(0, true, 0, true, 200, 0, 1));
    var short := OpBlock(1, BlockMsg(1, 1, 0, ONES), BlockEnv(0, true, 0, true, 100, 0, 1));
    ops := [whole, short];
    var s0 := Init(0, Disk([], map[]));
    var s1 := FirstWhole(s0, whole);
    var s2 := ThenShort(s1, short);
    assert ops[1..] == [short] && [short][1..] == [];
    assert Run(s0, ops) == Run(s1, [short]) == Run(s2, []);
  }

  lemma FirstWhole(s0: State, op: Op) returns (s1: State)
    requires s0 == Init(0, Disk([], map[]))
    requires op == OpBlock(1, BlockMsg(1, 1, 0, Zeros(200)), BlockEnv(0, true, 0, true, 200, 0, 1))
    ensures s1 == Step(s0, op) && Inv(s1) && s1.fp == Some(0) && s1.others == 0 && s1.size == 200 && s1.seen == {0}
    ensures Payloads(s1.log) == map[0 as nat := Zeros(200)] && s1.disk.inodes == [Zeros(200)]
  {
    hide Payloads, AcceptedSeqnos, AckedSeqnos, Noticed, Gone, Accounting, Pacing, HandleOpen, WriteAt;
    InitInv(0, Disk([], map[]));
    OpenInv(s0, 1, op.env);
    var base := Open(s0, 1, op.env);
    assert base.disk.inodes == [[]] && base.log == [] && base.others == 0 && base.size == 0;
    BookedFirst(base, op.msg, op.env);
    HandleBlockInv(s0, 1, op.msg, op.env);
    s1 := Step(s0, op);
  }

  lemma BookedFirst(base: State, msg: BlockMsg, e: BlockEnv)
    requires Tracking(base) && base.fp == Some(0) && base.disk.inodes == [[]] && base.log == []
    requires base.others == 0 && base.size == 0 && base.seen == {} && base.highest == 0
    requires msg.seqno == 0 && e.seekOk && e.wrote == 200 && base.writesSinceScan == 0
    ensures var t := HandleOpen(base, msg, e);
            && t.fp == Some(0) && t.others == 0 && t.size == 200 && t.seen == {0}
            && Payloads(t.log) == map[0 as nat := msg.data] && t.disk.inodes == [msg.data]
  {
    var written := WriteBlock(Latch(base, msg), msg, e);
    FirstWritten(base, msg, e);
    hide WriteBlock, Latch, WriteAt, AcceptedSeqnos, AckedSeqnos, Noticed, Gone, Payloads;
    HandleOpenBooks(base, msg, e);
    hide HandleOpen, Tracking;
    BookPayloads(written, msg, e);
    EmptyPayloads();
  }

  lemma EmptyPayloads()
    ensures Payloads([]) == map[]
  {
  }

  lemma HandleOpenBooks(s: State, msg: BlockMsg, e: BlockEnv)
    requires WithinCaps(s, msg.seqno) && e.seekOk && e.wrote == 200
    ensures HandleOpen(s, msg, e) == Book(WriteBlock(Latch(s, msg), msg, e), msg, e)
  {
    hide Book, WriteBlock, Latch;
  }

  lemma FirstWritten(base: State, msg: BlockMsg, e: BlockEnv)
    requires base.fp == Some(0) && base.disk.inodes == [[]] && msg.seqno == 0 && e.wrote == 200
    ensures var written := WriteBlock(Latch(base, msg), msg, e);
            && written.disk.inodes == [msg.data]
            && written == base.(disk := written.disk, anyBlock := true, targetSystem := written.targetSystem,
                               targetComponent := written.targetComponent)
  {
    assert msg.data[..200] == msg.data;
    assert WriteAt([], 0, msg.data) == msg.data;
  }

  lemma ThenShort(s1: State, op: Op) returns (s2: State)
    requires Inv(s1) && s1.fp == Some(0) && s1.others == 0 && s1.size == 200 && s1.seen == {0}
    requires Payloads(s1.log) == map[0 as nat := Zeros(200)] && s1.disk.inodes == [Zeros(200)]
    requires op == OpBlock(1, BlockMsg(1, 1, 0, ONES), BlockEnv(0, true, 0, true, 100, 0, 1))
    ensures s2 == Step(s1, op) && s2.seen == {0} && Payloads(s2.log) == map[0 as nat := Zeros(200)]
    ensures s2.fp == Some(0) && |s2.disk.inodes| == 1 && |s2.disk.inodes[0]| == 200
    ensures s2.disk.inodes[0][..100] == ONES[..100] && s2.disk.inodes[0][100..] == Zeros(200)[100..]
  {
    s2 := Step(s1, op);
    WriteAtLength(Zeros(200), 0, ONES[..100]);
    assert s2.disk.inodes[0] == WriteAt(Zeros(200), 0, ONES[..100]);
  }

  // ---------------------------------------------------------------- the first block

  ghost predicate BlockWritesSucceed(op: Op) {
    op.OpBlock? ==> WriteSucceeds(op.env)
  }

  ghost predicate PastBeginsWithZero(past: seq<Session>) {
    forall i :: 0 <= i < |past| && AcceptedSeqnos(past[i].log) != [] ==> AcceptedSeqnos(past[i].log)[0] == 0
  }

  /** A file that was opened and is still empty is over quota, and a file that is not empty began with block 0. */
  ghost predicate BeginsWithZero(s: State) {
    && (s.fp.Some? && s.seen == {} ==> s.others + BLOCK_BYTES > MAX_PER_PORT2_BYTES)
    && (AcceptedSeqnos(s.log) != [] ==> AcceptedSeqnos(s.log)[0] == 0)
    && PastBeginsWithZero(s.past)
  }

  lemma OpenBlockBeginsWithZero(s: State, msg: BlockMsg, e: BlockEnv)
    requires Inv(s) && s.fp.Some? && WriteSucceeds(e)
    requires BeginsWithZero(s) || (s.seen == {} && msg.seqno == 0 && PastBeginsWithZero(s.past))
    ensures BeginsWithZero(HandleOpen(s, msg, e))
  {
    NothingAccepted(s);
    HandleOpenOutcome(s, msg, e);
    if WithinCaps(s, msg.seqno) {
      assert msg.seqno as nat in HandleOpen(s, msg, e).seen;
    }
  }

  lemma BlockBeginsWithZero(s: State, sessionN: uint32, msg: BlockMsg, e: BlockEnv)
    requires Inv(s) && BeginsWithZero(s) && WriteSucceeds(e)
    ensures BeginsWithZero(HandleBlock(s, sessionN, msg, e))
  {
    if s.fp.Some? {
      OpenBlockBeginsWithZero(s, msg, e);
    } else if msg.seqno == 0 && e.openOk {
      OpenInv(s, sessionN, e);
      OpenBlockBeginsWithZero(Open(s, sessionN, e), msg, e);
    }
  }

  lemma StepBeginsWithZero(s: State, op: Op)
    requires Inv(s) && BeginsWithZero(s) && BlockWritesSucceed(op)
    ensures BeginsWithZero(Step(s, op))
  {
    hide AcceptedSeqnos, AckedSeqnos, Accounting, Pacing, HandleBlock, Tick, NextSession;
    EmptyHistory();
    match op
    case OpBlock(n, msg, e) => BlockBeginsWithZero(s, n, msg, e);
    case OpTick(now, order, ok) =>
      TickFile(s, now, order, ok);
      TickFrame(s, now, order, ok);
    case OpObserve(m, day) =>
    case OpTlogFile(day, n, content) =>
    case OpUnlink(name) =>
  }

  lemma {:induction false} RunBeginsWithZero(s: State, ops: seq<Op>)
    requires Inv(s) && BeginsWithZero(s)
    requires forall i :: 0 <= i < |ops| ==> BlockWritesSucceed(ops[i])
    ensures BeginsWithZero(Run(s, ops))
    decreases |ops|
  {
    if |ops| != 0 {
      StepInv(s, ops[0]);
      StepBeginsWithZero(s, ops[0]);
      RunBeginsWithZero(Step(s, ops[0]), ops[1..]);
    }
  }

  /** When no write fails, the first block written to any session file is block 0. */
  lemma FirstBlockLaw(filter: nat, disk: Disk, ops: seq<Op>)
    requires forall i :: 0 <= i < |ops| ==> BlockWritesSucceed(ops[i])
    ensures var s := Run(Init(filter, disk), ops);
            && (AcceptedSeqnos(s.log) != [] ==> AcceptedSeqnos(s.log)[0] == 0)
            && (s.fp.Some? && AcceptedSeqnos(s.log) == [] ==> s.others + 200 > 1073741824)
            && PastBeginsWithZero(s.past)
  {
    InitInv(filter, disk);
    RunInv(Init(filter, disk), ops);
    RunBeginsWithZero(Init(filter, disk), ops);
    NothingAccepted(Run(Init(filter, disk), ops));
  }

  /** What the block that opens a file leaves: block 0 accepted, or an empty file. */
  lemma OpeningOutcome(s: State, sessionN: uint32, opening: BlockMsg, e: BlockEnv)
    requires Inv(s) && s.fp.None? && opening.seqno == 0 && e.openOk
    ensures var t := HandleBlock(s, sessionN, opening, e);
            && Tracking(t) && t.fp.Some?
            && (if WriteSucceeds(e) && e.openScan + 200 <= 1073741824 then AcceptedSeqnos(t.log) == [0]
                else AcceptedSeqnos(t.log) == [] && t.size == 0 && t.others == e.openScan)
  {
    OpenInv(s, sessionN, e);
    var base := Open(s, sessionN, e);
    NothingAccepted(base);
    HandleOpenInv(base, opening, e);
    HandleOpenOutcome(base, opening, e);
    hide Book, WriteBlock, Accounting, Pacing, AcceptedSeqnos;
  }

  /** A later block is the only one accepted exactly when nothing was before it, the caps allow it and its write succeeds. */
  lemma OnlyAcceptedExactlyWhen(t: State, n: uint32, msg: BlockMsg, f: BlockEnv)
    requires Tracking(t) && t.fp.Some?
    requires AcceptedSeqnos(t.log) == [] || AcceptedSeqnos(t.log) == [0]
    ensures msg.seqno != 0 ==>
      (AcceptedSeqnos(HandleBlock(t, n, msg, f).log) == [msg.seqno] <==>
       AcceptedSeqnos(t.log) == [] && WithinCaps(t, msg.seqno) && WriteSucceeds(f))
  {
    HandleOpenOutcome(t, msg, f);
    hide HandleOpen, AcceptedSeqnos, WithinCaps;
  }

  /** Some block other than 0 can become the first one accepted. */
  ghost predicate CanBeginOtherwise(t: State) {
    exists n: uint32, msg: BlockMsg, f: BlockEnv ::
      msg.seqno != 0 && AcceptedSeqnos(HandleBlock(t, n, msg, f).log) == [msg.seqno]
  }

  lemma CanBeginOtherwiseExactlyWhen(t: State, data: Payload)
    requires Tracking(t) && t.fp.Some? && t.size == 0 && AcceptedSeqnos(t.log) == []
    ensures CanBeginOtherwise(t) <==> t.others + 400 <= 1073741824
  {
    hide HandleBlock, AcceptedSeqnos;
    if t.others + 400 <= 1073741824 {
      var msg, f := BlockMsg(0, 0, 1, data), BlockEnv(0, true, 0, true, 200, 0, 1);
      OnlyAcceptedExactlyWhen(t, 0, msg, f);
      assert AcceptedSeqnos(HandleBlock(t, 0, msg, f).log) == [msg.seqno];
    } else {
      forall n: uint32, msg: BlockMsg, f: BlockEnv | msg.seqno != 0
        ensures AcceptedSeqnos(HandleBlock(t, n, msg, f).log) != [msg.seqno]
      {
        OnlyAcceptedExactlyWhen(t, n, msg, f);
      }
    }
  }

  /**
   Exactly when the law can break: after the block that opens a file, some later block other than 0 can be
   the first one accepted if and only if the opening write failed and the quota has room for two blocks.
   */
  lemma FirstBlockBreaksExactlyWhen(s: State, sessionN: uint32, opening: BlockMsg, e: BlockEnv)
    requires Inv(s) && s.fp.None? && opening.seqno == 0 && e.openOk
    ensures CanBeginOtherwise(HandleBlock(s, sessionN, opening, e)) <==>
            !WriteSucceeds(e) && e.openScan + 400 <= 1073741824
  {
    hide HandleBlock, AcceptedSeqnos, Accounting, Pacing;
    OpeningOutcome(s, sessionN, opening, e);
    var t := HandleBlock(s, sessionN, opening, e);
    if AcceptedSeqnos(t.log) == [] {
      CanBeginOtherwiseExactlyWhen(t, opening.data);
    } else {
      forall n: uint32, msg: BlockMsg, f: BlockEnv | msg.seqno != 0
        ensures AcceptedSeqnos(HandleBlock(t, n, msg, f).log) != [msg.seqno]
      {
        OnlyAcceptedExactlyWhen(t, n, msg, f);
      }
    }
  }
}
