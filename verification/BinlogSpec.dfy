/**
 The dataflash-over-MAVLink receiver as a state machine on values.

 A `State` holds what one BinlogWriter holds (the bitmap as the set it denotes), the log directory it
 writes into, and a history of what happened: the events of the session file now open (or awaited), and
 the finished sessions. Times are integer microseconds. Everything the writer cannot choose (the date,
 the outcome of an open, seek, write or send, the directory scan, the iteration order of the hash map)
 is an argument of the step.
 */
module BinlogSpec {
  import opened Bytes

  const BLOCK_BYTES: nat := 200
  const MAX_NACKS_PER_TICK: nat := 10
  const NACK_REPEAT_US: int := 100_000
  const NACK_GIVEUP_US: int := 60_000_000
  const NACK_GIVEUP_BLOCKS: nat := 200
  const START_REPEAT_US: int := 1_000_000
  const START_KEEPALIVE_US: int := 5_000_000
  const REBOOT_TIME_BACKWARD_MS: nat := 10000
  const MAX_FORWARD_JUMP_BYTES: nat := 104857600
  const MAX_PER_PORT2_BYTES: nat := 1073741824
  const QUOTA_REFRESH_WRITES: nat := 10000
  const TWO_32: nat := 0x1_0000_0000

  type uint32 = n: nat | n < 0x1_0000_0000
  type Payload = d: seq<byte> | |d| == 200 witness Zeros(200)

  /** A reading of the wall clock, which is always after the epoch. */
  type Micros = t: int | 0 < t witness 1

  function Wrap32(n: nat): uint32 {
    n % 0x1_0000_0000
  }

  // ---------------------------------------------------------------- the log directory

  datatype Ext = Tlog | Bin

  /** `<day>/session<n>.<ext>` under the directory of the port pair. */
  datatype Name = Name(day: int, session: uint32, ext: Ext)

  /** File contents by inode number, and the directory entries that point at them. */
  datatype Disk = Disk(inodes: seq<seq<byte>>, dir: map<Name, nat>)

  /** `fseek` to `off` then `fwrite`: a gap before `off` reads as zeros, and writing nothing changes nothing. */
  function WriteAt(file: seq<byte>, off: nat, data: seq<byte>): seq<byte> {
    if data == [] then file
    else
      var head := if |file| < off then file + Zeros(off - |file|) else file[..off];
      head + data + (if off + |data| < |file| then file[off + |data|..] else [])
  }

  /** `fopen(name, "wb+")`: truncate the file that has this name, or make a new one. */
  function OpenTruncate(disk: Disk, name: Name): (r: (Disk, nat)) {
    if name in disk.dir && disk.dir[name] < |disk.inodes| then
      (disk.(inodes := disk.inodes[disk.dir[name] := []]), disk.dir[name])
    else
      (Disk(disk.inodes + [[]], disk.dir[name := |disk.inodes|]), |disk.inodes|)
  }

  /** The session numbers that appear in the directory of one day, under either extension. */
  function SessionsOn(dir: map<Name, nat>, day: int): set<uint32> {
    set name | name in dir && name.day == day :: name.session
  }

  // ---------------------------------------------------------------- state

  datatype NackState = NackState(firstSeen: int, lastSent: int)

  datatype Event =
    | Accepted(seqno: nat, data: Payload)
    | GapNoticed(seqnos: set<nat>)
    | AckSent(seqno: nat, ok: bool)
    | NackSent(seqno: nat, at: int, ok: bool)
    | StartSent(at: int, ok: bool)
    | Abandoned(seqnos: set<nat>)

  /** A session that a rotation ended: its history, the ACKs the rotation threw away, and its file. */
  datatype Session = Session(log: seq<Event>, discarded: seq<nat>, inode: nat)

  datatype State = State(
    fp: Option<nat>,
    seen: set<nat>,
    highest: nat,
    anyBlock: bool,
    lastStart: int,
    targetSystem: nat,
    targetComponent: nat,
    acks: seq<nat>,
    nacks: map<nat, NackState>,
    size: nat,
    others: nat,
    writesSinceScan: nat,
    sysidFilter: nat,
    lastBootMs: nat,
    pendingSession: uint32,
    disk: Disk,
    log: seq<Event>,
    past: seq<Session>)

  function Init(sysidFilter: nat, disk: Disk): State {
    State(None, {}, 0, false, 0, 0, 0, [], map[], 0, 0, 0, sysidFilter, 0, 0, disk, [], [])
  }

  // ---------------------------------------------------------------- blocks

  datatype BlockMsg = BlockMsg(sysid: nat, compid: nat, seqno: uint32, data: Payload)

  /** What the system answers while one block is handled. `wrote` is what `fwrite` reports. */
  datatype BlockEnv = BlockEnv(
    day: int, openOk: bool, openScan: nat, seekOk: bool, wrote: nat, rescan: nat, now: Micros)

  predicate WriteSucceeds(e: BlockEnv) {
    e.seekOk && e.wrote >= BLOCK_BYTES
  }

  /** A write that leaves no trace or is complete. */
  predicate WriteAtomic(e: BlockEnv) {
    !e.seekOk || e.wrote == 0 || e.wrote >= BLOCK_BYTES
  }

  function Prospective(size: nat, seqno: nat): nat {
    Max(size, seqno * BLOCK_BYTES + BLOCK_BYTES)
  }

  /** Both caps: growth by one write, and the bytes of the whole port pair. */
  predicate WithinCaps(s: State, seqno: nat) {
    && Prospective(s.size, seqno) - s.size <= MAX_FORWARD_JUMP_BYTES
    && s.others + Prospective(s.size, seqno) <= MAX_PER_PORT2_BYTES
  }

  function Open(s: State, sessionN: uint32, e: BlockEnv): State {
    var n := if s.pendingSession != 0 then s.pendingSession else sessionN;
    var (disk, inode) := OpenTruncate(s.disk, Name(e.day, n, Bin));
    s.(fp := Some(inode), disk := disk, size := 0, others := e.openScan, writesSinceScan := 0,
       pendingSession := 0)
  }

  function Latch(s: State, msg: BlockMsg): State {
    if s.anyBlock then s
    else s.(targetSystem := msg.sysid, targetComponent := msg.compid, anyBlock := true)
  }

  /** The file after `fwrite` reported `wrote` bytes of the block. */
  function WriteBlock(s: State, msg: BlockMsg, e: BlockEnv): State {
    if s.fp.None? || s.fp.value >= |s.disk.inodes| then s
    else
      var data := msg.data[..Min(e.wrote, BLOCK_BYTES)];
      var file := WriteAt(s.disk.inodes[s.fp.value], msg.seqno * BLOCK_BYTES, data);
      s.(disk := s.disk.(inodes := s.disk.inodes[s.fp.value := file]))
  }

  /** The seqnos strictly between `prev` and `next` that are neither seen nor chased already. */
  function GapSeqnos(seen: set<nat>, nacks: map<nat, NackState>, prev: nat, next: nat): set<nat> {
    set k | prev < k < next && k !in seen && k !in nacks
  }

  function QueueGaps(seen: set<nat>, nacks: map<nat, NackState>, prev: nat, next: nat, now: int)
    : map<nat, NackState>
  {
    nacks + map k | k in GapSeqnos(seen, nacks, prev, next) :: NackState(now, 0)
  }

  /** The tracked size, and the periodic scan of the other sessions. */
  function CountWrite(s: State, k: nat, rescan: nat): State {
    var due := s.writesSinceScan + 1 >= QUOTA_REFRESH_WRITES;
    s.(size := Prospective(s.size, k),
       others := if due then rescan else s.others,
       writesSinceScan := if due then 0 else s.writesSinceScan + 1)
  }

  /** The seen set, the NACK map and `highest_seen`. */
  function Track(s: State, k: nat, now: int): State {
    var seen := s.seen + {k};
    var nacks := s.nacks - {k};
    var jump := k > Wrap32(s.highest + 1);
    s.(seen := seen,
       nacks := if jump then QueueGaps(seen, nacks, s.highest, k, now) else nacks,
       highest := Max(s.highest, k),
       log := s.log + [GapNoticed(if jump then GapSeqnos(seen, nacks, s.highest, k) else {})])
  }

  function QueueAck(s: State, k: nat, data: Payload): State {
    s.(acks := s.acks + [k], log := s.log + [Accepted(k, data)])
  }

  /** All bookkeeping for a block whose 200 bytes are in the file. */
  function Book(s: State, msg: BlockMsg, e: BlockEnv): State {
    QueueAck(Track(CountWrite(s, msg.seqno, e.rescan), msg.seqno, e.now), msg.seqno, msg.data)
  }

  /** The part of `handle_block` after the strict-start gate. */
  function HandleOpen(s: State, msg: BlockMsg, e: BlockEnv): State {
    if !WithinCaps(s, msg.seqno) then s
    else
      var latched := Latch(s, msg);
      if !e.seekOk then latched
      else
        var written := WriteBlock(latched, msg, e);
        if e.wrote < BLOCK_BYTES then written else Book(written, msg, e)
  }

  function HandleBlock(s: State, sessionN: uint32, msg: BlockMsg, e: BlockEnv): State {
    if s.fp.Some? then HandleOpen(s, msg, e)
    else if msg.seqno != 0 || !e.openOk then s
    else HandleOpen(Open(s, sessionN, e), msg, e)
  }

  // ---------------------------------------------------------------- tick

  function SendStart(s: State, now: int, ok: bool): State {
    s.(lastStart := if ok then now else s.lastStart, log := s.log + [StartSent(now, ok)])
  }

  function MaybeStart(s: State, now: int, period: int, ok: bool): State {
    if now - s.lastStart >= period then SendStart(s, now, ok) else s
  }

  function SendAck(s: State, ok: bool): State
    requires s.acks != []
  {
    s.(acks := s.acks[1..], log := s.log + [AckSent(s.acks[0], ok)])
  }

  /** Every queued ACK is handed to the link; `ok(i)` is the outcome of the send numbered `i`. */
  function DrainAcks(s: State, ok: nat -> bool, i: nat): State
    decreases |s.acks|
  {
    if s.acks == [] then s else DrainAcks(SendAck(s, ok(i)), ok, i + 1)
  }

  predicate Stale(s: State, k: nat, now: int)
    requires k in s.nacks
  {
    || k in s.seen
    || now - s.nacks[k].firstSeen > NACK_GIVEUP_US
    || (s.highest >= k && s.highest - k > NACK_GIVEUP_BLOCKS)
  }

  function StaleKeys(s: State, now: int): set<nat> {
    set k | k in s.nacks && Stale(s, k, now)
  }

  function Prune(s: State, now: int): State {
    s.(nacks := s.nacks - StaleKeys(s, now), log := s.log + [Abandoned(StaleKeys(s, now))])
  }

  predicate Throttled(n: NackState, now: int) {
    n.lastSent != 0 && now - n.lastSent < NACK_REPEAT_US
  }

  function SendNack(s: State, k: nat, now: int, ok: bool): State
    requires k in s.nacks
  {
    s.(nacks := if ok then s.nacks[k := s.nacks[k].(lastSent := now)] else s.nacks,
       log := s.log + [NackSent(k, now, ok)])
  }

  /** The re-NACK loop over the hash map, in the iteration order `order`. */
  function Renack(s: State, order: seq<nat>, now: int, budget: nat, ok: nat -> bool, i: nat): State
    decreases |order|
  {
    if order == [] || budget == 0 then s
    else if order[0] !in s.nacks || Throttled(s.nacks[order[0]], now) then
      Renack(s, order[1..], now, budget, ok, i)
    else
      Renack(SendNack(s, order[0], now, ok(i)), order[1..], now,
             if ok(i) then budget - 1 else budget, ok, i + 1)
  }

  function Tick(s: State, now: Micros, order: seq<nat>, ok: nat -> bool): State {
    if !s.anyBlock then MaybeStart(s, now, START_REPEAT_US, ok(0))
    else
      var started := MaybeStart(s, now, START_KEEPALIVE_US, ok(0));
      if s.fp.None? then started
      else
        var drained := DrainAcks(started, ok, 1);
        Renack(Prune(drained, now), order, now, MAX_NACKS_PER_TICK, ok, 1 + |s.acks|)
  }

  // ---------------------------------------------------------------- reboot detection

  datatype UserMsg = UserMsg(isSystemTime: bool, sysid: nat, fromAutopilot: bool, bootMs: uint32)

  predicate Watched(s: State, m: UserMsg) {
    m.isSystemTime && m.fromAutopilot && (s.sysidFilter == 0 || m.sysid == s.sysidFilter)
  }

  /** The 32-bit comparison of `observe`. */
  predicate DetectsReboot(s: State, m: UserMsg) {
    && s.lastBootMs != 0
    && Wrap32(m.bootMs + REBOOT_TIME_BACKWARD_MS) <= s.lastBootMs
    && s.fp.Some?
  }

  /** The largest of a set of session numbers, or 0. */
  ghost function Highest(sessions: set<uint32>): (h: uint32)
    ensures forall n :: n in sessions ==> n <= h
    ensures h == 0 || h in sessions
  {
    if sessions == {} then 0
    else
      var n :| n in sessions;
      var rest := Highest(sessions - {n});
      assert forall m :: m in sessions ==> m == n || m in sessions - {n};
      if rest < n then n else rest
  }

  ghost function NextSession(dir: map<Name, nat>, day: int): uint32 {
    Wrap32(Highest(SessionsOn(dir, day)) + 1)
  }

  ghost function Rotate(s: State, day: int): State {
    s.(fp := None, seen := {}, highest := 0, acks := [], nacks := map[], lastStart := 0, lastBootMs := 0,
       pendingSession := NextSession(s.disk.dir, day),
       past := s.past + [Session(s.log, s.acks, if s.fp.Some? then s.fp.value else 0)], log := [])
  }

  ghost function Observe(s: State, m: UserMsg, day: int): State {
    if !Watched(s, m) then s
    else (if DetectsReboot(s, m) then Rotate(s, day) else s).(lastBootMs := m.bootMs)
  }

  // ---------------------------------------------------------------- the rest of the world

  /** Some other program (the tlog writer of this port pair) makes a file. */
  function TlogFile(s: State, day: int, n: uint32, content: seq<byte>): State {
    var name := Name(day, n, Tlog);
    s.(disk := Disk(s.disk.inodes + [content], s.disk.dir[name := |s.disk.inodes|]))
  }

  /** The cleanup process removes a directory entry, possibly that of the open file. */
  function Unlink(s: State, name: Name): State {
    s.(disk := s.disk.(dir := s.disk.dir - {name}))
  }

  // ---------------------------------------------------------------- runs

  datatype Op =
    | OpBlock(sessionN: uint32, msg: BlockMsg, env: BlockEnv)
    | OpTick(now: Micros, order: seq<nat>, ok: nat -> bool)
    | OpObserve(user: UserMsg, day: int)
    | OpTlogFile(day: int, n: uint32, content: seq<byte>)
    | OpUnlink(name: Name)

  ghost function Step(s: State, op: Op): State {
    match op
    case OpBlock(n, msg, e) => HandleBlock(s, n, msg, e)
    case OpTick(now, order, ok) => Tick(s, now, order, ok)
    case OpObserve(m, day) => Observe(s, m, day)
    case OpTlogFile(day, n, content) => TlogFile(s, day, n, content)
    case OpUnlink(name) => Unlink(s, name)
  }

  ghost function Run(s: State, ops: seq<Op>): State
    decreases |ops|
  {
    if ops == [] then s else Run(Step(s, ops[0]), ops[1..])
  }
}
