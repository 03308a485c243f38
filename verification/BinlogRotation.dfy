/** Reboot detection and rotation: when it fires, and that a file it closes is never touched again. */
module BinlogRotation {
  import opened Bytes
  import opened BinlogSpec
  import opened BinlogInvariants
  import opened BinlogFiles

  // ---------------------------------------------------------------- when a reboot is detected

  /** The documented trigger: the boot clock went back by at least ten seconds. */
  predicate BackwardJump(last: nat, now: nat) {
    now + 10000 <= last
  }

  /**
   The 32-bit sum makes the trigger differ from the documented one: with a file open and a last reading
   known, the two agree exactly when the new reading is not in the last ten seconds of the 49.7-day range,
   or its wrapped sum is still beyond the last reading.
   */
  lemma DetectsBackwardJumpExactlyWhen(s: State, m: UserMsg)
    requires s.fp.Some? && s.lastBootMs != 0 && s.lastBootMs < TWO_32
    ensures (DetectsReboot(s, m) <==> BackwardJump(s.lastBootMs, m.bootMs))
            <==> (m.bootMs < TWO_32 - 10000 || m.bootMs + 10000 - TWO_32 > s.lastBootMs)
  {
  }

  /** A forward step near the end of the range rotates the file. */
  lemma ForwardJumpRotates(s: State, day: int)
    requires s.fp.Some? && s.lastBootMs == 10000 && s.sysidFilter == 0
    ensures Observe(s, UserMsg(true, 1, true, 4294967295), day).fp.None?
    ensures !BackwardJump(s.lastBootMs, 4294967295)
  {
    assert Wrap32(4294967295 + 10000) == 9999;
  }

  // ---------------------------------------------------------------- silence until a fresh start

  ghost predicate OpensNothing(op: Op) {
    op.OpBlock? ==> op.msg.seqno != 0 || !op.env.openOk
  }

  /** After a rotation no block leaves a trace until one with seqno 0 opens the next file. */
  lemma {:induction false} SilentUntilFreshStart(s: State, ops: seq<Op>)
    requires s.fp.None? && forall i :: 0 <= i < |ops| ==> OpensNothing(ops[i])
    ensures var t := Run(s, ops);
            && t.fp.None?
            && |s.disk.inodes| <= |t.disk.inodes|
            && t.disk.inodes[..|s.disk.inodes|] == s.disk.inodes
            && t.acks == s.acks && t.seen == s.seen && t.past == s.past
            && AcceptedSeqnos(t.log) == AcceptedSeqnos(s.log)
            && t.pendingSession == s.pendingSession
    decreases |ops|
  {
    if |ops| != 0 {
      var u := Step(s, ops[0]);
      if ops[0].OpTick? {
        TickFile(s, ops[0].now, ops[0].order, ops[0].ok);
      }
      SilentUntilFreshStart(u, ops[1..]);
    }
  }

  // ---------------------------------------------------------------- closed files stay as they are

  /** The session number the next open will use. */
  function NextNumber(s: State, sessionN: uint32): uint32 {
    if s.pendingSession != 0 then s.pendingSession else sessionN
  }

  /** The block that opens a file makes an entry of that number for the day it arrives, and uses the number up. */
  lemma OpensUnderNextNumber(s: State, sessionN: uint32, msg: BlockMsg, e: BlockEnv)
    requires s.fp.None? && msg.seqno == 0 && e.openOk
    ensures var t := HandleBlock(s, sessionN, msg, e);
            var name := Name(e.day, if s.pendingSession != 0 then s.pendingSession else sessionN, Bin);
            && t.pendingSession == 0 && t.fp.Some?
            && t.disk.dir.Keys == s.disk.dir.Keys + {name} && t.disk.dir[name] == t.fp.value
            && forall n <- s.disk.dir :: n != name ==> t.disk.dir[n] == s.disk.dir[n]
  {
    hide HandleOpen;
    KeepsEntries(Open(s, sessionN, e), msg, e);
  }

  lemma KeepsEntries(s: State, msg: BlockMsg, e: BlockEnv)
    requires s.fp.Some?
    ensures var t := HandleOpen(s, msg, e);
            t.pendingSession == s.pendingSession && t.fp == s.fp && t.disk.dir == s.disk.dir
  {
  }

  /** No day from `today` on has a .bin file numbered `n`. */
  ghost predicate Unused(dir: map<Name, nat>, n: uint32, today: int) {
    forall day :: today <= day ==> Name(day, n, Bin) !in dir
  }

  /** Every entry points at its own file and is not from the future, and the next open makes a new file. */
  ghost predicate Fresh(s: State, today: int, sessionN: uint32) {
    && (forall n :: n in s.disk.dir ==> s.disk.dir[n] < |s.disk.inodes| && n.day <= today)
    && (s.fp.Some? ==> s.fp.value < |s.disk.inodes|)
    && (s.fp.None? ==> Unused(s.disk.dir, NextNumber(s, sessionN), today))
  }

  function DayOf(op: Op, today: int): int {
    match op
    case OpBlock(_, _, e) => e.day
    case OpObserve(_, day) => day
    case OpTlogFile(day, _, _) => day
    case _ => today
  }

  /**
   What the rest of the system does around one writer: the date does not go back, the caller's session
   number is fixed, and no rotation happens while the day's directory holds session 4294967295.
   */
  ghost predicate Orderly(s: State, today: int, sessionN: uint32, op: Op) {
    && today <= DayOf(op, today)
    && (op.OpBlock? ==> op.sessionN == sessionN)
    && (op.OpObserve? && Watched(s, op.user) && DetectsReboot(s, op.user) ==>
          Highest(SessionsOn(s.disk.dir, op.day)) < TWO_32 - 1)
  }

  ghost predicate OrderlyRun(s: State, today: int, sessionN: uint32, ops: seq<Op>)
    decreases |ops|
  {
    |ops| != 0 ==>
      && Orderly(s, today, sessionN, ops[0])
      && OrderlyRun(Step(s, ops[0]), DayOf(ops[0], today), sessionN, ops[1..])
  }

  /** The number chosen by a rotation is above every session number of that day. */
  lemma NextSessionExceeds(dir: map<Name, nat>, day: int)
    ensures var top := Highest(SessionsOn(dir, day));
            (forall n :: n in dir && n.day == day ==> n.session < NextSession(dir, day)) <==>
            (top < TWO_32 - 1)
  {
    var top := Highest(SessionsOn(dir, day));
    forall n | n in dir && n.day == day ensures n.session <= top {
      assert n.session in SessionsOn(dir, day);
    }
    if top == TWO_32 - 1 {
      var n :| n in dir && n.day == day && n.session == top;
      assert !(n.session < NextSession(dir, day));
    }
  }

  /** It is one more than the largest, in 32 bits, and 1 on a day without sessions. */
  lemma NextSessionIsOneMore(dir: map<Name, nat>, day: int)
    ensures (forall n <- dir :: n.day != day) ==> NextSession(dir, day) == 1
    ensures forall top <- dir :: top.day == day && (forall n <- dir :: n.day == day ==> n.session <= top.session) ==>
      NextSession(dir, day) == (top.session + 1) % 0x1_0000_0000
  {
    var sessions := SessionsOn(dir, day);
    forall top <- dir | top.day == day && forall n <- dir :: n.day == day ==> n.session <= top.session
      ensures NextSession(dir, day) == (top.session + 1) % 0x1_0000_0000
    {
      assert top.session in sessions;
      assert forall k :: k in sessions ==> k <= top.session;
    }
  }

  lemma BlockFresh(s: State, today: int, sessionN: uint32, msg: BlockMsg, e: BlockEnv)
    requires Fresh(s, today, sessionN) && today <= e.day
    ensures Fresh(HandleBlock(s, sessionN, msg, e), e.day, sessionN)
  {
    hide WriteAt, QueueGaps, Highest;
    if s.fp.None? && msg.seqno == 0 && e.openOk {
      assert Name(e.day, NextNumber(s, sessionN), Bin) !in s.disk.dir;
    }
  }

  /** A file other than `i` is written, and file `i` is not (re)opened. */
  ghost predicate LeavesClosed(s: State, t: State, i: nat) {
    i < |s.disk.inodes| && s.fp != Some(i) ==>
      i < |t.disk.inodes| && t.fp != Some(i) && t.disk.inodes[i] == s.disk.inodes[i]
  }

  lemma BlockLeavesClosed(s: State, today: int, sessionN: uint32, msg: BlockMsg, e: BlockEnv, i: nat)
    requires Fresh(s, today, sessionN) && today <= e.day
    ensures LeavesClosed(s, HandleBlock(s, sessionN, msg, e), i)
  {
    if s.fp.None? && msg.seqno == 0 && e.openOk {
      assert Name(e.day, NextNumber(s, sessionN), Bin) !in s.disk.dir;
      assert Open(s, sessionN, e).fp == Some(|s.disk.inodes|);
    }
  }

  lemma RotateFresh(s: State, today: int, sessionN: uint32, m: UserMsg, day: int)
    requires Fresh(s, today, sessionN) && Orderly(s, today, sessionN, OpObserve(m, day))
    ensures Fresh(Observe(s, m, day), day, sessionN)
    ensures Observe(s, m, day).disk == s.disk
  {
    if Watched(s, m) && DetectsReboot(s, m) {
      var next := NextSession(s.disk.dir, day);
      NextSessionExceeds(s.disk.dir, day);
      assert NextNumber(Observe(s, m, day), sessionN) == next;
      assert Unused(s.disk.dir, next, day);
    }
  }

  lemma StepFresh(s: State, today: int, sessionN: uint32, op: Op)
    requires Fresh(s, today, sessionN) && Orderly(s, today, sessionN, op)
    ensures Fresh(Step(s, op), DayOf(op, today), sessionN)
  {
    match op
    case OpBlock(n, msg, e) => BlockFresh(s, today, n, msg, e);
    case OpTick(now, order, ok) => TickFrame(s, now, order, ok);
    case OpObserve(m, day) => RotateFresh(s, today, sessionN, m, day);
    case OpTlogFile(day, n, content) =>
    case OpUnlink(name) =>
  }

  lemma StepLeavesClosed(s: State, today: int, sessionN: uint32, op: Op, i: nat)
    requires Fresh(s, today, sessionN) && Orderly(s, today, sessionN, op)
    ensures LeavesClosed(s, Step(s, op), i)
  {
    match op
    case OpBlock(n, msg, e) => BlockLeavesClosed(s, today, n, msg, e, i);
    case OpTick(now, order, ok) => TickFrame(s, now, order, ok);
    case OpObserve(m, day) => RotateFresh(s, today, sessionN, m, day);
    case OpTlogFile(day, n, content) =>
    case OpUnlink(name) =>
  }

  /** In an orderly run, a file that is not the open one is never written, truncated or reopened. */
  lemma {:induction false} ClosedFilesNeverChange(s: State, today: int, sessionN: uint32, ops: seq<Op>, i: nat)
    requires Fresh(s, today, sessionN) && OrderlyRun(s, today, sessionN, ops)
    requires i < |s.disk.inodes| && s.fp != Some(i)
    ensures var t := Run(s, ops);
            i < |t.disk.inodes| && t.fp != Some(i) && t.disk.inodes[i] == s.disk.inodes[i]
    decreases |ops|
  {
    if |ops| != 0 {
      StepFresh(s, today, sessionN, ops[0]);
      StepLeavesClosed(s, today, sessionN, ops[0], i);
      ClosedFilesNeverChange(Step(s, ops[0]), DayOf(ops[0], today), sessionN, ops[1..], i);
    }
  }

  /** With no file open, every file there is stays as it is. */
  lemma OldFilesNeverChange(s: State, today: int, sessionN: uint32, ops: seq<Op>)
    requires Fresh(s, today, sessionN) && OrderlyRun(s, today, sessionN, ops) && s.fp.None?
    ensures s.disk.inodes <= Run(s, ops).disk.inodes
  {
    var before, now := s.disk.inodes, Run(s, ops).disk.inodes;
    forall i | 0 <= i < |before| ensures i < |now| && now[i] == before[i] {
      ClosedFilesNeverChange(s, today, sessionN, ops, i);
    }
    if before != [] {
      ClosedFilesNeverChange(s, today, sessionN, ops, |before| - 1);
    }
  }

  /** A child that starts with the next session number of its day is fresh. */
  lemma InitFresh(filter: nat, disk: Disk, today: int)
    requires forall n :: n in disk.dir ==> disk.dir[n] < |disk.inodes| && n.day <= today
    requires Highest(SessionsOn(disk.dir, today)) < TWO_32 - 1
    ensures Fresh(Init(filter, disk), today, NextSession(disk.dir, today))
  {
    NextSessionExceeds(disk.dir, today);
  }

  // ---------------------------------------------------------------- every file of a run

  /** The file holds the blocks its session accepted, apart from torn ones. */
  ghost predicate Holds(file: seq<byte>, log: seq<Event>, torn: set<nat>) {
    exists n: nat ::
      && (forall k :: k in Payloads(log) ==> k < n)
      && (n == 0 || n - 1 in Payloads(log))
      && Intact(file, Payloads(log), n * BLOCK_BYTES, torn)
  }

  /** The file of a finished session is closed and holds what the session accepted. */
  ghost predicate Archived(s: State, p: Session, torn: set<nat>) {
    p.inode < |s.disk.inodes| && s.fp != Some(p.inode) && Holds(s.disk.inodes[p.inode], p.log, torn)
  }

  ghost predicate AllArchived(s: State, d: Damage) {
    |d.past| == |s.past| && forall i :: 0 <= i < |s.past| ==> Archived(s, s.past[i], d.past[i])
  }

  lemma OpenFileHolds(s: State, torn: set<nat>)
    requires Tracking(s) && FileMatches(s, torn) && s.fp.Some?
    ensures Holds(s.disk.inodes[s.fp.value], s.log, torn)
  {
    hide Intact;
    var n := s.size / BLOCK_BYTES;
    SizeCovers(s, torn);
    assert s.size == n * BLOCK_BYTES;
    assert forall k :: k in Payloads(s.log) <==> k in s.seen;
    assert n == 0 || n - 1 in Payloads(s.log);
  }

  lemma StepPast(s: State, d: Damage, op: Op)
    requires Inv(s)
    ensures (Step(s, op).past == s.past && DamageStep(s, d, op).past == d.past) ||
            (op.OpObserve? && s.fp.Some? && Step(s, op).past == s.past + [Session(s.log, s.acks, s.fp.value)]
             && Step(s, op).fp.None? && DamageStep(s, d, op).past == d.past + [d.now])
  {
    hide TornBlock, AcceptedSeqnos, Accounting, Pacing, NextSession;
    match op
    case OpBlock(n, msg, e) =>
      if s.fp.Some? {
        HandleOpenOutcome(s, msg, e);
      } else if msg.seqno == 0 && e.openOk {
        OpenInv(s, n, e);
        HandleOpenOutcome(Open(s, n, e), msg, e);
      }
    case OpTick(now, order, ok) => TickFrame(s, now, order, ok);
    case OpObserve(m, day) =>
    case OpTlogFile(day, n, content) =>
    case OpUnlink(name) =>
  }

  lemma StepArchived(s: State, d: Damage, today: int, sessionN: uint32, op: Op)
    requires Inv(s) && FileMatches(s, d.now) && AllArchived(s, d)
    requires Fresh(s, today, sessionN) && Orderly(s, today, sessionN, op)
    ensures AllArchived(Step(s, op), DamageStep(s, d, op))
  {
    StepPast(s, d, op);
    var t, u := Step(s, op), DamageStep(s, d, op);
    forall i | 0 <= i < |t.past| ensures Archived(t, t.past[i], u.past[i]) {
      if i < |s.past| {
        assert Archived(s, s.past[i], d.past[i]);
        StepLeavesClosed(s, today, sessionN, op, s.past[i].inode);
      } else {
        OpenFileHolds(s, d.now);
        StepDisk(s, op);
      }
    }
    hide Step, DamageStep, Holds, Fresh, Orderly, Inv, FileMatches;
  }

  /** A step that ends a session touches no file. */
  lemma StepDisk(s: State, op: Op)
    ensures op.OpObserve? ==> Step(s, op).disk == s.disk
  {
    hide NextSession;
  }

  lemma {:induction false} RunArchived(s: State, d: Damage, today: int, sessionN: uint32, ops: seq<Op>)
    requires Inv(s) && FileMatches(s, d.now) && AllArchived(s, d) && Fresh(s, today, sessionN)
    requires OrderlyRun(s, today, sessionN, ops)
    ensures AllArchived(Run(s, ops), RunDamage(s, d, ops))
    decreases |ops|
  {
    hide Inv, FileMatches, AllArchived, Fresh, Orderly, Step, DamageStep, DayOf;
    if |ops| != 0 {
      var op := ops[0];
      StepInv(s, op);
      StepFile(s, d, op);
      StepArchived(s, d, today, sessionN, op);
      StepFresh(s, today, sessionN, op);
      RunArchived(Step(s, op), DamageStep(s, d, op), DayOf(op, today), sessionN, ops[1..]);
    }
  }

  /**
   Over the whole life of a child, whatever the vehicle sends, whatever writes fail and however often it reboots,
   the file of every finished session still holds the blocks that session accepted, apart from those whose last
   write was cut short; with writes that are all or nothing there are none of these.
   */
  lemma RotationIsolation(filter: nat, disk: Disk, today: int, ops: seq<Op>)
    requires forall n :: n in disk.dir ==> disk.dir[n] < |disk.inodes| && n.day <= today
    requires Highest(SessionsOn(disk.dir, today)) < TWO_32 - 1
    requires OrderlyRun(Init(filter, disk), today, NextSession(disk.dir, today), ops)
    ensures var s, d := Run(Init(filter, disk), ops), RunDamage(Init(filter, disk), UNDAMAGED, ops);
            && AllArchived(s, d)
            && disk.inodes <= s.disk.inodes
            && ((forall i :: 0 <= i < |ops| ==> BlockWritesAtomic(ops[i])) ==> Undamaged(d))
  {
    hide Run, RunDamage, OrderlyRun, Undamaged;
    var s0 := Init(filter, disk);
    var n := NextSession(disk.dir, today);
    InitInv(filter, disk);
    InitFresh(filter, disk, today);
    RunArchived(s0, UNDAMAGED, today, n, ops);
    OldFilesNeverChange(s0, today, n, ops);
    if forall i :: 0 <= i < |ops| ==> BlockWritesAtomic(ops[i]) {
      NothingDamagedYet();
      NoDamage(s0, UNDAMAGED, ops);
    }
  }

  lemma NothingDamagedYet()
    ensures Undamaged(UNDAMAGED)
  {
  }

  /**
   Why a run must not reach session 4294967295: right after a rotation, the next open on the same day makes
   a new file exactly when the day's highest number is below it, or the child's own first file is gone.
   */
  lemma NextOpenIsNewExactlyWhen(s: State, sessionN: uint32, day: int)
    requires sessionN != 0
    ensures Name(day, NextNumber(Rotate(s, day), sessionN), Bin) !in s.disk.dir <==>
            (Highest(SessionsOn(s.disk.dir, day)) < TWO_32 - 1 || Name(day, sessionN, Bin) !in s.disk.dir)
  {
    NextSessionExceeds(s.disk.dir, day);
  }
}
