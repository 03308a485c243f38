/** Which boot clock readings end a session, from the readings themselves. */
module BinlogReboot {
  import opened Bytes
  import opened BinlogSpec
  import opened BinlogInvariants
  import opened BinlogRotation

  /** A SYSTEM_TIME message from the autopilot of the vehicle in question, or of any when there is no filter. */
  predicate Reading(filter: nat, m: UserMsg) {
    m.isSystemTime && m.fromAutopilot && (filter == 0 || filter == m.sysid)
  }

  /** A reading is remembered whether or not it ended a session, and no other message changes anything. */
  lemma ReadingKept(s: State, m: UserMsg, day: int)
    ensures var t := Step(s, OpObserve(m, day));
            if Reading(s.sysidFilter, m) then t.lastBootMs == m.bootMs && t.sysidFilter == s.sysidFilter else t == s
  {
  }

  /** Blocks, ticks and the rest of the world leave the boot clock alone. */
  lemma OthersKeepClock(s: State, op: Op)
    requires !op.OpObserve?
    ensures Step(s, op).lastBootMs == s.lastBootMs && Step(s, op).sysidFilter == s.sysidFilter
  {
    match op
    case OpBlock(n, msg, e) => BlockKeepsClock(s, n, msg, e);
    case OpTick(now, order, ok) => TickFrame(s, now, order, ok);
    case OpTlogFile(day, n, content) =>
    case OpUnlink(name) =>
  }

  lemma BlockKeepsClock(s: State, sessionN: uint32, msg: BlockMsg, e: BlockEnv)
    ensures var t := HandleBlock(s, sessionN, msg, e); t.lastBootMs == s.lastBootMs && t.sysidFilter == s.sysidFilter
  {
  }

  /** The last reading among `ops`, or `last` if there is none. */
  function LastReading(filter: nat, last: nat, ops: seq<Op>): nat {
    if ops == [] then last
    else
      var op := ops[|ops| - 1];
      if op.OpObserve? && Reading(filter, op.user) then op.user.bootMs else LastReading(filter, last, ops[..|ops| - 1])
  }

  lemma {:induction false} RunAppend(s: State, ops: seq<Op>, more: seq<Op>)
    ensures Run(s, ops + more) == Run(Run(s, ops), more)
    decreases |ops|
  {
    hide Step;
    if ops == [] {
      assert ops + more == more;
    } else {
      assert (ops + more)[1..] == ops[1..] + more;
      RunAppend(Step(s, ops[0]), ops[1..], more);
    }
  }

  lemma RunNothing(s: State)
    ensures Run(s, []) == s
  {
  }

  lemma RunLast(s: State, ops: seq<Op>)
    requires ops != []
    ensures Run(s, ops) == Step(Run(s, ops[..|ops| - 1]), ops[|ops| - 1])
  {
    hide Step;
    var rest, op := ops[..|ops| - 1], ops[|ops| - 1];
    assert ops == rest + [op];
    RunAppend(s, rest, [op]);
    assert Run(Run(s, rest), [op]) == Step(Run(s, rest), op);
  }

  lemma {:induction false} ClockIsLastReading(s: State, ops: seq<Op>)
    ensures var t := Run(s, ops);
            t.sysidFilter == s.sysidFilter && t.lastBootMs == LastReading(s.sysidFilter, s.lastBootMs, ops)
    decreases |ops|
  {
    RunNothing(s);
    hide Step, Run;
    if ops != [] {
      var rest, op := ops[..|ops| - 1], ops[|ops| - 1];
      RunLast(s, ops);
      ClockIsLastReading(s, rest);
      if op.OpObserve? {
        ReadingKept(Run(s, rest), op.user, op.day);
      } else {
        OthersKeepClock(Run(s, rest), op);
      }
    }
  }

  /** The state a reboot leaves behind: nothing open, seen, queued or chased, and a START due at once. */
  ghost predicate Ended(s: State, t: State, m: UserMsg, day: int)
    requires s.fp.Some?
  {
    && t.past == s.past + [Session(s.log, s.acks, s.fp.value)] && t.log == []
    && t.fp.None? && t.seen == {} && t.highest == 0 && t.acks == [] && t.nacks == map[]
    && t.pendingSession == NextSession(s.disk.dir, day)
    && t.lastStart == 0 && t.lastBootMs == m.bootMs
    && t.anyBlock == s.anyBlock && t.targetSystem == s.targetSystem && t.targetComponent == s.targetComponent
    && t.disk == s.disk
  }

  /**
   Over any run, a reading ends the session exactly when a file is open, the reading before it was not 0, and the
   new one, ten seconds on in 32 bits, does not exceed it. Otherwise the new reading is all that changes.
   */
  lemma EndsSessionExactlyWhen(filter: nat, disk: Disk, ops: seq<Op>, m: UserMsg, day: int)
    requires Reading(filter, m)
    ensures var s := Run(Init(filter, disk), ops);
            var t := Run(Init(filter, disk), ops + [OpObserve(m, day)]);
            var last := LastReading(filter, 0, ops);
            if s.fp.Some? && last != 0 && (m.bootMs + 10000) % 0x1_0000_0000 <= last then s.fp.Some? && Ended(s, t, m, day)
            else t == s.(lastBootMs := m.bootMs)
  {
    var start := Init(filter, disk);
    ClockIsLastReading(start, ops);
    RunLast(start, ops + [OpObserve(m, day)]);
    assert (ops + [OpObserve(m, day)])[..|ops|] == ops;
    hide Run, LastReading, NextSession;
  }

  /** The reading before is the last one, whatever other things happened in between. */
  lemma {:induction false} LastOf(filter: nat, before: seq<Op>, m: UserMsg, day: int, between: seq<Op>)
    requires Reading(filter, m)
    requires forall i :: 0 <= i < |between| && between[i].OpObserve? ==> !Reading(filter, between[i].user)
    ensures LastReading(filter, 0, before + [OpObserve(m, day)] + between) == m.bootMs
    decreases |between|
  {
    var all := before + [OpObserve(m, day)] + between;
    if between == [] {
      assert all[|all| - 1] == OpObserve(m, day);
    } else {
      assert all[|all| - 1] == between[|between| - 1];
      assert all[..|all| - 1] == before + [OpObserve(m, day)] + between[..|between| - 1];
      LastOf(filter, before, m, day, between[..|between| - 1]);
    }
  }

  // ---------------------------------------------------------------- a reboot, step by step

  function Heard(bootMs: uint32): Op {
    OpObserve(UserMsg(true, 1, true, bootMs), 0)
  }

  const NO_FILES: Disk := Disk([], map[])

  function FirstBlock(data: Payload): Op {
    OpBlock(1, BlockMsg(1, 1, 0, data), BlockEnv(0, true, 0, true, 200, 0, 1))
  }

  lemma FirstBlockLands(data: Payload)
    ensures var s := Step(Init(0, NO_FILES), FirstBlock(data));
            s.fp == Some(0) && s.past == [] && s.disk == Disk([data], map[Name(0, 1, Bin) := 0])
  {
    assert WriteAt([], 0, data) == data;
    assert data[..200] == data;
  }

  lemma RunOne(s: State, op: Op)
    ensures Run(s, [op]) == Step(s, op)
  {
    hide Step;
    assert [op][..0] == [];
    RunLast(s, [op]);
    RunNothing(s);
  }

  /** The first reading of a run is only remembered. */
  lemma BeforeReboot(data: Payload)
    ensures var s := Run(Init(0, NO_FILES), [FirstBlock(data), Heard(600000)]);
            s.fp == Some(0) && s.past == [] && s.disk == Disk([data], map[Name(0, 1, Bin) := 0])
    ensures LastReading(0, 0, [FirstBlock(data), Heard(600000)]) == 600000
  {
    var first := FirstBlock(data);
    LastOf(0, [first], Heard(600000).user, 0, []);
    assert [first] + [Heard(600000)] + [] == [first, Heard(600000)];
    assert LastReading(0, 0, [first]) == 0;
    FirstBlockLands(data);
    hide Run, Step, LastReading;
    RunOne(Init(0, NO_FILES), first);
    EndsSessionExactlyWhen(0, NO_FILES, [first], Heard(600000).user, 0);
    assert [first] + [Heard(600000)] == [first, Heard(600000)];
  }

  /** Block 0 opens a file; the boot clock says ten minutes, and then five seconds: the session is over. */
  lemma RebootRotates(data: Payload)
    ensures var s := Run(Init(0, NO_FILES), [FirstBlock(data), Heard(600000)]);
            var t := Run(Init(0, NO_FILES), [FirstBlock(data), Heard(600000), Heard(5000)]);
            && s.fp == Some(0) && s.past == []
            && t.fp == None && |t.past| == 1 && t.past[0].inode == 0 && t.pendingSession == 2
            && t.disk.inodes == [data]
  {
    hide Run, LastReading, NextSession;
    var ops := [FirstBlock(data), Heard(600000)];
    BeforeReboot(data);
    EndsSessionExactlyWhen(0, NO_FILES, ops, Heard(5000).user, 0);
    assert ops + [Heard(5000)] == [FirstBlock(data), Heard(600000), Heard(5000)];
    NextSessionIsOneMore(map[Name(0, 1, Bin) := 0], 0);
    assert Name(0, 1, Bin) in map[Name(0, 1, Bin) := 0];
  }
}
