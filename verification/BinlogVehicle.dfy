/** Which vehicle the receiver answers: the sender of the first block that passes the gate and both caps. */
module BinlogVehicle {
  import opened Bytes
  import opened BinlogSpec
  import opened BinlogInvariants

  /**
   A block goes through when a file is open (or the block is seqno 0 and opens one), it grows the file by at
   most 100 MiB, and the port pair stays within 1 GiB. Whether it can then be written does not matter.
   */
  predicate GoesThrough(s: State, msg: BlockMsg, e: BlockEnv) {
    var size := if s.fp.Some? then s.size else 0;
    var others := if s.fp.Some? then s.others else e.openScan;
    var end := 200 * msg.seqno + 200;
    && (s.fp.Some? || (msg.seqno == 0 && e.openOk))
    && end <= size + 104857600
    && others + (if end < size then size else end) <= 1073741824
  }

  lemma OpenBlockLatches(s: State, msg: BlockMsg, e: BlockEnv)
    requires s.fp.Some?
    ensures var t := HandleOpen(s, msg, e);
            && (t.anyBlock <==> s.anyBlock || GoesThrough(s, msg, e))
            && (if !s.anyBlock && GoesThrough(s, msg, e) then
                  t.targetSystem == msg.sysid && t.targetComponent == msg.compid
                else
                  t.targetSystem == s.targetSystem && t.targetComponent == s.targetComponent)
  {
    hide WriteAt, QueueGaps;
  }

  /** The first block to go through gives the target system and component; no other block changes them. */
  lemma BlockLatches(s: State, sessionN: uint32, msg: BlockMsg, e: BlockEnv)
    ensures var t := HandleBlock(s, sessionN, msg, e);
            && (t.anyBlock <==> s.anyBlock || GoesThrough(s, msg, e))
            && (if !s.anyBlock && GoesThrough(s, msg, e) then
                  t.targetSystem == msg.sysid && t.targetComponent == msg.compid
                else
                  t.targetSystem == s.targetSystem && t.targetComponent == s.targetComponent)
  {
    hide HandleOpen;
    if s.fp.Some? {
      OpenBlockLatches(s, msg, e);
    } else if msg.seqno == 0 && e.openOk {
      OpenBlockLatches(Open(s, sessionN, e), msg, e);
    }
  }

  datatype Vehicle = Vehicle(system: nat, component: nat)

  /** The sender of the first block that goes through in a run. */
  ghost function FirstThrough(s: State, ops: seq<Op>): Option<Vehicle>
    decreases |ops|
  {
    if ops == [] then None
    else if ops[0].OpBlock? && GoesThrough(s, ops[0].msg, ops[0].env) then
      Some(Vehicle(ops[0].msg.sysid, ops[0].msg.compid))
    else FirstThrough(Step(s, ops[0]), ops[1..])
  }

  /** Ticks, rotations and the rest of the world leave the vehicle as it is. */
  lemma OthersKeepVehicle(s: State, op: Op)
    requires !op.OpBlock?
    ensures var t := Step(s, op);
            t.anyBlock == s.anyBlock && t.targetSystem == s.targetSystem && t.targetComponent == s.targetComponent
  {
    match op
    case OpTick(now, order, ok) => TickKeepsVehicle(s, now, order, ok);
    case OpObserve(m, day) =>
    case OpTlogFile(day, n, content) =>
    case OpUnlink(name) =>
  }

  lemma TickKeepsVehicle(s: State, now: Micros, order: seq<nat>, ok: nat -> bool)
    ensures var t := Tick(s, now, order, ok);
            t.anyBlock == s.anyBlock && t.targetSystem == s.targetSystem && t.targetComponent == s.targetComponent
  {
    TickFrame(s, now, order, ok);
  }

  lemma {:induction false} VehicleStays(s: State, ops: seq<Op>)
    requires s.anyBlock
    ensures var t := Run(s, ops);
            t.anyBlock && t.targetSystem == s.targetSystem && t.targetComponent == s.targetComponent
    decreases |ops|
  {
    hide HandleBlock, Tick, Observe, GoesThrough;
    if ops != [] {
      StepLatches(s, ops[0]);
      VehicleStays(Step(s, ops[0]), ops[1..]);
    }
  }

  lemma StepLatches(s: State, op: Op)
    ensures var t := Step(s, op);
            if op.OpBlock? && !s.anyBlock && GoesThrough(s, op.msg, op.env) then
              t.anyBlock && t.targetSystem == op.msg.sysid && t.targetComponent == op.msg.compid
            else
              && (t.anyBlock <==> s.anyBlock)
              && t.targetSystem == s.targetSystem && t.targetComponent == s.targetComponent
  {
    hide HandleBlock, Tick, Observe, GoesThrough;
    if op.OpBlock? {
      BlockLatches(s, op.sessionN, op.msg, op.env);
    } else {
      OthersKeepVehicle(s, op);
    }
  }

  lemma {:induction false} FirstThroughFrom(s: State, ops: seq<Op>)
    requires !s.anyBlock
    ensures var t := Run(s, ops);
            match FirstThrough(s, ops)
            case None => !t.anyBlock && t.targetSystem == s.targetSystem && t.targetComponent == s.targetComponent
            case Some(v) => t.anyBlock && t.targetSystem == v.system && t.targetComponent == v.component
    decreases |ops|
  {
    hide Step, GoesThrough;
    if ops != [] {
      StepLatches(s, ops[0]);
      if ops[0].OpBlock? && GoesThrough(s, ops[0].msg, ops[0].env) {
        VehicleStays(Step(s, ops[0]), ops[1..]);
      } else {
        FirstThroughFrom(Step(s, ops[0]), ops[1..]);
      }
    }
  }

  /**
   Over any run the receiver answers the vehicle whose block first went through, whatever blocks from other
   vehicles, failed writes, ticks and rotations follow; until then it answers nobody.
   */
  lemma AnswersFirstVehicle(filter: nat, disk: Disk, ops: seq<Op>)
    ensures var t := Run(Init(filter, disk), ops);
            match FirstThrough(Init(filter, disk), ops)
            case None => !t.anyBlock && t.targetSystem == 0 && t.targetComponent == 0
            case Some(v) => t.anyBlock && t.targetSystem == v.system && t.targetComponent == v.component
  {
    FirstThroughFrom(Init(filter, disk), ops);
  }
}
