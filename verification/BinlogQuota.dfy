/** The quota on the directory itself: what the counter of the other sessions' bytes says about the files there. */
module BinlogQuota {
  import opened Bytes
  import opened BinlogSpec
  import opened BinlogInvariants
  import opened BinlogResults
  import opened BinlogVehicle

  // ---------------------------------------------------------------- bytes in the directory

  function SizeOf(disk: Disk, name: Name): nat {
    if name in disk.dir && disk.dir[name] < |disk.inodes| then |disk.inodes[disk.dir[name]]| else 0
  }

  ghost function BytesOf(disk: Disk, names: set<Name>): nat {
    if names == {} then 0
    else
      var n :| n in names;
      SizeOf(disk, n) + BytesOf(disk, names - {n})
  }

  /** The names of all session files but the open one: what a scan of the directory adds up. */
  function OtherNames(disk: Disk, own: nat): set<Name> {
    set n <- disk.dir.Keys | disk.dir[n] != own
  }

  ghost function OtherBytes(disk: Disk, own: nat): nat {
    BytesOf(disk, OtherNames(disk, own))
  }

  ghost function TotalBytes(disk: Disk): nat {
    BytesOf(disk, disk.dir.Keys)
  }

  lemma {:induction false} BytesOfRemove(disk: Disk, names: set<Name>, x: Name)
    requires x in names
    ensures BytesOf(disk, names) == SizeOf(disk, x) + BytesOf(disk, names - {x})
    decreases |names|
  {
    var n :| n in names && BytesOf(disk, names) == SizeOf(disk, n) + BytesOf(disk, names - {n});
    if n != x {
      BytesOfRemove(disk, names - {n}, x);
      BytesOfRemove(disk, names - {x}, n);
      assert names - {n} - {x} == names - {x} - {n};
    }
  }

  lemma {:induction false} BytesOfSame(a: Disk, b: Disk, names: set<Name>)
    requires forall n <- names :: SizeOf(a, n) == SizeOf(b, n)
    ensures BytesOf(a, names) == BytesOf(b, names)
    decreases |names|
  {
    if names != {} {
      var n :| n in names && BytesOf(a, names) == SizeOf(a, n) + BytesOf(a, names - {n});
      BytesOfRemove(b, names, n);
      BytesOfSame(a, b, names - {n});
    }
  }

  lemma {:induction false} BytesOfSubset(disk: Disk, some: set<Name>, all: set<Name>)
    requires some <= all
    ensures BytesOf(disk, some) <= BytesOf(disk, all)
    decreases |all|
  {
    if some != all {
      NameOutside(some, all);
      var n :| n in all && n !in some;
      BytesOfRemove(disk, all, n);
      BytesOfSubset(disk, some, all - {n});
    }
  }

  lemma NameOutside(some: set<Name>, all: set<Name>)
    requires some <= all
    ensures some == all || exists n :: n in all && n !in some
  {
    if forall n <- all :: n in some {
      assert some == all;
    }
  }

  // ---------------------------------------------------------------- scans that tell the truth

  /** Every entry points at a file of its own. */
  ghost predicate OwnFiles(disk: Disk) {
    && (forall n <- disk.dir :: disk.dir[n] < |disk.inodes|)
    && (forall n <- disk.dir, m <- disk.dir :: disk.dir[n] == disk.dir[m] ==> n == m)
  }

  /** A file has at most one name, so the total is at most the others and the file itself. */
  lemma TotalIsOthersAndOwn(disk: Disk, own: nat)
    requires OwnFiles(disk) && own < |disk.inodes|
    ensures TotalBytes(disk) <= OtherBytes(disk, own) + |disk.inodes[own]|
    ensures OtherBytes(disk, own) <= TotalBytes(disk)
  {
    BytesOfSubset(disk, OtherNames(disk, own), disk.dir.Keys);
    if n :| n in disk.dir && disk.dir[n] == own {
      BytesOfRemove(disk, disk.dir.Keys, n);
      assert disk.dir.Keys - {n} == OtherNames(disk, own);
    } else {
      assert disk.dir.Keys == OtherNames(disk, own);
    }
  }

  /** The scans of a block step add up the directory as it is then; the open file's own bytes are not among them. */
  ghost predicate Truthful(s: State, op: Op) {
    op.OpBlock? ==>
      && (s.fp.Some? ==> op.env.rescan == OtherBytes(s.disk, s.fp.value))
      && (s.fp.None? && op.msg.seqno == 0 && op.env.openOk ==>
            var base := Open(s, op.sessionN, op.env);
            op.env.openScan == OtherBytes(base.disk, base.fp.value) && op.env.rescan == op.env.openScan)
  }

  /** The counter is not below the directory, and what has been written stays within the quota. */
  ghost predicate WithinQuota(s: State) {
    && OwnFiles(s.disk)
    && (s.fp.Some? ==>
          && s.fp.value < |s.disk.inodes|
          && OtherBytes(s.disk, s.fp.value) <= s.others
          && (s.disk.inodes[s.fp.value] != [] ==> s.others + |s.disk.inodes[s.fp.value]| <= MAX_PER_PORT2_BYTES))
  }

  lemma OthersUntouched(s: State, t: State)
    requires s.fp.Some? && s.fp.value < |s.disk.inodes| && t.disk.dir == s.disk.dir
    requires |t.disk.inodes| == |s.disk.inodes|
    requires forall i :: 0 <= i < |s.disk.inodes| && i != s.fp.value ==> t.disk.inodes[i] == s.disk.inodes[i]
    ensures OtherBytes(t.disk, s.fp.value) == OtherBytes(s.disk, s.fp.value)
  {
    BytesOfSame(s.disk, t.disk, OtherNames(s.disk, s.fp.value));
    assert OtherNames(t.disk, s.fp.value) == OtherNames(s.disk, s.fp.value);
  }

  lemma WriteAtBound(file: seq<byte>, off: nat, data: seq<byte>)
    ensures |WriteAt(file, off, data)| <= Max(|file|, off + |data|)
  {
  }

  /** What one block does to the counter and to the length of the open file. */
  lemma OpenBlockEffect(s: State, msg: BlockMsg, e: BlockEnv)
    requires Tracking(s) && s.fp.Some?
    ensures var t := HandleOpen(s, msg, e);
            && t.fp == s.fp && t.disk.dir == s.disk.dir && |t.disk.inodes| == |s.disk.inodes|
            && (forall i :: 0 <= i < |s.disk.inodes| && i != s.fp.value ==> t.disk.inodes[i] == s.disk.inodes[i])
            && (t.others == s.others || t.others == e.rescan)
            && (t.disk.inodes[s.fp.value] == s.disk.inodes[s.fp.value]
                || (s.others + |t.disk.inodes[s.fp.value]|
                    <= Max(MAX_PER_PORT2_BYTES, s.others + |s.disk.inodes[s.fp.value]|)))
  {
    hide AcceptedSeqnos, WriteAt, QueueGaps, GapSeqnos;
    WriteAtBound(s.disk.inodes[s.fp.value], msg.seqno * BLOCK_BYTES, msg.data[..Min(e.wrote, BLOCK_BYTES)]);
  }

  lemma OpenBlockQuota(s: State, msg: BlockMsg, e: BlockEnv)
    requires Tracking(s) && s.fp.Some? && WithinQuota(s) && e.rescan == OtherBytes(s.disk, s.fp.value)
    ensures WithinQuota(HandleOpen(s, msg, e))
  {
    hide HandleOpen, OtherBytes;
    OpenBlockEffect(s, msg, e);
    OthersUntouched(s, HandleOpen(s, msg, e));
  }

  lemma OpenQuota(s: State, sessionN: uint32, e: BlockEnv)
    requires WithinQuota(s) && s.fp.None?
    requires e.openScan == OtherBytes(Open(s, sessionN, e).disk, Open(s, sessionN, e).fp.value)
    ensures WithinQuota(Open(s, sessionN, e))
  {
    hide OtherBytes;
  }

  lemma StepQuota(s: State, op: Op)
    requires Inv(s) && WithinQuota(s) && Truthful(s, op) && !op.OpTlogFile?
    ensures WithinQuota(Step(s, op))
  {
    hide OtherBytes, HandleOpen, AcceptedSeqnos, Accounting, Pacing;
    match op
    case OpBlock(n, msg, e) =>
      if s.fp.Some? {
        OpenBlockQuota(s, msg, e);
      } else if msg.seqno == 0 && e.openOk {
        OpenInv(s, n, e);
        OpenQuota(s, n, e);
        OpenBlockQuota(Open(s, n, e), msg, e);
      }
    case OpTick(now, order, ok) => TickFrame(s, now, order, ok);
    case OpObserve(m, day) =>
    case OpUnlink(name) => UnlinkQuota(s, name);
  }

  lemma UnlinkQuota(s: State, name: Name)
    requires WithinQuota(s)
    ensures WithinQuota(Unlink(s, name))
  {
    var t := Unlink(s, name);
    if s.fp.Some? {
      var own := s.fp.value;
      BytesOfSame(s.disk, t.disk, OtherNames(t.disk, own));
      BytesOfSubset(s.disk, OtherNames(t.disk, own), OtherNames(s.disk, own));
    }
  }

  ghost predicate QuietRun(s: State, ops: seq<Op>)
    decreases |ops|
  {
    ops == [] || (!ops[0].OpTlogFile? && Truthful(s, ops[0]) && QuietRun(Step(s, ops[0]), ops[1..]))
  }

  lemma {:induction false} RunQuota(s: State, ops: seq<Op>)
    requires Inv(s) && WithinQuota(s) && QuietRun(s, ops)
    ensures WithinQuota(Run(s, ops)) && Inv(Run(s, ops))
    decreases |ops|
  {
    hide Inv, WithinQuota, Step, Truthful;
    if ops != [] {
      StepQuota(s, ops[0]);
      StepInv(s, ops[0]);
      RunQuota(Step(s, ops[0]), ops[1..]);
    }
  }

  /**
   The directory, not just the counter: over any run with truthful scans in which no other file appears, whatever
   fails and whatever is unlinked, all session files together stay within 1 GiB once the open file holds a byte.
   */
  lemma DirectoryWithinQuota(filter: nat, disk: Disk, ops: seq<Op>)
    requires OwnFiles(disk) && QuietRun(Init(filter, disk), ops)
    ensures var s := Run(Init(filter, disk), ops);
            s.fp.Some? && s.fp.value < |s.disk.inodes| && s.disk.inodes[s.fp.value] != [] ==>
              TotalBytes(s.disk) <= 1073741824
  {
    hide Run, QuietRun, TotalBytes, OtherBytes;
    InitInv(filter, disk);
    RunQuota(Init(filter, disk), ops);
    var s := Run(Init(filter, disk), ops);
    if s.fp.Some? {
      TotalIsOthersAndOwn(s.disk, s.fp.value);
    }
  }

  /** The bytes of the other session files once a file is open for this block. */
  ghost function Others(s: State, sessionN: uint32, e: BlockEnv): nat {
    if s.fp.Some? then OtherBytes(s.disk, s.fp.value)
    else OtherBytes(Open(s, sessionN, e).disk, Open(s, sessionN, e).fp.value)
  }

  /** With scans that are true to the directory, the quota in the acceptance of a block is that of the directory. */
  lemma AcceptedByDirectoryExactlyWhen(s: State, sessionN: uint32, msg: BlockMsg, e: BlockEnv)
    requires Inv(s) && Truthful(s, OpBlock(sessionN, msg, e))
    requires s.fp.Some? ==> s.others == OtherBytes(s.disk, s.fp.value)
    ensures var t := HandleBlock(s, sessionN, msg, e);
            var size := if s.fp.Some? then s.size else 0;
            var end := 200 * msg.seqno + 200;
            AcceptedSeqnos(t.log) == AcceptedSeqnos(s.log) + [msg.seqno] <==>
            (&& (s.fp.Some? || (msg.seqno == 0 && e.openOk))
             && end <= size + 104857600
             && Others(s, sessionN, e) + (if end < size then size else end) <= 1073741824
             && e.seekOk && e.wrote >= 200)
  {
    hide HandleBlock, AcceptedSeqnos, OtherBytes, Accounting, Pacing;
    AcceptedExactlyWhen(s, sessionN, msg, e);
  }

  // ---------------------------------------------------------------- when the directory is scanned again

  /**
   A block that is written whole grows the tracked size to cover it; every ten-thousandth one of a file scans the
   directory again, and only that one.
   */
  lemma RescannedExactlyWhen(s: State, sessionN: uint32, msg: BlockMsg, e: BlockEnv)
    requires GoesThrough(s, msg, e) && e.seekOk && e.wrote >= 200
    ensures var t := HandleBlock(s, sessionN, msg, e);
            var size := if s.fp.Some? then s.size else 0;
            var others := if s.fp.Some? then s.others else e.openScan;
            var written := if s.fp.Some? then s.writesSinceScan + 1 else 1;
            && t.size == Max(size, 200 * msg.seqno + 200)
            && (if written >= 10000 then t.others == e.rescan && t.writesSinceScan == 0
                else t.others == others && t.writesSinceScan == written)
  {
  }
}
