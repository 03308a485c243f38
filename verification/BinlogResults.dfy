/** What the invariants mean for whole runs: gap accounting, ACK conservation, NACK discipline, resource bounds. */
module BinlogResults {
  import opened Bytes
  import opened BinlogSpec
  import opened BinlogInvariants

  // ---------------------------------------------------------------- gaps

  /** Every seqno up to `highest_seen` is in the file, chased, or was given up; none is chased needlessly or twice. */
  lemma GapAccounting(filter: nat, disk: Disk, ops: seq<Op>)
    ensures var s := Run(Init(filter, disk), ops);
            && (forall k :: 1 <= k <= s.highest ==> k in s.seen || k in s.nacks || k in Gone(s.log))
            && (forall k :: k in s.nacks ==> k < s.highest && k !in s.seen && k !in Gone(s.log))
            && s.nacks.Keys <= Noticed(s.log)
            && GapsOnce(s.log)
            && (forall i :: 0 <= i < |s.past| ==> GapsOnce(s.past[i].log))
  {
    hide Run, AcceptedSeqnos, AckedSeqnos, Noticed, Gone, NacksSpaced, StartsSpaced, Pacing, GapsOnce;
    InitInv(filter, disk);
    RunInv(Init(filter, disk), ops);
  }

  /** A block that arrives is no longer chased, and a jump adds exactly the seqnos it skipped. */
  lemma BookChases(s: State, msg: BlockMsg, e: BlockEnv, k: nat)
    requires Inv(s) && WithinCaps(s, msg.seqno)
    ensures k in Book(s, msg, e).nacks <==>
            (k in s.nacks && k != msg.seqno) || (s.highest < k < msg.seqno)
    ensures s.highest < k < msg.seqno ==> Book(s, msg, e).nacks[k] == NackState(e.now, 0)
  {
    BookNacks(s, msg, e);
    SeqnoBound(s);
    if s.highest < k < msg.seqno {
      assert k in NewGap(s, msg.seqno);
    }
  }

  // ---------------------------------------------------------------- ACKs

  function TotalAccepted(past: seq<Session>): nat {
    if past == [] then 0 else |AcceptedSeqnos(past[0].log)| + TotalAccepted(past[1..])
  }

  function TotalAcked(past: seq<Session>): nat {
    if past == [] then 0 else |AckedSeqnos(past[0].log)| + TotalAcked(past[1..])
  }

  function TotalDiscarded(past: seq<Session>): nat {
    if past == [] then 0 else |past[0].discarded| + TotalDiscarded(past[1..])
  }

  lemma {:induction false} TotalsBalance(past: seq<Session>)
    requires forall i :: 0 <= i < |past| ==> SessionOk(past[i].log, past[i].discarded)
    ensures TotalAccepted(past) == TotalAcked(past) + TotalDiscarded(past)
  {
    if past != [] {
      assert SessionOk(past[0].log, past[0].discarded);
      TotalsBalance(past[1..]);
    }
  }

  /**
   ACKs leave in the order their blocks were accepted; what was accepted and not ACKed is queued, or was
   discarded by the rotation that ended its session. Over a whole run nothing is lost or invented.
   */
  lemma AckConservation(filter: nat, disk: Disk, ops: seq<Op>)
    ensures var s := Run(Init(filter, disk), ops);
            && AcceptedSeqnos(s.log) == AckedSeqnos(s.log) + s.acks
            && (forall i :: 0 <= i < |s.past| ==>
                  AcceptedSeqnos(s.past[i].log) == AckedSeqnos(s.past[i].log) + s.past[i].discarded)
            && TotalAccepted(s.past) + |AcceptedSeqnos(s.log)|
               == TotalAcked(s.past) + |AckedSeqnos(s.log)| + |s.acks| + TotalDiscarded(s.past)
  {
    InitInv(filter, disk);
    RunInv(Init(filter, disk), ops);
    var s := Run(Init(filter, disk), ops);
    TotalsBalance(s.past);
  }

  /** Only blocks of the current file are ever queued or ACKed. */
  lemma AckSoundness(filter: nat, disk: Disk, ops: seq<Op>, k: nat)
    ensures var s := Run(Init(filter, disk), ops);
            (k in s.acks || k in AckedSeqnos(s.log)) ==> k in s.seen && s.fp.Some?
  {
    InitInv(filter, disk);
    RunInv(Init(filter, disk), ops);
    var s := Run(Init(filter, disk), ops);
    assert k in AckedSeqnos(s.log) + s.acks <==> k in AckedSeqnos(s.log) || k in s.acks;
  }

  /**
   A block is accepted exactly when a file is open (or the block opens one), it grows the file by at most
   100 MiB, the port pair stays within 1 GiB, and all 200 bytes are written.
   */
  lemma AcceptedExactlyWhen(s: State, sessionN: uint32, msg: BlockMsg, e: BlockEnv)
    requires Inv(s)
    ensures var t := HandleBlock(s, sessionN, msg, e);
            var size := if s.fp.Some? then s.size else 0;
            var others := if s.fp.Some? then s.others else e.openScan;
            var end := 200 * msg.seqno + 200;
            (AcceptedSeqnos(t.log) == AcceptedSeqnos(s.log) + [msg.seqno]) <==>
            (&& (s.fp.Some? || (msg.seqno == 0 && e.openOk))
             && end <= size + 104857600
             && others + (if end < size then size else end) <= 1073741824
             && e.seekOk && e.wrote >= 200)
    ensures var t := HandleBlock(s, sessionN, msg, e);
            AcceptedSeqnos(t.log) == AcceptedSeqnos(s.log) + [msg.seqno] || (t.log == s.log && t.acks == s.acks)
  {
    if s.fp.Some? {
      HandleOpenOutcome(s, msg, e);
    } else if msg.seqno == 0 && e.openOk {
      OpenInv(s, sessionN, e);
      HandleOpenOutcome(Open(s, sessionN, e), msg, e);
    }
  }

  // ---------------------------------------------------------------- NACKs

  /** Within one session file, NACKs of one seqno that went out are at least 0.1 s apart. */
  lemma NackSpacing(filter: nat, disk: Disk, ops: seq<Op>)
    ensures var s := Run(Init(filter, disk), ops);
            NacksSpaced(s.log) && StartsSpaced(s.log)
            && forall i :: 0 <= i < |s.past| ==> NacksSpaced(s.past[i].log) && StartsSpaced(s.past[i].log)
  {
    InitInv(filter, disk);
    RunInv(Init(filter, disk), ops);
  }

  function NacksOut(log: seq<Event>): nat {
    if log == [] then 0
    else
      NacksOut(log[..|log| - 1]) + if log[|log| - 1].NackSent? && log[|log| - 1].ok then 1 else 0
  }

  lemma NacksOutAppend(log: seq<Event>, e: Event)
    ensures NacksOut(log + [e]) == NacksOut(log) + if e.NackSent? && e.ok then 1 else 0
  {
    assert (log + [e])[..|log|] == log;
  }

  lemma {:induction false} RenackBudget(s: State, order: seq<nat>, now: int, budget: nat, ok: nat -> bool, i: nat)
    ensures NacksOut(Renack(s, order, now, budget, ok, i).log) <= NacksOut(s.log) + budget
    decreases |order|
  {
    if order == [] || budget == 0 {
    } else if order[0] !in s.nacks || Throttled(s.nacks[order[0]], now) {
      RenackBudget(s, order[1..], now, budget, ok, i);
    } else {
      NacksOutAppend(s.log, NackSent(order[0], now, ok(i)));
      RenackBudget(SendNack(s, order[0], now, ok(i)), order[1..], now, if ok(i) then budget - 1 else budget, ok, i + 1);
    }
  }

  lemma {:induction false} DrainAcksSendsNoNack(s: State, ok: nat -> bool, i: nat)
    ensures NacksOut(DrainAcks(s, ok, i).log) == NacksOut(s.log)
    decreases |s.acks|
  {
    if s.acks != [] {
      NacksOutAppend(s.log, AckSent(s.acks[0], ok(i)));
      DrainAcksSendsNoNack(SendAck(s, ok(i)), ok, i + 1);
    }
  }

  lemma Cardinality(keys: set<nat>, low: int, high: nat)
    requires low <= high
    requires forall k :: k in keys ==> low <= k < high
    ensures |keys| <= high - low
    decreases high - low
  {
    if keys != {} {
      assert low < high by { var k :| k in keys; }
      Cardinality(keys - {high - 1}, low, high - 1);
    }
  }

  /** One tick sends at most 10 NACKs. */
  lemma TickBudget(s: State, now: Micros, order: seq<nat>, ok: nat -> bool)
    ensures NacksOut(Tick(s, now, order, ok).log) <= NacksOut(s.log) + 10
  {
    NacksOutAppend(s.log, StartSent(now, ok(0)));
    if s.anyBlock && s.fp.Some? {
      var started := MaybeStart(s, now, START_KEEPALIVE_US, ok(0));
      DrainAcksSendsNoNack(started, ok, 1);
      var drained := DrainAcks(started, ok, 1);
      NacksOutAppend(drained.log, Abandoned(StaleKeys(drained, now)));
      RenackBudget(Prune(drained, now), order, now, MAX_NACKS_PER_TICK, ok, 1 + |s.acks|);
    }
  }

  /** The keys a tick leaves in the NACK map. */
  lemma TickKeys(s: State, now: Micros, order: seq<nat>, ok: nat -> bool)
    requires Inv(s) && s.fp.Some? && s.anyBlock
    ensures var t := Tick(s, now, order, ok);
            t.acks == [] && t.nacks.Keys == s.nacks.Keys - StaleKeys(s, now)
  {
    var started := MaybeStart(s, now, START_KEEPALIVE_US, ok(0));
    DrainAcksFrame(started, ok, 1);
    var drained := DrainAcks(started, ok, 1);
    var pruned := Prune(drained, now);
    assert StaleKeys(drained, now) == StaleKeys(s, now);
    assert pruned.nacks.Keys == s.nacks.Keys - StaleKeys(s, now);
    RenackFrame(pruned, order, now, MAX_NACKS_PER_TICK, ok, 1 + |s.acks|);
  }

  /**
   A tick with the file open empties the ACK queue and leaves chased exactly the seqnos noticed at most 60 s
   ago and at most 200 behind `highest_seen`, of which there are at most 200.
   */
  lemma TickWindow(s: State, now: Micros, order: seq<nat>, ok: nat -> bool)
    requires Inv(s) && s.fp.Some? && s.anyBlock
    ensures var t := Tick(s, now, order, ok);
            && t.acks == []
            && |t.nacks| <= 200
            && (forall k :: k in t.nacks <==>
                  k in s.nacks && s.highest - k <= 200 && now - s.nacks[k].firstSeen <= 60_000_000)
  {
    TickKeys(s, now, order, ok);
    var keys := s.nacks.Keys - StaleKeys(s, now);
    assert forall k :: k in Tick(s, now, order, ok).nacks <==> k in keys;
    Cardinality(keys, s.highest - 200, s.highest);
  }

  // ---------------------------------------------------------------- bounds

  /** Whatever 32-bit seqnos arrive, the file stays within 1 GiB and `highest_seen + 1` never wraps. */
  lemma ResourceBounds(filter: nat, disk: Disk, ops: seq<Op>, k: nat)
    ensures var s := Run(Init(filter, disk), ops);
            && s.size <= 1073741824
            && (k in s.seen ==> k <= 5368708)
            && s.highest + 1 < 0x1_0000_0000
            && (s.fp.Some? ==> s.size == if s.seen == {} then 0 else 200 * (s.highest + 1))
  {
    InitInv(filter, disk);
    RunInv(Init(filter, disk), ops);
    SeqnoBound(Run(Init(filter, disk), ops));
  }

  /** One block grows the file by at most 100 MiB, even when its write is cut short. */
  lemma GrowthPerBlock(s: State, sessionN: uint32, msg: BlockMsg, e: BlockEnv)
    requires Inv(s) && s.fp.Some?
    ensures var t := HandleBlock(s, sessionN, msg, e);
            && t.fp == s.fp
            && s.size <= t.size <= s.size + 104857600
            && |t.disk.inodes| == |s.disk.inodes|
            && |t.disk.inodes[s.fp.value]| <= Max(|s.disk.inodes[s.fp.value]|, s.size + 104857600)
            && forall i :: 0 <= i < |s.disk.inodes| && i != s.fp.value ==> t.disk.inodes[i] == s.disk.inodes[i]
  {
  }
}
