/**
 What every reachable state of the receiver keeps, whatever arrives and whatever fails: the bookkeeping
 of seen, chased and abandoned blocks, the ACK queue, and the pacing of NACKs.
 */
module BinlogInvariants {
  import opened Bytes
  import opened BinlogSpec

  // ---------------------------------------------------------------- reading a history

  /** The accepted blocks of a history, oldest first, repetitions included. */
  function AcceptedSeqnos(log: seq<Event>): seq<nat> {
    if log == [] then []
    else
      var rest := AcceptedSeqnos(log[..|log| - 1]);
      if log[|log| - 1].Accepted? then rest + [log[|log| - 1].seqno] else rest
  }

  /** The blocks whose ACK was handed to the link, oldest first. */
  function AckedSeqnos(log: seq<Event>): seq<nat> {
    if log == [] then []
    else
      var rest := AckedSeqnos(log[..|log| - 1]);
      if log[|log| - 1].AckSent? then rest + [log[|log| - 1].seqno] else rest
  }

  /** Every seqno that was ever noticed missing. */
  function Noticed(log: seq<Event>): set<nat> {
    if log == [] then {}
    else
      var rest := Noticed(log[..|log| - 1]);
      if log[|log| - 1].GapNoticed? then rest + log[|log| - 1].seqnos else rest
  }

  /** Every seqno the receiver stopped chasing. */
  function Gone(log: seq<Event>): set<nat> {
    if log == [] then {}
    else
      var rest := Gone(log[..|log| - 1]);
      if log[|log| - 1].Abandoned? then rest + log[|log| - 1].seqnos else rest
  }

  lemma Append(log: seq<Event>, e: Event)
    ensures AcceptedSeqnos(log + [e]) == if e.Accepted? then AcceptedSeqnos(log) + [e.seqno] else AcceptedSeqnos(log)
    ensures AckedSeqnos(log + [e]) == if e.AckSent? then AckedSeqnos(log) + [e.seqno] else AckedSeqnos(log)
    ensures Noticed(log + [e]) == if e.GapNoticed? then Noticed(log) + e.seqnos else Noticed(log)
    ensures Gone(log + [e]) == if e.Abandoned? then Gone(log) + e.seqnos else Gone(log)
  {
    assert (log + [e])[..|log|] == log;
  }

  /** Successful NACKs for one seqno are at least 0.1 s apart. */
  ghost predicate NacksSpaced(log: seq<Event>) {
    forall i, j ::
      (0 <= i < j < |log| && log[i].NackSent? && log[j].NackSent? && log[i].seqno == log[j].seqno
       && log[i].ok && log[j].ok) ==>
        log[j].at - log[i].at >= NACK_REPEAT_US
  }

  /** No seqno is noticed missing twice. */
  ghost predicate GapsOnce(log: seq<Event>) {
    forall i, j :: 0 <= i < j < |log| && log[i].GapNoticed? && log[j].GapNoticed? ==>
      log[i].seqnos !! log[j].seqnos
  }

  /** START packets that went out are at least 1 s apart. */
  ghost predicate StartsSpaced(log: seq<Event>) {
    forall i, j :: 0 <= i < j < |log| && log[i].StartSent? && log[j].StartSent? && log[i].ok && log[j].ok ==>
      log[j].at - log[i].at >= START_REPEAT_US
  }

  /** A session's accepted blocks are those ACKed, in order, followed by those in `queued`. */
  ghost predicate SessionOk(log: seq<Event>, queued: seq<nat>) {
    && AcceptedSeqnos(log) == AckedSeqnos(log) + queued
    && NacksSpaced(log)
    && GapsOnce(log)
    && StartsSpaced(log)
  }

  // ---------------------------------------------------------------- the invariant

  /** The seen set, `highest_seen` and the tracked size agree. */
  ghost predicate Tracking(s: State) {
    && (s.fp.None? ==> s.seen == {} && s.acks == [] && s.nacks == map[])
    && (s.fp.Some? ==> s.fp.value < |s.disk.inodes|)
    && (forall k :: k in s.seen <==> k in AcceptedSeqnos(s.log))
    && (forall k :: k in s.seen ==> k <= s.highest)
    && (s.seen == {} ==> s.highest == 0 && (s.fp.Some? ==> s.size == 0))
    && (s.seen != {} ==> s.anyBlock && s.highest in s.seen && s.size == (s.highest + 1) * BLOCK_BYTES)
    && s.size <= MAX_PER_PORT2_BYTES
  }

  /** Every seqno below `highest_seen` is accounted for, and none is chased twice. */
  ghost predicate Accounting(s: State) {
    && (forall k :: k in s.nacks ==> 1 <= k < s.highest && k !in s.seen && k in Noticed(s.log))
    && (forall k :: 1 <= k < s.highest ==> k in s.seen || k in s.nacks || k in Gone(s.log))
    && (forall k :: k in Noticed(s.log) ==> 1 <= k < s.highest)
    && (forall k :: k in Gone(s.log) ==> k in Noticed(s.log) && k !in s.nacks)
    && GapsOnce(s.log)
    && (forall i :: 0 <= i < |s.log| && s.log[i].GapNoticed? ==> s.log[i].seqnos <= Noticed(s.log))
  }

  /** What the throttle remembers is the time of the last NACK that went out. */
  ghost predicate Pacing(s: State) {
    && NacksSpaced(s.log)
    && (forall i :: 0 <= i < |s.log| && s.log[i].NackSent? ==>
          0 < s.log[i].at && s.log[i].seqno in Noticed(s.log)
          && (s.log[i].ok && s.log[i].seqno in s.nacks ==> s.log[i].at <= s.nacks[s.log[i].seqno].lastSent))
    && StartsSpaced(s.log)
    && (forall i :: 0 <= i < |s.log| && s.log[i].StartSent? && s.log[i].ok ==> s.log[i].at <= s.lastStart)
  }

  ghost predicate Inv(s: State) {
    && Tracking(s)
    && Accounting(s)
    && AcceptedSeqnos(s.log) == AckedSeqnos(s.log) + s.acks
    && Pacing(s)
    && (forall i :: 0 <= i < |s.past| ==> SessionOk(s.past[i].log, s.past[i].discarded))
  }

  lemma InitInv(filter: nat, disk: Disk)
    ensures Inv(Init(filter, disk))
  {
  }

  // ---------------------------------------------------------------- resource bounds

  /** `highest_seen + 1` never wraps: the quota keeps every accepted seqno at or below 5368708. */
  lemma SeqnoBound(s: State)
    requires Tracking(s)
    ensures s.highest <= 5368708
    ensures Wrap32(s.highest + 1) == s.highest + 1
  {
  }

  // ---------------------------------------------------------------- handle_block

  lemma OpenInv(s: State, sessionN: uint32, e: BlockEnv)
    requires Inv(s) && s.fp.None?
    ensures var t := Open(s, sessionN, e); Inv(t) && t.fp.Some? && t.seen == {} && t.size == 0
  {
    hide AcceptedSeqnos, AckedSeqnos, Noticed, Gone;
    assert forall k :: k in AcceptedSeqnos(s.log) <==> k in s.seen;
  }

  /** What booking block `k` newly notices as missing. */
  function NewGap(s: State, k: nat): set<nat> {
    if k > s.highest + 1 then GapSeqnos(s.seen + {k}, s.nacks - {k}, s.highest, k) else {}
  }

  /** How booking a block extends the history. */
  lemma BookHistory(s: State, msg: BlockMsg, e: BlockEnv)
    requires Tracking(s)
    ensures Book(s, msg, e).log == s.log + [GapNoticed(NewGap(s, msg.seqno))] + [Accepted(msg.seqno, msg.data)]
    ensures AcceptedSeqnos(Book(s, msg, e).log) == AcceptedSeqnos(s.log) + [msg.seqno]
    ensures AckedSeqnos(Book(s, msg, e).log) == AckedSeqnos(s.log)
    ensures Noticed(Book(s, msg, e).log) == Noticed(s.log) + NewGap(s, msg.seqno)
    ensures Gone(Book(s, msg, e).log) == Gone(s.log)
  {
    hide AcceptedSeqnos, AckedSeqnos, Noticed, Gone, QueueGaps;
    SeqnoBound(s);
    var first, second := GapNoticed(NewGap(s, msg.seqno)), Accepted(msg.seqno, msg.data);
    Append(s.log, first);
    Append(s.log + [first], second);
  }

  /** How booking a block changes what is chased. */
  lemma BookNacks(s: State, msg: BlockMsg, e: BlockEnv)
    requires Tracking(s)
    ensures forall g :: g in NewGap(s, msg.seqno) ==> s.highest < g < msg.seqno
    ensures Book(s, msg, e).nacks.Keys == (s.nacks.Keys - {msg.seqno}) + NewGap(s, msg.seqno)
    ensures forall g :: g in Book(s, msg, e).nacks && g !in NewGap(s, msg.seqno) ==>
      Book(s, msg, e).nacks[g] == s.nacks[g]
  {
    SeqnoBound(s);
  }

  lemma BookTracking(s: State, msg: BlockMsg, e: BlockEnv)
    requires Inv(s) && s.fp.Some? && s.anyBlock && WithinCaps(s, msg.seqno)
    ensures Tracking(Book(s, msg, e))
  {
    hide AcceptedSeqnos, AckedSeqnos, Noticed, Gone;
    BookHistory(s, msg, e);
    BookNacks(s, msg, e);
    var t := Book(s, msg, e);
    assert msg.seqno in t.seen;
  }

  lemma BookAccounting(s: State, msg: BlockMsg, e: BlockEnv)
    requires Inv(s) && s.fp.Some? && WithinCaps(s, msg.seqno)
    ensures Accounting(Book(s, msg, e))
  {
    hide AcceptedSeqnos, AckedSeqnos, Noticed, Gone;
    BookHistory(s, msg, e);
    BookNacks(s, msg, e);
    var gap := NewGap(s, msg.seqno);
    var t := Book(s, msg, e);
    forall k | 1 <= k < t.highest
      ensures k in t.seen || k in t.nacks || k in Gone(t.log)
    {
      if s.highest < k {
        assert k in gap || k in s.nacks;
      }
    }
    BookGapsOnce(s, msg, e);
  }

  lemma BookGapsOnce(s: State, msg: BlockMsg, e: BlockEnv)
    requires Inv(s) && s.fp.Some? && WithinCaps(s, msg.seqno)
    ensures GapsOnce(Book(s, msg, e).log)
    ensures var log := Book(s, msg, e).log;
            forall i :: 0 <= i < |log| && log[i].GapNoticed? ==> log[i].seqnos <= Noticed(log)
  {
    hide AcceptedSeqnos, AckedSeqnos, Noticed, Gone, Pacing;
    BookHistory(s, msg, e);
    BookNacks(s, msg, e);
    var gap := NewGap(s, msg.seqno);
    var log := Book(s, msg, e).log;
    assert gap !! Noticed(s.log);
    assert forall i :: 0 <= i < |s.log| ==> log[i] == s.log[i];
    assert log[|s.log| + 1].Accepted?;
  }

  /** Chasing seqnos that were never noticed before keeps the pacing. */
  lemma GapPacing(s: State, t: State, gap: set<nat>)
    requires Pacing(s) && gap !! Noticed(s.log)
    requires t.log == s.log + [GapNoticed(gap)] && t.lastStart == s.lastStart
    requires forall k :: k in t.nacks && k !in gap ==> k in s.nacks && t.nacks[k] == s.nacks[k]
    ensures Pacing(t)
  {
    hide AcceptedSeqnos, AckedSeqnos, Noticed, Gone;
    Append(s.log, GapNoticed(gap));
    assert forall i :: 0 <= i < |s.log| ==> t.log[i] == s.log[i];
  }

  lemma BookPacing(s: State, msg: BlockMsg, e: BlockEnv)
    requires Inv(s) && s.fp.Some? && WithinCaps(s, msg.seqno)
    ensures Pacing(Book(s, msg, e))
  {
    BookHistory(s, msg, e);
    BookNacks(s, msg, e);
    SeqnoBound(s);
    var mid := Track(CountWrite(s, msg.seqno, e.rescan), msg.seqno, e.now);
    GapPacing(s, mid, NewGap(s, msg.seqno));
    PacingCarries(mid, Book(s, msg, e), Accepted(msg.seqno, msg.data));
  }

  lemma BookInv(s: State, msg: BlockMsg, e: BlockEnv)
    requires Inv(s) && s.fp.Some? && s.anyBlock && WithinCaps(s, msg.seqno)
    ensures Inv(Book(s, msg, e))
  {
    hide AcceptedSeqnos, AckedSeqnos, Noticed, Gone;
    BookHistory(s, msg, e);
    BookNacks(s, msg, e);
    BookTracking(s, msg, e);
    BookAccounting(s, msg, e);
    BookPacing(s, msg, e);
  }

  /** Bytes in the file and the vehicle's identity are not part of the books. */
  lemma WriteInv(s: State, msg: BlockMsg, e: BlockEnv)
    requires Inv(s) && s.fp.Some?
    ensures var t := Latch(s, msg); Inv(t) && t.anyBlock && Inv(WriteBlock(t, msg, e))
    ensures WriteBlock(Latch(s, msg), msg, e).anyBlock && WriteBlock(Latch(s, msg), msg, e).fp == s.fp
  {
    hide AcceptedSeqnos, AckedSeqnos, Noticed, Gone, WriteAt;
  }

  lemma HandleOpenInv(s: State, msg: BlockMsg, e: BlockEnv)
    requires Inv(s) && s.fp.Some?
    ensures Inv(HandleOpen(s, msg, e))
  {
    hide Inv, Book;
    if WithinCaps(s, msg.seqno) {
      WriteInv(s, msg, e);
      if e.seekOk && e.wrote >= BLOCK_BYTES {
        BookInv(WriteBlock(Latch(s, msg), msg, e), msg, e);
      }
    }
  }

  /** What the caps and the write decide: the block is accepted, or nothing that counts has changed. */
  lemma HandleOpenOutcome(s: State, msg: BlockMsg, e: BlockEnv)
    requires Tracking(s) && s.fp.Some?
    ensures var t := HandleOpen(s, msg, e);
            if WithinCaps(s, msg.seqno) && WriteSucceeds(e) then
              && AcceptedSeqnos(t.log) == AcceptedSeqnos(s.log) + [msg.seqno]
              && t.seen == s.seen + {msg.seqno as nat}
            else
              t.log == s.log && t.seen == s.seen && t.size == s.size && t.others == s.others && t.acks == s.acks
    ensures HandleOpen(s, msg, e).fp == s.fp && HandleOpen(s, msg, e).past == s.past
  {
    if WithinCaps(s, msg.seqno) && WriteSucceeds(e) {
      BookHistory(WriteBlock(Latch(s, msg), msg, e), msg, e);
    }
  }

  lemma Inhabited(q: seq<nat>)
    ensures q != [] ==> exists k :: k in q
  {
    if q != [] {
      assert q[0] in q;
    }
  }

  /** Nothing has been seen exactly when nothing has been accepted. */
  lemma NothingAccepted(s: State)
    requires Tracking(s)
    ensures AcceptedSeqnos(s.log) == [] <==> s.seen == {}
  {
    Inhabited(AcceptedSeqnos(s.log));
    if s.seen != {} {
      var k :| k in s.seen;
      assert k in AcceptedSeqnos(s.log);
    }
  }

  lemma HandleBlockInv(s: State, sessionN: uint32, msg: BlockMsg, e: BlockEnv)
    requires Inv(s)
    ensures Inv(HandleBlock(s, sessionN, msg, e))
  {
    if s.fp.Some? {
      HandleOpenInv(s, msg, e);
    } else if msg.seqno == 0 && e.openOk {
      OpenInv(s, sessionN, e);
      HandleOpenInv(Open(s, sessionN, e), msg, e);
    }
  }

  // ---------------------------------------------------------------- tick

  /** An event that notices and abandons nothing leaves the accounting as it was. */
  lemma AccountingCarries(s: State, t: State, e: Event)
    requires Accounting(s) && !e.GapNoticed? && !e.Abandoned?
    requires t.log == s.log + [e] && t.seen == s.seen && t.nacks.Keys == s.nacks.Keys && t.highest == s.highest
    ensures Accounting(t)
  {
    hide AcceptedSeqnos, AckedSeqnos, Noticed, Gone;
    Append(s.log, e);
    assert forall i :: 0 <= i < |s.log| ==> t.log[i] == s.log[i];
    assert forall k :: k in t.nacks <==> k in s.nacks.Keys;
  }

  /** An event that is neither a NACK nor a START, after which no throttle changed, keeps the pacing. */
  lemma PacingCarries(s: State, t: State, e: Event)
    requires Pacing(s) && !e.NackSent? && !e.StartSent? && !e.GapNoticed?
    requires t.log == s.log + [e] && t.lastStart == s.lastStart
    requires forall k :: k in t.nacks ==> k in s.nacks && t.nacks[k] == s.nacks[k]
    ensures Pacing(t)
  {
    hide AcceptedSeqnos, AckedSeqnos, Noticed, Gone;
    Append(s.log, e);
    assert forall i :: 0 <= i < |s.log| ==> t.log[i] == s.log[i];
  }

  lemma StartPacing(s: State, now: Micros, ok: bool)
    requires Pacing(s) && now - s.lastStart >= START_REPEAT_US
    ensures Pacing(SendStart(s, now, ok))
  {
    hide AcceptedSeqnos, AckedSeqnos, Noticed, Gone;
    Append(s.log, StartSent(now, ok));
    var log := SendStart(s, now, ok).log;
    assert forall i :: 0 <= i < |s.log| ==> log[i] == s.log[i];
  }

  lemma MaybeStartInv(s: State, now: Micros, period: int, ok: bool)
    requires Inv(s) && period >= START_REPEAT_US
    ensures Inv(MaybeStart(s, now, period, ok))
  {
    hide AcceptedSeqnos, AckedSeqnos, Noticed, Gone;
    if now - s.lastStart >= period {
      var e := StartSent(now, ok);
      Append(s.log, e);
      StartPacing(s, now, ok);
      AccountingCarries(s, SendStart(s, now, ok), e);
    }
  }

  lemma SendAckInv(s: State, ok: bool)
    requires Inv(s) && s.acks != []
    ensures Inv(SendAck(s, ok))
  {
    hide AcceptedSeqnos, AckedSeqnos, Noticed, Gone;
    var e := AckSent(s.acks[0], ok);
    Append(s.log, e);
    assert AckedSeqnos(s.log) + s.acks == (AckedSeqnos(s.log) + [s.acks[0]]) + s.acks[1..];
    AccountingCarries(s, SendAck(s, ok), e);
    PacingCarries(s, SendAck(s, ok), e);
  }

  lemma {:induction false} DrainAcksInv(s: State, ok: nat -> bool, i: nat)
    requires Inv(s)
    ensures Inv(DrainAcks(s, ok, i))
    ensures DrainAcks(s, ok, i).acks == []
    decreases |s.acks|
  {
    hide Accounting, Pacing, AcceptedSeqnos, AckedSeqnos;
    if s.acks != [] {
      SendAckInv(s, ok(i));
      DrainAcksInv(SendAck(s, ok(i)), ok, i + 1);
    }
  }

  lemma PruneInv(s: State, now: int)
    requires Inv(s)
    ensures Inv(Prune(s, now))
  {
    hide AcceptedSeqnos, AckedSeqnos, Noticed, Gone;
    var e := Abandoned(StaleKeys(s, now));
    var t := Prune(s, now);
    Append(s.log, e);
    assert t.nacks.Keys == s.nacks.Keys - e.seqnos;
    PacingCarries(s, t, e);
    assert Accounting(t) by {
      assert forall i :: 0 <= i < |s.log| ==> t.log[i] == s.log[i];
    }
  }

  lemma SendNackPacing(s: State, k: nat, now: Micros, ok: bool)
    requires Pacing(s) && k in s.nacks && k in Noticed(s.log) && !Throttled(s.nacks[k], now)
    ensures Pacing(SendNack(s, k, now, ok))
  {
    hide AcceptedSeqnos, AckedSeqnos, Noticed, Gone;
    var e := NackSent(k, now, ok);
    Append(s.log, e);
    var log := SendNack(s, k, now, ok).log;
    forall i | 0 <= i < |s.log| && s.log[i].NackSent? && s.log[i].seqno == k && s.log[i].ok
      ensures now - log[i].at >= NACK_REPEAT_US
    {
      assert s.log[i].at <= s.nacks[k].lastSent;
    }
    assert forall i :: 0 <= i < |s.log| ==> log[i] == s.log[i];
  }

  lemma SendNackInv(s: State, k: nat, now: Micros, ok: bool)
    requires Inv(s) && k in s.nacks && !Throttled(s.nacks[k], now)
    ensures Inv(SendNack(s, k, now, ok))
  {
    hide AcceptedSeqnos, AckedSeqnos, Noticed, Gone;
    var e := NackSent(k, now, ok);
    Append(s.log, e);
    SendNackPacing(s, k, now, ok);
    AccountingCarries(s, SendNack(s, k, now, ok), e);
  }

  lemma {:induction false} RenackInv(s: State, order: seq<nat>, now: Micros, budget: nat, ok: nat -> bool, i: nat)
    requires Inv(s)
    ensures Inv(Renack(s, order, now, budget, ok, i))
    decreases |order|
  {
    hide Accounting, Pacing, AcceptedSeqnos, AckedSeqnos;
    if order == [] || budget == 0 {
    } else if order[0] !in s.nacks || Throttled(s.nacks[order[0]], now) {
      RenackInv(s, order[1..], now, budget, ok, i);
    } else {
      SendNackInv(s, order[0], now, ok(i));
      RenackInv(SendNack(s, order[0], now, ok(i)), order[1..], now, if ok(i) then budget - 1 else budget, ok, i + 1);
    }
  }

  lemma TickInv(s: State, now: Micros, order: seq<nat>, ok: nat -> bool)
    requires Inv(s)
    ensures Inv(Tick(s, now, order, ok))
  {
    hide Accounting, Pacing, AcceptedSeqnos, AckedSeqnos;
    if !s.anyBlock {
      MaybeStartInv(s, now, START_REPEAT_US, ok(0));
    } else {
      MaybeStartInv(s, now, START_KEEPALIVE_US, ok(0));
      var started := MaybeStart(s, now, START_KEEPALIVE_US, ok(0));
      if started.fp.Some? {
        DrainAcksInv(started, ok, 1);
        var drained := DrainAcks(started, ok, 1);
        PruneInv(drained, now);
        RenackInv(Prune(drained, now), order, now, MAX_NACKS_PER_TICK, ok, 1 + |s.acks|);
      }
    }
  }

  // ---------------------------------------------------------------- what a tick leaves alone

  lemma {:induction false} DrainAcksFrame(s: State, ok: nat -> bool, i: nat)
    ensures DrainAcks(s, ok, i) == s.(acks := [], log := DrainAcks(s, ok, i).log)
    decreases |s.acks|
  {
    if s.acks != [] {
      DrainAcksFrame(SendAck(s, ok(i)), ok, i + 1);
    }
  }

  lemma {:induction false} RenackFrame(s: State, order: seq<nat>, now: int, budget: nat, ok: nat -> bool, i: nat)
    ensures var t := Renack(s, order, now, budget, ok, i);
            t == s.(nacks := t.nacks, log := t.log) && t.nacks.Keys == s.nacks.Keys
    decreases |order|
  {
    if order == [] || budget == 0 {
    } else if order[0] !in s.nacks || Throttled(s.nacks[order[0]], now) {
      RenackFrame(s, order[1..], now, budget, ok, i);
    } else {
      RenackFrame(SendNack(s, order[0], now, ok(i)), order[1..], now, if ok(i) then budget - 1 else budget, ok, i + 1);
    }
  }

  /** A tick changes only the START clock, the ACK queue, the NACK map and the history. */
  lemma TickFrame(s: State, now: Micros, order: seq<nat>, ok: nat -> bool)
    ensures var t := Tick(s, now, order, ok);
            t == s.(lastStart := t.lastStart, acks := t.acks, nacks := t.nacks, log := t.log)
  {
    if s.anyBlock && s.fp.Some? {
      var started := MaybeStart(s, now, START_KEEPALIVE_US, ok(0));
      DrainAcksFrame(started, ok, 1);
      RenackFrame(Prune(DrainAcks(started, ok, 1), now), order, now, MAX_NACKS_PER_TICK, ok, 1 + |s.acks|);
    }
  }

  // ---------------------------------------------------------------- every run

  lemma EmptyHistory()
    ensures AcceptedSeqnos([]) == [] && AckedSeqnos([]) == [] && Noticed([]) == {} && Gone([]) == {}
  {
  }

  /** The books of a session can be closed at any time. */
  lemma SessionCloses(s: State)
    requires Inv(s)
    ensures SessionOk(s.log, s.acks)
  {
    hide AcceptedSeqnos, AckedSeqnos, Noticed, Gone;
  }

  /** Nothing is open, seen, queued or chased, and nothing has happened. */
  lemma ClearInv(t: State)
    requires t.fp.None? && t.seen == {} && t.highest == 0 && t.acks == [] && t.nacks == map[] && t.log == []
    requires t.size <= MAX_PER_PORT2_BYTES
    ensures Tracking(t) && Accounting(t) && Pacing(t)
  {
    hide AcceptedSeqnos, AckedSeqnos, Noticed, Gone;
    EmptyHistory();
  }

  lemma RotateInv(s: State, day: int)
    requires Inv(s)
    ensures Inv(Rotate(s, day))
  {
    hide AcceptedSeqnos, AckedSeqnos, Accounting, Pacing, SessionOk, NextSession;
    EmptyHistory();
    SessionCloses(s);
    var t := Rotate(s, day);
    ClearInv(t);
    forall i | 0 <= i < |t.past| ensures SessionOk(t.past[i].log, t.past[i].discarded) {
      assert i < |s.past| ==> t.past[i] == s.past[i];
    }
  }

  /** The invariant does not depend on the last reading of the boot clock. */
  lemma BootClockInv(s: State, bootMs: nat)
    requires Inv(s)
    ensures Inv(s.(lastBootMs := bootMs))
  {
    hide AcceptedSeqnos, AckedSeqnos, Noticed, Gone;
  }

  lemma ObserveInv(s: State, m: UserMsg, day: int)
    requires Inv(s)
    ensures Inv(Observe(s, m, day))
  {
    hide Inv, Rotate;
    if Watched(s, m) {
      if DetectsReboot(s, m) {
        RotateInv(s, day);
        BootClockInv(Rotate(s, day), m.bootMs);
      } else {
        BootClockInv(s, m.bootMs);
      }
    }
  }

  lemma StepInv(s: State, op: Op)
    requires Inv(s)
    ensures Inv(Step(s, op))
  {
    hide AcceptedSeqnos, AckedSeqnos, Noticed, Gone, HandleBlock, Tick, Observe;
    match op
    case OpBlock(n, msg, e) => HandleBlockInv(s, n, msg, e);
    case OpTick(now, order, ok) => TickInv(s, now, order, ok);
    case OpObserve(m, day) => ObserveInv(s, m, day);
    case OpTlogFile(day, n, content) =>
    case OpUnlink(name) =>
  }

  lemma {:induction false} RunInv(s: State, ops: seq<Op>)
    requires Inv(s)
    ensures Inv(Run(s, ops))
    decreases |ops|
  {
    hide Accounting, Pacing, AcceptedSeqnos, AckedSeqnos;
    if |ops| != 0 {
      StepInv(s, ops[0]);
      RunInv(Step(s, ops[0]), ops[1..]);
    }
  }
}
