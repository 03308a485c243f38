/**
 What one tick sends, in full: when it asks the vehicle to start, which missing blocks it asks for again, and
 what it remembers of that.
 */
module BinlogPump {
  import opened Bytes
  import opened BinlogSpec
  import opened BinlogInvariants
  import opened BinlogResults

  // ---------------------------------------------------------------- START

  ghost predicate NoStart(log: seq<Event>, from: nat) {
    forall i :: from <= i < |log| ==> !log[i].StartSent?
  }

  ghost predicate NoNack(log: seq<Event>, from: nat) {
    forall i :: from <= i < |log| ==> !log[i].NackSent?
  }

  ghost predicate Extends(log: seq<Event>, before: seq<Event>) {
    |before| <= |log| && log[..|before|] == before
  }

  lemma {:induction false} DrainAcksLog(s: State, ok: nat -> bool, i: nat)
    ensures var t := DrainAcks(s, ok, i);
            Extends(t.log, s.log) && NoStart(t.log, |s.log|) && NoNack(t.log, |s.log|)
    decreases |s.acks|
  {
    if s.acks != [] {
      DrainAcksLog(SendAck(s, ok(i)), ok, i + 1);
      var log := DrainAcks(s, ok, i).log;
      assert log[..|s.log|] == log[..|s.log| + 1][..|s.log|];
      assert log[|s.log|] == log[..|s.log| + 1][|s.log|];
    }
  }

  /** A START is due 1 s after the last one as long as no block has come, and every 5 s from then on. */
  predicate StartDue(s: State, now: int) {
    now - s.lastStart >= if s.anyBlock then 5_000_000 else 1_000_000
  }

  /**
   A tick attempts a START exactly when one is due, at most one and before all else, and only a START that went
   out moves the clock.
   */
  lemma TickStarts(s: State, now: Micros, order: seq<nat>, ok: nat -> bool)
    ensures var t := Tick(s, now, order, ok);
            var mark := |s.log|;
            && Extends(t.log, s.log)
            && (if StartDue(s, now) then
                  && mark < |t.log| && t.log[mark] == StartSent(now, ok(0)) && NoStart(t.log, mark + 1)
                  && t.lastStart == if ok(0) then now else s.lastStart
                else
                  NoStart(t.log, mark) && t.lastStart == s.lastStart)
  {
    hide DrainAcks, Renack;
    if s.anyBlock && s.fp.Some? {
      BeforeNacks(s, now, ok);
      var pruned := Prune(DrainAcks(MaybeStart(s, now, START_KEEPALIVE_US, ok(0)), ok, 1), now);
      RenackDone(pruned, order, now, MAX_NACKS_PER_TICK, ok, 1 + |s.acks|);
      RenackFrame(pruned, order, now, MAX_NACKS_PER_TICK, ok, 1 + |s.acks|);
      ExtendsTwice(s.log, pruned.log, Tick(s, now, order, ok).log);
    }
  }

  lemma StartLog(s: State, now: Micros, ok: bool)
    ensures var t := MaybeStart(s, now, START_KEEPALIVE_US, ok);
            var due := now - s.lastStart >= 5_000_000;
            && t.log == s.log + (if due then [StartSent(now, ok)] else [])
            && NacksOut(t.log) == NacksOut(s.log)
            && t.lastStart == (if due && ok then now else s.lastStart)
            && t == s.(lastStart := t.lastStart, log := t.log)
  {
    NacksOutAppend(s.log, StartSent(now, ok));
    assert s.log + [] == s.log;
  }

  lemma PruneLog(s: State, now: Micros, ok: nat -> bool)
    ensures var t := Prune(DrainAcks(s, ok, 1), now);
            && Extends(t.log, s.log) && NoNack(t.log, |s.log|) && NoStart(t.log, |s.log|)
            && NacksOut(t.log) == NacksOut(s.log)
            && t.lastStart == s.lastStart && t.nacks == s.nacks - StaleKeys(s, now)
  {
    hide NacksOut, DrainAcks, StaleKeys;
    var drained := DrainAcks(s, ok, 1);
    DrainAcksLog(s, ok, 1);
    DrainAcksSendsNoNack(s, ok, 1);
    DrainAcksFrame(s, ok, 1);
    NacksOutAppend(drained.log, Abandoned(StaleKeys(drained, now)));
    SameStale(s, drained, now);
    ExtendsTwice(s.log, drained.log, Prune(drained, now).log);
  }

  lemma SameStale(s: State, t: State, now: int)
    requires t.nacks == s.nacks && t.seen == s.seen && t.highest == s.highest
    ensures StaleKeys(t, now) == StaleKeys(s, now)
  {
  }

  /** Everything of a tick with an open file up to the loop over the map. */
  lemma BeforeNacks(s: State, now: Micros, ok: nat -> bool)
    ensures var t := Prune(DrainAcks(MaybeStart(s, now, START_KEEPALIVE_US, ok(0)), ok, 1), now);
            var mark := |s.log|;
            var due := now - s.lastStart >= 5_000_000;
            && Extends(t.log, s.log) && NoNack(t.log, mark) && NacksOut(t.log) == NacksOut(s.log)
            && (if due then mark < |t.log| && t.log[mark] == StartSent(now, ok(0)) && NoStart(t.log, mark + 1)
                else NoStart(t.log, mark))
            && t.lastStart == (if due && ok(0) then now else s.lastStart)
            && t.nacks == s.nacks - StaleKeys(s, now)
  {
    hide NacksOut, DrainAcks, Prune, MaybeStart, StaleKeys;
    StartLog(s, now, ok(0));
    var started := MaybeStart(s, now, START_KEEPALIVE_US, ok(0));
    PruneLog(started, now, ok);
    SameStale(s, started, now);
    assert started.log[..|s.log|] == s.log;
    ExtendsTwice(s.log, started.log, Prune(DrainAcks(started, ok, 1), now).log);
  }

  /** Histories only grow, and what was there stays where it was. */
  lemma ExtendsTwice(a: seq<Event>, b: seq<Event>, c: seq<Event>)
    requires Extends(b, a) && Extends(c, b)
    ensures Extends(c, a) && forall i :: 0 <= i < |b| ==> c[i] == b[i]
  {
    assert c[..|a|] == c[..|b|][..|a|];
    assert forall i :: 0 <= i < |b| ==> c[i] == c[..|b|][i];
  }

  /** Before the first block, and while no file is open, a tick does nothing but that. */
  lemma TickIdle(s: State, now: Micros, order: seq<nat>, ok: nat -> bool)
    requires !s.anyBlock || s.fp.None?
    ensures var t := Tick(s, now, order, ok);
            t == s.(lastStart := if StartDue(s, now) && ok(0) then now else s.lastStart,
                    log := s.log + if StartDue(s, now) then [StartSent(now, ok(0))] else [])
  {
    assert s.log + [] == s.log;
  }

  // ---------------------------------------------------------------- NACKs

  /** The seqnos asked for again since a point of the history. */
  ghost function Tried(log: seq<Event>, from: nat): set<nat> {
    set i | from <= i < |log| && log[i].NackSent? :: log[i].seqno
  }

  /** Those whose NACK went out. */
  ghost function Went(log: seq<Event>, from: nat): set<nat> {
    set i | from <= i < |log| && log[i].NackSent? && log[i].ok :: log[i].seqno
  }

  /** Never asked for again, or 0.1 s ago at least. */
  predicate Ready(n: NackState, now: int) {
    n.lastSent == 0 || now - n.lastSent >= 100_000
  }

  /** The history of the loop over the map: NACKs only, of which at most `budget` go out, one for each of `Went`. */
  ghost predicate LoopLog(before: seq<Event>, log: seq<Event>, now: int, budget: nat) {
    && Extends(log, before) && NoStart(log, |before|)
    && (forall i :: |before| <= i < |log| && log[i].NackSent? ==> log[i].at == now)
    && NacksOut(log) - NacksOut(before) == |Went(log, |before|)| <= budget
  }

  /** Which of the keys of `order` are tried (all that are ready, unless the budget is `spent`), and the map `after`. */
  ghost predicate LoopMap(
    nacks: map<nat, NackState>, after: map<nat, NackState>, tried: set<nat>, went: set<nat>, order: seq<nat>,
    now: int, spent: bool)
  {
    && (forall k :: k in tried ==> k in nacks && Ready(nacks[k], now))
    && (spent || forall k :: k in order && k in nacks && Ready(nacks[k], now) ==> k in tried)
    && after.Keys == nacks.Keys
    && (forall k :: k in nacks ==> after[k] == if k in went then NackState(nacks[k].firstSeen, now) else nacks[k])
  }

  ghost predicate LoopDone(
    nacks: map<nat, NackState>, before: seq<Event>, after: map<nat, NackState>, log: seq<Event>, order: seq<nat>,
    now: int, budget: nat)
  {
    var went := Went(log, |before|);
    && LoopLog(before, log, now, budget)
    && LoopMap(nacks, after, Tried(log, |before|), went, order, now, |went| == budget)
  }

  /** The first attempt of the loop, in front of what the rest of the loop does. */
  lemma AttemptFirst(log: seq<Event>, mark: nat)
    requires mark < |log| && log[mark].NackSent?
    ensures Tried(log, mark) == {log[mark].seqno} + Tried(log, mark + 1)
    ensures Went(log, mark) == (if log[mark].ok then {log[mark].seqno} else {}) + Went(log, mark + 1)
    ensures Went(log, mark + 1) <= Tried(log, mark + 1)
  {
  }

  lemma LogFirst(before: seq<Event>, log: seq<Event>, e: Event, now: int, budget: nat)
    requires e.NackSent? && e.at == now && budget > 0
    requires LoopLog(before + [e], log, now, if e.ok then budget - 1 else budget)
    requires e.ok ==> e.seqno !in Went(log, |before| + 1)
    ensures LoopLog(before, log, now, budget)
  {
    var mark := |before|;
    NacksOutAppend(before, e);
    hide NacksOut;
    assert (before + [e])[..mark] == before;
    ExtendsTwice(before, before + [e], log);
    assert log[mark] == e;
    AttemptFirst(log, mark);
    hide Tried, Went;
  }

  lemma MapFirst(nacks: map<nat, NackState>, after: map<nat, NackState>, tried: set<nat>, went: set<nat>,
                 order: seq<nat>, now: Micros, spent: bool, ok: bool)
    requires order != [] && order[0] in nacks && Ready(nacks[order[0]], now)
    requires var mid := if ok then nacks[order[0] := NackState(nacks[order[0]].firstSeen, now)] else nacks;
             LoopMap(mid, after, tried, went, order[1..], now, spent)
    requires went <= tried
    ensures ok ==> order[0] !in tried
    ensures LoopMap(nacks, after, {order[0]} + tried, (if ok then {order[0]} else {}) + went, order, now, spent)
  {
    assert order == [order[0]] + order[1..];
  }

  lemma LoopFirst(
    nacks: map<nat, NackState>, before: seq<Event>, after: map<nat, NackState>, log: seq<Event>, order: seq<nat>,
    now: Micros, budget: nat, ok: bool)
    requires order != [] && order[0] in nacks && Ready(nacks[order[0]], now) && budget > 0
    requires var mid := if ok then nacks[order[0] := NackState(nacks[order[0]].firstSeen, now)] else nacks;
             LoopDone(mid, before + [NackSent(order[0], now, ok)], after, log, order[1..], now,
                      if ok then budget - 1 else budget)
    ensures LoopDone(nacks, before, after, log, order, now, budget)
  {
    var e, mark := NackSent(order[0], now, ok), |before|;
    assert log[mark] == log[..mark + 1][mark] == e;
    AttemptFirst(log, mark);
    hide Tried, Went, LoopLog, LoopMap, NacksOut, Extends;
    var tried, rest := Tried(log, mark + 1), Went(log, mark + 1);
    var spent := |rest| == if ok then budget - 1 else budget;
    MapFirst(nacks, after, tried, rest, order, now, spent, ok);
    LogFirst(before, log, e, now, budget);
    OneMore(order[0], rest);
  }

  lemma OneMore(k: nat, rest: set<nat>)
    ensures k !in rest ==> |{k} + rest| == 1 + |rest|
    ensures {} + rest == rest
  {
  }

  lemma {:induction false} RenackDone(s: State, order: seq<nat>, now: Micros, budget: nat, ok: nat -> bool, i: nat)
    ensures var t := Renack(s, order, now, budget, ok, i);
            LoopDone(s.nacks, s.log, t.nacks, t.log, order, now, budget)
    decreases |order|
  {
    if order == [] || budget == 0 {
      assert Went(s.log, |s.log|) == {};
    } else if order[0] !in s.nacks || Throttled(s.nacks[order[0]], now) {
      RenackDone(s, order[1..], now, budget, ok, i);
      assert order == [order[0]] + order[1..];
    } else {
      RenackDone(SendNack(s, order[0], now, ok(i)), order[1..], now, if ok(i) then budget - 1 else budget, ok, i + 1);
      var t := Renack(s, order, now, budget, ok, i);
      LoopFirst(s.nacks, s.log, t.nacks, t.log, order, now, budget, ok(i));
    }
  }

  /** The chased seqnos that a tick keeps chasing and may ask for again. */
  function Due(s: State, now: int): set<nat> {
    set k | k in s.nacks && s.highest - k <= 200 && now - s.nacks[k].firstSeen <= 60_000_000 && Ready(s.nacks[k], now)
  }

  /** What the tick has left in the map is what the loop can ask for. */
  lemma DueAfterPruning(s: State, nacks: map<nat, NackState>, now: int)
    requires Inv(s) && nacks == s.nacks - StaleKeys(s, now)
    ensures forall k :: k in nacks && Ready(nacks[k], now) <==> k in Due(s, now)
  {
    hide AcceptedSeqnos, AckedSeqnos, Noticed, Gone, Pacing;
  }

  /** Events that are no NACKs do not matter. */
  lemma SameAttempts(log: seq<Event>, from: nat, mark: nat)
    requires from <= mark <= |log| && forall i :: from <= i < mark ==> !log[i].NackSent?
    ensures Tried(log, from) == Tried(log, mark) && Went(log, from) == Went(log, mark)
    ensures Went(log, mark) <= Tried(log, mark)
  {
  }

  lemma {:induction false} AllGoOut(s: State, order: seq<nat>, now: Micros, budget: nat, ok: nat -> bool, i: nat)
    requires forall j: nat :: ok(j)
    ensures var t := Renack(s, order, now, budget, ok, i);
            Extends(t.log, s.log) && Went(t.log, |s.log|) == Tried(t.log, |s.log|)
    decreases |order|
  {
    if order == [] || budget == 0 {
    } else if order[0] !in s.nacks || Throttled(s.nacks[order[0]], now) {
      AllGoOut(s, order[1..], now, budget, ok, i);
    } else {
      var mid := SendNack(s, order[0], now, true);
      AllGoOut(mid, order[1..], now, budget - 1, ok, i + 1);
      var log := Renack(mid, order[1..], now, budget - 1, ok, i + 1).log;
      assert mid.log[..|s.log|] == s.log;
      ExtendsTwice(s.log, mid.log, log);
      assert mid.log[|s.log|].NackSent?;
      AttemptFirst(log, |s.log|);
    }
  }

  /** A set within another of which it has ten members, or all. */
  lemma TenOrAll(went: set<nat>, due: set<nat>)
    requires went <= due && |went| <= 10 && (|went| == 10 || went == due)
    ensures |went| == Min(10, |due|)
  {
    assert due == went + (due - went);
    assert |due| == |went| + |due - went|;
  }

  /**
   A tick with an open file asks again for due seqnos and for no other, each at most once with success: either
   ten NACKs go out, or every due seqno is tried. A NACK that went out is stamped with the time of the tick, and
   nothing else about the seqnos still chased changes. When all sends succeed the number of NACKs is the smaller
   of ten and the number of due seqnos.
   */
  lemma TickAsksAgain(s: State, now: Micros, order: seq<nat>, ok: nat -> bool)
    requires Inv(s) && s.fp.Some? && s.anyBlock
    requires forall k :: k in s.nacks ==> k in order
    ensures var t := Tick(s, now, order, ok);
            var went := Went(t.log, |s.log|);
            var tried := Tried(t.log, |s.log|);
            && Extends(t.log, s.log) && went <= tried <= Due(s, now)
            && (forall i :: |s.log| <= i < |t.log| && t.log[i].NackSent? ==> t.log[i].at == now)
            && NacksOut(t.log) - NacksOut(s.log) == |went| <= 10
            && (|went| == 10 || tried == Due(s, now))
            && t.nacks.Keys <= s.nacks.Keys
            && (forall k :: k in t.nacks ==>
                  t.nacks[k] == if k in went then NackState(s.nacks[k].firstSeen, now) else s.nacks[k])
            && ((forall i: nat :: ok(i)) ==> |went| == Min(10, |Due(s, now)|))
  {
    hide NacksOut, DrainAcks, Renack, Inv, Tried, Went;
    BeforeNacks(s, now, ok);
    var pruned := Prune(DrainAcks(MaybeStart(s, now, START_KEEPALIVE_US, ok(0)), ok, 1), now);
    var t := Tick(s, now, order, ok);
    RenackDone(pruned, order, now, MAX_NACKS_PER_TICK, ok, 1 + |s.acks|);
    ExtendsTwice(s.log, pruned.log, t.log);
    SameAttempts(t.log, |s.log|, |pruned.log|);
    DueAfterPruning(s, pruned.nacks, now);
    var went, tried := Went(t.log, |s.log|), Tried(t.log, |s.log|);
    if |went| != 10 {
      assert tried == Due(s, now);
    }
    if forall i: nat :: ok(i) {
      AllGoOut(pruned, order, now, MAX_NACKS_PER_TICK, ok, 1 + |s.acks|);
      TenOrAll(went, Due(s, now));
    }
  }
}
