/** When `max` passes the end of the table: exactly when loops leave it, and exactly when the "BUG" exit is taken. */
module SlotLimits {
  import opened Bytes
  import opened Slots
  import opened SlotReach

  // ---------------------------------------------------------------- when `max` passes the table

  /** A new engineer on UDP finds a free slot although the counter says that all are taken. */
  ghost predicate Overfills(t: Table, peer: int) {
    t.count == LINKS && !Known(t, peer) && exists i :: 0 <= i < |t.slots| && !t.slots[i].used
  }

  /** A packet lifts `max` past the table exactly when it overfills; then the counter is past it too. */
  lemma PacketOverfillsExactlyWhen(t: Table, peer: int, now: int)
    requires Counted(t, LINKS)
    ensures EngineerPacket(t, peer, now).max > LINKS <==> Overfills(t, peer)
    ensures EngineerPacket(t, peer, now).max > LINKS ==> Past(EngineerPacket(t, peer, now))
    ensures EngineerPacket(t, peer, now).outside == t.outside
  {
    PacketFind(t, peer);
    FindFound(t, 0, peer);
    var free := FirstFree(t.slots, 0);
  }

  ghost predicate Past(t: Table) {
    |t.slots| == LINKS && t.max == t.count == LINKS + 1
  }

  /** A loop closes nobody. */
  ghost predicate Spares(t: Table, failing: set<nat>, tcpOnly: bool) {
    forall i :: 0 <= i < |t.slots| && i in failing ==> !Exposed(t.slots[i], tcpOnly)
  }

  /** With `max` in the table, a loop stays inside and keeps it so. */
  lemma {:induction false} ForwardInside(t: Table, i: nat, failing: set<nat>, tcpOnly: bool)
    requires |t.slots| == LINKS && t.max <= LINKS
    ensures var u := Forward(t, i, failing, tcpOnly); |u.slots| == LINKS && u.max <= LINKS && u.outside == t.outside
    decreases LINKS - i
  {
    if InReach(t, i) {
      var hit := t.slots[i].used && i in failing && (!tcpOnly || (!t.slots[i].udp && t.slots[i].listening));
      ForwardInside(if hit then Hangup(t, i) else t, i + 1, failing, tcpOnly);
    }
  }

  /** With `max` past the table, a loop leaves the table exactly when it closes nobody; a hangup brings `max` back. */
  lemma {:induction false} ForwardPast(t: Table, i: nat, failing: set<nat>, tcpOnly: bool)
    requires Past(t) && i <= LINKS
    requires forall j :: 0 <= j < i && j in failing ==> !Exposed(t.slots[j], tcpOnly)
    ensures var u := Forward(t, i, failing, tcpOnly);
            if Spares(t, failing, tcpOnly) then u == t.(outside := true)
            else |u.slots| == LINKS && u.max <= LINKS && u.outside == t.outside
    decreases LINKS - i
  {
    if InReach(t, i) {
      if i in failing && Exposed(t.slots[i], tcpOnly) {
        ForwardInside(Hangup(t, i), i + 1, failing, tcpOnly);
      } else {
        ForwardPast(t, i + 1, failing, tcpOnly);
      }
    }
  }

  lemma {:induction false} ForwardAllInside(t: Table, messages: seq<set<nat>>, tcpOnly: bool)
    requires |t.slots| == LINKS && t.max <= LINKS
    ensures var u := ForwardAll(t, messages, tcpOnly); |u.slots| == LINKS && u.max <= LINKS && u.outside == t.outside
    decreases |messages|
  {
    hide Forward;
    if messages != [] {
      ForwardInside(t, 0, messages[0], tcpOnly);
      ForwardAllInside(Forward(t, 0, messages[0], tcpOnly), messages[1..], tcpOnly);
    }
  }

  ghost predicate SparesAll(t: Table, messages: seq<set<nat>>, tcpOnly: bool) {
    forall k :: 0 <= k < |messages| ==> Spares(t, messages[k], tcpOnly)
  }

  lemma {:induction false} ForwardAllPast(t: Table, messages: seq<set<nat>>, tcpOnly: bool)
    requires Past(t)
    ensures var u := ForwardAll(t, messages, tcpOnly);
            && (if SparesAll(t, messages, tcpOnly) then u == t.(outside := u.outside)
                else |u.slots| == LINKS && u.max <= LINKS)
            && (u.outside <==> t.outside || (messages != [] && Spares(t, messages[0], tcpOnly)))
    decreases |messages|
  {
    hide Forward, Spares;
    if messages != [] {
      ForwardPast(t, 0, messages[0], tcpOnly);
      var u := Forward(t, 0, messages[0], tcpOnly);
      if Spares(t, messages[0], tcpOnly) {
        ForwardAllPast(u, messages[1..], tcpOnly);
        SparesSame(t, u, messages[1..], tcpOnly);
        assert SparesAll(t, messages, tcpOnly) <==> SparesAll(t, messages[1..], tcpOnly) by {
          assert messages == [messages[0]] + messages[1..];
        }
      } else {
        ForwardAllInside(u, messages[1..], tcpOnly);
      }
    }
  }

  lemma SparesSame(t: Table, u: Table, messages: seq<set<nat>>, tcpOnly: bool)
    requires u.slots == t.slots
    ensures SparesAll(t, messages, tcpOnly) <==> SparesAll(u, messages, tcpOnly)
  {
    assert forall m :: Spares(t, m, tcpOnly) <==> Spares(u, m, tcpOnly);
  }

  // ---------------------------------------------------------------- one turn

  /** The packet of this turn overfills the table. */
  ghost predicate TurnOverfills(t: Table, turn: Turn) {
    turn.engineer.Some? && Overfills(ForwardAll(Reap(t, 0, turn.now), turn.userUdp, true), turn.engineer.value)
  }

  /** After the packet, no loop of the turn closes anybody. */
  ghost predicate NobodyHangsUp(t: Table, turn: Turn) {
    var b := Receive(t, turn);
    SparesAll(b, turn.userTcp, false) && (turn.accepted.Some? || Spares(b, turn.ended, true))
  }

  /** After the packet, the first loop of the turn closes nobody. */
  ghost predicate FirstLoopSpares(t: Table, turn: Turn) {
    var b := Receive(t, turn);
    if turn.userTcp != [] then Spares(b, turn.userTcp[0], false)
    else turn.accepted.None? && Spares(b, turn.ended, true)
  }

  lemma {:induction false} ReapOutside(t: Table, i: nat, now: int)
    ensures Reap(t, i, now).outside == t.outside
    decreases |t.slots| - i
  {
    if InReach(t, i) {
      var s := t.slots[i];
      ReapOutside(if Silent(s, now) then t.(slots := t.slots[i := Closed(s)], reaped := t.reaped + 1) else t, i + 1, now);
    }
  }

  lemma ReceivePast(t: Table, turn: Turn)
    requires Counted(t, LINKS)
    ensures var b := Receive(t, turn);
            && b.outside == t.outside && |b.slots| == LINKS
            && (if TurnOverfills(t, turn) then Past(b) else b.max <= LINKS)
  {
    ReapCounted(t, 0, turn.now, LINKS);
    ReapOutside(t, 0, turn.now);
    var r := Reap(t, 0, turn.now);
    ForwardAllCounted(r, turn.userUdp, true, LINKS);
    ForwardAllInside(r, turn.userUdp, true);
    if turn.engineer.Some? {
      PacketOverfillsExactlyWhen(ForwardAll(r, turn.userUdp, true), turn.engineer.value, turn.now);
      PacketCounted(ForwardAll(r, turn.userUdp, true), turn.engineer.value, turn.now);
    }
  }

  /** What follows the packet, once `max` is past the table. */
  lemma RestPast(b: Table, turn: Turn)
    requires Past(b)
    ensures var c := ForwardAll(b, turn.userTcp, false);
            var u := if turn.accepted.Some? then Accept(c, turn.accepted.value) else ReadEngineers(c, 0, turn.ended);
            && (u.max > LINKS <==> SparesAll(b, turn.userTcp, false) && (turn.accepted.Some? || Spares(b, turn.ended, true)))
            && (u.outside <==> b.outside || if turn.userTcp != [] then Spares(b, turn.userTcp[0], false)
                                            else turn.accepted.None? && Spares(b, turn.ended, true))
  {
    hide ForwardAll, Forward, ReadEngineers;
    ForwardAllPast(b, turn.userTcp, false);
    var c := ForwardAll(b, turn.userTcp, false);
    ReadingIsForwarding(c, 0, turn.ended);
    if SparesAll(b, turn.userTcp, false) {
      assert Spares(c, turn.ended, true) <==> Spares(b, turn.ended, true);
      ForwardPast(c, 0, turn.ended, true);
    } else {
      assert turn.userTcp != [];
      ForwardInside(c, 0, turn.ended, true);
    }
  }

  lemma RestInside(b: Table, turn: Turn)
    requires |b.slots| == LINKS && b.max <= LINKS
    ensures var c := ForwardAll(b, turn.userTcp, false);
            var u := if turn.accepted.Some? then Accept(c, turn.accepted.value) else ReadEngineers(c, 0, turn.ended);
            u.max <= LINKS && u.outside == b.outside
  {
    hide ForwardAll, Forward, ReadEngineers;
    ForwardAllInside(b, turn.userTcp, false);
    var c := ForwardAll(b, turn.userTcp, false);
    ReadingIsForwarding(c, 0, turn.ended);
    ForwardInside(c, 0, turn.ended, true);
  }

  /** A served turn ends with `max` past the table exactly when its packet overfills and nobody hangs up after it. */
  lemma ServePastExactlyWhen(t: Table, turn: Turn)
    requires Counted(t, LINKS)
    ensures Serve(t, turn).max > LINKS <==> TurnOverfills(t, turn) && NobodyHangsUp(t, turn)
    ensures Serve(t, turn).outside <==> t.outside || (TurnOverfills(t, turn) && FirstLoopSpares(t, turn))
  {
    hide Receive, TurnOverfills, Spares, SparesAll, Past, Counted, Accept;
    ReceivePast(t, turn);
    var b := Receive(t, turn);
    if TurnOverfills(t, turn) {
      RestPast(b, turn);
    } else {
      RestInside(b, turn);
    }
  }

  // ---------------------------------------------------------------- whole runs

  lemma {:induction false} DropsKeepMax(t: Table, indices: seq<int>)
    requires |t.slots| == LINKS
    ensures var d := DropAll(t, indices);
            && d.outside == t.outside && (d.max > LINKS <==> t.max > LINKS)
            && (d.status == if 0 in indices then Ended else t.status)
    decreases |indices|
  {
    if indices != [] {
      assert indices == [indices[0]] + indices[1..];
      DropsKeepMax(Drop(t, indices[0]), indices[1..]);
    }
  }

  /** The process is running, and no drop request ends it. */
  predicate GoesOn(t: Table, turn: Turn) {
    t.status == Running && 0 !in turn.drops
  }

  /** The turn is served: something is ready and `max` is in the table. */
  predicate Served(t: Table, turn: Turn) {
    GoesOn(t, turn) && turn.wake == Ready && t.max <= LINKS
  }

  ghost predicate BugTurn(t: Table, turn: Turn) {
    GoesOn(t, turn) && turn.wake == Ready && t.max > LINKS
  }

  /** A loop of this turn leaves the table: the one before the wait, or the first one after an overfilling packet. */
  ghost predicate OutsideTurn(t: Table, turn: Turn) {
    var d := DropAll(t, turn.drops);
    || (GoesOn(t, turn) && turn.wake != Idle && t.max > LINKS)
    || (Served(t, turn) && TurnOverfills(d, turn) && FirstLoopSpares(d, turn))
  }

  /** A turn takes the "BUG" exit, leaves the table, and lifts `max` past it exactly when these guards say so. */
  lemma TakeExactlyWhen(t: Table, turn: Turn)
    requires Safe(t)
    ensures var u, d := Take(t, turn), DropAll(t, turn.drops);
            && (u.status == Bug <==> t.status == Bug || BugTurn(t, turn))
            && (u.outside <==> t.outside || OutsideTurn(t, turn))
            && (u.max > LINKS <==>
                  t.max > LINKS || (Served(t, turn) && TurnOverfills(d, turn) && NobodyHangsUp(d, turn)))
  {
    hide Serve, TurnOverfills, FirstLoopSpares, NobodyHangsUp, DropAll;
    DropsKeepMax(t, turn.drops);
    DropsCounted(t, turn.drops, Limit(t));
    var d := DropAll(t, turn.drops);
    if Served(t, turn) {
      assert Counted(d, LINKS);
      ServePastExactlyWhen(d, turn);
      ServeCounted(d, turn);
    }
  }

  /**
   A turn ends the process without the "BUG" exit exactly when the user is dropped, or the wait has lasted or would
   last too long; an interrupted wait leaves the table as the drops made it.
   */
  lemma TakeEndsExactlyWhen(t: Table, turn: Turn)
    requires Safe(t) && t.status == Running
    ensures var u, d := Take(t, turn), DropAll(t, turn.drops);
            && (u.status == Ended <==> 0 in turn.drops || turn.wake == Idle || turn.wake == TimedOut)
            && (turn.wake == Interrupted ==> u == d.(outside := u.outside))
  {
    hide Serve, DropAll;
    DropsKeepMax(t, turn.drops);
    DropsCounted(t, turn.drops, Limit(t));
    var d := DropAll(t, turn.drops);
    if Served(t, turn) {
      ServeCounted(d, turn);
    }
  }

  ghost predicate BugRun(t: Table, turns: seq<Turn>)
    decreases |turns|
  {
    turns != [] && (BugTurn(t, turns[0]) || BugRun(Take(t, turns[0]), turns[1..]))
  }

  ghost predicate OutsideRun(t: Table, turns: seq<Turn>)
    decreases |turns|
  {
    turns != [] && (OutsideTurn(t, turns[0]) || OutsideRun(Take(t, turns[0]), turns[1..]))
  }

  lemma {:induction false} RunExactlyWhen(t: Table, turns: seq<Turn>)
    requires Safe(t)
    ensures Run(t, turns).status == Bug <==> t.status == Bug || BugRun(t, turns)
    ensures Run(t, turns).outside <==> t.outside || OutsideRun(t, turns)
    decreases |turns|
  {
    hide Safe, Take, BugTurn, OutsideTurn;
    if turns != [] {
      TakeExactlyWhen(t, turns[0]);
      TakeSafe(t, turns[0]);
      RunExactlyWhen(Take(t, turns[0]), turns[1..]);
    }
  }

  /** A run takes the "BUG" exit exactly when something is ready in a turn that finds `max` past the table. */
  lemma BugExactlyWhen(turns: seq<Turn>)
    ensures Run(Init(), turns).status == Bug <==> BugRun(Init(), turns)
  {
    hide Run, BugRun, Init, Safe;
    InitSafe();
    RunExactlyWhen(Init(), turns);
  }

  /** Every index that the loops of a run use is in the table exactly when no turn meets the guard of `OutsideTurn`. */
  lemma InsideExactlyWhen(turns: seq<Turn>)
    ensures !Run(Init(), turns).outside <==> !OutsideRun(Init(), turns)
  {
    hide Run, OutsideRun, Init, Safe;
    InitSafe();
    RunExactlyWhen(Init(), turns);
  }

  /** The "BUG" exit comes too late: the loop before it has left the table already. */
  lemma {:induction false} BugAfterOutside(t: Table, turns: seq<Turn>)
    requires Safe(t)
    ensures BugRun(t, turns) ==> OutsideRun(t, turns)
    decreases |turns|
  {
    hide Safe, Take;
    if turns != [] {
      TakeSafe(t, turns[0]);
      BugAfterOutside(Take(t, turns[0]), turns[1..]);
    }
  }

  // ---------------------------------------------------------------- the "BUG" exit can be reached

  /** Engineers 1..k are connected on UDP at time 100, after one other was reaped. */
  ghost predicate Filled(t: Table, k: nat) {
    && |t.slots| == LINKS && k <= LINKS && t.status == Running && t.reaped == 1
    && t.count == t.max == k + 1
    && (forall i :: 0 <= i < k ==> t.slots[i] == Slot(true, true, false, i + 1, 100))
    && (forall i :: k <= i < LINKS ==> !t.slots[i].used)
  }

  function PacketFrom(peer: int, now: int): Turn {
    Turn([], Ready, now, [], Some(peer), [], None, {})
  }

  lemma {:induction false} NotFound(t: Table, k: nat, i: nat)
    requires Filled(t, k) && i <= LINKS
    ensures Find(t, i, k + 1) == LINKS
    decreases LINKS - i
  {
    if InReach(t, i) {
      NotFound(t, k, i + 1);
    }
  }

  lemma {:induction false} NothingToReap(t: Table, k: nat, i: nat)
    requires Filled(t, k)
    ensures Reap(t, i, 100) == t
    decreases LINKS - i
  {
    if InReach(t, i) {
      NothingToReap(t, k, i + 1);
    }
  }

  lemma {:induction false} NothingToRead(t: Table, i: nat)
    requires i <= |t.slots|
    ensures ReadEngineers(t, i, {}) == if t.max > |t.slots| then t.(outside := true) else t
    decreases |t.slots| - i
  {
    if InReach(t, i) {
      NothingToRead(t, i + 1);
    }
  }

  lemma FillStep(t: Table, k: nat)
    requires Filled(t, k) && k < LINKS
    ensures Filled(Take(t, PacketFrom(k + 1, 100)), k + 1)
  {
    NothingToReap(t, k, 0);
    NotFound(t, k, 0);
    FirstFreeIs(t.slots, 0, k);
    NothingToRead(EngineerPacket(t, k + 1, 100), 0);
  }

  lemma {:induction false} FillAll(t: Table, k: nat) returns (turns: seq<Turn>)
    requires Filled(t, k)
    ensures Filled(Run(t, turns), LINKS)
    decreases LINKS - k
  {
    if k == LINKS {
      turns := [];
    } else {
      FillStep(t, k);
      var rest := FillAll(Take(t, PacketFrom(k + 1, 100)), k + 1);
      turns := [PacketFrom(k + 1, 100)] + rest;
    }
  }

  lemma {:induction false} RunAppend(t: Table, a: seq<Turn>, b: seq<Turn>)
    ensures Run(t, a + b) == Run(Run(t, a), b)
    decreases |a|
  {
    if a == [] {
      assert a + b == b;
    } else {
      assert (a + b)[1..] == a[1..] + b;
      RunAppend(Take(t, a[0]), a[1..], b);
    }
  }

  /** A single time-out is enough: one hundred and one engineers later the process takes the "BUG" exit. */
  lemma BugReachable() returns (turns: seq<Turn>)
    ensures Run(Init(), turns).status == Bug && Run(Init(), turns).reaped == 1
  {
    hide Init, PacketFrom, Take;
    var t := ReapFirst();
    var rest := FillAll(t, 0);
    RunAppend(t, rest, [SILENCE]);
    OneTooMany(Run(t, rest), SILENCE);
    turns := [PacketFrom(0, 0), SILENCE] + (rest + [SILENCE]);
    RunAppend(Init(), [PacketFrom(0, 0), SILENCE], rest + [SILENCE]);
  }

  lemma OneTooMany(t: Table, turn: Turn)
    requires Filled(t, LINKS) && turn.wake == Ready && turn.drops == []
    ensures Run(t, [turn]) == t.(status := Bug, outside := true)
  {
    assert Run(t, [turn]) == Run(Take(t, turn), []);
  }

  const SILENCE: Turn := Turn([], Ready, 100, [], None, [], None, {})

  function OneOnUdp(): Table {
    Table(Init().slots[0 := Slot(true, true, false, 0, 0)], 1, 1, Running, 0, false)
  }

  lemma FirstPacketTurn()
    ensures Take(Init(), PacketFrom(0, 0)) == OneOnUdp()
  {
    assert Reap(Init(), 0, 0) == Init();
    FirstFreeIs(Init().slots, 0, 0);
    NothingToRead(OneOnUdp(), 0);
  }

  lemma SilenceTurn()
    ensures Filled(Take(OneOnUdp(), SILENCE), 0)
  {
    var t := OneOnUdp();
    var u := t.(slots := t.slots[0 := Slot(false, true, false, 0, 0)], reaped := 1);
    assert Reap(u, 1, 100) == u;
    assert Reap(t, 0, 100) == u;
    NothingToRead(u, 0);
  }

  lemma ReapFirst() returns (t: Table)
    ensures t == Run(Init(), [PacketFrom(0, 0), SILENCE]) && Filled(t, 0)
  {
    hide Init, Take, OneOnUdp, PacketFrom, Filled;
    FirstPacketTurn();
    SilenceTurn();
    t := Take(OneOnUdp(), SILENCE);
    var turns := [PacketFrom(0, 0), SILENCE];
    assert turns[1..] == [SILENCE];
    assert Run(Init(), turns) == Run(OneOnUdp(), [SILENCE]) == Run(t, []);
  }
}
