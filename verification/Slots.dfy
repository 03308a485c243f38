/**
 The support-engineer slots of one proxy process: a table of one hundred slots and two eight-bit counters,
 changed in the event loop by new connections, failed sends, ends of stream, time-outs and drop requests.
 What each step of the loop meets is an input.
 */
module Slots {
  import opened Bytes

  const LINKS: nat := 100
  const UDP_TIMEOUT: int := 10

  /** `listening` stands for an open socket of its own, which only TCP engineers have. */
  datatype Slot = Slot(used: bool, udp: bool, listening: bool, peer: int, lastPkt: int)

  const FREE: Slot := Slot(false, false, false, 0, 0)

  datatype Status = Running | Ended | Bug

  /**
   `reaped` counts the UDP engineers closed for silence, and `outside` says that some loop has used an index past
   the end of the table; the program keeps neither. What it does after such an access is not modelled.
   */
  datatype Table = Table(slots: seq<Slot>, count: nat, max: nat, status: Status, reaped: nat, outside: bool)

  // ---------------------------------------------------------------- steps

  function Inc8(n: nat): nat {
    (n + 1) % 256
  }

  function Dec8(n: nat): nat {
    (n + 255) % 256
  }

  function Closed(slot: Slot): Slot {
    slot.(used := false, listening := false)
  }

  /** A failed send or an end of stream: the slot is closed and counted off. */
  function Hangup(t: Table, i: nat): Table
    requires i < |t.slots|
  {
    t.(slots := t.slots[i := Closed(t.slots[i])], count := Dec8(t.count),
       max := if t.count == t.max then Dec8(t.max) else t.max)
  }

  /** An index that the loops below `max` use and that is in the table. */
  predicate InReach(t: Table, i: nat) {
    i < t.max && i < |t.slots|
  }

  /** A loop at an index that is not in reach ends there, or leaves the table. */
  function LoopEnd(t: Table, i: nat): Table {
    if i < t.max then t.(outside := true) else t
  }

  /** One message for all engineers; the user side on UDP does not look at the result for UDP engineers. */
  function Forward(t: Table, i: nat, failing: set<nat>, tcpOnly: bool): Table
    decreases |t.slots| - i
  {
    if !InReach(t, i) then LoopEnd(t, i)
    else
      var s := t.slots[i];
      var hit := s.used && i in failing && (!tcpOnly || (!s.udp && s.listening));
      Forward(if hit then Hangup(t, i) else t, i + 1, failing, tcpOnly)
  }

  function ForwardAll(t: Table, messages: seq<set<nat>>, tcpOnly: bool): Table
    decreases |messages|
  {
    if messages == [] then t else ForwardAll(Forward(t, 0, messages[0], tcpOnly), messages[1..], tcpOnly)
  }

  function ReadEngineers(t: Table, i: nat, ended: set<nat>): Table
    decreases |t.slots| - i
  {
    if !InReach(t, i) then LoopEnd(t, i)
    else
      var s := t.slots[i];
      var hit := !s.udp && s.used && s.listening && i in ended;
      ReadEngineers(if hit then Hangup(t, i) else t, i + 1, ended)
  }

  predicate Silent(s: Slot, now: int) {
    s.used && s.udp && now - s.lastPkt > UDP_TIMEOUT
  }

  /** Silent UDP engineers are closed, but not counted off. */
  function Reap(t: Table, i: nat, now: int): Table
    decreases |t.slots| - i
  {
    if !InReach(t, i) then t
    else
      var s := t.slots[i];
      Reap(if Silent(s, now) then t.(slots := t.slots[i := Closed(s)], reaped := t.reaped + 1) else t, i + 1, now)
  }

  function Find(t: Table, i: nat, peer: int): nat
    decreases |t.slots| - i
  {
    if !InReach(t, i) then |t.slots|
    else
      var s := t.slots[i];
      if s.used && s.udp && s.peer == peer then i else Find(t, i + 1, peer)
  }

  function FirstFree(slots: seq<Slot>, i: nat): (r: nat)
    requires i <= |slots|
    ensures i <= r <= |slots| && (r < |slots| ==> !slots[r].used)
    ensures forall j :: i <= j < r ==> slots[j].used
    decreases |slots| - i
  {
    if i == |slots| || !slots[i].used then i else FirstFree(slots, i + 1)
  }

  lemma {:induction false} FirstFreeIs(slots: seq<Slot>, i: nat, k: nat)
    requires i <= k < |slots| && !slots[k].used && forall j :: i <= j < k ==> slots[j].used
    ensures FirstFree(slots, i) == k
    decreases k - i
  {
    if i < k {
      FirstFreeIs(slots, i + 1, k);
    }
  }

  function Occupy(t: Table, i: nat, s: Slot): Table
    requires i < |t.slots|
  {
    var count := Inc8(t.count);
    t.(slots := t.slots[i := s], count := count, max := Max(t.max, count))
  }

  function EngineerPacket(t: Table, peer: int, now: int): Table {
    var known := Find(t, 0, peer);
    if known < |t.slots| then t.(slots := t.slots[known := t.slots[known].(lastPkt := now)])
    else
      var free := FirstFree(t.slots, 0);
      if free < |t.slots| then Occupy(t, free, Slot(true, true, false, peer, now)) else t
  }

  function Accept(t: Table, peer: int): Table {
    if t.count >= LINKS then t
    else
      var free := FirstFree(t.slots, 0);
      if free < |t.slots| then Occupy(t, free, Slot(true, false, true, peer, t.slots[free].lastPkt)) else t
  }

  /** A drop request: index 0 is the user side, index k is slot k - 1. */
  function Drop(t: Table, index: int): Table {
    if index == 0 then t.(status := Ended)
    else if 1 <= index <= |t.slots| && t.slots[index - 1].used then
      t.(slots := t.slots[index - 1 := Closed(t.slots[index - 1])],
         count := if t.count > 0 then t.count - 1 else 0,
         max := if t.max > 0 && index == t.max then t.max - 1 else t.max)
    else t
  }

  function DropAll(t: Table, indices: seq<int>): Table
    decreases |indices|
  {
    if indices == [] then t else DropAll(Drop(t, indices[0]), indices[1..])
  }

  // ---------------------------------------------------------------- one turn of the event loop

  /** How the wait of a turn ends: idle for too long before it, interrupted, timed out, or something is ready. */
  datatype Wake = Idle | Interrupted | TimedOut | Ready

  /**
   What one turn meets: drop requests, how the wait ends, the time, messages of a user on UDP (each with the
   slots its sending fails on), a packet of an engineer on UDP, messages of a user on TCP, a new engineer on TCP,
   and the slots at their end of stream. A turn that breaks off early meets nothing in what follows.
   */
  datatype Turn = Turn(drops: seq<int>, wake: Wake, now: int, userUdp: seq<set<nat>>, engineer: Option<int>,
                       userTcp: seq<set<nat>>, accepted: Option<int>, ended: set<nat>)

  /** Up to and with the packet of an engineer on UDP. */
  function Receive(t: Table, turn: Turn): Table {
    var a := ForwardAll(Reap(t, 0, turn.now), turn.userUdp, true);
    if turn.engineer.Some? then EngineerPacket(a, turn.engineer.value, turn.now) else a
  }

  /** The steps of a turn once something is ready. */
  function Serve(t: Table, turn: Turn): Table {
    var c := ForwardAll(Receive(t, turn), turn.userTcp, false);
    if turn.accepted.Some? then Accept(c, turn.accepted.value) else ReadEngineers(c, 0, turn.ended)
  }

  /** The loop that collects the sockets to wait for runs before `max` is checked. */
  function Take(t: Table, turn: Turn): Table {
    if t.status != Running then t
    else
      var d := DropAll(t, turn.drops);
      if d.status != Running then d
      else if turn.wake == Idle then d.(status := Ended)
      else
        var w := if d.max > |d.slots| then d.(outside := true) else d;
        match turn.wake
        case Interrupted => w
        case Ready => if w.max > LINKS then w.(status := Bug) else Serve(w, turn)
        case _ => w.(status := Ended)
  }

  function Run(t: Table, turns: seq<Turn>): Table
    decreases |turns|
  {
    if turns == [] then t else Run(Take(t, turns[0]), turns[1..])
  }

  function Init(): Table {
    Table(seq(LINKS, i => FREE), 0, 0, Running, 0, false)
  }

  // ---------------------------------------------------------------- counting

  function Used(slots: seq<Slot>): nat {
    if slots == [] then 0 else Used(slots[..|slots| - 1]) + if slots[|slots| - 1].used then 1 else 0
  }

  function One(b: bool): nat {
    if b then 1 else 0
  }

  lemma {:induction false} UsedUpdate(slots: seq<Slot>, i: nat, s: Slot)
    requires i < |slots|
    ensures Used(slots[i := s]) + One(slots[i].used) == Used(slots) + One(s.used)
  {
    var n := |slots| - 1;
    if i < n {
      UsedUpdate(slots[..n], i, s);
      assert slots[i := s][..n] == slots[..n][i := s];
    } else {
      assert slots[i := s][..n] == slots[..n];
    }
  }

  lemma {:induction false} UsedBound(slots: seq<Slot>)
    ensures Used(slots) <= |slots|
    ensures Used(slots) == |slots| <==> forall i :: 0 <= i < |slots| ==> slots[i].used
  {
    if slots != [] {
      var n := |slots| - 1;
      UsedBound(slots[..n]);
      assert forall i :: 0 <= i < n ==> slots[..n][i] == slots[i];
    }
  }

  lemma {:induction false} NoneUsed(slots: seq<Slot>)
    requires forall i :: 0 <= i < |slots| ==> !slots[i].used
    ensures Used(slots) == 0
  {
    if slots != [] {
      NoneUsed(slots[..|slots| - 1]);
    }
  }

  // ---------------------------------------------------------------- what every run keeps

  /** An engineer on TCP has its own socket, and no other slot holds one. */
  predicate SocketFits(s: Slot) {
    s.listening <==> s.used && !s.udp
  }

  /** Counted engineers are the live ones and those reaped without being counted off. */
  ghost predicate Counted(t: Table, limit: nat) {
    && |t.slots| == LINKS
    && (forall i :: 0 <= i < LINKS ==> SocketFits(t.slots[i]))
    && t.count == Used(t.slots) + t.reaped
    && t.count <= t.max <= limit
  }

  /** How far `max` can go: one too far, and only once an engineer has been reaped. */
  function Limit(t: Table): nat {
    if t.reaped == 0 then LINKS else LINKS + 1
  }

  ghost predicate Safe(t: Table) {
    Counted(t, Limit(t)) && (t.status == Bug ==> t.max > LINKS)
  }

  lemma HangupCounted(t: Table, i: nat, limit: nat)
    requires Counted(t, limit) && limit <= 255 && i < LINKS && t.slots[i].used
    ensures Counted(Hangup(t, i), limit) && Hangup(t, i).reaped == t.reaped
    ensures t.count > 0 && Hangup(t, i).count == t.count - 1 && Used(Hangup(t, i).slots) == Used(t.slots) - 1
  {
    UsedUpdate(t.slots, i, Closed(t.slots[i]));
  }

  lemma {:induction false} ForwardCounted(t: Table, i: nat, failing: set<nat>, tcpOnly: bool, limit: nat)
    requires Counted(t, limit) && limit <= 255
    ensures Counted(Forward(t, i, failing, tcpOnly), limit)
    ensures Forward(t, i, failing, tcpOnly).reaped == t.reaped && Forward(t, i, failing, tcpOnly).status == t.status
    decreases LINKS - i
  {
    if InReach(t, i) {
      var s := t.slots[i];
      if s.used && i in failing && (!tcpOnly || (!s.udp && s.listening)) {
        HangupCounted(t, i, limit);
        ForwardCounted(Hangup(t, i), i + 1, failing, tcpOnly, limit);
      } else {
        ForwardCounted(t, i + 1, failing, tcpOnly, limit);
      }
    }
  }

  lemma {:induction false} ForwardAllCounted(t: Table, messages: seq<set<nat>>, tcpOnly: bool, limit: nat)
    requires Counted(t, limit) && limit <= 255
    ensures Counted(ForwardAll(t, messages, tcpOnly), limit)
    ensures ForwardAll(t, messages, tcpOnly).reaped == t.reaped
    ensures ForwardAll(t, messages, tcpOnly).status == t.status
    decreases |messages|
  {
    if messages != [] {
      ForwardCounted(t, 0, messages[0], tcpOnly, limit);
      ForwardAllCounted(Forward(t, 0, messages[0], tcpOnly), messages[1..], tcpOnly, limit);
    }
  }

  /** Ends of stream close engineers on TCP as failing sends on TCP would. */
  lemma {:induction false} ReadingIsForwarding(t: Table, i: nat, ended: set<nat>)
    ensures ReadEngineers(t, i, ended) == Forward(t, i, ended, true)
    decreases |t.slots| - i
  {
    if InReach(t, i) {
      var hit := !t.slots[i].udp && t.slots[i].used && t.slots[i].listening && i in ended;
      ReadingIsForwarding(if hit then Hangup(t, i) else t, i + 1, ended);
    }
  }

  lemma ReadCounted(t: Table, i: nat, ended: set<nat>, limit: nat)
    requires Counted(t, limit) && limit <= 255
    ensures Counted(ReadEngineers(t, i, ended), limit)
    ensures ReadEngineers(t, i, ended).reaped == t.reaped && ReadEngineers(t, i, ended).status == t.status
  {
    ReadingIsForwarding(t, i, ended);
    ForwardCounted(t, i, ended, true, limit);
  }

  lemma {:induction false} ReapCounted(t: Table, i: nat, now: int, limit: nat)
    requires Counted(t, limit)
    ensures Counted(Reap(t, i, now), limit) && Reap(t, i, now).status == t.status
    ensures Reap(t, i, now).reaped >= t.reaped
    ensures Reap(t, i, now).reaped == t.reaped <==> forall j :: i <= j && InReach(t, j) ==> !Silent(t.slots[j], now)
    decreases LINKS - i
  {
    hide Used;
    if InReach(t, i) {
      var s := t.slots[i];
      if Silent(s, now) {
        var u := t.(slots := t.slots[i := Closed(s)], reaped := t.reaped + 1);
        UsedUpdate(t.slots, i, Closed(s));
        ReapCounted(u, i + 1, now, limit);
      } else {
        ReapCounted(t, i + 1, now, limit);
      }
    }
  }

  lemma OccupyCounted(t: Table, i: nat, s: Slot, limit: nat)
    requires Counted(t, limit) && i < LINKS && !t.slots[i].used && s.used && SocketFits(s) && t.count < 255
    ensures Counted(Occupy(t, i, s), Max(limit, t.count + 1))
  {
    UsedUpdate(t.slots, i, s);
  }

  lemma FindFound(t: Table, i: nat, peer: int)
    ensures var k := Find(t, i, peer);
            k >= |t.slots| || (i <= k && InReach(t, k) && t.slots[k].used && t.slots[k].udp && t.slots[k].peer == peer)
    decreases |t.slots| - i
  {
  }

  lemma PacketCounted(t: Table, peer: int, now: int)
    requires Counted(t, LINKS)
    ensures Counted(EngineerPacket(t, peer, now), Limit(t))
    ensures EngineerPacket(t, peer, now).reaped == t.reaped && EngineerPacket(t, peer, now).status == t.status
  {
    FindFound(t, 0, peer);
    UsedBound(t.slots);
    var known := Find(t, 0, peer);
    var free := FirstFree(t.slots, 0);
    if known < LINKS {
      UsedUpdate(t.slots, known, t.slots[known].(lastPkt := now));
    } else if free < LINKS {
      OccupyCounted(t, free, Slot(true, true, false, peer, now), LINKS);
    }
  }

  lemma AcceptCounted(t: Table, peer: int, limit: nat)
    requires Counted(t, limit) && LINKS <= limit
    ensures Counted(Accept(t, peer), limit)
    ensures Accept(t, peer).reaped == t.reaped && Accept(t, peer).status == t.status
  {
    var free := FirstFree(t.slots, 0);
    if t.count < LINKS && free < LINKS {
      OccupyCounted(t, free, Slot(true, false, true, peer, t.slots[free].lastPkt), limit);
    }
  }

  lemma {:induction false} DropsCounted(t: Table, indices: seq<int>, limit: nat)
    requires Counted(t, limit)
    ensures Counted(DropAll(t, indices), limit) && DropAll(t, indices).reaped == t.reaped
    ensures t.status != Bug ==> DropAll(t, indices).status != Bug
    decreases |indices|
  {
    if indices != [] {
      var k := indices[0];
      if 1 <= k <= LINKS && t.slots[k - 1].used {
        UsedUpdate(t.slots, k - 1, Closed(t.slots[k - 1]));
      }
      DropsCounted(Drop(t, k), indices[1..], limit);
    }
  }

  lemma ReceiveCounted(t: Table, turn: Turn)
    requires Counted(t, LINKS)
    ensures Counted(Receive(t, turn), Limit(Receive(t, turn))) && Receive(t, turn).status == t.status
    ensures Receive(t, turn).reaped >= t.reaped
    ensures Receive(t, turn).reaped == t.reaped <==> NobodySilent(t, turn.now)
  {
    ReapCounted(t, 0, turn.now, LINKS);
    var r := Reap(t, 0, turn.now);
    ForwardAllCounted(r, turn.userUdp, true, LINKS);
    if turn.engineer.Some? {
      PacketCounted(ForwardAll(r, turn.userUdp, true), turn.engineer.value, turn.now);
    }
  }

  lemma ServeCounted(t: Table, turn: Turn)
    requires Counted(t, LINKS)
    ensures Counted(Serve(t, turn), Limit(Serve(t, turn))) && Serve(t, turn).status == t.status
    ensures Serve(t, turn).reaped >= t.reaped
    ensures Serve(t, turn).reaped == t.reaped <==> NobodySilent(t, turn.now)
  {
    hide Receive, Counted, Used;
    ReceiveCounted(t, turn);
    var b := Receive(t, turn);
    ForwardAllCounted(b, turn.userTcp, false, Limit(b));
    var c := ForwardAll(b, turn.userTcp, false);
    if turn.accepted.Some? {
      AcceptCounted(c, turn.accepted.value, Limit(b));
    } else {
      ReadCounted(c, 0, turn.ended, Limit(b));
    }
  }

  ghost predicate NobodySilent(t: Table, now: int) {
    forall j: nat :: InReach(t, j) ==> !Silent(t.slots[j], now)
  }

  /** In this turn no engineer on UDP times out. */
  ghost predicate Quiet(t: Table, turn: Turn) {
    var d := DropAll(t, turn.drops);
    t.status == Running && d.status == Running && turn.wake == Ready && d.max <= LINKS ==> NobodySilent(d, turn.now)
  }

  /** One turn keeps the accounting, whatever it meets. */
  lemma TakeSafe(t: Table, turn: Turn)
    requires Safe(t)
    ensures Safe(Take(t, turn)) && Take(t, turn).reaped >= t.reaped
    ensures Take(t, turn).reaped == t.reaped <==> Quiet(t, turn)
  {
    DropsCounted(t, turn.drops, Limit(t));
    var d := DropAll(t, turn.drops);
    if t.status == Running && d.status == Running && turn.wake == Ready && d.max <= LINKS {
      ServeCounted(d, turn);
    }
  }

  lemma InitSafe()
    ensures Safe(Init()) && Init().reaped == 0 && Init().status == Running && !Init().outside
  {
    NoneUsed(Init().slots);
  }

  ghost predicate QuietRun(t: Table, turns: seq<Turn>)
    decreases |turns|
  {
    turns == [] || (Quiet(t, turns[0]) && QuietRun(Take(t, turns[0]), turns[1..]))
  }

  lemma {:induction false} RunSafe(t: Table, turns: seq<Turn>)
    requires Safe(t)
    ensures Safe(Run(t, turns)) && Run(t, turns).reaped >= t.reaped
    ensures Run(t, turns).reaped == t.reaped <==> QuietRun(t, turns)
    decreases |turns|
  {
    hide Safe, Take, Quiet;
    if turns != [] {
      TakeSafe(t, turns[0]);
      RunSafe(Take(t, turns[0]), turns[1..]);
    }
  }

  // ---------------------------------------------------------------- main results

  /**
   In every run the counter is the number of live engineers plus the number reaped so far, it never passes
   `max`, `max` passes one hundred by at most one, and sockets are open exactly for live engineers on TCP.
   */
  lemma Accounting(turns: seq<Turn>)
    ensures var t := Run(Init(), turns);
            && t.count == Used(t.slots) + t.reaped
            && Used(t.slots) <= t.count <= t.max <= LINKS + 1
            && |t.slots| == LINKS && forall i :: 0 <= i < LINKS ==> SocketFits(t.slots[i])
  {
    hide Run, Init, QuietRun;
    InitSafe();
    RunSafe(Init(), turns);
  }

  /** The counter is exact just when no engineer on UDP ever timed out; then `max` stays in range and there is no "BUG" exit. */
  lemma ExactExactlyWhenQuiet(turns: seq<Turn>)
    ensures var t := Run(Init(), turns);
            && (t.count == Used(t.slots) <==> QuietRun(Init(), turns))
            && (QuietRun(Init(), turns) ==> t.max <= LINKS && t.status != Bug)
  {
    hide Run, Init, QuietRun;
    InitSafe();
    RunSafe(Init(), turns);
  }
}
