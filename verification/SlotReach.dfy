/** Which engineers the loops reach: who is closed, who is served, and who is left out of reach. */
module SlotReach {
  import opened Bytes
  import opened Slots

  // ---------------------------------------------------------------- who is closed, and who is served

  /** A slot that a failing send closes; the user side on UDP asks it of engineers on TCP only. */
  predicate Exposed(s: Slot, tcpOnly: bool) {
    s.used && (!tcpOnly || (!s.udp && s.listening))
  }

  /** What forwarding does to one slot. */
  lemma {:induction false} ForwardAt(t: Table, i: nat, failing: set<nat>, tcpOnly: bool, j: nat)
    requires |t.slots| == LINKS && t.max < 256 && j < LINKS
    ensures var u := Forward(t, i, failing, tcpOnly);
            && |u.slots| == LINKS && u.max <= t.max
            && (u.slots[j] != t.slots[j] ==>
                  i <= j < t.max && j in failing && Exposed(t.slots[j], tcpOnly) && u.slots[j] == Closed(t.slots[j]))
            && (i <= j < u.max && j in failing && Exposed(t.slots[j], tcpOnly) ==> !u.slots[j].used)
    decreases LINKS - i
  {
    if InReach(t, i) {
      var hit := t.slots[i].used && i in failing && (!tcpOnly || (!t.slots[i].udp && t.slots[i].listening));
      ForwardAt(if hit then Hangup(t, i) else t, i + 1, failing, tcpOnly, j);
    }
  }

  /** Forwarding closes only slots in reach whose send failed, and leaves none of them that is still in reach. */
  lemma ForwardCloses(t: Table, failing: set<nat>, tcpOnly: bool)
    requires |t.slots| == LINKS && t.max < 256
    ensures var u := Forward(t, 0, failing, tcpOnly);
            && |u.slots| == LINKS
            && (forall j :: 0 <= j < LINKS && u.slots[j] != t.slots[j] ==>
                  j < t.max && j in failing && Exposed(t.slots[j], tcpOnly) && u.slots[j] == Closed(t.slots[j]))
            && (forall j :: 0 <= j < LINKS && j < u.max && j in failing && Exposed(t.slots[j], tcpOnly) ==>
                  !u.slots[j].used)
  {
    hide Forward, Exposed;
    forall j | 0 <= j < LINKS {
      ForwardAt(t, 0, failing, tcpOnly, j);
    }
    ForwardAt(t, 0, failing, tcpOnly, 0);
  }

  predicate IsPeer(s: Slot, peer: int) {
    s.used && s.udp && s.peer == peer
  }

  ghost predicate Known(t: Table, peer: int) {
    exists i: nat :: InReach(t, i) && IsPeer(t.slots[i], peer)
  }

  lemma {:induction false} FindsKnown(t: Table, i: nat, peer: int)
    ensures Find(t, i, peer) < |t.slots| <==> exists k: nat :: i <= k && InReach(t, k) && IsPeer(t.slots[k], peer)
    decreases |t.slots| - i
  {
    if InReach(t, i) {
      assert IsPeer(t.slots[i], peer) || !IsPeer(t.slots[i], peer);
      FindsKnown(t, i + 1, peer);
    }
    FindFound(t, i, peer);
  }

  lemma PacketFind(t: Table, peer: int)
    ensures Find(t, 0, peer) < |t.slots| <==> Known(t, peer)
    ensures Find(t, 0, peer) < |t.slots| ==> IsPeer(t.slots[Find(t, 0, peer)], peer)
  {
    FindsKnown(t, 0, peer);
    FindFound(t, 0, peer);
  }

  /** After a packet its sender has a slot in reach exactly when it had one or some slot was free. */
  lemma PacketServedExactlyWhen(t: Table, peer: int, now: int)
    requires Counted(t, LINKS)
    ensures Known(EngineerPacket(t, peer, now), peer) <==> Known(t, peer) || exists i :: 0 <= i < LINKS && !t.slots[i].used
  {
    PacketFind(t, peer);
    var u := EngineerPacket(t, peer, now);
    var known, free := Find(t, 0, peer), FirstFree(t.slots, 0);
    FindFound(t, 0, peer);
    if known < LINKS {
      assert InReach(u, known) && IsPeer(u.slots[known], peer);
    } else if free < LINKS {
      UsedPrefix(t.slots, free);
      UsedBound(t.slots);
      assert InReach(u, free) && IsPeer(u.slots[free], peer);
    }
  }

  ghost predicate PeersDistinct(t: Table) {
    forall i, j :: 0 <= i < j < |t.slots| && t.slots[i].used && t.slots[i].udp ==> !IsPeer(t.slots[j], t.slots[i].peer)
  }

  /** A packet gives no engineer a second slot exactly when it has one in reach or none at all, or no slot is free. */
  lemma PeersStayDistinctExactlyWhen(t: Table, peer: int, now: int)
    requires Counted(t, LINKS) && PeersDistinct(t)
    ensures PeersDistinct(EngineerPacket(t, peer, now)) <==>
            || Known(t, peer) || (forall i :: 0 <= i < LINKS ==> !IsPeer(t.slots[i], peer))
            || (forall i :: 0 <= i < LINKS ==> t.slots[i].used)
  {
    PacketFind(t, peer);
    var u := EngineerPacket(t, peer, now);
    var known, free := Find(t, 0, peer), FirstFree(t.slots, 0);
    FindFound(t, 0, peer);
    if known >= LINKS && free < LINKS {
      assert !t.slots[free].used && IsPeer(u.slots[free], peer);
      assert forall i :: 0 <= i < LINKS && i != free ==> u.slots[i] == t.slots[i];
      if i :| 0 <= i < LINKS && IsPeer(t.slots[i], peer) {
        assert IsPeer(u.slots[i], peer) && i != free;
      }
    }
  }

  // ---------------------------------------------------------------- engineers out of reach of the loops

  ghost predicate AllInReach(t: Table) {
    forall i :: 0 <= i < |t.slots| && t.slots[i].used ==> i < t.max
  }

  /** A hangup keeps every live engineer in reach exactly when it does not shrink `max` past one. */
  lemma HangupKeepsReachExactlyWhen(t: Table, i: nat)
    requires Counted(t, LINKS) && AllInReach(t) && i < LINKS && t.slots[i].used
    ensures AllInReach(Hangup(t, i)) <==> t.count < t.max || i == t.max - 1 || !t.slots[t.max - 1].used
  {
    HangupCounted(t, i, LINKS);
    var u := Hangup(t, i);
    if t.count == t.max && i != t.max - 1 && t.slots[t.max - 1].used {
      assert u.slots[t.max - 1].used;
    }
  }

  /** A new engineer and a drop request never put one out of reach. */
  lemma OccupyKeepsReach(t: Table, s: Slot)
    requires Counted(t, LINKS) && AllInReach(t) && FirstFree(t.slots, 0) < LINKS && t.count < 255
    ensures AllInReach(Occupy(t, FirstFree(t.slots, 0), s))
  {
    var free := FirstFree(t.slots, 0);
    UsedPrefix(t.slots, free);
  }

  lemma {:induction false} UsedPrefix(slots: seq<Slot>, k: nat)
    requires k <= |slots| && forall i :: 0 <= i < k ==> slots[i].used
    ensures Used(slots) >= k
  {
    if k == |slots| {
      UsedBound(slots);
    } else {
      UsedPrefix(slots[..|slots| - 1], k);
    }
  }

  lemma DropKeepsReach(t: Table, index: int)
    requires Counted(t, LINKS) && AllInReach(t)
    ensures AllInReach(Drop(t, index))
  {
  }

  const ENGINEER: Slot := Slot(true, false, true, 7, 0)
  const JOIN: Turn := Turn([], Ready, 0, [], None, [], Some(7), {})
  const LEAVE: Turn := Turn([], Ready, 0, [], None, [], None, {0})

  /** The table after `n` engineers have connected on TCP. */
  function Joined(n: nat): Table {
    Table(seq(LINKS, i => if i < n then ENGINEER else FREE), n, n, Running, 0, false)
  }

  lemma {:induction false} NobodyOnUdp(t: Table, i: nat, now: int)
    requires forall j :: 0 <= j < |t.slots| ==> !t.slots[j].udp
    ensures Reap(t, i, now) == t
    decreases |t.slots| - i
  {
    if InReach(t, i) {
      NobodyOnUdp(t, i + 1, now);
    }
  }

  lemma JoinTurn(n: nat)
    requires n < LINKS
    ensures Take(Joined(n), JOIN) == Joined(n + 1)
  {
    var t := Joined(n);
    NobodyOnUdp(t, 0, 0);
    FirstFreeIs(t.slots, 0, n);
    assert t.slots[n := ENGINEER] == Joined(n + 1).slots;
  }

  lemma LeaveTurn()
    ensures Take(Joined(2), LEAVE) == Hangup(Joined(2), 0)
  {
    hide Joined;
    var t := Joined(2);
    assert t.slots[0] == ENGINEER && |t.slots| == LINKS && t.max == 2 && t.count == 2 by {
      JoinedSlots(2);
    }
    NobodyOnUdp(t, 0, 0) by {
      JoinedSlots(2);
    }
    assert t.status == Running by {
      JoinedSlots(2);
    }
    var u := Hangup(t, 0);
    assert ReadEngineers(u, 1, {0}) == u;
    assert ReadEngineers(t, 0, {0}) == ReadEngineers(u, 1, {0});
  }

  lemma JoinedSlots(n: nat)
    ensures var t := Joined(n);
            && |t.slots| == LINKS && t.max == n && t.count == n && t.status == Running && t.reaped == 0
            && forall j :: 0 <= j < LINKS ==> t.slots[j] == if j < n then ENGINEER else FREE
  {
  }

  lemma RunThree(t: Table, a: Turn, b: Turn, c: Turn)
    ensures Run(t, [a, b, c]) == Take(Take(Take(t, a), b), c)
  {
    hide Take;
    assert [a, b, c][1..] == [b, c] && [b, c][1..] == [c];
    assert Run(t, [a, b, c]) == Run(Take(t, a), [b, c]) == Run(Take(Take(t, a), b), [c]);
    assert Run(Take(Take(t, a), b), [c]) == Run(Take(Take(Take(t, a), b), c), []);
  }

  /** Two engineers connect on TCP, the first one leaves: the second is out of reach. */
  lemma ReachIsLost() returns (turns: seq<Turn>)
    ensures var t := Run(Init(), turns);
            QuietRun(Init(), turns) && |t.slots| == LINKS && t.slots[1].used && t.max == 1 && !AllInReach(t)
  {
    hide Run, Take, Joined, Init, QuietRun, Safe;
    turns := [JOIN, JOIN, LEAVE];
    RunThree(Init(), JOIN, JOIN, LEAVE);
    assert Init() == Joined(0) by {
      InitJoined();
    }
    JoinTurn(0);
    JoinTurn(1);
    LeaveTurn();
    JoinedSlots(2);
    InitSafe();
    RunSafe(Init(), turns);
  }

  lemma InitJoined()
    ensures Init() == Joined(0)
  {
    assert Init().slots == Joined(0).slots;
  }

  // ---------------------------------------------------------------- what the steps do, slot by slot

  lemma {:induction false} FindIs(t: Table, i: nat, peer: int, k: nat)
    requires i <= k && InReach(t, k) && IsPeer(t.slots[k], peer)
    requires forall j :: i <= j < k ==> !IsPeer(t.slots[j], peer)
    ensures Find(t, i, peer) == k
    decreases k - i
  {
    if i < k {
      FindIs(t, i + 1, peer, k);
    }
  }

  /** A packet of a known engineer is the last one heard of it, and changes nothing else. */
  lemma PacketRefreshes(t: Table, peer: int, now: int, k: nat)
    requires k < t.max && k < |t.slots| && IsPeer(t.slots[k], peer)
    requires forall j :: 0 <= j < k ==> !IsPeer(t.slots[j], peer)
    ensures EngineerPacket(t, peer, now) == t.(slots := t.slots[k := t.slots[k].(lastPkt := now)])
  {
    FindIs(t, 0, peer, k);
  }

  /** A packet of an engineer that is not in reach takes the first free slot, and is ignored without one. */
  lemma PacketJoins(t: Table, peer: int, now: int, k: nat)
    requires |t.slots| == 100 && k <= 100
    requires forall j :: 0 <= j < 100 && j < t.max ==> !IsPeer(t.slots[j], peer)
    requires (forall j :: 0 <= j < k ==> t.slots[j].used) && (k < 100 ==> !t.slots[k].used)
    ensures EngineerPacket(t, peer, now) ==
      if k == 100 then t
      else t.(slots := t.slots[k := Slot(true, true, false, peer, now)], count := (t.count + 1) % 256,
              max := Max(t.max, (t.count + 1) % 256))
  {
    FindsKnown(t, 0, peer);
    if k < 100 {
      FirstFreeIs(t.slots, 0, k);
    }
  }

  /** A new connection on TCP takes the first free slot while fewer than a hundred engineers are counted. */
  lemma AcceptJoins(t: Table, peer: int, k: nat)
    requires |t.slots| == 100 && k <= 100
    requires (forall j :: 0 <= j < k ==> t.slots[j].used) && (k < 100 ==> !t.slots[k].used)
    ensures Accept(t, peer) ==
      if t.count >= 100 || k == 100 then t
      else t.(slots := t.slots[k := Slot(true, false, true, peer, t.slots[k].lastPkt)], count := (t.count + 1) % 256,
              max := Max(t.max, (t.count + 1) % 256))
  {
    if k < 100 {
      FirstFreeIs(t.slots, 0, k);
    }
  }

  /** An engineer on UDP in reach is closed exactly when it has been silent for more than ten seconds. */
  lemma {:induction false} ReapCloses(t: Table, i: nat, now: int, j: nat)
    requires j < |t.slots|
    ensures var u := Reap(t, i, now);
            && |u.slots| == |t.slots| && u.count == t.count && u.max == t.max && u.status == t.status
            && u.outside == t.outside
            && u.slots[j] == if i <= j < t.max && t.slots[j].used && t.slots[j].udp && now - t.slots[j].lastPkt > 10
                             then t.slots[j].(used := false, listening := false) else t.slots[j]
    decreases |t.slots| - i
  {
    if InReach(t, i) {
      var s := t.slots[i];
      ReapCloses(if Silent(s, now) then t.(slots := t.slots[i := Closed(s)], reaped := t.reaped + 1) else t,
                 i + 1, now, j);
    }
  }

  /** So an engineer in reach that has sent within the last ten seconds keeps its slot. */
  lemma PacketKeepsAlive(t: Table, peer: int, now: int, later: int)
    requires Known(t, peer) && later - now <= 10
    ensures var u := Reap(EngineerPacket(t, peer, now), 0, later);
            exists k: nat :: InReach(u, k) && IsPeer(u.slots[k], peer) && u.slots[k].lastPkt == now
  {
    PacketFind(t, peer);
    FindFound(t, 0, peer);
    var k := Find(t, 0, peer);
    var p := EngineerPacket(t, peer, now);
    ReapCloses(p, 0, later, k);
    assert InReach(Reap(p, 0, later), k);
  }

  /** A drop request for the user ends the process; one for engineer k closes slot k - 1 if it is live. */
  lemma DropCloses(t: Table, index: int)
    requires |t.slots| == 100
    ensures var u := Drop(t, index);
            if index == 0 then u == t.(status := Ended)
            else if 1 <= index <= 100 && t.slots[index - 1].used then
              && u == t.(slots := u.slots, count := u.count, max := u.max)
              && u.slots == t.slots[index - 1 := t.slots[index - 1].(used := false, listening := false)]
              && (t.count > 0 ==> u.count == t.count - 1)
              && u.max == if index == t.max then t.max - 1 else t.max
            else u == t
  {
  }
}
