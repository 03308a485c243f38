/** The slot table of the event loop as it is changed in place, proved against the steps of `Slots`. */
module SlotTable {
  import opened Bytes
  import opened Slots
  import opened SlotLimits

  class Engineers {
    const slots: array<Slot>
    var conn2Count: nat
    var maxConn2Count: nat
    var status: Status
    ghost var reaped: nat
    ghost var outside: bool

    ghost predicate Valid()
      reads this
    {
      slots.Length == LINKS && conn2Count < 256 && maxConn2Count < 256
    }

    ghost function View(): Table
      reads this, slots
    {
      Table(slots[..], conn2Count, maxConn2Count, status, reaped, outside)
    }

    constructor ()
      ensures Valid() && fresh(slots) && View() == Init()
    {
      slots := new Slot[LINKS](_ => FREE);
      conn2Count, maxConn2Count, status, reaped, outside := 0, 0, Running, 0, false;
    }

    method Close(i: nat)
      requires i < slots.Length
      modifies slots
      ensures slots[..] == old(slots[..])[i := Closed(old(slots[i]))]
    {
      slots[i] := slots[i].(used := false, listening := false);
    }

    method HangUp(i: nat)
      requires Valid() && i < slots.Length
      modifies this`conn2Count, this`maxConn2Count, slots
      ensures Valid() && View() == Hangup(old(View()), i)
    {
      Close(i);
      if conn2Count == maxConn2Count {
        maxConn2Count := (maxConn2Count + 255) % 256;
      }
      conn2Count := (conn2Count + 255) % 256;
    }

    /** Sends one message to the engineers; sending fails for the slots in `failing`. */
    method ForwardMessage(failing: set<nat>, tcpOnly: bool)
      requires Valid()
      modifies this`outside, this`conn2Count, this`maxConn2Count, slots
      ensures Valid() && View() == Forward(old(View()), 0, failing, tcpOnly)
    {
      var i := 0;
      while i < maxConn2Count
        invariant Valid() && i <= slots.Length
        invariant Forward(View(), i, failing, tcpOnly) == Forward(old(View()), 0, failing, tcpOnly)
        decreases slots.Length - i
      {
        if i == slots.Length {
          outside := true;
          return;
        }
        if slots[i].used && i in failing && (!tcpOnly || (!slots[i].udp && slots[i].listening)) {
          HangUp(i);
        }
        i := i + 1;
      }
    }

    method ForwardMessages(messages: seq<set<nat>>, tcpOnly: bool)
      requires Valid()
      modifies this`outside, this`conn2Count, this`maxConn2Count, slots
      ensures Valid() && View() == ForwardAll(old(View()), messages, tcpOnly)
    {
      hide Forward;
      for k := 0 to |messages|
        invariant Valid()
        invariant ForwardAll(View(), messages[k..], tcpOnly) == ForwardAll(old(View()), messages, tcpOnly)
      {
        assert messages[k..][1..] == messages[k + 1..];
        ForwardMessage(messages[k], tcpOnly);
      }
    }

    method ReadTcpEngineers(ended: set<nat>)
      requires Valid()
      modifies this`outside, this`conn2Count, this`maxConn2Count, slots
      ensures Valid() && View() == ReadEngineers(old(View()), 0, ended)
    {
      var i := 0;
      while i < maxConn2Count
        invariant Valid() && i <= slots.Length
        invariant ReadEngineers(View(), i, ended) == ReadEngineers(old(View()), 0, ended)
        decreases slots.Length - i
      {
        if i == slots.Length {
          outside := true;
          return;
        }
        if !slots[i].udp && slots[i].used && slots[i].listening && i in ended {
          HangUp(i);
        }
        i := i + 1;
      }
    }

    method ReapDead(now: int)
      requires Valid() && maxConn2Count <= LINKS
      modifies this`reaped, slots
      ensures Valid() && View() == Reap(old(View()), 0, now)
    {
      for i := 0 to maxConn2Count
        invariant Valid() && Reap(View(), i, now) == Reap(old(View()), 0, now)
      {
        if slots[i].used && slots[i].udp && now - slots[i].lastPkt > UDP_TIMEOUT {
          Close(i);
          reaped := reaped + 1;
        }
      }
    }

    method OccupySlot(i: nat, s: Slot)
      requires Valid() && i < slots.Length
      modifies this`conn2Count, this`maxConn2Count, slots
      ensures Valid() && View() == Occupy(old(View()), i, s)
    {
      slots[i] := s;
      conn2Count := (conn2Count + 1) % 256;
      maxConn2Count := Max(maxConn2Count, conn2Count);
    }

    method FindPeer(peer: int) returns (k: nat)
      requires Valid() && maxConn2Count <= LINKS
      ensures k == Find(View(), 0, peer)
    {
      var i := 0;
      while i < maxConn2Count
        invariant i <= slots.Length && Find(View(), i, peer) == Find(View(), 0, peer)
      {
        if slots[i].used && slots[i].udp && slots[i].peer == peer {
          return i;
        }
        i := i + 1;
      }
      k := slots.Length;
    }

    method FindFree() returns (k: nat)
      requires Valid()
      ensures k == FirstFree(slots[..], 0)
    {
      k := 0;
      while k < slots.Length && slots[k].used
        invariant k <= slots.Length && FirstFree(slots[..], k) == FirstFree(slots[..], 0)
      {
        k := k + 1;
      }
    }

    method HandleEngineerPacket(peer: int, now: int)
      requires Valid() && maxConn2Count <= LINKS
      modifies this`conn2Count, this`maxConn2Count, slots
      ensures Valid() && View() == EngineerPacket(old(View()), peer, now)
    {
      FindFound(View(), 0, peer);
      var known := FindPeer(peer);
      if known < slots.Length {
        slots[known] := slots[known].(lastPkt := now);
      } else {
        var free := FindFree();
        if free < slots.Length {
          OccupySlot(free, Slot(true, true, false, peer, now));
        }
      }
    }

    /** A new engineer on TCP; it is turned away when the counter says that all slots are taken. */
    method AcceptEngineer(peer: int)
      requires Valid()
      modifies this`conn2Count, this`maxConn2Count, slots
      ensures Valid() && View() == Accept(old(View()), peer)
    {
      if conn2Count >= LINKS {
        return;
      }
      var free := FindFree();
      if free == slots.Length {
        return;
      }
      OccupySlot(free, Slot(true, false, true, peer, slots[free].lastPkt));
    }

    method DropSlot(index: int)
      requires Valid()
      modifies this`conn2Count, this`maxConn2Count, this`status, slots
      ensures Valid() && View() == Drop(old(View()), index)
    {
      if index == 0 {
        status := Ended;
      } else if 1 <= index <= slots.Length && slots[index - 1].used {
        Close(index - 1);
        if conn2Count > 0 {
          conn2Count := conn2Count - 1;
        }
        if maxConn2Count > 0 && index == maxConn2Count {
          maxConn2Count := maxConn2Count - 1;
        }
      }
    }

    method ProcessDrops(indices: seq<int>)
      requires Valid()
      modifies this`conn2Count, this`maxConn2Count, this`status, slots
      ensures Valid() && View() == DropAll(old(View()), indices)
    {
      hide Drop;
      for k := 0 to |indices|
        invariant Valid()
        invariant DropAll(View(), indices[k..]) == DropAll(old(View()), indices)
      {
        assert indices[k..][1..] == indices[k + 1..];
        DropSlot(indices[k]);
      }
    }

    /** The sockets to wait for, collected before `max` is checked. */
    method CollectSockets() returns (fds: set<nat>)
      requires Valid()
      modifies this`outside
      ensures fds == set i: nat | i < slots.Length && i < maxConn2Count && slots[i].listening
      ensures outside == (old(outside) || maxConn2Count > slots.Length)
    {
      fds := {};
      var i := 0;
      while i < maxConn2Count
        invariant i <= slots.Length && i <= maxConn2Count && outside == old(outside)
        invariant fds == set j: nat | j < i && slots[j].listening
        decreases slots.Length - i
      {
        if i == slots.Length {
          outside := true;
          return;
        }
        if slots[i].listening {
          fds := fds + {i};
        }
        i := i + 1;
      }
    }

    method ReceiveTurn(turn: Turn)
      requires Valid() && maxConn2Count <= LINKS
      modifies this`outside, this`conn2Count, this`maxConn2Count, this`reaped, slots
      ensures Valid() && View() == Receive(old(View()), turn)
    {
      hide Reap, ForwardAll, EngineerPacket;
      ReapDead(turn.now);
      ForwardAllInside(View(), turn.userUdp, true);
      ForwardMessages(turn.userUdp, true);
      if turn.engineer.Some? {
        HandleEngineerPacket(turn.engineer.value, turn.now);
      }
    }

    method ServeTurn(turn: Turn)
      requires Valid() && maxConn2Count <= LINKS
      modifies this`outside, this`conn2Count, this`maxConn2Count, this`reaped, slots
      ensures Valid() && View() == Serve(old(View()), turn)
    {
      hide Receive, ForwardAll, Accept, ReadEngineers;
      ReceiveTurn(turn);
      ForwardMessages(turn.userTcp, false);
      if turn.accepted.Some? {
        AcceptEngineer(turn.accepted.value);
      } else {
        ReadTcpEngineers(turn.ended);
      }
    }

    /** One turn of the event loop. */
    method RunOnce(turn: Turn)
      requires Valid() && status == Running
      modifies this, slots
      ensures Valid() && View() == Take(old(View()), turn)
    {
      hide DropAll, Serve;
      ProcessDrops(turn.drops);
      if status != Running {
        return;
      }
      if turn.wake == Idle {
        status := Ended;
        return;
      }
      var fds := CollectSockets();
      if turn.wake == Interrupted {
        return;
      }
      if turn.wake == TimedOut {
        status := Ended;
        return;
      }
      if maxConn2Count > LINKS {
        status := Bug;
        return;
      }
      ServeTurn(turn);
    }
  }
}
