/** The parent's port list as it is changed in place, proved against the steps of `Ports`. */
module PortList {
  import opened Bytes
  import opened Ports

  class Listeners {
    var ports: seq<Port>
    var termed: set<int>

    ghost function View(): Parent
      reads this
    {
      Parent(ports, termed)
    }

    constructor ()
      ensures View() == Parent([], {})
    {
      ports, termed := [], {};
    }

    method OpenSockets(i: nat, fail: set<nat>)
      requires i < |ports|
      modifies this`ports
      ensures ports == old(ports)[i := Opened(old(ports[i]), fail)]
    {
      var s := ports[i].sockets;
      if s.udp1.None? && 0 !in fail {
        s := s.(udp1 := Some(ports[i].port1));
      }
      if s.udp2.None? && 1 !in fail {
        s := s.(udp2 := Some(ports[i].port2));
      }
      if s.tcp1.None? && 2 !in fail {
        s := s.(tcp1 := Some(ports[i].port1));
      }
      if s.tcp2.None? && 3 !in fail {
        s := s.(tcp2 := Some(ports[i].port2));
      }
      ports := ports[i := ports[i].(sockets := s)];
    }

    method CloseSockets(i: nat)
      requires i < |ports|
      modifies this`ports
      ensures ports == old(ports)[i := Shut(old(ports[i]))]
    {
      ports := ports[i := ports[i].(sockets := SHUT)];
    }

    method Configure(i: nat, r: Record)
      requires i < |ports|
      modifies this`ports
      ensures ports == old(ports)[i := Configured(old(ports[i]), r)]
    {
      ports := ports[i := ports[i].(port1 := r.port1, flags := r.flags, fcSysid := r.fcSysid % 256)];
    }

    /** Brings the entry at `i` in line with the record of its second port. */
    method UpdateEntry(i: nat, r: Record, fail: set<nat>)
      requires i < |ports|
      modifies this
      ensures ports == old(ports)[i := Updated(old(ports[i]), r, fail)]
      ensures termed == if Outdates(old(ports[i]), r) then old(termed) + {old(ports[i].pid)} else old(termed)
    {
      hide Opened;
      ports := ports[i := ports[i].(seen := true)];
      if ports[i].removed {
        ports := ports[i := ports[i].(removed := false)];
        Configure(i, r);
        if ports[i].pid == 0 {
          OpenSockets(i, fail);
        }
      } else if ports[i].port1 != r.port1 {
        CloseSockets(i);
        if ports[i].pid != 0 {
          termed := termed + {ports[i].pid};
        }
        Configure(i, r);
        if ports[i].pid == 0 {
          OpenSockets(i, fail);
        }
      } else {
        Configure(i, r);
      }
    }

    method UpsertPort(r: Record, fails: Fails)
      modifies this
      ensures View() == Upsert(old(View()), r, fails)
    {
      hide Opened, Updated;
      var k := 0;
      while k < |ports|
        invariant k <= |ports| && View() == old(View())
        invariant IndexOf(ports, r.port2, k) == IndexOf(ports, r.port2, 0)
      {
        if ports[k].port2 == r.port2 {
          UpdateEntry(k, r, Failing(fails, r.port2));
          return;
        }
        k := k + 1;
      }
      ports := [Port(r.port1, r.port2, SHUT, 0, r.flags, r.fcSysid % 256, true, false, r.port1)] + ports;
      OpenSockets(0, Failing(fails, r.port2));
    }

    method UpsertRecords(records: seq<Record>, fails: Fails)
      modifies this
      ensures View() == UpsertAll(old(View()), records, fails)
    {
      hide Upsert;
      for k := 0 to |records|
        invariant UpsertAll(View(), records[k..], fails) == UpsertAll(old(View()), records, fails)
      {
        assert records[k..][1..] == records[k + 1..];
        UpsertPort(records[k], fails);
      }
    }

    method ForgetSeen()
      modifies this`ports
      ensures ports == Unseen(old(ports))
    {
      for k := 0 to |ports|
        invariant |ports| == |old(ports)|
        invariant forall i :: 0 <= i < k ==> ports[i] == old(ports)[i].(seen := false)
        invariant forall i :: k <= i < |ports| ==> ports[i] == old(ports)[i]
      {
        ports := ports[k := ports[k].(seen := false)];
      }
    }

    /** Removes the entries that were not seen. */
    method RetireUnseen()
      modifies this
      ensures View() == Retire(old(View()))
    {
      for k := 0 to |ports|
        invariant |ports| == |old(ports)|
        invariant forall i :: 0 <= i < k ==> ports[i] == Retired(old(ports)[i])
        invariant forall i :: k <= i < |ports| ==> ports[i] == old(ports)[i]
        invariant termed == old(termed) +
          set i | 0 <= i < k && !old(ports)[i].seen && !old(ports)[i].removed && old(ports)[i].pid != 0 :: old(ports)[i].pid
      {
        if !ports[k].seen && !ports[k].removed {
          ports := ports[k := ports[k].(removed := true)];
          CloseSockets(k);
          if ports[k].pid != 0 {
            termed := termed + {ports[k].pid};
          }
        }
      }
    }

    method ReopenIdle(fails: Fails)
      modifies this`ports
      ensures ports == Reopen(old(ports), fails)
    {
      hide Opened;
      for k := 0 to |ports|
        invariant |ports| == |old(ports)|
        invariant forall i :: 0 <= i < k ==> ports[i] == Reopen(old(ports), fails)[i]
        invariant forall i :: k <= i < |ports| ==> ports[i] == old(ports)[i]
      {
        if ports[k].pid == 0 && !ports[k].removed {
          OpenSockets(k, Failing(fails, ports[k].port2));
        }
      }
    }

    method ReloadPorts(records: seq<Record>, early: Fails, late: Fails)
      modifies this
      ensures View() == Reload(old(View()), records, early, late)
    {
      hide UpsertAll, Retire, Reopen;
      ForgetSeen();
      UpsertRecords(records, early);
      RetireUnseen();
      ReopenIdle(late);
    }

    /** The outcome of `fork` becomes the entry's child, and the parent gives its sockets up. */
    method HandleConnection(i: nat, pid: int)
      requires i < |ports|
      modifies this`ports
      ensures View() == Connect(old(View()), i, pid)
    {
      ports := ports[i := ports[i].(pid := pid, held := ports[i].port1)];
      CloseSockets(i);
    }

    /** One exited process: its entry is free again, and listens unless it was removed. */
    method ReapChild(pid: int, fails: Fails)
      modifies this
      ensures View() == Ports.Reap(old(View()), pid, fails)
    {
      hide Opened;
      var k := 0;
      while k < |ports|
        invariant k <= |ports| && View() == old(View())
        invariant ChildOf(ports, pid, k) == ChildOf(ports, pid, 0)
      {
        if ports[k].pid == pid {
          ports := ports[k := ports[k].(pid := 0)];
          termed := termed - {pid};
          if !ports[k].removed {
            OpenSockets(k, Failing(fails, ports[k].port2));
          }
          return;
        }
        k := k + 1;
      }
    }
  }
}
