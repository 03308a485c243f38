/**
 The parent process's list of port pairs: kept in step with the database by reloads, served by one child
 process per pair, and bound to sockets only while no child runs. Binding and forking outcomes are inputs.
 */
module Ports {
  import opened Bytes

  /** The four listening sockets, each with the port it is bound to. */
  datatype Sockets = Sockets(udp1: Option<int>, udp2: Option<int>, tcp1: Option<int>, tcp2: Option<int>)

  const SHUT: Sockets := Sockets(None, None, None, None)

  /** `held` is the first port the running child was started with; the program does not keep it. */
  datatype Port = Port(port1: int, port2: int, sockets: Sockets, pid: int, flags: int, fcSysid: nat,
                       seen: bool, removed: bool, held: int)

  datatype Record = Record(port1: int, port2: int, flags: int, fcSysid: nat)

  /** For a second port, which of its sockets fail to bind: 0 to 3 in the order of `Sockets`. */
  type Fails = map<int, set<nat>>

  /** The list, and the child processes told to end that have not exited. */
  datatype Parent = Parent(ports: seq<Port>, termed: set<int>)

  // ---------------------------------------------------------------- one entry

  function Failing(fails: Fails, port2: int): set<nat> {
    if port2 in fails then fails[port2] else {}
  }

  function Bind(socket: Option<int>, port: int, fail: bool): Option<int> {
    if socket.Some? || fail then socket else Some(port)
  }

  function Opened(p: Port, fail: set<nat>): Port {
    p.(sockets := Sockets(
      Bind(p.sockets.udp1, p.port1, 0 in fail), Bind(p.sockets.udp2, p.port2, 1 in fail),
      Bind(p.sockets.tcp1, p.port1, 2 in fail), Bind(p.sockets.tcp2, p.port2, 3 in fail)))
  }

  function OpenedIf(b: bool, p: Port, fail: set<nat>): Port {
    if b then Opened(p, fail) else p
  }

  function Shut(p: Port): Port {
    p.(sockets := SHUT)
  }

  function Configured(p: Port, r: Record): Port {
    p.(port1 := r.port1, flags := r.flags, fcSysid := r.fcSysid % 256)
  }

  /** A record meets the entry of its second port. */
  function Updated(p: Port, r: Record, fail: set<nat>): Port {
    var s := p.(seen := true);
    if s.removed then OpenedIf(s.pid == 0, Configured(s.(removed := false), r), fail)
    else if s.port1 != r.port1 then OpenedIf(s.pid == 0, Configured(Shut(s), r), fail)
    else Configured(s, r)
  }

  /** The child is told to end when the first port changes under it. */
  predicate Outdates(p: Port, r: Record) {
    !p.removed && p.port1 != r.port1 && p.pid != 0
  }

  function Created(r: Record, fail: set<nat>): Port {
    Opened(Port(r.port1, r.port2, SHUT, 0, r.flags, r.fcSysid % 256, true, false, r.port1), fail)
  }

  function Retired(p: Port): Port {
    if !p.seen && !p.removed then Shut(p.(removed := true)) else p
  }

  // ---------------------------------------------------------------- the list

  /** The first entry from `i` on with this second port, or the length. */
  function IndexOf(ports: seq<Port>, port2: int, i: nat): (k: nat)
    requires i <= |ports|
    ensures i <= k <= |ports| && (k < |ports| ==> ports[k].port2 == port2)
    ensures forall j :: i <= j < k ==> ports[j].port2 != port2
    decreases |ports| - i
  {
    if i == |ports| || ports[i].port2 == port2 then i else IndexOf(ports, port2, i + 1)
  }

  function Upsert(s: Parent, r: Record, fails: Fails): Parent {
    var k := IndexOf(s.ports, r.port2, 0);
    var fail := Failing(fails, r.port2);
    if k == |s.ports| then s.(ports := [Created(r, fail)] + s.ports)
    else
      Parent(s.ports[k := Updated(s.ports[k], r, fail)],
             if Outdates(s.ports[k], r) then s.termed + {s.ports[k].pid} else s.termed)
  }

  function UpsertAll(s: Parent, records: seq<Record>, fails: Fails): Parent
    decreases |records|
  {
    if records == [] then s else UpsertAll(Upsert(s, records[0], fails), records[1..], fails)
  }

  function Unseen(ports: seq<Port>): (r: seq<Port>)
    ensures |r| == |ports|
  {
    seq(|ports|, i requires 0 <= i < |ports| => ports[i].(seen := false))
  }

  /** Entries not in the database any more are removed and their children told to end. */
  function Retire(s: Parent): Parent {
    Parent(seq(|s.ports|, i requires 0 <= i < |s.ports| => Retired(s.ports[i])),
           s.termed + set p <- s.ports | !p.seen && !p.removed && p.pid != 0 :: p.pid)
  }

  function Reopen(ports: seq<Port>, fails: Fails): (r: seq<Port>)
    ensures |r| == |ports|
  {
    seq(|ports|, i requires 0 <= i < |ports| =>
      OpenedIf(ports[i].pid == 0 && !ports[i].removed, ports[i], Failing(fails, ports[i].port2)))
  }

  /** A reload: `early` says which sockets fail while records are met, `late` which fail at the end. */
  function Reload(s: Parent, records: seq<Record>, early: Fails, late: Fails): Parent {
    var t := Retire(UpsertAll(s.(ports := Unseen(s.ports)), records, early));
    t.(ports := Reopen(t.ports, late))
  }

  /** A connection on an entry: a child takes it over, and the parent closes its sockets. */
  function Connect(s: Parent, i: nat, pid: int): Parent
    requires i < |s.ports|
  {
    s.(ports := s.ports[i := Shut(s.ports[i].(pid := pid, held := s.ports[i].port1))])
  }

  function ChildOf(ports: seq<Port>, pid: int, i: nat): (k: nat)
    requires i <= |ports|
    ensures i <= k <= |ports| && (k < |ports| ==> ports[k].pid == pid)
    ensures forall j :: i <= j < k ==> ports[j].pid != pid
    decreases |ports| - i
  {
    if i == |ports| || ports[i].pid == pid then i else ChildOf(ports, pid, i + 1)
  }

  /** The parent learns that a process has exited. */
  function Reap(s: Parent, pid: int, fails: Fails): Parent {
    var k := ChildOf(s.ports, pid, 0);
    if k == |s.ports| then s
    else
      var p := s.ports[k].(pid := 0);
      Parent(s.ports[k := OpenedIf(!p.removed, p, Failing(fails, p.port2))], s.termed - {pid})
  }

  // ---------------------------------------------------------------- runs

  datatype Event =
    | Connection(i: nat, pid: int)
    | ChildExit(pid: int, fails: Fails)
    | Reloading(records: seq<Record>, early: Fails, late: Fails)

  predicate Listening(p: Port) {
    p.sockets != SHUT
  }

  /** A new process number is positive and not that of a child still to be waited for. */
  predicate NewPid(s: Parent, pid: int) {
    pid > 0 && forall i :: 0 <= i < |s.ports| ==> s.ports[i].pid != pid
  }

  predicate DistinctRecords(records: seq<Record>) {
    forall i, j :: 0 <= i < j < |records| ==> records[i].port2 != records[j].port2
  }

  /** `fork` gives a new process number or fails with -1; only a waited-for process exits. */
  predicate Enabled(s: Parent, e: Event) {
    match e
    case Connection(i, pid) =>
      && i < |s.ports| && s.ports[i].pid == 0 && !s.ports[i].removed && Listening(s.ports[i])
      && (pid == -1 || NewPid(s, pid))
    case ChildExit(pid, _) => pid > 0
    case Reloading(records, _, _) => DistinctRecords(records)
  }

  function Next(s: Parent, e: Event): Parent
    requires Enabled(s, e)
  {
    match e
    case Connection(i, pid) => Connect(s, i, pid)
    case ChildExit(pid, fails) => Reap(s, pid, fails)
    case Reloading(records, early, late) => Reload(s, records, early, late)
  }

  ghost predicate Trace(s: Parent, events: seq<Event>)
    decreases |events|
  {
    events == [] || (Enabled(s, events[0]) && Trace(Next(s, events[0]), events[1..]))
  }

  function Run(s: Parent, events: seq<Event>): Parent
    requires Trace(s, events)
    decreases |events|
  {
    if events == [] then s else Run(Next(s, events[0]), events[1..])
  }

  function Start(records: seq<Record>, fails: Fails): Parent {
    UpsertAll(Parent([], {}), records, fails)
  }

  // ---------------------------------------------------------------- what every run keeps

  predicate BoundTo(socket: Option<int>, port: int) {
    socket.Some? ==> socket.value == port
  }

  /** An entry's sockets: none while removed or served by a child, and bound to its own current ports. */
  predicate PortOk(p: Port) {
    && (p.removed || p.pid != 0 ==> !Listening(p))
    && BoundTo(p.sockets.udp1, p.port1) && BoundTo(p.sockets.udp2, p.port2)
    && BoundTo(p.sockets.tcp1, p.port1) && BoundTo(p.sockets.tcp2, p.port2)
    && p.fcSysid < 256
  }

  /** A child that serves a removed entry or an old first port has been told to end. */
  predicate Told(p: Port, termed: set<int>) {
    p.pid != 0 && (p.removed || p.held != p.port1) ==> p.pid in termed
  }

  ghost predicate UniquePorts(ports: seq<Port>) {
    forall i, j :: 0 <= i < j < |ports| ==> ports[i].port2 != ports[j].port2
  }

  ghost predicate UniqueChildren(ports: seq<Port>) {
    forall i, j :: 0 <= i < j < |ports| && ports[i].pid == ports[j].pid ==> ports[i].pid <= 0
  }

  ghost predicate EntriesOk(s: Parent) {
    forall i :: 0 <= i < |s.ports| ==> PortOk(s.ports[i]) && Told(s.ports[i], s.termed)
  }

  ghost predicate Inv(s: Parent) {
    UniquePorts(s.ports) && UniqueChildren(s.ports) && EntriesOk(s)
  }

  lemma UpdatedOk(p: Port, r: Record, fail: set<nat>, termed: set<int>)
    requires PortOk(p) && Told(p, termed) && p.port2 == r.port2
    ensures var u := Updated(p, r, fail);
            && PortOk(u) && u.pid == p.pid && u.port2 == p.port2
            && Told(u, if Outdates(p, r) then termed + {p.pid} else termed)
  {
  }

  lemma CreatedOk(r: Record, fail: set<nat>, termed: set<int>)
    ensures var u := Created(r, fail); PortOk(u) && u.pid == 0 && u.port2 == r.port2 && Told(u, termed)
  {
  }

  lemma UpsertInv(s: Parent, r: Record, fails: Fails)
    requires Inv(s)
    ensures Inv(Upsert(s, r, fails))
  {
    hide Updated, Created, PortOk, Outdates;
    var t := Upsert(s, r, fails);
    var k := IndexOf(s.ports, r.port2, 0);
    var fail := Failing(fails, r.port2);
    if k < |s.ports| {
      UpdatedOk(s.ports[k], r, fail, s.termed);
      assert forall i :: 0 <= i < |s.ports| && i != k ==> t.ports[i] == s.ports[i];
    } else {
      CreatedOk(r, fail, s.termed);
      assert t.ports[0] == Created(r, fail);
      assert forall i :: 1 <= i < |t.ports| ==> t.ports[i] == s.ports[i - 1];
    }
  }

  lemma {:induction false} UpsertAllInv(s: Parent, records: seq<Record>, fails: Fails)
    requires Inv(s)
    ensures Inv(UpsertAll(s, records, fails))
    decreases |records|
  {
    hide Inv, Upsert;
    if records != [] {
      UpsertInv(s, records[0], fails);
      UpsertAllInv(Upsert(s, records[0], fails), records[1..], fails);
    }
  }

  lemma RetireInv(s: Parent)
    requires Inv(s)
    ensures Inv(Retire(s))
  {
    var t := Retire(s);
    forall i | 0 <= i < |t.ports| ensures PortOk(t.ports[i]) && Told(t.ports[i], t.termed) {
      assert PortOk(s.ports[i]) && Told(s.ports[i], s.termed) && s.ports[i] in s.ports;
    }
  }

  lemma ReopenInv(s: Parent, fails: Fails)
    requires Inv(s)
    ensures Inv(s.(ports := Reopen(s.ports, fails)))
  {
  }

  lemma ReloadInv(s: Parent, records: seq<Record>, early: Fails, late: Fails)
    requires Inv(s)
    ensures Inv(Reload(s, records, early, late))
  {
    var a := s.(ports := Unseen(s.ports));
    assert Inv(a);
    UpsertAllInv(a, records, early);
    RetireInv(UpsertAll(a, records, early));
    ReopenInv(Retire(UpsertAll(a, records, early)), late);
  }

  lemma ConnectInv(s: Parent, i: nat, pid: int)
    requires Inv(s) && Enabled(s, Connection(i, pid))
    ensures Inv(Connect(s, i, pid))
  {
  }

  lemma ReapedOk(p: Port, fail: set<nat>, termed: set<int>)
    requires PortOk(p)
    ensures var u := OpenedIf(!p.removed, p.(pid := 0), fail);
            PortOk(u) && u.pid == 0 && u.port2 == p.port2 && Told(u, termed)
  {
  }

  lemma ReapInv(s: Parent, pid: int, fails: Fails)
    requires Inv(s) && pid > 0
    ensures Inv(Reap(s, pid, fails))
  {
    hide PortOk, OpenedIf;
    var k := ChildOf(s.ports, pid, 0);
    if k < |s.ports| {
      ReapedOk(s.ports[k], Failing(fails, s.ports[k].port2), s.termed - {pid});
      assert forall i :: 0 <= i < |s.ports| && i != k ==> s.ports[i].pid != pid;
    }
  }

  lemma NextInv(s: Parent, e: Event)
    requires Inv(s) && Enabled(s, e)
    ensures Inv(Next(s, e))
  {
    match e
    case Connection(i, pid) => ConnectInv(s, i, pid);
    case ChildExit(pid, fails) => ReapInv(s, pid, fails);
    case Reloading(records, early, late) => ReloadInv(s, records, early, late);
  }

  lemma {:induction false} RunInv(s: Parent, events: seq<Event>)
    requires Inv(s) && Trace(s, events)
    ensures Inv(Run(s, events))
    decreases |events|
  {
    hide Inv, Next;
    if events != [] {
      NextInv(s, events[0]);
      RunInv(Next(s, events[0]), events[1..]);
    }
  }

  /** Every run keeps one entry per second port, no sockets where a child runs or the entry is gone, and sockets on current ports. */
  lemma Reconciled(records: seq<Record>, fails: Fails, events: seq<Event>)
    requires Trace(Start(records, fails), events)
    ensures var s := Run(Start(records, fails), events);
            && UniquePorts(s.ports)
            && forall i :: 0 <= i < |s.ports| ==> PortOk(s.ports[i]) && Told(s.ports[i], s.termed)
  {
    UpsertAllInv(Parent([], {}), records, fails);
    RunInv(Start(records, fails), events);
  }

  // ---------------------------------------------------------------- after a reload

  /** The entry carries the record, its system number cut to eight bits. */
  predicate Carries(p: Port, r: Record) {
    p.port1 == r.port1 && p.port2 == r.port2 && p.flags == r.flags && p.fcSysid == r.fcSysid % 256
  }

  ghost predicate Carried(ports: seq<Port>, r: Record) {
    exists i :: 0 <= i < |ports| && ports[i].seen && !ports[i].removed && Carries(ports[i], r)
  }

  ghost predicate Known(p: Port, records: seq<Record>) {
    exists r <- records :: Carries(p, r)
  }

  /** The entries seen are those of the records met so far. */
  ghost predicate Matches(ports: seq<Port>, records: seq<Record>) {
    && (forall r <- records :: Carried(ports, r))
    && (forall i :: 0 <= i < |ports| && ports[i].seen ==> !ports[i].removed && Known(ports[i], records))
  }

  lemma KnownMore(p: Port, records: seq<Record>, r: Record)
    requires Known(p, records) || Carries(p, r)
    ensures Known(p, records + [r])
  {
    hide Carries;
    if Known(p, records) {
      var d :| d in records && Carries(p, d);
      assert d in records + [r];
    } else {
      assert r in records + [r];
    }
  }

  lemma UpdatedCarries(p: Port, r: Record, fail: set<nat>)
    requires p.port2 == r.port2
    ensures var u := Updated(p, r, fail); u.seen && !u.removed && Carries(u, r)
    ensures var c := Created(r, fail); c.seen && !c.removed && Carries(c, r)
  {
  }

  /** Where the entry of a record is after it was met, and where the others are. */
  lemma UpsertAt(s: Parent, r: Record, fails: Fails) returns (at: nat, shift: nat)
    ensures var t := Upsert(s, r, fails).ports;
            && |t| == |s.ports| + shift && at < |t| && t[at].seen && !t[at].removed && Carries(t[at], r)
            && (forall i :: shift <= i < |t| && i != at ==> t[i] == s.ports[i - shift])
            && (shift == 0 || (shift == 1 && at == 0))
            && (shift == 0 ==> s.ports[at].port2 == r.port2)
  {
    hide Updated, Created, Carries;
    var k := IndexOf(s.ports, r.port2, 0);
    at, shift := if k < |s.ports| then k else 0, if k < |s.ports| then 0 else 1;
    var p := if k < |s.ports| then s.ports[k] else Created(r, {}).(port2 := r.port2);
    UpdatedCarries(p, r, Failing(fails, r.port2));
  }

  lemma UpsertMatches(s: Parent, r: Record, fails: Fails, done: seq<Record>)
    requires Matches(s.ports, done) && forall d <- done :: d.port2 != r.port2
    ensures Matches(Upsert(s, r, fails).ports, done + [r])
  {
    hide Upsert, Carries, Known;
    var t := Upsert(s, r, fails).ports;
    var at, shift := UpsertAt(s, r, fails);
    assert Carried(t, r);
    forall d <- done ensures Carried(t, d) {
      StillCarried(s.ports, t, at, shift, r, d);
    }
    forall i | 0 <= i < |t| && t[i].seen ensures !t[i].removed && Known(t[i], done + [r]) {
      assert i != at ==> t[i] == s.ports[i - shift];
      KnownMore(t[i], done, r);
    }
  }

  lemma StillCarried(ports: seq<Port>, t: seq<Port>, at: nat, shift: nat, r: Record, d: Record)
    requires Carried(ports, d) && d.port2 != r.port2 && |t| == |ports| + shift && at < |t|
    requires forall i :: shift <= i < |t| && i != at ==> t[i] == ports[i - shift]
    requires (shift == 0 && ports[at].port2 == r.port2) || (shift == 1 && at == 0)
    ensures Carried(t, d)
  {
    var i :| 0 <= i < |ports| && ports[i].seen && !ports[i].removed && Carries(ports[i], d);
    assert t[i + shift] == ports[i];
  }

  lemma DistinctNext(done: seq<Record>, records: seq<Record>)
    requires records != [] && DistinctRecords(done + records)
    ensures forall d <- done :: d.port2 != records[0].port2
  {
    forall d <- done ensures d.port2 != records[0].port2 {
      var i :| 0 <= i < |done| && done[i] == d;
      assert (done + records)[i] == d && (done + records)[|done|] == records[0];
    }
  }

  lemma {:induction false} UpsertAllMatches(s: Parent, records: seq<Record>, fails: Fails, done: seq<Record>)
    requires Matches(s.ports, done) && DistinctRecords(done + records)
    ensures Matches(UpsertAll(s, records, fails).ports, done + records)
    decreases |records|
  {
    hide Upsert, Matches;
    if records == [] {
      assert done + [] == done;
    } else {
      DistinctNext(done, records);
      UpsertMatches(s, records[0], fails, done);
      assert done + [records[0]] + records[1..] == done + records;
      UpsertAllMatches(Upsert(s, records[0], fails), records[1..], fails, done + [records[0]]);
    }
  }

  /** What the end of a reload does to an entry that was met, and to the others. */
  lemma ReloadEnd(s: Parent, records: seq<Record>, early: Fails, late: Fails)
    ensures var b := UpsertAll(s.(ports := Unseen(s.ports)), records, early).ports;
            var t := Reload(s, records, early, late).ports;
            && |t| == |b|
            && (forall i :: 0 <= i < |b| && b[i].seen && !b[i].removed ==> t[i] == b[i].(sockets := t[i].sockets))
            && (forall i :: 0 <= i < |b| && !b[i].seen ==> t[i].removed)
  {
    hide UpsertAll;
  }

  /** Right after a reload the entries in use are those of the database, with its port, flags and system number. */
  lemma ReloadMatches(s: Parent, records: seq<Record>, early: Fails, late: Fails)
    requires DistinctRecords(records)
    ensures var t := Reload(s, records, early, late).ports;
            && (forall r <- records :: exists i :: 0 <= i < |t| && !t[i].removed && Carries(t[i], r))
            && (forall i :: 0 <= i < |t| && !t[i].removed ==> exists r <- records :: Carries(t[i], r))
  {
    hide UpsertAll, Reload;
    var a := s.(ports := Unseen(s.ports));
    assert [] + records == records;
    UpsertAllMatches(a, records, early, []);
    ReloadEnd(s, records, early, late);
    var b, t := UpsertAll(a, records, early).ports, Reload(s, records, early, late).ports;
    forall r <- records ensures exists i :: 0 <= i < |t| && !t[i].removed && Carries(t[i], r) {
      assert Carried(b, r);
      var i :| 0 <= i < |b| && b[i].seen && !b[i].removed && Carries(b[i], r);
      assert !t[i].removed && Carries(t[i], r);
    }
    forall i | 0 <= i < |t| && !t[i].removed ensures exists r <- records :: Carries(t[i], r) {
      assert Known(b[i], records);
      var r :| r in records && Carries(b[i], r);
      assert Carries(t[i], r);
    }
  }

  predicate Serving(p: Port) {
    p.sockets == Sockets(Some(p.port1), Some(p.port2), Some(p.port1), Some(p.port2))
  }

  /** After a reload in which nothing fails to bind, exactly the idle entries in use hold all their sockets. */
  lemma ReloadServesExactly(s: Parent, records: seq<Record>, early: Fails)
    requires Inv(s)
    ensures var t := Reload(s, records, early, map[]);
            forall i :: 0 <= i < |t.ports| ==> (Serving(t.ports[i]) <==> t.ports[i].pid == 0 && !t.ports[i].removed)
  {
    ReloadInv(s, records, early, map[]);
    var a := s.(ports := Unseen(s.ports));
    assert Inv(a);
    UpsertAllInv(a, records, early);
    RetireInv(UpsertAll(a, records, early));
  }

  // ---------------------------------------------------------------- a fork that fails

  ghost predicate Lost(s: Parent, port2: int) {
    exists i :: 0 <= i < |s.ports| && s.ports[i].port2 == port2 && s.ports[i].pid == -1
  }

  lemma UpsertLost(s: Parent, r: Record, fails: Fails, port2: int)
    requires Lost(s, port2)
    ensures Lost(Upsert(s, r, fails), port2)
  {
    var i :| 0 <= i < |s.ports| && s.ports[i].port2 == port2 && s.ports[i].pid == -1;
    var t := Upsert(s, r, fails);
    var at := if IndexOf(s.ports, r.port2, 0) < |s.ports| then i else i + 1;
    assert t.ports[at].port2 == port2 && t.ports[at].pid == -1;
  }

  lemma {:induction false} UpsertAllLost(s: Parent, records: seq<Record>, fails: Fails, port2: int)
    requires Lost(s, port2)
    ensures Lost(UpsertAll(s, records, fails), port2)
    decreases |records|
  {
    hide Lost, Upsert;
    if records != [] {
      UpsertLost(s, records[0], fails, port2);
      UpsertAllLost(Upsert(s, records[0], fails), records[1..], fails, port2);
    }
  }

  lemma NextLost(s: Parent, e: Event, port2: int)
    requires Lost(s, port2) && Enabled(s, e)
    ensures Lost(Next(s, e), port2)
  {
    var t := Next(s, e);
    match e
    case Reloading(records, early, late) =>
      var a := s.(ports := Unseen(s.ports));
      var j :| 0 <= j < |s.ports| && s.ports[j].port2 == port2 && s.ports[j].pid == -1;
      assert a.ports[j].port2 == port2 && a.ports[j].pid == -1;
      UpsertAllLost(a, records, early, port2);
      var b := UpsertAll(a, records, early);
      var i :| 0 <= i < |b.ports| && b.ports[i].port2 == port2 && b.ports[i].pid == -1;
      assert t.ports[i].port2 == port2 && t.ports[i].pid == -1;
    case _ =>
      var i :| 0 <= i < |s.ports| && s.ports[i].port2 == port2 && s.ports[i].pid == -1;
      assert t.ports[i].port2 == port2 && t.ports[i].pid == -1;
  }

  lemma {:induction false} RunLost(s: Parent, events: seq<Event>, port2: int)
    requires Lost(s, port2) && Trace(s, events)
    ensures Lost(Run(s, events), port2)
    decreases |events|
  {
    hide Lost, Next;
    if events != [] {
      NextLost(s, events[0], port2);
      RunLost(Next(s, events[0]), events[1..], port2);
    }
  }

  /** An entry whose child could not be started is never listened on again, whatever follows. */
  lemma FailedForkIsFinal(s: Parent, i: nat, events: seq<Event>)
    requires Inv(s) && Enabled(s, Connection(i, -1)) && Trace(Connect(s, i, -1), events)
    ensures var t := Run(Connect(s, i, -1), events);
            forall j :: 0 <= j < |t.ports| && t.ports[j].port2 == s.ports[i].port2 ==> !Listening(t.ports[j])
  {
    var port2 := s.ports[i].port2;
    var c := Connect(s, i, -1);
    assert c.ports[i].port2 == port2 && c.ports[i].pid == -1;
    ConnectInv(s, i, -1);
    RunInv(c, events);
    RunLost(c, events, port2);
  }

  // ---------------------------------------------------------------- a signal for every process

  /** Nothing but child processes has been told to end; -1 would stand for every process there is. */
  predicate OnlyChildren(termed: set<int>) {
    forall p <- termed :: p > 0
  }

  /** The entry's child is told to end although its fork had failed. */
  predicate Misdirected(p: Port, told: bool) {
    told && p.pid < 0
  }

  lemma {:induction false} UpsertAllTells(s: Parent, records: seq<Record>, fails: Fails)
    requires Inv(s) && OnlyChildren(s.termed) && ForksOk(s.ports)
    ensures OnlyChildren(UpsertAll(s, records, fails).termed) && ForksOk(UpsertAll(s, records, fails).ports)
    decreases |records|
  {
    hide Inv;
    if records != [] {
      UpsertInv(s, records[0], fails);
      UpsertTells(s, records[0], fails);
      UpsertAllTells(Upsert(s, records[0], fails), records[1..], fails);
    }
  }

  /** No entry is left over from a fork that failed. */
  predicate ForksOk(ports: seq<Port>) {
    forall i :: 0 <= i < |ports| ==> ports[i].pid >= 0
  }

  /** Meeting a record tells only children to end exactly when it does not change the first port of a lost entry. */
  lemma UpsertTellsExactlyWhen(s: Parent, r: Record, fails: Fails)
    requires OnlyChildren(s.termed)
    ensures var k := IndexOf(s.ports, r.port2, 0);
            OnlyChildren(Upsert(s, r, fails).termed) <==>
            k == |s.ports| || !Misdirected(s.ports[k], Outdates(s.ports[k], r))
  {
    var k := IndexOf(s.ports, r.port2, 0);
    if k < |s.ports| && Outdates(s.ports[k], r) {
      assert s.ports[k].pid in Upsert(s, r, fails).termed;
    }
  }

  lemma UpsertTells(s: Parent, r: Record, fails: Fails)
    requires OnlyChildren(s.termed) && ForksOk(s.ports)
    ensures OnlyChildren(Upsert(s, r, fails).termed) && ForksOk(Upsert(s, r, fails).ports)
  {
    UpsertTellsExactlyWhen(s, r, fails);
    var t := Upsert(s, r, fails);
    var k := IndexOf(s.ports, r.port2, 0);
    assert forall i :: 0 <= i < |t.ports| && k == |s.ports| && i > 0 ==> t.ports[i] == s.ports[i - 1];
  }

  /** Removing what was not seen tells only children to end exactly when no lost entry is among it. */
  lemma RetireTellsExactlyWhen(s: Parent)
    requires OnlyChildren(s.termed)
    ensures OnlyChildren(Retire(s).termed) <==>
            forall i :: 0 <= i < |s.ports| ==> !Misdirected(s.ports[i], !s.ports[i].seen && !s.ports[i].removed)
  {
    var t := Retire(s);
    if OnlyChildren(t.termed) {
      forall i | 0 <= i < |s.ports| ensures !Misdirected(s.ports[i], !s.ports[i].seen && !s.ports[i].removed) {
        var p := s.ports[i];
        assert p in s.ports;
        assert !p.seen && !p.removed && p.pid != 0 ==> p.pid in t.termed;
      }
    }
  }

  /** While every fork succeeds, only children are ever told to end. */
  ghost predicate AllFork(events: seq<Event>) {
    forall i :: 0 <= i < |events| && events[i].Connection? ==> events[i].pid > 0
  }

  lemma NextTells(s: Parent, e: Event)
    requires Inv(s) && Enabled(s, e) && OnlyChildren(s.termed) && ForksOk(s.ports)
    requires e.Connection? ==> e.pid > 0
    ensures OnlyChildren(Next(s, e).termed) && ForksOk(Next(s, e).ports)
  {
    match e
    case Reloading(records, early, late) =>
      var a := s.(ports := Unseen(s.ports));
      assert Inv(a);
      UpsertAllTells(a, records, early);
      RetireTellsExactlyWhen(UpsertAll(a, records, early));
    case _ =>
  }

  lemma {:induction false} RunTells(s: Parent, events: seq<Event>)
    requires Inv(s) && Trace(s, events) && OnlyChildren(s.termed) && ForksOk(s.ports) && AllFork(events)
    ensures OnlyChildren(Run(s, events).termed)
    decreases |events|
  {
    hide Inv, Next, Enabled;
    if events != [] {
      NextInv(s, events[0]);
      NextTells(s, events[0]);
      assert AllFork(events[1..]);
      RunTells(Next(s, events[0]), events[1..]);
    }
  }

  /** One failed fork, and a reload without the record: every process is told to end. */
  lemma FailedForkTellsAll(r: Record, fails: Fails)
    requires Listening(Created(r, Failing(fails, r.port2)))
    ensures var s := Start([r], fails);
            var events := [Connection(0, -1), Reloading([], map[], map[])];
            Trace(s, events) && -1 in Run(s, events).termed
  {
    var s := Start([r], fails);
    var events := [Connection(0, -1), Reloading([], map[], map[])];
    assert [r][1..] == [];
    assert s == UpsertAll(Upsert(Parent([], {}), r, fails), [], fails) == Upsert(Parent([], {}), r, fails);
    assert s.ports == [Created(r, Failing(fails, r.port2))];
    var c := Next(s, events[0]);
    var u := Parent(Unseen(c.ports), c.termed);
    assert u.ports[0] in u.ports && u.ports[0].pid == -1;
    assert -1 in Retire(u).termed;
    assert events[1..] == [events[1]] && [events[1]][1..] == [];
    assert Trace(Next(c, events[1]), []) && Trace(c, events[1..]);
    assert Run(s, events) == Run(c, events[1..]) == Run(Next(c, events[1]), []);
  }

  // ---------------------------------------------------------------- taking over and giving back

  predicate Opens(socket: Option<int>, port: int, n: nat, fail: set<nat>) {
    socket == if n in fail then None else Some(port)
  }

  predicate AllOpen(p: Port, fail: set<nat>) {
    && Opens(p.sockets.udp1, p.port1, 0, fail) && Opens(p.sockets.udp2, p.port2, 1, fail)
    && Opens(p.sockets.tcp1, p.port1, 2, fail) && Opens(p.sockets.tcp2, p.port2, 3, fail)
  }

  /**
   What meeting its record does to the sockets of an entry: one that is idle, and new to the parent or to its first
   port, opens all four but for those that fail to bind; one that stays as it was keeps what it has.
   */
  lemma UpsertOpens(s: Parent, r: Record, fails: Fails, i: nat)
    requires Inv(s)
    ensures var t := Upsert(s, r, fails);
            var fail := if r.port2 in fails then fails[r.port2] else {};
            i < |s.ports| && s.ports[i].port2 == r.port2 ==>
              |t.ports| == |s.ports| && t.ports[i].pid == s.ports[i].pid &&
              if t.ports[i].pid != 0 then t.ports[i].sockets == Sockets(None, None, None, None)
              else if s.ports[i].removed || s.ports[i].port1 != r.port1 then AllOpen(t.ports[i], fail)
              else t.ports[i].sockets == s.ports[i].sockets
    ensures var fail := if r.port2 in fails then fails[r.port2] else {};
            (forall j :: 0 <= j < |s.ports| ==> s.ports[j].port2 != r.port2) ==>
              AllOpen(Upsert(s, r, fails).ports[0], fail) && Upsert(s, r, fails).ports[0].pid == 0
  {
    if i < |s.ports| && s.ports[i].port2 == r.port2 {
      assert PortOk(s.ports[i]);
      assert IndexOf(s.ports, r.port2, 0) == i;
    }
  }

  /** While a child serves an entry the parent holds none of its sockets and knows the child. */
  lemma ConnectHandsOver(s: Parent, i: nat, pid: int)
    requires i < |s.ports|
    ensures var t := Connect(s, i, pid);
            var p := t.ports[i];
            && p.sockets == Sockets(None, None, None, None) && p.pid == pid && p.held == s.ports[i].port1
            && p == s.ports[i].(sockets := p.sockets, pid := pid, held := p.held)
            && t == s.(ports := s.ports[i := p])
  {
  }

  /**
   When a child exits, its entry is free again and, unless the record is gone, opens all four sockets on its
   current ports but for those that fail to bind. No other entry changes.
   */
  lemma ReapGivesBack(s: Parent, pid: int, fails: Fails, i: nat)
    requires Inv(s) && pid > 0 && i < |s.ports| && s.ports[i].pid == pid
    ensures var t := Reap(s, pid, fails);
            var p := t.ports[i];
            var fail := if s.ports[i].port2 in fails then fails[s.ports[i].port2] else {};
            && t.termed == s.termed - {pid} && t.ports == s.ports[i := p]
            && p == s.ports[i].(pid := 0, sockets := p.sockets)
            && (if p.removed then p.sockets == Sockets(None, None, None, None)
                else AllOpen(p, fail))
  {
    assert PortOk(s.ports[i]);
    assert ChildOf(s.ports, pid, 0) == i;
  }

  /** The exit of a process that serves no entry changes nothing. */
  lemma ReapOfStranger(s: Parent, pid: int, fails: Fails)
    requires forall i :: 0 <= i < |s.ports| ==> s.ports[i].pid != pid
    ensures Reap(s, pid, fails) == s
  {
  }
}
