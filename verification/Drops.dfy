/**
 The drop protocol between the web UI and the proxy processes. The web UI marks a connection's record in the
 shared database and signals the process that wrote it; the process notices the signal, clears its flag, and
 then scans the database. Each database step is one transaction; steps of all processes interleave freely.
 */
module Drops {
  datatype Key = Key(port2: int, index: int)

  /** A connection's record: the process that wrote it, and whether its drop is requested. */
  datatype Record = Record(pid: nat, wanted: bool)

  /** A proxy process: its live engineers, whether its drop flag is up, and whether a scan has yet to read. */
  datatype Child = Child(port2: int, user: bool, live: set<int>, pending: bool, scanning: bool)

  /** A heartbeat, forked but not yet written. */
  datatype Snapshot = Snapshot(port2: int, pid: nat, rows: set<int>)

  /** A mark whose signal has not been sent yet. */
  datatype Owed = Owed(key: Key, pid: nat)

  /** The system, with the marks made, the connections closed by drops, and the marks that were signalled. */
  datatype System = System(
    db: map<Key, Record>, children: map<nat, Child>, nextPid: nat, snapshots: seq<Snapshot>, owed: seq<Owed>,
    marks: multiset<Key>, closes: multiset<Key>, signalled: set<Key>)

  datatype Step =
    | Spawn(port2: int)
    | Connect(pid: nat, index: int)
    | Disconnect(pid: nat, index: int)
    | Capture(pid: nat, rows: set<int>)
    | Write(n: nat)
    | Mark(key: Key)
    | Signal(n: nat)
    | Clear(pid: nat)
    | Scan(pid: nat, opens: bool)
    | Exit(pid: nat)
    | Purge(port2: int)

  const LINKS: int := 100

  // ---------------------------------------------------------------- steps

  function Of(db: map<Key, Record>, port2: int): set<Key> {
    set k <- db.Keys | k.port2 == port2
  }

  function Wanted(db: map<Key, Record>, port2: int): set<Key> {
    set k <- db.Keys | k.port2 == port2 && db[k].wanted
  }

  function Rows(s: Snapshot): map<Key, Record> {
    map i <- s.rows :: Key(s.port2, i) := Record(s.pid, false)
  }

  function Without<T>(s: seq<T>, n: nat): seq<T>
    requires n < |s|
  {
    s[..n] + s[n + 1..]
  }

  /** The web UI marks a record, if there is one, and learns which process to signal. */
  function MarkStep(s: System, key: Key): System {
    if key !in s.db then s
    else
      var r := s.db[key];
      s.(db := s.db[key := r.(wanted := true)], marks := s.marks + multiset{key},
         owed := if r.pid > 0 then s.owed + [Owed(key, r.pid)] else s.owed)
  }

  function SignalStep(s: System, n: nat): System
    requires n < |s.owed|
  {
    var o := s.owed[n];
    var t := s.(owed := Without(s.owed, n));
    if o.pid !in s.children then t
    else
      t.(children := s.children[o.pid := s.children[o.pid].(pending := true)],
         signalled := if o.key in s.db && s.db[o.key] == Record(o.pid, true) then s.signalled + {o.key} else s.signalled)
  }

  /** The heartbeat replaces all records of its port by fresh, unmarked ones. */
  function WriteStep(s: System, n: nat): System
    requires n < |s.snapshots|
  {
    var h := s.snapshots[n];
    s.(db := (s.db - Of(s.db, h.port2)) + Rows(h), snapshots := Without(s.snapshots, n),
       signalled := s.signalled - Of(s.db, h.port2))
  }

  /** What a scan closes: the session for index 0, and the engineers that are live. */
  function Hit(c: Child, wanted: set<Key>): set<Key> {
    set k <- wanted | k.index == 0 || k.index in c.live
  }

  function ScanStep(s: System, pid: nat, ok: bool): System
    requires pid in s.children
  {
    var c := s.children[pid].(scanning := false);
    if !ok then s.(children := s.children[pid := c])
    else
      var wanted := Wanted(s.db, c.port2);
      var left := c.(live := set i <- c.live | Key(c.port2, i) !in wanted);
      s.(db := s.db - wanted, signalled := s.signalled - wanted, closes := s.closes + multiset(Hit(c, wanted)),
         children := if Key(c.port2, 0) in wanted then s.children - {pid} else s.children[pid := left])
  }

  function PurgeStep(s: System, port2: int): System {
    s.(db := s.db - Of(s.db, port2), signalled := s.signalled - Of(s.db, port2))
  }

  /** The connection indices of a process: 0 for the user, 1 and up for the engineers. */
  function Open(c: Child): set<int> {
    c.live + if c.user then {0} else {}
  }

  predicate Enabled(s: System, step: Step) {
    match step
    case Spawn(port2) => true
    case Connect(pid, index) => pid in s.children && 0 <= index <= LINKS && !s.children[pid].scanning
    case Disconnect(pid, index) => pid in s.children && !s.children[pid].scanning
    case Capture(pid, rows) => pid in s.children && !s.children[pid].scanning && rows <= Open(s.children[pid])
    case Write(n) => n < |s.snapshots|
    case Mark(key) => true
    case Signal(n) => n < |s.owed|
    case Clear(pid) => pid in s.children && s.children[pid].pending && !s.children[pid].scanning
    case Scan(pid, _) => pid in s.children && s.children[pid].scanning
    case Exit(pid) => true
    case Purge(port2) => true
  }

  function Next(s: System, step: Step): System
    requires Enabled(s, step)
  {
    match step
    case Spawn(port2) =>
      s.(children := s.children[s.nextPid := Child(port2, false, {}, false, false)], nextPid := s.nextPid + 1)
    case Connect(pid, index) =>
      var c := s.children[pid];
      s.(children := s.children[pid := if index == 0 then c.(user := true) else c.(live := c.live + {index})])
    case Disconnect(pid, index) =>
      s.(children := s.children[pid := s.children[pid].(live := s.children[pid].live - {index})])
    case Capture(pid, rows) => s.(snapshots := s.snapshots + [Snapshot(s.children[pid].port2, pid, rows)])
    case Write(n) => WriteStep(s, n)
    case Mark(key) => MarkStep(s, key)
    case Signal(n) => SignalStep(s, n)
    case Clear(pid) => s.(children := s.children[pid := s.children[pid].(pending := false, scanning := true)])
    case Scan(pid, ok) => ScanStep(s, pid, ok)
    case Exit(pid) => s.(children := s.children - {pid})
    case Purge(port2) => PurgeStep(s, port2)
  }

  function Init(): System {
    System(map[], map[], 1, [], [], multiset{}, multiset{}, {})
  }

  ghost predicate Trace(s: System, steps: seq<Step>)
    decreases |steps|
  {
    steps == [] || (Enabled(s, steps[0]) && Trace(Next(s, steps[0]), steps[1..]))
  }

  function Run(s: System, steps: seq<Step>): System
    requires Trace(s, steps)
    decreases |steps|
  {
    if steps == [] then s else Run(Next(s, steps[0]), steps[1..])
  }

  // ---------------------------------------------------------------- a drop for every close

  predicate Marked(s: System, k: Key) {
    k in s.db && s.db[k].wanted
  }

  /** Every close, and every mark still standing, has a request of its own. */
  ghost predicate Paid(s: System) {
    forall k :: s.closes[k] + (if Marked(s, k) then 1 else 0) <= s.marks[k]
  }

  lemma ScanPaid(s: System, pid: nat, ok: bool)
    requires Paid(s) && pid in s.children
    ensures Paid(ScanStep(s, pid, ok))
  {
    var t := ScanStep(s, pid, ok);
    var c := s.children[pid];
    forall k ensures t.closes[k] + (if Marked(t, k) then 1 else 0) <= t.marks[k] {
      assert k in Hit(c, Wanted(s.db, c.port2)) ==> Marked(s, k) && !Marked(s.(db := s.db - Wanted(s.db, c.port2)), k);
    }
  }

  lemma StepPaid(s: System, step: Step)
    requires Paid(s) && Enabled(s, step)
    ensures Paid(Next(s, step))
  {
    if step.Scan? {
      ScanPaid(s, step.pid, step.opens);
    } else {
      var t := Next(s, step);
      forall k ensures t.closes[k] + (if Marked(t, k) then 1 else 0) <= t.marks[k] {
        assert Marked(t, k) ==> Marked(s, k) || step == Mark(k);
      }
    }
  }

  lemma {:induction false} RunPaid(s: System, steps: seq<Step>)
    requires Paid(s) && Trace(s, steps)
    ensures Paid(Run(s, steps))
    decreases |steps|
  {
    if steps != [] {
      StepPaid(s, steps[0]);
      RunPaid(Next(s, steps[0]), steps[1..]);
    }
  }

  /** Whatever happens, drops close a connection index at most once per request for it, so never without one. */
  lemma OneClosePerRequest(steps: seq<Step>, k: Key)
    requires Trace(Init(), steps)
    ensures Run(Init(), steps).closes[k] <= Run(Init(), steps).marks[k]
  {
    RunPaid(Init(), steps);
  }

  // ---------------------------------------------------------------- no lost wakeup

  /** Process numbers are not used twice, and a process writes records of its own port only. */
  ghost predicate Owned(s: System) {
    && (forall p <- s.children :: p < s.nextPid)
    && (forall k <- s.db :: Writer(s, s.db[k].pid, k.port2))
    && (forall i :: 0 <= i < |s.snapshots| ==> Writer(s, s.snapshots[i].pid, s.snapshots[i].port2))
  }

  predicate Writer(s: System, pid: nat, port2: int) {
    pid < s.nextPid && (pid in s.children ==> s.children[pid].port2 == port2)
  }

  ghost predicate SignalsStand(s: System) {
    forall k <- s.signalled :: Marked(s, k)
  }

  predicate Awake(s: System, pid: nat) {
    pid in s.children ==> s.children[pid].pending || s.children[pid].scanning
  }

  /** While a signalled mark stands, its process has its flag up or has yet to scan. */
  ghost predicate NoLostWakeup(s: System) {
    forall k <- s.signalled :: k in s.db && Awake(s, s.db[k].pid)
  }

  lemma WriteOwned(s: System, n: nat)
    requires Owned(s) && n < |s.snapshots|
    ensures Owned(WriteStep(s, n))
  {
    var t, h := WriteStep(s, n), s.snapshots[n];
    assert Writer(t, h.pid, h.port2);
    forall k <- t.db ensures Writer(t, t.db[k].pid, k.port2) {
      assert k in Rows(h) || (k in s.db && Writer(s, s.db[k].pid, k.port2));
    }
    forall i | 0 <= i < |t.snapshots| ensures Writer(t, t.snapshots[i].pid, t.snapshots[i].port2) {
      assert t.snapshots[i] == s.snapshots[if i < n then i else i + 1];
    }
  }

  lemma StepOwned(s: System, step: Step)
    requires Owned(s) && Enabled(s, step)
    ensures Owned(Next(s, step))
  {
    hide WriteStep, Hit;
    if step.Write? {
      WriteOwned(s, step.n);
    } else {
      var t := Next(s, step);
      forall pid: nat, port2 | Writer(s, pid, port2) ensures Writer(t, pid, port2) {
      }
      hide Writer;
    }
  }

  lemma StepSignalsStand(s: System, step: Step)
    requires SignalsStand(s) && Enabled(s, step)
    ensures SignalsStand(Next(s, step))
  {
  }

  /** The one step that can lose a wakeup is a scan that cannot open the database. */
  lemma StepKeepsWakeup(s: System, step: Step)
    requires Owned(s) && SignalsStand(s) && NoLostWakeup(s) && Enabled(s, step) && !(step.Scan? && !step.opens)
    ensures NoLostWakeup(Next(s, step))
  {
    var t := Next(s, step);
    forall k <- t.signalled ensures k in t.db && Awake(t, t.db[k].pid) {
      StepSignalsStand(s, step);
      assert Marked(t, k);
      if k in s.signalled {
        assert Awake(s, s.db[k].pid) && Writer(s, s.db[k].pid, k.port2);
      }
    }
  }

  predicate Opens(steps: seq<Step>) {
    forall i :: 0 <= i < |steps| && steps[i].Scan? ==> steps[i].opens
  }

  lemma {:induction false} RunKeepsWakeup(s: System, steps: seq<Step>)
    requires Owned(s) && SignalsStand(s) && NoLostWakeup(s) && Trace(s, steps) && Opens(steps)
    ensures NoLostWakeup(Run(s, steps)) && SignalsStand(Run(s, steps))
    decreases |steps|
  {
    hide Next, Enabled;
    if steps != [] {
      StepOwned(s, steps[0]);
      StepSignalsStand(s, steps[0]);
      StepKeepsWakeup(s, steps[0]);
      assert Opens(steps[1..]);
      RunKeepsWakeup(Next(s, steps[0]), steps[1..]);
    }
  }

  /**
   While scans can open the database: a signalled mark that still stands in the record of a running process
   has that process's flag up, or a scan of it has yet to read.
   */
  lemma SignalledMarkIsSeen(steps: seq<Step>, k: Key)
    requires Trace(Init(), steps) && Opens(steps) && k in Run(Init(), steps).signalled
    ensures var s := Run(Init(), steps);
            Marked(s, k) && (s.db[k].pid in s.children ==>
              s.children[s.db[k].pid].pending || s.children[s.db[k].pid].scanning)
  {
    RunKeepsWakeup(Init(), steps);
  }

  /** A scan that cannot open the database loses a wakeup exactly when one was due and no later signal came. */
  lemma FailedScanKeepsExactlyWhen(s: System, pid: nat)
    requires Owned(s) && NoLostWakeup(s) && pid in s.children && s.children[pid].scanning
    ensures NoLostWakeup(ScanStep(s, pid, false)) <==>
            s.children[pid].pending || forall k <- s.signalled :: s.db[k].pid != pid
  {
    var t := ScanStep(s, pid, false);
    if !s.children[pid].pending && NoLostWakeup(t) {
      forall k <- s.signalled ensures s.db[k].pid != pid {
        assert Awake(t, t.db[k].pid);
      }
    }
  }

  const ENGINEER: Key := Key(7, 1)

  /** A process with one engineer whose record is in the database: the start of every drop request. */
  function Connected(pid: nat, wanted: bool): System {
    Init().(db := map[ENGINEER := Record(pid, wanted)], children := map[pid := Child(7, false, {1}, false, false)],
            nextPid := pid + 1)
  }

  /** A run that loses a wakeup: the engineer connects, its drop is marked and signalled, and the scan cannot open. */
  lemma WakeupIsLost() returns (steps: seq<Step>)
    ensures Trace(Init(), steps)
    ensures var s := Run(Init(), steps);
            && ENGINEER in s.signalled && Marked(s, ENGINEER) && !NoLostWakeup(s)
            && s.db[ENGINEER].pid in s.children && !s.children[s.db[ENGINEER].pid].pending
  {
    var connect := [Spawn(7), Connect(1, 1), Capture(1, {1}), Write(0)];
    var drop := [Mark(ENGINEER), Signal(0), Clear(1), Scan(1, false)];
    var t := ReachConnected(connect);
    LoseWakeup(t, drop);
    RunAppend(Init(), connect, drop);
    steps := connect + drop;
  }

  lemma {:induction false} RunAppend(s: System, a: seq<Step>, b: seq<Step>)
    requires Trace(s, a) && Trace(Run(s, a), b)
    ensures Trace(s, a + b) && Run(s, a + b) == Run(Run(s, a), b)
    decreases |a|
  {
    hide Next, Enabled;
    if a == [] {
      assert a + b == b;
    } else {
      assert (a + b)[1..] == a[1..] + b;
      RunAppend(Next(s, a[0]), a[1..], b);
    }
  }

  lemma RunFour(s: System, a: Step, b: Step, c: Step, d: Step)
    requires Enabled(s, a) && Enabled(Next(s, a), b) && Enabled(Next(Next(s, a), b), c)
    requires Enabled(Next(Next(Next(s, a), b), c), d)
    ensures Trace(s, [a, b, c, d]) && Run(s, [a, b, c, d]) == Next(Next(Next(Next(s, a), b), c), d)
  {
    hide Next, Enabled;
    var s1 := Next(s, a);
    var s2 := Next(s1, b);
    var s3 := Next(s2, c);
    var s4 := Next(s3, d);
    assert [a, b, c, d][1..] == [b, c, d] && [b, c, d][1..] == [c, d] && [c, d][1..] == [d] && [d][1..] == [];
    assert Trace(s4, []) && Trace(s3, [d]) && Trace(s2, [c, d]) && Trace(s1, [b, c, d]);
    assert Run(s3, [d]) == Run(s4, []) && Run(s2, [c, d]) == Run(s3, [d]) && Run(s1, [b, c, d]) == Run(s2, [c, d]);
  }

  lemma ReachConnected(steps: seq<Step>) returns (t: System)
    requires steps == [Spawn(7), Connect(1, 1), Capture(1, {1}), Write(0)]
    ensures Trace(Init(), steps) && t == Run(Init(), steps) && t == Connected(1, false)
  {
    RunFour(Init(), steps[0], steps[1], steps[2], steps[3]);
    t := Run(Init(), steps);
    var s2 := Next(Next(Init(), steps[0]), steps[1]);
    assert s2.children[1].live == {} + {1} == {1};
    assert s2.children == map[1 := Child(7, false, {1}, false, false)];
    assert t.children == s2.children;
    assert Rows(Snapshot(7, 1, {1})) == map[ENGINEER := Record(1, false)];
    assert t.db == map[ENGINEER := Record(1, false)];
  }

  lemma LoseWakeup(t: System, steps: seq<Step>)
    requires t == Connected(1, false) && steps == [Mark(ENGINEER), Signal(0), Clear(1), Scan(1, false)]
    ensures Trace(t, steps)
    ensures var s := Run(t, steps);
            && ENGINEER in s.signalled && Marked(s, ENGINEER) && !NoLostWakeup(s)
            && s.db[ENGINEER].pid in s.children && !s.children[s.db[ENGINEER].pid].pending
  {
    RunFour(t, steps[0], steps[1], steps[2], steps[3]);
    var s := Run(t, steps);
    assert s.db[ENGINEER] == Record(1, true) && s.children[1] == Child(7, false, {1}, false, false);
    assert !Awake(s, s.db[ENGINEER].pid);
  }

  /** A scan that opens the database serves every mark of its port, and closes just the marked connections. */
  lemma ScanServes(s: System, pid: nat)
    requires pid in s.children && s.children[pid].scanning
    ensures var t := ScanStep(s, pid, true);
            && Wanted(t.db, s.children[pid].port2) == {}
            && (forall k: Key :: k.port2 != s.children[pid].port2 ==> (k in t.db <==> k in s.db) && t.closes[k] == s.closes[k])
            && (pid in t.children ==> forall i <- s.children[pid].live ::
                  i in t.children[pid].live <==> !Marked(s, Key(s.children[pid].port2, i)))
            && (pid in t.children <==> !Marked(s, Key(s.children[pid].port2, 0)))
            && (forall k: Key :: k.port2 == s.children[pid].port2 ==>
                  t.closes[k] == s.closes[k] +
                    if Marked(s, k) && (k.index == 0 || k.index in s.children[pid].live) then 1 else 0)
  {
    var c := s.children[pid];
    assert forall k: Key :: k.port2 != c.port2 ==> k !in Hit(c, Wanted(s.db, c.port2));
  }

  /** A heartbeat of a port forgets exactly the marks of that port. */
  lemma HeartbeatForgetsExactly(s: System, n: nat, k: Key)
    requires n < |s.snapshots|
    ensures Marked(WriteStep(s, n), k) <==> Marked(s, k) && k.port2 != s.snapshots[n].port2
  {
    assert k in Rows(s.snapshots[n]) ==> k.port2 == s.snapshots[n].port2;
  }

  /** So does a purge, which leaves no record of its port and touches no other. */
  lemma PurgeForgetsExactly(s: System, port2: int)
    ensures PurgeStep(s, port2).db.Keys == set k <- s.db.Keys | k.port2 != port2
    ensures forall k <- PurgeStep(s, port2).db :: PurgeStep(s, port2).db[k] == s.db[k]
    ensures PurgeStep(s, port2).children == s.children && PurgeStep(s, port2).closes == s.closes
  {
  }

  /** A request marks the record and puts up the flag of the process that wrote it. */
  lemma RequestWakes(s: System, key: Key)
    requires key in s.db && s.db[key].pid > 0 && s.db[key].pid in s.children
    ensures var m := MarkStep(s, key);
            && Enabled(m, Signal(|s.owed|))
            && var t := SignalStep(m, |s.owed|);
               && t.db == s.db[key := Record(s.db[key].pid, true)] && key in t.signalled && t.closes == s.closes
               && t.children == s.children[s.db[key].pid := s.children[s.db[key].pid].(pending := true)]
  {
  }

  /** Once awake, the process closes the marked engineer, and its record is gone. */
  lemma AwakeServes(s: System, key: Key, pid: nat)
    requires Marked(s, key) && Enabled(s, Clear(pid)) && s.children[pid].port2 == key.port2
    requires key.index != 0 && key.index in s.children[pid].live && !Marked(s, Key(key.port2, 0))
    ensures var c := Next(s, Clear(pid));
            && Enabled(c, Scan(pid, true))
            && var t := Next(c, Scan(pid, true));
               && pid in t.children && key.index !in t.children[pid].live && key !in t.db
               && t.closes[key] == s.closes[key] + 1
  {
    var c := Next(s, Clear(pid));
    assert key in Hit(c.children[pid], Wanted(c.db, key.port2));
  }
}
