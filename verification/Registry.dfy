/**
 The registry of port pairs: a database of entries keyed by their second port, changed by the web UI's add,
 edit and delete requests, each one transaction.
 */
module Registry {
  import opened Bytes

  datatype Flag = Admin | BidiSign | Tlog | Binlog | Unknown(bit: nat)

  const DEFAULT_LOG_RETENTION_DAYS: real := 7.0
  const MAX_ADD_COUNT: nat := 50

  /** A record; one without the magic number is ignored. `passphrase` stands for its hash. */
  datatype Entry = Entry(magic: bool, port1: int, name: string, passphrase: string, timestamp: nat,
                         flags: set<Flag>, retention: real, fcSysid: nat)

  type Db = map<int, Entry>

  // ---------------------------------------------------------------- reading

  function Valid(db: Db): set<int> {
    set k <- db.Keys | db[k].magic
  }

  function Ports1(db: Db): set<int> {
    set k <- Valid(db) :: db[k].port1
  }

  function Admins(db: Db): set<int> {
    set k <- Valid(db) | Admin in db[k].flags
  }

  /** The entry under second port `k` uses `port`, as its first or its second one. */
  predicate Uses(db: Db, k: int, port: int) {
    k in db && db[k].magic && (k == port || db[k].port1 == port)
  }

  predicate Taken(db: Db, port: int) {
    port in Ports1(db) || port in Valid(db)
  }

  // ---------------------------------------------------------------- adding

  datatype Plan = Plan(port1: int, port2: int, name: string)

  function Fresh(p: Plan, passphrase: string): Entry {
    Entry(true, p.port1, p.name, passphrase, 0, {}, 0.0, 0)
  }

  function AddEntry(db: Db, p: Plan, passphrase: string): Option<Db> {
    if Taken(db, p.port1) || Taken(db, p.port2) then None else Some(db[p.port2 := Fresh(p, passphrase)])
  }

  function AddAll(db: Db, plan: seq<Plan>, passphrase: string): Option<Db>
    decreases |plan|
  {
    if plan == [] then Some(db)
    else
      var next := AddEntry(db, plan[0], passphrase);
      if next.None? then None else AddAll(next.value, plan[1..], passphrase)
  }

  predicate InRange(port: int) {
    10000 <= port <= 60000
  }

  predicate AllInRange(plan: seq<Plan>) {
    forall i :: 0 <= i < |plan| ==> InRange(plan[i].port1) && InRange(plan[i].port2)
  }

  datatype AddForm = AddForm(port1: int, port2: int, count: nat, name: string, passphrase: string)

  function Decimal(n: nat): string {
    (if n < 10 then "" else Decimal(n / 10)) + [('0' as int + n % 10) as char]
  }

  /** One pair as given, also for a missing count, or consecutive first ports with second ports one thousand above. */
  function Planned(form: AddForm): seq<Plan> {
    if form.count <= 1 then [Plan(form.port1, form.port2, form.name)]
    else seq(form.count, i requires 0 <= i => Plan(form.port1 + i, form.port1 + i + 1000, form.name + Decimal(i + 1)))
  }

  /** The whole batch or nothing. */
  function AddBatch(db: Db, form: AddForm): Option<Db> {
    var plan := Planned(form);
    if AllInRange(plan) then AddAll(db, plan, form.passphrase) else None
  }

  // ---------------------------------------------------------------- editing and deleting

  datatype EditForm = EditForm(name: string, port1: int, passphrase: string, admin: bool, bidiSign: bool, tlog: bool,
                               binlog: bool, retention: Option<real>, fcSysid: Option<nat>, resetTimestamp: bool)

  datatype Outcome = Done | NotFound | LastAdmin | PortInUse

  function SetFlag(flags: set<Flag>, flag: Flag, on: bool): set<Flag> {
    if on then flags + {flag} else flags - {flag}
  }

  /** Recording that is switched on without a retention gets the default one. */
  function NewRetention(e: Entry, form: EditForm): real {
    var kept := if form.retention.Some? then form.retention.value else e.retention;
    var enabled := (form.tlog && Tlog !in e.flags) || (form.binlog && Binlog !in e.flags);
    if enabled && kept == 0.0 then DEFAULT_LOG_RETENTION_DAYS else kept
  }

  /** The four known flags are those of the form; unknown ones stay. */
  function EditedFlags(flags: set<Flag>, form: EditForm): set<Flag> {
    SetFlag(SetFlag(SetFlag(SetFlag(flags, Admin, form.admin), BidiSign, form.bidiSign), Tlog, form.tlog),
            Binlog, form.binlog)
  }

  function Edited(e: Entry, form: EditForm): Entry {
    Entry(e.magic, form.port1, form.name, if form.passphrase != "" then form.passphrase else e.passphrase,
          if form.resetTimestamp then 0 else e.timestamp,
          EditedFlags(e.flags, form),
          NewRetention(e, form), if form.fcSysid.Some? then form.fcSysid.value else e.fcSysid)
  }

  function Edit(db: Db, port2: int, form: EditForm): (Outcome, Db) {
    if port2 !in Valid(db) then (NotFound, db)
    else
      var e := db[port2];
      if port2 in Admins(db) && !form.admin && |Admins(db)| <= 1 then (LastAdmin, db)
      else if form.port1 != e.port1 && (form.port1 in Ports1(db) - {e.port1} || form.port1 in Valid(db)) then (PortInUse, db)
      else (Done, db[port2 := Edited(e, form)])
  }

  function Delete(db: Db, port2: int): (Outcome, Db) {
    if port2 !in Valid(db) then (NotFound, db)
    else if port2 in Admins(db) && |Admins(db)| <= 1 then (LastAdmin, db)
    else (Done, db - {port2})
  }

  // ---------------------------------------------------------------- runs

  datatype Request = Adding(add: AddForm) | Editing(port2: int, edit: EditForm) | Deleting(port2: int)

  function Serve(db: Db, r: Request): Db {
    match r
    case Adding(form) => (var t := AddBatch(db, form); if t.Some? then t.value else db)
    case Editing(port2, form) => Edit(db, port2, form).1
    case Deleting(port2) => Delete(db, port2).1
  }

  function Run(db: Db, requests: seq<Request>): Db
    decreases |requests|
  {
    if requests == [] then db else Run(Serve(db, requests[0]), requests[1..])
  }

  // ---------------------------------------------------------------- ports stay disjoint

  /** No port is used by two entries; an entry may use one port twice. */
  ghost predicate Disjoint(db: Db) {
    forall a, b, port :: Uses(db, a, port) && Uses(db, b, port) ==> a == b
  }

  lemma TakenIsUsed(db: Db, port: int)
    ensures Taken(db, port) <==> exists k :: Uses(db, k, port)
  {
    if Taken(db, port) {
      if port in Ports1(db) {
        var k :| k in Valid(db) && db[k].port1 == port;
        assert Uses(db, k, port);
      } else {
        assert Uses(db, port, port);
      }
    }
  }

  lemma AddEntryDisjoint(db: Db, p: Plan, passphrase: string)
    requires Disjoint(db) && AddEntry(db, p, passphrase).Some?
    ensures Disjoint(AddEntry(db, p, passphrase).value)
  {
    var t := AddEntry(db, p, passphrase).value;
    TakenIsUsed(db, p.port1);
    TakenIsUsed(db, p.port2);
    assert forall k, port :: k != p.port2 ==> (Uses(t, k, port) <==> Uses(db, k, port));
    assert forall port :: Uses(t, p.port2, port) ==> port == p.port1 || port == p.port2;
  }

  lemma {:induction false} AddAllDisjoint(db: Db, plan: seq<Plan>, passphrase: string)
    requires Disjoint(db) && AddAll(db, plan, passphrase).Some?
    ensures Disjoint(AddAll(db, plan, passphrase).value)
    decreases |plan|
  {
    hide Disjoint, AddEntry;
    if plan != [] {
      AddEntryDisjoint(db, plan[0], passphrase);
      AddAllDisjoint(AddEntry(db, plan[0], passphrase).value, plan[1..], passphrase);
    }
  }

  lemma EditDisjoint(db: Db, port2: int, form: EditForm)
    requires Disjoint(db)
    ensures Disjoint(Edit(db, port2, form).1)
  {
    var (outcome, t) := Edit(db, port2, form);
    if outcome == Done {
      forall a, b, port | Uses(t, a, port) && Uses(t, b, port) ensures a == b {
        if a == b {
        } else if a == port2 && port == form.port1 {
          NewPortFree(db, port2, form, b);
        } else if b == port2 && port == form.port1 {
          NewPortFree(db, port2, form, a);
        } else {
          assert Uses(db, a, port) && Uses(db, b, port);
        }
      }
    }
  }

  lemma NewPortFree(db: Db, port2: int, form: EditForm, other: int)
    requires Disjoint(db) && Edit(db, port2, form).0 == Done && other != port2
    ensures !Uses(db, other, form.port1)
  {
    var e := db[port2];
    assert Uses(db, port2, e.port1);
    assert forall k <- Valid(db) :: db[k].port1 in Ports1(db);
  }

  lemma ServeDisjoint(db: Db, r: Request)
    requires Disjoint(db)
    ensures Disjoint(Serve(db, r))
  {
    match r
    case Adding(form) =>
      if AddBatch(db, form).Some? {
        AddAllDisjoint(db, Planned(form), form.passphrase);
      }
    case Editing(port2, form) => EditDisjoint(db, port2, form);
    case Deleting(port2) =>
      assert forall k, port :: Uses(Serve(db, r), k, port) ==> Uses(db, k, port);
  }

  // ---------------------------------------------------------------- an administrator remains

  lemma {:induction false} AddAllKeeps(db: Db, plan: seq<Plan>, passphrase: string)
    requires AddAll(db, plan, passphrase).Some?
    ensures var t := AddAll(db, plan, passphrase).value;
            forall k <- Valid(db) :: k in t && t[k] == db[k]
    decreases |plan|
  {
    if plan != [] {
      AddAllKeeps(AddEntry(db, plan[0], passphrase).value, plan[1..], passphrase);
    }
  }

  lemma TwoMembers(s: set<int>, x: int)
    requires x in s
    ensures |s| <= 1 || exists y :: y in s && y != x
  {
    if forall y <- s :: y == x {
      assert s == {x};
    }
  }

  lemma ServeKeepsAdmin(db: Db, r: Request)
    requires Admins(db) != {}
    ensures Admins(Serve(db, r)) != {}
  {
    var t := Serve(db, r);
    NonEmpty(Admins(db));
    var a :| a in Admins(db);
    match r
    case Adding(form) =>
      if AddBatch(db, form).Some? {
        AddAllKeeps(db, Planned(form), form.passphrase);
        assert a in Admins(t);
      }
    case Editing(port2, form) =>
      if port2 == a && Edit(db, port2, form).0 == Done && !form.admin {
        TwoMembers(Admins(db), a);
        var b :| b in Admins(db) && b != a;
        assert b in Admins(t);
      } else {
        assert a in Admins(t);
      }
    case Deleting(port2) =>
      if port2 == a && Delete(db, port2).0 == Done {
        TwoMembers(Admins(db), a);
        var b :| b in Admins(db) && b != a;
        assert b in Admins(t);
      } else {
        assert a in Admins(t);
      }
  }

  /** Over any run of requests no two entries come to share a port, and the last administrator stays. */
  lemma {:induction false} RunKeeps(db: Db, requests: seq<Request>)
    ensures Disjoint(db) ==> Disjoint(Run(db, requests))
    ensures Admins(db) != {} ==> Admins(Run(db, requests)) != {}
    decreases |requests|
  {
    hide Disjoint, Serve, Admins;
    if requests != [] {
      if Disjoint(db) {
        ServeDisjoint(db, requests[0]);
      }
      if Admins(db) != {} {
        ServeKeepsAdmin(db, requests[0]);
      }
      RunKeeps(Serve(db, requests[0]), requests[1..]);
    }
  }

  // ---------------------------------------------------------------- a batch is added whole or not at all

  predicate Overlap(a: Plan, b: Plan) {
    a.port1 == b.port1 || a.port1 == b.port2 || a.port2 == b.port1 || a.port2 == b.port2
  }

  /** No port of the plan is in use, and no two pairs of it share one. */
  ghost predicate Free(db: Db, plan: seq<Plan>) {
    && (forall i :: 0 <= i < |plan| ==> !Taken(db, plan[i].port1) && !Taken(db, plan[i].port2))
    && (forall i, j :: 0 <= i < j < |plan| ==> !Overlap(plan[i], plan[j]))
  }

  lemma TakenAfter(db: Db, p: Plan, passphrase: string, port: int)
    requires AddEntry(db, p, passphrase).Some?
    ensures Taken(AddEntry(db, p, passphrase).value, port) <==> Taken(db, port) || port == p.port1 || port == p.port2
  {
    var t := AddEntry(db, p, passphrase).value;
    assert forall k :: k != p.port2 ==> (k in Valid(t) <==> k in Valid(db));
    TakenIsUsed(db, port);
    TakenIsUsed(t, port);
    assert forall k :: Uses(t, k, port) <==> Uses(db, k, port) || (k == p.port2 && (port == p.port1 || port == p.port2));
  }

  lemma FreeStep(db: Db, plan: seq<Plan>, passphrase: string)
    requires plan != []
    ensures Free(db, plan) <==>
            && AddEntry(db, plan[0], passphrase).Some?
            && Free(AddEntry(db, plan[0], passphrase).value, plan[1..])
  {
    var p, rest := plan[0], plan[1..];
    if AddEntry(db, p, passphrase).Some? {
      forall port {
        TakenAfter(db, p, passphrase, port);
      }
      var t := AddEntry(db, p, passphrase).value;
      if Free(t, rest) {
        forall i, j | 0 <= i < j < |plan| ensures !Overlap(plan[i], plan[j]) {
          assert plan[j] == rest[j - 1];
          if i > 0 {
            assert plan[i] == rest[i - 1];
          }
        }
        forall i | 0 < i < |plan| ensures !Taken(db, plan[i].port1) && !Taken(db, plan[i].port2) {
          assert plan[i] == rest[i - 1];
        }
      }
      if Free(db, plan) {
        forall i | 0 <= i < |rest| ensures !Taken(t, rest[i].port1) && !Taken(t, rest[i].port2) {
          assert !Overlap(plan[0], plan[i + 1]);
        }
      }
    } else {
      assert Taken(db, p.port1) || Taken(db, p.port2);
    }
  }

  /** A plan is added exactly when all its ports are free and its pairs share none. */
  lemma {:induction false} AddedExactlyWhen(db: Db, plan: seq<Plan>, passphrase: string)
    ensures AddAll(db, plan, passphrase).Some? <==> Free(db, plan)
    decreases |plan|
  {
    hide AddEntry, Free;
    if plan == [] {
      FreeNothing(db);
    } else {
      FreeStep(db, plan, passphrase);
      if AddEntry(db, plan[0], passphrase).Some? {
        AddedExactlyWhen(AddEntry(db, plan[0], passphrase).value, plan[1..], passphrase);
      }
    }
  }

  lemma FreeNothing(db: Db)
    ensures Free(db, [])
  {
  }

  /** What a successful batch adds: exactly the planned pairs, and nothing else changes. */
  lemma {:induction false} AddedContents(db: Db, plan: seq<Plan>, passphrase: string)
    requires AddAll(db, plan, passphrase).Some?
    ensures var t := AddAll(db, plan, passphrase).value;
            && (forall p <- plan :: p.port2 in t && t[p.port2] == Entry(true, p.port1, p.name, passphrase, 0, {}, 0.0, 0))
            && (forall k :: (forall p <- plan :: p.port2 != k) ==> (k in t <==> k in db) && (k in db ==> t[k] == db[k]))
    decreases |plan|
  {
    if plan != [] {
      var p, rest := plan[0], plan[1..];
      var next := AddEntry(db, p, passphrase).value;
      AddedContents(next, rest, passphrase);
      AddAllKeeps(next, rest, passphrase);
      assert plan == [p] + rest;
      assert p.port2 in Valid(next);
    }
  }

  /** What the digits of a number say. */
  function Number(digits: string): int {
    if digits == "" then 0 else 10 * Number(digits[..|digits| - 1]) + (digits[|digits| - 1] as int - '0' as int)
  }

  lemma {:induction false} DecimalReadsBack(n: nat)
    ensures Decimal(n) != "" && Number(Decimal(n)) == n
    ensures forall c <- Decimal(n) :: '0' <= c <= '9'
  {
    var head, last := if n < 10 then "" else Decimal(n / 10), ('0' as int + n % 10) as char;
    if n >= 10 {
      DecimalReadsBack(n / 10);
    }
    assert Decimal(n) == head + [last];
    assert (head + [last])[..|head|] == head;
  }

  /**
   A batch is added exactly when all the ports it derives lie in 10000 to 60000, none is in use and no two pairs
   share one. Pair `i` of several has first port and second port `i` and `1000 + i` above the form's first port.
   */
  lemma BatchAddedExactlyWhen(db: Db, form: AddForm)
    ensures var n := Max(form.count, 1);
            && |Planned(form)| == n
            && (forall i :: 0 <= i < n ==>
                  Planned(form)[i] == if n == 1 then Plan(form.port1, form.port2, form.name)
                                      else Plan(form.port1 + i, form.port1 + i + 1000, form.name + Decimal(i + 1)))
            && (AddBatch(db, form).Some? <==>
                  && Free(db, Planned(form))
                  && forall i :: 0 <= i < n ==>
                       10000 <= Planned(form)[i].port1 <= 60000 && 10000 <= Planned(form)[i].port2 <= 60000)
  {
    AddedExactlyWhen(db, Planned(form), form.passphrase);
    hide Free, AddAll;
  }

  /** The pairs that the form derives never collide with each other, up to the largest batch it takes. */
  lemma DerivedPairsDistinct(form: AddForm)
    requires form.count <= MAX_ADD_COUNT
    ensures var plan := Planned(form); forall i, j :: 0 <= i < j < |plan| ==> !Overlap(plan[i], plan[j])
  {
  }

  // ---------------------------------------------------------------- what an edit changes

  /** An accepted edit grants or takes what the form says, keeps unknown flags, and changes no other record. */
  lemma EditEffect(db: Db, port2: int, form: EditForm)
    requires Edit(db, port2, form).0 == Done
    ensures var t := Edit(db, port2, form).1;
            && t.Keys == db.Keys && Valid(t) == Valid(db)
            && (forall k <- db :: k != port2 ==> t[k] == db[k])
            && Admins(t) == (if form.admin then Admins(db) + {port2} else Admins(db) - {port2})
            && (forall bit: nat :: Unknown(bit) in t[port2].flags <==> Unknown(bit) in db[port2].flags)
            && (Tlog in t[port2].flags <==> form.tlog) && (Binlog in t[port2].flags <==> form.binlog)
            && (BidiSign in t[port2].flags <==> form.bidiSign)
    ensures var before, after := db[port2], Edit(db, port2, form).1[port2];
            && after.name == form.name && after.port1 == form.port1
            && after.passphrase == (if form.passphrase == "" then before.passphrase else form.passphrase)
            && after.timestamp == (if form.resetTimestamp then 0 else before.timestamp)
            && after.fcSysid == if form.fcSysid.None? then before.fcSysid else form.fcSysid.value
  {
    var t := Edit(db, port2, form).1;
    assert forall k :: k in Admins(t) <==> (if k == port2 then form.admin else k in Admins(db));
  }

  /**
   An edit is accepted exactly when the record exists, the last administrator stays one, and a changed first port
   is in use nowhere, not even as the record's own second port.
   */
  lemma EditedExactlyWhen(db: Db, port2: int, form: EditForm)
    ensures Edit(db, port2, form).0 == Done <==>
            && port2 in db && db[port2].magic
            && (form.admin || Admins(db) != {port2})
            && (form.port1 == db[port2].port1 || forall k :: !Uses(db, k, form.port1))
    ensures Edit(db, port2, form).0 != Done ==> Edit(db, port2, form).1 == db
  {
    TakenIsUsed(db, form.port1);
    LastMember(Admins(db), port2);
  }

  lemma LastMember(s: set<int>, x: int)
    ensures s == {x} <==> x in s && |s| <= 1
  {
    if x in s {
      assert |s| == 1 + |s - {x}|;
      assert s - {x} == {} ==> s == {x};
    }
  }

  /** A record is deleted exactly when it exists and is not that of the last administrator; no other is touched. */
  lemma DeletedExactlyWhen(db: Db, port2: int)
    ensures var (outcome, t) := Delete(db, port2);
            && (outcome == Done <==> port2 in db && db[port2].magic && Admins(db) != {port2})
            && t.Keys == (if outcome == Done then db.Keys - {port2} else db.Keys)
            && forall k <- t :: t[k] == db[k]
  {
    LastMember(Admins(db), port2);
  }

  /** Switching a recording on never leaves the entry with logs kept forever; otherwise the form or the old value holds. */
  lemma RetentionAfterEdit(e: Entry, form: EditForm)
    ensures var t := Edited(e, form);
            && ((Tlog in t.flags && Tlog !in e.flags) || (Binlog in t.flags && Binlog !in e.flags) ==> t.retention != 0.0)
            && (t.retention == 0.0 <==>
                  && (if form.retention.Some? then form.retention.value == 0.0 else e.retention == 0.0)
                  && (Tlog in t.flags ==> Tlog in e.flags) && (Binlog in t.flags ==> Binlog in e.flags))
            && (var asked := if form.retention.Some? then form.retention.value else e.retention;
                t.retention != asked ==> asked == 0.0 && t.retention == 7.0)
  {
  }

  // ---------------------------------------------------------------- looking a port up

  function Least(s: set<int>): (m: int)
    requires s != {}
    ensures m in s && forall x <- s :: m <= x
  {
    LeastExists(s);
    var m :| m in s && forall x <- s :: m <= x;
    m
  }

  lemma LeastExists(s: set<int>)
    requires s != {}
    ensures exists m <- s :: forall x <- s :: m <= x
    decreases |s|
  {
    NonEmpty(s);
    var y :| y in s;
    if s - {y} == {} {
      assert forall x <- s :: x in s - {y} || y <= x;
    } else {
      LeastExists(s - {y});
      var m :| m in s - {y} && forall x <- s - {y} :: m <= x;
      var best := if m <= y then m else y;
      assert forall x <- s :: x == y || x in s - {y};
      assert best in s && forall x <- s :: best <= x;
    }
  }

  /** The entry with this second port, or else the first in order of second ports with this first port. */
  function FindByPort(db: Db, port: int): Option<int> {
    if port in Valid(db) then Some(port)
    else
      var owners := set k <- Valid(db) | db[k].port1 == port;
      if owners == {} then None else Some(Least(owners))
  }

  /** A lookup finds the one entry that uses the port, and fails exactly when there is none. */
  lemma FindsOwner(db: Db, port: int)
    requires Disjoint(db)
    ensures forall k :: FindByPort(db, port) == Some(k) <==> Uses(db, k, port)
    ensures FindByPort(db, port) == None <==> !Taken(db, port)
  {
    TakenIsUsed(db, port);
    var owners := set k <- Valid(db) | db[k].port1 == port;
    assert forall k :: Uses(db, k, port) <==> (k == port && k in Valid(db)) || k in owners;
    if FindByPort(db, port).Some? {
      assert Uses(db, FindByPort(db, port).value, port);
    }
  }
}
