/** The registry as requests change it: each request is one transaction that commits as a whole or not at all. */
module RegistryDb {
  import opened Bytes
  import opened Registry

  class Database {
    var records: Db

    constructor (initial: Db)
      ensures records == initial
    {
      records := initial;
    }

    /** The second ports of all entries in increasing order; records come out of the database in any order. */
    method ListEntries() returns (keys: seq<int>)
      ensures forall i, j :: 0 <= i < j < |keys| ==> keys[i] < keys[j]
      ensures forall k :: k in keys <==> k in Valid(records)
    {
      keys := [];
      var left := records.Keys;
      while left != {}
        invariant left <= records.Keys
        invariant forall i, j :: 0 <= i < j < |keys| ==> keys[i] < keys[j]
        invariant forall k :: k in keys <==> k in Valid(records) && k !in left
        decreases |left|
      {
        NonEmpty(left);
        var k :| k in left;
        left := left - {k};
        if records[k].magic {
          keys := SortIn(keys, k);
        }
      }
    }

    method GetPortSets() returns (ports1: set<int>, ports2: set<int>)
      ensures ports1 == Ports1(records) && ports2 == Valid(records)
    {
      ports1, ports2 := {}, {};
      var keys := ListEntries();
      for i := 0 to |keys|
        invariant ports2 == set k <- keys[..i]
        invariant ports1 == set k <- keys[..i] | k in records :: records[k].port1
      {
        assert keys[i] in keys && keys[..i + 1] == keys[..i] + [keys[i]];
        ports1, ports2 := ports1 + {records[keys[i]].port1}, ports2 + {keys[i]};
      }
      assert keys[..|keys|] == keys;
      assert forall k :: k in ports2 <==> k in Valid(records);
    }

    method CountAdmins() returns (n: nat)
      ensures n == |Admins(records)|
    {
      n := 0;
      var keys := ListEntries();
      for i := 0 to |keys|
        invariant n == |AdminsAmong(keys[..i], records)|
      {
        assert keys[i] in keys && keys[i] !in keys[..i] && keys[..i + 1] == keys[..i] + [keys[i]];
        AdminsAmongSnoc(keys[..i], keys[i], records);
        if Admin in records[keys[i]].flags {
          n := n + 1;
        }
      }
      assert keys[..|keys|] == keys;
      assert forall k :: k in AdminsAmong(keys, records) <==> k in Admins(records);
      assert AdminsAmong(keys, records) == Admins(records);
    }

    /** Second ports first, then the first entry in order with this first port. */
    method FindByPort(port: int) returns (found: Option<int>)
      ensures found == Registry.FindByPort(records, port)
    {
      if port in records && records[port].magic {
        return Some(port);
      }
      var keys := ListEntries();
      ghost var owners := set k <- Valid(records) | records[k].port1 == port;
      for i := 0 to |keys|
        invariant forall j :: 0 <= j < i ==> keys[j] !in owners
      {
        assert keys[i] in keys;
        if records[keys[i]].port1 == port {
          assert forall k <- owners :: k in keys;
          IsLeast(owners, keys[i]);
          return Some(keys[i]);
        }
      }
      assert forall k <- owners :: k in keys;
      assert owners == {} by { NonEmpty(owners); }
      return None;
    }

    method Add(p: Plan, passphrase: string) returns (ok: bool)
      modifies this
      ensures ok <==> AddEntry(old(records), p, passphrase).Some?
      ensures records == if ok then AddEntry(old(records), p, passphrase).value else old(records)
    {
      var ports1, ports2 := GetPortSets();
      if p.port1 in ports1 || p.port1 in ports2 {
        return false;
      }
      if p.port2 in ports2 || p.port2 in ports1 {
        return false;
      }
      records := records[p.port2 := Fresh(p, passphrase)];
      return true;
    }

    /** Adds the planned pairs one after the other; a conflict on any of them rolls the batch back. */
    method AddPlan(plan: seq<Plan>, passphrase: string) returns (ok: bool)
      modifies this
      ensures ok <==> AddAll(old(records), plan, passphrase).Some?
      ensures records == if ok then AddAll(old(records), plan, passphrase).value else old(records)
    {
      hide AddEntry;
      var before := records;
      for i := 0 to |plan|
        invariant AddAll(records, plan[i..], passphrase) == AddAll(old(records), plan, passphrase)
      {
        assert plan[i..][0] == plan[i] && plan[i..][1..] == plan[i + 1..];
        ok := Add(plan[i], passphrase);
        if !ok {
          records := before;
          return false;
        }
      }
      return true;
    }

    /** The admin's add request. */
    method AddRequest(form: AddForm) returns (ok: bool)
      modifies this
      ensures ok <==> AddBatch(old(records), form).Some?
      ensures records == if ok then AddBatch(old(records), form).value else old(records)
    {
      hide AddAll, Planned;
      var plan := Planned(form);
      for i := 0 to |plan|
        invariant forall j :: 0 <= j < i ==> InRange(plan[j].port1) && InRange(plan[j].port2)
      {
        if !(10000 <= plan[i].port1 <= 60000) || !(10000 <= plan[i].port2 <= 60000) {
          return false;
        }
      }
      ok := AddPlan(plan, form.passphrase);
    }

    /** The admin's edit request. */
    method EditRequest(port2: int, form: EditForm) returns (outcome: Outcome)
      modifies this
      ensures (outcome, records) == Edit(old(records), port2, form)
    {
      if port2 !in records || !records[port2].magic {
        return NotFound;
      }
      var e := records[port2];
      var admins := CountAdmins();
      if Admin in e.flags && !form.admin && admins <= 1 {
        return LastAdmin;
      }
      e := e.(name := form.name);
      if form.port1 != e.port1 {
        var ports1, ports2 := GetPortSets();
        ports1 := ports1 - {e.port1};
        if form.port1 in ports1 || form.port1 in ports2 {
          return PortInUse;
        }
        e := e.(port1 := form.port1);
      }
      e := Apply(e, form);
      records := records[port2 := e];
      return Done;
    }

    /** The admin's delete request. */
    method DeleteRequest(port2: int) returns (outcome: Outcome)
      modifies this
      ensures (outcome, records) == Delete(old(records), port2)
    {
      if port2 !in records || !records[port2].magic {
        return NotFound;
      }
      var admins := CountAdmins();
      if Admin in records[port2].flags && admins <= 1 {
        return LastAdmin;
      }
      records := records - {port2};
      return Done;
    }
  }

  method SortIn(keys: seq<int>, k: int) returns (r: seq<int>)
    requires (forall i, j :: 0 <= i < j < |keys| ==> keys[i] < keys[j]) && k !in keys
    ensures forall i, j :: 0 <= i < j < |r| ==> r[i] < r[j]
    ensures forall x :: x in r <==> x in keys || x == k
  {
    var at := 0;
    while at < |keys| && keys[at] < k
      invariant at <= |keys| && forall j :: 0 <= j < at ==> keys[j] < k
    {
      at := at + 1;
    }
    r := keys[..at] + [k] + keys[at..];
    assert forall x :: x in keys <==> x in keys[..at] || x in keys[at..];
  }

  method ApplyFlags(before: set<Flag>, form: EditForm) returns (flags: set<Flag>)
    ensures flags == EditedFlags(before, form)
  {
    flags := before;
    if form.admin {
      flags := flags + {Admin};
    } else {
      flags := flags - {Admin};
    }
    if form.bidiSign {
      flags := flags + {BidiSign};
    } else {
      flags := flags - {BidiSign};
    }
    if form.tlog {
      flags := flags + {Tlog};
    } else {
      flags := flags - {Tlog};
    }
    if form.binlog {
      flags := flags + {Binlog};
    } else {
      flags := flags - {Binlog};
    }
  }

  /** The fields of the form beside the first port, set one after the other. */
  method Apply(entry: Entry, form: EditForm) returns (e: Entry)
    requires entry.name == form.name && entry.port1 == form.port1
    ensures e == Edited(entry, form)
  {
    hide EditedFlags;
    e := entry;
    if form.passphrase != "" {
      e := e.(passphrase := form.passphrase);
    }
    var wasTlog, wasBinlog := Tlog in e.flags, Binlog in e.flags;
    var flags := ApplyFlags(e.flags, form);
    e := e.(flags := flags);
    if form.retention.Some? {
      e := e.(retention := form.retention.value);
    }
    var justEnabled := (form.tlog && !wasTlog) || (form.binlog && !wasBinlog);
    if justEnabled && e.retention == 0.0 && (form.retention.None? || form.retention.value == 0.0) {
      e := e.(retention := DEFAULT_LOG_RETENTION_DAYS);
    }
    if form.fcSysid.Some? {
      e := e.(fcSysid := form.fcSysid.value);
    }
    if form.resetTimestamp {
      e := e.(timestamp := 0);
    }
  }

  function AdminsAmong(keys: seq<int>, db: Db): set<int> {
    set k <- keys | k in db && Admin in db[k].flags
  }

  lemma AdminsAmongSnoc(keys: seq<int>, k: int, db: Db)
    requires k !in keys && k in db
    ensures |AdminsAmong(keys + [k], db)| == |AdminsAmong(keys, db)| + if Admin in db[k].flags then 1 else 0
  {
    assert AdminsAmong(keys + [k], db) == AdminsAmong(keys, db) + if Admin in db[k].flags then {k} else {};
  }

  lemma IsLeast(s: set<int>, m: int)
    requires m in s && forall x <- s :: m <= x
    ensures Least(s) == m
  {
  }
}
