/** The shared connection records as one transaction changes them, proved against the steps of `Drops`. */
module ConnDb {
  import opened Bytes
  import opened Drops

  class Connections {
    var db: map<Key, Record>

    constructor ()
      ensures db == map[]
    {
      db := map[];
    }

    /** The web UI's transaction: marks the record and gives the process to signal, if there is one. */
    method FlipDropFlag(key: Key, ghost s: System) returns (pid: Option<nat>)
      requires s.db == db
      modifies this
      ensures db == MarkStep(s, key).db
      ensures MarkStep(s, key).owed == s.owed + if pid.Some? then [Owed(key, pid.value)] else []
    {
      if key !in db {
        return None;
      }
      var entry := db[key].(wanted := true);
      pid := if entry.pid > 0 then Some(entry.pid) else None;
      db := db[key := entry];
    }

    /** The marked indices of a port; records come out of the database in any order. */
    method Traverse(port2: int) returns (indices: seq<int>)
      ensures forall i, j :: 0 <= i < j < |indices| ==> indices[i] != indices[j]
      ensures forall i :: i in indices <==> Key(port2, i) in Wanted(db, port2)
    {
      indices := [];
      var left := db.Keys;
      while left != {}
        invariant left <= db.Keys
        invariant forall i, j :: 0 <= i < j < |indices| ==> indices[i] != indices[j]
        invariant forall i :: i in indices <==> Key(port2, i) in Wanted(db, port2) && Key(port2, i) !in left
        decreases |left|
      {
        var k :| k in left;
        left := left - {k};
        if k.port2 == port2 && db[k].wanted {
          assert k == Key(port2, k.index) && k.index !in indices;
          indices := indices + [k.index];
        }
      }
    }

    method DeleteAll(port2: int, indices: seq<int>)
      modifies this
      ensures db == old(db) - KeysOf(port2, indices)
    {
      assert KeysOf(port2, indices[..0]) == {};
      for i := 0 to |indices|
        invariant db == old(db) - KeysOf(port2, indices[..i])
      {
        KeysOfSnoc(port2, indices[..i], indices[i]);
        assert indices[..i + 1] == indices[..i] + [indices[i]];
        db := db - {Key(port2, indices[i])};
      }
      assert indices[..|indices|] == indices;
    }

    /** The scan's transaction: collects the marked indices of a port and deletes their records. */
    method CollectDrops(port2: int) returns (indices: seq<int>)
      modifies this
      ensures forall i, j :: 0 <= i < j < |indices| ==> indices[i] != indices[j]
      ensures forall i :: i in indices <==> Key(port2, i) in Wanted(old(db), port2)
      ensures db == old(db) - Wanted(old(db), port2)
    {
      indices := Traverse(port2);
      AllWanted(db, port2, indices);
      DeleteAll(port2, indices);
    }

    /** The heartbeat's transaction: all records of the port go, and the captured ones are written unmarked. */
    method WriteHeartbeat(h: Snapshot)
      modifies this
      ensures db == (old(db) - Of(old(db), h.port2)) + Rows(h)
    {
      db := db - Of(db, h.port2);
      var left := h.rows;
      ghost var kept := db;
      while left != {}
        invariant left <= h.rows && db == kept + Rows(h.(rows := h.rows - left))
        decreases |left|
      {
        NonEmpty(left);
        var i :| i in left;
        ghost var before := h.rows - left;
        left := left - {i};
        RowsMore(h, before, i);
        assert h.rows - left == before + {i};
        db := db[Key(h.port2, i) := Record(h.pid, false)];
      }
    }
  }

  function KeysOf(port2: int, indices: seq<int>): set<Key> {
    set i <- indices :: Key(port2, i)
  }

  lemma KeysOfSnoc(port2: int, indices: seq<int>, i: int)
    ensures KeysOf(port2, indices + [i]) == KeysOf(port2, indices) + {Key(port2, i)}
  {
  }

  lemma AllWanted(db: map<Key, Record>, port2: int, indices: seq<int>)
    requires forall i :: i in indices <==> Key(port2, i) in Wanted(db, port2)
    ensures KeysOf(port2, indices) == Wanted(db, port2)
  {
    forall k <- Wanted(db, port2) ensures k in KeysOf(port2, indices) {
      assert k == Key(port2, k.index) && k.index in indices;
    }
  }

  lemma RowsMore(h: Snapshot, rows: set<int>, i: int)
    ensures Rows(h.(rows := rows + {i})) == Rows(h.(rows := rows))[Key(h.port2, i) := Record(h.pid, false)]
  {
  }
}
