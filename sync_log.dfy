/**
 The `SyncLog` listener: the `syncmap` table as a field that its table
 operations change in place, and `update`, which reconciles one change event
 into it by a lookup followed by at most one delete and one insert.
 */
module SyncLogStore {
  import opened SyncTypes
  import opened Reconcile
  import opened Rows

  class SyncLog {
    /** The rows of the `syncmap` table. */
    var store: Table

    /**
     Opening the log: the table is created empty only when it does not exist
     yet (`persisted` is None); otherwise its rows are kept.
     */
    constructor (persisted: Option<Table>)
      ensures store == if persisted.None? then map[] else persisted.value
    {
      store := if persisted.None? then map[] else persisted.value;
    }

    /** `get`: the row for (id, type), or None when there is none. */
    method Get(id: int, objectType: ObjectType) returns (r: Option<SyncEvent>)
      ensures r.Some? <==> (id, objectType) in store
      ensures r.Some? ==> r.value == SyncEvent(id, store[(id, objectType)], objectType)
    {
      if (id, objectType) in store {
        r := Some(SyncEvent(id, store[(id, objectType)], objectType));
      } else {
        r := None;
      }
    }

    /**
     `insert`: add a row. When the table already holds a row for the key, the
     primary key rejects the insert (the source throws) and nothing changes.
     */
    method Insert(e: SyncEvent) returns (ok: bool)
      modifies this
      ensures ok <==> KeyOf(e) !in old(store)
      ensures store == if ok then old(store)[KeyOf(e) := e.action] else old(store)
    {
      ok := KeyOf(e) !in store;
      if ok {
        store := store[KeyOf(e) := e.action];
      }
    }

    /** `delete`: remove the row for (id, type), if any; every other row stays. */
    method Delete(id: int, objectType: ObjectType)
      modifies this
      ensures store == old(store) - {(id, objectType)}
    {
      store := store - {(id, objectType)};
    }

    /** `deleteAll`: remove every row, as after a completed sync. */
    method DeleteAll()
      modifies this
      ensures store == map[]
    {
      store := map[];
    }

    /**
     `getAll`: every row, once each, in no particular order. The rows have
     distinct keys and stand for exactly the table.
     */
    method GetAll() returns (rows: seq<SyncEvent>)
      ensures DistinctKeys(rows)
      ensures TableOf(rows) == store
      ensures |rows| == |store|
    {
      rows := [];
      var remaining := store.Keys;
      while remaining != {}
        invariant remaining <= store.Keys
        invariant DistinctKeys(rows)
        invariant forall i :: 0 <= i < |rows| ==> KeyOf(rows[i]) in store && KeyOf(rows[i]) !in remaining
        invariant TableOf(rows) == store - remaining
        invariant |rows| + |remaining| == |store|
        decreases remaining
      {
        var k :| k in remaining;
        var e := SyncEvent(k.0, store[k], k.1);
        TableOfAppend(rows, e);
        rows := rows + [e];
        remaining := remaining - {k};
      }
      assert store - {} == store;
    }

    /** The count reported by `getInfo`: the number of pending rows. */
    method Count() returns (n: nat)
      ensures n == |store|
      ensures n == 0 <==> store == map[]
    {
      var rows := GetAll();
      n := |rows|;
    }

    /**
     `importXml`: insert each row in order. The first insert that meets an
     existing key fails and ends the import (`ok` false), with the rows before
     it already inserted.
     */
    method ImportXml(rows: seq<SyncEvent>) returns (ok: bool)
      modifies this
      ensures LoadOutcome(store, ok) == BulkInsert(old(store), rows)
    {
      var i := 0;
      while i < |rows|
        invariant 0 <= i <= |rows|
        invariant BulkInsert(old(store), rows) == BulkInsert(store, rows[i..])
      {
        assert rows[i..][1..] == rows[i + 1..];
        var inserted := Insert(rows[i]);
        if !inserted {
          ok := false;
          return;
        }
        i := i + 1;
      }
      ok := true;
    }

    /**
     `update`: reconcile one change event. Null events, objects and actions and
     objects of an untracked class change nothing; otherwise the row for the
     object's key is looked up and inserted, removed or replaced by the merge
     rules. Every insert it makes is for a key that has no row at that point,
     so none of them can violate the primary key.
     */
    method Update(ev: Option<ChangeEvent>)
      modifies this
      ensures store == Reconciled(old(store), ev)
    {
      if ev.None? || ev.value.obj.None? || ev.value.action.None? {
        return;
      }
      var incoming := ev.value.action.value;
      var key := Classify(ev.value.obj.value);
      if key.None? {
        // the id is never set; the model assumes that nothing is written in this case
        return;
      }
      var id, objectType := key.value.0, key.value.1;
      var existing := Get(id, objectType);
      if existing.None? {
        var ok := Insert(SyncEvent(id, incoming, objectType));
        assert ok;
      } else if existing.value.action == Add && incoming == ChangeAction.Delete {
        Delete(id, objectType);
      } else if existing.value.action == Change && incoming == ChangeAction.Delete {
        Delete(id, objectType);
        var ok := Insert(SyncEvent(id, ChangeAction.Delete, objectType));
        assert ok;
      } else if existing.value.action == ChangeAction.Delete && incoming == Add {
        Delete(id, objectType);
        var ok := Insert(SyncEvent(id, Change, objectType));
        assert ok;
      }
    }
  }

  /**
   Export followed by import: the rows `getAll` lists, loaded into a freshly
   cleared log, rebuild the original table and every insert succeeds. The two
   logs may be the same object, as with the single shared log that exports,
   is cleared and re-imports into itself.
   */
  method ExportThenReimport(source: SyncLog, target: SyncLog) returns (ok: bool)
    modifies target
    ensures ok && target.store == source.store
    ensures source.store == old(source.store)
  {
    var rows := source.GetAll();
    target.DeleteAll();
    ExportImportRoundTrip(rows);
    ok := target.ImportXml(rows);
  }

  /** After `deleteAll`, `getAll` lists nothing and the count is 0. */
  method DeleteAllEmptiesLog(log: SyncLog) returns (rows: seq<SyncEvent>, n: nat)
    modifies log
    ensures rows == [] && n == 0 && log.store == map[]
  {
    log.DeleteAll();
    rows := log.GetAll();
    n := log.Count();
  }
}
