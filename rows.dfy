/**
 Lists of `syncmap` rows, as `getAll` returns them for export and as
 `importXml` loads them back, and the table such a list stands for.
 */
module Rows {
  import opened SyncTypes

  /** No two rows of the list share a key. */
  predicate DistinctKeys(rows: seq<SyncEvent>)
  {
    forall i, j :: 0 <= i < j < |rows| ==> KeyOf(rows[i]) != KeyOf(rows[j])
  }

  /** The table a list of rows stands for (for a repeated key, the first row wins). */
  function TableOf(rows: seq<SyncEvent>): Table
    decreases |rows|
  {
    if rows == [] then map[] else TableOf(rows[1..])[KeyOf(rows[0]) := rows[0].action]
  }

  /** The outcome of a bulk load: the table as left, and whether every insert succeeded. */
  datatype LoadOutcome = LoadOutcome(table: Table, ok: bool)

  /**
   `importXml`: insert the rows in order. An insert for a key the table
   already holds violates the primary key and throws, which ends the import
   with the rows before it in place.
   */
  function BulkInsert(t: Table, rows: seq<SyncEvent>): LoadOutcome
    decreases |rows|
  {
    if rows == [] then LoadOutcome(t, true)
    else if KeyOf(rows[0]) in t then LoadOutcome(t, false)
    else BulkInsert(t[KeyOf(rows[0]) := rows[0].action], rows[1..])
  }

  /** The keys of the table a list stands for are exactly the keys of its rows. */
  lemma {:induction false} TableOfKeys(rows: seq<SyncEvent>, k: Key)
    ensures k in TableOf(rows) <==> exists i :: 0 <= i < |rows| && KeyOf(rows[i]) == k
    decreases |rows|
  {
    if rows != [] {
      TableOfKeys(rows[1..], k);
      if k in TableOf(rows[1..]) {
        var i :| 0 <= i < |rows[1..]| && KeyOf(rows[1..][i]) == k;
        assert KeyOf(rows[i + 1]) == k;
      }
      if exists i :: 0 <= i < |rows| && KeyOf(rows[i]) == k {
        var i :| 0 <= i < |rows| && KeyOf(rows[i]) == k;
        if i > 0 {
          assert KeyOf(rows[1..][i - 1]) == k;
        }
      }
    }
  }

  /** Appending a row with a new key adds just that row to the table. */
  lemma {:induction false} TableOfAppend(rows: seq<SyncEvent>, e: SyncEvent)
    requires forall i :: 0 <= i < |rows| ==> KeyOf(rows[i]) != KeyOf(e)
    ensures TableOf(rows + [e]) == TableOf(rows)[KeyOf(e) := e.action]
    decreases |rows|
  {
    if rows == [] {
      assert TableOf([e]) == TableOf([])[KeyOf(e) := e.action];
    } else {
      assert (rows + [e])[1..] == rows[1..] + [e];
      TableOfAppend(rows[1..], e);
    }
  }

  /**
   A bulk load succeeds exactly when no two rows share a key and no row's key
   is already in the table; it then leaves the old table plus the rows.
   */
  lemma {:induction false} BulkInsertSucceedsIff(t: Table, rows: seq<SyncEvent>)
    ensures BulkInsert(t, rows).ok <==>
      DistinctKeys(rows) && forall i :: 0 <= i < |rows| ==> KeyOf(rows[i]) !in t
    ensures BulkInsert(t, rows).ok ==> BulkInsert(t, rows).table == t + TableOf(rows)
    decreases |rows|
  {
    if rows != [] {
      var k := KeyOf(rows[0]);
      var rest := rows[1..];
      if k in t {
        assert !BulkInsert(t, rows).ok;
      } else {
        var t' := t[k := rows[0].action];
        BulkInsertSucceedsIff(t', rest);
        if DistinctKeys(rows) && forall i :: 0 <= i < |rows| ==> KeyOf(rows[i]) !in t {
          forall i | 0 <= i < |rest|
            ensures KeyOf(rest[i]) !in t'
          {
            assert KeyOf(rows[i + 1]) != k;
          }
          forall i, j | 0 <= i < j < |rest|
            ensures KeyOf(rest[i]) != KeyOf(rest[j])
          {
            assert KeyOf(rows[i + 1]) != KeyOf(rows[j + 1]);
          }
          TableOfKeys(rest, k);
          assert k !in TableOf(rest);
          assert t' + TableOf(rest) == t + TableOf(rows);
        }
        if BulkInsert(t, rows).ok {
          forall i | 0 <= i < |rows|
            ensures KeyOf(rows[i]) !in t
          {
            if i > 0 {
              assert KeyOf(rest[i - 1]) !in t';
            }
          }
          forall i, j | 0 <= i < j < |rows|
            ensures KeyOf(rows[i]) != KeyOf(rows[j])
          {
            if i > 0 {
              assert KeyOf(rest[i - 1]) != KeyOf(rest[j - 1]);
            } else {
              assert KeyOf(rest[j - 1]) !in t';
            }
          }
        }
      }
    }
  }

  /**
   Export then import: loading a list of rows with distinct keys into an empty
   table succeeds and rebuilds exactly the table the list stands for.
   */
  lemma ExportImportRoundTrip(rows: seq<SyncEvent>)
    requires DistinctKeys(rows)
    ensures BulkInsert(map[], rows) == LoadOutcome(TableOf(rows), true)
  {
    BulkInsertSucceedsIff(map[], rows);
    assert map[] + TableOf(rows) == TableOf(rows);
  }
}
