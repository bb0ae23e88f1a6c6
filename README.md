# BORG sync log: change reconciliation

This project models `SyncLog`, the plugin listener that records every change
the appointment and task models make since the last sync. It reduces those
changes to at most one pending record per (entity id, entity type) in the
`syncmap` table.

For each change event, `update` classifies the changed object as an
appointment, task, subtask or project and takes its key. It then looks up the
pending row for (key, type) and applies the merge rules:
- with no row, it inserts the incoming action;
- Add followed by Delete removes the row;
- Change followed by Delete becomes Delete;
- Delete followed by Add becomes Change;
- every other pairing is a no-op.

The table operations `get`, `insert`, `delete`, `deleteAll` and `getAll`, the
count behind `getInfo`, and the insert loop of `importXml` are modelled on a
class `SyncLog`. It holds the table as a field `store: map<(int, ObjectType), ChangeAction>`.

Modules:
- `SyncTypes` (sync_types.dfy): the change events, the entity classes, the rows and the table.
- `Reconcile` (reconcile.dfy): `update`'s normalisation and merge rules as functions on the table, and the lemmas about them. These include the lemmas about a whole sequence of events.
- `NetChange` (net_change.dfy): what a pending record means, defined on its own terms. The meaning covers whether the entity existed at the last sync, whether it exists now, and whether it has received any change since. It proves that the merge rules keep every record true to that meaning, as long as the models report only changes the entity can actually undergo. Under that same condition, an entity that existed at the last sync and has since been changed always keeps a pending record.
- `Rows` (rows.dfy): row lists as `getAll` returns them and `importXml` loads them. It also proves the export/import round trip.
- `SyncLogStore` (sync_log.dfy): the class `SyncLog`. Its methods change `store` in place, and `Update` is proved to produce exactly `Reconcile.Reconciled`.

Choices where the model departs from a literal reading:
- `insert` is not given a precondition. The database's primary key makes an insert for an existing key throw and change nothing. `Insert` models that as `ok == false`. `Update` proves that each of its inserts targets a key with no row at that moment, so it never hits this failure. `ImportXml` can hit it, and then stops with the earlier rows already in place, as the exception in `importXml` does.
- For an object of an untracked class, `update` never sets the event's id. What the lookup then does depends on the defaults of `SyncEvent`, which is not part of this model. The model assumes that nothing is written in this case.

## Model

| member | source | states |
|---|---|---|
| `Reconcile.Normalize` | BORGPlugins/src/net/sf/borg/plugin/sync/SyncLog.java:57-90 | an event is ignored exactly when it, its object or its action is null, or the object is of an untracked class; otherwise the row carries the incoming action and the key and type of the object's class |
| `Reconcile.IgnoredEventLeavesTable` | BORGPlugins/src/net/sf/borg/plugin/sync/SyncLog.java:57-58 | an ignored event (null event, object or action, or untracked class) leaves the table unchanged |
| `Reconcile.FirstChangeInserts` | BORGPlugins/src/net/sf/borg/plugin/sync/SyncLog.java:91-95 | with no row for the key, exactly one row with the incoming action is added and the table grows by one |
| `Reconcile.AddThenDeleteCancels` | BORGPlugins/src/net/sf/borg/plugin/sync/SyncLog.java:98-100 | a pending Add and an incoming Delete cancel: the key has no row afterwards and the rest of the table is unchanged |
| `Reconcile.ChangeThenDeleteIsDelete` | BORGPlugins/src/net/sf/borg/plugin/sync/SyncLog.java:101-106 | a pending Change and an incoming Delete leave one row for the key, with action Delete |
| `Reconcile.DeleteThenAddIsChange` | BORGPlugins/src/net/sf/borg/plugin/sync/SyncLog.java:107-112 | a pending Delete and an incoming Add leave one row for the key, with action Change |
| `Reconcile.OtherPairingsAreNoOps` | BORGPlugins/src/net/sf/borg/plugin/sync/SyncLog.java:93-115 | with a row present, the table is unchanged if and only if the pairing is none of the three merges |
| `Reconcile.StepFollowsMergeTable` | BORGPlugins/src/net/sf/borg/plugin/sync/SyncLog.java:91-113 | at the event's key, the lookup/delete/insert branches leave exactly the record the twelve-row merge table prescribes |
| `Reconcile.StepTouchesOnlyItsKey` | BORGPlugins/src/net/sf/borg/plugin/sync/SyncLog.java:91-113 | reconciling an event leaves the row, or the absence of a row, of every other key unchanged |
| `Reconcile.ReconciledAllAtKey` | BORGPlugins/src/net/sf/borg/plugin/sync/SyncLog.java:55-120 | after any sequence of events, a key's row is the merge table folded over the actions received for that key alone |
| `Reconcile.UntouchedKeyKeepsItsRow` | BORGPlugins/src/net/sf/borg/plugin/sync/SyncLog.java:55-120 | a key that receives no event keeps its row, whatever the other keys receive |
| `Reconcile.AddDeleteAddScenario` | BORGPlugins/src/net/sf/borg/plugin/sync/SyncLog.java:94-100 | Add, Delete, Add for appointment 5 from an empty log ends with the single row (5, Appointment, Add) |
| `NetChange.MergePreservesMeaning` | BORGPlugins/src/net/sf/borg/plugin/sync/SyncLog.java:94-113 | a change the entity can actually undergo keeps a faithful record faithful. Faithful means the record tells whether the entity existed at the last sync, whether it exists now, and whether it has been changed since; an entity that existed at the last sync, exists now and was changed never loses its record |
| `NetChange.OnlyExpectedNoOpsArise` | BORGPlugins/src/net/sf/borg/plugin/sync/SyncLog.java:93 | of the no-op pairings, only Add-then-Change and Change-then-Change can occur with possible changes; the others cannot occur, as the source comment claims |
| `NetChange.MergeAllPreservesMeaning` | BORGPlugins/src/net/sf/borg/plugin/sync/SyncLog.java:94-113 | a possible history of changes for one key keeps a faithful record faithful, and a non-empty history marks the entity as changed |
| `NetChange.LogRecordsNetChange` | BORGPlugins/src/net/sf/borg/plugin/sync/SyncLog.java:29-31 | after any sequence of events whose changes for a key are possible, that key's row describes the net change since the last sync: created, removed, or, existing at the last sync and now, changed in between (possibly deleted and re-created) |
| `NetChange.ChangedEntityKeepsRecord` | BORGPlugins/src/net/sf/borg/plugin/sync/SyncLog.java:29-31 | an entity that existed at the last sync and has since received any possible change has a row in the log |
| `Rows.TableOfKeys` | BORGPlugins/src/net/sf/borg/plugin/sync/SyncLog.java:155-175 | the keys of the table a row list stands for are exactly the keys of its rows |
| `Rows.TableOfAppend` | BORGPlugins/src/net/sf/borg/plugin/sync/SyncLog.java:165-167 | appending a row with a new key adds exactly that row to the table the list stands for |
| `Rows.BulkInsertSucceedsIff` | BORGPlugins/src/net/sf/borg/plugin/sync/SyncLog.java:231-233 | an import succeeds if and only if its rows have distinct keys not already in the table, and then leaves the old table plus the rows |
| `Rows.ExportImportRoundTrip` | BORGPlugins/src/net/sf/borg/plugin/sync/SyncLog.java:214-235 | rows with distinct keys loaded into an empty table all insert and rebuild exactly the table they stand for |
| `SyncLogStore.SyncLog.constructor` | BORGPlugins/src/net/sf/borg/plugin/sync/SyncLog.java:43-47 | the table starts empty when it did not exist and keeps its rows when it did |
| `SyncLogStore.SyncLog.Get` | BORGPlugins/src/net/sf/borg/plugin/sync/SyncLog.java:132-153 | returns the row for (id, type) when there is one, and None otherwise |
| `SyncLogStore.SyncLog.Insert` | BORGPlugins/src/net/sf/borg/plugin/sync/SyncLog.java:177-187 | succeeds exactly when the key has no row and then adds the row; a duplicate key is rejected with the table unchanged |
| `SyncLogStore.SyncLog.Delete` | BORGPlugins/src/net/sf/borg/plugin/sync/SyncLog.java:189-198 | removes the row for (id, type) if any and leaves every other row |
| `SyncLogStore.SyncLog.DeleteAll` | BORGPlugins/src/net/sf/borg/plugin/sync/SyncLog.java:200-207 | leaves the table empty |
| `SyncLogStore.SyncLog.GetAll` | BORGPlugins/src/net/sf/borg/plugin/sync/SyncLog.java:155-175 | lists every row exactly once: distinct keys, as many rows as the table, and the list stands for exactly the table |
| `SyncLogStore.SyncLog.Count` | BORGPlugins/src/net/sf/borg/plugin/sync/SyncLog.java:243-245 | the count is the number of rows, and 0 exactly when the table is empty |
| `SyncLogStore.SyncLog.ImportXml` | BORGPlugins/src/net/sf/borg/plugin/sync/SyncLog.java:231-233 | inserts the rows in order and stops at the first duplicate key with the earlier rows in place |
| `SyncLogStore.SyncLog.Update` | BORGPlugins/src/net/sf/borg/plugin/sync/SyncLog.java:55-120 | the new table is the old one reconciled with the event, with every insert made for a key that has no row at that point |
| `SyncLogStore.ExportThenReimport` | BORGPlugins/src/net/sf/borg/plugin/sync/SyncLog.java:214-235 | exporting one log's rows and importing them into a cleared log, possibly the same log, succeeds and reproduces the same table |
| `SyncLogStore.DeleteAllEmptiesLog` | BORGPlugins/src/net/sf/borg/plugin/sync/SyncLog.java:200-207 | after `deleteAll`, `getAll` lists no rows and the count is 0 |

## Left out

- JDBC access is not modelled: the connection, prepared statements, result sets and the SQL text. The `syncmap` table is the map `store`.
- Connection and I/O failures of the database are not modelled. Every store operation succeeds, except an insert for an existing key. So the model also leaves out the partial failure where a replace deletes the row and then fails to insert. That failure would leave the key with no row.
- The string form of the enums in the table (`toString` and `valueOf` in `createFrom` and the statements) is not modelled. The datatypes are stored directly.
- JAXB marshalling in `export` and `importXml` is not modelled. `export` appears only through the rows `GetAll` returns. `importXml` is modelled from the already unmarshalled sequence of rows.
- The singleton accessor `getReference` and the listener registration on `AppointmentModel` and `TaskModel` are not modelled. They are global wiring.
- The error report from `Errmsg` in `update`'s catch block is not modelled. `Update` does not report failure.
- The exact behaviour for an object of an untracked class is not modelled. The default of the unset id comes from `SyncEvent`, which is not part of this model. The model says only that such an event changes nothing.
- `getInfo`'s text is not modelled; `Count` returns only the number it reports.
- `getExportName` returns a constant and is not modelled.
- Java `int` keys are modelled as unbounded integers. The model does no arithmetic on keys, so a 32-bit width would change nothing.
