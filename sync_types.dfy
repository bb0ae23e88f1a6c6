/**
 The values the sync log works with: the change events the appointment and
 task models send to their listeners, and the rows of the `syncmap` table.
 */
module SyncTypes {

  /** A reference that may be null. */
  datatype Option<T> = None | Some(value: T)

  /** The four kinds of entity whose changes are tracked (SyncEvent.ObjectType). */
  datatype ObjectType = Appointment | Task | Subtask | Project

  /** The kind of a change (ChangeEvent.ChangeAction). */
  datatype ChangeAction = Add | Change | Delete

  /**
   The object a change event carries, classified by its runtime class.
   Each tracked class has an integer key; any other class is `OtherEntity`.
   */
  datatype Entity =
    | AppointmentEntity(key: int)
    | TaskEntity(key: int)
    | SubtaskEntity(key: int)
    | ProjectEntity(key: int)
    | OtherEntity

  /** A change event as delivered to the listener: its object and its action may be null. */
  datatype ChangeEvent = ChangeEvent(obj: Option<Entity>, action: Option<ChangeAction>)

  /** One row of the `syncmap` table: (id, action, objtype). */
  datatype SyncEvent = SyncEvent(id: int, action: ChangeAction, objectType: ObjectType)

  /** The primary key of the `syncmap` table. */
  type Key = (int, ObjectType)

  /**
   The contents of the `syncmap` table. Because (id, objtype) is its primary
   key, the table is a finite map from keys to the pending action: there is
   at most one record per key by construction.
   */
  type Table = map<Key, ChangeAction>

  function KeyOf(e: SyncEvent): Key
  {
    (e.id, e.objectType)
  }

  /** The pending action stored for `k`, or None when the table holds no row for it. */
  function Lookup(t: Table, k: Key): Option<ChangeAction>
  {
    if k in t then Some(t[k]) else None
  }
}
