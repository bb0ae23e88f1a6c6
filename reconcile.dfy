/**
 The reconciliation performed by `SyncLog.update`, as functions on the table:
 a change event is reduced to the row it concerns, the row already pending
 for that key is looked up, and the merge rules decide whether to insert,
 remove or replace that row.
 */
module Reconcile {
  import opened SyncTypes

  /** The key of a tracked entity; None for an object of any other class. */
  function Classify(obj: Entity): Option<Key>
  {
    match obj
    case AppointmentEntity(k) => Some((k, Appointment))
    case TaskEntity(k) => Some((k, Task))
    case SubtaskEntity(k) => Some((k, Subtask))
    case ProjectEntity(k) => Some((k, Project))
    case OtherEntity => None
  }

  /** The events `update` lets pass without touching the table. */
  predicate Ignored(ev: Option<ChangeEvent>)
  {
    ev.None? || ev.value.obj.None? || ev.value.action.None? || ev.value.obj.value.OtherEntity?
  }

  /** The row an event concerns, or None when the event is ignored. */
  function Normalize(ev: Option<ChangeEvent>): (r: Option<SyncEvent>)
    ensures r.None? <==> Ignored(ev)
    ensures r.Some? ==> r.value.action == ev.value.action.value
    ensures r.Some? ==> Classify(ev.value.obj.value) == Some(KeyOf(r.value))
  {
    if ev.None? || ev.value.obj.None? || ev.value.action.None? then None
    else
      match Classify(ev.value.obj.value)
      case None => None
      case Some(k) => Some(SyncEvent(k.0, ev.value.action.value, k.1))
  }

  /** What `update` does to the table at the event's key. */
  datatype Decision =
    | InsertNew(action: ChangeAction)
    | RemovePending
    | ReplacePending(action: ChangeAction)
    | Keep

  /** The branches of `update`, given the action pending for the key (if any) and the incoming one. */
  function Decide(existing: Option<ChangeAction>, incoming: ChangeAction): Decision
  {
    match existing
    case None => InsertNew(incoming)
    case Some(pending) =>
      if pending == Add && incoming == Delete then RemovePending
      else if pending == Change && incoming == Delete then ReplacePending(Delete)
      else if pending == Delete && incoming == Add then ReplacePending(Change)
      else Keep
  }

  /** The table after carrying out a decision at `k`; a replace is a delete followed by an insert. */
  function Apply(t: Table, k: Key, d: Decision): Table
  {
    match d
    case InsertNew(a) => t[k := a]
    case RemovePending => t - {k}
    case ReplacePending(a) => (t - {k})[k := a]
    case Keep => t
  }

  /** Reconciling one normalized row into the table. */
  function Step(t: Table, e: SyncEvent): Table
  {
    Apply(t, KeyOf(e), Decide(Lookup(t, KeyOf(e)), e.action))
  }

  /** The table after `update` has processed one change event. */
  function Reconciled(t: Table, ev: Option<ChangeEvent>): Table
  {
    match Normalize(ev)
    case None => t
    case Some(e) => Step(t, e)
  }

  /** The table after `update` has processed the events in order. */
  function ReconciledAll(t: Table, evs: seq<Option<ChangeEvent>>): Table
    decreases |evs|
  {
    if evs == [] then t else ReconciledAll(Reconciled(t, evs[0]), evs[1..])
  }

  /**
   The merge table, written per (pending, incoming) pair: the record left for a
   key. None means no record.
   */
  function Merged(pending: Option<ChangeAction>, incoming: ChangeAction): Option<ChangeAction>
  {
    match (pending, incoming)
    case (None, _) => Some(incoming)
    case (Some(Add), Delete) => None
    case (Some(Change), Delete) => Some(Delete)
    case (Some(Delete), Add) => Some(Change)
    case (Some(Add), Add) => Some(Add)
    case (Some(Add), Change) => Some(Add)
    case (Some(Change), Add) => Some(Change)
    case (Some(Change), Change) => Some(Change)
    case (Some(Delete), Change) => Some(Delete)
    case (Some(Delete), Delete) => Some(Delete)
  }

  /** Folding the merge table over the actions received for one key. */
  function MergeAll(pending: Option<ChangeAction>, actions: seq<ChangeAction>): Option<ChangeAction>
    decreases |actions|
  {
    if actions == [] then pending else MergeAll(Merged(pending, actions[0]), actions[1..])
  }

  /** The actions, in order, of the events that are not ignored and concern `k`. */
  function ActionsFor(k: Key, evs: seq<Option<ChangeEvent>>): seq<ChangeAction>
    decreases |evs|
  {
    if evs == [] then []
    else
      var here := match Normalize(evs[0])
        case Some(e) => if KeyOf(e) == k then [e.action] else []
        case None => [];
      here + ActionsFor(k, evs[1..])
  }

  /** An ignored event (null event, object or action, or an untracked class) leaves the table as it was. */
  lemma IgnoredEventLeavesTable(t: Table, ev: Option<ChangeEvent>)
    requires Ignored(ev)
    ensures Reconciled(t, ev) == t
  {
  }

  /** With no row for the key, exactly one row carrying the incoming action is added. */
  lemma FirstChangeInserts(t: Table, e: SyncEvent)
    requires KeyOf(e) !in t
    ensures Step(t, e) == t[KeyOf(e) := e.action]
    ensures |Step(t, e)| == |t| + 1
  {
  }

  /** A pending Add followed by a Delete cancels: the key's row is gone. */
  lemma AddThenDeleteCancels(t: Table, id: int, ty: ObjectType)
    requires Lookup(t, (id, ty)) == Some(Add)
    ensures Step(t, SyncEvent(id, Delete, ty)) == t - {(id, ty)}
    ensures (id, ty) !in Step(t, SyncEvent(id, Delete, ty))
  {
  }

  /** A pending Change followed by a Delete leaves one row for the key, with action Delete. */
  lemma ChangeThenDeleteIsDelete(t: Table, id: int, ty: ObjectType)
    requires Lookup(t, (id, ty)) == Some(Change)
    ensures Step(t, SyncEvent(id, Delete, ty)) == t[(id, ty) := Delete]
  {
  }

  /** A pending Delete followed by an Add leaves one row for the key, with action Change. */
  lemma DeleteThenAddIsChange(t: Table, id: int, ty: ObjectType)
    requires Lookup(t, (id, ty)) == Some(Delete)
    ensures Step(t, SyncEvent(id, Add, ty)) == t[(id, ty) := Change]
  {
  }

  /**
   Every other pairing of a pending row with an incoming action is a no-op,
   and the three merges above are the only pairings that change the table.
   */
  lemma OtherPairingsAreNoOps(t: Table, e: SyncEvent)
    requires KeyOf(e) in t
    ensures Step(t, e) == t <==>
      !((t[KeyOf(e)] == Add && e.action == Delete)
        || (t[KeyOf(e)] == Change && e.action == Delete)
        || (t[KeyOf(e)] == Delete && e.action == Add))
  {
  }

  /** At the event's key, the branches of `update` leave exactly what the merge table says. */
  lemma StepFollowsMergeTable(t: Table, e: SyncEvent)
    ensures Lookup(Step(t, e), KeyOf(e)) == Merged(Lookup(t, KeyOf(e)), e.action)
  {
  }

  /** `update` touches only the event's key: every other key keeps its row, or its absence. */
  lemma StepTouchesOnlyItsKey(t: Table, e: SyncEvent, k: Key)
    requires k != KeyOf(e)
    ensures Lookup(Step(t, e), k) == Lookup(t, k)
  {
  }

  /**
   Over any sequence of change events, the row left for a key is the merge
   table folded over the actions received for that key alone: events for
   other keys and ignored events have no influence on it.
   */
  lemma {:induction false} ReconciledAllAtKey(t: Table, evs: seq<Option<ChangeEvent>>, k: Key)
    ensures Lookup(ReconciledAll(t, evs), k) == MergeAll(Lookup(t, k), ActionsFor(k, evs))
    decreases |evs|
  {
    if evs != [] {
      var t' := Reconciled(t, evs[0]);
      ReconciledAllAtKey(t', evs[1..], k);
      var rest := ActionsFor(k, evs[1..]);
      match Normalize(evs[0])
      case None =>
        assert ActionsFor(k, evs) == rest;
      case Some(e) =>
        if KeyOf(e) == k {
          StepFollowsMergeTable(t, e);
          assert ActionsFor(k, evs) == [e.action] + rest;
          assert ([e.action] + rest)[1..] == rest;
        } else {
          StepTouchesOnlyItsKey(t, e, k);
          assert ActionsFor(k, evs) == rest;
        }
    }
  }

  /** A key that receives no event keeps its row, or its absence, whatever other keys receive. */
  lemma {:induction false} UntouchedKeyKeepsItsRow(t: Table, evs: seq<Option<ChangeEvent>>, k: Key)
    requires ActionsFor(k, evs) == []
    ensures Lookup(ReconciledAll(t, evs), k) == Lookup(t, k)
  {
    ReconciledAllAtKey(t, evs, k);
  }

  /** An event for appointment `id` with the given action. */
  function AppointmentEvent(id: int, a: ChangeAction): Option<ChangeEvent>
  {
    Some(ChangeEvent(Some(AppointmentEntity(id)), Some(a)))
  }

  /**
   Add, Delete, Add for appointment 5, starting from an empty log: the first
   two cancel and the last adds a fresh row, so one row (5, Appointment, Add)
   remains.
   */
  lemma AddDeleteAddScenario()
    ensures ReconciledAll(map[], [AppointmentEvent(5, Add), AppointmentEvent(5, Delete), AppointmentEvent(5, Add)])
            == map[(5, Appointment) := Add]
  {
  }
}
