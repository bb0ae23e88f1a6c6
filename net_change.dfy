/**
 What a pending record means. The log tracks the changes made since the last
 sync, so the record for a key should say how the entity now differs from the
 entity as it was at the last sync: created (Add); changed in between while
 existing at the last sync and now, possibly deleted and re-created (Change);
 removed (Delete); or nothing when it exists now exactly when it existed then
 and, if it existed, received no change in between. This module defines that
 meaning independently of the merge rules and proves that the merge rules keep
 every record faithful to it, as long as the models send the changes an
 entity can actually undergo.
 */
module NetChange {
  import opened SyncTypes
  import opened Reconcile

  /** Whether the entity exists after a change of kind `a`. */
  function ExistsAfter(a: ChangeAction): bool
  {
    a != Delete
  }

  /** A change the models can report: an Add for an absent entity, a Change or Delete for a present one. */
  predicate Possible(present: bool, a: ChangeAction)
  {
    if a == Add then !present else present
  }

  /** A history of changes each of which is possible in the state the previous ones left. */
  predicate PossibleHistory(present: bool, actions: seq<ChangeAction>)
    decreases |actions|
  {
    actions == [] || (Possible(present, actions[0]) && PossibleHistory(ExistsAfter(actions[0]), actions[1..]))
  }

  /** Whether the entity exists after the whole history. */
  function ExistsAfterAll(present: bool, actions: seq<ChangeAction>): bool
    decreases |actions|
  {
    if actions == [] then present else ExistsAfterAll(ExistsAfter(actions[0]), actions[1..])
  }

  /**
   The record `rec` describes an entity that existed at the last sync iff
   `before`, exists now iff `now`, and has received some change since the last
   sync iff `touched`. No record means there is nothing to replay: the entity
   exists now exactly when it did then, and if it did exist it was not
   changed in between (an entity created and removed again needs no record).
   A Change record stands for an entity that existed at the last sync, exists
   now, and was changed in between (possibly deleted and re-created).
   */
  predicate Describes(rec: Option<ChangeAction>, before: bool, now: bool, touched: bool)
  {
    match rec
    case None => before == now && (before ==> !touched)
    case Some(Add) => !before && now
    case Some(Change) => before && now && touched
    case Some(Delete) => before && !now
  }

  /** One possible change keeps a faithful record faithful, and marks the entity as changed. */
  lemma MergePreservesMeaning(rec: Option<ChangeAction>, before: bool, now: bool, touched: bool, a: ChangeAction)
    requires Describes(rec, before, now, touched) && Possible(now, a)
    ensures Describes(Merged(rec, a), before, ExistsAfter(a), true)
  {
  }

  /**
   Of the pairings the merge rules treat as no-ops, only Add-then-Change and
   Change-then-Change can arise from possible changes; the others (Add after
   Add or Change, Change or Delete after Delete) never reach a faithful record.
   */
  lemma OnlyExpectedNoOpsArise(x: ChangeAction, before: bool, now: bool, touched: bool, a: ChangeAction)
    requires Describes(Some(x), before, now, touched) && Possible(now, a)
    ensures Decide(Some(x), a) == Keep <==> a == Change && (x == Add || x == Change)
  {
  }

  /** A possible history of changes for one key keeps a faithful record faithful. */
  lemma {:induction false} MergeAllPreservesMeaning(
    rec: Option<ChangeAction>, before: bool, now: bool, touched: bool, actions: seq<ChangeAction>)
    requires Describes(rec, before, now, touched) && PossibleHistory(now, actions)
    ensures Describes(MergeAll(rec, actions), before, ExistsAfterAll(now, actions), touched || actions != [])
    decreases |actions|
  {
    if actions != [] {
      MergePreservesMeaning(rec, before, now, touched, actions[0]);
      MergeAllPreservesMeaning(Merged(rec, actions[0]), before, ExistsAfter(actions[0]), true, actions[1..]);
    }
  }

  /**
   The whole log: if the row for `k` is faithful before a sequence of change
   events, and the events for `k` form a possible history, then after `update`
   has processed them all the row for `k` describes the net change since the
   last sync: whether the entity was created, removed, or, existing at the
   last sync and now, changed in between (possibly deleted and re-created).
   */
  lemma {:induction false} LogRecordsNetChange(
    t: Table, evs: seq<Option<ChangeEvent>>, k: Key, before: bool, now: bool, touched: bool)
    requires Describes(Lookup(t, k), before, now, touched)
    requires PossibleHistory(now, ActionsFor(k, evs))
    ensures Describes(Lookup(ReconciledAll(t, evs), k), before, ExistsAfterAll(now, ActionsFor(k, evs)),
                      touched || ActionsFor(k, evs) != [])
  {
    ReconciledAllAtKey(t, evs, k);
    MergeAllPreservesMeaning(Lookup(t, k), before, now, touched, ActionsFor(k, evs));
  }

  /**
   No change is lost: an entity that existed at the last sync and has since
   received any possible change has a pending record in the log afterwards,
   so the next sync replays it.
   */
  lemma {:induction false} ChangedEntityKeepsRecord(
    t: Table, evs: seq<Option<ChangeEvent>>, k: Key, now: bool, touched: bool)
    requires Describes(Lookup(t, k), true, now, touched)
    requires PossibleHistory(now, ActionsFor(k, evs))
    requires ActionsFor(k, evs) != []
    ensures k in ReconciledAll(t, evs)
  {
    LogRecordsNetChange(t, evs, k, true, now, touched);
  }
}
