/**
 * Coherence of the by-id cache, which has no version. A writer deletes the entry after its commit, so an
 * id is settled whenever no delete of it is owed. Three conditions on single steps are exactly what it
 * takes that, in a whole run, no settled id has a stale entry or a reader about to store one. Lists, other
 * ids and their failures do not matter.
 */
module EntryCoherence {
  import opened Outcomes
  import opened TaskQueries
  import opened TaskCache

  predicate CommitsTo(step: Step, id: Uuid) {
    step.Commit? && (step.write.Update? || step.write.Remove?) && step.write.id == id
  }

  /** A reader of the id that has its row and has not stored it yet. */
  predicate HoldsRow(r: TaskReader, id: Uuid) { r.TaskRead? && r.id == id }

  /** A writer has committed to the row and not yet deleted its entry. */
  predicate Owes(s: State, id: Uuid) {
    exists n :: n in s.writers && s.writers[n].toDelete == Some(id)
  }

  predicate EntryCurrent(cache: map<string, Entry>, table: seq<Task>, id: Uuid) {
    TaskKey(id) in cache ==> cache[TaskKey(id)].value.Single? && Find(table, id) == Some(cache[TaskKey(id)].value.task)
  }

  predicate ReadersCurrent(tasks: map<nat, TaskReader>, table: seq<Task>, id: Uuid) {
    forall n :: n in tasks && HoldsRow(tasks[n], id) ==> Find(table, id) == Some(tasks[n].task)
  }

  /** Nothing about the id is in the cache or on its way there. */
  predicate Unknown(s: State, id: Uuid) {
    TaskKey(id) !in s.cache && forall n :: n in s.tasks ==> !HoldsRow(s.tasks[n], id)
  }

  // ----- the conditions -----

  datatype Condition = ReadersCaughtUp | DeleteTakes | OthersLeaveRow

  /** The delete after which no other is owed. */
  predicate IsLastDelete(s: State, step: Step, id: Uuid)
    requires Enabled(s, step)
  {
    step.DeleteEntry? && s.writers[step.n].toDelete == Some(id) && !Owes(Do(s, step), id)
  }

  /** At the last delete owed, no reader holds an older row, and the delete succeeds or has nothing stale to
      delete. While none is owed, only commits to the row change it, unless nobody knows it. */
  predicate Meets(c: Condition, id: Uuid, s: State, step: Step)
    requires Enabled(s, step)
  {
    match c
    case ReadersCaughtUp => IsLastDelete(s, step, id) ==> ReadersCurrent(s.tasks, s.table, id)
    case DeleteTakes => IsLastDelete(s, step, id) ==> step.ok || EntryCurrent(s.cache, s.table, id)
    case OthersLeaveRow =>
      !CommitsTo(step, id) && !Owes(s, id) ==> Find(Do(s, step).table, id) == Find(s.table, id) || Unknown(s, id)
  }

  predicate Careful(id: Uuid, s: State, step: Step)
    requires Enabled(s, step)
  {
    Meets(ReadersCaughtUp, id, s, step) && Meets(DeleteTakes, id, s, step) && Meets(OthersLeaveRow, id, s, step)
  }

  ghost predicate ReachesCarefully(id: Uuid, from: State, steps: seq<Step>, to: State)
    decreases |steps|
  {
    if steps == [] then from == to
    else
      && Enabled(from, steps[0]) && Careful(id, from, steps[0])
      && ReachesCarefully(id, Do(from, steps[0]), steps[1..], to)
  }

  // ----- what they keep -----

  /** While no delete is owed, the entry is current, and so is the row in the hands of every reader. */
  ghost predicate Settled(s: State, id: Uuid) {
    !Owes(s, id) ==> ReadersCurrent(s.tasks, s.table, id) && EntryCurrent(s.cache, s.table, id)
  }

  /** The same in terms of the cache alone: the entry is current, and stays so when a pending reader's store
      succeeds. */
  ghost predicate Fresh(s: State, id: Uuid) {
    !Owes(s, id) ==>
      && EntryCurrent(s.cache, s.table, id)
      && forall n :: n in s.tasks && HoldsRow(s.tasks[n], id) ==>
           EntryCurrent(Do(s, StoreTask(n, true)).cache, s.table, id)
  }

  lemma {:induction false} FreshIffSettled(s: State, id: Uuid)
    ensures Fresh(s, id) <==> Settled(s, id)
  {
    forall n | n in s.tasks && HoldsRow(s.tasks[n], id)
      ensures EntryCurrent(Do(s, StoreTask(n, true)).cache, s.table, id) <==> Find(s.table, id) == Some(s.tasks[n].task)
    {
      StoredIsRead(s, n, id);
    }
  }

  lemma StoredIsRead(s: State, n: nat, id: Uuid)
    requires n in s.tasks && HoldsRow(s.tasks[n], id)
    ensures var cache := Do(s, StoreTask(n, true)).cache;
            TaskKey(id) in cache && cache[TaskKey(id)].value == Single(s.tasks[n].task)
  {
    hide TaskKey, Find;
  }

  /** At the last delete owed, if it succeeds: the readers are current if and only if none of them leaves a
      stale entry by storing after it. */
  lemma {:induction false} LastDeleteIff(s: State, n: nat, id: Uuid)
    requires Enabled(s, DeleteEntry(n, true)) && IsLastDelete(s, DeleteEntry(n, true), id)
    ensures var s' := Do(s, DeleteEntry(n, true));
            ReadersCurrent(s.tasks, s.table, id) <==>
            forall m :: m in s'.tasks && HoldsRow(s'.tasks[m], id) ==>
              EntryCurrent(Do(s', StoreTask(m, true)).cache, s'.table, id)
  {
    hide TaskKey, Find;
    var s' := Do(s, DeleteEntry(n, true));
    assert TaskKey(id) !in s'.cache && s'.tasks == s.tasks && s'.table == s.table;
    FreshIffSettled(s', id);
  }

  // ----- steps -----

  predicate TouchesEntries(step: Step) { step.StoreTask? || step.Evict? || step.DeleteEntry? }

  lemma EntryUntouched(s: State, step: Step, id: Uuid)
    requires Enabled(s, step) && !TouchesEntries(step)
    ensures TaskKey(id) in Do(s, step).cache <==> TaskKey(id) in s.cache
    ensures TaskKey(id) in s.cache ==> Do(s, step).cache[TaskKey(id)] == s.cache[TaskKey(id)]
  {
    if step.StoreList? {
      KeyKindsDiffer(s.lists[step.n].version, s.lists[step.n].query, id);
    } else if step.BumpWrite? {
      KeyKindsDiffer(0, Query(None, None, None, None, None), id);
    }
  }

  lemma StoreTaskKeeps(s: State, n: nat, ok: bool, id: Uuid)
    requires Settled(s, id) && Enabled(s, StoreTask(n, ok))
    ensures Settled(Do(s, StoreTask(n, ok)), id) && Careful(id, s, StoreTask(n, ok))
  {
    hide TaskKey, Find;
    if s.tasks[n].id == id {
      assert HoldsRow(s.tasks[n], id);
    } else if TaskKey(s.tasks[n].id) == TaskKey(id) {
      TaskKeysDiffer(s.tasks[n].id, id);
    }
  }

  lemma EvictKeeps(s: State, key: string, id: Uuid)
    requires Settled(s, id)
    ensures Settled(Do(s, Evict(key)), id) && Careful(id, s, Evict(key))
  {
    hide TaskKey, Find;
  }

  lemma DeleteKeepsIff(s: State, n: nat, ok: bool, id: Uuid)
    requires Settled(s, id) && Enabled(s, DeleteEntry(n, ok))
    ensures Settled(Do(s, DeleteEntry(n, ok)), id) <==> Careful(id, s, DeleteEntry(n, ok))
  {
    hide TaskKey, Find;
    var s' := Do(s, DeleteEntry(n, ok));
    assert s'.tasks == s.tasks && s'.table == s.table;
    if s.writers[n].toDelete == Some(id) {
      assert Owes(s, id);
    } else {
      OtherDeletesOweTheSame(s, n, ok, id);
      if TaskKey(s.writers[n].toDelete.value) == TaskKey(id) {
        TaskKeysDiffer(s.writers[n].toDelete.value, id);
      }
    }
  }

  lemma OtherDeletesOweTheSame(s: State, n: nat, ok: bool, id: Uuid)
    requires Enabled(s, DeleteEntry(n, ok)) && s.writers[n].toDelete != Some(id)
    ensures Owes(Do(s, DeleteEntry(n, ok)), id) == Owes(s, id)
  {
    hide TaskKey;
    var s' := Do(s, DeleteEntry(n, ok));
    if m :| m in s.writers && s.writers[m].toDelete == Some(id) {
      assert s'.writers[m].toDelete == Some(id);
    }
  }

  lemma CommitToKeeps(s: State, step: Step, id: Uuid)
    requires Enabled(s, step) && CommitsTo(step, id)
    ensures Settled(Do(s, step), id) && Careful(id, s, step)
  {
    hide TaskKey, Find, Written;
    assert Do(s, step).writers[step.n].toDelete == Some(id);
  }

  /** Steps that leave the entry and the deletes owed alone. */
  lemma OtherStepKeepsIff(s: State, step: Step, id: Uuid)
    requires Settled(s, id) && Enabled(s, step) && !TouchesEntries(step) && !CommitsTo(step, id)
    ensures Settled(Do(s, step), id) <==> Careful(id, s, step)
  {
    hide TaskKey, Find, Do, Owes, ReadersCurrent, EntryCurrent;
    OthersKeepOwing(s, step, id);
    if !Owes(s, id) {
      if Find(Do(s, step).table, id) == Find(s.table, id) {
        SameRowKeeps(s, step, id);
      } else {
        NewRowKeepsIff(s, step, id);
      }
    }
  }

  lemma OthersKeepOwing(s: State, step: Step, id: Uuid)
    requires Enabled(s, step) && !step.DeleteEntry? && !CommitsTo(step, id)
    ensures Owes(Do(s, step), id) == Owes(s, id)
  {
    hide TaskKey, ListKey, Find, Written, WithoutOwner, Rows, Total;
    var s' := Do(s, step);
    assert forall n :: n in s.writers ==> n in s'.writers;
    assert forall n :: n in s.writers && (!step.Commit? || n != step.n) ==>
                         s'.writers[n].toDelete == s.writers[n].toDelete;
    assert step.Commit? ==> s'.writers[step.n].toDelete != Some(id);
  }

  lemma SameRowKeeps(s: State, step: Step, id: Uuid)
    requires Enabled(s, step) && !TouchesEntries(step) && Find(Do(s, step).table, id) == Find(s.table, id)
    requires ReadersCurrent(s.tasks, s.table, id) && EntryCurrent(s.cache, s.table, id)
    ensures ReadersCurrent(Do(s, step).tasks, Do(s, step).table, id)
    ensures EntryCurrent(Do(s, step).cache, Do(s, step).table, id)
  {
    hide TaskKey, ListKey, Find, Written, WithoutOwner, Rows, Total;
    EntryUntouched(s, step, id);
  }

  /** The steps that change the table change nothing else that matters here. */
  lemma NewRowKeepsIff(s: State, step: Step, id: Uuid)
    requires Enabled(s, step) && !TouchesEntries(step) && Find(Do(s, step).table, id) != Find(s.table, id)
    requires ReadersCurrent(s.tasks, s.table, id) && EntryCurrent(s.cache, s.table, id)
    ensures var s' := Do(s, step);
            ReadersCurrent(s'.tasks, s'.table, id) && EntryCurrent(s'.cache, s'.table, id) <==> Unknown(s, id)
  {
    hide TaskKey, ListKey, Find, Written, WithoutOwner, Rows, Total;
    EntryUntouched(s, step, id);
    assert Do(s, step).tasks == s.tasks;
  }

  /** A step keeps an id settled if and only if it meets the conditions. */
  lemma {:induction false} SettledIffCareful(s: State, step: Step, id: Uuid)
    requires Settled(s, id) && Enabled(s, step)
    ensures Settled(Do(s, step), id) <==> Careful(id, s, step)
  {
    hide Settled, Careful, Do;
    if CommitsTo(step, id) {
      CommitToKeeps(s, step, id);
    } else {
      match step
      case StoreTask(n, ok) => StoreTaskKeeps(s, n, ok, id);
      case Evict(key) => EvictKeeps(s, key, id);
      case DeleteEntry(n, ok) => DeleteKeepsIff(s, n, ok, id);
      case _ => OtherStepKeepsIff(s, step, id);
    }
  }

  // ----- runs -----

  /** After every step of the run the id is fresh. */
  ghost predicate StaysFresh(id: Uuid, from: State, steps: seq<Step>)
    decreases |steps|
  {
    Fresh(from, id) && (steps != [] && Enabled(from, steps[0]) ==> StaysFresh(id, Do(from, steps[0]), steps[1..]))
  }

  /** The conditions are exact: a run meets them if and only if the entry is never stale, now or by a
      pending store, while no delete is owed. */
  lemma {:induction false} CarefulIffFresh(id: Uuid, from: State, steps: seq<Step>, to: State)
    requires Fresh(from, id) && Reaches(from, steps, to)
    ensures ReachesCarefully(id, from, steps, to) <==> StaysFresh(id, from, steps)
    decreases |steps|
  {
    hide Fresh, Careful, Do, Settled;
    if steps != [] {
      var next := Do(from, steps[0]);
      FreshIffSettled(from, id);
      FreshIffSettled(next, id);
      SettledIffCareful(from, steps[0], id);
      if Fresh(next, id) {
        CarefulIffFresh(id, next, steps[1..], to);
      }
    }
  }

  lemma {:induction false} RunKeepsSettled(id: Uuid, from: State, steps: seq<Step>, to: State)
    requires Settled(from, id) && ReachesCarefully(id, from, steps, to)
    ensures Settled(to, id)
    decreases |steps|
  {
    hide Settled, Careful, Do;
    if steps != [] {
      SettledIffCareful(from, steps[0], id);
      RunKeepsSettled(id, Do(from, steps[0]), steps[1..], to);
    }
  }

  /** Whenever no writer still owes the delete, the entry under an id is the row with that id. */
  lemma {:induction false} EntriesAreCoherent(ttl: nat, table: seq<Task>, steps: seq<Step>, s: State, id: Uuid)
    requires ReachesCarefully(id, Initial(ttl, table), steps, s) && !Owes(s, id)
    requires TaskKey(id) in s.cache
    ensures s.cache[TaskKey(id)].value.Single?
    ensures Find(s.table, id) == Some(s.cache[TaskKey(id)].value.task)
  {
    RunKeepsSettled(id, Initial(ttl, table), steps, s);
  }

  /** So findById answers with the current row, from the cache as from the table. */
  lemma {:induction false} EntryHitIsCurrent(ttl: nat, table: seq<Task>, steps: seq<Step>, s: State, n: nat)
    requires Enabled(s, LookUpTask(n, true)) && ReachesCarefully(s.tasks[n].id, Initial(ttl, table), steps, s)
    requires !Owes(s, s.tasks[n].id)
    ensures var r, hit, row := s.tasks[n], LookUp(s, TaskKey(s.tasks[n].id), true), Find(s.table, s.tasks[n].id);
            hit.Some? ==>
              && row.Some?
              && Do(s, LookUpTask(n, true)).given == s.given +
                   if r.user == None || row.value.owner == None || row.value.owner == r.user
                   then [GivenTask(r.id, r.user, row.value, s.now, hit.value.since, Some(hit.value.stored))]
                   else []
  {
    hide TaskKey, Find;
    if TaskKey(s.tasks[n].id) in s.cache {
      EntriesAreCoherent(ttl, table, steps, s, s.tasks[n].id);
    }
  }
}
