/** The counters of Statistics (internal/task/manager.go:413-450) against the tasks that ended. */
module TaskStatistics {
  import opened Common
  import opened TaskQueue
  import opened TaskScheduler
  import opened TaskSafety
  import opened TaskRuns

  /** The tasks that ended with the status between two states. */
  ghost function Ended(before: State, after: State, status: Status): set<TaskId> {
    set id | id in after.results && after.results[id] == status
             && !(id in before.results && before.results[id] == status)
  }

  /** How many tasks ended with the status in a run. */
  ghost function Endings(s: State, steps: seq<Step>, limits: Limits, status: Status): nat
    decreases |steps|
  {
    if steps == [] then 0
    else
      var front := steps[..|steps| - 1];
      Endings(s, front, limits, status) + |Ended(Run(s, front, limits), Run(s, steps, limits), status)|
  }

  /** Each counter grew by the number of tasks that ended with its status. */
  ghost predicate Counts(before: State, after: State) {
    && after.completed == before.completed + |Ended(before, after, Completed)|
    && after.failed == before.failed + |Ended(before, after, Failed)|
    && after.cancelledCount == before.cancelledCount + |Ended(before, after, Cancelled)|
  }

  ghost predicate SameCounters(before: State, after: State) {
    && after.completed == before.completed && after.failed == before.failed
    && after.cancelledCount == before.cancelledCount
  }

  lemma NothingEnded(before: State, after: State)
    requires SameCounters(before, after)
    requires forall id | id in after.results && Terminal(after.results[id]) ::
               id in before.results && before.results[id] == after.results[id]
    ensures Counts(before, after)
  {
    assert Ended(before, after, Completed) == {};
    assert Ended(before, after, Failed) == {};
    assert Ended(before, after, Cancelled) == {};
  }

  lemma TheseEnded(before: State, after: State, ids: set<TaskId>, status: Status)
    requires Terminal(status)
    requires forall id | id in ids ::
               id in after.results && after.results[id] == status
               && !(id in before.results && Terminal(before.results[id]))
    requires forall id | id in after.results && id !in ids ::
               id in before.results && before.results[id] == after.results[id]
    requires after.completed == before.completed + if status.Completed? then |ids| else 0
    requires after.failed == before.failed + if status.Failed? then |ids| else 0
    requires after.cancelledCount == before.cancelledCount + if status.Cancelled? then |ids| else 0
    ensures Counts(before, after)
  {
    assert Ended(before, after, status) == ids;
    assert !status.Completed? ==> Ended(before, after, Completed) == {};
    assert !status.Failed? ==> Ended(before, after, Failed) == {};
    assert !status.Cancelled? ==> Ended(before, after, Cancelled) == {};
  }

  lemma {:induction false} AdmittedOnly(s: State, tasks: seq<Task>)
    requires forall t | t in tasks :: t.id !in s.results
    ensures var after := AdmitAll(s, tasks);
      && SameCounters(s, after)
      && forall id | id in after.results && Terminal(after.results[id]) ::
           id in s.results && s.results[id] == after.results[id]
    decreases |tasks|
  {
    if tasks != [] {
      AdmittedOnly(s, tasks[..|tasks| - 1]);
      assert tasks[|tasks| - 1] in tasks;
    }
  }

  lemma SubmissionCounts(s: State, tasks: seq<Task>, limits: Limits)
    requires Inv(s, limits) && FreshIds(s, tasks)
    ensures Counts(s, AdmitAll(s, tasks))
  {
    hide Counts, AdmitAll;
    forall t | t in tasks ensures t.id !in s.results {
      OkAt(s, t.id, limits);
    }
    AdmittedOnly(s, tasks);
    NothingEnded(s, AdmitAll(s, tasks));
  }

  lemma FinishCounts(s: State, id: TaskId, ok: bool, limits: Limits)
    requires Inv(s, limits) && id in s.running
    ensures Counts(s, AfterFinish(s, id, ok))
  {
    OkAt(s, id, limits);
    FinishParts(s, id, ok);
    var after := AfterFinish(s, id, ok);
    hide Inv, Ok, AfterFinish, Counts;
    TheseEnded(s, after, {id}, after.results[id]);
  }

  lemma CancelledResults(s: State, id: TaskId)
    requires id in s.queue <==> id in s.results && s.results[id].Pending?
    requires id in s.queue ==> id !in s.running
    ensures AfterCancel(s, id).results == if id in s.queue then s.results[id := Cancelled] else s.results
  {
  }

  lemma CancelCounts(s: State, id: TaskId, limits: Limits)
    requires Inv(s, limits)
    ensures Counts(s, AfterCancel(s, id))
  {
    OkAt(s, id, limits);
    CancelParts(s, id);
    CancelledResults(s, id);
    var after := AfterCancel(s, id);
    hide Inv, Ok, Counts, AfterCancel;
    if id in s.queue {
      TheseEnded(s, after, {id}, Cancelled);
    } else {
      NothingEnded(s, after);
    }
  }

  lemma StopCounts(s: State, late: set<TaskId>, limits: Limits)
    requires Inv(s, limits)
    ensures Counts(s, AfterStop(s, late))
  {
    var after := AfterStop(s, late);
    forall id ensures id in s.queue <==> id in s.results && s.results[id].Pending? {
      OkAt(s, id, limits);
    }
    hide Inv, Counts;
    if s.stopping {
      NothingEnded(s, after);
    } else {
      assert |s.queue.Keys| == |s.queue|;
      TheseEnded(s, after, s.queue.Keys, Cancelled);
    }
  }

  lemma FireCounts(s: State, id: TaskId, limits: Limits)
    requires Inv(s, limits) && id in s.callbacks
    ensures Counts(s, AfterFire(s, id, limits))
  {
    OkAt(s, id, limits);
    FireCases(s, id, limits);
    hide Inv, Ok, Counts, AfterFire, Admit;
    NothingEnded(s, Fired(s, id));
    NothingEnded(s, s.(timers := s.timers + {id}));
    if id !in s.results && s.callbacks[id].task.id == id {
      OneAdmitted(s, Fired(s, id), s.callbacks[id].task);
    }
  }

  lemma OneAdmitted(s: State, fired: State, t: Task)
    requires t.id !in s.results && fired.results == s.results && SameCounters(s, fired)
    ensures Counts(s, Admit(fired, t))
  {
    hide Counts;
    NothingEnded(s, Admit(fired, t));
  }

  lemma StepCounts(s: State, step: Step, limits: Limits)
    requires Inv(s, limits) && Enabled(s, step, limits)
    ensures Counts(s, After(s, step, limits))
  {
    hide Inv, Counts, AdmitAll, AfterFinish, AfterCancel, AfterStop, AfterFire;
    NothingEnded(s, s);
    match step
    case Submit(task) => SubmissionCounts(s, [task], limits);
    case SubmitBatch(tasks) => SubmissionCounts(s, tasks, limits);
    case Cancel(id) => CancelCounts(s, id, limits);
    case Finish(id, ok) => FinishCounts(s, id, ok, limits);
    case Fire(id) => FireCounts(s, id, limits);
    case Stop(late) => StopCounts(s, late, limits);
    case _ => NothingEnded(s, After(s, step, limits));
  }

  /** In every run each counter is the number of tasks that ended with its status. */
  lemma {:induction false} CountersAreExact(history: map<TaskId, Status>, steps: seq<Step>, limits: Limits)
    requires Closed(history)
    ensures var start := Initial(history); var s := Run(start, steps, limits);
      && s.completed == Endings(start, steps, limits, Completed)
      && s.failed == Endings(start, steps, limits, Failed)
      && s.cancelledCount == Endings(start, steps, limits, Cancelled)
    decreases |steps|
  {
    hide Inv;
    if steps != [] {
      var front, last := steps[..|steps| - 1], steps[|steps| - 1];
      var before := Run(Initial(history), front, limits);
      CountersAreExact(history, front, limits);
      RunIsSafe(history, front, limits);
      NothingEnded(before, before);
      if Enabled(before, last, limits) {
        StepCounts(before, last, limits);
      }
      hide Enabled, After, Ended;
    }
  }
}
