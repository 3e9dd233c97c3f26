/** Theorems about whole runs of the task manager. */
module TaskRuns {
  import opened Common
  import opened TaskQueue
  import opened TaskScheduler
  import opened TaskSafety

  /** The task itself, the task it retries, and so on. */
  function Ancestors(id: TaskId): set<TaskId> {
    {id} + if id.RetryOf? then Ancestors(id.base) else {}
  }

  function Lineage(ids: set<TaskId>): set<TaskId> {
    set x, y | x in ids && y in Ancestors(x) :: y
  }

  /** A manager that has just started, with the history it loaded; interrupted results were
      closed while loading. The ids in it, and those they retried, count as used. */
  function Initial(history: map<TaskId, Status>): State {
    State(map[], history, map[], {}, {}, map[], false, 0, 0, 0, 0, 0, map[], Lineage(history.Keys), {}, [], {})
  }

  ghost predicate Closed(history: map<TaskId, Status>) {
    forall id :: id in history ==> Terminal(history[id])
  }

  lemma {:induction false} AncestorsAreClosed(id: TaskId, x: TaskId)
    requires x in Ancestors(id) && x.RetryOf?
    ensures x.base in Ancestors(id)
    decreases id
  {
    if x == id {
      assert x.base in Ancestors(x.base);
    } else {
      AncestorsAreClosed(id.base, x);
    }
  }

  lemma InitialIsFine(history: map<TaskId, Status>, limits: Limits)
    requires Closed(history)
    ensures Inv(Initial(history), limits) && Spent(Initial(history)) == 0
  {
    var s := Initial(history);
    forall id ensures Ok(s, id) {
      if id in history {
        assert id in Ancestors(id);
      }
      if id.RetryOf? && id in s.used {
        var x :| x in history && id in Ancestors(x);
        AncestorsAreClosed(x, id);
      }
    }
  }

  // ----- executions -----

  lemma AdmitSpends(s: State, t: Task)
    requires t.id !in s.queue
    ensures Spent(Admit(s, t)) == Spent(s) + Weight(t)
  {
    SumAdd(s.queue, t.id, Entry(t, s.sequence + 1));
  }

  lemma {:induction false} AdmitAllSpends(s: State, tasks: seq<Task>, limits: Limits)
    requires Inv(s, limits) && !s.stopping && |tasks| <= limits.maxQueue - |s.queue| && FreshIds(s, tasks)
    ensures Spent(AdmitAll(s, tasks)) == Spent(s) + Weights(tasks)
    decreases |tasks|
  {
    hide Inv, Spent;
    if tasks != [] {
      var front, last := tasks[..|tasks| - 1], tasks[|tasks| - 1];
      AdmitAllSpends(s, front, limits);
      AdmitAllKeepsInv(s, front, limits);
      var middle := AdmitAll(s, front);
      assert tasks == front + [last];
      assert last.id !in middle.used;
      OkAt(middle, last.id, limits);
      AdmitSpends(middle, last);
    }
  }

  lemma StartSpends(s: State, worker: nat, id: TaskId, limits: Limits)
    requires Inv(s, limits) && id in s.queue
    ensures Spent(AfterStart(s, worker, id)) <= Spent(s)
  {
    hide Inv;
    OkAt(s, id, limits);
    SumSplit(s.queue, id);
    SumAdd(s.running, id, s.queue[id]);
  }

  lemma FinishSpends(s: State, id: TaskId, ok: bool, limits: Limits)
    requires Inv(s, limits) && id in s.running
    ensures Spent(AfterFinish(s, id, ok)) <= Spent(s)
  {
    hide Inv, AfterFinish;
    var retry := Retry(s.running[id].task);
    OkAt(s, id, limits);
    FinishParts(s, id, ok);
    OkAt(s, retry.id, limits);
    SumSplit(s.running, id);
    SmallerWithout(s.running, id);
    SumAdd(s.callbacks, retry.id, Entry(retry, 0));
  }

  lemma FireSpends(s: State, id: TaskId, limits: Limits)
    requires Inv(s, limits) && id in s.callbacks
    ensures Spent(AfterFire(s, id, limits)) <= Spent(s)
  {
    hide Inv;
    OkAt(s, id, limits);
    SumSplit(s.callbacks, id);
    AdmitSpends(Fired(s, id), s.callbacks[id].task);
  }

  lemma CancelSpends(s: State, id: TaskId)
    ensures Spent(AfterCancel(s, id)) <= Spent(s)
  {
    SumLess(Without(s.queue, id), s.queue);
  }

  lemma StopSpends(s: State, late: set<TaskId>)
    ensures Spent(AfterStop(s, late)) <= Spent(s)
  {
    SumLess(AfterStop(s, late).callbacks, s.callbacks);
  }

  /** Only submissions from outside raise what may still be executed, and by no more than they promise. */
  lemma StepSpends(s: State, step: Step, limits: Limits)
    requires Inv(s, limits) && Enabled(s, step, limits)
    ensures Spent(After(s, step, limits)) <= Spent(s) + Promise(s, step, limits)
  {
    hide Inv;
    match step
    case Submit(task) =>
      if !s.stopping && !Full(s, limits) {
        AdmitAllSpends(s, [task], limits);
      }
    case SubmitBatch(tasks) =>
      if !s.stopping && |tasks| <= limits.maxQueue - |s.queue| {
        AdmitAllSpends(s, tasks, limits);
      }
    case Start(worker, id) => StartSpends(s, worker, id, limits);
    case Finish(id, ok) => FinishSpends(s, id, ok, limits);
    case Fire(id) => FireSpends(s, id, limits);
    case Cancel(id) => CancelSpends(s, id);
    case Stop(late) => StopSpends(s, late);
    case ForceCancel =>
    case Cleanup(expired) =>
  }

  /** In every reachable state the invariant holds, and the executions so far, together with
      those that active tasks may still lead to, stay within what was promised. */
  lemma {:induction false} RunIsSafe(history: map<TaskId, Status>, steps: seq<Step>, limits: Limits)
    requires Closed(history)
    ensures var s := Run(Initial(history), steps, limits);
      Inv(s, limits) && Spent(s) <= Promised(Initial(history), steps, limits)
    decreases |steps|
  {
    hide Inv, Spent;
    InitialIsFine(history, limits);
    if steps != [] {
      var before := Run(Initial(history), steps[..|steps| - 1], limits);
      RunIsSafe(history, steps[..|steps| - 1], limits);
      if Enabled(before, steps[|steps| - 1], limits) {
        StepKeepsInv(before, steps[|steps| - 1], limits);
        StepSpends(before, steps[|steps| - 1], limits);
      }
    }
  }

  /** No run executes more than one attempt and the allowed retries for each task that was
      accepted from outside. */
  lemma ExecutionsAreBounded(history: map<TaskId, Status>, steps: seq<Step>, limits: Limits)
    requires Closed(history)
    ensures |Run(Initial(history), steps, limits).started| <= Promised(Initial(history), steps, limits)
  {
    RunIsSafe(history, steps, limits);
    SpentCounts(Run(Initial(history), steps, limits));
  }

  lemma SpentCounts(s: State)
    ensures |s.started| <= Spent(s)
  {
    SumCounts(s.running);
  }

  // ----- what a reader of the statistics and statuses sees -----

  /** The statistics add up, bounds are kept, and statuses match places in every reachable state. */
  lemma StatisticsAddUp(history: map<TaskId, Status>, steps: seq<Step>, limits: Limits, id: TaskId)
    requires Closed(history)
    ensures var s := Run(Initial(history), steps, limits);
      && s.total == s.completed + s.failed + s.cancelledCount + |s.queue| + |s.running|
      && |s.queue| <= limits.maxQueue && |s.running| <= limits.workers
      && (id in s.queue <==> id in s.results && s.results[id].Pending?)
      && (id in s.running <==> id in s.results && s.results[id].Running?)
      && s.cancelled <= s.running.Keys
  {
    RunIsSafe(history, steps, limits);
    var s := Run(Initial(history), steps, limits);
    SeatsBound(s, limits);
    assert Ok(s, id);
    forall x | x in s.cancelled ensures x in s.running {
      assert Ok(s, x);
    }
  }

  /** A worker never skips what it popped and finish always finds a result, even while cleanup
      removes old ones. */
  lemma NoResultIsMissing(history: map<TaskId, Status>, steps: seq<Step>, limits: Limits, id: TaskId)
    requires Closed(history)
    ensures var s := Run(Initial(history), steps, limits);
      && (id in s.queue ==> id in s.results && !s.results[id].Cancelled?)
      && (id in s.running ==> id in s.results)
  {
    RunIsSafe(history, steps, limits);
    assert Ok(Run(Initial(history), steps, limits), id);
  }

  /** Of two starts with equal priority the earlier one was submitted earlier. */
  lemma EqualPrioritiesStartInOrder(history: map<TaskId, Status>, steps: seq<Step>, limits: Limits, i: nat, j: nat)
    requires Closed(history)
    requires i < j < |Run(Initial(history), steps, limits).started|
    ensures var started := Run(Initial(history), steps, limits).started;
      started[i].task.priority == started[j].task.priority ==> started[i].sequence < started[j].sequence
  {
    RunIsSafe(history, steps, limits);
  }

  lemma {:induction false} RunKeepsInv(s: State, steps: seq<Step>, limits: Limits)
    requires Inv(s, limits)
    ensures Inv(Run(s, steps, limits), limits)
    decreases |steps|
  {
    if steps != [] {
      var before := Run(s, steps[..|steps| - 1], limits);
      RunKeepsInv(s, steps[..|steps| - 1], limits);
      if Enabled(before, steps[|steps| - 1], limits) {
        StepKeepsInv(before, steps[|steps| - 1], limits);
      }
    }
  }

  /** AdmitAll leaves alone everything that is not admitted. */
  lemma {:induction false} AdmitAllTouchesOnlyNew(s: State, tasks: seq<Task>, id: TaskId)
    requires forall i | 0 <= i < |tasks| :: tasks[i].id != id
    ensures var s' := AdmitAll(s, tasks);
      && (id in s'.results <==> id in s.results) && (id in s.results ==> s'.results[id] == s.results[id])
      && s'.revoked == s.revoked && s'.started == s.started && s'.callbacks == s.callbacks && s'.stopping == s.stopping
      && s.admitted <= s'.admitted
    decreases |tasks|
  {
    if tasks != [] {
      AdmitAllTouchesOnlyNew(s, tasks[..|tasks| - 1], id);
    }
  }

  // ----- cancellation -----

  /** Where a task whose cancellation succeeded can still be. */
  predicate OnlyCancelled(s: State, id: TaskId) {
    && id !in s.queue && id !in s.callbacks
    && (id in s.results ==> s.results[id].Cancelled? || (s.results[id].Running? && id in s.cancelled))
  }

  lemma StepKeepsRevoked(s: State, step: Step, limits: Limits, id: TaskId)
    requires Inv(s, limits) && Enabled(s, step, limits) && id in s.revoked
    ensures id in After(s, step, limits).revoked
  {
    if step.Submit? {
      OkAt(s, id, limits);
      AdmitAllTouchesOnlyNew(s, [step.task], id);
    } else if step.SubmitBatch? {
      OkAt(s, id, limits);
      AdmitAllTouchesOnlyNew(s, step.tasks, id);
    }
  }

  /** Once Cancel returned true for a task, it can only end as cancelled and is never retried. */
  lemma {:induction false} CancelledForGood(s: State, id: TaskId, steps: seq<Step>, limits: Limits)
    requires Inv(s, limits) && CancelSucceeds(s, id)
    ensures var late := Run(AfterCancel(s, id), steps, limits);
      && id in late.revoked && OnlyCancelled(late, id)
      && forall n :: RetryOf(id, n) !in late.used
    decreases |steps|
  {
    CancelKeepsInv(s, id, limits);
    var late := Run(AfterCancel(s, id), steps, limits);
    RunKeepsInv(AfterCancel(s, id), steps, limits);
    if steps != [] {
      var front := steps[..|steps| - 1];
      CancelledForGood(s, id, front, limits);
      var before := Run(AfterCancel(s, id), front, limits);
      RunKeepsInv(AfterCancel(s, id), front, limits);
      if Enabled(before, steps[|steps| - 1], limits) {
        StepKeepsRevoked(before, steps[|steps| - 1], limits, id);
      }
    }
    RevokedIsOnlyCancelled(late, id, limits);
  }

  lemma RevokedIsOnlyCancelled(s: State, id: TaskId, limits: Limits)
    requires Inv(s, limits) && id in s.revoked
    ensures OnlyCancelled(s, id) && forall n :: RetryOf(id, n) !in s.used
  {
    OkAt(s, id, limits);
    forall n ensures RetryOf(id, n) !in s.used {
      OkAt(s, RetryOf(id, n), limits);
    }
  }

  /** A terminal status is final: later it is the same or has been cleaned up. */
  lemma {:induction false} TerminalForGood(s: State, steps: seq<Step>, limits: Limits, id: TaskId)
    requires Inv(s, limits) && id in s.results && Terminal(s.results[id])
    ensures var late := Run(s, steps, limits);
      && (id in late.results ==> late.results[id] == s.results[id])
      && id in late.used && id !in Active(late)
    decreases |steps|
  {
    RunKeepsInv(s, steps, limits);
    OkAt(s, id, limits);
    if steps != [] {
      var front, step := steps[..|steps| - 1], steps[|steps| - 1];
      var before := Run(s, front, limits);
      TerminalForGood(s, front, limits, id);
      RunKeepsInv(s, front, limits);
      if Enabled(before, step, limits) {
        TerminalStep(before, step, limits, id);
      }
    }
  }

  /** The task is over, and its result is unchanged or gone. */
  predicate StillOver(s: State, s': State, id: TaskId) {
    && (id in s'.results ==> id in s.results && s'.results[id] == s.results[id])
    && id in s'.used && id !in s'.queue && id !in s'.running && id !in s'.callbacks
  }

  lemma TerminalFinish(s: State, limits: Limits, id: TaskId, other: TaskId, ok: bool)
    requires Inv(s, limits) && id in s.used && id !in Active(s) && other in s.running
    ensures StillOver(s, AfterFinish(s, other, ok), id)
  {
    hide Inv, Ok, AfterFinish;
    RetryIsNew(s, other, limits);
    FinishParts(s, other, ok);
  }

  lemma RetryIsNew(s: State, id: TaskId, limits: Limits)
    requires Inv(s, limits) && id in s.running
    ensures Retry(s.running[id].task).id !in s.used && id in s.results
  {
    OkAt(s, id, limits);
    OkAt(s, Retry(s.running[id].task).id, limits);
  }

  lemma TerminalAdmit(s: State, tasks: seq<Task>, id: TaskId)
    requires FreshIds(s, tasks) && id in s.used && id !in Active(s)
    ensures StillOver(s, AdmitAll(s, tasks), id) && StillOver(s, s, id)
  {
    AdmitAllAddsOnly(s, tasks, id);
  }

  lemma TerminalCancel(s: State, other: TaskId, id: TaskId)
    requires id in s.used && id !in Active(s) && Ok(s, id)
    ensures StillOver(s, AfterCancel(s, other), id)
  {
  }

  lemma TerminalFire(s: State, other: TaskId, limits: Limits, id: TaskId)
    requires id in s.used && id !in Active(s) && Inv(s, limits) && other in s.callbacks
    ensures StillOver(s, AfterFire(s, other, limits), id)
  {
    hide Inv, Admissible;
    FiredKeepsInv(s, other, limits);
  }

  lemma TerminalIdle(s: State, step: Step, limits: Limits, id: TaskId)
    requires Enabled(s, step, limits) && id in s.used && id !in Active(s)
    ensures step.Start? || step.ForceCancel? || step.Cleanup? ==> StillOver(s, After(s, step, limits), id)
  {
    hide AfterFinish, AfterFire, AfterCancel, AfterStop, AdmitAll;
  }

  lemma TerminalStop(s: State, late: set<TaskId>, id: TaskId)
    requires id in s.used && id !in Active(s)
    ensures StillOver(s, AfterStop(s, late), id)
  {
  }

  lemma TerminalStep(s: State, step: Step, limits: Limits, id: TaskId)
    requires Inv(s, limits) && Enabled(s, step, limits)
    requires id in s.used && id !in Active(s)
    ensures StillOver(s, After(s, step, limits), id)
  {
    OkAt(s, id, limits);
    TerminalIdle(s, step, limits, id);
    hide Inv, Ok, AfterStart, AfterFinish, AfterFire, AfterCancel, AfterStop, AdmitAll, StillOver;
    match step
    case Finish(other, ok) => TerminalFinish(s, limits, id, other, ok);
    case Submit(task) => TerminalAdmit(s, [task], id);
    case SubmitBatch(tasks) => TerminalAdmit(s, tasks, id);
    case Cancel(other) => TerminalCancel(s, other, id);
    case Start(_, other) =>
    case Fire(other) => TerminalFire(s, other, limits, id);
    case Stop(late) => TerminalStop(s, late, id);
    case ForceCancel =>
    case Cleanup(expired) =>
  }

  lemma {:induction false} AdmitAllAddsOnly(s: State, tasks: seq<Task>, id: TaskId)
    requires forall i | 0 <= i < |tasks| :: tasks[i].id != id
    ensures var s' := AdmitAll(s, tasks);
      && (id in s'.results <==> id in s.results) && (id in s.results ==> s'.results[id] == s.results[id])
      && (id in Active(s') <==> id in Active(s)) && s.used <= s'.used
    decreases |tasks|
  {
    if tasks != [] {
      AdmitAllAddsOnly(s, tasks[..|tasks| - 1], id);
    }
  }

  // ----- shutdown -----

  /** After Stop nothing is admitted, nothing starts and no retry is scheduled. */
  lemma {:induction false} StopIsFinal(s: State, steps: seq<Step>, limits: Limits)
    requires Inv(s, limits) && s.stopping
    ensures var late := Run(s, steps, limits);
      && late.stopping && late.started == s.started && late.admitted == s.admitted && late.total == s.total
      && late.callbacks.Keys <= s.callbacks.Keys && late.queue == map[]
      && late.running.Keys <= s.running.Keys
    decreases |steps|
  {
    RunKeepsInv(s, steps, limits);
    hide Inv;
    if steps != [] {
      var front, step := steps[..|steps| - 1], steps[|steps| - 1];
      StopIsFinal(s, front, limits);
      if Enabled(Run(s, front, limits), step, limits) {
        StepAfterStop(Run(s, front, limits), step, limits);
      }
    }
    EmptyWhenStopping(Run(s, steps, limits), limits);
  }

  lemma StepAfterStop(s: State, step: Step, limits: Limits)
    requires s.stopping && s.queue == map[] && Enabled(s, step, limits)
    ensures var s' := After(s, step, limits);
      && s'.stopping && s'.started == s.started && s'.admitted == s.admitted && s'.total == s.total
      && s'.callbacks.Keys <= s.callbacks.Keys && s'.running.Keys <= s.running.Keys
  {
  }

  lemma EmptyWhenStopping(s: State, limits: Limits)
    requires Inv(s, limits) && s.stopping
    ensures s.queue == map[]
  {
    forall id ensures id !in s.queue {
      OkAt(s, id, limits);
    }
  }

  // ----- retries -----

  /** A failed attempt with budget left schedules exactly one retry, unless it was cancelled or
      the manager is stopping. */
  lemma FailureSchedulesOneRetry(s: State, id: TaskId, limits: Limits)
    requires Inv(s, limits) && id in s.running
    ensures var t := s.running[id].task; var s' := AfterFinish(s, id, false);
      var retry := Task(RetryOf(t.id, t.retryCount + 1), t.priority, t.maxRetries, t.retryCount + 1);
      if id !in s.cancelled && t.retryCount < t.maxRetries && !s.stopping
      then retry.id !in s.used && s'.callbacks == s.callbacks[retry.id := Entry(retry, 0)]
      else s'.callbacks == s.callbacks
  {
    OkAt(s, id, limits);
    OkAt(s, Retry(s.running[id].task).id, limits);
    FinishParts(s, id, false);
    hide Inv, Ok, AfterFinish;
  }

  /** Until shutdown a scheduled retry is waiting or has been admitted; a full queue only delays it. */
  lemma {:induction false} RetryIsNotLost(s: State, steps: seq<Step>, limits: Limits, id: TaskId)
    requires Inv(s, limits) && id in s.callbacks && !Run(s, steps, limits).stopping
    ensures var late := Run(s, steps, limits);
      (id in late.callbacks && late.callbacks[id] == s.callbacks[id]) || id in late.admitted
    decreases |steps|
  {
    if steps != [] {
      var front, step := steps[..|steps| - 1], steps[|steps| - 1];
      var before := Run(s, front, limits);
      RunKeepsInv(s, front, limits);
      if Enabled(before, step, limits) {
        StepKeepsRetry(before, step, limits, id);
      }
      RetryIsNotLost(s, front, limits, id);
    }
  }

  /** The retry is still waiting, unchanged, or has been admitted. */
  predicate Kept(s: State, s': State, id: TaskId) {
    && (id in s.admitted ==> id in s'.admitted)
    && (id in s.callbacks ==> (id in s'.callbacks && s'.callbacks[id] == s.callbacks[id]) || id in s'.admitted)
  }

  lemma FinishKeepsRetry(s: State, other: TaskId, ok: bool, limits: Limits, id: TaskId)
    requires Inv(s, limits) && other in s.running
    ensures Kept(s, AfterFinish(s, other, ok), id)
  {
    hide Inv, Ok, AfterFinish;
    CallbackIsUsed(s, id, limits);
    RetryIsNew(s, other, limits);
    FinishParts(s, other, ok);
  }

  lemma CallbackIsUsed(s: State, id: TaskId, limits: Limits)
    requires Inv(s, limits)
    ensures id in s.callbacks ==> id in s.used
  {
    OkAt(s, id, limits);
  }

  lemma FireKeepsRetry(s: State, other: TaskId, limits: Limits, id: TaskId)
    requires Inv(s, limits) && other in s.callbacks && !s.stopping
    ensures Kept(s, AfterFire(s, other, limits), id)
  {
    OkAt(s, other, limits);
  }

  lemma StepKeepsRetry(s: State, step: Step, limits: Limits, id: TaskId)
    requires Inv(s, limits) && Enabled(s, step, limits)
    ensures s.stopping ==> After(s, step, limits).stopping
    ensures !After(s, step, limits).stopping ==> Kept(s, After(s, step, limits), id)
  {
    hide Inv, Ok;
    match step
    case Finish(other, ok) => FinishKeepsRetry(s, other, ok, limits, id);
    case Fire(other) =>
      if !s.stopping {
        FireKeepsRetry(s, other, limits, id);
      }
    case Submit(task) => AdmitAllGrows(s, [task]);
    case SubmitBatch(tasks) => AdmitAllGrows(s, tasks);
    case Cancel(other) =>
    case Start(_, other) =>
    case Stop(late) =>
    case ForceCancel =>
    case Cleanup(expired) =>
  }

  lemma {:induction false} AdmitAllGrows(s: State, tasks: seq<Task>)
    ensures var s' := AdmitAll(s, tasks);
      s.admitted <= s'.admitted && s'.callbacks == s.callbacks && s'.stopping == s.stopping
    decreases |tasks|
  {
    if tasks != [] {
      AdmitAllGrows(s, tasks[..|tasks| - 1]);
    }
  }

  /** A batch is admitted as a whole or leaves the state as it was. */
  lemma BatchIsAllOrNothing(s: State, tasks: seq<Task>, limits: Limits)
    requires Inv(s, limits) && Enabled(s, SubmitBatch(tasks), limits)
    ensures var s' := After(s, SubmitBatch(tasks), limits);
      if !s.stopping && |s.queue| + |tasks| <= limits.maxQueue
      then |s'.queue| == |s.queue| + |tasks| && s'.total == s.total + |tasks|
           && forall i | 0 <= i < |tasks| ::
                tasks[i].id in s'.queue && s'.queue[tasks[i].id] == Entry(tasks[i], s.sequence + i + 1)
      else s' == s
  {
    if !s.stopping && |s.queue| + |tasks| <= limits.maxQueue {
      AdmitAllKeepsInv(s, tasks, limits);
      AdmitAllQueues(s, tasks);
      hide AdmitAll, Inv;
    }
  }

  /** The tasks are queued under ascending sequence numbers. */
  lemma {:induction false} AdmitAllQueues(s: State, tasks: seq<Task>)
    requires forall i, j | 0 <= i < j < |tasks| :: tasks[i].id != tasks[j].id
    ensures var s' := AdmitAll(s, tasks);
      && s'.total == s.total + |tasks| && s'.sequence == s.sequence + |tasks|
      && forall i | 0 <= i < |tasks| ::
           tasks[i].id in s'.queue && s'.queue[tasks[i].id] == Entry(tasks[i], s.sequence + i + 1)
    decreases |tasks|
  {
    if tasks != [] {
      AdmitAllQueues(s, tasks[..|tasks| - 1]);
    }
  }
}
