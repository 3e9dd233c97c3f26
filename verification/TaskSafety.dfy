/** What no run of the task manager can break. */
module TaskSafety {
  import opened Common
  import opened TaskQueue
  import opened TaskScheduler

  /** An id that may enter the queue. */
  ghost predicate Admissible(s: State, t: Task) {
    && t.id !in Active(s) && t.id !in s.results && t.id !in s.admitted && t.id !in s.revoked
    && (forall n :: RetryOf(t.id, n) !in s.used)
    && (t.id.RetryOf? ==> t.id.base in s.used && t.id.base !in Active(s) && t.id.base !in s.revoked)
  }

  lemma AdmitIsTidy(s: State, t: Task)
    requires Tidy(s) && !s.stopping && Admissible(s, t)
    ensures Tidy(Admit(s, t))
  {
    var s' := Admit(s, t);
    forall id ensures Ok(s', id) {
      assert Ok(s, id);
      assert id.RetryOf? ==> id == RetryOf(id.base, id.attempt);
    }
  }

  lemma AdmitIsInOrder(s: State, t: Task)
    requires InOrder(s)
    ensures InOrder(Admit(s, t))
  {
  }

  lemma AdmitKeepsInv(s: State, t: Task, limits: Limits)
    requires Inv(s, limits) && !s.stopping && |s.queue| < limits.maxQueue && Admissible(s, t)
    ensures var s' := Admit(s, t);
      Inv(s', limits) && !s'.stopping && |s'.queue| == |s.queue| + 1 && s'.used == s.used + {t.id}
  {
    hide Tidy, InOrder;
    AdmitIsTidy(s, t);
    AdmitIsInOrder(s, t);
  }

  lemma FreshIsAdmissible(s: State, t: Task, limits: Limits)
    requires Inv(s, limits) && t.id !in s.used && t.id.External?
    ensures Admissible(s, t)
  {
    assert Ok(s, t.id);
    forall n ensures RetryOf(t.id, n) !in s.used {
      assert Ok(s, RetryOf(t.id, n));
    }
  }

  /** The whole batch goes in, one task after the other. */
  lemma {:induction false} AdmitAllKeepsInv(s: State, tasks: seq<Task>, limits: Limits)
    requires Inv(s, limits) && !s.stopping && |tasks| <= limits.maxQueue - |s.queue| && FreshIds(s, tasks)
    ensures var s' := AdmitAll(s, tasks);
      && Inv(s', limits) && !s'.stopping && |s'.queue| == |s.queue| + |tasks|
      && s'.used == s.used + (set t | t in tasks :: t.id)
    decreases |tasks|
  {
    hide Inv, Admissible, Admit;
    if tasks != [] {
      var front, last := tasks[..|tasks| - 1], tasks[|tasks| - 1];
      AdmitAllKeepsInv(s, front, limits);
      var middle := AdmitAll(s, front);
      assert tasks == front + [last];
      assert last.id !in middle.used;
      FreshIsAdmissible(middle, last, limits);
      AdmitKeepsInv(middle, last, limits);
    }
  }

  lemma StartIsTidy(s: State, worker: nat, id: TaskId)
    requires Tidy(s) && id in s.queue
    ensures id in s.results && s.results[id].Pending?
    ensures Tidy(AfterStart(s, worker, id))
  {
    var s' := AfterStart(s, worker, id);
    assert Ok(s, id);
    forall x ensures Ok(s', x) {
      assert Ok(s, x);
    }
  }

  lemma StartIsInOrder(s: State, worker: nat, id: TaskId, limits: Limits)
    requires InOrder(s) && Enabled(s, Start(worker, id), limits)
    ensures InOrder(AfterStart(s, worker, id))
  {
  }

  lemma StartKeepsInv(s: State, worker: nat, id: TaskId, limits: Limits)
    requires Inv(s, limits) && Enabled(s, Start(worker, id), limits)
    ensures Inv(AfterStart(s, worker, id), limits)
    ensures id in s.results && s.results[id].Pending?
  {
    hide Tidy, InOrder, Ok, Seated;
    StartIsTidy(s, worker, id);
    StartIsInOrder(s, worker, id, limits);
    StartIsSeated(s, worker, id, limits);
    SmallerWithout(s.queue, id);
  }

  lemma StartIsSeated(s: State, worker: nat, id: TaskId, limits: Limits)
    requires Tidy(s) && Seated(s, limits) && Enabled(s, Start(worker, id), limits)
    ensures Seated(AfterStart(s, worker, id), limits) && |AfterStart(s, worker, id).running| == |s.running| + 1
  {
    assert Ok(s, id);
    hide Tidy, Seated;
    OneMoreSeat(s, AfterStart(s, worker, id), worker, id, s.queue[id], limits);
  }

  lemma OneMoreSeat(s: State, s': State, worker: nat, id: TaskId, e: Entry, limits: Limits)
    requires Seated(s, limits) && id !in s.running && worker < limits.workers && worker !in s.seats.Values
    requires s'.running == s.running[id := e] && s'.seats == s.seats[id := worker]
    ensures Seated(s', limits) && |s'.running| == |s.running| + 1
  {
    assert s'.running.Keys == s.running.Keys + {id};
    forall a | a in s.seats ensures s.seats[a] != worker {
      assert s.seats[a] in s.seats.Values;
    }
    Apart(s.seats, worker, id);
  }

  /** A free seat added to seats that are all different. */
  lemma Apart(seats: map<TaskId, nat>, worker: nat, id: TaskId)
    requires forall a, b :: a in seats && b in seats && seats[a] == seats[b] ==> a == b
    requires id !in seats && forall a :: a in seats ==> seats[a] != worker
    ensures var more := seats[id := worker];
      forall a, b :: a in more && b in more && more[a] == more[b] ==> a == b
  {
  }

  lemma SameSeats(s: State, s': State, limits: Limits)
    requires Seated(s, limits) && s'.running == s.running && s'.seats == s.seats
    ensures Seated(s', limits)
  {
  }

  /** The workers that are busy are as many as the running tasks, so never more than there are. */
  lemma SeatsBound(s: State, limits: Limits)
    requires Seated(s, limits)
    ensures |s.running| <= limits.workers
  {
    assert s.running.Keys == s.seats.Keys;
    SeatsFit(s.seats, limits.workers);
  }

  lemma {:induction false} SeatsFit(seats: map<TaskId, nat>, workers: nat)
    requires forall a :: a in seats ==> seats[a] < workers
    requires forall a, b :: a in seats && b in seats && seats[a] == seats[b] ==> a == b
    ensures |seats| <= workers
    decreases workers
  {
    if workers > 0 {
      if a :| a in seats && seats[a] == workers - 1 {
        SmallerWithout(seats, a);
        SeatsFit(Without(seats, a), workers - 1);
      } else {
        SeatsFit(seats, workers - 1);
      }
    } else {
      assert seats == map[];
    }
  }

  /** A finished task without a retry. */
  lemma OverIsTidy(s: State, id: TaskId, status: Status, completed: int, failed: int, cancelledCount: int)
    requires Tidy(s) && id in s.running && Terminal(status) && (id in s.cancelled ==> status.Cancelled?)
    ensures id in s.results
    ensures Tidy(s.(running := Without(s.running, id), seats := Without(s.seats, id), cancelled := s.cancelled - {id},
                    results := s.results[id := status],
                    completed := completed, failed := failed, cancelledCount := cancelledCount))
  {
    var s' := s.(running := Without(s.running, id), seats := Without(s.seats, id), cancelled := s.cancelled - {id},
                 results := s.results[id := status],
                 completed := completed, failed := failed, cancelledCount := cancelledCount);
    assert Ok(s, id);
    forall x ensures Ok(s', x) {
      assert Ok(s, x);
    }
  }

  /** Scheduling the retry of a task that is over. */
  lemma RetryIsTidy(s: State, t: Task)
    requires Tidy(s) && !s.stopping && t.id !in Active(s) && t.id in s.used && t.id !in s.revoked
    requires Retry(t).id !in s.used
    ensures Tidy(Scheduled(s, Retry(t)))
  {
    var retry := Retry(t);
    var s' := Scheduled(s, retry);
    assert Ok(s, retry.id);
    forall x ensures Ok(s', x) {
      assert Ok(s, x);
    }
  }

  lemma FinishIsTidy(s: State, id: TaskId, ok: bool)
    requires Tidy(s) && id in s.running
    ensures Tidy(AfterFinish(s, id, ok))
    ensures id in s.results
  {
    var t := s.running[id].task;
    assert Ok(s, id) && Ok(s, Retry(t).id);
    hide Tidy, Ok;
    if id in s.cancelled {
      OverIsTidy(s, id, Cancelled, s.completed, s.failed, s.cancelledCount + 1);
    } else if ok {
      OverIsTidy(s, id, Completed, s.completed + 1, s.failed, s.cancelledCount);
    } else {
      OverIsTidy(s, id, Failed, s.completed, s.failed + 1, s.cancelledCount);
      if t.retryCount < t.maxRetries && !s.stopping {
        RunningIsFree(s, id);
        RetryIsTidy(s.(running := Without(s.running, id), seats := Without(s.seats, id),
                       cancelled := s.cancelled - {id},
                       results := s.results[id := Failed], failed := s.failed + 1), t);
      }
    }
  }

  lemma OkAt(s: State, id: TaskId, limits: Limits)
    requires Inv(s, limits)
    ensures Ok(s, id)
  {
  }

  lemma RunningIsFree(s: State, id: TaskId)
    requires Tidy(s) && id in s.running
    ensures s.running[id].task.id == id && id in s.used && id !in s.queue && id !in s.callbacks
    ensures id !in s.cancelled ==> id !in s.revoked
    ensures forall n :: RetryOf(id, n) !in s.used
  {
    assert Ok(s, id);
    forall n ensures RetryOf(id, n) !in s.used {
      assert Ok(s, RetryOf(id, n));
    }
  }

  lemma StaysInOrder(s: State, s': State)
    requires InOrder(s) && s'.sequence == s.sequence && s'.started == s.started
    requires forall x :: x in s'.queue ==> x in s.queue && s'.queue[x] == s.queue[x]
    ensures InOrder(s')
  {
  }

  /** What finish does not touch, and what it counts. */
  lemma FinishParts(s: State, id: TaskId, ok: bool)
    requires id in s.running && id in s.results
    ensures var s' := AfterFinish(s, id, ok);
      && s'.queue == s.queue && s'.sequence == s.sequence && s'.started == s.started && s'.stopping == s.stopping
      && s'.running == Without(s.running, id) && s'.total == s.total && s'.revoked == s.revoked
      && s'.admitted == s.admitted
      && s'.cancelledCount == s.cancelledCount + (if id in s.cancelled then 1 else 0)
      && s'.completed == s.completed + (if id !in s.cancelled && ok then 1 else 0)
      && s'.failed == s.failed + (if id !in s.cancelled && !ok then 1 else 0)
      && s'.seats == Without(s.seats, id) && s'.cancelled == s.cancelled - {id}
      && s'.results == s.results[id := if id in s.cancelled then Cancelled else if ok then Completed else Failed]
      && var t := s.running[id].task;
      var retry := Task(RetryOf(t.id, t.retryCount + 1), t.priority, t.maxRetries, t.retryCount + 1);
      if RetryDue(s, id, ok)
      then
        && s'.callbacks == s.callbacks[retry.id := Entry(retry, 0)]
        && s'.timers == s.timers + {retry.id} && s'.used == s.used + {retry.id}
      else s'.callbacks == s.callbacks && s'.timers == s.timers && s'.used == s.used
  {
  }

  /** The attempt failed with retries left, nobody cancelled it, and the manager is not stopping. */
  predicate RetryDue(s: State, id: TaskId, ok: bool)
    requires id in s.running
  {
    !ok && id !in s.cancelled && s.running[id].task.retryCount < s.running[id].task.maxRetries && !s.stopping
  }

  lemma FinishKeepsInv(s: State, id: TaskId, ok: bool, limits: Limits)
    requires Inv(s, limits) && id in s.running
    ensures Inv(AfterFinish(s, id, ok), limits)
  {
    hide Tidy, InOrder, AfterFinish;
    FinishIsTidy(s, id, ok);
    FinishParts(s, id, ok);
    StaysInOrder(s, AfterFinish(s, id, ok));
    SmallerWithout(s.running, id);
  }

  /** The state in which a fired timer tries to submit its retry. */
  function Fired(s: State, id: TaskId): State {
    s.(timers := s.timers - {id}, callbacks := Without(s.callbacks, id))
  }

  lemma FiredIsTidy(s: State, id: TaskId)
    requires Tidy(s) && id in s.callbacks
    ensures Tidy(Fired(s, id)) && Admissible(Fired(s, id), s.callbacks[id].task)
  {
    var fired := Fired(s, id);
    forall x ensures Ok(fired, x) {
      assert Ok(s, x);
    }
    assert Ok(s, id);
    forall n ensures RetryOf(id, n) !in s.used {
      assert Ok(s, RetryOf(id, n));
    }
  }

  lemma FiredKeepsInv(s: State, id: TaskId, limits: Limits)
    requires Inv(s, limits) && id in s.callbacks
    ensures Inv(Fired(s, id), limits) && Admissible(Fired(s, id), s.callbacks[id].task)
    ensures s.callbacks[id].task.id == id && (!s.stopping ==> id in s.timers)
  {
    FiredIsTidy(s, id);
    StaysInOrder(s, Fired(s, id));
    assert Ok(s, id);
  }

  lemma FireCases(s: State, id: TaskId, limits: Limits)
    requires id in s.callbacks
    ensures var fired := Fired(s, id);
      && fired.queue == s.queue && fired.stopping == s.stopping && (Full(fired, limits) <==> Full(s, limits))
      && AfterFire(s, id, limits) == (if s.stopping then fired
                                      else if Full(s, limits) then s.(timers := s.timers + {id})
                                      else Admit(fired, s.callbacks[id].task))
  {
  }

  lemma FireKeepsInv(s: State, id: TaskId, limits: Limits)
    requires Inv(s, limits) && id in s.callbacks
    ensures Inv(AfterFire(s, id, limits), limits)
  {
    hide Inv, Admissible, Admit, AfterFire, Fired;
    FiredKeepsInv(s, id, limits);
    FireCases(s, id, limits);
    if !s.stopping && Full(s, limits) {
      assert s.timers + {id} == s.timers;
    } else if !s.stopping {
      AdmitKeepsInv(Fired(s, id), s.callbacks[id].task, limits);
    }
  }

  lemma CancelIsTidy(s: State, id: TaskId)
    requires Tidy(s)
    ensures Tidy(AfterCancel(s, id))
  {
    var s' := AfterCancel(s, id);
    assert Ok(s, id);
    forall x ensures Ok(s', x) {
      assert Ok(s, x);
      hide *;
      CancelledIsOk(s, id, x);
    }
  }

  lemma CancelledIsOk(s: State, id: TaskId, x: TaskId)
    requires Ok(s, id) && Ok(s, x)
    ensures Ok(AfterCancel(s, id), x)
  {
  }

  /** What a cancellation does not touch, and what it counts. */
  lemma CancelParts(s: State, id: TaskId)
    requires id in s.queue <==> id in s.results && s.results[id].Pending?
    requires id in s.queue ==> id !in s.running
    ensures var s' := AfterCancel(s, id);
      && s'.running == s.running && s'.seats == s.seats && s'.sequence == s.sequence && s'.started == s.started
      && s'.total == s.total && s'.completed == s.completed && s'.failed == s.failed
      && if id in s.queue then s'.queue == Without(s.queue, id) && s'.cancelledCount == s.cancelledCount + 1
         else s'.queue == s.queue && s'.cancelledCount == s.cancelledCount
  {
  }

  lemma CancelKeepsInv(s: State, id: TaskId, limits: Limits)
    requires Inv(s, limits)
    ensures Inv(AfterCancel(s, id), limits)
  {
    hide Tidy, InOrder, Seated, AfterCancel;
    CancelIsTidy(s, id);
    OkAt(s, id, limits);
    CancelParts(s, id);
    StaysInOrder(s, AfterCancel(s, id));
    SameSeats(s, AfterCancel(s, id), limits);
    if id in s.queue {
      SmallerWithout(s.queue, id);
    }
  }

  lemma StopKeepsInv(s: State, late: set<TaskId>, limits: Limits)
    requires Inv(s, limits) && late <= s.callbacks.Keys
    ensures Inv(AfterStop(s, late), limits)
  {
    hide Tidy, InOrder, Seated;
    StopIsTidy(s, late);
    StaysInOrder(s, AfterStop(s, late));
    SameSeats(s, AfterStop(s, late), limits);
  }

  lemma StopIsTidy(s: State, late: set<TaskId>)
    requires Tidy(s) && late <= s.callbacks.Keys
    ensures Tidy(AfterStop(s, late))
  {
    var s' := AfterStop(s, late);
    forall x ensures Ok(s', x) {
      assert Ok(s, x);
    }
  }

  lemma ForceKeepsInv(s: State, limits: Limits)
    requires Inv(s, limits)
    ensures Inv(AfterForce(s), limits)
  {
    var s' := AfterForce(s);
    forall x ensures Ok(s', x) {
      assert Ok(s, x);
    }
  }

  lemma CleanupKeepsInv(s: State, expired: set<TaskId>, limits: Limits)
    requires Inv(s, limits)
    ensures Inv(AfterCleanup(s, expired), limits)
  {
    var s' := AfterCleanup(s, expired);
    forall x ensures Ok(s', x) {
      assert Ok(s, x);
    }
  }

  lemma StepKeepsInv(s: State, step: Step, limits: Limits)
    requires Inv(s, limits) && Enabled(s, step, limits)
    ensures Inv(After(s, step, limits), limits)
  {
    hide Inv;
    match step
    case Submit(task) =>
      if !s.stopping && !Full(s, limits) {
        AdmitAllKeepsInv(s, [task], limits);
      }
    case SubmitBatch(tasks) =>
      if !s.stopping && |tasks| <= limits.maxQueue - |s.queue| {
        AdmitAllKeepsInv(s, tasks, limits);
      }
    case Cancel(id) => CancelKeepsInv(s, id, limits);
    case Start(worker, id) => StartKeepsInv(s, worker, id, limits);
    case Finish(id, ok) => FinishKeepsInv(s, id, ok, limits);
    case Fire(id) => FireKeepsInv(s, id, limits);
    case Stop(late) => StopKeepsInv(s, late, limits);
    case ForceCancel => ForceKeepsInv(s, limits);
    case Cleanup(expired) => CleanupKeepsInv(s, expired, limits);
  }
}
