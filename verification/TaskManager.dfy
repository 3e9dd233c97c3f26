/** The task manager with its fields (internal/task/manager.go); every method is one region
    under the mutex and takes the corresponding step of the state machine. */
module TaskManager {
  import opened Common
  import opened TaskQueue
  import opened TaskScheduler
  import opened TaskSafety
  import opened TaskRuns

  /** The heap holds exactly the waiting entries, each once. */
  ghost predicate Queued(members: set<QueueItem>, waiting: map<TaskId, Entry>) {
    && (forall x :: x in members ==> x.task.id in waiting && waiting[x.task.id] == Entry(x.task, x.sequence))
    && (forall x, y :: x in members && y in members && x.task.id == y.task.id ==> x == y)
    && (forall id :: id in waiting ==> exists x :: x in members && x.task.id == id)
  }

  lemma QueuedAfterTaking(members: set<QueueItem>, x: QueueItem, waiting: map<TaskId, Entry>)
    requires Queued(members, waiting) && x in members
    ensures x.task.id in waiting && waiting[x.task.id] == Entry(x.task, x.sequence)
    ensures Queued(members - {x}, Without(waiting, x.task.id)) && |Without(waiting, x.task.id)| == |waiting| - 1
  {
    SmallerWithout(waiting, x.task.id);
    forall id | id in waiting && id != x.task.id ensures exists y :: y in members - {x} && y.task.id == id {
      var y :| y in members && y.task.id == id;
      assert y in members - {x};
    }
  }

  lemma QueuedAfterAdding(members: set<QueueItem>, x: QueueItem, waiting: map<TaskId, Entry>)
    requires Queued(members, waiting) && x.task.id !in waiting
    ensures Queued(members + {x}, waiting[x.task.id := Entry(x.task, x.sequence)])
  {
    forall id | id in waiting || id == x.task.id ensures exists y :: y in members + {x} && y.task.id == id {
      if id == x.task.id {
        assert x in members + {x};
      } else {
        var y :| y in members && y.task.id == id;
        assert y in members + {x};
      }
    }
  }

  class Manager {
    const limits: Limits
    const queue: PriorityQueue
    var results: map<TaskId, Status>
    var running: map<TaskId, Entry>
    var cancelled: set<TaskId>
    var timers: set<TaskId>
    var callbacks: map<TaskId, Entry>
    var stopping: bool
    var sequence: nat
    var total: int
    var completed: int
    var failed: int
    var cancelledCount: int
    // What the heap holds, by id, the worker of each running task, and the record of the past.
    ghost var waiting: map<TaskId, Entry>
    ghost var seats: map<TaskId, nat>
    ghost var used: set<TaskId>
    ghost var admitted: set<TaskId>
    ghost var started: seq<Entry>
    ghost var revoked: set<TaskId>

    ghost function State(): State
      reads this
    {
      TaskScheduler.State.State(waiting, results, running, cancelled, timers, callbacks, stopping, sequence,
                                total, completed, failed, cancelledCount, seats, used, admitted, started, revoked)
    }

    ghost predicate Valid()
      reads this, queue, queue.items
    {
      Paired(queue, waiting) && Inv(State(), limits)
    }

    lemma Known()
      ensures Valid() <==> Paired(queue, waiting) && Inv(State(), limits)
      ensures State()
              == TaskScheduler.State.State(waiting, results, running, cancelled, timers, callbacks, stopping, sequence,
                                           total, completed, failed, cancelledCount, seats, used, admitted, started,
                                           revoked)
    {
    }

    constructor (limits: Limits, history: map<TaskId, Status>)
      requires Closed(history)
      ensures Valid() && fresh(queue) && this.limits == limits && State() == Initial(history)
    {
      this.limits, results := limits, history;
      queue := new PriorityQueue();
      running, cancelled, timers, callbacks, stopping, sequence := map[], {}, {}, map[], false, 0;
      total, completed, failed, cancelledCount := 0, 0, 0, 0;
      waiting, seats, used, admitted, started, revoked := map[], map[], Lineage(history.Keys), {}, [], {};
      new;
      InitialIsFine(history, limits);
    }

    /** The bookkeeping of a submission. */
    method Register(task: Task)
      modifies this`results, this`sequence, this`total
      ensures var s := old(State());
        State() == s.(results := s.results[task.id := Pending], sequence := s.sequence + 1, total := s.total + 1)
    {
      results := results[task.id := Pending];
      sequence := sequence + 1;
      total := total + 1;
    }

    ghost method Record(task: Task)
      modifies this`waiting, this`used, this`admitted
      ensures var s := old(State());
        State() == s.(queue := s.queue[task.id := Entry(task, s.sequence)], used := s.used + {task.id},
                      admitted := s.admitted + {task.id})
    {
      waiting := waiting[task.id := Entry(task, sequence)];
      used, admitted := used + {task.id}, admitted + {task.id};
    }

    /** submitLocked. */
    method SubmitLocked(task: Task) returns (error: Option<string>)
      requires Valid() && (stopping || Full(State(), limits) || Admissible(State(), task))
      modifies this, queue, queue.items
      ensures Valid() && fresh(Members(queue.items) - Members(old(queue.items)))
      ensures error.None? <==> !old(stopping) && |old(waiting)| < limits.maxQueue
      ensures error.None? ==>
                && waiting == old(waiting)[task.id := Entry(task, old(sequence) + 1)] && sequence == old(sequence) + 1
                && results == old(results)[task.id := Pending] && total == old(total) + 1
      ensures State() == if error.None? then Admit(old(State()), task) else old(State())
    {
      hide Inv, Admissible, Queued, Manager.Valid, PriorityQueue.Valid, Paired, Admit, Full, Manager.State;
      Known();
      PairedSize(queue, waiting);
      AdmitIs(State(), task, limits);
      if stopping {
        return Some("task manager is stopping");
      }
      if |queue.items| >= limits.maxQueue {
        return Some("task queue is full");
      }
      AdmitKeepsInv(State(), task, limits);
      AdmissibleIsNew(State(), task);
      ghost var before := State();
      Register(task);
      Known();
      Push(queue, waiting, task, sequence);
      Known();
      Record(task);
      Known();
      error := None;
    }

    /** SubmitBatch: everything or nothing. */
    method SubmitBatch(tasks: seq<Task>) returns (error: Option<string>)
      requires Valid() && FreshIds(State(), tasks)
      modifies this, queue, queue.items
      ensures Valid()
      ensures error.None? <==> !old(stopping) && |tasks| <= limits.maxQueue - |old(waiting)|
      ensures State() == After(old(State()), Step.SubmitBatch(tasks), limits)
    {
      hide Inv, Admissible, Admit, Queued, PriorityQueue.Valid;
      if stopping {
        return Some("task manager is stopping");
      }
      if |tasks| > limits.maxQueue - |queue.items| {
        return Some("task queue is full");
      }
      ghost var before := State();
      assert tasks[..0] == [];
      for k := 0 to |tasks|
        invariant Valid() && State() == AdmitAll(before, tasks[..k])
        invariant fresh(Members(queue.items) - Members(old(queue.items)))
      {
        NextOfBatch(before, tasks, k, limits);
        var failed := SubmitLocked(tasks[k]);
      }
      assert tasks[..|tasks|] == tasks;
      error := None;
    }

    /** Cancel: flag a running task, or take a pending one out of the queue. */
    method Cancel(id: TaskId) returns (ok: bool)
      requires Valid()
      modifies this, queue, queue.items
      ensures Valid()
      ensures ok == CancelSucceeds(old(State()), id) && State() == AfterCancel(old(State()), id)
      ensures ok <==> id in old(running) || id in old(waiting)
      ensures id in old(running) ==> cancelled == old(cancelled) + {id} && results == old(results)
      ensures id in old(waiting) ==>
                && waiting.Keys == old(waiting).Keys - {id}
                && results == old(results)[id := Cancelled] && cancelledCount == old(cancelledCount) + 1
    {
      hide Inv, Paired, PriorityQueue.Valid, Manager.Valid, Manager.State, Without;
      Known();
      CancelKeepsInv(State(), id, limits);
      PlacesMatch(State(), id, limits);
      CancelMeans(State(), id, limits);
      if id in running {
        cancelled, revoked := cancelled + {id}, revoked + {id};
        Known();
        return true;
      }
      if id !in results || !results[id].Pending? {
        return false;
      }
      Drop(queue, waiting, id);
      CancelPendingLocked(id);
      Known();
      ok := true;
    }

    /** The record of a pending task that was cancelled. */
    method CancelPendingLocked(id: TaskId)
      modifies this`waiting, this`results, this`cancelledCount, this`revoked
      ensures var s := old(State());
        State() == s.(queue := Without(s.queue, id), results := s.results[id := Cancelled],
                      cancelledCount := s.cancelledCount + 1, revoked := s.revoked + {id})
    {
      waiting := Without(waiting, id);
      results := results[id := Cancelled];
      cancelledCount := cancelledCount + 1;
      revoked := revoked + {id};
    }

    /** A free worker takes the next task; nothing happens on an empty queue or at shutdown. */
    method StartNext(ghost worker: nat) returns (next: Option<Task>)
      requires Valid() && worker < limits.workers && worker !in seats.Values
      modifies this, queue, queue.items
      ensures Valid()
      ensures next.None? <==> old(stopping) || old(waiting) == map[]
      ensures next.None? ==> State() == old(State())
      ensures next.Some? ==> next.value.id in old(waiting) && State() == AfterStart(old(State()), worker, next.value.id)
      ensures next.Some? ==> Enabled(old(State()), Start(worker, next.value.id), limits)
      ensures next.Some? ==>
                && old(waiting)[next.value.id].task == next.value && next.value.id in running
                && forall other | other in old(waiting) && other != next.value.id ::
                     var e := old(waiting)[other];
                     || next.value.priority > e.task.priority
                     || (next.value.priority == e.task.priority
                         && old(waiting)[next.value.id].sequence < e.sequence)
    {
      hide *;
      Known();
      InvParts(State(), limits);
      PairedSize(queue, waiting);
      if stopping || |queue.items| == 0 {
        return None;
      }
      ghost var before := State();
      var best := PopBest(queue, before);
      BestIsEnabled(before, worker, best, limits);
      StartKeepsInv(before, worker, best.task.id, limits);
      Launch(worker, best);
      StartIs(before, worker, best.task.id);
      FirstByPriority(before, best);
      Known();
      next := Some(best.task);
    }

    /** The popped task is running now. */
    method Launch(ghost worker: nat, best: Entry)
      modifies this`waiting, this`running, this`seats, this`results, this`started
      ensures var s := old(State());
        State() == s.(queue := Without(s.queue, best.task.id), running := s.running[best.task.id := best],
                      seats := s.seats[best.task.id := worker], results := s.results[best.task.id := Running],
                      started := s.started + [best])
    {
      waiting := Without(waiting, best.task.id);
      running := running[best.task.id := best];
      seats := seats[best.task.id := worker];
      results := results[best.task.id := Running];
      started := started + [best];
    }

    /** finish: the worker reports the outcome of a task it was running. */
    method Finish(id: TaskId, succeeded: bool)
      requires Valid() && id in running
      modifies this
      ensures Valid() && State() == AfterFinish(old(State()), id, succeeded)
      ensures var flagged := id in old(cancelled);
        && completed == old(completed) + (if !flagged && succeeded then 1 else 0)
        && failed == old(failed) + (if !flagged && !succeeded then 1 else 0)
        && cancelledCount == old(cancelledCount) + (if flagged then 1 else 0)
        && results == old(results)[id := if flagged then Cancelled else if succeeded then Completed else Failed]
        && running.Keys == old(running).Keys - {id}
    {
      hide *;
      Known();
      FinishKeepsInv(State(), id, succeeded, limits);
      HasResult(State(), id, limits);
      FinishIs(State(), id, succeeded);
      FinishParts(State(), id, succeeded);
      KeysWithout(running, id);
      var task := running[id].task;
      ghost var before := State();
      var wasCancelled := Release(id);
      if wasCancelled {
        Conclude(id, Cancelled);
      } else if succeeded {
        Conclude(id, Completed);
      } else {
        Conclude(id, Failed);
        if task.retryCount < task.maxRetries && !stopping {
          ScheduleRetryLocked(Retry(task));
        }
      }
      Known();
    }

    /** The task no longer runs; says whether it had been flagged. */
    method Release(id: TaskId) returns (wasCancelled: bool)
      requires id in running
      modifies this`running, this`seats, this`cancelled
      ensures wasCancelled == (id in old(cancelled))
      ensures State() == old(State()).(running := Without(old(running), id), seats := Without(old(seats), id),
                                         cancelled := old(cancelled) - {id})
    {
      running := Without(running, id);
      seats := Without(seats, id);
      wasCancelled := id in cancelled;
      cancelled := cancelled - {id};
    }

    /** The terminal result and its counter. */
    method Conclude(id: TaskId, status: Status)
      requires Terminal(status)
      modifies this`results, this`completed, this`failed, this`cancelledCount
      ensures State() == Concluded(old(State()), id, status)
    {
      results := results[id := status];
      if status.Cancelled? {
        cancelledCount := cancelledCount + 1;
      } else if status.Completed? {
        completed := completed + 1;
      } else {
        failed := failed + 1;
      }
    }

    /** scheduleRetryLocked. */
    method ScheduleRetryLocked(retry: Task)
      modifies this`timers, this`callbacks, this`used
      ensures State() == Scheduled(old(State()), retry)
    {
      timers := timers + {retry.id};
      callbacks := callbacks[retry.id := Entry(retry, 0)];
      used := used + {retry.id};
    }

    /** submitScheduledRetry: a timer that fired tries to submit its retry. */
    method Fire(id: TaskId)
      requires Valid() && id in callbacks
      modifies this, queue, queue.items
      ensures Valid() && State() == AfterFire(old(State()), id, limits)
      ensures old(stopping) ==> id !in callbacks && waiting == old(waiting)
      ensures !old(stopping) && |old(waiting)| < limits.maxQueue ==>
                && id !in callbacks && id !in timers
                && waiting == old(waiting)[id := Entry(old(callbacks)[id].task, old(sequence) + 1)]
      ensures !old(stopping) && |old(waiting)| >= limits.maxQueue ==>
                callbacks == old(callbacks) && id in timers && waiting == old(waiting)
    {
      hide *;
      Known();
      ghost var before := State();
      FireKeepsInv(before, id, limits);
      FiredKeepsInv(before, id, limits);
      FireCases(before, id, limits);
      FireMeans(before, id, limits);
      AdmitIs(before, callbacks[id].task, limits);
      var entry, pending := callbacks[id], callbacks;
      timers, callbacks := timers - {id}, Without(callbacks, id);
      FiredIs(before, id);
      Known();
      var error := SubmitLocked(entry.task);
      Known();
      if error.Some? && !stopping {
        timers, callbacks := timers + {id}, pending;
        assert timers == before.timers + {id};
      }
      Known();
    }

    /** The region of Stop that marks shutdown: timers are stopped unless they already fired,
        and the queue is emptied. */
    method Stop(late: set<TaskId>)
      requires Valid() && late <= callbacks.Keys
      modifies this, queue, queue.items
      ensures Valid() && State() == AfterStop(old(State()), late)
      ensures stopping && waiting == map[]
      ensures !old(stopping) ==>
                && timers == {} && cancelledCount == old(cancelledCount) + |old(waiting)|
                && (forall id | id in old(waiting) :: id in results && results[id] == Cancelled)
                && forall id | id !in old(waiting) && id in results ::
                     id in old(results) && results[id] == old(results)[id]
    {
      hide *;
      Known();
      StopIs(State(), late);
      if stopping {
        StoppedIsEmpty(State(), limits);
        return;
      }
      ghost var before := State();
      StopKeepsInv(before, late, limits);
      StopMeans(before, late, limits);
      Halt(late);
      Known();
      results, cancelledCount := CancelQueue(queue, results, cancelledCount, before, limits);
      waiting := map[];
      EmptyPair(queue);
      Known();
    }

    /** The flag and the timers. */
    method Halt(late: set<TaskId>)
      modifies this`stopping, this`timers, this`callbacks
      ensures State() == old(State()).(stopping := true, timers := {}, callbacks := Only(old(callbacks), late))
    {
      stopping := true;
      timers, callbacks := {}, Only(callbacks, late);
    }

    /** The forced part of Stop: every running task is flagged. */
    method ForceCancel()
      requires Valid() && stopping
      modifies this
      ensures Valid() && State() == AfterForce(old(State())) && cancelled == old(running).Keys
    {
      hide Inv, Paired;
      ForceKeepsInv(State(), limits);
      cancelled := running.Keys;
    }

    /** One round of cleanupLoop: results that ended before the cutoff are forgotten. */
    method Cleanup(expired: set<TaskId>)
      requires Valid()
      modifies this
      ensures Valid()
      ensures State() == if old(stopping) then old(State()) else AfterCleanup(old(State()), expired)
      ensures !old(stopping) ==> forall id :: id in results <==>
                id in old(results) && !(id in expired && old(results)[id] in {Completed, Failed, Cancelled})
      ensures forall id :: id in results ==> results[id] == old(results)[id]
    {
      hide Inv, Paired;
      if stopping {
        return;
      }
      CleanupKeepsInv(State(), expired, limits);
      results := Remembered(results, expired);
    }
  }

  lemma CancelMeans(s: State, id: TaskId, limits: Limits)
    requires Inv(s, limits)
    ensures CancelSucceeds(s, id) <==> id in s.running || id in s.queue
    ensures id in s.queue ==> id !in s.running
    ensures var after := AfterCancel(s, id);
      && (id in s.running ==> after.cancelled == s.cancelled + {id} && after.results == s.results)
      && (id in s.queue ==>
            && after.queue.Keys == s.queue.Keys - {id}
            && after.results == s.results[id := Cancelled] && after.cancelledCount == s.cancelledCount + 1)
  {
    OkAt(s, id, limits);
    KeysWithout(s.queue, id);
    hide Inv, Without;
  }

  lemma FirstByPriority(s: State, best: Entry)
    requires forall other | other in s.queue && other != best.task.id :: Precedes(best, s.queue[other])
    ensures forall other | other in s.queue && other != best.task.id ::
              || best.task.priority > s.queue[other].task.priority
              || (best.task.priority == s.queue[other].task.priority && best.sequence < s.queue[other].sequence)
  {
  }

  lemma KeysWithout<T>(m: map<TaskId, T>, id: TaskId)
    ensures Without(m, id).Keys == m.Keys - {id}
  {
  }

  lemma FireMeans(s: State, id: TaskId, limits: Limits)
    requires Inv(s, limits) && id in s.callbacks
    ensures var after := AfterFire(s, id, limits);
      && (s.stopping ==> id !in after.callbacks && after.queue == s.queue)
      && (!s.stopping && |s.queue| < limits.maxQueue ==>
            && id !in after.callbacks && id !in after.timers
            && after.queue == s.queue[id := Entry(s.callbacks[id].task, s.sequence + 1)])
      && (!s.stopping && |s.queue| >= limits.maxQueue ==>
            after.callbacks == s.callbacks && id in after.timers && after.queue == s.queue)
  {
    FiredKeepsInv(s, id, limits);
    hide *;
    if s.stopping {
      FireDrops(s, id, limits);
    } else if |s.queue| < limits.maxQueue {
      FireAdmits(s, id, limits);
    } else {
      FireWaits(s, id, limits);
    }
  }

  lemma FireDrops(s: State, id: TaskId, limits: Limits)
    requires id in s.callbacks && s.stopping
    ensures id !in AfterFire(s, id, limits).callbacks && AfterFire(s, id, limits).queue == s.queue
  {
  }

  lemma FireAdmits(s: State, id: TaskId, limits: Limits)
    requires id in s.callbacks && s.callbacks[id].task.id == id && !s.stopping && |s.queue| < limits.maxQueue
    ensures var after := AfterFire(s, id, limits);
      && id !in after.callbacks && id !in after.timers
      && after.queue == s.queue[id := Entry(s.callbacks[id].task, s.sequence + 1)]
  {
  }

  lemma FireWaits(s: State, id: TaskId, limits: Limits)
    requires id in s.callbacks && !s.stopping && |s.queue| >= limits.maxQueue
    ensures var after := AfterFire(s, id, limits);
      after.callbacks == s.callbacks && id in after.timers && after.queue == s.queue
  {
  }

  lemma StopIs(s: State, late: set<TaskId>)
    ensures AfterStop(s, late)
         == if s.stopping then s
            else s.(stopping := true, timers := {}, callbacks := Only(s.callbacks, late), queue := map[],
                    cancelledCount := s.cancelledCount + |s.queue|, results := AllCancelled(s.results, s.queue.Keys))
  {
  }

  lemma StopMeans(s: State, late: set<TaskId>, limits: Limits)
    requires Inv(s, limits) && !s.stopping
    ensures var after := AfterStop(s, late);
      && after.stopping && after.queue == map[] && after.timers == {}
      && after.cancelledCount == s.cancelledCount + |s.queue|
      && (forall id | id in s.queue :: id in after.results && after.results[id] == Cancelled)
      && forall id | id !in s.queue && id in after.results ::
           id in s.results && after.results[id] == s.results[id]
  {
    forall id ensures id in s.queue <==> id in s.results && s.results[id].Pending? {
      OkAt(s, id, limits);
    }
    hide Inv;
  }

  lemma StoppedIsEmpty(s: State, limits: Limits)
    requires Inv(s, limits) && s.stopping
    ensures s.queue == map[]
  {
    forall id ensures id !in s.queue {
      OkAt(s, id, limits);
    }
  }

  lemma FinishIs(s: State, id: TaskId, ok: bool)
    requires id in s.running && id in s.results
    ensures var done := s.(running := Without(s.running, id), seats := Without(s.seats, id),
                           cancelled := s.cancelled - {id});
      var t := s.running[id].task;
      AfterFinish(s, id, ok)
      == if id in s.cancelled then Concluded(done, id, Cancelled)
         else if ok then Concluded(done, id, Completed)
         else if t.retryCount < t.maxRetries && !s.stopping then Scheduled(Concluded(done, id, Failed), Retry(t))
         else Concluded(done, id, Failed)
  {
  }

  lemma AdmitIs(s: State, t: Task, limits: Limits)
    ensures Full(s, limits) <==> |s.queue| >= limits.maxQueue
    ensures Admit(s, t)
            == s.(queue := s.queue[t.id := Entry(t, s.sequence + 1)],
                  results := s.results[t.id := Pending], sequence := s.sequence + 1, total := s.total + 1,
                  used := s.used + {t.id}, admitted := s.admitted + {t.id})
  {
  }

  lemma StartIs(s: State, worker: nat, id: TaskId)
    requires id in s.queue && id in s.results && s.results[id].Pending?
    ensures AfterStart(s, worker, id)
            == s.(queue := Without(s.queue, id), running := s.running[id := s.queue[id]],
                  seats := s.seats[id := worker],
                  results := s.results[id := Running], started := s.started + [s.queue[id]])
  {
  }

  lemma FiredIs(s: State, id: TaskId)
    ensures Fired(s, id) == s.(timers := s.timers - {id}, callbacks := Without(s.callbacks, id))
  {
  }

  lemma EmptyPair(queue: PriorityQueue)
    requires queue.items == [] && queue.Valid()
    ensures Paired(queue, map[])
  {
  }

  lemma BestIsEnabled(s: State, worker: nat, best: Entry, limits: Limits)
    requires !s.stopping && worker < limits.workers && worker !in s.seats.Values
    requires best.task.id in s.queue && s.queue[best.task.id] == best
    requires forall other | other in s.queue && other != best.task.id :: Precedes(best, s.queue[other])
    ensures Enabled(s, Start(worker, best.task.id), limits)
  {
  }

  lemma HasResult(s: State, id: TaskId, limits: Limits)
    requires Inv(s, limits) && id in s.running
    ensures id in s.results
  {
    OkAt(s, id, limits);
  }

  /** The heap and the queue component belong together. */
  ghost predicate Paired(queue: PriorityQueue, waiting: map<TaskId, Entry>)
    reads queue, queue.items
  {
    queue.Valid() && |queue.items| == |waiting| && Queued(Members(queue.items), waiting)
  }

  method Push(queue: PriorityQueue, ghost waiting: map<TaskId, Entry>, task: Task, sequence: nat)
    requires Paired(queue, waiting) && task.id !in waiting
    modifies queue, queue.items
    ensures Paired(queue, waiting[task.id := Entry(task, sequence)])
    ensures fresh(Members(queue.items) - Members(old(queue.items)))
  {
    hide Queued;
    ghost var before := Members(queue.items);
    var item := queue.PushTask(task, sequence);
    QueuedAfterAdding(before, item, waiting);
  }

  /** Take an item off the heap. */
  method Drop(queue: PriorityQueue, ghost waiting: map<TaskId, Entry>, id: TaskId)
    requires Paired(queue, waiting) && id in waiting
    modifies queue, queue.items
    ensures Paired(queue, Without(waiting, id))
    ensures Members(queue.items) <= Members(old(queue.items))
  {
    hide Queued;
    ghost var before := Members(queue.items);
    Present(before, waiting, id);
    var removed, item := queue.RemoveTask(id);
    QueuedAfterTaking(before, item.value, waiting);
  }

  /** Take the best item off the heap. */
  method PopBest(queue: PriorityQueue, ghost s: State) returns (best: Entry)
    requires Paired(queue, s.queue) && |queue.items| > 0 && InOrder(s)
    modifies queue, queue.items
    ensures best.task.id in s.queue && s.queue[best.task.id] == best
    ensures forall other | other in s.queue && other != best.task.id :: Precedes(best, s.queue[other])
    ensures Paired(queue, Without(s.queue, best.task.id))
    ensures Members(queue.items) <= Members(old(queue.items)) && |queue.items| == |old(queue.items)| - 1
  {
    hide InOrder;
    ghost var before := Members(queue.items);
    var task, item := queue.PopTask();
    best := Entry(task, item.sequence);
    BestPrecedes(before, item, s);
    QueuedAfterTaking(before, item, s.queue);
  }

  /** Pop and cancel everything that waits. */
  method CancelQueue(queue: PriorityQueue, recorded: map<TaskId, Status>, counted: int,
                     ghost before: State, ghost limits: Limits)
    returns (results: map<TaskId, Status>, count: int)
    requires Paired(queue, before.queue) && Inv(before, limits)
    requires recorded == before.results && counted == before.cancelledCount
    modifies queue, queue.items
    ensures queue.items == [] && queue.Valid()
    ensures count == counted + |before.queue|
    ensures results == AllCancelled(recorded, before.queue.Keys)
  {
    hide *;
    InvParts(before, limits);
    PairedSize(queue, before.queue);
    results, count := recorded, counted;
    ghost var s := before;
    CancelStarts(before);
    while |queue.items| > 0
      invariant Paired(queue, s.queue) && InOrder(s) && |queue.items| == |s.queue|
      invariant Below(queue.items, old(queue.items))
      invariant CancelledSoFar(before, s) && results == s.results && count == s.cancelledCount
      decreases |queue.items|
    {
      StillBelow(queue.items, old(queue.items));
      ghost var items := queue.items;
      var best := PopBest(queue, s);
      MembersBelow(queue.items, items, old(queue.items));
      CancelOne(before, s, best, limits);
      if best.task.id in results && results[best.task.id].Pending? {
        results := results[best.task.id := Cancelled];
        count := count + 1;
      }
      s := s.(queue := Without(s.queue, best.task.id), results := results, cancelledCount := count);
      PairedSize(queue, s.queue);
    }
    CancelEnds(before, s, queue, old(queue.items));
  }

  ghost predicate Below(items: seq<QueueItem>, all: seq<QueueItem>) {
    Members(items) <= Members(all)
  }

  lemma StillBelow(items: seq<QueueItem>, all: seq<QueueItem>)
    requires Below(items, all)
    ensures forall k :: 0 <= k < |items| ==> items[k] in all
  {
    forall k | 0 <= k < |items| ensures items[k] in all {
      assert items[k] in Members(items);
    }
  }

  lemma MembersBelow(after: seq<QueueItem>, before: seq<QueueItem>, all: seq<QueueItem>)
    requires Members(after) <= Members(before) && Below(before, all)
    ensures Below(after, all)
  {
  }

  lemma CancelStarts(s: State)
    ensures CancelledSoFar(s, s)
    ensures forall items: seq<QueueItem> :: Below(items, items)
  {
  }

  lemma CancelOne(before: State, s: State, best: Entry, limits: Limits)
    requires Inv(before, limits) && InOrder(s) && CancelledSoFar(before, s) && best.task.id in s.queue
    ensures var id := best.task.id; var next := s.(queue := Without(s.queue, id));
      && InOrder(next) && id in s.results && s.results[id].Pending?
      && InOrder(next.(results := s.results[id := Cancelled], cancelledCount := s.cancelledCount + 1))
      && CancelledSoFar(before, next.(results := s.results[id := Cancelled], cancelledCount := s.cancelledCount + 1))
  {
    var id := best.task.id;
    var next := s.(queue := Without(s.queue, id));
    var done := next.(results := s.results[id := Cancelled], cancelledCount := s.cancelledCount + 1);
    StaysInOrder(s, next);
    StaysInOrder(s, done);
    PlacesMatch(before, id, limits);
    hide Inv, InOrder;
    OneMoreCancelled(before, s, id);
  }

  lemma OneMoreCancelled(before: State, s: State, id: TaskId)
    requires CancelledSoFar(before, s) && id in s.queue && id in before.results && before.results[id].Pending?
    ensures id in s.results && s.results[id].Pending?
    ensures CancelledSoFar(before, s.(queue := Without(s.queue, id), results := s.results[id := Cancelled],
                                      cancelledCount := s.cancelledCount + 1))
  {
    SmallerWithout(s.queue, id);
  }

  lemma CancelEnds(before: State, s: State, queue: PriorityQueue, all: seq<QueueItem>)
    requires CancelledSoFar(before, s) && Paired(queue, s.queue) && |queue.items| == 0
    ensures queue.items == [] && queue.Valid() && s.cancelledCount == before.cancelledCount + |before.queue|
    ensures s.results == AllCancelled(before.results, before.queue.Keys)
  {
    PairedSize(queue, s.queue);
  }

  ghost predicate CancelledSoFar(before: State, s: State) {
    && (forall id :: id in s.queue ==> id in before.queue && s.queue[id] == before.queue[id])
    && s.cancelledCount + |s.queue| == before.cancelledCount + |before.queue|
    && s.results.Keys == before.results.Keys
    && forall k :: k in s.results ==>
         s.results[k] == (if k in before.queue && k !in s.queue && before.results[k].Pending? then Cancelled
                          else before.results[k])
  }

  lemma PlacesMatch(s: State, id: TaskId, limits: Limits)
    requires Inv(s, limits)
    ensures id in s.queue <==> id in s.results && s.results[id].Pending?
    ensures id in s.running <==> id in s.results && s.results[id].Running?
  {
    OkAt(s, id, limits);
  }

  lemma InvParts(s: State, limits: Limits)
    requires Inv(s, limits)
    ensures InOrder(s)
  {
  }

  lemma PairedSize(queue: PriorityQueue, waiting: map<TaskId, Entry>)
    requires Paired(queue, waiting)
    ensures |queue.items| == |waiting| && (|queue.items| == 0 <==> waiting == map[])
  {
  }

  lemma AdmissibleIsNew(s: State, t: Task)
    requires Admissible(s, t)
    ensures t.id !in s.queue
  {
  }

  lemma Present(members: set<QueueItem>, waiting: map<TaskId, Entry>, id: TaskId)
    requires Queued(members, waiting) && id in waiting
    ensures exists x :: x in members && x.task.id == id
  {
  }

  lemma BestPrecedes(members: set<QueueItem>, best: QueueItem, s: State)
    requires Queued(members, s.queue) && best in members && InOrder(s)
    requires forall x :: x in members ==> !Before(x, best)
    ensures forall other | other in s.queue && other != best.task.id ::
              Precedes(Entry(best.task, best.sequence), s.queue[other])
  {
    forall other | other in s.queue && other != best.task.id
      ensures Precedes(Entry(best.task, best.sequence), s.queue[other])
    {
      var x :| x in members && x.task.id == other;
      assert s.queue[other].sequence != s.queue[best.task.id].sequence;
    }
  }

  lemma NextOfBatch(s: State, tasks: seq<Task>, k: nat, limits: Limits)
    requires Inv(s, limits) && !s.stopping && |tasks| <= limits.maxQueue - |s.queue| && FreshIds(s, tasks)
    requires k < |tasks|
    ensures var middle := AdmitAll(s, tasks[..k]);
      !middle.stopping && !Full(middle, limits) && Admissible(middle, tasks[k])
      && AdmitAll(s, tasks[..k + 1]) == Admit(middle, tasks[k])
  {
    hide Inv, Admissible, Admit, FreshIds, AdmitAll;
    FreshPrefix(s, tasks, k);
    AdmitAllKeepsInv(s, tasks[..k], limits);
    FreshIsAdmissible(AdmitAll(s, tasks[..k]), tasks[k], limits);
    LastOfPrefix(s, tasks, k);
  }

  lemma FreshPrefix(s: State, tasks: seq<Task>, k: nat)
    requires FreshIds(s, tasks) && k < |tasks|
    ensures FreshIds(s, tasks[..k]) && tasks[k].id.External?
    ensures tasks[k].id !in s.used + (set t | t in tasks[..k] :: t.id)
  {
  }

  lemma LastOfPrefix(s: State, tasks: seq<Task>, k: nat)
    requires k < |tasks|
    ensures AdmitAll(s, tasks[..k + 1]) == Admit(AdmitAll(s, tasks[..k]), tasks[k])
  {
    assert tasks[..k + 1][..k] == tasks[..k];
  }
}
