/** The task manager as a state machine (internal/task/manager.go): each region that runs under
    the mutex is one step, and any worker, timer or caller may take the next one. */
module TaskScheduler {
  import opened Common
  import opened TaskQueue

  datatype Status = Pending | Running | Completed | Failed | Cancelled

  predicate Terminal(s: Status) {
    s.Completed? || s.Failed? || s.Cancelled?
  }

  datatype Entry = Entry(task: Task, sequence: nat)

  datatype Limits = Limits(maxQueue: nat, workers: nat)

  /** `timers` are the entries of retryTimers, `callbacks` the timer functions that have not run
      yet (their entries have no sequence number), `seats` says which worker runs a task. The last
      four fields only record the past: ids ever used, tasks ever admitted, starts in order, and
      ids for which Cancel returned true. */
  datatype State = State(
    queue: map<TaskId, Entry>, results: map<TaskId, Status>, running: map<TaskId, Entry>, cancelled: set<TaskId>,
    timers: set<TaskId>, callbacks: map<TaskId, Entry>, stopping: bool, sequence: nat,
    total: int, completed: int, failed: int, cancelledCount: int, seats: map<TaskId, nat>,
    used: set<TaskId>, admitted: set<TaskId>, started: seq<Entry>, revoked: set<TaskId>)

  datatype Step =
    | Submit(task: Task)
    | SubmitBatch(tasks: seq<Task>)
    | Cancel(id: TaskId)
    | Start(worker: nat, id: TaskId)
    | Finish(id: TaskId, ok: bool)
    | Fire(id: TaskId)
    | Stop(late: set<TaskId>)
    | ForceCancel
    | Cleanup(expired: set<TaskId>)

  /** Executions a task may still lead to, itself included; for a new task that is one more than
      the retries it is allowed. */
  function Weight(t: Task): (w: nat)
    ensures w == 1 || w == 1 + t.maxRetries - t.retryCount
    ensures t.retryCount == 0 < t.maxRetries ==> w == 1 + t.maxRetries
  {
    if t.retryCount < t.maxRetries then 1 + (t.maxRetries - t.retryCount) else 1
  }

  predicate Precedes(a: Entry, b: Entry) {
    a.task.priority > b.task.priority || (a.task.priority == b.task.priority && a.sequence < b.sequence)
  }

  predicate Full(s: State, limits: Limits) {
    |s.queue| >= limits.maxQueue
  }

  /** submitLocked for a task that fits. */
  function Admit(s: State, t: Task): State {
    s.(queue := s.queue[t.id := Entry(t, s.sequence + 1)],
       results := s.results[t.id := Pending],
       sequence := s.sequence + 1, total := s.total + 1, used := s.used + {t.id}, admitted := s.admitted + {t.id})
  }

  function AdmitAll(s: State, tasks: seq<Task>): State {
    if tasks == [] then s
    else
      Admit(AdmitAll(s, tasks[..|tasks| - 1]), tasks[|tasks| - 1])
  }

  function Retry(t: Task): Task {
    Task(RetryOf(t.id, t.retryCount + 1), t.priority, t.maxRetries, t.retryCount + 1)
  }

  /** A submission from outside brings an id of its own that was never used before. */
  predicate FreshIds(s: State, tasks: seq<Task>) {
    && (forall i | 0 <= i < |tasks| :: tasks[i].id.External? && tasks[i].id !in s.used)
    && forall i, j | 0 <= i < j < |tasks| :: tasks[i].id != tasks[j].id
  }

  predicate Enabled(s: State, step: Step, limits: Limits) {
    match step
    case Submit(task) => FreshIds(s, [task])
    case SubmitBatch(tasks) => FreshIds(s, tasks)
    case Cancel(_) => true
    case Start(worker, id) =>
      !s.stopping && worker < limits.workers && worker !in s.seats.Values && id in s.queue
      && forall other | other in s.queue && other != id :: Precedes(s.queue[id], s.queue[other])
    case Finish(id, _) => id in s.running
    case Fire(id) => id in s.callbacks
    case Stop(late) => late <= s.callbacks.Keys
    case ForceCancel => s.stopping
    case Cleanup(expired) => !s.stopping
  }

  function Without<T>(m: map<TaskId, T>, id: TaskId): map<TaskId, T> {
    map k | k in m && k != id :: m[k]
  }

  function AfterStart(s: State, worker: nat, id: TaskId): State
    requires id in s.queue
  {
    var e := s.queue[id];
    var popped := s.(queue := Without(s.queue, id));
    if id !in s.results || s.results[id].Cancelled? then popped
    else popped.(running := s.running[id := e], seats := s.seats[id := worker], results := s.results[id := Running],
                 started := s.started + [e])
  }

  /** The task ended with a terminal status. */
  function Concluded(s: State, id: TaskId, status: Status): State {
    var done := s.(results := s.results[id := status]);
    if status.Cancelled? then done.(cancelledCount := s.cancelledCount + 1)
    else if status.Completed? then done.(completed := s.completed + 1)
    else done.(failed := s.failed + 1)
  }

  /** scheduleRetryLocked. */
  function Scheduled(s: State, retry: Task): State {
    s.(timers := s.timers + {retry.id}, callbacks := s.callbacks[retry.id := Entry(retry, 0)],
       used := s.used + {retry.id})
  }

  function AfterFinish(s: State, id: TaskId, ok: bool): State
    requires id in s.running
  {
    var t := s.running[id].task;
    var done := s.(running := Without(s.running, id), seats := Without(s.seats, id), cancelled := s.cancelled - {id});
    if id !in s.results then done
    else if id in s.cancelled then Concluded(done, id, Cancelled)
    else if ok then Concluded(done, id, Completed)
    else if t.retryCount < t.maxRetries && !s.stopping then Scheduled(Concluded(done, id, Failed), Retry(t))
    else Concluded(done, id, Failed)
  }

  /** submitScheduledRetry: admitted, put back for another delay, or dropped at shutdown. */
  function AfterFire(s: State, id: TaskId, limits: Limits): State
    requires id in s.callbacks
  {
    var t := s.callbacks[id].task;
    var fired := s.(timers := s.timers - {id}, callbacks := Without(s.callbacks, id));
    if s.stopping then fired
    else if Full(s, limits) then s.(timers := s.timers + {id})
    else Admit(fired, t)
  }

  function AfterCancel(s: State, id: TaskId): State {
    if id in s.running then s.(cancelled := s.cancelled + {id}, revoked := s.revoked + {id})
    else if id !in s.results || !s.results[id].Pending? then s
    else s.(queue := Without(s.queue, id), results := s.results[id := Cancelled],
            cancelledCount := s.cancelledCount + 1, revoked := s.revoked + {id})
  }

  /** What Cancel returns. */
  predicate CancelSucceeds(s: State, id: TaskId) {
    id in s.running || (id in s.results && s.results[id].Pending?)
  }

  function Only<T>(m: map<TaskId, T>, keys: set<TaskId>): map<TaskId, T> {
    map k | k in m && k in keys :: m[k]
  }

  /** The results after the pending ones among `ids` were cancelled. */
  function AllCancelled(results: map<TaskId, Status>, ids: set<TaskId>): map<TaskId, Status> {
    map k | k in results :: if k in ids && results[k].Pending? then Cancelled else results[k]
  }

  /** Timers that already fired are waiting for the lock and are not stopped. */
  function AfterStop(s: State, late: set<TaskId>): State {
    if s.stopping then s
    else s.(stopping := true, timers := {}, callbacks := Only(s.callbacks, late),
            queue := map[], cancelledCount := s.cancelledCount + |s.queue|,
            results := AllCancelled(s.results, s.queue.Keys))
  }

  /** Every running task is flagged. */
  function AfterForce(s: State): State {
    s.(cancelled := s.running.Keys)
  }

  /** Results that ended before the cutoff are forgotten. */
  function AfterCleanup(s: State, expired: set<TaskId>): State {
    s.(results := Remembered(s.results, expired))
  }

  function Remembered(results: map<TaskId, Status>, expired: set<TaskId>): map<TaskId, Status> {
    map k | k in results && !(k in expired && Terminal(results[k])) :: results[k]
  }

  function After(s: State, step: Step, limits: Limits): State
    requires Enabled(s, step, limits)
  {
    match step
    case Submit(task) =>
      if s.stopping || Full(s, limits) then s else AdmitAll(s, [task])
    case SubmitBatch(tasks) =>
      if s.stopping || |tasks| > limits.maxQueue - |s.queue| then s else AdmitAll(s, tasks)
    case Cancel(id) => AfterCancel(s, id)
    case Start(worker, id) => AfterStart(s, worker, id)
    case Finish(id, ok) => AfterFinish(s, id, ok)
    case Fire(id) => AfterFire(s, id, limits)
    case Stop(late) => AfterStop(s, late)
    case ForceCancel => AfterForce(s)
    case Cleanup(expired) => AfterCleanup(s, expired)
  }

  function Taken(s: State, step: Step, limits: Limits): State {
    if Enabled(s, step, limits) then After(s, step, limits) else s
  }

  function Run(s: State, steps: seq<Step>, limits: Limits): State
    decreases |steps|
  {
    if steps == [] then s
    else Taken(Run(s, steps[..|steps| - 1], limits), steps[|steps| - 1], limits)
  }

  // ----- what every reachable state has -----

  /** Ids that are queued, running, or held by a timer. */
  function Active(s: State): set<TaskId> {
    s.queue.Keys + s.running.Keys + s.callbacks.Keys
  }

  /** What holds of one id: the task is in one place, under its own id, and its status says
      which; ids are never used twice; a task that was retried is over and was not cancelled;
      a task whose cancellation succeeded is running and flagged, or over as cancelled. */
  predicate Ok(s: State, id: TaskId) {
    && (id in s.queue ==> s.queue[id].task.id == id && id !in s.running && id !in s.callbacks && id in s.admitted)
    && (id in s.running ==> s.running[id].task.id == id && id !in s.callbacks && id in s.admitted)
    && (id in s.callbacks ==> s.callbacks[id].task.id == id && id !in s.results && id !in s.admitted && id in s.used)
    && (id in s.queue <==> id in s.results && s.results[id].Pending?)
    && (id in s.running <==> id in s.results && s.results[id].Running?)
    && (id in s.cancelled ==> id in s.running)
    && (s.stopping ==> id !in s.queue && id !in s.timers)
    && (!s.stopping ==> (id in s.timers <==> id in s.callbacks))
    && (id in s.results || id in s.admitted ==> id in s.used)
    && (id.RetryOf? && id in s.used ==> id.base in s.used && id.base !in Active(s) && id.base !in s.revoked)
    && (id in s.revoked ==>
          && id in s.used && id !in s.queue && id !in s.callbacks
          && (id in s.running ==> id in s.cancelled)
          && (id in s.results && id !in s.running ==> s.results[id].Cancelled?))
  }

  ghost predicate Tidy(s: State) {
    forall id {:trigger Ok(s, id)} :: Ok(s, id)
  }

  /** The counters account for every admitted task. */
  ghost predicate Conserved(s: State, limits: Limits) {
    && s.total == s.completed + s.failed + s.cancelledCount + |s.queue| + |s.running|
    && |s.queue| <= limits.maxQueue
  }

  /** Every running task has a worker to itself. */
  ghost predicate Seated(s: State, limits: Limits) {
    && s.seats.Keys == s.running.Keys
    && (forall id :: id in s.seats ==> s.seats[id] < limits.workers)
    && forall a, b :: a in s.seats && b in s.seats && s.seats[a] == s.seats[b] ==> a == b
  }

  /** Starts of one priority happen in submission order. */
  ghost predicate InOrder(s: State) {
    && (forall id :: id in s.queue ==> s.queue[id].sequence <= s.sequence)
    && (forall a, b :: a in s.queue && b in s.queue && s.queue[a].sequence == s.queue[b].sequence ==> a == b)
    && (forall i, id | 0 <= i < |s.started| && id in s.queue
                       && s.started[i].task.priority == s.queue[id].task.priority ::
          s.started[i].sequence < s.queue[id].sequence)
    && (forall i | 0 <= i < |s.started| :: s.started[i].sequence <= s.sequence)
    && forall i, j | 0 <= i < j < |s.started| && s.started[i].task.priority == s.started[j].task.priority ::
         s.started[i].sequence < s.started[j].sequence
  }

  ghost predicate Inv(s: State, limits: Limits) {
    Tidy(s) && Conserved(s, limits) && Seated(s, limits) && InOrder(s)
  }

  // ----- executions are bounded -----

  /** Executions that the listed tasks may still lead to. */
  ghost function Sum(m: map<TaskId, Entry>): nat {
    if m == map[] then 0 else var k :| k in m; Weight(m[k].task) + Sum(Without(m, k))
  }

  /** Executions so far and still possible; a running task has already been counted once. */
  ghost function Spent(s: State): int {
    |s.started| + Sum(s.queue) + Sum(s.running) - |s.running| + Sum(s.callbacks)
  }

  /** What a step adds to the executions that may ever happen: those of the tasks it admits from outside. */
  function Promise(s: State, step: Step, limits: Limits): nat {
    match step
    case Submit(task) => if s.stopping || Full(s, limits) then 0 else Weight(task)
    case SubmitBatch(tasks) => if s.stopping || |tasks| > limits.maxQueue - |s.queue| then 0 else Weights(tasks)
    case _ => 0
  }

  function Weights(tasks: seq<Task>): nat {
    if tasks == [] then 0 else Weights(tasks[..|tasks| - 1]) + Weight(tasks[|tasks| - 1])
  }

  /** One execution and the retries allowed for each task that was accepted from outside. */
  function Promised(s: State, steps: seq<Step>, limits: Limits): nat
    decreases |steps|
  {
    if steps == [] then 0
    else
      var front, step := steps[..|steps| - 1], steps[|steps| - 1];
      var before := Run(s, front, limits);
      Promised(s, front, limits) + if Enabled(before, step, limits) then Promise(before, step, limits) else 0
  }

  lemma SumSplit(m: map<TaskId, Entry>, k: TaskId)
    requires k in m
    ensures Sum(m) == Weight(m[k].task) + Sum(Without(m, k))
    decreases |m|
  {
    var c :| c in m && Sum(m) == Weight(m[c].task) + Sum(Without(m, c));
    if c != k {
      SmallerWithout(m, c);
      SmallerWithout(m, k);
      SumSplit(Without(m, c), k);
      SumSplit(Without(m, k), c);
      assert Without(Without(m, c), k) == Without(Without(m, k), c);
    }
  }

  /** Every task counts for at least one. */
  lemma {:induction false} SumCounts(m: map<TaskId, Entry>)
    ensures Sum(m) >= |m|
    decreases |m|
  {
    if m != map[] {
      var k :| k in m;
      SumSplit(m, k);
      SmallerWithout(m, k);
      SumCounts(Without(m, k));
    }
  }

  lemma SmallerWithout<T>(m: map<TaskId, T>, k: TaskId)
    requires k in m
    ensures |Without(m, k)| == |m| - 1
    ensures Without(m, k).Keys == m.Keys - {k}
  {
    assert Without(m, k).Keys == m.Keys - {k};
    assert |Without(m, k).Keys| == |m.Keys| - 1;
  }

  /** Fewer tasks, fewer executions. */
  lemma SumLess(a: map<TaskId, Entry>, b: map<TaskId, Entry>)
    requires forall k :: k in a ==> k in b && a[k] == b[k]
    ensures Sum(a) <= Sum(b)
    decreases |b|
  {
    if a != map[] {
      var k :| k in a;
      SumSplit(a, k);
      SumSplit(b, k);
      SmallerWithout(b, k);
      SumLess(Without(a, k), Without(b, k));
    }
  }

  lemma SumAdd(m: map<TaskId, Entry>, k: TaskId, e: Entry)
    requires k !in m
    ensures Sum(m[k := e]) == Sum(m) + Weight(e.task)
    ensures |m[k := e]| == |m| + 1
  {
    SumSplit(m[k := e], k);
    assert Without(m[k := e], k) == m;
  }
}
