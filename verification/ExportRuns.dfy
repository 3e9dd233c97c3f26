/** Whole lives of an exporter (internal/exporter/manager.go): batches, crashes at any joint
    state of queue and Notion, restarts and stops, and the sums of RunOnce. */
module ExportRuns {
  import opened Common
  import opened NotionPages
  import opened NotionWorkspace
  import opened NotionClient
  import opened ExportProtocol
  import opened ExportStore
  import opened ExportJournal
  import opened ExportOperations
  import opened ExportWorker

  /** An interrupted batch dies at the given moment of it, if it has that many; the queue is then
      any that agrees with this moment on the rows that are done and knows its tokens. */
  datatype Event =
    | Batch(requests: Requests)
    | Interrupted(requests: Requests, moments: nat, queue: Queue, nextToken: nat)
    | Restart
    | StopRequest

  /** What an event did: the counters of a batch, and the moments it began and ended with. */
  datatype Report = Report(stats: Stats, halted: bool, faults: nat, from: nat, to: nat)

  /** The failed statements of all reports. */
  function Faults(reports: seq<Report>): nat {
    if reports == [] then 0 else Faults(reports[..|reports| - 1]) + reports[|reports| - 1].faults
  }

  lemma OneMoreFaulty(reports: seq<Report>, r: Report)
    ensures Faults(reports + [r]) == Faults(reports) + r.faults
  {
    assert (reports + [r])[..|reports|] == reports;
  }

  /** The counters of a completed batch agree with the moments it went through: each claim used a
      new token, and the rows newly synced are those counted and at most the lost ones. Without a failing
      statement it went on until it was full, cancelled, halted, or nothing was due. */
  ghost predicate Explains(r: Report, event: Event, log: seq<Moment>, exporter: string, batchSize: int,
                           maxAttempts: nat) {
    && r.from <= r.to < |log|
    && (event.Restart? || event.StopRequest? ==> r.from == r.to)
    && (event.Batch? ==>
          && var s := r.stats;
          && var before, after := SyncedKeys(log[r.from].queue, exporter), SyncedKeys(log[r.to].queue, exporter);
          && s.claimed == s.synced + s.failed + s.lost + (if r.halted then 1 else 0) && s.claimed <= batchSize
          && |log[r.from].queue.issued| + s.claimed <= |log[r.to].queue.issued|
          && before <= after && |before| + s.synced <= |after| <= |before| + s.synced + s.lost
          && (!r.halted && r.faults == 0 ==>
                || s.claimed == batchSize || s.claimed >= event.requests.cancelAfter
                || NothingDue(log[r.to].queue, exporter, maxAttempts)))
  }

  /** One report for each event, and together they cover the whole log. */
  ghost predicate AllExplained(reports: seq<Report>, events: seq<Event>, log: seq<Moment>, exporter: string,
                               batchSize: int, maxAttempts: nat) {
    && |log| > 0 && |reports| <= |events|
    && (forall n | 0 <= n < |reports| :: Explains(reports[n], events[n], log, exporter, batchSize, maxAttempts))
    && (forall n | 0 <= n < |reports| :: reports[n].from == if n == 0 then 0 else reports[n - 1].to)
    && (if reports == [] then |log| == 1 else reports[|reports| - 1].to == |log| - 1)
  }

  /** The log never shrinks, so earlier reports stay true. */
  lemma OneMoreReport(reports: seq<Report>, r: Report, events: seq<Event>, log: seq<Moment>, longer: seq<Moment>,
                      exporter: string, batchSize: int, maxAttempts: nat)
    requires AllExplained(reports, events, log, exporter, batchSize, maxAttempts) && |reports| < |events|
    requires log <= longer && r.from == |log| - 1 && r.to == |longer| - 1
    requires Explains(r, events[|reports|], longer, exporter, batchSize, maxAttempts)
    ensures AllExplained(reports + [r], events, longer, exporter, batchSize, maxAttempts)
  {
    var more := reports + [r];
    forall n | 0 <= n < |more| ensures Explains(more[n], events[n], longer, exporter, batchSize, maxAttempts) {
      if n < |reports| {
        assert Explains(reports[n], events[n], log, exporter, batchSize, maxAttempts);
        assert longer[reports[n].from] == log[reports[n].from] && longer[reports[n].to] == log[reports[n].to];
      }
    }
  }

  lemma WorkspaceKnown(workspace: Workspace)
    requires workspace.Valid()
    ensures |workspace.trace| > 0 && workspace.trace[|workspace.trace| - 1] == workspace.pages
  {
  }

  lemma FirstMoment(first: Moment, exporter: string, items: iset<Item>, queue: Queue, trace: seq<Pages>)
    requires |trace| > 0 && first == Moment(queue, trace[|trace| - 1], |trace| - 1) && Backed(first, exporter)
    ensures UpToDate([first], exporter, items, queue, trace) && Safe(first.pages)
  {
    GrownSelf(first.pages);
    GrownMore(first.pages, first.pages, items, iset{});
  }

  lemma NoFaults()
    ensures Faults([]) == 0
  {
  }

  lemma NoReports(events: seq<Event>, first: Moment, exporter: string, batchSize: int, maxAttempts: nat)
    ensures AllExplained([], events, [first], exporter, batchSize, maxAttempts)
  {
  }

  lemma WholeLog(log: seq<Moment>, exporter: string, items: iset<Item>, queue: Queue, trace: seq<Pages>,
                 first: Moment)
    requires UpToDate(log, exporter, items, queue, trace) && [first] <= log
    ensures Journal(log, exporter, items, trace) && log[0] == first
    ensures forall j | first.at <= j < |trace| :: Logged(log, 0, j)
    ensures forall i, k | 0 <= i < |log| && k in SyncedKeys(log[i].queue, exporter) ::
              Shows(first.pages, log[i].pages, k.content, items)
  {
    forall i, k | 0 <= i < |log| && k in SyncedKeys(log[i].queue, exporter)
      ensures Shows(first.pages, log[i].pages, k.content, items)
    {
      assert Backed(log[i], exporter);
      GrownShows(log[0].pages, log[i].pages, k.content, items);
    }
    hide Shows, Grown;
    forall j | first.at <= j < |trace| ensures Logged(log, 0, j) {
      EveryExchangeIsLogged(log, exporter, items, trace, 0, j);
    }
  }

  /** A new process starts with an empty cache and goes on with the log. */
  method Started(id: string, store: Store, workspace: Workspace, blocks: string -> seq<Block>,
                 batchSize: int, lease: nat, retryDelay: nat, log: seq<Moment>) returns (worker: Worker)
    requires store.Valid() && workspace.Valid() && Safe(workspace.pages)
    requires UpToDate(log, id, Renderings(blocks), store.queue, workspace.trace)
    ensures fresh(worker) && fresh(worker.client) && worker.Valid() && worker.id == id && worker.log == log
    ensures worker.store == store && worker.client.workspace == workspace
    ensures worker.batchSize == Capacity(batchSize) && !worker.running && worker.Register() == IDLE
    ensures worker.blocks == blocks
  {
    hide UpToDate, Store.Valid;
    var client := new Client(workspace, retryDelay, 0);
    worker := new Worker(id, store, client, blocks, batchSize, lease, log);
  }

  /** The process is started again, with the log as it stands. */
  method Again(worker: Worker, log: seq<Moment>, retryDelay: nat) returns (next: Worker)
    requires worker.store.Valid() && worker.client.workspace.Valid() && Safe(worker.client.workspace.pages)
    requires UpToDate(log, worker.id, Renderings(worker.blocks), worker.store.queue, worker.client.workspace.trace)
    requires worker.batchSize >= 1
    ensures fresh(next) && fresh(next.client) && next.Valid() && next.id == worker.id && next.log == log
    ensures next.store == worker.store && next.client.workspace == worker.client.workspace
    ensures next.batchSize == worker.batchSize && next.blocks == worker.blocks && !next.running
  {
    hide UpToDate, Store.Valid, Workspace.Valid, Safe, Worker.Valid;
    next := Started(worker.id, worker.store, worker.client.workspace, worker.blocks, worker.batchSize, worker.lease,
                    retryDelay, log);
  }

  /** The process dies at moment `n` and is started again. */
  method Crash(worker: Worker, n: nat, queue: Queue, nextToken: nat, retryDelay: nat) returns (next: Worker)
    requires worker.Valid() && n < |worker.log| && !worker.running
    modifies worker.store, worker.client.workspace
    ensures next.Valid() && next.id == worker.id && next.store == worker.store && next.batchSize == worker.batchSize
    ensures next.client.workspace == worker.client.workspace && next.blocks == worker.blocks && !next.running
    ensures next.store.faults == old(worker.store.faults)
    ensures (next == worker && next.client == worker.client && next.log == worker.log
             && next.client.workspace.trace == old(worker.client.workspace.trace))
         || (fresh(next) && fresh(next.client) && next.log == worker.log[..n + 1]
             && worker.log[n].at < |old(worker.client.workspace.trace)|
             && next.client.workspace.trace == old(worker.client.workspace.trace)[..worker.log[n].at + 1])
  {
    hide *;
    worker.Known();
    next := worker;
    var m, workspace := worker.log[n], worker.client.workspace;
    if SyncedKeys(queue, worker.id) == SyncedKeys(m.queue, worker.id) && m.queue.issued <= queue.issued
       && Inv(queue, worker.store.maxAttempts) && forall t :: t in queue.issued ==> t < nextToken {
      CutLog(worker.log, worker.id, Renderings(worker.blocks), worker.store.queue, workspace.trace, n, queue);
      ClientKnown(worker.client);
      worker.store.Restore(queue, nextToken);
      workspace.Rewind(m.at);
      next := Again(worker, worker.log[..n + 1], retryDelay);
    }
  }

  lemma CutLog(log: seq<Moment>, exporter: string, items: iset<Item>, was: Queue, trace: seq<Pages>, n: nat,
               queue: Queue)
    requires UpToDate(log, exporter, items, was, trace) && n < |log|
    requires SyncedKeys(queue, exporter) == SyncedKeys(log[n].queue, exporter) && log[n].queue.issued <= queue.issued
    ensures log[n].at < |trace| && UpToDate(log[..n + 1], exporter, items, queue, trace[..log[n].at + 1])
    ensures Safe(trace[log[n].at])
  {
    JournalPrefix(log, exporter, items, trace, n);
    assert Last(log[..n + 1]) == log[n] && Backed(log[n], exporter);
  }

  lemma ClientKnown(client: Client)
    requires client.Valid()
    ensures client.workspace.Valid() && Safe(client.workspace.pages)
  {
  }

  lemma LogKnown(log: seq<Moment>, exporter: string, items: iset<Item>, queue: Queue, trace: seq<Pages>)
    requires UpToDate(log, exporter, items, queue, trace)
    ensures |log| > 0 && Last(log) == log[|log| - 1] && Last(log).at == |trace| - 1
    ensures SyncedKeys(Last(log).queue, exporter) == SyncedKeys(queue, exporter)
    ensures Last(log).queue.issued <= queue.issued
  {
  }

  lemma NowIsLast(worker: Worker)
    requires worker.Valid()
    ensures |worker.client.workspace.trace| > 0 && worker.Now().queue == worker.store.queue
  {
  }

  lemma Idle(r: Report, event: Event, log: seq<Moment>, exporter: string, batchSize: int, maxAttempts: nat)
    requires r.from == r.to < |log| && !event.Batch?
    ensures Explains(r, event, log, exporter, batchSize, maxAttempts)
  {
  }

  lemma Interruption(r: Report, event: Event, log: seq<Moment>, exporter: string, batchSize: int, maxAttempts: nat)
    requires r.from <= r.to < |log| && event.Interrupted?
    ensures Explains(r, event, log, exporter, batchSize, maxAttempts)
  {
  }

  /** A crash during a batch cuts off nothing of what came before it. */
  lemma CutIsLater(log: seq<Moment>, exporter: string, items: iset<Item>, queue: Queue, trace: seq<Pages>,
                   before: seq<Moment>, earlier: seq<Pages>, n: nat)
    requires UpToDate(log, exporter, items, queue, trace) && |before| > 0 && before <= log && |before| - 1 <= n < |log|
    requires Last(before).at == |earlier| - 1 && earlier <= trace
    ensures log[n].at < |trace| && earlier <= trace[..log[n].at + 1] && before <= log[..n + 1]
  {
    assert log[|before| - 1] == Last(before);
    Ascending(log, exporter, items, trace, |before| - 1, n);
  }

  lemma BatchExplained(r: Report, event: Event, before: seq<Moment>, log: seq<Moment>, exporter: string,
                       was: Queue, queue: Queue, batchSize: int, maxAttempts: nat)
    requires event.Batch? && |before| > 0 && before <= log && r.from == |before| - 1 && r.to == |log| - 1
    requires SyncedKeys(Last(before).queue, exporter) == SyncedKeys(was, exporter) && Last(log).queue == queue
    requires Last(before).queue.issued <= was.issued && |was.issued| + r.stats.claimed <= |queue.issued|
    requires var s := r.stats;
      && s.claimed == s.synced + s.failed + s.lost + (if r.halted then 1 else 0) && s.claimed <= batchSize
      && SyncedKeys(was, exporter) <= SyncedKeys(queue, exporter)
      && |SyncedKeys(was, exporter)| + s.synced <= |SyncedKeys(queue, exporter)|
      && |SyncedKeys(queue, exporter)| <= |SyncedKeys(was, exporter)| + s.synced + s.lost
      && (!r.halted && r.faults == 0 ==>
            || s.claimed == batchSize || s.claimed >= event.requests.cancelAfter
            || NothingDue(queue, exporter, maxAttempts))
    ensures Explains(r, event, log, exporter, batchSize, maxAttempts)
  {
    assert log[r.from] == Last(before) && log[r.to] == Last(log);
    MoreIssued(Last(before).queue.issued, was.issued);
  }

  /** One event in the life of an exporter. */
  method OneEvent(worker: Worker, event: Event, retryDelay: nat) returns (next: Worker, report: Report)
    requires worker.Valid() && !worker.running
    modifies worker, worker.store, worker.client, worker.client.workspace
    ensures next.Valid() && next.id == worker.id && next.store == worker.store && next.batchSize == worker.batchSize
    ensures next.client.workspace == worker.client.workspace && next.blocks == worker.blocks && !next.running
    ensures (next == worker && next.client == worker.client) || (fresh(next) && fresh(next.client))
    ensures worker.store.faults == old(worker.store.faults) + report.faults
    ensures old(worker.client.workspace.trace) <= worker.client.workspace.trace
    ensures old(worker.log) <= next.log && report.from == |old(worker.log)| - 1 && report.to == |next.log| - 1
    ensures Explains(report, event, next.log, worker.id, worker.batchSize, worker.store.maxAttempts)
  {
    hide *;
    worker.Known();
    var from, faults := |worker.log| - 1, worker.store.faults;
    LogKnown(worker.log, worker.id, Renderings(worker.blocks), worker.store.queue, worker.client.workspace.trace);
    match event {
      case StopRequest =>
        var quiet := worker.Stop();
        next, report := worker, Report(Stats(false, 0, 0, 0, 0, 0), false, 0, from, from);
        Idle(report, event, worker.log, worker.id, worker.batchSize, worker.store.maxAttempts);
      case Restart =>
        ClientKnown(worker.client);
        next := Again(worker, worker.log, retryDelay);
        report := Report(Stats(false, 0, 0, 0, 0, 0), false, 0, from, from);
        Idle(report, event, worker.log, worker.id, worker.batchSize, worker.store.maxAttempts);
      case Batch(requests) =>
        ghost var log, was := worker.log, worker.store.queue;
        var stats, halted, turns, refused := worker.RunBatch(requests);
        next, report := worker, Report(stats, halted, worker.store.faults - faults, from, |worker.log| - 1);
        NowIsLast(worker);
        BatchExplained(report, event, log, worker.log, worker.id, was, worker.store.queue, worker.batchSize,
                       worker.store.maxAttempts);
      case Interrupted(requests, moments, queue, nextToken) =>
        ghost var log, trace := worker.log, worker.client.workspace.trace;
        var stats, halted, turns, refused := worker.RunBatch(requests);
        worker.Known();
        next := worker;
        var n := from + moments;
        var count := worker.store.faults - faults;
        if n < |worker.log| {
          CutIsLater(worker.log, worker.id, Renderings(worker.blocks), worker.store.queue,
                     worker.client.workspace.trace, log, trace, n);
          next := Crash(worker, n, queue, nextToken, retryDelay);
        }
        report := Report(stats, halted, count, from, |next.log| - 1);
        Interruption(report, event, next.log, worker.id, worker.batchSize, worker.store.maxAttempts);
    }
  }

  /** Any number of batches, crashes, restarts and stops. The worker's log goes from the first
      moment to the last, one exchange or one synced row at a time, leaves out no exchange, and is
      explained by the events. At every moment each synced row has exactly one live page, under its
      final id; unless it was there at first, it holds exactly the blocks of the row's content. */
  method AnyLife(id: string, store: Store, workspace: Workspace, blocks: string -> seq<Block>,
                 batchSize: int, lease: nat, retryDelay: nat, events: seq<Event>)
    returns (worker: Worker, reports: seq<Report>)
    requires store.Valid() && workspace.Valid()
    requires Backed(Moment(store.queue, workspace.pages, |workspace.trace| - 1), id)
    modifies store, workspace
    ensures worker.Valid() && worker.id == id && worker.store == store && worker.client.workspace == workspace
    ensures old(workspace.trace) <= workspace.trace
    ensures worker.log[0] == old(Moment(store.queue, workspace.pages, |workspace.trace| - 1))
    ensures Journal(worker.log, id, Renderings(blocks), workspace.trace)
    ensures forall j | |old(workspace.trace)| - 1 <= j < |workspace.trace| :: Logged(worker.log, 0, j)
    ensures forall i, k | 0 <= i < |worker.log| && k in SyncedKeys(worker.log[i].queue, id) ::
              Shows(old(workspace.pages), worker.log[i].pages, k.content, Renderings(blocks))
    ensures |reports| == |events| && store.faults == old(store.faults) + Faults(reports)
    ensures AllExplained(reports, events, worker.log, id, Capacity(batchSize), store.maxAttempts)
  {
    hide *;
    WorkspaceKnown(workspace);
    var size := Capacity(batchSize);
    var first := Moment(store.queue, workspace.pages, |workspace.trace| - 1);
    FirstMoment(first, id, Renderings(blocks), store.queue, workspace.trace);
    worker := Started(id, store, workspace, blocks, batchSize, lease, retryDelay, [first]);
    reports := [];
    NoReports(events, first, id, size, store.maxAttempts);
    NoFaults();
    for n := 0 to |events|
      invariant worker.Valid() && worker.id == id && worker.store == store && worker.client.workspace == workspace
      invariant fresh(worker) && fresh(worker.client) && !worker.running && worker.batchSize == size
      invariant worker.blocks == blocks
      invariant old(workspace.trace) <= workspace.trace && [first] <= worker.log
      invariant store.faults == old(store.faults) + Faults(reports)
      invariant |reports| == n && AllExplained(reports, events, worker.log, id, size, store.maxAttempts)
    {
      ghost var before := worker.log;
      var report;
      worker, report := OneEvent(worker, events[n], retryDelay);
      OneMoreReport(reports, report, events, before, worker.log, id, size, store.maxAttempts);
      OneMoreFaulty(reports, report);
      reports := reports + [report];
    }
    worker.Known();
    WholeLog(worker.log, id, Renderings(blocks), store.queue, workspace.trace, first);
  }

  // ----- the sums of RunOnce -----

  datatype Outcome = Outcome(stats: Stats, halted: bool)

  predicate Balanced(o: Outcome) {
    o.stats.claimed == o.stats.synced + o.stats.failed + o.stats.lost + (if o.halted then 1 else 0)
  }

  function Halts(outcomes: seq<Outcome>): nat {
    if outcomes == [] then 0
    else Halts(outcomes[..|outcomes| - 1]) + (if outcomes[|outcomes| - 1].halted then 1 else 0)
  }

  datatype Counter = Claims | Successes | Failures | Losses | Errors

  function Tally(s: Stats, c: Counter): nat {
    match c
    case Claims => s.claimed
    case Successes => s.synced
    case Failures => s.failed
    case Losses => s.lost
    case Errors => s.errors
  }

  function Sum(outcomes: seq<Outcome>, c: Counter): nat {
    if outcomes == [] then 0
    else Sum(outcomes[..|outcomes| - 1], c) + Tally(outcomes[|outcomes| - 1].stats, c)
  }

  /** What balances in every batch balances in the sums. */
  lemma {:induction false} SumsBalance(outcomes: seq<Outcome>)
    requires forall i | 0 <= i < |outcomes| :: Balanced(outcomes[i])
    ensures Sum(outcomes, Claims)
         == Sum(outcomes, Successes) + Sum(outcomes, Failures) + Sum(outcomes, Losses) + Halts(outcomes)
    ensures Halts(outcomes) <= |outcomes|
    decreases |outcomes|
  {
    if outcomes != [] {
      SumsBalance(outcomes[..|outcomes| - 1]);
      assert Balanced(outcomes[|outcomes| - 1]);
    }
  }

  /** RunOnce adds up what the batches of all targets report; the account still balances. */
  method RunOnce(outcomes: seq<Outcome>) returns (sum: Stats)
    requires forall i | 0 <= i < |outcomes| :: Balanced(outcomes[i])
    ensures forall c :: Tally(sum, c) == Sum(outcomes, c)
    ensures sum.claimed == sum.synced + sum.failed + sum.lost + Halts(outcomes)
    ensures Halts(outcomes) <= |outcomes|
    ensures sum.busy <==> exists i | 0 <= i < |outcomes| :: outcomes[i].stats.busy
    ensures forall i | 0 <= i < |outcomes| :: outcomes[i].stats.claimed <= sum.claimed
  {
    sum := Stats(false, 0, 0, 0, 0, 0);
    assert outcomes[..0] == [];
    for i := 0 to |outcomes|
      invariant forall c :: Tally(sum, c) == Sum(outcomes[..i], c)
      invariant sum.busy <==> exists j | 0 <= j < i :: outcomes[j].stats.busy
      invariant forall j | 0 <= j < i :: outcomes[j].stats.claimed <= sum.claimed
    {
      assert outcomes[..i + 1][..i] == outcomes[..i];
      var s := outcomes[i].stats;
      sum := Stats(sum.busy || s.busy, sum.claimed + s.claimed, sum.synced + s.synced, sum.failed + s.failed,
                   sum.lost + s.lost, sum.errors + s.errors);
    }
    assert outcomes[..|outcomes|] == outcomes;
    SumsBalance(outcomes);
    assert Tally(sum, Claims) == sum.claimed && Tally(sum, Successes) == sum.synced
           && Tally(sum, Failures) == sum.failed && Tally(sum, Losses) == sum.lost;
  }
}
