/** One exporter worker (internal/exporter/manager.go) that delivers to Notion. */
module ExportWorker {
  import opened Common
  import opened NotionPages
  import opened NotionWorkspace
  import opened NotionClient
  import opened ExportProtocol
  import opened ExportStore
  import opened ExportJournal
  import opened ExportOperations

  datatype Stats = Stats(busy: bool, claimed: nat, synced: nat, failed: nat, lost: nat, errors: nat)

  /** How one claimed row ended. */
  datatype Ending = Halted | LostClaim(reported: bool) | MarkedFailed | MarkedSynced

  /** A batch holds at least one row. */
  function Capacity(batchSize: int): int {
    if batchSize <= 0 then 1 else batchSize
  }

  function CountEnding(s: Stats, ending: Ending): Stats {
    var claimed := s.(claimed := s.claimed + 1);
    match ending
    case Halted => claimed
    case MarkedSynced => claimed.(synced := s.synced + 1)
    case MarkedFailed => claimed.(failed := s.failed + 1, errors := s.errors + 1)
    case LostClaim(reported) => claimed.(lost := s.lost + 1, errors := s.errors + if reported then 1 else 0)
  }

  /** How the rows that are done change with an ending. */
  ghost predicate EndedSo(ending: Ending, key: Key, before: set<Key>, after: set<Key>) {
    && (after == before + {key} || (after == before && !ending.MarkedSynced?))
    && (ending.MarkedSynced? ==> key !in before)
    && (ending.Halted? || ending.MarkedFailed? ==> after == before)
  }

  lemma NoChange(key: Key, before: set<Key>)
    ensures forall ending: Ending :: !ending.MarkedSynced? ==> EndedSo(ending, key, before, before)
  {
  }

  lemma OneChange(key: Key, before: set<Key>)
    ensures forall ending: Ending :: (ending.MarkedSynced? && key !in before) || ending.LostClaim? ==>
              EndedSo(ending, key, before, before + {key})
  {
  }

  lemma CountsOne(s: Stats, ending: Ending, key: Key, before: set<Key>, after: set<Key>)
    requires EndedSo(ending, key, before, after)
    ensures var t := CountEnding(s, ending);
      && t.claimed == s.claimed + 1 && t.busy == s.busy
      && t.synced == s.synced + (if ending.MarkedSynced? then 1 else 0)
      && t.failed == s.failed + (if ending.MarkedFailed? then 1 else 0)
      && t.lost == s.lost + (if ending.LostClaim? then 1 else 0)
      && t.errors == s.errors + (if ending.MarkedFailed? || (ending.LostClaim? && ending.reported) then 1 else 0)
    ensures before <= after && |after| >= |before| + (if ending.MarkedSynced? then 1 else 0)
    ensures |after| <= |before| + (if ending.MarkedSynced? || ending.LostClaim? then 1 else 0)
  {
    OneMore(before, key);
  }

  /** A row that a batch claimed, the moment of the claim, and how it ended. */
  datatype Turn = Turn(key: Key, token: Token, at: nat, ending: Ending)

  /** What an ending says of the queue. A claim counts as lost only if a statement failed or the
      token was superseded without having resolved the row. */
  ghost predicate Settled(ending: Ending, q: Queue, key: Key, token: Token, faultless: bool) {
    match ending
    case Halted => true
    case MarkedSynced => ResolvedAs(q, key, token, Synced)
    case MarkedFailed => ResolvedAs(q, key, token, Retry) || ResolvedAs(q, key, token, Failed)
    case LostClaim(reported) => faultless || !reported ==> Superseded(q, key, token) && !Resolved(q, key, token)
  }

  lemma StaysSettled(ending: Ending, q: Queue, later: Queue, key: Key, token: Token, before: bool, after: bool)
    requires Settled(ending, q, key, token, before) && Later(q, later) && (after ==> before)
    ensures Settled(ending, later, key, token, after)
  {
    hide Superseded;
    if ending.LostClaim? && Resolved(later, key, token) && Superseded(q, key, token) {
      var outcome :| ResolvedAs(later, key, token, outcome);
      var i :| 0 <= i < |later.resolved| && later.resolved[i] == Resolution(key, token, outcome);
      assert i < |q.resolved|;
      assert ResolvedAs(q, key, token, outcome);
    }
  }

  /** The token does not hold the row it once claimed. */
  lemma NotHeld(q: Queue, maxAttempts: nat, key: Key, token: Token)
    requires Inv(q, maxAttempts) && token in q.issued && key in q.rows && !Holds(q.rows, key, token)
    ensures Superseded(q, key, token)
  {
    assert RowOk(key, q.rows[key], q, maxAttempts);
  }

  /** The counters of the turns. */
  function Tallied(turns: seq<Turn>): Stats {
    if turns == [] then Stats(false, 0, 0, 0, 0, 0)
    else CountEnding(Tallied(turns[..|turns| - 1]), turns[|turns| - 1].ending)
  }

  /** Each turn claimed its row under a token of its own, and ended as it says. */
  ghost predicate TurnsAreRight(turns: seq<Turn>, lease: nat, issued: set<Token>, log: seq<Moment>, from: nat,
                                q: Queue, faultless: bool) {
    && (forall i | 0 <= i < |turns| :: TurnIsRight(turns[i], lease, issued, log, from, q, faultless))
    && forall i, j | 0 <= i < j < |turns| :: turns[i].token != turns[j].token
  }

  ghost predicate TurnIsRight(t: Turn, lease: nat, issued: set<Token>, log: seq<Moment>, from: nat, q: Queue,
                              faultless: bool) {
    && t.token !in issued && t.token in q.issued
    && from <= t.at < |log| && Leased(log[t.at].queue, t.key, t.token, lease)
    && (!t.ending.LostClaim? ==> t.at + 1 < |log| && Leased(log[t.at + 1].queue, t.key, t.token, lease))
    && Settled(t.ending, q, t.key, t.token, faultless)
  }

  lemma NoTurns(lease: nat, issued: set<Token>, log: seq<Moment>, from: nat, q: Queue, faultless: bool)
    ensures TurnsAreRight([], lease, issued, log, from, q, faultless) && Tallied([]) == Stats(false, 0, 0, 0, 0, 0)
  {
  }

  lemma TurnsStay(turns: seq<Turn>, lease: nat, issued: set<Token>, log: seq<Moment>, longer: seq<Moment>, from: nat,
                  q: Queue, later: Queue, before: bool, after: bool)
    requires TurnsAreRight(turns, lease, issued, log, from, q, before)
    requires log <= longer && Later(q, later) && (after ==> before)
    ensures TurnsAreRight(turns, lease, issued, longer, from, later, after)
  {
    forall i | 0 <= i < |turns| ensures TurnIsRight(turns[i], lease, issued, longer, from, later, after) {
      var t := turns[i];
      assert TurnIsRight(t, lease, issued, log, from, q, before);
      StaysSettled(t.ending, q, later, t.key, t.token, before, after);
    }
  }

  lemma OneMoreTurn(turns: seq<Turn>, lease: nat, t: Turn, issued: set<Token>, log: seq<Moment>, from: nat, q: Queue,
                    faultless: bool, earlier: set<Token>)
    requires TurnsAreRight(turns, lease, issued, log, from, q, faultless)
    requires TurnIsRight(t, lease, issued, log, from, q, faultless)
    requires t.token !in earlier && forall i | 0 <= i < |turns| :: turns[i].token in earlier
    ensures TurnsAreRight(turns + [t], lease, issued, log, from, q, faultless)
    ensures Tallied(turns + [t]) == CountEnding(Tallied(turns), t.ending)
  {
    assert (turns + [t])[..|turns|] == turns;
    hide TurnIsRight, CountEnding;
  }

  /** A claim that was lost without a failing statement was taken away. */
  lemma {:induction false} SomeoneLost(turns: seq<Turn>)
    requires Tallied(turns).lost > 0
    ensures exists i :: 0 <= i < |turns| && turns[i].ending.LostClaim?
    decreases |turns|
  {
    var last := |turns| - 1;
    if !turns[last].ending.LostClaim? {
      SomeoneLost(turns[..last]);
      var i :| 0 <= i < last && turns[..last][i].ending.LostClaim?;
      assert turns[i].ending.LostClaim?;
    }
  }

  lemma MoreTurns(turns: seq<Turn>, lease: nat, t: Turn, first: Queue, soFar: seq<Moment>, noted: seq<Moment>,
                  log: seq<Moment>, from: nat, start: Queue, claimed: Queue, q: Queue,
                  before: bool, after: bool, during: bool)
    requires TurnsAreRight(turns, lease, first.issued, soFar, from, start, before) && (after ==> before && during)
    requires Later(first, start) && Later(start, claimed) && Later(claimed, q)
    requires soFar <= noted <= log && from <= t.at == |noted| - 1 && noted[t.at].queue == claimed
    requires t.token !in start.issued && t.token in claimed.issued && Leased(claimed, t.key, t.token, lease)
    requires !t.ending.LostClaim? ==> |noted| < |log| && Leased(log[|noted|].queue, t.key, t.token, lease)
    requires Settled(t.ending, q, t.key, t.token, during)
    ensures TurnsAreRight(turns + [t], lease, first.issued, log, from, q, after)
    ensures Tallied(turns + [t]) == CountEnding(Tallied(turns), t.ending)
  {
    LaterOn(start, claimed, q);
    TurnsStay(turns, lease, first.issued, soFar, log, from, start, q, before, after);
    LaterSelf(q);
    StaysSettled(t.ending, q, q, t.key, t.token, during, after);
    forall i | 0 <= i < |turns| ensures turns[i].token in start.issued {
      assert TurnIsRight(turns[i], lease, first.issued, soFar, from, start, before);
    }
    assert TurnIsRight(t, lease, first.issued, log, from, q, after);
    OneMoreTurn(turns, lease, t, first.issued, log, from, q, after, start.issued);
  }

  /** The number of errors does not matter to the other counters. */
  lemma LossIsTaken(turns: seq<Turn>, lease: nat, lost: nat, issued: set<Token>, log: seq<Moment>, from: nat, q: Queue,
                    faultless: bool)
    requires TurnsAreRight(turns, lease, issued, log, from, q, faultless) && lost == Tallied(turns).lost
    ensures lost > 0 && faultless ==> exists k, t :: t !in issued && Superseded(q, k, t) && !Resolved(q, k, t)
  {
    if lost > 0 && faultless {
      SomeoneLost(turns);
      var i :| 0 <= i < |turns| && turns[i].ending.LostClaim?;
      assert TurnIsRight(turns[i], lease, issued, log, from, q, faultless);
    }
  }

  lemma ClaimedIsOwned(before: Queue, q: Queue, mine: set<Token>, maxAttempts: nat, key: Key, token: Token, lease: nat)
    requires Inv(before, maxAttempts) && token !in before.issued && q.resolved == before.resolved
    requires token in q.issued && token in mine && Leased(q, key, token, lease)
    ensures Owned(q, mine, key, token) && !Resolved(q, key, token)
  {
  }

  /** When the context of a batch is cancelled and when a stop is requested, counted in turns of
      the loop. */
  datatype Requests = Requests(cancelAfter: nat, stopAfter: nat)

  class Worker {
    const id: string
    const store: Store
    const client: Client
    const blocks: string -> seq<Block>
    const batchSize: int
    const lease: nat
    var running: bool
    var stopping: bool
    var operations: set<nat>
    var waiting: nat
    var nextOperation: nat
    ghost var used: set<nat>
    // The joint states that a crash could leave behind; for the specification only.
    var log: seq<Moment>

    /** The register of deliveries and the wait group. */
    ghost function Register(): Operations
      reads this`stopping, this`operations, this`waiting, this`used
    {
      Operations.Operations(stopping, operations, {}, waiting, used)
    }

    ghost predicate Registered()
      reads this`stopping, this`operations, this`waiting, this`used, this`nextOperation
    {
      Counted(Register()) && forall o :: o in used ==> o < nextOperation
    }

    ghost predicate Valid()
      reads this, store, client, client.workspace
    {
      && store.Valid() && client.Valid() && batchSize >= 1 && Registered()
      && UpToDate(log, id, Renderings(blocks), store.queue, client.workspace.trace)
    }

    lemma Known()
      ensures Valid() <==> store.Valid() && client.Valid() && batchSize >= 1 && Registered()
                           && UpToDate(log, id, Renderings(blocks), store.queue, client.workspace.trace)
    {
    }

    /** A worker starts from whatever an earlier one left behind. */
    constructor (id: string, store: Store, client: Client, blocks: string -> seq<Block>, batchSize: int, lease: nat,
                 log: seq<Moment>)
      requires store.Valid() && client.Valid()
      requires UpToDate(log, id, Renderings(blocks), store.queue, client.workspace.trace)
      ensures Valid() && this.id == id && this.store == store && this.client == client && this.log == log
      ensures this.batchSize == Capacity(batchSize) == (if batchSize <= 0 then 1 else batchSize)
      ensures Register() == IDLE && !running
      ensures this.blocks == blocks
    {
      this.id, this.store, this.client, this.blocks := id, store, client, blocks;
      this.batchSize, this.lease, this.log := Capacity(batchSize), lease, log;
      running, stopping, operations, waiting, nextOperation, used := false, false, {}, 0, 0, {};
    }

    /** A stop may be requested at any time. */
    method NoteStop(stopRequested: bool)
      requires Registered()
      modifies this`stopping
      ensures Registered() && stopping == (old(stopping) || stopRequested)
    {
      stopping := stopping || stopRequested;
    }

    method AcquireRun() returns (ok: bool)
      modifies this`running
      ensures ok == !old(running) && running
    {
      ok := !running;
      running := true;
    }

    /** Register a delivery unless the worker is stopping. */
    method BeginClaimOperation() returns (operation: Option<nat>)
      requires Registered()
      modifies this`operations, this`waiting, this`nextOperation, this`used
      ensures Registered() && (operation.Some? <==> !stopping)
      ensures operation.Some? ==> operation.value !in old(Register()).used
      ensures operation.Some? ==>
                operation.value !in old(operations) && operations == old(operations) + {operation.value}
      ensures operation.None? ==> operations == old(operations)
      ensures Register() == if operation.Some? then Moved(old(Register()), Begin(operation.value)) else old(Register())
    {
      if stopping {
        return None;
      }
      MoveIsCounted(Register(), Begin(nextOperation));
      operation := Some(nextOperation);
      operations := operations + {nextOperation};
      waiting, nextOperation, used := waiting + 1, nextOperation + 1, used + {nextOperation};
    }

    /** Take the delivery out of the register, then out of the wait group. */
    method CompleteOperation(operation: nat)
      requires Registered() && operation in operations
      modifies this`operations, this`waiting
      ensures Registered() && operations == old(operations) - {operation}
      ensures Register() == Moved(Moved(old(Register()), Remove(operation)), ExportOperations.Done(operation))
    {
      operations := operations - {operation};
      waiting := waiting - 1;
    }

    /** Ask for a stop; says whether the wait group is at zero, which is what `stop` waits for. */
    method Stop() returns (quiet: bool)
      requires Valid()
      modifies this`stopping
      ensures Valid() && Register() == Moved(old(Register()), RequestStop)
      ensures quiet <==> operations == {}
    {
      hide UpToDate, Store.Valid, Client.Valid;
      stopping := true;
      quiet := waiting == 0;
    }

    /** The queue changed; at most one published row became synced since. */
    method NoteQueue(ghost was: Queue, ghost key: Key)
      requires store.Valid() && client.Valid() && batchSize >= 1 && Registered()
      requires UpToDate(log, id, Renderings(blocks), was, client.workspace.trace)
      requires SyncedKeys(store.queue, id) == SyncedKeys(was, id)
            || (SyncedKeys(store.queue, id) == SyncedKeys(was, id) + {key}
                && Published(client.workspace.pages, key.content))
      modifies this`log
      ensures Valid() && Last(log) == Now() && log == old(log) + [Now()]
    {
      hide UpToDate, SyncedKeys, Published, Store.Valid, Counted;
      LastState(client);
      ChangeIsRecorded(log, id, Renderings(blocks), was, store.queue, client.workspace.trace, key);
      log := log + [Moment(store.queue, client.workspace.pages, |client.workspace.trace| - 1)];
    }

    lemma NowKnown()
      ensures |client.workspace.trace| > 0 ==> Now().queue == store.queue
    {
    }

    /** The one live page of the content holds exactly its blocks, unless it was there at first. */
    ghost predicate Shown(key: Key)
      reads this`log, client.workspace
    {
      |log| > 0 && Shows(log[0].pages, client.workspace.pages, key.content, Renderings(blocks))
    }

    lemma IsShown(key: Key)
      ensures |log| > 0 && Shows(log[0].pages, client.workspace.pages, key.content, Renderings(blocks)) ==> Shown(key)
      ensures Shown(key) ==> |log| > 0 && Shows(log[0].pages, client.workspace.pages, key.content, Renderings(blocks))
    {
    }

    ghost function Now(): Moment
      requires |client.workspace.trace| > 0
      reads store, client.workspace
    {
      Moment(store.queue, client.workspace.pages, |client.workspace.trace| - 1)
    }

    /** Renew the claim from time to time while others act, until the delivery is over. A renewal
        that fails or finds the claim gone means that the claim is lost, unless it came too late. */
    method Heartbeats(key: Key, token: Token) returns (lost: bool, ghost renewals: seq<Queue>)
      requires store.Valid() && Owned(store.queue, store.mine, key, token)
      modifies store`queue, store`nextToken, store`faults
      ensures store.Valid() && Owned(store.queue, store.mine, key, token) && Later(old(store.queue), store.queue)
      ensures OthersResolved(old(store.queue), store.queue, store.mine)
      ensures SyncedKeys(store.queue, id) == old(SyncedKeys(store.queue, id)) && store.faults >= old(store.faults)
      ensures lost ==> store.faults > old(store.faults) || Superseded(store.queue, key, token)
      ensures forall i | 0 <= i < |renewals| :: Leased(renewals[i], key, token, lease)
    {
      hide *;
      lost, renewals := false, [];
      var beats: int := *;
      ghost var was := store.queue;
      LaterSelf(was);
      NothingResolved(was, store.mine);
      while true
        invariant store.Valid() && Owned(store.queue, store.mine, key, token) && Later(was, store.queue)
        invariant OthersResolved(was, store.queue, store.mine) && store.faults >= old(store.faults)
        invariant SyncedKeys(store.queue, id) == old(SyncedKeys(store.queue, id))
        invariant forall i | 0 <= i < |renewals| :: Leased(renewals[i], key, token, lease)
        decreases beats
      {
        ghost var before := store.queue;
        ghost var steps := store.Others(id);
        LaterOn(was, before, store.queue);
        ResolvedOn(was, before, store.queue, store.mine);
        OwnedOn(before, store.queue, store.mine, key, token);
        if beats <= 0 {
          return;
        }
        ghost var waited := store.queue;
        var renewed := store.Renew(key, token, lease);
        LaterOn(was, waited, store.queue);
        SameResolved(waited, store.queue, store.mine);
        ResolvedOn(was, waited, store.queue, store.mine);
        OwnedOn(waited, store.queue, store.mine, key, token);
        if renewed != Success(true) {
          if renewed.Success? {
            StoreKnown(store);
            NotHeld(store.queue, store.maxAttempts, key, token);
          }
          var late: bool := *;
          return !late, renewals;
        }
        renewals := renewals + [store.queue];
        beats := beats - 1;
      }
    }

    /** Deliver one claimed row while its heartbeat renews the claim. `lost` says that a
        renewal failed or found the claim gone. */
    method DeliverClaimed(key: Key, token: Token) returns (delivered: bool, lost: bool)
      requires Valid() && Owned(store.queue, store.mine, key, token)
      modifies this`log, store`queue, store`nextToken, store`faults, client, client.workspace
      ensures Valid() && old(log) <= log && old(client.workspace.trace) <= client.workspace.trace
      ensures SyncedKeys(store.queue, id) == old(SyncedKeys(store.queue, id))
      ensures Later(old(store.queue), store.queue) && store.faults >= old(store.faults)
      ensures store.mine == old(store.mine) && OthersResolved(old(store.queue), store.queue, store.mine)
      ensures lost ==> store.faults > old(store.faults) || Superseded(store.queue, key, token)
      ensures delivered ==> Published(client.workspace.pages, key.content) && Shown(key)
      ensures GuardedFrom(old(client.workspace.pages), client.workspace.trace, |old(client.workspace.trace)|,
                          iset{Item(key.content, blocks(key.content))})
      ensures client.workspace.faults >= old(client.workspace.faults)
      ensures !delivered ==> client.workspace.faults > old(client.workspace.faults) || TrimSpace(key.content) == ""
    {
      hide *;
      Known();
      ghost var base, faults, was := client.workspace.pages, client.workspace.faults, store.queue;
      var trace := client.workspace.trace;
      LastState(client);
      var lostBefore, early := Heartbeats(key, token);
      ghost var between := store.queue;
      var item := Item(key.content, blocks(key.content));
      delivered := client.Deliver(item);
      Rendering(item, blocks);
      RanMeans(client, base, trace, faults, item);
      BlankItem(key.content, blocks(key.content));
      var lostLater, late := Heartbeats(key, token);
      lost := lostBefore || lostLater;
      LaterOn(was, between, store.queue);
      ResolvedOn(was, between, store.queue, store.mine);
      LaterMeans(was, store.queue);
      SupersededOn(between, store.queue, key, token);
      SameSynced(log, id, Renderings(blocks), was, store.queue, trace);
      DeliveryIsRecorded(log, id, Renderings(blocks), store.queue, trace, client.workspace.trace, item);
      log := log + Exchanges(store.queue, client.workspace.trace, |trace|);
      Known();
      LastState(client);
      PublishedIsShown(log, id, Renderings(blocks), store.queue, client.workspace.trace, key.content);
      IsShown(key);
    }

    /** Settle one claimed row: renew the claim, deliver, then complete or fail the row. Only a
        row whose content is published can become synced, even when the reply is lost. */
    method ProcessClaimed(key: Key, token: Token, stopRequested: bool) returns (ending: Ending)
      requires Valid() && key.exporter == id
      requires Owned(store.queue, store.mine, key, token) && !Resolved(store.queue, key, token)
      modifies this, store`queue, store`nextToken, store`faults, client, client.workspace
      ensures Valid() && running == old(running) && operations == old(operations)
      ensures stopping == (old(stopping) || stopRequested)
      ensures (ending.Halted? ==> stopping) && (stopping ==> ending.Halted? || ending.LostClaim?)
      ensures !ending.LostClaim? ==> |old(log)| < |log| && Leased(log[|old(log)|].queue, key, token, lease)
      ensures Settled(ending, store.queue, key, token, store.faults == old(store.faults))
      ensures old(log) <= log && old(client.workspace.trace) <= client.workspace.trace
      ensures |old(log)| < |log| && Last(log) == Now()
      ensures Later(old(store.queue), store.queue) && store.faults >= old(store.faults)
      ensures EndedSo(ending, key, old(SyncedKeys(store.queue, id)), SyncedKeys(store.queue, id))
      ensures ending.MarkedSynced? ==> Published(client.workspace.pages, key.content) && Shown(key)
      ensures ending.MarkedFailed? ==>
                client.workspace.faults > old(client.workspace.faults) || TrimSpace(key.content) == ""
    {
      hide *;
      Known();
      LastState(client);
      ghost var was := store.queue;
      NoChange(key, SyncedKeys(was, id));
      NoteStop(stopRequested);
      var renewed := store.Renew(key, token, lease);
      NoteQueue(was, key);
      NowKnown();
      OwnedOn(was, store.queue, store.mine, key, token);
      SameResolved(was, store.queue, store.mine);
      StillUnresolved(was, store.queue, store.mine, key, token);
      if renewed != Success(true) {
        if renewed.Success? {
          NotHeldStore(store, key, token);
        }
        LostIsSettled(store.queue, key, token, renewed.Failure?, renewed.Success?);
        return LostClaim(renewed.Failure?);
      }
      Known();
      var operation := BeginClaimOperation();
      Known();
      if operation.None? {
        HaltedIsSettled(store.queue, key, token);
        return Halted;
      }
      ghost var renewal := store.queue;
      ending := DeliverAndMark(key, token);
      LaterOn(was, renewal, store.queue);
      Known();
      CompleteOperation(operation.value);
      Known();
    }

    /** The delivery and what is made of its outcome. */
    method DeliverAndMark(key: Key, token: Token) returns (ending: Ending)
      requires Valid() && key.exporter == id
      requires Owned(store.queue, store.mine, key, token) && !Resolved(store.queue, key, token)
      modifies this`log, store`queue, store`nextToken, store`faults, client, client.workspace
      ensures Valid() && !ending.Halted?
      ensures Settled(ending, store.queue, key, token, store.faults == old(store.faults))
      ensures old(log) <= log && old(client.workspace.trace) <= client.workspace.trace
      ensures |old(log)| < |log| && Last(log) == Now()
      ensures Later(old(store.queue), store.queue) && store.faults >= old(store.faults)
      ensures EndedSo(ending, key, old(SyncedKeys(store.queue, id)), SyncedKeys(store.queue, id))
      ensures ending.MarkedSynced? ==> Published(client.workspace.pages, key.content) && Shown(key)
      ensures ending.MarkedFailed? ==>
                client.workspace.faults > old(client.workspace.faults) || TrimSpace(key.content) == ""
    {
      hide *;
      ghost var was := store.queue;
      var delivered, lost := DeliverClaimed(key, token);
      Known();
      LastState(client);
      ghost var met, faults := store.queue, store.faults;
      OwnedOn(was, store.queue, store.mine, key, token);
      StillUnresolved(was, met, store.mine, key, token);
      NoChange(key, SyncedKeys(store.queue, id));
      if lost {
        NoteQueue(store.queue, key);
        LostIsSettled(store.queue, key, token, true, store.faults == old(store.faults));
        ending := LostClaim(true);
      } else if delivered {
        IsShown(key);
        ending := CompleteDelivered(key, token);
        LaterOn(was, met, store.queue);
        IsShown(key);
      } else {
        ending := FailDelivered(key, token);
        LaterOn(was, met, store.queue);
      }
      if !lost {
        LaterSelf(store.queue);
        StaysSettled(ending, store.queue, store.queue, key, token, store.faults == faults,
                     store.faults == old(store.faults));
      }
    }

    /** Mark a delivered row as synced. */
    method CompleteDelivered(key: Key, token: Token) returns (ending: Ending)
      requires Valid() && key.exporter == id && Published(client.workspace.pages, key.content)
      requires Owned(store.queue, store.mine, key, token) && !Resolved(store.queue, key, token)
      modifies this`log, store`queue, store`nextToken, store`faults
      ensures ending.MarkedSynced? <==> old(Holds(store.queue.rows, key, token)) && store.faults == old(store.faults)
      ensures Settled(ending, store.queue, key, token, store.faults == old(store.faults))
      ensures Valid() && old(log) <= log && |old(log)| < |log| && Last(log) == Now()
      ensures Later(old(store.queue), store.queue) && store.faults >= old(store.faults)
      ensures ending.MarkedSynced? || ending.LostClaim?
      ensures EndedSo(ending, key, old(SyncedKeys(store.queue, id)), SyncedKeys(store.queue, id))
    {
      hide *;
      Known();
      LastState(client);
      ghost var was := store.queue;
      StoreKnown(store);
      CompletionAddsOne(store.queue, key, token, store.maxAttempts);
      var marked := store.Complete(key, token);
      assert marked.Success? ==> marked == Success(marked.value);
      ending := if marked == Success(true) then MarkedSynced else LostClaim(marked.Failure?);
      if marked == Success(false) {
        NotHeldStore(store, key, token);
      }
      MarkIsSettled(was, store.queue, key, token, marked);
      NoteQueue(was, key);
      NoChange(key, SyncedKeys(was, id));
      OneChange(key, SyncedKeys(was, id));
    }

    /** Count a failed delivery against the row. */
    method FailDelivered(key: Key, token: Token) returns (ending: Ending)
      requires Valid() && key.exporter == id
      requires Owned(store.queue, store.mine, key, token) && !Resolved(store.queue, key, token)
      modifies this`log, store`queue, store`nextToken, store`faults
      ensures Settled(ending, store.queue, key, token, store.faults == old(store.faults))
      ensures Valid() && old(log) <= log && |old(log)| < |log| && Last(log) == Now()
      ensures Later(old(store.queue), store.queue) && store.faults >= old(store.faults)
      ensures ending.MarkedFailed? || ending.LostClaim?
      ensures ending.MarkedFailed? ==>
                exists steps :: FailedFrom(Run(old(store.queue), steps, store.maxAttempts), store.queue, key, token,
                                           store.maxAttempts)
      ensures SyncedKeys(store.queue, id) == old(SyncedKeys(store.queue, id))
    {
      hide *;
      Known();
      LastState(client);
      ghost var was := store.queue;
      var marked := store.Fail(key, token);
      ending := if marked == Success(true) then MarkedFailed else LostClaim(marked.Failure?);
      OwnedOn(was, store.queue, store.mine, key, token);
      if marked == Success(false) {
        NotHeldStore(store, key, token);
      }
      FailureIsSettled(was, store.queue, key, token, marked);
      NoteQueue(was, key);
    }

    /** One batch. Every claim ends in exactly one of the counted ways, at most one halts the
        batch, the rows that became synced are those counted plus lost acknowledgements, every
        exchange is in the log, and unless a claim fails the batch goes on until it is full,
        cancelled, halted, or nothing is due. */
    method RunBatch(requests: Requests)
      returns (stats: Stats, halted: bool, ghost turns: seq<Turn>, ghost refused: bool)
      requires Valid()
      modifies this, store, client, client.workspace
      ensures Valid() && old(log) <= log && operations == old(operations) && running == old(running)
      ensures stats.busy == old(running)
      ensures stats.busy ==> stats == Stats(true, 0, 0, 0, 0, 0) && !halted && log == old(log)
      ensures !stats.busy ==> |old(log)| < |log| && Last(log) == Now()
      ensures old(client.workspace.trace) <= client.workspace.trace
      ensures forall j | |old(client.workspace.trace)| <= j < |client.workspace.trace| ::
                Logged(log, |old(log)|, j) && Safe(client.workspace.trace[j])
      ensures stats.claimed == stats.synced + stats.failed + stats.lost + (if halted then 1 else 0)
      ensures stats.claimed <= batchSize && |old(store.queue).issued| + stats.claimed <= |store.queue.issued|
      ensures old(SyncedKeys(store.queue, id)) <= SyncedKeys(store.queue, id)
      ensures |old(SyncedKeys(store.queue, id))| + stats.synced <= |SyncedKeys(store.queue, id)|
      ensures |SyncedKeys(store.queue, id)| <= |old(SyncedKeys(store.queue, id))| + stats.synced + stats.lost
      ensures (halted ==> stopping) && (stopping ==> old(stopping) || stats.claimed > requests.stopAfter)
      ensures store.faults >= old(store.faults)
      ensures refused ==> store.faults > old(store.faults)
      ensures !stats.busy && !halted && !refused ==>
                || stats.claimed == batchSize || stats.claimed >= requests.cancelAfter
                || NothingDue(store.queue, id, store.maxAttempts)
      ensures Later(old(store.queue), store.queue)
      ensures TurnsAreRight(turns, lease, old(store.queue).issued, log, |old(log)|, store.queue,
                            store.faults == old(store.faults))
      ensures !stats.busy ==>
                && |turns| == stats.claimed
                && stats == Tallied(turns).(errors := Tallied(turns).errors + if refused then 1 else 0)
      ensures stats.lost > 0 && store.faults == old(store.faults) ==>
                exists k, t :: t !in old(store.queue).issued
                               && Superseded(store.queue, k, t) && !Resolved(store.queue, k, t)
    {
      hide *;
      stats, halted, turns, refused := Stats(true, 0, 0, 0, 0, 0), false, [], false;
      LaterSelf(store.queue);
      NoTurns(lease, store.queue.issued, log, |log|, store.queue, true);
      Known();
      ghost var before, trace, was := log, client.workspace.trace, store.queue;
      NewExchangesLogged(before, log, id, Renderings(blocks), was, store.queue, trace, client.workspace.trace);
      var acquired := AcquireRun();
      Known();
      if !acquired {
        return;
      }
      stats, halted, turns, refused := TakeTurns(requests);
      Known();
      LastState(client);
      ghost var taken := log;
      LaterSelf(store.queue);
      NoteQueue(store.queue, Key("", ""));
      TurnsStay(turns, lease, was.issued, taken, log, |before|, store.queue, store.queue,
                store.faults == old(store.faults), store.faults == old(store.faults));
      LossIsTaken(turns, lease, stats.lost, was.issued, log, |before|, store.queue, store.faults == old(store.faults));
      Known();
      NewExchangesLogged(before, log, id, Renderings(blocks), was, store.queue, trace, client.workspace.trace);
      running := false;
      Known();
    }

    /** The loop over the claims of a batch; `refused` says that it ended with a claim that failed. */
    method TakeTurns(requests: Requests)
      returns (stats: Stats, halted: bool, ghost turns: seq<Turn>, ghost refused: bool)
      requires Valid()
      modifies this, store, client, client.workspace
      ensures Later(old(store.queue), store.queue)
      ensures TurnsAreRight(turns, lease, old(store.queue).issued, log, |old(log)|, store.queue,
                            store.faults == old(store.faults))
      ensures |turns| == stats.claimed
      ensures stats == Tallied(turns).(errors := Tallied(turns).errors + if refused then 1 else 0)
      ensures Valid() && old(log) <= log && operations == old(operations) && running == old(running)
      ensures !stats.busy && old(client.workspace.trace) <= client.workspace.trace
      ensures stats.claimed == stats.synced + stats.failed + stats.lost + (if halted then 1 else 0)
      ensures stats.claimed <= batchSize && |old(store.queue).issued| + stats.claimed <= |store.queue.issued|
      ensures old(SyncedKeys(store.queue, id)) <= SyncedKeys(store.queue, id)
      ensures |old(SyncedKeys(store.queue, id))| + stats.synced <= |SyncedKeys(store.queue, id)|
      ensures |SyncedKeys(store.queue, id)| <= |old(SyncedKeys(store.queue, id))| + stats.synced + stats.lost
      ensures (halted ==> stopping) && (stopping ==> old(stopping) || stats.claimed > requests.stopAfter)
      ensures store.faults >= old(store.faults)
      ensures refused ==> store.faults > old(store.faults)
      ensures !halted && !refused ==>
                || stats.claimed == batchSize || stats.claimed >= requests.cancelAfter
                || NothingDue(store.queue, id, store.maxAttempts)
    {
      hide *;
      Known();
      stats, halted, turns, refused := Stats(false, 0, 0, 0, 0, 0), false, [], false;
      ghost var issued := store.queue.issued;
      LaterSelf(store.queue);
      LaterMeans(store.queue, store.queue);
      NoTurns(lease, issued, log, |log|, store.queue, true);
      while stats.claimed < batchSize
        invariant Valid() && old(log) <= log && operations == old(operations) && running == old(running)
        invariant !halted && !stats.busy && old(client.workspace.trace) <= client.workspace.trace
        invariant stats.claimed == stats.synced + stats.failed + stats.lost <= batchSize
        invariant |old(store.queue).issued| + stats.claimed <= |store.queue.issued|
        invariant old(SyncedKeys(store.queue, id)) <= SyncedKeys(store.queue, id)
        invariant |old(SyncedKeys(store.queue, id))| + stats.synced <= |SyncedKeys(store.queue, id)|
        invariant |SyncedKeys(store.queue, id)| <= |old(SyncedKeys(store.queue, id))| + stats.synced + stats.lost
        invariant stopping ==> old(stopping) || stats.claimed > requests.stopAfter
        invariant store.faults >= old(store.faults) && Later(old(store.queue), store.queue)
        invariant TurnsAreRight(turns, lease, issued, log, |old(log)|, store.queue, store.faults == old(store.faults))
        invariant !refused && |turns| == stats.claimed && stats == Tallied(turns)
      {
        if stats.claimed >= requests.cancelAfter {
          break;
        }
        ghost var start, soFar, met := store.queue, log, store.faults;
        var claim, token := ClaimNext();
        LaterOn(old(store.queue), start, store.queue);
        TurnsStay(turns, lease, issued, soFar, log, |old(log)|, start, store.queue, met == old(store.faults),
                  store.faults == old(store.faults));
        if claim.Failure? {
          stats, refused := stats.(errors := stats.errors + 1), true;
          break;
        }
        if claim.value.None? {
          break;
        }
        Known();
        OwnedOn(store.queue, store.queue, store.mine, claim.value.value, token);
        LastState(client);
        NoteQueue(store.queue, claim.value.value);
        NowKnown();
        ghost var before, claimed, noted := SyncedKeys(store.queue, id), store.queue, log;
        var ending := ProcessClaimed(claim.value.value, token, stats.claimed >= requests.stopAfter);
        ghost var turn := Turn(claim.value.value, token, |noted| - 1, ending);
        LaterOn(old(store.queue), claimed, store.queue);
        LaterMeans(claimed, store.queue);
        MoreIssued(claimed.issued, store.queue.issued);
        MoreTurns(turns, lease, turn, old(store.queue), soFar, noted, log, |old(log)|, start, claimed, store.queue,
                  met == old(store.faults), store.faults == old(store.faults), store.faults == met);
        turns := turns + [turn];
        CountsOne(stats, ending, claim.value.value, before, SyncedKeys(store.queue, id));
        stats := CountEnding(stats, ending);
        if ending.Halted? {
          halted := true;
          break;
        }
      }
    }

    /** Others act, then the worker claims at most one row. */
    method ClaimNext() returns (r: Result<Option<Key>>, token: Token)
      requires Valid()
      modifies store
      ensures Valid() && SyncedKeys(store.queue, id) == old(SyncedKeys(store.queue, id))
      ensures Later(old(store.queue), store.queue)
      ensures |old(store.queue).issued| + (if r.Success? then 1 else 0) <= |store.queue.issued|
      ensures store.faults == old(store.faults) + if r.Failure? then 1 else 0
      ensures r.Success? && r.value.Some? ==>
                && r.value.value.exporter == id && Leased(store.queue, r.value.value, token, lease)
                && token !in old(store.queue).issued && Owned(store.queue, store.mine, r.value.value, token)
                && !Resolved(store.queue, r.value.value, token)
      ensures r.Success? && r.value.None? ==> NothingDue(store.queue, id, store.maxAttempts)
    {
      hide *;
      Known();
      ghost var was := store.queue;
      var steps := store.Others(id);
      LaterMeans(was, store.queue);
      MoreIssued(was.issued, store.queue.issued);
      ghost var start := store.queue;
      StoreKnown(store);
      LaterMeans(was, start);
      r, token := store.Claim(id, lease);
      LaterOn(was, start, store.queue);
      LaterMeans(start, store.queue);
      MoreIssued(start.issued, store.queue.issued);
      if r.Success? {
        MoreIssued(start.issued + {token}, store.queue.issued);
        if r.value.Some? {
          ClaimedIsOwned(start, store.queue, store.mine, store.maxAttempts, r.value.value, token, lease);
        }
      }
      SameSynced(log, id, Renderings(blocks), was, store.queue, client.workspace.trace);
      Known();
    }
  }

  lemma LastState(client: Client)
    requires client.Valid()
    ensures var w := client.workspace; |w.trace| > 0 && w.trace[|w.trace| - 1] == w.pages
  {
  }

  lemma OwnedOn(before: Queue, after: Queue, mine: set<Token>, key: Key, token: Token)
    requires Owned(before, mine, key, token) && Later(before, after)
    ensures Owned(after, mine, key, token) && token in mine && token in after.issued && key in after.rows
  {
  }

  lemma LaterMeans(before: Queue, after: Queue)
    requires Later(before, after)
    ensures before.issued <= after.issued
  {
  }

  lemma SupersededOn(before: Queue, after: Queue, key: Key, token: Token)
    requires Later(before, after)
    ensures Superseded(before, key, token) ==> Superseded(after, key, token)
  {
  }

  lemma SameResolved(before: Queue, after: Queue, mine: set<Token>)
    requires before.resolved == after.resolved
    ensures OthersResolved(before, after, mine)
  {
  }

  lemma StillUnresolved(before: Queue, after: Queue, mine: set<Token>, key: Key, token: Token)
    requires Later(before, after) && OthersResolved(before, after, mine) && token in mine
    requires !Resolved(before, key, token)
    ensures !Resolved(after, key, token)
  {
    OthersMean(before, after, mine, key, token);
  }

  lemma NotHeldStore(store: Store, key: Key, token: Token)
    requires store.Valid() && Owned(store.queue, store.mine, key, token) && !Holds(store.queue.rows, key, token)
    ensures Superseded(store.queue, key, token)
  {
    NotHeld(store.queue, store.maxAttempts, key, token);
  }

  lemma LostIsSettled(q: Queue, key: Key, token: Token, reported: bool, faultless: bool)
    requires faultless || !reported ==> Superseded(q, key, token)
    requires !Resolved(q, key, token)
    ensures Settled(LostClaim(reported), q, key, token, faultless)
  {
  }

  lemma HaltedIsSettled(q: Queue, key: Key, token: Token)
    ensures forall faultless: bool :: Settled(Halted, q, key, token, faultless)
  {
  }

  lemma MarkIsSettled(was: Queue, q: Queue, key: Key, token: Token, marked: Result<bool>)
    requires !Resolved(was, key, token)
    requires marked == Success(true) ==> q.resolved == was.resolved + [Resolution(key, token, Synced)]
    requires marked == Success(false) ==> q == was && Superseded(q, key, token)
    ensures Settled(if marked == Success(true) then MarkedSynced else LostClaim(marked.Failure?), q, key, token,
                    marked.Success?)
  {
    if marked == Success(true) {
      assert q.resolved[|was.resolved|] == Resolution(key, token, Synced);
    } else if marked.Success? && !marked.value {
      assert marked == Success(false);
    }
  }

  lemma FailureIsSettled(was: Queue, q: Queue, key: Key, token: Token, marked: Result<bool>)
    requires !Resolved(was, key, token)
    requires marked == Success(true) ==> ResolvedAs(q, key, token, Retry) || ResolvedAs(q, key, token, Failed)
    requires marked == Success(false) ==>
               && Superseded(q, key, token)
               && forall outcome :: ResolvedAs(q, key, token, outcome) ==> ResolvedAs(was, key, token, outcome)
    ensures Settled(if marked == Success(true) then MarkedFailed else LostClaim(marked.Failure?), q, key, token,
                    marked.Success?)
  {
    if marked.Success? && !marked.value {
      assert marked == Success(false);
    }
  }

  lemma StoreKnown(store: Store)
    requires store.Valid()
    ensures Inv(store.queue, store.maxAttempts)
  {
  }

  lemma Rendering(item: Item, blocks: string -> seq<Block>)
    ensures item.blocks == blocks(item.id) ==> item in Renderings(blocks)
  {
  }

  lemma RanMeans(client: Client, base: Pages, trace: seq<Pages>, faults: nat, item: Item)
    requires client.Ran(base, trace, faults, iset{item})
    ensures trace <= client.workspace.trace && GuardedFrom(base, client.workspace.trace, |trace|, iset{item})
    ensures client.workspace.faults >= faults
  {
  }

  lemma BlankItem(content: string, blocks: seq<Block>)
    ensures Blank(Item(content, blocks)) <==> TrimSpace(content) == ""
  {
  }

  lemma MoreIssued(a: set<Token>, b: set<Token>)
    requires a <= b
    ensures |a| <= |b|
  {
    assert b == a + (b - a);
  }

  lemma PublishedIsShown(log: seq<Moment>, exporter: string, items: iset<Item>, queue: Queue, trace: seq<Pages>,
                         content: string)
    requires UpToDate(log, exporter, items, queue, trace)
    ensures |log| > 0 && |trace| > 0
    ensures Published(trace[|trace| - 1], content) ==> Shows(log[0].pages, trace[|trace| - 1], content, items)
  {
    if Published(trace[|trace| - 1], content) {
      assert log[|log| - 1] == Last(log);
      GrownShows(log[0].pages, trace[|trace| - 1], content, items);
    }
  }

  lemma NewExchangesLogged(before: seq<Moment>, log: seq<Moment>, exporter: string, items: iset<Item>,
                           was: Queue, queue: Queue, trace: seq<Pages>, longer: seq<Pages>)
    requires UpToDate(before, exporter, items, was, trace) && UpToDate(log, exporter, items, queue, longer)
    requires before <= log && trace <= longer
    ensures forall j | |trace| <= j < |longer| :: Logged(log, |before|, j) && Safe(longer[j])
  {
    forall j | |trace| <= j < |longer| ensures Logged(log, |before|, j) && Safe(longer[j]) {
      assert log[|before| - 1] == Last(before);
      EveryExchangeIsLogged(log, exporter, items, longer, |before| - 1, j);
      var i :| |before| - 1 <= i < |log| && log[i].at == j;
      assert Backed(log[i], exporter);
    }
  }

  lemma SameSynced(log: seq<Moment>, exporter: string, items: iset<Item>, was: Queue, queue: Queue,
                   trace: seq<Pages>)
    requires UpToDate(log, exporter, items, was, trace) && was.issued <= queue.issued
    requires SyncedKeys(queue, exporter) == SyncedKeys(was, exporter)
    ensures UpToDate(log, exporter, items, queue, trace)
  {
  }

  lemma OneMore(s: set<Key>, k: Key)
    ensures |s + {k}| == if k in s then |s| else |s| + 1
  {
    if k in s {
      assert s + {k} == s;
    }
  }

  lemma CompletionAddsOne(q: Queue, key: Key, token: Token, maxAttempts: nat)
    requires Inv(q, maxAttempts)
    ensures SyncedKeys(After(q, Complete(key, token), maxAttempts), key.exporter)
         == if Holds(q.rows, key, token) then SyncedKeys(q, key.exporter) + {key} else SyncedKeys(q, key.exporter)
    ensures Holds(q.rows, key, token) ==> key !in SyncedKeys(q, key.exporter)
  {
  }
}
