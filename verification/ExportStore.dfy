/** The queue as one worker uses it: each method is one or two statements, any of which can
    fail with or without having taken effect, while other workers keep issuing theirs. */
module ExportStore {
  import opened Common
  import opened ExportProtocol

  /** The rows of one exporter that are done. */
  function SyncedKeys(q: Queue, exporter: string): set<Key> {
    set k | k in q.rows && k.exporter == exporter && q.rows[k].status == Synced
  }

  /** No row of the exporter could be claimed. */
  predicate NothingDue(q: Queue, exporter: string, maxAttempts: nat) {
    forall k | k in q.rows && k.exporter == exporter :: !Due(q.rows[k], q.now, maxAttempts)
  }

  /** Its next attempt comes first; at the same time the smaller content id goes first. */
  ghost predicate GoesBefore(q: Queue, key: Key, other: Key)
    requires key in q.rows && other in q.rows
  {
    || key == other
    || q.rows[key].nextAttempt < q.rows[other].nextAttempt
    || (q.rows[key].nextAttempt == q.rows[other].nextAttempt && StringLess(key.content, other.content))
  }

  /** The token holds the row from now on for the whole seconds of the lease. */
  ghost predicate Leased(q: Queue, key: Key, token: Token, lease: nat) {
    && Holds(q.rows, key, token)
    && q.rows[key].leaseUntil == Some(q.now + lease / 1_000_000_000 * 1_000_000_000)
  }

  /** The statement names one of the tokens. */
  predicate UsesAny(step: Step, tokens: set<Token>) {
    match step
    case Renew(_, token, _) => token in tokens
    case Complete(_, token) => token in tokens
    case FailSelect(_, token) => token in tokens
    case FailUpdate(read) => read.token in tokens
    case _ => false
  }

  /** What was resolved in between was resolved under other tokens. */
  ghost predicate OthersResolved(before: Queue, after: Queue, mine: set<Token>) {
    forall i | |before.resolved| <= i < |after.resolved| :: after.resolved[i].token !in mine
  }

  /** The process claimed the row under the token at some time. */
  ghost predicate Owned(q: Queue, mine: set<Token>, key: Key, token: Token) {
    token in mine && token in q.issued && key in q.rows
  }

  lemma NothingResolved(q: Queue, mine: set<Token>)
    ensures OthersResolved(q, q, mine)
  {
  }

  lemma OneMoreResolved(start: Queue, q: Queue, step: Step, maxAttempts: nat, mine: set<Token>)
    requires OthersResolved(start, q, mine) && !UsesAny(step, mine)
    ensures OthersResolved(start, After(q, step, maxAttempts), mine)
  {
    hide RetryDelay;
  }

  lemma ResolvedOn(a: Queue, b: Queue, c: Queue, mine: set<Token>)
    requires Later(a, b) && Later(b, c) && OthersResolved(a, b, mine) && OthersResolved(b, c, mine)
    ensures OthersResolved(a, c, mine)
  {
    hide Superseded;
  }

  lemma OthersMean(before: Queue, after: Queue, mine: set<Token>, key: Key, token: Token)
    requires Later(before, after) && OthersResolved(before, after, mine) && token in mine
    ensures forall outcome :: ResolvedAs(after, key, token, outcome) ==> ResolvedAs(before, key, token, outcome)
  {
    hide Superseded;
  }

  class Store {
    const maxAttempts: nat
    var queue: Queue
    var nextToken: nat
    // Statements of this process that failed; for the specification only.
    var faults: nat
    // The tokens of this process; for the specification only.
    var mine: set<Token>

    ghost predicate Valid()
      reads this
    {
      && maxAttempts >= 1 && Inv(queue, maxAttempts) && mine <= queue.issued
      && forall t :: t in queue.issued ==> t < nextToken
    }

    lemma Known()
      requires Valid()
      ensures maxAttempts >= 1 && Inv(queue, maxAttempts) && mine <= queue.issued
    {
    }

    constructor (queue: Queue, maxAttempts: nat, nextToken: nat)
      requires maxAttempts >= 1 && Inv(queue, maxAttempts) && forall t :: t in queue.issued ==> t < nextToken
      ensures Valid() && this.queue == queue && this.maxAttempts == maxAttempts
    {
      this.queue, this.maxAttempts, this.nextToken := queue, maxAttempts, nextToken;
      faults, mine := 0, {};
    }

    /** What a crash of this process left behind. */
    method Restore(queue: Queue, nextToken: nat)
      requires Valid() && Inv(queue, maxAttempts) && forall t :: t in queue.issued ==> t < nextToken
      modifies this`queue, this`nextToken, this`mine
      ensures Valid() && this.queue == queue
    {
      this.queue, this.nextToken, mine := queue, nextToken, {};
    }

    /** A step that somebody takes. */
    method Take(step: Step)
      requires Valid() && Enabled(queue, step, maxAttempts)
      modifies this`queue, this`nextToken
      ensures Valid() && queue == After(old(queue), step, maxAttempts) && Later(old(queue), queue)
    {
      StepIsLater(queue, step, maxAttempts);
      StepKeepsInv(queue, step, maxAttempts);
      if step.Claim? && nextToken <= step.token {
        nextToken := step.token + 1;
      }
      queue := After(queue, step, maxAttempts);
    }

    /** One statement of this process. */
    method Execute(step: Step) returns (failed: bool)
      requires Valid() && Enabled(queue, step, maxAttempts)
      modifies this`queue, this`nextToken, this`faults
      ensures Valid() && Later(old(queue), queue)
      ensures queue == old(queue) || queue == After(old(queue), step, maxAttempts)
      ensures !failed ==> queue == After(old(queue), step, maxAttempts)
      ensures faults == old(faults) + if failed then 1 else 0
    {
      hide Later;
      LaterSelf(queue);
      failed := *;
      var applied: bool := *;
      if applied || !failed {
        Take(step);
      }
      if failed {
        faults := faults + 1;
      }
    }

    /** A step of somebody else: on the rows of this exporter others do everything but report a
        delivery, and they do not know the tokens of this process. */
    method OtherStep(exporter: string, step: Step)
      requires Valid() && Enabled(queue, step, maxAttempts)
      requires !(step.Complete? && step.key.exporter == exporter) && !UsesAny(step, mine)
      modifies this`queue, this`nextToken
      ensures Valid() && SyncedKeys(queue, exporter) == SyncedKeys(old(queue), exporter)
      ensures queue == After(old(queue), step, maxAttempts) && Later(old(queue), queue)
      ensures old(queue).selects <= queue.selects && OthersResolved(old(queue), queue, mine)
    {
      hide Later, SyncedKeys, OthersResolved;
      Known();
      SyncedUnchanged(queue, step, maxAttempts, exporter);
      NothingResolved(queue, mine);
      OneMoreResolved(queue, queue, step, maxAttempts, mine);
      Take(step);
    }

    /** Time passes and others act, as often as they like. */
    method Others(exporter: string) returns (ghost steps: seq<Step>)
      requires Valid()
      modifies this`queue, this`nextToken
      ensures Valid() && SyncedKeys(queue, exporter) == SyncedKeys(old(queue), exporter)
      ensures queue == Run(old(queue), steps, maxAttempts) && Later(old(queue), queue)
      ensures old(queue).selects <= queue.selects && OthersResolved(old(queue), queue, mine)
    {
      hide Inv, SyncedKeys, Later, OthersResolved, UsesAny, Run, After, Enabled, Store.Valid;
      LaterSelf(queue);
      NothingResolved(queue, mine);
      var rounds: int := *;
      steps := [];
      RunNothing(queue, maxAttempts);
      while rounds > 0
        invariant queue == Run(old(queue), steps, maxAttempts) && Later(old(queue), queue)
        invariant old(queue).selects <= queue.selects && OthersResolved(old(queue), queue, mine)
        invariant Valid() && SyncedKeys(queue, exporter) == SyncedKeys(old(queue), exporter)
      {
        var step: Step := *;
        if Enabled(queue, step, maxAttempts) && !(step.Complete? && step.key.exporter == exporter)
           && !UsesAny(step, mine) {
          ghost var before := queue;
          OtherStep(exporter, step);
          LaterOn(old(queue), before, queue);
          ResolvedOn(old(queue), before, queue, mine);
          RunOneMore(old(queue), steps, step, maxAttempts);
          steps := steps + [step];
        }
        rounds := rounds - 1;
      }
    }

    /** Claim at most one row of the exporter under a fresh token. */
    method Claim(exporter: string, lease: nat) returns (r: Result<Option<Key>>, token: Token)
      requires Valid()
      modifies this
      ensures Valid() && SyncedKeys(queue, exporter) == SyncedKeys(old(queue), exporter)
      ensures token !in old(queue).issued && Later(old(queue), queue) && queue.resolved == old(queue).resolved
      ensures mine == old(mine) + if token in queue.issued then {token} else {}
      ensures r.Success? ==> token in queue.issued
      ensures faults == old(faults) + if r.Failure? then 1 else 0
      ensures r.Success? && r.value.Some? ==>
                var k := r.value.value;
                && k.exporter == exporter && k in old(queue).rows
                && Due(old(queue).rows[k], old(queue).now, maxAttempts)
                && Leased(queue, k, token, lease)
                && forall other | other in old(queue).rows && other.exporter == exporter
                                  && Due(old(queue).rows[other], old(queue).now, maxAttempts) ::
                     GoesBefore(old(queue), k, other)
      ensures r.Success? && r.value.None? ==>
                NothingDue(queue, exporter, maxAttempts)
    {
      hide Later, Inv, After, FirstDue, Due, Leased, NothingDue, SyncedKeys;
      Known();
      token := nextToken;
      var first := FirstDueKey(exporter);
      var chosen := if first.Some? then {first.value} else {};
      var step := Step.Claim(exporter, token, Truncated(lease), 1, chosen);
      SyncedUnchanged(queue, step, maxAttempts, exporter);
      ClaimTakes(queue, exporter, token, lease, first, maxAttempts);
      if first.Some? {
        FirstGoesBefore(queue, exporter, first.value, maxAttempts);
      }
      var failed := Execute(step);
      if token in queue.issued {
        mine := mine + {token};
      }
      r := if failed then Failure("claim contents") else Success(first);
    }

    /** The row that ORDER BY next_attempt_at, content_id LIMIT 1 selects. */
    method FirstDueKey(exporter: string) returns (first: Option<Key>)
      requires Valid()
      ensures FirstDue(queue, exporter, 1, maxAttempts, if first.Some? then {first.value} else {})
    {
      var left := set k | k in queue.rows && k.exporter == exporter && Due(queue.rows[k], queue.now, maxAttempts);
      ghost var due := left;
      first := None;
      while left != {}
        invariant left <= due
        invariant first.Some? ==> first.value in due - left
        invariant first.None? ==> left == due
        invariant first.Some? ==> forall k | k in due - left && k != first.value :: Earlier(queue.rows, first.value, k)
      {
        var k :| k in left;
        left := left - {k};
        if first.None? || Earlier(queue.rows, k, first.value) {
          if first.Some? {
            EarlierTotal(queue.rows, exporter, k, first.value, due);
          }
          first := Some(k);
        } else {
          EarlierTotal(queue.rows, exporter, first.value, k, due);
        }
      }
    }

    /** Extend the lease of a row that the token holds. */
    method Renew(key: Key, token: Token, lease: nat) returns (r: Result<bool>)
      requires Valid()
      modifies this`queue, this`nextToken, this`faults
      ensures Valid() && Later(old(queue), queue) && queue.resolved == old(queue).resolved
      ensures r == Success(true) ==> Leased(queue, key, token, lease)
      ensures r == Success(false) ==> queue == old(queue)
      ensures forall exporter :: SyncedKeys(queue, exporter) == SyncedKeys(old(queue), exporter)
      ensures faults == old(faults) + if r.Failure? then 1 else 0
      ensures r.Success? ==> r.value == old(Holds(queue.rows, key, token))
    {
      var held := Holds(queue.rows, key, token);
      forall exporter {
        SyncedUnchanged(queue, Step.Renew(key, token, Truncated(lease)), maxAttempts, exporter);
      }
      var failed := Execute(Step.Renew(key, token, Truncated(lease)));
      r := if failed then Failure("renew content claim") else Success(held);
    }

    /** Mark a row that the token holds as synced. */
    method Complete(key: Key, token: Token) returns (r: Result<bool>)
      requires Valid()
      modifies this`queue, this`nextToken, this`faults
      ensures Valid() && Later(old(queue), queue)
      ensures r == Success(true) ==>
                && key in queue.rows && queue.rows[key].status == Synced
                && queue.resolved == old(queue).resolved + [Resolution(key, token, Synced)]
      ensures r == Success(false) ==> queue == old(queue)
      ensures faults == old(faults) + if r.Failure? then 1 else 0
      ensures queue == old(queue) || queue == After(old(queue), Step.Complete(key, token), maxAttempts)
      ensures r.Success? ==>
                r.value == old(Holds(queue.rows, key, token))
                && queue == After(old(queue), Step.Complete(key, token), maxAttempts)
    {
      var held := Holds(queue.rows, key, token);
      var failed := Execute(Step.Complete(key, token));
      r := if failed then Failure("mark content synced") else Success(held);
    }

    /** SELECT, then UPDATE; others may act in between. */
    method Fail(key: Key, token: Token) returns (r: Result<bool>)
      requires Valid()
      modifies this`queue, this`nextToken, this`faults
      ensures Valid() && SyncedKeys(queue, key.exporter) == SyncedKeys(old(queue), key.exporter)
      ensures Later(old(queue), queue) && faults == old(faults) + if r.Failure? then 1 else 0
      ensures r.Success? ==> !Holds(queue.rows, key, token)
      ensures r == Success(true) ==> ResolvedAs(queue, key, token, Retry) || ResolvedAs(queue, key, token, Failed)
      ensures r == Success(false) && token in mine ==>
                forall outcome :: ResolvedAs(queue, key, token, outcome) ==> ResolvedAs(old(queue), key, token, outcome)
      ensures r == Success(true) ==>
                exists steps :: FailedFrom(Run(old(queue), steps, maxAttempts), queue, key, token, maxAttempts)
    {
      hide Inv, SyncedKeys, Run, Later, OthersResolved;
      LaterSelf(queue);
      var held := Holds(queue.rows, key, token);
      var read := if held then Read(key, token, queue.rows[key].attempts) else Read(key, token, 0);
      SyncedUnchanged(queue, FailSelect(key, token), maxAttempts, key.exporter);
      var failed := Execute(FailSelect(key, token));
      if failed {
        return Failure("load sync attempts");
      }
      if !held {
        return Success(false);
      }
      ghost var selected := queue;
      ghost var steps := Others(key.exporter);
      LaterOn(old(queue), selected, queue);
      if token in mine {
        OthersMean(selected, queue, mine, key, token);
      }
      RunFrom(old(queue), FailSelect(key, token), steps, maxAttempts);
      var matched := Holds(queue.rows, key, token) && queue.rows[key].attempts == read.attempts;
      UpdateIsAtomic(queue, maxAttempts, read);
      SyncedUnchanged(queue, FailUpdate(read), maxAttempts, key.exporter);
      ghost var earlier := queue;
      failed := Execute(FailUpdate(read));
      LaterOn(old(queue), earlier, queue);
      r := if failed then Failure("mark sync failed") else Success(matched);
      assert r == Success(true) ==> FailedFrom(earlier, queue, key, token, maxAttempts);
    }
  }

  /** The failure was counted against a row that the token still held. */
  ghost predicate FailedFrom(earlier: Queue, later: Queue, key: Key, token: Token, maxAttempts: nat) {
    Inv(earlier, maxAttempts) && Holds(earlier.rows, key, token)
    && later == AtomicFail(earlier, key, token, maxAttempts)
  }

  lemma FirstGoesBefore(q: Queue, exporter: string, first: Key, maxAttempts: nat)
    requires FirstDue(q, exporter, 1, maxAttempts, {first})
    ensures forall k | k in q.rows && k.exporter == exporter && Due(q.rows[k], q.now, maxAttempts) ::
              GoesBefore(q, first, k)
  {
    hide Due;
  }

  /** What a claim of at most one row does. */
  lemma ClaimTakes(q: Queue, exporter: string, token: Token, lease: nat, first: Option<Key>, maxAttempts: nat)
    requires FirstDue(q, exporter, 1, maxAttempts, if first.Some? then {first.value} else {})
    ensures var step := Step.Claim(exporter, token, Truncated(lease), 1, if first.Some? then {first.value} else {});
      var after := After(q, step, maxAttempts);
      && after.resolved == q.resolved && after.issued == q.issued + {token}
      && (first.Some? ==>
            && first.value.exporter == exporter && first.value in q.rows
            && Due(q.rows[first.value], q.now, maxAttempts) && Leased(after, first.value, token, lease))
      && (first.None? ==> NothingDue(after, exporter, maxAttempts))
  {
    hide Due, Earlier;
  }

  lemma RunNothing(q: Queue, maxAttempts: nat)
    ensures Run(q, [], maxAttempts) == q
  {
  }

  lemma RunOneMore(q: Queue, steps: seq<Step>, step: Step, maxAttempts: nat)
    ensures Run(q, steps + [step], maxAttempts) == Taken(Run(q, steps, maxAttempts), step, maxAttempts)
  {
    assert (steps + [step])[..|steps|] == steps;
  }

  lemma {:induction false} RunFrom(q: Queue, step: Step, steps: seq<Step>, maxAttempts: nat)
    ensures Run(q, [step] + steps, maxAttempts) == Run(Taken(q, step, maxAttempts), steps, maxAttempts)
    decreases |steps|
  {
    hide Run, Taken;
    if steps == [] {
      RunNothing(q, maxAttempts);
      RunNothing(Taken(q, step, maxAttempts), maxAttempts);
      RunOneMore(q, [], step, maxAttempts);
      assert [step] + steps == [] + [step];
    } else {
      var front, last := steps[..|steps| - 1], steps[|steps| - 1];
      RunFrom(q, step, front, maxAttempts);
      RunOneMore(q, [step] + front, last, maxAttempts);
      RunOneMore(Taken(q, step, maxAttempts), front, last, maxAttempts);
      assert steps == front + [last] && [step] + steps == ([step] + front) + [last];
    }
  }

  lemma SyncedUnchanged(q: Queue, step: Step, maxAttempts: nat, exporter: string)
    requires maxAttempts >= 1 && Inv(q, maxAttempts) && Enabled(q, step, maxAttempts)
    requires !(step.Complete? && step.key.exporter == exporter)
    ensures SyncedKeys(After(q, step, maxAttempts), exporter) == SyncedKeys(q, exporter)
  {
  }

  lemma EarlierTotal(rows: Table, exporter: string, a: Key, b: Key, keys: set<Key>)
    requires keys <= rows.Keys && a in keys && b in keys && forall k :: k in keys ==> k.exporter == exporter
    ensures a == b || Earlier(rows, a, b) || Earlier(rows, b, a)
    ensures Earlier(rows, a, b) ==> forall k | k in keys && Earlier(rows, b, k) :: Earlier(rows, a, k)
  {
    StringLessTotal(a.content, b.content);
    forall k | k in keys && Earlier(rows, a, b) && Earlier(rows, b, k) ensures Earlier(rows, a, k) {
      if StringLess(a.content, b.content) && StringLess(b.content, k.content) {
        StringLessTransitive(a.content, b.content, k.content);
      }
    }
  }
}
