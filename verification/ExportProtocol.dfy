/** The export queue (internal/storage/postgres_store.go): every SQL statement is one atomic
    step on the table of export rows, issued by any worker with any claim token. Times are
    nanoseconds. */
module ExportProtocol {
  import opened Common

  /** Claim tokens are random in the program; here they only have to be told apart. */
  type Token = nat

  const SECOND: int := 1_000_000_000

  /** The statements pass a lease as whole seconds. */
  function Truncated(lease: int): int {
    lease / SECOND * SECOND
  }

  datatype Status = Pending | Processing | Retry | Synced | Failed

  datatype Key = Key(content: string, exporter: string)

  datatype Row = Row(status: Status, attempts: nat, nextAttempt: int, claimedBy: Option<Token>, leaseUntil: Option<int>)

  type Table = map<Key, Row>

  /** What the SELECT of a `Fail` call read; its UPDATE may come at any later time. */
  datatype Read = Read(key: Key, token: Token, attempts: nat)

  datatype Resolution = Resolution(key: Key, token: Token, outcome: Status)

  /** `issued`, `selects` and `resolved` record the past; no statement looks at them except
      that claim tokens are fresh and an UPDATE uses what its SELECT read. */
  datatype Queue = Queue(now: int, rows: Table, issued: set<Token>, selects: set<Read>, resolved: seq<Resolution>)

  datatype Step =
    | Tick(elapsed: int)
    | Insert(keys: set<Key>)
    | Claim(exporter: string, token: Token, lease: int, limit: nat, chosen: set<Key>)
    | Renew(key: Key, token: Token, lease: int)
    | Complete(key: Key, token: Token)
    | FailSelect(key: Key, token: Token)
    | FailUpdate(read: Read)

  // ----- the statements -----

  predicate Due(row: Row, now: int, maxAttempts: nat) {
    || (row.status in {Pending, Retry} && row.attempts < maxAttempts && row.nextAttempt <= now)
    || (row.status == Processing && row.leaseUntil.Some? && row.leaseUntil.value <= now)
  }

  predicate Earlier(rows: Table, a: Key, b: Key)
    requires a in rows && b in rows
  {
    rows[a].nextAttempt < rows[b].nextAttempt
    || (rows[a].nextAttempt == rows[b].nextAttempt && StringLess(a.content, b.content))
  }

  /** The first `limit` due rows of the exporter, ordered by next attempt and content id. */
  predicate FirstDue(q: Queue, exporter: string, limit: nat, maxAttempts: nat, chosen: set<Key>) {
    && |chosen| <= limit
    && (forall k | k in chosen :: k in q.rows && k.exporter == exporter && Due(q.rows[k], q.now, maxAttempts))
    && forall k | k in q.rows && k !in chosen && k.exporter == exporter && Due(q.rows[k], q.now, maxAttempts) ::
         |chosen| == limit && forall c | c in chosen :: Earlier(q.rows, c, k)
  }

  /** The WHERE clause of Renew, Complete and both statements of Fail. */
  predicate Holds(rows: Table, key: Key, token: Token) {
    key in rows && rows[key].claimedBy == Some(token) && rows[key].status == Processing
  }

  function Released(row: Row, status: Status): Row {
    row.(status := status, claimedBy := None, leaseUntil := None)
  }

  function Power2(n: nat): nat {
    if n == 0 then 1 else 2 * Power2(n - 1)
  }

  /** Seconds until the next try after `attempts` failures: one minute doubled each time, at most an hour. */
  function RetryDelay(attempts: nat): nat
    requires attempts >= 1
  {
    var doubled := 60 * Power2(attempts - 1);
    if doubled < 3600 then doubled else 3600
  }

  /** The row after one more failure than `before`. */
  function FailedRow(row: Row, before: nat, now: int, maxAttempts: nat): Row {
    var attempts := before + 1;
    Released(row, if attempts >= maxAttempts then Failed else Retry)
      .(attempts := attempts, nextAttempt := now + RetryDelay(attempts) * SECOND)
  }

  predicate Enabled(q: Queue, step: Step, maxAttempts: nat) {
    match step
    case Tick(elapsed) => elapsed >= 0
    case Claim(exporter, token, lease, limit, chosen) =>
      token !in q.issued && lease >= 0 && FirstDue(q, exporter, limit, maxAttempts, chosen)
    case FailUpdate(read) => read in q.selects
    case _ => true
  }

  function After(q: Queue, step: Step, maxAttempts: nat): Queue {
    match step
    case Tick(elapsed) => q.(now := q.now + elapsed)
    case Insert(keys) =>
      q.(rows := (map k | k in keys :: Row(Pending, 0, q.now, None, None)) + q.rows)
    case Claim(exporter, token, lease, limit, chosen) =>
      q.(issued := q.issued + {token},
         rows := map k | k in q.rows ::
           if k in chosen then
             q.rows[k].(status := Processing, claimedBy := Some(token), leaseUntil := Some(q.now + lease))
           else q.rows[k])
    case Renew(key, token, lease) =>
      if Holds(q.rows, key, token) then q.(rows := q.rows[key := q.rows[key].(leaseUntil := Some(q.now + lease))])
      else q
    case Complete(key, token) =>
      if Holds(q.rows, key, token) then
        q.(rows := q.rows[key := Released(q.rows[key], Synced)],
           resolved := q.resolved + [Resolution(key, token, Synced)])
      else q
    case FailSelect(key, token) =>
      if Holds(q.rows, key, token) then q.(selects := q.selects + {Read(key, token, q.rows[key].attempts)}) else q
    // The UPDATE writes values computed from what the SELECT read.
    case FailUpdate(read) =>
      if Holds(q.rows, read.key, read.token) && q.rows[read.key].attempts == read.attempts then
        var row := FailedRow(q.rows[read.key], read.attempts, q.now, maxAttempts);
        q.(rows := q.rows[read.key := row], resolved := q.resolved + [Resolution(read.key, read.token, row.status)])
      else q
  }

  /** When a row that failed `before + 1` times is due again: never once the attempts are used up,
      otherwise after a minute for each doubling, at most an hour. */
  lemma DueAgain(row: Row, before: nat, now: int, maxAttempts: nat, later: int)
    ensures Due(FailedRow(row, before, now, maxAttempts), later, maxAttempts) <==>
              && before + 1 < maxAttempts
              && later - now >= (if 60 * Power2(before) < 3600 then 60 * Power2(before) else 3600) * 1_000_000_000
  {
  }

  /** What `Fail` means as one indivisible step. */
  function AtomicFail(q: Queue, key: Key, token: Token, maxAttempts: nat): Queue {
    if Holds(q.rows, key, token) then
      var row := FailedRow(q.rows[key], q.rows[key].attempts, q.now, maxAttempts);
      q.(rows := q.rows[key := row], resolved := q.resolved + [Resolution(key, token, row.status)])
    else q
  }

  // ----- invariants of every run -----

  function Count(resolved: seq<Resolution>, key: Key): nat {
    if resolved == [] then 0
    else Count(resolved[..|resolved| - 1], key) + (if resolved[|resolved| - 1].key == key then 1 else 0)
  }

  predicate RowOk(key: Key, row: Row, q: Queue, maxAttempts: nat) {
    && (row.status == Pending ==> row.attempts == 0)
    && (row.status != Failed ==> row.attempts < maxAttempts)
    && (row.status == Failed ==> row.attempts == maxAttempts)
    && (row.status == Processing <==> row.claimedBy.Some?)
    && (row.status == Processing <==> row.leaseUntil.Some?)
    && (row.claimedBy.Some? ==> row.claimedBy.value in q.issued)
    && Count(q.resolved, key) == row.attempts + (if row.status == Synced then 1 else 0)
  }

  /** A token that resolved a row no longer holds it, and no pair resolves twice. */
  predicate ResolvedOnce(q: Queue) {
    && (forall i | 0 <= i < |q.resolved| ::
          q.resolved[i].token in q.issued && q.resolved[i].key in q.rows
          && q.rows[q.resolved[i].key].claimedBy != Some(q.resolved[i].token))
    && forall i, j | 0 <= i < j < |q.resolved| ::
         !(q.resolved[i].key == q.resolved[j].key && q.resolved[i].token == q.resolved[j].token)
  }

  /** As long as the token of a read holds the row, the attempts it read are current. */
  predicate ReadsCurrent(q: Queue) {
    forall r | r in q.selects :: r.token in q.issued && r.key in q.rows
      && (q.rows[r.key].claimedBy == Some(r.token) ==> q.rows[r.key].attempts == r.attempts)
  }

  predicate Inv(q: Queue, maxAttempts: nat) {
    && (forall k | k in q.rows :: RowOk(k, q.rows[k], q, maxAttempts))
    && (forall i | 0 <= i < |q.resolved| :: q.resolved[i].key in q.rows)
    && ResolvedOnce(q) && ReadsCurrent(q)
  }

  /** The states a sequence of steps goes through; a step that is not enabled does not happen. */
  function Run(q: Queue, steps: seq<Step>, maxAttempts: nat): Queue
    decreases |steps|
  {
    if steps == [] then q
    else
      var before := Run(q, steps[..|steps| - 1], maxAttempts);
      Taken(before, steps[|steps| - 1], maxAttempts)
  }

  function Taken(q: Queue, step: Step, maxAttempts: nat): Queue {
    if Enabled(q, step, maxAttempts) then After(q, step, maxAttempts) else q
  }

  lemma CountMissing(resolved: seq<Resolution>, key: Key)
    requires forall i | 0 <= i < |resolved| :: resolved[i].key != key
    ensures Count(resolved, key) == 0
  {
  }

  lemma CountMore(resolved: seq<Resolution>, r: Resolution)
    ensures forall k :: Count(resolved + [r], k) == Count(resolved, k) + (if r.key == k then 1 else 0)
  {
    assert (resolved + [r])[..|resolved|] == resolved;
  }

  /** Releasing a held row with one more failure, or as synced, keeps the invariant. */
  lemma ResolutionKeepsInv(q: Queue, key: Key, token: Token, row: Row, maxAttempts: nat)
    requires maxAttempts >= 1 && Inv(q, maxAttempts) && Holds(q.rows, key, token)
    requires row.claimedBy.None? && row.leaseUntil.None?
    requires || (row.status == Synced && row.attempts == q.rows[key].attempts)
             || (row.attempts == q.rows[key].attempts + 1
                 && row.status == (if row.attempts >= maxAttempts then Failed else Retry))
    ensures Inv(q.(rows := q.rows[key := row], resolved := q.resolved + [Resolution(key, token, row.status)]),
                maxAttempts)
  {
    CountMore(q.resolved, Resolution(key, token, row.status));
    assert RowOk(key, q.rows[key], q, maxAttempts);
  }

  lemma StepKeepsInv(q: Queue, step: Step, maxAttempts: nat)
    requires maxAttempts >= 1 && Inv(q, maxAttempts) && Enabled(q, step, maxAttempts)
    ensures Inv(After(q, step, maxAttempts), maxAttempts)
  {
    UnresolvedKeepsInv(q, step, maxAttempts);
    hide Inv;
    match step
    case Complete(key, token) =>
      if Holds(q.rows, key, token) {
        ResolutionKeepsInv(q, key, token, Released(q.rows[key], Synced), maxAttempts);
      }
    case FailUpdate(read) =>
      if Holds(q.rows, read.key, read.token) && q.rows[read.key].attempts == read.attempts {
        ResolutionKeepsInv(q, read.key, read.token, FailedRow(q.rows[read.key], read.attempts, q.now, maxAttempts),
                           maxAttempts);
      }
    case Insert(keys) => InsertKeepsInv(q, keys, maxAttempts);
    case _ =>
  }

  lemma InsertKeepsInv(q: Queue, keys: set<Key>, maxAttempts: nat)
    requires maxAttempts >= 1 && Inv(q, maxAttempts)
    ensures Inv(After(q, Insert(keys), maxAttempts), maxAttempts)
  {
    forall k | k in keys && k !in q.rows ensures Count(q.resolved, k) == 0 {
      CountMissing(q.resolved, k);
    }
  }

  lemma UnresolvedKeepsInv(q: Queue, step: Step, maxAttempts: nat)
    requires maxAttempts >= 1 && Inv(q, maxAttempts) && Enabled(q, step, maxAttempts)
    ensures step.Tick? || step.Claim? || step.Renew? || step.FailSelect? ==>
              Inv(After(q, step, maxAttempts), maxAttempts)
  {
    hide Count, StringLess;
  }

  lemma {:induction false} RunKeepsInv(q: Queue, steps: seq<Step>, maxAttempts: nat)
    requires maxAttempts >= 1 && Inv(q, maxAttempts)
    ensures Inv(Run(q, steps, maxAttempts), maxAttempts)
    decreases |steps|
  {
    if steps != [] {
      var before := Run(q, steps[..|steps| - 1], maxAttempts);
      RunKeepsInv(q, steps[..|steps| - 1], maxAttempts);
      if Enabled(before, steps[|steps| - 1], maxAttempts) {
        StepKeepsInv(before, steps[|steps| - 1], maxAttempts);
      }
    }
  }

  const EMPTY: Queue := Queue(0, map[], {}, {}, [])

  /** What every reachable state shows of one row. */
  lemma AttemptsBounded(steps: seq<Step>, maxAttempts: nat, key: Key)
    requires maxAttempts >= 1 && key in Run(EMPTY, steps, maxAttempts).rows
    ensures var q := Run(EMPTY, steps, maxAttempts); var row := q.rows[key];
      && (row.status == Pending ==> row.attempts == 0)
      && (row.status in {Pending, Processing, Retry, Synced} ==> row.attempts < maxAttempts)
      && (row.status == Failed <==> row.attempts == maxAttempts)
      && Count(q.resolved, key) == row.attempts + (if row.status == Synced then 1 else 0)
      && Count(q.resolved, key) <= maxAttempts
  {
    RunKeepsInv(EMPTY, steps, maxAttempts);
  }

  /** No claim token ever resolves the same row twice. */
  lemma ResolvesAtMostOnce(steps: seq<Step>, maxAttempts: nat)
    requires maxAttempts >= 1
    ensures var resolved := Run(EMPTY, steps, maxAttempts).resolved;
      forall i, j | 0 <= i < j < |resolved| ::
        resolved[i].key != resolved[j].key || resolved[i].token != resolved[j].token
  {
    RunKeepsInv(EMPTY, steps, maxAttempts);
  }

  // ----- tokens that lost their row, and rows that are done -----

  ghost predicate Superseded(q: Queue, key: Key, token: Token) {
    token in q.issued && key in q.rows && q.rows[key].claimedBy != Some(token)
  }

  predicate Uses(step: Step, key: Key, token: Token) {
    || (step.Renew? && step.key == key && step.token == token)
    || (step.Complete? && step.key == key && step.token == token)
    || (step.FailSelect? && step.key == key && step.token == token)
    || (step.FailUpdate? && step.read.key == key && step.read.token == token)
  }

  /** A token that does not hold a row never gets it back, whatever happens next. */
  lemma {:induction false} SupersededForever(q: Queue, steps: seq<Step>, maxAttempts: nat, key: Key, token: Token)
    requires maxAttempts >= 1 && Inv(q, maxAttempts) && Superseded(q, key, token)
    ensures Superseded(Run(q, steps, maxAttempts), key, token)
    ensures forall step :: Uses(step, key, token) ==>
              Taken(Run(q, steps, maxAttempts), step, maxAttempts).(selects := {})
              == Run(q, steps, maxAttempts).(selects := {})
    decreases |steps|
  {
    if steps != [] {
      SupersededForever(q, steps[..|steps| - 1], maxAttempts, key, token);
    }
  }

  /** What one state promises of every later one: tokens, rows and resolutions are only added; a
      token that lost its row stays without it and resolves it no more. */
  ghost predicate Later(before: Queue, after: Queue) {
    && before.issued <= after.issued && before.rows.Keys <= after.rows.Keys && before.resolved <= after.resolved
    && (forall k, t :: Superseded(before, k, t) ==> Superseded(after, k, t))
    && forall i | |before.resolved| <= i < |after.resolved| ::
         !Superseded(before, after.resolved[i].key, after.resolved[i].token)
  }

  lemma LaterSelf(q: Queue)
    ensures Later(q, q)
  {
  }

  lemma StepIsLater(q: Queue, step: Step, maxAttempts: nat)
    requires maxAttempts >= 1 && Inv(q, maxAttempts) && Enabled(q, step, maxAttempts)
    ensures Later(q, After(q, step, maxAttempts))
  {
    hide Inv, StringLess, RetryDelay;
  }

  lemma LaterOn(a: Queue, b: Queue, c: Queue)
    requires Later(a, b) && Later(b, c)
    ensures Later(a, c)
  {
    hide Superseded;
    forall i | |a.resolved| <= i < |c.resolved| ensures !Superseded(a, c.resolved[i].key, c.resolved[i].token) {
      assert i < |b.resolved| ==> c.resolved[i] == b.resolved[i];
    }
  }

  /** The token resolved the row, with this outcome. */
  ghost predicate ResolvedAs(q: Queue, key: Key, token: Token, outcome: Status) {
    Resolution(key, token, outcome) in q.resolved
  }

  ghost predicate Resolved(q: Queue, key: Key, token: Token) {
    exists outcome :: ResolvedAs(q, key, token, outcome)
  }

  /** A synced or failed row never changes again. */
  lemma {:induction false} DoneForever(q: Queue, steps: seq<Step>, maxAttempts: nat, key: Key)
    requires maxAttempts >= 1 && Inv(q, maxAttempts)
    requires key in q.rows && q.rows[key].status in {Synced, Failed}
    ensures key in Run(q, steps, maxAttempts).rows && Run(q, steps, maxAttempts).rows[key] == q.rows[key]
    decreases |steps|
  {
    if steps != [] {
      DoneForever(q, steps[..|steps| - 1], maxAttempts, key);
    }
  }

  /** The two statements of Fail, with any other steps between and after them, behave as one
      indivisible step taken when the UPDATE runs. */
  lemma FailIsAtomic(q: Queue, steps: seq<Step>, maxAttempts: nat, read: Read)
    requires maxAttempts >= 1 && Inv(q, maxAttempts)
    requires read in Run(q, steps, maxAttempts).selects
    ensures var late := Run(q, steps, maxAttempts);
      After(late, FailUpdate(read), maxAttempts) == AtomicFail(late, read.key, read.token, maxAttempts)
  {
    hide Run;
    RunKeepsInv(q, steps, maxAttempts);
    UpdateIsAtomic(Run(q, steps, maxAttempts), maxAttempts, read);
  }

  lemma UpdateIsAtomic(q: Queue, maxAttempts: nat, read: Read)
    requires Inv(q, maxAttempts) && read in q.selects
    ensures After(q, FailUpdate(read), maxAttempts) == AtomicFail(q, read.key, read.token, maxAttempts)
  {
    ReadIsCurrent(q, maxAttempts, read);
    hide Inv;
  }

  lemma ReadIsCurrent(q: Queue, maxAttempts: nat, read: Read)
    requires Inv(q, maxAttempts) && read in q.selects
    ensures Holds(q.rows, read.key, read.token) ==> q.rows[read.key].attempts == read.attempts
  {
  }

  /** The loop of nextRetryDelay: a doubling that stops at one hour. */
  method NextRetryDelay(attempt: int) returns (seconds: nat)
    ensures seconds == RetryDelay(if attempt <= 0 then 1 else attempt)
  {
    var n: nat := if attempt <= 0 then 1 else attempt;
    seconds := 60;
    var index := 1;
    while index < n
      invariant 1 <= index <= n && seconds == 60 * Power2(index - 1) < 3600
    {
      seconds := seconds * 2;
      if seconds >= 3600 {
        PowerGrows(index, n - 1);
        seconds := 3600;
        break;
      }
      index := index + 1;
    }
  }

  lemma PowerGrows(m: nat, n: nat)
    requires m <= n
    ensures Power2(m) <= Power2(n)
  {
  }
}
