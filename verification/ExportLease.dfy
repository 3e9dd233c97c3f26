/** Why a delivery keeps its lease: the heartbeat of internal/exporter/manager.go against the
    truncated lease of internal/storage/postgres_store.go. */
module ExportLease {
  import opened Common
  import opened ExportProtocol

  function Interval(lease: int): int {
    if lease / 3 <= 0 then 100_000_000 else lease / 3
  }

  /** How long a renewal may take, from its tick to its effect, when the ticker started
      `lag` after the claim was first renewed. */
  function Allowance(lease: int, lag: int): int {
    Truncated(lease) - Interval(lease) - lag
  }

  /** A second is the shortest lease that leaves any time at all. */
  lemma AllowanceIsPositive(lease: int)
    requires lease > 0
    ensures Allowance(lease, 0) > 0 <==> lease >= SECOND
  {
    ShortLeaseIsNone(lease);
    assert lease >= SECOND ==> lease / SECOND >= 1;
  }

  lemma IntervalIsPositive(lease: int)
    ensures Interval(lease) > 0
  {
  }

  lemma ShortLeaseIsNone(lease: int)
    requires lease > 0
    ensures Truncated(lease) == 0 <==> lease < SECOND
    ensures Truncated(lease) >= 0
  {
    assert lease == lease / SECOND * SECOND + lease % SECOND;
  }

  /** A row that was renewed just now is due again at once if and only if the lease is shorter
      than a second. */
  lemma RenewedIsDue(q: Queue, maxAttempts: nat, key: Key, token: Token, lease: int)
    requires lease > 0 && Holds(q.rows, key, token)
    ensures var late := After(q, Renew(key, token, Truncated(lease)), maxAttempts);
      Due(late.rows[key], late.now, maxAttempts) <==> lease < SECOND
  {
    ShortLeaseIsNone(lease);
  }

  /** Another process claims the row under a token of its own. */
  ghost predicate Snatches(q: Queue, maxAttempts: nat, key: Key, other: Token, claim: Step) {
    claim.Claim? && claim.token == other && Enabled(q, claim, maxAttempts) && key in claim.chosen
  }

  /** Such a row can be taken away in the very moment of its renewal if and only if the lease is
      shorter than a second. */
  lemma ShortLeaseProtectsNothing(q: Queue, maxAttempts: nat, key: Key, token: Token, lease: int, other: Token)
    requires lease > 0 && Holds(q.rows, key, token) && other !in q.issued
    ensures var late := After(q, Renew(key, token, Truncated(lease)), maxAttempts);
      (exists claim :: Snatches(late, maxAttempts, key, other, claim)) <==> lease < SECOND
  {
    var late := After(q, Renew(key, token, Truncated(lease)), maxAttempts);
    RenewedIsDue(q, maxAttempts, key, token, lease);
    if lease < SECOND {
      var due := set k | k in late.rows && k.exporter == key.exporter && Due(late.rows[k], late.now, maxAttempts);
      assert FirstDue(late, key.exporter, |due|, maxAttempts, due);
      assert Snatches(late, maxAttempts, key, other, Claim(key.exporter, other, 0, |due|, due));
    }
  }

  /** A lease of 999 milliseconds: token 1 claims the only row and renews it, and token 2 claims
      it with no time in between. */
  lemma ClaimedTwiceAtOnce() returns (steps: seq<Step>, key: Key)
    ensures |steps| == 4 && steps[0] == Insert({key})
    ensures steps[1] == Claim(key.exporter, 1, Truncated(999_000_000), 1, {key})
    ensures steps[2] == Renew(key, 1, Truncated(999_000_000))
    ensures steps[3] == Claim(key.exporter, 2, Truncated(999_000_000), 1, {key})
    ensures Holds(Run(EMPTY, steps[..3], 3).rows, key, 1) && Enabled(Run(EMPTY, steps[..3], 3), steps[3], 3)
    ensures Holds(Run(EMPTY, steps, 3).rows, key, 2)
  {
    key := Key("a", "notion");
    var lease := Truncated(999_000_000);
    ShortLeaseIsNone(999_000_000);
    steps := [Insert({key}), Claim(key.exporter, 1, lease, 1, {key}), Renew(key, 1, lease),
              Claim(key.exporter, 2, lease, 1, {key})];
    var inserted := EMPTY.(rows := map[key := Row(Pending, 0, 0, None, None)]);
    var claimed := EMPTY.(rows := map[key := Row(Processing, 0, 0, Some(1), Some(0))], issued := {1});
    assert Taken(EMPTY, steps[0], 3) == inserted;
    assert Taken(inserted, steps[1], 3) == claimed;
    assert Taken(claimed, steps[2], 3) == claimed;
    assert Enabled(claimed, steps[3], 3) && Holds(Taken(claimed, steps[3], 3).rows, key, 2);
    hide Taken, Enabled, Holds, Truncated;
    assert steps[..1][..0] == [] && steps[..2][..1] == steps[..1] && steps[..3][..2] == steps[..2];
    assert Run(EMPTY, steps[..1], 3) == inserted;
    assert Run(EMPTY, steps[..2], 3) == claimed;
  }

  /** The heartbeats served so far. */
  function Beats(steps: seq<Step>, key: Key, token: Token): nat {
    if steps == [] then 0
    else Beats(steps[..|steps| - 1], key, token) +
         (if steps[|steps| - 1].Renew? && Uses(steps[|steps| - 1], key, token) then 1 else 0)
  }

  /** A delivery under way since `start`, the time its ticker began: the worker itself only
      renews, the n-th renewal comes no earlier than the n-th tick, and time does not pass the
      point by which the next renewal has to be served. Everyone else does as they like. */
  ghost predicate Delivering(q: Queue, steps: seq<Step>, maxAttempts: nat, key: Key, token: Token,
                             lease: int, lag: int, start: int)
    decreases |steps|
  {
    steps == [] ||
    var before := steps[..|steps| - 1];
    var step := steps[|steps| - 1];
    var now := Run(q, before, maxAttempts).now;
    var n := Beats(before, key, token);
    && Delivering(q, before, maxAttempts, key, token, lease, lag, start)
    && (Uses(step, key, token) ==>
          step == Renew(key, token, Truncated(lease)) && now >= start + (n + 1) * Interval(lease))
    && (step.Tick? ==> now + step.elapsed < start + (n + 1) * Interval(lease) + Allowance(lease, lag))
  }

  /** A delivery can get as far as its first heartbeat if and only if the lease is at least a
      second long. */
  lemma HeartbeatFits(q: Queue, maxAttempts: nat, key: Key, token: Token, lease: int)
    requires lease > 0 && Holds(q.rows, key, token)
    ensures var renew := Renew(key, token, Truncated(lease));
      var renewed := After(q, renew, maxAttempts);
      && Holds(renewed.rows, key, token)
      && renewed.rows[key].leaseUntil == Some(renewed.now + Truncated(lease))
      && (Delivering(renewed, [Tick(Interval(lease)), renew], maxAttempts, key, token, lease, 0, renewed.now)
          <==> lease >= SECOND)
  {
    AllowanceIsPositive(lease);
    IntervalIsPositive(lease);
    var renew := Renew(key, token, Truncated(lease));
    var renewed := After(q, renew, maxAttempts);
    var steps := [Tick(Interval(lease)), renew];
    hide Truncated, Interval, Allowance;
    assert steps[..1] == [Tick(Interval(lease))] && steps[..1][..0] == [];
    assert Run(renewed, steps[..0], maxAttempts) == renewed && Beats(steps[..0], key, token) == 0;
    assert Run(renewed, steps[..1], maxAttempts).now == renewed.now + Interval(lease);
    assert Beats(steps[..1], key, token) == 0 && (0 + 1) * Interval(lease) == Interval(lease);
    assert Delivering(renewed, steps[..0], maxAttempts, key, token, lease, 0, renewed.now);
    assert Delivering(renewed, steps[..1], maxAttempts, key, token, lease, 0, renewed.now) <==> Allowance(lease, 0) > 0;
    assert steps[|steps| - 1] == renew && Uses(renew, key, token);
  }

  /** A step of anybody else leaves a row with a running lease alone. */
  lemma OthersCannotTouch(q: Queue, step: Step, maxAttempts: nat, key: Key, token: Token)
    requires Holds(q.rows, key, token) && token in q.issued
    requires q.rows[key].leaseUntil.Some? && q.now < q.rows[key].leaseUntil.value
    ensures var next := Taken(q, step, maxAttempts);
      && token in next.issued && next.now == q.now + (if step.Tick? && step.elapsed >= 0 then step.elapsed else 0)
      && (!Uses(step, key, token) ==> key in next.rows && next.rows[key] == q.rows[key])
      && (step.Renew? && Uses(step, key, token) ==>
            Holds(next.rows, key, token) && next.rows[key].leaseUntil == Some(q.now + step.lease))
  {
  }

  /** While the delivery lasts its lease does not expire and the row stays with its token. */
  lemma {:induction false} LeaseIsKept(q: Queue, steps: seq<Step>, maxAttempts: nat, key: Key, token: Token,
                                       lease: int, lag: int, start: int)
    requires Holds(q.rows, key, token) && token in q.issued
    requires q.rows[key].leaseUntil == Some(start - lag + Truncated(lease))
    requires q.now < start + Interval(lease) + Allowance(lease, lag)
    requires Delivering(q, steps, maxAttempts, key, token, lease, lag, start)
    requires lag >= 0
    ensures var late := Run(q, steps, maxAttempts); var n := Beats(steps, key, token);
      && Holds(late.rows, key, token) && token in late.issued
      && late.now < start + (n + 1) * Interval(lease) + Allowance(lease, lag)
      && late.rows[key].leaseUntil.Some? && late.now < late.rows[key].leaseUntil.value
      && late.rows[key].leaseUntil.value >= start - lag + n * Interval(lease) + Truncated(lease)
    decreases |steps|
  {
    if steps != [] {
      var before := steps[..|steps| - 1];
      LeaseIsKept(q, before, maxAttempts, key, token, lease, lag, start);
      OthersCannotTouch(Run(q, before, maxAttempts), steps[|steps| - 1], maxAttempts, key, token);
      hide Taken, Truncated;
      var n := Beats(before, key, token);
      assert (n + 2) * Interval(lease) == (n + 1) * Interval(lease) + Interval(lease);
      assert (n + 1) * Interval(lease) == n * Interval(lease) + Interval(lease);
    }
  }

  /** No other claim can take the row of a delivery under way. */
  lemma NobodyElseClaims(q: Queue, steps: seq<Step>, maxAttempts: nat, key: Key, token: Token,
                         lease: int, lag: int, start: int, claim: Step)
    requires Holds(q.rows, key, token) && token in q.issued
    requires q.rows[key].leaseUntil == Some(start - lag + Truncated(lease))
    requires q.now < start + Interval(lease) + Allowance(lease, lag)
    requires Delivering(q, steps, maxAttempts, key, token, lease, lag, start)
    requires lag >= 0
    requires claim.Claim? && Enabled(Run(q, steps, maxAttempts), claim, maxAttempts)
    ensures key !in claim.chosen
  {
    LeaseIsKept(q, steps, maxAttempts, key, token, lease, lag, start);
  }
}
