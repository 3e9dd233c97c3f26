/** The bounded loop that repeats both passes until nothing moves (internal/config/manager.go:479-493). */
module ConfigFixpoint {
  import opened Common
  import opened ConfigConflicts

  ghost function Pass(c: Snapshot, accepted: Snapshot, changed: set<Path>): Snapshot {
    Resolve(Resolve(c, accepted, changed, ById), accepted, changed, ByName)
  }

  ghost function Iterate(c: Snapshot, accepted: Snapshot, changed: set<Path>, n: nat): Snapshot {
    if n == 0 then c else Pass(Iterate(c, accepted, changed, n - 1), accepted, changed)
  }

  /** The errors after one pass over `c`. */
  ghost function Told(c: Snapshot, accepted: Snapshot, changed: set<Path>, errors: map<Path, string>)
    : map<Path, string>
  {
    errors + Blamed(c, accepted, ById) + Blamed(Resolve(c, accepted, changed, ById), accepted, ByName)
  }

  /** The errors after `n` passes that began with `errors`. */
  ghost function Complaints(c: Snapshot, accepted: Snapshot, changed: set<Path>, errors: map<Path, string>, n: nat)
    : map<Path, string>
  {
    if n == 0 then errors
    else Told(Iterate(c, accepted, changed, n - 1), accepted, changed, Complaints(c, accepted, changed, errors, n - 1))
  }

  lemma OneMorePass(c: Snapshot, accepted: Snapshot, changed: set<Path>, errors: map<Path, string>, n: nat)
    ensures var before := Iterate(c, accepted, changed, n);
      && Iterate(c, accepted, changed, n + 1) == Pass(before, accepted, changed)
      && Complaints(c, accepted, changed, errors, n + 1)
         == Told(before, accepted, changed, Complaints(c, accepted, changed, errors, n))
  {
    hide Told, Pass;
  }

  /** What candidateIdentity encodes. */
  function Identity(c: Snapshot): map<Path, (string, string)> {
    map p | p in c :: (c[p].id, c[p].name)
  }

  /** The file has the id and the name it had in the accepted snapshot. */
  predicate Settled(c: Snapshot, accepted: Snapshot, p: Path) {
    p in c && p in accepted && c[p].id == accepted[p].id && c[p].name == accepted[p].name
  }

  function Open(c: Snapshot, accepted: Snapshot): set<Path> {
    set p | p in c && !Settled(c, accepted, p)
  }

  lemma SettledStays(c: Snapshot, accepted: Snapshot, p: Path, field: Field)
    requires Unique(accepted) && Settled(c, accepted, p)
    ensures !Displaced(c, accepted, p, field)
  {
    forall q | q in c && Value(c[q], field) == Value(c[p], field) && PriorOwner(accepted, q, Value(c[p], field), field)
      ensures q == p
    {
      assert Value(accepted[q], field) == Value(accepted[p], field);
    }
  }

  /** A displacement is permanent: the file leaves for good or is settled for good. */
  lemma DisplacementIsPermanent(c: Snapshot, accepted: Snapshot, changed: set<Path>, field: Field)
    requires Unique(accepted)
    ensures var next := Resolve(c, accepted, changed, field);
      && Open(next, accepted) <= Open(c, accepted)
      && (forall p :: Displaced(c, accepted, p, field) ==> p in Open(c, accepted) && p !in Open(next, accepted))
      && (forall p :: p in c && !Displaced(c, accepted, p, field) ==> p in next && next[p] == c[p])
      && (forall p :: p in next && Displaced(c, accepted, p, field) ==> Settled(next, accepted, p))
  {
    forall p | Displaced(c, accepted, p, field) ensures p in Open(c, accepted) {
      if Settled(c, accepted, p) {
        SettledStays(c, accepted, p, field);
      }
    }
  }

  /** Every change of a pass shows in the identity. */
  lemma ChangesAreVisible(c: Snapshot, accepted: Snapshot, changed: set<Path>)
    requires Unique(accepted)
    ensures Identity(Pass(c, accepted, changed)) == Identity(c) ==>
              Quiet(c, accepted) && Pass(c, accepted, changed) == c
    ensures Identity(Pass(c, accepted, changed)) != Identity(c) ==>
              |Open(Pass(c, accepted, changed), accepted)| < |Open(c, accepted)|
  {
    hide Resolve, Identity, Open;
    if p :| Displaced(c, accepted, p, ById) {
      MovedFirst(c, accepted, changed, p);
    } else {
      NothingMoved(c, accepted, changed, ById);
      if p :| Displaced(c, accepted, p, ByName) {
        MovedSecond(c, accepted, changed, p);
      } else {
        NothingMoved(c, accepted, changed, ByName);
      }
    }
  }

  ghost predicate Quiet(c: Snapshot, accepted: Snapshot) {
    forall p, field :: !Displaced(c, accepted, p, field)
  }

  lemma NothingMoved(c: Snapshot, accepted: Snapshot, changed: set<Path>, field: Field)
    requires forall p :: !Displaced(c, accepted, p, field)
    ensures Resolve(c, accepted, changed, field) == c
  {
  }

  lemma MovedFirst(c: Snapshot, accepted: Snapshot, changed: set<Path>, p: Path)
    requires Unique(accepted) && Displaced(c, accepted, p, ById)
    ensures Identity(Pass(c, accepted, changed)) != Identity(c)
    ensures |Open(Pass(c, accepted, changed), accepted)| < |Open(c, accepted)|
  {
    var middle := Resolve(c, accepted, changed, ById);
    var next := Pass(c, accepted, changed);
    DisplacementIsPermanent(c, accepted, changed, ById);
    DisplacementIsPermanent(middle, accepted, changed, ByName);
    Smaller(Open(next, accepted), Open(c, accepted), p);
    if p in middle {
      SettledStays(middle, accepted, p, ByName);
      assert next[p] == middle[p];
    }
    assert p in Identity(c) && (p !in Identity(next) || Identity(next)[p] != Identity(c)[p]);
  }

  lemma MovedSecond(c: Snapshot, accepted: Snapshot, changed: set<Path>, p: Path)
    requires Unique(accepted) && Displaced(c, accepted, p, ByName)
    requires Resolve(c, accepted, changed, ById) == c
    ensures Identity(Pass(c, accepted, changed)) != Identity(c)
    ensures |Open(Pass(c, accepted, changed), accepted)| < |Open(c, accepted)|
  {
    var next := Pass(c, accepted, changed);
    DisplacementIsPermanent(c, accepted, changed, ByName);
    Smaller(Open(next, accepted), Open(c, accepted), p);
    assert p in next ==> Settled(next, accepted, p);
    assert p in Identity(c) && (p !in Identity(next) || Identity(next)[p] != Identity(c)[p]);
  }

  lemma Smaller(a: set<Path>, b: set<Path>, p: Path)
    requires a <= b && p in b && p !in a
    ensures |a| < |b|
  {
    assert a <= b - {p};
    Subset(a, b - {p});
  }

  lemma Subset(a: set<Path>, b: set<Path>)
    requires a <= b
    ensures |a| <= |b|
  {
    if a != {} {
      var p :| p in a;
      Subset(a - {p}, b - {p});
    }
  }

  /** Where nobody is displaced nobody is contested. */
  lemma NobodyDisplaced(c: Snapshot, accepted: Snapshot)
    requires Quiet(c, accepted)
    ensures Unique(c)
  {
    forall p, q, field | p in c && q in c && Value(c[p], field) == Value(c[q], field) ensures p == q {
      assert p != q ==> Contested(c, p, field) && Contested(c, q, field);
      assert !Displaced(c, accepted, p, field) && !Displaced(c, accepted, q, field);
    }
    assert Distinct(c, ById) && Distinct(c, ByName);
  }

  lemma NobodyBlamed(c: Snapshot, accepted: Snapshot, changed: set<Path>, errors: map<Path, string>)
    requires Quiet(c, accepted)
    ensures Told(c, accepted, changed, errors) == errors && Pass(c, accepted, changed) == c
  {
    assert Blamed(c, accepted, ById) == map[] && Blamed(c, accepted, ByName) == map[];
    NothingMoved(c, accepted, changed, ById);
    NothingMoved(c, accepted, changed, ByName);
  }

  /** Once nobody is displaced there are no further complaints. */
  lemma {:induction false} ComplaintsStable(c: Snapshot, accepted: Snapshot, changed: set<Path>,
                                            errors: map<Path, string>, n: nat, m: nat)
    requires n <= m && Quiet(Iterate(c, accepted, changed, n), accepted)
    ensures Complaints(c, accepted, changed, errors, m) == Complaints(c, accepted, changed, errors, n)
    ensures Iterate(c, accepted, changed, m) == Iterate(c, accepted, changed, n)
    decreases m
  {
    hide *;
    if n < m {
      ComplaintsStable(c, accepted, changed, errors, n, m - 1);
      OneMorePass(c, accepted, changed, errors, m - 1);
      NobodyBlamed(Iterate(c, accepted, changed, n), accepted, changed, Complaints(c, accepted, changed, errors, n));
    }
  }

  /** Everything left is either as it was or as it was accepted. */
  ghost predicate Stems(start: Snapshot, accepted: Snapshot, c: Snapshot) {
    c.Keys <= start.Keys && forall q :: q in c ==> c[q] == start[q] || (q in accepted && c[q] == accepted[q])
  }

  /** No other file has, or had when it was accepted, an id or a name of the file. */
  ghost predicate NoRival(start: Snapshot, accepted: Snapshot, p: Path) {
    p in start && forall q, field | q in start && q != p ::
      && Value(start[q], field) != Value(start[p], field)
      && (q in accepted ==> Value(accepted[q], field) != Value(start[p], field))
  }

  lemma NotContested(start: Snapshot, accepted: Snapshot, changed: set<Path>, c: Snapshot, p: Path, field: Field)
    requires NoRival(start, accepted, p) && Stems(start, accepted, c) && p in c && c[p] == start[p]
    ensures var next := Resolve(c, accepted, changed, field);
      Stems(start, accepted, next) && p in next && next[p] == start[p] && p !in Blamed(c, accepted, field)
  {
    forall q | q in c && q != p ensures Value(c[q], field) != Value(c[p], field) {
      assert q in start;
    }
    assert !Contested(c, p, field);
  }

  /** A file without a rival is left alone by every pass, and nobody complains about it. */
  lemma {:induction false} LeftAlone(start: Snapshot, accepted: Snapshot, changed: set<Path>, errors: map<Path, string>,
                                     p: Path, n: nat)
    requires NoRival(start, accepted, p) && p !in errors
    ensures var c := Iterate(start, accepted, changed, n);
      && Stems(start, accepted, c) && p in c && c[p] == start[p]
      && p !in Complaints(start, accepted, changed, errors, n)
    decreases n
  {
    if n > 0 {
      var c := Iterate(start, accepted, changed, n - 1);
      LeftAlone(start, accepted, changed, errors, p, n - 1);
      NotContested(start, accepted, changed, c, p, ById);
      NotContested(start, accepted, changed, Resolve(c, accepted, changed, ById), p, ByName);
      hide NoRival, Resolve, Blamed;
    }
  }

  lemma SettledInPass(c: Snapshot, accepted: Snapshot, changed: set<Path>, errors: map<Path, string>, p: Path)
    requires Unique(accepted)
    ensures Settled(c, accepted, p) ==>
              && p in Pass(c, accepted, changed) && Pass(c, accepted, changed)[p] == c[p]
              && (p !in errors ==> p !in Told(c, accepted, changed, errors))
    ensures p !in c ==> p !in Pass(c, accepted, changed)
  {
    var middle := Resolve(c, accepted, changed, ById);
    if Settled(c, accepted, p) {
      SettledStays(c, accepted, p, ById);
      SettledStays(middle, accepted, p, ByName);
    }
    hide Displaced;
  }

  /** A file that kept its id and its name wins every conflict, and nobody complains about it. */
  lemma {:induction false} OwnerWins(start: Snapshot, accepted: Snapshot, changed: set<Path>, errors: map<Path, string>,
                                     p: Path, n: nat)
    requires Unique(accepted) && Settled(start, accepted, p) && p !in errors
    ensures var c := Iterate(start, accepted, changed, n);
      p in c && c[p] == start[p] && p !in Complaints(start, accepted, changed, errors, n)
    decreases n
  {
    NoPass(start, accepted, changed, errors);
    hide Iterate, Complaints, Pass, Told, Unique;
    if n > 0 {
      OwnerWins(start, accepted, changed, errors, p, n - 1);
      OneMorePass(start, accepted, changed, errors, n - 1);
      SettledInPass(Iterate(start, accepted, changed, n - 1), accepted, changed,
                    Complaints(start, accepted, changed, errors, n - 1), p);
    }
  }

  /** A file that claims an id it did not have, against another one, loses it for good. */
  lemma {:induction false} ClaimantLoses(start: Snapshot, accepted: Snapshot, changed: set<Path>, p: Path, n: nat)
    requires Unique(accepted) && Displaced(start, accepted, p, ById) && n >= 1
    ensures p in Iterate(start, accepted, changed, n) ==> Settled(Iterate(start, accepted, changed, n), accepted, p)
    decreases n
  {
    NoPass(start, accepted, changed, map[]);
    OneMorePass(start, accepted, changed, map[], n - 1);
    if n == 1 {
      FirstPassSettles(start, accepted, changed, p);
    } else {
      ClaimantLoses(start, accepted, changed, p, n - 1);
      hide Iterate, Pass, Unique;
      SettledInPass(Iterate(start, accepted, changed, n - 1), accepted, changed, map[], p);
    }
  }

  lemma FirstPassSettles(start: Snapshot, accepted: Snapshot, changed: set<Path>, p: Path)
    requires Unique(accepted) && Displaced(start, accepted, p, ById)
    ensures p in Pass(start, accepted, changed) ==> Settled(Pass(start, accepted, changed), accepted, p)
  {
    var middle := Resolve(start, accepted, changed, ById);
    DisplacementIsPermanent(start, accepted, changed, ById);
    if p in middle {
      SettledStays(middle, accepted, p, ByName);
    }
    hide Displaced;
  }

  lemma NoPass(c: Snapshot, accepted: Snapshot, changed: set<Path>, errors: map<Path, string>)
    ensures Iterate(c, accepted, changed, 0) == c && Complaints(c, accepted, changed, errors, 0) == errors
  {
  }

  lemma NotThere(c: Snapshot, accepted: Snapshot, changed: set<Path>, errors: map<Path, string>, p: Path)
    requires p !in c && p in errors
    ensures p !in Pass(c, accepted, changed)
    ensures var told := Told(c, accepted, changed, errors); p in told && told[p] == errors[p]
  {
    hide Displaced;
  }

  /** A file that contributes nothing takes no part, and keeps its error. */
  lemma {:induction false} StaysOut(start: Snapshot, accepted: Snapshot, changed: set<Path>, errors: map<Path, string>,
                                    p: Path, n: nat)
    requires p !in start && p in errors
    ensures p !in Iterate(start, accepted, changed, n)
    ensures var told := Complaints(start, accepted, changed, errors, n); p in told && told[p] == errors[p]
    decreases n
  {
    NoPass(start, accepted, changed, errors);
    hide *;
    if n > 0 {
      StaysOut(start, accepted, changed, errors, p, n - 1);
      OneMorePass(start, accepted, changed, errors, n - 1);
      NotThere(Iterate(start, accepted, changed, n - 1), accepted, changed,
               Complaints(start, accepted, changed, errors, n - 1), p);
    }
  }

  /** Files that did not change still have their accepted configuration. */
  ghost predicate LastGood(c: Snapshot, accepted: Snapshot, changed: set<Path>) {
    forall p :: p in c && p in accepted && p !in changed ==> c[p] == accepted[p]
  }

  /** `c` came out of `start`: nothing appeared, everything left is either as it was or as it
      was accepted, an accepted file is never lost, and every difference is reported. */
  ghost predicate CameFrom(start: Snapshot, c: Snapshot, accepted: Snapshot, errors: map<Path, string>) {
    && c.Keys <= start.Keys
    && (forall p :: p in c ==> c[p] == start[p] || (p in accepted && c[p] == accepted[p]))
    && (forall p :: p in start && p in accepted ==> p in c)
    && (forall p :: p in start && !(p in c && c[p] == start[p]) ==> p in errors)
  }

  lemma PassKeepsLastGood(start: Snapshot, c: Snapshot, accepted: Snapshot, changed: set<Path>, field: Field,
                          errors: map<Path, string>)
    requires Unique(accepted) && LastGood(c, accepted, changed) && CameFrom(start, c, accepted, errors)
    ensures var next := Resolve(c, accepted, changed, field);
      LastGood(next, accepted, changed) && CameFrom(start, next, accepted, errors + Blamed(c, accepted, field))
  {
    var next := Resolve(c, accepted, changed, field);
    forall p | p in c && p in accepted ensures p in next {
      if p !in changed {
        SettledStays(c, accepted, p, field);
      }
    }
  }

  /** The state of the loop after `n` passes. */
  ghost predicate Looping(start: Snapshot, c: Snapshot, accepted: Snapshot, changed: set<Path>,
                          first: map<Path, string>, errors: map<Path, string>, n: nat) {
    && c == Iterate(start, accepted, changed, n)
    && first.Keys <= errors.Keys
    && errors == Complaints(start, accepted, changed, first, n)
    && (Unique(accepted) ==> |Open(c, accepted)| + n <= |start|)
    && (Unique(accepted) && LastGood(start, accepted, changed) ==>
          LastGood(c, accepted, changed) && CameFrom(start, c, accepted, errors))
  }

  lemma NothingUntold(c: Snapshot, accepted: Snapshot, changed: set<Path>, errors: map<Path, string>)
    ensures errors.Keys <= Told(c, accepted, changed, errors).Keys
  {
    hide Resolve, Blamed;
  }

  lemma LoopGoesOn(start: Snapshot, c: Snapshot, accepted: Snapshot, changed: set<Path>,
                   first: map<Path, string>, errors: map<Path, string>, n: nat)
    requires Looping(start, c, accepted, changed, first, errors, n)
    requires Identity(Pass(c, accepted, changed)) != Identity(c)
    ensures Looping(start, Pass(c, accepted, changed), accepted, changed, first, Told(c, accepted, changed, errors),
                    n + 1)
  {
    hide Resolve, Blamed, Identity, Open, Quiet, Unique, LastGood, CameFrom, Iterate, Complaints, Pass, Told;
    OneMorePass(start, accepted, changed, first, n);
    NothingUntold(c, accepted, changed, errors);
    if Unique(accepted) {
      ChangesAreVisible(c, accepted, changed);
      if LastGood(start, accepted, changed) {
        BothKeepLastGood(start, c, accepted, changed, errors);
      }
    }
  }

  lemma BothKeepLastGood(start: Snapshot, c: Snapshot, accepted: Snapshot, changed: set<Path>,
                         errors: map<Path, string>)
    requires Unique(accepted) && LastGood(c, accepted, changed) && CameFrom(start, c, accepted, errors)
    ensures LastGood(Pass(c, accepted, changed), accepted, changed)
    ensures CameFrom(start, Pass(c, accepted, changed), accepted, Told(c, accepted, changed, errors))
  {
    hide Resolve, Blamed, Unique, LastGood, CameFrom;
    PassKeepsLastGood(start, c, accepted, changed, ById, errors);
    PassKeepsLastGood(start, Resolve(c, accepted, changed, ById), accepted, changed, ByName,
                      errors + Blamed(c, accepted, ById));
  }

  lemma LoopEnds(start: Snapshot, c: Snapshot, accepted: Snapshot, changed: set<Path>,
                 first: map<Path, string>, errors: map<Path, string>, n: nat)
    requires Looping(start, c, accepted, changed, first, errors, n)
    requires Identity(Pass(c, accepted, changed)) == Identity(c)
    ensures first.Keys <= Told(c, accepted, changed, errors).Keys
    ensures var next, told := Pass(c, accepted, changed), Told(c, accepted, changed, errors);
      Unique(accepted) ==>
        && Unique(next) && n <= |start| && next == Iterate(start, accepted, changed, 2 * |start| + 2)
        && told == Complaints(start, accepted, changed, first, 2 * |start| + 2)
        && (LastGood(start, accepted, changed) ==>
              LastGood(next, accepted, changed) && CameFrom(start, next, accepted, told))
  {
    hide Resolve, Blamed, Identity, Open, Quiet, Unique, LastGood, CameFrom, Iterate, Complaints, Pass, Told;
    NothingUntold(c, accepted, changed, errors);
    if Unique(accepted) {
      ChangesAreVisible(c, accepted, changed);
      NobodyDisplaced(c, accepted);
      NobodyBlamed(c, accepted, changed, errors);
      ComplaintsStable(start, accepted, changed, first, n, 2 * |start| + 2);
    }
  }

  lemma LoopStarts(start: Snapshot, accepted: Snapshot, changed: set<Path>, errors: map<Path, string>)
    ensures Looping(start, start, accepted, changed, errors, errors, 0)
  {
    Subset(Open(start, accepted), start.Keys);
  }

  lemma LoopIsBounded(start: Snapshot, c: Snapshot, accepted: Snapshot, changed: set<Path>,
                      first: map<Path, string>, errors: map<Path, string>, n: nat)
    requires Looping(start, c, accepted, changed, first, errors, n)
    ensures Unique(accepted) ==> n <= |start|
    ensures first.Keys <= errors.Keys
  {
    hide Unique, Open, LastGood, CameFrom;
  }

  lemma PassKnown(c: Snapshot, accepted: Snapshot, changed: set<Path>, errors: map<Path, string>)
    ensures var middle := Resolve(c, accepted, changed, ById);
      && Pass(c, accepted, changed) == Resolve(middle, accepted, changed, ByName)
      && Told(c, accepted, changed, errors) == errors + Blamed(c, accepted, ById) + Blamed(middle, accepted, ByName)
  {
    hide Resolve, Blamed;
  }

  /** Repeat both passes until the identity stops changing. With an accepted snapshot free of
      duplicates the bound is never what ends the loop. */
  method ResolveDuplicateConflicts(candidate: Snapshot, accepted: Snapshot, changed: set<Path>,
                                   errors: map<Path, string>)
    returns (result: Snapshot, reported: map<Path, string>, passes: nat)
    ensures passes <= 2 * |candidate| + 2
    ensures Unique(accepted) ==> Unique(result) && passes <= |candidate| + 1
    ensures Unique(accepted) ==> result == Iterate(candidate, accepted, changed, 2 * |candidate| + 2)
    ensures Unique(accepted) ==> reported == Complaints(candidate, accepted, changed, errors, 2 * |candidate| + 2)
    ensures Unique(accepted) && LastGood(candidate, accepted, changed) ==>
              LastGood(result, accepted, changed) && CameFrom(candidate, result, accepted, reported)
    ensures errors.Keys <= reported.Keys
  {
    hide *;
    result, reported, passes := candidate, errors, 0;
    var maxPasses := 2 * |candidate| + 2;
    LoopStarts(candidate, accepted, changed, errors);
    while passes < maxPasses
      invariant passes <= maxPasses
      invariant Looping(candidate, result, accepted, changed, errors, reported, passes)
    {
      var before, earlier := result, reported;
      result, reported := ResolveDuplicates(before, accepted, changed, earlier, ById);
      result, reported := ResolveDuplicates(result, accepted, changed, reported, ByName);
      PassKnown(before, accepted, changed, earlier);
      passes := passes + 1;
      if Identity(result) == Identity(before) {
        LoopEnds(candidate, before, accepted, changed, errors, earlier, passes - 1);
        return;
      }
      LoopGoesOn(candidate, before, accepted, changed, errors, earlier, passes - 1);
    }
    LoopIsBounded(candidate, result, accepted, changed, errors, reported, passes);
  }
}
