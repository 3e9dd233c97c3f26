/** Duplicate ids and names among scraper files (internal/config/manager.go:424-576). */
module ConfigConflicts {
  import opened Common

  /** One scraper definition. Free-form parts are represented by their JSON text;
      `encodable` says whether they have one. */
  datatype Config = Config(id: string, name: string, enabled: bool, priority: int,
                           fetcher: string, hubRoot: string, route: string, fetchParams: string,
                           processors: string, processorOrder: seq<string>, categoryOrders: map<string, seq<string>>,
                           keywords: seq<string>, sourcePath: string, encodable: bool)

  type Path = string
  type Snapshot = map<Path, Config>

  datatype Field = ById | ByName

  function Value(c: Config, field: Field): string {
    match field
    case ById => c.id
    case ByName => c.name
  }

  ghost predicate Distinct(s: Snapshot, field: Field) {
    forall p, q | p in s && q in s && Value(s[p], field) == Value(s[q], field) :: p == q
  }

  /** No two files share an id or a name. */
  ghost predicate Unique(s: Snapshot) {
    Distinct(s, ById) && Distinct(s, ByName)
  }

  // ----- one pass over one field, as a function -----

  predicate PriorOwner(accepted: Snapshot, p: Path, value: string, field: Field) {
    p in accepted && Value(accepted[p], field) == value
  }

  ghost predicate Contested(candidate: Snapshot, p: Path, field: Field)
    requires p in candidate
  {
    exists q :: q in candidate && q != p && Value(candidate[q], field) == Value(candidate[p], field)
  }

  /** The only contender that held the value in the accepted snapshot keeps it. */
  ghost predicate Owner(candidate: Snapshot, accepted: Snapshot, p: Path, field: Field)
    requires p in candidate
  {
    var value := Value(candidate[p], field);
    && PriorOwner(accepted, p, value, field)
    && forall q | q in candidate && Value(candidate[q], field) == value && PriorOwner(accepted, q, value, field) ::
         q == p
  }

  ghost predicate Displaced(candidate: Snapshot, accepted: Snapshot, p: Path, field: Field) {
    p in candidate && Contested(candidate, p, field) && !Owner(candidate, accepted, p, field)
  }

  ghost function Resolve(candidate: Snapshot, accepted: Snapshot, changed: set<Path>, field: Field): Snapshot {
    map p | p in candidate && (Displaced(candidate, accepted, p, field) ==> p in changed && p in accepted) ::
      if Displaced(candidate, accepted, p, field) then accepted[p] else candidate[p]
  }

  ghost function Blamed(candidate: Snapshot, accepted: Snapshot, field: Field): map<Path, string> {
    map p | p in candidate && Displaced(candidate, accepted, p, field) :: Duplicate(field, Value(candidate[p], field))
  }

  function Duplicate(field: Field, value: string): string {
    "Duplicate scraper " + (if field.ById? then "id" else "name") + ": " + value
  }

  // ----- the same pass as the program makes it -----

  /** Group the files by their value. */
  method Group(candidate: Snapshot, field: Field) returns (grouped: map<string, set<Path>>)
    ensures forall p :: p in candidate ==> Value(candidate[p], field) in grouped
    ensures forall v :: v in grouped ==>
              grouped[v] != {} && grouped[v] == set p | p in candidate && Value(candidate[p], field) == v
  {
    grouped := map[];
    var left := candidate.Keys;
    while left != {}
      invariant left <= candidate.Keys
      invariant forall p :: p in candidate && p !in left ==> Value(candidate[p], field) in grouped
      invariant forall v :: v in grouped ==> grouped[v] != {}
      invariant forall v, p :: v in grouped ==>
                  (p in grouped[v] <==> p in candidate && p !in left && Value(candidate[p], field) == v)
    {
      var p :| p in left;
      left := left - {p};
      var v := Value(candidate[p], field);
      grouped := grouped[v := (if v in grouped then grouped[v] else {}) + {p}];
    }
  }

  /** The single earlier owner of a value among its contenders, if there is exactly one. */
  method FindOwner(accepted: Snapshot, paths: set<Path>, value: string, field: Field) returns (owner: Option<Path>)
    ensures owner.Some? <==> exists p ::
              p in paths && PriorOwner(accepted, p, value, field)
              && forall q :: q in paths && PriorOwner(accepted, q, value, field) ==> q == p
    ensures owner.Some? ==>
              && owner.value in paths && PriorOwner(accepted, owner.value, value, field)
              && forall q :: q in paths && PriorOwner(accepted, q, value, field) ==> q == owner.value
  {
    hide PriorOwner;
    var priorOwners: seq<Path> := [];
    var left := paths;
    while left != {}
      invariant left <= paths
      invariant forall i, j | 0 <= i < j < |priorOwners| :: priorOwners[i] != priorOwners[j]
      invariant forall p :: p in priorOwners <==> p in paths && p !in left && PriorOwner(accepted, p, value, field)
    {
      var p :| p in left;
      left := left - {p};
      if PriorOwner(accepted, p, value, field) {
        priorOwners := priorOwners + [p];
      }
    }
    owner := if |priorOwners| == 1 then Some(priorOwners[0]) else None;
    if |priorOwners| == 1 {
      assert priorOwners[0] in priorOwners;
    } else if |priorOwners| > 1 {
      assert priorOwners[0] in priorOwners && priorOwners[1] in priorOwners;
    }
  }

  /** What happens to one file of a group: the owner stays, everyone else is reported and goes
      back to the accepted version or out. */
  ghost predicate Treated(candidate: Snapshot, accepted: Snapshot, changed: set<Path>, errors: map<Path, string>,
                          owner: Option<Path>, message: string, p: Path, next: Snapshot, reported: map<Path, string>) {
    if owner == Some(p) then Agrees(next, candidate, p) && Agrees(reported, errors, p)
    else
      && (if p in changed && p in accepted then p in next && next[p] == accepted[p] else p !in next)
      && p in reported && reported[p] == message
  }

  /** The same, read off the pass as a function. */
  lemma GroupOutcome(candidate: Snapshot, accepted: Snapshot, changed: set<Path>, errors: map<Path, string>,
                     paths: set<Path>, owner: Option<Path>, value: string, field: Field)
    requires paths == set p | p in candidate && Value(candidate[p], field) == value
    requires |paths| >= 2 ==> forall p :: p in paths ==> (owner == Some(p) <==> Owner(candidate, accepted, p, field))
    ensures |paths| >= 2 ==> forall p :: p in paths ==>
              Treated(candidate, accepted, changed, errors, owner, Duplicate(field, value), p,
                      Resolve(candidate, accepted, changed, field), errors + Blamed(candidate, accepted, field))
    ensures |paths| < 2 ==> forall p :: p in paths ==>
              Agrees(Resolve(candidate, accepted, changed, field), candidate, p)
              && Agrees(errors + Blamed(candidate, accepted, field), errors, p)
  {
    GroupContested(candidate, paths, value, field);
    hide Contested, Owner;
  }

  lemma GroupContested(candidate: Snapshot, paths: set<Path>, value: string, field: Field)
    requires paths == set p | p in candidate && Value(candidate[p], field) == value
    ensures forall p :: p in paths ==> (Contested(candidate, p, field) <==> |paths| >= 2)
  {
    forall p | p in paths ensures Contested(candidate, p, field) <==> |paths| >= 2 {
      var rest := paths - {p};
      assert |rest| == |paths| - 1;
      if |paths| >= 2 {
        var q :| q in rest;
        assert Value(candidate[q], field) == Value(candidate[p], field);
      } else {
        assert forall q | q in candidate && q != p && Value(candidate[q], field) == Value(candidate[p], field) ::
                 q in rest;
      }
    }
  }

  /** Send every member of a group but its owner back to its accepted version, or drop it. */
  method DisplaceAll(candidate: Snapshot, accepted: Snapshot, changed: set<Path>, errors: map<Path, string>,
                     before: Snapshot, reportedBefore: map<Path, string>,
                     paths: set<Path>, owner: Option<Path>, message: string)
    returns (next: Snapshot, reported: map<Path, string>)
    requires forall p :: p in paths ==> Agrees(before, candidate, p) && Agrees(reportedBefore, errors, p)
    ensures forall p ::
              if p in paths then Treated(candidate, accepted, changed, errors, owner, message, p, next, reported)
                        else Agrees(next, before, p) && Agrees(reported, reportedBefore, p)
  {
    next, reported := before, reportedBefore;
    var left := paths;
    while left != {}
      invariant left <= paths
      invariant forall p :: if p in paths && p !in left then
                              Treated(candidate, accepted, changed, errors, owner, message, p, next, reported)
                            else Agrees(next, before, p) && Agrees(reported, reportedBefore, p)
    {
      var p :| p in left;
      left := left - {p};
      if owner != Some(p) {
        reported := reported[p := message];
        next := if p in changed && p in accepted then next[p := accepted[p]] else next - {p};
      }
    }
  }

  /** One group of the pass. */
  method ResolveGroup(candidate: Snapshot, accepted: Snapshot, changed: set<Path>, errors: map<Path, string>,
                      before: Snapshot, reportedBefore: map<Path, string>,
                      paths: set<Path>, value: string, field: Field)
    returns (next: Snapshot, reported: map<Path, string>)
    requires paths == set p | p in candidate && Value(candidate[p], field) == value
    requires forall p :: p in paths ==> Agrees(before, candidate, p) && Agrees(reportedBefore, errors, p)
    ensures forall p :: p in paths ==>
              Agrees(next, Resolve(candidate, accepted, changed, field), p)
              && Agrees(reported, errors + Blamed(candidate, accepted, field), p)
    ensures forall p :: p !in paths ==> Agrees(next, before, p) && Agrees(reported, reportedBefore, p)
  {
    hide Resolve, Blamed, Owner, Contested, Displaced;
    next, reported := before, reportedBefore;
    var owner := FindOwner(accepted, paths, value, field);
    OwnerOfGroup(candidate, accepted, paths, owner, value, field);
    GroupOutcome(candidate, accepted, changed, errors, paths, owner, value, field);
    if |paths| >= 2 {
      next, reported := DisplaceAll(candidate, accepted, changed, errors, next, reported, paths, owner,
                                    Duplicate(field, value));
    }
  }

  /** One pass over one field; the order in which Go visits its maps does not matter. */
  method ResolveDuplicates(candidate: Snapshot, accepted: Snapshot, changed: set<Path>, errors: map<Path, string>,
                           field: Field)
    returns (next: Snapshot, reported: map<Path, string>)
    ensures next == Resolve(candidate, accepted, changed, field)
    ensures reported == errors + Blamed(candidate, accepted, field)
  {
    hide Resolve, Blamed, Owner, Contested, Displaced;
    var grouped := Group(candidate, field);
    next, reported := candidate, errors;
    ghost var resolved := Resolve(candidate, accepted, changed, field);
    ghost var blamed := errors + Blamed(candidate, accepted, field);
    Outsiders(candidate, accepted, changed, errors, field);
    var values := grouped.Keys;
    while values != {}
      invariant values <= grouped.Keys
      invariant forall p :: p in candidate && Value(candidate[p], field) in values ==>
                  Agrees(next, candidate, p) && Agrees(reported, errors, p)
      invariant forall p :: !(p in candidate && Value(candidate[p], field) in values) ==>
                  Agrees(next, resolved, p) && Agrees(reported, blamed, p)
    {
      var value :| value in values;
      values := values - {value};
      var paths := grouped[value];
      ghost var before, reportedBefore := next, reported;
      next, reported := ResolveGroup(candidate, accepted, changed, errors, next, reported, paths, value, field);
      forall p | p in candidate && Value(candidate[p], field) in values
        ensures Agrees(next, candidate, p) && Agrees(reported, errors, p)
      {
        assert p !in paths && Agrees(next, before, p) && Agrees(before, candidate, p);
        assert Agrees(reported, reportedBefore, p) && Agrees(reportedBefore, errors, p);
      }
    }
    AgreesAll(next, resolved);
    AgreesAll(reported, blamed);
  }

  lemma Outsiders(candidate: Snapshot, accepted: Snapshot, changed: set<Path>, errors: map<Path, string>, field: Field)
    ensures forall p :: p !in candidate ==>
              Agrees(Resolve(candidate, accepted, changed, field), candidate, p)
              && Agrees(errors + Blamed(candidate, accepted, field), errors, p)
  {
  }

  lemma OwnerOfGroup(candidate: Snapshot, accepted: Snapshot, paths: set<Path>, owner: Option<Path>,
                     value: string, field: Field)
    requires paths == set p | p in candidate && Value(candidate[p], field) == value
    requires owner.Some? <==> exists p ::
              p in paths && PriorOwner(accepted, p, value, field)
              && forall q :: q in paths && PriorOwner(accepted, q, value, field) ==> q == p
    requires owner.Some? ==>
              && owner.value in paths && PriorOwner(accepted, owner.value, value, field)
              && forall q :: q in paths && PriorOwner(accepted, q, value, field) ==> q == owner.value
    ensures forall p :: p in paths ==> (owner == Some(p) <==> Owner(candidate, accepted, p, field))
  {
  }

  ghost predicate Agrees<T>(a: map<Path, T>, b: map<Path, T>, p: Path) {
    (p in a <==> p in b) && (p in a ==> a[p] == b[p])
  }

  lemma AgreesAll<T>(a: map<Path, T>, b: map<Path, T>)
    requires forall p :: Agrees(a, b, p)
    ensures a == b
  {
    forall p ensures p in a <==> p in b {
      assert Agrees(a, b, p);
    }
    assert a.Keys == b.Keys;
    forall p | p in a ensures a[p] == b[p] {
      assert Agrees(a, b, p);
    }
  }
}
