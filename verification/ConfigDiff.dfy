/** Ordering, hashing and comparing snapshots (internal/config/manager.go:647-771). */
module ConfigDiff {
  import opened Common
  import opened ConfigConflicts

  /** What the hash sees of one scraper: everything but the file it came from, with the
      default keywords in sorted order. */
  datatype Normal = Normal(id: string, name: string, enabled: bool, priority: int,
                           fetcher: string, hubRoot: string, route: string, fetchParams: string,
                           processors: string, keywords: multiset<string>,
                           processorOrder: seq<string>, categoryOrders: map<string, seq<string>>)

  function Normalize(c: Config): Normal {
    Normal(c.id, c.name, c.enabled, c.priority, c.fetcher, c.hubRoot, c.route, c.fetchParams,
           c.processors, multiset(c.keywords), c.processorOrder, c.categoryOrders)
  }

  /** What the normal form forgets: the order of the keywords, and where the file was. */
  lemma NormalMeans(a: Config, b: Config)
    ensures Normalize(a) == Normalize(b) <==>
              && multiset(a.keywords) == multiset(b.keywords)
              && a.(keywords := [], sourcePath := "", encodable := true)
                 == b.(keywords := [], sourcePath := "", encodable := true)
  {
  }

  /** The order of sortedScrapers. */
  predicate Before(a: Config, b: Config) {
    a.priority < b.priority || (a.priority == b.priority && StringLess(a.id, b.id))
  }

  lemma BeforeIsOrder(a: Config, b: Config)
    ensures !Before(a, a)
    ensures Before(a, b) ==> !Before(b, a)
    ensures Before(a, b) || Before(b, a) || a.id == b.id
  {
    StringLessTotal(a.id, b.id);
    StringLessTotal(a.id, a.id);
  }

  lemma BeforeTransitive(a: Config, b: Config, c: Config)
    requires Before(a, b) && Before(b, c)
    ensures Before(a, c)
  {
    if a.priority == b.priority == c.priority {
      StringLessTransitive(a.id, b.id, c.id);
    }
  }

  ghost predicate Ascending(list: seq<Config>) {
    forall i, j | 0 <= i < j < |list| :: Before(list[i], list[j])
  }

  ghost predicate Lists(list: seq<Config>, s: Snapshot) {
    forall c :: c in list <==> c in s.Values
  }

  /** The list is what sortedScrapers returns for a snapshot with unique ids. */
  ghost predicate SortedList(list: seq<Config>, s: Snapshot) {
    Ascending(list) && Lists(list, s)
  }

  function Insert(list: seq<Config>, c: Config): (r: seq<Config>)
    ensures forall x :: x in r <==> x in list || x == c
  {
    if list == [] || Before(c, list[0]) then [c] + list else [list[0]] + Insert(list[1..], c)
  }

  lemma {:induction false} InsertAscends(list: seq<Config>, c: Config)
    requires Ascending(list) && forall x :: x in list ==> x.id != c.id
    ensures Ascending(Insert(list, c))
  {
    if list != [] {
      var r := Insert(list, c);
      BeforeIsOrder(c, list[0]);
      assert list[0] in list;
      if Before(c, list[0]) {
        forall j | 0 < j < |list| ensures Before(c, list[j]) {
          BeforeTransitive(c, list[0], list[j]);
        }
      } else {
        InsertAscends(list[1..], c);
        forall j | 1 <= j < |r| ensures Before(list[0], r[j]) {
          assert r[j] == Insert(list[1..], c)[j - 1];
          assert r[j] in Insert(list[1..], c);
          if r[j] != c {
            var i :| 0 <= i < |list[1..]| && list[1..][i] == r[j];
            assert list[i + 1] == r[j];
          }
        }
      }
    }
  }

  /** Collect and sort; Go's map order does not matter. */
  method SortedScrapers(s: Snapshot) returns (list: seq<Config>)
    ensures Lists(list, s)
    ensures Distinct(s, ById) ==> SortedList(list, s)
    ensures Unique(s) ==> SortedList(list, s)
    ensures Distinct(s, ById) ==> forall i, j | 0 <= i < j < |list| ::
              list[i].priority < list[j].priority
              || (list[i].priority == list[j].priority && StringLess(list[i].id, list[j].id))
  {
    list := [];
    var left := s.Keys;
    while left != {}
      invariant left <= s.Keys
      invariant forall c :: c in list <==> exists p :: p in s && p !in left && s[p] == c
      invariant Distinct(s, ById) ==> Ascending(list)
    {
      var p :| p in left;
      if Distinct(s, ById) {
        forall x | x in list ensures x.id != s[p].id {
          var q :| q in s && q !in left && s[q] == x;
        }
        InsertAscends(list, s[p]);
      }
      left := left - {p};
      list := Insert(list, s[p]);
    }
  }

  /** The sorted list is a function of the snapshot. */
  lemma {:induction false} SortedListIsUnique(a: seq<Config>, b: seq<Config>)
    requires Ascending(a) && Ascending(b) && forall c :: c in a <==> c in b
    ensures a == b
  {
    assert a != [] ==> a[0] in a;
    assert b != [] ==> b[0] in b;
    if a != [] && b != [] {
      assert a[0] in b && b[0] in a;
      var i :| 0 <= i < |b| && b[i] == a[0];
      var j :| 0 <= j < |a| && a[j] == b[0];
      BeforeIsOrder(a[0], b[0]);
      BeforeIsOrder(a[0], a[0]);
      assert a[0] == b[0];
      forall c ensures c in a[1..] <==> c in b[1..] {
        TailMember(a, c);
        TailMember(b, c);
      }
      SortedListIsUnique(a[1..], b[1..]);
      assert a == [a[0]] + a[1..] && b == [b[0]] + b[1..];
    }
  }

  lemma TailMember(list: seq<Config>, c: Config)
    requires |list| > 0 && Ascending(list)
    ensures c in list[1..] <==> c in list && c != list[0]
  {
    if c in list[1..] {
      var k :| 0 <= k < |list[1..]| && list[1..][k] == c;
      BeforeIsOrder(list[0], list[0]);
      assert Before(list[0], list[k + 1]);
    }
    if c in list && c != list[0] {
      var k :| 0 <= k < |list| && list[k] == c;
      assert list[1..][k - 1] == c;
    }
  }

  // ----- hash -----

  function Normals(list: seq<Config>): (r: seq<Normal>)
    ensures |r| == |list| && forall i | 0 <= i < |list| :: r[i] == Normalize(list[i])
  {
    if list == [] then [] else [Normalize(list[0])] + Normals(list[1..])
  }

  /** The digest stands for what it is taken of; a list with something that has no JSON text has none. */
  function ConfigHash(list: seq<Config>): Result<seq<Normal>> {
    if forall c | c in list :: c.encodable then Success(Normals(list)) else Failure("marshal config hash")
  }

  function Ids(list: seq<Config>): set<string> {
    set c | c in list :: c.id
  }

  predicate UniqueIds(list: seq<Config>) {
    forall i, j | 0 <= i < j < |list| :: list[i].id != list[j].id
  }

  // ----- diff -----

  datatype Part = Id | Name | Enabled | Fetcher | HubRoot | Route | FetchParams | Priority | Processors | Keywords

  const PARTS: seq<Part> := [Id, Name, Enabled, Fetcher, HubRoot, Route, FetchParams, Priority, Processors, Keywords]

  predicate Same(a: Config, b: Config, part: Part) {
    match part
    case Id => a.id == b.id
    case Name => a.name == b.name
    case Enabled => a.enabled == b.enabled
    case Fetcher => a.fetcher == b.fetcher
    case HubRoot => a.hubRoot == b.hubRoot
    case Route => a.route == b.route
    case FetchParams => a.fetchParams == b.fetchParams
    case Priority => a.priority == b.priority
    case Processors => a.processors == b.processors
    case Keywords => multiset(a.keywords) == multiset(b.keywords)
  }

  /** Ids in order of appearance of the lists; the program sorts them for display. */
  datatype Diff = Diff(added: set<string>, removed: set<string>, modified: map<string, seq<Part>>)

  /** The parts of a list in which two versions differ, in its order. */
  function Differing(a: Config, b: Config, parts: seq<Part>): seq<Part> {
    if parts == [] then []
    else
      var front, last := parts[..|parts| - 1], parts[|parts| - 1];
      Differing(a, b, front) + if Same(a, b, last) then [] else [last]
  }

  /** What the diff lists for a scraper. */
  function FieldsOf(a: Config, b: Config): seq<Part> {
    var fields := Differing(a, b, PARTS);
    if Same(a, b, Processors) && (a.processorOrder != b.processorOrder || a.categoryOrders != b.categoryOrders)
    then fields + [Processors] else fields
  }

  /** The fields in which two versions differ; a change of order counts as a processor change. */
  method ChangedFields(before: Config, after: Config) returns (fields: seq<Part>)
    ensures fields == FieldsOf(before, after) && (fields == [] <==> Normalize(before) == Normalize(after))
    ensures forall part | part != Processors :: part in fields <==> !Same(before, after, part)
    ensures Processors in fields <==>
              !(before.processors == after.processors && before.processorOrder == after.processorOrder
                && before.categoryOrders == after.categoryOrders)
  {
    hide Same, PARTS, Normalize;
    assert PARTS[..0] == [];
    fields := [];
    for k := 0 to |PARTS|
      invariant fields == Differing(before, after, PARTS[..k])
    {
      assert PARTS[..k + 1][..k] == PARTS[..k];
      if !Same(before, after, PARTS[k]) {
        fields := fields + [PARTS[k]];
      }
    }
    assert PARTS[..|PARTS|] == PARTS;
    DifferingIsExact(before, after, PARTS);
    AllParts();
    if (before.processorOrder != after.processorOrder || before.categoryOrders != after.categoryOrders)
       && Processors !in fields {
      fields := fields + [Processors];
    }
    FieldsMean(before, after);
  }

  lemma {:induction false} DifferingIsExact(a: Config, b: Config, parts: seq<Part>)
    ensures forall part :: part in Differing(a, b, parts) <==> part in parts && !Same(a, b, part)
    decreases |parts|
  {
    hide Same;
    if parts != [] {
      DifferingIsExact(a, b, parts[..|parts| - 1]);
      assert parts == parts[..|parts| - 1] + [parts[|parts| - 1]];
    }
  }

  lemma FieldsMean(a: Config, b: Config)
    ensures FieldsOf(a, b) == [] <==> Normalize(a) == Normalize(b)
    ensures forall part | part != Processors :: part in FieldsOf(a, b) <==> !Same(a, b, part)
    ensures Processors in FieldsOf(a, b) <==>
              !(a.processors == b.processors && a.processorOrder == b.processorOrder
                && a.categoryOrders == b.categoryOrders)
  {
    DifferingIsExact(a, b, PARTS);
    AllParts();
    SameEverywhere(a, b);
    ProcessorsOnly(a, b);
    hide Same, PARTS, Normalize, Differing;
    assert FieldsOf(a, b) != [] ==> FieldsOf(a, b)[0] in FieldsOf(a, b);
  }

  lemma ProcessorsOnly(a: Config, b: Config)
    ensures Same(a, b, Processors) <==> a.processors == b.processors
  {
  }

  lemma SameEverywhere(a: Config, b: Config)
    ensures Normalize(a) == Normalize(b) <==>
              (forall part :: Same(a, b, part)) && a.processorOrder == b.processorOrder
              && a.categoryOrders == b.categoryOrders
  {
    if forall part :: Same(a, b, part) {
      assert Same(a, b, Id) && Same(a, b, Name) && Same(a, b, Enabled) && Same(a, b, Fetcher) && Same(a, b, HubRoot);
      assert Same(a, b, Route) && Same(a, b, FetchParams) && Same(a, b, Priority) && Same(a, b, Processors);
      assert Same(a, b, Keywords);
    }
  }

  lemma AllParts()
    ensures forall part :: part in PARTS && part in PARTS[..|PARTS|]
  {
    forall part ensures part in PARTS {
      match part
      case Id => assert PARTS[0] == part;
      case Name => assert PARTS[1] == part;
      case Enabled => assert PARTS[2] == part;
      case Fetcher => assert PARTS[3] == part;
      case HubRoot => assert PARTS[4] == part;
      case Route => assert PARTS[5] == part;
      case FetchParams => assert PARTS[6] == part;
      case Priority => assert PARTS[7] == part;
      case Processors => assert PARTS[8] == part;
      case Keywords => assert PARTS[9] == part;
    }
    assert PARTS[..|PARTS|] == PARTS;
  }

  function Index(list: seq<Config>): (m: map<string, Config>)
    ensures m.Keys == Ids(list)
    ensures UniqueIds(list) ==> forall c :: c in list ==> m[c.id] == c
    ensures forall id :: id in m ==> m[id] in list && m[id].id == id
  {
    if list == [] then map[] else
      assert list == list[..|list| - 1] + [list[|list| - 1]];
      Index(list[..|list| - 1])[list[|list| - 1].id := list[|list| - 1]]
  }

  /** Added, removed and modified ids are exactly those of one list, of the other, and of both
      with different normal forms; the latter come with the fields that differ. */
  method ComputeScrapersDiff(previous: seq<Config>, current: seq<Config>) returns (diff: Diff)
    ensures DiffOf(previous, current, diff)
  {
    var befores, afters := Index(previous), Index(current);
    var modified: map<string, seq<Part>> := map[];
    var left := befores.Keys * afters.Keys;
    while left != {}
      invariant left <= befores.Keys * afters.Keys
      invariant forall id :: id in modified <==>
                  id in befores && id in afters && id !in left && Normalize(befores[id]) != Normalize(afters[id])
      invariant forall id :: id in modified ==> modified[id] == FieldsOf(befores[id], afters[id])
    {
      var id :| id in left;
      left := left - {id};
      var fields := ChangedFields(befores[id], afters[id]);
      if |fields| > 0 {
        modified := modified[id := fields];
      }
    }
    diff := Diff(afters.Keys - befores.Keys, befores.Keys - afters.Keys, modified);
  }

  ghost predicate DiffOf(previous: seq<Config>, current: seq<Config>, diff: Diff) {
    && diff.added == Ids(current) - Ids(previous)
    && diff.removed == Ids(previous) - Ids(current)
    && (forall id :: id in diff.modified <==>
          id in Ids(previous) && id in Ids(current) && Normalize(Index(previous)[id]) != Normalize(Index(current)[id]))
    && forall id :: id in diff.modified ==> diff.modified[id] == FieldsOf(Index(previous)[id], Index(current)[id])
  }

  lemma AscendingHasUniqueIds(s: Snapshot, list: seq<Config>)
    requires Distinct(s, ById) && SortedList(list, s)
    ensures UniqueIds(list)
  {
    forall i, j | 0 <= i < j < |list| ensures list[i].id != list[j].id {
      assert list[i] in list && list[j] in list;
      assert list[i] in s.Values && list[j] in s.Values;
      var p :| p in s && s[p] == list[i];
      var q :| q in s && s[q] == list[j];
      BeforeIsOrder(list[i], list[i]);
      assert Before(list[i], list[j]);
      assert Value(s[p], ById) == list[i].id && Value(s[q], ById) == list[j].id;
    }
  }

  lemma SameHashSameVersions(a: seq<Config>, b: seq<Config>)
    requires Ordered(a) && Ordered(b) && Normals(a) == Normals(b)
    ensures SameVersions(a, b)
  {
    forall i | 0 <= i < |a| ensures a[i].id == b[i].id && a[i] in a && b[i] in b && Normalize(a[i]) == Normalize(b[i]) {
      assert Normals(a)[i] == Normals(b)[i];
    }
    assert |a| == |Normals(a)| == |b|;
  }

  /** The diff is empty exactly when the hashes agree. */
  lemma DiffIsExact(previous: seq<Config>, current: seq<Config>, diff: Diff)
    requires Ordered(previous) && Ordered(current) && DiffOf(previous, current, diff)
    ensures diff == Diff({}, {}, map[]) <==> Normals(previous) == Normals(current)
    ensures diff.added !! diff.removed && diff.added !! diff.modified.Keys && diff.removed !! diff.modified.Keys
  {
    if Normals(previous) == Normals(current) {
      SameHashSameVersions(previous, current);
      assert diff.modified == map[];
    }
    if diff == Diff({}, {}, map[]) {
      assert Ids(previous) == Ids(current);
      assert SameVersions(previous, current);
      SameNormals(previous, current);
    }
  }

  /** Equal versions of everything, id by id. */
  ghost predicate SameVersions(a: seq<Config>, b: seq<Config>) {
    Ids(a) == Ids(b) && forall id :: id in Ids(a) ==> Normalize(Index(a)[id]) == Normalize(Index(b)[id])
  }

  ghost predicate Ordered(a: seq<Config>) {
    Ascending(a) && UniqueIds(a)
  }

  /** Two ascending lists with the same ids and equal versions are equal position by position. */
  lemma {:induction false} SameNormals(a: seq<Config>, b: seq<Config>)
    requires Ordered(a) && Ordered(b) && SameVersions(a, b)
    ensures Normals(a) == Normals(b)
  {
    BothOrNone(a, b);
    if a != [] {
      FirstIsSmallest(a, b);
      FirstIsSmallest(b, a);
      BeforeIsOrder(a[0], b[0]);
      SameTails(a, b);
      SameNormals(a[1..], b[1..]);
    }
  }

  lemma BothOrNone(a: seq<Config>, b: seq<Config>)
    requires Ids(a) == Ids(b)
    ensures a == [] <==> b == []
  {
    assert a != [] ==> a[0].id in Ids(a);
    assert b != [] ==> b[0].id in Ids(b);
  }

  lemma SameTails(a: seq<Config>, b: seq<Config>)
    requires |a| > 0 && |b| > 0 && Ordered(a) && Ordered(b) && SameVersions(a, b) && a[0].id == b[0].id
    ensures Ordered(a[1..]) && Ordered(b[1..]) && SameVersions(a[1..], b[1..])
  {
    TailIds(a);
    TailIds(b);
  }

  lemma TailIds(a: seq<Config>)
    requires |a| > 0 && UniqueIds(a)
    ensures UniqueIds(a[1..]) && Ids(a[1..]) == Ids(a) - {a[0].id}
    ensures forall id :: id in Ids(a[1..]) ==> Index(a[1..])[id] == Index(a)[id]
  {
    assert a == [a[0]] + a[1..];
    forall id | id in Ids(a) && id != a[0].id ensures id in Ids(a[1..]) {
      var c :| c in a && c.id == id;
      assert c in a[1..];
    }
    forall c | c in a[1..] ensures c in a && c.id != a[0].id {
      var k :| 0 <= k < |a[1..]| && a[1..][k] == c;
      assert a[k + 1] == c;
    }
  }

  /** The version of a[0] in `b` stands nowhere before b[0]. */
  lemma FirstIsSmallest(a: seq<Config>, b: seq<Config>)
    requires |a| > 0 && |b| > 0 && Ordered(a) && Ordered(b) && SameVersions(a, b)
    ensures (a[0].id == b[0].id && Normalize(a[0]) == Normalize(b[0])) || Before(b[0], a[0])
  {
    assert a[0] in a && b[0] in b;
    assert a[0].id in Ids(a);
    var twin := Index(b)[a[0].id];
    assert Normalize(twin) == Normalize(a[0]);
    var k :| 0 <= k < |b| && b[k] == twin;
  }
}
