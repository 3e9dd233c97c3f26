/** Keyset pagination over stored contents (internal/storage/postgres_store.go). */
module ContentListing {
  import opened Common

  const MAX_INT := 0x7FFF_FFFF_FFFF_FFFF

  type Int64 = n: int | -MAX_INT - 1 <= n <= MAX_INT

  /** Go's int addition wraps around. */
  function PlusOne(n: Int64): Int64 {
    if n == MAX_INT then -MAX_INT - 1 else n + 1
  }

  datatype Row = Row(contentId: string, createdAt: int, scraper: string, tags: seq<string>, title: string)

  datatype Cursor = Cursor(createdAt: int, contentId: string)

  datatype Filters = Filters(scraper: string, after: Option<int>, before: Option<int>, tags: seq<string>)

  datatype Page = Page(items: seq<Row>, next: Option<Cursor>)

  // ----- the order of the listing -----

  /** (created_at, content_id) of the row is below the cursor. */
  predicate Below(r: Row, c: Cursor) {
    r.createdAt < c.createdAt || (r.createdAt == c.createdAt && StringLess(r.contentId, c.contentId))
  }

  function At(r: Row): Cursor {
    Cursor(r.createdAt, r.contentId)
  }

  predicate Before(a: Row, b: Row) {
    Below(b, At(a))
  }

  lemma BelowTransitive(a: Row, b: Row, c: Cursor)
    requires Below(a, At(b)) && Below(b, c)
    ensures Below(a, c)
  {
    if a.createdAt == b.createdAt == c.createdAt {
      StringLessTransitive(a.contentId, b.contentId, c.contentId);
    }
  }

  /** content_id is the primary key. */
  predicate Keyed(rows: set<Row>) {
    forall a, b :: a in rows && b in rows && a.contentId == b.contentId ==> a == b
  }

  lemma BeforeIsOrder(a: Row, b: Row)
    ensures !(Before(a, b) && Before(b, a)) && !Before(a, a)
    ensures a.contentId != b.contentId ==> Before(a, b) || Before(b, a)
  {
    StringLessTotal(a.contentId, b.contentId);
  }

  predicate Leads(m: Row, rows: set<Row>) {
    m in rows && forall r :: r in rows && r != m ==> Before(m, r)
  }

  lemma {:induction false} SomeoneLeads(rows: set<Row>)
    requires rows != {} && Keyed(rows)
    ensures exists m :: Leads(m, rows)
    decreases |rows|
  {
    var x :| x in rows;
    if rows == {x} {
      assert Leads(x, rows);
    } else {
      assert rows - {x} != {};
      SomeoneLeads(rows - {x});
      var y :| Leads(y, rows - {x});
      BeforeIsOrder(x, y);
      if Before(x, y) {
        forall r | r in rows && r != x && r != y ensures Before(x, r) {
          assert r in rows - {x};
          BelowTransitive(r, y, At(x));
        }
        assert Leads(x, rows);
      } else {
        assert Leads(y, rows);
      }
    }
  }

  lemma OneLeads(rows: set<Row>)
    ensures forall a, b :: Leads(a, rows) && Leads(b, rows) ==> a == b
  {
    forall a, b | Leads(a, rows) && Leads(b, rows) ensures a == b {
      BeforeIsOrder(a, b);
    }
  }

  /** ORDER BY created_at DESC, content_id DESC. */
  function Arranged(rows: set<Row>): seq<Row>
    requires Keyed(rows)
    decreases |rows|
  {
    if rows == {} then []
    else
      SomeoneLeads(rows);
      OneLeads(rows);
      var m :| Leads(m, rows);
      [m] + Arranged(rows - {m})
  }

  /** Every row once, newest first. */
  lemma {:induction false} ArrangedIsExact(rows: set<Row>)
    requires Keyed(rows)
    ensures |Arranged(rows)| == |rows|
    ensures forall r :: r in Arranged(rows) <==> r in rows
    ensures forall i, j | 0 <= i < j < |rows| :: Before(Arranged(rows)[i], Arranged(rows)[j])
    decreases |rows|
  {
    if rows != {} {
      var list := Arranged(rows);
      var m := list[0];
      assert Leads(m, rows) && list[1..] == Arranged(rows - {m});
      ArrangedIsExact(rows - {m});
      assert list == [m] + list[1..];
      BeforeIsOrder(m, m);
    }
  }

  lemma ArrangedStep(rows: set<Row>)
    requires Keyed(rows) && Arranged(rows) != []
    ensures var m := Arranged(rows)[0];
      Leads(m, rows) && Keyed(rows - {m}) && Arranged(rows)[1..] == Arranged(rows - {m})
  {
  }

  /** What follows position k is the arrangement of the rows below it. */
  lemma {:induction false} RestIsArranged(rows: set<Row>, k: nat)
    requires Keyed(rows) && 0 < k <= |Arranged(rows)|
    ensures Keyed(After(rows, Arranged(rows)[k - 1]))
    ensures Arranged(rows)[k..] == Arranged(After(rows, Arranged(rows)[k - 1]))
    decreases k
  {
    hide Arranged, Leads, Before, Below, Keyed;
    var list := Arranged(rows);
    var m := list[0];
    ArrangedStep(rows);
    if k == 1 {
      AllAfterFirst(m, rows);
    } else {
      RestIsArranged(rows - {m}, k - 1);
      ArrangedIsExact(rows - {m});
      var x := list[k - 1];
      assert x == list[1..][k - 2] && x in list[1..];
      NotAfter(m, x, rows);
      assert list[k..] == list[1..][k - 1..];
    }
  }

  lemma AllAfterFirst(m: Row, rows: set<Row>)
    requires Leads(m, rows)
    ensures After(rows, m) == rows - {m}
  {
    BeforeIsOrder(m, m);
  }

  ghost function After(rows: set<Row>, x: Row): set<Row> {
    set r | r in rows && Before(x, r)
  }

  lemma NotAfter(m: Row, x: Row, rows: set<Row>)
    requires Leads(m, rows) && x in rows && x != m
    ensures After(rows, x) == After(rows - {m}, x)
  {
    BeforeIsOrder(m, x);
  }

  // ----- the statement -----

  datatype Value = Text(text: string) | Time(time: int) | Texts(texts: seq<string>) | Number(number: Int64)

  /** Conditions name their arguments by placeholder; `$1` is the first. */
  datatype Condition =
    | ScraperIs(arg: nat)
    | CreatedFrom(arg: nat)
    | CreatedUntil(arg: nat)
    | KeyBelow(createdAt: nat, contentId: nat)
    | SomeTagIn(arg: nat)

  datatype Query = Query(where: seq<Condition>, args: seq<Value>, limit: nat)

  predicate Holds(c: Condition, args: seq<Value>, r: Row) {
    match c
    case ScraperIs(n) => 0 < n <= |args| && args[n - 1] == Text(r.scraper)
    case CreatedFrom(n) => 0 < n <= |args| && args[n - 1].Time? && r.createdAt >= args[n - 1].time
    case CreatedUntil(n) => 0 < n <= |args| && args[n - 1].Time? && r.createdAt <= args[n - 1].time
    case KeyBelow(n, m) =>
      && 0 < n <= |args| && args[n - 1].Time? && 0 < m <= |args| && args[m - 1].Text?
      && Below(r, Cursor(args[n - 1].time, args[m - 1].text))
    case SomeTagIn(n) => 0 < n <= |args| && args[n - 1].Texts? && exists t :: t in r.tags && t in args[n - 1].texts
  }

  predicate Selects(q: Query, r: Row) {
    forall i | 0 <= i < |q.where| :: Holds(q.where[i], q.args, r)
  }

  /** What the database answers. */
  function Answer(rows: set<Row>, q: Query): seq<Row>
    requires Keyed(rows) && 0 < q.limit <= |q.args| && q.args[q.limit - 1].Number? && q.args[q.limit - 1].number >= 0
  {
    var all := Arranged(set r | r in rows && Selects(q, r));
    var limit := q.args[q.limit - 1].number;
    if |all| <= limit then all else all[..limit]
  }

  /** The filters and the cursor let the row through. */
  predicate Matches(f: Filters, cursor: Option<Cursor>, r: Row) {
    && (f.scraper != "" ==> r.scraper == f.scraper)
    && (f.after.Some? ==> r.createdAt >= f.after.value)
    && (f.before.Some? ==> r.createdAt <= f.before.value)
    && (cursor.Some? ==> Below(r, cursor.value))
    && (f.tags != [] ==> exists t :: t in r.tags && t in f.tags)
  }

  ghost predicate Extends(q: Query, p: Query, args: seq<Value>, c: Condition) {
    q.args == p.args + args && q.where == p.where + [c]
  }

  /** More arguments do not change the earlier conditions. */
  lemma SelectsOneMore(p: Query, q: Query, args: seq<Value>, c: Condition, r: Row)
    requires WellFormed(p) && Extends(q, p, args, c)
    ensures Selects(q, r) <==> Selects(p, r) && Holds(c, q.args, r)
  {
    forall i | 0 <= i < |p.where|
      ensures q.where[i] == p.where[i] && (Holds(p.where[i], p.args, r) <==> Holds(q.where[i], q.args, r))
    {
      assert Placed(p.where[i], p.args);
      HoldsWithMore(p.where[i], p.args, args, r);
    }
    assert q.where[|p.where|] == c;
  }

  lemma HoldsWithMore(c: Condition, args: seq<Value>, more: seq<Value>, r: Row)
    requires Placed(c, args)
    ensures Holds(c, args, r) <==> Holds(c, args + more, r)
  {
  }

  /** Every placeholder has its argument. */
  predicate Placed(c: Condition, args: seq<Value>) {
    match c
    case KeyBelow(n, m) => 0 < n <= |args| && 0 < m <= |args|
    case _ => 0 < c.arg <= |args|
  }

  predicate WellFormed(q: Query) {
    forall i | 0 <= i < |q.where| :: Placed(q.where[i], q.args)
  }

  /** The statement selects what the filters and the cursor let through. */
  ghost predicate Means(q: Query, f: Filters, cursor: Option<Cursor>) {
    WellFormed(q) && forall r :: Selects(q, r) <==> Matches(f, cursor, r)
  }

  /** buildListContentsQuery. */
  method BuildListContentsQuery(f: Filters, cursor: Option<Cursor>, limit: Int64) returns (q: Query)
    ensures Means(q, f, cursor)
    ensures q.limit == |q.args| && q.limit > 0
    ensures q.args[q.limit - 1] == Number(if PlusOne(limit) < 1 then 1 else PlusOne(limit))
  {
    hide Below, Means;
    q := Query([], [], 0);
    ghost var g := Filters("", None, None, []);
    Everything(q, g);
    if f.scraper != "" {
      q := Where(q, [Text(f.scraper)], ScraperIs(|q.args| + 1), g, None, g.(scraper := f.scraper), None);
    }
    g := g.(scraper := f.scraper);
    if f.after.Some? {
      q := Where(q, [Time(f.after.value)], CreatedFrom(|q.args| + 1), g, None, g.(after := f.after), None);
    }
    g := g.(after := f.after);
    if f.before.Some? {
      q := Where(q, [Time(f.before.value)], CreatedUntil(|q.args| + 1), g, None, g.(before := f.before), None);
    }
    g := g.(before := f.before);
    if cursor.Some? {
      q := Where(q, [Time(cursor.value.createdAt), Text(cursor.value.contentId)],
                 KeyBelow(|q.args| + 1, |q.args| + 2), g, None, g, cursor);
    }
    if f.tags != [] {
      q := Where(q, [Texts(f.tags)], SomeTagIn(|q.args| + 1), g, cursor, f, cursor);
    }
    assert f.tags == [] ==> f == g;
    var size := PlusOne(limit);
    if size < 1 {
      size := 1;
    }
    ghost var was := q;
    q := Query(q.where, q.args + [Number(size)], |q.args| + 1);
    MoreArguments(was, q, f, cursor);
  }

  /** Append the arguments of a condition and the condition. */
  method Where(p: Query, args: seq<Value>, c: Condition,
               ghost f: Filters, ghost cursor: Option<Cursor>, ghost f': Filters, ghost cursor': Option<Cursor>)
    returns (q: Query)
    requires Means(p, f, cursor) && Placed(c, p.args + args)
    requires Requested(c, p.args + args, f, cursor, f', cursor')
    ensures Means(q, f', cursor')
  {
    q := Query(p.where + [c], p.args + args, p.limit);
    Added(p, q, args, c, f, cursor, f', cursor');
  }

  /** The condition is what the second filters ask beyond the first. */
  ghost predicate Requested(c: Condition, args: seq<Value>,
                            f: Filters, cursor: Option<Cursor>, f': Filters, cursor': Option<Cursor>)
    requires Placed(c, args)
  {
    match c
    case ScraperIs(n) =>
      && f.scraper == "" != f'.scraper && f' == f.(scraper := f'.scraper) && cursor' == cursor
      && args[n - 1] == Text(f'.scraper)
    case CreatedFrom(n) =>
      && f.after.None? && f'.after.Some? && f' == f.(after := f'.after) && cursor' == cursor
      && args[n - 1] == Time(f'.after.value)
    case CreatedUntil(n) =>
      && f.before.None? && f'.before.Some? && f' == f.(before := f'.before) && cursor' == cursor
      && args[n - 1] == Time(f'.before.value)
    case KeyBelow(n, m) =>
      && cursor.None? && cursor'.Some? && f' == f
      && args[n - 1] == Time(cursor'.value.createdAt) && args[m - 1] == Text(cursor'.value.contentId)
    case SomeTagIn(n) =>
      f.tags == [] && f'.tags != [] && f' == f.(tags := f'.tags) && cursor' == cursor && args[n - 1] == Texts(f'.tags)
  }

  lemma Everything(q: Query, f: Filters)
    requires q.where == [] && f == Filters("", None, None, [])
    ensures Means(q, f, None)
  {
  }

  /** One condition more, with arguments of its own. */
  lemma Added(p: Query, q: Query, args: seq<Value>, c: Condition,
              f: Filters, cursor: Option<Cursor>, f': Filters, cursor': Option<Cursor>)
    requires Means(p, f, cursor) && Extends(q, p, args, c) && Placed(c, q.args)
    requires Requested(c, q.args, f, cursor, f', cursor')
    ensures Means(q, f', cursor')
  {
    forall i | 0 <= i < |p.where| ensures Placed(q.where[i], q.args) {
      assert Placed(p.where[i], p.args);
    }
    forall r ensures Selects(q, r) <==> Matches(f', cursor', r) {
      SelectsOneMore(p, q, args, c, r);
    }
  }

  lemma MoreArguments(p: Query, q: Query, f: Filters, cursor: Option<Cursor>)
    requires Means(p, f, cursor) && q.where == p.where && p.args <= q.args
    ensures Means(q, f, cursor)
  {
    forall i | 0 <= i < |p.where| ensures Placed(q.where[i], q.args) {
      assert Placed(p.where[i], p.args);
    }
    forall r ensures Selects(q, r) <==> Selects(p, r) {
      forall i | 0 <= i < |p.where| ensures Holds(p.where[i], p.args, r) <==> Holds(q.where[i], q.args, r) {
        assert Placed(p.where[i], p.args) && q.args == p.args + q.args[|p.args|..];
        HoldsWithMore(p.where[i], p.args, q.args[|p.args|..], r);
      }
    }
  }

  // ----- pages -----

  function Matching(rows: set<Row>, f: Filters, cursor: Option<Cursor>): set<Row> {
    set r | r in rows && Matches(f, cursor, r)
  }

  /** All rows of the listing from the cursor on. */
  function Listing(rows: set<Row>, f: Filters, cursor: Option<Cursor>): seq<Row>
    requires Keyed(rows)
  {
    Arranged(Matching(rows, f, cursor))
  }

  /** ListContents: ask for one row more than the page holds. */
  method ListContents(rows: set<Row>, f: Filters, cursor: Option<Cursor>, limit: Int64) returns (page: Page)
    requires Keyed(rows)
    ensures page == OnePage(Listing(rows, f, cursor), limit)
  {
    var q := BuildListContentsQuery(f, cursor, limit);
    var items := Answer(rows, q);
    assert Matching(rows, f, cursor) == set r | r in rows && Selects(q, r);
    var pageLimit := limit;
    if pageLimit <= 0 {
      pageLimit := 0;
    }
    if |items| <= pageLimit {
      return Page(items, None);
    }
    if pageLimit == 0 {
      return Page([], None);
    }
    items := items[..pageLimit];
    var last := items[|items| - 1];
    page := Page(items, Some(Cursor(last.createdAt, last.contentId)));
  }

  /** The page that a listing begins with. The largest integer is one too many: adding one to
      it wraps around, and only a single row is asked for. */
  function OnePage(all: seq<Row>, limit: Int64): Page {
    if limit <= 0 then Page([], None)
    else if limit == MAX_INT then Page(if |all| <= 1 then all else all[..1], None)
    else if |all| <= limit then Page(all, None)
    else Page(all[..limit], Some(At(all[limit - 1])))
  }

  /** A cursor marks exactly what is still to come. */
  lemma CursorContinues(rows: set<Row>, f: Filters, cursor: Option<Cursor>, limit: Int64)
    requires Keyed(rows) && 1 <= limit < MAX_INT
    ensures var all := Listing(rows, f, cursor); var page := OnePage(all, limit);
      && (page.next.Some? <==> |page.items| < |all|)
      && (page.next.Some? ==> page.items != [] && page.items + Listing(rows, f, page.next) == all)
  {
    hide Arranged, Below, Matches, Matching, After, Keyed;
    var all := Listing(rows, f, cursor);
    MatchingIsKeyed(rows, f, cursor);
    if |all| > limit {
      ArrangedIsExact(Matching(rows, f, cursor));
      RestIsArranged(Matching(rows, f, cursor), limit);
      assert all[limit - 1] in all;
      BelowLast(rows, f, cursor, all[limit - 1]);
    }
  }

  lemma MatchingIsKeyed(rows: set<Row>, f: Filters, cursor: Option<Cursor>)
    requires Keyed(rows)
    ensures Keyed(Matching(rows, f, cursor))
  {
  }

  lemma BelowLast(rows: set<Row>, f: Filters, cursor: Option<Cursor>, last: Row)
    requires last in Matching(rows, f, cursor)
    ensures Matching(rows, f, Some(At(last))) == After(Matching(rows, f, cursor), last)
  {
    hide Below;
    forall r | r in rows && Matches(f, Some(At(last)), r) ensures Matches(f, cursor, r) {
      if cursor.Some? {
        BelowTransitive(r, last, cursor.value);
      }
    }
  }

  /** What a reader collects who follows the cursors until there is none. */
  function Collected(rows: set<Row>, f: Filters, cursor: Option<Cursor>, limit: Int64): seq<Row>
    requires Keyed(rows)
    decreases |Listing(rows, f, cursor)|
  {
    var page := OnePage(Listing(rows, f, cursor), limit);
    if page.next.None? then page.items
    else
      CursorContinues(rows, f, cursor, limit);
      page.items + Collected(rows, f, page.next, limit)
  }

  lemma {:induction false} CollectedIsListing(rows: set<Row>, f: Filters, cursor: Option<Cursor>, limit: Int64)
    requires Keyed(rows) && 1 <= limit < MAX_INT
    ensures Collected(rows, f, cursor, limit) == Listing(rows, f, cursor)
    decreases |Listing(rows, f, cursor)|
  {
    var page := OnePage(Listing(rows, f, cursor), limit);
    CursorContinues(rows, f, cursor, limit);
    if page.next.Some? {
      CollectedIsListing(rows, f, page.next, limit);
    }
  }

  /** Following the cursors lists every matching row once, newest first, exactly for limits from
      one to below the largest integer, or when there is next to nothing to list. */
  lemma PaginationIsComplete(rows: set<Row>, f: Filters, limit: Int64)
    requires Keyed(rows)
    ensures var all := Listing(rows, f, None);
      && (Collected(rows, f, None, limit) == all
          <==> 1 <= limit < MAX_INT || all == [] || (limit == MAX_INT && |all| == 1))
      && (forall r :: r in all <==> r in rows && Matches(f, None, r))
      && forall i, j | 0 <= i < j < |all| ::
           || all[i].createdAt > all[j].createdAt
           || (all[i].createdAt == all[j].createdAt && StringLess(all[j].contentId, all[i].contentId))
  {
    ArrangedIsExact(Matching(rows, f, None));
    if 1 <= limit < MAX_INT {
      CollectedIsListing(rows, f, None, limit);
    }
  }

  /** Limits outside the range lose rows: of two rows the largest limit shows one and zero none. */
  lemma BadLimitsLoseRows()
    ensures var older, newer := Row("a", 1, "", [], ""), Row("b", 2, "", [], "");
      var rows, f := {older, newer}, Filters("", None, None, []);
      && Keyed(rows) && Listing(rows, f, None) == [newer, older]
      && Collected(rows, f, None, MAX_INT) == [newer]
      && Collected(rows, f, None, 0) == []
  {
    var older, newer := Row("a", 1, "", [], ""), Row("b", 2, "", [], "");
    var rows, f := {older, newer}, Filters("", None, None, []);
    assert Matching(rows, f, None) == rows;
    ArrangedIsExact(rows);
    assert Before(newer, older);
    BeforeIsOrder(newer, older);
  }
}
