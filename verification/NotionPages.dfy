/** The remote Notion data source as a value, the requests the client sends to it,
    and what it means for its items to be safe. */
module NotionPages {
  import opened Common

  /** The text of the ContentId property. A page under construction carries a digest of
      its content id behind a reserved prefix; the digest is taken to be injective. */
  datatype Tag = Final(id: string) | Pending(id: string)

  datatype Block = Block(text: string)

  /** `source` is the whole block list of the item the page was created for. It is an
      annotation of the model: no request ever returns it. */
  datatype Page = Page(tag: Tag, blocks: seq<Block>, live: bool, source: seq<Block>)

  type Pages = map<nat, Page>

  datatype Item = Item(id: string, blocks: seq<Block>)

  datatype Request =
    | Create(tag: Tag, children: seq<Block>, source: seq<Block>)
    | Append(page: nat, children: seq<Block>)
    | Relabel(page: nat, tag: Tag)
    | Archive(page: nat)
    | Query(tags: Option<set<Tag>>, from: nat)
  {
    predicate Targets(pages: Pages) {
      (Append? || Relabel? || Archive?) ==> page in pages
    }

    /** The service takes at most 100 blocks in one request. */
    predicate WithinLimit() {
      (Create? || Append?) ==> |children| <= 100
    }

    // GET, DELETE and POST .../query may be sent again after an unclear failure.
    predicate RetrySafe() {
      Query?
    }

    predicate Matches(p: Page) {
      Query? && p.live && (tags.Some? ==> p.tag in tags.value)
    }
  }

  datatype Reply =
    | Done(created: nat)
    | Hits(pages: seq<nat>, next: Option<nat>, complete: bool)
    | Status(code: nat)
    | Broken

  /** The effect of one request when it is carried out. */
  function Apply(pages: Pages, newId: nat, r: Request): Pages
    requires r.Targets(pages)
  {
    match r
    case Create(tag, children, source) => pages[newId := Page(tag, children, true, source)]
    case Append(p, children) => pages[p := pages[p].(blocks := pages[p].blocks + children)]
    case Relabel(p, tag) => pages[p := pages[p].(tag := tag)]
    case Archive(p) => pages[p := pages[p].(live := false)]
    case Query(_, _) => pages
  }

  predicate LiveUnder(pages: Pages, p: nat, id: string) {
    p in pages && pages[p].live && pages[p].tag.id == id
  }

  ghost predicate HasFinal(pages: Pages, id: string) {
    exists p :: LiveUnder(pages, p, id) && pages[p].tag.Final?
  }

  ghost predicate HasPending(pages: Pages, id: string) {
    exists p :: LiveUnder(pages, p, id) && pages[p].tag.Pending?
  }

  ghost predicate NoLive(pages: Pages, id: string) {
    forall p :: !LiveUnder(pages, p, id)
  }

  /** A live page under its final id is complete and is the only live page of that id;
      a live pending page holds a prefix of what it will become. */
  ghost predicate Safe(pages: Pages) {
    && (forall p, q {:trigger pages[p], pages[q]} ::
          (p in pages && q in pages && pages[p].live && pages[q].live
           && pages[p].tag.Final? && pages[p].tag.id == pages[q].tag.id) ==> p == q)
    && (forall p {:trigger pages[p]} :: p in pages && pages[p].live ==>
          if pages[p].tag.Final? then pages[p].blocks == pages[p].source else pages[p].blocks <= pages[p].source)
  }

  /** Exactly one live page belongs to the id; it is final and carries its whole source. */
  ghost predicate Published(pages: Pages, id: string) {
    exists p :: LiveUnder(pages, p, id) && pages[p].tag.Final? && pages[p].blocks == pages[p].source
      && forall q :: LiveUnder(pages, q, id) ==> q == p
  }

  /** No page vanishes, and no older page is touched except that pending ones may be archived. */
  ghost predicate Keeps(before: Pages, after: Pages) {
    forall p {:trigger before[p]} {:trigger after[p]} :: p in before ==>
      p in after && (after[p] == before[p] || (before[p].tag.Pending? && after[p] == before[p].(live := false)))
  }

  /** Pending pages may have been archived; nothing else happened. */
  ghost predicate OnlyArchives(before: Pages, after: Pages) {
    before.Keys == after.Keys && Keeps(before, after)
  }

  ghost predicate Alone(pages: Pages, p: nat)
    requires p in pages
  {
    forall q :: LiveUnder(pages, q, pages[p].tag.id) ==> q == p
  }

  /** Every page created since `base` was created for one of the items, with all blocks of the
      item as what it will become; while it is live it is the only live page of its id. */
  ghost predicate NewFrom(base: Pages, pages: Pages, items: iset<Item>) {
    forall p {:trigger pages[p]} :: p in pages && p !in base ==>
      Item(pages[p].tag.id, pages[p].source) in items && (pages[p].live ==> Alone(pages, p))
  }

  /** A safe state that work on the items may have led to from `base`. */
  ghost predicate Grown(base: Pages, pages: Pages, items: iset<Item>) {
    Safe(pages) && Keeps(base, pages) && NewFrom(base, pages, items)
  }

  /** Only pages created for the item appeared; every older page is as it was. */
  ghost predicate OnlyAdds(before: Pages, after: Pages, item: Item) {
    && before.Keys <= after.Keys
    && (forall p {:trigger before[p]} {:trigger after[p]} :: p in before ==> after[p] == before[p])
    && NewFrom(before, after, iset{item})
  }

  /** Every state recorded from position `from` on is safe, keeps `base`, and has only new pages
      that belong to the items. */
  ghost predicate GuardedFrom(base: Pages, trace: seq<Pages>, from: nat, items: iset<Item>) {
    forall i | from <= i < |trace| :: Grown(base, trace[i], items)
  }

  ghost function Of(contents: seq<Item>): iset<Item> {
    iset item | item in contents
  }

  lemma KeepsTransitive(a: Pages, b: Pages, c: Pages)
    requires Keeps(a, b) && Keeps(b, c)
    ensures Keeps(a, c)
  {
    forall p | p in a
      ensures p in c && (c[p] == a[p] || (a[p].tag.Pending? && c[p] == a[p].(live := false)))
    {
      assert p in b;
    }
  }

  lemma GrownTransitive(a: Pages, b: Pages, c: Pages, items: iset<Item>, fewer: iset<Item>)
    requires Grown(a, b, items) && Grown(b, c, fewer) && fewer <= items
    ensures Grown(a, c, items)
  {
    KeepsTransitive(a, b, c);
    hide Safe;
    forall p | p in c && p !in a
      ensures Item(c[p].tag.id, c[p].source) in items && (c[p].live ==> Alone(c, p))
    {
      if p in b {
        assert Item(b[p].tag.id, b[p].source) in items;
        if c[p].live {
          forall q | LiveUnder(c, q, c[p].tag.id) ensures q == p {
            StaysAlone(b, c, p, q, fewer);
          }
        }
      }
    }
  }

  lemma StaysAlone(b: Pages, c: Pages, p: nat, q: nat, fewer: iset<Item>)
    requires Keeps(b, c) && NewFrom(b, c, fewer) && p in b && b[p].live && c[p].live && Alone(b, p)
    requires LiveUnder(c, q, c[p].tag.id)
    ensures q == p
  {
    if q in b {
      assert LiveUnder(b, q, b[p].tag.id);
    } else {
      assert Alone(c, q) && LiveUnder(c, p, c[q].tag.id);
    }
  }

  /** Exactly one live page has the id; it is final, and it is an old page or holds all blocks of
      one of the items. */
  ghost predicate Shows(base: Pages, pages: Pages, id: string, items: iset<Item>) {
    exists p :: LiveUnder(pages, p, id) && pages[p].tag.Final? && Alone(pages, p)
      && if p in base then pages[p] == base[p] else Item(id, pages[p].blocks) in items
  }

  lemma GrownShows(base: Pages, pages: Pages, id: string, items: iset<Item>)
    requires Grown(base, pages, items) && Published(pages, id)
    ensures Shows(base, pages, id, items)
  {
    var p :| LiveUnder(pages, p, id) && pages[p].tag.Final? && pages[p].blocks == pages[p].source
             && forall q :: LiveUnder(pages, q, id) ==> q == p;
    assert Alone(pages, p);
  }

  lemma GrownSelf(pages: Pages)
    requires Safe(pages)
    ensures Grown(pages, pages, iset{})
  {
  }

  lemma GrownMore(base: Pages, pages: Pages, items: iset<Item>, fewer: iset<Item>)
    requires Grown(base, pages, fewer) && fewer <= items
    ensures Grown(base, pages, items)
  {
    hide Safe, Keeps;
  }

  lemma GuardedExtends(base: Pages, middle: Pages, trace: seq<Pages>, from: nat, split: nat,
                       items: iset<Item>, fewer: iset<Item>)
    requires from <= split && Grown(base, middle, items) && fewer <= items
    requires forall i | from <= i < split && i < |trace| :: Grown(base, trace[i], items)
    requires GuardedFrom(middle, trace, split, fewer)
    ensures GuardedFrom(base, trace, from, items)
  {
    hide Grown;
    forall i | from <= i < |trace| ensures Grown(base, trace[i], items) {
      if split <= i {
        GrownTransitive(base, middle, trace[i], items, fewer);
      }
    }
  }

  lemma ArchivesTransitive(a: Pages, b: Pages, c: Pages)
    requires OnlyArchives(a, b) && OnlyArchives(b, c)
    ensures OnlyArchives(a, c)
  {
    KeepsTransitive(a, b, c);
  }

  lemma ArchivesAreSafe(a: Pages, b: Pages)
    requires Safe(a) && OnlyArchives(a, b)
    ensures Grown(a, b, iset{})
    ensures forall id :: NoLive(a, id) ==> NoLive(b, id)
    ensures forall id :: HasFinal(a, id) <==> HasFinal(b, id)
  {
    forall p, q | p in b && q in b && b[p].live && b[q].live && b[p].tag.Final? && b[p].tag.id == b[q].tag.id
      ensures p == q
    {
      assert p in a && q in a;
    }
    forall id ensures NoLive(a, id) ==> NoLive(b, id) {
      if NoLive(a, id) {
        forall p ensures !LiveUnder(b, p, id) {
          assert !LiveUnder(a, p, id);
        }
      }
    }
    forall id ensures HasFinal(a, id) <==> HasFinal(b, id) {
      if p :| LiveUnder(a, p, id) && a[p].tag.Final? {
        assert LiveUnder(b, p, id) && b[p].tag.Final?;
      }
      if p :| LiveUnder(b, p, id) && b[p].tag.Final? {
        assert LiveUnder(a, p, id) && a[p].tag.Final?;
      }
    }
  }

  lemma FinalIsPublished(pages: Pages, id: string)
    requires Safe(pages)
    ensures HasFinal(pages, id) <==> Published(pages, id)
  {
    if HasFinal(pages, id) {
      var p :| LiveUnder(pages, p, id) && pages[p].tag.Final?;
      forall q | LiveUnder(pages, q, id) ensures q == p {
        assert pages[p].tag.id == pages[q].tag.id;
      }
    }
  }

  lemma PublishedIsKept(a: Pages, b: Pages, id: string)
    requires Safe(b) && Keeps(a, b) && Published(a, id)
    ensures Published(b, id)
  {
    var p :| LiveUnder(a, p, id) && a[p].tag.Final? && a[p].blocks == a[p].source;
    assert b[p] == a[p];
    assert LiveUnder(b, p, id);
    FinalIsPublished(b, id);
  }

  /** What a step about one id leaves true of every other id. */
  ghost predicate OthersKept(before: Pages, after: Pages, id: string) {
    && (forall x :: HasFinal(before, x) ==> HasFinal(after, x))
    && (forall x :: x != id && HasFinal(after, x) ==> HasFinal(before, x))
    && (forall x :: x != id && NoLive(before, x) ==> NoLive(after, x))
    && (forall p {:trigger after[p]} :: p in after && after[p].live && after[p].tag.id != id ==>
          p in before && before[p] == after[p])
  }

  lemma ArchivesKeepOthers(a: Pages, b: Pages, id: string)
    requires Safe(a) && OnlyArchives(a, b)
    ensures OthersKept(a, b, id) && Grown(a, b, iset{})
  {
    ArchivesAreSafe(a, b);
  }

  lemma AddsKeepOthers(a: Pages, b: Pages, item: Item)
    requires OnlyAdds(a, b, item)
    ensures OthersKept(a, b, item.id) && Keeps(a, b)
  {
    forall x | HasFinal(a, x) ensures HasFinal(b, x) {
      var p :| LiveUnder(a, p, x) && a[p].tag.Final?;
      assert LiveUnder(b, p, x);
    }
    forall x | x != item.id && HasFinal(b, x) ensures HasFinal(a, x) {
      var p :| LiveUnder(b, p, x) && b[p].tag.Final?;
      assert LiveUnder(a, p, x);
    }
    forall x | x != item.id && NoLive(a, x) ensures NoLive(b, x) {
      forall p ensures !LiveUnder(b, p, x) {
        assert !LiveUnder(a, p, x);
      }
    }
  }
}
