/** The two-phase publication client (internal/exporter/notion/client.go). */
module NotionClient {
  import opened Common
  import opened NotionPages
  import opened NotionWorkspace

  const MAX_BLOCKS_PER_REQUEST: nat := 100
  const ATTEMPTS: nat := 6
  const CACHE_TTL: int := 300
  const ID_REQUIRED: string := "content ID is required"
  const NOT_CREATED: string := "create Notion page for "
  const LEFT_BEHIND: string := " (archive partial page: "

  predicate ShouldRetry(code: nat, retrySafe: bool) {
    code == 429 || code == 529 || (retrySafe && code in {500, 502, 503, 504})
  }

  /** The answers after which a request may be sent again. */
  ghost predicate MayRepeat(r: Request, reply: Reply) {
    || reply == Status(429) || reply == Status(529)
    || (r.Query? && (reply == Broken || reply == Status(500) || reply == Status(502)
                     || reply == Status(503) || reply == Status(504)))
  }

  /** The exchanges since the first `from`: the request, again and again while the answer allows
      it, at most six times. */
  ghost predicate Repeated(exchanges: seq<Exchange>, from: nat, r: Request) {
    && from <= |exchanges| <= from + 6
    && (forall i | from <= i < |exchanges| :: exchanges[i].request == r)
    && forall i | from <= i < |exchanges| - 1 :: MayRepeat(r, exchanges[i].reply)
  }

  lemma NotRepeatedYet(exchanges: seq<Exchange>, r: Request)
    ensures Repeated(exchanges, |exchanges|, r)
  {
  }

  lemma OneMoreTry(exchanges: seq<Exchange>, from: nat, r: Request)
    requires Repeated(exchanges, from, r) && |exchanges| < from + 6
    requires |exchanges| > from ==> MayRepeat(r, exchanges[|exchanges| - 1].reply)
    ensures forall reply :: Repeated(exchanges + [Exchange(r, reply)], from, r)
  {
  }

  lemma WhetherAgain(r: Request, reply: Reply)
    ensures MayRepeat(r, reply) <==>
              (reply.Broken? && r.RetrySafe()) || (reply.Status? && ShouldRetry(reply.code, r.RetrySafe()))
  {
  }

  datatype Entry = Entry(index: nat, item: Item, error: Option<string>)

  /** The entries of one batch that still wait to be stored. */
  ghost predicate Entries(contents: seq<Item>, entries: seq<Entry>) {
    forall i | 0 <= i < |entries| :: entries[i].index < |contents| && contents[entries[i].index] == entries[i].item
  }

  ghost predicate DistinctIds(entries: seq<Entry>) {
    forall i, j | 0 <= i < j < |entries| :: entries[i].item.id != entries[j].item.id
  }

  /** Where the first round of a batch left off. */
  datatype Round = Round(failures: seq<Entry>, faults: nat)

  /** The entry was among the failures, without an id or with the error of those that have none. */
  ghost predicate Hindered(index: nat, failures: seq<Entry>) {
    exists j :: 0 <= j < |failures| && failures[j].index == index && failures[j].error.Some?
                && (Blank(failures[j].item) || Contains(failures[j].error.value, "content ID is required"))
  }

  ghost predicate Hopeless(remaining: seq<Entry>, failures: seq<Entry>) {
    forall i | 0 <= i < |remaining| :: Hindered(remaining[i].index, failures)
  }

  lemma NoneHopeless(failures: seq<Entry>)
    ensures Hopeless([], failures)
  {
  }

  lemma OneMoreHopeless(remaining: seq<Entry>, failures: seq<Entry>, k: nat, error: Option<string>)
    requires Hopeless(remaining, failures) && k < |failures| && failures[k].error.Some?
    requires Blank(failures[k].item) || Contains(failures[k].error.value, ID_REQUIRED)
    ensures Hopeless(remaining + [failures[k].(error := error)], failures)
  {
    assert Hindered(failures[k].index, failures);
  }

  /** Whatever is not marked in the end was hopeless. */
  lemma OnlyHopeless(contents: seq<Item>, results: seq<bool>, remaining: seq<Entry>, failures: seq<Entry>)
    requires Accounted(contents, results, remaining, [], 0) && Hopeless(remaining, failures)
    ensures |results| == |contents| && forall i: nat | i < |contents| && !results[i] :: Hindered(i, failures)
  {
  }

  datatype Verdict = Present | Absent | ArchiveFailed(message: string) | LookupFailed(message: string)

  ghost predicate Waiting(entries: seq<Entry>, index: nat) {
    exists i | 0 <= i < |entries| :: entries[i].index == index
  }

  predicate Blank(item: Item) {
    TrimSpace(item.id) == ""
  }

  /** The batch already held an item with the same trimmed id. */
  ghost predicate Repeats(contents: seq<Item>, i: nat)
    requires i < |contents|
  {
    !Blank(contents[i]) && exists j | 0 <= j < i :: TrimSpace(contents[j].id) == TrimSpace(contents[i].id)
  }

  /** An item is reported as stored only if it is published or repeats an earlier one. */
  ghost predicate Truthful(contents: seq<Item>, results: seq<bool>, pages: Pages) {
    && |results| == |contents|
    && forall i | 0 <= i < |results| && results[i] :: HasFinal(pages, contents[i].id) || Repeats(contents, i)
  }

  ghost predicate Marked(before: seq<bool>, after: seq<bool>) {
    |before| == |after| && forall i | 0 <= i < |before| && before[i] :: after[i]
  }

  /** What a set of ids read from the cache or from a scan says about the data source. */
  ghost predicate Sound(ids: set<Tag>, pages: Pages) {
    && (forall id :: Final(id) in ids ==> HasFinal(pages, id))
    && (forall id :: Pending(id) in ids ==> !HasFinal(pages, id))
  }

  /** Every live page with a non-empty id outside `done` is listed. */
  ghost predicate CompleteBut(ids: set<Tag>, pages: Pages, done: set<string>) {
    forall p {:trigger pages[p]} ::
      p in pages && pages[p].live && pages[p].tag.id != "" && pages[p].tag.id !in done ==> pages[p].tag in ids
  }

  class Client {
    const workspace: Workspace
    const retryDelay: nat
    var clock: int
    var contentIds: Option<set<Tag>>
    var cacheAt: Option<int>
    var cacheFull: bool

    ghost predicate Valid()
      reads this, workspace
    {
      && workspace.Valid()
      && Safe(workspace.pages)
      && contentIds.Some? == cacheAt.Some?
      && (contentIds.Some? ==> Sound(contentIds.value, workspace.pages))
    }

    ghost predicate NotCached(tag: Tag)
      reads this
    {
      contentIds.None? || tag !in contentIds.value
    }

    predicate FreshAt(now: int)
      reads this
    {
      cacheAt.Some? && now - cacheAt.value < CACHE_TTL
    }

    lemma FreshMeans(now: int)
      ensures FreshAt(now) <==> cacheAt.Some? && now - cacheAt.value < 300
    {
    }

    /** A process that has just started knows nothing about the data source. */
    constructor (workspace: Workspace, retryDelay: nat, now: int)
      requires workspace.Valid() && Safe(workspace.pages)
      ensures Valid() && this.workspace == workspace
    {
      this.workspace, this.retryDelay, clock := workspace, retryDelay, now;
      contentIds, cacheAt, cacheFull := None, None, false;
    }

    /** The process clock, which never runs backwards. */
    method Now() returns (now: int)
      modifies this`clock
      ensures old(clock) <= now == clock
      ensures old(Valid()) ==> Valid()
    {
      var elapsed: int := *;
      clock := if elapsed > 0 then clock + elapsed else clock;
      now := clock;
    }

    /** Waiting for a turn or for a pause; fails when the caller has given up. */
    method Sleep() returns (ok: bool)
      modifies workspace`faults, workspace`givenUp
      ensures old(Valid()) ==> Valid()
      ensures workspace.faults >= old(workspace.faults)
      ensures workspace.faults == old(workspace.faults) ==> ok
      ensures workspace.givenUp == old(workspace.givenUp) + if ok then 0 else 1
    {
      ok := *;
      if !ok {
        workspace.faults := workspace.faults + 1;
        workspace.givenUp := workspace.givenUp + 1;
      }
    }

    /** One API call. Whatever the replies, the request is carried out at most once: a
        request that is not safe to repeat is sent again only after 429 and 529. A call fails only
        after six exchanges, a lost turn or pause, or an answer that forbids to repeat it. */
    method DoJson(r: Request) returns (outcome: Result<Reply>)
      requires workspace.Valid() && r.Targets(workspace.pages) && r.WithinLimit()
      modifies workspace
      ensures workspace.Valid()
      ensures Repeated(workspace.exchanges, |old(workspace.exchanges)|, r)
      ensures old(workspace.exchanges) <= workspace.exchanges
      ensures |workspace.trace| - |old(workspace.trace)| == |workspace.exchanges| - |old(workspace.exchanges)|
      ensures outcome.Success? ==>
                && |workspace.exchanges| > |old(workspace.exchanges)|
                && workspace.exchanges[|workspace.exchanges| - 1].reply == outcome.value
      ensures outcome.Failure? ==>
                || |workspace.exchanges| == |old(workspace.exchanges)| + 6
                || workspace.givenUp > old(workspace.givenUp)
                || (|workspace.exchanges| > |old(workspace.exchanges)|
                    && !MayRepeat(r, workspace.exchanges[|workspace.exchanges| - 1].reply))
      ensures workspace.pages == old(workspace.pages)
           || workspace.pages == Apply(old(workspace.pages), old(workspace.nextId), r)
      ensures old(workspace.nextId) <= workspace.nextId
      ensures !r.Create? ==> workspace.nextId == old(workspace.nextId)
      ensures outcome.Success? ==>
                && workspace.pages == Apply(old(workspace.pages), old(workspace.nextId), r)
                && (if r.Query? then outcome.value.Hits? && Answers(workspace.pages, workspace.nextId, r, outcome.value)
                    else outcome.value.Done?)
                && (r.Create? ==> outcome.value.created == old(workspace.nextId))
      ensures old(workspace.trace) <= workspace.trace
      ensures forall i | |old(workspace.trace)| <= i < |workspace.trace| ::
                workspace.trace[i] == old(workspace.pages) || workspace.trace[i] == workspace.pages
      ensures workspace.faults >= old(workspace.faults)
      ensures workspace.faults == old(workspace.faults) ==>
                outcome.Success? && (r.Query? && r.tags.Some? ==> outcome.value.complete)
    {
      hide Answers, Workspace.Valid, Repeated, MayRepeat;
      NotRepeatedYet(workspace.exchanges, r);
      var message: string := *;
      outcome := Failure(message);
      var attempt := 0;
      while attempt < ATTEMPTS
        invariant workspace.Valid() && workspace.pages == old(workspace.pages)
        invariant workspace.nextId == old(workspace.nextId)
        invariant old(workspace.trace) <= workspace.trace
        invariant forall i | |old(workspace.trace)| <= i < |workspace.trace| ::
                    workspace.trace[i] == old(workspace.pages)
        invariant workspace.faults >= old(workspace.faults) + attempt
        invariant outcome == Failure(message)
        invariant |workspace.exchanges| == |old(workspace.exchanges)| + attempt && attempt <= ATTEMPTS
        invariant |workspace.trace| == |old(workspace.trace)| + attempt
        invariant old(workspace.exchanges) <= workspace.exchanges
        invariant Repeated(workspace.exchanges, |old(workspace.exchanges)|, r)
        invariant attempt > 0 ==> MayRepeat(r, workspace.exchanges[|workspace.exchanges| - 1].reply)
        invariant workspace.givenUp == old(workspace.givenUp)
      {
        var turn := Sleep();
        if !turn {
          return;
        }
        OneMoreTry(workspace.exchanges, |old(workspace.exchanges)|, r);
        var reply := workspace.Send(r);
        WhetherAgain(r, reply);
        if reply.Done? || reply.Hits? {
          outcome := Success(reply);
          return;
        }
        var again := if reply.Broken? then r.RetrySafe() else ShouldRetry(reply.code, r.RetrySafe());
        if !again || attempt == ATTEMPTS - 1 {
          return;
        }
        var slept := Sleep();
        if !slept {
          return;
        }
        attempt := attempt + 1;
      }
    }

    method CacheFinalContentId(id: string)
      requires Valid() && HasFinal(workspace.pages, id)
      modifies this
      ensures Valid() && NotCached(Pending(id))
      ensures forall tag :: old(NotCached(tag)) && tag != Final(id) ==> NotCached(tag)
      ensures contentIds == Some((if old(contentIds).Some? then old(contentIds).value else {})
                                 + {Final(id)} - {Pending(id)})
    {
      if contentIds.None? {
        var now := Now();
        contentIds, cacheAt, cacheFull := Some({}), Some(now), false;
      }
      contentIds := Some(contentIds.value + {Final(id)} - {Pending(id)});
    }

    /** The ids believed to exist: the cache while it is fresh, otherwise a full scan. */
    method ExistingContentIds(force: bool) returns (r: Result<(set<Tag>, bool)>)
      requires Valid()
      modifies this, workspace
      ensures Valid() && workspace.pages == old(workspace.pages)
      ensures Quiet(old(workspace.pages), old(workspace.trace), old(workspace.faults), old(workspace.nextId))
      ensures r.Success? ==> contentIds == Some(r.value.0) && Sound(r.value.0, workspace.pages)
      ensures r.Success? && r.value.1 && (force || old(cacheAt.None? || clock - cacheAt.value >= 300)) ==>
                CompleteBut(r.value.0, workspace.pages, {})
      ensures !force && old(cacheAt).Some? && clock - old(cacheAt).value < 300 ==>
                && r.Success? && contentIds == old(contentIds) && r.value.1 == old(cacheFull)
                && workspace.exchanges == old(workspace.exchanges)
      ensures workspace.faults == old(workspace.faults) ==> r.Success?
    {
      hide Safe, Sound, Answers, Listed, CompleteBut;
      var now := Now();
      if !force && FreshAt(now) {
        return Success((contentIds.value, cacheFull));
      }
      NothingListed(workspace.pages);
      var ids: set<Tag> := {};
      var full := true;
      var cursor := 0;
      var more := true;
      while more
        invariant Valid() && workspace.pages == old(workspace.pages)
        invariant contentIds == old(contentIds) && cacheAt == old(cacheAt) && clock == now
        invariant Quiet(old(workspace.pages), old(workspace.trace), old(workspace.faults), old(workspace.nextId))
        invariant Sound(ids, workspace.pages)
        invariant full ==> Listed(workspace.pages, ids, if more then Some(cursor) else None)
        invariant more ==> cursor <= workspace.nextId || cursor == 0
        decreases more, workspace.nextId - cursor
      {
        var outcome := DoJson(Query(None, cursor));
        if outcome.Failure? {
          return Failure(outcome.message);
        }
        var reply := outcome.value;
        if !reply.complete {
          full := false;
        }
        HitsAreLive(workspace.pages, workspace.nextId, cursor, reply);
        var listed := set p | p in reply.pages && workspace.pages[p].tag != Final("") :: workspace.pages[p].tag;
        OneMoreScan(workspace.pages, workspace.nextId, cursor, reply, ids, listed);
        ids := ids + listed;
        more := reply.next.Some?;
        if more {
          cursor := reply.next.value;
        }
      }
      AllListed(workspace.pages, ids);
      var stamp := Now();
      contentIds, cacheAt, cacheFull := Some(ids), Some(stamp), full;
      r := Success((ids, full));
    }

    /** Look one id up exactly; a final page settles it, pending pages are archived. */
    method ReconcileExactContentPages(id: string, existing: set<Tag>)
      returns (r: Result<bool>, remaining: set<Tag>)
      requires Valid() && NotCached(Pending(id))
      modifies this, workspace
      ensures Valid()
      ensures Archiving(old(workspace.pages), old(workspace.trace), old(workspace.faults), old(workspace.nextId))
      ensures r.Success? ==> if r.value then HasFinal(workspace.pages, id) else NoLive(workspace.pages, id)
      ensures forall tag: Tag :: tag.id != id ==> (tag in remaining <==> tag in existing)
      ensures Final(id) in remaining && Final(id) !in existing ==> HasFinal(workspace.pages, id)
      ensures Pending(id) in remaining ==> Pending(id) in existing
      ensures forall tag :: old(NotCached(tag)) && tag != Final(id) ==> NotCached(tag)
      ensures workspace.faults == old(workspace.faults) ==> r.Success?
    {
      remaining := existing;
      ghost var base, trace, faults := workspace.pages, workspace.trace, workspace.faults;
      var looked := LookupContentPages(id);
      if looked.Failure? {
        return Failure(looked.message), remaining;
      }
      var (finals, pendings) := looked.value;
      if |finals| > 0 {
        assert finals[0] in finals;
        remaining := remaining + {Final(id)};
        CacheFinalContentId(id);
        return Success(true), remaining;
      }
      var archived := ArchiveAll(pendings, id, base, trace, faults);
      if archived.Failure? {
        return Failure("archive pending page for " + id + ": " + archived.message), remaining;
      }
      forall p ensures !LiveUnder(workspace.pages, p, id) {
        assert LiveUnder(workspace.pages, p, id) ==> LiveUnder(base, p, id);
      }
      remaining := remaining - {Pending(id)};
      r := Success(false);
    }

    /** The page under construction: `base` plus at most that page, since `trace` was recorded. */
    ghost predicate InProgress(base: Pages, trace: seq<Pages>, page: nat, item: Item)
      reads this, workspace
    {
      && workspace.Valid() && contentIds.Some? == cacheAt.Some?
      && Safe(base) && page !in base && NoLive(base, item.id)
      && (contentIds.Some? ==> Sound(contentIds.value, base)) && NotCached(Pending(item.id))
      && Building(base, workspace.pages, page, item)
      && trace <= workspace.trace
      && forall i | |trace| <= i < |workspace.trace| :: Building(base, workspace.trace[i], page, item)
    }

    /** The page is pending and holds the first `n` blocks of the item. */
    ghost predicate Filled(base: Pages, page: nat, item: Item, n: nat)
      reads workspace
    {
      n <= |item.blocks| && workspace.pages == base[page := Page(Pending(item.id), item.blocks[..n], true, item.blocks)]
    }

    lemma ProgressIsSafe(base: Pages, trace: seq<Pages>, page: nat, item: Item)
      requires InProgress(base, trace, page, item)
      ensures Valid() && OnlyAdds(base, workspace.pages, item)
      ensures GuardedFrom(base, workspace.trace, |trace|, iset{item})
      ensures workspace.pages.Keys <= base.Keys + {page}
      ensures page in workspace.pages && !workspace.pages[page].live ==> NoLive(workspace.pages, item.id)
    {
      BuildingIsSafe(base, workspace.pages, workspace.trace, |trace|, page, item);
      StillSound(base, workspace.pages, page, item);
    }

    /** Publish one item whose id has no live page: build it under the pending label in
        chunks, then relabel it. A failure on the way archives the page; one live page at most
        stays behind, and only if it is not known whether it was created or the archiving failed. */
    method StoreOne(item: Item) returns (r: Result<()>)
      requires Valid() && NoLive(workspace.pages, item.id) && NotCached(Pending(item.id))
      modifies this, workspace
      ensures Valid() && OnlyAdds(old(workspace.pages), workspace.pages, item)
      ensures old(workspace.trace) <= workspace.trace
      ensures GuardedFrom(old(workspace.pages), workspace.trace, |old(workspace.trace)|, iset{item})
      ensures workspace.pages.Keys <= old(workspace.pages.Keys) + {old(workspace.nextId)}
      ensures r.Failure? && !HasPrefix(r.message, NOT_CREATED) && !Contains(r.message, LEFT_BEHIND) ==>
                NoLive(workspace.pages, item.id)
      ensures r.Success? ==> HasFinal(workspace.pages, item.id)
      ensures r.Success? ==> contentIds.Some? && Final(item.id) in contentIds.value
      ensures forall tag :: old(NotCached(tag)) && tag != Final(item.id) ==> NotCached(tag)
      ensures workspace.faults >= old(workspace.faults)
      ensures workspace.faults == old(workspace.faults) ==> r.Success?
    {
      ghost var base, trace, p := workspace.pages, workspace.trace, workspace.nextId;
      var initial := item.blocks[..Min(|item.blocks|, MAX_BLOCKS_PER_REQUEST)];
      var outcome := DoJson(Create(Pending(item.id), initial, item.blocks));
      assert InProgress(base, trace, p, item);
      ProgressIsSafe(base, trace, p, item);
      if outcome.Failure? {
        return Failure(NOT_CREATED + item.id + ": " + outcome.message);
      }
      var page := outcome.value.created;
      r := AppendRemaining(page, item, base, trace);
      if r.Failure? {
        return;
      }
      r := Finalize(page, item, base, trace);
    }

    /** Add the blocks that did not fit into the first request, in chunks and in order. */
    method AppendRemaining(page: nat, item: Item, ghost base: Pages, ghost trace: seq<Pages>) returns (r: Result<()>)
      requires InProgress(base, trace, page, item)
      requires Filled(base, page, item, Min(|item.blocks|, MAX_BLOCKS_PER_REQUEST))
      modifies workspace
      ensures r.Success? ==> InProgress(base, trace, page, item) && Filled(base, page, item, |item.blocks|)
      ensures r.Failure? ==> Stopped(base, trace, page, item)
      ensures r.Failure? && !Contains(r.message, LEFT_BEHIND) ==> Archived(page)
      ensures workspace.faults >= old(workspace.faults)
      ensures workspace.faults == old(workspace.faults) ==> r.Success?
    {
      var start := Min(|item.blocks|, MAX_BLOCKS_PER_REQUEST);
      while start < |item.blocks|
        invariant InProgress(base, trace, page, item) && Filled(base, page, item, start)
        invariant workspace.faults >= old(workspace.faults)
      {
        var end := Min(|item.blocks|, start + MAX_BLOCKS_PER_REQUEST);
        assert item.blocks[..start] + item.blocks[start..end] == item.blocks[..end];
        var outcome := DoJson(Append(page, item.blocks[start..end]));
        if outcome.Failure? {
          var message := Abandon(page, item, base, trace, outcome.message);
          StillSaid("append blocks for " + item.id + ": ", message);
          return Failure("append blocks for " + item.id + ": " + message);
        }
        start := end;
      }
      r := Success(());
    }

    /** Relabel the finished page. */
    method Finalize(page: nat, item: Item, ghost base: Pages, ghost trace: seq<Pages>) returns (r: Result<()>)
      requires InProgress(base, trace, page, item) && Filled(base, page, item, |item.blocks|)
      modifies this, workspace
      ensures Stopped(base, trace, page, item)
      ensures r.Failure? && !Contains(r.message, LEFT_BEHIND) ==> Archived(page)
      ensures r.Success? ==> HasFinal(workspace.pages, item.id)
      ensures r.Success? ==> contentIds.Some? && Final(item.id) in contentIds.value
      ensures forall tag :: old(NotCached(tag)) && tag != Final(item.id) ==> NotCached(tag)
      ensures workspace.faults >= old(workspace.faults)
      ensures workspace.faults == old(workspace.faults) ==> r.Success?
    {
      assert item.blocks[..|item.blocks|] == item.blocks;
      var outcome := DoJson(Relabel(page, Final(item.id)));
      if outcome.Failure? {
        var message := Abandon(page, item, base, trace, outcome.message);
        StillSaid("finalize page for " + item.id + ": ", message);
        return Failure("finalize page for " + item.id + ": " + message);
      }
      ProgressIsSafe(base, trace, page, item);
      assert LiveUnder(workspace.pages, page, item.id);
      CacheFinalContentId(item.id);
      r := Success(());
    }

    /** Archive a page that could not be finished; its own failure only adds to the message. */
    method Abandon(page: nat, item: Item, ghost base: Pages, ghost trace: seq<Pages>, cause: string)
      returns (message: string)
      requires InProgress(base, trace, page, item) && page in workspace.pages
      modifies workspace
      ensures Stopped(base, trace, page, item)
      ensures !Contains(message, LEFT_BEHIND) ==> Archived(page)
      ensures workspace.faults >= old(workspace.faults)
    {
      var archived := ArchivePage(page);
      message := if archived.Success? then cause else cause + LEFT_BEHIND + archived.message + ")";
      assert archived.Failure? ==> OccursAt(message, LEFT_BEHIND, |cause|);
      ProgressIsSafe(base, trace, page, item);
    }

    ghost predicate Archived(page: nat)
      reads workspace
    {
      page in workspace.pages && !workspace.pages[page].live
    }

    /** The call ended with at most the one new page; without it nothing live has the id. */
    ghost predicate Stopped(base: Pages, trace: seq<Pages>, page: nat, item: Item)
      reads this, workspace
    {
      && Valid() && OnlyAdds(base, workspace.pages, item)
      && trace <= workspace.trace && GuardedFrom(base, workspace.trace, |trace|, iset{item})
      && workspace.pages.Keys <= base.Keys + {page}
      && (Archived(page) ==> NoLive(workspace.pages, item.id))
    }

    /** What holds after any part of a call: at every step published pages were kept and new
        pages were made for the given items. */
    ghost predicate Ran(base: Pages, trace: seq<Pages>, faults: nat, items: iset<Item>)
      reads workspace
    {
      && Grown(base, workspace.pages, items)
      && trace <= workspace.trace
      && GuardedFrom(base, workspace.trace, |trace|, items)
      && workspace.faults >= faults
    }

    lemma RanOn(base: Pages, trace: seq<Pages>, faults: nat, middle: Pages, soFar: seq<Pages>, met: nat,
                items: iset<Item>, fewer: iset<Item>)
      requires Grown(base, middle, items) && trace <= soFar && GuardedFrom(base, soFar, |trace|, items)
      requires Ran(middle, soFar, met, fewer) && faults <= met && fewer <= items
      ensures Ran(base, trace, faults, items)
    {
      hide Grown;
      GrownTransitive(base, middle, workspace.pages, items, fewer);
      assert forall i | |trace| <= i < |soFar| :: workspace.trace[i] == soFar[i];
      GuardedExtends(base, middle, workspace.trace, |trace|, |soFar|, items, fewer);
    }

    /** What the listed ids say of the data source, apart from the ids already dealt with. */
    ghost predicate Knows(existing: set<Tag>, exact: bool, done: set<string>)
      reads this, workspace
    {
      && (forall id :: Pending(id) !in existing ==> NotCached(Pending(id)))
      && (forall id :: Final(id) in existing ==> HasFinal(workspace.pages, id))
      && (forall id :: Pending(id) in existing && id !in done ==> !HasFinal(workspace.pages, id))
      && (!exact ==> CompleteBut(existing, workspace.pages, done))
    }

    /** What holds at any point of a call: every recorded state was safe and kept what had
        been published, new pages come from the batch, and the marks tell the truth. */
    ghost predicate Going(contents: seq<Item>, results: seq<bool>, base: Pages, trace: seq<Pages>, faults: nat)
      reads this, workspace
    {
      && Valid() && Ran(base, trace, faults, Of(contents))
      && Truthful(contents, results, workspace.pages)
    }

    /** An entry that may be stored: nothing live carries its id. */
    ghost predicate Ready(e: Entry)
      reads this, workspace
    {
      e.error.None? ==> NoLive(workspace.pages, e.item.id) && NotCached(Pending(e.item.id))
    }

    ghost predicate AllReady(pending: seq<Entry>)
      reads this, workspace
    {
      forall i | 0 <= i < |pending| :: Ready(pending[i])
    }

    /** Settle one id before it is stored: it is published already, or its pending pages are
        archived, or it is looked up exactly when the listed ids do not decide it. */
    method Settle(id: string, existing: set<Tag>, exact: bool) returns (verdict: Verdict, remaining: set<Tag>)
      requires Valid() && (Final(id) in existing ==> HasFinal(workspace.pages, id))
      requires Pending(id) !in existing ==> NotCached(Pending(id))
      modifies this, workspace
      ensures Valid() && OnlyArchives(old(workspace.pages), workspace.pages)
      ensures Ran(old(workspace.pages), old(workspace.trace), old(workspace.faults), iset{})
      ensures verdict.Present? ==> HasFinal(workspace.pages, id)
      ensures verdict.Absent? ==> NotCached(Pending(id))
      ensures verdict.Absent? && (exact || Pending(id) in existing) ==> !HasPending(workspace.pages, id)
      ensures verdict.Absent? && exact && Pending(id) !in existing ==> !HasFinal(workspace.pages, id)
      ensures verdict.Absent? ==> Final(id) !in existing
      ensures forall tag: Tag :: tag.id != id ==> (tag in remaining <==> tag in existing)
      ensures Final(id) in remaining ==> HasFinal(workspace.pages, id)
      ensures Pending(id) !in remaining ==> NotCached(Pending(id))
      ensures forall tag :: old(NotCached(tag)) && tag != Final(id) ==> NotCached(tag)
      ensures workspace.faults == old(workspace.faults) ==> verdict.Present? || verdict.Absent?
    {
      remaining := existing;
      ArchivesKeepOthers(workspace.pages, workspace.pages, id);
      if Final(id) in existing {
        return Present, remaining;
      }
      if Pending(id) in existing {
        var archived := ArchivePendingPages(id);
        ArchivesAreSafe(old(workspace.pages), workspace.pages);
        return if archived.Success? then Absent else ArchiveFailed(archived.message), remaining;
      }
      if exact {
        var found;
        found, remaining := ReconcileExactContentPages(id, existing);
        ArchivesAreSafe(old(workspace.pages), workspace.pages);
        NoneLeft(workspace.pages, id);
        return
          if found.Failure? then LookupFailed(found.message) else if found.value then Present else Absent,
          remaining;
      }
      verdict := Absent;
    }

    /** One more item is known to be published. */
    lemma Marking(contents: seq<Item>, results: seq<bool>, base: Pages, trace: seq<Pages>, faults: nat, i: nat)
      requires Going(contents, results, base, trace, faults) && i < |contents|
      requires HasFinal(workspace.pages, contents[i].id)
      ensures i < |results| && Going(contents, results[i := true], base, trace, faults)
    {
    }

    /** Only reads so far. */
    lemma GoingFromStart(contents: seq<Item>, marks: seq<bool>, base: Pages, trace: seq<Pages>, faults: nat)
      requires Valid() && workspace.pages == base && trace <= workspace.trace && workspace.faults >= faults
      requires forall i | |trace| <= i < |workspace.trace| :: workspace.trace[i] == base
      ensures Ran(base, trace, faults, Of(contents))
      ensures Truthful(contents, marks, base) ==> Going(contents, marks, base, trace, faults)
    {
      ArchivesKeepOthers(base, base, "");
    }

    lemma KnowsFromScan(existing: set<Tag>, exact: bool)
      requires Valid() && contentIds == Some(existing) && Sound(existing, workspace.pages)
      requires !exact ==> CompleteBut(existing, workspace.pages, {})
      ensures Knows(existing, exact, {})
    {
    }

    /** What a caller sees of the marks. */
    lemma MarksArePublished(contents: seq<Item>, results: seq<bool>, base: Pages, trace: seq<Pages>, faults: nat)
      requires Going(contents, results, base, trace, faults)
      ensures Valid() && Ran(base, trace, faults, Of(contents))
      ensures |results| == |contents|
      ensures forall i | 0 <= i < |contents| && results[i] ::
                Published(workspace.pages, contents[i].id) || Repeats(contents, i)
    {
      forall i | 0 <= i < |contents| && results[i]
        ensures Published(workspace.pages, contents[i].id) || Repeats(contents, i)
      {
        FinalIsPublished(workspace.pages, contents[i].id);
      }
    }

    lemma KnowingLess(existing: set<Tag>, exact: bool, done: set<string>)
      requires Knows(existing, exact, {})
      ensures Knows(existing, exact, done)
    {
    }

    lemma Forgetting(existing: set<Tag>, exact: bool, done: set<string>, id: string)
      requires Knows(existing, exact, done) && id in done && NotCached(Pending(id))
      ensures Knows(existing - {Pending(id)}, exact, done)
    {
    }

    /** Reads and pauses change nothing that matters. */
    lemma StillGoing(contents: seq<Item>, results: seq<bool>, base: Pages, trace: seq<Pages>, faults: nat,
                     before: Pages, soFar: seq<Pages>)
      requires Valid() && workspace.pages == before && soFar <= workspace.trace && workspace.faults >= faults
      requires forall i | |soFar| <= i < |workspace.trace| :: workspace.trace[i] == before
      requires Grown(base, before, Of(contents)) && trace <= soFar && GuardedFrom(base, soFar, |trace|, Of(contents))
      requires Truthful(contents, results, before)
      ensures Going(contents, results, base, trace, faults)
    {
      forall i | |trace| <= i < |workspace.trace| ensures Grown(base, workspace.trace[i], Of(contents)) {
        assert i < |soFar| ==> workspace.trace[i] == soFar[i];
      }
    }

    /** Settle the next id and keep what is known of the others. */
    method SettleNext(id: string, existing: set<Tag>, exact: bool, ghost done: set<string>,
                      ghost contents: seq<Item>, ghost results: seq<bool>, ghost pending: seq<Entry>,
                      ghost base: Pages, ghost trace: seq<Pages>, ghost faults: nat)
      returns (verdict: Verdict, remaining: set<Tag>)
      requires Knows(existing, exact, done) && Going(contents, results, base, trace, faults)
      requires AllReady(pending) && forall j | 0 <= j < |pending| :: pending[j].item.id != id
      modifies this, workspace
      ensures Knows(remaining, exact, done + {id}) && Going(contents, results, base, trace, faults)
      ensures AllReady(pending)
      ensures verdict.Present? ==> HasFinal(workspace.pages, id)
      ensures verdict.Absent? ==> NotCached(Pending(id))
      ensures verdict.Absent? && id !in done && id != "" ==> NoLive(workspace.pages, id)
      ensures workspace.faults >= old(workspace.faults)
      ensures workspace.faults == old(workspace.faults) ==> verdict.Present? || verdict.Absent?
    {
      hide Safe, Grown, OnlyArchives, Truthful, CompleteBut, HasFinal, HasPending, NoLive, GuardedFrom, Sound;
      ghost var middle, soFar, met := workspace.pages, workspace.trace, workspace.faults;
      NoLiveIfUnlisted(middle, existing, done, id);
      verdict, remaining := Settle(id, existing, exact);
      ArchivesKeepBooks(middle, workspace.pages, contents, results);
      ArchivesKeepListing(middle, workspace.pages, existing, remaining, done, id);
      ArchivesAreSafe(middle, workspace.pages);
      NoneLeft(workspace.pages, id);
      RanOn(base, trace, faults, middle, soFar, met, Of(contents), iset{});
      forall i | 0 <= i < |pending| ensures Ready(pending[i]) {
        assert old(Ready(pending[i]));
      }
    }

    /** First pass over the batch: decide which entries still have to be stored. On success
        an entry without an error has no live page left. */
    method SelectMissing(entries: seq<Entry>, initial: set<Tag>, exactLookupOnMiss: bool, marks: seq<bool>,
                         ghost contents: seq<Item>, ghost base: Pages, ghost trace: seq<Pages>, ghost faults: nat)
      returns (ok: bool, results: seq<bool>, pending: seq<Entry>)
      requires Knows(initial, exactLookupOnMiss, {}) && Going(contents, marks, base, trace, faults)
      requires Booked(contents, entries, 0, marks, marks, [])
      modifies this, workspace
      ensures Going(contents, results, base, trace, faults)
      ensures AllReady(pending)
      ensures ok ==> Booked(contents, entries, |entries|, marks, results, pending)
      ensures workspace.faults >= old(workspace.faults)
      ensures workspace.faults == old(workspace.faults) ==> ok && NoErrors(pending)
    {
      hide Going, Knows;
      results, pending, ok := marks, [], true;
      var existing := initial;
      assert Ids(entries[..0]) == {};
      for k := 0 to |entries|
        invariant ok && Knows(existing, exactLookupOnMiss, Ids(entries[..k]))
        invariant Going(contents, results, base, trace, faults)
        invariant Booked(contents, entries, k, marks, results, pending)
        invariant AllReady(pending)
        invariant workspace.faults >= old(workspace.faults)
        invariant workspace.faults == old(workspace.faults) ==> NoErrors(pending)
      {
        var e := entries[k];
        NewId(entries, k);
        var verdict;
        verdict, existing := SettleNext(e.item.id, existing, exactLookupOnMiss, Ids(entries[..k]),
                                        contents, results, pending, base, trace, faults);
        if verdict.LookupFailed? {
          return false, results, pending;
        }
        if verdict.Present? {
          BookResult(contents, entries, k, marks, results, pending);
          Marking(contents, results, base, trace, faults, e.index);
          results := results[e.index := true];
        } else {
          if verdict.Absent? {
            Forgetting(existing, exactLookupOnMiss, Ids(entries[..k + 1]), e.item.id);
            existing := existing - {Pending(e.item.id)};
          }
          var error := if verdict.Absent? then None
                       else Some("archive pending pages for " + e.item.id + ": " + verdict.message);
          BookPending(contents, entries, k, marks, results, pending, e.(error := error));
          if error.Some? {
            results := results[e.index := false];
          }
          pending := pending + [e.(error := error)];
        }
      }
    }

    /** Store one ready entry and keep what is known of those from position `from` on. */
    method StoreNext(e: Entry, ghost pending: seq<Entry>, ghost from: nat, ghost contents: seq<Item>,
                     ghost results: seq<bool>, ghost base: Pages, ghost trace: seq<Pages>, ghost faults: nat)
      returns (r: Result<()>)
      requires Going(contents, results, base, trace, faults) && e.item in contents
      requires NoLive(workspace.pages, e.item.id) && NotCached(Pending(e.item.id))
      requires forall j | from <= j < |pending| :: Ready(pending[j]) && pending[j].item.id != e.item.id
      modifies this, workspace
      ensures Going(contents, results, base, trace, faults)
      ensures forall j | from <= j < |pending| :: Ready(pending[j])
      ensures OthersKept(old(workspace.pages), workspace.pages, e.item.id)
      ensures forall tag :: old(NotCached(tag)) && tag != Final(e.item.id) ==> NotCached(tag)
      ensures r.Success? ==> HasFinal(workspace.pages, e.item.id)
      ensures workspace.faults >= old(workspace.faults)
      ensures workspace.faults == old(workspace.faults) ==> r.Success?
    {
      ghost var middle, soFar, met := workspace.pages, workspace.trace, workspace.faults;
      r := StoreOne(e.item);
      AddsKeepOthers(middle, workspace.pages, e.item);
      RanOn(base, trace, faults, middle, soFar, met, Of(contents), iset{e.item});
      forall j | from <= j < |pending| ensures Ready(pending[j]) {
        assert old(Ready(pending[j]));
      }
    }

    /** Second pass: store what is pending, in order, and collect what fails. */
    method StorePending(pending: seq<Entry>, marks: seq<bool>, blanks: seq<Entry>, ghost contents: seq<Item>,
                        ghost base: Pages, ghost trace: seq<Pages>, ghost faults: nat)
      returns (results: seq<bool>, failures: seq<Entry>)
      requires Going(contents, marks, base, trace, faults) && AllReady(pending)
      requires Apart(contents, blanks, pending, 0) && Accounted(contents, marks, blanks, pending, 0)
      requires forall i | 0 <= i < |pending| :: !Blank(pending[i].item)
      modifies this, workspace
      ensures Going(contents, results, base, trace, faults)
      ensures Apart(contents, failures, pending, |pending|)
      ensures Accounted(contents, results, failures, pending, |pending|)
      ensures workspace.faults >= old(workspace.faults)
      ensures workspace.faults == old(workspace.faults) && NoErrors(pending) ==> failures == blanks
    {
      results, failures := marks, blanks;
      for k := 0 to |pending|
        invariant Going(contents, results, base, trace, faults)
        invariant forall j | k <= j < |pending| :: Ready(pending[j])
        invariant Apart(contents, failures, pending, k) && Accounted(contents, results, failures, pending, k)
        invariant workspace.faults >= old(workspace.faults)
        invariant workspace.faults == old(workspace.faults) && NoErrors(pending) ==> failures == blanks
      {
        var e := pending[k];
        MoveOn(contents, results, failures, pending, k);
        if e.error.Some? {
          failures := failures + [e];
        } else {
          var stored := StoreNext(e, pending, k + 1, contents, results, base, trace, faults);
          if stored.Failure? {
            results := results[e.index := false];
            failures := failures + [e.(error := Some(stored.message))];
          } else {
            results := results[e.index := true];
          }
        }
      }
    }

    /** Try one failure again: Success(None) when it is published now, Success(Some(error)) when
        it failed again, Failure when the lookup failed and the whole pass ends. */
    method RetryOne(f: Entry, existing: set<Tag>, full: bool, ghost done: set<string>, ghost contents: seq<Item>,
                    ghost results: seq<bool>, ghost base: Pages, ghost trace: seq<Pages>, ghost faults: nat)
      returns (r: Result<Option<string>>, remaining: set<Tag>)
      requires Knows(existing, !full, done) && Going(contents, results, base, trace, faults)
      requires f.item in contents && f.error.Some?
      requires if Blank(f.item) then f.error == Some(ID_REQUIRED) else f.item.id !in done
      modifies this, workspace
      ensures Knows(remaining, !full, done + {f.item.id}) && Going(contents, results, base, trace, faults)
      ensures r == Success(None) ==> HasFinal(workspace.pages, f.item.id)
      ensures workspace.faults >= old(workspace.faults)
      ensures workspace.faults == old(workspace.faults) && !Blank(f.item) && !Contains(f.error.value, ID_REQUIRED) ==>
                r == Success(None)
      ensures workspace.faults == old(workspace.faults) ==> r.Success?
    {
      var verdict;
      verdict, remaining := SettleNext(f.item.id, existing, !full, done, contents, results, [], base, trace, faults);
      if verdict.LookupFailed? {
        return Failure(verdict.message), remaining;
      }
      if verdict.Present? {
        return Success(None), remaining;
      }
      if verdict.ArchiveFailed? {
        return Success(Some("archive ambiguous pending page for " + f.item.id + ": " + verdict.message)), remaining;
      }
      if Contains(f.error.value, ID_REQUIRED) {
        return Success(f.error), remaining;
      }
      assert OccursAt(ID_REQUIRED, ID_REQUIRED, 0);
      var stored := StoreNext(f, [], 0, contents, results, base, trace, faults);
      r := if stored.Failure? then Success(Some(stored.message)) else Success(None);
    }

    /** Pause, then list what exists now. */
    method Rescan(ghost contents: seq<Item>, ghost results: seq<bool>, ghost base: Pages, ghost trace: seq<Pages>,
                  ghost faults: nat)
      returns (r: Result<(set<Tag>, bool)>)
      requires Going(contents, results, base, trace, faults)
      modifies this, workspace
      ensures Going(contents, results, base, trace, faults)
      ensures r.Success? ==> Knows(r.value.0, !r.value.1, {})
      ensures workspace.faults >= old(workspace.faults)
      ensures workspace.faults == old(workspace.faults) ==> r.Success?
    {
      var slept := Sleep();
      if !slept {
        return Failure("cancelled");
      }
      r := ExistingContentIds(true);
      StillGoing(contents, results, base, trace, faults, old(workspace.pages), old(workspace.trace));
    }

    /** Third pass: after a pause and a forced scan, try every failure once more. */
    method RetryFailures(failures: seq<Entry>, marks: seq<bool>, ghost contents: seq<Item>,
                         ghost base: Pages, ghost trace: seq<Pages>, ghost faults: nat)
      returns (aborted: bool, results: seq<bool>, remaining: seq<Entry>)
      requires Going(contents, marks, base, trace, faults)
      requires Apart(contents, failures, [], 0) && Accounted(contents, marks, failures, [], 0)
      modifies this, workspace
      ensures Going(contents, results, base, trace, faults) && Marked(marks, results)
      ensures !aborted ==> Accounted(contents, results, remaining, [], 0) && AllFailed(remaining)
      ensures workspace.faults >= old(workspace.faults)
      ensures workspace.faults == old(workspace.faults) ==> !aborted
      ensures workspace.faults == old(workspace.faults) && failures == [] ==> remaining == []
      ensures workspace.faults == old(workspace.faults) ==> Hopeless(remaining, failures)
    {
      NoneHopeless(failures);
      hide Hopeless;
      hide Going, Knows, Accounted, Ids, BlankIds;
      results, remaining, aborted := marks, [], true;
      var scan := Rescan(contents, results, base, trace, faults);
      if scan.Failure? {
        return;
      }
      var (existing, full) := scan.value;
      AccountedStart(contents, marks, failures);
      KnowingLess(existing, !full, BlankIds(failures));
      for k := 0 to |failures|
        invariant Knows(existing, !full, BlankIds(failures) + Ids(failures[..k]))
        invariant Going(contents, results, base, trace, faults) && Marked(marks, results)
        invariant Accounted(contents, results, remaining, failures, k) && AllFailed(remaining)
        invariant workspace.faults >= old(workspace.faults)
        invariant failures == [] ==> remaining == []
        invariant workspace.faults == old(workspace.faults) ==> Hopeless(remaining, failures)
      {
        var f := failures[k];
        KeepTrying(contents, results, remaining, failures, k);
        var retried;
        retried, existing := RetryOne(f, existing, full, BlankIds(failures) + Ids(failures[..k]),
                                      contents, results, base, trace, faults);
        if retried.Failure? {
          return;
        }
        if retried.value.None? {
          Marking(contents, results, base, trace, faults, f.index);
          results := results[f.index := true];
        } else {
          if workspace.faults == old(workspace.faults) {
            OneMoreHopeless(remaining, failures, k, retried.value);
          }
          remaining := remaining + [f.(error := retried.value)];
        }
      }
      AccountedEnd(contents, results, remaining, failures);
      aborted := false;
    }

    /** Publish a batch: ids already present are skipped, the rest is stored, and failures are
        tried once more. `results` is absent when the call gave up before the first write. */
    method StoreContents(contents: seq<Item>)
      returns (results: Option<seq<bool>>, failed: bool, ghost round: Option<Round>)
      requires Valid()
      modifies this, workspace
      ensures Valid()
      ensures Ran(old(workspace.pages), old(workspace.trace), old(workspace.faults), Of(contents))
      ensures results.Some? ==> |results.value| == |contents|
      ensures results.Some? ==> forall i | 0 <= i < |contents| && results.value[i] ::
                Published(workspace.pages, contents[i].id) || Repeats(contents, i)
      ensures !failed ==> results.Some? && forall i | 0 <= i < |contents| :: results.value[i]
      ensures workspace.faults == old(workspace.faults) ==>
                results.Some? && forall i | 0 <= i < |contents| && !Blank(contents[i]) :: results.value[i]
      ensures workspace.faults == old(workspace.faults) && (forall i | 0 <= i < |contents| :: !Blank(contents[i])) ==>
                !failed
      ensures results.Some? && contents != [] ==> round.Some?
      ensures round.Some? ==> old(workspace.faults) <= round.value.faults <= workspace.faults
      ensures round.Some? && retryDelay > 0 && workspace.faults == round.value.faults ==>
                && results.Some?
                && forall i: nat | i < |contents| && !results.value[i] :: Hindered(i, round.value.failures)
    {
      hide *;
      round := None;
      ghost var base, trace, faults := workspace.pages, workspace.trace, workspace.faults;
      var initialized := Sleep();
      GoingFromStart(contents, [], base, trace, faults);
      if !initialized {
        return None, true, None;
      }
      var marks, entries, blanks := Screen(contents);
      if |contents| == 0 {
        return Some(marks), false, None;
      }
      Unmarked(contents, marks, entries, blanks, base);
      var start := Now();
      var cacheWasFresh := FreshAt(start);
      FreshMeans(start);
      ghost var met, nextId := workspace.faults, workspace.nextId;
      var scan := ExistingContentIds(false);
      QuietMeans(base, trace, met, nextId);
      GoingFromStart(contents, marks, base, trace, faults);
      if scan.Failure? {
        return None, true, None;
      }
      var exactLookupOnMiss := cacheWasFresh || !scan.value.1;
      KnowsFromScan(scan.value.0, exactLookupOnMiss);
      var ok, first, pending := SelectMissing(entries, scan.value.0, exactLookupOnMiss, marks, contents, base, trace,
                                              faults);
      MarksArePublished(contents, first, base, trace, faults);
      if !ok {
        return None, true, None;
      }
      Handover(contents, entries, marks, first, pending, blanks);
      var second, failures := StorePending(pending, first, blanks, contents, base, trace, faults);
      MarksArePublished(contents, second, base, trace, faults);
      var third, remaining := second, failures;
      FailuresOnly(contents, second, failures, pending);
      round := Some(Round(failures, workspace.faults));
      NoneHopeless(failures);
      if |failures| > 0 && retryDelay > 0 {
        var aborted;
        aborted, third, remaining := RetryFailures(failures, second, contents, base, trace, faults);
        MarksArePublished(contents, third, base, trace, faults);
        if aborted {
          return Some(third), true, round;
        }
      }
      if retryDelay > 0 && workspace.faults == round.value.faults {
        OnlyHopeless(contents, third, remaining, failures);
      }
      MarkedSelf(second);
      Conclusion(contents, blanks, second, failures, third, remaining);
      results, failed := Some(third), |remaining| > 0;
    }

    /** Publish one item; success means that exactly one complete live page carries its id. */
    method Deliver(item: Item) returns (ok: bool)
      requires Valid()
      modifies this, workspace
      ensures Valid()
      ensures Ran(old(workspace.pages), old(workspace.trace), old(workspace.faults), iset{item})
      ensures ok ==> Published(workspace.pages, item.id)
      ensures workspace.faults == old(workspace.faults) && !Blank(item) ==> ok
    {
      assert Of([item]) == iset{item};
      var results, failed, round := StoreContents([item]);
      if failed {
        return false;
      }
      ok := results.Some? && |results.value| == 1 && results.value[0];
    }

    /** Reads only: the recorded states all equal `base`. */
    ghost predicate Quiet(base: Pages, trace: seq<Pages>, faults: nat, nextId: nat)
      reads workspace
    {
      && trace <= workspace.trace
      && (forall i | |trace| <= i < |workspace.trace| :: workspace.trace[i] == base)
      && workspace.faults >= faults
      && nextId == workspace.nextId
    }

    lemma QuietMeans(base: Pages, trace: seq<Pages>, faults: nat, nextId: nat)
      ensures Quiet(base, trace, faults, nextId) ==>
                && trace <= workspace.trace && workspace.faults >= faults && nextId == workspace.nextId
                && forall i | |trace| <= i < |workspace.trace| :: workspace.trace[i] == base
    {
    }

    /** All live pages of one id, told apart by their label; incomplete answers are errors. */
    method LookupContentPages(id: string) returns (r: Result<(seq<nat>, seq<nat>)>)
      requires Valid()
      modifies workspace
      ensures Valid() && workspace.pages == old(workspace.pages)
      ensures Quiet(old(workspace.pages), old(workspace.trace), old(workspace.faults), old(workspace.nextId))
      ensures r.Success? ==> forall p ::
                && (p in r.value.0 <==> LiveUnder(workspace.pages, p, id) && workspace.pages[p].tag.Final?)
                && (p in r.value.1 <==> LiveUnder(workspace.pages, p, id) && workspace.pages[p].tag.Pending?)
      ensures workspace.faults == old(workspace.faults) ==> r.Success?
    {
      var finals: seq<nat>, pendings: seq<nat> := [], [];
      var cursor := 0;
      var more := true;
      while more
        invariant Valid() && workspace.pages == old(workspace.pages)
        invariant Quiet(old(workspace.pages), old(workspace.trace), old(workspace.faults), old(workspace.nextId))
        invariant Collected(workspace.pages, finals, Final(id), if more then cursor else workspace.nextId)
        invariant Collected(workspace.pages, pendings, Pending(id), if more then cursor else workspace.nextId)
        invariant more ==> cursor <= workspace.nextId || cursor == 0
        decreases more, workspace.nextId - cursor
      {
        var outcome := DoJson(Query(Some({Final(id), Pending(id)}), cursor));
        if outcome.Failure? {
          return Failure(outcome.message);
        }
        var reply := outcome.value;
        if !reply.complete {
          return Failure("Notion query returned incomplete results");
        }
        var foundFinal := WithTag(workspace.pages, reply.pages, Final(id));
        var foundPending := WithTag(workspace.pages, reply.pages, Pending(id));
        finals, pendings := finals + foundFinal, pendings + foundPending;
        more := reply.next.Some?;
        if more {
          cursor := reply.next.value;
        }
      }
      r := Success((finals, pendings));
    }

    method ArchivePage(p: nat) returns (r: Result<()>)
      requires workspace.Valid() && p in workspace.pages
      modifies workspace
      ensures workspace.Valid() && workspace.nextId == old(workspace.nextId)
      ensures workspace.pages == old(workspace.pages)
           || workspace.pages == old(workspace.pages)[p := old(workspace.pages)[p].(live := false)]
      ensures r.Success? ==> !workspace.pages[p].live
      ensures old(workspace.trace) <= workspace.trace
      ensures forall i | |old(workspace.trace)| <= i < |workspace.trace| ::
                workspace.trace[i] == old(workspace.pages) || workspace.trace[i] == workspace.pages
      ensures workspace.faults >= old(workspace.faults)
      ensures workspace.faults == old(workspace.faults) ==> r.Success?
    {
      var outcome := DoJson(Archive(p));
      r := if outcome.Success? then Success(()) else Failure(outcome.message);
    }

    /** Steps that at most archived pending pages: every recorded state is safe. */
    ghost predicate Archiving(base: Pages, trace: seq<Pages>, faults: nat, nextId: nat)
      reads workspace
    {
      && OnlyArchives(base, workspace.pages)
      && trace <= workspace.trace
      && GuardedFrom(base, workspace.trace, |trace|, iset{})
      && workspace.faults >= faults
      && nextId == workspace.nextId
    }

    /** Archive one pending page as part of a longer clean-up that started at `base`. */
    method ArchivePending(p: nat, id: string, ghost base: Pages, ghost trace: seq<Pages>, ghost faults: nat)
      returns (r: Result<()>)
      requires Valid() && p in workspace.pages && workspace.pages[p].tag == Pending(id)
      requires Safe(base) && Archiving(base, trace, faults, workspace.nextId)
      modifies workspace
      ensures Valid() && Archiving(base, trace, faults, old(workspace.nextId))
      ensures OnlyArchives(old(workspace.pages), workspace.pages) && workspace.nextId == old(workspace.nextId)
      ensures r.Success? ==> !workspace.pages[p].live
      ensures workspace.faults >= old(workspace.faults)
      ensures workspace.faults == old(workspace.faults) ==> r.Success?
    {
      hide Safe, Sound, GuardedFrom, OnlyArchives, Keeps;
      ghost var before, soFar := workspace.pages, workspace.trace;
      r := ArchivePage(p);
      OnePageArchived(before, p);
      ArchivedSafely(base, |trace|, before, soFar, workspace.pages, workspace.trace);
    }

    /** Archive the listed pending pages one after the other; the first failure ends it. */
    method ArchiveAll(hits: seq<nat>, id: string, ghost base: Pages, ghost trace: seq<Pages>, ghost faults: nat)
      returns (r: Result<()>)
      requires Valid() && Safe(base) && Archiving(base, trace, faults, workspace.nextId)
      requires forall p :: p in hits ==> p in workspace.pages && workspace.pages[p].tag == Pending(id)
      modifies workspace
      ensures Valid() && Archiving(base, trace, faults, old(workspace.nextId))
      ensures OnlyArchives(old(workspace.pages), workspace.pages)
      ensures r.Success? ==> forall p :: p in hits ==> !workspace.pages[p].live
      ensures workspace.faults >= old(workspace.faults)
      ensures workspace.faults == old(workspace.faults) ==> r.Success?
    {
      hide Client.Valid, Client.Archiving, Safe;
      for k := 0 to |hits|
        invariant Valid() && Archiving(base, trace, faults, old(workspace.nextId))
        invariant OnlyArchives(old(workspace.pages), workspace.pages) && workspace.nextId == old(workspace.nextId)
        invariant forall i | 0 <= i < k :: !workspace.pages[hits[i]].live
        invariant workspace.faults >= old(workspace.faults)
      {
        ghost var before := workspace.pages;
        assert hits[k] in hits;
        r := ArchivePending(hits[k], id, base, trace, faults);
        ArchivesTransitive(old(workspace.pages), before, workspace.pages);
        if r.Failure? {
          return;
        }
      }
      r := Success(());
    }

    /** Every live page with the pending label of the id lies at or beyond `bound`. */
    ghost predicate PendingBeyond(id: string, bound: Option<nat>)
      reads workspace
    {
      forall p: nat :: LiveUnder(workspace.pages, p, id) && workspace.pages[p].tag.Pending? ==>
        bound.Some? && bound.value <= p
    }

    /** One page of results of the search for pending pages, archived. */
    method ArchiveRound(id: string, cursor: nat, ghost base: Pages, ghost trace: seq<Pages>, ghost faults: nat)
      returns (r: Result<Option<nat>>)
      requires Valid() && Safe(base) && Archiving(base, trace, faults, workspace.nextId)
      requires PendingBeyond(id, Some(cursor))
      modifies workspace
      ensures Valid() && Archiving(base, trace, faults, old(workspace.nextId))
      ensures r.Success? ==> PendingBeyond(id, r.value)
      ensures r.Success? && r.value.Some? ==> cursor < r.value.value <= workspace.nextId
      ensures workspace.faults >= old(workspace.faults)
      ensures workspace.faults == old(workspace.faults) ==> r.Success?
    {
      hide Safe, Sound, GuardedFrom, OnlyArchives, Keeps, Answers;
      ghost var before, soFar := workspace.pages, workspace.trace;
      var query := Query(Some({Pending(id)}), cursor);
      var outcome := DoJson(query);
      OnePageArchived(before, 0);
      ArchivedSafely(base, |trace|, before, soFar, before, workspace.trace);
      if outcome.Failure? {
        return Failure(outcome.message);
      }
      var reply := outcome.value;
      if !reply.complete {
        return Failure("Notion query returned incomplete results");
      }
      HitsAreTagged(before, workspace.nextId, query, reply, id);
      ghost var scanned := workspace.pages;
      var archived := ArchiveAll(reply.pages, id, base, trace, faults);
      if archived.Failure? {
        return Failure(archived.message);
      }
      RoundDone(scanned, workspace.nextId, query, reply, id);
      r := Success(reply.next);
    }

    /** After the hits were archived, what is still pending lies beyond them. */
    lemma RoundDone(scanned: Pages, nextId: nat, query: Request, reply: Reply, id: string)
      requires query.Query? && query.tags == Some({Pending(id)}) && reply.Hits? && reply.complete
      requires Answers(scanned, nextId, query, reply) && OnlyArchives(scanned, workspace.pages)
      requires forall p: nat :: LiveUnder(scanned, p, id) && scanned[p].tag.Pending? ==> query.from <= p
      requires forall p :: p in reply.pages && p in workspace.pages ==> !workspace.pages[p].live
      ensures PendingBeyond(id, reply.next)
    {
      forall p: nat | LiveUnder(workspace.pages, p, id) && workspace.pages[p].tag.Pending?
        ensures reply.next.Some? && reply.next.value <= p
      {
        assert LiveUnder(scanned, p, id) && workspace.pages[p] == scanned[p];
      }
    }

    /** Archive every live page that carries the pending label of the id. */
    method ArchivePendingPages(id: string) returns (r: Result<()>)
      requires Valid()
      modifies this, workspace
      ensures Valid()
      ensures Archiving(old(workspace.pages), old(workspace.trace), old(workspace.faults), old(workspace.nextId))
      ensures r.Success? ==> !HasPending(workspace.pages, id) && NotCached(Pending(id))
      ensures forall tag :: old(NotCached(tag)) ==> NotCached(tag)
      ensures workspace.faults == old(workspace.faults) ==> r.Success?
    {
      ghost var base, trace, faults := workspace.pages, workspace.trace, workspace.faults;
      var cursor := Some(0);
      while cursor.Some?
        invariant Valid() && Archiving(base, trace, faults, old(workspace.nextId))
        invariant contentIds == old(contentIds) && cacheAt == old(cacheAt)
        invariant PendingBeyond(id, cursor)
        invariant cursor.Some? ==> cursor.value <= workspace.nextId || cursor.value == 0
        decreases cursor.Some?, if cursor.Some? then workspace.nextId - cursor.value else 0
      {
        var round := ArchiveRound(id, cursor.value, base, trace, faults);
        if round.Failure? {
          return Failure(round.message);
        }
        cursor := round.value;
      }
      if contentIds.Some? {
        contentIds := Some(contentIds.value - {Pending(id)});
      }
      r := Success(());
    }
  }

  /** Every live page with an id below the bound is listed. */
  ghost predicate Listed(pages: Pages, ids: set<Tag>, bound: Option<nat>) {
    forall p {:trigger pages[p]} ::
      p in pages && pages[p].live && pages[p].tag.id != "" && (bound.Some? ==> p < bound.value) ==> pages[p].tag in ids
  }

  lemma NothingListed(pages: Pages)
    ensures Sound({}, pages) && Listed(pages, {}, Some(0))
  {
  }

  lemma AllListed(pages: Pages, ids: set<Tag>)
    ensures Listed(pages, ids, None) ==> CompleteBut(ids, pages, {})
  {
  }

  lemma HitsAreLive(pages: Pages, nextId: nat, cursor: nat, reply: Reply)
    requires reply.Hits? && Answers(pages, nextId, Query(None, cursor), reply)
    ensures forall p :: p in reply.pages ==> p in pages && pages[p].live
    ensures reply.next.Some? ==> cursor < reply.next.value <= nextId
  {
  }

  lemma OneMoreScan(pages: Pages, nextId: nat, cursor: nat, reply: Reply, ids: set<Tag>, listed: set<Tag>)
    requires Safe(pages) && reply.Hits? && Answers(pages, nextId, Query(None, cursor), reply) && Sound(ids, pages)
    requires forall p :: p in reply.pages ==> p in pages && pages[p].live
    requires listed == set p | p in reply.pages && pages[p].tag != Final("") :: pages[p].tag
    ensures Sound(ids + listed, pages)
    ensures reply.complete && Listed(pages, ids, Some(cursor)) ==> Listed(pages, ids + listed, reply.next)
  {
    LiveTagsAreSound(pages, listed);
    hide Safe, HasFinal;
  }

  lemma LiveTagsAreSound(pages: Pages, tags: set<Tag>)
    requires Safe(pages)
    requires forall t :: t in tags ==> exists p :: p in pages && pages[p].live && pages[p].tag == t
    ensures Sound(tags, pages)
  {
    forall id | Final(id) in tags ensures HasFinal(pages, id) {
      var p :| p in pages && pages[p].live && pages[p].tag == Final(id);
      assert LiveUnder(pages, p, id);
    }
    forall id | Pending(id) in tags ensures !HasFinal(pages, id) {
      var p :| p in pages && pages[p].live && pages[p].tag == Pending(id);
    }
  }

  lemma StillSaid(front: string, message: string)
    ensures Contains(message, LEFT_BEHIND) ==> Contains(front + message, LEFT_BEHIND)
  {
    if Contains(message, LEFT_BEHIND) {
      var i :| 0 <= i <= |message| && OccursAt(message, LEFT_BEHIND, i);
      assert OccursAt(front + message, LEFT_BEHIND, |front| + i);
    }
  }

  function Min(a: nat, b: nat): nat {
    if a < b then a else b
  }

  /** The data source is `base` with at most one new page, which belongs to the item. */
  ghost predicate Building(base: Pages, pages: Pages, p: nat, item: Item) {
    pages == base
    || (p in pages && pages == base[p := pages[p]] && pages[p].tag.id == item.id && pages[p].source == item.blocks
        && if pages[p].tag.Final? then pages[p].blocks == item.blocks else pages[p].blocks <= item.blocks)
  }

  lemma OnePageIsSafe(base: Pages, pages: Pages, p: nat, item: Item)
    requires Safe(base) && NoLive(base, item.id) && p !in base && Building(base, pages, p, item)
    ensures Grown(base, pages, iset{item}) && OnlyAdds(base, pages, item)
    ensures p in pages && !pages[p].live ==> NoLive(pages, item.id)
  {
    forall q, id | LiveUnder(pages, q, id) && q != p ensures LiveUnder(base, q, id) {
    }
    forall a, b | a in pages && b in pages && pages[a].live && pages[b].live && pages[a].tag.Final?
                  && pages[a].tag.id == pages[b].tag.id
      ensures a == b
    {
      assert a in base ==> LiveUnder(base, a, pages[a].tag.id);
      assert b in base ==> LiveUnder(base, b, pages[b].tag.id);
    }
  }

  lemma BuildingIsSafe(base: Pages, pages: Pages, trace: seq<Pages>, from: nat, p: nat, item: Item)
    requires Safe(base) && NoLive(base, item.id) && p !in base && Building(base, pages, p, item)
    requires forall i | from <= i < |trace| :: Building(base, trace[i], p, item)
    ensures Grown(base, pages, iset{item}) && OnlyAdds(base, pages, item) && GuardedFrom(base, trace, from, iset{item})
    ensures p in pages && !pages[p].live ==> NoLive(pages, item.id)
  {
    OnePageIsSafe(base, pages, p, item);
    forall i | from <= i < |trace| ensures Grown(base, trace[i], iset{item}) {
      OnePageIsSafe(base, trace[i], p, item);
    }
  }

  lemma HitsAreTagged(pages: Pages, nextId: nat, query: Request, reply: Reply, id: string)
    requires query.Query? && query.tags == Some({Pending(id)}) && reply.Hits? && Answers(pages, nextId, query, reply)
    ensures forall p :: p in reply.pages ==> p in pages && pages[p].tag == Pending(id)
    ensures reply.next.Some? ==> query.from < reply.next.value <= nextId
  {
  }

  lemma OnePageArchived(pages: Pages, p: nat)
    ensures OnlyArchives(pages, pages)
    ensures p in pages && pages[p].tag.Pending? ==> OnlyArchives(pages, pages[p := pages[p].(live := false)])
  {
  }

  /** One exchange more that at most archived pending pages. */
  lemma ArchivedSafely(base: Pages, from: nat, before: Pages, soFar: seq<Pages>, after: Pages, later: seq<Pages>)
    requires Safe(base) && OnlyArchives(base, before) && OnlyArchives(before, after)
    requires from <= |soFar| && GuardedFrom(base, soFar, from, iset{}) && soFar <= later
    requires forall i | |soFar| <= i < |later| :: later[i] == before || later[i] == after
    ensures OnlyArchives(base, after) && Safe(after) && Grown(base, after, iset{})
    ensures GuardedFrom(base, later, from, iset{})
    ensures forall ids :: Sound(ids, before) ==> Sound(ids, after)
  {
    ArchivesTransitive(base, before, after);
    ArchivesAreSafe(base, before);
    ArchivesAreSafe(base, after);
    ArchivesAreSafe(before, after);
    hide Safe, Keeps, NewFrom, HasFinal, OnlyArchives;
    forall i | from <= i < |later| ensures Grown(base, later[i], iset{}) {
      assert i < |soFar| ==> later[i] == soFar[i];
    }
  }

  lemma ArchivesKeepBooks(before: Pages, after: Pages, contents: seq<Item>, results: seq<bool>)
    requires Safe(before) && OnlyArchives(before, after) && Truthful(contents, results, before)
    ensures Truthful(contents, results, after)
  {
    ArchivesAreSafe(before, after);
  }

  lemma ArchivesKeepListing(before: Pages, after: Pages, existing: set<Tag>, remaining: set<Tag>, done: set<string>,
                            id: string)
    requires OnlyArchives(before, after)
    requires forall tag: Tag :: tag.id != id ==> (tag in remaining <==> tag in existing)
    ensures CompleteBut(existing, before, done) ==> CompleteBut(remaining, after, done + {id})
  {
  }

  lemma StillSound(base: Pages, pages: Pages, p: nat, item: Item)
    requires p !in base && Building(base, pages, p, item)
    ensures forall ids :: Sound(ids, base) && Pending(item.id) !in ids ==> Sound(ids, pages)
  {
    forall id ensures HasFinal(base, id) ==> HasFinal(pages, id) {
      if HasFinal(base, id) {
        var q :| LiveUnder(base, q, id) && base[q].tag.Final?;
        assert LiveUnder(pages, q, id);
      }
    }
    forall id | id != item.id ensures HasFinal(pages, id) ==> HasFinal(base, id) {
      if HasFinal(pages, id) {
        var q :| LiveUnder(pages, q, id) && pages[q].tag.Final?;
        assert LiveUnder(base, q, id);
      }
    }
  }

  lemma NoneLeft(pages: Pages, id: string)
    ensures NoLive(pages, id) <==> !HasFinal(pages, id) && !HasPending(pages, id)
  {
    forall p | LiveUnder(pages, p, id) ensures HasFinal(pages, id) || HasPending(pages, id) {
      assert pages[p].tag.Final? || pages[p].tag.Pending?;
    }
  }

  lemma NoLiveIfUnlisted(pages: Pages, ids: set<Tag>, done: set<string>, id: string)
    ensures CompleteBut(ids, pages, done) && id !in done && id != "" && Final(id) !in ids && Pending(id) !in ids ==>
              NoLive(pages, id)
  {
  }

  function Ids(entries: seq<Entry>): set<string> {
    set e | e in entries :: e.item.id
  }

  lemma NewId(entries: seq<Entry>, k: nat)
    requires k < |entries| && DistinctIds(entries)
    ensures entries[k].item.id !in Ids(entries[..k])
    ensures Ids(entries[..k + 1]) == Ids(entries[..k]) + {entries[k].item.id}
  {
    assert entries[..k + 1] == entries[..k] + [entries[k]];
  }

  ghost predicate NoErrors(entries: seq<Entry>) {
    forall i | 0 <= i < |entries| :: entries[i].error.None?
  }

  /** The first `k` entries are accounted for: marked as stored or kept as pending. */
  ghost predicate Booked(contents: seq<Item>, entries: seq<Entry>, k: nat, marks: seq<bool>,
                         results: seq<bool>, pending: seq<Entry>)
    requires k <= |entries|
  {
    && Entries(contents, entries) && DistinctIds(entries)
    && |marks| == |contents| && Marked(marks, results)
    && Entries(contents, pending) && DistinctIds(pending)
    && (forall i | 0 <= i < |pending| :: !Blank(pending[i].item) && pending[i].item.id in Ids(entries[..k]))
    && (forall i | k <= i < |entries| :: !results[entries[i].index] && !Blank(entries[i].item))
    && (forall i | 0 <= i < k :: results[entries[i].index] || Waiting(pending, entries[i].index))
  }

  lemma BookResult(contents: seq<Item>, entries: seq<Entry>, k: nat, marks: seq<bool>,
                   results: seq<bool>, pending: seq<Entry>)
    requires k < |entries| && Booked(contents, entries, k, marks, results, pending)
    ensures Booked(contents, entries, k + 1, marks, results[entries[k].index := true], pending)
  {
    NewId(entries, k);
    forall i | k < i < |entries| ensures entries[i].index != entries[k].index {
      assert entries[k].item.id != entries[i].item.id;
    }
  }

  lemma BookPending(contents: seq<Item>, entries: seq<Entry>, k: nat, marks: seq<bool>,
                    results: seq<bool>, pending: seq<Entry>, e: Entry)
    requires k < |entries| && Booked(contents, entries, k, marks, results, pending)
    requires e.index == entries[k].index && e.item == entries[k].item
    ensures Booked(contents, entries, k + 1, marks, results, pending + [e])
    ensures results[entries[k].index := false] == results
  {
    NewId(entries, k);
    StillWaiting(pending, e);
  }

  /** Entries that agree with the batch; blank ids are never stored and no other id occurs twice. */
  ghost predicate Proper(contents: seq<Item>, entries: seq<Entry>) {
    && Entries(contents, entries)
    && (forall i | 0 <= i < |entries| && Blank(entries[i].item) :: entries[i].error == Some(ID_REQUIRED))
    && (forall i, j | 0 <= i < j < |entries| && !Blank(entries[i].item) :: entries[i].item.id != entries[j].item.id)
  }

  /** What failed so far has no id in common with what is still to be tried from `k` on. */
  ghost predicate Apart(contents: seq<Item>, failures: seq<Entry>, entries: seq<Entry>, k: nat) {
    && Proper(contents, failures) && Proper(contents, entries)
    && AllFailed(failures)
    && forall i, j | 0 <= i < |failures| && k <= j < |entries| && !Blank(entries[j].item) ::
         failures[i].item.id != entries[j].item.id
  }

  /** Every item of the batch is marked as stored or is still listed. */
  ghost predicate Accounted(contents: seq<Item>, results: seq<bool>, failures: seq<Entry>, entries: seq<Entry>,
                            k: nat) {
    && |results| == |contents|
    && forall i | 0 <= i < |contents| ::
         results[i] || Waiting(failures, i) || exists j | k <= j < |entries| :: entries[j].index == i
  }

  lemma MoveOn(contents: seq<Item>, results: seq<bool>, failures: seq<Entry>, entries: seq<Entry>, k: nat)
    requires k < |entries| && Apart(contents, failures, entries, k)
    requires Accounted(contents, results, failures, entries, k)
    ensures entries[k].item in contents
    ensures Apart(contents, failures, entries, k + 1)
    ensures forall f: Entry {:trigger failures + [f]} ::
              f.index == entries[k].index && f.item == entries[k].item && f.error.Some?
              && (Blank(f.item) ==> f.error.value == ID_REQUIRED) ==>
                Apart(contents, failures + [f], entries, k + 1)
                && Accounted(contents, results[f.index := false], failures + [f], entries, k + 1)
                && Accounted(contents, results, failures + [f], entries, k + 1)
    ensures Accounted(contents, results[entries[k].index := true], failures, entries, k + 1)
  {
    var e := entries[k];
    assert contents[e.index] in contents;
    forall f: Entry | f.index == e.index && f.item == e.item && f.error.Some?
                      && (Blank(f.item) ==> f.error.value == ID_REQUIRED)
      ensures Apart(contents, failures + [f], entries, k + 1)
      ensures Accounted(contents, results[f.index := false], failures + [f], entries, k + 1)
      ensures Accounted(contents, results, failures + [f], entries, k + 1)
    {
      StillWaiting(failures, f);
    }
  }

  function BlankIds(entries: seq<Entry>): set<string> {
    set e | e in entries && Blank(e.item) :: e.item.id
  }

  /** Sort the batch: later repeats of an id are marked as stored, blank ids have failed, the
      rest becomes the entries to look at. */
  method Screen(contents: seq<Item>) returns (results: seq<bool>, entries: seq<Entry>, blanks: seq<Entry>)
    ensures |results| == |contents| && Screened(contents, |contents|, results, entries, blanks)
  {
    hide Screened;
    results, entries, blanks := seq(|contents|, _ => false), [], [];
    NothingScreened(contents);
    var seen: set<string> := {};
    for k := 0 to |contents|
      invariant |results| == |contents| && Screened(contents, k, results, entries, blanks)
      invariant seen == set i | 0 <= i < k && !Blank(contents[i]) :: TrimSpace(contents[i].id)
    {
      var item := contents[k];
      var id := TrimSpace(item.id);
      if id == "" {
        ScreenBlank(contents, k, results, entries, blanks);
        results := results[k := false];
        blanks := blanks + [Entry(k, item, Some(ID_REQUIRED))];
      } else if id in seen {
        ScreenRepeat(contents, k, results, entries, blanks);
        results := results[k := true];
      } else {
        ScreenNew(contents, k, results, entries, blanks);
        seen := seen + {id};
        entries := entries + [Entry(k, item, None)];
      }
    }
  }

  lemma NothingScreened(contents: seq<Item>)
    ensures Screened(contents, 0, seq(|contents|, _ => false), [], [])
  {
  }

  lemma ScreenBlank(contents: seq<Item>, k: nat, results: seq<bool>, entries: seq<Entry>, blanks: seq<Entry>)
    requires k < |contents| == |results| && Screened(contents, k, results, entries, blanks) && Blank(contents[k])
    ensures Screened(contents, k + 1, results[k := false], entries, blanks + [Entry(k, contents[k], Some(ID_REQUIRED))])
  {
    hide TrimSpace;
    StillWaiting(blanks, Entry(k, contents[k], Some(ID_REQUIRED)));
  }

  lemma ScreenRepeat(contents: seq<Item>, k: nat, results: seq<bool>, entries: seq<Entry>, blanks: seq<Entry>)
    requires k < |contents| == |results| && Screened(contents, k, results, entries, blanks) && Repeats(contents, k)
    ensures Screened(contents, k + 1, results[k := true], entries, blanks)
  {
    hide TrimSpace;
  }

  lemma ScreenNew(contents: seq<Item>, k: nat, results: seq<bool>, entries: seq<Entry>, blanks: seq<Entry>)
    requires k < |contents| && Screened(contents, k, results, entries, blanks)
    requires !Blank(contents[k]) && !Repeats(contents, k)
    ensures Screened(contents, k + 1, results, entries + [Entry(k, contents[k], None)], blanks)
  {
    hide TrimSpace;
    StillWaiting(entries, Entry(k, contents[k], None));
  }

  lemma StillWaiting(entries: seq<Entry>, e: Entry)
    ensures Waiting(entries + [e], e.index)
    ensures forall i: nat | Waiting(entries, i) :: Waiting(entries + [e], i)
  {
    var longer := entries + [e];
    assert longer[|entries|].index == e.index;
    forall i: nat | Waiting(entries, i) ensures Waiting(longer, i) {
      var j :| 0 <= j < |entries| && entries[j].index == i;
      assert longer[j].index == i;
    }
  }

  /** The first `k` items of the batch are sorted. */
  ghost predicate Screened(contents: seq<Item>, k: nat, results: seq<bool>, entries: seq<Entry>, blanks: seq<Entry>)
    requires k <= |contents|
  {
    && |results| == |contents|
    && Entries(contents, entries) && Entries(contents, blanks)
    && (forall i | 0 <= i < |contents| && results[i] :: i < k && Repeats(contents, i))
    && (forall i | 0 <= i < |entries| :: entries[i].index < k && entries[i].error.None?
          && !Blank(entries[i].item) && !results[entries[i].index])
    && (forall i, j | 0 <= i < j < |entries| :: TrimSpace(entries[i].item.id) != TrimSpace(entries[j].item.id))
    && (forall i | 0 <= i < |blanks| ::
          blanks[i].index < k && Blank(blanks[i].item) && blanks[i].error == Some(ID_REQUIRED))
    && (forall i | 0 <= i < k :: if Blank(contents[i]) then Waiting(blanks, i) else results[i] || Waiting(entries, i))
  }

  lemma Unmarked(contents: seq<Item>, marks: seq<bool>, entries: seq<Entry>, blanks: seq<Entry>, pages: Pages)
    requires Screened(contents, |contents|, marks, entries, blanks)
    ensures Truthful(contents, marks, pages) && Booked(contents, entries, 0, marks, marks, [])
  {
    forall i, j | 0 <= i < j < |entries| ensures entries[i].item.id != entries[j].item.id {
      assert TrimSpace(entries[i].item.id) != TrimSpace(entries[j].item.id);
    }
  }

  lemma Handover(contents: seq<Item>, entries: seq<Entry>, marks: seq<bool>, results: seq<bool>,
                 pending: seq<Entry>, blanks: seq<Entry>)
    requires Screened(contents, |contents|, marks, entries, blanks)
    requires Booked(contents, entries, |entries|, marks, results, pending)
    ensures Apart(contents, blanks, pending, 0) && Accounted(contents, results, blanks, pending, 0)
    ensures (forall i | 0 <= i < |contents| :: !Blank(contents[i])) ==> blanks == []
    ensures forall i | 0 <= i < |pending| :: !Blank(pending[i].item)
    ensures forall i: nat | Waiting(blanks, i) :: i < |contents| && Blank(contents[i])
  {
    assert |blanks| > 0 ==> contents[blanks[0].index] == blanks[0].item;
    forall i | 0 <= i < |contents|
      ensures results[i] || Waiting(blanks, i) || exists j | 0 <= j < |pending| :: pending[j].index == i
    {
      if !Blank(contents[i]) && !marks[i] {
        var j :| 0 <= j < |entries| && entries[j].index == i;
        assert results[entries[j].index] || Waiting(pending, entries[j].index);
      }
    }
  }

  lemma FailuresOnly(contents: seq<Item>, results: seq<bool>, failures: seq<Entry>, pending: seq<Entry>)
    requires Apart(contents, failures, pending, |pending|)
    requires Accounted(contents, results, failures, pending, |pending|)
    ensures Apart(contents, failures, [], 0) && Accounted(contents, results, failures, [], 0)
  {
  }

  /** No entry left means that every item is marked; and once only the blank ids failed, every
      other item is. */
  lemma Conclusion(contents: seq<Item>, blanks: seq<Entry>, second: seq<bool>, failures: seq<Entry>,
                   third: seq<bool>, remaining: seq<Entry>)
    requires Accounted(contents, second, failures, [], 0) && Accounted(contents, third, remaining, [], 0)
    requires Marked(second, third)
    requires forall i: nat | Waiting(blanks, i) :: i < |contents| && Blank(contents[i])
    ensures remaining == [] ==> forall i | 0 <= i < |contents| :: third[i]
    ensures failures == blanks ==> forall i | 0 <= i < |contents| && !Blank(contents[i]) :: third[i]
  {
  }

  lemma MarkedSelf(results: seq<bool>)
    ensures Marked(results, results)
  {
  }

  ghost predicate AllFailed(entries: seq<Entry>) {
    forall i | 0 <= i < |entries| :: entries[i].error.Some?
  }

  lemma AccountedStart(contents: seq<Item>, results: seq<bool>, failures: seq<Entry>)
    requires Accounted(contents, results, failures, [], 0)
    ensures Accounted(contents, results, [], failures, 0)
    ensures BlankIds(failures) + Ids(failures[..0]) == BlankIds(failures)
  {
    assert Ids(failures[..0]) == {};
  }

  lemma AccountedEnd(contents: seq<Item>, results: seq<bool>, remaining: seq<Entry>, failures: seq<Entry>)
    requires Accounted(contents, results, remaining, failures, |failures|)
    ensures Accounted(contents, results, remaining, [], 0)
  {
  }

  lemma KeepTrying(contents: seq<Item>, results: seq<bool>, remaining: seq<Entry>, failures: seq<Entry>, k: nat)
    requires k < |failures| && Proper(contents, failures)
    requires Accounted(contents, results, remaining, failures, k)
    ensures failures[k].item in contents
    ensures !Blank(failures[k].item) ==> failures[k].item.id !in BlankIds(failures) + Ids(failures[..k])
    ensures BlankIds(failures) + Ids(failures[..k + 1])
            == BlankIds(failures) + Ids(failures[..k]) + {failures[k].item.id}
    ensures failures[k].index < |contents| == |results|
    ensures contents[failures[k].index] == failures[k].item
    ensures Accounted(contents, results[failures[k].index := true], remaining, failures, k + 1)
    ensures forall error {:trigger failures[k].(error := error)} ::
              Accounted(contents, results, remaining + [failures[k].(error := error)], failures, k + 1)
  {
    var e := failures[k];
    assert contents[e.index] in contents;
    assert failures[..k + 1] == failures[..k] + [e];
    forall error ensures Accounted(contents, results, remaining + [e.(error := error)], failures, k + 1) {
      StillWaiting(remaining, e.(error := error));
    }
  }

  /** The hits collected so far are exactly the live pages with the tag below `bound`. */
  ghost predicate Collected(pages: Pages, hits: seq<nat>, tag: Tag, bound: nat) {
    && (forall p :: p in hits ==> p in pages && pages[p].live && pages[p].tag == tag)
    && (forall p {:trigger pages[p]} :: p in pages && pages[p].live && pages[p].tag == tag && p < bound ==> p in hits)
  }

  function WithTag(pages: Pages, hits: seq<nat>, tag: Tag): (r: seq<nat>)
    requires forall p :: p in hits ==> p in pages
    ensures forall p :: p in r <==> p in hits && pages[p].tag == tag
  {
    if hits == [] then []
    else if pages[hits[0]].tag == tag then [hits[0]] + WithTag(pages, hits[1..], tag)
    else WithTag(pages, hits[1..], tag)
  }
}
