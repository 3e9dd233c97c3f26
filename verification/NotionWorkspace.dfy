/** The Notion service as the client meets it: one exchange at a time, any of which can
    fail with or without having been carried out. */
module NotionWorkspace {
  import opened Common
  import opened NotionPages

  const PAGE_SIZE: nat := 100

  /** What a successful answer to a query says about the data source. */
  ghost predicate Answers(pages: Pages, nextId: nat, r: Request, reply: Reply)
    requires r.Query? && reply.Hits?
  {
    && (forall p :: p in reply.pages ==> p in pages && r.Matches(pages[p]))
    && (reply.next.Some? ==> r.from < reply.next.value <= nextId)
    && (reply.complete ==> forall p {:trigger pages[p]} ::
          p in pages && r.Matches(pages[p]) && r.from <= p && (reply.next.Some? ==> p < reply.next.value)
          ==> p in reply.pages)
  }

  ghost predicate Below(pages: Pages, bound: nat) {
    forall p :: p in pages ==> p < bound
  }

  datatype Exchange = Exchange(request: Request, reply: Reply)

  class Workspace {
    var pages: Pages
    var nextId: nat
    // Every state the data source went through: the first one, then one for each exchange.
    var trace: seq<Pages>
    // The number of exchanges, pauses or lookups that did not succeed.
    ghost var faults: nat
    // What was sent and answered, and how many turns or pauses were given up.
    ghost var exchanges: seq<Exchange>
    ghost var givenUp: nat

    ghost predicate Valid()
      reads this`pages, this`nextId, this`trace
    {
      && (forall p :: p in pages ==> p < nextId)
      && |trace| > 0 && trace[|trace| - 1] == pages
      && forall i | 0 <= i < |trace| :: Below(trace[i], nextId)
    }

    constructor (initial: Pages, bound: nat)
      requires forall p :: p in initial ==> p < bound
      ensures Valid() && pages == initial && trace == [initial] && faults == 0
    {
      pages, nextId := initial, bound;
      trace, faults, exchanges, givenUp := [initial], 0, [], 0;
    }

    /** The caller died after the exchange recorded at position `k`: nothing later happened. */
    method Rewind(k: nat)
      requires Valid() && k < |trace|
      modifies this
      ensures Valid() && pages == old(trace[k]) && trace == old(trace[..k + 1]) && faults == old(faults)
    {
      pages, trace := trace[k], trace[..k + 1];
    }

    /** One exchange. A success was carried out; 429 and 529 were not; every other failure
        may or may not have been carried out. */
    method Send(r: Request) returns (reply: Reply)
      requires Valid() && r.Targets(pages) && r.WithinLimit()
      modifies this
      ensures exchanges == old(exchanges) + [Exchange(r, reply)] && givenUp == old(givenUp)
      ensures Valid() && trace == old(trace) + [pages]
      ensures pages == old(pages) || pages == Apply(old(pages), old(nextId), r)
      ensures nextId == if pages != old(pages) && r.Create? then old(nextId) + 1 else old(nextId)
      ensures reply.Done? || reply.Hits? ==> pages == Apply(old(pages), old(nextId), r)
      ensures reply.Hits? ==> r.Query? && Answers(pages, nextId, r, reply)
      ensures reply.Done? ==> !r.Query? && (r.Create? ==> reply.created == old(nextId))
      ensures reply == Status(429) || reply == Status(529) ==> pages == old(pages)
      ensures faults >= old(faults)
      ensures faults == old(faults) ==>
                reply.Done? || (reply.Hits? && (r.Query? && r.tags.Some? ==> reply.complete))
    {
      var applied: bool := *;
      var answered: bool := *;
      var code: nat := *;
      var broken: bool := *;
      reply := if broken then Broken else Status(code);
      if r.Query? {
        if answered {
          reply := Search(r);
        }
      } else {
        assert r.Create? ==> nextId !in pages;
        if applied && (answered || (reply != Status(429) && reply != Status(529))) {
          if answered {
            reply := Done(nextId);
          }
          pages := Apply(pages, nextId, r);
          nextId := if r.Create? then nextId + 1 else nextId;
          assert r.Create? ==> pages != old(pages);
        }
      }
      trace := trace + [pages];
      exchanges := exchanges + [Exchange(r, reply)];
      if !reply.Done? && !(reply.Hits? && (r.tags.Some? ==> reply.complete)) {
        faults := faults + 1;
      }
    }

    /** One page of search results in id order, possibly cut short by the service. */
    method Search(r: Request) returns (reply: Reply)
      requires Valid() && r.Query?
      ensures reply.Hits? && Answers(pages, nextId, r, reply)
    {
      var hits: seq<nat> := [];
      var p := r.from;
      var complete := true;
      while p < nextId && |hits| < PAGE_SIZE
        invariant r.from <= p && |hits| <= PAGE_SIZE && (p <= nextId || p == r.from)
        invariant p == r.from ==> hits == []
        invariant forall q :: q in hits ==> q in pages && r.Matches(pages[q])
        invariant complete ==> forall q {:trigger pages[q]} ::
                    q in pages && r.Matches(pages[q]) && r.from <= q < p ==> q in hits
      {
        var dropped: bool := *;
        if p in pages && r.Matches(pages[p]) {
          if dropped {
            complete := false;
          } else {
            hits := hits + [p];
          }
        }
        p := p + 1;
      }
      reply := Hits(hits, if p < nextId then Some(p) else None, complete);
    }
  }
}
