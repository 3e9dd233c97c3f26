/** Whole lives of the exporter: any number of batches, each of which may be cut short by a
    crash between two exchanges, and any number of restarts with an empty cache. */
module NotionRuns {
  import opened Common
  import opened NotionPages
  import opened NotionWorkspace
  import opened NotionClient

  datatype Event =
    | Store(contents: seq<Item>)
    | Interrupted(contents: seq<Item>, exchanges: nat)
    | Restart

  /** What the client answered to a batch, and how many states had been recorded by then. */
  datatype Answer = Answer(contents: seq<Item>, results: seq<bool>, at: nat)

  /** The item was reported as stored on its own account. */
  ghost predicate Reports(a: Answer, i: nat) {
    i < |a.contents| == |a.results| && a.results[i] && !Repeats(a.contents, i)
  }

  /** A reported item is published in every state from the answer on. */
  ghost predicate Lasting(answers: seq<Answer>, trace: seq<Pages>) {
    forall n, i: nat, t | 0 <= n < |answers| && Reports(answers[n], i) && 0 <= t < |trace| && answers[n].at <= t + 1 ::
      Published(trace[t], answers[n].contents[i].id)
  }

  /** In each of these states the one live page of a reported item is old or holds all blocks of
      an item of that id. */
  ghost predicate Complete(answers: seq<Answer>, trace: seq<Pages>, base: Pages, items: iset<Item>) {
    forall n, i: nat, t | 0 <= n < |answers| && Reports(answers[n], i) && 0 <= t < |trace| && answers[n].at <= t + 1 ::
      Shows(base, trace[t], answers[n].contents[i].id, items)
  }

  ghost predicate Given(answers: seq<Answer>, trace: seq<Pages>) {
    forall n | 0 <= n < |answers| :: answers[n].at <= |trace|
  }

  lemma LastingOn(before: seq<Pages>, base: Pages, trace: seq<Pages>, answers: seq<Answer>, fewer: iset<Item>)
    requires |before| > 0 && before[|before| - 1] == base && before <= trace
    requires GuardedFrom(base, trace, |before|, fewer)
    requires Lasting(answers, before) && Given(answers, before)
    ensures Lasting(answers, trace)
  {
    forall n, i: nat, t | 0 <= n < |answers| && Reports(answers[n], i) && 0 <= t < |trace| && answers[n].at <= t + 1
      ensures Published(trace[t], answers[n].contents[i].id)
    {
      if t < |before| {
        assert trace[t] == before[t];
      } else {
        assert Published(before[|before| - 1], answers[n].contents[i].id);
        assert Grown(base, trace[t], fewer);
        PublishedIsKept(base, trace[t], answers[n].contents[i].id);
      }
    }
  }

  lemma AnswerLasts(answers: seq<Answer>, answer: Answer, trace: seq<Pages>)
    requires |trace| > 0 && Lasting(answers, trace) && answer.at == |trace|
    requires forall i: nat | Reports(answer, i) :: Published(trace[|trace| - 1], answer.contents[i].id)
    ensures Lasting(answers + [answer], trace)
  {
  }

  /** The run so far: every recorded state is safe, keeps the first one and has only new pages
      that hold the items, and every answer still holds. */
  ghost predicate Standing(answers: seq<Answer>, trace: seq<Pages>, items: iset<Item>) {
    && |trace| > 0 && GuardedFrom(trace[0], trace, 0, items)
    && Lasting(answers, trace) && Given(answers, trace)
  }

  /** One batch handled to its end; what the client returned is added to the answers. */
  method Batch(client: Client, contents: seq<Item>, answers: seq<Answer>, ghost items: iset<Item>)
    returns (results: Option<seq<bool>>, longer: seq<Answer>)
    requires client.Valid() && Standing(answers, client.workspace.trace, items) && Of(contents) <= items
    modifies client, client.workspace
    ensures client.Valid() && old(client.workspace.trace) <= client.workspace.trace
    ensures GuardedFrom(old(client.workspace.pages), client.workspace.trace, |old(client.workspace.trace)|,
                        Of(contents))
    ensures Standing(longer, client.workspace.trace, items) && Standing(answers, client.workspace.trace, items)
    ensures longer ==
              if results.Some? then answers + [Answer(contents, results.value, |client.workspace.trace|)] else answers
    ensures client.workspace.faults >= old(client.workspace.faults)
    ensures client.workspace.faults == old(client.workspace.faults) ==> AllStored(contents, results)
  {
    hide *;
    ghost var workspace := client.workspace;
    ghost var before, base, faults := workspace.trace, workspace.pages, workspace.faults;
    LastState(client);
    var failed;
    ghost var first;
    results, failed, first := client.StoreContents(contents);
    LastState(client);
    RanGuards(client, base, before, faults, Of(contents));
    StandingGrows(answers, before, base, workspace.trace, items, Of(contents));
    if workspace.faults == faults {
      StoredMeans(contents, results);
    }
    longer := answers;
    if results.Some? {
      var answer := Answer(contents, results.value, |client.workspace.trace|);
      AnswerStands(answers, answer, workspace.trace, items);
      longer := answers + [answer];
    }
  }

  /** The client answered, and every item that has an id is marked as stored. */
  predicate AllStored(contents: seq<Item>, results: Option<seq<bool>>) {
    && results.Some? && |results.value| == |contents|
    && forall i | 0 <= i < |contents| && !Blank(contents[i]) :: results.value[i]
  }

  lemma StoredMeans(contents: seq<Item>, results: Option<seq<bool>>)
    requires results.Some? && |results.value| == |contents|
    requires forall i | 0 <= i < |contents| && !Blank(contents[i]) :: results.value[i]
    ensures AllStored(contents, results)
  {
  }

  lemma LastState(client: Client)
    requires client.Valid()
    ensures var w := client.workspace; |w.trace| > 0 && w.trace[|w.trace| - 1] == w.pages
  {
  }

  lemma RanGuards(client: Client, base: Pages, trace: seq<Pages>, faults: nat, fewer: iset<Item>)
    ensures client.Ran(base, trace, faults, fewer) ==>
              && trace <= client.workspace.trace && GuardedFrom(base, client.workspace.trace, |trace|, fewer)
              && client.workspace.faults >= faults
  {
  }

  lemma StandingGrows(answers: seq<Answer>, before: seq<Pages>, base: Pages, trace: seq<Pages>, items: iset<Item>,
                      fewer: iset<Item>)
    requires |before| > 0 && before[|before| - 1] == base && before <= trace && fewer <= items
    requires Standing(answers, before, items) && GuardedFrom(base, trace, |before|, fewer)
    ensures Standing(answers, trace, items)
  {
    LastingOn(before, base, trace, answers, fewer);
    hide Lasting, Grown;
    assert Grown(before[0], before[|before| - 1], items);
    forall t | 0 <= t < |before| ensures Grown(trace[0], trace[t], items) {
      assert trace[t] == before[t];
    }
    GuardedExtends(trace[0], base, trace, 0, |before|, items, fewer);
  }

  lemma AnswerStands(answers: seq<Answer>, answer: Answer, trace: seq<Pages>, items: iset<Item>)
    requires |trace| > 0 && Standing(answers, trace, items) && answer.at == |trace|
    requires |answer.results| == |answer.contents|
    requires forall i | 0 <= i < |answer.contents| && answer.results[i] ::
               Published(trace[|trace| - 1], answer.contents[i].id) || Repeats(answer.contents, i)
    ensures Standing(answers + [answer], trace, items)
  {
    hide Published, Repeats, Grown;
    AnswerLasts(answers, answer, trace);
  }

  /** What the answers owe to an event: a batch that the client answered has its answer among
      them, and without any fault a batch handled to its end is answered, with every item that
      has an id marked as stored. */
  ghost predicate Answered(event: Event, reply: Option<seq<bool>>, answers: seq<Answer>, faultless: bool) {
    && (reply.Some? ==> !event.Restart? && Holds(answers, event.contents, reply.value))
    && (event.Store? && faultless ==> AllStored(event.contents, reply))
  }

  ghost predicate Holds(answers: seq<Answer>, contents: seq<Item>, results: seq<bool>) {
    exists n :: 0 <= n < |answers| && answers[n].contents == contents && answers[n].results == results
  }

  lemma AnsweredStill(events: seq<Event>, replies: seq<Option<seq<bool>>>, faults: seq<nat>, answers: seq<Answer>,
                      longer: seq<Answer>)
    requires |replies| == |faults| <= |events| && answers <= longer
    requires forall k | 0 <= k < |replies| :: Answered(events[k], replies[k], answers, faults[k] == 0)
    ensures forall k | 0 <= k < |replies| :: Answered(events[k], replies[k], longer, faults[k] == 0)
  {
    forall k | 0 <= k < |replies| ensures Answered(events[k], replies[k], longer, faults[k] == 0) {
      assert Answered(events[k], replies[k], answers, faults[k] == 0);
      if replies[k].Some? {
        var n :| 0 <= n < |answers| && answers[n].contents == events[k].contents
                 && answers[n].results == replies[k].value;
        assert longer[n] == answers[n];
      }
    }
  }

  lemma AnsweredNow(event: Event, reply: Option<seq<bool>>, answers: seq<Answer>, at: nat, faultless: bool)
    requires event.Store? || event.Interrupted?
    requires event.Store? && faultless ==> AllStored(event.contents, reply)
    ensures var longer := if reply.Some? then answers + [Answer(event.contents, reply.value, at)] else answers;
      Answered(event, reply, longer, faultless)
  {
    if reply.Some? {
      assert (answers + [Answer(event.contents, reply.value, at)])[|answers|]
          == Answer(event.contents, reply.value, at);
    }
  }

  lemma NoAnswer(event: Event, answers: seq<Answer>, faultless: bool)
    ensures !event.Store? ==> Answered(event, None, answers, faultless)
  {
  }

  /** The items that the run was asked to store. */
  function Asked(events: seq<Event>): seq<Item> {
    if events == [] then []
    else
      var last := events[|events| - 1];
      Asked(events[..|events| - 1]) + if last.Restart? then [] else last.contents
  }

  lemma {:induction false} AskedAll(events: seq<Event>, k: nat)
    requires k < |events| && !events[k].Restart?
    ensures Of(events[k].contents) <= Of(Asked(events))
    decreases |events|
  {
    if k < |events| - 1 {
      AskedAll(events[..|events| - 1], k);
    }
  }

  function Total(faults: seq<nat>): nat {
    if faults == [] then 0 else Total(faults[..|faults| - 1]) + faults[|faults| - 1]
  }

  lemma OneMoreFault(faults: seq<nat>, n: nat)
    ensures Total([]) == 0 && Total(faults + [n]) == Total(faults) + n
  {
    assert (faults + [n])[..|faults|] == faults;
  }

  /** Every state of the data source in every run is safe, crashes included; older pages are
      kept, and every page that is new holds the blocks of an item the run was asked to store
      and is the only live page of its id. Whatever the client answered to a batch is among the
      answers, and what an answer reports as stored stays published in every later state. */
  method AnyRun(workspace: Workspace, retryDelay: nat, events: seq<Event>)
    returns (answers: seq<Answer>, replies: seq<Option<seq<bool>>>, ghost faults: seq<nat>)
    requires workspace.Valid() && Safe(workspace.pages) && workspace.trace == [workspace.pages]
    modifies workspace
    ensures old(workspace.trace) <= workspace.trace
    ensures GuardedFrom(old(workspace.pages), workspace.trace, 0, Of(Asked(events)))
    ensures Lasting(answers, workspace.trace)
    ensures Complete(answers, workspace.trace, old(workspace.pages), Of(Asked(events)))
    ensures |replies| == |faults| == |events| && workspace.faults == old(workspace.faults) + Total(faults)
    ensures forall k | 0 <= k < |events| :: Answered(events[k], replies[k], answers, faults[k] == 0)
  {
    hide *;
    var client := new Client(workspace, retryDelay, 0);
    ghost var items := Of(Asked(events));
    answers, replies, faults := [], [], [];
    StandingStarts(workspace.trace, workspace.pages, items);
    OneMoreFault([], 0);
    for k := 0 to |events|
      invariant client.workspace == workspace && client.Valid() && fresh(client)
      invariant old(workspace.trace) <= workspace.trace && Standing(answers, workspace.trace, items)
      invariant |replies| == |faults| == k && workspace.faults == old(workspace.faults) + Total(faults)
      invariant forall i | 0 <= i < k :: Answered(events[i], replies[i], answers, faults[i] == 0)
    {
      ghost var soFar, met := answers, workspace.faults;
      var reply: Option<seq<bool>> := None;
      NoAnswer(events[k], answers, true);
      if events[k].Restart? {
        ClientKnown(client);
        client := new Client(workspace, retryDelay, 0);
      } else {
        AskedAll(events, k);
        reply, client, answers := StoreEvent(client, events[k], retryDelay, answers, items);
      }
      AnsweredStill(events, replies, faults, soFar, answers);
      OneMoreFault(faults, workspace.faults - met);
      replies, faults := replies + [reply], faults + [workspace.faults - met];
    }
    StandingMeans(answers, workspace.trace, items);
  }

  /** A batch, cut short after the given exchanges if it has more. */
  method StoreEvent(client: Client, event: Event, retryDelay: nat, answers: seq<Answer>, ghost items: iset<Item>)
    returns (reply: Option<seq<bool>>, next: Client, longer: seq<Answer>)
    requires client.Valid() && Standing(answers, client.workspace.trace, items)
    requires !event.Restart? && Of(event.contents) <= items
    modifies client, client.workspace
    ensures next.workspace == client.workspace && next.Valid() && (next == client || fresh(next))
    ensures old(client.workspace.trace) <= client.workspace.trace && Standing(longer, client.workspace.trace, items)
    ensures GuardedFrom(old(client.workspace.pages), client.workspace.trace, |old(client.workspace.trace)|,
                        Of(event.contents))
    ensures answers <= longer && client.workspace.faults >= old(client.workspace.faults)
    ensures Answered(event, reply, longer, client.workspace.faults == old(client.workspace.faults))
  {
    hide *;
    LastState(client);
    var before := client.workspace.trace;
    ghost var base, faults := client.workspace.pages, client.workspace.faults;
    reply, longer := Batch(client, event.contents, answers, items);
    AnsweredNow(event, reply, answers, |client.workspace.trace|, client.workspace.faults == faults);
    next := client;
    if event.Interrupted? && event.exchanges < |client.workspace.trace| - |before| {
      var n := |before| + event.exchanges;
      reply, longer := None, answers;
      NoAnswer(event, answers, client.workspace.faults == faults);
      CutStands(answers, before, client.workspace.trace, n, items, base, Of(event.contents));
      ClientKnown(client);
      client.workspace.Rewind(n - 1);
      next := new Client(client.workspace, retryDelay, 0);
    }
  }

  lemma ClientKnown(client: Client)
    requires client.Valid()
    ensures client.workspace.Valid() && Safe(client.workspace.pages)
  {
  }

  lemma StandingStarts(trace: seq<Pages>, pages: Pages, items: iset<Item>)
    requires trace == [pages] && Safe(pages)
    ensures Standing([], trace, items)
  {
    GrownSelf(pages);
    GrownMore(pages, pages, items, iset{});
  }

  lemma StandingMeans(answers: seq<Answer>, trace: seq<Pages>, items: iset<Item>)
    requires Standing(answers, trace, items)
    ensures |trace| > 0 && GuardedFrom(trace[0], trace, 0, items) && Lasting(answers, trace)
    ensures Complete(answers, trace, trace[0], items)
  {
    forall n, i: nat, t | 0 <= n < |answers| && Reports(answers[n], i) && 0 <= t < |trace| && answers[n].at <= t + 1
      ensures Shows(trace[0], trace[t], answers[n].contents[i].id, items)
    {
      assert Grown(trace[0], trace[t], items) && Published(trace[t], answers[n].contents[i].id);
      GrownShows(trace[0], trace[t], answers[n].contents[i].id, items);
    }
  }

  lemma CutStands(answers: seq<Answer>, before: seq<Pages>, trace: seq<Pages>, n: nat, items: iset<Item>, base: Pages,
                  fewer: iset<Item>)
    requires 0 < |before| <= n <= |trace| && Standing(answers, before, items) && Standing(answers, trace, items)
    requires GuardedFrom(base, trace, |before|, fewer)
    ensures Standing(answers, trace[..n], items) && Safe(trace[n - 1])
    ensures GuardedFrom(base, trace[..n], |before|, fewer)
  {
    assert Grown(trace[0], trace[n - 1], items);
    hide Grown;
  }
}
