/** What an exporter's life looks like from outside: the joint states of the queue and Notion,
    one after the other. */
module ExportJournal {
  import opened Common
  import opened NotionPages
  import opened ExportProtocol
  import opened ExportStore

  /** The queue and what Notion holds, at one moment; `at` counts the exchanges with Notion. */
  datatype Moment = Moment(queue: Queue, pages: Pages, at: nat)

  /** Every synced row has exactly one live page, complete and under its final id. */
  ghost predicate Backed(m: Moment, exporter: string) {
    Safe(m.pages) && forall k | k in SyncedKeys(m.queue, exporter) :: Published(m.pages, k.content)
  }

  /** From one moment to the next there is one exchange with Notion, or at most one row more is
      synced. */
  ghost predicate Follows(a: Moment, b: Moment, exporter: string) {
    var before, after := SyncedKeys(a.queue, exporter), SyncedKeys(b.queue, exporter);
    || (b.at == a.at + 1 && after == before)
    || (b.at == a.at && b.pages == a.pages && (after == before || exists k :: after == before + {k}))
  }

  /** What an exporter delivers: each content with the blocks that it is converted to. */
  ghost function Renderings(blocks: string -> seq<Block>): iset<Item> {
    iset item: Item | item.blocks == blocks(item.id)
  }

  /** The moments are backed, follow each other, and agree with the exchanges; pages that are not
      in the first one hold the items. */
  ghost predicate Journal(log: seq<Moment>, exporter: string, items: iset<Item>, trace: seq<Pages>) {
    && |log| > 0
    && (forall i | 0 <= i < |log| ::
          log[i].at < |trace| && log[i].pages == trace[log[i].at]
          && Backed(log[i], exporter) && Grown(log[0].pages, log[i].pages, items))
    && forall i | 0 < i < |log| :: Follows(log[i - 1], log[i], exporter)
  }

  function Last(log: seq<Moment>): Moment
    requires |log| > 0
  {
    log[|log| - 1]
  }

  /** Since the last moment there was no exchange and no row was synced. */
  ghost predicate UpToDate(log: seq<Moment>, exporter: string, items: iset<Item>, queue: Queue,
                           trace: seq<Pages>) {
    && Journal(log, exporter, items, trace) && Last(log).at == |trace| - 1
    && SyncedKeys(Last(log).queue, exporter) == SyncedKeys(queue, exporter)
    && Last(log).queue.issued <= queue.issued
  }

  /** The exchange is among the moments from `from` on. */
  ghost predicate Logged(log: seq<Moment>, from: nat, exchange: nat) {
    exists i :: from <= i < |log| && log[i].at == exchange
  }

  /** No exchange is left out. */
  lemma {:induction false} EveryExchangeIsLogged(log: seq<Moment>, exporter: string, items: iset<Item>,
                                                 trace: seq<Pages>, n: nat, exchange: nat)
    requires Journal(log, exporter, items, trace) && n < |log| && log[n].at <= exchange <= Last(log).at
    ensures Logged(log, n, exchange)
    decreases |log|
  {
    if n == |log| - 1 || Last(log).at == exchange {
      assert Last(log) == log[|log| - 1];
    } else {
      var front := log[..|log| - 1];
      assert Follows(log[|log| - 2], log[|log| - 1], exporter);
      EveryExchangeIsLogged(front, exporter, items, trace, n, exchange);
      var i :| n <= i < |front| && front[i].at == exchange;
      assert log[i] == front[i];
    }
  }

  lemma JournalPrefix(log: seq<Moment>, exporter: string, items: iset<Item>, trace: seq<Pages>, n: nat)
    requires Journal(log, exporter, items, trace) && n < |log|
    ensures Journal(log[..n + 1], exporter, items, trace[..log[n].at + 1])
  {
    forall i | 0 <= i <= n ensures log[i].at <= log[n].at {
      Ascending(log, exporter, items, trace, i, n);
    }
  }

  lemma {:induction false} Ascending(log: seq<Moment>, exporter: string, items: iset<Item>, trace: seq<Pages>,
                                     i: nat, n: nat)
    requires Journal(log, exporter, items, trace) && i <= n < |log|
    ensures log[i].at <= log[n].at
    decreases n
  {
    if i < n {
      Ascending(log, exporter, items, trace, i, n - 1);
      assert Follows(log[n - 1], log[n], exporter);
    }
  }

  function Exchanges(queue: Queue, trace: seq<Pages>, from: nat): seq<Moment>
    requires from <= |trace|
  {
    seq(|trace| - from, i requires 0 <= i < |trace| - from => Moment(queue, trace[from + i], from + i))
  }

  lemma StillBacked(a: Moment, b: Moment, exporter: string)
    requires Backed(a, exporter) && Safe(b.pages) && Keeps(a.pages, b.pages)
    requires SyncedKeys(b.queue, exporter) == SyncedKeys(a.queue, exporter)
    ensures Backed(b, exporter)
  {
    forall k | k in SyncedKeys(b.queue, exporter) ensures Published(b.pages, k.content) {
      PublishedIsKept(a.pages, b.pages, k.content);
    }
  }

  /** Whatever a delivery did to Notion, the rows done before it stay backed at every step. */
  lemma DeliveryIsRecorded(log: seq<Moment>, exporter: string, items: iset<Item>, queue: Queue,
                           before: seq<Pages>, trace: seq<Pages>, item: Item)
    requires |before| > 0 && before <= trace && UpToDate(log, exporter, items, queue, before)
    requires GuardedFrom(before[|before| - 1], trace, |before|, iset{item}) && item in items
    ensures UpToDate(log + Exchanges(queue, trace, |before|), exporter, items, queue, trace)
  {
    var more := Exchanges(queue, trace, |before|);
    var longer := log + more;
    assert Grown(log[0].pages, Last(log).pages, items);
    forall i | 0 <= i < |more| ensures Backed(more[i], exporter) && Grown(log[0].pages, more[i].pages, items) {
      assert Grown(Last(log).pages, more[i].pages, iset{item});
      StillBacked(Last(log), more[i], exporter);
      GrownTransitive(log[0].pages, Last(log).pages, more[i].pages, items, iset{item});
    }
    hide Backed, Grown, SyncedKeys;
    forall i | 0 < i < |longer| ensures Follows(longer[i - 1], longer[i], exporter) {
      if i >= |log| {
        assert longer[i] == more[i - |log|];
        assert longer[i - 1] == if i == |log| then Last(log) else more[i - 1 - |log|];
      }
    }
  }

  /** A change of the queue, by which at most one published row becomes synced. */
  lemma ChangeIsRecorded(log: seq<Moment>, exporter: string, items: iset<Item>, was: Queue, queue: Queue,
                         trace: seq<Pages>, key: Key)
    requires |trace| > 0 && UpToDate(log, exporter, items, was, trace)
    requires SyncedKeys(queue, exporter) == SyncedKeys(was, exporter)
          || (SyncedKeys(queue, exporter) == SyncedKeys(was, exporter) + {key}
              && Published(trace[|trace| - 1], key.content))
    ensures UpToDate(log + [Moment(queue, trace[|trace| - 1], |trace| - 1)], exporter, items, queue, trace)
  {
    var next := Moment(queue, trace[|trace| - 1], |trace| - 1);
    assert Backed(Last(log), exporter);
    assert Backed(next, exporter);
    hide Backed, SyncedKeys;
    assert Follows(Last(log), next, exporter);
  }
}
