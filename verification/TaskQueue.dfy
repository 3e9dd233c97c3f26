/** The bounded priority queue of the task manager (internal/task/queue.go over container/heap):
    a slice-backed binary heap whose items know their own positions. */
module TaskQueue {
  import opened Common

  /** Task ids. A retry's id is its parent's with a suffix; ids from outside carry no such suffix. */
  datatype TaskId = External(name: string) | RetryOf(base: TaskId, attempt: int)

  datatype Task = Task(id: TaskId, priority: int, maxRetries: int, retryCount: int)

  class QueueItem {
    const task: Task
    const sequence: nat
    var index: int

    constructor (task: Task, sequence: nat)
      ensures this.task == task && this.sequence == sequence
    {
      this.task, this.sequence, index := task, sequence, 0;
    }
  }

  /** Higher priority first, then submission order. */
  predicate Before(a: QueueItem, b: QueueItem) {
    a.task.priority > b.task.priority || (a.task.priority == b.task.priority && a.sequence < b.sequence)
  }

  function Parent(k: nat): nat
    requires k > 0
  {
    (k - 1) / 2
  }

  ghost predicate Fine(items: seq<QueueItem>, k: nat)
    requires k < |items|
  {
    k > 0 ==> !Before(items[k], items[Parent(k)])
  }

  /** The first `n` items form a heap. */
  ghost predicate Heap(items: seq<QueueItem>, n: nat)
    requires n <= |items|
  {
    forall k: nat | k < n :: Fine(items, k)
  }

  /** A heap apart from the item at `hole`, whose children still fit below its parent. */
  ghost predicate HeapBut(items: seq<QueueItem>, n: nat, hole: nat)
    requires n <= |items|
  {
    && (forall k: nat | 0 < k < n && k != hole && Parent(k) != hole :: Fine(items, k))
    && forall k: nat | 0 < k < n && Parent(k) == hole && 0 < hole :: !Before(items[k], items[Parent(hole)])
  }

  ghost predicate ChildrenFine(items: seq<QueueItem>, n: nat, hole: nat)
    requires n <= |items|
  {
    forall k: nat | 0 < k < n && Parent(k) == hole :: Fine(items, k)
  }

  lemma BeforeIsStrict(a: QueueItem, b: QueueItem)
    ensures Before(a, b) ==> !Before(b, a)
  {
  }

  /** The root of a heap comes before everything else. */
  lemma {:induction false} RootIsFirst(items: seq<QueueItem>, n: nat, k: nat)
    requires n <= |items| && Heap(items, n) && k < n
    ensures !Before(items[k], items[0])
    decreases k
  {
    if k > 0 {
      RootIsFirst(items, n, Parent(k));
      assert Fine(items, k);
    }
  }

  class PriorityQueue {
    var items: seq<QueueItem>

    /** Every item is where its index says. */
    ghost predicate Indexed()
      reads this, items
    {
      forall k: nat | k < |items| :: items[k].index == k
    }

    ghost predicate Valid()
      reads this, items
    {
      Indexed() && Heap(items, |items|)
    }

    constructor ()
      ensures Valid() && items == []
    {
      items := [];
    }

    method Swap(i: nat, j: nat)
      requires Indexed() && i < |items| && j < |items|
      modifies this, items[i], items[j]
      ensures Indexed() && items == old(items)[i := old(items)[j]][j := old(items)[i]]
      ensures multiset(items) == old(multiset(items)) && SameItems(items, old(items))
    {
      items := items[i := items[j]][j := items[i]];
      items[i].index := i;
      items[j].index := j;
      ghost var was := old(items);
      assert forall k | 0 <= k < |was| :: was[k] == items[if k == i then j else if k == j then i else k];
    }

    /** Move the item at `start` up, within the first `n`, to where it belongs. */
    method Up(start: nat, n: nat)
      requires Indexed() && start < n <= |items|
      requires HeapBut(items, n, start) && ChildrenFine(items, n, start)
      modifies this, items
      ensures Indexed() && |items| == |old(items)| && Heap(items, n)
      ensures multiset(items) == old(multiset(items)) && SameItems(items, old(items))
      ensures forall k | n <= k < |items| :: items[k] == old(items)[k]
    {
      hide HeapBut, ChildrenFine;
      var j: nat := start;
      while true
        invariant Indexed() && j < n <= |items| == |old(items)|
        invariant multiset(items) == old(multiset(items)) && SameItems(items, old(items))
        invariant HeapBut(items, n, j) && ChildrenFine(items, n, j)
        invariant forall k | n <= k < |items| :: items[k] == old(items)[k]
        decreases j
      {
        var i: nat := if j == 0 then 0 else Parent(j);
        if i == j || !Before(items[j], items[i]) {
          break;
        }
        UpStep(items, n, j);
        Swap(i, j);
        j := i;
      }
      HoleFilled(items, n, j);
    }

    /** Move the item at `start` down within the first `n`; says whether it moved. */
    method Down(start: nat, n: nat) returns (moved: bool)
      requires Indexed() && start < n <= |items| && HeapBut(items, n, start)
      modifies this, items
      ensures Indexed() && |items| == |old(items)| && multiset(items) == old(multiset(items))
      ensures SameItems(items, old(items))
      ensures forall k | n <= k < |items| :: items[k] == old(items)[k]
      ensures moved ==> Heap(items, n)
      ensures !moved ==> items == old(items) && ChildrenFine(items, n, start)
    {
      hide HeapBut, ChildrenFine, Before, Fine, Heap, PriorityQueue.Indexed;
      var i: nat := start;
      while true
        invariant Indexed() && start <= i < n <= |items| == |old(items)|
        invariant multiset(items) == old(multiset(items)) && SameItems(items, old(items))
        invariant forall k | n <= k < |items| :: items[k] == old(items)[k]
        invariant HeapBut(items, n, i)
        invariant if i == start then items == old(items) else Fine(items, i)
        decreases n - i
      {
        var j: nat := 2 * i + 1;
        if j >= n {
          break;
        }
        if j + 1 < n && Before(items[j + 1], items[j]) {
          j := j + 1;
        }
        BeforeIsStrict(items[j], items[j - 1]);
        if !Before(items[j], items[i]) {
          NoChildFirst(items, n, i, j);
          break;
        }
        DownStep(items, n, i, j);
        Swap(i, j);
        i := j;
      }
      moved := i > start;
      NoBetterChild(items, n, i);
      if moved {
        HoleFilled(items, n, i);
      }
    }

    /** heap.Push of a new item. */
    method PushTask(task: Task, sequence: nat) returns (item: QueueItem)
      requires Valid()
      modifies this, items
      ensures Valid() && fresh(item) && item.task == task && item.sequence == sequence
      ensures multiset(items) == old(multiset(items)) + multiset{item}
      ensures |items| == |old(items)| + 1 && Members(items) == Members(old(items)) + {item}
    {
      item := new QueueItem(task, sequence);
      item.index := |items|;
      ghost var was := items;
      items := items + [item];
      PushedLast(was, items);
      Up(|items| - 1, |items|);
      assert |multiset(items)| == |items|;
    }

    /** Take the last item off the slice. */
    method Pop() returns (item: QueueItem)
      requires Indexed() && |items| > 0
      modifies this, items
      ensures Indexed() && item == old(items)[|old(items)| - 1] && items == old(items)[..|old(items)| - 1]
      ensures item.index == -1
    {
      item := items[|items| - 1];
      items := items[..|items| - 1];
      item.index := -1;
    }

    /** heap.Pop: the first item of all, which goes before or ties with every other one. */
    method PopTask() returns (task: Task, item: QueueItem)
      requires Valid() && |items| > 0
      modifies this, items
      ensures Valid() && task == item.task && item in old(items)
      ensures old(multiset(items)) == multiset(items) + multiset{item}
      ensures |items| == |old(items)| - 1 && Members(items) == Members(old(items)) - {item}
      ensures forall x :: x in old(items) ==> !Before(x, item)
    {
      ghost var was := items;
      forall k: nat | k < |was| ensures !Before(was[k], was[0]) {
        RootIsFirst(was, |was|, k);
      }
      item := RemoveAt(0);
      task := item.task;
    }

    /** Bring the item at `i` to the end and restore the heap in front of it. */
    method Detach(i: nat)
      requires Valid() && i < |items|
      modifies this, items
      ensures Indexed() && |items| == |old(items)| && Heap(items, |items| - 1)
      ensures items[|items| - 1] == old(items)[i]
      ensures multiset(items) == old(multiset(items)) && SameItems(items, old(items))
    {
      hide Heap, HeapBut, ChildrenFine;
      var n: nat := |items| - 1;
      SwapLast(items, i);
      if n != i {
        Swap(i, n);
        ghost var swapped := items;
        Settle(i, n);
        SameItemsTransitive(items, swapped, old(items));
      }
    }

    /** Down, and up if that did not move anything. */
    method Settle(i: nat, n: nat)
      requires Indexed() && i < n <= |items| && HeapBut(items, n, i)
      modifies this, items
      ensures Indexed() && |items| == |old(items)| && Heap(items, n)
      ensures multiset(items) == old(multiset(items)) && SameItems(items, old(items))
      ensures forall k | n <= k < |items| :: items[k] == old(items)[k]
    {
      hide Heap, HeapBut, ChildrenFine;
      var moved := Down(i, n);
      if !moved {
        Up(i, n);
      }
    }

    /** heap.Remove, which for position 0 is also what heap.Pop does. */
    method RemoveAt(i: nat) returns (item: QueueItem)
      requires Valid() && i < |items|
      modifies this, items
      ensures Valid() && item == old(items)[i] && item.index == -1
      ensures old(multiset(items)) == multiset(items) + multiset{item}
      ensures |items| == |old(items)| - 1 && Members(items) == Members(old(items)) - {item} && item in old(items)
    {
      hide Heap;
      Detach(i);
      ghost var n: nat := |items| - 1;
      assert items == items[..n] + [items[n]];
      TakenLast(items, n);
      ghost var all := items;
      item := Pop();
      forall x ensures x in items <==> x in all && x != item {
        assert x in items ==> x.index != -1;
        assert all == items + [item];
      }
    }

    /** Remove the queued task with the given id, if there is one. */
    method RemoveTask(id: TaskId) returns (removed: bool, item: Option<QueueItem>)
      requires Valid()
      modifies this, items
      ensures Valid() && removed == (exists x :: x in old(items) && x.task.id == id) == item.Some?
      ensures removed ==> item.value in old(items) && item.value.task.id == id
      ensures removed ==> old(multiset(items)) == multiset(items) + multiset{item.value}
      ensures removed ==> |items| == |old(items)| - 1 && Members(items) == Members(old(items)) - {item.value}
      ensures !removed ==> items == old(items)
    {
      for k := 0 to |items|
        invariant Valid() && items == old(items) && forall i | 0 <= i < k :: items[i].task.id != id
      {
        if items[k].task.id == id {
          assert items[k] in items;
          var taken := RemoveAt(items[k].index);
          return true, Some(taken);
        }
      }
      removed, item := false, None;
    }
  }

  lemma PushedLast(before: seq<QueueItem>, after: seq<QueueItem>)
    requires Heap(before, |before|) && |after| == |before| + 1 && after[..|before|] == before
    ensures HeapBut(after, |after|, |before|) && ChildrenFine(after, |after|, |before|)
  {
    forall k: nat | 0 < k < |before| ensures Fine(after, k) {
      assert Fine(before, k) && after[k] == before[k] && after[Parent(k)] == before[Parent(k)];
    }
  }

  /** Putting the last item in place of another one leaves a heap but for that place. */
  lemma SwapLast(items: seq<QueueItem>, i: nat)
    requires i < |items| && Heap(items, |items|)
    ensures i != |items| - 1 ==> HeapBut(Swapped(items, i, |items| - 1), |items| - 1, i)
    ensures Heap(items, |items| - 1)
  {
    var n := |items| - 1;
    var next := Swapped(items, i, n);
    forall k: nat | 0 < k < n && Parent(k) == i && 0 < i ensures !Before(next[k], next[Parent(i)]) {
      assert Fine(items, k) && Fine(items, i);
    }
    forall k: nat | 0 < k < n && k != i && Parent(k) != i ensures Fine(next, k) {
      assert Fine(items, k);
    }
  }

  lemma TakenLast(items: seq<QueueItem>, n: nat)
    requires |items| == n + 1 && Heap(items, n)
    ensures Heap(items[..n], n)
  {
    forall k: nat | k < n ensures Fine(items[..n], k) {
      assert Fine(items, k);
    }
  }

  function Members(items: seq<QueueItem>): set<QueueItem> {
    set x | x in items
  }

  ghost predicate SameItems(a: seq<QueueItem>, b: seq<QueueItem>) {
    && (forall i | 0 <= i < |a| :: a[i] in b)
    && (forall i | 0 <= i < |b| :: b[i] in a)
  }

  lemma SameItemsTransitive(a: seq<QueueItem>, b: seq<QueueItem>, c: seq<QueueItem>)
    requires SameItems(a, b) && SameItems(b, c)
    ensures SameItems(a, c)
  {
  }

  function Swapped(items: seq<QueueItem>, i: nat, j: nat): seq<QueueItem>
    requires i < |items| && j < |items|
  {
    items[i := items[j]][j := items[i]]
  }

  lemma UpStep(items: seq<QueueItem>, n: nat, j: nat)
    requires 0 < j < n <= |items| && Before(items[j], items[Parent(j)])
    requires HeapBut(items, n, j) && ChildrenFine(items, n, j)
    ensures var next := Swapped(items, Parent(j), j);
      HeapBut(next, n, Parent(j)) && ChildrenFine(next, n, Parent(j))
  {
  }

  lemma HoleFilled(items: seq<QueueItem>, n: nat, hole: nat)
    requires hole < n <= |items| && HeapBut(items, n, hole) && ChildrenFine(items, n, hole) && Fine(items, hole)
    ensures Heap(items, n)
  {
  }

  /** `j` is the child of `i` that goes first. */
  ghost predicate FirstChild(items: seq<QueueItem>, n: nat, i: nat, j: nat)
    requires n <= |items|
  {
    && i < j < n && (j == 2 * i + 1 || j == 2 * i + 2)
    && (j == 2 * i + 2 ==> !Before(items[j - 1], items[j]))
    && (j == 2 * i + 1 && j + 1 < n ==> !Before(items[j + 1], items[j]))
  }

  lemma NoChildFirst(items: seq<QueueItem>, n: nat, i: nat, j: nat)
    requires n <= |items| && FirstChild(items, n, i, j) && !Before(items[j], items[i])
    ensures ChildrenFine(items, n, i)
  {
    forall k: nat | 0 < k < n && Parent(k) == i ensures Fine(items, k) {
      assert k == j || k == j - 1 || k == j + 1;
    }
  }

  /** The first child may change places with its parent if it goes before it. */
  lemma DownStep(items: seq<QueueItem>, n: nat, i: nat, j: nat)
    requires n <= |items| && HeapBut(items, n, i) && FirstChild(items, n, i, j) && Before(items[j], items[i])
    ensures HeapBut(Swapped(items, i, j), n, j) && Fine(Swapped(items, i, j), j)
  {
    var next := Swapped(items, i, j);
    forall k: nat | 0 < k < n && k != j && Parent(k) != j ensures Fine(next, k) {
      if Parent(k) == i {
        assert k == j - 1 || k == j + 1;
      } else if k != i {
        assert Fine(items, k);
      }
    }
    forall k: nat | 0 < k < n && Parent(k) == j ensures !Before(next[k], next[i]) {
      assert k != i && Fine(items, k);
    }
  }

  lemma NoBetterChild(items: seq<QueueItem>, n: nat, i: nat)
    requires i < n <= |items|
    ensures 2 * i + 1 >= n ==> ChildrenFine(items, n, i)
  {
  }
}
