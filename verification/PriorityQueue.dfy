/** The early-arrival queue of pkg/tcp/queue.go: a slice of pointers to items that
    carry their own position, kept as a heap by the sifts of container/heap. */
module PriorityQueues {
  import opened SegmentHeap

  class SegmentItem {
    var index: int
    const priority: int
    const packet: Packet

    constructor (priority: int, packet: Packet)
      ensures this.priority == priority && this.packet == packet
    {
      this.index := 0;
      this.priority := priority;
      this.packet := packet;
    }

    function AsEntry(): Entry { Entry(priority, packet) }
  }

  class PriorityQueue {
    var items: seq<SegmentItem>

    // Every item knows its own position, hence no item is in the slice twice.
    ghost predicate Valid()
      reads this, items
    {
      forall i | 0 <= i < |items| :: items[i].index == i
    }

    function Entries(): (h: seq<Entry>)
      reads this
      ensures |h| == |items|
    {
      seq(|items|, i requires 0 <= i < |items| reads this => items[i].AsEntry())
    }

    constructor ()
      ensures Valid() && items == []
    {
      items := [];
    }

    method Less(i: nat, j: nat) returns (less: bool)
      requires i < |items| && j < |items|
      ensures less == (Entries()[i].priority < Entries()[j].priority)
    {
      less := items[i].priority < items[j].priority;
    }

    method Swap(i: nat, j: nat)
      requires Valid() && i < |items| && j < |items|
      modifies this, items
      ensures Valid() && Entries() == SegmentHeap.Swap(old(Entries()), i, j)
      ensures multiset(items) == old(multiset(items))
    {
      items := items[i := items[j]][j := items[i]];
      items[i].index := i;
      items[j].index := j;
    }

    method Push(item: SegmentItem)
      requires Valid() && item !in items
      modifies this, item
      ensures Valid() && items == old(items) + [item]
      ensures Entries() == old(Entries()) + [item.AsEntry()]
    {
      item.index := |items|;
      items := items + [item];
    }

    method Pop() returns (item: SegmentItem)
      requires Valid() && |items| > 0
      modifies this, items
      ensures Valid() && items == old(items[..|items| - 1]) && item == old(items[|items| - 1])
      ensures Entries() == old(Entries())[..old(|items|) - 1] && item.index == -1
    {
      var n := |items|;
      item := items[n - 1];
      item.index := -1;
      items := items[..n - 1];
    }
  }

  lemma SameItems(a: seq<SegmentItem>, b: seq<SegmentItem>)
    requires multiset(a) == multiset(b)
    ensures forall i | 0 <= i < |a| :: a[i] in b
  {
    forall i | 0 <= i < |a| ensures a[i] in b { assert a[i] in multiset(a); }
  }

  /** container/heap up: swap item `start` with its parent while it is less. */
  method SiftUp(q: PriorityQueue, start: nat)
    requires q.Valid() && start < |q.items|
    modifies q, q.items
    ensures q.Valid() && q.Entries() == Up(old(q.Entries()), start)
    ensures multiset(q.items) == old(multiset(q.items))
  {
    var j := start;
    var i := Parent(j);
    var less := q.Less(j, i);
    while i != j && less
      invariant q.Valid() && 0 <= j < |q.items| && i == Parent(j)
      invariant less == (q.Entries()[j].priority < q.Entries()[i].priority)
      invariant Up(q.Entries(), j) == Up(old(q.Entries()), start)
      invariant multiset(q.items) == old(multiset(q.items))
      decreases j
    {
      SameItems(q.items, old(q.items));
      q.Swap(i, j);
      j := i;
      i := Parent(j);
      less := q.Less(j, i);
    }
  }

  /** container/heap down: swap item 0 with its smaller child among the first n while that child is less. */
  method SiftDown(q: PriorityQueue, n: nat)
    requires q.Valid() && 0 < |q.items| && n <= |q.items|
    modifies q, q.items
    ensures q.Valid() && q.Entries() == Down(old(q.Entries()), 0, n)
    ensures multiset(q.items) == old(multiset(q.items))
  {
    var i, done := 0, false;
    while !done && 2 * i + 1 < n
      invariant q.Valid() && i < |q.items| == old(|q.items|)
      invariant !done ==> Down(q.Entries(), i, n) == Down(old(q.Entries()), 0, n)
      invariant done ==> q.Entries() == Down(old(q.Entries()), 0, n)
      invariant multiset(q.items) == old(multiset(q.items))
      decreases !done, n - i
    {
      SameItems(q.items, old(q.items));
      var j := 2 * i + 1;
      if j + 1 < n {
        var right := q.Less(j + 1, j);
        if right { j := j + 1; }
      }
      assert j == SmallerChild(q.Entries(), i, n);
      var less := q.Less(j, i);
      if less {
        q.Swap(i, j);
        i := j;
      } else {
        done := true;
      }
    }
  }

  method HeapPush(q: PriorityQueue, item: SegmentItem)
    requires q.Valid() && item !in q.items
    modifies q, q.items, item
    ensures q.Valid() && q.Entries() == PushEntry(old(q.Entries()), item.AsEntry())
    ensures multiset(q.items) == old(multiset(q.items)) + multiset{item}
  {
    q.Push(item);
    SiftUp(q, |q.items| - 1);
  }

  method HeapPop(q: PriorityQueue) returns (item: SegmentItem)
    requires q.Valid() && |q.items| > 0
    modifies q, q.items
    ensures q.Valid() && item.AsEntry() == PopEntry(old(q.Entries())).0
    ensures q.Entries() == PopEntry(old(q.Entries())).1
    ensures multiset(q.items) + multiset{item} == old(multiset(q.items)) && item.index == -1
  {
    var n := |q.items| - 1;
    q.Swap(0, n);
    SameItems(q.items, old(q.items));
    SiftDown(q, n);
    SameItems(q.items, old(q.items));
    assert q.items == q.items[..n] + [q.items[n]];
    item := q.Pop();
  }
}
