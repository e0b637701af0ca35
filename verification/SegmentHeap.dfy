/** TCP packets, and the binary heap of early arrivals as a function of the slice.
    `Up` and `Down` are the sifts of Go's container/heap over the `Less` and `Swap`
    of pkg/tcp/queue.go. */
module SegmentHeap {
  import opened Words

  datatype Flag = FIN | SYN | ACK

  datatype Packet = Packet(seqNum: U32, ackNum: U32, flags: set<Flag>, window: U16, data: seq<Byte>)

  /** One queue item: the `Priority` and `Value` of a `TCPSegmentItem`. */
  datatype Entry = Entry(priority: int, packet: Packet)

  // Go's (j - 1) / 2 truncates toward zero, so the root is its own parent.
  function Parent(j: nat): nat { if j == 0 then 0 else (j - 1) / 2 }

  function Swap(h: seq<Entry>, i: nat, j: nat): seq<Entry>
    requires i < |h| && j < |h|
  {
    h[i := h[j]][j := h[i]]
  }

  function Up(h: seq<Entry>, j: nat): (r: seq<Entry>)
    requires j < |h|
    ensures |r| == |h|
    decreases j
  {
    var i := Parent(j);
    if i == j || !(h[j].priority < h[i].priority) then h else Up(Swap(h, i, j), i)
  }

  function SmallerChild(h: seq<Entry>, i: nat, n: nat): nat
    requires 2 * i + 1 < n <= |h|
  {
    if 2 * i + 2 < n && h[2 * i + 2].priority < h[2 * i + 1].priority then 2 * i + 2 else 2 * i + 1
  }

  function Down(h: seq<Entry>, i: nat, n: nat): (r: seq<Entry>)
    requires n <= |h|
    ensures |r| == |h|
    decreases n - i
  {
    if 2 * i + 1 >= n then h
    else
      var j := SmallerChild(h, i, n);
      if !(h[j].priority < h[i].priority) then h else Down(Swap(h, i, j), j, n)
  }

  function PushEntry(h: seq<Entry>, x: Entry): seq<Entry> { Up(h + [x], |h|) }

  /** Pop swaps the root with the last item, sifts the new root down and cuts the last item off. */
  function PopEntry(h: seq<Entry>): (r: (Entry, seq<Entry>))
    requires |h| > 0
    ensures |r.1| == |h| - 1
  {
    var n := |h| - 1;
    var s := Down(Swap(h, 0, n), 0, n);
    (s[n], s[..n])
  }

  function PopAll(h: seq<Entry>): seq<Entry>
    decreases |h|
  {
    if h == [] then [] else [PopEntry(h).0] + PopAll(PopEntry(h).1)
  }

  ghost predicate OrderedUpTo(h: seq<Entry>, n: nat)
    requires n <= |h|
  {
    forall k | 0 < k < n :: h[Parent(k)].priority <= h[k].priority
  }

  ghost predicate Ordered(h: seq<Entry>) { OrderedUpTo(h, |h|) }

  // Only the edge above j may be out of order.
  ghost predicate OrderedExceptAbove(h: seq<Entry>, j: nat)
    requires j < |h|
  {
    && (forall k | 0 < k < |h| && k != j :: h[Parent(k)].priority <= h[k].priority)
    && (forall k | 0 < k < |h| && Parent(k) == j && j > 0 :: h[Parent(j)].priority <= h[k].priority)
  }

  // Only the edges below i may be out of order.
  ghost predicate OrderedExceptBelow(h: seq<Entry>, i: nat, n: nat)
    requires n <= |h|
  {
    && (forall k | 0 < k < n && Parent(k) != i :: h[Parent(k)].priority <= h[k].priority)
    && (forall k | 0 < i < k < n && Parent(k) == i :: h[Parent(i)].priority <= h[k].priority)
  }

  lemma {:induction false} UpRestores(h: seq<Entry>, j: nat)
    requires j < |h| && OrderedExceptAbove(h, j)
    ensures Ordered(Up(h, j)) && multiset(Up(h, j)) == multiset(h)
    decreases j
  {
    var i := Parent(j);
    if i != j && h[j].priority < h[i].priority {
      UpRestores(Swap(h, i, j), i);
    }
  }

  lemma SwapKeepsItems(h: seq<Entry>, i: nat, j: nat)
    requires i < |h| && j < |h|
    ensures multiset(Swap(h, i, j)) == multiset(h)
  {
  }

  // Sinking the root of a subtree below its smaller child moves the disorder one level down.
  lemma DownStep(h: seq<Entry>, i: nat, n: nat)
    requires 2 * i + 1 < n <= |h| && OrderedExceptBelow(h, i, n)
    requires h[SmallerChild(h, i, n)].priority < h[i].priority
    ensures OrderedExceptBelow(Swap(h, i, SmallerChild(h, i, n)), SmallerChild(h, i, n), n)
  {
    var j := SmallerChild(h, i, n);
    var g := Swap(h, i, j);
    assert Parent(j) == i;
    forall k | 0 < k < n && Parent(k) != j ensures g[Parent(k)].priority <= g[k].priority {
      if Parent(k) == i { assert k == 2 * i + 1 || k == 2 * i + 2; }
    }
    forall k | 0 < j < k < n && Parent(k) == j ensures g[i].priority <= g[k].priority {
      assert h[j].priority <= h[k].priority;
    }
  }

  lemma {:induction false} DownRestores(h: seq<Entry>, i: nat, n: nat)
    requires n <= |h| && OrderedExceptBelow(h, i, n)
    ensures OrderedUpTo(Down(h, i, n), n)
    decreases n - i
  {
    if 2 * i + 1 < n {
      var j := SmallerChild(h, i, n);
      if h[j].priority < h[i].priority {
        DownStep(h, i, n);
        DownRestores(Swap(h, i, j), j, n);
      } else {
        forall k | 0 < k < n && Parent(k) == i ensures h[i].priority <= h[k].priority {
          assert k == 2 * i + 1 || k == 2 * i + 2;
        }
      }
    }
  }

  lemma {:induction false} DownKeepsItems(h: seq<Entry>, i: nat, n: nat)
    requires n <= |h|
    ensures multiset(Down(h, i, n)) == multiset(h)
    ensures forall k | n <= k < |h| :: Down(h, i, n)[k] == h[k]
    decreases n - i
  {
    if 2 * i + 1 < n {
      var j := SmallerChild(h, i, n);
      if h[j].priority < h[i].priority {
        SwapKeepsItems(h, i, j);
        DownKeepsItems(Swap(h, i, j), j, n);
      }
    }
  }

  lemma {:induction false} RootIsLeast(h: seq<Entry>, k: nat)
    requires Ordered(h) && k < |h|
    ensures h[0].priority <= h[k].priority
  {
    if k > 0 { RootIsLeast(h, Parent(k)); }
  }

  lemma PushCorrect(h: seq<Entry>, x: Entry)
    requires Ordered(h)
    ensures Ordered(PushEntry(h, x))
    ensures multiset(PushEntry(h, x)) == multiset(h) + multiset{x}
  {
    UpRestores(h + [x], |h|);
  }

  lemma RootLeastEntry(h: seq<Entry>, e: Entry)
    requires Ordered(h) && e in h
    ensures h[0].priority <= e.priority
  {
    var k :| 0 <= k < |h| && h[k] == e;
    RootIsLeast(h, k);
  }

  lemma PopKeepsItems(h: seq<Entry>)
    requires |h| > 0
    ensures PopEntry(h).0 == h[0]
    ensures multiset(PopEntry(h).1) + multiset{h[0]} == multiset(h)
  {
    var n := |h| - 1;
    var g := Swap(h, 0, n);
    DownKeepsItems(g, 0, n);
    SwapKeepsItems(h, 0, n);
    var s := Down(g, 0, n);
    assert s == s[..n] + [s[n]];
  }

  lemma PopCorrect(h: seq<Entry>)
    requires |h| > 0 && Ordered(h)
    ensures PopEntry(h).0 == h[0] && Ordered(PopEntry(h).1)
    ensures multiset(PopEntry(h).1) + multiset{h[0]} == multiset(h)
  {
    PopKeepsItems(h);
    DownRestores(Swap(h, 0, |h| - 1), 0, |h| - 1);
  }

  lemma {:induction false} PopAllKeepsItems(h: seq<Entry>)
    requires Ordered(h)
    ensures multiset(PopAll(h)) == multiset(h)
    decreases |h|
  {
    if h != [] {
      PopCorrect(h);
      PopAllKeepsItems(PopEntry(h).1);
    }
  }

  ghost predicate Sorted(s: seq<Entry>) {
    forall i, j | 0 <= i < j < |s| :: s[i].priority <= s[j].priority
  }

  /** Popping a heap until it is empty lists exactly its items in priority order. */
  lemma {:induction false} PopAllSorts(h: seq<Entry>)
    requires Ordered(h)
    ensures multiset(PopAll(h)) == multiset(h) && Sorted(PopAll(h))
    decreases |h|
  {
    PopAllKeepsItems(h);
    if h != [] {
      PopCorrect(h);
      var rest := PopEntry(h).1;
      PopAllSorts(rest);
      forall j | 0 <= j < |PopAll(rest)| ensures h[0].priority <= PopAll(rest)[j].priority {
        assert PopAll(rest)[j] in multiset(PopAll(rest));
        assert PopAll(rest)[j] in multiset(rest) + multiset{h[0]};
        RootLeastEntry(h, PopAll(rest)[j]);
      }
    }
  }
}
