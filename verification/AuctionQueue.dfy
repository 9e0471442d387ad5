/** The live auction object and the binary heap that orders auctions by end time:
    Go's container/heap driven by AuctionQueue's own Less, Swap, Push and Pop. */
module AuctionQueue {
  import opened Bytes
  import opened Types

  /** The *OpenRFQ pointer that the open list, the open map and the heap share.
      Only the quotes and the status change after creation. */
  class Entry {
    const from: Address
    const rfqTxHash: Hash
    const request: SignableData
    const startTime: int64
    const endTime: int64
    const settlementContract: Address
    const matchingContract: Address
    const v: nat
    const r: nat
    const s: nat
    var quotes: seq<Quote>
    var status: bytes

    constructor (rec: OpenRFQ)
      ensures from == rec.from && v == rec.v && r == rec.r && s == rec.s
      ensures rfqTxHash == rec.data.rfqTxHash && request == rec.data.rfqRequest
      ensures startTime == rec.data.rfqStartTime && endTime == rec.data.rfqEndTime
      ensures settlementContract == rec.data.settlementContract
      ensures matchingContract == rec.data.matchingContract
      ensures quotes == rec.data.quotes && status == rec.data.status
    {
      from, v, r, s := rec.from, rec.v, rec.r, rec.s;
      rfqTxHash, request := rec.data.rfqTxHash, rec.data.rfqRequest;
      startTime, endTime := rec.data.rfqStartTime, rec.data.rfqEndTime;
      settlementContract, matchingContract := rec.data.settlementContract, rec.data.matchingContract;
      quotes, status := rec.data.quotes, rec.data.status;
    }

    /** The record this entry stands for when it holds the given quotes and status. */
    function Record(quotes: seq<Quote>, status: bytes): OpenRFQ {
      OpenRFQ(from,
              RFQData(rfqTxHash, request, startTime, endTime, quotes, settlementContract, matchingContract, status),
              v, r, s)
    }
  }

  /** The record holds the auction's terms, field by field, with the given quotes and status. */
  predicate Describes(t: OpenRFQ, e: Entry, quotes: seq<Quote>, status: bytes) {
    && t.from == e.from && t.v == e.v && t.r == e.r && t.s == e.s
    && t.data.rfqTxHash == e.rfqTxHash && t.data.rfqRequest == e.request
    && t.data.rfqStartTime == e.startTime && t.data.rfqEndTime == e.endTime
    && t.data.settlementContract == e.settlementContract && t.data.matchingContract == e.matchingContract
    && t.data.quotes == quotes && t.data.status == status
  }

  lemma RecordDescribes(e: Entry, quotes: seq<Quote>, status: bytes)
    ensures Describes(e.Record(quotes, status), e, quotes, status)
  {
  }

  // ---------- heap order ----------

  function Parent(k: int): int {
    (k - 1) / 2
  }

  ghost predicate Edge(q: seq<Entry>, k: int)
    requires 0 < k < |q|
  {
    q[Parent(k)].endTime <= q[k].endTime
  }

  ghost predicate HeapOrdered(q: seq<Entry>) {
    forall k :: 0 < k < |q| ==> Edge(q, k)
  }

  /** Heap order with a possibly too small element at j. */
  ghost predicate OrderedBut(q: seq<Entry>, j: int) {
    && (forall k :: 0 < k < |q| && k != j ==> Edge(q, k))
    && (forall k :: 0 < j < k < |q| && Parent(k) == j ==> q[Parent(j)].endTime <= q[k].endTime)
  }

  /** Heap order on the first n slots with a possibly too large element at i. */
  ghost predicate OrderedBelow(q: seq<Entry>, n: int, i: int)
    requires n <= |q|
  {
    && (forall k :: 0 < k < n && Parent(k) != i ==> Edge(q, k))
    && (forall k :: 0 < i < k < n && Parent(k) == i ==> q[Parent(i)].endTime <= q[k].endTime)
  }

  /** The root of a heap ends no later than any other element. */
  lemma {:induction false} RootIsMin(q: seq<Entry>, k: nat)
    requires HeapOrdered(q) && k < |q|
    ensures q[0].endTime <= q[k].endTime
  {
    if k > 0 {
      assert Edge(q, k);
      RootIsMin(q, Parent(k));
    }
  }

  function Swapped(q: seq<Entry>, i: nat, j: nat): (r: seq<Entry>)
    requires i < |q| && j < |q|
    ensures |r| == |q|
  {
    q[i := q[j]][j := q[i]]
  }

  lemma SwappedMultiset(q: seq<Entry>, i: nat, j: nat)
    requires i < |q| && j < |q|
    ensures multiset(Swapped(q, i, j)) == multiset(q)
  {
  }

  lemma SwapUp(q: seq<Entry>, j: nat)
    requires 0 < j < |q| && OrderedBut(q, j) && q[j].endTime < q[Parent(j)].endTime
    ensures OrderedBut(Swapped(q, Parent(j), j), Parent(j))
  {
    var i := Parent(j);
    var r := Swapped(q, i, j);
    forall k | 0 < k < |r| && k != i ensures Edge(r, k) {
      if k != j { assert Edge(q, k); }
    }
    if 0 < i { assert Edge(q, i); }
    forall k | 0 < i < k < |r| && Parent(k) == i ensures r[Parent(i)].endTime <= r[k].endTime {
      if k != j { assert Edge(q, k); }
    }
  }

  lemma SwapDown(q: seq<Entry>, n: int, i: nat, j: nat)
    requires FirstChild(q, n, i, j) && OrderedBelow(q, n, i) && q[j].endTime < q[i].endTime
    ensures OrderedBelow(Swapped(q, i, j), n, j)
  {
    var r := Swapped(q, i, j);
    forall k | 0 < k < n && Parent(k) != j ensures Edge(r, k) {
      if Parent(k) != i && k != i { assert Edge(q, k); }
    }
    forall k | 0 < j < k < n && Parent(k) == j ensures r[Parent(j)].endTime <= r[k].endTime {
      assert Edge(q, k);
    }
  }

  /** j is the child of i that ends first, as heap.down picks it. */
  ghost predicate FirstChild(q: seq<Entry>, n: int, i: nat, j: nat) {
    && 0 < j < n <= |q| && Parent(j) == i
    && (forall k :: 0 < k < n && Parent(k) == i ==> q[j].endTime <= q[k].endTime)
  }

  lemma PickChild(q: seq<Entry>, n: int, i: nat, j: nat)
    requires 2 * i + 1 < n <= |q|
    requires j == if 2 * i + 2 < n && q[2 * i + 2].endTime < q[2 * i + 1].endTime then 2 * i + 2 else 2 * i + 1
    ensures FirstChild(q, n, i, j)
  {
    forall k | 0 < k < n && Parent(k) == i ensures q[j].endTime <= q[k].endTime {
      assert k == 2 * i + 1 || k == 2 * i + 2;
    }
  }

  /** Sifting down may stop at a leaf, or when the first child does not end earlier. */
  lemma Settled(q: seq<Entry>, n: int, i: nat, j: nat)
    requires n <= |q| && OrderedBelow(q, n, i)
    requires n <= 2 * i + 1 || (FirstChild(q, n, i, j) && i < |q| && q[i].endTime <= q[j].endTime)
    ensures forall k :: 0 < k < n ==> Edge(q, k)
  {
  }

  lemma RootSwapped(q: seq<Entry>)
    requires q != [] && HeapOrdered(q)
    ensures OrderedBelow(Swapped(q, 0, |q| - 1), |q| - 1, 0)
    ensures forall e :: e in q ==> q[0].endTime <= e.endTime
  {
    forall e | e in q ensures q[0].endTime <= e.endTime {
      var k :| 0 <= k < |q| && q[k] == e;
      RootIsMin(q, k);
    }
    forall k | 0 < k < |q| - 1 && Parent(k) != 0 ensures Edge(Swapped(q, 0, |q| - 1), k) {
      assert Edge(q, k);
    }
  }

  lemma LastDropped(q: seq<Entry>, rest: seq<Entry>, x: Entry)
    requires q == rest + [x] && forall k :: 0 < k < |rest| ==> Edge(q, k)
    ensures HeapOrdered(rest) && multiset(q) == multiset(rest) + multiset{x}
  {
    forall k | 0 < k < |rest| ensures Edge(rest, k) {
      assert Edge(q, k);
    }
  }

  class AuctionQueue {
    var items: seq<Entry>

    constructor ()
      ensures items == []
    {
      items := [];
    }

    predicate Less(i: nat, j: nat)
      requires i < |items| && j < |items|
      reads this
    {
      items[i].endTime < items[j].endTime
    }

    method Swap(i: nat, j: nat)
      requires i < |items| && j < |items|
      modifies this
      ensures items == Swapped(old(items), i, j)
      ensures multiset(items) == multiset(old(items))
    {
      SwappedMultiset(items, i, j);
      items := items[i := items[j]][j := items[i]];
    }

    method Push(x: Entry)
      modifies this
      ensures items == old(items) + [x]
    {
      items := items + [x];
    }

    method Pop() returns (x: Entry)
      requires items != []
      modifies this
      ensures old(items) == items + [x]
    {
      var n := |items|;
      x := items[n - 1];
      items := items[0..n - 1];
    }

    /** heap.up. Go's (0 - 1) / 2 is 0, which stops the loop at the root. */
    method Up(j0: nat)
      requires j0 < |items| && OrderedBut(items, j0)
      modifies this
      ensures HeapOrdered(items) && multiset(items) == multiset(old(items))
    {
      var j: nat := j0;
      while true
        invariant j < |items| == |old(items)|
        invariant OrderedBut(items, j)
        invariant multiset(items) == multiset(old(items))
        decreases j
      {
        var i := if j == 0 then 0 else (j - 1) / 2;
        if i == j || !Less(j, i) {
          assert j > 0 ==> Edge(items, j);
          break;
        }
        SwapUp(items, j);
        Swap(i, j);
        j := i;
      }
    }

    /** heap.down on the first n slots. */
    method Down(i0: nat, n: nat)
      requires i0 < |items| && n <= |items| && OrderedBelow(items, n, i0)
      modifies this
      ensures |items| == |old(items)| && forall k :: n <= k < |items| ==> items[k] == old(items)[k]
      ensures multiset(items) == multiset(old(items))
      ensures forall k :: 0 < k < n ==> Edge(items, k)
    {
      hide OrderedBelow, Edge, FirstChild, Parent;
      var i: nat := i0;
      while true
        invariant i < |items| == |old(items)|
        invariant forall k :: n <= k < |items| ==> items[k] == old(items)[k]
        invariant OrderedBelow(items, n, i)
        invariant multiset(items) == multiset(old(items))
        decreases n - i
      {
        var j1 := 2 * i + 1;
        if j1 >= n {
          Settled(items, n, i, 0);
          break;
        }
        var j := j1;
        var j2 := j1 + 1;
        if j2 < n && Less(j2, j1) {
          j := j2;
        }
        PickChild(items, n, i, j);
        if !Less(j, i) {
          Settled(items, n, i, j);
          break;
        }
        SwapDown(items, n, i, j);
        Swap(i, j);
        i := j;
      }
    }

    /** heap.Push */
    method HeapPush(x: Entry)
      requires HeapOrdered(items)
      modifies this
      ensures HeapOrdered(items)
      ensures multiset(items) == multiset(old(items)) + multiset{x}
    {
      Push(x);
      forall k | 0 < k < |old(items)| ensures Edge(items, k) { assert Edge(old(items), k); }
      Up(|items| - 1);
    }

    /** heap.Pop: the element with the least end time leaves, the rest stay a heap. */
    method HeapPop() returns (x: Entry)
      requires items != [] && HeapOrdered(items)
      modifies this
      ensures x == old(items)[0]
      ensures forall e :: e in old(items) ==> x.endTime <= e.endTime
      ensures HeapOrdered(items)
      ensures multiset(items) == multiset(old(items)) - multiset{x}
      ensures |items| == |old(items)| - 1
    {
      var n := |items| - 1;
      RootSwapped(items);
      Swap(0, n);
      Down(0, n);
      ghost var whole := items;
      x := Pop();
      assert x == whole[n];
      LastDropped(whole, items, x);
    }
  }
}
