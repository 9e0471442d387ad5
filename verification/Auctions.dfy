/** The auction half of the Blockchain object: the fields and tables that hold
    RFQs, and the methods that change them in place. Each method is tied to the
    steps of AuctionMachine, so every state the object can be in is the state
    after a run. */
module Auctions {
  import opened Bytes
  import opened Types
  import opened AuctionQueue
  import opened AuctionMachine
  import opened AuctionTheorems
  import opened AuctionObjects
  import opened AuctionHistory
  import opened AuctionClock

  /** A transaction as WriteRFQTxs sees it. An OpenRFQ transaction carries a pointer to its data. */
  datatype Tx =
    | RequestTx(hash: Hash, request: RFQRequest)
    | OpenTx(entry: Entry)
    | QuoteTx(quote: Quote)
    | OtherTx

  /** Settlement and matching contract of every auction the server opens. */
  const CONTRACT: Address :=
    [0xA0, 0xb8, 0x69, 0x91, 0xc6, 0x21, 0x8b, 0x36, 0xc1, 0xd1,
     0x9D, 0x4a, 0x2e, 0x9E, 0xb0, 0xcE, 0x36, 0x06, 0xeB, 0x48]

  /** What the quote handler does to the state when it accepts. */
  ghost function Answered(s: State, q: Quote): State {
    var h := q.data.rfqTxHash;
    if h in s.byHash && s.byHash[h] !in s.bodies then s else UpdateEffect(QuoteEffect(s, q), h, Unsigned(q))
  }

  /** One undisturbed run of the quote handler. */
  lemma Posted(steps: seq<Step>, q: Quote)
    requires Run(steps) && After(steps).posting == multiset{}
    ensures var s, h := After(steps), q.data.rfqTxHash;
      && HeapOrdered(s.queue) && (h in s.byHash ==> s.byHash[h] in s.bodies)
      && Run(steps + [WriteQuote(q)] + [UpdateActive(Unsigned(q))])
      && After(steps + [WriteQuote(q)] + [UpdateActive(Unsigned(q))]) == Answered(s, q)
  {
    EveryRun(steps);
    Extend(steps, WriteQuote(q));
    assert After(steps + [WriteQuote(q)]).posting == multiset{Unsigned(q)};
    Extend(steps + [WriteQuote(q)], UpdateActive(Unsigned(q)));
  }

  lemma FirstIsKnown(steps: seq<Step>)
    requires Run(steps)
    ensures HeapOrdered(After(steps).queue)
    ensures After(steps).queue != [] ==> After(steps).queue[0] in After(steps).bodies
  {
    EveryRun(steps);
    if After(steps).queue != [] {
      assert After(steps).queue[0] in After(steps).queue;
    }
  }

  /** The state after one undisturbed turn of the timer loop that leaves the heap as `layout`. */
  ghost function Turned(s: State, layout: seq<Entry>, c: Entry): State
    requires s.queue != [] && s.queue[0] in s.bodies
  {
    var body := s.bodies[s.queue[0]].(status := CLOSED);
    CloseEffect(s.(queue := layout, bodies := s.bodies[s.queue[0] := body][c := body]), c, body)
      .(events := s.events + [c])
  }

  function Turn(steps: seq<Step>, layout: seq<Entry>, c: Entry): seq<Step> {
    steps + [Pop(layout)] + [Copy(c)] + [Commit] + [Emit]
  }

  lemma Closing(steps: seq<Step>, layout: seq<Entry>, c: Entry)
    requires Run(steps) && After(steps).timer.Passing? && Enabled(After(steps), Pop(layout))
    requires c !in After(steps).bodies && SameTerms(c, After(steps).queue[0])
    ensures After(steps).queue[0] in After(steps).bodies
    ensures Run(Turn(steps, layout, c)) && After(Turn(steps, layout, c)) == Turned(After(steps), layout, c)
  {
    hide Run, After, HeapOrdered, SameTerms, RemoveFirst;
    FirstIsKnown(steps);
    Extend(steps, Pop(layout));
    Extend(steps + [Pop(layout)], Copy(c));
    Extend(steps + [Pop(layout)] + [Copy(c)], Commit);
    Extend(steps + [Pop(layout)] + [Copy(c)] + [Commit], Emit);
  }

  /** Going from one run to the other opens nothing and accepts no quote late. */
  ghost predicate Quiet(before: seq<Step>, steps: seq<Step>) {
    && Run(before) && Run(steps) && Opened(steps) == Opened(before)
    && (Undisturbed(before) ==> Undisturbed(steps))
  }

  lemma QuietStep(steps: seq<Step>, step: Step)
    requires Run(steps) && Enabled(After(steps), step) && !step.Open? && !step.UpdateActive?
    ensures Quiet(steps, steps + [step])
  {
    Extend(steps, step);
    assert Front(steps + [step]) == steps && Last(steps + [step]) == step;
  }

  lemma QuietTurn(steps: seq<Step>, layout: seq<Entry>, c: Entry)
    requires Run(steps) && After(steps).timer.Passing? && Enabled(After(steps), Pop(layout))
    requires c !in After(steps).bodies && SameTerms(c, After(steps).queue[0])
    ensures Quiet(steps, Turn(steps, layout, c))
  {
    hide Run, After, HeapOrdered, SameTerms, RemoveFirst, Opened, Undisturbed;
    FirstIsKnown(steps);
    Extend(steps, Pop(layout));
    QuietStep(steps, Pop(layout));
    Extend(steps + [Pop(layout)], Copy(c));
    QuietStep(steps + [Pop(layout)], Copy(c));
    Extend(steps + [Pop(layout)] + [Copy(c)], Commit);
    QuietStep(steps + [Pop(layout)] + [Copy(c)], Commit);
    QuietStep(steps + [Pop(layout)] + [Copy(c)] + [Commit], Emit);
  }

  /** The auctions a pass has taken from the heap so far, and their closed copies. */
  ghost predicate Taken(before: seq<Entry>, queue: seq<Entry>, auctions: seq<Entry>, copies: seq<Entry>, now: int64) {
    && multiset(before) == multiset(queue) + multiset(auctions)
    && ByEnd(auctions) && (forall e :: e in auctions ==> e.endTime <= now)
    && (forall e, q :: e in auctions && q in queue ==> e.endTime <= q.endTime)
    && |copies| == |auctions| && (forall i :: 0 <= i < |copies| ==> SameTerms(copies[i], auctions[i]))
  }

  lemma TakenNone(queue: seq<Entry>, now: int64)
    ensures Taken(queue, queue, [], [], now)
  {
  }

  lemma QuietTwice(a: seq<Step>, b: seq<Step>, c: seq<Step>)
    requires Quiet(a, b) && Quiet(b, c)
    ensures Quiet(a, c)
  {
  }

  lemma TakeNext(
    before: seq<Entry>, queue: seq<Entry>, rest: seq<Entry>, auctions: seq<Entry>, copies: seq<Entry>, now: int64, c: Entry)
    requires Taken(before, queue, auctions, copies, now)
    requires queue != [] && HeapOrdered(queue) && multiset(rest) == multiset(queue) - multiset{queue[0]}
    requires queue[0].endTime <= now && SameTerms(c, queue[0])
    ensures Taken(before, rest, auctions + [queue[0]], copies + [c], now)
  {
    hide HeapOrdered, ByEnd, SameTerms;
    assert queue[0] in queue;
    NextDue(queue, rest, auctions);
  }

  lemma NextDue(queue: seq<Entry>, rest: seq<Entry>, auctions: seq<Entry>)
    requires queue != [] && HeapOrdered(queue) && multiset(rest) == multiset(queue) - multiset{queue[0]}
    requires ByEnd(auctions) && forall e, q :: e in auctions && q in queue ==> e.endTime <= q.endTime
    ensures ByEnd(auctions + [queue[0]])
    ensures forall e, q :: e in auctions + [queue[0]] && q in rest ==> e.endTime <= q.endTime
  {
    assert queue[0] in queue;
    MultisetWithin(rest, queue, queue[0]);
    forall q | q in queue ensures queue[0].endTime <= q.endTime {
      var k :| 0 <= k < |queue| && queue[k] == q;
      RootIsMin(queue, k);
    }
  }

  /** Where the first auction with the hash is, if there is one. */
  lemma {:induction false} FirstAt(es: seq<Entry>, h: Hash, i: nat)
    requires i <= |es| && (i < |es| ==> es[i].rfqTxHash == h)
    requires forall j :: 0 <= j < i ==> es[j].rfqTxHash != h
    ensures RemoveFirst(es, h) == if i < |es| then es[..i] + es[i + 1..] else es
  {
    if i > 0 {
      FirstAt(es[1..], h, i - 1);
      assert es == [es[0]] + es[1..];
      if i < |es| {
        assert es[..i] + es[i + 1..] == [es[0]] + (es[1..][..i - 1] + es[1..][i..]);
      }
    }
  }

  /** Closing touches neither the heap nor the objects nor the events. */
  lemma CloseKeeps(s: State, c: Entry, body: Body)
    ensures var r := CloseEffect(s, c, body);
      r.queue == s.queue && r.bodies == s.bodies && r.events == s.events && r.timer == s.timer && r.posting == s.posting
  {
  }

  class Auctions {
    var openRFQS: seq<Entry>
    var openRFQsMap: map<Hash, Entry>
    const auctionQueue: AuctionQueue
    var closedRFQS: seq<Entry>
    var rfqRequestsTable: map<Hash, RFQRequest>
    var openRFQSTable: map<Hash, OpenRFQ>
    var closedRFQSTable: map<Hash, OpenRFQ>
    var quotesTable: map<Hash, seq<Quote>>
    var events: seq<Entry>

    /** The state of the step system, and the run that led to it. */
    ghost var state: State
    ghost var steps: seq<Step>

    /** Every object the run knows holds the quotes and the status the run gave it. */
    static ghost predicate InStep(bodies: map<Entry, Body>)
      reads bodies.Keys
    {
      forall e :: e in bodies ==> e.quotes == bodies[e].quotes && e.status == bodies[e].status
    }

    static lemma InStepOne(bodies: map<Entry, Body>, e: Entry)
      requires InStep(bodies)
      ensures InStep(bodies[e := Body(e.quotes, e.status)])
    {
    }

    ghost predicate Coupled()
      reads this, auctionQueue, state.bodies.Keys
    {
      && state.open == openRFQS && state.byHash == openRFQsMap && state.queue == auctionQueue.items
      && state.closed == closedRFQS && state.events == events
      && state.openTable == openRFQSTable && state.closedTable == closedRFQSTable && state.quotesTable == quotesTable
      && InStep(state.bodies)
    }

    ghost predicate Valid()
      reads this, auctionQueue, state.bodies.Keys
    {
      Coupled() && Run(steps) && state == After(steps) && state.timer.Idle? && state.posting == multiset{}
    }

    constructor ()
      ensures Valid() && steps == [] && state == INIT && fresh(auctionQueue)
    {
      openRFQS, openRFQsMap, closedRFQS, events := [], map[], [], [];
      rfqRequestsTable, openRFQSTable, closedRFQSTable, quotesTable := map[], map[], map[], map[];
      auctionQueue := new AuctionQueue();
      state, steps := INIT, [];
    }

    /** The first listed auction with the hash leaves the list. */
    method Unlist(h: Hash)
      modifies this`openRFQS
      ensures openRFQS == RemoveFirst(old(openRFQS), h)
    {
      hide RemoveFirst;
      ghost var before := openRFQS;
      for i := 0 to |openRFQS|
        invariant openRFQS == before && forall j :: 0 <= j < i ==> before[j].rfqTxHash != h
      {
        if openRFQS[i].rfqTxHash == h {
          openRFQS := openRFQS[..i] + openRFQS[i + 1..];
          FirstAt(before, h, i);
          return;
        }
      }
      FirstAt(before, h, |before|);
    }

    /** Stores a transaction in its table; an OpenRFQ also enters or leaves the open list, map and heap. */
    method WriteRFQTxs(tx: Tx) returns (ok: bool)
      requires Coupled() && HeapOrdered(auctionQueue.items)
      modifies this, auctionQueue
      ensures Coupled() && HeapOrdered(auctionQueue.items) && steps == old(steps)
      ensures !tx.RequestTx? ==> rfqRequestsTable == old(rfqRequestsTable)
      ensures tx.RequestTx? ==>
        ok && state == old(state) && rfqRequestsTable == old(rfqRequestsTable)[tx.hash := tx.request]
      ensures tx.QuoteTx? ==> ok && state == QuoteEffect(old(state), tx.quote)
      ensures tx.QuoteTx? ==>
        var h := tx.quote.data.rfqTxHash;
        quotesTable == old(quotesTable)[h := (if h in old(quotesTable) then old(quotesTable)[h] else []) + [tx.quote]]
      ensures tx.OpenTx? && tx.entry.status == OPEN ==>
        && ok && multiset(auctionQueue.items) == multiset(old(auctionQueue.items)) + multiset{tx.entry}
        && state == OpenEffect(old(state), tx.entry, Body(tx.entry.quotes, OPEN), auctionQueue.items)
      ensures tx.OpenTx? && tx.entry.status == CLOSED ==>
        ok && state == CloseEffect(old(state), tx.entry, Body(tx.entry.quotes, CLOSED))
      ensures tx.OtherTx? || (tx.OpenTx? && tx.entry.status != OPEN && tx.entry.status != CLOSED) ==>
        !ok && state == old(state)
    {
      match tx
      case RequestTx(hash, request) =>
        rfqRequestsTable := rfqRequestsTable[hash := request];
        ok := true;
      case QuoteTx(quote) =>
        var h := quote.data.rfqTxHash;
        var existing := if h in quotesTable then quotesTable[h] else [];
        quotesTable := quotesTable[h := existing + [quote]];
        state := QuoteEffect(state, quote);
        ok := true;
      case OpenTx(e) =>
        if e.status == OPEN {
          WriteOpen(e);
          ok := true;
        } else if e.status == CLOSED {
          WriteClosed(e);
          ok := true;
        } else {
          ok := false;
        }
      case OtherTx =>
        ok := false;
    }

    method WriteOpen(e: Entry)
      requires Coupled() && HeapOrdered(auctionQueue.items) && e.status == OPEN
      modifies this`openRFQS, this`openRFQsMap, this`openRFQSTable, this`state, auctionQueue
      ensures Coupled() && HeapOrdered(auctionQueue.items)
      ensures multiset(auctionQueue.items) == multiset(old(auctionQueue.items)) + multiset{e}
      ensures state == OpenEffect(old(state), e, Body(e.quotes, OPEN), auctionQueue.items)
      ensures e.rfqTxHash in openRFQSTable && Describes(openRFQSTable[e.rfqTxHash], e, e.quotes, OPEN)
      ensures forall h :: h != e.rfqTxHash ==>
        (h in openRFQSTable) == (h in old(openRFQSTable)) && (h in openRFQSTable ==> openRFQSTable[h] == old(openRFQSTable)[h])
    {
      hide HeapOrdered, InStep, Describes;
      RecordDescribes(e, e.quotes, e.status);
      ghost var bodies := state.bodies[e := Body(e.quotes, OPEN)];
      InStepOne(state.bodies, e);
      auctionQueue.HeapPush(e);
      assert InStep(bodies);
      openRFQS := openRFQS + [e];
      openRFQsMap := openRFQsMap[e.rfqTxHash := e];
      openRFQSTable := openRFQSTable[e.rfqTxHash := e.Record(e.quotes, e.status)];
      state := OpenEffect(state, e, Body(e.quotes, OPEN), auctionQueue.items);
    }

    method WriteClosed(e: Entry)
      requires Coupled() && e.status == CLOSED
      modifies this`openRFQS, this`openRFQsMap, this`closedRFQS, this`closedRFQSTable, this`state
      ensures Coupled()
      ensures state == CloseEffect(old(state), e, Body(e.quotes, CLOSED))
      ensures e.rfqTxHash in closedRFQSTable && Describes(closedRFQSTable[e.rfqTxHash], e, e.quotes, CLOSED)
      ensures forall h :: h != e.rfqTxHash ==>
        (h in closedRFQSTable) == (h in old(closedRFQSTable))
        && (h in closedRFQSTable ==> closedRFQSTable[h] == old(closedRFQSTable)[h])
    {
      closedRFQSTable := closedRFQSTable[e.rfqTxHash := e.Record(e.quotes, e.status)];
      Unlist(e.rfqTxHash);
      openRFQsMap := openRFQsMap - {e.rfqTxHash};
      closedRFQS := closedRFQS + [e];
      state := CloseEffect(state, e, Body(e.quotes, CLOSED));
    }

    /** Appends a quote to the live auction of that hash, or refuses. */
    method UpdateActiveRFQ(rfqTxHash: Hash, quote: Quote) returns (ok: bool)
      requires Coupled() && (rfqTxHash in openRFQsMap ==> openRFQsMap[rfqTxHash] in state.bodies)
      modifies this`state, state.bodies.Keys
      ensures Coupled() && ok == (rfqTxHash in openRFQsMap)
      ensures state == UpdateEffect(old(state), rfqTxHash, quote)
      ensures ok ==> openRFQsMap[rfqTxHash].quotes == old(openRFQsMap[rfqTxHash].quotes) + [quote]
    {
      if rfqTxHash !in openRFQsMap {
        return false;
      }
      var openRFQ := openRFQsMap[rfqTxHash];
      openRFQ.quotes := openRFQ.quotes + [quote];
      state := UpdateEffect(state, rfqTxHash, quote);
      ok := true;
    }

    /** The server opens an auction for a verified request: the record it builds enters the book. */
    method HandleRFQRequest(now: int64, txHash: Hash, request: SignableData, from: Address, v: nat, r: nat, s: nat)
      returns (e: Entry)
      requires Valid()
      modifies this, auctionQueue
      ensures Valid() && fresh(e) && e.rfqTxHash == txHash && e.request == request && e.startTime == now
      ensures e.endTime == EndTime(now, request.rfqDurationMs)
      ensures e.from == from && e.v == v && e.r == r && e.s == s && e.quotes == [] && e.status == OPEN
      ensures e.settlementContract == CONTRACT && e.matchingContract == CONTRACT
      ensures state == OpenEffect(old(state), e, Body([], OPEN), auctionQueue.items)
      ensures steps == old(steps) + [Open(e, Body([], OPEN), auctionQueue.items)]
    {
      hide Run, After, Describes, Recorded;
      EveryRun(steps);
      var data := RFQData(txHash, request, now, EndTime(now, request.rfqDurationMs), [], CONTRACT, CONTRACT, OPEN);
      e := new Entry(OpenRFQ(from, data, v, r, s));
      var _ := WriteRFQTxs(OpenTx(e));
      ghost var step := Open(e, Body([], OPEN), auctionQueue.items);
      Extend(steps, step);
      steps := steps + [step];
    }

    method StoreQuote(signed: Quote) returns (ok: bool)
      requires Coupled() && HeapOrdered(auctionQueue.items)
      requires var h := signed.data.rfqTxHash; h in openRFQsMap ==> openRFQsMap[h] in state.bodies
      modifies this, auctionQueue, state.bodies.Keys
      ensures Coupled() && steps == old(steps) && ok == (signed.data.rfqTxHash in old(openRFQsMap))
      ensures state == UpdateEffect(QuoteEffect(old(state), signed), signed.data.rfqTxHash, Unsigned(signed))
      ensures openRFQsMap == old(openRFQsMap)
      ensures ok ==> var h := signed.data.rfqTxHash; openRFQsMap[h].quotes == old(openRFQsMap[h].quotes) + [Unsigned(signed)]
      ensures var h := signed.data.rfqTxHash;
        quotesTable == old(quotesTable)[h := (if h in old(quotesTable) then old(quotesTable)[h] else []) + [signed]]
    {
      var _ := WriteRFQTxs(QuoteTx(signed));
      ok := UpdateActiveRFQ(signed.data.rfqTxHash, Unsigned(signed));
    }

    /** The quote handler at nowMs milliseconds: stores the signed quote, then appends the unsigned one to the auction.
        The deadline test compares whole seconds with the auction's milliseconds, so it lets a quote for a mapped auction
        through until about a thousand times the end time: it is the map that ends an auction for quotes. */
    method PostQuote(nowMs: nat, verified: bool, signed: Quote) returns (ok: bool)
      requires Valid()
      modifies this, auctionQueue, state.bodies.Keys
      ensures Valid()
      ensures var h := signed.data.rfqTxHash;
        ok == (verified && h in old(openRFQsMap) && nowMs < 1000 * (old(openRFQsMap)[h].endTime + 1))
      ensures steps == if ok then old(steps) + [WriteQuote(signed)] + [UpdateActive(Unsigned(signed))] else old(steps)
      ensures state == if ok then Answered(old(state), signed) else old(state)
      ensures ok ==>
        var h := signed.data.rfqTxHash;
        && old(openRFQsMap)[h].quotes == old(openRFQsMap[h].quotes) + [Quote(signed.from, signed.data, 0, 0, 0)]
        && quotesTable == old(quotesTable)[h := (if h in old(quotesTable) then old(quotesTable)[h] else []) + [signed]]
    {
      hide Run, After, HeapOrdered;
      var h := signed.data.rfqTxHash;
      if h !in openRFQsMap {
        return false;
      }
      var nowSeconds := nowMs / 1000;
      if nowSeconds > openRFQsMap[h].endTime || !verified {
        return false;
      }
      Posted(steps, signed);
      ok := StoreQuote(signed);
      steps := steps + [WriteQuote(signed)] + [UpdateActive(Unsigned(signed))];
    }

    /** The first auction leaves the heap, is closed, and is copied by value into a new object. */
    method PopAndCopy() returns (auction: Entry, copy: Entry)
      requires Coupled() && HeapOrdered(auctionQueue.items)
      requires auctionQueue.items != [] && auctionQueue.items[0] in state.bodies
      modifies this`state, auctionQueue, state.bodies.Keys
      ensures Coupled() && HeapOrdered(auctionQueue.items)
      ensures auction == old(auctionQueue.items)[0] && fresh(copy)
      ensures multiset(auctionQueue.items) == multiset(old(auctionQueue.items)) - multiset{auction}
      ensures |auctionQueue.items| == |old(auctionQueue.items)| - 1
      ensures SameTerms(copy, auction) && copy.quotes == auction.quotes && copy.status == auction.status == CLOSED
      ensures auction.quotes == old(auctionQueue.items[0].quotes)
      ensures var body := old(state).bodies[auction].(status := CLOSED);
        && Body(copy.quotes, CLOSED) == body
        && state == old(state).(queue := auctionQueue.items, bodies := old(state).bodies[auction := body][copy := body])
    {
      auction := auctionQueue.HeapPop();
      auction.status := CLOSED;
      copy := new Entry(auction.Record(auction.quotes, auction.status));
      ghost var body := Body(auction.quotes, CLOSED);
      state := state.(queue := auctionQueue.items, bodies := state.bodies[auction := body][copy := body]);
    }

    /** A close event goes to the event channel. */
    method Send(closed: Entry)
      requires Coupled()
      modifies this`events, this`state
      ensures Coupled() && state == old(state).(events := old(events) + [closed])
    {
      events := events + [closed];
      state := state.(events := events);
    }

    /** The body of the timer loop. */
    method CloseFirst() returns (auction: Entry, copy: Entry)
      requires Coupled() && HeapOrdered(auctionQueue.items)
      requires auctionQueue.items != [] && auctionQueue.items[0] in state.bodies
      modifies this, auctionQueue, state.bodies.Keys
      ensures Coupled() && HeapOrdered(auctionQueue.items) && steps == old(steps)
      ensures auction == old(auctionQueue.items)[0] && fresh(copy) && SameTerms(copy, auction)
      ensures multiset(auctionQueue.items) == multiset(old(auctionQueue.items)) - multiset{auction}
      ensures |auctionQueue.items| == |old(auctionQueue.items)| - 1
      ensures state == Turned(old(state), auctionQueue.items, copy)
    {
      hide HeapOrdered, SameTerms, CloseEffect, OpenEffect, QuoteEffect, InStep;
      auction, copy := PopAndCopy();
      ghost var mid := state;
      var _ := WriteRFQTxs(OpenTx(copy));
      assert state == CloseEffect(mid, copy, Body(copy.quotes, CLOSED));
      CloseKeeps(mid, copy, Body(copy.quotes, CLOSED));
      Send(copy);
    }

    ghost predicate InPass(now: int64)
      reads this, auctionQueue, state.bodies.Keys
    {
      Coupled() && Run(steps) && state == After(steps) && state.timer == Passing(now) && state.posting == multiset{}
    }

    /** One turn of the timer loop. */
    method CloseNext(now: int64) returns (auction: Entry, copy: Entry)
      requires InPass(now) && auctionQueue.items != [] && auctionQueue.items[0].endTime <= now
      modifies this, auctionQueue, state.bodies.Keys
      ensures InPass(now) && Quiet(old(steps), steps)
      ensures fresh(copy) && state.bodies.Keys == old(state.bodies.Keys) + {copy}
      ensures auction == old(auctionQueue.items)[0] && SameTerms(copy, auction) && HeapOrdered(old(auctionQueue.items))
      ensures multiset(auctionQueue.items) == multiset(old(auctionQueue.items)) - multiset{auction}
      ensures |auctionQueue.items| == |old(auctionQueue.items)| - 1
      ensures closedRFQS == old(closedRFQS) + [copy] && events == old(events) + [copy]
    {
      hide Run, After, Quiet, HeapOrdered, SameTerms;
      FirstIsKnown(steps);
      auction, copy := CloseFirst();
      assert state.bodies.Keys == old(state.bodies.Keys) + {copy};
      Closing(steps, auctionQueue.items, copy);
      QuietTurn(steps, auctionQueue.items, copy);
      steps := Turn(steps, auctionQueue.items, copy);
    }

    ghost method BeginPass(now: int64)
      requires Valid()
      modifies this`steps, this`state
      ensures InPass(now) && Quiet(old(steps), steps) && state.bodies == old(state.bodies)
    {
      QuietStep(steps, StartPass(now));
      Extend(steps, StartPass(now));
      steps, state := steps + [StartPass(now)], state.(timer := Passing(now));
    }

    ghost method FinishPass(now: int64)
      requires InPass(now) && (auctionQueue.items == [] || now < auctionQueue.items[0].endTime)
      modifies this`steps, this`state
      ensures Valid() && Quiet(old(steps), steps) && state.bodies == old(state.bodies)
      ensures forall e :: e in auctionQueue.items ==> now < e.endTime
      ensures forall h :: h in openRFQsMap ==> now < openRFQsMap[h].endTime
    {
      hide Run, After;
      QuietStep(steps, EndPass);
      Extend(steps, EndPass);
      assert Front(steps + [EndPass]) == steps;
      NoneSurvives(steps + [EndPass]);
      MappedEndsLater(steps + [EndPass]);
      steps, state := steps + [EndPass], state.(timer := Idle);
    }

    /** A whole timer pass: every auction that is due leaves the heap, in end-time order, and is closed. */
    method ProcessAuctionQueue(now: int64) returns (ghost auctions: seq<Entry>, ghost copies: seq<Entry>)
      requires Valid()
      modifies this, auctionQueue, state.bodies.Keys
      ensures Valid() && Quiet(old(steps), steps)
      ensures forall e :: e in auctionQueue.items ==> now < e.endTime
      ensures Taken(old(auctionQueue.items), auctionQueue.items, auctions, copies, now)
      ensures closedRFQS == old(closedRFQS) + copies && events == old(events) + copies
      ensures forall h :: h in openRFQsMap ==> now < openRFQsMap[h].endTime
      ensures fresh(state.bodies.Keys - old(state.bodies.Keys))
    {
      hide Run, After, Quiet, Taken;
      auctions, copies := [], [];
      TakenNone(auctionQueue.items, now);
      BeginPass(now);
      while |auctionQueue.items| > 0 && auctionQueue.items[0].endTime <= now
        invariant InPass(now) && Quiet(old(steps), steps)
        invariant fresh(state.bodies.Keys - old(state.bodies.Keys))
        invariant Taken(old(auctionQueue.items), auctionQueue.items, auctions, copies, now)
        invariant closedRFQS == old(closedRFQS) + copies && events == old(events) + copies
        decreases |auctionQueue.items|
      {
        ghost var queue, before := auctionQueue.items, steps;
        var auction, copy := CloseNext(now);
        QuietTwice(old(steps), before, steps);
        TakeNext(old(auctionQueue.items), queue, auctionQueue.items, auctions, copies, now, copy);
        auctions, copies := auctions + [auction], copies + [copy];
      }
      ghost var before := steps;
      FinishPass(now);
      QuietTwice(old(steps), before, steps);
    }
  }

  /** An auction is opened in an empty book and a verified quote for it arrives at `ms` before any timer pass: it is
      accepted exactly before 1000 * (endTime + 1), so also late, after endTime. */
  method QuoteBeforePass(now: int64, txHash: Hash, request: SignableData, ms: nat, signed: Quote)
    returns (book: Auctions, e: Entry, ok: bool)
    requires signed.data.rfqTxHash == txHash
    ensures fresh(book) && book.Valid() && e.startTime == now && e.endTime == EndTime(now, request.rfqDurationMs)
    ensures ok == (ms < 1000 * (e.endTime + 1))
    ensures e.quotes == if ok then [Quote(signed.from, signed.data, 0, 0, 0)] else []
  {
    hide Run, After, HeapOrdered;
    book := new Auctions();
    e := book.HandleRFQRequest(now, txHash, request, seq(20, _ => 0), 0, 0, 0);
    ok := book.PostQuote(ms, true, signed);
    assert e in book.state.bodies;
  }

  /** After a pass at or past the end time the same quote is refused whenever it arrives. */
  method QuoteAfterPass(now: int64, txHash: Hash, request: SignableData, pass: int64, ms: nat, signed: Quote)
    returns (book: Auctions, e: Entry, ok: bool)
    requires signed.data.rfqTxHash == txHash && EndTime(now, request.rfqDurationMs) <= pass
    ensures fresh(book) && book.Valid() && !ok
  {
    hide Run, After, HeapOrdered, Taken, OpenEffect, CloseEffect;
    book := new Auctions();
    e := book.HandleRFQRequest(now, txHash, request, seq(20, _ => 0), 0, 0, 0);
    OneOpened(book.steps, e);
    assert book.state.bodies.Keys == {e} by { OpenedBody(e, book.auctionQueue.items); }
    var _, _ := book.ProcessAuctionQueue(pass);
    OnlyEntry(book.steps, e, pass);
    ok := book.PostQuote(ms, true, signed);
  }

  lemma OneOpened(steps: seq<Step>, e: Entry)
    requires |steps| == 1 && steps[0].Open? && steps[0].entry == e
    ensures Opened(steps) == [e]
  {
    assert Front(steps) == [];
  }

  lemma OpenedBody(e: Entry, layout: seq<Entry>)
    ensures OpenEffect(INIT, e, Body([], OPEN), layout).bodies.Keys == {e}
  {
  }

  lemma OnlyEntry(steps: seq<Step>, e: Entry, now: int64)
    requires Run(steps) && Opened(steps) == [e] && e.endTime <= now
    requires forall h :: h in After(steps).byHash ==> now < After(steps).byHash[h].endTime
    ensures After(steps).byHash == map[]
  {
    EveryRun(steps);
  }
}
