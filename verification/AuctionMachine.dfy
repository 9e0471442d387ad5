/** The auction lifecycle as a step system. The timer pass is split into the
    steps between which the chain's lock is not held: pop, close-and-copy,
    write, emit. A pass that runs undisturbed is the special case in which no
    other step comes in between. */
module AuctionMachine {
  import opened Bytes
  import opened Types
  import opened AuctionQueue

  // ---------- int64 clock arithmetic ----------

  /** The end time of an auction opened at `now`: int64 addition of a uint64 duration. */
  function EndTime(now: int64, durationMs: uint64): int64 {
    ToInt64(now + ToInt64(durationMs))
  }

  /** An auction ends at start plus duration, or at least not before its start,
      exactly when that sum fits in an int64. */
  lemma EndTimeSound(now: int64, durationMs: uint64)
    requires 0 <= now
    ensures EndTime(now, durationMs) == now + durationMs <==> now + durationMs < 0x8000_0000_0000_0000
    ensures now <= EndTime(now, durationMs) <==> now + durationMs < 0x8000_0000_0000_0000
  {
    if durationMs >= 0x8000_0000_0000_0000 {
      assert ToInt64(durationMs) == durationMs - 0x1_0000_0000_0000_0000;
    }
  }

  // ---------- states and steps ----------

  /** The part of an entry that changes. */
  datatype Body = Body(quotes: seq<Quote>, status: bytes)

  datatype Timer =
    | Idle
    | Passing(now: int64)
    | Popped(now: int64, auction: Entry)
    | Copied(now: int64, auction: Entry, copy: Entry)
    | Written(now: int64, copy: Entry)

  datatype State = State(
    bodies: map<Entry, Body>,
    open: seq<Entry>,
    byHash: map<Hash, Entry>,
    queue: seq<Entry>,
    closed: seq<Entry>,
    openTable: map<Hash, OpenRFQ>,
    closedTable: map<Hash, OpenRFQ>,
    quotesTable: map<Hash, seq<Quote>>,
    events: seq<Entry>,
    timer: Timer,
    posting: multiset<Quote>)

  const INIT := State(map[], [], map[], [], [], map[], map[], map[], [], Idle, multiset{})

  datatype Step =
    | Open(entry: Entry, body: Body, layout: seq<Entry>)
    | WriteQuote(quote: Quote)
    | UpdateActive(quote: Quote)
    | StartPass(now: int64)
    | Pop(layout: seq<Entry>)
    | Copy(copy: Entry)
    | Commit
    | Emit
    | EndPass

  function Unsigned(q: Quote): Quote {
    q.(v := 0, r := 0, s := 0)
  }

  function TableAt(t: map<Hash, seq<Quote>>, h: Hash): seq<Quote> {
    if h in t then t[h] else []
  }

  function Append(t: map<Hash, seq<Quote>>, q: Quote): map<Hash, seq<Quote>> {
    t[q.data.rfqTxHash := TableAt(t, q.data.rfqTxHash) + [q]]
  }

  /** Drops the first entry with the given request hash. */
  function RemoveFirst(es: seq<Entry>, h: Hash): seq<Entry> {
    if es == [] then [] else if es[0].rfqTxHash == h then es[1..] else [es[0]] + RemoveFirst(es[1..], h)
  }

  /** c is a deep copy of e, up to what can change. */
  predicate SameTerms(c: Entry, e: Entry) {
    && c.from == e.from && c.v == e.v && c.r == e.r && c.s == e.s
    && c.rfqTxHash == e.rfqTxHash && c.request == e.request
    && c.startTime == e.startTime && c.endTime == e.endTime
    && c.settlementContract == e.settlementContract && c.matchingContract == e.matchingContract
  }

  /** Writing an OpenRFQ transaction whose status is OPEN. */
  ghost function OpenEffect(s: State, e: Entry, body: Body, layout: seq<Entry>): State {
    s.(bodies := s.bodies[e := body],
       open := s.open + [e],
       byHash := s.byHash[e.rfqTxHash := e],
       queue := layout,
       openTable := s.openTable[e.rfqTxHash := e.Record(body.quotes, body.status)])
  }

  ghost function QuoteEffect(s: State, q: Quote): State {
    s.(quotesTable := Append(s.quotesTable, q))
  }

  /** Appending a quote to the auction the open map holds under h, if any. */
  ghost function UpdateEffect(s: State, h: Hash, q: Quote): State
    requires h in s.byHash ==> s.byHash[h] in s.bodies
  {
    if h !in s.byHash then s else
      var e := s.byHash[h];
      s.(bodies := s.bodies[e := s.bodies[e].(quotes := s.bodies[e].quotes + [q])])
  }

  /** Writing an OpenRFQ transaction whose status is CLOSED. */
  ghost function CloseEffect(s: State, c: Entry, body: Body): State {
    s.(open := RemoveFirst(s.open, c.rfqTxHash),
       byHash := s.byHash - {c.rfqTxHash},
       closed := s.closed + [c],
       closedTable := s.closedTable[c.rfqTxHash := c.Record(body.quotes, body.status)])
  }

  ghost predicate Enabled(s: State, step: Step) {
    match step
    case Open(e, body, layout) =>
      && e !in s.bodies && body == Body([], OPEN)
      && e.endTime == EndTime(e.startTime, e.request.rfqDurationMs)
      && HeapOrdered(layout) && multiset(layout) == multiset(s.queue) + multiset{e}
    case WriteQuote(_) => true
    case UpdateActive(q) =>
      && q in s.posting
      && (q.data.rfqTxHash in s.byHash ==> s.byHash[q.data.rfqTxHash] in s.bodies)
    case StartPass(_) => s.timer.Idle?
    case Pop(layout) =>
      && s.timer.Passing? && s.queue != [] && s.queue[0].endTime <= s.timer.now
      && HeapOrdered(layout) && multiset(layout) == multiset(s.queue) - multiset{s.queue[0]}
    case Copy(c) =>
      && s.timer.Popped? && s.timer.auction in s.bodies
      && c !in s.bodies && SameTerms(c, s.timer.auction)
    case Commit => s.timer.Copied? && s.timer.copy in s.bodies
    case Emit => s.timer.Written?
    case EndPass => s.timer.Passing? && (s.queue == [] || s.timer.now < s.queue[0].endTime)
  }

  ghost function Next(s: State, step: Step): State
    requires Enabled(s, step)
  {
    match step
    case Open(e, body, layout) => OpenEffect(s, e, body, layout)
    case WriteQuote(q) => QuoteEffect(s, q).(posting := s.posting + multiset{Unsigned(q)})
    case UpdateActive(q) => UpdateEffect(s, q.data.rfqTxHash, q).(posting := s.posting - multiset{q})
    case StartPass(now) => s.(timer := Passing(now))
    case Pop(layout) => s.(queue := layout, timer := Popped(s.timer.now, s.queue[0]))
    case Copy(c) =>
      var body := s.bodies[s.timer.auction].(status := CLOSED);
      s.(bodies := s.bodies[s.timer.auction := body][c := body],
         timer := Copied(s.timer.now, s.timer.auction, c))
    case Commit => CloseEffect(s, s.timer.copy, s.bodies[s.timer.copy]).(timer := Written(s.timer.now, s.timer.copy))
    case Emit => s.(events := s.events + [s.timer.copy], timer := Passing(s.timer.now))
    case EndPass => s.(timer := Idle)
  }

  ghost predicate Run(steps: seq<Step>)
    decreases |steps|, 0
  {
    steps == [] || (Run(Front(steps)) && Enabled(After(Front(steps)), Last(steps)))
  }

  ghost function After(steps: seq<Step>): State
    requires Run(steps)
    decreases |steps|, 1
  {
    if steps == [] then INIT else Next(After(Front(steps)), Last(steps))
  }

  function Front<T>(s: seq<T>): (r: seq<T>)
    requires s != []
    ensures |r| == |s| - 1
  {
    s[..|s| - 1]
  }

  function Last<T>(s: seq<T>): T
    requires s != []
  {
    s[|s| - 1]
  }

  lemma Extend(steps: seq<Step>, step: Step)
    requires Run(steps) && Enabled(After(steps), step)
    ensures Run(steps + [step]) && After(steps + [step]) == Next(After(steps), step)
  {
    hide Next, Enabled;
    assert Front(steps + [step]) == steps && Last(steps + [step]) == step;
  }

  // ---------- what a run has done ----------

  function Added(step: Step): seq<Entry> {
    if step.Open? then [step.entry] else []
  }

  /** The auctions opened in the run, in order. */
  function Opened(steps: seq<Step>): seq<Entry> {
    if steps == [] then [] else
      Opened(Front(steps)) + Added(Last(steps))
  }

  /** The step appends a quote to this very auction. */
  predicate AcceptsFor(s: State, step: Step, e: Entry) {
    step.UpdateActive? && step.quote.data.rfqTxHash in s.byHash && s.byHash[step.quote.data.rfqTxHash] == e
  }

  /** It does so after the timer has copied the auction and before the copy is written. */
  predicate AcceptsLate(s: State, step: Step) {
    s.timer.Copied? && AcceptsFor(s, step, s.timer.auction)
  }

  /** The quotes accepted in the run while the map led to this auction, in order. */
  ghost function Accepted(steps: seq<Step>, e: Entry): seq<Quote>
    requires Run(steps)
    decreases |steps|
  {
    if steps == [] then [] else
      Accepted(Front(steps), e) + if AcceptsFor(After(Front(steps)), Last(steps), e) then [Last(steps).quote] else []
  }

  /** Those of them that came after it had been copied. */
  ghost function Late(steps: seq<Step>, e: Entry): seq<Quote>
    requires Run(steps)
    decreases |steps|
  {
    if steps == [] then [] else
      var s, step := After(Front(steps)), Last(steps);
      Late(Front(steps), e) + if AcceptsFor(s, step, e) && AcceptsLate(s, step) then [step.quote] else []
  }

  /** How many auctions of a list are for request hash h. */
  ghost function Count(es: seq<Entry>, h: Hash): nat {
    if es == [] then 0 else (if es[0].rfqTxHash == h then 1 else 0) + Count(es[1..], h)
  }

  /** No request hash occurs twice. */
  ghost predicate AtMostOnce(es: seq<Entry>) {
    forall h :: Count(es, h) <= 1
  }

  /** No request hash is opened twice in the run. */
  ghost predicate NoReopen(steps: seq<Step>) {
    AtMostOnce(Opened(steps))
  }

  lemma {:induction false} CountConcat(a: seq<Entry>, b: seq<Entry>, h: Hash)
    ensures Count(a + b, h) == Count(a, h) + Count(b, h)
  {
    if a == [] {
      assert a + b == b;
    } else {
      assert (a + b)[1..] == a[1..] + b;
      CountConcat(a[1..], b, h);
    }
  }

  lemma {:induction false} CountIn(es: seq<Entry>, h: Hash)
    ensures Count(es, h) > 0 <==> exists e :: e in es && e.rfqTxHash == h
  {
    if es != [] {
      CountIn(es[1..], h);
      assert es == [es[0]] + es[1..];
    }
  }

  /** Two lists with the same elements: where the first one's head sits in the second. */
  lemma HeadIn<T>(a: seq<T>, b: seq<T>) returns (i: nat)
    requires a != [] && multiset(a) == multiset(b)
    ensures i < |b| && b[i] == a[0] && multiset(a[1..]) == multiset(b[..i] + b[i + 1..])
  {
    assert a == [a[0]] + a[1..];
    assert a[0] in multiset(b);
    i :| 0 <= i < |b| && b[i] == a[0];
    assert b == b[..i] + ([b[i]] + b[i + 1..]);
    assert multiset(b[..i] + b[i + 1..]) == multiset(b) - multiset{b[i]};
    assert multiset(a[1..]) == multiset(a) - multiset{a[0]};
  }

  lemma CountWithout(es: seq<Entry>, i: nat, h: Hash)
    requires i < |es|
    ensures Count(es, h) == Count(es[..i] + es[i + 1..], h) + Count([es[i]], h)
  {
    var tail := [es[i]] + es[i + 1..];
    assert es == es[..i] + tail;
    CountConcat(es[..i], tail, h);
    CountConcat([es[i]], es[i + 1..], h);
    CountConcat(es[..i], es[i + 1..], h);
  }

  /** Permuting a list changes no count. */
  lemma {:induction false} CountPermuted(a: seq<Entry>, b: seq<Entry>, h: Hash)
    requires multiset(a) == multiset(b)
    ensures Count(a, h) == Count(b, h)
  {
    if a == [] {
      assert |multiset(b)| == 0;
    } else {
      var i := HeadIn(a, b);
      CountPermuted(a[1..], b[..i] + b[i + 1..], h);
      CountWithout(b, i, h);
      assert [b[i]][1..] == [];
    }
  }

  lemma CountPlus(a: seq<Entry>, b: seq<Entry>, x: Entry, h: Hash)
    requires multiset(a) == multiset(b) + multiset{x}
    ensures Count(a, h) == Count(b + [x], h)
  {
    assert multiset(b + [x]) == multiset(b) + multiset{x};
    CountPermuted(a, b + [x], h);
  }

  lemma CountOne(e: Entry, h: Hash)
    ensures Count([e], h) == if e.rfqTxHash == h then 1 else 0
  {
    assert [e][1..] == [];
  }

  lemma {:induction false} CountRemoveFirst(es: seq<Entry>, h: Hash, g: Hash)
    ensures Count(RemoveFirst(es, h), g) == if g == h && Count(es, h) > 0 then Count(es, g) - 1 else Count(es, g)
  {
    if es != [] && es[0].rfqTxHash != h {
      CountRemoveFirst(es[1..], h, g);
      assert ([es[0]] + RemoveFirst(es[1..], h))[1..] == RemoveFirst(es[1..], h);
    }
  }

  lemma OpenedOnce(steps: seq<Step>, e: Entry)
    requires Opened(steps) == [e]
    ensures NoReopen(steps)
  {
    forall h ensures Count([e], h) <= 1 { CountOne(e, h); }
  }
}
