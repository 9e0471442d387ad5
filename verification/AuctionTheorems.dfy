/** What holds in every state that auction steps can reach. */
module AuctionTheorems {
  import opened Bytes
  import opened Types
  import opened AuctionQueue
  import opened AuctionMachine

  lemma {:induction false} RunPrefix(steps: seq<Step>, k: nat)
    requires Run(steps) && k <= |steps|
    ensures Run(steps[..k])
    decreases |steps|
  {
    if k < |steps| {
      RunPrefix(Front(steps), k);
      assert Front(steps)[..k] == steps[..k];
    } else {
      assert steps[..k] == steps;
    }
  }

  /** The state after the first k steps of a run. */
  ghost function At(steps: seq<Step>, k: nat): State
    requires Run(steps) && k <= |steps|
  {
    RunPrefix(steps, k);
    After(steps[..k])
  }

  // ---------- every run ----------

  /** The auction the timer has popped but not yet written as closed. */
  ghost function InFlight(s: State): seq<Entry> {
    if s.timer.Popped? || s.timer.Copied? then [s.timer.auction] else []
  }

  /** The closed copies that exist: the written ones and the one about to be. */
  ghost function Copies(s: State): seq<Entry> {
    if s.timer.Copied? then s.closed + [s.timer.copy] else s.closed
  }

  ghost predicate Within(es: seq<Entry>, o: seq<Entry>) {
    forall e :: e in es ==> e in o
  }

  /** Originals (opened) and copies are different objects, and everything points where it should. */
  ghost predicate Separated(o: seq<Entry>, s: State) {
    && (forall e :: e in o ==> e in s.bodies)
    && Within(s.queue, o) && Within(s.open, o) && Within(InFlight(s), o)
    && (forall h :: h in s.byHash ==> s.byHash[h] in o && s.byHash[h].rfqTxHash == h)
    && (forall c :: c in Copies(s) ==> c in s.bodies && c !in o && s.bodies[c].status == CLOSED)
    && (s.timer.Copied? ==> SameTerms(s.timer.copy, s.timer.auction))
  }

  /** Slice, heap and map agree; every opened auction is waiting, in flight or closed. */
  ghost predicate Balanced(
    o: seq<Entry>, queue: seq<Entry>, open: seq<Entry>, flight: seq<Entry>, closed: seq<Entry>, keys: set<Hash>)
  {
    && (forall h :: Count(open, h) == Count(queue, h) + Count(flight, h))
    && (forall h :: Count(o, h) == Count(open, h) + Count(closed, h))
    && (forall h :: h in keys ==> Count(open, h) > 0)
  }

  ghost predicate Conserved(o: seq<Entry>, s: State) {
    HeapOrdered(s.queue) && Balanced(o, s.queue, s.open, InFlight(s), s.closed, s.byHash.Keys)
  }

  /** A table is keyed by exactly the hashes of a list. */
  ghost predicate Keyed(t: map<Hash, OpenRFQ>, es: seq<Entry>) {
    forall h :: h in t <==> Count(es, h) > 0
  }

  /** One event per closed auction in closing order; the tables are keyed by the hashes closed and opened. */
  ghost predicate Recorded(o: seq<Entry>, s: State) {
    && s.closed == s.events + (if s.timer.Written? then [s.timer.copy] else [])
    && Keyed(s.closedTable, s.closed)
    && Keyed(s.openTable, o)
  }

  lemma MultisetWithin(es: seq<Entry>, q: seq<Entry>, x: Entry)
    requires multiset(es) <= multiset(q) + multiset{x}
    ensures forall e :: e in es ==> e in q || e == x
  {
    forall e | e in es ensures e in q || e == x {
      assert e in multiset(es);
    }
  }

  lemma {:induction false} RemoveFirstWithin(es: seq<Entry>, h: Hash)
    ensures Within(RemoveFirst(es, h), es)
  {
    if es != [] && es[0].rfqTxHash != h {
      RemoveFirstWithin(es[1..], h);
    }
  }

  lemma SeparatedOpen(o: seq<Entry>, s: State, step: Step)
    requires Separated(o, s) && Enabled(s, step) && step.Open?
    ensures Separated(o + [step.entry], Next(s, step))
  {
    MultisetWithin(step.layout, s.queue, step.entry);
  }

  lemma SeparatedUpdate(o: seq<Entry>, s: State, step: Step)
    requires Separated(o, s) && Enabled(s, step) && (step.UpdateActive? || step.WriteQuote?)
    ensures Separated(o, Next(s, step))
  {
  }

  lemma SeparatedPop(o: seq<Entry>, s: State, step: Step)
    requires Separated(o, s) && Enabled(s, step) && step.Pop?
    ensures Separated(o, Next(s, step))
  {
    assert s.queue[0] in s.queue;
    MultisetWithin(step.layout, s.queue, s.queue[0]);
  }

  lemma SeparatedCopy(o: seq<Entry>, s: State, step: Step)
    requires Separated(o, s) && Enabled(s, step) && step.Copy?
    ensures Separated(o, Next(s, step))
  {
  }

  lemma SeparatedCommit(o: seq<Entry>, s: State, step: Step)
    requires Separated(o, s) && Enabled(s, step) && step.Commit?
    ensures Separated(o, Next(s, step))
  {
    RemoveFirstWithin(s.open, s.timer.copy.rfqTxHash);
  }

  lemma SeparatedTick(o: seq<Entry>, s: State, step: Step)
    requires Separated(o, s) && Enabled(s, step) && (step.StartPass? || step.Emit? || step.EndPass?)
    ensures Separated(o, Next(s, step))
  {
  }

  lemma SeparatedStep(o: seq<Entry>, s: State, step: Step)
    requires Separated(o, s) && Enabled(s, step)
    ensures Separated(o + Added(step), Next(s, step))
  {
    assert !step.Open? ==> o + Added(step) == o;
    match step
    case Open(_, _, _) => SeparatedOpen(o, s, step);
    case UpdateActive(_) => SeparatedUpdate(o, s, step);
    case WriteQuote(_) => SeparatedUpdate(o, s, step);
    case Pop(_) => SeparatedPop(o, s, step);
    case Copy(_) => SeparatedCopy(o, s, step);
    case Commit => SeparatedCommit(o, s, step);
    case StartPass(_) => SeparatedTick(o, s, step);
    case Emit => SeparatedTick(o, s, step);
    case EndPass => SeparatedTick(o, s, step);
  }

  lemma BalancedOpen(
    o: seq<Entry>, queue: seq<Entry>, open: seq<Entry>, flight: seq<Entry>, closed: seq<Entry>, keys: set<Hash>,
    e: Entry, layout: seq<Entry>)
    requires Balanced(o, queue, open, flight, closed, keys) && multiset(layout) == multiset(queue) + multiset{e}
    ensures Balanced(o + [e], layout, open + [e], flight, closed, keys + {e.rfqTxHash})
  {
    forall h
      ensures Count(layout, h) == Count(queue, h) + Count([e], h)
      ensures Count(open + [e], h) == Count(open, h) + Count([e], h)
      ensures Count(o + [e], h) == Count(o, h) + Count([e], h)
    {
      CountPlus(layout, queue, e, h);
      CountConcat(queue, [e], h);
      CountConcat(open, [e], h);
      CountConcat(o, [e], h);
    }
    CountOne(e, e.rfqTxHash);
  }

  lemma BalancedPop(
    o: seq<Entry>, queue: seq<Entry>, open: seq<Entry>, closed: seq<Entry>, keys: set<Hash>, layout: seq<Entry>)
    requires Balanced(o, queue, open, [], closed, keys)
    requires queue != [] && multiset(layout) == multiset(queue) - multiset{queue[0]}
    ensures Balanced(o, layout, open, [queue[0]], closed, keys)
  {
    assert queue[0] in queue;
    forall h ensures Count(queue, h) == Count(layout, h) + Count([queue[0]], h) {
      CountPlus(queue, layout, queue[0], h);
      CountConcat(layout, [queue[0]], h);
    }
  }

  lemma BalancedCommit(
    o: seq<Entry>, queue: seq<Entry>, open: seq<Entry>, closed: seq<Entry>, keys: set<Hash>, e: Entry, c: Entry)
    requires Balanced(o, queue, open, [e], closed, keys) && c.rfqTxHash == e.rfqTxHash
    ensures Balanced(o, queue, RemoveFirst(open, c.rfqTxHash), [], closed + [c], keys - {c.rfqTxHash})
  {
    CountOne(e, e.rfqTxHash);
    forall h
      ensures Count([e], h) == Count([c], h)
      ensures Count(closed + [c], h) == Count(closed, h) + Count([c], h)
      ensures Count(RemoveFirst(open, c.rfqTxHash), h) == Count(open, h) - Count([c], h)
    {
      CountOne(e, h);
      CountOne(c, h);
      CountConcat(closed, [c], h);
      CountRemoveFirst(open, c.rfqTxHash, h);
    }
  }

  lemma SameLists(s: State, step: Step, s': State)
    requires Enabled(s, step) && !step.Open? && !step.Pop? && !step.Commit? && s' == Next(s, step)
    ensures s'.queue == s.queue && s'.open == s.open && s'.closed == s.closed && s'.byHash == s.byHash
  {
    match step
    case UpdateActive(_) =>
    case WriteQuote(_) =>
    case _ =>
  }

  lemma ConservedElse(o: seq<Entry>, s: State, step: Step)
    requires Conserved(o, s) && Enabled(s, step) && !step.Open? && !step.Pop? && !step.Commit?
    ensures Conserved(o, Next(s, step))
  {
    var s' := Next(s, step);
    SameLists(s, step, s');
    assert InFlight(s') == InFlight(s);
  }

  lemma ConservedStep(o: seq<Entry>, s: State, step: Step)
    requires Separated(o, s) && Conserved(o, s) && Enabled(s, step)
    ensures Conserved(o + Added(step), Next(s, step))
  {
    if step.Open? {
      BalancedOpen(o, s.queue, s.open, InFlight(s), s.closed, s.byHash.Keys, step.entry, step.layout);
      assert Next(s, step).byHash.Keys == s.byHash.Keys + {step.entry.rfqTxHash};
    } else {
      assert o + Added(step) == o;
      if step.Pop? {
        BalancedPop(o, s.queue, s.open, s.closed, s.byHash.Keys, step.layout);
      } else if step.Commit? {
        BalancedCommit(o, s.queue, s.open, s.closed, s.byHash.Keys, s.timer.auction, s.timer.copy);
      } else {
        ConservedElse(o, s, step);
      }
    }
  }

  lemma KeyedPlus(t: map<Hash, OpenRFQ>, es: seq<Entry>, e: Entry, rec: OpenRFQ)
    requires Keyed(t, es)
    ensures Keyed(t[e.rfqTxHash := rec], es + [e])
  {
    forall h ensures Count(es + [e], h) == Count(es, h) + if e.rfqTxHash == h then 1 else 0 {
      CountConcat(es, [e], h);
      CountOne(e, h);
    }
  }

  lemma RecordedStep(o: seq<Entry>, s: State, step: Step)
    requires Recorded(o, s) && Enabled(s, step)
    ensures Recorded(o + Added(step), Next(s, step))
  {
    assert !step.Open? ==> o + Added(step) == o;
    if step.Open? {
      KeyedPlus(s.openTable, o, step.entry, step.entry.Record(step.body.quotes, step.body.status));
    } else if step.Commit? {
      var c, body := s.timer.copy, s.bodies[s.timer.copy];
      KeyedPlus(s.closedTable, s.closed, c, c.Record(body.quotes, body.status));
    }
  }

  /** In every reachable state the heap is ordered, the slice and the heap (with the auction in
      flight) hold the same multiset of request hashes, the map's keys are among them and each
      leads to an auction of that hash, and each opened auction is still live or has been closed:
      none is lost or closed twice. Closed copies are CLOSED and are never an object that quotes
      can still reach. */
  lemma {:induction false} EveryRun(steps: seq<Step>)
    requires Run(steps)
    ensures Separated(Opened(steps), After(steps))
    ensures Conserved(Opened(steps), After(steps))
    ensures Recorded(Opened(steps), After(steps))
    decreases |steps|
  {
    if steps != [] {
      EveryRun(Front(steps));
      SeparatedStep(Opened(Front(steps)), After(Front(steps)), Last(steps));
      ConservedStep(Opened(Front(steps)), After(Front(steps)), Last(steps));
      RecordedStep(Opened(Front(steps)), After(Front(steps)), Last(steps));
    }
  }

  /** What goes wrong when a hash is opened again while it is live: closing one of its auctions takes the hash out of
      the map, and the hash stays listed, out of reach for quotes, exactly if it was listed more than once. */
  lemma CommitForgets(steps: seq<Step>)
    requires Run(steps) && steps != [] && Last(steps).Commit?
    ensures var before, s, h := After(Front(steps)), After(steps), After(Front(steps)).timer.copy.rfqTxHash;
      && h !in s.byHash
      && (Count(s.open, h) > 0 <==> Count(before.open, h) > 1)
      && (forall g :: g != h ==> (g in s.byHash <==> g in before.byHash) && Count(s.open, g) == Count(before.open, g))
  {
    var before := After(Front(steps));
    var h := before.timer.copy.rfqTxHash;
    EveryRun(Front(steps));
    CountOne(before.timer.auction, h);
    forall g ensures g != h ==> Count(After(steps).open, g) == Count(before.open, g) {
      CountRemoveFirst(before.open, h, g);
    }
    CountRemoveFirst(before.open, h, h);
  }

  /** The last step of the run that opened or closed an auction of h opened one. */
  ghost predicate LastOpened(steps: seq<Step>, h: Hash)
    requires Run(steps)
    decreases |steps|
  {
    steps != [] &&
    match Last(steps)
    case Open(e, _, _) => e.rfqTxHash == h || LastOpened(Front(steps), h)
    case Commit => After(Front(steps)).timer.copy.rfqTxHash != h && LastOpened(Front(steps), h)
    case _ => LastOpened(Front(steps), h)
  }

  lemma MapStep(s: State, step: Step, h: Hash)
    requires Enabled(s, step)
    ensures h in Next(s, step).byHash <==>
      match step
      case Open(e, _, _) => e.rfqTxHash == h || h in s.byHash
      case Commit => s.timer.copy.rfqTxHash != h && h in s.byHash
      case _ => h in s.byHash
  {
    match step
    case Open(_, _, _) =>
    case WriteQuote(_) =>
    case UpdateActive(_) =>
    case StartPass(_) =>
    case Pop(_) =>
    case Copy(_) =>
    case Commit =>
    case Emit =>
    case EndPass =>
  }

  /** A hash is in the map exactly if the last opening or closing of it in the run was an opening. */
  lemma {:induction false} InMap(steps: seq<Step>, h: Hash)
    requires Run(steps)
    ensures h in After(steps).byHash <==> LastOpened(steps, h)
    decreases |steps|
  {
    hide Next, Enabled;
    if steps != [] {
      InMap(Front(steps), h);
      MapStep(After(Front(steps)), Last(steps), h);
    }
  }

  /** So the map agrees with what is live about h exactly if the last of its steps was an opening or it was closed as often
      as it was opened. */
  lemma MapIsLive(steps: seq<Step>, h: Hash)
    requires Run(steps)
    ensures (h in After(steps).byHash <==> Count(After(steps).open, h) > 0)
      <==> LastOpened(steps, h) || Count(Opened(steps), h) == Count(After(steps).closed, h)
  {
    hide Run, After, LastOpened, Separated, Recorded;
    EveryRun(steps);
    InMap(steps, h);
  }
}
