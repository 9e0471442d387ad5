/** The auction objects themselves, in every run: where each of them is, and which
    of several auctions of one hash the list, the map and the heap hold. */
module AuctionObjects {
  import opened Bytes
  import opened Types
  import opened AuctionQueue
  import opened AuctionMachine
  import opened AuctionTheorems

  // ---------- the map leads to what waits ----------

  ghost predicate Waiting(s: State, e: Entry) {
    e in s.queue || e in InFlight(s)
  }

  ghost predicate MapWaits(s: State) {
    forall h :: h in s.byHash ==> Waiting(s, s.byHash[h])
  }

  lemma MapWaitsOpen(s: State, step: Step)
    requires Enabled(s, step) && step.Open? && MapWaits(s)
    ensures MapWaits(Next(s, step))
  {
    hide HeapOrdered;
    var r := Next(s, step);
    forall h | h in r.byHash ensures Waiting(r, r.byHash[h]) {
      var e := r.byHash[h];
      assert e in s.queue || e == step.entry ==> e in multiset(step.layout);
    }
  }

  lemma MapWaitsPop(s: State, step: Step)
    requires Enabled(s, step) && step.Pop? && MapWaits(s)
    ensures MapWaits(Next(s, step))
  {
    hide HeapOrdered;
    var r := Next(s, step);
    forall h | h in r.byHash ensures Waiting(r, r.byHash[h]) {
      var e := r.byHash[h];
      assert e in s.queue && e != s.queue[0] ==> e in multiset(step.layout);
    }
  }

  lemma MapWaitsCommit(o: seq<Entry>, s: State, step: Step)
    requires Separated(o, s) && Enabled(s, step) && step.Commit? && MapWaits(s)
    ensures MapWaits(Next(s, step))
  {
    var r := Next(s, step);
    assert s.timer.copy.rfqTxHash == s.timer.auction.rfqTxHash;
    forall h | h in r.byHash ensures Waiting(r, r.byHash[h]) {
      assert r.byHash[h] == s.byHash[h] && s.byHash[h] != s.timer.auction;
    }
  }

  /** In every run, an auction that the map leads to waits in the heap or has just been taken from it. */
  lemma {:induction false} MappedWaits(steps: seq<Step>)
    requires Run(steps)
    ensures MapWaits(After(steps))
    decreases |steps|
  {
    hide Next, Enabled, Separated, Conserved, Recorded, MapWaits;
    if steps == [] {
      NothingMapped();
    } else {
      var o, s, step := Opened(Front(steps)), After(Front(steps)), Last(steps);
      MappedWaits(Front(steps));
      EveryRun(Front(steps));
      if step.Open? {
        MapWaitsOpen(s, step);
      } else if step.Pop? {
        MapWaitsPop(s, step);
      } else if step.Commit? {
        MapWaitsCommit(o, s, step);
      } else {
        MapWaitsElse(s, step);
      }
    }
  }

  lemma NothingMapped()
    ensures MapWaits(INIT)
  {
  }

  lemma MapWaitsElse(s: State, step: Step)
    requires Enabled(s, step) && !step.Open? && !step.Pop? && !step.Commit? && MapWaits(s)
    ensures MapWaits(Next(s, step))
  {
    SameLists(s, step, Next(s, step));
    SameFlight(s, step);
  }

  // ---------- every object is accounted for ----------

  /** The auction that has been taken from the heap and not yet copied. */
  ghost function Uncopied(s: State): seq<Entry> {
    if s.timer.Popped? then [s.timer.auction] else []
  }

  ghost function TakenBy(s: State, step: Step): seq<Entry>
    requires Enabled(s, step)
  {
    if step.Copy? then [s.timer.auction] else []
  }

  /** The auctions the run has copied, in the order of their copies. */
  ghost function Originals(steps: seq<Step>): seq<Entry>
    requires Run(steps)
    decreases |steps|
  {
    if steps == [] then [] else Originals(Front(steps)) + TakenBy(After(Front(steps)), Last(steps))
  }

  /** No object occurs twice. */
  ghost predicate Once(es: seq<Entry>) {
    forall e :: e in es ==> multiset(es)[e] == 1
  }

  /** Every opened auction is in exactly one place: in the heap, taken and not yet copied, or copied. */
  ghost predicate Parts(o: seq<Entry>, queue: seq<Entry>, uncopied: seq<Entry>, originals: seq<Entry>) {
    Once(o) && multiset(o) == multiset(queue) + multiset(uncopied) + multiset(originals)
  }

  /** Each copy has the terms of its original. */
  ghost predicate Paired(s: State, originals: seq<Entry>) {
    && |originals| == |Copies(s)|
    && (forall i :: 0 <= i < |originals| ==> SameTerms(Copies(s)[i], originals[i]))
    && (s.timer.Copied? ==> originals != [] && Last(originals) == s.timer.auction)
  }

  lemma PartsOpen(o: seq<Entry>, queue: seq<Entry>, uncopied: seq<Entry>, originals: seq<Entry>, e: Entry, layout: seq<Entry>)
    requires Parts(o, queue, uncopied, originals) && e !in o && multiset(layout) == multiset(queue) + multiset{e}
    ensures Parts(o + [e], layout, uncopied, originals)
  {
    assert multiset(o + [e]) == multiset(o) + multiset{e};
    forall x | x in o + [e] ensures multiset(o + [e])[x] == 1 {
      if x == e {
        assert e !in multiset(o);
      } else {
        assert x in o;
      }
    }
  }

  lemma PartsPop(o: seq<Entry>, queue: seq<Entry>, originals: seq<Entry>, layout: seq<Entry>)
    requires Parts(o, queue, [], originals) && queue != [] && multiset(layout) == multiset(queue) - multiset{queue[0]}
    ensures Parts(o, layout, [queue[0]], originals)
  {
    assert queue[0] in queue;
    assert multiset(queue) == multiset(layout) + multiset{queue[0]};
  }

  lemma PartsCopy(o: seq<Entry>, queue: seq<Entry>, originals: seq<Entry>, e: Entry)
    requires Parts(o, queue, [e], originals)
    ensures Parts(o, queue, [], originals + [e])
    ensures e !in originals && e !in queue
  {
    assert e in multiset(o);
    assert e in o && multiset(o)[e] == 1;
  }

  lemma PairedCopy(s: State, step: Step, originals: seq<Entry>)
    requires Enabled(s, step) && step.Copy? && Paired(s, originals)
    ensures Paired(Next(s, step), originals + [s.timer.auction])
  {
    hide SameTerms;
    var r := Next(s, step);
    assert Copies(r) == Copies(s) + [step.copy];
  }

  lemma PairedElse(s: State, step: Step, originals: seq<Entry>)
    requires Enabled(s, step) && !step.Copy? && Paired(s, originals)
    ensures Paired(Next(s, step), originals)
  {
    hide SameTerms;
    CopiesStay(s, step);
  }

  lemma CopiesStay(s: State, step: Step)
    requires Enabled(s, step) && !step.Copy?
    ensures Copies(Next(s, step)) == Copies(s) && (Next(s, step).timer.Copied? ==> Next(s, step).timer == s.timer)
  {
    match step
    case Open(_, _, _) =>
    case WriteQuote(_) =>
    case UpdateActive(_) =>
    case StartPass(_) =>
    case Pop(_) =>
    case Commit =>
    case Emit =>
    case EndPass =>
  }

  lemma SameFlight(s: State, step: Step)
    requires Enabled(s, step) && !step.Open? && !step.Pop? && !step.Commit?
    ensures InFlight(Next(s, step)) == InFlight(s)
    ensures !step.Copy? ==> Uncopied(Next(s, step)) == Uncopied(s)
  {
    match step
    case WriteQuote(_) =>
    case UpdateActive(_) =>
    case StartPass(_) =>
    case Copy(_) =>
    case Emit =>
    case EndPass =>
  }

  lemma PartsStep(o: seq<Entry>, s: State, step: Step, originals: seq<Entry>)
    requires Separated(o, s) && Enabled(s, step) && Parts(o, s.queue, Uncopied(s), originals)
    ensures Parts(o + Added(step), Next(s, step).queue, Uncopied(Next(s, step)), originals + TakenBy(s, step))
  {
    hide HeapOrdered, SameTerms, Parts;
    assert !step.Open? ==> o + Added(step) == o;
    assert !step.Copy? ==> originals + TakenBy(s, step) == originals;
    if step.Open? {
      PartsOpen(o, s.queue, Uncopied(s), originals, step.entry, step.layout);
    } else if step.Pop? {
      PartsPop(o, s.queue, originals, step.layout);
    } else if step.Copy? {
      PartsCopy(o, s.queue, originals, s.timer.auction);
    } else if !step.Commit? {
      SameLists(s, step, Next(s, step));
      SameFlight(s, step);
    }
  }

  /** In every run each opened auction is one object in exactly one place, and the closed copies stand in the order of
      the auctions they were made from, each with its terms. */
  lemma {:induction false} EveryObject(steps: seq<Step>)
    requires Run(steps)
    ensures Parts(Opened(steps), After(steps).queue, Uncopied(After(steps)), Originals(steps))
    ensures Paired(After(steps), Originals(steps))
    decreases |steps|
  {
    hide Next, Enabled, Separated, Conserved, Recorded, Parts, Paired;
    if steps == [] {
      NothingOpened();
    } else {
      var s, step := After(Front(steps)), Last(steps);
      EveryObject(Front(steps));
      EveryRun(Front(steps));
      PartsStep(Opened(Front(steps)), s, step, Originals(Front(steps)));
      if step.Copy? {
        PairedCopy(s, step, Originals(Front(steps)));
      } else {
        PairedElse(s, step, Originals(Front(steps)));
        assert Originals(steps) == Originals(Front(steps));
      }
    }
  }

  lemma NothingOpened()
    ensures Parts([], INIT.queue, Uncopied(INIT), []) && Paired(INIT, [])
  {
  }

  // ---------- list and heap, object by object ----------

  /** The list holds exactly the objects that wait in the heap or have just been taken from it. */
  ghost predicate SameObjects(s: State) {
    Same(s.open, s.queue, InFlight(s))
  }

  ghost predicate Same(open: seq<Entry>, queue: seq<Entry>, flight: seq<Entry>) {
    multiset(open) == multiset(queue) + multiset(flight)
  }

  /** The first listed auction with the hash, the one that closing removes. */
  function FirstOf(es: seq<Entry>, h: Hash): Option<Entry> {
    if es == [] then None else if es[0].rfqTxHash == h then Some(es[0]) else FirstOf(es[1..], h)
  }

  lemma {:induction false} FirstLeaves(es: seq<Entry>, h: Hash)
    ensures match FirstOf(es, h)
      case None => RemoveFirst(es, h) == es
      case Some(e) => e in es && e.rfqTxHash == h && multiset(es) == multiset(RemoveFirst(es, h)) + multiset{e}
    ensures FirstOf(es, h).Some? <==> Count(es, h) > 0
  {
    if es != [] {
      assert es == [es[0]] + es[1..];
      if es[0].rfqTxHash != h {
        FirstLeaves(es[1..], h);
      }
    }
  }

  /** From a list that holds the heap's objects, closing leads to such a list exactly if the first listed auction with the
      hash is the one being closed. */
  lemma CommitInTurn(o: seq<Entry>, s: State, step: Step)
    requires Separated(o, s) && Conserved(o, s) && Enabled(s, step) && step.Commit? && SameObjects(s)
    ensures SameObjects(Next(s, step)) <==> FirstOf(s.open, s.timer.copy.rfqTxHash) == Some(s.timer.auction)
  {
    hide HeapOrdered;
    var h, e, r := s.timer.copy.rfqTxHash, s.timer.auction, Next(s, step);
    assert e.rfqTxHash == h && r.open == RemoveFirst(s.open, h) && r.queue == s.queue && InFlight(r) == [];
    CountOne(e, h);
    assert Count(s.open, h) > 0 && multiset(s.open) == multiset(s.queue) + multiset{e};
    hide Separated, Conserved, Next, Enabled, RemoveFirst, FirstOf, Count;
    FirstLeaves(s.open, h);
    SameRest(multiset(s.queue), e, multiset(r.open), FirstOf(s.open, h).value);
  }

  lemma SameRest(a: multiset<Entry>, e: Entry, b: multiset<Entry>, f: Entry)
    requires a + multiset{e} == b + multiset{f}
    ensures b == a <==> f == e
  {
    if f != e {
      assert (a + multiset{e})[e] == a[e] + 1 && (b + multiset{f})[e] == b[e];
    } else {
      assert a == a + multiset{e} - multiset{e} && b == b + multiset{f} - multiset{f};
    }
  }

  lemma SameObjectsStep(o: seq<Entry>, s: State, step: Step)
    requires Separated(o, s) && Enabled(s, step) && !step.Commit? && SameObjects(s)
    ensures SameObjects(Next(s, step))
  {
    hide HeapOrdered, SameTerms, Separated, Same;
    if step.Open? {
      SameOpen(s.open, s.queue, InFlight(s), step.entry, step.layout);
    } else if step.Pop? {
      SamePop(s.open, s.queue, step.layout);
    } else {
      SameLists(s, step, Next(s, step));
      SameFlight(s, step);
    }
  }

  lemma SameOpen(open: seq<Entry>, queue: seq<Entry>, flight: seq<Entry>, e: Entry, layout: seq<Entry>)
    requires Same(open, queue, flight) && multiset(layout) == multiset(queue) + multiset{e}
    ensures Same(open + [e], layout, flight)
  {
    assert multiset(open + [e]) == multiset(open) + multiset{e};
  }

  lemma SamePop(open: seq<Entry>, queue: seq<Entry>, layout: seq<Entry>)
    requires Same(open, queue, []) && queue != [] && multiset(layout) == multiset(queue) - multiset{queue[0]}
    ensures Same(open, layout, [queue[0]])
  {
    assert queue[0] in queue;
    assert multiset(queue) == multiset(layout) + multiset{queue[0]};
  }

  ghost predicate ClosesFirst(s: State, step: Step)
    requires Enabled(s, step)
  {
    step.Commit? ==> FirstOf(s.open, s.timer.copy.rfqTxHash) == Some(s.timer.auction)
  }

  /** Every closing of the run closed the auction that was listed first under its hash. */
  ghost predicate InTurn(steps: seq<Step>)
    requires Run(steps)
    decreases |steps|
  {
    steps == [] || (InTurn(Front(steps)) && ClosesFirst(After(Front(steps)), Last(steps)))
  }

  /** The list held the heap's objects at every point of the run. */
  ghost predicate AlwaysSame(steps: seq<Step>)
    requires Run(steps)
    decreases |steps|
  {
    SameObjects(After(steps)) && (steps == [] || AlwaysSame(Front(steps)))
  }

  /** List and heap hold the same objects throughout a run exactly if auctions of one hash are always closed in the order
      in which they were opened. */
  lemma {:induction false} ListIsHeap(steps: seq<Step>)
    requires Run(steps)
    ensures AlwaysSame(steps) <==> InTurn(steps)
    decreases |steps|
  {
    hide Next, Enabled, Separated, Conserved, Recorded, SameObjects;
    if steps == [] {
      assert SameObjects(INIT) by { NothingListed(); }
    } else {
      var s, step := After(Front(steps)), Last(steps);
      ListIsHeap(Front(steps));
      EveryRun(Front(steps));
      if AlwaysSame(Front(steps)) {
        SameAtEnd(Front(steps));
        if step.Commit? {
          CommitInTurn(Opened(Front(steps)), s, step);
        } else {
          SameObjectsStep(Opened(Front(steps)), s, step);
        }
      }
    }
  }

  lemma SameAtEnd(steps: seq<Step>)
    requires Run(steps) && AlwaysSame(steps)
    ensures SameObjects(After(steps))
  {
  }

  lemma NothingListed()
    ensures SameObjects(INIT)
  {
  }

  lemma {:induction false} OnlyOne(o: seq<Entry>, e: Entry)
    requires e in o && Count(o, e.rfqTxHash) == 1
    ensures forall x :: x in o && x.rfqTxHash == e.rfqTxHash ==> x == e
  {
    var rest := o[1..];
    assert o == [o[0]] + rest;
    CountIn(rest, e.rfqTxHash);
    if o[0].rfqTxHash != e.rfqTxHash {
      OnlyOne(rest, e);
    }
  }

  lemma OnceFront(o: seq<Entry>, added: seq<Entry>)
    requires AtMostOnce(o + added)
    ensures AtMostOnce(o)
  {
    forall h ensures Count(o, h) <= 1 {
      CountConcat(o, added, h);
    }
  }

  lemma FirstIsOnly(o: seq<Entry>, s: State, step: Step)
    requires Separated(o, s) && Conserved(o, s) && AtMostOnce(o) && Enabled(s, step)
    ensures ClosesFirst(s, step)
  {
    hide HeapOrdered;
    if step.Commit? {
      var h, e := s.timer.copy.rfqTxHash, s.timer.auction;
      assert e.rfqTxHash == h && e in InFlight(s) && e in o;
      CountOne(e, h);
      assert Count(s.open, h) > 0;
      FirstLeaves(s.open, h);
      CountIn(o, h);
      assert Count(o, h) <= 1;
      OnlyOne(o, e);
      assert FirstOf(s.open, h).value in o;
    }
  }

  /** When no hash is opened twice that is always so, and list and heap hold the same objects. */
  lemma {:induction false} NoReopenInTurn(steps: seq<Step>)
    requires Run(steps) && NoReopen(steps)
    ensures InTurn(steps) && SameObjects(After(steps))
    decreases |steps|
  {
    hide Next, Enabled, Separated, Conserved, Recorded, SameObjects, ClosesFirst;
    if steps != [] {
      var o, s, step := Opened(Front(steps)), After(Front(steps)), Last(steps);
      OnceFront(o, Added(step));
      NoReopenInTurn(Front(steps));
      EveryRun(Front(steps));
      FirstIsOnly(o, s, step);
    }
    ListIsHeap(steps);
    SameAtEnd(steps);
  }

  // ---------- which auctions of a hash are listed ----------

  /** The auctions of one hash, in order. */
  function Of(es: seq<Entry>, h: Hash): seq<Entry> {
    if es == [] then [] else (if es[0].rfqTxHash == h then [es[0]] else []) + Of(es[1..], h)
  }

  lemma {:induction false} OfConcat(a: seq<Entry>, b: seq<Entry>, h: Hash)
    ensures Of(a + b, h) == Of(a, h) + Of(b, h) && |Of(a, h)| == Count(a, h)
  {
    if a == [] {
      assert a + b == b;
    } else {
      assert (a + b)[1..] == a[1..] + b;
      OfConcat(a[1..], b, h);
    }
  }

  lemma {:induction false} OfRemoveFirst(es: seq<Entry>, h: Hash, g: Hash)
    ensures |Of(es, g)| == Count(es, g)
    ensures Of(RemoveFirst(es, h), g) == if g == h && Count(es, h) > 0 then Of(es, g)[1..] else Of(es, g)
  {
    OfConcat(es, [], g);
    if es != [] && es[0].rfqTxHash != h {
      OfRemoveFirst(es[1..], h, g);
      assert ([es[0]] + RemoveFirst(es[1..], h))[1..] == RemoveFirst(es[1..], h);
    }
  }

  ghost predicate LastListed(o: seq<Entry>, s: State, h: Hash) {
    Count(s.closed, h) <= |Of(o, h)| && Of(s.open, h) == Of(o, h)[Count(s.closed, h)..]
  }

  lemma LastListedOpen(o: seq<Entry>, s: State, step: Step, h: Hash)
    requires Enabled(s, step) && step.Open? && LastListed(o, s, h)
    ensures LastListed(o + [step.entry], Next(s, step), h)
  {
    hide HeapOrdered, Of, Count;
    OfConcat(o, [step.entry], h);
    OfConcat(s.open, [step.entry], h);
  }

  lemma LastListedCommit(o: seq<Entry>, s: State, step: Step, h: Hash)
    requires Separated(o, s) && Conserved(o, s) && Enabled(s, step) && step.Commit? && LastListed(o, s, h)
    ensures LastListed(o, Next(s, step), h)
  {
    hide HeapOrdered, Of, RemoveFirst;
    var c := s.timer.copy;
    CountOne(s.timer.auction, c.rfqTxHash);
    assert Count(s.open, c.rfqTxHash) > 0;
    hide Count, Separated, Conserved;
    OfRemoveFirst(s.open, c.rfqTxHash, h);
    OfRemoveFirst(s.open, h, h);
    CountConcat(s.closed, [c], h);
    CountOne(c, h);
  }

  /** In every run the listed auctions of a hash are the last ones that were opened with it, as many as are not closed
      yet, whichever of them were closed. */
  lemma {:induction false} ListedAreLast(steps: seq<Step>, h: Hash)
    requires Run(steps)
    ensures LastListed(Opened(steps), After(steps), h)
    decreases |steps|
  {
    hide Next, Enabled, Separated, Conserved, Recorded, LastListed;
    if steps == [] {
      NoneListed(h);
    } else {
      var o, s, step := Opened(Front(steps)), After(Front(steps)), Last(steps);
      ListedAreLast(Front(steps), h);
      EveryRun(Front(steps));
      assert !step.Open? ==> Opened(steps) == o;
      if step.Open? {
        LastListedOpen(o, s, step, h);
      } else if step.Commit? {
        LastListedCommit(o, s, step, h);
      } else {
        LastListedElse(o, s, step, h);
      }
    }
  }

  lemma NoneListed(h: Hash)
    ensures LastListed([], INIT, h)
  {
  }

  lemma LastListedElse(o: seq<Entry>, s: State, step: Step, h: Hash)
    requires Enabled(s, step) && !step.Open? && !step.Commit? && LastListed(o, s, h)
    ensures LastListed(o, Next(s, step), h)
  {
    if !step.Pop? {
      SameLists(s, step, Next(s, step));
    }
  }
}
