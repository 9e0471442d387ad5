/** What becomes of an auction's quotes and of its closed record, in every run;
    and what is live when no request hash is opened twice. */
module AuctionHistory {
  import opened Bytes
  import opened Types
  import opened AuctionQueue
  import opened AuctionMachine
  import opened AuctionTheorems
  import opened AuctionObjects

  // ---------- the open map is the live set ----------

  /** Every listed auction is the one the map holds under its hash, and is OPEN unless
      the timer has just closed it. */
  ghost predicate Reachable(s: State) {
    forall e :: e in s.open ==>
      && e.rfqTxHash in s.byHash && s.byHash[e.rfqTxHash] == e
      && e in s.bodies
      && s.bodies[e].status == if s.timer.Copied? && s.timer.auction == e then CLOSED else OPEN
  }

  lemma OnceGone(open: seq<Entry>, h: Hash)
    requires Count(open, h) <= 1
    ensures forall e :: e in RemoveFirst(open, h) ==> e in open && e.rfqTxHash != h
  {
    RemoveFirstWithin(open, h);
    CountRemoveFirst(open, h, h);
    CountIn(RemoveFirst(open, h), h);
  }

  /** A hash that is opened for the first time is not listed yet. */
  lemma NewHash(o: seq<Entry>, s: State, e: Entry)
    requires Conserved(o, s) && AtMostOnce(o + [e])
    ensures forall x :: x in s.open ==> x.rfqTxHash != e.rfqTxHash
    ensures e.rfqTxHash !in s.byHash && Count(o, e.rfqTxHash) == 0
  {
    CountConcat(o, [e], e.rfqTxHash);
    CountOne(e, e.rfqTxHash);
    CountIn(s.open, e.rfqTxHash);
  }

  lemma ReachableOpen(s: State, step: Step)
    requires Enabled(s, step) && step.Open? && Reachable(s)
    requires forall x :: x in s.open ==> x.rfqTxHash != step.entry.rfqTxHash
    requires s.timer.Copied? ==> s.timer.auction in s.bodies
    ensures Reachable(Next(s, step))
  {
  }

  lemma ReachableCommit(o: seq<Entry>, s: State, step: Step)
    requires Enabled(s, step) && step.Commit? && Reachable(s)
    requires Separated(o, s) && Count(s.open, s.timer.copy.rfqTxHash) <= 1
    ensures Reachable(Next(s, step))
  {
    var h, r := s.timer.copy.rfqTxHash, Next(s, step);
    assert s.timer.auction.rfqTxHash == h;
    assert r.open == RemoveFirst(s.open, h) && r.byHash == s.byHash - {h} && r.bodies == s.bodies && r.timer.Written?;
    hide Separated, Next, Enabled, RemoveFirst, Count;
    OnceGone(s.open, h);
    forall e | e in r.open
      ensures e.rfqTxHash in r.byHash && r.byHash[e.rfqTxHash] == e && e in r.bodies && r.bodies[e].status == OPEN
    {
      assert e in s.open && e.rfqTxHash != h;
    }
  }

  lemma ReachableElse(s: State, step: Step)
    requires Enabled(s, step) && !step.Open? && !step.Commit? && Reachable(s)
    ensures Reachable(Next(s, step))
  {
    match step
    case Copy(_) =>
    case UpdateActive(_) =>
    case WriteQuote(_) =>
    case Pop(_) =>
    case StartPass(_) =>
    case Emit =>
    case EndPass =>
  }

  lemma {:induction false} NoReopenReachable(steps: seq<Step>)
    requires Run(steps) && NoReopen(steps)
    ensures Reachable(After(steps))
    decreases |steps|
  {
    if steps != [] {
      var o, s, step := Opened(Front(steps)), After(Front(steps)), Last(steps);
      OnceFront(o, Added(step));
      NoReopenReachable(Front(steps));
      EveryRun(Front(steps));
      if step.Open? {
        NewHash(o, s, step.entry);
        ReachableOpen(s, step);
      } else if step.Commit? {
        ReachableCommit(o, s, step);
      } else {
        ReachableElse(s, step);
      }
    }
  }

  /** When no hash is reopened, the open map's keys are exactly the live hashes, and no hash is both
      live and closed. */
  lemma LiveAndClosed(steps: seq<Step>)
    requires Run(steps) && NoReopen(steps)
    ensures Reachable(After(steps))
    ensures forall h :: h in After(steps).byHash <==> Count(After(steps).open, h) > 0
    ensures forall h :: Count(After(steps).open, h) == 0 || Count(After(steps).closed, h) == 0
  {
    var s := After(steps);
    EveryRun(steps);
    NoReopenReachable(steps);
    forall h | Count(s.open, h) > 0 ensures h in s.byHash {
      CountIn(s.open, h);
    }
  }

  // ---------- quotes ----------

  /** Each auction holds the quotes accepted for it. */
  ghost predicate HoldsAccepted(steps: seq<Step>, e: Entry)
    requires Run(steps)
  {
    e in After(steps).bodies && After(steps).bodies[e].quotes == Accepted(steps, e)
  }

  /** The i-th copy holds them up to the late ones. */
  ghost predicate HoldsEarly(steps: seq<Step>, i: nat)
    requires Run(steps) && i < |Originals(steps)| && i < |Copies(After(steps))|
  {
    var c, e := Copies(After(steps))[i], Originals(steps)[i];
    c in After(steps).bodies && Accepted(steps, e) == After(steps).bodies[c].quotes + Late(steps, e)
  }

  ghost predicate Kept(steps: seq<Step>)
    requires Run(steps)
  {
    && |Originals(steps)| == |Copies(After(steps))|
    && (forall e :: e in Opened(steps) ==> HoldsAccepted(steps, e))
    && (forall i :: 0 <= i < |Originals(steps)| ==> HoldsEarly(steps, i))
  }

  /** What is not opened yet has no quotes, and what is not copied yet no late ones. */
  lemma {:induction false} NothingBefore(steps: seq<Step>, e: Entry)
    requires Run(steps)
    ensures e !in Opened(steps) ==> Accepted(steps, e) == []
    ensures e !in Originals(steps) ==> Late(steps, e) == []
    decreases |steps|
  {
    hide Next, Enabled, Conserved, Recorded, Parts;
    if steps != [] {
      NothingBefore(Front(steps), e);
      EveryRun(Front(steps));
      EveryObject(Front(steps));
    }
  }

  /** Steps that append no quote leave the history of every auction as it is. */
  lemma SameHistory(steps: seq<Step>, e: Entry)
    requires Run(steps) && steps != [] && !AcceptsFor(After(Front(steps)), Last(steps), e)
    ensures Accepted(steps, e) == Accepted(Front(steps), e) && Late(steps, e) == Late(Front(steps), e)
  {
    hide Next, Enabled;
  }

  lemma OneMoreQuote(steps: seq<Step>, e: Entry)
    requires Run(steps) && steps != [] && AcceptsFor(After(Front(steps)), Last(steps), e)
    ensures Accepted(steps, e) == Accepted(Front(steps), e) + [Last(steps).quote]
    ensures Late(steps, e)
      == Late(Front(steps), e) + if AcceptsLate(After(Front(steps)), Last(steps)) then [Last(steps).quote] else []
  {
    hide Next, Enabled;
  }

  /** What moves neither an auction's quotes nor its history keeps the two equal. */
  lemma AcceptedStays(steps: seq<Step>, e: Entry)
    requires Run(steps) && steps != [] && HoldsAccepted(Front(steps), e)
    requires !AcceptsFor(After(Front(steps)), Last(steps), e)
    requires e in After(steps).bodies && After(steps).bodies[e].quotes == After(Front(steps)).bodies[e].quotes
    ensures HoldsAccepted(steps, e)
  {
    hide After, Run;
    SameHistory(steps, e);
  }

  lemma EarlyStays(steps: seq<Step>, i: nat)
    requires Run(steps) && steps != [] && i < |Originals(Front(steps))| && i < |Copies(After(Front(steps)))|
    requires HoldsEarly(Front(steps), i) && i < |Originals(steps)| && i < |Copies(After(steps))|
    requires Originals(steps)[i] == Originals(Front(steps))[i] && Copies(After(steps))[i] == Copies(After(Front(steps)))[i]
    requires !AcceptsFor(After(Front(steps)), Last(steps), Originals(steps)[i])
    requires var c := Copies(After(steps))[i];
      c in After(steps).bodies && After(steps).bodies[c] == After(Front(steps)).bodies[c]
    ensures HoldsEarly(steps, i)
  {
    hide After, Run, Originals, Copies;
    SameHistory(steps, Originals(steps)[i]);
  }

  lemma OpenMoves(o: seq<Entry>, s: State, step: Step)
    requires Separated(o, s) && Enabled(s, step) && step.Open?
    ensures step.entry !in o && Next(s, step).bodies == s.bodies[step.entry := Body([], OPEN)] && step.entry !in s.bodies
    ensures Copies(Next(s, step)) == Copies(s) && forall c :: c in Copies(s) ==> c in s.bodies
  {
    hide HeapOrdered;
  }

  lemma OpenRun(steps: seq<Step>)
    requires steps != [] && Run(steps) && Last(steps).Open?
    ensures var s, r, e := After(Front(steps)), After(steps), Last(steps).entry;
      && e !in Opened(Front(steps)) && e !in s.bodies && r.bodies == s.bodies[e := Body([], OPEN)]
      && Copies(r) == Copies(s) && (forall c :: c in Copies(s) ==> c in s.bodies)
      && Opened(steps) == Opened(Front(steps)) + [e] && Originals(steps) == Originals(Front(steps))
  {
    hide Next, Enabled, Separated, Conserved, Recorded, Copies;
    EveryRun(Front(steps));
    OpenMoves(Opened(Front(steps)), After(Front(steps)), Last(steps));
  }

  lemma KeptOpen(steps: seq<Step>)
    requires steps != [] && Run(steps) && Kept(Front(steps)) && Last(steps).Open?
    ensures Kept(steps)
  {
    assert Run(Front(steps));
    hide Run, After, Opened, Originals, Copies, Accepted, Late;
    var s, step := After(Front(steps)), Last(steps);
    OpenRun(steps);
    NothingBefore(Front(steps), step.entry);
    SameHistory(steps, step.entry);
    forall e | e in Opened(steps) ensures HoldsAccepted(steps, e) {
      if e != step.entry {
        assert HoldsAccepted(Front(steps), e);
        AcceptedStays(steps, e);
      }
    }
    forall i | 0 <= i < |Originals(steps)| ensures HoldsEarly(steps, i) {
      assert HoldsEarly(Front(steps), i) && Copies(s)[i] in Copies(s);
      EarlyStays(steps, i);
    }
  }

  /** A copied auction that the map still leads to is the one whose copy is about to be written. */
  lemma StillMapped(steps: seq<Step>, h: Hash, i: nat)
    requires Run(steps) && h in After(steps).byHash && i < |Originals(steps)| && Originals(steps)[i] == After(steps).byHash[h]
    ensures After(steps).timer.Copied? && After(steps).timer.auction == After(steps).byHash[h]
  {
    hide Run, After, Originals, Opened;
    MappedWaits(steps);
    EveryObject(steps);
    Elsewhere(Opened(steps), After(steps).queue, Uncopied(After(steps)), Originals(steps), After(steps).byHash[h]);
  }

  lemma Elsewhere(o: seq<Entry>, queue: seq<Entry>, uncopied: seq<Entry>, originals: seq<Entry>, e: Entry)
    requires Parts(o, queue, uncopied, originals) && e in originals
    ensures e !in queue && e !in uncopied
  {
    assert e in multiset(originals) && e in multiset(o);
    assert e in o && multiset(o)[e] == 1;
    assert multiset(queue)[e] == 0 && multiset(uncopied)[e] == 0;
  }

  lemma UpdateMoves(o: seq<Entry>, s: State, step: Step, e: Entry)
    requires Separated(o, s) && Enabled(s, step) && AcceptsFor(s, step, e)
    ensures e in o && e in s.bodies && Copies(Next(s, step)) == Copies(s)
    ensures Next(s, step).bodies == s.bodies[e := s.bodies[e].(quotes := s.bodies[e].quotes + [step.quote])]
    ensures forall c :: c in Copies(s) ==> c != e && c in s.bodies
  {
  }

  lemma UpdateRun(steps: seq<Step>, e: Entry)
    requires steps != [] && Run(steps) && AcceptsFor(After(Front(steps)), Last(steps), e)
    ensures var s, r, q := After(Front(steps)), After(steps), Last(steps).quote;
      && e in s.bodies && r.bodies == s.bodies[e := s.bodies[e].(quotes := s.bodies[e].quotes + [q])]
      && Copies(r) == Copies(s) && (forall c :: c in Copies(s) ==> c != e && c in s.bodies)
      && Opened(steps) == Opened(Front(steps)) && Originals(steps) == Originals(Front(steps))
  {
    hide Next, Enabled, Separated, Conserved, Recorded, Copies;
    EveryRun(Front(steps));
    UpdateMoves(Opened(Front(steps)), After(Front(steps)), Last(steps), e);
  }

  lemma EarlyAppended(steps: seq<Step>, e: Entry, i: nat)
    requires steps != [] && Run(steps) && AcceptsFor(After(Front(steps)), Last(steps), e)
    requires i < |Originals(Front(steps))| && i < |Copies(After(Front(steps)))| && HoldsEarly(Front(steps), i)
    requires Originals(Front(steps))[i] == e
    ensures i < |Originals(steps)| && i < |Copies(After(steps))| && HoldsEarly(steps, i)
  {
    assert Run(Front(steps));
    hide Run, After, Opened, Originals, Copies, Accepted, Late;
    var s, q := After(Front(steps)), Last(steps).quote;
    UpdateRun(steps, e);
    OneMoreQuote(steps, e);
    StillMapped(Front(steps), q.data.rfqTxHash, i);
    var c := Copies(s)[i];
    assert c in Copies(s);
    Reassociate(s.bodies[c].quotes, Late(Front(steps), e), q);
  }

  lemma Reassociate(early: seq<Quote>, late: seq<Quote>, q: Quote)
    ensures early + late + [q] == early + (late + [q])
  {
  }

  lemma KeptUpdate(steps: seq<Step>, e: Entry)
    requires steps != [] && Run(steps) && Kept(Front(steps)) && AcceptsFor(After(Front(steps)), Last(steps), e)
    ensures Kept(steps)
  {
    assert Run(Front(steps));
    hide Run, After, Opened, Originals, Copies, Accepted, Late;
    var s, step := After(Front(steps)), Last(steps);
    UpdateRun(steps, e);
    OneMoreQuote(steps, e);
    forall x | x in Opened(steps) ensures HoldsAccepted(steps, x) {
      assert HoldsAccepted(Front(steps), x);
      if x != e { AcceptedStays(steps, x); }
    }
    forall i | 0 <= i < |Originals(steps)| ensures HoldsEarly(steps, i) {
      assert HoldsEarly(Front(steps), i) && Copies(s)[i] in Copies(s);
      if Originals(steps)[i] == e {
        EarlyAppended(steps, e, i);
      } else {
        EarlyStays(steps, i);
      }
    }
  }

  lemma CopyMoves(o: seq<Entry>, s: State, step: Step)
    requires Separated(o, s) && Enabled(s, step) && step.Copy?
    ensures var e, body := s.timer.auction, s.bodies[s.timer.auction].(status := CLOSED);
      && e in o && step.copy !in s.bodies && step.copy != e
      && Next(s, step).bodies == s.bodies[e := body][step.copy := body]
      && Copies(Next(s, step)) == Copies(s) + [step.copy]
    ensures forall c :: c in Copies(s) ==> c != s.timer.auction && c in s.bodies
    ensures s.timer.Popped?
  {
    hide SameTerms;
  }

  lemma CopyRun(steps: seq<Step>)
    requires steps != [] && Run(steps) && Last(steps).Copy?
    ensures After(Front(steps)).timer.Popped?
    ensures var s, r, c := After(Front(steps)), After(steps), Last(steps).copy;
      var e := s.timer.auction;
      && e in s.bodies && e in Opened(Front(steps)) && e !in Originals(Front(steps)) && c !in s.bodies
      && (var body := s.bodies[e].(status := CLOSED); r.bodies == s.bodies[e := body][c := body])
      && Copies(r) == Copies(s) + [c] && (forall x :: x in Copies(s) ==> x != e && x in s.bodies)
      && Opened(steps) == Opened(Front(steps)) && Originals(steps) == Originals(Front(steps)) + [e]
  {
    hide Next, Enabled, Separated, Conserved, Recorded, Copies, Parts, Paired;
    var o, s := Opened(Front(steps)), After(Front(steps));
    EveryRun(Front(steps));
    EveryObject(Front(steps));
    CopyMoves(o, s, Last(steps));
    PartsCopy(o, s.queue, Originals(Front(steps)), s.timer.auction);
  }

  lemma KeptCopy(steps: seq<Step>)
    requires steps != [] && Run(steps) && Kept(Front(steps)) && Last(steps).Copy?
    ensures Kept(steps)
  {
    assert Run(Front(steps));
    hide Run, After, Opened, Originals, Copies, Accepted, Late;
    CopyRun(steps);
    var s := After(Front(steps));
    var e, n := s.timer.auction, |Originals(Front(steps))|;
    assert HoldsAccepted(Front(steps), e);
    forall x | x in Opened(steps) ensures HoldsAccepted(steps, x) {
      assert HoldsAccepted(Front(steps), x);
      AcceptedStays(steps, x);
    }
    forall i | 0 <= i < |Originals(steps)| ensures HoldsEarly(steps, i) {
      if i < n {
        assert HoldsEarly(Front(steps), i) && Copies(s)[i] in Copies(s);
        EarlyStays(steps, i);
      } else {
        CopyIsEarly(steps);
      }
    }
  }

  lemma CopyIsEarly(steps: seq<Step>)
    requires steps != [] && Run(steps) && Last(steps).Copy? && |Originals(Front(steps))| == |Copies(After(Front(steps)))|
    requires After(Front(steps)).timer.Popped? && HoldsAccepted(Front(steps), After(Front(steps)).timer.auction)
    ensures var n := |Originals(Front(steps))|;
      |Originals(steps)| == |Copies(After(steps))| == n + 1 && HoldsEarly(steps, n)
  {
    assert Run(Front(steps));
    hide Run, After, Opened, Originals, Copies, Accepted, Late;
    CopyRun(steps);
    var e := After(Front(steps)).timer.auction;
    NothingBefore(Front(steps), e);
    SameHistory(steps, e);
    assert Accepted(steps, e) + [] == Accepted(steps, e);
  }

  lemma NothingMoves(s: State, step: Step)
    requires Enabled(s, step) && !step.Open? && !step.Copy?
    requires step.UpdateActive? ==> step.quote.data.rfqTxHash !in s.byHash
    ensures Next(s, step).bodies == s.bodies && Copies(Next(s, step)) == Copies(s) && Added(step) == []
  {
    match step
    case Commit =>
    case UpdateActive(_) =>
    case WriteQuote(_) =>
    case Pop(_) =>
    case StartPass(_) =>
    case Emit =>
    case EndPass =>
  }

  lemma KeptElse(steps: seq<Step>)
    requires steps != [] && Run(steps) && Kept(Front(steps))
    requires !Last(steps).Open? && !Last(steps).Copy?
    requires Last(steps).UpdateActive? ==> Last(steps).quote.data.rfqTxHash !in After(Front(steps)).byHash
    ensures Kept(steps)
  {
    NothingMoves(After(Front(steps)), Last(steps));
    assert Opened(steps) == Opened(Front(steps)) && Originals(steps) == Originals(Front(steps));
    hide Next, Enabled, Run, Accepted, Late, Opened, Originals;
    forall x | x in Opened(steps) ensures HoldsAccepted(steps, x) {
      assert HoldsAccepted(Front(steps), x);
      AcceptedStays(steps, x);
    }
    forall i | 0 <= i < |Originals(steps)| ensures HoldsEarly(steps, i) {
      assert HoldsEarly(Front(steps), i);
      EarlyStays(steps, i);
    }
  }

  /** In every run each auction holds exactly the quotes that were accepted while the map led to it, in order, and each copy
      those of its original that came before the copy. */
  lemma {:induction false} QuotesKept(steps: seq<Step>)
    requires Run(steps)
    ensures Kept(steps)
    decreases |steps|
  {
    hide Next, Enabled, Kept;
    if steps == [] {
      NothingKept();
    } else {
      var s, step := After(Front(steps)), Last(steps);
      QuotesKept(Front(steps));
      if step.Open? {
        KeptOpen(steps);
      } else if step.Copy? {
        KeptCopy(steps);
      } else if step.UpdateActive? && step.quote.data.rfqTxHash in s.byHash {
        KeptUpdate(steps, s.byHash[step.quote.data.rfqTxHash]);
      } else {
        KeptElse(steps);
      }
    }
  }

  lemma NothingKept()
    ensures Run([]) && Kept([])
  {
  }

  /** No quote is accepted between the deep copy of an auction and the write that unlists it. */
  ghost predicate Undisturbed(steps: seq<Step>)
    requires Run(steps)
  {
    steps == [] || (Undisturbed(Front(steps)) && !AcceptsLate(After(Front(steps)), Last(steps)))
  }

  lemma {:induction false} UndisturbedNotLate(steps: seq<Step>, e: Entry)
    requires Run(steps) && Undisturbed(steps)
    ensures Late(steps, e) == []
    decreases |steps|
  {
    hide Next, Enabled;
    if steps != [] {
      UndisturbedNotLate(Front(steps), e);
    }
  }

  /** In every run the i-th closed record's quotes are a prefix of the quotes accepted for the auction it was made from, in
      order; the rest are the late ones. So it holds every accepted quote exactly when none was late, and always when the
      passes run undisturbed. */
  lemma ClosedQuotes(steps: seq<Step>, i: nat)
    requires Run(steps) && i < |After(steps).closed|
    ensures i < |Originals(steps)| && SameTerms(After(steps).closed[i], Originals(steps)[i])
    ensures After(steps).closed[i] in After(steps).bodies
    ensures var e, quotes := Originals(steps)[i], After(steps).bodies[After(steps).closed[i]].quotes;
      && Accepted(steps, e) == quotes + Late(steps, e)
      && (quotes == Accepted(steps, e) <==> Late(steps, e) == [])
      && (Undisturbed(steps) ==> quotes == Accepted(steps, e))
  {
    hide Run, After, Accepted, Late, Undisturbed, SameTerms, Parts;
    QuotesKept(steps);
    EveryObject(steps);
    assert Copies(After(steps))[i] == After(steps).closed[i] && HoldsEarly(steps, i);
    if Undisturbed(steps) {
      UndisturbedNotLate(steps, Originals(steps)[i]);
    }
  }

  // ---------- closed for ever ----------

  lemma FrozenStep(o: seq<Entry>, s: State, step: Step, c: Entry)
    requires Separated(o, s) && Enabled(s, step) && c in s.closed
    ensures s.closed <= Next(s, step).closed
    ensures c in s.bodies && c in Next(s, step).bodies && Next(s, step).bodies[c] == s.bodies[c]
  {
    assert c in Copies(s);
  }

  /** Whatever happens later, a closed auction stays in the closed list at its place, CLOSED, with the
      same quotes. */
  lemma {:induction false} ClosedForever(steps: seq<Step>, k: nat, c: Entry)
    requires Run(steps) && k <= |steps| && c in At(steps, k).closed
    ensures At(steps, k).closed <= After(steps).closed
    ensures c in At(steps, k).bodies && c in After(steps).bodies
    ensures After(steps).bodies[c] == At(steps, k).bodies[c] && After(steps).bodies[c].status == CLOSED
    decreases |steps|
  {
    EveryRun(steps);
    if k == |steps| {
      assert steps[..k] == steps;
      assert c in Copies(After(steps));
    } else {
      assert Front(steps)[..k] == steps[..k];
      ClosedForever(Front(steps), k, c);
      EveryRun(Front(steps));
      FrozenStep(Opened(Front(steps)), After(Front(steps)), Last(steps), c);
      assert c in Copies(After(steps));
    }
  }

  // ---------- the tables ----------

  /** Under each hash stands the record of the auction that was closed last with it. */
  ghost predicate LastStored(s: State) {
    forall h :: h in s.closedTable ==>
      exists i :: 0 <= i < |s.closed| && IsLast(s.closed, i, h) && StoredAt(s, s.closed[i], h)
  }

  ghost predicate IsLast(es: seq<Entry>, i: nat, h: Hash) {
    i < |es| && es[i].rfqTxHash == h && forall j :: i < j < |es| ==> es[j].rfqTxHash != h
  }

  ghost predicate StoredAt(s: State, c: Entry, h: Hash) {
    h in s.closedTable && c in s.bodies && Describes(s.closedTable[h], c, s.bodies[c].quotes, s.bodies[c].status)
  }

  lemma StoredCommit(s: State, step: Step)
    requires Enabled(s, step) && step.Commit? && LastStored(s)
    ensures LastStored(Next(s, step))
  {
    var r, c := Next(s, step), s.timer.copy;
    assert r.closed == s.closed + [c] && r.bodies == s.bodies;
    assert r.closedTable == s.closedTable[c.rfqTxHash := c.Record(s.bodies[c].quotes, s.bodies[c].status)];
    hide Next, Enabled, Describes;
    forall h | h in r.closedTable
      ensures exists i :: 0 <= i < |r.closed| && IsLast(r.closed, i, h) && StoredAt(r, r.closed[i], h)
    {
      if h == c.rfqTxHash {
        assert IsLast(r.closed, |s.closed|, h) && StoredAt(r, r.closed[|s.closed|], h);
      } else {
        var i :| 0 <= i < |s.closed| && IsLast(s.closed, i, h) && StoredAt(s, s.closed[i], h);
        assert IsLast(r.closed, i, h) && StoredAt(r, r.closed[i], h);
      }
    }
  }

  lemma SameTable(s: State, step: Step)
    requires Enabled(s, step) && !step.Commit?
    ensures Next(s, step).closedTable == s.closedTable && Next(s, step).closed == s.closed
  {
    match step
    case Open(_, _, _) =>
    case WriteQuote(_) =>
    case UpdateActive(_) =>
    case StartPass(_) =>
    case Pop(_) =>
    case Copy(_) =>
    case Emit =>
    case EndPass =>
  }

  lemma StoredElse(o: seq<Entry>, s: State, step: Step)
    requires Separated(o, s) && Enabled(s, step) && !step.Commit? && LastStored(s)
    ensures LastStored(Next(s, step))
  {
    hide Next, Enabled, Separated, IsLast, Describes;
    var r := Next(s, step);
    SameTable(s, step);
    forall h | h in r.closedTable
      ensures exists i :: 0 <= i < |r.closed| && IsLast(r.closed, i, h) && StoredAt(r, r.closed[i], h)
    {
      var i :| 0 <= i < |s.closed| && IsLast(s.closed, i, h) && StoredAt(s, s.closed[i], h);
      FrozenStep(o, s, step, s.closed[i]);
      assert IsLast(r.closed, i, h) && StoredAt(r, r.closed[i], h);
    }
  }

  lemma {:induction false} ClosedTableLast(steps: seq<Step>)
    requires Run(steps)
    ensures LastStored(After(steps))
    decreases |steps|
  {
    hide Next, Enabled, Separated, Conserved, Recorded, LastStored;
    if steps == [] {
      NothingStored();
    } else {
      ClosedTableLast(Front(steps));
      EveryRun(Front(steps));
      if Last(steps).Commit? {
        StoredCommit(After(Front(steps)), Last(steps));
      } else {
        StoredElse(Opened(Front(steps)), After(Front(steps)), Last(steps));
      }
    }
  }

  /** In every run the closed table holds under each hash the record of the auction closed last with it; when no hash is
      opened twice, that is the record of every closed auction. */
  lemma ClosedTableExact(steps: seq<Step>)
    requires Run(steps)
    ensures LastStored(After(steps))
    ensures NoReopen(steps) ==> forall c :: c in After(steps).closed ==> StoredAt(After(steps), c, c.rfqTxHash)
  {
    hide Run, After, Opened, Separated;
    ClosedTableLast(steps);
    EveryRun(steps);
    if NoReopen(steps) {
      OnlyRecords(Opened(steps), After(steps));
    }
  }

  lemma OnlyRecords(o: seq<Entry>, s: State)
    requires Conserved(o, s) && Recorded(o, s) && AtMostOnce(o) && LastStored(s)
    ensures forall c :: c in s.closed ==> StoredAt(s, c, c.rfqTxHash)
  {
    hide HeapOrdered;
    forall c | c in s.closed ensures StoredAt(s, c, c.rfqTxHash) {
      CountIn(s.closed, c.rfqTxHash);
      assert Count(o, c.rfqTxHash) <= 1;
      OnlyOne(s.closed, c);
      var i :| 0 <= i < |s.closed| && IsLast(s.closed, i, c.rfqTxHash) && StoredAt(s, s.closed[i], c.rfqTxHash);
      assert s.closed[i] in s.closed;
    }
  }

  lemma NothingStored()
    ensures LastStored(INIT)
  {
  }

  /** Under each hash stands the record of the auction that was opened last with it, as it was then. */
  ghost predicate FirstStored(o: seq<Entry>, t: map<Hash, OpenRFQ>) {
    forall h :: h in t ==> exists i :: 0 <= i < |o| && IsLast(o, i, h) && Describes(t[h], o[i], [], OPEN)
  }

  lemma FirstStoredOpen(o: seq<Entry>, t: map<Hash, OpenRFQ>, e: Entry, record: OpenRFQ)
    requires FirstStored(o, t) && Describes(record, e, [], OPEN)
    ensures FirstStored(o + [e], t[e.rfqTxHash := record])
  {
    hide Describes;
    var o', t' := o + [e], t[e.rfqTxHash := record];
    forall h | h in t' ensures exists i :: 0 <= i < |o'| && IsLast(o', i, h) && Describes(t'[h], o'[i], [], OPEN) {
      if h == e.rfqTxHash {
        assert IsLast(o', |o|, h) && Describes(t'[h], o'[|o|], [], OPEN);
      } else {
        var i :| 0 <= i < |o| && IsLast(o, i, h) && Describes(t[h], o[i], [], OPEN);
        assert IsLast(o', i, h) && Describes(t'[h], o'[i], [], OPEN);
      }
    }
  }

  lemma OpenTableOpen(s: State, step: Step)
    requires Enabled(s, step) && step.Open?
    ensures Next(s, step).openTable == s.openTable[step.entry.rfqTxHash := step.entry.Record([], OPEN)]
  {
    hide HeapOrdered;
  }

  lemma OpenTableElse(s: State, step: Step)
    requires Enabled(s, step) && !step.Open?
    ensures Next(s, step).openTable == s.openTable
  {
    hide HeapOrdered, SameTerms;
    match step
    case WriteQuote(_) =>
    case UpdateActive(_) =>
    case StartPass(_) =>
    case Pop(_) =>
    case Copy(_) =>
    case Commit =>
    case Emit =>
    case EndPass =>
  }

  /** In every run the open table holds under each hash the record of the auction opened last with it, as it was when it was
      opened, so without quotes: the table is written then and never again. */
  lemma {:induction false} OpenTableExact(steps: seq<Step>)
    requires Run(steps)
    ensures FirstStored(Opened(steps), After(steps).openTable)
    ensures NeverQuoted(After(steps).openTable)
    decreases |steps|
  {
    hide Next, Enabled, Describes, FirstStored;
    if steps == [] {
      NoRecords();
    } else {
      var s, step := After(Front(steps)), Last(steps);
      OpenTableExact(Front(steps));
      if step.Open? {
        OpenTableOpen(s, step);
        RecordDescribes(step.entry, [], OPEN);
        FirstStoredOpen(Opened(Front(steps)), s.openTable, step.entry, step.entry.Record([], OPEN));
      } else {
        OpenTableElse(s, step);
        assert Opened(steps) == Opened(Front(steps));
      }
    }
    OpenedBare(Opened(steps), After(steps).openTable);
  }

  lemma NoRecords()
    ensures FirstStored([], INIT.openTable)
  {
  }

  ghost predicate NeverQuoted(t: map<Hash, OpenRFQ>) {
    forall h :: h in t ==> t[h].data.quotes == []
  }

  lemma OpenedBare(o: seq<Entry>, t: map<Hash, OpenRFQ>)
    requires FirstStored(o, t)
    ensures NeverQuoted(t)
  {
  }
}
