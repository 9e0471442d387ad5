/** Runs that show what the general results leave open does happen. */
module AuctionScenarios {
  import opened Bytes
  import opened Types
  import opened AuctionQueue
  import opened AuctionMachine

  /** A new auction with the end time the server gives it. */
  ghost predicate Timed(e: Entry) {
    e.endTime == EndTime(e.startTime, e.request.rfqDurationMs)
  }

  function Opening(e: Entry, layout: seq<Entry>): Step {
    Open(e, Body([], OPEN), layout)
  }

  /** A request is opened twice and the auction opened first is closed: the other stays listed, in the heap and open, and
      quotes for it no longer find it. */
  lemma ReopenedWhileLive(e: Entry, f: Entry, c: Entry, now: int64)
    requires Timed(e) && Timed(f) && e.rfqTxHash == f.rfqTxHash && e.endTime <= f.endTime && e.endTime <= now
    requires e != f && c != e && c != f && SameTerms(c, e)
    ensures var steps := [] + [Opening(e, [e])] + [Opening(f, [e, f])] + [StartPass(now)] + [Pop([f])] + [Copy(c)] + [Commit];
      && Run(steps)
      && After(steps).open == After(steps).queue == [f] && f in After(steps).bodies
      && After(steps).bodies[f] == Body([], OPEN) && f.rfqTxHash !in After(steps).byHash
  {
    hide Run, After, Accepted, Late, Opened;
    OpenAlone(e);
    assert multiset([e, f]) == multiset([e]) + multiset{f};
    assert multiset([f]) == multiset([e, f]) - multiset{e};
    var two := [] + [Opening(e, [e])] + [Opening(f, [e, f])];
    Extend([] + [Opening(e, [e])], Opening(f, [e, f]));
    Extend(two, StartPass(now));
    Extend(two + [StartPass(now)], Pop([f]));
    Extend(two + [StartPass(now)] + [Pop([f])], Copy(c));
    Extend(two + [StartPass(now)] + [Pop([f])] + [Copy(c)], Commit);
    assert RemoveFirst([e, f], e.rfqTxHash) == [f];
  }

  lemma Start()
    ensures Run([]) && After([]) == INIT
  {
  }

  /** The state in which one auction has just been opened. */
  ghost function OpenState(e: Entry): State {
    OpenEffect(INIT, e, Body([], OPEN), [e])
  }

  lemma OpenAlone(e: Entry)
    requires Timed(e)
    ensures var steps := [] + [Opening(e, [e])];
      && Run(steps) && After(steps) == OpenState(e)
      && Accepted(steps, e) == [] && Late(steps, e) == [] && Opened(steps) == [e]
  {
    hide Run, After, Accepted, Late, Opened;
    Start();
    NothingYet(e);
    assert HeapOrdered([e]) && multiset([e]) == multiset([]) + multiset{e};
    Extend([], Opening(e, [e]));
    Silent([], Opening(e, [e]), e);
  }

  /** An auction is opened, taken by the timer and copied. */
  function UpToCopy(e: Entry, c: Entry, now: int64): seq<Step> {
    [] + [Opening(e, [e])] + [StartPass(now)] + [Pop([])] + [Copy(c)]
  }

  lemma CopyWaits(e: Entry, c: Entry, now: int64)
    requires Timed(e) && e.endTime <= now && c != e && SameTerms(c, e)
    ensures var steps, closed := UpToCopy(e, c, now), Body([], CLOSED);
      && Run(steps)
      && After(steps) == INIT.(
           bodies := map[e := closed, c := closed], open := [e], byHash := map[e.rfqTxHash := e],
           openTable := map[e.rfqTxHash := e.Record([], OPEN)], timer := Copied(now, e, c))
      && Accepted(steps, e) == [] && Late(steps, e) == [] && Opened(steps) == [e]
  {
    hide Run, After, Accepted, Late, Opened;
    OpenAlone(e);
    var one := [] + [Opening(e, [e])];
    assert multiset([]) == multiset([e]) - multiset{e};
    Extend(one, StartPass(now));
    Extend(one + [StartPass(now)], Pop([]));
    Extend(one + [StartPass(now)] + [Pop([])], Copy(c));
    Silent(one, StartPass(now), e);
    Silent(one + [StartPass(now)], Pop([]), e);
    Silent(one + [StartPass(now)] + [Pop([])], Copy(c), e);
  }

  /** A quote is accepted between the copy and the write of its closing auction: it is in no closed record. */
  lemma QuoteAfterCopy(e: Entry, c: Entry, q: Quote, now: int64)
    requires Timed(e) && e.endTime <= now && c != e && SameTerms(c, e) && q.data.rfqTxHash == e.rfqTxHash
    ensures var steps := UpToCopy(e, c, now) + [WriteQuote(q)] + [UpdateActive(Unsigned(q))] + [Commit];
      && Run(steps) && NoReopen(steps)
      && After(steps).closed == [c] && c in After(steps).bodies && After(steps).bodies[c] == Body([], CLOSED)
      && Accepted(steps, e) == Late(steps, e) == [Unsigned(q)]
  {
    hide Run, After, Accepted, Late, Opened, NoReopen, UpToCopy;
    CopyWaits(e, c, now);
    var copied := UpToCopy(e, c, now);
    var quoted := copied + [WriteQuote(q)] + [UpdateActive(Unsigned(q))];
    Extend(copied, WriteQuote(q));
    Extend(copied + [WriteQuote(q)], UpdateActive(Unsigned(q)));
    Extend(quoted, Commit);
    Silent(copied, WriteQuote(q), e);
    LateOne(copied + [WriteQuote(q)], Unsigned(q), e);
    Silent(quoted, Commit, e);
    OpenedOnce(quoted + [Commit], e);
  }

  lemma NothingYet(e: Entry)
    ensures Run([]) && Accepted([], e) == [] && Late([], e) == [] && Opened([]) == []
  {
  }

  lemma Silent(steps: seq<Step>, step: Step, e: Entry)
    requires Run(steps) && Run(steps + [step]) && !step.UpdateActive?
    ensures Accepted(steps + [step], e) == Accepted(steps, e) && Late(steps + [step], e) == Late(steps, e)
    ensures Opened(steps + [step]) == Opened(steps) + Added(step)
  {
    hide Next, Enabled;
    assert Front(steps + [step]) == steps && Last(steps + [step]) == step;
  }

  lemma LateOne(steps: seq<Step>, q: Quote, e: Entry)
    requires Run(steps) && Run(steps + [UpdateActive(q)])
    requires AcceptsFor(After(steps), UpdateActive(q), e) && AcceptsLate(After(steps), UpdateActive(q))
    ensures Accepted(steps + [UpdateActive(q)], e) == Accepted(steps, e) + [q]
    ensures Late(steps + [UpdateActive(q)], e) == Late(steps, e) + [q]
    ensures Opened(steps + [UpdateActive(q)]) == Opened(steps)
  {
    hide Next, Enabled;
    var step := UpdateActive(q);
    assert Front(steps + [step]) == steps && Last(steps + [step]) == step;
  }

  /** A request is opened twice and the auction opened last ends first and is closed: the list keeps the closed one, while
      the live one waits in the heap, is OPEN, and is neither listed nor in the map. */
  lemma ReopenedEndsFirst(e: Entry, f: Entry, c: Entry, now: int64)
    requires Timed(e) && Timed(f) && e.rfqTxHash == f.rfqTxHash && f.endTime <= e.endTime && f.endTime <= now
    requires e != f && c != e && c != f && SameTerms(c, f)
    ensures var steps := [] + [Opening(e, [e])] + [Opening(f, [f, e])] + [StartPass(now)] + [Pop([e])] + [Copy(c)] + [Commit];
      && Run(steps)
      && After(steps).open == [f] && f in After(steps).bodies && After(steps).bodies[f] == Body([], CLOSED)
      && After(steps).queue == [e] && e in After(steps).bodies && After(steps).bodies[e] == Body([], OPEN)
      && e.rfqTxHash !in After(steps).byHash
  {
    hide Run, After, Accepted, Late, Opened;
    OpenAlone(e);
    assert multiset([f, e]) == multiset([e]) + multiset{f};
    assert multiset([e]) == multiset([f, e]) - multiset{f};
    var two := [] + [Opening(e, [e])] + [Opening(f, [f, e])];
    Extend([] + [Opening(e, [e])], Opening(f, [f, e]));
    Extend(two, StartPass(now));
    Extend(two + [StartPass(now)], Pop([e]));
    Extend(two + [StartPass(now)] + [Pop([e])], Copy(c));
    Extend(two + [StartPass(now)] + [Pop([e])] + [Copy(c)], Commit);
    assert RemoveFirst([e, f], e.rfqTxHash) == [f];
  }

  /** An auction is opened and gets a quote. */
  function UpToQuote(e: Entry, q: Quote): seq<Step> {
    [] + [Opening(e, [e])] + [WriteQuote(q)] + [UpdateActive(Unsigned(q))]
  }

  ghost function QuotedState(e: Entry, q: Quote): State {
    OpenState(e).(bodies := map[e := Body([Unsigned(q)], OPEN)], quotesTable := Append(map[], q))
  }

  lemma OneQuote(e: Entry, q: Quote)
    requires Timed(e) && q.data.rfqTxHash == e.rfqTxHash
    ensures Run(UpToQuote(e, q)) && After(UpToQuote(e, q)) == QuotedState(e, q) && Opened(UpToQuote(e, q)) == [e]
  {
    hide Run, After, Opened, Accepted, Late;
    OpenAlone(e);
    var alone := [] + [Opening(e, [e])];
    Extend(alone, WriteQuote(q));
    OpenedMore(alone, WriteQuote(q));
    Answer(OpenState(e), e, q);
    Extend(alone + [WriteQuote(q)], UpdateActive(Unsigned(q)));
    OpenedMore(alone + [WriteQuote(q)], UpdateActive(Unsigned(q)));
  }

  lemma Answer(s: State, e: Entry, q: Quote)
    requires s == OpenState(e) && q.data.rfqTxHash == e.rfqTxHash
    ensures var next := Next(s, WriteQuote(q));
      && Enabled(next, UpdateActive(Unsigned(q)))
      && Next(next, UpdateActive(Unsigned(q))) == QuotedState(e, q)
  {
    var next := Next(s, WriteQuote(q));
    assert next.posting == multiset{Unsigned(q)};
    assert [] + [Unsigned(q)] == [Unsigned(q)];
    assert next.posting - multiset{Unsigned(q)} == multiset{};
  }

  lemma OpenedMore(steps: seq<Step>, step: Step)
    requires !step.Open?
    ensures Opened(steps + [step]) == Opened(steps)
  {
    assert Front(steps + [step]) == steps && Last(steps + [step]) == step;
  }

  /** Then the timer takes, copies and closes it. */
  function UpToClosed(e: Entry, c: Entry, q: Quote, now: int64): seq<Step> {
    UpToQuote(e, q) + [StartPass(now)] + [Pop([])] + [Copy(c)] + [Commit]
  }

  lemma ClosedWithQuote(e: Entry, c: Entry, q: Quote, now: int64)
    requires Timed(e) && e.endTime <= now && c != e && SameTerms(c, e) && q.data.rfqTxHash == e.rfqTxHash
    ensures var steps := UpToClosed(e, c, q, now);
      Run(steps) && After(steps).closedTable == map[e.rfqTxHash := c.Record([Unsigned(q)], CLOSED)]
  {
    hide Run, After, Opened, UpToQuote;
    OneQuote(e, q);
    var quoted := UpToQuote(e, q);
    assert multiset([]) == multiset([e]) - multiset{e};
    Extend(quoted, StartPass(now));
    Extend(quoted + [StartPass(now)], Pop([]));
    Extend(quoted + [StartPass(now)] + [Pop([])], Copy(c));
    Extend(quoted + [StartPass(now)] + [Pop([])] + [Copy(c)], Commit);
  }
}
