/** Runs under a non-decreasing millisecond clock: auctions close in end-time
    order, never early, and none that is due survives a timer pass. */
module AuctionClock {
  import opened Bytes
  import opened Types
  import opened AuctionQueue
  import opened AuctionMachine
  import opened AuctionTheorems
  import opened AuctionObjects

  /** The latest clock reading of the run. */
  function Clock(steps: seq<Step>): int {
    if steps == [] then 0 else
      match Last(steps)
      case Open(e, _, _) => e.startTime
      case StartPass(now) => now
      case _ => Clock(Front(steps))
  }

  /** Readings never go back, and no end time leaves the int64 range. */
  predicate Clocked(steps: seq<Step>) {
    steps == [] || (Clocked(Front(steps)) && Timely(Clock(Front(steps)), Last(steps)))
  }

  predicate Timely(t: int, step: Step) {
    match step
    case Open(e, _, _) => t <= e.startTime && e.startTime + e.request.rfqDurationMs < 0x8000_0000_0000_0000
    case StartPass(now) => t <= now
    case _ => true
  }

  /** The end time is start plus the requested duration. */
  ghost predicate Sound(e: Entry) {
    e.endTime == e.startTime + e.request.rfqDurationMs
  }

  /** The auctions that left the heap, in order. */
  ghost function Gone(s: State): seq<Entry> {
    if s.timer.Popped? || s.timer.Copied? then s.closed + [s.timer.auction] else s.closed
  }

  ghost predicate ByEnd(es: seq<Entry>) {
    forall i, j :: 0 <= i < j < |es| ==> es[i].endTime <= es[j].endTime
  }

  /** What has left ended no later than t and no later than anything that waits. */
  ghost predicate InOrder(gone: seq<Entry>, queue: seq<Entry>, t: int) {
    && ByEnd(gone)
    && (forall g :: g in gone ==> g.endTime <= t && Sound(g))
    && (forall e :: e in queue ==> Sound(e))
    && (forall g, e :: g in gone && e in queue ==> g.endTime <= e.endTime)
  }

  ghost predicate OnTime(s: State, t: int) {
    && 0 <= t && InOrder(Gone(s), s.queue, t)
    && (s.timer.Passing? || s.timer.Popped? || s.timer.Copied? || s.timer.Written? ==> s.timer.now <= t)
    && (s.timer.Popped? || s.timer.Copied? ==> s.timer.auction.endTime <= s.timer.now)
  }

  lemma InOrderOpen(gone: seq<Entry>, queue: seq<Entry>, t: int, e: Entry, layout: seq<Entry>)
    requires InOrder(gone, queue, t) && t <= e.startTime && Sound(e)
    requires multiset(layout) == multiset(queue) + multiset{e}
    ensures InOrder(gone, layout, e.startTime)
  {
    MultisetWithin(layout, queue, e);
  }

  lemma InOrderPop(closed: seq<Entry>, queue: seq<Entry>, t: int, layout: seq<Entry>)
    requires InOrder(closed, queue, t) && queue != [] && queue[0].endTime <= t && HeapOrdered(queue)
    requires multiset(layout) == multiset(queue) - multiset{queue[0]}
    ensures InOrder(closed + [queue[0]], layout, t)
  {
    assert queue[0] in queue;
    MultisetWithin(layout, queue, queue[0]);
    forall e | e in queue ensures queue[0].endTime <= e.endTime {
      var k :| 0 <= k < |queue| && queue[k] == e;
      RootIsMin(queue, k);
    }
  }

  lemma InOrderCommit(closed: seq<Entry>, e: Entry, c: Entry, queue: seq<Entry>, t: int)
    requires InOrder(closed + [e], queue, t) && SameTerms(c, e)
    ensures InOrder(closed + [c], queue, t)
  {
    var before, after := closed + [e], closed + [c];
    assert forall i :: 0 <= i < |after| ==> after[i].endTime == before[i].endTime;
    assert e in before && forall g :: g in closed ==> g in before;
  }

  lemma OnTimeStep(o: seq<Entry>, s: State, step: Step, t: int)
    requires Separated(o, s) && Conserved(o, s) && Enabled(s, step) && OnTime(s, t) && Timely(t, step)
    ensures OnTime(Next(s, step), match step case Open(e, _, _) => e.startTime case StartPass(now) => now case _ => t)
  {
    match step
    case Open(e, _, layout) =>
      EndTimeSound(e.startTime, e.request.rfqDurationMs);
      InOrderOpen(Gone(s), s.queue, t, e, layout);
    case Pop(layout) => InOrderPop(s.closed, s.queue, t, layout);
    case Commit => InOrderCommit(s.closed, s.timer.auction, s.timer.copy, s.queue, t);
    case StartPass(_) =>
    case Copy(_) =>
    case UpdateActive(_) =>
    case WriteQuote(_) =>
    case Emit =>
    case EndPass =>
  }

  lemma {:induction false} EveryClockedRun(steps: seq<Step>)
    requires Run(steps) && Clocked(steps)
    ensures OnTime(After(steps), Clock(steps))
    decreases |steps|
  {
    if steps != [] {
      EveryClockedRun(Front(steps));
      EveryRun(Front(steps));
      OnTimeStep(Opened(Front(steps)), After(Front(steps)), Last(steps), Clock(Front(steps)));
    }
  }

  /** The closed list of a whole run is sorted by end time, and everything in it had run for its
      full requested duration. */
  lemma ClosedInOrder(steps: seq<Step>)
    requires Run(steps) && Clocked(steps)
    ensures ByEnd(After(steps).closed)
    ensures forall c :: c in After(steps).closed ==> c.startTime + c.request.rfqDurationMs == c.endTime <= Clock(steps)
  {
    EveryClockedRun(steps);
    var s := After(steps);
    assert forall i :: 0 <= i < |s.closed| ==> s.closed[i] == Gone(s)[i];
  }

  /** An auction is closed only by a pass that began at or after its start plus duration. */
  lemma NeverEarly(steps: seq<Step>)
    requires Run(steps) && Clocked(steps) && steps != [] && Last(steps).Commit?
    ensures var c := Last(After(steps).closed);
      c.startTime + c.request.rfqDurationMs <= After(steps).timer.now <= Clock(steps)
  {
    EveryClockedRun(Front(steps));
    EveryRun(Front(steps));
  }

  /** When a pass ends, every auction still waiting ends after the pass's clock reading; this needs
      no assumption on the clock. */
  lemma NoneSurvives(steps: seq<Step>)
    requires Run(steps) && steps != [] && Last(steps).EndPass?
    ensures forall e :: e in After(steps).queue ==> After(Front(steps)).timer.now < e.endTime
  {
    EveryRun(Front(steps));
    var q := After(steps).queue;
    forall e | e in q ensures After(Front(steps)).timer.now < e.endTime {
      var k :| 0 <= k < |q| && q[k] == e;
      RootIsMin(q, k);
    }
  }

  /** When a pass ends, every auction that quotes can still reach ends after the pass's clock reading: leaving the map is
      what ends an auction for quotes. */
  lemma MappedEndsLater(steps: seq<Step>)
    requires Run(steps) && steps != [] && Last(steps).EndPass?
    ensures forall h :: h in After(steps).byHash ==> After(Front(steps)).timer.now < After(steps).byHash[h].endTime
  {
    MappedWaits(steps);
    NoneSurvives(steps);
    assert InFlight(After(steps)) == [];
  }
}
