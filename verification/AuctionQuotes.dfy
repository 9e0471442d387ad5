/** The quotes table beside the auctions: what is stored under a hash, and how
    the auctions' own quotes relate to it. */
module AuctionQuotes {
  import opened Bytes
  import opened Types
  import opened AuctionQueue
  import opened AuctionMachine
  import opened AuctionTheorems

  /** Every list holds only quotes for the hash it is stored under. */
  ghost predicate Filed(t: map<Hash, seq<Quote>>) {
    forall h, i :: h in t && 0 <= i < |t[h]| ==> t[h][i].data.rfqTxHash == h
  }

  /** The quotes of a list without their signatures, counted. */
  ghost function UnsignedAll(qs: seq<Quote>): multiset<Quote> {
    if qs == [] then multiset{} else UnsignedAll(Front(qs)) + multiset{Unsigned(Last(qs))}
  }

  /** Quotes of e, and quotes still on their way to it, are all in the table. */
  ghost predicate Backed(t: map<Hash, seq<Quote>>, posting: multiset<Quote>, h: Hash, quotes: seq<Quote>) {
    && (forall i :: 0 <= i < |quotes| ==> quotes[i].data.rfqTxHash == h)
    && (forall q: Quote :: q.data.rfqTxHash == h ==>
         multiset(quotes)[q] + posting[q] <= UnsignedAll(TableAt(t, h))[q])
  }

  ghost predicate AllBacked(s: State) {
    && Filed(s.quotesTable)
    && (forall h :: Backed(s.quotesTable, s.posting, h, []))
    && (forall e :: e in s.bodies ==> Backed(s.quotesTable, s.posting, e.rfqTxHash, s.bodies[e].quotes))
  }

  lemma BackedWrite(t: map<Hash, seq<Quote>>, posting: multiset<Quote>, h: Hash, quotes: seq<Quote>, q: Quote)
    requires Backed(t, posting, h, quotes)
    ensures Backed(Append(t, q), posting + multiset{Unsigned(q)}, h, quotes)
  {
    hide UnsignedAll;
    if q.data.rfqTxHash == h {
      UnsignedOne(TableAt(t, h), q);
    } else {
      assert TableAt(Append(t, q), h) == TableAt(t, h);
    }
  }

  lemma UnsignedOne(qs: seq<Quote>, q: Quote)
    ensures UnsignedAll(qs + [q]) == UnsignedAll(qs) + multiset{Unsigned(q)}
  {
    assert Front(qs + [q]) == qs;
  }

  lemma BackedAppend(t: map<Hash, seq<Quote>>, posting: multiset<Quote>, h: Hash, quotes: seq<Quote>, q: Quote)
    requires Backed(t, posting, h, quotes) && q in posting && q.data.rfqTxHash == h
    ensures Backed(t, posting - multiset{q}, h, quotes + [q])
  {
  }

  lemma BackedLess(t: map<Hash, seq<Quote>>, posting: multiset<Quote>, h: Hash, quotes: seq<Quote>, q: Quote)
    requires Backed(t, posting, h, quotes)
    ensures Backed(t, posting - multiset{q}, h, quotes)
  {
  }

  lemma AllBackedWrite(s: State, step: Step)
    requires AllBacked(s) && Enabled(s, step) && step.WriteQuote?
    ensures AllBacked(Next(s, step))
  {
    var q := step.quote;
    var t', posting' := Append(s.quotesTable, q), s.posting + multiset{Unsigned(q)};
    forall h ensures Backed(t', posting', h, []) {
      BackedWrite(s.quotesTable, s.posting, h, [], q);
    }
    forall e | e in s.bodies ensures Backed(t', posting', e.rfqTxHash, s.bodies[e].quotes) {
      BackedWrite(s.quotesTable, s.posting, e.rfqTxHash, s.bodies[e].quotes, q);
    }
  }

  lemma AllBackedUpdate(o: seq<Entry>, s: State, step: Step)
    requires Separated(o, s) && AllBacked(s) && Enabled(s, step) && step.UpdateActive?
    ensures AllBacked(Next(s, step))
  {
    var q, s' := step.quote, Next(s, step);
    forall h ensures Backed(s.quotesTable, s'.posting, h, []) {
      BackedLess(s.quotesTable, s.posting, h, [], q);
    }
    forall e | e in s'.bodies ensures Backed(s.quotesTable, s'.posting, e.rfqTxHash, s'.bodies[e].quotes) {
      if q.data.rfqTxHash in s.byHash && e == s.byHash[q.data.rfqTxHash] {
        BackedAppend(s.quotesTable, s.posting, e.rfqTxHash, s.bodies[e].quotes, q);
      } else {
        BackedLess(s.quotesTable, s.posting, e.rfqTxHash, s.bodies[e].quotes, q);
      }
    }
  }

  lemma AllBackedElse(s: State, step: Step)
    requires AllBacked(s) && Enabled(s, step) && !step.WriteQuote? && !step.UpdateActive?
    ensures AllBacked(Next(s, step))
  {
    match step
    case Open(_, _, _) =>
    case Copy(_) =>
    case Commit =>
    case Pop(_) =>
    case StartPass(_) =>
    case Emit =>
    case EndPass =>
  }

  /** Under any interleaving of quote handlers and timer steps, and even if hashes are reopened: every
      list in the quotes table holds only quotes for its hash, and the quotes of any live or closed
      auction are, signatures aside, a sub-multiset of the list stored under its hash. */
  lemma {:induction false} QuotesInTable(steps: seq<Step>)
    requires Run(steps)
    ensures AllBacked(After(steps))
    ensures forall e :: e in After(steps).bodies ==>
      multiset(After(steps).bodies[e].quotes) <= UnsignedAll(TableAt(After(steps).quotesTable, e.rfqTxHash))
    decreases |steps|
  {
    var s := After(steps);
    if steps != [] {
      QuotesInTable(Front(steps));
      EveryRun(Front(steps));
      match Last(steps)
      case WriteQuote(_) => AllBackedWrite(After(Front(steps)), Last(steps));
      case UpdateActive(_) => AllBackedUpdate(Opened(Front(steps)), After(Front(steps)), Last(steps));
      case _ => AllBackedElse(After(Front(steps)), Last(steps));
    }
    forall e | e in s.bodies
      ensures multiset(s.bodies[e].quotes) <= UnsignedAll(TableAt(s.quotesTable, e.rfqTxHash))
    {
      BackedIncluded(s.quotesTable, s.posting, e.rfqTxHash, s.bodies[e].quotes);
    }
  }

  lemma BackedIncluded(t: map<Hash, seq<Quote>>, posting: multiset<Quote>, h: Hash, quotes: seq<Quote>)
    requires Backed(t, posting, h, quotes)
    ensures multiset(quotes) <= UnsignedAll(TableAt(t, h))
  {
    forall q ensures multiset(quotes)[q] <= UnsignedAll(TableAt(t, h))[q] {
      if q in quotes {
        var i :| 0 <= i < |quotes| && quotes[i] == q;
        assert quotes[i].data.rfqTxHash == h;
      }
    }
  }

  // ---------- GetAuctionQuotes ----------

  function ForHash(qs: seq<Quote>, h: Hash): seq<Quote> {
    if qs == [] then []
    else if Last(qs).data.rfqTxHash == h then ForHash(Front(qs), h) + [Last(qs)]
    else ForHash(Front(qs), h)
  }

  function ScanAll(t: map<Hash, seq<Quote>>, keys: seq<Hash>, h: Hash): seq<Quote>
    requires forall k :: k in keys ==> k in t
  {
    if keys == [] then [] else ScanAll(t, Front(keys), h) + ForHash(t[Last(keys)], h)
  }

  /** The full scan: `keys` is what the table iterator visits. */
  method GetAuctionQuotes(t: map<Hash, seq<Quote>>, keys: seq<Hash>, rfqTxHash: Hash) returns (quotes: seq<Quote>)
    requires forall k :: k in keys ==> k in t
    ensures quotes == ScanAll(t, keys, rfqTxHash)
  {
    quotes := [];
    for i := 0 to |keys|
      invariant quotes == ScanAll(t, keys[..i], rfqTxHash)
    {
      var slice := t[keys[i]];
      ghost var before := quotes;
      for j := 0 to |slice|
        invariant quotes == before + ForHash(slice[..j], rfqTxHash)
      {
        assert Front(slice[..j + 1]) == slice[..j];
        if slice[j].data.rfqTxHash == rfqTxHash {
          quotes := quotes + [slice[j]];
        }
      }
      assert slice[..|slice|] == slice;
      assert Front(keys[..i + 1]) == keys[..i];
    }
    assert keys[..|keys|] == keys;
  }

  lemma {:induction false} ForHashAll(qs: seq<Quote>, h: Hash, k: Hash)
    requires forall i :: 0 <= i < |qs| ==> qs[i].data.rfqTxHash == k
    ensures ForHash(qs, h) == if h == k then qs else []
  {
    if qs != [] {
      ForHashAll(Front(qs), h, k);
      assert Last(qs).data.rfqTxHash == k;
      assert qs == Front(qs) + [Last(qs)];
    }
  }

  lemma ForHashFiled(t: map<Hash, seq<Quote>>, k: Hash, h: Hash)
    requires Filed(t) && k in t
    ensures ForHash(t[k], h) == if h == k then t[k] else []
  {
    ForHashAll(t[k], h, k);
  }

  lemma {:induction false} ScanMisses(t: map<Hash, seq<Quote>>, keys: seq<Hash>, h: Hash)
    requires Filed(t) && (forall k :: k in keys ==> k in t)
    requires forall i :: 0 <= i < |keys| ==> keys[i] != h
    ensures ScanAll(t, keys, h) == []
    decreases |keys|
  {
    hide ForHash, Filed;
    if keys != [] {
      ScanMisses(t, Front(keys), h);
      ForHashFiled(t, Last(keys), h);
    }
  }

  lemma {:induction false} ScanHits(t: map<Hash, seq<Quote>>, keys: seq<Hash>, n: nat)
    requires Filed(t) && n < |keys| && (forall k :: k in keys ==> k in t)
    requires forall i, j :: 0 <= i < j < |keys| ==> keys[i] != keys[j]
    ensures ScanAll(t, keys, keys[n]) == t[keys[n]]
    decreases |keys|
  {
    hide ForHash, Filed;
    var front, h := Front(keys), keys[n];
    ForHashFiled(t, Last(keys), h);
    if n == |keys| - 1 {
      ScanMisses(t, front, h);
    } else {
      ScanHits(t, front, n);
    }
  }

  lemma ScanFiled(t: map<Hash, seq<Quote>>, keys: seq<Hash>, h: Hash)
    requires Filed(t) && forall k :: k in keys ==> k in t
    requires forall i, j :: 0 <= i < j < |keys| ==> keys[i] != keys[j]
    ensures ScanAll(t, keys, h) == if h in keys then t[h] else []
  {
    hide ScanAll, Filed;
    if h in keys {
      var n :| 0 <= n < |keys| && keys[n] == h;
      ScanHits(t, keys, n);
    } else {
      ScanMisses(t, keys, h);
    }
  }

  /** In every reachable state the full scan returns exactly the list stored under the hash. */
  lemma ScanIsLookup(steps: seq<Step>, keys: seq<Hash>, h: Hash)
    requires Run(steps)
    requires forall k :: k in keys <==> k in After(steps).quotesTable
    requires forall i, j :: 0 <= i < j < |keys| ==> keys[i] != keys[j]
    ensures ScanAll(After(steps).quotesTable, keys, h) == TableAt(After(steps).quotesTable, h)
  {
    QuotesInTable(steps);
    ScanFiled(After(steps).quotesTable, keys, h);
  }

  // ---------- exactly what is stored ----------

  /** The quotes written in the run for a hash, in order. */
  function Written(steps: seq<Step>, h: Hash): seq<Quote> {
    if steps == [] then [] else
      var step := Last(steps);
      Written(Front(steps), h) + if step.WriteQuote? && step.quote.data.rfqTxHash == h then [step.quote] else []
  }

  lemma WrittenStep(s: State, step: Step, h: Hash)
    requires Enabled(s, step)
    ensures TableAt(Next(s, step).quotesTable, h)
      == TableAt(s.quotesTable, h) + if step.WriteQuote? && step.quote.data.rfqTxHash == h then [step.quote] else []
    ensures (h in Next(s, step).quotesTable) == (h in s.quotesTable || (step.WriteQuote? && step.quote.data.rfqTxHash == h))
  {
    match step
    case Open(_, _, _) =>
    case WriteQuote(_) =>
    case UpdateActive(_) =>
    case StartPass(_) =>
    case Pop(_) =>
    case Copy(_) =>
    case Commit =>
    case Emit =>
    case EndPass =>
  }

  /** In every run the list under a hash is exactly the quotes that were written for it, each once, in order. */
  lemma {:induction false} QuotesTableExact(steps: seq<Step>, h: Hash)
    requires Run(steps)
    ensures TableAt(After(steps).quotesTable, h) == Written(steps, h)
    ensures h in After(steps).quotesTable <==> Written(steps, h) != []
    decreases |steps|
  {
    hide Next, Enabled;
    if steps != [] {
      QuotesTableExact(Front(steps), h);
      WrittenStep(After(Front(steps)), Last(steps), h);
    }
  }

  /** So GetAuctionQuotes, over any visit of the whole table, returns exactly those. */
  lemma QuotesReturned(steps: seq<Step>, keys: seq<Hash>, h: Hash)
    requires Run(steps)
    requires forall k :: k in keys <==> k in After(steps).quotesTable
    requires forall i, j :: 0 <= i < j < |keys| ==> keys[i] != keys[j]
    ensures ScanAll(After(steps).quotesTable, keys, h) == Written(steps, h)
  {
    hide Run, After, Written, ScanAll;
    ScanIsLookup(steps, keys, h);
    QuotesTableExact(steps, h);
  }

  // ---------- where an auction's quotes come from ----------

  /** x is q without its signature. */
  predicate Bare(x: Quote, q: Quote) {
    x.from == q.from && x.data == q.data && x.v == 0 && x.r == 0 && x.s == 0
  }

  /** x is some quote written in the run, without its signature. */
  ghost predicate FromRun(steps: seq<Step>, x: Quote) {
    exists k :: 0 <= k < |steps| && steps[k].WriteQuote? && Bare(x, steps[k].quote)
  }

  ghost predicate AllFromRun(steps: seq<Step>, s: State) {
    && (forall x :: x in s.posting ==> FromRun(steps, x))
    && (forall e, i :: e in s.bodies && 0 <= i < |s.bodies[e].quotes| ==> FromRun(steps, s.bodies[e].quotes[i]))
  }

  lemma FromLonger(steps: seq<Step>, step: Step, x: Quote)
    requires FromRun(steps, x)
    ensures FromRun(steps + [step], x)
  {
    var k :| 0 <= k < |steps| && steps[k].WriteQuote? && Bare(x, steps[k].quote);
    assert (steps + [step])[k] == steps[k];
  }

  lemma FromRunWrite(steps: seq<Step>, s: State, q: Quote)
    requires AllFromRun(steps, s)
    ensures AllFromRun(steps + [WriteQuote(q)], Next(s, WriteQuote(q)))
  {
    var run, r := steps + [WriteQuote(q)], Next(s, WriteQuote(q));
    forall x | x in r.posting ensures FromRun(run, x) {
      if x in s.posting {
        FromLonger(steps, WriteQuote(q), x);
      } else {
        assert x == Unsigned(q) && run[|steps|] == WriteQuote(q) && Bare(x, run[|steps|].quote);
      }
    }
    forall e, i | e in r.bodies && 0 <= i < |r.bodies[e].quotes| ensures FromRun(run, r.bodies[e].quotes[i]) {
      FromLonger(steps, WriteQuote(q), s.bodies[e].quotes[i]);
    }
  }

  /** No other step brings in a quote that is not there already. */
  ghost predicate NoNewQuote(s: State, r: State) {
    && (forall x :: x in r.posting ==> x in s.posting)
    && (forall e, i :: e in r.bodies && 0 <= i < |r.bodies[e].quotes| ==> Present(s, r.bodies[e].quotes[i]))
  }

  ghost predicate Present(s: State, x: Quote) {
    x in s.posting || exists e :: e in s.bodies && x in s.bodies[e].quotes
  }

  lemma NoNewElse(s: State, step: Step)
    requires Enabled(s, step) && !step.WriteQuote?
    ensures NoNewQuote(s, Next(s, step))
  {
    hide HeapOrdered, SameTerms;
    var r := Next(s, step);
    forall e, i | e in r.bodies && 0 <= i < |r.bodies[e].quotes| ensures Present(s, r.bodies[e].quotes[i]) {
      var x := r.bodies[e].quotes[i];
      if step.Copy? {
        assert x in s.bodies[s.timer.auction].quotes || (e in s.bodies && x in s.bodies[e].quotes);
      } else if step.UpdateActive? {
        assert x == step.quote || x in s.bodies[e].quotes;
      } else {
        assert x in s.bodies[e].quotes;
      }
    }
  }

  lemma FromRunElse(steps: seq<Step>, s: State, step: Step)
    requires Enabled(s, step) && !step.WriteQuote? && AllFromRun(steps, s)
    ensures AllFromRun(steps + [step], Next(s, step))
  {
    NoNewElse(s, step);
    var run, r := steps + [step], Next(s, step);
    hide Next, Enabled;
    forall x | Present(s, x) ensures FromRun(run, x) {
      if x !in s.posting {
        var e :| e in s.bodies && x in s.bodies[e].quotes;
        var i :| 0 <= i < |s.bodies[e].quotes| && s.bodies[e].quotes[i] == x;
      }
      FromLonger(steps, step, x);
    }
    assert forall x :: x in r.posting ==> Present(s, x);
  }

  /** In every run each quote of a live or closed auction has the sender and the data of a signed quote that was written in
      the run, and no signature. */
  lemma {:induction false} QuotesComeFromRun(steps: seq<Step>)
    requires Run(steps)
    ensures AllFromRun(steps, After(steps))
    decreases |steps|
  {
    hide Next, Enabled, AllFromRun;
    if steps == [] {
      NoQuotesYet();
    } else {
      QuotesComeFromRun(Front(steps));
      assert steps == Front(steps) + [Last(steps)];
      if Last(steps).WriteQuote? {
        FromRunWrite(Front(steps), After(Front(steps)), Last(steps).quote);
      } else {
        FromRunElse(Front(steps), After(Front(steps)), Last(steps));
      }
    }
  }

  lemma NoQuotesYet()
    ensures AllFromRun([], INIT)
  {
  }
}
