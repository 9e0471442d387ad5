/** Reading the auction tables back, in every run. */
module AuctionReads {
  import opened Bytes
  import opened Types
  import opened Rlp
  import opened AuctionQueue
  import opened AuctionMachine
  import opened AuctionObjects
  import opened AuctionHistory
  import Codec
  import AuctionScenarios

  predicate Short(o: OpenRFQ) {
    |Encode(Codec.OpenItem(o))| < MAX
  }

  /** The i-th closed auction was copied before any quote was accepted for it. */
  ghost predicate CopiedBare(steps: seq<Step>, i: nat)
    requires Run(steps) && i < |Originals(steps)|
  {
    Accepted(steps, Originals(steps)[i]) == Late(steps, Originals(steps)[i])
  }

  /** What stands under a hash is the record of the auction closed last with it, and it carries no quote exactly if that
      auction was copied before any was accepted. */
  lemma LastRecord(steps: seq<Step>, h: Hash) returns (i: nat)
    requires Run(steps) && h in After(steps).closedTable
    ensures IsLast(After(steps).closed, i, h) && i < |Originals(steps)|
    ensures StoredAt(After(steps), After(steps).closed[i], h)
    ensures After(steps).closedTable[h].data.quotes == [] <==> CopiedBare(steps, i)
  {
    hide Run, After, Accepted, Late, Originals;
    ClosedTableExact(steps);
    var s := After(steps);
    i :| 0 <= i < |s.closed| && IsLast(s.closed, i, h) && StoredAt(s, s.closed[i], h);
    ClosedQuotes(steps, i);
    var e := Originals(steps)[i];
    var early, late := s.bodies[s.closed[i]].quotes, Late(steps, e);
    assert early + late == late <==> early == [] by {
      if early + late == late {
        assert |early + late| == |early| + |late|;
      }
    }
  }

  /** In every run a stored closed record reads back as the auction closed last with its hash exactly if that auction was
      copied before any quote was accepted for it; otherwise it does not decode. */
  lemma ClosedRecordReadable(steps: seq<Step>, h: Hash) returns (i: nat)
    requires Run(steps) && h in After(steps).closedTable
    ensures IsLast(After(steps).closed, i, h) && i < |Originals(steps)|
    ensures StoredAt(After(steps), After(steps).closed[i], h)
    ensures var record := After(steps).closedTable[h];
      Short(record) ==>
        Codec.ReadOne(Encode(Codec.OpenItem(record))) == if CopiedBare(steps, i) then Ok(record) else Err
  {
    hide Run, After, Originals, CopiedBare, Codec.OpenItem, Codec.ReadOne, Encode;
    i := LastRecord(steps, h);
    var record := After(steps).closedTable[h];
    if Short(record) {
      Codec.ReadStored(record);
    }
  }

  /** What a reader of a table visits: its values in the order of the keys. */
  function Values(t: map<Hash, OpenRFQ>, keys: seq<Hash>): (r: seq<OpenRFQ>)
    requires forall i :: 0 <= i < |keys| ==> keys[i] in t
    ensures |r| == |keys|
  {
    seq(|keys|, i requires 0 <= i < |keys| => t[keys[i]])
  }

  /** keys visits the whole table. */
  ghost predicate Visits(keys: seq<Hash>, t: map<Hash, OpenRFQ>) {
    && (forall i :: 0 <= i < |keys| ==> keys[i] in t)
    && (forall h :: h in t ==> exists i :: 0 <= i < |keys| && keys[i] == h)
  }

  /** In every run GetClosedRFQRequests succeeds exactly if, for every hash, the auction closed last with it was copied before
      any quote was accepted for it. */
  lemma ClosedTableReadable(steps: seq<Step>, keys: seq<Hash>)
    requires Run(steps) && Visits(keys, After(steps).closedTable)
    requires forall h :: h in After(steps).closedTable ==> Short(After(steps).closedTable[h])
    ensures |Originals(steps)| >= |After(steps).closed|
    ensures var s := After(steps);
      var all := forall h, i :: h in s.closedTable && IsLast(s.closed, i, h) ==> CopiedBare(steps, i);
      Codec.ReadAll(Codec.StoredRFQs(Values(s.closedTable, keys))) == if all then Ok(Values(s.closedTable, keys)) else Err
  {
    hide Run, After, Originals, CopiedBare, Codec.ReadAll, Codec.StoredRFQs, Codec.OpenItem, Encode, Paired, Parts, StoredAt;
    var s := After(steps);
    AsManyOriginals(steps);
    var rfqs := Values(s.closedTable, keys);
    Codec.TableReadable(rfqs);
    forall h, i | h in s.closedTable && IsLast(s.closed, i, h)
      ensures s.closedTable[h].data.quotes == [] <==> CopiedBare(steps, i)
    {
      var j := LastRecord(steps, h);
      OneLast(s.closed, i, j, h);
    }
    QuotelessValues(s.closedTable, keys);
    if Codec.NoQuotes(rfqs) {
      assert forall h, i :: h in s.closedTable && IsLast(s.closed, i, h) ==> CopiedBare(steps, i);
    } else {
      var h :| h in s.closedTable && s.closedTable[h].data.quotes != [];
      var j := LastRecord(steps, h);
      assert !CopiedBare(steps, j);
    }
  }

  lemma AsManyOriginals(steps: seq<Step>)
    requires Run(steps)
    ensures |Originals(steps)| >= |After(steps).closed|
  {
    EveryObject(steps);
  }

  lemma OneLast(es: seq<Entry>, i: nat, j: nat, h: Hash)
    requires IsLast(es, i, h) && IsLast(es, j, h)
    ensures i == j
  {
  }

  lemma QuotelessValues(t: map<Hash, OpenRFQ>, keys: seq<Hash>)
    requires Visits(keys, t)
    ensures Codec.NoQuotes(Values(t, keys)) <==> NeverQuoted(t)
  {
    if Codec.NoQuotes(Values(t, keys)) {
      forall h | h in t ensures t[h].data.quotes == [] {
        var i :| 0 <= i < |keys| && keys[i] == h;
        assert Values(t, keys)[i] == t[h];
      }
    }
  }

  /** In every run GetOpenRFQRequests succeeds and returns the table's records. */
  lemma OpenTableReadable(steps: seq<Step>, keys: seq<Hash>)
    requires Run(steps) && Visits(keys, After(steps).openTable)
    requires forall h :: h in After(steps).openTable ==> Short(After(steps).openTable[h])
    ensures var t := After(steps).openTable;
      Codec.ReadAll(Codec.StoredRFQs(Values(t, keys))) == Ok(Values(t, keys))
  {
    hide Run, After, Codec.ReadAll, Codec.StoredRFQs, Codec.OpenItem, Encode;
    OpenTableExact(steps);
    QuotelessValues(After(steps).openTable, keys);
    Codec.TableReadable(Values(After(steps).openTable, keys));
  }

  /** A run in which that fails: one auction, one quote, one pass. Its record does not decode, and neither does the table. */
  lemma OneQuoteBlocksTheTable(e: Entry, c: Entry, q: Quote, now: int64)
    requires AuctionScenarios.Timed(e) && e.endTime <= now && c != e && SameTerms(c, e) && q.data.rfqTxHash == e.rfqTxHash
    requires Short(c.Record([Unsigned(q)], CLOSED))
    ensures var steps, record := AuctionScenarios.UpToClosed(e, c, q, now), c.Record([Unsigned(q)], CLOSED);
      && Run(steps) && After(steps).closedTable == map[e.rfqTxHash := record]
      && Codec.ReadOne(Encode(Codec.OpenItem(record))) == Err
      && Codec.ReadAll(Codec.StoredRFQs([record])) == Err
  {
    hide Run, After, AuctionScenarios.UpToClosed, Codec.OpenItem, Codec.ReadOne, Codec.ReadAll, Encode;
    AuctionScenarios.ClosedWithQuote(e, c, q, now);
    var record := c.Record([Unsigned(q)], CLOSED);
    Codec.ReadStored(record);
    assert [record][0].data.quotes != [];
    Codec.TableReadable([record]);
  }
}
