/** Reading blocks back in a node whose pending OpenRFQ transactions share their
    data with live auctions: quotes that arrive before the block is made. */
module BlockReads {
  import opened Bytes
  import opened Types
  import opened AuctionQueue
  import opened AuctionMachine
  import opened AuctionTheorems
  import opened AuctionHistory
  import opened BlockCodec
  import Codec
  import ChainModel
  import ChainObjects
  import AuctionScenarios
  import Auctions

  type Tx = ChainModel.Tx

  /** The auctions that the transactions share their data with were opened in the run. */
  ghost predicate Known(steps: seq<Step>, txs: seq<Tx>) {
    forall i :: 0 <= i < |txs| && txs[i].source.Shared? ==> txs[i].source.entry in Opened(steps)
  }

  /** The data of a transaction when the auctions are as after the run. */
  ghost function DataAfter(steps: seq<Step>, tx: Tx): Codec.TxData
    requires Run(steps) && (tx.source.Shared? ==> tx.source.entry in After(steps).bodies)
  {
    match tx.source
    case Own(data) => data
    case Shared(e) => Codec.Open(e.Record(After(steps).bodies[e].quotes, After(steps).bodies[e].status))
  }

  ghost function DataAfterAll(steps: seq<Step>, txs: seq<Tx>): (r: seq<Codec.TxData>)
    requires Run(steps) && Known(steps, txs)
    ensures |r| == |txs|
  {
    KnownBodies(steps, txs);
    seq(|txs|, i requires 0 <= i < |txs| => DataAfter(steps, txs[i]))
  }

  lemma KnownBodies(steps: seq<Step>, txs: seq<Tx>)
    requires Run(steps) && Known(steps, txs)
    ensures forall i :: 0 <= i < |txs| && txs[i].source.Shared? ==> txs[i].source.entry in After(steps).bodies
  {
    EveryRun(steps);
  }

  /** It is what the objects hold: the block that is appended now stores this data. */
  lemma {:induction false} DataNow(steps: seq<Step>, txs: seq<Tx>)
    requires Run(steps) && Known(steps, txs) && Auctions.Auctions.InStep(After(steps).bodies)
    ensures ChainObjects.DataOfAll(txs) == DataAfterAll(steps, txs)
    decreases |txs|
  {
    hide Run, After;
    KnownBodies(steps, txs);
    if txs != [] {
      var front := txs[..|txs| - 1];
      DataNow(steps, front);
      assert DataAfterAll(steps, txs) == DataAfterAll(steps, front) + [DataAfter(steps, txs[|txs| - 1])];
    }
  }

  /** No quote stands in the way of decoding the transaction: it is not an OpenRFQ with quotes of its own, and no quote was
      accepted in the run for the auction it shares its data with. */
  ghost predicate Quoteless(steps: seq<Step>, tx: Tx)
    requires Run(steps)
  {
    match tx.source
    case Own(data) => Readable(data)
    case Shared(e) => Accepted(steps, e) == []
  }

  lemma QuotelessIsReadable(steps: seq<Step>, txs: seq<Tx>)
    requires Run(steps) && Known(steps, txs)
    ensures AllReadable(DataAfterAll(steps, txs)) <==> forall i :: 0 <= i < |txs| ==> Quoteless(steps, txs[i])
  {
    hide Run, After, Accepted, Late;
    KnownBodies(steps, txs);
    QuotesKept(steps);
    forall i | 0 <= i < |txs| ensures Readable(DataAfterAll(steps, txs)[i]) <==> Quoteless(steps, txs[i]) {
      assert DataAfterAll(steps, txs)[i] == DataAfter(steps, txs[i]);
      if txs[i].source.Shared? {
        assert HoldsAccepted(steps, txs[i].source.entry);
      }
    }
  }

  /** A block of any transactions that is appended after any run reads back whole exactly if no quote was accepted before for
      an auction that one of them opened, and none is a foreign OpenRFQ with quotes. Otherwise none of its transactions
      reads back. */
  lemma BlockAfterRun(steps: seq<Step>, header: ChainModel.HeaderData, txs: seq<Tx>, validator: bytes)
    requires Run(steps) && Known(steps, txs)
    requires Fits(Store(header, DataAfterAll(steps, txs), validator))
    ensures Read(Store(header, DataAfterAll(steps, txs), validator)) ==
      if forall i :: 0 <= i < |txs| ==> Quoteless(steps, txs[i])
      then Some(ReadBlock(header, DataAfterAll(steps, txs), validator))
      else Some(ReadBlock(header, [], []))
  {
    hide Run, After, Accepted, Quoteless, DataAfterAll, Store, Read, Fits, AllReadable;
    QuotelessIsReadable(steps, txs);
    StoredReadsBack(header, DataAfterAll(steps, txs), validator);
  }

  /** An auction is opened and its transaction is pending. In a block that is made at once it reads back; if a quote is
      accepted first, the block reads back without any transaction. */
  lemma QuoteBeforeBlock(e: Entry, q: Quote, hash: Hash, header: ChainModel.HeaderData, validator: bytes)
    requires AuctionScenarios.Timed(e) && q.data.rfqTxHash == e.rfqTxHash
    ensures var alone, quoted := [] + [AuctionScenarios.Opening(e, [e])], AuctionScenarios.UpToQuote(e, q);
      var txs := [ChainModel.Tx(hash, ChainModel.Shared(e))];
      && Run(alone) && Run(quoted) && Known(alone, txs) && Known(quoted, txs)
      && DataAfterAll(alone, txs) == [Codec.Open(e.Record([], OPEN))]
      && DataAfterAll(quoted, txs) == [Codec.Open(e.Record([Unsigned(q)], OPEN))]
      && (Fits(Store(header, DataAfterAll(alone, txs), validator)) ==>
           Read(Store(header, DataAfterAll(alone, txs), validator))
             == Some(ReadBlock(header, [Codec.Open(e.Record([], OPEN))], validator)))
      && (Fits(Store(header, DataAfterAll(quoted, txs), validator)) ==>
           Read(Store(header, DataAfterAll(quoted, txs), validator)) == Some(ReadBlock(header, [], [])))
  {
    hide Run, After, Store, Read, Fits, Opened, Accepted, Late, AuctionScenarios.UpToQuote;
    AuctionScenarios.OpenAlone(e);
    AuctionScenarios.OneQuote(e, q);
    var alone, quoted := [] + [AuctionScenarios.Opening(e, [e])], AuctionScenarios.UpToQuote(e, q);
    var txs := [ChainModel.Tx(hash, ChainModel.Shared(e))];
    var before, after := DataAfterAll(alone, txs), DataAfterAll(quoted, txs);
    assert before == [DataAfter(alone, txs[0])] && after == [DataAfter(quoted, txs[0])];
    assert AllReadable(before) && !Readable(after[0]);
    if Fits(Store(header, before, validator)) {
      StoredReadsBack(header, before, validator);
    }
    if Fits(Store(header, after, validator)) {
      StoredReadsBack(header, after, validator);
    }
  }
}
