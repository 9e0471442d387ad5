/** What the key-value store holds of a block: the header and the body as RLP
    bytes, and how a block is assembled from them again. */
module BlockCodec {
  import opened Bytes
  import opened Rlp
  import opened Codec
  import opened ChainModel

  /** Both records of a block, as they are stored under its height and header hash. */
  datatype Stored = Stored(header: bytes, body: bytes)

  /** A block as it is read back. */
  datatype ReadBlock = ReadBlock(header: HeaderData, txs: seq<TxData>, validator: PublicKey)

  // ---------- headers ----------

  function HeaderItem(h: HeaderData): Item {
    List([UintItem(h.version), Str(h.txHash), Str(h.parentHash), UintItem(h.timestamp), UintItem(h.height),
          Str(h.blockSignature)])
  }

  function StreamHeader(i: Item): Result<HeaderData> {
    if IsList(i, 6) && IsUint64(i.items[0]) && IsHash(i.items[1]) && IsHash(i.items[2]) && IsUint64(i.items[3])
       && IsUint(i.items[4]) && i.items[5].Str?
    then Ok(HeaderData(Uint64Of(i.items[0].bytes), i.items[1].bytes, i.items[2].bytes, Uint64Of(i.items[3].bytes),
                       FromBE(i.items[4].bytes), i.items[5].bytes))
    else Err
  }

  lemma HeaderRoundTrip(h: HeaderData)
    ensures StreamHeader(HeaderItem(h)) == Ok(h)
  {
    hide FromBE, MinBE, PadLeft;
    Uint64Items(h.version);
    Uint64Items(h.timestamp);
    FromMinBE(h.height);
  }

  // ---------- bodies ----------

  /** Each transaction as a string that holds its typed envelope. */
  function TxItems(txs: seq<TxData>): (r: seq<Item>)
    ensures |r| == |txs|
  {
    seq(|txs|, i requires 0 <= i < |txs| => Str(EncodeTyped(txs[i])))
  }

  function BodyItem(txs: seq<TxData>, validator: PublicKey): Item {
    List([List(TxItems(txs)), Str(validator)])
  }

  function StreamTxs(items: seq<Item>): Result<seq<TxData>> {
    if items == [] then Ok([])
    else if items[0].List? then Err
    else
      match DecodeTyped(items[0].bytes)
      case Err => Err
      case Ok(tx) =>
        match StreamTxs(items[1..])
        case Err => Err
        case Ok(txs) => Ok([tx] + txs)
  }

  function StreamBody(i: Item): Result<(seq<TxData>, PublicKey)> {
    if IsList(i, 2) && i.items[0].List? && StreamTxs(i.items[0].items).Ok? && i.items[1].Str?
    then Ok((StreamTxs(i.items[0].items).value, i.items[1].bytes))
    else Err
  }

  /** An OpenRFQ with quotes is the one kind of transaction that does not decode. */
  predicate Readable(tx: TxData) {
    tx.Open? ==> tx.open.data.quotes == []
  }

  predicate AllReadable(txs: seq<TxData>) {
    forall i :: 0 <= i < |txs| ==> Readable(txs[i])
  }

  predicate AllShort(txs: seq<TxData>) {
    forall i :: 0 <= i < |txs| ==> |EncodeTyped(txs[i])| < MAX
  }

  lemma {:induction false} TxsRoundTrip(txs: seq<TxData>)
    requires AllShort(txs)
    ensures StreamTxs(TxItems(txs)) == if AllReadable(txs) then Ok(txs) else Err
    decreases |txs|
  {
    hide EncodeTyped, DecodeTyped;
    if txs != [] {
      TypedRoundTrip(txs[0]);
      TxsRoundTrip(txs[1..]);
      assert TxItems(txs)[1..] == TxItems(txs[1..]);
      assert txs == [txs[0]] + txs[1..];
      assert AllReadable(txs) <==> Readable(txs[0]) && AllReadable(txs[1..]);
    }
  }

  lemma TypedRoundTrip(tx: TxData)
    requires |EncodeTyped(tx)| < MAX
    ensures DecodeTyped(EncodeTyped(tx)) == if Readable(tx) then Ok(tx) else Err
  {
    hide DecodeTyped, Encode;
    EnvelopeRoundTrip(tx);
  }

  lemma {:induction false} PartFits(items: seq<Item>, k: nat)
    requires k < |items|
    ensures |Encode(items[k])| <= |EncodeAll(items)|
  {
    if k > 0 { PartFits(items[1..], k - 1); }
  }

  lemma ShortTxs(txs: seq<TxData>, validator: PublicKey)
    requires |Encode(BodyItem(txs, validator))| < MAX
    ensures AllShort(txs)
  {
    hide EncodeTyped, EncodeAll;
    var body := [List(TxItems(txs)), Str(validator)];
    PartFits(body, 0);
    forall i | 0 <= i < |txs| ensures |EncodeTyped(txs[i])| < MAX {
      PartFits(TxItems(txs), i);
    }
  }

  // ---------- whole blocks ----------

  function Store(header: HeaderData, txs: seq<TxData>, validator: PublicKey): Stored {
    Stored(Encode(HeaderItem(header)), Encode(BodyItem(txs, validator)))
  }

  predicate Fits(s: Stored) {
    |s.header| < MAX && |s.body| < MAX
  }

  /** ReadBody */
  function ReadBody(bs: bytes): Result<(seq<TxData>, PublicKey)> {
    match Decode(bs)
    case Err => Err
    case Ok(i) => StreamBody(i)
  }

  /** rawdb.ReadBlock: nothing without a header; a body that does not decode leaves a block with a header only. */
  function Read(s: Stored): Option<ReadBlock> {
    match Decode(s.header)
    case Err => None
    case Ok(i) =>
      match StreamHeader(i)
      case Err => None
      case Ok(h) =>
        match ReadBody(s.body)
        case Err => Some(ReadBlock(h, [], []))
        case Ok(body) => Some(ReadBlock(h, body.0, body.1))
  }

  lemma BodyRoundTrip(txs: seq<TxData>, validator: PublicKey)
    requires |Encode(BodyItem(txs, validator))| < MAX
    ensures ReadBody(Encode(BodyItem(txs, validator))) == if AllReadable(txs) then Ok((txs, validator)) else Err
  {
    hide EncodeTyped, DecodeTyped, Encode, Decode, TxItems, StreamTxs;
    ShortTxs(txs, validator);
    TxsRoundTrip(txs);
    DecodeEncode(BodyItem(txs, validator));
  }

  /** A stored block reads back whole exactly if each of its transactions decodes on its own, which is exactly if none
      is an OpenRFQ with quotes. Otherwise it reads back with its header and neither transactions nor validator. */
  lemma StoredReadsBack(header: HeaderData, txs: seq<TxData>, validator: PublicKey)
    requires Fits(Store(header, txs, validator))
    ensures AllReadable(txs) <==> forall i :: 0 <= i < |txs| ==> DecodeTyped(EncodeTyped(txs[i])).Ok?
    ensures Read(Store(header, txs, validator))
      == Some(if AllReadable(txs) then ReadBlock(header, txs, validator) else ReadBlock(header, [], []))
  {
    hide EncodeTyped, DecodeTyped, Encode, Decode, HeaderItem, StreamHeader, BodyItem, StreamBody;
    ShortTxs(txs, validator);
    forall i | 0 <= i < |txs| ensures DecodeTyped(EncodeTyped(txs[i])).Ok? <==> Readable(txs[i]) {
      TypedRoundTrip(txs[i]);
    }
    HeaderRoundTrip(header);
    DecodeEncode(HeaderItem(header));
    BodyRoundTrip(txs, validator);
  }
}
