/** What a foreign reader of the encodings sees: which field stands where. */
module WireFormat {
  import opened Bytes
  import opened Types
  import opened Rlp
  import opened Codec
  import opened ChainModel
  import opened BlockCodec
  import Schema

  /** A non-negative integer, big-endian. */
  ghost predicate IsNumber(i: Item, n: nat) {
    i.Str? && FromBE(i.bytes) == n
  }

  ghost predicate IsText(i: Item, b: bytes) {
    i.Str? && i.bytes == b
  }

  ghost predicate HasToken(i: Item, t: Token) {
    IsList(i, 3) && IsText(i.items[0], t.address) && IsText(i.items[1], t.symbol) && IsNumber(i.items[2], t.decimals)
  }

  ghost predicate HasRequestData(i: Item, d: SignableData) {
    && IsList(i, 5) && IsText(i.items[0], d.requestorId) && IsNumber(i.items[1], d.baseTokenAmount)
    && HasToken(i.items[2], d.baseToken) && HasToken(i.items[3], d.quoteToken) && IsNumber(i.items[4], d.rfqDurationMs)
  }

  ghost predicate HasQuoteData(i: Item, d: QuoteData) {
    && IsList(i, 9) && IsText(i.items[0], d.quoterId) && IsText(i.items[1], d.rfqTxHash)
    && IsNumber(i.items[2], d.quoteExpiryTime) && HasToken(i.items[3], d.baseToken) && HasToken(i.items[4], d.quoteToken)
    && IsNumber(i.items[5], d.baseTokenAmount) && IsNumber(i.items[6], d.bidPrice) && IsNumber(i.items[7], d.askPrice)
    && IsList(i.items[8], |d.encryptionPublicKeys|)
    && forall k :: 0 <= k < |d.encryptionPublicKeys| ==> IsText(i.items[8].items[k], d.encryptionPublicKeys[k])
  }

  ghost predicate HasQuote(i: Item, q: Quote) {
    && IsList(i, 5) && IsText(i.items[0], q.from) && HasQuoteData(i.items[1], q.data)
    && IsNumber(i.items[2], q.v) && IsNumber(i.items[3], q.r) && IsNumber(i.items[4], q.s)
  }

  /** A time as eight bytes of two's complement. */
  ghost predicate IsTime(i: Item, time: int64) {
    i.Str? && |i.bytes| == 8 && FromBE(i.bytes) == if time >= 0 then time else time + 0x1_0000_0000_0000_0000
  }

  ghost predicate HasRFQData(i: Item, d: RFQData) {
    && IsList(i, 8) && IsText(i.items[0], d.rfqTxHash) && HasRequestData(i.items[1], d.rfqRequest)
    && IsTime(i.items[2], d.rfqStartTime) && IsTime(i.items[3], d.rfqEndTime)
    && IsList(i.items[4], |d.quotes|) && (forall k :: 0 <= k < |d.quotes| ==> HasQuote(i.items[4].items[k], d.quotes[k]))
    && IsText(i.items[5], d.settlementContract) && IsText(i.items[6], d.matchingContract) && IsText(i.items[7], d.status)
  }

  ghost predicate HasRequest(i: Item, q: RFQRequest) {
    && IsList(i, 5) && IsText(i.items[0], q.from) && HasRequestData(i.items[1], q.data)
    && IsNumber(i.items[2], q.v) && IsNumber(i.items[3], q.r) && IsNumber(i.items[4], q.s)
  }

  ghost predicate HasOpen(i: Item, o: OpenRFQ) {
    && IsList(i, 5) && IsText(i.items[0], o.from) && HasRFQData(i.items[1], o.data)
    && IsNumber(i.items[2], o.v) && IsNumber(i.items[3], o.r) && IsNumber(i.items[4], o.s)
  }

  ghost predicate HasHeader(i: Item, h: HeaderData) {
    && IsList(i, 6) && IsNumber(i.items[0], h.version) && IsText(i.items[1], h.txHash) && IsText(i.items[2], h.parentHash)
    && IsNumber(i.items[3], h.timestamp) && IsNumber(i.items[4], h.height) && IsText(i.items[5], h.blockSignature)
  }

  lemma Number(n: nat)
    ensures IsNumber(UintItem(n), n)
  {
    FromMinBE(n);
  }

  lemma TokenWire(t: Token)
    ensures HasToken(TokenItem(t), t)
  {
    Number(t.decimals);
  }

  lemma RequestDataWire(d: SignableData)
    ensures HasRequestData(SignableItem(d), d)
  {
    hide IsNumber, UintItem, TokenItem, HasToken;
    Number(d.baseTokenAmount);
    TokenWire(d.baseToken);
    TokenWire(d.quoteToken);
    Number(d.rfqDurationMs);
  }

  lemma QuoteDataWire(d: QuoteData)
    ensures HasQuoteData(QuoteDataItem(d), d)
  {
    hide IsNumber, UintItem, TokenItem, HasToken;
    Number(d.quoteExpiryTime);
    TokenWire(d.baseToken);
    TokenWire(d.quoteToken);
    Number(d.baseTokenAmount);
    Number(d.bidPrice);
    Number(d.askPrice);
  }

  lemma QuoteWire(q: Quote)
    ensures HasQuote(QuoteItem(q), q)
  {
    hide IsNumber, UintItem, QuoteDataItem, HasQuoteData;
    QuoteDataWire(q.data);
    Number(q.v);
    Number(q.r);
    Number(q.s);
  }

  lemma TimeWire(time: int64)
    ensures IsTime(Str(ToBE(ToUint64(time), 8)), time)
  {
    Uint64RoundTrip(ToUint64(time));
  }

  lemma RFQDataWire(d: RFQData)
    ensures HasRFQData(RFQDataItem(d), d)
  {
    hide SignableItem, HasRequestData, QuoteItem, HasQuote, IsTime, ToBE, ToUint64;
    RequestDataWire(d.rfqRequest);
    TimeWire(d.rfqStartTime);
    TimeWire(d.rfqEndTime);
    forall k | 0 <= k < |d.quotes| ensures HasQuote(QuoteItems(d.quotes)[k], d.quotes[k]) {
      QuoteWire(d.quotes[k]);
    }
  }

  lemma RequestWire(q: RFQRequest)
    ensures HasRequest(RequestItem(q), q)
  {
    hide IsNumber, UintItem, SignableItem, HasRequestData;
    RequestDataWire(q.data);
    Number(q.v);
    Number(q.r);
    Number(q.s);
  }

  lemma OpenWire(o: OpenRFQ)
    ensures HasOpen(OpenItem(o), o)
  {
    hide IsNumber, UintItem, RFQDataItem, HasRFQData;
    RFQDataWire(o.data);
    Number(o.v);
    Number(o.r);
    Number(o.s);
  }

  /** A transaction on the wire: the type byte, then the RLP list of its fields in their order. */
  lemma EnvelopeWire(tx: TxData)
    requires |EncodeTyped(tx)| < MAX
    ensures var b := EncodeTyped(tx);
      && |b| > 1 && Decode(b[1..]).Ok?
      && match tx
         case Request(q) => b[0] == 0x00 && HasRequest(Decode(b[1..]).value, q)
         case Open(o) => b[0] == 0x01 && HasOpen(Decode(b[1..]).value, o)
         case QuoteTx(q) => b[0] == 0x05 && HasQuote(Decode(b[1..]).value, q)
  {
    hide Encode, Decode, RequestItem, OpenItem, QuoteItem, HasRequest, HasOpen, HasQuote;
    assert EncodeTyped(tx)[1..] == Encode(ToItem(tx));
    DecodeEncode(ToItem(tx));
    match tx
    case Request(q) => RequestWire(q);
    case Open(o) => OpenWire(o);
    case QuoteTx(q) => QuoteWire(q);
  }

  /** A stored block: the six header fields in their order, and the typed envelopes of the transactions before the
      validator's key. */
  lemma BlockWire(header: HeaderData, txs: seq<TxData>, validator: bytes)
    requires Fits(Store(header, txs, validator))
    ensures var s := Store(header, txs, validator);
      && Decode(s.header).Ok? && HasHeader(Decode(s.header).value, header)
      && Decode(s.body).Ok? && (var i := Decode(s.body).value;
           && IsList(i, 2) && IsList(i.items[0], |txs|) && IsText(i.items[1], validator)
           && forall k :: 0 <= k < |txs| ==> IsText(i.items[0].items[k], EncodeTyped(txs[k])))
  {
    hide Encode, Decode, EncodeTyped, UintItem, IsNumber;
    DecodeEncode(HeaderItem(header));
    DecodeEncode(BodyItem(txs, validator));
    Number(header.version);
    Number(header.timestamp);
    Number(header.height);
  }

  /** The status strings spelled out. */
  lemma StatusNames()
    ensures OPEN == Schema.Ascii("OPEN") && CLOSED == Schema.Ascii("CLOSED")
  {
  }
}
