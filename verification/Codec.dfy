/** The transaction codecs: each type as an RLP item, the stream decoders and the
    item-tree decoders, and the one-byte typed envelope of EIP-2718. A failed
    type assertion or index that would panic counts as an error. */
module Codec {
  import opened Bytes
  import opened Types
  import opened Rlp

  // ---------- encoders ----------

  function UintItem(n: nat): Item {
    Str(MinBE(n))
  }

  function TokenItem(t: Token): Item {
    List([Str(t.address), Str(t.symbol), UintItem(t.decimals)])
  }

  function SignableItem(d: SignableData): Item {
    List([Str(d.requestorId), UintItem(d.baseTokenAmount), TokenItem(d.baseToken), TokenItem(d.quoteToken),
          UintItem(d.rfqDurationMs)])
  }

  function StrAll(bs: seq<bytes>): (r: seq<Item>)
    ensures |r| == |bs|
  {
    seq(|bs|, i requires 0 <= i < |bs| => Str(bs[i]))
  }

  function QuoteDataItem(d: QuoteData): Item {
    List([Str(d.quoterId), Str(d.rfqTxHash), UintItem(d.quoteExpiryTime), TokenItem(d.baseToken),
          TokenItem(d.quoteToken), UintItem(d.baseTokenAmount), UintItem(d.bidPrice), UintItem(d.askPrice),
          List(StrAll(d.encryptionPublicKeys))])
  }

  function QuoteItem(q: Quote): Item {
    List([Str(q.from), QuoteDataItem(q.data), UintItem(q.v), UintItem(q.r), UintItem(q.s)])
  }

  function QuoteItems(qs: seq<Quote>): (r: seq<Item>)
    ensures |r| == |qs|
  {
    seq(|qs|, i requires 0 <= i < |qs| => QuoteItem(qs[i]))
  }

  function RFQDataItem(d: RFQData): Item {
    List([Str(d.rfqTxHash), SignableItem(d.rfqRequest), Str(ToBE(ToUint64(d.rfqStartTime), 8)),
          Str(ToBE(ToUint64(d.rfqEndTime), 8)), List(QuoteItems(d.quotes)), Str(d.settlementContract),
          Str(d.matchingContract), Str(d.status)])
  }

  function RequestItem(q: RFQRequest): Item {
    List([Str(q.from), SignableItem(q.data), UintItem(q.v), UintItem(q.r), UintItem(q.s)])
  }

  function OpenItem(o: OpenRFQ): Item {
    List([Str(o.from), RFQDataItem(o.data), UintItem(o.v), UintItem(o.r), UintItem(o.s)])
  }

  // ---------- stream decoders ----------

  /** A list of exactly n items. */
  predicate IsList(i: Item, n: nat) {
    i.List? && |i.items| == n
  }

  /** An integer as the stream decoder takes it: no leading zero. */
  predicate IsUint(i: Item) {
    i.Str? && Canonical(i.bytes)
  }

  /** A uint64 as the stream decoder takes it. */
  predicate IsUint64(i: Item) {
    IsUint(i) && |i.bytes| <= 8
  }

  predicate IsAddress(i: Item) {
    i.Str? && |i.bytes| == 20
  }

  predicate IsHash(i: Item) {
    i.Str? && |i.bytes| == 32
  }

  function Uint64Of(bs: bytes): uint64
    requires |bs| <= 8
  {
    PaddedFits(bs);
    FromBE(PadLeft(bs, 8))
  }

  lemma PaddedFits(bs: bytes)
    requires |bs| <= 8
    ensures FromBE(PadLeft(bs, 8)) == FromBE(bs) < 0x1_0000_0000_0000_0000
  {
    FromBEPadded(bs, 8);
    ToFromBE(PadLeft(bs, 8));
    Pow8();
  }

  function StreamToken(i: Item): Result<Token> {
    if IsList(i, 3) && IsAddress(i.items[0]) && i.items[1].Str? && IsUint64(i.items[2])
    then Ok(Token(i.items[0].bytes, i.items[1].bytes, Uint64Of(i.items[2].bytes)))
    else Err
  }

  function StreamSignable(i: Item): Result<SignableData> {
    if IsList(i, 5) && i.items[0].Str? && IsUint(i.items[1]) && StreamToken(i.items[2]).Ok?
       && StreamToken(i.items[3]).Ok? && IsUint64(i.items[4])
    then Ok(SignableData(i.items[0].bytes, FromBE(i.items[1].bytes), StreamToken(i.items[2]).value,
                         StreamToken(i.items[3]).value, Uint64Of(i.items[4].bytes)))
    else Err
  }

  function StreamRequest(i: Item): Result<RFQRequest> {
    if IsList(i, 5) && IsAddress(i.items[0]) && StreamSignable(i.items[1]).Ok?
       && IsUint(i.items[2]) && IsUint(i.items[3]) && IsUint(i.items[4])
    then Ok(RFQRequest(i.items[0].bytes, StreamSignable(i.items[1]).value, FromBE(i.items[2].bytes),
                       FromBE(i.items[3].bytes), FromBE(i.items[4].bytes)))
    else Err
  }

  predicate AllStr(items: seq<Item>) {
    forall k :: 0 <= k < |items| ==> items[k].Str?
  }

  function Strings(items: seq<Item>): (r: seq<bytes>)
    requires AllStr(items)
    ensures |r| == |items|
  {
    seq(|items|, k requires 0 <= k < |items| => items[k].bytes)
  }

  function StreamQuoteData(i: Item): Result<QuoteData> {
    if IsList(i, 9) && i.items[0].Str? && IsHash(i.items[1]) && IsUint64(i.items[2]) && StreamToken(i.items[3]).Ok?
       && StreamToken(i.items[4]).Ok? && IsUint(i.items[5]) && IsUint(i.items[6]) && IsUint(i.items[7])
       && i.items[8].List? && AllStr(i.items[8].items)
    then Ok(QuoteData(i.items[0].bytes, i.items[1].bytes, Uint64Of(i.items[2].bytes), StreamToken(i.items[3]).value,
                      StreamToken(i.items[4]).value, FromBE(i.items[5].bytes), FromBE(i.items[6].bytes),
                      FromBE(i.items[7].bytes), Strings(i.items[8].items)))
    else Err
  }

  function StreamQuote(i: Item): Result<Quote> {
    if IsList(i, 5) && IsAddress(i.items[0]) && StreamQuoteData(i.items[1]).Ok?
       && IsUint(i.items[2]) && IsUint(i.items[3]) && IsUint(i.items[4])
    then Ok(Quote(i.items[0].bytes, StreamQuoteData(i.items[1]).value, FromBE(i.items[2].bytes),
                  FromBE(i.items[3].bytes), FromBE(i.items[4].bytes)))
    else Err
  }

  // ---------- item-tree decoders ----------

  /** common.BytesToAddress: crops on the left, pads on the left. */
  function ToAddress(bs: bytes): Address {
    if |bs| > 20 then bs[|bs| - 20..] else PadLeft(bs, 20)
  }

  /** Of a longer string the last twenty bytes, of a shorter one the same number. */
  lemma AddressRule(bs: bytes)
    ensures |bs| >= 20 ==> bs == bs[..|bs| - 20] + ToAddress(bs)
    ensures |bs| <= 20 ==> FromBE(ToAddress(bs)) == FromBE(bs)
  {
    if |bs| <= 20 {
      FromBEPadded(bs, 20);
    }
    if |bs| == 20 {
      assert PadLeft(bs, 20) == bs;
    }
  }

  /** At most eight bytes, leading zeros allowed. */
  predicate IsShort(i: Item) {
    i.Str? && |i.bytes| <= 8
  }

  function TokenFromItems(data: seq<Item>): Result<Token> {
    if |data| == 3 && data[0].Str? && data[1].Str? && IsShort(data[2])
    then Ok(Token(ToAddress(data[0].bytes), data[1].bytes, Uint64Of(data[2].bytes)))
    else Err
  }

  function SignableFromItems(data: seq<Item>): Result<SignableData> {
    if |data| == 5 && data[0].Str? && data[1].Str? && data[2].List? && data[3].List?
       && TokenFromItems(data[2].items).Ok? && TokenFromItems(data[3].items).Ok? && IsShort(data[4])
    then Ok(SignableData(data[0].bytes, FromBE(data[1].bytes), TokenFromItems(data[2].items).value,
                         TokenFromItems(data[3].items).value, Uint64Of(data[4].bytes)))
    else Err
  }

  /** Demands eight elements, checks them, and then reads a ninth, past the end: no input gets through. */
  function QuoteDataFromItems(data: seq<Item>): Result<QuoteData> {
    if |data| != 8 then Err
    else if !(data[0].Str? && IsHash(data[1]) && IsShort(data[2])) then Err
    else if !(data[3].List? && TokenFromItems(data[3].items).Ok?) then Err
    else if !(data[4].List? && TokenFromItems(data[4].items).Ok?) then Err
    else if !(data[5].Str? && data[6].Str? && data[7].Str?) then Err
    else Err
  }

  function QuoteFromItems(data: seq<Item>): Result<Quote> {
    if |data| == 5 && IsAddress(data[0]) && data[1].List? && data[2].Str? && |data[2].bytes| == 1
       && IsHash(data[3]) && IsHash(data[4])
    then
      var from: Address := data[0].bytes;
      var v, r, s := FromBE(data[2].bytes), FromBE(data[3].bytes), FromBE(data[4].bytes);
      match QuoteDataFromItems(data[1].items)
      case Err => Err
      case Ok(d) => Ok(Quote(from, d, v, r, s))
    else Err
  }

  function QuotesFromItems(items: seq<Item>): Result<seq<Quote>> {
    if items == [] then Ok([])
    else if !items[0].List? then Err
    else
      var rest := QuotesFromItems(items[1..]);
      match QuoteFromItems(items[0].items)
      case Err => Err
      case Ok(q) =>
        match rest
        case Err => Err
        case Ok(qs) => Ok([q] + qs)
  }

  function RFQDataFromItems(data: seq<Item>): Result<RFQData> {
    if |data| == 8 && IsHash(data[0]) && data[1].List? && SignableFromItems(data[1].items).Ok?
       && IsShort(data[2]) && IsShort(data[3]) && data[4].List? && QuotesFromItems(data[4].items).Ok?
       && data[5].Str? && data[6].Str? && data[7].Str?
    then Ok(RFQData(data[0].bytes, SignableFromItems(data[1].items).value, ToInt64(Uint64Of(data[2].bytes)),
                    ToInt64(Uint64Of(data[3].bytes)), QuotesFromItems(data[4].items).value,
                    ToAddress(data[5].bytes), ToAddress(data[6].bytes), data[7].bytes))
    else Err
  }

  function OpenFromItem(i: Item): Result<OpenRFQ> {
    if IsList(i, 5) && IsAddress(i.items[0]) && i.items[1].List? && RFQDataFromItems(i.items[1].items).Ok?
       && i.items[2].Str? && i.items[3].Str? && i.items[4].Str?
    then Ok(OpenRFQ(i.items[0].bytes, RFQDataFromItems(i.items[1].items).value, FromBE(i.items[2].bytes),
                    FromBE(i.items[3].bytes), FromBE(i.items[4].bytes)))
    else Err
  }

  // ---------- items round trip ----------

  lemma Uint64Items(n: uint64)
    ensures IsUint64(UintItem(n)) && Uint64Of(MinBE(n)) == n
  {
    MinBELength(n, 8);
    Pow8();
    PaddedFits(MinBE(n));
    FromMinBE(n);
  }

  lemma TokenRoundTrip(t: Token)
    ensures StreamToken(TokenItem(t)) == Ok(t) && TokenFromItems(TokenItem(t).items) == Ok(t)
  {
    Uint64Items(t.decimals);
    assert PadLeft(t.address, 20) == t.address;
  }

  lemma SignableRoundTrip(d: SignableData)
    ensures StreamSignable(SignableItem(d)) == Ok(d) && SignableFromItems(SignableItem(d).items) == Ok(d)
  {
    hide FromBE, MinBE;
    TokenRoundTrip(d.baseToken);
    TokenRoundTrip(d.quoteToken);
    FromMinBE(d.baseTokenAmount);
    Uint64Items(d.rfqDurationMs);
  }

  lemma RequestRoundTrip(q: RFQRequest)
    ensures StreamRequest(RequestItem(q)) == Ok(q)
  {
    hide SignableItem, StreamSignable, FromBE, MinBE, PadLeft;
    SignableRoundTrip(q.data);
    FromMinBE(q.v);
    FromMinBE(q.r);
    FromMinBE(q.s);
  }

  lemma QuoteDataRoundTrip(d: QuoteData)
    ensures StreamQuoteData(QuoteDataItem(d)) == Ok(d)
  {
    hide TokenItem, StreamToken, FromBE, MinBE, PadLeft;
    TokenRoundTrip(d.baseToken);
    TokenRoundTrip(d.quoteToken);
    Uint64Items(d.quoteExpiryTime);
    FromMinBE(d.baseTokenAmount);
    FromMinBE(d.bidPrice);
    FromMinBE(d.askPrice);
    assert Strings(StrAll(d.encryptionPublicKeys)) == d.encryptionPublicKeys;
  }

  lemma QuoteRoundTrip(q: Quote)
    ensures StreamQuote(QuoteItem(q)) == Ok(q)
  {
    hide QuoteDataItem, StreamQuoteData, FromBE, MinBE, PadLeft;
    QuoteDataRoundTrip(q.data);
    FromMinBE(q.v);
    FromMinBE(q.r);
    FromMinBE(q.s);
  }

  lemma TimeItems(t: int64)
    ensures Uint64Of(ToBE(ToUint64(t), 8)) < 0x1_0000_0000_0000_0000 && ToInt64(Uint64Of(ToBE(ToUint64(t), 8))) == t
  {
    hide ToBE, FromBE, PadLeft;
    var bs := ToBE(ToUint64(t), 8);
    PaddedFits(bs);
    Uint64RoundTrip(ToUint64(t));
    TwosComplement(t);
  }

  lemma TwosComplement(t: int64)
    ensures ToInt64(ToUint64(t)) == t
  {
    if t >= 0 {
      assert ToUint64(t) == t;
    } else {
      assert ToUint64(t) == t + 0x1_0000_0000_0000_0000;
    }
  }

  /** An RFQ record decodes to itself exactly if it carries no quotes; with quotes it does not decode. */
  lemma RFQDataRoundTrip(d: RFQData)
    ensures RFQDataFromItems(RFQDataItem(d).items) == if d.quotes == [] then Ok(d) else Err
  {
    hide FromBE, MinBE, ToBE, StreamSignable, StreamToken;
    SignableRoundTrip(d.rfqRequest);
    TimeItems(d.rfqStartTime);
    TimeItems(d.rfqEndTime);
    assert PadLeft(d.settlementContract, 20) == d.settlementContract;
    assert PadLeft(d.matchingContract, 20) == d.matchingContract;
    if d.quotes != [] {
      assert QuoteItems(d.quotes)[0] == QuoteItem(d.quotes[0]);
    }
  }

  lemma OpenRoundTrip(o: OpenRFQ)
    ensures OpenFromItem(OpenItem(o)) == if o.data.quotes == [] then Ok(o) else Err
  {
    hide FromBE, MinBE;
    RFQDataRoundTrip(o.data);
    FromMinBE(o.v);
    FromMinBE(o.r);
    FromMinBE(o.s);
  }

  /** The two Token decoders agree on everything the stream decoder takes; the item-tree decoder also takes
      addresses of other lengths and integers with leading zeros, and nothing else. */
  lemma TokenDecodersAgree(i: Item)
    requires i.List?
    ensures StreamToken(i).Ok? <==>
      TokenFromItems(i.items).Ok? && |i.items[0].bytes| == 20 && Canonical(i.items[2].bytes)
    ensures StreamToken(i).Ok? ==> TokenFromItems(i.items) == StreamToken(i)
  {
    if StreamToken(i).Ok? {
      assert PadLeft(i.items[0].bytes, 20) == i.items[0].bytes;
    }
  }

  lemma SignableDecodersAgree(i: Item)
    requires i.List?
    ensures StreamSignable(i).Ok? <==>
      SignableFromItems(i.items).Ok? && Canonical(i.items[1].bytes) && StreamToken(i.items[2]).Ok?
      && StreamToken(i.items[3]).Ok? && Canonical(i.items[4].bytes)
    ensures StreamSignable(i).Ok? ==> SignableFromItems(i.items) == StreamSignable(i)
  {
    if |i.items| == 5 && i.items[2].List? && i.items[3].List? {
      TokenDecodersAgree(i.items[2]);
      TokenDecodersAgree(i.items[3]);
    }
  }

  // ---------- the envelope ----------

  datatype TxData = Request(request: RFQRequest) | Open(open: OpenRFQ) | QuoteTx(quote: Quote)

  const REQUEST_TYPE: byte := 0x00
  const OPEN_TYPE: byte := 0x01
  const QUOTE_TYPE: byte := 0x05

  function TypeByte(tx: TxData): byte {
    match tx
    case Request(_) => REQUEST_TYPE
    case Open(_) => OPEN_TYPE
    case QuoteTx(_) => QUOTE_TYPE
  }

  function ToItem(tx: TxData): Item {
    match tx
    case Request(q) => RequestItem(q)
    case Open(o) => OpenItem(o)
    case QuoteTx(q) => QuoteItem(q)
  }

  function EncodeTyped(tx: TxData): bytes {
    [TypeByte(tx)] + Encode(ToItem(tx))
  }

  function FromItem(kind: byte, i: Item): Result<TxData> {
    if kind == REQUEST_TYPE then
      match StreamRequest(i) case Ok(q) => Ok(Request(q)) case Err => Err
    else if kind == OPEN_TYPE then
      match OpenFromItem(i) case Ok(o) => Ok(Open(o)) case Err => Err
    else if kind == QUOTE_TYPE then
      match StreamQuote(i) case Ok(q) => Ok(QuoteTx(q)) case Err => Err
    else Err
  }

  function DecodeTyped(b: bytes): Result<TxData> {
    if |b| <= 1 then Err else
      match Decode(b[1..])
      case Err => Err
      case Ok(i) => FromItem(b[0], i)
  }

  /** Decoding undoes encoding for every request, every quote and exactly those open RFQs without quotes; an open
      RFQ with quotes does not decode. */
  lemma EnvelopeRoundTrip(tx: TxData)
    requires |Encode(ToItem(tx))| < MAX
    ensures DecodeTyped(EncodeTyped(tx)) == if tx.Open? && tx.open.data.quotes != [] then Err else Ok(tx)
  {
    hide Encode, Decode, RequestItem, OpenItem, QuoteItem, StreamRequest, OpenFromItem, StreamQuote;
    assert EncodeTyped(tx)[1..] == Encode(ToItem(tx));
    DecodeEncode(ToItem(tx));
    match tx
    case Request(q) => RequestRoundTrip(q);
    case Open(o) => OpenRoundTrip(o);
    case QuoteTx(q) => QuoteRoundTrip(q);
  }

  // ---------- decoded requests and quotes are canonical ----------

  lemma TokenCanonical(i: Item)
    requires StreamToken(i).Ok?
    ensures TokenItem(StreamToken(i).value) == i
  {
    Uint64Canonical(i.items[2]);
    assert i.items == [i.items[0], i.items[1], i.items[2]];
  }

  lemma Uint64Canonical(i: Item)
    requires IsUint64(i)
    ensures UintItem(Uint64Of(i.bytes)) == i
  {
    PaddedFits(i.bytes);
    MinFromBE(i.bytes);
  }

  lemma UintCanonical(i: Item)
    requires IsUint(i)
    ensures UintItem(FromBE(i.bytes)) == i
  {
    MinFromBE(i.bytes);
  }

  lemma SignableCanonical(i: Item)
    requires StreamSignable(i).Ok?
    ensures SignableItem(StreamSignable(i).value) == i
  {
    hide TokenItem, StreamToken, FromBE, MinBE;
    UintCanonical(i.items[1]);
    TokenCanonical(i.items[2]);
    TokenCanonical(i.items[3]);
    Uint64Canonical(i.items[4]);
    assert i.items == [i.items[0], i.items[1], i.items[2], i.items[3], i.items[4]];
  }

  lemma RequestCanonical(i: Item)
    requires StreamRequest(i).Ok?
    ensures RequestItem(StreamRequest(i).value) == i
  {
    hide SignableItem, StreamSignable, FromBE, MinBE;
    SignableCanonical(i.items[1]);
    UintCanonical(i.items[2]);
    UintCanonical(i.items[3]);
    UintCanonical(i.items[4]);
    assert i.items == [i.items[0], i.items[1], i.items[2], i.items[3], i.items[4]];
  }

  lemma QuoteDataCanonical(i: Item)
    requires StreamQuoteData(i).Ok?
    ensures QuoteDataItem(StreamQuoteData(i).value) == i
  {
    hide TokenItem, StreamToken, FromBE, MinBE;
    Uint64Canonical(i.items[2]);
    TokenCanonical(i.items[3]);
    TokenCanonical(i.items[4]);
    UintCanonical(i.items[5]);
    UintCanonical(i.items[6]);
    UintCanonical(i.items[7]);
    assert StrAll(Strings(i.items[8].items)) == i.items[8].items;
    assert i.items == [i.items[0], i.items[1], i.items[2], i.items[3], i.items[4], i.items[5], i.items[6],
                       i.items[7], i.items[8]];
  }

  lemma QuoteCanonical(i: Item)
    requires StreamQuote(i).Ok?
    ensures QuoteItem(StreamQuote(i).value) == i
  {
    hide QuoteDataItem, StreamQuoteData, FromBE, MinBE;
    QuoteDataCanonical(i.items[1]);
    UintCanonical(i.items[2]);
    UintCanonical(i.items[3]);
    UintCanonical(i.items[4]);
    assert i.items == [i.items[0], i.items[1], i.items[2], i.items[3], i.items[4]];
  }

  /** A request or a quote has exactly one encoding: bytes that decode to it are the bytes encoding it writes. */
  lemma EnvelopeCanonical(b: bytes)
    requires |b| <= MAX && DecodeTyped(b).Ok? && !DecodeTyped(b).value.Open?
    ensures EncodeTyped(DecodeTyped(b).value) == b
  {
    hide Encode, Decode, RequestItem, OpenItem, QuoteItem, StreamRequest, OpenFromItem, StreamQuote;
    EncodeDecode(b[1..]);
    var i := Decode(b[1..]).value;
    if b[0] == REQUEST_TYPE {
      RequestCanonical(i);
    } else {
      QuoteCanonical(i);
    }
    assert b == [b[0]] + b[1..];
  }

  // ---------- what the tables store ----------

  /** The quotes stored under a hash: one list of quotes, read back by the stream decoder. */
  function StreamQuotes(i: Item): Result<seq<Quote>> {
    if i.Str? then Err else StreamQuoteList(i.items)
  }

  function StreamQuoteList(items: seq<Item>): Result<seq<Quote>> {
    if items == [] then Ok([]) else
      match StreamQuote(items[0])
      case Err => Err
      case Ok(q) =>
        match StreamQuoteList(items[1..])
        case Err => Err
        case Ok(qs) => Ok([q] + qs)
  }

  lemma {:induction false} QuoteListRoundTrip(qs: seq<Quote>)
    ensures StreamQuoteList(QuoteItems(qs)) == Ok(qs)
  {
    hide StreamQuote, QuoteItem;
    if qs != [] {
      QuoteRoundTrip(qs[0]);
      QuoteListRoundTrip(qs[1..]);
      assert QuoteItems(qs)[1..] == QuoteItems(qs[1..]);
      assert qs == [qs[0]] + qs[1..];
    }
  }

  /** A stored list of quotes reads back as it was written. */
  lemma QuotesTableRoundTrip(qs: seq<Quote>)
    requires |Encode(List(QuoteItems(qs)))| < MAX
    ensures Decode(Encode(List(QuoteItems(qs)))).Ok?
    ensures StreamQuotes(Decode(Encode(List(QuoteItems(qs)))).value) == Ok(qs)
  {
    DecodeEncode(List(QuoteItems(qs)));
    QuoteListRoundTrip(qs);
  }

  /** GetOpenRFQRequests and GetClosedRFQRequests: decodes every stored value, or fails at the first bad one. */
  method ReadRFQs(values: seq<bytes>) returns (r: Result<seq<OpenRFQ>>)
    ensures r == ReadAll(values)
  {
    var rfqs: seq<OpenRFQ> := [];
    for n := 0 to |values|
      invariant ReadAll(values[..n]) == Ok(rfqs)
    {
      ReadAllAppend(values, n);
      match ReadOne(values[n]) {
        case Err =>
          ReadAllFails(values, n + 1);
          return Err;
        case Ok(o) => rfqs := rfqs + [o];
      }
    }
    assert values[..|values|] == values;
    r := Ok(rfqs);
  }

  function ReadOne(value: bytes): Result<OpenRFQ> {
    match Decode(value)
    case Err => Err
    case Ok(i) => OpenFromItem(i)
  }

  function ReadAll(values: seq<bytes>): Result<seq<OpenRFQ>> {
    if values == [] then Ok([]) else
      match ReadAll(values[..|values| - 1])
      case Err => Err
      case Ok(rfqs) =>
        match ReadOne(values[|values| - 1])
        case Err => Err
        case Ok(o) => Ok(rfqs + [o])
  }

  lemma ReadAllAppend(values: seq<bytes>, n: nat)
    requires n < |values| && ReadAll(values[..n]).Ok?
    ensures ReadAll(values[..n + 1]) ==
      match ReadOne(values[n]) case Err => Err case Ok(o) => Ok(ReadAll(values[..n]).value + [o])
  {
    assert values[..n + 1][..n] == values[..n];
  }

  lemma {:induction false} ReadAllFails(values: seq<bytes>, n: nat)
    requires n <= |values| && ReadAll(values[..n]).Err?
    ensures ReadAll(values).Err?
    decreases |values| - n
  {
    if n < |values| {
      assert values[..n + 1][..n] == values[..n];
      ReadAllFails(values, n + 1);
    } else {
      assert values[..n] == values;
    }
  }

  function StoredRFQs(rfqs: seq<OpenRFQ>): (r: seq<bytes>)
    ensures |r| == |rfqs|
  {
    seq(|rfqs|, i requires 0 <= i < |rfqs| => Encode(OpenItem(rfqs[i])))
  }

  lemma ReadStored(o: OpenRFQ)
    requires |Encode(OpenItem(o))| < MAX
    ensures ReadOne(Encode(OpenItem(o))) == if o.data.quotes == [] then Ok(o) else Err
  {
    hide OpenItem, OpenFromItem, Encode, Decode;
    DecodeEncode(OpenItem(o));
    OpenRoundTrip(o);
  }

  ghost predicate NoQuotes(rfqs: seq<OpenRFQ>) {
    forall i :: 0 <= i < |rfqs| ==> rfqs[i].data.quotes == []
  }

  /** A table of RFQs can be read exactly if none of them carries a quote; one that does makes the read fail. */
  lemma {:induction false} TableReadable(rfqs: seq<OpenRFQ>)
    requires forall i :: 0 <= i < |rfqs| ==> |Encode(OpenItem(rfqs[i]))| < MAX
    ensures ReadAll(StoredRFQs(rfqs)) == if NoQuotes(rfqs) then Ok(rfqs) else Err
    decreases |rfqs|
  {
    hide OpenItem, Encode, ReadOne;
    if rfqs != [] {
      var front, last := rfqs[..|rfqs| - 1], rfqs[|rfqs| - 1];
      assert StoredRFQs(rfqs)[..|rfqs| - 1] == StoredRFQs(front);
      TableReadable(front);
      ReadStored(last);
      assert rfqs == front + [last];
      assert NoQuotes(rfqs) <==> NoQuotes(front) && last.data.quotes == [];
    }
  }
}
