/** The transaction payloads. Go strings are byte strings; absent (nil) signature
    integers are zero, which is what the encoder writes for them. */
module Types {
  import opened Bytes

  datatype Token = Token(address: Address, symbol: bytes, decimals: uint64)

  datatype SignableData = SignableData(
    requestorId: bytes,
    baseTokenAmount: nat,
    baseToken: Token,
    quoteToken: Token,
    rfqDurationMs: uint64)

  datatype QuoteData = QuoteData(
    quoterId: bytes,
    rfqTxHash: Hash,
    quoteExpiryTime: uint64,
    baseToken: Token,
    quoteToken: Token,
    baseTokenAmount: nat,
    bidPrice: nat,
    askPrice: nat,
    encryptionPublicKeys: seq<bytes>)

  datatype RFQData = RFQData(
    rfqTxHash: Hash,
    rfqRequest: SignableData,
    rfqStartTime: int64,
    rfqEndTime: int64,
    quotes: seq<Quote>,
    settlementContract: Address,
    matchingContract: Address,
    status: bytes)

  datatype RFQRequest = RFQRequest(from: Address, data: SignableData, v: nat, r: nat, s: nat)
  datatype Quote = Quote(from: Address, data: QuoteData, v: nat, r: nat, s: nat)
  datatype OpenRFQ = OpenRFQ(from: Address, data: RFQData, v: nat, r: nat, s: nat)

  const OPEN: bytes := [0x4f, 0x50, 0x45, 0x4e]
  const CLOSED: bytes := [0x43, 0x4c, 0x4f, 0x53, 0x45, 0x44]
}
