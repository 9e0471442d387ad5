/** The keys of the node's one shared store: six RFQ tables and the raw families
    for headers, bodies, blocks and transactions. */
module Schema {
  import opened Bytes
  import opened MemoryDB
  import opened Tables

  const RFQ_REQUESTS: bytes := [0x72, 0x66, 0x71, 0x52, 0x65, 0x71, 0x75, 0x65, 0x73, 0x74, 0x73]
  const OPEN_RFQS: bytes := [0x6f, 0x70, 0x65, 0x6e, 0x52, 0x46, 0x51, 0x73]
  const CLOSE_RFQS: bytes := [0x63, 0x6c, 0x6f, 0x73, 0x65, 0x52, 0x46, 0x51, 0x73]
  const MATCHED_RFQS: bytes := [0x6d, 0x61, 0x74, 0x63, 0x68, 0x65, 0x64, 0x52, 0x46, 0x51, 0x73]
  const SETTLED_RFQS: bytes := [0x73, 0x65, 0x74, 0x74, 0x6c, 0x65, 0x64, 0x52, 0x46, 0x51, 0x73]
  const QUOTES: bytes := [0x71, 0x75, 0x6f, 0x74, 0x65, 0x73]

  const TABLES: seq<bytes> := [RFQ_REQUESTS, OPEN_RFQS, CLOSE_RFQS, MATCHED_RFQS, SETTLED_RFQS, QUOTES]

  /** What a raw key stands for. */
  datatype RawKey =
    | Header(height: uint64, hash: Hash)
    | HeaderHash(height: uint64)
    | HeaderHeight(hash: Hash)
    | BlockBody(height: uint64, hash: Hash)
    | Block(hash: Hash)
    | Transaction(hash: Hash)

  const HEADER: byte := 0x68        // h
  const HASH_SUFFIX: byte := 0x6e   // n
  const HEADER_HEIGHT: byte := 0x48 // H
  const BODY: byte := 0x62          // b
  const TRANSACTION: byte := 0x54   // T

  function Encode(k: RawKey): (r: bytes)
    ensures r != []
  {
    match k
    case Header(height, hash) => [HEADER] + ToBE(height, 8) + hash
    case HeaderHash(height) => [HEADER] + ToBE(height, 8) + [HASH_SUFFIX]
    case HeaderHeight(hash) => [HEADER_HEIGHT] + hash
    case BlockBody(height, hash) => [BODY] + ToBE(height, 8) + hash
    case Block(hash) => [BODY] + hash
    case Transaction(hash) => [TRANSACTION] + hash
  }

  /** The bytes of an ASCII string. */
  function Ascii(s: string): (r: bytes)
    requires forall i :: 0 <= i < |s| ==> s[i] as int < 128
    ensures |r| == |s|
  {
    seq(|s|, i requires 0 <= i < |s| => s[i] as int)
  }

  /** The prefixes spelled out. */
  lemma TableNames()
    ensures TABLES == [Ascii("rfqRequests"), Ascii("openRFQs"), Ascii("closeRFQs"), Ascii("matchedRFQs"),
                       Ascii("settledRFQs"), Ascii("quotes")]
  {
    assert RFQ_REQUESTS == Ascii("rfqRequests") && OPEN_RFQS == Ascii("openRFQs") && CLOSE_RFQS == Ascii("closeRFQs");
    assert MATCHED_RFQS == Ascii("matchedRFQs") && SETTLED_RFQS == Ascii("settledRFQs") && QUOTES == Ascii("quotes");
  }

  /** Where height and hash stand in a raw key. */
  lemma KeyLayout(k: RawKey)
    ensures var r := Encode(k);
      match k
      case Header(height, hash) => |r| == 41 && r[..1] == Ascii("h") && FromBE(r[1..9]) == height && r[9..] == hash
      case HeaderHash(height) => |r| == 10 && r[..1] == Ascii("h") && FromBE(r[1..9]) == height && r[9..] == Ascii("n")
      case HeaderHeight(hash) => |r| == 33 && r[..1] == Ascii("H") && r[1..] == hash
      case BlockBody(height, hash) => |r| == 41 && r[..1] == Ascii("b") && FromBE(r[1..9]) == height && r[9..] == hash
      case Block(hash) => |r| == 33 && r[..1] == Ascii("b") && r[1..] == hash
      case Transaction(hash) => |r| == 33 && r[..1] == Ascii("T") && r[1..] == hash
  {
    hide ToBE, FromBE;
    var r := Encode(k);
    if k.Header? || k.HeaderHash? || k.BlockBody? {
      Uint64RoundTrip(k.height);
      assert r[1..9] == ToBE(k.height, 8);
    }
    assert r[..1] == [r[0]];
  }

  /** Different raw keys never share bytes, within a family or across. */
  lemma RawKeysDistinct(a: RawKey, b: RawKey)
    requires Encode(a) == Encode(b)
    ensures a == b
  {
    assert |Encode(a)| == |Encode(b)| && Encode(a)[0] == Encode(b)[0];
    if (a.Header? && b.Header?) || (a.BlockBody? && b.BlockBody?) {
      SplitEqual([Encode(a)[0]] + ToBE(a.height, 8), a.hash, [Encode(b)[0]] + ToBE(b.height, 8), b.hash);
      SameHeight(Encode(a)[0], a.height, b.height);
    } else if a.HeaderHash? && b.HeaderHash? {
      SplitEqual([HEADER] + ToBE(a.height, 8), [HASH_SUFFIX], [HEADER] + ToBE(b.height, 8), [HASH_SUFFIX]);
      SameHeight(HEADER, a.height, b.height);
    } else if (a.HeaderHeight? && b.HeaderHeight?) || (a.Block? && b.Block?) || (a.Transaction? && b.Transaction?) {
      SplitEqual([Encode(a)[0]], a.hash, [Encode(b)[0]], b.hash);
    }
  }

  lemma SameHeight(first: byte, g: uint64, h: uint64)
    requires [first] + ToBE(g, 8) == [first] + ToBE(h, 8)
    ensures g == h
  {
    SplitEqual([first], ToBE(g, 8), [first], ToBE(h, 8));
    Uint64RoundTrip(g);
    Uint64RoundTrip(h);
  }

  lemma TablesApart(i: nat, j: nat)
    requires i < |TABLES| && j < |TABLES| && i != j
    ensures Apart(TABLES[i], TABLES[j])
  {
    assert TABLES[i][0] != TABLES[j][0];
  }

  lemma RawOutside(k: RawKey, i: nat)
    requires i < |TABLES|
    ensures Apart([Encode(k)[0]], TABLES[i])
  {
  }

  /** The six tables never see each other's writes. */
  lemma TablesSeparate(m: Store, i: nat, j: nat, ops: seq<KeyValue>)
    requires i < |TABLES| && j < |TABLES| && i != j
    ensures View(ApplyAll(m, PrefixedAll(ops, TABLES[i])), TABLES[j]) == View(m, TABLES[j])
  {
    TablesApart(i, j);
    TablesIsolated(m, TABLES[i], TABLES[j], ops);
  }

  /** No table sees a write under a raw key, and no raw key sees a write through a table. */
  lemma RawSeparate(m: Store, k: RawKey, value: bytes, i: nat, op: KeyValue)
    requires i < |TABLES|
    ensures View(m[Encode(k) := value], TABLES[i]) == View(m, TABLES[i])
    ensures var m' := Apply(m, Prefixed(op, TABLES[i]));
      (Encode(k) in m' <==> Encode(k) in m) && (Encode(k) in m ==> m'[Encode(k)] == m[Encode(k)])
  {
    var first, rest := [Encode(k)[0]], Encode(k)[1..];
    assert Encode(k) == first + rest;
    RawOutside(k, i);
    OtherWrite(m, first, TABLES[i], Put(rest, value));
    Diverge(first, TABLES[i], rest, op.key);
  }

  /** Writing one raw key leaves every other one alone. */
  lemma RawWritesSeparate(m: Store, a: RawKey, b: RawKey, value: bytes)
    requires a != b
    ensures var m' := m[Encode(a) := value];
      (Encode(b) in m' <==> Encode(b) in m) && (Encode(b) in m ==> m'[Encode(b)] == m[Encode(b)])
  {
    if Encode(a) == Encode(b) {
      RawKeysDistinct(a, b);
    }
  }
}
