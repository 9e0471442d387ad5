/** Recursive length prefix encoding, after Appendix B of the Ethereum Yellow
    Paper, with the strict decoding the codecs rely on: one canonical form, no
    trailing bytes. */
module Rlp {
  import opened Bytes

  datatype Item = Str(bytes: bytes) | List(items: seq<Item>)

  const MAX: nat := 0x1_0000_0000_0000_0000

  // ---------- encoding ----------

  /** The prefix of a payload of n bytes; base is 0x80 for strings and 0xc0 for lists. The format is for
      payloads below MAX. */
  function Header(base: byte, n: nat): (r: bytes)
    requires base == 0x80 || base == 0xc0
    ensures r != []
  {
    if n <= 55 then [base + n] else [(base as int + 55 + |MinBE(n)|) % 256] + MinBE(n)
  }

  lemma LengthBytes(n: nat)
    ensures |MinBE(n)| <= 8 <==> n < MAX
  {
    MinBELength(n, 8);
    Pow8();
  }

  function Encode(i: Item): (r: bytes)
    ensures r != []
    decreases i, 1
  {
    match i
    case Str(b) => if |b| == 1 && b[0] < 0x80 then b else Header(0x80, |b|) + b
    case List(items) =>
      var payload := EncodeAll(items);
      Header(0xc0, |payload|) + payload
  }

  function EncodeAll(items: seq<Item>): (r: bytes)
    decreases items, 0
  {
    if items == [] then [] else Encode(items[0]) + EncodeAll(items[1..])
  }

  // ---------- decoding ----------

  /** Splits off a payload of the length its header claims. */
  datatype Split = Bad | Payload(header: nat, size: nat)

  /** Reads a header at the front: the header's own length and the payload's. */
  function ReadHeader(bs: bytes, base: byte): (r: Split)
    requires bs != [] && (base == 0x80 || base == 0xc0) && base <= bs[0] <= base + 63
    ensures r.Payload? ==> 0 < r.header && r.header + r.size <= |bs|
  {
    var n := bs[0] - base;
    if n <= 55 then (if |bs| < 1 + n then Bad else Payload(1, n)) else
      var k := n - 55;
      if |bs| < 1 + k || bs[1] == 0 then Bad else
        var size := FromBE(bs[1..1 + k]);
        if size <= 55 || |bs| < 1 + k + size then Bad else Payload(1 + k, size)
  }

  /** The first item and the number of bytes it takes. */
  function Parse(bs: bytes): (r: Result<(Item, nat)>)
    ensures r.Ok? ==> 0 < r.value.1 <= |bs|
    decreases |bs|, 0
  {
    if bs == [] then Err
    else if bs[0] < 0x80 then Ok((Str(bs[..1]), 1))
    else if bs[0] < 0xc0 then
      match ReadHeader(bs, 0x80)
      case Bad => Err
      case Payload(h, n) =>
        if n == 1 && bs[h] < 0x80 then Err else Ok((Str(bs[h..h + n]), h + n))
    else
      match ReadHeader(bs, 0xc0)
      case Bad => Err
      case Payload(h, n) =>
        match ParseAll(bs[h..h + n])
        case Err => Err
        case Ok(items) => Ok((List(items), h + n))
  }

  /** All the items of a payload. */
  function ParseAll(bs: bytes): Result<seq<Item>>
    decreases |bs|, 1
  {
    if bs == [] then Ok([]) else
      match Parse(bs)
      case Err => Err
      case Ok((item, n)) =>
        match ParseAll(bs[n..])
        case Err => Err
        case Ok(rest) => Ok([item] + rest)
  }

  /** DecodeBytes: exactly one item. */
  function Decode(bs: bytes): Result<Item> {
    match Parse(bs)
    case Err => Err
    case Ok((item, n)) => if n == |bs| then Ok(item) else Err
  }

  // ---------- decoding undoes encoding ----------

  lemma LongHeader(base: byte, n: nat)
    requires (base == 0x80 || base == 0xc0) && 55 < n < MAX
    ensures 0 < |MinBE(n)| <= 8 && Header(base, n) == [base + 55 + |MinBE(n)|] + MinBE(n)
    ensures MinBE(n)[0] != 0 && FromBE(MinBE(n)) == n
  {
    LengthBytes(n);
    FromMinBE(n);
  }

  lemma HeaderReads(base: byte, payload: bytes, rest: bytes)
    requires (base == 0x80 || base == 0xc0) && |payload| < MAX
    ensures var bs := Header(base, |payload|) + payload + rest;
      var h := |Header(base, |payload|)|;
      && base <= bs[0] <= base + 63 && ReadHeader(bs, base) == Payload(h, |payload|)
      && bs[h..h + |payload|] == payload
  {
    hide MinBE, FromBE;
    var n := |payload|;
    var bs := Header(base, n) + payload + rest;
    if n > 55 {
      LongHeader(base, n);
      assert bs[1..1 + |MinBE(n)|] == MinBE(n);
      assert bs[1] == MinBE(n)[0];
    }
  }

  lemma ParseString(b: bytes, rest: bytes)
    requires |b| < MAX && !(|b| == 1 && b[0] < 0x80)
    ensures Parse(Header(0x80, |b|) + b + rest) == Ok((Str(b), |Header(0x80, |b|) + b|))
  {
    hide Header, ReadHeader;
    HeaderReads(0x80, b, rest);
    var bs, h := Header(0x80, |b|) + b + rest, |Header(0x80, |b|)|;
    assert |b| == 1 ==> bs[h] == bs[h..h + |b|][0];
  }

  lemma ParseList(items: seq<Item>, payload: bytes, rest: bytes)
    requires |payload| < MAX && ParseAll(payload) == Ok(items)
    ensures Parse(Header(0xc0, |payload|) + payload + rest) == Ok((List(items), |Header(0xc0, |payload|) + payload|))
  {
    hide Header, ReadHeader;
    HeaderReads(0xc0, payload, rest);
  }

  lemma {:induction false} ParseEncode(i: Item, rest: bytes)
    requires |Encode(i)| < MAX
    ensures Parse(Encode(i) + rest) == Ok((i, |Encode(i)|))
    decreases i, 1
  {
    hide Header;
    match i
    case Str(b) =>
      if |b| == 1 && b[0] < 0x80 {
        assert (b + rest)[..1] == b;
      } else {
        ParseString(b, rest);
      }
    case List(items) =>
      ParseEncodeAll(items);
      ParseList(items, EncodeAll(items), rest);
  }

  lemma {:induction false} ParseEncodeAll(items: seq<Item>)
    requires |EncodeAll(items)| < MAX
    ensures ParseAll(EncodeAll(items)) == Ok(items)
    decreases items, 0
  {
    if items != [] {
      var first, tail := items[0], items[1..];
      ParseEncode(first, EncodeAll(tail));
      ParseEncodeAll(tail);
      assert EncodeAll(items)[|Encode(first)|..] == EncodeAll(tail);
      assert items == [first] + tail;
    }
  }

  /** Every item whose encoding is shorter than MAX survives the round trip. */
  lemma DecodeEncode(i: Item)
    requires |Encode(i)| < MAX
    ensures Decode(Encode(i)) == Ok(i)
  {
    assert Encode(i) + [] == Encode(i);
    ParseEncode(i, []);
  }

  // ---------- encoding undoes decoding ----------

  lemma HeaderWrites(bs: bytes, base: byte)
    requires bs != [] && (base == 0x80 || base == 0xc0) && base <= bs[0] <= base + 63 && |bs| < MAX
    requires ReadHeader(bs, base).Payload?
    ensures var Payload(h, n) := ReadHeader(bs, base); n < MAX && Header(base, n) == bs[..h]
  {
    hide MinBE, FromBE;
    var Payload(h, n) := ReadHeader(bs, base);
    if h == 1 {
      assert bs[..1] == [bs[0]];
    } else {
      MinFromBE(bs[1..h]);
      LongHeader(base, n);
      assert bs[..h] == [bs[0]] + bs[1..h];
    }
  }

  /** Only canonical encodings decode: what was read is what encoding writes. */
  lemma {:induction false} EncodeParse(bs: bytes)
    requires |bs| < MAX && Parse(bs).Ok?
    ensures Encode(Parse(bs).value.0) == bs[..Parse(bs).value.1]
    decreases |bs|, 0
  {
    hide Header, ReadHeader, ParseAll, EncodeAll;
    if bs[0] >= 0x80 {
      var base: byte := if bs[0] < 0xc0 then 0x80 else 0xc0;
      var Payload(h, n) := ReadHeader(bs, base);
      HeaderWrites(bs, base);
      assert bs[..h + n] == bs[..h] + bs[h..h + n];
      if base == 0xc0 {
        EncodeParseAll(bs[h..h + n]);
      }
    }
  }

  lemma {:induction false} EncodeParseAll(bs: bytes)
    requires |bs| < MAX && ParseAll(bs).Ok?
    ensures EncodeAll(ParseAll(bs).value) == bs
    decreases |bs|, 1
  {
    hide Parse, Encode;
    if bs != [] {
      var (item, n) := Parse(bs).value;
      EncodeParse(bs);
      EncodeParseAll(bs[n..]);
      var items := ParseAll(bs).value;
      assert items[1..] == ParseAll(bs[n..]).value;
      assert bs == bs[..n] + bs[n..];
    }
  }

  lemma EncodeDecode(bs: bytes)
    requires |bs| < MAX && Decode(bs).Ok?
    ensures Encode(Decode(bs).value) == bs
  {
    EncodeParse(bs);
    assert bs[..|bs|] == bs;
  }

  // ---------- the rules of the format ----------

  /** The encoding of strings, rule by rule. */
  lemma StringRules(b: bytes)
    requires |b| < MAX
    ensures |b| == 1 && b[0] < 0x80 ==> Encode(Str(b)) == b
    ensures |b| <= 55 && !(|b| == 1 && b[0] < 0x80) ==> Encode(Str(b)) == [0x80 + |b|] + b
    ensures |b| > 55 ==>
      exists n: bytes :: 0 < |n| <= 8 && n[0] != 0 && FromBE(n) == |b| && Encode(Str(b)) == [0xb7 + |n|] + n + b
  {
    if |b| > 55 {
      LengthBytes(|b|);
      FromMinBE(|b|);
      var n := MinBE(|b|);
      assert 0 < |n| <= 8 && n[0] != 0 && FromBE(n) == |b| && Encode(Str(b)) == [0xb7 + |n|] + n + b;
    }
  }

  /** And of lists: the same around the payload. */
  lemma ListRules(items: seq<Item>, payload: bytes)
    requires payload == EncodeAll(items) && |payload| < MAX
    ensures |payload| <= 55 ==> Encode(List(items)) == [0xc0 + |payload|] + payload
    ensures |payload| > 55 ==>
      exists n: bytes :: 0 < |n| <= 8 && n[0] != 0 && FromBE(n) == |payload|
        && Encode(List(items)) == [0xf7 + |n|] + n + payload
  {
    hide EncodeAll;
    if |payload| > 55 {
      LengthBytes(|payload|);
      FromMinBE(|payload|);
      var n := MinBE(|payload|);
      assert 0 < |n| <= 8 && n[0] != 0 && FromBE(n) == |payload| && Encode(List(items)) == [0xf7 + |n|] + n + payload;
    }
  }

  /** The payload of a list is the encodings of its items, one after the other. */
  lemma PayloadRules(i: Item, items: seq<Item>)
    ensures EncodeAll([]) == [] && EncodeAll([i] + items) == Encode(i) + EncodeAll(items)
  {
    assert ([i] + items)[1..] == items;
  }
}
