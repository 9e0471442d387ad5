/** Byte strings: the lexicographic order of the key-value stores, and the
    big-endian integers of the codecs. */
module Bytes {
  type byte = b: int | 0 <= b < 256
  type bytes = seq<byte>
  type Hash = h: bytes | |h| == 32 witness seq(32, _ => 0)
  type Address = a: bytes | |a| == 20 witness seq(20, _ => 0)
  type uint64 = n: int | 0 <= n < 0x1_0000_0000_0000_0000
  type int64 = n: int | -0x8000_0000_0000_0000 <= n < 0x8000_0000_0000_0000

  datatype Option<+T> = None | Some(value: T)

  datatype Result<+T> = Ok(value: T) | Err

  // ---------- order ----------

  /** Strict byte-wise lexicographic order (Go's string and bytes.Compare order). */
  predicate Less(a: bytes, b: bytes) {
    b != [] && (a == [] || a[0] < b[0] || (a[0] == b[0] && Less(a[1..], b[1..])))
  }

  predicate AtMost(a: bytes, b: bytes) {
    !Less(b, a)
  }

  lemma {:induction false} LessIrreflexive(a: bytes)
    ensures !Less(a, a)
  {
    if a != [] { LessIrreflexive(a[1..]); }
  }

  lemma {:induction false} LessTransitive(a: bytes, b: bytes, c: bytes)
    requires Less(a, b) && Less(b, c)
    ensures Less(a, c)
  {
    if a != [] && a[0] == b[0] && b[0] == c[0] {
      LessTransitive(a[1..], b[1..], c[1..]);
    }
  }

  lemma {:induction false} LessTotal(a: bytes, b: bytes)
    ensures Less(a, b) || a == b || Less(b, a)
  {
    if a != [] && b != [] && a[0] == b[0] {
      LessTotal(a[1..], b[1..]);
      if a[1..] == b[1..] {
        assert a == [a[0]] + a[1..] && b == [b[0]] + b[1..];
      }
    }
  }

  lemma {:induction false} LessAsymmetric(a: bytes, b: bytes)
    requires Less(a, b)
    ensures !Less(b, a)
  {
    if Less(b, a) {
      LessTransitive(a, b, a);
      LessIrreflexive(a);
    }
  }

  /** A common prefix does not change the order. */
  lemma {:induction false} LessPrefixed(p: bytes, a: bytes, b: bytes)
    ensures Less(p + a, p + b) <==> Less(a, b)
  {
    if p == [] {
      assert p + a == a && p + b == b;
    } else {
      assert (p + a)[1..] == p[1..] + a && (p + b)[1..] == p[1..] + b;
      LessPrefixed(p[1..], a, b);
    }
  }

  predicate HasPrefix(k: bytes, p: bytes) {
    p <= k
  }

  // ---------- big-endian integers ----------

  function Pow256(n: nat): (r: nat)
    ensures r >= 1
  {
    if n == 0 then 1 else 256 * Pow256(n - 1)
  }

  /** The natural number a byte string denotes (big.Int.SetBytes, BigEndian.Uint64). */
  function FromBE(bs: bytes): (n: nat) {
    if bs == [] then 0 else 256 * FromBE(bs[..|bs| - 1]) + bs[|bs| - 1]
  }

  /** The `width` low-order bytes of n (BigEndian.PutUint64, and the padded copies). */
  function ToBE(n: nat, width: nat): (bs: bytes)
    ensures |bs| == width
    decreases width
  {
    if width == 0 then [] else ToBE(n / 256, width - 1) + [n % 256]
  }

  /** Minimal form: no leading zero byte, nothing for zero (big.Int.Bytes). */
  function MinBE(n: nat): (bs: bytes)
    ensures bs == [] <==> n == 0
    ensures bs != [] ==> bs[0] != 0
  {
    if n == 0 then [] else MinBE(n / 256) + [n % 256]
  }

  predicate Canonical(bs: bytes) {
    bs == [] || bs[0] != 0
  }

  lemma {:induction false} FromToBE(n: nat, width: nat)
    requires n < Pow256(width)
    ensures FromBE(ToBE(n, width)) == n
    decreases width
  {
    if width > 0 {
      FromToBE(n / 256, width - 1);
      assert ToBE(n, width)[..width - 1] == ToBE(n / 256, width - 1);
    }
  }

  lemma {:induction false} ToFromBE(bs: bytes)
    ensures FromBE(bs) < Pow256(|bs|)
    ensures ToBE(FromBE(bs), |bs|) == bs
    decreases |bs|
  {
    if bs != [] {
      var front := bs[..|bs| - 1];
      ToFromBE(front);
      assert FromBE(bs) / 256 == FromBE(front) && FromBE(bs) % 256 == bs[|bs| - 1];
      assert bs == front + [bs[|bs| - 1]];
    }
  }

  lemma {:induction false} FromMinBE(n: nat)
    ensures FromBE(MinBE(n)) == n
  {
    if n > 0 {
      FromMinBE(n / 256);
      assert MinBE(n)[..|MinBE(n)| - 1] == MinBE(n / 256);
    }
  }

  lemma {:induction false} MinFromBE(bs: bytes)
    requires Canonical(bs)
    ensures MinBE(FromBE(bs)) == bs
    decreases |bs|
  {
    if bs != [] {
      var front := bs[..|bs| - 1];
      MinFromBE(front);
      assert FromBE(bs) / 256 == FromBE(front) && FromBE(bs) % 256 == bs[|bs| - 1];
      assert bs == front + [bs[|bs| - 1]];
    }
  }

  /** MinBE(n) has at most `width` bytes exactly when n fits in `width` bytes. */
  lemma {:induction false} MinBELength(n: nat, width: nat)
    ensures |MinBE(n)| <= width <==> n < Pow256(width)
    decreases n
  {
    if n > 0 {
      if width > 0 {
        MinBELength(n / 256, width - 1);
      }
    }
  }

  /** Left zero padding, as done by copying into the tail of a zeroed buffer. */
  function PadLeft(bs: bytes, width: nat): (r: bytes)
    requires |bs| <= width
    ensures |r| == width
  {
    seq(width - |bs|, _ => 0) + bs
  }

  lemma {:induction false} FromBEPadded(bs: bytes, width: nat)
    requires |bs| <= width
    ensures FromBE(PadLeft(bs, width)) == FromBE(bs)
    decreases width
  {
    var p := PadLeft(bs, width);
    if width > 0 {
      if bs == [] {
        assert p[..width - 1] == PadLeft([], width - 1);
        FromBEPadded([], width - 1);
      } else {
        assert p[..width - 1] == PadLeft(bs[..|bs| - 1], width - 1);
        FromBEPadded(bs[..|bs| - 1], width - 1);
      }
    }
  }

  // ---------- fixed-width integers ----------

  lemma Pow8()
    ensures Pow256(8) == 0x1_0000_0000_0000_0000
  {
    assert Pow256(2) == 0x1_0000;
    assert Pow256(4) == 0x1_0000_0000;
    assert Pow256(6) == 0x1_0000_0000_0000;
  }

  lemma Uint64RoundTrip(n: uint64)
    ensures FromBE(ToBE(n, 8)) == n
  {
    Pow8();
    FromToBE(n, 8);
  }

  /** Go's conversion to int64: the value modulo 2^64, in two's complement. */
  function ToInt64(n: int): int64 {
    var m := n % 0x1_0000_0000_0000_0000;
    if m < 0x8000_0000_0000_0000 then m else m - 0x1_0000_0000_0000_0000
  }

  /** Go's conversion of an int64 to uint64. */
  function ToUint64(n: int64): uint64 {
    n % 0x1_0000_0000_0000_0000
  }

  /** Equal concatenations split at the same place have equal parts. */
  lemma SplitEqual<T>(a: seq<T>, b: seq<T>, c: seq<T>, d: seq<T>)
    requires a + b == c + d && (|a| == |c| || |b| == |d|)
    ensures a == c && b == d
  {
    assert (a + b)[..|a|] == a && (c + d)[..|c|] == c;
    assert (a + b)[|a|..] == b && (c + d)[|c|..] == d;
  }
}
