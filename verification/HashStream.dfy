/** DeriveSha: the order in which a list is fed to the hasher, and the
    length-prefixed stream the hasher sees. */
module HashStream {
  import opened Bytes
  import Rlp

  // ---------- index keys ----------

  /** The RLP encoding of an index (rlp.AppendUint64). */
  function IndexKey(i: uint64): (r: bytes)
    ensures 0 < |r|
  {
    if i == 0 then [0x80]
    else if i < 0x80 then [i]
    else
      MinBELength(i, 8);
      Pow8();
      [0x80 + |MinBE(i)|] + MinBE(i)
  }

  /** It is the encoding of the minimal big-endian form. */
  lemma IndexKeyIsRlp(i: uint64)
    ensures IndexKey(i) == Rlp.Encode(Rlp.Str(MinBE(i)))
  {
    MinBELength(i, 8);
    Pow8();
    if 0 < i < 0x80 {
      assert MinBE(i / 256) == [];
    } else if i >= 0x80 {
      MinBELength(i, 1);
      assert Pow256(1) == 256;
      assert i < 256 ==> MinBE(i) == [i];
    }
  }

  lemma {:induction false} LessExtends(a: bytes, b: bytes, s: bytes, t: bytes)
    requires |a| == |b| && Less(a, b)
    ensures Less(a + s, b + t)
  {
    assert (a + s)[1..] == a[1..] + s && (b + t)[1..] == b[1..] + t;
    if a[0] == b[0] {
      LessExtends(a[1..], b[1..], s, t);
    }
  }

  /** On strings of one length the byte order is the numeric order. */
  lemma {:induction false} NumericLess(a: bytes, b: bytes)
    requires |a| == |b| && FromBE(a) < FromBE(b)
    ensures Less(a, b)
    decreases |a|
  {
    var n := |a| - 1;
    var a', b' := a[..n], b[..n];
    assert a == a' + [a[n]] && b == b' + [b[n]];
    if FromBE(a') == FromBE(b') {
      ToFromBE(a');
      ToFromBE(b');
      assert a' == b' && a[n] < b[n];
      LessPrefixed(a', [a[n]], [b[n]]);
    } else {
      NumericLess(a', b');
      LessExtends(a', b', [a[n]], [b[n]]);
    }
  }

  lemma {:induction false} ShorterIsSmaller(i: nat, j: nat)
    requires i <= j
    ensures |MinBE(i)| <= |MinBE(j)|
  {
    if i > 0 { ShorterIsSmaller(i / 256, j / 256); }
  }

  /** The place of an index in byte order: 1 to 0x7f, then 0, then the rest. */
  function Rank(i: nat): nat {
    if i == 0 then 0x80 else if i < 0x80 then i else i + 1
  }

  lemma KeysAscend(i: uint64, j: uint64)
    requires Rank(i) < Rank(j)
    ensures Less(IndexKey(i), IndexKey(j))
  {
    if i >= 0x80 {
      ShorterIsSmaller(i, j);
      FromMinBE(i);
      FromMinBE(j);
      if |MinBE(i)| == |MinBE(j)| {
        NumericLess(MinBE(i), MinBE(j));
        LessPrefixed([IndexKey(i)[0]], MinBE(i), MinBE(j));
      }
    }
  }

  // ---------- visiting order ----------

  /** The indices from lo up to hi. */
  function Upto(lo: nat, hi: nat): (r: seq<nat>)
    ensures |r| == if lo < hi then hi - lo else 0
    ensures forall k :: 0 <= k < |r| ==> r[k] == lo + k
  {
    if lo >= hi then [] else seq(hi - lo, k requires 0 <= k < hi - lo => lo + k)
  }

  function Order(n: nat): (r: seq<nat>)
    ensures forall k :: 0 <= k < |r| ==> r[k] < n
  {
    Upto(1, if n < 0x80 then n else 0x80) + Upto(0, if n > 0 then 1 else 0) + Upto(0x80, n)
  }

  /** Every index is visited exactly once, and the index keys ascend in byte order. */
  lemma VisitsAllAscending(n: nat)
    requires n <= 0x1_0000_0000_0000_0000
    ensures |Order(n)| == n
    ensures forall i :: 0 <= i < n ==> i in Order(n)
    ensures forall k, l :: 0 <= k < l < n ==>
      Order(n)[k] != Order(n)[l] && Less(IndexKey(Order(n)[k]), IndexKey(Order(n)[l]))
  {
    var o := Order(n);
    forall i | 0 <= i < n ensures i in o {
      assert o[if i == 0 then (if n < 0x80 then n - 1 else 0x7f) else if i < 0x80 then i - 1 else i] == i;
    }
    forall k, l | 0 <= k < l < n ensures o[k] != o[l] && Less(IndexKey(o[k]), IndexKey(o[l])) {
      assert Rank(o[k]) < Rank(o[l]);
      KeysAscend(o[k], o[l]);
    }
  }

  // ---------- the stream ----------

  /** A field as the hasher sees it: its length in four bytes, then its bytes. */
  function Field(b: bytes): bytes {
    ToBE(|b| % 0x1_0000_0000, 4) + b
  }

  function Record(key: bytes, value: bytes): bytes {
    Field(key) + Field(value)
  }

  /** The records of the listed indices. */
  function Stream(list: seq<bytes>, order: seq<nat>): bytes
    requires |list| <= 0x1_0000_0000_0000_0000 && forall k :: 0 <= k < |order| ==> order[k] < |list|
  {
    if order == [] then [] else
      Stream(list, order[..|order| - 1]) + Record(IndexKey(order[|order| - 1]), list[order[|order| - 1]])
  }

  lemma StreamAppend(list: seq<bytes>, order: seq<nat>, i: nat)
    requires |list| <= 0x1_0000_0000_0000_0000 && i < |list| && forall k :: 0 <= k < |order| ==> order[k] < |list|
    ensures Stream(list, order + [i]) == Stream(list, order) + Record(IndexKey(i), list[i])
  {
    assert (order + [i])[..|order|] == order;
  }

  class OcaxHasher {
    /** Everything written since the last reset. */
    var stream: bytes

    constructor ()
      ensures stream == []
    {
      stream := [];
    }

    method Reset()
      modifies this
      ensures stream == []
    {
      stream := [];
    }

    method Update(key: bytes, value: bytes)
      modifies this
      ensures stream == old(stream) + Record(key, value)
    {
      hide ToBE;
      stream := stream + ToBE(|key| % 0x1_0000_0000, 4);
      stream := stream + key;
      stream := stream + ToBE(|value| % 0x1_0000_0000, 4);
      stream := stream + value;
    }
  }

  /** DeriveSha up to the final Keccak: what is hashed for a list of encodings. */
  method DeriveSha(list: seq<bytes>, hasher: OcaxHasher)
    requires |list| <= 0x1_0000_0000_0000_0000
    modifies hasher
    ensures hasher.stream == Stream(list, Order(|list|))
  {
    hide Record, IndexKey, Stream, Upto, Order;
    hasher.Reset();
    ghost var order: seq<nat> := [];
    StreamNone(list);
    UptoNone(1);
    var i := 1;
    while i < |list| && i <= 0x7f
      invariant 1 <= i <= 0x80 && (i <= |list| || i == 1) && order == Upto(1, i) && Below(order, |list|)
      invariant hasher.stream == Stream(list, order)
    {
      hasher.Update(IndexKey(i), list[i]);
      StreamAppend(list, order, i);
      UptoMore(1, i);
      order := order + [i];
      i := i + 1;
    }
    if |list| > 0 {
      hasher.Update(IndexKey(0), list[0]);
      StreamAppend(list, order, 0);
      order := order + [0];
    }
    ghost var head := order;
    OrderHead(|list|, i, head);
    UptoNone(0x80);
    i := 0x80;
    while i < |list|
      invariant 0x80 <= i && (i <= |list| || i == 0x80) && order == head + Upto(0x80, i) && Below(order, |list|)
      invariant hasher.stream == Stream(list, order)
    {
      hasher.Update(IndexKey(i), list[i]);
      StreamAppend(list, order, i);
      UptoMore(0x80, i);
      assert head + (Upto(0x80, i) + [i]) == order + [i];
      order := order + [i];
      i := i + 1;
    }
    UptoEmpty(0x80, |list|);
  }

  ghost predicate Below(order: seq<nat>, n: nat) {
    forall k :: 0 <= k < |order| ==> order[k] < n
  }

  /** What the first loop and the index 0 leave for the last loop. */
  lemma OrderHead(n: nat, i: nat, head: seq<nat>)
    requires i == (if n <= 1 then 1 else if n < 0x80 then n else 0x80)
    requires head == Upto(1, i) + if n > 0 then [0] else []
    ensures Order(n) == head + Upto(0x80, n)
  {
  }

  lemma UptoNone(lo: nat)
    ensures Upto(lo, lo) == []
  {
  }

  lemma UptoEmpty(lo: nat, hi: nat)
    ensures hi <= lo ==> Upto(lo, hi) == []
  {
  }

  lemma UptoMore(lo: nat, hi: nat)
    requires lo <= hi
    ensures Upto(lo, hi + 1) == Upto(lo, hi) + [hi]
  {
  }

  lemma StreamNone(list: seq<bytes>)
    requires |list| <= 0x1_0000_0000_0000_0000
    ensures Stream(list, []) == []
  {
  }

  // ---------- unique decoding ----------

  ghost predicate Small(list: seq<bytes>) {
    |list| <= 0x1_0000_0000_0000_0000 && forall i :: 0 <= i < |list| ==> |list[i]| < 0x1_0000_0000
  }

  lemma Pow4()
    ensures Pow256(4) == 0x1_0000_0000
  {
    assert Pow256(2) == 0x1_0000;
  }

  /** A field can be told from what follows it. */
  lemma FieldSplits(a: bytes, s: bytes, b: bytes, t: bytes)
    requires |a| < 0x1_0000_0000 && |b| < 0x1_0000_0000
    requires Field(a) + s == Field(b) + t
    ensures a == b && s == t
  {
    hide ToBE, FromBE, Pow256;
    var la, lb := ToBE(|a| % 0x1_0000_0000, 4), ToBE(|b| % 0x1_0000_0000, 4);
    assert Field(a) + s == la + (a + s) && Field(b) + t == lb + (b + t);
    SplitEqual(la, a + s, lb, b + t);
    Pow4();
    FromToBE(|a|, 4);
    FromToBE(|b|, 4);
    SplitEqual(a, s, b, t);
  }

  lemma RecordSplits(k: bytes, v: bytes, s: bytes, l: bytes, w: bytes, t: bytes)
    requires |k| < 0x1_0000_0000 && |v| < 0x1_0000_0000 && |l| < 0x1_0000_0000 && |w| < 0x1_0000_0000
    requires Record(k, v) + s == Record(l, w) + t
    ensures k == l && v == w && s == t
  {
    hide Field;
    assert Record(k, v) + s == Field(k) + (Field(v) + s) && Record(l, w) + t == Field(l) + (Field(w) + t);
    FieldSplits(k, Field(v) + s, l, Field(w) + t);
    FieldSplits(v, s, w, t);
  }

  /** The stream again, from the front. */
  function StreamFrom(list: seq<bytes>, order: seq<nat>): bytes
    requires |list| <= 0x1_0000_0000_0000_0000 && forall k :: 0 <= k < |order| ==> order[k] < |list|
  {
    if order == [] then [] else Record(IndexKey(order[0]), list[order[0]]) + StreamFrom(list, order[1..])
  }

  lemma {:induction false} StreamFromFront(list: seq<bytes>, order: seq<nat>)
    requires |list| <= 0x1_0000_0000_0000_0000 && forall k :: 0 <= k < |order| ==> order[k] < |list|
    ensures Stream(list, order) == StreamFrom(list, order)
    decreases |order|
  {
    hide Record, IndexKey;
    if order != [] {
      StreamFromFront(list, order[..|order| - 1]);
      StreamFromAppend(list, order[..|order| - 1], order[|order| - 1]);
      assert order == order[..|order| - 1] + [order[|order| - 1]];
    }
  }

  lemma {:induction false} StreamFromAppend(list: seq<bytes>, order: seq<nat>, i: nat)
    requires |list| <= 0x1_0000_0000_0000_0000 && i < |list| && forall k :: 0 <= k < |order| ==> order[k] < |list|
    ensures StreamFrom(list, order + [i]) == StreamFrom(list, order) + Record(IndexKey(i), list[i])
    decreases |order|
  {
    if order == [] {
      assert (order + [i])[1..] == [];
    } else {
      assert (order + [i])[1..] == order[1..] + [i];
      StreamFromAppend(list, order[1..], i);
    }
  }

  lemma IndexKeyShort(i: uint64)
    ensures |IndexKey(i)| <= 9
  {
    MinBELength(i, 8);
    Pow8();
  }

  lemma IndexKeyInjective(i: uint64, j: uint64)
    requires IndexKey(i) == IndexKey(j)
    ensures i == j
  {
    if Rank(i) < Rank(j) {
      KeysAscend(i, j);
      LessIrreflexive(IndexKey(i));
    } else if Rank(j) < Rank(i) {
      KeysAscend(j, i);
      LessIrreflexive(IndexKey(i));
    }
  }

  lemma {:induction false} StreamsAgree(a: seq<bytes>, oa: seq<nat>, b: seq<bytes>, ob: seq<nat>)
    requires Small(a) && Small(b)
    requires (forall k :: 0 <= k < |oa| ==> oa[k] < |a|) && (forall k :: 0 <= k < |ob| ==> ob[k] < |b|)
    requires StreamFrom(a, oa) == StreamFrom(b, ob)
    ensures oa == ob && forall k :: 0 <= k < |oa| ==> a[oa[k]] == b[oa[k]]
    decreases |oa|
  {
    hide IndexKey, Record;
    if oa == [] || ob == [] {
      RecordNotEmpty(a, oa);
      RecordNotEmpty(b, ob);
    } else {
      IndexKeyShort(oa[0]);
      IndexKeyShort(ob[0]);
      RecordSplits(IndexKey(oa[0]), a[oa[0]], StreamFrom(a, oa[1..]), IndexKey(ob[0]), b[ob[0]], StreamFrom(b, ob[1..]));
      IndexKeyInjective(oa[0], ob[0]);
      StreamsAgree(a, oa[1..], b, ob[1..]);
      assert oa == [oa[0]] + oa[1..] && ob == [ob[0]] + ob[1..];
      forall k | 0 <= k < |oa| ensures a[oa[k]] == b[oa[k]] {
        if k > 0 { assert oa[k] == oa[1..][k - 1]; }
      }
    }
  }

  lemma RecordNotEmpty(list: seq<bytes>, order: seq<nat>)
    requires |list| <= 0x1_0000_0000_0000_0000 && forall k :: 0 <= k < |order| ==> order[k] < |list|
    ensures StreamFrom(list, order) == [] <==> order == []
  {
  }

  /** The k-th record of the stream is the key and the value of the k-th visited index, each behind its length: key first. */
  lemma {:induction false} StreamPart(list: seq<bytes>, order: seq<nat>, k: nat) returns (rest: bytes)
    requires |list| <= 0x1_0000_0000_0000_0000 && k < |order| && forall j :: 0 <= j < |order| ==> order[j] < |list|
    ensures var key, value := IndexKey(order[k]), list[order[k]];
      Stream(list, order) == Stream(list, order[..k])
        + (ToBE(|key| % 0x1_0000_0000, 4) + key + ToBE(|value| % 0x1_0000_0000, 4) + value) + rest
    decreases |order|
  {
    hide ToBE, IndexKey;
    var front, last := order[..|order| - 1], order[|order| - 1];
    var key, value := IndexKey(order[k]), list[order[k]];
    var part := ToBE(|key| % 0x1_0000_0000, 4) + key + ToBE(|value| % 0x1_0000_0000, 4) + value;
    if k == |order| - 1 {
      rest := [];
      assert order[..k] == front && Record(key, value) == part;
      assert Stream(list, front) + part + [] == Stream(list, front) + part;
    } else {
      var more := StreamPart(list, front, k);
      assert front[..k] == order[..k] && front[k] == order[k];
      var tail := Record(IndexKey(last), list[last]);
      rest := more + tail;
      assert Stream(list, order[..k]) + part + more + tail == Stream(list, order[..k]) + part + rest;
    }
  }

  /** Lists that are hashed from the same stream are the same list. */
  lemma DerivedStreamInjective(a: seq<bytes>, b: seq<bytes>)
    requires Small(a) && Small(b)
    requires Stream(a, Order(|a|)) == Stream(b, Order(|b|))
    ensures a == b
  {
    hide Order, Stream, StreamFrom, IndexKey, Less;
    VisitsAllAscending(|a|);
    VisitsAllAscending(|b|);
    StreamFromFront(a, Order(|a|));
    StreamFromFront(b, Order(|b|));
    StreamsAgree(a, Order(|a|), b, Order(|b|));
    var o := Order(|a|);
    assert |a| == |b|;
    forall i | 0 <= i < |a| ensures a[i] == b[i] {
      assert i in o;
      var k :| 0 <= k < |o| && o[k] == i;
      assert a[o[k]] == b[o[k]];
    }
  }
}
