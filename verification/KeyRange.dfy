/** Prefix ranges over the byte order: the bound the range iterator uses, the
    limit a table compaction uses, and ordered listings of keys. */
module KeyRange {
  import opened Bytes

  // ---------- order facts ----------

  lemma {:induction false} PrefixAtMost(p: bytes, t: bytes)
    ensures AtMost(p, p + t)
  {
    assert p + [] == p;
    LessPrefixed(p, t, []);
  }

  lemma AtMostTransitive(a: bytes, b: bytes, c: bytes)
    requires AtMost(a, b) && AtMost(b, c)
    ensures AtMost(a, c)
  {
    if Less(c, a) {
      LessTotal(a, b);
      LessTotal(b, c);
      if a != b && b != c {
        LessTransitive(a, b, c);
        LessAsymmetric(a, c);
      }
    }
  }

  ghost predicate AllFF(bs: bytes) {
    forall i :: 0 <= i < |bs| ==> bs[i] == 0xff
  }

  /** Nothing but its extensions lies above a string of 0xff bytes. */
  lemma {:induction false} AboveFF(p: bytes, k: bytes)
    requires AllFF(p)
    ensures AtMost(p, k) <==> HasPrefix(k, p)
  {
    if p != [] && k != [] && k[0] == 0xff {
      assert AllFF(p[1..]);
      AboveFF(p[1..], k[1..]);
      assert HasPrefix(k, p) <==> HasPrefix(k[1..], p[1..]) by {
        assert p == [p[0]] + p[1..] && k == [k[0]] + k[1..];
      }
    }
  }

  // ---------- the upper bound of a prefix ----------

  /** The keys from lower on, below the limit if there is one. */
  predicate InRange(k: bytes, lower: bytes, limit: Option<bytes>) {
    AtMost(lower, k) && (limit.Some? ==> Less(k, limit.value))
  }

  /** The range from the prefix to the limit is exactly the keys with the prefix. */
  ghost predicate Bounds(prefix: bytes, limit: Option<bytes>) {
    forall k :: HasPrefix(k, prefix) <==> InRange(k, prefix, limit)
  }

  lemma {:induction false} BumpedBound(prefix: bytes, i: nat, k: bytes)
    requires i < |prefix| && prefix[i] < 0xff && AllFF(prefix[i + 1..])
    ensures HasPrefix(k, prefix) <==> InRange(k, prefix, Some(prefix[..i] + [prefix[i] + 1]))
    decreases i
  {
    var limit := prefix[..i] + [prefix[i] + 1];
    if k == [] {
    } else if i == 0 {
      assert k == [k[0]] + k[1..] && prefix == [prefix[0]] + prefix[1..];
      assert limit == [prefix[0] + 1] && limit[1..] == [];
      assert HasPrefix(k, prefix) <==> k[0] == prefix[0] && HasPrefix(k[1..], prefix[1..]);
      AboveFF(prefix[1..], k[1..]);
      assert AtMost(prefix, k) <==> prefix[0] < k[0] || (k[0] == prefix[0] && AtMost(prefix[1..], k[1..]));
      assert Less(k, limit) <==> k[0] <= prefix[0];
    } else {
      var p := prefix[1..];
      assert p[i - 1 + 1..] == prefix[i + 1..];
      assert limit[1..] == p[..i - 1] + [p[i - 1] + 1];
      BumpedBound(p, i - 1, k[1..]);
      assert k == [k[0]] + k[1..] && prefix == [prefix[0]] + p;
      assert HasPrefix(k, prefix) <==> k[0] == prefix[0] && HasPrefix(k[1..], p);
    }
  }

  /** upperBound: no limit exactly if the prefix is empty or all 0xff. */
  method UpperBound(prefix: bytes) returns (limit: Option<bytes>)
    ensures Bounds(prefix, limit)
    ensures limit.None? <==> AllFF(prefix)
  {
    var i := |prefix| - 1;
    while i >= 0
      invariant -1 <= i < |prefix|
      invariant AllFF(prefix[i + 1..])
    {
      var ch := prefix[i];
      if ch == 0xff {
        assert prefix[i..] == [0xff] + prefix[i + 1..];
        i := i - 1;
        continue;
      }
      limit := Some(prefix[..i] + [ch + 1]);
      forall k ensures HasPrefix(k, prefix) <==> InRange(k, prefix, limit) {
        BumpedBound(prefix, i, k);
      }
      return;
    }
    assert prefix[0..] == prefix;
    limit := None;
    forall k ensures HasPrefix(k, prefix) <==> InRange(k, prefix, limit) {
      AboveFF(prefix, k);
    }
  }

  /** The range scan from prefix + start sees exactly the keys the filter keeps. */
  lemma RangeIsFilter(prefix: bytes, start: bytes, limit: Option<bytes>, k: bytes)
    requires Bounds(prefix, limit)
    ensures InRange(k, prefix + start, limit) <==> HasPrefix(k, prefix) && AtMost(prefix + start, k)
  {
    PrefixAtMost(prefix, start);
    if AtMost(prefix + start, k) {
      AtMostTransitive(prefix, prefix + start, k);
    }
    assert HasPrefix(k, prefix) <==> InRange(k, prefix, limit);
  }

  // ---------- the limit of a table compaction ----------

  /** table.Compact with no limit given: bumps the prefix as a number, in place; nil if it overflows. */
  method CompactLimit(prefix: bytes) returns (limit: Option<bytes>)
    ensures limit.None? <==> prefix != [] && AllFF(prefix)
    ensures (forall k :: HasPrefix(k, prefix) ==> InRange(k, prefix, limit)) <==> prefix != []
    ensures prefix == [] ==> forall k :: !InRange(k, prefix, limit)
  {
    var buf := new byte[|prefix|](i requires 0 <= i < |prefix| => prefix[i]);
    var isNil := false;
    var i := |prefix| - 1;
    assert forall j :: 0 <= j < |prefix| ==> buf[j] == prefix[j];
    while i >= 0
      invariant -1 <= i < |prefix| && buf.Length == |prefix|
      invariant AllFF(prefix[i + 1..]) && (isNil <==> i == -1 && prefix != [])
      invariant forall j :: 0 <= j <= i ==> buf[j] == prefix[j]
      invariant forall j :: i < j < |prefix| ==> buf[j] == 0
    {
      assert prefix[i..] == [prefix[i]] + prefix[i + 1..];
      buf[i] := (buf[i] as int + 1) % 256;
      if buf[i] > 0 {
        break;
      }
      if i == 0 {
        isNil := true;
      }
      i := i - 1;
    }
    if isNil {
      assert prefix[0..] == prefix;
      limit := None;
      forall k | HasPrefix(k, prefix) ensures InRange(k, prefix, limit) { AboveFF(prefix, k); }
      return;
    }
    limit := Some(buf[..]);
    if prefix == [] {
      assert buf[..] == [];
      NoneBelowEmpty();
    } else {
      BumpedCovers(prefix, i, buf[..]);
    }
  }

  lemma NoneBelowEmpty()
    ensures forall k :: !InRange(k, [], Some([]))
    ensures HasPrefix([], [])
  {
  }

  lemma BumpedCovers(prefix: bytes, i: nat, limit: bytes)
    requires i < |prefix| == |limit| && prefix[i] < 0xff && AllFF(prefix[i + 1..])
    requires limit[..i] == prefix[..i] && limit[i] == prefix[i] + 1
    ensures forall k :: HasPrefix(k, prefix) ==> InRange(k, prefix, Some(limit))
  {
    var bound := prefix[..i] + [prefix[i] + 1];
    assert limit == bound + limit[i + 1..];
    forall k | HasPrefix(k, prefix) ensures InRange(k, prefix, Some(limit)) {
      BumpedBound(prefix, i, k);
      PrefixAtMost(bound, limit[i + 1..]);
      LessAtMost(k, bound, limit);
    }
  }

  lemma LessAtMost(a: bytes, b: bytes, c: bytes)
    requires Less(a, b) && AtMost(b, c)
    ensures Less(a, c)
  {
    LessTotal(b, c);
    if b != c { LessTransitive(a, b, c); }
  }

  // ---------- ordered listings ----------

  ghost predicate Ascending(ks: seq<bytes>) {
    forall i, j :: 0 <= i < j < |ks| ==> Less(ks[i], ks[j])
  }

  /** ks lists the set in ascending order. */
  ghost predicate Lists(ks: seq<bytes>, keys: set<bytes>) {
    Ascending(ks) && forall k :: k in ks <==> k in keys
  }

  lemma {:induction false} ListingUnique(a: seq<bytes>, b: seq<bytes>)
    requires Ascending(a) && Ascending(b) && (forall k :: k in a <==> k in b)
    ensures a == b
  {
    if a == [] {
      SomeMember(b);
    } else {
      assert a[0] in b && b != [];
      FirstIsLeast(a, b[0]);
      FirstIsLeast(b, a[0]);
      LessTotal(a[0], b[0]);
      assert a[0] == b[0];
      forall k ensures k in a[1..] <==> k in b[1..] {
        TailMembers(a, k);
        TailMembers(b, k);
      }
      assert a == [a[0]] + a[1..] && b == [b[0]] + b[1..];
      ListingUnique(a[1..], b[1..]);
    }
  }

  lemma SomeMember(ks: seq<bytes>)
    ensures ks == [] || exists k :: k in ks
  {
    if ks != [] { assert ks[0] in ks; }
  }

  lemma FirstIsLeast(a: seq<bytes>, k: bytes)
    requires Ascending(a) && k in a
    ensures !Less(k, a[0])
  {
    var i :| 0 <= i < |a| && a[i] == k;
    if i == 0 {
      LessIrreflexive(k);
    } else {
      LessAsymmetric(a[0], k);
    }
  }

  lemma TailMembers(a: seq<bytes>, k: bytes)
    requires Ascending(a) && a != []
    ensures k in a[1..] <==> k in a && k != a[0]
  {
    assert a == [a[0]] + a[1..];
    if k in a[1..] {
      var i :| 0 <= i < |a[1..]| && a[1..][i] == k;
      assert Less(a[0], a[i + 1]);
      LessIrreflexive(k);
    }
  }
}
