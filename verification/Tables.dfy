/** Tables: a shared store seen through a key prefix, and the key families that
    share the node's store. */
module Tables {
  import opened Bytes
  import opened KeyRange
  import opened MemoryDB

  // ---------- the map a prefix stands for ----------

  ghost function Stripped(keys: set<bytes>, prefix: bytes): set<bytes> {
    set k | k in keys && HasPrefix(k, prefix) :: k[|prefix|..]
  }

  lemma StrippedIn(keys: set<bytes>, prefix: bytes, k: bytes)
    ensures k in Stripped(keys, prefix) <==> prefix + k in keys
  {
    if prefix + k in keys {
      assert HasPrefix(prefix + k, prefix) && (prefix + k)[|prefix|..] == k;
    }
    if k in Stripped(keys, prefix) {
      var full :| full in keys && HasPrefix(full, prefix) && full[|prefix|..] == k;
      assert full == prefix + k;
    }
  }

  /** The entries under the prefix, with the prefix dropped. */
  ghost function View(m: Store, prefix: bytes): (v: Store)
    ensures forall k :: k in v <==> prefix + k in m
    ensures forall k :: k in v ==> v[k] == m[prefix + k]
  {
    ViewDomain(m, prefix);
    map k | k in Stripped(m.Keys, prefix) :: m[prefix + k]
  }

  lemma ViewDomain(m: Store, prefix: bytes)
    ensures forall k :: k in Stripped(m.Keys, prefix) <==> prefix + k in m
  {
    forall k ensures k in Stripped(m.Keys, prefix) <==> prefix + k in m {
      StrippedIn(m.Keys, prefix, k);
    }
  }

  /** Neither string is a prefix of the other. */
  predicate Apart(p: bytes, q: bytes) {
    !HasPrefix(p, q) && !HasPrefix(q, p)
  }

  function Prefixed(op: KeyValue, prefix: bytes): KeyValue {
    op.(key := prefix + op.key)
  }

  /** A write through a table is that write on the table's own map. */
  lemma OwnWrite(m: Store, prefix: bytes, op: KeyValue)
    ensures View(Apply(m, Prefixed(op, prefix)), prefix) == Apply(View(m, prefix), op)
  {
    var m' := Apply(m, Prefixed(op, prefix));
    forall k ensures k in View(m', prefix) <==> k in Apply(View(m, prefix), op) {
      KeysApart(prefix, k, op.key);
    }
    forall k | k in View(m', prefix) ensures View(m', prefix)[k] == Apply(View(m, prefix), op)[k] {
      KeysApart(prefix, k, op.key);
    }
  }

  lemma KeysApart(prefix: bytes, a: bytes, b: bytes)
    ensures prefix + a == prefix + b <==> a == b
  {
    assert (prefix + a)[|prefix|..] == a && (prefix + b)[|prefix|..] == b;
  }

  /** No other table whose prefix is apart sees it. */
  lemma OtherWrite(m: Store, prefix: bytes, other: bytes, op: KeyValue)
    requires Apart(prefix, other)
    ensures View(Apply(m, Prefixed(op, prefix)), other) == View(m, other)
  {
    forall k ensures other + k != prefix + op.key {
      Diverge(prefix, other, op.key, k);
    }
  }

  lemma Diverge(p: bytes, q: bytes, a: bytes, b: bytes)
    requires Apart(p, q)
    ensures p + a != q + b
  {
    var n := if |p| <= |q| then |p| else |q|;
    assert (p + a)[..n] == p[..n] && (q + b)[..n] == q[..n];
    assert p[..n] != q[..n];
  }

  lemma PrefixedStep(m: Store, prefix: bytes, ops: seq<KeyValue>)
    requires ops != []
    ensures ApplyAll(m, PrefixedAll(ops, prefix))
         == Apply(ApplyAll(m, PrefixedAll(ops[..|ops| - 1], prefix)), Prefixed(ops[|ops| - 1], prefix))
  {
    var all := PrefixedAll(ops, prefix);
    assert all[..|all| - 1] == PrefixedAll(ops[..|ops| - 1], prefix);
  }

  /** A table written by any operations refines its own map. */
  lemma {:induction false} TableRefinesOwn(m: Store, prefix: bytes, ops: seq<KeyValue>)
    ensures View(ApplyAll(m, PrefixedAll(ops, prefix)), prefix) == ApplyAll(View(m, prefix), ops)
    decreases |ops|
  {
    if ops != [] {
      var front, last := ops[..|ops| - 1], ops[|ops| - 1];
      TableRefinesOwn(m, prefix, front);
      PrefixedStep(m, prefix, ops);
      OwnWrite(ApplyAll(m, PrefixedAll(front, prefix)), prefix, last);
    }
  }

  /** A table apart from it does not see them. */
  lemma {:induction false} TablesIsolated(m: Store, prefix: bytes, other: bytes, ops: seq<KeyValue>)
    requires Apart(prefix, other)
    ensures View(ApplyAll(m, PrefixedAll(ops, prefix)), other) == View(m, other)
    decreases |ops|
  {
    if ops != [] {
      var front, last := ops[..|ops| - 1], ops[|ops| - 1];
      TablesIsolated(m, prefix, other, front);
      PrefixedStep(m, prefix, ops);
      OtherWrite(ApplyAll(m, PrefixedAll(front, prefix)), prefix, other, last);
    }
  }

  function PrefixedAll(ops: seq<KeyValue>, prefix: bytes): (r: seq<KeyValue>)
    ensures |r| == |ops|
  {
    seq(|ops|, i requires 0 <= i < |ops| => Prefixed(ops[i], prefix))
  }

  /** Replaying a table batch trims off exactly what queueing added. */
  lemma TrimUndoesPrefix(ops: seq<KeyValue>, prefix: bytes)
    ensures forall i :: 0 <= i < |ops| ==> |prefix| <= |PrefixedAll(ops, prefix)[i].key|
    ensures Trimmed(PrefixedAll(ops, prefix), |prefix|) == ops
  {
  }

  // ---------- iteration through a table ----------

  function StripAll(keys: seq<bytes>, table: bytes): (r: seq<bytes>)
    requires forall i :: 0 <= i < |keys| ==> HasPrefix(keys[i], table)
    ensures |r| == |keys|
  {
    seq(|keys|, i requires 0 <= i < |keys| => (assert HasPrefix(keys[i], table); keys[i][|table|..]))
  }

  /** Iterating the shared store under the table's prefix and dropping it from every key is iterating the
      table's own map: same keys, same order, and with every key its own value. */
  lemma TableIterates(m: Store, table: bytes, prefix: bytes, start: bytes, keys: seq<bytes>, values: seq<bytes>)
    requires Lists(keys, Selected(m, table + prefix, start)) && ReadsOff(m, keys, values)
    ensures forall i :: 0 <= i < |keys| ==> HasPrefix(keys[i], table)
    ensures Lists(StripAll(keys, table), Selected(View(m, table), prefix, start))
    ensures ReadsOff(View(m, table), StripAll(keys, table), values)
  {
    forall i | 0 <= i < |keys| ensures HasPrefix(keys[i], table) {
      assert keys[i] in Selected(m, table + prefix, start);
      assert (table + prefix)[..|table|] == table;
    }
    var bare := StripAll(keys, table);
    forall i | 0 <= i < |bare| ensures bare[i] in View(m, table) && values[i] == View(m, table)[bare[i]] {
      assert keys[i] == table + bare[i];
    }
    forall i, j | 0 <= i < j < |bare| ensures Less(bare[i], bare[j]) {
      assert keys[i] == table + bare[i] && keys[j] == table + bare[j];
      LessPrefixed(table, bare[i], bare[j]);
    }
    forall k ensures k in bare <==> k in Selected(View(m, table), prefix, start) {
      SelectedThrough(m, table, prefix, start, k);
      BareMembers(keys, table, k);
    }
  }

  lemma BareMembers(keys: seq<bytes>, table: bytes, k: bytes)
    requires forall i :: 0 <= i < |keys| ==> HasPrefix(keys[i], table)
    ensures k in StripAll(keys, table) <==> table + k in keys
  {
    var bare := StripAll(keys, table);
    if k in bare {
      var i :| 0 <= i < |bare| && bare[i] == k;
      assert keys[i] == table + k;
    }
    if table + k in keys {
      var i :| 0 <= i < |keys| && keys[i] == table + k;
      assert bare[i] == k;
    }
  }

  lemma SelectedThrough(m: Store, table: bytes, prefix: bytes, start: bytes, k: bytes)
    ensures k in Selected(View(m, table), prefix, start) <==> table + k in Selected(m, table + prefix, start)
  {
    assert table + prefix + start == table + (prefix + start);
    LessPrefixed(table, k, prefix + start);
    assert HasPrefix(table + k, table + prefix) <==> HasPrefix(k, prefix) by {
      if HasPrefix(k, prefix) {
        assert k == prefix + k[|prefix|..];
        assert table + k == (table + prefix) + k[|prefix|..];
      }
      if HasPrefix(table + k, table + prefix) {
        assert (table + k)[|table|..|table| + |prefix|] == prefix;
        assert (table + k)[|table|..] == k;
      }
    }
  }

  // ---------- the table objects ----------

  class Table {
    const db: Database
    const prefix: bytes

    constructor (db: Database, prefix: bytes)
      ensures this.db == db && this.prefix == prefix
    {
      this.db, this.prefix := db, prefix;
    }

    /** The table's own map. */
    ghost function Map(): Store
      reads db
    {
      View(db.Contents(), prefix)
    }

    method Has(key: bytes) returns (r: Access<bool>)
      ensures r == if db.db.None? then Closed else Value(key in Map())
    {
      r := db.Has(prefix + key);
    }

    method Get(key: bytes) returns (r: Access<bytes>)
      ensures r == if db.db.None? then Closed else if key in Map() then Value(Map()[key]) else NotFound
    {
      r := db.Get(prefix + key);
    }

    method Put(key: bytes, value: bytes) returns (ok: bool)
      modifies db
      ensures ok == old(db.db).Some?
      ensures Map() == if ok then old(Map())[key := value] else old(Map())
      ensures forall p :: Apart(prefix, p) ==> View(db.Contents(), p) == View(old(db.Contents()), p)
    {
      ghost var m, op := db.Contents(), KeyValue.Put(key, value);
      ok := db.Put(prefix + key, value);
      if ok {
        OwnWrite(m, prefix, op);
        forall p | Apart(prefix, p) ensures View(db.Contents(), p) == View(m, p) { OtherWrite(m, prefix, p, op); }
      }
    }

    method Delete(key: bytes) returns (ok: bool)
      modifies db
      ensures ok == old(db.db).Some?
      ensures Map() == if ok then old(Map()) - {key} else old(Map())
      ensures forall p :: Apart(prefix, p) ==> View(db.Contents(), p) == View(old(db.Contents()), p)
    {
      ghost var m, op := db.Contents(), KeyValue.Delete(key);
      ok := db.Delete(prefix + key);
      if ok {
        OwnWrite(m, prefix, op);
        forall p | Apart(prefix, p) ensures View(db.Contents(), p) == View(m, p) { OtherWrite(m, prefix, p, op); }
      }
    }

    /** The entries a table iterator hands out are exactly those of the table's own map, in order: the i-th value is
        the map's at the i-th key. */
    method Entries(prefix: bytes, start: bytes) returns (keys: seq<bytes>, values: seq<bytes>)
      ensures Lists(keys, Selected(Map(), prefix, start)) && ReadsOff(Map(), keys, values)
    {
      var it := db.NewIterator(this.prefix + prefix, start);
      hide Lists, Selected, ReadsOff, View;
      ghost var inner, all := it.keys, it.values;
      TableIterates(db.Contents(), this.prefix, prefix, start, inner, all);
      keys, values := [], [];
      var more := it.Next();
      while more
        invariant it.Valid() && it.keys == inner && it.values == all && fresh(it) && it.index >= 0
        invariant more == (it.index < |it.keys|)
        invariant keys == StripAll(inner, this.prefix)[..it.index] && values == all[..it.index]
        decreases |it.keys| - it.index
      {
        var key := it.Key();
        var value := it.Value();
        keys, values := keys + [key.value[|this.prefix|..]], values + [value.value];
        more := it.Next();
      }
      assert keys == StripAll(inner, this.prefix) && values == all;
    }

    /** A table's snapshot is the whole store's: keys are not prefixed. */
    method NewSnapshot() returns (snap: Snapshot)
      ensures fresh(snap) && snap.db == Some(db.Contents())
    {
      snap := db.NewSnapshot();
    }
  }

  class TableBatch {
    const batch: Batch
    const prefix: bytes

    /** The operations as the caller queued them. */
    ghost var ops: seq<KeyValue>

    ghost predicate Valid()
      reads this, batch
    {
      batch.Valid() && batch.writes == PrefixedAll(ops, prefix)
    }

    constructor (table: Table)
      ensures Valid() && fresh(batch) && batch.host == table.db && prefix == table.prefix && ops == []
    {
      batch := new Batch(table.db);
      prefix, ops := table.prefix, [];
    }

    method Put(key: bytes, value: bytes)
      requires Valid()
      modifies this, batch
      ensures Valid() && ops == old(ops) + [KeyValue.Put(key, value)]
    {
      batch.Put(prefix + key, value);
      ops := ops + [KeyValue.Put(key, value)];
    }

    method Delete(key: bytes)
      requires Valid()
      modifies this, batch
      ensures Valid() && ops == old(ops) + [KeyValue.Delete(key)]
    {
      batch.Delete(prefix + key);
      ops := ops + [KeyValue.Delete(key)];
    }

    /** Writing the batch applies the queued operations, in order, to the table's own map, and to no table apart. */
    method Write() returns (ok: bool)
      requires Valid()
      modifies batch.host
      ensures ok == old(batch.host.db).Some?
      ensures View(batch.host.Contents(), prefix) ==
        if ok then ApplyAll(View(old(batch.host.Contents()), prefix), ops) else View(old(batch.host.Contents()), prefix)
      ensures forall p :: Apart(prefix, p) ==> View(batch.host.Contents(), p) == View(old(batch.host.Contents()), p)
    {
      ghost var m := batch.host.Contents();
      ok := batch.Write();
      if ok {
        TableRefinesOwn(m, prefix, ops);
        forall p | Apart(prefix, p) ensures View(batch.host.Contents(), p) == View(m, p) {
          TablesIsolated(m, prefix, p, ops);
        }
      }
    }

    /** Replaying gives the original, unprefixed operations. */
    method Replay(w: Database) returns (ok: bool)
      requires Valid()
      modifies w
      ensures ok == (old(w.db).Some? || ops == [])
      ensures w.db == if old(w.db).Some? then Some(ApplyAll(old(w.db).value, ops)) else None
    {
      TrimUndoesPrefix(ops, prefix);
      ok := batch.Replay(w, |prefix|);
    }
  }
}
