/** The in-memory key-value store, its iterator, batch and snapshot, and the
    range iterator of the disk store over the same contents. */
module MemoryDB {
  import opened Bytes
  import opened KeyRange

  type Store = map<bytes, bytes>

  /** A closed store refuses every access. */
  datatype Access<+T> = Value(value: T) | NotFound | Closed

  // ---------- what an iterator shows ----------

  /** The keys with the prefix, from prefix + start on. */
  ghost function Selected(m: Store, prefix: bytes, start: bytes): set<bytes> {
    set k | k in m && HasPrefix(k, prefix) && AtMost(prefix + start, k)
  }

  /** The keys of a half-open range. */
  ghost function Ranged(m: Store, lower: bytes, limit: Option<bytes>): set<bytes> {
    set k | k in m && InRange(k, lower, limit)
  }

  /** The values of the keys, in their order. */
  ghost predicate ReadsOff(m: Store, keys: seq<bytes>, values: seq<bytes>) {
    |values| == |keys| && forall i :: 0 <= i < |keys| ==> keys[i] in m && values[i] == m[keys[i]]
  }

  /** The disk store's scan from prefix + start to the prefix's upper bound visits exactly the sequence of entries that
      the memory store's filter and sort visits. */
  lemma ScansAgree(
    m: Store, prefix: bytes, start: bytes, limit: Option<bytes>,
    ranged: seq<bytes>, rangedValues: seq<bytes>, sorted: seq<bytes>, sortedValues: seq<bytes>)
    requires Bounds(prefix, limit)
    requires Lists(ranged, Ranged(m, prefix + start, limit)) && ReadsOff(m, ranged, rangedValues)
    requires Lists(sorted, Selected(m, prefix, start)) && ReadsOff(m, sorted, sortedValues)
    ensures ranged == sorted && rangedValues == sortedValues
  {
    forall k ensures k in Ranged(m, prefix + start, limit) <==> k in Selected(m, prefix, start) {
      RangeIsFilter(prefix, start, limit, k);
    }
    ListingUnique(ranged, sorted);
  }

  // ---------- sorting ----------

  /** sort.Strings, by insertion. */
  method SortStrings(keys: seq<bytes>) returns (sorted: seq<bytes>)
    requires forall i, j :: 0 <= i < j < |keys| ==> keys[i] != keys[j]
    ensures Ascending(sorted) && forall k :: k in sorted <==> k in keys
  {
    sorted := [];
    for n := 0 to |keys|
      invariant Ascending(sorted) && forall k :: k in sorted <==> k in keys[..n]
    {
      var key := keys[n];
      assert key !in keys[..n];
      var i := 0;
      while i < |sorted| && Less(sorted[i], key)
        invariant i <= |sorted| && forall j :: 0 <= j < i ==> Less(sorted[j], key)
      {
        i := i + 1;
      }
      InsertedAscends(sorted, i, key);
      InsertedMembers(sorted, i, key);
      sorted := sorted[..i] + [key] + sorted[i..];
      assert keys[..n + 1] == keys[..n] + [key];
    }
    assert keys[..|keys|] == keys;
  }

  lemma InsertedAscends(ks: seq<bytes>, i: nat, key: bytes)
    requires Ascending(ks) && i <= |ks| && key !in ks
    requires forall j :: 0 <= j < i ==> Less(ks[j], key)
    requires i < |ks| ==> !Less(ks[i], key)
    ensures Ascending(ks[..i] + [key] + ks[i..])
  {
    var r := ks[..i] + [key] + ks[i..];
    if i < |ks| { LessTotal(ks[i], key); }
    forall a, b | 0 <= a < b < |r| ensures Less(r[a], r[b]) {
      if a == i && b > i + 1 {
        LessTransitive(key, ks[i], ks[b - 1]);
      }
    }
  }

  lemma InsertedMembers(ks: seq<bytes>, i: nat, key: bytes)
    requires i <= |ks|
    ensures forall k :: k in ks[..i] + [key] + ks[i..] <==> k in ks || k == key
  {
    assert ks == ks[..i] + ks[i..];
  }

  // ---------- iterators ----------

  /** The memory iterator: a private copy of the selected entries. */
  class MemIterator {
    var index: int
    var keys: seq<bytes>
    var values: seq<bytes>

    ghost predicate Valid()
      reads this
    {
      -1 <= index <= |keys| == |values|
    }

    constructor (keys: seq<bytes>, values: seq<bytes>)
      requires |keys| == |values|
      ensures Valid() && index == -1 && this.keys == keys && this.values == values
    {
      index, this.keys, this.values := -1, keys, values;
    }

    method Next() returns (more: bool)
      requires Valid()
      modifies this`index
      ensures Valid() && index == (if old(index) < |keys| then old(index) + 1 else old(index)) && more == (index < |keys|)
    {
      if index >= |keys| {
        return false;
      }
      index := index + 1;
      more := index < |keys|;
    }

    method Key() returns (k: Option<bytes>)
      requires Valid()
      ensures k == if 0 <= index < |keys| then Some(keys[index]) else None
    {
      if index < 0 || index >= |keys| {
        return None;
      }
      k := Some(keys[index]);
    }

    method Value() returns (v: Option<bytes>)
      requires Valid()
      ensures v == if 0 <= index < |keys| then Some(values[index]) else None
    {
      if index < 0 || index >= |keys| {
        return None;
      }
      v := Some(values[index]);
    }

    method Release()
      modifies this
      ensures Valid() && keys == [] && values == []
    {
      index, keys, values := -1, [], [];
    }
  }

  /** The engine's cursor over a range: its position among the listed entries. */
  class RangeIterator {
    const keys: seq<bytes>
    const values: seq<bytes>
    var pos: nat
    var moved: bool

    /** First() has already been called on the cursor. */
    constructor (keys: seq<bytes>, values: seq<bytes>)
      ensures this.keys == keys && this.values == values && pos == 0 && moved
    {
      this.keys, this.values, pos, moved := keys, values, 0, true;
    }

    method Key() returns (k: Option<bytes>)
      ensures k == if pos < |keys| then Some(keys[pos]) else None
    {
      k := if pos < |keys| then Some(keys[pos]) else None;
    }

    method Value() returns (v: Option<bytes>)
      ensures v == if pos < |values| then Some(values[pos]) else None
    {
      v := if pos < |values| then Some(values[pos]) else None;
    }

    method Next() returns (more: bool)
      modifies this
      ensures !moved
      ensures more == (pos < |keys|)
      ensures pos == if old(moved) then old(pos) else if old(pos) < |keys| then old(pos) + 1 else old(pos)
    {
      if moved {
        moved := false;
        return pos < |keys|;
      }
      if pos < |keys| {
        pos := pos + 1;
      }
      more := pos < |keys|;
    }
  }

  /** The values of listed keys, read one by one. */
  method Lookup(m: Store, keys: seq<bytes>) returns (values: seq<bytes>)
    requires forall i :: 0 <= i < |keys| ==> keys[i] in m
    ensures ReadsOff(m, keys, values)
  {
    values := [];
    for i := 0 to |keys|
      invariant |values| == i && forall j :: 0 <= j < i ==> values[j] == m[keys[j]]
    {
      values := values + [m[keys[i]]];
    }
  }

  /** The engine's side: the entries of a range in byte order. */
  method EngineRange(m: Store, lower: bytes, limit: Option<bytes>) returns (keys: seq<bytes>, values: seq<bytes>)
    ensures Lists(keys, Ranged(m, lower, limit)) && ReadsOff(m, keys, values)
  {
    keys := [];
    var todo := m.Keys;
    while todo != {}
      invariant todo <= m.Keys
      invariant forall i, j :: 0 <= i < j < |keys| ==> keys[i] != keys[j]
      invariant forall k :: k in keys <==> k in Ranged(m, lower, limit) && k !in todo
      decreases |todo|
    {
      var key :| key in todo;
      todo := todo - {key};
      if InRange(key, lower, limit) {
        keys := keys + [key];
      }
    }
    keys := SortStrings(keys);
    forall i | 0 <= i < |keys| ensures keys[i] in m {
      assert keys[i] in Ranged(m, lower, limit);
    }
    values := Lookup(m, keys);
  }

  /** The disk store's NewIterator lists the same entries as the memory store's. */
  method NewRangeIterator(m: Store, prefix: bytes, start: bytes) returns (it: RangeIterator)
    ensures fresh(it) && it.moved && it.pos == 0
    ensures Lists(it.keys, Selected(m, prefix, start)) && ReadsOff(m, it.keys, it.values)
  {
    var limit := UpperBound(prefix);
    var keys, values := EngineRange(m, prefix + start, limit);
    forall k ensures k in Ranged(m, prefix + start, limit) <==> k in Selected(m, prefix, start) {
      RangeIsFilter(prefix, start, limit, k);
    }
    it := new RangeIterator(keys, values);
  }

  /** Reading the memory iterator to its end yields all its entries in order. */
  method DrainMemory(it: MemIterator) returns (keys: seq<bytes>, values: seq<bytes>)
    requires it.Valid() && it.index == -1
    modifies it
    ensures keys == old(it.keys) && values == old(it.values)
  {
    keys, values := [], [];
    var more := it.Next();
    while more
      invariant it.Valid() && it.keys == old(it.keys) && it.values == old(it.values) && it.index >= 0
      invariant more == (it.index < |it.keys|)
      invariant keys == it.keys[..it.index] && values == it.values[..it.index]
      decreases |it.keys| - it.index
    {
      var k := it.Key();
      var v := it.Value();
      keys, values := keys + [k.value], values + [v.value];
      more := it.Next();
    }
  }

  /** So does reading the range iterator. */
  method DrainRange(it: RangeIterator) returns (keys: seq<bytes>, values: seq<bytes>)
    requires it.moved && it.pos == 0 && |it.keys| == |it.values|
    modifies it
    ensures keys == it.keys && values == it.values
  {
    keys, values := [], [];
    var more := it.Next();
    while more
      invariant !it.moved && it.pos <= |it.keys| && more == (it.pos < |it.keys|)
      invariant keys == it.keys[..it.pos] && values == it.values[..it.pos]
      decreases |it.keys| - it.pos
    {
      var k := it.Key();
      var v := it.Value();
      keys, values := keys + [k.value], values + [v.value];
      more := it.Next();
    }
  }

  // ---------- batches ----------

  datatype KeyValue = Put(key: bytes, value: bytes) | Delete(key: bytes)

  function Apply(m: Store, op: KeyValue): Store {
    match op
    case Put(k, v) => m[k := v]
    case Delete(k) => m - {k}
  }

  /** The operations applied in order. */
  function ApplyAll(m: Store, ops: seq<KeyValue>): Store {
    if ops == [] then m else Apply(ApplyAll(m, ops[..|ops| - 1]), ops[|ops| - 1])
  }

  /** A key that no operation names keeps what it had. */
  lemma {:induction false} Untouched(m: Store, ops: seq<KeyValue>, k: bytes)
    requires forall i :: 0 <= i < |ops| ==> ops[i].key != k
    ensures var r := ApplyAll(m, ops); (k in r <==> k in m) && (k in m ==> r[k] == m[k])
    decreases |ops|
  {
    if ops != [] {
      Untouched(m, ops[..|ops| - 1], k);
      assert ops[|ops| - 1].key != k;
    }
  }

  /** Any other has what the last operation on it gave it. */
  lemma {:induction false} LastWriteWins(m: Store, ops: seq<KeyValue>, i: nat)
    requires i < |ops| && forall j :: i < j < |ops| ==> ops[j].key != ops[i].key
    ensures var r := ApplyAll(m, ops);
      match ops[i] case Put(k, v) => k in r && r[k] == v case Delete(k) => k !in r
    decreases |ops|
  {
    if i < |ops| - 1 {
      var front := ops[..|ops| - 1];
      assert front[i] == ops[i] && ops[|ops| - 1].key != ops[i].key;
      LastWriteWins(m, front, i);
    }
  }

  function Length(op: KeyValue): nat {
    match op
    case Put(k, v) => |k| + |v|
    case Delete(k) => |k|
  }

  function TotalLength(ops: seq<KeyValue>): nat {
    if ops == [] then 0 else TotalLength(ops[..|ops| - 1]) + Length(ops[|ops| - 1])
  }

  class Database {
    var db: Option<Store>

    constructor ()
      ensures db == Some(map[])
    {
      db := Some(map[]);
    }

    method Close()
      modifies this
      ensures db == None
    {
      db := None;
    }

    method Has(key: bytes) returns (r: Access<bool>)
      ensures r == if db.None? then Closed else Value(key in db.value)
    {
      r := if db.None? then Closed else Value(key in db.value);
    }

    method Get(key: bytes) returns (r: Access<bytes>)
      ensures r == if db.None? then Closed else if key in db.value then Value(db.value[key]) else NotFound
    {
      if db.None? {
        return Closed;
      }
      if key in db.value {
        return Value(db.value[key]);
      }
      r := NotFound;
    }

    method Put(key: bytes, value: bytes) returns (ok: bool)
      modifies this
      ensures ok == old(db).Some? && db == if ok then Some(Apply(old(db).value, KeyValue.Put(key, value))) else None
    {
      if db.None? {
        return false;
      }
      db := Some(db.value[key := value]);
      ok := true;
    }

    method Delete(key: bytes) returns (ok: bool)
      modifies this
      ensures ok == old(db).Some? && db == if ok then Some(Apply(old(db).value, KeyValue.Delete(key))) else None
    {
      if db.None? {
        return false;
      }
      db := Some(db.value - {key});
      ok := true;
    }

    /** A closed store has no keys to range over. */
    ghost function Contents(): Store
      reads this
    {
      if db.None? then map[] else db.value
    }

    method NewIterator(prefix: bytes, start: bytes) returns (it: MemIterator)
      ensures fresh(it) && it.Valid() && it.index == -1
      ensures Lists(it.keys, Selected(Contents(), prefix, start)) && ReadsOff(Contents(), it.keys, it.values)
    {
      var m := if db.None? then map[] else db.value;
      var keys := Collect(m, prefix, start);
      keys := SortStrings(keys);
      forall i | 0 <= i < |keys| ensures keys[i] in m {
        assert keys[i] in Selected(m, prefix, start);
      }
      var values := Lookup(m, keys);
      it := new MemIterator(keys, values);
    }

    method NewSnapshot() returns (snap: Snapshot)
      ensures fresh(snap) && snap.db == Some(Contents())
    {
      snap := new Snapshot(if db.None? then map[] else db.value);
    }
  }

  /** The filter loop over the map, in whatever order the map is ranged over. */
  method Collect(m: Store, prefix: bytes, start: bytes) returns (keys: seq<bytes>)
    ensures forall i, j :: 0 <= i < j < |keys| ==> keys[i] != keys[j]
    ensures forall k :: k in keys <==> k in Selected(m, prefix, start)
  {
    keys := [];
    var todo := m.Keys;
    while todo != {}
      invariant todo <= m.Keys
      invariant forall i, j :: 0 <= i < j < |keys| ==> keys[i] != keys[j]
      invariant forall k :: k in keys <==> k in Selected(m, prefix, start) && k !in todo
      decreases |todo|
    {
      var key :| key in todo;
      todo := todo - {key};
      if !HasPrefix(key, prefix) {
        continue;
      }
      if AtMost(prefix + start, key) {
        keys := keys + [key];
      }
    }
  }

  /** A snapshot owns a copy: no store method can write it. */
  class Snapshot {
    var db: Option<Store>

    constructor (m: Store)
      ensures db == Some(m)
    {
      db := Some(m);
    }

    method Has(key: bytes) returns (r: Access<bool>)
      ensures r == if db.None? then Closed else Value(key in db.value)
    {
      r := if db.None? then Closed else Value(key in db.value);
    }

    method Get(key: bytes) returns (r: Access<bytes>)
      ensures r == if db.None? then Closed else if key in db.value then Value(db.value[key]) else NotFound
    {
      if db.None? {
        return Closed;
      }
      r := if key in db.value then Value(db.value[key]) else NotFound;
    }

    method Release()
      modifies this
      ensures db == None
    {
      db := None;
    }
  }

  /** Whatever is written to the store after a snapshot was taken, and even if it is closed, the snapshot answers every
      key as the store would have answered when it was taken. */
  method SnapshotStands(d: Database, ops: seq<KeyValue>, close: bool, key: bytes)
    returns (has: Access<bool>, r: Access<bytes>)
    modifies d
    ensures var m := old(d.Contents());
      has == Value(key in m) && r == if key in m then Value(m[key]) else NotFound
    ensures d.db == if close || old(d.db).None? then None else Some(ApplyAll(old(d.db).value, ops))
  {
    var snap := d.NewSnapshot();
    for i := 0 to |ops|
      invariant snap.db == Some(old(d.Contents())) && fresh(snap)
      invariant d.db == if old(d.db).None? then None else Some(ApplyAll(old(d.db).value, ops[..i]))
    {
      assert ops[..i + 1][..i] == ops[..i];
      match ops[i] {
        case Delete(k) => var _ := d.Delete(k);
        case Put(k, v) => var _ := d.Put(k, v);
      }
    }
    assert ops[..|ops|] == ops;
    if close {
      d.Close();
    }
    has := snap.Has(key);
    r := snap.Get(key);
  }

  class Batch {
    const host: Database
    var writes: seq<KeyValue>
    var size: nat

    /** The size is the total length of what is queued. */
    ghost predicate Valid()
      reads this
    {
      size == TotalLength(writes)
    }

    constructor (host: Database)
      ensures Valid() && this.host == host && writes == []
    {
      this.host, writes, size := host, [], 0;
    }

    method Put(key: bytes, value: bytes)
      requires Valid()
      modifies this
      ensures Valid() && writes == old(writes) + [KeyValue.Put(key, value)]
    {
      writes := writes + [KeyValue.Put(key, value)];
      assert writes[..|writes| - 1] == old(writes);
      size := size + |key| + |value|;
    }

    method Delete(key: bytes)
      requires Valid()
      modifies this
      ensures Valid() && writes == old(writes) + [KeyValue.Delete(key)]
    {
      writes := writes + [KeyValue.Delete(key)];
      assert writes[..|writes| - 1] == old(writes);
      size := size + |key|;
    }

    method Reset()
      modifies this
      ensures Valid() && writes == []
    {
      writes, size := [], 0;
    }

    /** Commits the queued operations to the host in order, or nothing if the host is closed. */
    method Write() returns (ok: bool)
      modifies host
      ensures ok == old(host.db).Some?
      ensures host.db == if ok then Some(ApplyAll(old(host.db).value, writes)) else None
    {
      if host.db.None? {
        return false;
      }
      for i := 0 to |writes|
        invariant host.db == Some(ApplyAll(old(host.db).value, writes[..i]))
      {
        assert writes[..i + 1][..i] == writes[..i];
        match writes[i]
        case Delete(key) => host.db := Some(host.db.value - {key});
        case Put(key, value) => host.db := Some(host.db.value[key := value]);
      }
      assert writes[..|writes|] == writes;
      ok := true;
    }

    /** Replays onto any store, with the first `trim` bytes of every key dropped; stops at the first refusal. */
    method Replay(w: Database, trim: nat) returns (ok: bool)
      requires forall i :: 0 <= i < |writes| ==> trim <= |writes[i].key|
      modifies w
      ensures ok == (old(w.db).Some? || writes == [])
      ensures w.db == if old(w.db).Some? then Some(ApplyAll(old(w.db).value, Trimmed(writes, trim))) else None
    {
      for i := 0 to |writes|
        invariant w.db == if old(w.db).Some? then Some(ApplyAll(old(w.db).value, Trimmed(writes, trim)[..i])) else None
        invariant i > 0 ==> old(w.db).Some?
      {
        assert Trimmed(writes, trim)[..i + 1][..i] == Trimmed(writes, trim)[..i];
        var done;
        match writes[i] {
          case Delete(key) => done := w.Delete(key[trim..]);
          case Put(key, value) => done := w.Put(key[trim..], value);
        }
        if !done {
          return false;
        }
      }
      assert Trimmed(writes, trim)[..|writes|] == Trimmed(writes, trim);
      ok := true;
    }

    /** Replaying untrimmed onto the host commits exactly what Write commits; only the report differs, for an empty batch
        on a closed store. */
    method ReplayOnHost() returns (ok: bool)
      modifies host
      ensures host.db == if old(host.db).Some? then Some(ApplyAll(old(host.db).value, writes)) else None
      ensures ok == (old(host.db).Some? || writes == [])
    {
      TrimNothing(writes);
      ok := Replay(host, 0);
    }

    /** Replays into another batch, which queues the operations behind its own. */
    method ReplayInto(w: Batch, trim: nat)
      requires w.Valid() && forall i :: 0 <= i < |writes| ==> trim <= |writes[i].key|
      modifies w
      ensures w.Valid() && w.writes == old(w.writes) + Trimmed(old(writes), trim)
    {
      var ops := writes;
      for i := 0 to |ops|
        invariant w.Valid() && w.writes == old(w.writes) + Trimmed(ops, trim)[..i]
      {
        hide TotalLength;
        assert Trimmed(ops, trim)[..i + 1] == Trimmed(ops, trim)[..i] + [Trim(ops[i], trim)];
        match ops[i] {
          case Delete(key) => w.Delete(key[trim..]);
          case Put(key, value) => w.Put(key[trim..], value);
        }
      }
    }
  }

  function Trim(op: KeyValue, n: nat): KeyValue
    requires n <= |op.key|
  {
    op.(key := op.key[n..])
  }

  function Trimmed(ops: seq<KeyValue>, n: nat): (r: seq<KeyValue>)
    requires forall i :: 0 <= i < |ops| ==> n <= |ops[i].key|
    ensures |r| == |ops|
  {
    seq(|ops|, i requires 0 <= i < |ops| => Trim(ops[i], n))
  }

  lemma TrimNothing(ops: seq<KeyValue>)
    ensures Trimmed(ops, 0) == ops
  {
  }
}
