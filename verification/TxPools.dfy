/** The pool's objects: the generic list, the hash index over it, and the pool. */
module TxPools {
  import opened Bytes
  import opened ChainModel
  import opened PoolModel

  class List<T(==)> {
    var Data: seq<T>

    constructor ()
      ensures Data == []
    {
      Data := [];
    }

    method Insert(v: T)
      modifies this
      ensures Data == old(Data) + [v]
    {
      Data := Data + [v];
    }

    method Clear()
      modifies this
      ensures Data == []
    {
      Data := [];
    }

    /** The first index of the item, or -1. */
    method GetIndex(item: T) returns (index: int)
      ensures index == -1 <==> item !in Data
      ensures index != -1 ==> 0 <= index < |Data| && Data[index] == item && item !in Data[..index]
    {
      for i := 0 to |Data|
        invariant item !in Data[..i]
      {
        if item == Data[i] {
          return i;
        }
      }
      index := -1;
    }

    method Pop(index: nat)
      requires index < |Data|
      modifies this
      ensures Data == old(Data)[..index] + old(Data)[index + 1..]
    {
      Data := Data[..index] + Data[index + 1..];
    }

    method Remove(item: T)
      modifies this
      ensures item !in old(Data) ==> Data == old(Data)
      ensures item in old(Data) ==>
        exists i :: 0 <= i < |old(Data)| && old(Data)[i] == item && item !in old(Data)[..i]
          && Data == old(Data)[..i] + old(Data)[i + 1..]
    {
      var index := GetIndex(item);
      if index == -1 {
        return;
      }
      Pop(index);
    }
  }

  /** The lookup and the list hold the same transactions, each hash once. */
  ghost predicate Agree(lookup: map<Hash, Tx>, txs: seq<Tx>) {
    && Distinct(txs)
    && (forall i :: 0 <= i < |txs| ==> txs[i].hash in lookup && lookup[txs[i].hash] == txs[i])
    && (forall h :: h in lookup ==> Has(txs, h))
  }

  lemma {:induction false} AgreeCount(lookup: map<Hash, Tx>, txs: seq<Tx>)
    requires Agree(lookup, txs)
    ensures |lookup| == |txs|
    decreases |txs|
  {
    if txs == [] {
      assert forall h :: h !in lookup;
      assert lookup == map[];
    } else {
      var n, h := |txs| - 1, txs[|txs| - 1].hash;
      AgreeRemove(lookup, txs, n);
      assert txs[..n] + txs[n + 1..] == txs[..n];
      AgreeCount(lookup - {h}, txs[..n]);
      assert lookup.Keys == (lookup - {h}).Keys + {h};
    }
  }

  /** The list without the transaction of that hash. */
  function Without(txs: seq<Tx>, h: Hash): seq<Tx> {
    if txs == [] then [] else if txs[0].hash == h then txs[1..] else [txs[0]] + Without(txs[1..], h)
  }

  lemma {:induction false} WithoutAt(txs: seq<Tx>, i: nat)
    requires Distinct(txs) && i < |txs|
    ensures Without(txs, txs[i].hash) == txs[..i] + txs[i + 1..]
  {
    if i > 0 {
      var rest := txs[1..];
      WithoutAt(rest, i - 1);
      assert txs[0].hash != txs[i].hash == rest[i - 1].hash;
      assert txs[..i] + txs[i + 1..] == [txs[0]] + (rest[..i - 1] + rest[i..]);
    }
  }

  lemma {:induction false} WithoutNone(txs: seq<Tx>, h: Hash)
    requires !Has(txs, h)
    ensures Without(txs, h) == txs
  {
    if txs != [] {
      var rest := txs[1..];
      assert txs[0].hash != h;
      assert forall i :: 0 <= i < |rest| ==> rest[i] == txs[i + 1];
      WithoutNone(rest, h);
    }
  }

  lemma DistinctRemove(txs: seq<Tx>, i: nat, rest: seq<Tx>)
    requires Distinct(txs) && i < |txs| && rest == txs[..i] + txs[i + 1..]
    ensures Distinct(rest)
    ensures forall k :: 0 <= k < |rest| ==> rest[k].hash != txs[i].hash
  {
    forall k | 0 <= k < |rest| ensures rest[k] == txs[if k < i then k else k + 1] {
    }
  }

  lemma HasRemove(txs: seq<Tx>, i: nat, h: Hash)
    requires i < |txs| && Has(txs, h) && h != txs[i].hash
    ensures Has(txs[..i] + txs[i + 1..], h)
  {
    var rest := txs[..i] + txs[i + 1..];
    var k :| 0 <= k < |txs| && txs[k].hash == h;
    assert rest[if k < i then k else k - 1].hash == h;
  }

  lemma AgreeRemove(lookup: map<Hash, Tx>, txs: seq<Tx>, i: nat)
    requires Agree(lookup, txs) && i < |txs|
    ensures Agree(lookup - {txs[i].hash}, txs[..i] + txs[i + 1..])
  {
    hide Has, Distinct;
    var rest := txs[..i] + txs[i + 1..];
    DistinctRemove(txs, i, rest);
    forall h | h in lookup && h != txs[i].hash ensures Has(rest, h) {
      HasRemove(txs, i, h);
    }
    forall k | 0 <= k < |rest| ensures rest[k].hash in lookup && lookup[rest[k].hash] == rest[k] {
      assert rest[k] == txs[if k < i then k else k + 1];
    }
  }

  /** Where the lookup's transaction of a hash sits in the list. */
  lemma AgreeIndex(lookup: map<Hash, Tx>, txs: seq<Tx>, h: Hash) returns (i: nat)
    requires Agree(lookup, txs) && h in lookup
    ensures i < |txs| && txs[i] == lookup[h] && txs[i].hash == h
    ensures forall k :: 0 <= k < |txs| && txs[k] == lookup[h] ==> k == i
  {
    i :| 0 <= i < |txs| && txs[i].hash == h;
  }

  lemma AgreeMissing(lookup: map<Hash, Tx>, txs: seq<Tx>, h: Hash)
    requires Agree(lookup, txs) && h !in lookup
    ensures !Has(txs, h) && lookup - {h} == lookup
  {
  }

  lemma AgreeInsert(lookup: map<Hash, Tx>, txs: seq<Tx>, tx: Tx)
    requires Agree(lookup, txs) && tx.hash !in lookup
    ensures Agree(lookup[tx.hash := tx], txs + [tx]) && !Has(txs, tx.hash)
  {
    forall h | h in lookup || h == tx.hash ensures Has(txs + [tx], h) {
      HasAppend(txs, tx, h);
    }
  }

  class TxSortedMap {
    var lookup: map<Hash, Tx>
    const txx: List<Tx>

    ghost predicate Valid()
      reads this, txx
    {
      Agree(lookup, txx.Data)
    }

    constructor ()
      ensures Valid() && txx.Data == [] && fresh(txx)
    {
      lookup := map[];
      txx := new List<Tx>();
    }

    /** The oldest transaction. */
    method First() returns (tx: Tx)
      requires Valid() && txx.Data != []
      ensures tx == txx.Data[0]
    {
      tx := lookup[txx.Data[0].hash];
    }

    method Add(tx: Tx)
      requires Valid()
      modifies this, txx
      ensures Valid() && txx.Data == Insert(old(txx.Data), tx)
    {
      if tx.hash !in lookup {
        AgreeInsert(lookup, txx.Data, tx);
        lookup := lookup[tx.hash := tx];
        txx.Insert(tx);
      }
    }

    /** An unknown hash changes nothing. */
    method Remove(h: Hash)
      requires Valid()
      modifies this, txx
      ensures Valid() && txx.Data == Without(old(txx.Data), h)
    {
      hide Without, Distinct, Has;
      if h in lookup {
        ghost var i := AgreeIndex(lookup, txx.Data, h);
        WithoutAt(txx.Data, i);
        AgreeRemove(lookup, txx.Data, i);
        txx.Remove(lookup[h]);
      } else {
        AgreeMissing(lookup, txx.Data, h);
        WithoutNone(txx.Data, h);
      }
      lookup := lookup - {h};
    }

    method Count() returns (n: nat)
      requires Valid()
      ensures n == |txx.Data|
    {
      AgreeCount(lookup, txx.Data);
      n := |lookup|;
    }

    method Contains(h: Hash) returns (b: bool)
      requires Valid()
      ensures b == Has(txx.Data, h)
    {
      b := h in lookup;
    }

    method Clear()
      modifies this, txx
      ensures Valid() && txx.Data == []
    {
      lookup := map[];
      txx.Clear();
    }
  }

  class TxPool {
    const all: TxSortedMap
    const pending: TxSortedMap
    const maxLength: nat
    ghost const repr: set<object>

    /** What the pool holds, and the operations that led to it. */
    ghost var ops: seq<Op>

    ghost function Contents(): Pool
      reads all.txx, pending.txx
    {
      Pool(all.txx.Data, pending.txx.Data, maxLength)
    }

    ghost predicate Valid()
      reads this, repr
    {
      && repr == {this, all, all.txx, pending, pending.txx} && all != pending && all.txx != pending.txx
      && maxLength > 0 && all.Valid() && pending.Valid()
      && Contents() == Steps(Empty(maxLength), ops)
    }

    constructor (maxLength: nat)
      requires maxLength > 0
      ensures Valid() && fresh(repr) && ops == [] && this.maxLength == maxLength
    {
      var a := new TxSortedMap();
      var p := new TxSortedMap();
      all, pending, this.maxLength, ops := a, p, maxLength, [];
      repr := {this, a, a.txx, p, p.txx};
    }

    /** Prunes the oldest transaction of a full index. */
    method Prune()
      requires all.Valid() && maxLength > 0
      modifies all, all.txx
      ensures all.Valid()
      ensures all.txx.Data == if |old(all.txx.Data)| == maxLength then old(all.txx.Data)[1..] else old(all.txx.Data)
    {
      var n := all.Count();
      if n == maxLength {
        var oldest := all.First();
        WithoutAt(all.txx.Data, 0);
        all.Remove(oldest.hash);
      }
    }

    method Add(tx: Tx)
      requires Valid()
      modifies repr
      ensures Valid() && ops == old(ops) + [PoolModel.Add(tx)]
      ensures Contents() == PoolModel.Next(old(Contents()), PoolModel.Add(tx))
      ensures var known, waiting := old(all.txx.Data), old(pending.txx.Data);
        var kept := if |known| == maxLength then known[1..] else known;
        if exists i :: 0 <= i < |kept| && kept[i].hash == tx.hash
        then all.txx.Data == kept && pending.txx.Data == waiting
        else all.txx.Data == kept + [tx] && pending.txx.Data == if Has(waiting, tx.hash) then waiting else waiting + [tx]
    {
      hide Agree, Steps;
      StepsOne(Empty(maxLength), ops, PoolModel.Add(tx));
      Prune();
      var known := all.Contains(tx.hash);
      if !known {
        all.Add(tx);
        pending.Add(tx);
      }
      ops := ops + [PoolModel.Add(tx)];
    }

    method Contains(h: Hash) returns (b: bool)
      requires Valid()
      ensures b == Has(Contents().all, h)
    {
      b := all.Contains(h);
    }

    method Pending() returns (txs: seq<Tx>)
      requires Valid()
      ensures txs == Contents().pending
    {
      txs := pending.txx.Data;
    }

    method ClearPending()
      requires Valid()
      modifies repr
      ensures Valid() && ops == old(ops) + [PoolModel.ClearPending]
      ensures Contents() == old(Contents()).(pending := [])
    {
      hide Agree, Steps;
      StepsOne(Empty(maxLength), ops, PoolModel.ClearPending);
      pending.Clear();
      ops := ops + [PoolModel.ClearPending];
    }
  }
}
