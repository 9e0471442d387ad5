/** The transaction pool on values: an insertion-ordered index of known
    transactions with first-in-first-out eviction, and the pending list. */
module PoolModel {
  import opened Bytes
  import opened ChainModel

  /** A pool that holds at most max known transactions. */
  datatype Pool = Pool(all: seq<Tx>, pending: seq<Tx>, max: nat)

  datatype Op = Add(tx: Tx) | ClearPending

  predicate Has(txs: seq<Tx>, h: Hash) {
    exists i :: 0 <= i < |txs| && txs[i].hash == h
  }

  ghost predicate Distinct(txs: seq<Tx>) {
    forall i, j :: 0 <= i < j < |txs| ==> txs[i].hash != txs[j].hash
  }

  /** TxSortedMap.Add */
  function Insert(txs: seq<Tx>, tx: Tx): seq<Tx> {
    if Has(txs, tx.hash) then txs else txs + [tx]
  }

  /** The oldest transaction goes when the pool is full, even if the new one turns out to be known. */
  function Evicted(p: Pool): seq<Tx>
    requires p.max > 0
  {
    if |p.all| == p.max then p.all[1..] else p.all
  }

  predicate IsNew(p: Pool, tx: Tx)
    requires p.max > 0
  {
    !Has(Evicted(p), tx.hash)
  }

  function Next(p: Pool, op: Op): (r: Pool)
    requires p.max > 0
    ensures r.max == p.max
  {
    match op
    case Add(tx) =>
      if IsNew(p, tx) then Pool(Evicted(p) + [tx], Insert(p.pending, tx), p.max)
      else p.(all := Evicted(p))
    case ClearPending => p.(pending := [])
  }

  function Steps(p: Pool, ops: seq<Op>): (r: Pool)
    requires p.max > 0
    ensures r.max == p.max
    decreases |ops|
  {
    if ops == [] then p else Next(Steps(p, ops[..|ops| - 1]), ops[|ops| - 1])
  }

  lemma StepsOne(p: Pool, ops: seq<Op>, op: Op)
    requires p.max > 0
    ensures Steps(p, ops + [op]) == Next(Steps(p, ops), op)
  {
    assert (ops + [op])[..|ops|] == ops;
  }

  function Empty(max: nat): Pool {
    Pool([], [], max)
  }

  // ---------- every reachable pool ----------

  ghost predicate Sound(p: Pool) {
    Distinct(p.all) && Distinct(p.pending) && |p.all| <= p.max
  }

  lemma SoundStep(p: Pool, op: Op)
    requires p.max > 0 && Sound(p)
    ensures Sound(Next(p, op))
  {
  }

  /** The transactions that entered the index since pending was last cleared, in order. */
  function Inserted(max: nat, ops: seq<Op>): seq<Tx>
    requires max > 0
    decreases |ops|
  {
    if ops == [] then [] else
      var front, last := ops[..|ops| - 1], ops[|ops| - 1];
      match last
      case ClearPending => []
      case Add(tx) =>
        if IsNew(Steps(Empty(max), front), tx) then Inserted(max, front) + [tx] else Inserted(max, front)
  }

  /** Keeps of each hash the first transaction. */
  function FirstOfEach(txs: seq<Tx>): seq<Tx>
    decreases |txs|
  {
    if txs == [] then [] else
      var front, last := txs[..|txs| - 1], txs[|txs| - 1];
      if Has(front, last.hash) then FirstOfEach(front) else FirstOfEach(front) + [last]
  }

  lemma {:induction false} FirstOfEachHas(txs: seq<Tx>, h: Hash)
    ensures Has(FirstOfEach(txs), h) <==> Has(txs, h)
    decreases |txs|
  {
    if txs != [] {
      var front, last := txs[..|txs| - 1], txs[|txs| - 1];
      FirstOfEachHas(front, h);
      HasAppend(front, last, h);
      assert front + [last] == txs;
      if !Has(front, last.hash) {
        HasAppend(FirstOfEach(front), last, h);
      }
    }
  }

  lemma HasAppend(txs: seq<Tx>, tx: Tx, h: Hash)
    ensures Has(txs + [tx], h) <==> Has(txs, h) || tx.hash == h
  {
    assert (txs + [tx])[|txs|] == tx;
    if Has(txs, h) {
      var i :| 0 <= i < |txs| && txs[i].hash == h;
      assert (txs + [tx])[i].hash == h;
    }
  }

  /** In every reachable pool the index has no duplicate and never exceeds its maximum, and pending is exactly
      the distinct transactions that entered the index since the last clear, in order. */
  lemma {:induction false} EveryPool(max: nat, ops: seq<Op>)
    requires max > 0
    ensures Sound(Steps(Empty(max), ops))
    ensures Steps(Empty(max), ops).pending == FirstOfEach(Inserted(max, ops))
    decreases |ops|
  {
    if ops != [] {
      var front, last := ops[..|ops| - 1], ops[|ops| - 1];
      var p := Steps(Empty(max), front);
      EveryPool(max, front);
      SoundStep(p, last);
      if last.Add? && IsNew(p, last.tx) {
        FirstOfEachHas(Inserted(max, front), last.tx.hash);
        var txs := Inserted(max, front) + [last.tx];
        assert txs[..|txs| - 1] == Inserted(max, front);
      }
    }
  }

  // ---------- how long a transaction stays known ----------

  function Adds(ops: seq<Op>): nat
    decreases |ops|
  {
    if ops == [] then 0 else Adds(ops[..|ops| - 1]) + if ops[|ops| - 1].Add? then 1 else 0
  }

  /** The evictions a transaction at index i can still survive: its position plus the free slots. */
  function Potential(p: Pool, i: nat): int {
    i + p.max - |p.all|
  }

  /** h is at an index with at least the given potential. */
  ghost predicate SafeFor(p: Pool, h: Hash, k: int) {
    exists i :: 0 <= i < |p.all| && p.all[i].hash == h && Potential(p, i) >= k
  }

  lemma SafeStep(p: Pool, op: Op, h: Hash, k: int)
    requires p.max > 0 && |p.all| <= p.max && SafeFor(p, h, k) && (op.Add? ==> k >= 1)
    ensures SafeFor(Next(p, op), h, if op.Add? then k - 1 else k)
  {
    var i :| 0 <= i < |p.all| && p.all[i].hash == h && Potential(p, i) >= k;
    var p' := Next(p, op);
    var i' := if op.Add? && |p.all| == p.max then i - 1 else i;
    assert p'.all[i'] == p.all[i];
  }

  lemma {:induction false} SafeSteps(p: Pool, ops: seq<Op>, h: Hash, k: int)
    requires p.max > 0 && Sound(p) && SafeFor(p, h, k) && Adds(ops) <= k
    ensures Sound(Steps(p, ops)) && SafeFor(Steps(p, ops), h, k - Adds(ops))
    decreases |ops|
  {
    if ops != [] {
      var front, last := ops[..|ops| - 1], ops[|ops| - 1];
      SafeSteps(p, front, h, k);
      SoundStep(Steps(p, front), last);
      SafeStep(Steps(p, front), last, h, k - Adds(front));
    }
  }

  /** A transaction that enters the pool stays known through the next max - 1 Add calls, whatever they are, so
      its hash cannot enter pending a second time within them. */
  lemma StaysKnown(p: Pool, tx: Tx, ops: seq<Op>, again: Tx)
    requires p.max > 0 && Sound(p) && IsNew(p, tx) && Adds(ops) <= p.max - 1
    requires again.hash == tx.hash
    ensures Has(Steps(Next(p, Add(tx)), ops).all, tx.hash)
    ensures Adds(ops) < p.max - 1 ==> !IsNew(Steps(Next(p, Add(tx)), ops), again)
  {
    var q := Next(p, Add(tx));
    SoundStep(p, Add(tx));
    assert q.all[|q.all| - 1] == tx;
    SafeSteps(q, ops, tx.hash, p.max - 1);
    var r := Steps(q, ops);
    if Adds(ops) < p.max - 1 {
      SafeStep(r, Add(again), tx.hash, p.max - 1 - Adds(ops));
      var i :| 0 <= i < |r.all| && r.all[i].hash == tx.hash && Potential(r, i) >= p.max - 1 - Adds(ops);
      assert Evicted(r)[if |r.all| == r.max then i - 1 else i] == r.all[i];
    }
  }

  /** Every operation is an Add of a transaction that is new at that point. */
  predicate AllNew(p: Pool, ops: seq<Op>)
    requires p.max > 0
    decreases |ops|
  {
    ops == [] ||
    (AllNew(p, ops[..|ops| - 1]) && ops[|ops| - 1].Add? && IsNew(Steps(p, ops[..|ops| - 1]), ops[|ops| - 1].tx))
  }

  lemma {:induction false} FullShifts(p: Pool, ops: seq<Op>)
    requires p.max > 0 && |p.all| == p.max && AllNew(p, ops) && |ops| <= p.max
    ensures |Steps(p, ops).all| == p.max && Steps(p, ops).all[..p.max - |ops|] == p.all[|ops|..]
    decreases |ops|
  {
    if ops != [] {
      var front := ops[..|ops| - 1];
      FullShifts(p, front);
      assert Steps(p, ops).all[..p.max - |ops|] == Steps(p, front).all[..p.max - |front|][1..];
    }
  }

  /** The bound is exact: in a full pool, max - 1 new transactions later, the same hash enters again. */
  lemma BoundIsExact(p: Pool, tx: Tx, ops: seq<Op>, again: Tx)
    requires p.max > 0 && Sound(p) && |p.all| == p.max && IsNew(p, tx) && again.hash == tx.hash
    requires AllNew(Next(p, Add(tx)), ops) && |ops| == p.max - 1
    ensures IsNew(Steps(Next(p, Add(tx)), ops), again)
  {
    var q := Next(p, Add(tx));
    SoundStep(p, Add(tx));
    FullShifts(q, ops);
    var r := Steps(q, ops);
    assert r.all[0] == q.all[|ops|..][0] == tx;
    SoundSteps(q, ops);
  }

  lemma {:induction false} SoundSteps(p: Pool, ops: seq<Op>)
    requires p.max > 0 && Sound(p)
    ensures Sound(Steps(p, ops))
    decreases |ops|
  {
    if ops != [] {
      SoundSteps(p, ops[..|ops| - 1]);
      SoundStep(Steps(p, ops[..|ops| - 1]), ops[|ops| - 1]);
    }
  }
}
