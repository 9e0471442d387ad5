/** A validator node over whole runs: transactions arrive, peers offer blocks,
    and the node produces blocks from what is pending. */
module NodeModel {
  import opened Bytes
  import opened ChainModel
  import opened PoolModel

  /** mine are the places in the chain of the blocks the node produced, in order. */
  datatype Node = Node(pool: Pool, chain: Chain, mine: seq<nat>)

  datatype NodeOp = Transaction(tx: Tx) | Peer(block: BlockData) | NewBlock(now: uint64)

  /** What processTransaction adds to the pool: unknown and verified. */
  predicate Admitted(c: Crypto, n: Node, tx: Tx) {
    !Has(n.pool.all, tx.hash) && c.verifyTx(tx)
  }

  function Next(c: Crypto, key: PrivateKey, n: Node, op: NodeOp): (r: Node)
    requires n.pool.max > 0 && n.chain.headers != []
    ensures r.pool.max == n.pool.max && r.chain.headers != []
  {
    match op
    case Transaction(tx) => if Admitted(c, n, tx) then n.(pool := PoolModel.Next(n.pool, Add(tx))) else n
    case Peer(b) => n.(chain := ChainModel.Next(c, n.chain, Receive(b)).0)
    case NewBlock(now) =>
      var (chain, v) := ChainModel.Next(c, n.chain, Produce(n.pool.pending, now, key));
      if v == Accepted then Node(n.pool.(pending := []), chain, n.mine + [|n.chain.blocks|]) else n.(chain := chain)
  }

  function After(c: Crypto, key: PrivateKey, genesis: BlockData, max: nat, ops: seq<NodeOp>): (n: Node)
    requires max > 0
    ensures n.pool.max == max && n.chain.headers != []
    decreases |ops|
  {
    if ops == [] then Node(Empty(max), Chain([genesis.header], [genesis]), [])
    else Next(c, key, After(c, key, genesis, max, ops[..|ops| - 1]), ops[|ops| - 1])
  }

  lemma AfterOne(c: Crypto, key: PrivateKey, genesis: BlockData, max: nat, ops: seq<NodeOp>, op: NodeOp)
    requires max > 0
    ensures After(c, key, genesis, max, ops + [op]) == Next(c, key, After(c, key, genesis, max, ops), op)
  {
    var run := ops + [op];
    assert run[..|run| - 1] == ops;
  }

  /** Every transaction that became pending in the run, in order. */
  function Entered(c: Crypto, key: PrivateKey, genesis: BlockData, max: nat, ops: seq<NodeOp>): seq<Tx>
    requires max > 0
    decreases |ops|
  {
    if ops == [] then [] else
      var front, last := ops[..|ops| - 1], ops[|ops| - 1];
      var n := After(c, key, genesis, max, front);
      if last.Transaction? && Admitted(c, n, last.tx) && !Has(n.pool.pending, last.tx.hash)
      then Entered(c, key, genesis, max, front) + [last.tx]
      else Entered(c, key, genesis, max, front)
  }

  /** The transactions of the blocks at the given places, in order. */
  function TxsAt(blocks: seq<BlockData>, places: seq<nat>): seq<Tx>
    requires forall i :: 0 <= i < |places| ==> places[i] < |blocks|
    decreases |places|
  {
    if places == [] then [] else
      TxsAt(blocks, places[..|places| - 1]) + blocks[places[|places| - 1]].txs
  }

  lemma {:induction false} TxsStay(blocks: seq<BlockData>, longer: seq<BlockData>, places: seq<nat>)
    requires blocks <= longer && forall i :: 0 <= i < |places| ==> places[i] < |blocks|
    ensures TxsAt(longer, places) == TxsAt(blocks, places)
    decreases |places|
  {
    if places != [] {
      TxsStay(blocks, longer, places[..|places| - 1]);
    }
  }

  /** The produced blocks stand in the chain, each at its own place. */
  ghost predicate Placed(n: Node) {
    && (forall i :: 0 <= i < |n.mine| ==> n.mine[i] < |n.chain.blocks|)
    && (forall i, j :: 0 <= i < j < |n.mine| ==> n.mine[i] < n.mine[j])
  }

  ghost predicate Healthy(c: Crypto, n: Node) {
    && Linked(c, n.chain.headers) && Sound(n.pool) && Placed(n)
    && forall i :: 0 <= i < |n.pool.pending| ==> c.verifyTx(n.pool.pending[i])
  }

  lemma HealthyStep(c: Crypto, key: PrivateKey, n: Node, op: NodeOp)
    requires n.pool.max > 0 && n.chain.headers != [] && Healthy(c, n)
    ensures Healthy(c, Next(c, key, n, op))
  {
    hide Linked, ChainModel.Next;
    match op
    case Transaction(tx) =>
      SoundStep(n.pool, Add(tx));
    case Peer(b) =>
      LinkedStep(c, n.chain, Receive(b));
      AppendedBlock(c, n.chain, Receive(b));
    case NewBlock(now) =>
      LinkedStep(c, n.chain, Produce(n.pool.pending, now, key));
      AppendedBlock(c, n.chain, Produce(n.pool.pending, now, key));
  }

  /** An admitted transaction really is new to the pool, so it becomes pending unless it already is. */
  lemma AdmittedIsNew(c: Crypto, n: Node, tx: Tx)
    requires n.pool.max > 0 && Admitted(c, n, tx)
    ensures IsNew(n.pool, tx)
  {
    UnknownIsNew(n.pool, tx);
  }

  lemma UnknownIsNew(p: Pool, tx: Tx)
    requires p.max > 0 && !Has(p.all, tx.hash)
    ensures IsNew(p, tx)
  {
    var e := Evicted(p);
    assert forall i :: 0 <= i < |e| ==> e[i] == p.all[if |p.all| == p.max then i + 1 else i];
  }

  /** The transactions in the blocks the node produced, as they stand in its chain, followed by what is pending. */
  function Held(n: Node): seq<Tx>
    requires forall i :: 0 <= i < |n.mine| ==> n.mine[i] < |n.chain.blocks|
  {
    TxsAt(n.chain.blocks, n.mine) + n.pool.pending
  }

  /** Over every run of the node: the chain stays linked, everything pending is verified, and the transactions in the
      node's own blocks, read from the chain, followed by what is pending are exactly the transactions that ever became
      pending, in order. */
  lemma {:induction false} EveryNodeRun(c: Crypto, key: PrivateKey, genesis: BlockData, max: nat, ops: seq<NodeOp>)
    requires max > 0 && genesis.header.height == 0
    ensures var n := After(c, key, genesis, max, ops);
      Healthy(c, n) && Held(n) == Entered(c, key, genesis, max, ops)
    decreases |ops|
  {
    if ops != [] {
      var front, last := ops[..|ops| - 1], ops[|ops| - 1];
      var n := After(c, key, genesis, max, front);
      EveryNodeRun(c, key, genesis, max, front);
      HealthyStep(c, key, n, last);
      HeldStep(c, key, n, last);
    }
  }

  lemma HeldStep(c: Crypto, key: PrivateKey, n: Node, op: NodeOp)
    requires n.pool.max > 0 && n.chain.headers != [] && Placed(n) && Placed(Next(c, key, n, op))
    ensures Held(Next(c, key, n, op)) == Held(n)
      + if op.Transaction? && Admitted(c, n, op.tx) && !Has(n.pool.pending, op.tx.hash) then [op.tx] else []
  {
    hide ChainModel.Next, TxsAt;
    var n' := Next(c, key, n, op);
    match op
    case Transaction(tx) =>
      if Admitted(c, n, tx) {
        AdmittedIsNew(c, n, tx);
      }
    case Peer(b) =>
      AppendedBlock(c, n.chain, Receive(b));
      TxsStay(n.chain.blocks, n'.chain.blocks, n.mine);
    case NewBlock(now) =>
      AppendedBlock(c, n.chain, Produce(n.pool.pending, now, key));
      TxsStay(n.chain.blocks, n'.chain.blocks, n.mine);
      if n'.mine != n.mine {
        TxsAtOne(n'.chain.blocks, n.mine, |n.chain.blocks|);
      }
  }

  lemma TxsAtOne(blocks: seq<BlockData>, places: seq<nat>, place: nat)
    requires place < |blocks| && forall i :: 0 <= i < |places| ==> places[i] < |blocks|
    ensures TxsAt(blocks, places + [place]) == TxsAt(blocks, places) + blocks[place].txs
  {
    var more := places + [place];
    assert more[..|more| - 1] == places;
  }

  lemma ProductionAccepted(c: Crypto, key: PrivateKey, genesis: BlockData, max: nat, ops: seq<NodeOp>, now: uint64)
    requires max > 0 && genesis.header.height == 0 && c.Signs()
    ensures var n := After(c, key, genesis, max, ops);
      ChainModel.Next(c, n.chain, Produce(n.pool.pending, now, key)).1 == Accepted
  {
    var n := After(c, key, genesis, max, ops);
    EveryNodeRun(c, key, genesis, max, ops);
    ProducedIsAccepted(c, n.chain, n.pool.pending, now, key);
  }

  /** With a signature scheme that works, a block is produced every time: afterwards nothing is pending and the
      chain is one header longer. */
  lemma ProducesEveryTime(c: Crypto, key: PrivateKey, genesis: BlockData, max: nat, ops: seq<NodeOp>, now: uint64)
    requires max > 0 && genesis.header.height == 0 && c.Signs()
    ensures var n, n' := After(c, key, genesis, max, ops), After(c, key, genesis, max, ops + [NewBlock(now)]);
      && n'.pool == n.pool.(pending := []) && n'.mine == n.mine + [|n.chain.blocks|]
      && |n'.chain.headers| == |n.chain.headers| + 1
      && |n'.chain.blocks| == |n.chain.blocks| + 1 && n'.chain.blocks[|n.chain.blocks|].txs == n.pool.pending
  {
    var n := After(c, key, genesis, max, ops);
    EveryNodeRun(c, key, genesis, max, ops);
    AfterOne(c, key, genesis, max, ops, NewBlock(now));
    ProducedIsAccepted(c, n.chain, n.pool.pending, now, key);
  }

  // ---------- the node's chain is a run of the chain ----------

  /** The block events of a run: every block a peer offered, and every block made from what was pending. */
  function BlockEvents(c: Crypto, key: PrivateKey, genesis: BlockData, max: nat, ops: seq<NodeOp>): seq<Event>
    requires max > 0
    decreases |ops|
  {
    if ops == [] then [] else
      var front := ops[..|ops| - 1];
      BlockEvents(c, key, genesis, max, front)
      + match ops[|ops| - 1]
        case Transaction(_) => []
        case Peer(b) => [Receive(b)]
        case NewBlock(now) => [Produce(After(c, key, genesis, max, front).pool.pending, now, key)]
  }

  /** The node's chain is what its block events make of the genesis block, so everything that holds of every chain holds of
      it. */
  lemma {:induction false} ChainIsRun(c: Crypto, key: PrivateKey, genesis: BlockData, max: nat, ops: seq<NodeOp>)
    requires max > 0
    ensures After(c, key, genesis, max, ops).chain
      == ChainModel.After(c, genesis, BlockEvents(c, key, genesis, max, ops))
    decreases |ops|
  {
    hide ChainModel.Next, ChainModel.After;
    if ops == [] {
      Began(c, genesis);
    } else {
      var front := ops[..|ops| - 1];
      var events := BlockEvents(c, key, genesis, max, front);
      ChainIsRun(c, key, genesis, max, front);
      match ops[|ops| - 1]
      case Transaction(_) => assert events + [] == events;
      case Peer(b) => ChainModel.AfterOne(c, genesis, events, Receive(b));
      case NewBlock(now) =>
        ChainModel.AfterOne(c, genesis, events, Produce(After(c, key, genesis, max, front).pool.pending, now, key));
    }
  }

  lemma {:induction false} BlocksGrow(
    c: Crypto, key: PrivateKey, genesis: BlockData, max: nat, ops: seq<NodeOp>, more: seq<NodeOp>)
    requires max > 0
    ensures After(c, key, genesis, max, ops).chain.blocks <= After(c, key, genesis, max, ops + more).chain.blocks
    decreases |more|
  {
    hide After, ChainModel.Next;
    if more == [] {
      assert ops + more == ops;
    } else {
      var front, last := more[..|more| - 1], more[|more| - 1];
      assert ops + more == ops + front + [last];
      BlocksGrow(c, key, genesis, max, ops, front);
      var n := After(c, key, genesis, max, ops + front);
      AfterOne(c, key, genesis, max, ops + front, last);
      match last
      case Transaction(_) =>
      case Peer(b) => AppendedBlock(c, n.chain, Receive(b));
      case NewBlock(now) => AppendedBlock(c, n.chain, Produce(n.pool.pending, now, key));
    }
  }

  /** A block from a peer that has the next height, names the tip and is valid by itself enters the node's chain, and stays at
      its place whatever follows. */
  lemma PeerBlockStays(
    c: Crypto, key: PrivateKey, genesis: BlockData, max: nat, ops: seq<NodeOp>, b: BlockData, more: seq<NodeOp>)
    requires max > 0 && genesis.header.height == 0
    requires var ch := After(c, key, genesis, max, ops).chain;
      b.header.height == |ch.headers| && b.header.parentHash == c.headerHash(Tip(ch)) && Sealed(c, b)
    ensures var ch, r := After(c, key, genesis, max, ops).chain, After(c, key, genesis, max, ops + [Peer(b)] + more).chain;
      |ch.blocks| < |r.blocks| && r.blocks[|ch.blocks|] == b && ch.blocks <= r.blocks
  {
    hide After, ChainModel.Next, Sealed, Entered, Held;
    var n := After(c, key, genesis, max, ops);
    AsManyBlocks(c, key, genesis, max, ops);
    ValidIsAppended(c, n.chain, b);
    AfterOne(c, key, genesis, max, ops, Peer(b));
    BlocksGrow(c, key, genesis, max, ops + [Peer(b)], more);
  }

  lemma AsManyBlocks(c: Crypto, key: PrivateKey, genesis: BlockData, max: nat, ops: seq<NodeOp>)
    requires max > 0 && genesis.header.height == 0
    ensures var ch := After(c, key, genesis, max, ops).chain; Linked(c, ch.headers) && |ch.blocks| == |ch.headers|
  {
    hide After, ChainModel.After;
    ChainIsRun(c, key, genesis, max, ops);
    EveryChainLinked(c, genesis, BlockEvents(c, key, genesis, max, ops));
    EveryHeaderStored(c, genesis, BlockEvents(c, key, genesis, max, ops));
  }

  // ---------- how soon a hash can enter again ----------

  /** The node after more operations. */
  function More(c: Crypto, key: PrivateKey, n: Node, ops: seq<NodeOp>): (r: Node)
    requires n.pool.max > 0 && n.chain.headers != []
    ensures r.pool.max == n.pool.max && r.chain.headers != []
    decreases |ops|
  {
    if ops == [] then n else Next(c, key, More(c, key, n, ops[..|ops| - 1]), ops[|ops| - 1])
  }

  /** How many transactions these operations admit. */
  function Admissions(c: Crypto, key: PrivateKey, n: Node, ops: seq<NodeOp>): nat
    requires n.pool.max > 0 && n.chain.headers != []
    decreases |ops|
  {
    if ops == [] then 0 else
      var front, last := ops[..|ops| - 1], ops[|ops| - 1];
      Admissions(c, key, n, front)
      + if last.Transaction? && Admitted(c, More(c, key, n, front), last.tx) then 1 else 0
  }

  lemma {:induction false} SafeMore(c: Crypto, key: PrivateKey, n: Node, ops: seq<NodeOp>, h: Hash, k: int)
    requires n.pool.max > 0 && n.chain.headers != [] && Sound(n.pool) && SafeFor(n.pool, h, k)
    requires Admissions(c, key, n, ops) <= k
    ensures var r := More(c, key, n, ops);
      Sound(r.pool) && SafeFor(r.pool, h, k - Admissions(c, key, n, ops))
    decreases |ops|
  {
    hide Next, SafeFor, Sound;
    if ops != [] {
      var front, last := ops[..|ops| - 1], ops[|ops| - 1];
      SafeMore(c, key, n, front, h, k);
      SafeOp(c, key, More(c, key, n, front), last, h, k - Admissions(c, key, n, front));
    }
  }

  lemma SafeOp(c: Crypto, key: PrivateKey, n: Node, op: NodeOp, h: Hash, k: int)
    requires n.pool.max > 0 && n.chain.headers != [] && Sound(n.pool) && SafeFor(n.pool, h, k)
    requires op.Transaction? && Admitted(c, n, op.tx) ==> k >= 1
    ensures Sound(Next(c, key, n, op).pool)
    ensures SafeFor(Next(c, key, n, op).pool, h, if op.Transaction? && Admitted(c, n, op.tx) then k - 1 else k)
  {
    hide ChainModel.Next, SafeFor, PoolModel.Next;
    if op.Transaction? && Admitted(c, n, op.tx) {
      SoundStep(n.pool, Add(op.tx));
      SafeStep(n.pool, Add(op.tx), h, k);
    } else {
      SafeCleared(n.pool, h, k);
    }
  }

  lemma SafeCleared(p: Pool, h: Hash, k: int)
    requires p.max > 0 && Sound(p) && SafeFor(p, h, k)
    ensures Sound(p.(pending := [])) && SafeFor(p.(pending := []), h, k)
  {
    SoundStep(p, ClearPending);
    SafeStep(p, ClearPending, h, k);
  }

  /** Between two admissions of the same hash lie at least max others, over every run of the node. */
  lemma AdmittedApart(
    c: Crypto, key: PrivateKey, genesis: BlockData, max: nat, ops: seq<NodeOp>, tx: Tx, between: seq<NodeOp>, again: Tx)
    requires max > 0 && again.hash == tx.hash
    requires Admitted(c, After(c, key, genesis, max, ops), tx)
    requires Admitted(c, More(c, key, After(c, key, genesis, max, ops + [Transaction(tx)]), between), again)
    ensures Admissions(c, key, After(c, key, genesis, max, ops + [Transaction(tx)]), between) >= max
  {
    hide After, More, Admissions, Healthy, Held, Entered, SafeFor;
    var n := After(c, key, genesis, max, ops);
    var m := After(c, key, genesis, max, ops + [Transaction(tx)]);
    assert Sound(n.pool) by { SoundNode(c, key, genesis, max, ops); }
    AfterOne(c, key, genesis, max, ops, Transaction(tx));
    AdmittedIsNew(c, n, tx);
    SoundStep(n.pool, Add(tx));
    SafeEntry(n.pool, tx);
    if Admissions(c, key, m, between) < max {
      SafeMore(c, key, m, between, tx.hash, max - 1);
      SafeHas(More(c, key, m, between).pool, tx.hash, max - 1 - Admissions(c, key, m, between));
    }
  }

  lemma {:induction false} SoundNode(c: Crypto, key: PrivateKey, genesis: BlockData, max: nat, ops: seq<NodeOp>)
    requires max > 0
    ensures Sound(After(c, key, genesis, max, ops).pool)
    decreases |ops|
  {
    hide ChainModel.Next, PoolModel.Next;
    if ops != [] {
      var p := After(c, key, genesis, max, ops[..|ops| - 1]).pool;
      SoundNode(c, key, genesis, max, ops[..|ops| - 1]);
      match ops[|ops| - 1]
      case Transaction(tx) => SoundStep(p, Add(tx));
      case Peer(_) =>
      case NewBlock(_) => SoundStep(p, ClearPending);
    }
  }

  lemma SafeEntry(p: Pool, tx: Tx)
    requires p.max > 0 && Sound(p) && IsNew(p, tx)
    ensures SafeFor(PoolModel.Next(p, Add(tx)), tx.hash, p.max - 1)
  {
    var q := PoolModel.Next(p, Add(tx));
    assert q.all[|q.all| - 1] == tx;
  }

  lemma SafeHas(p: Pool, h: Hash, k: int)
    requires SafeFor(p, h, k)
    ensures Has(p.all, h)
  {
  }

  /** Every transaction of the list arrives, in order. */
  function Arrivals(txs: seq<Tx>): (r: seq<NodeOp>)
    ensures |r| == |txs|
  {
    seq(|txs|, i requires 0 <= i < |txs| => Transaction(txs[i]))
  }

  /** Some transactions, another one, and the first ones again. */
  function Twice(txs: seq<Tx>, b: Tx): seq<Tx> {
    txs + [b] + txs
  }

  /** Counted by what became pending there is no such distance, however large the pool: transactions that are admitted
      again while they are pending push the last one out of the index, and once the block is made it enters right behind
      itself. */
  lemma EntersTwiceInARow(c: Crypto, key: PrivateKey, genesis: BlockData, txs: seq<Tx>, b: Tx, now: uint64)
    requires genesis.header.height == 0 && c.Signs() && txs != [] && Distinct(txs + [b])
    requires forall i :: 0 <= i < |txs + [b]| ==> c.verifyTx((txs + [b])[i])
    ensures var ops := Arrivals(Twice(txs, b)) + [NewBlock(now)] + [Transaction(b)];
      Entered(c, key, genesis, |txs|, ops) == txs + [b, b]
  {
    hide After, Entered, PoolModel.Next, ChainModel.Next, Has, Distinct;
    var max, w, first := |txs|, Twice(txs, b), Arrivals(Twice(txs, b));
    Arriving(c, key, genesis, txs, b, |w|);
    assert first[..|w|] == first && w[max + 1..] == txs && w[..max + 1] == txs + [b];
    EnteredOne(c, key, genesis, max, first, NewBlock(now));
    ProducesEveryTime(c, key, genesis, max, first, now);
    OutsideWindow(txs, b, |w|, b);
    assert !Has([], b.hash) by { HasNothing(b.hash); }
    assert c.verifyTx((txs + [b])[max]);
    EntersOne(c, key, genesis, max, first + [NewBlock(now)], b);
    assert txs + [b] + [b] == txs + [b, b];
  }

  lemma HasNothing(h: Hash)
    ensures !Has([], h)
  {
  }

  /** A transaction is at distance max from itself in the list, so it is never among the max before it. */
  lemma OutsideWindow(txs: seq<Tx>, b: Tx, m: nat, tx: Tx)
    requires txs != [] && Distinct(txs + [b]) && m <= |Twice(txs, b)|
    requires if m < |Twice(txs, b)| then tx == Twice(txs, b)[m] else tx == b
    ensures !Has(Twice(txs, b)[Low(m, |txs|)..m], tx.hash)
  {
    var max, w, once := |txs|, Twice(txs, b), txs + [b];
    assert forall j :: 0 <= j < |w| ==> w[j] == once[if j <= max then j else j - max - 1];
    var place := if m <= max then m else m - max - 1;
    assert m < |w| ==> tx == once[place];
    assert m == |w| ==> tx == once[max];
    forall j | Low(m, max) <= j < m ensures w[j].hash != tx.hash {
      var at := if j <= max then j else j - max - 1;
      assert w[j] == once[at];
    }
  }

  /** Where the index of size max begins after m arrivals. */
  function Low(m: nat, max: nat): nat {
    if m <= max then 0 else m - max
  }

  lemma Slides(w: seq<Tx>, m: nat, max: nat, pending: seq<Tx>)
    requires max > 0 && m < |w| && !Has(w[Low(m, max)..m], w[m].hash)
    ensures PoolModel.Next(Pool(w[Low(m, max)..m], pending, max), Add(w[m]))
      == Pool(w[Low(m + 1, max)..m + 1], Insert(pending, w[m]), max)
  {
    hide Has, Insert, IsNew;
    var p := Pool(w[Low(m, max)..m], pending, max);
    UnknownIsNew(p, w[m]);
    assert Evicted(p) + [w[m]] == w[Low(m + 1, max)..m + 1];
  }

  /** The pending transactions after m arrivals: each of the first max + 1 once. */
  function Head(w: seq<Tx>, m: nat, max: nat): seq<Tx>
    requires m <= |w|
  {
    if m <= max + 1 then w[..m] else w[..max + 1]
  }

  lemma HeadNext(txs: seq<Tx>, b: Tx, m: nat)
    requires txs != [] && Distinct(txs + [b]) && m < |Twice(txs, b)|
    ensures var max, w := |txs|, Twice(txs, b);
      && Has(Head(w, m, max), w[m].hash) == (m > max)
      && Insert(Head(w, m, max), w[m]) == Head(w, m + 1, max)
  {
    var max, w, once := |txs|, Twice(txs, b), txs + [b];
    assert w[..max + 1] == once;
    if m <= max {
      assert w[m] == once[m] && forall j :: 0 <= j < m ==> w[j] == once[j];
      assert !Has(w[..m], w[m].hash);
      assert w[..m] + [w[m]] == w[..m + 1];
    } else {
      assert Head(w, m, max) == w[..max + 1] == Head(w, m + 1, max);
      assert w[m] == once[m - max - 1] == w[..max + 1][m - max - 1];
    }
  }

  lemma {:induction false} Arriving(c: Crypto, key: PrivateKey, genesis: BlockData, txs: seq<Tx>, b: Tx, m: nat)
    requires txs != [] && Distinct(txs + [b]) && m <= |Twice(txs, b)|
    requires forall i :: 0 <= i < |txs + [b]| ==> c.verifyTx((txs + [b])[i])
    ensures var max, w, ops := |txs|, Twice(txs, b), Arrivals(Twice(txs, b))[..m];
      && After(c, key, genesis, max, ops).pool == Pool(w[Low(m, max)..m], Head(w, m, max), max)
      && Entered(c, key, genesis, max, ops) == Head(w, m, max)
    decreases m
  {
    hide After, Entered, PoolModel.Next, ChainModel.Next, Has, Distinct;
    var max, w := |txs|, Twice(txs, b);
    if m == 0 {
      assert Arrivals(w)[..0] == [];
      NothingYet(c, key, genesis, max);
    } else {
      var k := m - 1;
      Arriving(c, key, genesis, txs, b, k);
      var ops := Arrivals(w)[..k];
      assert Arrivals(w)[..m] == ops + [Transaction(w[k])];
      OutsideWindow(txs, b, k, w[k]);
      assert w[k] == (txs + [b])[if k <= max then k else k - max - 1];
      EntersOne(c, key, genesis, max, ops, w[k]);
      Slides(w, k, max, Head(w, k, max));
      HeadNext(txs, b, k);
    }
  }

  lemma NothingYet(c: Crypto, key: PrivateKey, genesis: BlockData, max: nat)
    requires max > 0
    ensures After(c, key, genesis, max, []).pool == Empty(max) && Entered(c, key, genesis, max, []) == []
  {
  }

  lemma EntersOne(c: Crypto, key: PrivateKey, genesis: BlockData, max: nat, ops: seq<NodeOp>, tx: Tx)
    requires max > 0 && c.verifyTx(tx) && !Has(After(c, key, genesis, max, ops).pool.all, tx.hash)
    ensures var p := After(c, key, genesis, max, ops).pool;
      && After(c, key, genesis, max, ops + [Transaction(tx)]).pool == PoolModel.Next(p, Add(tx))
      && Entered(c, key, genesis, max, ops + [Transaction(tx)])
           == Entered(c, key, genesis, max, ops) + if Has(p.pending, tx.hash) then [] else [tx]
  {
    hide After, Entered, PoolModel.Next;
    EnteredOne(c, key, genesis, max, ops, Transaction(tx));
    AfterOne(c, key, genesis, max, ops, Transaction(tx));
  }

  lemma EnteredOne(c: Crypto, key: PrivateKey, genesis: BlockData, max: nat, ops: seq<NodeOp>, op: NodeOp)
    requires max > 0
    ensures var n := After(c, key, genesis, max, ops);
      Entered(c, key, genesis, max, ops + [op]) == Entered(c, key, genesis, max, ops)
        + if op.Transaction? && Admitted(c, n, op.tx) && !Has(n.pool.pending, op.tx.hash) then [op.tx] else []
  {
    var run := ops + [op];
    assert run[..|run| - 1] == ops;
  }
}
