/** The node's steps that join the pool and the chain: receiving a transaction
    or a block, and producing a block. Channels and broadcasts are left out;
    each method is one step. */
module Servers {
  import opened Bytes
  import opened ChainModel
  import opened ChainObjects
  import opened PoolModel
  import opened TxPools
  import opened NodeModel

  class Server {
    const memPool: TxPool
    const chain: Blockchain
    const key: PrivateKey

    /** The run that led here, and the places in the chain of the blocks produced in it. */
    ghost var run: seq<NodeOp>
    ghost var mine: seq<nat>

    ghost function State(): Node
      reads this, memPool, memPool.repr, chain
      requires memPool.Valid()
    {
      Node(memPool.Contents(), chain.chain, mine)
    }

    ghost predicate Apart()
      reads this, memPool, memPool.repr, chain, chain.headers
    {
      && memPool.Valid() && chain.Valid() && chain.validator && chain.genesis.header.height == 0
      && this !in memPool.repr && chain !in memPool.repr && memPool.repr !! (set h | h in chain.headers)
    }

    ghost predicate Valid()
      reads this, memPool, memPool.repr, chain, chain.headers
    {
      Apart() && State() == NodeModel.After(chain.c, key, chain.genesis, memPool.maxLength, run)
    }

    constructor (pool: TxPool, chain: Blockchain, key: PrivateKey)
      requires pool.Valid() && pool.ops == [] && chain.Valid() && chain.events == []
      requires chain.validator && chain.genesis.header.height == 0
      requires chain !in pool.repr && pool.repr !! (set h | h in chain.headers)
      ensures Valid() && memPool == pool && this.chain == chain && run == []
    {
      memPool, this.chain, this.key, run, mine := pool, chain, key, [], [];
    }

    /** A known transaction is ignored, an invalid one refused, any other enters the pool. */
    method ProcessTransaction(tx: Tx) returns (ok: bool)
      requires Valid()
      modifies this`run, memPool.repr
      ensures Valid() && run == old(run) + [Transaction(tx)]
      ensures ok == (Has(old(memPool.Contents()).all, tx.hash) || chain.c.verifyTx(tx))
      ensures chain.chain == old(chain.chain)
      ensures memPool.Contents() ==
        if Has(old(memPool.Contents()).all, tx.hash) || !chain.c.verifyTx(tx) then old(memPool.Contents())
        else PoolModel.Next(old(memPool.Contents()), Add(tx))
    {
      hide NodeModel.After, ChainModel.After, Steps, Agree, PoolModel.Next;
      NodeModel.AfterOne(chain.c, key, chain.genesis, memPool.maxLength, run, Transaction(tx));
      run := run + [Transaction(tx)];
      var known := memPool.Contains(tx.hash);
      if known {
        return true;
      }
      if !chain.c.verifyTx(tx) {
        return false;
      }
      memPool.Add(tx);
      ok := true;
    }

    method ProcessBlock(b: Block) returns (v: Verdict)
      requires Valid() && b.Coherent(chain.c) && b.header !in chain.headers && b !in memPool.repr
      modifies this`run, chain, b`hash
      ensures Valid() && run == old(run) + [Peer(b.Data())]
      ensures v == ChainModel.VerifyBlock(chain.c, true, old(chain.chain).headers, b.Data())
      ensures v == Accepted ==>
        && chain.chain.blocks == old(chain.chain).blocks + [b.Data()] && |chain.headers| == |old(chain.headers)| + 1
        && chain.chain.headers == old(chain.chain).headers + [b.Data().header]
        && chain.written == old(chain.written) + [old(DataOfAll(b.transactions))]
      ensures v != Accepted ==> chain.chain == old(chain.chain) && chain.headers == old(chain.headers)
      ensures memPool.Contents() == old(memPool.Contents())
    {
      hide NodeModel.After, Steps, ChainModel.After, ChainModel.VerifyBlock;
      NodeModel.AfterOne(chain.c, key, chain.genesis, memPool.maxLength, run, Peer(b.Data()));
      v := chain.VerifyBlock(b);
      run := run + [Peer(b.Data())];
    }

    /** Takes what is pending, produces a block from it, and clears pending if the block is accepted. */
    method MakeBlock(now: uint64) returns (v: Verdict, txx: seq<Tx>)
      requires Apart()
      modifies memPool.repr, chain, chain.headers
      ensures Apart() && txx == old(memPool.Contents()).pending
      ensures (chain.chain, v) == ChainModel.Next(chain.c, old(chain.chain), Produce(txx, now, key))
      ensures memPool.Contents() ==
        if v == Accepted then old(memPool.Contents()).(pending := []) else old(memPool.Contents())
      ensures v != Accepted ==> chain.chain.blocks == old(chain.chain).blocks && chain.written == old(chain.written)
      ensures v == Accepted ==>
        && |chain.chain.blocks| == |old(chain.chain).blocks| + 1 && old(chain.chain).blocks <= chain.chain.blocks
        && chain.chain.blocks[|old(chain.chain).blocks|].txs == txx
        && chain.written == old(chain.written) + [old(DataOfAll(memPool.Contents().pending))]
    {
      hide ChainModel.After, ChainModel.Next, Steps, InStore, DataOfAll, Agree;
      txx := memPool.Pending();
      SameData(txx);
      AppendedBlock(chain.c, chain.chain, Produce(txx, now, key));
      v := chain.ProduceBlock(txx, now, key);
      if v != Accepted {
        return;
      }
      memPool.ClearPending();
    }

    /** With a signature scheme that works this always succeeds: the chain gets exactly one more block, of exactly the
        transactions that were pending, and nothing stays pending. */
    method CreateNewBlock(now: uint64) returns (v: Verdict)
      requires Valid()
      modifies this`run, this`mine, memPool.repr, chain, chain.headers
      ensures Valid() && run == old(run) + [NewBlock(now)]
      ensures chain.c.Signs() ==> v == Accepted
      ensures v == Accepted ==>
        && |chain.chain.blocks| == |old(chain.chain).blocks| + 1 && old(chain.chain).blocks <= chain.chain.blocks
        && chain.chain.blocks[|old(chain.chain).blocks|].txs == old(memPool.Contents()).pending
        && memPool.Contents().pending == [] && mine == old(mine) + [|old(chain.chain).blocks|]
        && chain.written == old(chain.written) + [old(DataOfAll(memPool.Contents().pending))]
      ensures v != Accepted ==> mine == old(mine) && chain.chain.blocks == old(chain.chain).blocks
    {
      hide NodeModel.After, ChainModel.After, ChainModel.Next, Steps, InStore, DataOfAll, Agree;
      NodeModel.AfterOne(chain.c, key, chain.genesis, memPool.maxLength, run, NewBlock(now));
      if chain.c.Signs() {
        ProductionAccepted(chain.c, key, chain.genesis, memPool.maxLength, run, now);
      }
      ghost var place := |chain.chain.blocks|;
      var txx;
      v, txx := MakeBlock(now);
      run := run + [NewBlock(now)];
      if v == Accepted {
        mine := mine + [place];
      }
    }
  }
}
