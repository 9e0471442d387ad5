/** Headers, blocks and the block half of the Blockchain as mutable objects.
    The chain hands out pointers to its own headers, and block construction
    writes through them. */
module ChainObjects {
  import opened Bytes
  import opened Merkle
  import opened ChainModel
  import opened BlockCodec
  import Codec
  import AuctionQueue

  // ---------- the data of a transaction ----------

  /** The live auctions that transactions share their data with. */
  function Entries(txs: seq<Tx>): set<AuctionQueue.Entry> {
    set i | 0 <= i < |txs| && txs[i].source.Shared? :: txs[i].source.entry
  }

  /** What a transaction would be encoded as now. */
  function DataOf(tx: Tx): (d: Codec.TxData)
    reads if tx.source.Shared? then {tx.source.entry} else {}
    ensures tx.source.Own? ==> d == tx.source.data
    ensures tx.source.Shared? ==>
      var e := tx.source.entry; d.Open? && AuctionQueue.Describes(d.open, e, e.quotes, e.status)
  {
    match tx.source
    case Own(data) => data
    case Shared(e) => Codec.Open(e.Record(e.quotes, e.status))
  }

  function DataOfAll(txs: seq<Tx>): (r: seq<Codec.TxData>)
    reads Entries(txs)
    ensures |r| == |txs|
  {
    if txs == [] then [] else
      var front := txs[..|txs| - 1];
      assert Entries(front) <= Entries(txs) && (txs[|txs| - 1].source.Shared? ==> txs[|txs| - 1].source.entry in Entries(txs));
      DataOfAll(front) + [DataOf(txs[|txs| - 1])]
  }

  /** What does not write live auctions leaves the data of transactions alone. */
  twostate lemma {:induction false} SameData(txs: seq<Tx>)
    requires forall i :: 0 <= i < |txs| && txs[i].source.Shared? ==> unchanged(txs[i].source.entry)
    ensures DataOfAll(txs) == old(DataOfAll(txs))
    decreases |txs|
  {
    if txs != [] {
      SameData(txs[..|txs| - 1]);
    }
  }

  // ---------- headers and blocks ----------

  class Header {
    var version: uint64
    var txHash: Hash
    var parentHash: Hash
    var timestamp: uint64
    var height: nat
    var blockSignature: bytes

    function Data(): HeaderData
      reads this
    {
      HeaderData(version, txHash, parentHash, timestamp, height, blockSignature)
    }

    /** CopyHeader */
    constructor Copy(h: Header)
      ensures Data() == h.Data()
    {
      version, txHash, parentHash := h.version, h.txHash, h.parentHash;
      timestamp, height, blockSignature := h.timestamp, h.height, h.blockSignature;
    }
  }

  /** Block.MerkleRoot */
  method TransactionsRoot(c: Crypto, txs: seq<Tx>) returns (root: Hash)
    ensures root == TxRoot(c, txs)
  {
    var hashes: seq<Hash> := [];
    for i := 0 to |txs|
      invariant hashes == TxHashes(txs)[..i]
    {
      hashes := hashes + [txs[i].hash];
    }
    assert hashes == TxHashes(txs);
    ghost var levels, calls;
    root, levels, calls := MerkleRoot(c.Pair(), hashes);
  }

  class Block {
    var header: Header
    var transactions: seq<Tx>
    var validator: PublicKey
    var hash: Option<Hash>

    function Data(): BlockData
      reads this, header
    {
      BlockData(header.Data(), transactions, validator)
    }

    /** The cached hash, if there is one, is the hash of the header. */
    ghost predicate Coherent(c: Crypto)
      reads this, header
    {
      hash.Some? ==> hash.value == BlockHash(c, header.Data())
    }

    /** A block around a copy of the header, with nothing cached. */
    constructor (h: Header, txs: seq<Tx>, pubkey: PublicKey)
      ensures Data() == BlockData(h.Data(), txs, pubkey) && hash.None? && fresh(header)
    {
      header := new Header.Copy(h);
      transactions, validator, hash := txs, pubkey, None;
    }

    method Hash(c: Crypto) returns (h: Hash)
      requires Coherent(c)
      modifies this`hash
      ensures h == BlockHash(c, header.Data()) && Coherent(c)
    {
      if hash.Some? {
        return hash.value;
      }
      h := c.keccak(ToBE(header.version, 8) + header.parentHash + header.txHash + MinBE(header.height)
                    + ToBE(header.timestamp, 8));
      hash := Some(h);
    }

    method Sign(c: Crypto, key: PrivateKey) returns (ok: bool)
      requires Coherent(c)
      modifies this, header
      ensures header == old(header) && Coherent(c)
      ensures var signed := ChainModel.Sign(c, old(Data()), key);
        ok == signed.Some? && Data() == if ok then signed.value else old(Data())
    {
      var h := Hash(c);
      var sig := c.sign(key, h);
      if sig.None? {
        return false;
      }
      validator := c.publicKey(key);
      header.blockSignature := sig.value;
      assert Preimage(header.Data()) == old(Preimage(header.Data()));
      ok := true;
    }

    method Verify(c: Crypto) returns (v: Verdict)
      requires Coherent(c)
      modifies this`hash
      ensures v == VerifySeal(c, Data()) && Coherent(c)
    {
      if header.blockSignature == [] {
        return NoSignature;
      }
      if |header.blockSignature| != 65 {
        return BadSignature;
      }
      var h := Hash(c);
      if !c.verify(validator, h, header.blockSignature) {
        return BadSignature;
      }
      var root := TransactionsRoot(c, transactions);
      if root != header.txHash {
        return WrongTxRoot;
      }
      v := Accepted;
    }
  }

  /** NewBlock: with no transactions it also writes the caller's header. */
  method NewBlock(c: Crypto, h: Header, txs: seq<Tx>, pubkey: PublicKey) returns (b: Block)
    modifies h
    ensures fresh(b) && fresh(b.header) && b.hash.None?
    ensures h.Data() == Touched(old(h.Data()), txs)
    ensures b.Data() == BlockData(old(h.Data()).(txHash := TxRoot(c, txs)), txs, pubkey)
  {
    b := new Block(h, txs, pubkey);
    if |txs| == 0 {
      h.txHash := EMPTY_TXS;
      b.header.txHash := EMPTY_TXS;
    }
    b.header.txHash := TransactionsRoot(c, b.transactions);
  }

  method NewBlockFromPrevHeader(c: Crypto, prevHeader: Header, txs: seq<Tx>, now: uint64) returns (b: Block)
    modifies prevHeader
    ensures fresh(b) && fresh(b.header) && b.hash.None?
    ensures prevHeader.Data() == Touched(old(prevHeader.Data()), txs)
    ensures b.Data() == Build(c, old(prevHeader.Data()), txs, now)
  {
    b := NewBlock(c, prevHeader, txs, []);
    b.header.height := prevHeader.height + 1;
    b.header.parentHash := c.headerHash(prevHeader.Data());
    b.header.timestamp := now;
    if |txs| == 0 {
      b.header.txHash := EMPTY_TXS;
    } else {
      b.header.txHash := TransactionsRoot(c, b.transactions);
      b.transactions := txs;
    }
  }

  function Recorded(b: BlockData, data: seq<Codec.TxData>): Stored {
    Store(b.header, data, b.validator)
  }

  /** The store holds exactly the blocks that were appended, with the data their transactions had then. */
  ghost predicate InStore(
    c: Crypto, db: map<(nat, Hash), Stored>, blocks: seq<BlockData>, written: seq<seq<Codec.TxData>>)
  {
    && |written| == |blocks|
    && (forall i :: 0 <= i < |blocks| ==> StoreKey(c, blocks[i].header) in db)
    && (forall k :: k in db ==>
         exists i :: 0 <= i < |blocks| && k == StoreKey(c, blocks[i].header) && db[k] == Recorded(blocks[i], written[i]))
  }

  lemma StoreOne(
    c: Crypto, db: map<(nat, Hash), Stored>, blocks: seq<BlockData>, written: seq<seq<Codec.TxData>>,
    b: BlockData, data: seq<Codec.TxData>)
    requires InStore(c, db, blocks, written)
    ensures InStore(c, db[StoreKey(c, b.header) := Recorded(b, data)], blocks + [b], written + [data])
  {
    hide Recorded;
    var db', blocks', written' := db[StoreKey(c, b.header) := Recorded(b, data)], blocks + [b], written + [data];
    forall k | k in db'
      ensures exists i :: 0 <= i < |blocks'| && k == StoreKey(c, blocks'[i].header) && db'[k] == Recorded(blocks'[i], written'[i])
    {
      if k == StoreKey(c, b.header) {
        assert blocks'[|blocks|] == b && written'[|blocks|] == data;
      } else {
        var i :| 0 <= i < |blocks| && k == StoreKey(c, blocks[i].header) && db[k] == Recorded(blocks[i], written[i]);
        assert blocks'[i] == blocks[i] && written'[i] == written[i];
      }
    }
  }

  class Blockchain {
    const c: Crypto
    const validator: bool
    var headers: seq<Header>
    /** Blocks in the key-value store, by height and header hash. */
    var db: map<(nat, Hash), Stored>

    ghost const genesis: BlockData
    ghost var events: seq<Event>
    ghost var chain: Chain
    /** The data of the transactions of each block, as it was when the block was appended. */
    ghost var written: seq<seq<Codec.TxData>>

    /** Headers only grow at the end, by new objects. */
    twostate predicate Grown()
      reads this
    {
      |old(headers)| <= |headers| && headers[..|old(headers)|] == old(headers)
      && forall i :: |old(headers)| <= i < |headers| ==> fresh(headers[i])
    }

    ghost predicate Coupled()
      reads this, headers
    {
      && |headers| == |chain.headers| == |chain.blocks|
      && (forall i :: 0 <= i < |headers| ==> headers[i].Data() == chain.headers[i])
      && (forall i, j :: 0 <= i < j < |headers| ==> headers[i] != headers[j])
    }

    /** What the store got for the i-th block. */
    ghost function RecordAt(i: nat): Stored
      requires i < |chain.blocks| && i < |written|
      reads this
    {
      Recorded(chain.blocks[i], written[i])
    }

    ghost predicate Consistent()
      reads this, headers
    {
      Coupled() && InStore(c, db, chain.blocks, written) && (validator ==> headers != [])
    }

    /** A node with a validator is in a state that a run leads to. */
    ghost predicate Valid()
      reads this, headers
    {
      Consistent() && (validator ==> chain == After(c, genesis, events))
    }

    constructor (c: Crypto, genesisBlock: Block, validator: bool)
      ensures Valid() && this.c == c && this.validator == validator && genesis == genesisBlock.Data()
      ensures events == [] && |headers| == |written| == (if validator then 1 else 0)
      ensures validator ==> written == [old(DataOfAll(genesisBlock.transactions))]
      ensures forall i :: 0 <= i < |headers| ==> fresh(headers[i])
    {
      this.c, this.validator, genesis, events := c, validator, genesisBlock.Data(), [];
      headers, db, chain, written := [], map[], Chain([], []), [];
      new;
      hide DataOfAll, Recorded;
      if validator {
        SameData(genesisBlock.transactions);
        AddBlockWithoutValidation(genesisBlock);
      }
    }

    /** Index of the tip, -1 for an empty chain. */
    function Height(): int
      reads this
    {
      |headers| - 1
    }

    predicate HasBlock(height: int)
      reads this
    {
      height <= Height()
    }

    /** The header enters the list and both records of the block enter the store, with the data its transactions have
        now. */
    method AddBlockWithoutValidation(b: Block)
      requires Coupled() && InStore(c, db, chain.blocks, written) && b.header !in headers
      modifies this`headers, this`db, this`chain, this`written
      ensures Coupled() && InStore(c, db, chain.blocks, written) && chain == Append(old(chain), b.Data())
      ensures written == old(written) + [old(DataOfAll(b.transactions))]
      ensures Grown() && headers != []
    {
      hide InStore, Recorded, DataOfAll;
      var data := DataOfAll(b.transactions);
      var copy := new Header.Copy(b.header);
      StoreOne(c, db, chain.blocks, written, b.Data(), data);
      headers := headers + [copy];
      db := db[StoreKey(c, copy.Data()) := Recorded(b.Data(), data)];
      chain, written := Append(chain, b.Data()), written + [data];
    }

    /** BlockValidator.ValidateBlock */
    method ValidateBlock(b: Block) returns (v: Verdict)
      requires Consistent() && headers != [] && b.Coherent(c) && b.header !in headers
      modifies b`hash
      ensures v == Validate(c, chain.headers, b.Data()) && b.Coherent(c)
    {
      var proposed := b.header.height;
      hide InStore, BlockHash, VerifySeal, StoreKey;
      if HasBlock(proposed) {
        return Known;
      }
      if proposed != Height() + 1 {
        return TooHigh;
      }
      var prevHeader := headers[proposed - 1];
      if c.headerHash(prevHeader.Data()) != b.header.parentHash {
        return WrongParent;
      }
      v := b.Verify(c);
    }

    /** Validation, then the transactions, then the append. */
    method Admit(b: Block) returns (v: Verdict)
      requires Consistent() && b.Coherent(c) && b.header !in headers
      modifies this`headers, this`db, this`chain, this`written, b`hash
      ensures Consistent() && b.Coherent(c) && v == ChainModel.VerifyBlock(c, validator, old(chain).headers, b.Data())
      ensures chain == if v == Accepted then Append(old(chain), b.Data()) else old(chain)
      ensures written == if v == Accepted then old(written) + [old(DataOfAll(b.transactions))] else old(written)
      ensures Grown()
    {
      hide InStore, DataOfAll, ChainModel.Validate;
      if validator {
        v := ValidateBlock(b);
        if v != Accepted {
          return;
        }
      }
      for i := 0 to |b.transactions|
        invariant forall k :: 0 <= k < i ==> c.verifyTx(b.transactions[k])
        invariant Consistent() && chain == old(chain) && headers == old(headers) && b.Coherent(c)
        invariant written == old(written)
      {
        if !c.verifyTx(b.transactions[i]) {
          return BadTransaction;
        }
      }
      SameData(b.transactions);
      AddBlockWithoutValidation(b);
      v := Accepted;
    }

    method VerifyBlock(b: Block) returns (v: Verdict)
      requires Valid() && b.Coherent(c) && b.header !in headers
      modifies this, b`hash
      ensures Valid() && b.Coherent(c) && events == old(events) + [Receive(b.Data())]
      ensures v == ChainModel.VerifyBlock(c, validator, old(chain).headers, b.Data())
      ensures chain == if v == Accepted then Append(old(chain), b.Data()) else old(chain)
      ensures written == if v == Accepted then old(written) + [old(DataOfAll(b.transactions))] else old(written)
      ensures Grown()
    {
      hide After, ChainModel.VerifyBlock, InStore, DataOfAll;
      AfterOne(c, genesis, events, Receive(b.Data()));
      v := Admit(b);
      events := events + [Receive(b.Data())];
    }

    /** Builds a block through the pointer to the stored tip. */
    method BuildOnTip(txs: seq<Tx>, now: uint64) returns (block: Block)
      requires Consistent() && headers != []
      modifies this`chain, headers[|headers| - 1]
      ensures Consistent() && chain == TouchTip(old(chain), txs)
      ensures fresh(block) && fresh(block.header) && block.hash.None?
      ensures block.Data() == Build(c, Tip(old(chain)), txs, now)
    {
      var currentHeader := headers[Height()];
      block := NewBlockFromPrevHeader(c, currentHeader, txs, now);
      chain := TouchTip(chain, txs);
    }

    /** Builds on the stored tip, signs and admits. */
    method Propose(txs: seq<Tx>, now: uint64, key: PrivateKey) returns (v: Verdict)
      requires Consistent() && validator
      modifies this`headers, this`db, this`chain, this`written, headers
      ensures Consistent()
      ensures (chain, v) == Next(c, old(chain), Produce(txs, now, key))
      ensures written == if v == Accepted then old(written) + [old(DataOfAll(txs))] else old(written)
      ensures Grown()
    {
      hide Build, ChainModel.VerifyBlock, ChainModel.Sign, InStore, TouchTip, BlockHash, DataOfAll;
      SignedTxs(c, Tip(chain), txs, now, key);
      var block := BuildOnTip(txs, now);
      var signed := block.Sign(c, key);
      assert Consistent();
      if !signed {
        return SignFailed;
      }
      SameData(txs);
      v := Admit(block);
    }

    /** The producing half of CreateNewBlock. */
    method ProduceBlock(txs: seq<Tx>, now: uint64, key: PrivateKey) returns (v: Verdict)
      requires Valid() && validator
      modifies this, headers
      ensures Valid() && events == old(events) + [Produce(txs, now, key)]
      ensures (chain, v) == Next(c, old(chain), Produce(txs, now, key))
      ensures written == if v == Accepted then old(written) + [old(DataOfAll(txs))] else old(written)
      ensures Grown()
    {
      hide After, ChainModel.Next, InStore, DataOfAll;
      AfterOne(c, genesis, events, Produce(txs, now, key));
      v := Propose(txs, now, key);
      events := events + [Produce(txs, now, key)];
    }

    /** GetBlock: looks the block up under the hash its header has now. A found block reads back whole exactly if no
        transaction was an OpenRFQ with quotes when it was appended, and otherwise without transactions. */
    method GetBlock(height: nat) returns (r: Option<ReadBlock>)
      requires Valid()
      ensures height >= |headers| ==> r.None?
      ensures height < |headers| ==>
        var key := (height, c.headerHash(chain.headers[height])); r == if key in db then Read(db[key]) else None
      ensures validator && genesis.header.height == 0 && height < |headers| && Fits(RecordAt(height)) ==>
        var b := chain.blocks[height];
        r == if !Found(c, chain, height) then None
             else if AllReadable(written[height]) then Some(ReadBlock(b.header, written[height], b.validator))
             else Some(ReadBlock(b.header, [], []))
    {
      hide Read, Fits;
      if height > Height() {
        return None;
      }
      var h := headers[height];
      var key := (height, c.headerHash(h.Data()));
      r := if key in db then Read(db[key]) else None;
      if validator && genesis.header.height == 0 {
        AtHeight(height);
        if Fits(RecordAt(height)) {
          StoredReadsBack(chain.blocks[height].header, written[height], chain.blocks[height].validator);
        }
      }
    }

    /** Heights are distinct, so a key of this height can only be this block's. */
    lemma AtHeight(height: nat)
      requires Valid() && validator && genesis.header.height == 0 && height < |headers|
      ensures var key := (height, c.headerHash(chain.headers[height]));
        (key in db <==> Found(c, chain, height)) && (key in db ==> db[key] == RecordAt(height))
    {
      EveryChainLinked(c, genesis, events);
      EveryHeaderStored(c, genesis, events);
      assert forall i :: 0 <= i < |headers| ==> chain.blocks[i].header.height == chain.headers[i].height == i;
    }
  }

  /** A node is made only if it can read its genesis block back at height 0: with a validator, exactly if that block has
      height 0. */
  method NewBlockchain(c: Crypto, genesisBlock: Block, validator: bool) returns (r: Option<Blockchain>)
    ensures Fits(old(Recorded(genesisBlock.Data(), DataOfAll(genesisBlock.transactions)))) ==>
      (r.Some? <==> validator ==> genesisBlock.header.height == 0)
    ensures r.Some? ==> validator ==> genesisBlock.header.height == 0
    ensures r.Some? ==>
      && fresh(r.value) && r.value.Valid() && r.value.c == c && r.value.validator == validator
      && r.value.genesis == genesisBlock.Data() && r.value.events == []
  {
    hide After, Read, Recorded, DataOfAll, Fits;
    ghost var block, data := genesisBlock.Data(), DataOfAll(genesisBlock.transactions);
    var bc := new Blockchain(c, genesisBlock, validator);
    if validator {
      OnlyGenesis(bc, block);
      if Fits(Recorded(block, data)) {
        GenesisReads(block, data);
      }
      var genesis := bc.GetBlock(0);
      if genesis.None? {
        return None;
      }
    }
    r := Some(bc);
  }

  lemma OnlyGenesis(bc: Blockchain, genesis: BlockData)
    requires bc.Valid() && bc.validator && bc.genesis == genesis && bc.events == [] && |bc.written| == 1
    ensures bc.chain == Chain([genesis.header], [genesis]) && |bc.headers| == 1
    ensures var key := (0, bc.c.headerHash(genesis.header));
      (key in bc.db <==> genesis.header.height == 0) && (key in bc.db ==> bc.db[key] == Recorded(genesis, bc.written[0]))
  {
    hide Recorded;
    Began(bc.c, genesis);
    assert StoreKey(bc.c, bc.chain.blocks[0].header) in bc.db;
  }

  lemma GenesisReads(genesis: BlockData, data: seq<Codec.TxData>)
    requires Fits(Recorded(genesis, data))
    ensures Read(Recorded(genesis, data)).Some?
  {
    hide Fits, Read;
    StoredReadsBack(genesis.header, data, genesis.validator);
  }
}
