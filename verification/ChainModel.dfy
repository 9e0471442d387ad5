/** Chain growth on values: block construction, validation and append, and what
    holds of every chain a node can reach. Keccak, the header's RLP hash and the
    signature scheme are parameters. */
module ChainModel {
  import opened Bytes
  import opened Merkle
  import MerkleLists
  import AuctionQueue
  import Codec

  datatype HeaderData = HeaderData(
    version: uint64, txHash: Hash, parentHash: Hash, timestamp: uint64, height: nat, blockSignature: bytes)

  /** The data of a transaction: its own, or the live auction's if this node opened the auction with it. */
  datatype Source = Own(data: Codec.TxData) | Shared(entry: AuctionQueue.Entry)

  /** A transaction with its cached hash. Verification uses the hash, the sender and the signature, none of which
      change. */
  datatype Tx = Tx(hash: Hash, source: Source)

  type PublicKey = bytes
  type PrivateKey = bytes

  datatype Crypto = Crypto(
    keccak: bytes -> Hash,
    headerHash: HeaderData -> Hash,
    sign: (PrivateKey, Hash) -> Option<bytes>,
    publicKey: PrivateKey -> PublicKey,
    verify: (PublicKey, Hash, bytes) -> bool,
    verifyTx: Tx -> bool)
  {
    function Pair(): PairHash {
      (a: Hash, b: Hash) => keccak(a + b)
    }

    /** Every key can sign every digest, in 65 bytes, and its own signatures verify. */
    ghost predicate Signs() {
      forall k, h :: sign(k, h).Some? && |sign(k, h).value| == 65 && verify(publicKey(k), h, sign(k, h).value)
    }
  }

  datatype BlockData = BlockData(header: HeaderData, txs: seq<Tx>, validator: PublicKey)

  datatype Verdict =
    | Accepted | Known | TooHigh | WrongParent | NoSignature | BadSignature | WrongTxRoot | BadTransaction | SignFailed

  // ---------- hashes ----------

  function TxHashes(txs: seq<Tx>): seq<Hash> {
    seq(|txs|, i requires 0 <= i < |txs| => txs[i].hash)
  }

  function TxRoot(c: Crypto, txs: seq<Tx>): Hash {
    Root(c.Pair(), TxHashes(txs))
  }

  /** What a block's own hash covers: everything in the header but the signature. */
  function Preimage(h: HeaderData): bytes {
    ToBE(h.version, 8) + h.parentHash + h.txHash + MinBE(h.height) + ToBE(h.timestamp, 8)
  }

  function BlockHash(c: Crypto, h: HeaderData): Hash {
    c.keccak(Preimage(h))
  }

  /** The variable-length height in the middle does not make the preimage ambiguous. */
  lemma PreimageInjective(g: HeaderData, h: HeaderData)
    requires Preimage(g) == Preimage(h)
    ensures g.(blockSignature := []) == h.(blockSignature := [])
  {
    var g3, h3 := ToBE(g.version, 8) + g.parentHash + g.txHash, ToBE(h.version, 8) + h.parentHash + h.txHash;
    SplitEqual(g3 + MinBE(g.height), ToBE(g.timestamp, 8), h3 + MinBE(h.height), ToBE(h.timestamp, 8));
    SplitEqual(g3, MinBE(g.height), h3, MinBE(h.height));
    SplitEqual(ToBE(g.version, 8) + g.parentHash, g.txHash, ToBE(h.version, 8) + h.parentHash, h.txHash);
    SplitEqual(ToBE(g.version, 8), g.parentHash, ToBE(h.version, 8), h.parentHash);
    FromMinBE(g.height);
    FromMinBE(h.height);
    Uint64RoundTrip(g.version);
    Uint64RoundTrip(h.version);
    Uint64RoundTrip(g.timestamp);
    Uint64RoundTrip(h.timestamp);
  }

  /** Where each field stands in it. */
  lemma PreimageLayout(h: HeaderData)
    ensures var p, n := Preimage(h), |Preimage(h)|;
      && n >= 80 && FromBE(p[..8]) == h.version && p[8..40] == h.parentHash && p[40..72] == h.txHash
      && FromBE(p[72..n - 8]) == h.height && FromBE(p[n - 8..]) == h.timestamp
  {
    hide ToBE, MinBE, FromBE;
    Uint64RoundTrip(h.version);
    Uint64RoundTrip(h.timestamp);
    FromMinBE(h.height);
    var p := Preimage(h);
    assert p[..8] == ToBE(h.version, 8) && p[72..|p| - 8] == MinBE(h.height) && p[|p| - 8..] == ToBE(h.timestamp, 8);
  }

  /** The root of one, two and three transactions. */
  lemma SmallRoots(c: Crypto, x: Tx, y: Tx, z: Tx)
    ensures TxRoot(c, []) == EMPTY_TXS && TxRoot(c, [x]) == x.hash
    ensures TxRoot(c, [x, y]) == c.keccak(x.hash + y.hash)
    ensures TxRoot(c, [x, y, z]) == c.keccak(c.keccak(x.hash + y.hash) + c.keccak(z.hash + z.hash))
  {
    assert TxHashes([x]) == [x.hash] && TxHashes([x, y]) == [x.hash, y.hash] && TxHashes([x, y, z]) == [x.hash, y.hash, z.hash];
    MerkleLists.SmallTrees(c.Pair(), x.hash, y.hash, z.hash);
  }

  // ---------- validation ----------

  /** Block.Verify: signature present and valid over the block hash, and the transactions match their root. */
  function VerifySeal(c: Crypto, b: BlockData): Verdict {
    if b.header.blockSignature == [] then NoSignature
    else if |b.header.blockSignature| != 65 then BadSignature
    else if !c.verify(b.validator, BlockHash(c, b.header), b.header.blockSignature) then BadSignature
    else if TxRoot(c, b.txs) != b.header.txHash then WrongTxRoot
    else Accepted
  }

  /** BlockValidator.ValidateBlock over the current headers. */
  function Validate(c: Crypto, headers: seq<HeaderData>, b: BlockData): Verdict
    requires headers != []
  {
    if b.header.height < |headers| then Known
    else if b.header.height != |headers| then TooHigh
    else if c.headerHash(headers[|headers| - 1]) != b.header.parentHash then WrongParent
    else VerifySeal(c, b)
  }

  /** Blockchain.VerifyBlock: validation if the node has a validator, then every transaction. */
  function VerifyBlock(c: Crypto, validator: bool, headers: seq<HeaderData>, b: BlockData): Verdict
    requires validator ==> headers != []
  {
    var v := if validator then Validate(c, headers, b) else Accepted;
    if v != Accepted then v
    else if exists i :: 0 <= i < |b.txs| && !c.verifyTx(b.txs[i]) then BadTransaction
    else Accepted
  }

  /** What a valid block is, by itself: a 65-byte signature of its validator over its hash, the root of its transactions in
      its header, and valid transactions. */
  ghost predicate Sealed(c: Crypto, b: BlockData) {
    && |b.header.blockSignature| == 65 && c.verify(b.validator, BlockHash(c, b.header), b.header.blockSignature)
    && b.header.txHash == TxRoot(c, b.txs)
    && forall i :: 0 <= i < |b.txs| ==> c.verifyTx(b.txs[i])
  }

  /** A validator accepts a block exactly if it has the next height, names the tip, and is valid by itself; and each refusal
      names the first of these that fails. */
  lemma VerdictMeans(c: Crypto, headers: seq<HeaderData>, b: BlockData)
    requires headers != []
    ensures var v, n, sig := VerifyBlock(c, true, headers, b), |headers|, b.header.blockSignature;
      var parent := b.header.parentHash == c.headerHash(headers[n - 1]);
      var signed := |sig| == 65 && c.verify(b.validator, BlockHash(c, b.header), sig);
      var rooted := b.header.txHash == TxRoot(c, b.txs);
      && (v == Accepted <==> b.header.height == n && parent && Sealed(c, b))
      && (v == Known <==> b.header.height < n)
      && (v == TooHigh <==> b.header.height > n)
      && (v == WrongParent <==> b.header.height == n && !parent)
      && (v == NoSignature <==> b.header.height == n && parent && sig == [])
      && (v == BadSignature <==> b.header.height == n && parent && sig != [] && !signed)
      && (v == WrongTxRoot <==> b.header.height == n && parent && signed && !rooted)
      && (v == BadTransaction <==> b.header.height == n && parent && signed && rooted && !Sealed(c, b))
  {
    hide BlockHash, TxRoot;
  }

  /** A node without a validator looks at the transactions only. */
  lemma UncheckedVerdict(c: Crypto, headers: seq<HeaderData>, b: BlockData)
    ensures VerifyBlock(c, false, headers, b)
      == if forall i :: 0 <= i < |b.txs| ==> c.verifyTx(b.txs[i]) then Accepted else BadTransaction
  {
  }

  // ---------- what a seal commits to ----------

  /** A seal fixes the list of transaction hashes up to its completed tree. The same header over another list gets the
      same verdict if the completed levels are equal, and two lists are both accepted under it only if they are, or a
      named node collides. */
  lemma SealBinds(c: Crypto, b: BlockData, txs: seq<Tx>)
    requires b.txs != [] && txs != [] && Depth(|b.txs|) <= Depth(|txs|)
    ensures |TxHashes(b.txs)| == |b.txs| && |TxHashes(txs)| == |txs|
    ensures var x := MerkleLists.Completed(c.Pair(), TxHashes(b.txs), 0);
      var y := MerkleLists.Completed(c.Pair(), TxHashes(txs), Depth(|txs|) - Depth(|b.txs|));
      && (x == y ==> VerifySeal(c, b.(txs := txs)) == VerifySeal(c, b))
      && (VerifySeal(c, b) == VerifySeal(c, b.(txs := txs)) == Accepted ==>
           x == y || Collide(c.Pair(), x, y))
  {
    hide MerkleLists.Completed, Root, Collide, VerifySeal;
    var x := MerkleLists.Completed(c.Pair(), TxHashes(b.txs), 0);
    var y := MerkleLists.Completed(c.Pair(), TxHashes(txs), Depth(|txs|) - Depth(|b.txs|));
    MerkleLists.SameRoot(c.Pair(), TxHashes(b.txs), TxHashes(txs));
    assert x == y ==> TxRoot(c, txs) == TxRoot(c, b.txs);
    assert TxRoot(c, b.txs) == TxRoot(c, txs) ==> x == y || Collide(c.Pair(), x, y);
    SealsRoot(c, b, txs);
  }

  /** A seal reads the transactions through their root only. */
  lemma SealsRoot(c: Crypto, b: BlockData, txs: seq<Tx>)
    ensures TxRoot(c, txs) == TxRoot(c, b.txs) ==> VerifySeal(c, b.(txs := txs)) == VerifySeal(c, b)
    ensures VerifySeal(c, b) == VerifySeal(c, b.(txs := txs)) == Accepted ==> TxRoot(c, txs) == TxRoot(c, b.txs)
  {
    hide TxRoot, BlockHash;
  }

  /** Repeating the last 2^k transactions of an odd number, at least three, of such groups changes no verdict: the
      header stays valid for the longer list. */
  lemma RepeatedTransactions(
    c: Crypto, validator: bool, headers: seq<HeaderData>, b: BlockData, m: nat, k: nat)
    requires validator ==> headers != []
    requires m % 2 == 1 && m >= 3 && |b.txs| == MerkleLists.Groups(m, k)
    ensures Pow2(k) <= |b.txs|
    ensures var longer := b.(txs := b.txs + b.txs[|b.txs| - Pow2(k)..]);
      VerifySeal(c, longer) == VerifySeal(c, b)
      && VerifyBlock(c, validator, headers, longer) == VerifyBlock(c, validator, headers, b)
  {
    hide Root, BlockHash, VerifySeal, VerifyBlock;
    var hashes := TxHashes(b.txs);
    MerkleLists.RepeatedGroup(c.Pair(), hashes, m, k);
    var longer := b.txs + b.txs[|b.txs| - Pow2(k)..];
    assert TxHashes(longer) == hashes + hashes[|hashes| - Pow2(k)..];
    SameVerdict(c, validator, headers, b, longer);
  }

  /** The verdict depends on the transactions only through their root and on which ones there are. */
  lemma SameVerdict(c: Crypto, validator: bool, headers: seq<HeaderData>, b: BlockData, txs: seq<Tx>)
    requires validator ==> headers != []
    requires TxRoot(c, txs) == TxRoot(c, b.txs) && forall i :: 0 <= i < |txs| ==> txs[i] in b.txs
    requires forall i :: 0 <= i < |b.txs| ==> b.txs[i] in txs
    ensures VerifySeal(c, b.(txs := txs)) == VerifySeal(c, b)
    ensures VerifyBlock(c, validator, headers, b.(txs := txs)) == VerifyBlock(c, validator, headers, b)
  {
    hide TxRoot, BlockHash;
    if i :| 0 <= i < |txs| && !c.verifyTx(txs[i]) {
      var j :| 0 <= j < |b.txs| && b.txs[j] == txs[i];
      assert !c.verifyTx(b.txs[j]);
    }
    if i :| 0 <= i < |b.txs| && !c.verifyTx(b.txs[i]) {
      var j :| 0 <= j < |txs| && txs[j] == b.txs[i];
      assert !c.verifyTx(txs[j]);
    }
  }

  // ---------- construction ----------

  /** NewBlock rewrites the caller's header when there are no transactions. */
  function Touched(tip: HeaderData, txs: seq<Tx>): HeaderData {
    if txs == [] then tip.(txHash := EMPTY_TXS) else tip
  }

  /** NewBlockFromPrevHeader, before signing. */
  function Build(c: Crypto, tip: HeaderData, txs: seq<Tx>, now: uint64): BlockData {
    BlockData(
      tip.(txHash := TxRoot(c, txs), parentHash := c.headerHash(Touched(tip, txs)), timestamp := now, height := tip.height + 1),
      txs, [])
  }

  /** Block.Sign */
  function Sign(c: Crypto, b: BlockData, key: PrivateKey): Option<BlockData> {
    match c.sign(key, BlockHash(c, b.header))
    case None => None
    case Some(sig) => Some(b.(header := b.header.(blockSignature := sig), validator := c.publicKey(key)))
  }

  /** Signing changes no transaction of a block. */
  lemma SignedTxs(c: Crypto, tip: HeaderData, txs: seq<Tx>, now: uint64, key: PrivateKey)
    ensures var signed := Sign(c, Build(c, tip, txs, now), key); signed.Some? ==> signed.value.txs == txs
  {
  }

  // ---------- runs of a validator node ----------

  /** The headers as they are now, and the blocks as they were when they were appended. */
  datatype Chain = Chain(headers: seq<HeaderData>, blocks: seq<BlockData>)

  datatype Event = Receive(block: BlockData) | Produce(txs: seq<Tx>, now: uint64, key: PrivateKey)

  function Append(ch: Chain, b: BlockData): Chain {
    Chain(ch.headers + [b.header], ch.blocks + [b])
  }

  function Tip(ch: Chain): HeaderData
    requires ch.headers != []
  {
    ch.headers[|ch.headers| - 1]
  }

  function TouchTip(ch: Chain, txs: seq<Tx>): (r: Chain)
    requires ch.headers != []
    ensures |r.headers| == |ch.headers| && r.blocks == ch.blocks
  {
    ch.(headers := ch.headers[|ch.headers| - 1 := Touched(Tip(ch), txs)])
  }

  function Offer(c: Crypto, ch: Chain, b: BlockData): (Chain, Verdict)
    requires ch.headers != []
  {
    var v := VerifyBlock(c, true, ch.headers, b);
    (if v == Accepted then Append(ch, b) else ch, v)
  }

  function Next(c: Crypto, ch: Chain, ev: Event): (r: (Chain, Verdict))
    requires ch.headers != []
    ensures r.0.headers != []
  {
    match ev
    case Receive(b) => Offer(c, ch, b)
    case Produce(txs, now, key) =>
      match Sign(c, Build(c, Tip(ch), txs, now), key)
      case None => (TouchTip(ch, txs), SignFailed)
      case Some(b) => Offer(c, TouchTip(ch, txs), b)
  }

  function After(c: Crypto, genesis: BlockData, events: seq<Event>): (ch: Chain)
    ensures ch.headers != []
  {
    if events == [] then Chain([genesis.header], [genesis])
    else Next(c, After(c, genesis, events[..|events| - 1]), events[|events| - 1]).0
  }

  lemma AfterOne(c: Crypto, genesis: BlockData, events: seq<Event>, ev: Event)
    ensures After(c, genesis, events + [ev]) == Next(c, After(c, genesis, events), ev).0
  {
    var run := events + [ev];
    assert run[..|run| - 1] == events && run[|run| - 1] == ev;
  }

  /** A produced block, field by field: the next height on the tip, the tip's version, the clock reading, the transactions
      and their root, the hash the tip has after the call, and the producer's key and signature. */
  ghost predicate IsMadeFrom(c: Crypto, b: BlockData, tip: HeaderData, ev: Event)
    requires ev.Produce?
  {
    && b.txs == ev.txs && b.header.txHash == TxRoot(c, ev.txs)
    && b.header.version == tip.version && b.header.height == tip.height + 1 && b.header.timestamp == ev.now
    && b.header.parentHash == c.headerHash(if ev.txs == [] then tip.(txHash := EMPTY_TXS) else tip)
    && b.validator == c.publicKey(ev.key)
    && Some(b.header.blockSignature) == c.sign(ev.key, BlockHash(c, b.header))
  }

  /** An accepted event appends exactly its own block, a refused one nothing; a produced block is made from the tip, the
      clock and exactly the given transactions. */
  lemma AppendedBlock(c: Crypto, ch: Chain, ev: Event)
    requires ch.headers != []
    ensures var (ch', v) := Next(c, ch, ev);
      && (v != Accepted ==> ch'.blocks == ch.blocks)
      && (v == Accepted ==>
           && |ch'.blocks| == |ch.blocks| + 1 && ch.blocks <= ch'.blocks
           && (ev.Receive? ==> ch'.blocks[|ch.blocks|] == ev.block)
           && (ev.Produce? ==> IsMadeFrom(c, ch'.blocks[|ch.blocks|], Tip(ch), ev)))
  {
    hide VerifyBlock, TxRoot;
    if ev.Produce? {
      var built := Build(c, Tip(ch), ev.txs, ev.now);
      var signed := Sign(c, built, ev.key);
      if signed.Some? {
        assert Preimage(signed.value.header) == Preimage(built.header);
      }
    }
  }

  // ---------- only valid blocks ----------

  ghost predicate AllSealed(c: Crypto, blocks: seq<BlockData>) {
    forall i :: 0 < i < |blocks| ==> Sealed(c, blocks[i])
  }

  lemma OfferSealed(c: Crypto, ch: Chain, b: BlockData)
    requires ch.headers != [] && ch.blocks != [] && AllSealed(c, ch.blocks)
    ensures Offer(c, ch, b).0.blocks != [] && AllSealed(c, Offer(c, ch, b).0.blocks)
  {
    VerdictMeans(c, ch.headers, b);
    hide VerifyBlock, Sealed;
  }

  /** After any events every block past the genesis is signed by its validator, has the root of its transactions, and only
      valid ones. */
  lemma {:induction false} EveryBlockSealed(c: Crypto, genesis: BlockData, events: seq<Event>)
    ensures After(c, genesis, events).blocks != [] && AllSealed(c, After(c, genesis, events).blocks)
    decreases |events|
  {
    hide AllSealed, Offer, Build, Sign;
    if events == [] {
      GenesisAlone(c, genesis);
    } else {
      var ch := After(c, genesis, events[..|events| - 1]);
      EveryBlockSealed(c, genesis, events[..|events| - 1]);
      match events[|events| - 1]
      case Receive(b) => OfferSealed(c, ch, b);
      case Produce(txs, now, key) =>
        var signed := Sign(c, Build(c, Tip(ch), txs, now), key);
        if signed.Some? {
          OfferSealed(c, TouchTip(ch, txs), signed.value);
        }
    }
  }

  lemma GenesisAlone(c: Crypto, genesis: BlockData)
    ensures AllSealed(c, [genesis])
  {
  }

  /** And a block that has the next height, names the tip and is valid by itself is appended. */
  lemma ValidIsAppended(c: Crypto, ch: Chain, b: BlockData)
    requires Linked(c, ch.headers) && |ch.blocks| == |ch.headers|
    requires b.header.height == |ch.headers| && b.header.parentHash == c.headerHash(Tip(ch)) && Sealed(c, b)
    ensures Next(c, ch, Receive(b)).1 == Accepted
    ensures Next(c, ch, Receive(b)).0 == Chain(ch.headers + [b.header], ch.blocks + [b])
  {
    hide VerifyBlock, Sealed;
    VerdictMeans(c, ch.headers, b);
  }

  // ---------- linkage ----------

  ghost predicate Linked(c: Crypto, headers: seq<HeaderData>) {
    && headers != []
    && (forall i :: 0 <= i < |headers| ==> headers[i].height == i)
    && (forall i :: 0 < i < |headers| ==> headers[i].parentHash == c.headerHash(headers[i - 1]))
  }

  lemma LinkedStep(c: Crypto, ch: Chain, ev: Event)
    requires Linked(c, ch.headers)
    ensures Linked(c, Next(c, ch, ev).0.headers)
  {
    if ev.Produce? {
      assert Linked(c, TouchTip(ch, ev.txs).headers);
    }
  }

  /** Whatever blocks a validator node is offered or builds, its headers are numbered 0, 1, 2, ... and each
      names the current hash of the one before it, exactly if the genesis header has height 0. */
  lemma {:induction false} EveryChainLinked(c: Crypto, genesis: BlockData, events: seq<Event>)
    ensures Linked(c, After(c, genesis, events).headers) <==> genesis.header.height == 0
    decreases |events|
  {
    var ch := After(c, genesis, events);
    if events != [] {
      var before := After(c, genesis, events[..|events| - 1]);
      EveryChainLinked(c, genesis, events[..|events| - 1]);
      if genesis.header.height == 0 {
        LinkedStep(c, before, events[|events| - 1]);
      }
    }
    FirstHeight(c, genesis, events);
  }

  lemma {:induction false} FirstHeight(c: Crypto, genesis: BlockData, events: seq<Event>)
    ensures After(c, genesis, events).headers[0].height == genesis.header.height
    decreases |events|
  {
    hide Next;
    if events != [] {
      var front, last := events[..|events| - 1], events[|events| - 1];
      FirstHeight(c, genesis, front);
      var before := After(c, genesis, front);
      HeightStep(c, before, last);
      if |before.headers| > 1 {
        assert before.headers[..|before.headers| - 1][0] == before.headers[0];
      }
    }
  }

  /** Counting back from the tips, the k-th headers differ and have the same hash. */
  ghost predicate HeaderCollision(c: Crypto, a: seq<HeaderData>, b: seq<HeaderData>, k: nat) {
    k < |a| && k < |b| && a[|a| - 1 - k] != b[|b| - 1 - k]
    && c.headerHash(a[|a| - 1 - k]) == c.headerHash(b[|b| - 1 - k])
  }

  /** Two linked chains with the same tip hash are the same chain, or show a header hash collision. */
  lemma {:induction false} SameTipSameChain(c: Crypto, a: seq<HeaderData>, b: seq<HeaderData>)
    requires Linked(c, a) && Linked(c, b)
    requires c.headerHash(a[|a| - 1]) == c.headerHash(b[|b| - 1])
    ensures a == b || exists k: nat :: HeaderCollision(c, a, b, k)
    decreases |a|
  {
    if a[|a| - 1] != b[|b| - 1] {
      assert HeaderCollision(c, a, b, 0);
    } else if |a| > 1 {
      var a', b' := a[..|a| - 1], b[..|b| - 1];
      assert |a| == |b|;
      SameTipSameChain(c, a', b');
      if a' == b' {
        assert a == a' + [a[|a| - 1]] && b == b' + [b[|b| - 1]];
      } else {
        var k: nat :| HeaderCollision(c, a', b', k);
        assert HeaderCollision(c, a, b, k + 1);
      }
    }
  }

  /** One event adds at most one header, and changes of the others at most the tip's TxHash. */
  lemma HeightStep(c: Crypto, ch: Chain, ev: Event)
    requires ch.headers != []
    ensures var (ch', v) := Next(c, ch, ev);
      && |ch'.headers| == |ch.headers| + (if v == Accepted then 1 else 0)
      && ch'.headers[..|ch.headers| - 1] == ch.headers[..|ch.headers| - 1]
      && ch'.headers[|ch.headers| - 1].(txHash := EMPTY_TXS) == Tip(ch).(txHash := EMPTY_TXS)
  {
  }

  lemma {:induction false} NeverShrinks(c: Crypto, genesis: BlockData, events: seq<Event>, more: seq<Event>)
    ensures |After(c, genesis, events + more).headers| >= |After(c, genesis, events).headers|
    decreases |more|
  {
    hide After, Next;
    if more == [] {
      assert events + more == events;
    } else {
      var front, last := more[..|more| - 1], more[|more| - 1];
      assert events + more == events + front + [last];
      NeverShrinks(c, genesis, events, front);
      AfterOne(c, genesis, events + front, last);
      HeightStep(c, After(c, genesis, events + front), last);
    }
  }

  /** A block that was accepted is known from then on, whatever happens in between. */
  lemma AcceptedOnce(c: Crypto, genesis: BlockData, events: seq<Event>, more: seq<Event>, b: BlockData)
    requires Next(c, After(c, genesis, events), Receive(b)).1 == Accepted
    ensures Next(c, After(c, genesis, events + [Receive(b)] + more), Receive(b)).1 == Known
  {
    var run := events + [Receive(b)];
    assert run[..|run| - 1] == events && run[|run| - 1] == Receive(b);
    NeverShrinks(c, genesis, run, more);
  }

  // ---------- producer and validator agree ----------

  /** A block built on the tip from verified transactions and signed is accepted, adds exactly one header,
      and carries exactly those transactions. */
  lemma ProducedIsAccepted(c: Crypto, ch: Chain, txs: seq<Tx>, now: uint64, key: PrivateKey)
    requires Linked(c, ch.headers) && c.Signs()
    requires forall i :: 0 <= i < |txs| ==> c.verifyTx(txs[i])
    ensures var b := Sign(c, Build(c, Tip(ch), txs, now), key);
      && b.Some? && b.value.txs == txs
      && Next(c, ch, Produce(txs, now, key)) == (Append(TouchTip(ch, txs), b.value), Accepted)
      && b.value.header.height == |ch.headers|
  {
    var h := BlockHash(c, Build(c, Tip(ch), txs, now).header);
    assert c.sign(key, h).Some?;
    var b := Sign(c, Build(c, Tip(ch), txs, now), key).value;
    assert Preimage(b.header) == Preimage(Build(c, Tip(ch), txs, now).header);
  }

  // ---------- retrieval by hash ----------

  /** Where the key-value store keeps a block: by height and header hash. */
  function StoreKey(c: Crypto, h: HeaderData): (nat, Hash) {
    (h.height, c.headerHash(h))
  }

  /** A stored block is found under the hash its header has now. */
  ghost predicate Found(c: Crypto, ch: Chain, i: nat)
    requires i < |ch.headers| && i < |ch.blocks|
  {
    c.headerHash(ch.headers[i]) == c.headerHash(ch.blocks[i].header)
  }

  /** The heights at which an empty block was built while that header was the tip. */
  ghost function Rewritten(c: Crypto, genesis: BlockData, events: seq<Event>): set<int> {
    if events == [] then {} else
      var front, last := events[..|events| - 1], events[|events| - 1];
      Rewritten(c, genesis, front)
      + if last.Produce? && last.txs == [] then {|After(c, genesis, front).headers| - 1} else {}
  }

  ghost function AsRewritten(h: HeaderData, rewritten: bool): HeaderData {
    if rewritten then h.(txHash := EMPTY_TXS) else h
  }

  ghost predicate StoredAs(ch: Chain, rewritten: set<int>) {
    && |ch.headers| == |ch.blocks|
    && (forall i :: 0 <= i < |ch.headers| ==> ch.headers[i] == AsRewritten(ch.blocks[i].header, i in rewritten))
    && (forall i :: i in rewritten ==> i < |ch.headers|)
  }

  lemma StoredAsTouch(ch: Chain, rewritten: set<int>, txs: seq<Tx>)
    requires ch.headers != [] && StoredAs(ch, rewritten)
    ensures StoredAs(TouchTip(ch, txs), rewritten + if txs == [] then {|ch.headers| - 1} else {})
  {
  }

  lemma StoredAsOffer(c: Crypto, ch: Chain, rewritten: set<int>, b: BlockData)
    requires ch.headers != [] && StoredAs(ch, rewritten)
    ensures StoredAs(Offer(c, ch, b).0, rewritten)
  {
    hide VerifyBlock;
  }

  lemma StoredAsStep(c: Crypto, ch: Chain, rewritten: set<int>, ev: Event)
    requires ch.headers != [] && StoredAs(ch, rewritten)
    ensures StoredAs(Next(c, ch, ev).0, rewritten + if ev.Produce? && ev.txs == [] then {|ch.headers| - 1} else {})
  {
    hide StoredAs, Offer, Build, Sign, TouchTip;
    match ev
    case Receive(b) =>
      StoredAsOffer(c, ch, rewritten, b);
      assert rewritten + {} == rewritten;
    case Produce(txs, now, key) =>
      StoredAsTouch(ch, rewritten, txs);
      var signed := Sign(c, Build(c, Tip(ch), txs, now), key);
      if signed.Some? {
        StoredAsOffer(c, TouchTip(ch, txs), rewritten + if txs == [] then {|ch.headers| - 1} else {}, signed.value);
      }
  }

  /** After any run, a header is what was stored for it, except that its TxHash is the empty root exactly if an
      empty block was built while it was the tip. */
  lemma {:induction false} EveryHeaderStored(c: Crypto, genesis: BlockData, events: seq<Event>)
    ensures StoredAs(After(c, genesis, events), Rewritten(c, genesis, events))
    decreases |events|
  {
    if events != [] {
      var front, last := events[..|events| - 1], events[|events| - 1];
      EveryHeaderStored(c, genesis, front);
      StoredAsStep(c, After(c, genesis, front), Rewritten(c, genesis, front), last);
    }
  }

  /** So a block is no longer found under its header's current hash exactly if it had a different TxHash and an
      empty block was built on it as the tip, unless those two headers collide. */
  lemma LostBlocks(c: Crypto, genesis: BlockData, events: seq<Event>, i: nat)
    requires i < |After(c, genesis, events).headers|
    ensures |After(c, genesis, events).blocks| == |After(c, genesis, events).headers|
    ensures var ch := After(c, genesis, events);
      var lost := i in Rewritten(c, genesis, events) && ch.blocks[i].header.txHash != EMPTY_TXS;
      && (!lost ==> Found(c, ch, i))
      && (lost ==> ch.headers[i] != ch.blocks[i].header)
      && (lost && Found(c, ch, i) ==>
           c.headerHash(ch.blocks[i].header.(txHash := EMPTY_TXS)) == c.headerHash(ch.blocks[i].header))
  {
    EveryHeaderStored(c, genesis, events);
    var ch := After(c, genesis, events);
    assert ch.headers[i] == AsRewritten(ch.blocks[i].header, i in Rewritten(c, genesis, events));
  }

  /** A run that loses a block: one with a transaction, then an empty one. Unless its two headers collide, the first is no
      longer found. */
  lemma EmptyBlockHides(c: Crypto, genesis: BlockData, tx: Tx, now: uint64, later: uint64, key: PrivateKey)
    requires genesis.header.height == 0 && c.Signs() && c.verifyTx(tx) && tx.hash != EMPTY_TXS
    ensures var ch := After(c, genesis, [Produce([tx], now, key), Produce([], later, key)]);
      && |ch.headers| == |ch.blocks| == 3 && ch.blocks[1].txs == [tx]
      && (Found(c, ch, 1) ==>
           ch.headers[1] != ch.blocks[1].header && c.headerHash(ch.headers[1]) == c.headerHash(ch.blocks[1].header))
  {
    hide After, Next, Rewritten, VerifyBlock, Linked;
    var one, two := [Produce([tx], now, key)], [Produce([tx], now, key), Produce([], later, key)];
    assert one == [] + [Produce([tx], now, key)] && two == one + [Produce([], later, key)];
    Began(c, genesis);
    Grows(c, genesis, [], [tx], now, key);
    Grows(c, genesis, one, [], later, key);
    SingleRoot(c, tx);
    RewritesTip(c, genesis, one, later, key);
    LostBlocks(c, genesis, two, 1);
  }

  lemma Began(c: Crypto, genesis: BlockData)
    ensures After(c, genesis, []) == Chain([genesis.header], [genesis])
  {
  }

  lemma SingleRoot(c: Crypto, tx: Tx)
    ensures TxRoot(c, [tx]) == tx.hash
  {
    assert TxHashes([tx]) == [tx.hash];
  }

  lemma Grows(c: Crypto, genesis: BlockData, events: seq<Event>, txs: seq<Tx>, now: uint64, key: PrivateKey)
    requires genesis.header.height == 0 && c.Signs() && forall i :: 0 <= i < |txs| ==> c.verifyTx(txs[i])
    ensures var ch, r := After(c, genesis, events), After(c, genesis, events + [Produce(txs, now, key)]);
      && |r.headers| == |ch.headers| + 1 && |r.blocks| == |ch.blocks| + 1 && ch.blocks <= r.blocks
      && r.blocks[|ch.blocks|].txs == txs && r.blocks[|ch.blocks|].header.txHash == TxRoot(c, txs)
  {
    hide After, Next, VerifyBlock, TxRoot, Linked;
    var ch := After(c, genesis, events);
    EveryChainLinked(c, genesis, events);
    ProducedIsAccepted(c, ch, txs, now, key);
    AfterOne(c, genesis, events, Produce(txs, now, key));
  }

  lemma RewritesTip(c: Crypto, genesis: BlockData, events: seq<Event>, now: uint64, key: PrivateKey)
    ensures |After(c, genesis, events).headers| - 1 in Rewritten(c, genesis, events + [Produce([], now, key)])
  {
    var run := events + [Produce([], now, key)];
    assert run[..|run| - 1] == events && run[|run| - 1] == Produce([], now, key);
  }
}
