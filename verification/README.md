# RFQ relayer: a verified model

A Dafny model of an RFQ auction relayer that runs on a small proof-of-authority chain, with proofs about every run of it.

| files | what they model |
|---|---|
| `Bytes`, `Types` | byte strings and their order, big-endian integers, the transaction payloads |
| `AuctionQueue` | the live auction object and the binary heap on end times |
| `AuctionMachine`, `AuctionTheorems`, `AuctionObjects`, `AuctionHistory`, `AuctionClock`, `AuctionQuotes`, `AuctionReads`, `AuctionScenarios` | the auction lifecycle as a step system, what holds over its runs, and runs that show the exceptions happen |
| `Auctions` | the auction fields and tables of the `Blockchain` object, tied to that step system |
| `Merkle`, `MerkleLists` | the Merkle root, and which lists share one |
| `ChainModel`, `ChainObjects` | block construction, validation and append; on values and as objects |
| `BlockCodec`, `BlockReads` | the stored bytes of a block, and reading them back while quotes arrive |
| `PoolModel`, `TxPools` | the transaction pool, on values and as objects |
| `NodeModel`, `Servers` | a validator node: pool and chain together |
| `KeyRange`, `MemoryDB`, `Tables`, `Schema` | prefix ranges, the in-memory store with iterator, batch and snapshot, prefixed tables, the key families |
| `HashStream`, `Rlp`, `Codec`, `WireFormat`, `Signatures` | the hasher stream, RLP, the transaction codecs and envelope, the 65-byte signature form |

`dafny verify dfyconfig.toml` checks everything.

## How to read it

**Steps.** An auction is opened, quoted and closed by named steps (`AuctionMachine.Step`). The chain's lock is not held between
the parts of a timer pass, so a pass is split into Pop, Copy, Commit and Emit, and any other step may come in between. A pass
that runs undisturbed is the case in which none does; `Auctions.ProcessAuctionQueue` is such a pass. Opening (reading the clock
and writing the record) and appending a quote are one step each. The live auction is one object (`AuctionQueue.Entry`) that the
open list, the open map and the heap point to; the closed record is a copy.

**Sharing.** The OpenRFQ transaction with which the node opens an auction goes to the pool with a pointer to the live auction's
data (`ChainModel.Shared`). Its hash is cached when it is signed, so it keeps verifying, but what is written for it into a block
is the data at that moment.

**Foreign functions.** Keccak, the header's RLP hash, signing, signature verification and transaction verification are function
values in `ChainModel.Crypto`. Where a result needs a working signature scheme it says so (`Crypto.Signs`). Collision freedom is
never assumed: a result that needs it ends in "or the two inputs show a collision here", with the place named, since no hash to
32 bytes is injective.

**Failures.** A Go panic (failed type assertion, index out of range, negative slice bound) is an error result or an absent value
like any other failure.

## What the proofs show about the code

- A hash is in the open map exactly if the last opening or closing of it was an opening (`InMap`), so the map and the live
  auctions agree about it exactly if that is so or it was closed as often as opened (`MapIsLive`). Closing one of several
  auctions of a hash takes the hash out of the map (`CommitForgets`). It also removes from the list the auction listed first
  under the hash, whichever one was closed: the listed ones are always the last opened (`ListedAreLast`). So list and heap hold
  the same auctions throughout a run exactly if auctions of one hash are closed in the order in which they were opened
  (`ListIsHeap`). If the first one opened ends first, the other stays listed and out of reach for quotes (`ReopenedWhileLive`);
  if the last one opened ends first, the list keeps the closed auction, and the live one is neither listed nor mapped
  (`ReopenedEndsFirst`). The pool keeps a hash out for the next 999 additions and no longer (`StaysKnown`, `BoundIsExact`).
- A quote accepted after the deep copy and before the write of a closing auction is lost to the closed record (`ClosedQuotes`,
  `QuoteAfterCopy`).
- The quote handler compares whole seconds with an end time in milliseconds. A verified quote for a mapped auction is refused
  exactly from 1000 * (endTime + 1) milliseconds on, so it is accepted late whenever no timer pass has come since the end
  (`PostQuote`, `QuoteBeforePass`). What ends an auction for quotes is leaving the map: after a pass every mapped auction ends
  later than the pass (`MappedEndsLater`, `QuoteAfterPass`).
- An end time is start plus duration exactly if the sum fits an int64; otherwise it lies before the start
  (`EndTimeSound`).
- `QuoteData.FromInterfaces` accepts nothing, so an OpenRFQ that carries quotes never decodes, a closed auction reads back
  exactly if it was copied before any quote was accepted, and one stored record with a quote makes the whole closed table
  unreadable (`EnvelopeRoundTrip`, `ClosedRecordReadable`, `ClosedTableReadable`, `OneQuoteBlocksTheTable`). The open table can
  always be read (`OpenTableReadable`).
- For the same reason a block reads back whole exactly if none of its transactions is an OpenRFQ with quotes, and otherwise
  with no transactions at all (`StoredReadsBack`). A quote that is accepted before the block is made is enough
  (`BlockAfterRun`, `QuoteBeforeBlock`).
- Building an empty block rewrites the TxHash of the stored tip. Linkage survives, because the new block names the rewritten
  hash, but a tip that had transactions can no longer be fetched by height (`LostBlocks`, `EmptyBlockHides`).
- A Merkle root fixes its list up to the tree's own completion to a power of two, and no further (`SameRoot`). Repeating the
  last 2^k hashes of an odd number, at least three, of such groups keeps the root (`RepeatedGroup`), and a header stays valid
  over the longer list (`RepeatedTransactions`). Leaves and nodes are hashed alike (`LeafLikeNode`).
- `Compact` on a table with an empty prefix covers no key (`CompactLimit`).

## Model

| member | source | states |
|---|---|---|
| AuctionQueue.Entry.constructor | core/blockchain.go:365-371 | the live object holds exactly the fields of the transaction's record |
| AuctionQueue.RootIsMin | core/types/auction_queue.go:9-11 | in a heap ordered by Less the first auction ends no later than any other |
| AuctionQueue.AuctionQueue.Swap | core/types/auction_queue.go:13-15 | the two places are exchanged and the multiset stays |
| AuctionQueue.AuctionQueue.Push | core/types/auction_queue.go:17-19 | the auction is appended |
| AuctionQueue.AuctionQueue.Pop | core/types/auction_queue.go:21-27 | the last auction is taken off |
| AuctionQueue.AuctionQueue.Up | core/types/auction_queue.go:5-15 | sifting up restores heap order and permutes |
| AuctionQueue.AuctionQueue.Down | core/types/auction_queue.go:5-15 | sifting down restores heap order on the first n places, permutes, and leaves the rest |
| AuctionQueue.AuctionQueue.HeapPush | core/blockchain.go:386 | pushing keeps heap order and adds exactly the auction |
| AuctionQueue.AuctionQueue.HeapPop | core/blockchain.go:306 | popping returns an auction that ends first, removes exactly it, and keeps heap order |
| AuctionMachine.EndTimeSound | network/server.go:319-321 | the end time is start plus duration, and not before the start, exactly if the sum fits an int64 |
| AuctionTheorems.EveryRun | core/blockchain.go:382-399 | in every reachable state: heap order; list and heap (with the auction in flight) hold every hash equally often; map keys are among them and lead to an auction of that hash; counted by hash, every opened auction is live or closed, none lost or closed twice; closed copies are CLOSED and unreachable for quotes; one event per closed auction in closing order; tables keyed by exactly the hashes opened and closed |
| AuctionTheorems.CommitForgets | core/blockchain.go:391-398 | closing takes the hash out of the map, and it stays listed exactly if it was listed more than once; no other hash changes |
| AuctionTheorems.InMap | core/blockchain.go:385-398 | a hash is in the map exactly if the last step of the run that opened or closed it opened it |
| AuctionTheorems.MapIsLive | core/blockchain.go:383-398 | map and live auctions agree about a hash exactly if that last step was an opening or it was closed as often as opened |
| AuctionScenarios.ReopenedWhileLive | core/blockchain.go:383-398 | two auctions of one hash, the one opened first closed: the other stays in list and heap, OPEN, and its hash is not in the map |
| AuctionScenarios.ReopenedEndsFirst | core/blockchain.go:391-398 | two auctions of one hash, the one opened last closed: the list holds the closed one, the other waits in the heap, OPEN, and is neither listed nor in the map |
| AuctionObjects.MappedWaits | core/blockchain.go:383-398 | in every run an auction the map leads to is in the heap or has just been taken from it |
| AuctionObjects.EveryObject | core/blockchain.go:305-317 | in every run each opened auction is one object in exactly one place, heap, taken or copied, and the closed copies stand in the order of their originals, equal to them in every constant field |
| AuctionObjects.CommitInTurn | core/blockchain.go:391-397 | from a list that holds the heap's objects, closing leads to such a list exactly if the first listed auction with the hash is the one being closed |
| AuctionObjects.ListIsHeap | core/blockchain.go:383-397 | list and heap hold the same objects throughout a run exactly if every closing closed the auction listed first under its hash |
| AuctionObjects.NoReopenInTurn | core/blockchain.go:383-397 | without reopening that is always so |
| AuctionObjects.ListedAreLast | core/blockchain.go:391-397 | in every run the listed auctions of a hash are the last ones opened with it, as many as are not closed |
| AuctionScenarios.QuoteAfterCopy | core/blockchain.go:306-311 | a quote accepted between copy and write is accepted and in no closed record, in a run without reopening |
| AuctionHistory.LiveAndClosed | core/blockchain.go:382-399 | with no hash reopened: map keys are exactly the live hashes, each leads to its auction, live ones are OPEN until copied, and live and closed are disjoint |
| AuctionHistory.QuotesKept | core/blockchain.go:559-570 | in every run each auction holds exactly the quotes accepted while the map led to it, in order, and each copy those of its original but the late ones |
| AuctionHistory.ClosedQuotes | core/types/tx_open_rfq.go:468-483 | in every run a closed record's quotes are a prefix of those accepted for its original, all of them exactly if none came between copy and write, hence always for undisturbed passes |
| AuctionHistory.ClosedForever | core/types/tx_open_rfq.go:468-483 | whatever follows, a closed auction keeps its place, its quotes and the status CLOSED |
| AuctionHistory.ClosedTableExact | core/blockchain.go:389-399 | in every run the closed table holds under each hash, field by field, the auction closed last with it; without reopening, every closed one |
| AuctionHistory.OpenTableExact | core/blockchain.go:383-388 | in every run the open table holds under each hash, field by field, the auction opened last with it as it was then, without quotes |
| AuctionClock.ClosedInOrder | core/blockchain.go:305-317 | under a non-decreasing clock the closed list of a whole run is sorted by end time, and all of it had run its full duration |
| AuctionClock.NeverEarly | core/blockchain.go:296-310 | an auction is closed only by a pass that began at or after start plus duration |
| AuctionClock.NoneSurvives | core/blockchain.go:305 | when a pass ends, everything still in the heap ends after the pass's clock reading |
| AuctionClock.MappedEndsLater | core/blockchain.go:305-317 | when a pass ends, every auction in the map ends after the pass's clock reading |
| AuctionQuotes.QuotesInTable | core/blockchain.go:404-434 | under any interleaving every stored list holds only quotes for its hash, and the quotes of any live or closed auction are, signatures aside, a sub-multiset of the stored list |
| AuctionQuotes.GetAuctionQuotes | core/blockchain.go:527-557 | the nested loops return the matching quotes of all visited lists in order |
| AuctionQuotes.ScanIsLookup | core/blockchain.go:527-557 | in every reachable state the full scan equals the point lookup |
| AuctionQuotes.QuotesTableExact | core/blockchain.go:404-434 | in every run the list under a hash is exactly the signed quotes written for it, each once, in order |
| AuctionQuotes.QuotesReturned | core/blockchain.go:527-557 | in every run GetAuctionQuotes returns exactly those |
| AuctionQuotes.QuotesComeFromRun | api/server.go:338-357 | in every run each quote of a live or closed auction has the sender and data of a signed quote written in the run, and no signature |
| AuctionReads.ClosedRecordReadable | core/blockchain.go:499-525 | in every run what stands under a hash reads back as the auction closed last with it exactly if no quote was accepted before its copy |
| AuctionReads.ClosedTableReadable | core/blockchain.go:499-525 | in every run GetClosedRFQRequests succeeds exactly if for each hash the auction closed last with it was copied before any quote was accepted |
| AuctionReads.OpenTableReadable | core/blockchain.go:471-497 | in every run GetOpenRFQRequests returns the table's records |
| AuctionReads.OneQuoteBlocksTheTable | core/blockchain.go:499-525 | one auction, one quote, one pass: neither the record nor the table decodes |
| Auctions.Posted | api/server.go:353-357 | one undisturbed run of the quote handler is two steps with the combined effect |
| Auctions.Closing | core/blockchain.go:306-311 | one undisturbed turn of the timer loop is four steps with the combined effect |
| Auctions.Auctions.constructor | core/blockchain.go:90-116 | a new book is the initial state of the step system |
| Auctions.Auctions.Unlist | core/blockchain.go:391-397 | the first listed auction with the hash leaves the list |
| Auctions.Auctions.WriteRFQTxs | core/blockchain.go:320-443 | the whole new state for each transaction type and status, and refusal of the others |
| Auctions.Auctions.WriteOpen | core/blockchain.go:383-388 | an open auction enters list, map, heap and, field by field, the open table |
| Auctions.Auctions.WriteClosed | core/blockchain.go:389-399 | a closed auction enters, field by field, the closed table, and the closed list, and leaves list and map |
| Auctions.Auctions.UpdateActiveRFQ | core/blockchain.go:559-570 | the quote is appended to the mapped auction, or refused exactly if there is none |
| Auctions.Auctions.HandleRFQRequest | network/server.go:304-347 | every field of the new auction, and opening as one legal step of the run |
| Auctions.Auctions.PostQuote | api/server.go:313-360 | at ms milliseconds accepted exactly if verified, mapped and ms < 1000 * (endTime + 1); then stored, and appended to the mapped auction with its sender and data and no signature, as two legal steps |
| Auctions.Auctions.PopAndCopy | core/blockchain.go:306-309 | the first auction leaves the heap CLOSED, and a new object copies its terms and quotes |
| Auctions.Auctions.CloseFirst | core/blockchain.go:306-311 | the loop body's effect on the whole state |
| Auctions.Auctions.ProcessAuctionQueue | core/blockchain.go:293-318 | a pass takes exactly the due auctions, in end-time order, conserves the multiset, appends one closed copy and one event for each, leaves only later ends in the heap and in the map, opens nothing and accepts no late quote |
| Auctions.QuoteBeforePass | api/server.go:325-327 | from an empty book: before any pass a quote is accepted exactly before 1000 * (endTime + 1), late ones included |
| Auctions.QuoteAfterPass | api/server.go:321-324 | from an empty book: after a pass at or past the end it is refused at any time |
| Merkle.DepthIsCeilLog2 | core/types/block.go:374-388 | the number of levels is the ceiling of log2 n |
| Merkle.WorkBound | core/types/block.go:374-388 | at most n - 1 + ceil(log2 n) pair hashes |
| Merkle.PairUp | core/types/block.go:379-385 | neighbours are hashed in pairs |
| Merkle.MerkleRoot | core/types/block.go:362-391 | the loop computes the root of the recursive tree, in Depth(n) levels and within the work bound |
| Merkle.RootBinds | core/types/block.go:362-391 | equal-length lists with equal roots are equal, or a named node of their trees is a pair-hash collision |
| MerkleLists.SameRoot | core/types/block.go:374-388 | for any two non-empty lists: with the deeper tree cut at the other's height, equal completed levels give equal roots, and equal roots give equal completed levels or a named pair-hash collision |
| MerkleLists.RepeatedGroup | core/types/block.go:375-377 | an odd number, at least three, of groups of 2^k keeps its root when the last group is repeated |
| MerkleLists.RepeatedLast | core/types/block.go:375-377 | for odd n of at least 3 repeating the last hash keeps the root |
| MerkleLists.RootOfHalves | core/types/block.go:374-388 | the root of a full list is the pair hash of the roots of its first and second half, in this order |
| MerkleLists.SmallTrees | core/types/block.go:374-388 | the roots of one, two and three hashes written out |
| MerkleLists.LeafLikeNode | core/types/block.go:379-385 | the pair hash of two hashes, as a list of one, has the root of the two |
| ChainModel.PreimageInjective | core/types/block.go:319-331 | the bytes a block hash covers determine every header field but the signature |
| ChainModel.PreimageLayout | core/types/block.go:319-331 | where each field stands in those bytes |
| ChainModel.SmallRoots | core/types/block.go:362-391 | the roots of up to three transactions as Keccak of their hashes |
| ChainModel.VerdictMeans | core/block_validator.go:30-72 | a validator accepts exactly the blocks with the next height, the tip's hash, a valid 65-byte signature, the right root and valid transactions; each refusal means exactly its own failure |
| ChainModel.UncheckedVerdict | core/blockchain.go:144-170 | without a validator exactly the transactions decide |
| ChainModel.EveryBlockSealed | core/types/block.go:231-250 | after any events every block past the genesis is signed by its validator, has the root of its transactions, and only valid ones |
| ChainModel.ValidIsAppended | core/blockchain.go:144-170 | a block with the next height, the tip's hash and those properties is accepted and appended |
| ChainModel.SealBinds | core/types/block.go:231-250 | under one header another list gets the same verdict if the completed levels are equal, and both are accepted only if they are or a named node collides |
| ChainModel.RepeatedTransactions | core/types/block.go:244-247 | repeating the last group changes neither the seal's verdict nor the block's |
| ChainModel.AppendedBlock | core/blockchain.go:572-576 | an accepted event appends exactly its block, a refused one nothing; every field of a produced block is what the tip, the clock, the transactions and the key make it |
| ChainModel.LinkedStep | core/block_validator.go:41-69 | any offered or produced block keeps the chain linked |
| ChainModel.EveryChainLinked | core/block_validator.go:30-72 | after any events headers are numbered 0, 1, 2, ... and each names the current hash of the one before, exactly if the genesis height is 0, the only one a node is made with |
| ChainModel.SameTipSameChain | core/block_validator.go:62-65 | linked chains with equal tip hashes are equal throughout, or named headers collide |
| ChainModel.HeightStep | core/blockchain.go:572-574 | an event adds one header exactly if accepted and changes of the others at most the tip's TxHash |
| ChainModel.AcceptedOnce | core/block_validator.go:41-44 | an accepted block is known ever after |
| ChainModel.ProducedIsAccepted | network/server.go:673-686 | a signed block built on the tip from verified transactions is accepted, carries exactly them, and has the next height |
| ChainModel.EveryHeaderStored | core/types/block.go:150-152 | a header is what was stored, with the empty TxHash exactly if an empty block was built on it as tip |
| ChainModel.LostBlocks | core/blockchain.go:194-212 | a block stops being found exactly if it had another TxHash and an empty block was built on it, unless the two headers collide |
| ChainModel.EmptyBlockHides | network/server.go:663-693 | a block with a transaction, then an empty one: the first is no longer found unless its two headers collide |
| ChainObjects.Header.Copy | core/types/block.go:184-191 | a copy has equal fields |
| ChainObjects.TransactionsRoot | core/types/block.go:362-391 | the root of the transactions' hashes |
| ChainObjects.Block.constructor | core/types/block.go:143-148 | a block around a copy of the header with nothing cached |
| ChainObjects.Block.Hash | core/types/block.go:314-337 | cached or fresh, it is the hash of the header |
| ChainObjects.Block.Sign | core/types/block.go:219-229 | signature and validator key are set and the cached hash stays right |
| ChainObjects.Block.Verify | core/types/block.go:231-250 | the verdict on signature and transaction root |
| ChainObjects.NewBlock | core/types/block.go:143-160 | the block, and what happens to the caller's header |
| ChainObjects.NewBlockFromPrevHeader | core/types/block.go:193-213 | the block on a given tip, naming the hash the tip has after the call |
| ChainObjects.Blockchain.constructor | core/blockchain.go:92-122 | a validator starts with the genesis header, another node with none |
| ChainObjects.NewBlockchain | core/blockchain.go:118-137 | a validator node is made exactly if its genesis block reads back at height 0, which is exactly if it has height 0 |
| ChainObjects.Blockchain.AddBlockWithoutValidation | core/blockchain.go:572-576 | one new header object at the end, and in the store the bytes of the header and of the body with the data its transactions have at that moment |
| ChainObjects.Blockchain.ValidateBlock | core/block_validator.go:30-72 | the verdict of the five checks in their order |
| ChainObjects.Blockchain.Admit | core/blockchain.go:152-169 | checks, transactions, append; nothing on refusal |
| ChainObjects.Blockchain.VerifyBlock | core/blockchain.go:144-170 | one Receive event of the run; without a validator only the transactions are checked |
| ChainObjects.Blockchain.BuildOnTip | network/server.go:666-678 | building writes through the stored tip and nothing else |
| ChainObjects.Blockchain.ProduceBlock | network/server.go:663-686 | one Produce event of the run |
| ChainObjects.Blockchain.GetBlock | core/blockchain.go:194-212 | nothing above the tip; for a validator node with genesis height 0, found exactly if the header's current hash is the one it was stored under, and then read back whole exactly if no transaction was an OpenRFQ with quotes when it was appended, else without transactions |
| BlockCodec.HeaderRoundTrip | core/rawdb/accessors_db.go:152-163 | decoding undoes encoding for every header |
| BlockCodec.BodyRoundTrip | core/rawdb/accessors_db.go:136-147 | a body decodes to itself exactly if no transaction is an OpenRFQ with quotes, and otherwise not at all |
| BlockCodec.StoredReadsBack | core/rawdb/accessors_db.go:186-196 | a stored block reads back whole exactly if each transaction's bytes decode, which is exactly if none is an OpenRFQ with quotes; otherwise with its header only |
| BlockReads.DataNow | core/blockchain.go:365-371 | what the objects hold is what the run gave them, so a block appended now stores that |
| BlockReads.BlockAfterRun | core/rawdb/accessors_db.go:18-31 | any block appended after any run reads back whole exactly if no quote was accepted for an auction one of its transactions opened and none is a foreign OpenRFQ with quotes |
| BlockReads.QuoteBeforeBlock | network/server.go:342-345 | a block of the opening transaction reads back at once, and without transactions once a quote was accepted |
| PoolModel.EveryPool | network/txpool.go:26-54 | after any operations the index is duplicate-free and within its maximum, and pending is exactly the distinct transactions that entered it since the last clear, in order |
| PoolModel.StaysKnown | network/txpool.go:26-37 | a new transaction stays known through the next max - 1 Adds, whatever they are, and its hash cannot enter again within them |
| PoolModel.BoundIsExact | network/txpool.go:26-37 | in a full pool, max - 1 new transactions later, it can |
| TxPools.List.Insert | common/list.go:42-44 | appends |
| TxPools.List.GetIndex | common/list.go:52-59 | the first index of the item, or -1 exactly if absent |
| TxPools.List.Remove | common/list.go:61-67 | the first occurrence goes, or nothing changes |
| TxPools.List.Pop | common/list.go:69-71 | the element at the index goes |
| TxPools.List.Clear | common/list.go:46-48 | empties |
| TxPools.AgreeCount | network/txpool.go:104-109 | a lookup that agrees with the list has as many entries |
| TxPools.TxSortedMap.First | network/txpool.go:69-75 | the oldest transaction |
| TxPools.TxSortedMap.Add | network/txpool.go:84-94 | inserted once per hash, lookup and list still agree |
| TxPools.TxSortedMap.Remove | network/txpool.go:96-102 | the transaction of that hash goes, lookup and list still agree |
| TxPools.TxSortedMap.Count | network/txpool.go:104-109 | the length of the list |
| TxPools.TxSortedMap.Contains | network/txpool.go:111-117 | membership by hash |
| TxPools.TxSortedMap.Clear | network/txpool.go:119-125 | empties both |
| TxPools.TxPool.Prune | network/txpool.go:27-31 | the oldest goes exactly if the index is full |
| TxPools.TxPool.Add | network/txpool.go:26-37 | one Add of the run: what is evicted, what enters the index and what becomes pending |
| TxPools.TxPool.Contains | network/txpool.go:39-41 | membership in the index |
| TxPools.TxPool.Pending | network/txpool.go:44-46 | the pending list |
| TxPools.TxPool.ClearPending | network/txpool.go:48-50 | one clear of the run |
| NodeModel.EveryNodeRun | network/server.go:560-693 | over any run the chain stays linked, everything pending is verified, and the transactions of the node's own blocks, read from the chain, followed by pending are exactly what ever became pending, in order |
| NodeModel.ChainIsRun | network/server.go:549-693 | the node's chain is what the blocks offered and made in its run make of the genesis block |
| NodeModel.PeerBlockStays | network/server.go:549-558 | a valid block from a peer enters the chain and stays at its place whatever follows |
| NodeModel.AdmittedApart | network/server.go:560-583 | over any run, between two admissions of one hash lie at least max others |
| NodeModel.EntersTwiceInARow | network/server.go:560-583 | counted by what became pending there is no such distance: for a pool of any size a run in which one hash becomes pending twice in a row |
| NodeModel.ProducesEveryTime | network/server.go:663-693 | with a working signature scheme every production succeeds, adds one header, and the appended block holds exactly what was pending |
| Servers.Server.ProcessTransaction | network/server.go:560-597 | one transaction step of the run |
| Servers.Server.ProcessBlock | network/server.go:549-558 | one peer-block step of the run: an accepted block is appended with one header, a refused one changes nothing |
| Servers.Server.MakeBlock | network/server.go:673-688 | the appended block holds exactly what was pending, with its data of that moment, and pending is cleared exactly if the block is accepted |
| Servers.Server.CreateNewBlock | network/server.go:663-693 | one production step of the run, always accepted with a working signature scheme; the chain gains one block of exactly what was pending |
| KeyRange.UpperBound | rfqdb/pebble/pebble.go:351-363 | the range from the prefix to the bound is exactly the prefixed keys; no bound exactly for empty and all-0xff prefixes |
| KeyRange.RangeIsFilter | rfqdb/pebble/pebble.go:558-562 | the scanned range is exactly the keys with the prefix from prefix + start on |
| KeyRange.CompactLimit | core/rawdb/table.go:95-107 | the bumped limit covers every prefixed key exactly if the prefix is not empty, and no key at all if it is |
| KeyRange.ListingUnique | rfqdb/memorydb/memorydb.go:150 | a set of keys has one ascending listing |
| MemoryDB.ScansAgree | rfqdb/memorydb/memorydb.go:129-159 | range scan and filter-and-sort visit the same sequence of keys and values |
| MemoryDB.SortStrings | rfqdb/memorydb/memorydb.go:150 | strictly ascending, same keys |
| MemoryDB.Collect | rfqdb/memorydb/memorydb.go:141-148 | exactly the selected keys, each once, in any map order |
| MemoryDB.NewRangeIterator | rfqdb/pebble/pebble.go:558-565 | the disk iterator lists the selected keys with their values |
| MemoryDB.MemIterator.Next | rfqdb/memorydb/memorydb.go:276-283 | moves on until exhausted and says whether there is an entry |
| MemoryDB.MemIterator.Key | rfqdb/memorydb/memorydb.go:294-300 | the current key or nothing |
| MemoryDB.MemIterator.Value | rfqdb/memorydb/memorydb.go:305-311 | the current value or nothing |
| MemoryDB.RangeIterator.Next | rfqdb/pebble/pebble.go:569-575 | the first call stays on the first key, later ones move |
| MemoryDB.DrainMemory | rfqdb/memorydb/memorydb.go:265-311 | reading to the end yields all entries in order |
| MemoryDB.DrainRange | rfqdb/pebble/pebble.go:569-588 | reading to the end yields all entries in order |
| MemoryDB.Database.Has | rfqdb/memorydb/memorydb.go:62-71 | presence, or closed |
| MemoryDB.Database.Get | rfqdb/memorydb/memorydb.go:74-85 | the value, not found, or closed |
| MemoryDB.Database.Put | rfqdb/memorydb/memorydb.go:88-97 | one map update, or closed |
| MemoryDB.Database.Delete | rfqdb/memorydb/memorydb.go:100-109 | one map removal, or closed |
| MemoryDB.Database.NewIterator | rfqdb/memorydb/memorydb.go:129-159 | lists exactly the selected keys in byte order with their values |
| MemoryDB.Database.NewSnapshot | rfqdb/memorydb/memorydb.go:327-336 | a new object with the current contents |
| MemoryDB.SnapshotStands | rfqdb/memorydb/memorydb.go:161-166 | whatever is written afterwards, and even after Close, the snapshot answers every key as the store did when it was taken |
| MemoryDB.Batch.Put | rfqdb/memorydb/memorydb.go:207-211 | queued at the end; the size stays the total length |
| MemoryDB.Batch.Delete | rfqdb/memorydb/memorydb.go:214-218 | queued at the end; the size stays the total length |
| MemoryDB.Batch.Write | rfqdb/memorydb/memorydb.go:226-241 | the operations applied in order, or nothing if closed |
| MemoryDB.Batch.Replay | rfqdb/memorydb/memorydb.go:250-263 | the same operations, keys trimmed, applied to any store |
| MemoryDB.Batch.ReplayOnHost | rfqdb/memorydb/memorydb.go:226-263 | untrimmed onto the host it commits exactly what Write commits |
| MemoryDB.Batch.ReplayInto | rfqdb/memorydb/memorydb.go:250-263 | into another batch it queues the same operations, keys trimmed, behind that batch's own |
| MemoryDB.LastWriteWins | rfqdb/memorydb/memorydb.go:226-241 | after any operations a key has what the last operation on it gave it |
| MemoryDB.Untouched | rfqdb/memorydb/memorydb.go:226-241 | and keeps what it had if none names it |
| Tables.OwnWrite | core/rawdb/table.go:53-60 | a write through a table is that write on the table's own map |
| Tables.TableRefinesOwn | core/rawdb/table.go:44-60 | any writes through a table are those writes on its own map |
| Tables.TablesIsolated | core/rawdb/table.go:44-60 | and change no table whose prefix is apart |
| Tables.TableIterates | core/rawdb/table.go:65-72 | table iteration is iteration of the table's own map: same keys, same order, the i-th value the map's at the i-th key |
| Tables.TrimUndoesPrefix | core/rawdb/table.go:173-188 | replay returns the operations as they were queued |
| Tables.Table.Has | core/rawdb/table.go:44-46 | presence in the table's own map |
| Tables.Table.Get | core/rawdb/table.go:49-51 | value in the table's own map |
| Tables.Table.Put | core/rawdb/table.go:53-55 | update of the table's own map and of no table apart |
| Tables.Table.Delete | core/rawdb/table.go:58-60 | removal from the table's own map and from no table apart |
| Tables.Table.Entries | core/rawdb/table.go:199-225 | the iterator hands out the table's own entries in order |
| Tables.Table.NewSnapshot | core/rawdb/table.go:130-132 | the snapshot is of the whole store, unprefixed |
| Tables.TableBatch.Put | core/rawdb/table.go:142-144 | queued under the prefix |
| Tables.TableBatch.Delete | core/rawdb/table.go:147-149 | queued under the prefix |
| Tables.TableBatch.Write | core/rawdb/table.go:157-159 | the queued operations on the table's own map, and on no table apart |
| Tables.TableBatch.Replay | core/rawdb/table.go:186-188 | the unprefixed operations applied to the writer |
| Schema.TableNames | core/blockchain.go:84-89 | the six prefixes spelled out |
| Schema.KeyLayout | core/rawdb/schema.go:32-70 | where prefix, height and hash stand in each raw key |
| Schema.RawKeysDistinct | core/rawdb/schema.go:32-70 | different raw keys never share bytes |
| Schema.TablesSeparate | core/blockchain.go:84-89 | the six RFQ tables never see each other's writes |
| Schema.RawSeparate | core/rawdb/schema.go:24-70 | tables and raw keys never see each other's writes |
| Schema.RawWritesSeparate | core/rawdb/accessors_db.go:18-84 | a raw write leaves every other raw key alone |
| HashStream.IndexKeyIsRlp | core/types/hashing.go:148 | the index key is the RLP of the minimal big-endian index |
| HashStream.VisitsAllAscending | core/types/hashing.go:140-161 | every index is visited exactly once with strictly ascending keys |
| HashStream.OcaxHasher.Update | core/types/hashing.go:91-105 | both fields with their four-byte lengths are appended |
| HashStream.DeriveSha | core/types/hashing.go:134-163 | the three loops feed the records in that order |
| HashStream.StreamPart | core/types/hashing.go:91-105 | the k-th record is the key and then the value of the k-th visited index, each behind its four-byte length |
| HashStream.DerivedStreamInjective | core/types/hashing.go:134-163 | lists with the same stream are equal, for fields below 2^32 bytes |
| Rlp.DecodeEncode | core/types/transaction.go:114-117 | every item survives encoding and decoding |
| Rlp.EncodeDecode | core/types/transaction.go:138-151 | only the canonical encoding of an item decodes |
| Rlp.StringRules | core/types/transaction.go:114-117 | the encoding of strings, as Appendix B of the Ethereum Yellow Paper has it |
| Rlp.ListRules | core/types/transaction.go:114-117 | the encoding of lists around their payload |
| Rlp.PayloadRules | core/types/transaction.go:114-117 | the payload is the items' encodings in order |
| WireFormat.EnvelopeWire | core/types/transaction.go:114-117 | the type byte, and in the list behind it every field at its place, for all three types |
| WireFormat.QuoteWire | core/types/tx_quote.go:97-102 | every field of a quote at its place |
| WireFormat.RFQDataWire | core/types/tx_open_rfq.go:413-439 | every field of an RFQ record at its place, times in two's complement |
| WireFormat.RequestWire | core/types/tx_rfq_request.go:345-347 | every field of a request at its place |
| WireFormat.OpenWire | core/types/tx_open_rfq.go:212-214 | every field of an OpenRFQ at its place |
| WireFormat.BlockWire | core/rawdb/accessors_db.go:18-81 | every header field at its place, and the transactions' envelopes before the validator's key |
| WireFormat.StatusNames | core/types/tx_open_rfq.go:18-21 | the status strings spelled out |
| Codec.AddressRule | core/types/tx_rfq_request.go:48-88 | the item-tree decoder keeps the last twenty bytes of an address, or the number of a shorter one |
| Codec.TokenRoundTrip | core/types/tx_rfq_request.go:101-120 | both decoders undo the token encoder |
| Codec.SignableRoundTrip | core/types/tx_rfq_request.go:451-511 | both decoders undo the encoding of the request data |
| Codec.RequestRoundTrip | core/types/tx_rfq_request.go:345-383 | decoding undoes encoding for every request |
| Codec.QuoteDataRoundTrip | core/types/tx_quote.go:415-455 | decoding undoes encoding for every quote's data |
| Codec.QuoteRoundTrip | core/types/tx_quote.go:97-140 | decoding undoes encoding for every quote |
| Codec.RFQDataRoundTrip | core/types/tx_open_rfq.go:273-388 | an RFQ record decodes to itself exactly if it carries no quotes, int64 times included |
| Codec.OpenRoundTrip | core/types/tx_open_rfq.go:212-271 | an OpenRFQ decodes to itself exactly if it carries no quotes |
| Codec.TokenDecodersAgree | core/types/tx_rfq_request.go:48-120 | the item-tree decoder equals the stream decoder wherever that succeeds, and exactly what more it accepts |
| Codec.SignableDecodersAgree | core/types/tx_rfq_request.go:451-511 | the same for the request data |
| Codec.EnvelopeRoundTrip | core/types/transaction.go:113-155 | through the typed envelope: every request, every quote, exactly the OpenRFQs without quotes |
| Codec.EnvelopeCanonical | core/types/transaction.go:131-155 | bytes that decode to a request or a quote are the bytes encoding it writes |
| Codec.QuotesTableRoundTrip | core/blockchain.go:416-434 | a stored list of quotes reads back as written |
| Codec.ReadRFQs | core/blockchain.go:471-525 | all stored values decoded in order, or failure |
| Codec.TableReadable | core/blockchain.go:499-525 | a table of RFQs is readable exactly if none carries a quote |
| Signatures.Layout | crypto/ocax/keys.go:105-122 | R, then S, then V, big-endian |
| Signatures.ReadsBack | crypto/ocax/keys.go:105-133 | decoding undoes encoding exactly if R and S are below 2^256 and V below 256 |
| Signatures.WritesBack | crypto/ocax/keys.go:124-133 | encoding undoes decoding for every 65 bytes, and no other length decodes |
| Signatures.FormsAgree | core/types/transaction_signing.go:133-160 | the two encoders and the three decoders agree |

## Left out

- HTTP and websocket handlers, TCP transport, gob messages and block synchronisation messages: input and output.
- Elliptic-curve arithmetic, Keccak and the keystore: function values with stated hypotheses.
- JSON, string formatting, metrics, logging and the disk engine itself: the engine is represented by an ordered listing of a range.
- The matched and settled stages, `AddOpenRFQTx`, `GetBlockByHash`, `GetTxByHash`: unused or unimplemented.
- Locks, goroutines and channels: replaced by atomic steps; the event channel is a list.
- Storage errors: table writes succeed.
- Bytes in the auction tables: `Auctions` stores records and quotes as values; `Codec.QuotesTableRoundTrip` and `Codec.TableReadable` say when their stored bytes read back.
- What a transaction that is read back hashes to: its hash is computed anew from the data it was stored with.
- The empty list in `MerkleLists.SameRoot`: its root is a constant that a non-empty list's root could equal by chance.
- Block heights of 2^64 and more: the store key of a block uses the height itself, where the code truncates it to 64 bits.
- A pool with maximum length 0, whose first addition panics.
- Absent signature integers, which are encoded like zero and are zero here.
- AuctionClock.ClosedInOrder: takes reading the clock and writing the opened record as one step; if a pass runs in between, an auction can be opened after its end.
- NodeModel.EveryNodeRun: takes a block production as one step; a transaction that becomes pending between reading and clearing pending is outside it.
- MemoryDB.Database.NewIterator: does not model that `append` may write into the caller's prefix slice.
