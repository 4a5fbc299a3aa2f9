# HNB-Blockchain in Dafny

A model of the parts of HNB-Blockchain that carry state or arithmetic, with proofs of what they keep.
`dafny verify dfyconfig.toml` checks all of it.

**Transaction pool** (`Ordering`, `Transactions`, `TxList`, `PoolState`, `AccountLists`, `TxPool`, `Eviction`,
`EvictionQueue`, `Prque`, `PoolRuns`).  The nonce-sorted transaction list is a class over an items map, a heap of
nonces and a cache; the pool is a class over two books of such lists, an index by hash and the virtual nonces.  The
invariant `TxPool.Inv` says that the index is the disjoint union of both books, that pending and queued nonces of an
account do not overlap, that every pending list is a gapless run whose first nonce is not above the ledger nonce and
whose virtual nonce is its end, and that the pool is within capacity.  It is kept by every operation and so holds
after every sequence of events (`EveryRun`).  A virtual nonce wraps to zero in one case only, for an account that was
offered a transaction with nonce 2^64 - 1 (`OfferLastNonce`); a ghost set holds those accounts.  Eviction is proved
max-min fair; the priority queue under it, with its paged stack, refines a flat sequence.  `Explained` lists the reasons
for which a transaction can be lost, and `PromoteExecutables`, `AddTx`, `AddTxs` and `Reset` lose none for any other.

**RLP** (`Basics`, `RlpFormat`, `RlpEncode`, `RlpStream`, `RlpRaw`).  `Encode` and `Parse` are the plain recursive
encoder and parser and are proved inverse.  The deferred-header buffer, its three outputs, the streaming decoder with its
stack of open lists and cached header, and the slice reader are proved against them.

**Merkle proofs** (`Merkle`).  Proof trails are linked objects on the heap; the hash function is a parameter.  Soundness
is stated without assuming the hash function injective: anything but the leaf's own proof exhibits two different
inputs, one hashed by the check and one hashed for the tree, with the same hash.  A proof names the number of leaves itself;
with another number the root of a subtree can be passed off as a leaf (`SubtreeVerifies`), and short of a collision or of a
leaf that is itself the hash of an input of the check nothing else can (`AcceptedShows`).

**Contracts and blocks** (`Tokens`, `TokenLaws`, `Refusals`, `Faults`, `Overlay`, `Contracts`, `Blocks`).  `Tokens` gives the two
coins and the vote contract as functions on one flat map, with 64-bit wrap-around; `TokenLaws` proves conservation, modulo
2^64 for all amounts and exactly for the runs that keep every account out of debt.  Nothing in the source checks the sign
of an amount, so not every run does: `Keeps` is the exact condition, `NegativeTransfer` an input that breaks it.
`Overlay`, `Contracts` and `Blocks` are the store with its evicting cache, the per-contract change sets, the contract code
and block processing, proved equal to the flat run on every store, also one with entries that do not decode.  The snapshot
taken before a transaction is the live change set, so restoring it undoes nothing.  A refused transaction has no effect
where every entry can be read; in general it has one exactly for the votes and releases that `Refusals.Spoils` describes.
The database may fail to read any entries that are neither changed nor cached.  The vote contract takes such a failure of a
tally or of records for success, so coins are made or lost; `Faults.Unbalanced` is exactly when.

**SHA-3** (`Keccak`, `LaneBits`, `Sponge`).  The step mappings of FIPS 202 and the in-place permutation with four rounds unrolled,
where lanes wander through three permuted layouts and return, with the rotation offsets and round constants derived as
FIPS 202 does and every step mapping also stated bit by bit; and the sponge object, for any way of splitting input and
output, with the bytes of a lane in the bit order of FIPS 202.  A copy of an object that has given
output is the object of 168 - rate bytes before, not the current one, unless the rate is 168 (`CopyForgets`, `CopyFails`).

**Block download and fork search** (`Sync`, `ForkSearch`).  Download runs against an arbitrary script of deliveries,
wake-ups, timeouts and stop signals, with replies such as an honest peer gives to some request at some time.  A halved window
is computed from the stored interval and can reach past the block asked for last, so a download may hand on blocks beyond it,
though never a full window.  `Script` gives the events of a download in which some replies are lost in each window and the next
one comes: it always finishes, exactly at its end when nothing is lost (`PromptDownload`).  `Bounded` is the exact condition
under which none ever goes beyond, and `Overshooting` the losses that take it there otherwise.  Fork search narrows 513 samples.  When a second round finds no agreement it falls back to block 1.
Up to 25089 local blocks one round suffices and the result is within the tolerance of the last common block; above that there
is for every local chain a peer for which it is not (`BoundIsExact`).

## Model

| member | source | states |
|---|---|---|
| `TxLists.TxList.Put` | HNB/txpool/tx_list.go:53-61 | the list becomes the old nonce map with this transaction filed under its nonce; the index stays a duplicate-free min-heap of exactly the keys and the cache is absent or the sorted items |
| `TxLists.TxList.Forward` | HNB/txpool/tx_list.go:64-78 | removes exactly the transactions below the threshold and returns them; a cache that is kept stays the sorted rest |
| `TxLists.TxList.Filter` | HNB/txpool/tx_list.go:82-103 | splits the map exactly by the predicate, rebuilding the heap, and returns what was removed |
| `TxLists.TxList.Cap` | HNB/txpool/tx_list.go:107-128 | keeps the lowest nonces up to the limit and returns exactly the dropped ones, the cache shortened to match |
| `TxLists.TxList.Remove` | HNB/txpool/tx_list.go:132-150 | removes one nonce if present, and in a strict list also every higher one, which are returned |
| `TxLists.TxList.Ready` | HNB/txpool/tx_list.go:158-173 | takes out the maximal run of consecutive nonces from the least one, provided that one is not above the start |
| `TxLists.TxList.Flatten` | HNB/txpool/tx_list.go:183-196 | the strictly nonce-sorted listing of the map, cached |
| `TxLists.TxList.Add` | HNB/txpool/tx_list.go:231-240 | inserts when the nonce is free and leaves the list as it is otherwise |
| `TxLists.PopRun` | HNB/txpool/tx_list.go:158-173 | popping a min-heap yields the longest consecutive run and leaves the heap of the rest |
| `TxLists.IndexPop` | HNB/txpool/tx_list.go:64-78 | a pop takes the least key off a heap that indexes a map, and what is left indexes the rest |
| `Ordering.HeapRemoveKeeps` | HNB/txpool/tx_list.go:132-150 | removing any place of a heap leaves a heap |
| `Ordering.HeapRemove` | HNB/txpool/tx_list.go:132-150 | exactly the element at that place is lost, the others stay with their multiplicity |
| `Ordering.SortOrders` | HNB/txpool/tx_list.go:183-196 | sorting orders by rank |
| `Ordering.Sort` | HNB/txpool/tx_list.go:183-196 | the sorted sequence is a permutation |
| `Transactions.ListingUnique` | HNB/txpool/tx_list.go:183-196 | a nonce map has exactly one strictly sorted listing |
| `PoolState.RemovalIsExact` | HNB/txpool/tx_pool.go:654-691 | since pending and queued nonces of an account never overlap, removing by nonce removes the very transaction that was asked for |
| `PoolState.ReadyExtends` | HNB/txpool/tx_pool.go:708-752 | what becomes ready continues the pending run without gap |
| `PoolState.PassedKeepsRuns` | HNB/txpool/tx_pool.go:871-898 | after the ledger has moved on, what is left of a pending run starts at the ledger nonce, so there is never a gap in front |
| `PoolState.CutKeepsRuns` | HNB/txpool/tx_pool.go:654-691 | cutting a pending run at any nonce, with the virtual nonce lowered to it, leaves a gapless run that ends there |
| `PoolState.IndexCount` | HNB/txpool/tx_pool.go:435-502 | the index holds exactly as many transactions as the pending and queued lists together |
| `PoolState.LedgerRiseKeeps` | HNB/txpool/tx_pool.go:654-691 | runs and virtual nonces stay sound when ledger nonces rise |
| `TxPools.TxPool.EnqueueTx` | HNB/txpool/tx_pool.go:478-502 | queues when the nonce is free in the queue, and indexes exactly then |
| `TxPools.TxPool.PromoteTx` | HNB/txpool/tx_pool.go:520-546 | files the transaction as pending and sets the virtual nonce past it, or drops it from the index when the nonce is taken |
| `TxPools.TxPool.AddOne` | HNB/txpool/tx_pool.go:435-475 | answers with the right error in each case; takes in exactly the new, valid, non-colliding transactions while there is room, and keeps the whole pool invariant |
| `TxPools.TxPool.PromoteAccount` | HNB/txpool/tx_pool.go:703-752 | one account: stale ones dropped, the ready run promoted, nothing executable or stale left queued, a remote queue within its limit, nothing pending lost, other accounts untouched, only stale or excess transactions lost; a second call changes nothing more |
| `TxPools.TxPool.DemoteAccount` | HNB/txpool/tx_pool.go:871-898 | the pending list restarts exactly at the ledger nonce; the branch for a gap in front is dead |
| `TxPools.TxPool.RemoveTx` | HNB/txpool/tx_pool.go:654-691 | removes exactly that transaction; a pending one also unseats its successors, which go back to the queue, and the virtual nonce falls to it and to nothing else; no transaction appears that was not there |
| `Eviction.EvictPending` | HNB/txpool/tx_pool.go:760-827 | terminates max-min fair: locals untouched, nobody below the guaranteed slots, every trimmed account at least as long as every other remote one, only tops of lists lost, ends within the limit or with every remote account within its slots, and never a full round too far |
| `Eviction.CutDown` | HNB/txpool/tx_pool.go:788-803 | rounds of cuts keep the first offenders level and stop at the limit or the floor, at most one round past the limit |
| `Eviction.EqualizeNext` | HNB/txpool/tx_pool.go:777-805 | the offenders are levelled with the next longest account |
| `QueueEviction.EvictQueue` | HNB/txpool/tx_pool.go:828-865 | pending untouched; an overfull queue ends exactly at the limit or holds only local accounts; only tops of remote lists are lost |
| `QueueEviction.EvictIdle` | HNB/txpool/tx_pool.go:221-243 | the queues of idle remote accounts go, all others stay |
| `PoolOperations.PromoteExecutables` | HNB/txpool/tx_pool.go:696-865 | every given account is served and the pool ends within its limits; a transaction known before is lost only if it is stale, or its remote sender has a full queue of lower nonces after promotion, or more than globalSlots transactions were then pending and its remote sender had more than accountSlots and keeps that many lower ones, or more than globalQueue were then queued and it is off the top of a remote list; the books after promotion are given, with what promotion and each eviction did to them |
| `PoolOperations.PromoteAll` | HNB/txpool/tx_pool.go:703-752 | promotion alone: nothing pending is lost, nothing of accounts not given changes, and of the given ones only what is stale or beyond a full remote queue |
| `PoolOperations.LossesExplained` | HNB/txpool/tx_pool.go:696-865 | promotion followed by the two evictions loses nothing else than the four reasons allow, so nothing of a local account that is not stale |
| `PoolOperations.AddTx` | HNB/txpool/tx_pool.go:577-589 | one submission: the error of add, and on success the sender served; a transaction known before, or just taken in, is lost only for one of the four reasons of PromoteExecutables |
| `PoolOperations.OfferBatch` | HNB/txpool/tx_pool.go:601-613 | a batch is offered one by one; the dirty accounts are those answered without error |
| `PoolOperations.AddTxs` | HNB/txpool/tx_pool.go:601-624 | the errors are those of the batch taken in order, and every accepted sender is served; what was known or taken in is lost only for one of the four reasons, and nothing when no offer was answered without error |
| `PoolOperations.DemoteUnexecutables` | HNB/txpool/tx_pool.go:871-898 | every pending list restarts at its ledger nonce |
| `PoolOperations.RefreshNonces` | HNB/txpool/tx_pool.go:276-281 | every virtual nonce is just past the end of its pending list |
| `PoolOperations.Reset` | HNB/txpool/tx_pool.go:262-285 | afterwards every pending list starts at its ledger nonce, every account is served and the limits hold; what was known or taken in is lost only as stale or for one of the reasons in one of its two promotions; an account is marked as wrapped only if it was before or its nonce 2^64 - 1 was offered |
| `PoolOperations.GetTxs` | HNB/txpool/txpoolServer.go:81-101 | per account a front part of its pending listing, in order, within the count; all of it when the count is not reached |
| `PoolOperations.ProposalIsExecutable` | HNB/txpool/txpoolServer.go:81-101 | in a pool in step with the ledger a proposal holds, per account, a consecutive run from exactly the ledger nonce |
| `PoolOperations.Handle` | HNB/txpool/tx_pool.go:182-249 | every kind of event keeps the pool invariant, and marks an account as wrapped only if the event offered its nonce 2^64 - 1 |
| `PoolOperations.EveryRun` | HNB/txpool/tx_pool.go:182-249 | over every sequence of events from an empty pool: the index is the disjoint union of pending and queue, the total stays within capacity, runs are gapless, and the virtual nonce of every account with pending transactions is the end of its run unless some event offered a transaction of that account with nonce 2^64 - 1; in any case exactly when it is not zero |
| `PoolOperations.OfferLastNonce` | HNB/txpool/tx_pool.go:520-546 | the input at which the last property fails: one offer of nonce 2^64 - 1 by an account whose ledger nonce is that leaves a pending run with virtual nonce 0 |
| `PoolOperations.VirtualNonces` | HNB/txpool/tx_pool.go:520-546 | in every state that satisfies the invariant a virtual nonce is the end of the run exactly when it is not zero |
| `PoolOperations.LastNonceWraps` | HNB/txpool/tx_pool.go:520-546 | a pending transaction with nonce 2^64 - 1 forces the virtual nonce to zero, which is not the end of the run |
| `Prques.BlockStack.Push` | HNB/common/prque/sstack.go:47-62 | the paged stack is the flat sequence with the item appended, across block boundaries |
| `Prques.BlockStack.Pop` | HNB/common/prque/sstack.go:67-79 | the flat sequence loses its last item, which is returned |
| `Prques.BlockStack.SwapItems` | HNB/common/prque/sstack.go:93-101 | two items of the flat sequence change places |
| `Prques.CloseComparison` | HNB/common/prque/sstack.go:88-90 | the wrapping difference compares priorities rightly when live priorities lie within 2^63 |
| `Prques.Prque.Push` | HNB/common/prque/prque.go:20-22 | the items gain this one and stay a heap |
| `Prques.Prque.Pop` | HNB/common/prque/prque.go:26-29 | returns an item of greatest priority and loses exactly it |
| `RlpFormat.ParseOfEncode` | HNB/rlp/decode.go:511-533 | parsing an encoding followed by anything gives back the value and its length |
| `RlpFormat.EncodeOfParse` | HNB/rlp/decode.go:511-533 | whatever is parsed re-encodes to exactly the bytes that were consumed |
| `RlpFormat.EncodingsAreDistinct` | HNB/rlp/encode.go:201-224 | no encoding is a prefix of another and it determines its value |
| `RlpFormat.BigEndianOfValue` | HNB/rlp/decode.go:964-988 | bytes without a leading zero are the shortest big-endian form of their value |
| `RlpEncode.SpliceIsEncode` | HNB/rlp/encode.go:230-246 | the string data of a nested value with its deferred headers spliced in is the plain recursive encoding |
| `RlpEncode.SpliceJoin` | HNB/rlp/encode.go:230-246 | splicing two buffers in a row is splicing each |
| `RlpEncode.IntBytesAreBigEndian` | HNB/rlp/encode.go:585-640 | the eight cases of the integer writer give the shortest big-endian bytes |
| `RlpEncode.PutInt` | HNB/rlp/encode.go:585-640 | writes those bytes in place and nothing else, within bounds |
| `RlpEncode.IntSize` | HNB/rlp/encode.go:643-649 | the shift loop counts the bytes of the shortest form |
| `RlpEncode.PutHead` | HNB/rlp/encode.go:150-158 | writes the header in place and nothing else, within bounds |
| `RlpEncode.EncBuf.EncodeString` | HNB/rlp/encode.go:201-209 | appends exactly the encoding of the string |
| `RlpEncode.EncBuf.WriteUint` | HNB/rlp/encode.go:390-404 | appends the encoding of the shortest big-endian string, the empty string for zero |
| `RlpEncode.EncBuf.ListEnd` | HNB/rlp/encode.go:217-224 | fills in the header size as everything written since the list was opened, headers included |
| `RlpEncode.EncBuf.EncodeItem` | HNB/rlp/encode.go:507-525 | adds exactly the value's string data and headers, and the reported size grows by the length of the encoding |
| `RlpEncode.EncBuf.ToBytes` | HNB/rlp/encode.go:230-246 | the array is the spliced output, every header write in bounds |
| `RlpEncode.EncBuf.ToWriter` | HNB/rlp/encode.go:248-270 | the writer receives the same bytes; one that fails at any write, for any reason, has received a front part of them, and the failure is reported exactly then |
| `RlpEncode.EncReader.Next` | HNB/rlp/encode.go:306-337 | hands out the next piece without changing what remains; none exactly at the end |
| `RlpEncode.EncReader.Read` | HNB/rlp/encode.go:281-302 | with any buffer sizes the reads concatenate to the encoding; the end is reported exactly when the rest fits |
| `RlpEncode.EncodeToBytes` | HNB/rlp/encode.go:97-105 | the result is the plain recursive encoding |
| `RlpEncode.EncodeTo` | HNB/rlp/encode.go:80-93 | the writer receives the plain recursive encoding, or a front part of it when it fails; the answer says which |
| `RlpEncode.EncodeToReader` | HNB/rlp/encode.go:112-119 | the reader still has the whole plain encoding to give and the size is its length |
| `RlpStream.Advance` | HNB/rlp/decode.go:1016-1034 | reading keeps every open list within the one around it and shortens the view by what was read |
| `RlpStream.Stream.WillRead` | HNB/rlp/decode.go:1016-1034 | accounts for the bytes exactly when they are there, else says which bound was exceeded |
| `RlpStream.Stream.ReadUint` | HNB/rlp/decode.go:964-988 | the big-endian value of that many bytes, refusing a leading zero |
| `RlpStream.Stream.ReadKind` | HNB/rlp/decode.go:902-962 | takes exactly a canonical header off the input, or gives the error |
| `RlpStream.Stream.Kind` | HNB/rlp/decode.go:869-900 | kind and size of the value ahead, or the exact error; asking again changes nothing |
| `RlpStream.Stream.List` | HNB/rlp/decode.go:757-769 | enters exactly a list, whose content then is the view |
| `RlpStream.Stream.ListEnd` | HNB/rlp/decode.go:773-788 | leaves a list exactly at its end, into the enclosing one advanced past it |
| `RlpStream.Stream.Bytes` | HNB/rlp/decode.go:648-669 | the string ahead exactly when it is canonical, else the exact error |
| `RlpStream.Stream.Raw` | HNB/rlp/decode.go:672-694 | exactly the bytes of the value ahead, although its header is rebuilt |
| `RlpStream.Stream.Uint` | HNB/rlp/decode.go:703-734 | the unsigned integer ahead or the exact error |
| `RlpStream.UintRoundTrip` | HNB/rlp/encode.go:390-404 | every unsigned integer that fits is read back |
| `RlpStream.UintIsCanonical` | HNB/rlp/decode.go:703-734 | an integer is accepted only from its own encoding |
| `RlpStream.Stream.DecodeItem` | HNB/rlp/decode.go:511-533 | decodes the value ahead exactly when the input starts with an encoding, and stops right behind it |
| `RlpStream.Stream.DecodeElements` | HNB/rlp/decode.go:338-365 | decodes exactly when the rest of the list is a concatenation of encodings, to its end |
| `RlpStream.Stream.DecodeList` | HNB/rlp/decode.go:323-336 | decodes a list and returns to the enclosing one |
| `RlpStream.DecodeBytes` | HNB/rlp/decode.go:136-146 | accepts exactly the encodings, giving back the value whose encoding the input is; trailing bytes are refused |
| `RlpRaw.ShiftedSizeIsValue` | HNB/rlp/raw.go:127-156 | the shifted sum of up to eight bytes is their big-endian value |
| `RlpRaw.ReadersAgree` | HNB/rlp/raw.go:86-125 | the slice reader and the stream accept the same headers |
| `RlpRaw.SplitIsParse` | HNB/rlp/raw.go:39-45 | splitting agrees with parsing: a string in full, a list up to its content |
| `RlpRaw.SplitOfEncode` | HNB/rlp/raw.go:39-45 | an encoding followed by any tail splits into its content and that tail |
| `RlpRaw.CountValues` | HNB/rlp/raw.go:74-84 | terminates with the number of values the input is made of, or an error when it is not made of values |
| `RlpRaw.CountOfEncodeAll` | HNB/rlp/raw.go:74-84 | a concatenation of encodings is made of as many values as were encoded and no other number |
| `Merkle.FrameInjective` | HNB/ledger/merkle/types.go:33-47 | length-prefixed framing can be undone, whatever follows |
| `Merkle.UvarintSpells` | HNB/ledger/merkle/types.go:42-47 | the digits spell the number from the least significant on, and the top bit of each tells whether another follows |
| `Merkle.EncodeUvarint` | HNB/ledger/merkle/types.go:42-47 | the digits fit the ten-byte buffer and are the base-128 form |
| `Merkle.SimpleHashFromTwoHashes` | HNB/ledger/merkle/simple_tree.go:24-35 | hashes the length of the left hash as base-128 digits, the left hash, the length of the right hash and the right hash, in this order |
| `Merkle.OwnProofVerifies` | HNB/ledger/merkle/simple_proof.go:47-77 | the sibling hashes of a leaf verify against the recursive root |
| `Merkle.AcceptedOrCollision` | HNB/ledger/merkle/simple_proof.go:27-77 | a proof that names the tree's own number of leaves and is accepted at an index against the root is the leaf's own, or an input hashed by the check collides with one hashed for the tree |
| `Merkle.AcceptedShows` | HNB/ledger/merkle/simple_proof.go:27-77 | whatever total an accepted proof names: its leaf is the root of the subtree the check arrives at and its hashes are the siblings above, or the check goes on below a leaf and that leaf is the hash of an input of the check, or there is a collision |
| `Merkle.SubtreeVerifies` | HNB/ledger/merkle/simple_proof.go:47-77 | conversely the root of any subtree reached that way verifies as the leaf of a smaller tree |
| `Merkle.OwnTotal` | HNB/ledger/merkle/simple_proof.go:47-77 | with the tree's own number of leaves the check arrives exactly at the leaf, past its sibling hashes |
| `Merkle.RejectsNonsense` | HNB/ledger/merkle/simple_proof.go:47-77 | nothing is accepted outside the leaves or without a leaf |
| `Merkle.TrailsFromHashers` | HNB/ledger/merkle/simple_proof.go:111-130 | no root and no trails for no leaves; else the linked nodes lead from every leaf past exactly its sibling hashes to a root with the recursive root hash |
| `Merkle.JoinRoots` | HNB/ledger/merkle/simple_proof.go:119-129 | linking the two half trees below a new root lengthens every path by the other half's root |
| `Merkle.FlattenAunts` | HNB/ledger/merkle/simple_proof.go:93-107 | walking up collects the sibling hashes in order |
| `Merkle.SimpleProofsFromHashers` | HNB/ledger/merkle/simple_proof.go:13-23 | the recursive root, and for every leaf a proof that verifies |
| `Merkle.SimpleHashFromByteslices` | HNB/ledger/merkle/simple_tree.go:55-61 | the root over the hashes of the items, none for no items |
| `TokenLaws.StepConservesModulo` | HNB/contract/hnb/hnb.go:133-168 | whatever the amounts, a transfer, vote or release changes no coin's total but by multiples of 2^64 |
| `TokenLaws.RunConservesModulo` | HNB/contract/hnb/vote.go:45-151 | the same over every run |
| `TokenLaws.TransferKeeps` | HNB/contract/hnb/hnb.go:133-168 | an accepted transfer of any amount from a solvent state keeps it solvent exactly when it leaves the receiver with no debt, and then both totals stay |
| `TokenLaws.CastVoteKeeps` | HNB/contract/hnb/vote.go:59-151 | an accepted vote of any power from a solvent state keeps it solvent exactly when the power is not negative; then tally and records go on matching and both totals stay |
| `TokenLaws.StepConserves` | HNB/contract/hnb/vote.go:45-240 | any transaction from a solvent state leads to a solvent one exactly when it is refused, a transfer that leaves no debt, a vote of power not negative, or a release |
| `TokenLaws.RunConserves` | HNB/contract/hnb/vote.go:45-240 | over every run whose steps keep: balances plus frozen votes stay constant, each tally matches its records, and every balance stays between zero and the total |
| `TokenLaws.SolventRuns` | HNB/contract/hnb/vote.go:45-240 | the runs that stay solvent throughout are exactly those in which every step keeps |
| `TokenLaws.FairKeeps` | HNB/contract/hnb/hnb.go:133-168 | amounts and powers that are not negative always keep |
| `TokenLaws.NegativeTransfer` | HNB/contract/hnb/hnb.go:133-168 | the failing input: sending -1 after installation is accepted, puts the receiver at -1 and the sender above the supply |
| `TokenLaws.NegativeVote` | HNB/contract/hnb/vote.go:59-120 | the same for a vote of power -1 |
| `TokenLaws.SupplyIsConserved` | HNB/contract/hnb/hnb.go:76-90 | in every state reached from installation by steps that keep each coin's total is its supply of ten million |
| `TokenLaws.TransferAccepted` | HNB/contract/hnb/hnb.go:133-168 | where every entry can be read a transfer is accepted exactly when sender and receiver differ, an HGS sender exists and the amount is not above the balance; then the two balances are, wrapped to 64 bits, the old ones less and plus the amount, and no other entry changes |
| `TokenLaws.WholeBalanceMoves` | HNB/contract/hnb/hnb.go:133-168 | the whole balance can be sent, and leaves zero |
| `TokenLaws.VoteAccepted` | HNB/contract/hnb/vote.go:59-151 | where every entry can be read a vote is counted, and accepted, exactly when it names a voter and a candidate, power and epoch are not zero, and the account exists with at least that balance; then the balance is less by the power, the candidate has it more, the record is appended, and no other candidate, epoch or account changes |
| `TokenLaws.WholeBalanceVotes` | HNB/contract/hnb/vote.go:59-151 | the whole balance can be pledged, and leaves zero |
| `Overlay.Store.GetState` | HNB/ledger/stateStore/store.go:23-32 | reads the stored value whatever the cache has dropped; an error of the database is passed on exactly for what is not cached |
| `Overlay.Store.SetState` | HNB/ledger/stateStore/store.go:34-39 | writes through; the cache stays coherent whatever it evicts |
| `Overlay.Store.SetContractState` | HNB/ledger/ledger.go:50-63 | the store becomes what was seen through the changes |
| `Overlay.ContractApi.GetState` | HNB/appMgr/state.go:86-96 | a contract reads the store through its own changes, deletions included; a read fails exactly for what is neither changed nor cached |
| `Overlay.ContractApi.PutState` | HNB/appMgr/state.go:81-84 | the view changes at this key only |
| `Overlay.ContractApi.DelState` | HNB/appMgr/state.go:98-102 | the view loses this key only |
| `Overlay.ContractApi.GetAllState` | HNB/appMgr/memory_cache.go:46-52 | lists exactly the changes, in any order |
| `Contracts.HnbSame` | HNB/contract/hnb/hnb.go:133-168 | on every state, whatever cannot be fetched: accepted exactly when sender and receiver differ, both can be fetched and read, and the amount is not above the balance; then it has gone from one to the other and nothing else has changed, otherwise there is no effect |
| `Contracts.HgsSame` | HNB/contract/hgs/hgs.go:109-156 | accepted exactly when sender and receiver differ, the sender exists and can be fetched and read, the receiver can be fetched, and the amount is not above the balance; then it has gone from one to the other and nothing else has changed, if the receiver can be read; one that cannot is parsed with the error dropped: a number out of range counts as the limit of int64 |
| `Contracts.SaveTokenTotal` | HNB/contract/hnb/vote.go:59-120 | on every state: checks everything before it writes the tally and the balance; a tally that cannot be fetched is taken for success with nothing written |
| `Contracts.VotePro` | HNB/contract/hnb/vote.go:45-57 | on every state: accepted exactly when the vote is well formed, the account exists and has the balance, and tally and records fail to be fetched or can be read; when both are fetched the power has then gone from the balance to the candidate and to the records and nothing else has changed; each half left out, and still accepted, when its entry cannot be fetched; the first half alone, and a refusal, when the records cannot be read |
| `Contracts.UnFreezePro` | HNB/contract/hnb/vote.go:205-240 | on every state: the flat release, and the epoch forgotten; nothing, and accepted, when the records cannot be fetched; at an account that cannot be fetched or read a refusal, with the votes before it returned |
| `Contracts.Invoke` | HNB/contract/hnb/hnb.go:261-301 | on every state, whatever cannot be fetched: accepted as the flat semantics says, and what is left behind, accepted or refused, is the flat effect |
| `Contracts.EffectLocal` | HNB/appMgr/manager.go:151-170 | what a transaction does to its contract, and whether it is accepted, depends only on that contract's entries |
| `Contracts.EffectOther` | HNB/appMgr/manager.go:151-170 | a transaction leaves the other contract alone |
| `Refusals.RefusedEffect` | HNB/contract/hnb/vote.go:45-240 | for every state and transaction a refusal has an effect exactly for a vote that can be counted in an epoch whose records cannot be read, and for a release that meets an unreadable account after returning votes to an account that was missing or whose votes do not cancel out modulo 2^64 |
| `Refusals.SpoiledVote` | HNB/contract/hnb/vote.go:45-57 | such a vote: refused, and the voter has lost the coin |
| `Refusals.SpoiledRelease` | HNB/contract/hnb/vote.go:219-228 | such a release: refused, and the first voter has been paid |
| `Refusals.WellFormedIsSafe` | HNB/appMgr/manager.go:166-174 | where every entry can be read a refusal has no effect |
| `Refusals.UnspoiledRuns` | HNB/appMgr/manager.go:151-180 | a run does at every point what its transactions are meant to do exactly when no step of it is such a refusal |
| `Refusals.ReleaseMoves` | HNB/contract/hnb/vote.go:219-228 | returning votes changes the state exactly when an account is new or its votes do not cancel out |
| `Faults.NoFaults` | HNB/contract/hnb/vote.go:45-240 | when every entry can be fetched acceptance and effect are those without faults |
| `Faults.FaultyStepConserves` | HNB/contract/hnb/vote.go:45-240 | whatever cannot be fetched, a step keeps the totals modulo 2^64 exactly when it is not a vote for which just one of tally and records fails, nor a release stopped at an account after votes that do not cancel out |
| `Faults.FaultyRunsConserve` | HNB/contract/hnb/vote.go:45-240 | over every run with any faults the supply is kept throughout exactly when no step is such a step |
| `Faults.FreeVote` | HNB/contract/hnb/vote.go:83-86 | such a step: a vote whose tally cannot be fetched is accepted and recorded without being charged, and the total grows by its power |
| `Blocks.InvokeWithSnapshot` | HNB/appMgr/manager.go:166-174 | on every state, whatever the database fails to read: restoring the live change set after a refusal restores nothing, so the effect of the refused transaction stays |
| `Blocks.Flush` | HNB/appMgr/manager.go:183-185 | flushing the overlays in any order yields the flat state |
| `Blocks.RunTxs` | HNB/appMgr/manager.go:151-179 | the overlays together follow the flat run, given what the database failed to read in each transaction; an unknown contract stops the block |
| `Blocks.Ledger.WriteLedger` | HNB/ledger/ledger.go:65-113 | state, nonces and height are written together or, for the wrong height, not at all |
| `Blocks.Ledger.BlockProcess` | HNB/appMgr/manager.go:142-191 | on every store: the ledger ends with the effects of the transactions one by one on a flat map, given what the database failed to read, which is never a cached entry; without failures, and where every entry can be read, as if they had run with refused ones skipped; each sender stands at the nonce of its last transaction plus one, modulo 2^64, and every other nonce is unchanged |
| `Blocks.NoncesFollow` | HNB/appMgr/manager.go:142-191 | writing the nonces in order leaves each sender one past its last transaction and all others where they were |
| `Blocks.Ledger.UnfreezeToken` | HNB/appMgr/manager.go:193-224 | on every store: releases the epoch, or is refused and leaves the store alone |
| `Keccak.KeccakF1600` | HNB/bccsp/sha3/keccakf.go:39-412 | the in-place, four-rounds-at-a-time loop is the 24 rounds of FIPS 202 on every state |
| `Keccak.Round1` | HNB/bccsp/sha3/keccakf.go:48-137 | with lanes in their own places, one round, the result in the next layout |
| `Keccak.Round2` | HNB/bccsp/sha3/keccakf.go:139-228 | one round from the first permuted layout to the second |
| `Keccak.Round3` | HNB/bccsp/sha3/keccakf.go:230-319 | one round from the second permuted layout to the third |
| `Keccak.Round4` | HNB/bccsp/sha3/keccakf.go:321-410 | one round that brings every lane back to its own place |
| `Keccak.RoundDone` | HNB/bccsp/sha3/keccakf.go:48-137 | five rows written in place are theta, rho, pi, chi and iota of the state the layout stands for |
| `Keccak.ParityByPosition` | HNB/bccsp/sha3/keccakf.go:49-58 | adding columns by position gives the parities in every layout |
| `Keccak.ViewPlain` | HNB/bccsp/sha3/keccakf.go:46-411 | after four rounds the layout is the plain one |
| `Keccak.OffsetsFollowWalk` | HNB/bccsp/sha3/keccakf.go:60-137 | the rotation table is the one FIPS 202 defines by its walk |
| `Keccak.RoundConstantsFollowRegister` | HNB/bccsp/sha3/keccakf.go:10-35 | the table of round constants is what the shift register of section 3.2.5 of FIPS 202 puts out |
| `Keccak.StepMappings` | HNB/bccsp/sha3/keccakf.go:48-137 | theta, rho, pi, chi and iota lane by lane as FIPS 202 writes them, with coordinates modulo 5 |
| `LaneBits.RotlBits` | HNB/bccsp/sha3/keccakf.go:60-137 | rotating a lane by k moves every bit up by k places modulo 64 |
| `LaneBits.ThetaBits` | HNB/bccsp/sha3/keccakf.go:48-67 | theta bit by bit, section 3.2.1 of FIPS 202: each bit is flipped by the parities of the column to the left and of the column to the right one bit below |
| `LaneBits.RhoBits` | HNB/bccsp/sha3/keccakf.go:60-137 | rho bit by bit, section 3.2.2: bits move up their lane by the offset, modulo 64 |
| `LaneBits.PiBits` | HNB/bccsp/sha3/keccakf.go:60-137 | pi bit by bit, section 3.2.3 |
| `LaneBits.ChiBits` | HNB/bccsp/sha3/keccakf.go:67-137 | chi bit by bit, section 3.2.4: a bit is flipped when the next in its row is 0 and the one after is 1 |
| `LaneBits.IotaBits` | HNB/bccsp/sha3/keccakf.go:67-137 | iota bit by bit, section 3.2.5: only lane (0, 0) changes, by the round constant |
| `Sponge.ToLaneBits` | HNB/bccsp/sha3/xor_generic.go:12-20 | bit i of byte k is bit 8k + i of the lane made of eight bytes, as section 3.1.2 and appendix B.1 of FIPS 202 order them |
| `Sponge.FromLaneBits` | HNB/bccsp/sha3/xor_generic.go:23-28 | bit i of byte k of a lane is its bit 8k + i |
| `Sponge.BytesBack` | HNB/bccsp/sha3/xor_generic.go:12-28 | bytes made a lane and back are the same bytes |
| `Sponge.LaneBack` | HNB/bccsp/sha3/xor_generic.go:12-28 | a lane made bytes and back is the same lane |
| `Sponge.AddBlockBits` | HNB/bccsp/sha3/xor_generic.go:12-20 | absorbing a block flips exactly the state bits that the set bits of its whole lanes fall on, bit i of byte 8j + k on bit 8k + i of lane j |
| `Sponge.LaneBytesBits` | HNB/bccsp/sha3/xor_generic.go:23-28 | bit i of byte 8j + k that is put out is bit 8k + i of lane j |
| `Sponge.XorIn` | HNB/bccsp/sha3/xor_generic.go:12-20 | adds the lanes of the block to the state, which AddBlockBits says bit by bit |
| `Sponge.CopyOut` | HNB/bccsp/sha3/xor_generic.go:23-28 | writes the bytes of the lanes, which LaneBytesBits says bit by bit |
| `Sponge.TailFilled` | HNB/bccsp/sha3/sha3.go:125-157 | completing a block absorbs it; nothing else of the input matters |
| `Sponge.TailLonger` | HNB/bccsp/sha3/sha3.go:125-157 | bytes short of a block only wait |
| `Sponge.State.Write` | HNB/bccsp/sha3/sha3.go:125-157 | however the input is split over writes, the state is that of the concatenation |
| `Sponge.State.PadAndPermute` | HNB/bccsp/sha3/sha3.go:98-121 | pads with domain bits and the two padding bits and turns to the output of the whole message |
| `Sponge.PadBits` | HNB/bccsp/sha3/sha3.go:98-121 | for the domain bytes of SHA-3, SHAKE and Keccak the padding is, in bits, the domain bits followed by 1 0* 1 |
| `Sponge.State.SqueezeSome` | HNB/bccsp/sha3/sha3.go:169-178 | hands out the next bytes and refills a dry buffer |
| `Sponge.State.Read` | HNB/bccsp/sha3/sha3.go:160-181 | however the output is split over reads, it is the one-shot output of the message |
| `Sponge.State.Clone` | HNB/bccsp/sha3/sha3.go:66-75 | for every state: a copy that shares nothing; of an object that has given output it is the state of 168 - rate bytes before, so the current one exactly at rate 168, and it cannot be made exactly when fewer than 168 - rate bytes of the current block, counted from the bytes given, are out |
| `Sponge.CopyForgets` | HNB/bccsp/sha3/sha3.go:66-75 | a SHAKE256 object read for 32 bytes: its copy has given nothing and will give those bytes again |
| `Sponge.CopyFails` | HNB/bccsp/sha3/sha3.go:66-75 | a SHAKE256 object read for fewer bytes: no copy can be made |
| `Sponge.State.Sum` | HNB/bccsp/sha3/sha3.go:185-192 | the digest of everything written so far, leaving the state as it was; after output the bytes that follow the state of the copy |
| `Sync.ProcessRequestBlocks` | HNB/sync/syncHandler.go:28-61 | for every request, with its length computed in uint64: all blocks in order, or none exactly when one is missing; nil blocks only when it begins past its end; and a panic exactly when the slice cannot be made or the counter runs over its end |
| `Sync.SyncChain.Await` | HNB/sync/syncHandler.go:116-134 | a reply that is read was left over from before the request or carries the version of the latest request, and so does every reply left in the channel; a delivered reply of that version is read |
| `Sync.TakenReply` | HNB/sync/syncHandler.go:287-306 | a reply that spans the window is that window of the chain |
| `Sync.SyncChain.GetRemoteBlocks` | HNB/sync/syncHandler.go:202-339 | under any pattern of timeouts, halvings, resends and late replies: blocks of the chain from the first one asked for, at most a full window, and within the window asked for unless half the interval exceeds it; when the reply is delivered without a timeout the window asked for comes back, and after up to four timeouts in a row the halved window, behind whatever is left over in the channel; none after a refusal left over |
| `Sync.SyncChain.NextWindow` | HNB/sync/syncBlock.go:86-101 | the window to ask for, with the unsigned difference as it is |
| `Sync.SyncChain.SyncBlock` | HNB/sync/syncBlock.go:83-162 | the blocks handed on are begin, begin + 1, ... each once and in order, to the end asked for when it finishes, and never a full window beyond; for every way of losing up to four replies in each window, from any channel without refusals, it finishes, with the block reached computed by Reach; with exactly end - begin + 1 blocks when none is lost; none beyond the end, whatever happens, when the largest window is below four, or one block is asked for and the first interval is below four |
| `Sync.PromptReach` | HNB/sync/syncBlock.go:83-162 | when no reply is lost the windows add up to exactly the blocks asked for |
| `Sync.PromptScript` | HNB/sync/syncBlock.go:83-162 | what happens then: for each window its own blocks are delivered and read, the first of the interval kept for the peer, the others of the largest size, the last shorter |
| `Sync.PromptDownload` | HNB/sync/syncBlock.go:83-162 | a fresh handler whose requests are all answered at once hands on exactly the blocks asked for and finishes |
| `Sync.ReachBeyond` | HNB/sync/syncHandler.go:202-339 | unless the download is bounded, losing one or three replies in each window takes it beyond its end, so the condition for never going beyond is exact |
| `Sync.SyncChain.BlockSyncProcess` | HNB/sync/syncBlock.go:40-80 | the same for a request to download, which clears the stop signals and not the replies of earlier downloads; nothing is handed on when a refusal is left over first |
| `Sync.GoBeyond` | HNB/sync/syncHandler.go:202-339 | every download of a fresh handler with windows of four or more can be driven beyond its end by an honest peer and lost replies |
| `Sync.ScriptIsHonest` | HNB/sync/syncHandler.go:28-61 | the events of such a download hold only replies the peer gives |
| `ForkSearch.FloorOfSample` | HNB/consensus/algorand/msgHandler/forksearch.go:241-253 | the sampling formula over the reals is integer division |
| `ForkSearch.RoundedIsExact` | HNB/consensus/algorand/msgHandler/forksearch.go:247-252 | with every operation rounded to 53 bits the formula still gives that integer, for blocks up to 2^44 |
| `ForkSearch.GenSamples` | HNB/consensus/algorand/msgHandler/forksearch.go:231-256 | ascending samples from the first to the last block of the range with bounded steps |
| `ForkSearch.GetForkPointInterval` | HNB/consensus/algorand/msgHandler/forksearch.go:146-180 | the last sample whose local hash is the one sent at its place and the next sample, (1, 1) when there is none; a crash exactly when the reply is too short for a sample with a local block |
| `ForkSearch.BoundIsExact` | HNB/consensus/algorand/msgHandler/forksearch.go:114-143 | above 25089 local blocks, for every local chain, a peer whose chain is the same but ends at the last sample but one makes the search answer block 1, so the bound is exact |
| `ForkSearch.SearchFork` | HNB/consensus/algorand/msgHandler/forksearch.go:51-144 | with replies to other jobs ignored: ends with an agreed block, the first one or less than 50 below the last common one, always the latter up to 25089 local blocks; the first arrival that is the timer, a second reply to an answered round, or the reply to the last of its rounds ends it, and without one it goes on waiting; so there is an answer as soon as one reply per round, a single one up to 25089 local blocks, has come before the timer; a second reply to an earlier request of the job ends it with block 1, where hashes tell block numbers |
| `ForkSearch.RoundsBounded` | HNB/consensus/algorand/msgHandler/forksearch.go:114-143 | whatever the two chains are, the number of rounds is bounded by the width of the range alone, and is one up to 25089 blocks |
| `ForkSearch.LevelsLogarithmic` | HNB/consensus/algorand/msgHandler/forksearch.go:114-143 | that bound is the logarithm of the width to base 512 |

## Left out

- Prque.Remove and the index callback of the stack: the eviction does not use them.
- Heartbeats: which accounts are idle, and the order in which the queue eviction visits accounts, are arbitrary.
- The journal, statistics, notification channels and mutexes of the pool: operations are atomic steps.
- validateTx: its verdict is an input of every submission.
- Configurations with AccountSlots 0, or with GlobalSlots + GlobalQueue of 2^63 or more.
- container/heap and sort are functions on sequences (`Ordering`), not swaps in place, except in `Prque`.
- The order in which Go iterates over maps is arbitrary in the model.
- RLP reflection, struct tags and the type cache: values are nested byte strings and lists, and unsigned integers.
- RlpStream.Stream.WillRead: the input is a byte slice with its length as limit; streams without a limit, and short reads, are not modelled.
- RlpStream.Stream.Kind: the same.
- RlpEncode.EncReader: a piece is a value, not a slice that aliases the scratch buffer; a list header handle is its index.
- RlpEncode.EncBuf.EncodeItem and the other encoders: encodings of 2^64 bytes or more are not modelled.
- Merkle trees over key-value maps (simple_map.go): they add only sorting before the same root.
- Merkle.TrailsFromHashers: hashes are shorter than 2^64 bytes.
- Cross-coin transfers (DIFF): their two amounts are independent inputs and each contract has its own overlay.
- JSON and decimal formatting: state values are typed, a value of the wrong type stands for one that does not parse, and a number beyond int64 has a value of its own; account keys are distinct from epoch keys.
- Blocks.Ledger.WriteLedger: the block store, the hash index and the rollback after a failed write; also the wrong-transaction index and the state hash of BlockProcess.
- GetVoteTokenOrder and GetVoteSum: read-only queries.
- Sponge.State.Write after output has been read: the source panics.
- The unaligned and assembly variants of the lane operations and of the permutation.
- Sync.SyncChain.SyncBlock: with a refusal left over behind other replies it is not stated whether the download can go beyond its end; that it finishes is stated when each window is delivered after at most four timeouts, without stop signals; blocks beyond number 2^64 - 1 are numbered on, not wrapped.
- Sync.ProcessRequestBlocks: the longest slice the run-time can make is a parameter.
- Choosing a random peer, waiting for neighbours and stopping between downloads.
- ForkSearch.GenSamples: real arithmetic; above block 2^44, where 64-bit floating point rounds (`RoundedIsExact`), samples may differ by rounding.
- ForkSearch.SearchFork: replies unmarshal and come from the peer's own chain.
- The Tendermint-style and DBFT consensus engines, networking, REST, command line, databases, key stores and signature schemes.
