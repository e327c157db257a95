# Uranus core, modelled and proved in Dafny

This project models the state machinery of the Uranus node and proves what that machinery is for:
the RLP codec, the Merkle Patricia trie with its hashing, storage, garbage collection, download and
iteration, the journalled state database, the canonical chain, delegated-proof-of-stake confirmation
and election, the event feed, the per-account transaction lists and block execution.

`dafny verify dfyconfig.toml` checks the whole project (Dafny 4.11).

## Layout

| file | what it models |
|---|---|
| `Bytes.dfy`, `Collections.dfy`, `MapSum.dfy` | bytes, big-endian numbers, finite sets, sums over finite maps |
| `RlpSpec.dfy`, `RlpEncoder.dfy`, `RlpStream.dfy` | RLP by definition, the two-pass encoder, the streaming decoder |
| `HexPrefix.dfy` | key bytes, nibbles and the compact key form |
| `Patricia.dfy` | the trie as a tree of values: lookup, insertion, deletion, normal form |
| `NodeCodec.dfy`, `TrieHasher.dfy`, `Trie.dfy` | stored node blobs, hashing and unloading, the trie over a node store |
| `TrieWalk.dfy`, `TrieIterator.dfy` | the order of a trie walk and the iterator that follows it |
| `TrieDatabase.dfy` | the reference-counted node cache |
| `TrieSync.dfy`, `SyncRoles.dfy`, `SyncLoss.dfy`, `SyncOrder.dfy`, `SyncCodec.dfy` | the state download, when it is whole, how it can lose a subtree, which order of answers loses what, and its nodes as the trie stores them |
| `Journal.dfy`, `StateDb.dfy`, `Persistence.dfy` | the journal as a machine, the state database that follows it, and what transactions leave in the trie |
| `BlockChain.dfy`, `Confirmation.dfy`, `MintCount.dfy`, `Election.dfy` | fork choice, confirmation, mint counters and weights, election |
| `Feed.dfy`, `NonceHeap.dfy`, `TxList.dfy`, `Executor.dfy` | event feed, transaction lists, block execution |

Objects the source changes in place are classes; what a method does is stated against a function of
the old state, and the laws are lemmas about those functions. Hashing is a function parameter, and
freedom from collisions is asked only of the finite set of blobs at hand. Random numbers, clocks,
schedules, write failures and the virtual machine are parameters, so results hold for all of them.

Where the code does not keep a property, the model keeps the code and states the exact condition:

- An unlocking time is written without a journal entry, so going back to a snapshot restores everything
  else and restores the unlocking times exactly if each was last moved to where it had been
  (`Journal.RevertRestores`, `Journal.DoUndo`, `Journal.MovedTimeStays`).
- Decoding a compact key and encoding it again is the identity exactly on canonical keys
  (`HexPrefix.CompactReencodes`).
- Staking transactions of senders too poor for the fee are counted gas that was never taken from the pool;
  gas left and gas used add up to the limit plus exactly that gas (`Executor.BlockConserves`), as one such
  transaction shows (`Executor.UnpaidGasIsCounted`).
- Clearing accounts away after a transaction loses nothing exactly if the accounts that go hold nothing
  (`Executor.NothingLost`). A transaction with the last nonce, 2^64 - 1, sets its sender's nonce to zero. If it also
  leaves its sender nothing to spend, the account counts as empty and its stake goes with it. From a sound state that
  is the only way to lose funds beyond the fee: `Executor.TxForfeits` gives the amount lost, `Executor.StakingForfeits`
  the condition before a staking transaction is run, `Executor.BinaryForfeits` the condition in terms of what running
  the code leaves its sender, `Executor.StakeCanBeLost` an input.
- The state download takes each hash in the role it is first asked for in: as code, as a storage node or as an account
  node. What it ends with is what those roles lead to (`SyncRoles.DownloadedExactly`). That is the whole trie if roles
  make no difference to what an entry needs (`SyncRoles.Finished`). An entry is there at the end of every download,
  whatever of the trie was there before, exactly if it is led to whichever of its roles each hash is taken in
  (`SyncRoles.SureExactly`). Into an empty database, a download takes the roles of a plain walk of the trie that visits
  hashes in the order they are answered in, so an entry can be lost exactly if some such walk leaves it out
  (`SyncOrder.LoseByWalk`, `SyncOrder.LostByWalk`). It can if every way to it leads through a hash that can be asked for
  first in another role (`SyncLoss.LoseSubtree`), like the code of a contract that is the storage root of another
  account (`SyncLoss.SubtreeIsLost`).
- Finalising a transaction writes the accounts the journal marks as changed. Of every other account the trie holds what
  readers see exactly if it did before (`StateDb.WrittenExactly`). Told from the run: an account that was written and
  has been neither marked nor made anew since is still there as readers see it exactly if its unlocking time was left
  alone or last moved to where it had been (`Persistence.WrittenSince`). An account made anew over one that is there is
  not marked; the trie is right about it exactly if it had nothing but a balance and the time is the one stored
  (`Persistence.UnmarkedExactly`). Otherwise it is wrong (`StateDb.RecreatedIsNotWritten`).
- The weight of a block is stored before its state is committed, so a failed commit leaves a weight without its block. A
  better block that is no child of the head is refused exactly if one of its ancestors has not been written
  (`BlockChain.Chain.WriteBlockWithState`, `BlockChain.GapIsRefused`).

## Model

| member | source | states |
|---|---|---|
| RlpSpec.DecodeComplete | common/rlp/decode.go:144-158 | for every nested value, decoding any bytes that begin with its encoding gives back the value and the length of the encoding |
| RlpSpec.DecodeSound | common/rlp/decode.go:144-158 | whatever is decoded re-encodes to exactly the bytes consumed, so there is one encoding per value |
| RlpSpec.DecodeAllSound | common/rlp/decode.go:350-377 | a run of values that is decoded re-encodes to the whole input |
| RlpSpec.EncodePrefixFree | common/rlp/encode.go:80-110 | no encoding is a proper prefix of another: two values encoded at the front of the same bytes are equal |
| RlpSpec.SplitOfEncoding | common/rlp/raw.go:39-72 | splitting an encoding gives its kind, its payload and what follows; a list payload counts as many values as the list has |
| RlpSpec.CountOfEncodings | common/rlp/raw.go:74-84 | counting concatenated encodings gives their number |
| RlpSpec.CountValues | common/rlp/raw.go:74-84 | the consuming loop counts as the recursive definition does, errors included |
| RlpEncoder.TwoPassesEncode | common/rlp/encode.go:211-246 | string data with the recorded headers put in at their offsets is the recursive encoding, for every nested value |
| RlpEncoder.SizeOfEncoding | common/rlp/encode.go:226-228 | the size announced is the length of the encoding |
| RlpEncoder.IntSize | common/rlp/encode.go:643-649 | the number of bytes of an integer without leading zeros |
| RlpEncoder.PutInt | common/rlp/encode.go:585-640 | writes the big-endian bytes at their place and nothing else, in bounds |
| RlpEncoder.PutHead | common/rlp/encode.go:150-158 | writes the header of a string or list at its place and nothing else |
| RlpEncoder.EncBuf.WriteString | common/rlp/encode.go:190-209 | appends the encoding of a string, single bytes without a header |
| RlpEncoder.EncBuf.EndList | common/rlp/encode.go:217-224 | patches the size of the list being ended into its header, and counts the header's own size |
| RlpEncoder.EncBuf.WriteValue | common/rlp/encode.go:181-224 | any nested value leaves its string data and its headers with the right offsets and sizes, appended to what was there |
| RlpEncoder.EncBuf.ToBytes | common/rlp/encode.go:230-246 | the buffer of the announced size is filled exactly with data and headers interleaved |
| RlpEncoder.EncBuf.ToWriter | common/rlp/encode.go:248-272 | a writer gets the same bytes in order; a writer that gives up early has got a prefix |
| RlpEncoder.EncodeToBytes | common/rlp/encode.go:97-110 | the result is the recursive encoding |
| RlpEncoder.EncodeToWriter | common/rlp/encode.go:80-95 | what is written is the recursive encoding, or its prefix if the writer fails |
| RlpEncoder.EncReader.Next | common/rlp/encode.go:306-337 | finding the next piece loses nothing of what is still to come, and finds none only at the end |
| RlpEncoder.EncReader.Read | common/rlp/encode.go:281-304 | any sequence of reads of any sizes delivers the encoding in order; the end is reported once all of it fitted |
| RlpStream.TagsAgree | common/rlp/decode.go:915-975 | the stream accepts the headers the slice reader accepts, and besides only one-byte strings below 128 |
| RlpStream.TagSplits | common/rlp/raw.go:39-47 | the splitter's answer is the one told from the stream's tag, errors included |
| RlpStream.Stream.ReadUint | common/rlp/decode.go:977-1001 | reads a number of any width up to eight bytes, refuses leading zeros and short input, and leaves the cursor behind it |
| RlpStream.Stream.NextKind | common/rlp/decode.go:882-913 | reports the value ahead, end of list exactly at the end of a list, an error for anything that does not fit the window; asking again changes nothing |
| RlpStream.Stream.ReadBytes | common/rlp/decode.go:660-682 | accepts and returns what the slice reader's string splitter does |
| RlpStream.Stream.OpenList | common/rlp/decode.go:769-783 | accepts what the list splitter does; from then on exactly the list's content is visible |
| RlpStream.Stream.CloseList | common/rlp/decode.go:785-803 | closes a list only at its end, and charges its size to the list outside |
| RlpStream.Stream.DecodeInterface | common/rlp/decode.go:523-547 | decodes into a nested value exactly what the recursive decoder accepts, to the same value and position |
| RlpStream.Stream.DecodeSliceElems | common/rlp/decode.go:350-377 | decodes elements to the end of the list, as the recursive decoder does |
| RlpStream.DecodeBytes | common/rlp/decode.go:144-158 | accepts exactly one value with nothing behind it |
| RlpStream.AcceptedBytesAreEncodings | common/rlp/decode.go:144-158 | bytes decode to a value with nothing left over if and only if they are its encoding |
| HexPrefix.KeybytesRoundTrip | common/mtp/util.go:48-71 | key bytes survive the trip through nibbles |
| HexPrefix.ValidKeysPrefixFree | common/mtp/util.go:48-59 | no terminated key is a proper prefix of another |
| HexPrefix.CompactRoundTrip | common/mtp/util.go:19-46 | the compact form of every nibble key, with or without terminator, decodes back to it |
| HexPrefix.CompactReencodes | common/mtp/util.go:19-46 | decoding then encoding is the identity exactly on canonical compact keys |
| HexPrefix.ComputePrefixLen | common/mtp/util.go:80-92 | the loop finds the length of the longest common prefix |
| HexPrefix.ComputeKeybytesToHex | common/mtp/util.go:48-59 | the buffer is filled with the nibbles and the terminator |
| HexPrefix.DecodeNibbles | common/mtp/util.go:73-78 | packs nibbles two to a byte in place and leaves the bytes before alone |
| HexPrefix.ComputeHexToCompact | common/mtp/util.go:19-34 | the buffer is filled with the flag nibble and the packed key |
| Patricia.GetInsert | common/mtp/trie.go:236-304 | after an insertion lookup gives the value at that key and is unchanged at every other |
| Patricia.InsertIsCanonical | common/mtp/trie.go:236-304 | insertion keeps the normal form: no short under short, full nodes with two entries, terminated keys |
| Patricia.GetDelete | common/mtp/trie.go:330-437 | after a deletion lookup finds nothing at that key and is unchanged at every other |
| Patricia.DeleteIsCanonical | common/mtp/trie.go:330-437 | deletion keeps the normal form, through collapsing full nodes and merging short ones |
| Patricia.ScanChildren | common/mtp/trie.go:379-389 | the scan finds the only entry left of a full node, or that there are more |
| Patricia.NormalFormIsUnique | common/mtp/trie.go:236-437 | two tries in normal form with the same contents are the same tree |
| Patricia.RunRefinesMap | common/mtp/trie.go:201-328 | after any history of updates and deletions a trie answers as the map of the same history does |
| Patricia.HistoryDoesNotMatter | common/mtp/trie.go:201-328 | histories with the same final contents give the same tree |
| NodeCodec.DecodeInvertsEncode | common/mtp/node.go:116-202 | decoding the stored blob of any node gives back the node, with its larger children as hashes |
| TrieHasher.EqualItems | common/mtp/hasher.go:102-211 | nodes with the same encoding are the same subtree, as far as their blobs do not collide |
| TrieHasher.RootsDiffer | common/mtp/hasher.go:56-100 | the root hash tells two tries apart exactly if they differ, as far as their blobs do not collide |
| TrieHasher.StoreIsRight | common/mtp/hasher.go:152-211 | small nodes stay embedded unless forced, others become hashes whose blobs are stored when committing |
| TrieHasher.HashTreeIsRight | common/mtp/hasher.go:56-147 | hashing gives the hash computed from scratch whatever was cached, keeps the tree that the nodes stand for through caching and unloading, and when committing stores all of it |
| Trie.ResolveIsRight | common/mtp/trie.go:453-463 | a hash node that stands for a subtree loads as a node that stands for it |
| Trie.TryGetIsRight | common/mtp/trie.go:157-198 | lookup through cached, embedded and hash nodes gives the tree's answer, and the nodes loaded on the way stand for the same tree |
| Trie.InsertNodeIsRight | common/mtp/trie.go:236-304 | insertion into nodes gives nodes that stand for the tree with the key inserted, and reports a change exactly if there is one |
| Trie.ReduceNodeIsRight | common/mtp/trie.go:376-413 | a full node losing an entry collapses as the tree does, loading the last entry to merge short nodes |
| Trie.DeleteNodeIsRight | common/mtp/trie.go:330-437 | deletion from nodes gives nodes that stand for the tree with the key deleted |
| Trie.Trie.constructor | common/mtp/trie.go:96-113 | opening a stored root gives the trie that was committed under it |
| Trie.Open | common/mtp/trie.go:96-113 | opening fails exactly if the root is missing from the store; no root and the root of nothing give the empty trie, any other the trie committed under it |
| Trie.Trie.Lookup | common/mtp/trie.go:145-155 | the value the contents have under the key |
| Trie.Trie.TryUpdate | common/mtp/trie.go:215-234 | inserts, or deletes when the value is empty |
| Trie.Trie.Hash | common/mtp/trie.go:469-473 | the root hash depends on the contents alone, and nothing is stored |
| Trie.Trie.Commit | common/mtp/trie.go:477-511 | every node of the trie is in the store afterwards, and nothing stored before is lost; the generation counts up in sixteen bits |
| Trie.CommitAndReopen | common/mtp/trie.go:96-113 | committing and opening the returned root gives back the same trie |
| TrieWalk.WalkAscends | common/mtp/iter.go:218-235 | a walk visits strictly increasing paths |
| TrieWalk.WalkMeetsContents | common/mtp/iter.go:218-354 | the walk meets a key with a value exactly if lookup finds it |
| TrieIterator.NodeIterator.NextChild | common/mtp/iter.go:304-340 | finds the next entry of the node on top of the stack, in order, or that there is none |
| TrieIterator.NodeIterator.Peek | common/mtp/iter.go:256-290 | finds where the walk goes on, below the node or behind it, popping what is done |
| TrieIterator.NodeIterator.Next | common/mtp/iter.go:218-235 | moves exactly one step along the walk, below the current node or past it as asked, and ends exactly at its end |
| TrieIterator.NodeIterator.SkippedBelow | common/mtp/iter.go:256-290 | not descending leaves out exactly what lies below the current node |
| TrieIterator.PairsFrom | common/mtp/iter.go:44-57 | seeking a key and collecting pairs yields each stored key at or after it once, ascending, with its value, and no other |
| TrieIterator.NodeIterator.Seek | common/mtp/iter.go:237-253 | leaves exactly the part of the walk at or after the key |
| TrieIterator.NextPair | common/mtp/iter.go:44-57 | hands out the leaves of the rest of the walk one by one, in order |
| TrieIterator.NextPairWithPrefix | common/mtp/iter.go:490-552 | hands out the leaves up to the first path without the prefix |
| TrieIterator.IterationFromKey | common/mtp/trie.go:116-123 | iterating from a key yields each stored key at or after it once, ascending, with its value, and no other |
| TrieIterator.IterationOfPrefix | common/mtp/trie.go:125-131 | iterating over a prefix yields exactly the stored keys with the prefix, ascending |
| TrieIterator.PairsWithPrefix | common/mtp/iter.go:469-552 | seeking a prefix and collecting pairs yields each stored key with the prefix once, ascending, with its value, and no other |
| TrieDatabase.ReachableIsAvailable | common/mtp/database.go:130-141 | every node below a root that is still referenced can be read, from memory or from disk |
| TrieDatabase.CommittedIsComplete | common/mtp/database.go:312-334 | a disk that keeps its children holds the whole of every trie whose root it holds |
| TrieDatabase.NoGarbage | common/mtp/database.go:223-245 | without unreferenced nodes, memory holds only what a root leads to, or what is on disk too |
| TrieDatabase.AdjustKeeps | common/mtp/database.go:192-245 | counting a reference up or down at both ends keeps all counts exact |
| TrieDatabase.DropKeeps | common/mtp/database.go:235-244 | a node nobody counts on, or one that is on disk, can be dropped without breaking what others rely on |
| TrieDatabase.WriteKeeps | common/mtp/database.go:312-334 | writing a node after its children keeps the disk closed |
| TrieDatabase.Database.Node | common/mtp/database.go:130-141 | the blob of every available node, and nothing for others |
| TrieDatabase.Database.InsertNode | common/mtp/database.go:105-114 | puts a node in unless it is known and accounts for its size |
| TrieDatabase.Database.AddReference | common/mtp/database.go:192-204 | counts a reference once between nodes and each time from the root; nodes only on disk are not counted |
| TrieDatabase.Database.Store | common/mtp/hasher.go:172-193 | a node committed to the cache after its children keeps the invariant |
| TrieDatabase.Database.Dereference | common/mtp/database.go:223-245 | taking a reference back removes what nothing refers to any more and only that, leaves no new unreferenced node, and keeps the size exact |
| TrieDatabase.Database.CommitNode | common/mtp/database.go:312-334 | writes children before parents, flushing as the batch grows; if a write fails the disk still holds the children of all it holds |
| TrieDatabase.Database.Uncache | common/mtp/database.go:340-352 | removes from memory only nodes that are on disk |
| TrieDatabase.Database.Commit | common/mtp/database.go:251-309 | moves a trie to disk; whether it succeeds or a write fails, exactly the nodes that could be read before can be read after |
| TrieSync.ScheduleKeeps | common/mtp/sync.go:238-247 | a request joined or made keeps dependencies counted exactly |
| TrieSync.LastNotification | common/mtp/sync.go:322-329 | a request whose last dependency completes has everything it needs |
| TrieSync.RemoveKeeps | common/mtp/sync.go:313-330 | completing a request owes each of its parents one notification |
| TrieSync.FlushKeeps | common/mtp/sync.go:216-228 | after any number of writes in the recorded order the database holds what its entries need |
| TrieSync.AskKeepsGround | common/mtp/sync.go:251-308 | every hash asked for is led to from the root through entries in the roles they were taken in |
| TrieSync.Sync.constructor | common/mtp/sync.go:82-91 | a download starts with the root asked for unless it is empty or known, and with no other request |
| TrieSync.Sync.AddSubTrie | common/mtp/sync.go:94-123 | asks for a trie unless it is empty or known, makes the node being processed wait for it, and takes it as a node only if it was not asked for before |
| TrieSync.Sync.AddRawEntry | common/mtp/sync.go:129-156 | asks for code unless it is empty or known, makes the node being processed wait for it, and takes it as code only if it was not asked for before |
| TrieSync.Sync.Schedule | common/mtp/sync.go:238-247 | adds a request, or only its parents to one already pending, in whatever role that is |
| TrieSync.Sync.OnLeaf | core/state/sync.go:28-41 | an account leaf makes its storage trie and then its code known, or waited for, each taken in the first role the node refers to it in |
| TrieSync.Sync.ExamineChildren | common/mtp/sync.go:251-308 | every child of a processed node is known, waited for or among those returned, and an undecodable account is reported |
| TrieSync.Sync.CommitRequest | common/mtp/sync.go:313-330 | a completed request and all parents it completes are listed once each, after everything they need, and no data is lost |
| TrieSync.Sync.ProcessNode | common/mtp/sync.go:188-211 | data of a trie node is stored if nothing is missing below it, or held until that has come; new hashes are asked for in the roles the node gives them |
| TrieSync.Sync.Process | common/mtp/sync.go:170-212 | data is taken up to the first item refused, with the reason; exactly the hashes taken are held besides those held before |
| TrieSync.Sync.Flush | common/mtp/sync.go:216-228 | writes in order; a failed write loses nothing and leaves the database closed |
| TrieSync.Sync.Missing | common/mtp/sync.go:159-165 | hands out the hashes of queue entries, each the deepest left, up to the limit; a hash queued twice is handed out twice |
| SyncRoles.DownloadedExactly | common/mtp/sync.go:238-247 | however it went, a download ends with what was there and exactly what the roles it took lead to |
| SyncRoles.Finished | common/mtp/sync.go:231-233 | with nothing pending and everything written the whole trie, its storage tries and its code are in the database, if roles make no difference to what an entry needs |
| SyncRoles.SureExactly | common/mtp/sync.go:94-156 | an entry is in the database at the end of every download exactly if it is led to whichever of its roles each hash is taken in |
| SyncRoles.ClearIsSure | common/mtp/sync.go:94-156 | where roles make no difference everything the root leads to is sure |
| SyncLoss.NothingStuck | common/mtp/sync.go:313-330 | once every request has been answered nothing is pending, since requests only wait for what lies below them |
| SyncLoss.LoseSubtree | common/mtp/sync.go:238-247 | if a hash can be asked for first in a role that does not lead to an entry, and every way to the entry leads through it, some order of answers ends the download without the entry |
| SyncLoss.SubtreeIsLost | core/state/sync.go:30-38 | a contract whose code is the storage root of another account: answered first, the download ends without the storage below it |
| SyncOrder.VisitIsUnique | common/mtp/sync.go:251-308 | what a node takes, and in which roles, is determined by the trie and what was taken before |
| SyncOrder.Answer | common/mtp/sync.go:170-212 | at any time, written in part or not, an accepted item is one step of the walk and a refused one changes neither roles nor what is held |
| SyncOrder.Write | common/mtp/sync.go:216-228 | writing, whether or not it fails, changes neither roles nor what is held |
| SyncOrder.DownloadIsWalk | common/mtp/sync.go:170-212 | every download into an empty database is a walk in the order of its answers, which has visited all it took, and the database holds just that |
| SyncOrder.FollowWalk | common/mtp/sync.go:170-212 | every walk that visits all it takes is followed by a download, which takes the same roles and ends |
| SyncOrder.LoseByWalk | common/mtp/sync.go:238-247 | an entry that a walk leaves out is lost by the download that follows the walk |
| SyncOrder.LostByWalk | common/mtp/sync.go:238-247 | an entry that a download into an empty database has lost is left out by the walk in the order of its answers |
| SyncCodec.DecodedHasOneValue | common/mtp/sync.go:260-281 | whatever blob decodes, the node has at most one value, as the download takes for granted |
| SyncCodec.StoredNodeRefers | common/mtp/sync.go:260-306 | the blob of a trie node leads the download to the children of the node that go by their hashes, and in a storage trie to nothing else |
| Journal.DoUndo | core/state/journal.go:51-73 | undoing the entries an operation left gives back the ledger exactly unless it moved the unlocking time of an existing account |
| Journal.UndoInSteps | core/state/journal.go:60-73 | going back in two steps is going back in one |
| Journal.DoKeeps | core/state/journal.go:51-58 | the journal can be undone to any point after every operation |
| Journal.StampCommutes | core/state/statedb.go:370-375 | a moved unlocking time survives undoing, unless the making of its account is undone |
| Journal.StepKeeps | core/state/statedb.go:562-583 | every operation, snapshot and reversion keeps the journal replayable and the snapshots in order |
| Journal.RevertRestores | core/state/statedb.go:562-583 | through any run with nested snapshots, going back restores the journal and all that readers see but moved unlocking times, and restores all of it exactly if each was last moved to where it had been |
| Journal.RevertForgets | core/state/statedb.go:570-583 | going back to a snapshot forgets it and every later one |
| Journal.MovedTimeStays | core/state/statedb.go:370-375 | a concrete unlocking time that is not restored |
| StateDb.StateDB.GetStateObject | core/state/statedb.go:420-444 | loading an account into the cache changes nothing readers see; deleted accounts are not found |
| StateDb.StateDB.CreateObject | core/state/statedb.go:461-472 | makes a fresh account and keeps the one it replaces in the journal |
| StateDb.StateDB.CreateAccount | core/state/statedb.go:484-489 | a new account takes over the balance of the old one |
| StateDb.StateDB.SetNonce | core/state/state_object.go:393-403 | follows the journal machine |
| StateDb.StateDB.SetBalance | core/state/state_object.go:275-285 | follows the journal machine |
| StateDb.StateDB.AddBalance | core/state/state_object.go:253-264 | follows the journal machine; adding nothing to an empty account marks it as changed |
| StateDb.StateDB.SubBalance | core/state/state_object.go:268-273 | follows the journal machine |
| StateDb.StateDB.Touch | core/state/state_object.go:154-163 | marks an account as changed; for one address the mark is never taken back |
| StateDb.StateDB.SetState | core/state/state_object.go:201-213 | follows the journal machine, over slots in the cache and in the storage trie |
| StateDb.StateDB.GetState | core/state/state_object.go:178-198 | gives the slot readers see and changes nothing they see |
| StateDb.StateDB.SetCode | core/state/state_object.go:377-391 | follows the journal machine, over code loaded from the database |
| StateDb.StateDB.SetLockedBalance | core/state/state_object.go:287-297 | follows the journal machine |
| StateDb.StateDB.SetDelegateTimestamp | core/state/state_object.go:311-321 | follows the journal machine |
| StateDb.StateDB.SetUnLockedBalance | core/state/state_object.go:299-309 | follows the journal machine |
| StateDb.StateDB.SetUnDelegateTimestamp | core/state/statedb.go:370-375 | writes the unlocking time and leaves no entry |
| StateDb.StateDB.Suicide | core/state/statedb.go:382-396 | empties and marks an account that exists, and says whether one does |
| StateDb.StateDB.AddRefund | core/state/statedb.go:172-175 | follows the journal machine, with 64-bit wrap-around |
| StateDb.StateDB.AddLog | core/state/statedb.go:134-143 | adds a log to the running transaction, with that transaction, its block, its place there and the next log number |
| StateDb.StateDB.Prepare | core/state/statedb.go:627-631 | sets the transaction and block that logs are made in, and nothing else |
| StateDb.StateDB.AddPreimage | core/state/statedb.go:158-165 | records a preimage the first time only |
| StateDb.StateDB.Snapshot | core/state/statedb.go:562-567 | follows the journal machine and returns a fresh id |
| StateDb.StateDB.UndoEntry | core/state/journal.go:155-281 | each entry's reversal does to what readers see what undoing it means |
| StateDb.StateDB.RevertJournal | core/state/journal.go:60-73 | undoes entries last first, and counts of changed accounts with them |
| StateDb.StateDB.Search | core/state/statedb.go:572-574 | the binary search finds the first revision with at least the id |
| StateDb.StateDB.RevertToSnapshot | core/state/statedb.go:570-583 | follows the journal machine, so the laws of going back hold of the state database |
| StateDb.StateDB.Finalise | core/state/statedb.go:592-615 | readers see the same accounts but for changed ones destroyed or empty, and the trie holds what they see of an account exactly if it was marked as changed or held it before |
| StateDb.WrittenExactly | core/state/statedb.go:592-615 | finalising brings the trie up to date at the changed accounts and nowhere else |
| StateDb.RecreatedIsNotWritten | core/state/statedb.go:592-615 | a concrete account made anew whose old nonce stays in the trie |
| Persistence.NotDirtyIsUnmarked | core/state/journal.go:50-56 | an account the database does not list as changed has no entry in the journal but for having been made anew |
| Persistence.UndoneToStart | core/state/journal.go:58-74 | undoing all a transaction has done, whatever it went back on, gives the ledger it started with but for the unlocking times moved |
| Persistence.RunRenews | core/state/statedb.go:461-489 | whenever an account was made anew, right after that it was new and had kept its balance |
| Persistence.UnmarkedExactly | core/state/statedb.go:592-615 | a transaction that leaves a written account unmarked leaves the trie right about it exactly if, not made anew, its unlocking time ends where it was, or, made anew, it had nothing but a balance and the stored time is the present one |
| Persistence.WrittenSince | core/state/statedb.go:592-615 | over any number of transactions that neither mark an account nor make it anew, the trie stays right about it exactly if the last move of its unlocking time was to where it had been |
| StateDb.FlushStorage | core/state/state_object.go:216-229 | the storage trie becomes what readers see of the slots, and they see no difference |
| Feed.EventFeed.Subscribe | feed/feed.go:43-62 | a new channel waits in the inbox |
| Feed.EventFeed.Find | feed/feed.go:180-187 | the index of a channel, or -1 exactly if it is not there |
| Feed.EventFeed.Unsubscribe | feed/feed.go:73-94 | removes the channel from the inbox or the cases, and no other |
| Feed.EventFeed.TryAll | feed/feed.go:121-127 | each channel that takes the value leaves the active cases, each once |
| Feed.EventFeed.Send | feed/feed.go:97-152 | for every schedule each subscriber that stays gets the value exactly once and a removed one at most once; the count and the subscribers left are exact |
| Feed.DeliverKeeps | feed/feed.go:195-199 | delivering moves a case behind the active ones without losing any |
| Feed.RemoveKeeps | feed/feed.go:135-141 | removing a case, delivered to or not, keeps the active ones in front |
| BlockChain.AncestorOfAncestor | core/blockchain.go:366-405 | ancestors of ancestors are ancestors |
| BlockChain.HeaviestAfter | core/blockchain.go:328-333 | the head chosen is the heaviest of all blocks written, and no lighter than before |
| BlockChain.Chain.FindFork | core/blockchain.go:373-405 | the two walks end at a common ancestor, having collected the new branch, exactly if all ancestors of the new block have been written; the branch is empty exactly if the block is already on the head's chain |
| BlockChain.Chain.InsertChain | core/blockchain.go:417-422 | the branch is written lowest block first, and after every write the index is right for the head of the moment |
| BlockChain.Chain.Reorg | core/blockchain.go:366-430 | fails exactly if an ancestor of the block has not been written, and then changes nothing; otherwise makes the block's chain canonical unless the block is already on it |
| BlockChain.Chain.WriteBlockWithState | core/blockchain.go:301-357 | up to the head the height index names the head's ancestors, all written; the head is the heaviest block written and its weight never falls; it moves to the block exactly if that is better and not already below it; a failed commit leaves only the weight, and a better block is refused exactly over a gap |
| BlockChain.GapIsRefused | core/blockchain.go:311-346 | a concrete block whose commit fails, and the heavier child that is then refused |
| Confirmation.Walk | consensus/dpos/dpos.go:300-331 | finds the highest block on which a quorum has built, if it is not below the floor |
| Confirmation.Dpos.UpdateConfirmed | consensus/dpos/dpos.go:276-331 | the confirmed height never falls while delegated proof of stake is active, and a new confirmed block has a quorum built on it; running out of blocks is reported exactly when it happens |
| Confirmation.ConfirmationIsSafe | consensus/dpos/dpos.go:36-38 | if two walks confirm incompatible blocks, more than a third of the validators mined on both branches |
| Confirmation.SignedConfirmed | consensus/dpos/dpos.go:389-408 | of the heights validators signed for, picks the greatest that more than two thirds of the signers support, and none exactly when nobody signed |
| MintCount.CountersAreTrue | consensus/dpos/dpos.go:132-160 | along every chain that does not go back in time, each counter is the number of the validator's blocks in the epoch |
| MintCount.DposContext.RecordMint | consensus/dpos/dpos.go:132-160 | counts on within an epoch and starts at one in a new epoch |
| MintCount.FullEpochThreshold | consensus/dpos/epochcontext.go:171-203 | in a full epoch the threshold is half of a validator's blocks |
| MintCount.DposContext.KickoutValidators | consensus/dpos/epochcontext.go:162-219 | each validator's weight is adjusted by its own count and no other candidate changes; stops with an error at one that is no candidate, having adjusted exactly those before it |
| MintCount.OnlyIdleLoseWeight | consensus/dpos/epochcontext.go:203-213 | after a full epoch a candidate loses weight exactly if it was a validator, has weight to lose and minted less than half of its blocks |
| Election.RankedIsUnique | consensus/dpos/epochcontext.go:82-89 | the table of votes alone decides who is elected and in which rank, not the order it is read in |
| Election.TopIsBest | consensus/dpos/epochcontext.go:261-269 | everyone elected comes before everyone who is not, by votes and then by address text |
| Election.SortedIsRanked | consensus/dpos/epochcontext.go:82-86 | sorting puts each candidate at its rank |
| Election.ShuffleIsPermutation | consensus/dpos/epochcontext.go:91-97 | drawing the order loses and adds nobody |
| Election.Shuffle | consensus/dpos/epochcontext.go:91-97 | the order drawn depends on the numbers drawn alone |
| Election.Elect | consensus/dpos/epochcontext.go:74-104 | the validators are the highest ranks, as many as there are places, in the order drawn, whatever order the votes are read in; none are elected with too few candidates or votes |
| NonceHeap.TopIsLeast | core/txpool/heap.go:59-63 | the first nonce of a heap is its least |
| NonceHeap.Down | core/txpool/heap.go:59-75 | sinking restores the heap below a place and keeps the nonces |
| NonceHeap.Push | core/txpool/heap.go:65-67 | adds one nonce and keeps the heap |
| NonceHeap.Pop | core/txpool/heap.go:69-75 | takes out the least nonce and keeps the heap |
| NonceHeap.Remove | core/txpool/list.go:270-275 | takes out the nonce at a place and keeps the heap |
| NonceHeap.Init | core/txpool/list.go:224-231 | makes a heap of any nonces |
| TxList.ListsUnique | core/txpool/list.go:314-328 | there is only one sorted list of the transactions stored |
| TxList.SortedMap.Put | core/txpool/list.go:184-190 | stores a transaction under its nonce; the index stays a heap of exactly the nonces stored |
| TxList.SortedMap.Forward | core/txpool/list.go:195-210 | takes out exactly the transactions under a nonce, in order, and the cached order stays right |
| TxList.SortedMap.Filter | core/txpool/list.go:213-234 | takes out exactly the transactions that match |
| TxList.SortedMap.Cap | core/txpool/list.go:238-259 | keeps the lowest nonces, as many as allowed, and the cached order stays right |
| TxList.SortedMap.Remove | core/txpool/list.go:263-282 | takes out one nonce and says whether it was there |
| TxList.SortedMap.Ready | core/txpool/list.go:289-304 | takes out the longest run of consecutive nonces from the least one, if that is not above the start |
| TxList.SortedMap.Flatten | core/txpool/list.go:314-328 | lists all transactions by nonce, from the cached order or afresh |
| TxList.PoolList.Add | core/txpool/list.go:56-74 | replaces a transaction exactly for a price raised by the bump; the caps rise to the new transaction's and keep bounding every item |
| TxList.PoolList.Filter | core/txpool/list.go:92-116 | removes exactly what full filtering would, short circuit or not; a strict list keeps what is under the lowest removed nonce and stays contiguous |
| TxList.PoolList.Remove | core/txpool/list.go:127-138 | a strict list gives up everything after the removed nonce and stays contiguous |
| TxList.PoolList.Forward | core/txpool/list.go:79-81 | drops stale transactions and stays contiguous |
| TxList.PoolList.Cap | core/txpool/list.go:120-122 | returns exactly the transactions dropped, which have the highest nonces, and stays contiguous |
| Executor.LostWithDeleted | core/state/statedb.go:592-615 | clearing accounts away loses exactly what they held |
| Executor.NothingLost | core/state/statedb.go:592-615 | clearing accounts away loses nothing exactly if the accounts that go hold nothing |
| Executor.BinaryConserves | core/executor/stransition.go:103-185 | running code keeps all funds: gas paid for comes back or goes to the coinbase, and gas left and used make up the pool before |
| Executor.DposConserves | core/executor/executor.go:151-231 | a staking transaction burns its fee and nothing else through every failure path, and moves funds only between its sender's pockets |
| Executor.TxConserves | core/executor/executor.go:99-149 | every transaction keeps all funds but its fee and what deleted accounts held |
| Executor.TxForfeits | core/executor/executor.go:99-149 | from a sound state a transaction loses its fee and, exactly if its sender forfeits it, the sender's stake, and leaves a sound state |
| Executor.StakingForfeits | core/executor/executor.go:151-231 | a staking transaction forfeits the stake exactly if it has the last nonce, can pay the fee, comes from an account without code and leaves nothing to spend while something is staked |
| Executor.BinaryForfeits | core/executor/stransition.go:118-166 | running code forfeits the stake exactly if it has the last nonce, comes from a staker without code and leaves nothing to spend |
| Executor.ForfeitedExactly | core/executor/executor.go:63-87 | stakes are lost over a run of transactions exactly if one of them forfeits a stake |
| Executor.StakeCanBeLost | core/executor/executor.go:151-231 | a concrete staking transaction with the last nonce that loses the stake it makes |
| Executor.UnpaidGasIsCounted | core/executor/executor.go:151-157 | a concrete staking transaction of a sender without funds whose gas is counted though none was taken |
| Executor.IdleIsTidy | core/executor/stransition.go:118-166 | what is asked of the virtual machine can be met: the one that runs nothing meets it |
| Executor.BlockConserves | core/executor/executor.go:63-87 | over a block all funds change by the reward less staking fees and forfeited stakes; gas left and counted is the limit plus the gas counted for senders who could not pay |
| Executor.BinaryBlocksBurnNothing | core/executor/executor.go:63-87 | without staking transactions nothing is burned, and gas left and counted is exactly the limit |
| Executor.Execution.SubGas | common/utils/gaspool.go:39-45 | takes gas from the pool if there is enough |
| Executor.Execution.BuyGas | core/executor/stransition.go:103-116 | pays for all the gas up front, or changes nothing and says why |
| Executor.Execution.TransitionDb | core/executor/stransition.go:118-166 | the steps of a transaction come to what the conservation law is about |
| Executor.Execution.RefundGas | core/executor/stransition.go:168-180 | gives back unused gas with a refund of at most half the gas used |
| Executor.Execution.ApplyDposMessage | core/executor/executor.go:151-231 | the steps of a staking transaction come to what the conservation law is about |
| Executor.Execution.ExecTransaction | core/executor/executor.go:99-149 | one transaction with accounts cleared away and gas counted |
| Executor.Execution.ExecActions | core/executor/executor.go:90-96 | frees what is no longer locked for each sender in turn |
| Executor.Execution.ExecBlock | core/executor/executor.go:63-87 | a block is its actions, transactions and reward in turn, or refused at the first refused transaction |

## Left out

- Trie: a short node with an empty key, which no trie in normal form has, is refused; proofs (`Prove`) and the key prefix of `NewWithPrefix` are not modelled.
- NodeCodec: a stored short node with an empty compact key counts as undecodable where the source would crash.
- TrieHasher: the external references of the leaf callback during a commit belong to the node cache model, not to the hasher's.
- TrieIterator: the error path for missing nodes, Merkle proofs of leaves and the difference and union iterators are not modelled.
- RlpStream: input is a byte slice, so the unlimited stream over an arbitrary reader is not modelled; typed decoders (integers, booleans, structs, raw values) are not either.
- RlpEncoder: the type-driven writers are not modelled; list header pointers are indexes, and buffer pooling is left out.
- TrieDatabase: preimages and garbage collection statistics are not modelled; the cache size is an integer where the source has a floating-point number, and its lock is left out.
- TrieDatabase.Database.Dereference: is asked only for references that exist, as its documentation says.
- TrieSync: data matches its hash, a node has at most one value and nothing refers to the zero hash.
- TrieSync.Sync.Flush: the writer writes to the database that is read.
- Journal: the journalled setter of the unlocking time that nothing calls is not modelled.
- StateDb: `Copy`, `Commit` to the trie database and database errors are not modelled; storage tries are given by their contents.
- Feed: subscriptions made during a send only touch the inbox and are not interleaved with it; element type checks are not modelled, and channels are subscribed once each.
- BlockChain: block execution and validation, future blocks and pruned ancestors are left out, and whether a state commit succeeds is a parameter; a block's height is its parent's plus one and hashes name blocks.
- Confirmation: loading and storing the confirmed blocks, and sending, checking and evicting the signed confirmations, are left out; the heights signed for are given as a sequence and the sort is an insertion sort where the source calls a library.
- MintCount: the weight of a candidate is a natural number, and the removal of candidates, which the source never reaches, is left out.
- Election.Elect: is one round; repeating it for each skipped epoch, with weights adjusted in between, is left out.
- Election: counting votes from the delegate tries is left out, the sort is an insertion sort where the source calls a library, and address texts tell candidates apart.
- TxList: nonces are natural numbers; the price heap, the pool itself and the deferred actions are not modelled.
- NonceHeap: the heap and sort algorithms are those of the library the source calls, on a sequence that is replaced at each step.
- Executor: the virtual machine is a parameter that conserves funds, returns no more gas than it got, leaves empty and destroyed accounts without funds, destroys neither sender nor coinbase and moves the sender's nonce only when it creates a contract; staking tries and durations are parameters, missing unlocked balances are zero, and logs and receipts are left out.
- Networking, wallets, remote calls, cryptography and configuration are not part of this model.
