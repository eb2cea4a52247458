# A verified model of the node's core

This project models the core of the blockchain node in Dafny 4.11 and proves what the rest of the
node relies on. Every statement is about all inputs, all histories or all reachable states.
`dafny verify dfyconfig.toml` checks the whole project.

## What is modelled

**The trie** (`Hex`, `Rlp`, `RlpEncoding`, `PatriciaTree`, `TrieNode`, `TrieOps`, `Hasher`, `Commit`, `Trie`,
`Proof`, `Roots`). The fully expanded tree is the specification. The nodes the program works with carry cache
flags, may be unloaded behind a hash, and embed small children in the encoding of their parent; the relation
`TrieNode.Rep` says when such a node stands for a tree. Insertion and deletion keep the canonical form, the
canonical tree is determined by its lookups alone, and so the root hash depends on the stored map and on
nothing else (`History`). `Stage` carries this to the two levels of tries that a block writes in the random
order of map iteration.

**Walking tries** (`PreOrder`, `Iterator`, `Difference`). The node iterator visits the pre-order, and the
difference iterator returns exactly the nodes of one trie that another lacks, although it skips subtrees with
equal hashes.

**Pruning** (`Session`, `NodeKeys`, `Pruner`, `Sweep`, `Archive`, `StorageArchive`, `StatePruning`). A step
system over commits, switches of the live space, archiving and dropping, with theorems about every run: what
stays readable, and what is gone. Archiving the accounts of a state archives their storage, and the first
theorem holds again for whole states, each an account trie with the storage tries of its accounts.

**Synchronisation** (`Sync`, `SyncProofs`, `SyncPlan`, `SyncReload`, `SyncProgress`, `SyncFailures`,
`SyncRepair`, `TrieSync`). Reference counts are exact, every prefix of every flush leaves the store closed,
every synchronisation can be finished, and a finished one has stored all that was asked for, storage tries and
code included, exactly if a hash leads to the same hashes in whichever way it is asked for. A failing leaf
callback does harm exactly when it has registered something before.

**Blocks** (`Block`, `Validator`, `Flow`): whatever transactions are offered to the packer, the verifier
accepts the block, as long as no gas sum of the packer wraps at 2^64; and the verifier accepts nothing but
blocks whose every header field is what executing their transactions leads to. **Chains** (`Chain`,
`ChainReader`, `BlockReader`, `Admission`, `Repository`, `CommonAncestor`): the index of every block agrees
with its parent links on every fork, no branch repeats a transaction, readers follow reorganisations, and the
ancestor search is right whenever it ends.

**Execution** (`Analysis`, `Interpreter`, `Gas`, `Energy`, `Execution`, `Executor`): runs of the interpreter
as steps of one deterministic relation, memory and call gas, energy growth, and the accounting of a
transaction. **The pool** (`TxPool`, `Wash`).

Hashes are 32-byte values given by a function parameter. Where two things must not share a hash, this is
assumed of the items that occur, never of all items. RLP is modelled as items with their encoded size, which
is that of their byte strings; no two items share a byte string. The EVM, the proposer schedule and the
judgements of the pool are function parameters.

Classes stand for the objects the program updates in place. Their methods are proved against functions, and
the theorems are lemmas about those functions.

## Model

| member | source | states |
|---|---|---|
| Hex.KeybytesToHex | trie/encoding.go:68-78 | the hex form of a byte key: its nibbles in order, then the terminator |
| Hex.HexInjective | trie/encoding.go:68-78 | different byte keys have different hex forms |
| Hex.HexToCompact | trie/encoding.go:37-52 | the in-place packing computes the hex-prefix encoding of Appendix C of the Yellow Paper |
| Hex.CompactRoundTrip | trie/encoding.go:37-66 | decoding undoes encoding for every segment, odd or even, with or without terminator |
| Hex.HexToKeybytes | trie/encoding.go:81-91 | the inverse of the hex form; odd lengths are refused |
| Hex.DecodeNibbles | trie/encoding.go:93-97 | pairs of nibbles are packed into the buffer, and only there |
| Hex.ComputePrefixLen | trie/encoding.go:100-111 | the length of the longest common prefix |
| Rlp.ShortListHoldsNoHash | trie/node.go:167-190 | a node short enough to be embedded cannot hold a hash reference |
| RlpEncoding.SerialisedOnce | trie/node.go:104-190 | encodings have the length that the size says, and different items have different encodings |
| RlpEncoding.EmbeddedIff | trie/hasher.go:159-191 | a child is referred to by its hash exactly if its encoding has 32 bytes or more |
| RlpEncoding.HashesDiffer | trie/hasher.go:159-191 | hashes of items differ as long as digests of their encodings do |
| PatriciaTreeProofs.GetInsert | trie/trie.go:215-281 | after an insertion the key has the value and every other key is as before |
| PatriciaTreeProofs.GetDelete | trie/trie.go:306-413 | after a deletion the key is absent and every other key is as before |
| PatriciaTreeProofs.InsertWellFormed | trie/trie.go:215-281 | insertion keeps the shape: no short node under a short node, branches fork, terminators only above values |
| PatriciaTreeProofs.DeleteWellFormed | trie/trie.go:306-413 | deletion keeps the shape, or empties the trie |
| PatriciaTreeProofs.ShrinkWellFormed | trie/trie.go:344-405 | a branch that loses a child is reduced to a well-formed node exactly when one child is left |
| Canonicity.LookupsDetermineTree | trie/trie.go:215-413 | two well-formed trees that answer every key alike are equal |
| History.RunRefinesMap | trie/trie.go:197-213 | any history of updates does to the trie what it does to a finite map |
| History.HistoryIndependence | trie/trie.go:197-213 | two histories that leave the same map leave the same tree |
| History.OrderIndependence | state/state.go:439-443 | updates of distinct keys may come in any order |
| History.GetRun | trie/trie.go:197-213 | a lookup answers the last write to the key, or what was there before |
| Stage.FoldJournal | state/state.go:396-419 | for each touched account the last account and the last value of every storage slot, and every code that was set under its hash |
| Stage.FoldsOnce | state/state.go:396-419 | a journal determines its changes |
| Stage.SavedInAnyOrder | state/state.go:439-443 | every order of a map of changes leaves the same trie |
| Stage.SaveAll | state/state.go:439-443 | iteration in an order nobody chooses leaves that trie |
| Stage.GetSaved | state/account.go:80-104 | saved keys read as saved, empty values are deleted, all other keys are untouched |
| Stage.StageAccount | state/state.go:432-446 | if the account has balance, energy, master or code and storage changed, only its storage root changes: to the root of a trie that reads the new values, nothing where they are empty, and elsewhere what was there; otherwise the account is as it is |
| Stage.SaveAccounts | state/state.go:430-450 | the account trie is independent of both iteration orders |
| Stage.StageAll | state/state.go:368-452 | staging a journal gives the account trie of its changes, and its codes; every address reads as the journal says |
| Stage.StagedReads | state/account.go:80-93 | staged accounts read back, empty ones are gone, all others are as before |
| Stage.JournalReadsBack | state/state.go:368-452 | after staging, an untouched address reads as before, one left without anything reads as absent, and any other as its last account, with the root of a storage trie that reads the last value of every slot set and all others as before |
| TrieNode.DecodeEncode | trie/node.go:104-190 | decoding the encoding of a tree gives a node for that tree, embedded children included |
| TrieOps.ResolveRep | trie/trie.go:430-460 | a stored subtree loads as a node for it |
| TrieOps.TryGetRep | trie/trie.go:141-180 | lookup in a partly loaded trie answers as in the expanded tree, and loading changes nothing it stands for |
| TrieOps.InsertRep | trie/trie.go:215-281 | insertion in a partly loaded trie commutes with expansion; unless it reports a change the tree is the same |
| TrieOps.DeleteRep | trie/trie.go:306-413 | the same for deletion, with the loading that the reduction of a branch needs |
| TrieOps.FindOnlyChild | trie/trie.go:346-365 | the index of the only child, -1 for none, -2 for several |
| TrieOps.ShrinkRep | trie/trie.go:366-401 | reducing a branch loads its last child and commutes with expansion |
| Hasher.HashRef | trie/hasher.go:65-191 | the reference computed for a node is the encoding or the hash of its tree, whatever was cached |
| Hasher.HashRep | trie/hasher.go:65-191 | the node returned stands for the same tree; after a commit all of it is in the database |
| Commit.WritesAreNodes | trie/hasher.go:159-191 | a commit writes only nodes of the tree, under their own path and hash |
| Commit.StoredMeansEveryNode | trie/hasher.go:159-191 | a stored tree has every separately kept node in the database |
| Commit.OpenStored | trie/trie.go:98-112 | a stored tree opens at its root hash |
| Commit.CommitReload | trie/trie.go:478-508 | reopened at the returned root, a committed trie answers every key as before |
| TrieObject.New | trie/trie.go:98-112 | opening fails exactly if the root node cannot be loaded; if all of a tree is stored under the root, the trie stands for that tree |
| TrieObject.Trie.TryGet | trie/trie.go:132-139 | answers from the tree, and leaves the tree alone |
| TrieObject.Trie.TryUpdate | trie/trie.go:197-213 | the tree changes by this update; on error the root is kept |
| TrieObject.Trie.Hash | trie/trie.go:467-475 | the root hash of the tree, all hashes cached, nothing written |
| TrieObject.Trie.Commit | trie/trie.go:478-508 | the root hash, the whole tree stored, and no entry of the database lost |
| TrieObject.Trie.NodeIterator | trie/iterator.go:140-147 | an iterator before the first node of the trie |
| TrieObject.NoWritesWithoutDatabase | trie/hasher.go:159-191 | hashing without a database writes nothing |
| Proof.Follow | trie/proof.go:121-143 | the walk inside one proof node |
| Proof.VerifyProof | trie/proof.go:95-119 | the verifier loop, and the number of proof nodes it took |
| Proof.VerifySound | trie/proof.go:95-143 | over any content-addressed proof nodes, an answer is the lookup in the trie with that root, and a covering proof is answered |
| Proof.CollectNodes | trie/proof.go:37-68 | the nodes on the path of a key |
| Proof.EmitEntries | trie/proof.go:69-89 | the root and the separately kept ones are put, after skipping |
| Proof.Prove | trie/proof.go:37-91 | the entries put for a key, from a trie loaded in part |
| Proof.ProofComplete | trie/proof.go:37-143 | proofs made for present and absent keys verify with the right answer |
| Roots.RootDeterminesTrie | trie/hasher.go:65-191 | tries with the same root hash are equal |
| PreOrder.EntriesSorted | trie/iterator.go:287-320 | the pre-order of a trie is strictly increasing by path |
| Iterator.FindNextChild | trie/iterator.go:336-372 | the next child of a frame |
| Iterator.NextChildRep | trie/iterator.go:336-372 | the next child is the head of what is left below a node |
| Iterator.NodeIterator.constructor | trie/iterator.go:140-147 | the iterator stands before the first node |
| Iterator.NodeIterator.Next | trie/iterator.go:249-320 | moves to the next node in pre-order, or past the current subtree; ends after the last |
| Iterator.NodeIterator.Encoding | trie/iterator.go:156-177 | an encoding with the hash of the current node |
| Iterator.Advance | trie/iterator.go:287-386 | the loop over the stack enters exactly the next node |
| Difference.CompareEqual | trie/iterator.go:388-404 | two nodes compare equal exactly if path, hash and value are equal |
| Difference.SkippedInA | trie/iterator.go:456-496 | whatever lies under a node with an equal hash is in the other trie too |
| Difference.DifferenceIterator.constructor | trie/iterator.go:415-422 | the first trie is at its first node, the second before it |
| Difference.DifferenceIterator.Next | trie/iterator.go:456-496 | moves to the next node of b that is not in a; everything passed over is in a |
| Difference.Collect | trie/iterator.go:456-496 | a whole iteration returns exactly the nodes of b that are not in a, strictly ascending |
| Session.UpdateNodesRep | muxdb/trie.go:110-117 | a session of updates on a reopened trie |
| Session.CommitWritesTheRest | muxdb/trie.go:140-156 | a node of the new trie is written, or was a node of the old one under the same path |
| NodeKeys.FillPathSlot | muxdb/trie_node_key_buf.go:75-100 | the packed path slot |
| NodeKeys.CompactPathInjective | muxdb/trie_node_key_buf.go:75-100 | slots are equal exactly if the paths agree in their first fifteen nibbles and capped length |
| Pruner.GetNode | muxdb/trie_node_key_buf.go:43-64 | a node in any of the three spaces is found |
| Pruner.KeysDiffer | muxdb/trie_node_key_buf.go:43-100 | two nodes have one key exactly if they have one hash and their paths agree up to the first fifteen nibbles |
| Pruner.CommitOk | muxdb/trie.go:140-156 | committing on a readable trie succeeds, and the new trie is the old one plus nodes in the active space |
| Pruner.ArchiveOk | muxdb/trie_pruner.go:37-94 | after archiving the difference to an archived trie, the trie is wholly in permanent space |
| Pruner.DropInv | muxdb/trie_pruner.go:97-135 | dropping the stale space keeps every archived trie, and every trie derived from one since the switch |
| Pruner.StepInv | muxdb/trie_pruner.go:37-140 | every step keeps all live tries stored |
| Pruner.PruningIsSafe | muxdb/trie_pruner.go:37-140 | after any run every live trie opens at its root and answers every key |
| Sweep.DropForgets | muxdb/trie_pruner.go:97-135 | after a drop exactly the nodes of the permanent and of the active space are found |
| Sweep.CommitPuts | muxdb/trie.go:140-156 | a commit adds exactly its nodes to the active space, and changes no other |
| Sweep.SwitchSpares | muxdb/trie_pruner.go:137-140 | a commit after a switch leaves alone the space that was active before |
| Sweep.SweepIff | muxdb/trie_pruner.go:97-140 | after a switch and a drop exactly these are found: what is in permanent space, what was written since the switch, and what was left in the space the switch made active |
| Sweep.SwitchedTwice | cmd/luckyshare/pruner/pruner.go:104-121 | after two switches in a row a drop spares all that was in use before |
| Sweep.PruningForgets | cmd/luckyshare/pruner/pruner.go:104-158 | in any run in the order of the pruner, once a switch and a later drop have happened, a node that is in no archived trie and was not written since that switch is not found |
| Archiving.ArchiveNodes | muxdb/trie_pruner.go:37-94 | the loop puts exactly the nodes of the second trie that the first lacks, and shows the callback exactly the leaves that the first lacks, each once and in ascending order |
| StorageArchive.LeafEntry | muxdb/trie_pruner.go:79-90 | the iterator shows a leaf exactly if a lookup finds it |
| StorageArchive.HandleLeaf | cmd/luckyshare/pruner/pruner.go:214-239 | the leaf callback: if the storage root of the account changed, what the new storage trie has over the old one is put in permanent space, and no other account's space changes |
| StorageArchive.HandleLeaves | cmd/luckyshare/pruner/pruner.go:214-239 | over the leaves that the iteration shows, every account that is new or changed is handled, by its own leaf alone |
| StorageArchive.ArchiveAccountTrie | cmd/luckyshare/pruner/pruner.go:196-241 | archiving the difference of two states puts the whole account trie, and the storage trie of every account of the new state, in permanent space, if those of the old state were |
| StatePruning.WorldStepInv | cmd/luckyshare/pruner/pruner.go:68-165 | committing, switching, archiving and dropping whole states keep every live state stored with the storage of its accounts, those derived since the switch included |
| StatePruning.StatesStayReadable | cmd/luckyshare/pruner/pruner.go:68-165 | after any run, the account trie of every live state and the storage trie of each of its accounts open and answer every key |
| StorageArchive.StoragesArchived | cmd/luckyshare/pruner/pruner.go:196-241 | if the storage trie of every account of an archived state is in permanent space, then after archiving the difference to another state so is every storage trie of that state |
| SyncProofs.AddDepCounted | trie/sync.go:98-160 | registering a dependency keeps counters exact |
| SyncProofs.ScanCounted | trie/sync.go:255-312 | after scanning children, each need is known, pending for the parent, or listed as missing; after a failed scan this holds of what was registered |
| SyncProofs.CommitGood | trie/sync.go:317-334 | the recursive commit keeps counters exact and puts each node after all it needs |
| SyncProofs.DeliverGood | trie/sync.go:174-216 | one delivered result keeps the invariant, whatever its outcome |
| SyncProofs.FlushClosed | trie/sync.go:220-232 | however many entries of the batch are written, no stored node lacks what it waited for |
| SyncProofs.StepInv | trie/sync.go:98-334 | every operation keeps the invariant and forgets no hash |
| SyncProofs.SyncKeepsClosed | trie/sync.go:98-334 | after any run, every partial flush leaves the store closed under what nodes waited for, and counters equal outstanding references |
| SyncPlan.RunOnPlan | trie/sync.go:98-334 | a run stores only what was asked for, as it was asked for, each blob under its own hash |
| SyncProofs.SyncDelivers | trie/sync.go:98-334 | when nothing is pending and the batch is written, each requested root is stored |
| SyncReload.ChildNeeded | trie/sync.go:255-312 | scanning a node finds each child that is stored apart from it |
| SyncReload.FetchedStored | trie/sync.go:98-334 | a closed store that holds a root holds the whole trie |
| SyncReload.SyncedTrieReads | trie/sync.go:98-334 | a finished synchronisation leaves a requested trie that opens and answers every key, given only what is known before it starts |
| SyncReload.CompleteIff | trie/sync.go:98-160 | all finished synchronisations leave all requested tries complete, if and only if no node with children stored apart is asked for both as a node and as a raw entry |
| SyncReload.RawHidesSubtrie | trie/sync.go:98-160 | a root first fetched as a raw entry is taken for a complete subtrie |
| SyncProgress.Undelivered | trie/sync.go:174-216 | while anything is pending, something pending lacks its data |
| SyncProgress.DeliverProgress | trie/sync.go:174-216 | delivering it is progress: nothing downloaded is lost, and whatever waits still ranks above what it waits for |
| SyncProgress.SyncCanFinish | trie/sync.go:98-334 | whatever a synchronisation has done so far, delivering what it asks for gets it to its end |
| SyncProgress.EverythingIff | trie/sync.go:98-334 | all finished synchronisations have stored everything that their requests lead to, storage tries and code included, if and only if each hash leads to the same hashes in whichever of the planned ways it is asked for |
| SyncProgress.FirstKindWins | trie/sync.go:98-160 | otherwise a hash fetched for one callback is not scanned for another, and what only the other leads to is missing |
| SyncFailures.StoredEarlyIff | trie/sync.go:285-334 | some run stores a node before something it refers to, if and only if one of its leaf callbacks fails after something was registered, and that was not all it refers to |
| SyncFailures.BranchStoredEarly | trie/sync.go:285-334 | such as a branch with a child and a value, whose callback registers one entry and then fails: with the branch and the entry delivered under their own hashes, the branch is stored and the child is not |
| SyncFailures.RunEarned | trie/sync.go:285-334 | a node whose callback failed before anything was registered is never stored |
| SyncRepair.RequestedRootDecodes | trie/sync.go:98-131 | whatever the database held and whatever was delivered, at the end the root of a requested trie is stored and decodes, unless it is asked for as a raw entry too |
| SyncObject.TrieSync.constructor | trie/sync.go:86-95 | a synchroniser over a closed database, with the root requested unless it is empty or known |
| SyncObject.TrieSync.Add | trie/sync.go:98-160 | a root is requested, unless it is empty or known |
| SyncObject.TrieSync.AddFor | trie/sync.go:98-160 | the same on behalf of a pending parent |
| SyncProofs.ScheduleCounted | trie/sync.go:242-251 | scheduling turns references owed into recorded ones: counters stay exact, nothing pending is lost, and the parents are accounted for |
| SyncObject.TrieSync.Process | trie/sync.go:174-216 | results in turn up to the first refused one, with its index and error; committed is reported exactly if something was filed in the batch; the invariant is kept |
| SyncObject.TrieSync.Children | trie/sync.go:255-312 | the children scan |
| SyncObject.TrieSync.CommitOne | trie/sync.go:317-334 | the recursive commit ends, and does what its function says |
| SyncObject.TrieSync.Commit | trie/sync.go:220-232 | writes the batch up to where the writer fails; the database is closed all the same |
| Blocks.Adjust | block/gas_limit.go:48-69 | an adjusted limit is valid, and of all valid limits the nearest to what was asked for |
| Blocks.PackedLimitIsValid | packer/packer.go:172-177 | the packed limit is valid, and is the valid limit nearest the target, or that of the parent without one |
| Validator.ProcessBlock | consensus/validator.go:21-45 | the verdict on a block, which `Packing.AcceptedIff` characterises |
| Validator.ValidateBody | consensus/validator.go:168-200 | the body checks hold for every transaction |
| Validator.VerifyTxs | consensus/validator.go:202-270 | the loop replays the block, or stops at the first transaction that may not run |
| Validator.ReplayNoRepeats | consensus/validator.go:224-270 | a replayed block repeats nothing, neither within nor from the chain, and meets every dependency before |
| Validator.ReplayIff | consensus/validator.go:202-270 | a replay succeeds exactly if nothing repeats, dependencies are met before, and each transaction executes on the state that those before it left; it comes to those receipts, that state, and the sum of the gas |
| Packing.StateStack.NewCheckpoint | state/state.go:325-329 | same contents, and these are remembered under the revision |
| Packing.StateStack.RevertTo | state/state.go:332-335 | the contents are what they were when the checkpoint was made, whatever was put and marked since |
| Packing.AdoptReplayable | packer/flow.go:79-138 | what was adopted so far replays for the verifier to the same state and receipts |
| Packing.AdoptIff | packer/flow.go:79-138 | adopted is exactly what is lawful, may run, has its gas fit and executes; it then comes last in the block, and otherwise the block is as before |
| Packing.AdoptWithinLimit | packer/flow.go:89-103 | while the gas sum does not wrap, gas stays within the limit |
| Packing.WrappedSumIsAdopted | packer/flow.go:96-103 | when the sum wraps, a transaction too large for the block is adopted and the limit is exceeded |
| Packing.AlwaysWithinIff | packer/flow.go:96-103 | offering an acceptable transaction keeps every block within its limit, whatever was packed before and whatever executions use, if and only if the limit is the greatest 64-bit number or limit plus gas does not wrap |
| Packing.PackedIsAccepted | packer/flow.go:141-173 | a packed block is accepted, with the same state and receipts, exactly if its gas is within its limit |
| Packing.ProducerAndVerifierAgree | consensus/validator.go:91-294 | any sequence of offered transactions packs into an accepted block, if no gas sum wraps |
| Packing.AcceptedIff | consensus/validator.go:91-294 | a block is accepted with a result if and only if it is in turn (its time a multiple of the interval after the parent and at most one ahead of now, its limit within 1/1024 of the parent, its score the parent's and that of a granted slot, and greater), its transactions are lawful and execute to that result within the limit, and its header is the one the packer would make of it |
| Packing.HeaderIsDetermined | consensus/validator.go:91-294 | accepted blocks with the same parent, context and transactions are equal |
| Packing.Flow.constructor | packer/packer.go:97-126 | the context of a granted slot, with the given beneficiary and signer |
| Packing.Flow.Check | packer/flow.go:79-124 | no refusal exactly if the verifier would admit and run the transaction and its gas fits; a bad transaction stays bad in every later block; the limit is reached only if no transaction fits |
| Packing.Flow.Execute | packer/flow.go:126-132 | a failed execution leaves no trace in the state |
| Packing.Flow.Adopt | packer/flow.go:79-138 | one adoption; the block under construction stays replayable |
| Packing.Flow.Pack | packer/flow.go:141-173 | the block built of what was adopted is accepted exactly if its gas is within its limit |
| Chains.NumberKeyOf | block/header.go:253-257 | the number key of a block is the start of its id |
| Chains.IndexBlock | chain/chain.go:261-290 | the index of a block from the index of its parent |
| Chains.AddBlockValid | chain/repository.go:181-198 | a new block leaves every branch and index as they were, and its own index describes its branch |
| ChainReader.GetBlockIDAgrees | chain/chain.go:72-89 | a number leads to the ancestor at that height, and to nothing above the head |
| ChainReader.GetTransactionMetaAgrees | chain/chain.go:92-111 | a transaction is found where it last occurs on the branch |
| ChainReader.LastMetaFinds | chain/chain.go:92-111 | it is found if and only if some block of the branch contains it |
| ChainReader.HasBlockAgrees | chain/chain.go:168-177 | a block is on a chain exactly if it is an ancestor of the head |
| ChainReader.ReverseIds | chain/chain.go:199-202 | the reversed list |
| ChainReader.Exclude | chain/chain.go:182-204 | exactly the blocks of one branch that another lacks, ascending |
| BlockReading.BlockReader.Read | chain/block_reader.go:31-72 | the blocks to undo down to the fork, then the next best block; fails exactly if the best block is a proper ancestor |
| BlockReading.BlockReader.ReadFrom | chain/block_reader.go:31-72 | the same over a repository with forks |
| BlockReading.ConsumeRead | chain/block_reader.go:31-72 | popping and pushing what is read turns the old branch into the new one |
| BlockReading.ReadsReachHead | chain/block_reader.go:31-72 | reads climb one block each, and end at the head after as many as it is above the fork |
| Admission.BlockKeepsClean | consensus/validator.go:239-270 | a verified block on a clean branch leaves a clean branch |
| Admission.AdmitKeepsClean | chain/repository.go:181-198 | adding a verified block keeps every branch of the tree clean |
| Admission.EveryBranchIsClean | consensus/validator.go:224-270 | on no branch does a transaction occur twice, and every dependency occurs strictly earlier and unreverted |
| Admission.GenesisIsClean | chain/repository.go:77-86 | a fresh repository is indexed and clean |
| Repositories.Repository.constructor | chain/repository.go:77-86 | the genesis block alone |
| Repositories.Repository.AddBlock | chain/repository.go:181-198 | fails exactly for a missing parent or mismatched receipts; a new block prolongs its branch and no other; adding again changes nothing |
| Repositories.Repository.SetBestBlockID | chain/repository.go:123-142 | only a stored block can become best |
| CommonAncestor.FastSeek | commu/sync.go:150-170 | whenever the search ends, the seek reaches a height where the chains agree, and from there the bisection gives the result of the search |
| CommonAncestor.Find | commu/sync.go:123-148 | whenever it ends, the bisection gives the result of the search in at most as many probes; midpoints wrap at 2^32 |
| CommonAncestor.FindCommonAncestor | commu/sync.go:106-180 | the greatest height at which the chains agree, whenever the search ends, for every 32-bit head |
| CommonAncestor.EndsRight | commu/sync.go:123-180 | every step keeps what the search knows, so whatever it ends with is the greatest common height |
| CommonAncestor.SearchIsLogarithmic | commu/sync.go:106-180 | for heads up to 2^31 the search ends after logarithmically many probes |
| CommonAncestor.SearchEndsIff | commu/sync.go:106-180 | the search ends with every peer if and only if the head is not above 2^31 |
| CommonAncestor.SeekEndsIff | commu/sync.go:150-170 | the seek stops if and only if the head is not above 2^31, or the chains agree 2^31 below it |
| CommonAncestor.SharedGenesisOnly | commu/sync.go:150-170 | above 2^31, a peer that shares the genesis block alone is sought for ever |
| CommonAncestor.OneBlockBehind | commu/sync.go:123-148 | above 2^31, a peer that lacks only the head is bisected for ever |
| CommonAncestor.BranchesAreChainlike | commu/sync.go:111-121 | two branches agree downwards, and what is found is where they part |
| Analysis.Set | vm/analysis.go:61-63 | one more bit |
| Analysis.Set8 | vm/analysis.go:64-67 | eight more bits, across two bytes |
| Analysis.CodeSegment | vm/analysis.go:70-72 | in a bitmap of the code, whether an instruction starts at the position |
| Analysis.CodeBitmap | vm/analysis.go:75-99 | the bitmap marks exactly the bytes at which no instruction starts, without leaving its bounds |
| Interpreting.Destinations.Has | vm/analysis.go:35-54 | a destination is a JUMPDEST at an instruction start, also through the shared cache |
| Interpreting.PushDataIs | vm/instructions.go:901-921 | a push reads the bytes that follow, zeros past the end |
| Interpreting.Jump | vm/instructions.go:627-653 | JUMP, and JUMPI on a non-zero word, go to the word on top exactly if it is a destination, and fail otherwise; JUMPI on zero goes on; operands are popped, and missing ones fail |
| Interpreting.RunLoop | vm/interpreter.go:162-236 | program counters, machines and outcome are those of a step relation for each instruction; the counter visits only instruction starts and never wraps |
| Interpreting.RunsOnce | vm/interpreter.go:162-236 | code, machine and budget determine all of them |
| Interpreting.TraceStarts | vm/interpreter.go:162-236 | every visited position is an instruction start |
| Gas.FeeIsExact | vm/gas_table.go:27-58 | the computed memory fee is the fee of the Yellow Paper exactly below 2^32 words |
| Gas.Memory.GasCost | vm/gas_table.go:27-58 | fails exactly above the guard; otherwise the charge is the difference of the computed fees, in 64 bits |
| Gas.ChargeAll | vm/interpreter.go:183-205 | over any sequence of instructions of any size the charges succeed exactly if each can be paid in turn, and add up to all costs and the computed fee of the largest memory touched, which is the true fee exactly below 2^32 words |
| Gas.Contract.UseGas | vm/contract.go:123-129 | gas is taken if there is enough |
| Gas.ForwardedGas | vm/gas.go:42-58 | if a call can be paid, the forwarded gas is the requested gas capped at all but one 64th of what the base cost leaves |
| Gas.UnpayableBase | vm/gas.go:42-58 | if the base cost alone cannot be paid the charge fails, although the subtraction wraps |
| Gas.UncappedCall | vm/gas.go:42-58 | without the cap, what is requested is forwarded as long as it is a 64-bit number |
| Gas.GasCall | vm/gas_table.go:344-378 | the charge of a call and the gas set aside, and exactly when there is none, for every memory size |
| Gas.OpCall | vm/instructions.go:735-762 | a whole call: it is paid exactly if its base and memory can be; no sum wraps, and gas and memory fee together never grow |
| Energy.SettleOnce | state/account.go:39-57 | one more settlement loses at most one unit and gains nothing |
| Energy.CalcEnergyIs | state/account.go:39-57 | energy grows by rate times balance for every second since the last settlement, rounded down, and not without one |
| Energy.SettlementBound | state/account.go:39-57 | any number of settlements never yields more than one, and loses at most one unit each |
| Energy.NeverGainsIff | state/state.go:168-176 | a settlement at t never gains anything, if and only if there is no balance, t is zero, or `0 < blockTime <= t`: there was a settlement before, and no later than t |
| Energy.FirstSettlement | state/account.go:39-57 | the first settlement of an account with balance gains: until then nothing grows |
| Energy.InheritsFairlyIff | runtime/runtime.go:218-258 | the receiver of a destroyed contract's balance never has more energy than if it had been settled on receipt, if and only if it gets energy too, gets no balance, was never settled, or `0 < time <= blockTime` |
| Energy.InheritsUnsettled | runtime/runtime.go:218-258 | a new receiver of balance without energy is left with balance and no settlement, so its next settlement gains |
| Energy.State.OnSuicideContract | runtime/runtime.go:218-263 | the receiver inherits balance and current energy, and is settled only if there is energy to inherit; its energy is then the sum |
| Energy.State.Suicide | vm/instructions.go:863-872 | destroying a contract moves its balance and energy to the receiver and conserves the total balance, unless it names itself: then its balance is gone |
| Energy.State.SetEnergy | state/state.go:168-176 | the account reads as having this energy at this time; no balance and no other energy changes |
| Energy.State.Transfer | runtime/runtime.go:122-152 | balances move, total balance and all current energy stay, also when paying oneself |
| Execution.DataGas64 | tx/transaction.go:491-517 | the gas of data, or overflow exactly if it does not fit |
| Execution.IntrinsicGas | tx/transaction.go:457-488 | the intrinsic gas, or overflow exactly if it does not fit |
| Execution.IntrinsicIs | tx/transaction.go:457-517 | 5000 gas, 16000 for each clause (none counts as one), 32000 more for each that creates a contract, 4 for each zero byte of data and 68 for each other |
| Execution.WorkDecays | tx/work_eval.go:24-41 | proved work is never worth more gas at a later block |
| Execution.WorkToGasIs | tx/work_eval.go:24-41 | a thousand units of work are worth one gas, 100/104 of that after every 30 days of blocks, capped at 64 bits |
| Execution.GasPriceIs | tx/transaction.go:353-358 | the price is the base price raised by coefficient / 255 of it, rounded down |
| Execution.GasPriceGrows | tx/transaction.go:353-358 | from the base price at 0 to twice that at 255, and never less for a higher coefficient |
| Execution.OverallIs | tx/transaction.go:384-405 | proved work adds the share of the base price that it has in the gas, at most all of it, rounded down |
| Execution.RewardIs | runtime/runtime.go:429-443 | the reward is the ratio of gas used times overall price, rounded down |
| Execution.OverallAtMostDouble | tx/transaction.go:353-405 | proved work at most doubles the price |
| Execution.RewardAtMostPaid | runtime/runtime.go:429-443 | up to a ratio of one half the reward never exceeds the payment |
| Execution.RewardRatioIsTight | runtime/runtime.go:429-443 | no executable transaction earns more than it paid, if and only if the ratio is at most one half |
| Execution.FindCommonTo | runtime/resolved_tx.go:72-92 | the address that all clauses go to |
| Execution.BuyGas | runtime/resolved_tx.go:95-192 | the first payer able to prepay does, and nothing else changes |
| Executors.SettleBought | runtime/resolved_tx.go:108-147 | prepaying, returning and rewarding changes the payer by the payment, the credit by the payment and the beneficiary by the reward |
| Executors.LeftAfterIs | runtime/runtime.go:383-393 | the refund is the whole counter if that is at most half of the gas used, and otherwise that half |
| Executors.ClausesIff | runtime/runtime.go:377-406 | running clauses comes to a result exactly if there are results of single clauses, each on the state and gas the one before left, that lead there; the first failure takes all back but not the gas |
| Executors.BillIsCharged | runtime/runtime.go:407-450 | what is paid and rewarded, bounded by base price, coefficient, work and ratio alone |
| Executors.TransactionExecutor.NextClause | runtime/runtime.go:377-406 | gas only falls, refunds included; a failing clause takes back all clauses; it fails only if the outcome of all clauses is an error |
| Executors.TransactionExecutor.Finalize | runtime/runtime.go:407-450 | gas used lies between intrinsic gas and given gas, what is not paid is returned, and the ledger is the outcome of all clauses plus the bill |
| Executors.ExecuteTransaction | runtime/runtime.go:332-343 | the first able payer prepays, the clauses run, gas used at the raised base price is paid and the rest returned; an unpayable transaction leaves the ledger alone and a reverted one only its bill |
| TxPools.TxObjectMap.Add | txpool/tx_object_map.go:39-56 | refused exactly if the account has its quota; adding again is no error; otherwise the transaction is found by hash and by id, and all others as before |
| TxPools.TxObjectMap.RemoveByHash | txpool/tx_object_map.go:64-79 | the transaction is found neither by hash nor by id; quota and maps stay consistent |
| TxPools.TxObjectMap.Fill | txpool/tx_object_map.go:103-116 | adds what is missing in turn, without quota |
| TxPools.FilledFirst | txpool/tx_object_map.go:103-116 | what is added under a missing hash is the first object that has it |
| TxPools.InsertFoundIff | txpool/tx_object_map.go:39-56 | adding keeps every pooled transaction to be found by id, if and only if none pooled has the new one's id |
| TxPools.FoundThroughoutIff | txpool/tx_object_map.go:39-79 | over any run of additions and removals, all pooled transactions are found by id at all times, if and only if pooled ids differ at all times |
| TxPools.SharedIdIsLost | txpool/tx_object_map.go:64-79 | of two pooled transactions with one id, removing either leaves the other pooled but not to be found by id |
| TxPools.TxObjectMap.ToTxObjects | txpool/tx_object_map.go:81-90 | every pooled transaction once |
| Washing.SortByPrice | txpool/tx_object.go:95-100 | a permutation from high to low price |
| Washing.CutsWell | txpool/tx_pool.go:418-440 | cutting sorted executables and waiting transactions to the limit is fair |
| Washing.Wash | txpool/tx_pool.go:340-465 | what is blocked, out of lifetime or judged with an error goes, what was submitted here stays, at most the limit of others stay, nothing makes room needlessly, and an executable one only for others that offer as much; the executables that stay come out from high to low price |
| Washing.WashOnError | txpool/tx_pool.go:343-352 | the pool is cut to its limit |

## Findings

Where a promise does not hold of the code as it is, the model keeps the code and states the condition.

- The packer's gas sum wraps at 2^64 (`packer/flow.go:96`). A packed block is accepted exactly if its gas is
  within its limit, which holds as long as no sum wraps (`Packing.PackedIsAccepted`, `Packing.WrappedSumIsAdopted`). For
  the caller: an acceptable transaction is harmless exactly if block limit plus transaction gas stays below 2^64, or the
  limit is the greatest 64-bit number (`Packing.AlwaysWithinIff`).
- The memory fee is exact below 2^32 words only, while the guard admits more (`Gas.FeeIsExact`, `Gas.ChargeAll`).
- The ancestor search ends with every peer exactly for heads up to 2^31. Above that the doubling distance wraps, and
  the seek stops exactly if the chains agree 2^31 below the head; midpoints wrap too (`CommonAncestor.SearchEndsIff`,
  `CommonAncestor.SeekEndsIff`, with peers in `CommonAncestor.SharedGenesisOnly` and `CommonAncestor.OneBlockBehind`).
- A hash fetched as a raw entry hides the subtrie under it (`SyncReload.RawHidesSubtrie`). Synchronisations are complete
  exactly if no node with children of its own is asked for in both ways (`SyncReload.CompleteIff`). More generally the
  first request for a hash decides what its leaves are scanned for, so one hash asked for with two callbacks may leave out
  what only the second leads to: everything is stored exactly if each hash leads to the same hashes in whichever way it
  is asked for (`SyncProgress.EverythingIff`, `SyncProgress.FirstKindWins`).
- A node whose leaf callback failed may be stored before its children: exactly if something was registered before the
  failure and that was not all the node refers to (`SyncFailures.StoredEarlyIff`, `SyncFailures.BranchStoredEarly`).
- Energy grows from the last settlement, and an account with balance may never have been settled: destroying a contract
  hands over its balance always, but settles the receiver only if there is energy to hand over (`runtime/runtime.go:218-258`).
  A receiver without settlement gains nothing until its first one, which then gains (`Energy.NeverGainsIff`,
  `Energy.FirstSettlement`, `Energy.InheritsUnsettled`); one settled before also grows on the inherited balance for the
  time before it was received (`Energy.InheritsFairlyIff`).
- The pruner saves its progress only after waiting for blocks (`cmd/luckyshare/pruner/pruner.go:104-121`), so when it is
  stopped there it switches spaces a second time. Nothing live is lost (`Pruner.PruningIsSafe` covers it), but the next drop
  spares what was in use before the first switch (`Sweep.SwitchedTwice`); exactly what each drop spares is `Sweep.SweepIff`.
- A contract that is destroyed in its own favour loses its balance (`Energy.State.Suicide`).
- Of two pooled transactions with one id, removing one hides the other from lookups by id (`TxPools.SharedIdIsLost`);
  exactly if pooled ids differ throughout, everything pooled is found (`TxPools.FoundThroughoutIff`).
- A block reader whose position lies above the best block fails once, and moves to the best block without
  reporting the blocks undone (`BlockReading.BlockReader.Read`).
- The reward may exceed the payment exactly beyond a ratio of one half (`Execution.RewardRatioIsTight`).

## Left out

- Blake2b, Keccak and signatures: digests are parameters. So are the encodings of accounts and of transaction positions.
- Caches, locks, goroutines, feeds, context cancellation and batch flushing: they do not change what is computed.
- Database errors other than missing nodes.
- Short nodes with an empty key: the code would loop or panic on them, the model answers with an error; no well-formed trie has one.
- Proof.VerifyProof: the loop is given a number of rounds; any number above twice the key length plus one is enough for every key.
- TrieObject.Trie.NodeIterator: no start key, as the pruner uses it; so also Iterator.NodeIterator.
- Iterator.NodeIterator.constructor: no seek to a start key.
- The union iterator and leaf proofs.
- StorageArchive.ArchiveAccountTrie: the leaves are handled after the iteration, not during it; account and storage tries have spaces of their own.
- StatePruning.StatesStayReadable: the storage trie of an account is a function of its leaf, as given by the storage root in it.
- SyncProgress.EverythingIff: assumes that every hash asked for has an item, that leaf callbacks succeed on what is come across, and that nothing asks for itself, directly or not.
- The request queue of the synchroniser and its priorities: any order of results is covered.
- Validator.ProcessBlock: corrected receipt roots of known blocks, and the candidates cache, are not modelled.
- Packing.Flow.constructor: the slot and its updates come from a parameter that packer and verifier share.
- Repositories.Repository.AddBlock: block numbers are assumed not to wrap at 2^32; nothing is promised of the index when a known id comes with other receipts.
- Repositories.Repository.constructor: reopening an existing store is not modelled.
- Interpreting.RunLoop: charging, and instructions that do not touch the program counter, are parameters, and so is the moment of an abort; pushes and jumps are modelled.
- Executors.ExecuteTransaction: nothing is promised of the ledger when a clause ends in an error that is not the machine's; the callers drop it.
- Gas.OpCall: the native-call hook that adds gas is not modelled.
- Energy.State.OnSuicideContract: events and transfer records are not modelled, nor the flag that makes later code in the same transaction see the contract as destroyed.
- Execution.BuyGas: user credit and sponsors are read at one block time.
- Washing.SortByPrice: an insertion sort stands for sort.Slice, whose comparator is not strict on equal prices; it is assumed to sort by price all the same.
- Washing.Wash: the judgements on single transactions are parameters, and the clock is one of them.
- `FindBlockHeaderByTimestamp`, the HTTP API, the log database and the network: no part of this model.
