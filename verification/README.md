# Verification of the trie, the address ledger and the key generation

The program is a proof-of-stake blockchain that stores who owns which IP addresses. This project
models its three hard parts in Dafny and proves what they are for.

* **The Merkle Patricia trie** (`trie.py`). `Trie` is the tree and its operations on nibble paths,
  `TrieMap` and `TrieCanonical` prove that they keep the normal form and refine a finite map, and
  that the normal form is unique, so a root depends on contents alone. `TrieNavigation` proves
  `next` and `prev`, `TrieSplitMerge` `split` and `merge`. `Encoding` is hex-prefix (Appendix C of
  the Ethereum Yellow Paper) and RLP (Appendix B) with a decoder as their inverse. `NodeItems` puts
  nodes into a content-addressed database, inline below 32 bytes and by hash otherwise, and
  `TrieStore` is the object itself: branch lists on the heap that are changed in place, inlined
  children included, and a database that keeps every published root readable. `TrieSharing` is `split`
  on these lists, with the exact condition under which two tries that share lists do not disturb each
  other. `TransactionRoot` applies all of it to the transaction root of a block.
* **The ledger and its block pipeline** (`balance.py`, `state.py`, `securetrie.py`, `db.py`, `apply.py`,
  `patricia_state.py`, `chain.py`, `chain_service.py`). `Ledger` says what one transaction does, account
  by account; `LedgerLaws` proves conservation and the delegation mirror, `Transfers` and
  `BlockRules` which transactions and blocks are taken and what an owner can rely on, `Effects` and `Blocks` that
  transactions of one block do not interfere, `IndexLaws` that the longest-prefix index names the holder
  of every address. `Stores` is the dictionary, the overlays on it and the counting store,
  `AccountTries` the account trie over such a store, addressed by its root. `StateValues` and
  `StateRuns` are the account cache and its undo journal on values, `State` is the object over its trie,
  and `StateDriver` runs it, beside and under clones that share its store. The classes `Balance`,
  `State`, `AccountTrie`, `Db`, `RefcountDb`, `PatriciaState`, `Chain` and `ChainService` update their
  fields as the program's objects do, and their methods are proved against these functions.
  `StateRoots` says what a reload of the chain shows. `ServiceRuns` puts everything together: every run
  of the service from genesis on.
* **The distributed key generation** (`Consensus/dkg.py`, `consensus.py`). `DkgAlgebra` is the
  algebra, `Dkg` the loops that add up, `DkgRuns` a member under every delivery order, and
  `ConsensusObject` the object that serves several members, with messages to all of them interleaved.

A hash is the term it was computed from (`Sha3(item)`, `HashOf(header)`), so it is injective, and a
database maps such terms to what they name. An address set is a finite set of bit strings.
Serialising an account loses nothing, and gives the same bytes for the same account. Signatures are
reduced to the sender they yield. `Options` and `Sealed` are helpers; a predicate that asks for every
`Seal` is looked into only where one is named, which keeps proofs about large objects short.

## Where the code falls short

Each of these is proved; where the code is right under a condition, the condition is exact.

* `prev` does not find an empty key that is alone in the trie (`PrevIsGreatestLess`).
* The parts of a `split` share branch lists with the original: the root list itself when it is split
  at the empty key, and every branch below 32 bytes that a part keeps in its slot. An update or delete
  of one of two such tries leaves the other one valid exactly if it changes no value, or passes through
  no list that the other one reaches (`UpdateBeside`, `DeleteBeside`); otherwise the other one's lists
  do not represent what its root hash names any more (`SplitThenUpdate`; `SplitMakesStale` with four
  keys). A part has the root hash of the blank trie until its first change (`SplitTrie`).
* A transaction whose recipient is its sender loses the allocated addresses, or records the
  delegation on one side only: the sender's record is written last (`ToOneselfBreaks`,
  `ApplyKeepsLedger`). Validation lets it pass.
* `validate_block` accepts blocks that `apply_block` does not apply: those with a repeated sender, with
  an allocation or delegation without recipient, or with a locator record whose priority or weight is
  zero, which is stored as no byte at all and cannot be read back (`ValidBlockApplies`). The block stops
  at the first of these. A zero field raises a ValueError and the whole block is reverted; the others
  leave the transactions before them applied (`ValidatedBlockIsWhole`, `RepeatedSenderStopsOnNonce`).
* A revert works after every run, commits included, exactly if no changes were pending at the
  snapshot (`RevertWorksIffNothingPending`); otherwise it can raise or miss a change.
* An index entry below a newly written prefix goes on answering with the old account; index and ledger
  go on agreeing exactly if no visible longer entry names another one (`WriteKeepsAgreement`,
  `StaleRun`).
* The header's state root is never compared with the state. After a block was added a reload shows the
  head ledger exactly if the header has the root of the ledger that its transactions give
  (`AddForReload`); at every head a block with another root is added too (`AddWrongRoot`), while blocks
  made by `create_block` have the right one (`CreateAndAdd`).
* `add_block` of the service takes a block's transactions out of the pool even when the chain turned
  the block down, although its comment speaks of blocks added to the chain
  (`ChainService.AddBlock`). This shows in the pool exactly if one of them is pending and valid
  (`RemovalShows`).
* A counter of 2^32 shifts one byte into the stored value (`PutAtLimitBreaks`).

## Model

| member | source | states |
|---|---|---|
| TrieMap.UpdateCanonical | trie.py:221-302 | an update of any key with a non-empty value keeps every branch with at least two used slots and every extension non-empty and above a branch |
| TrieMap.GetUpdate | trie.py:198-302 | for all keys: a lookup after an update finds the new value at the key and the old value elsewhere |
| Trie.NormalizeCanonical | trie.py:533-556 | a branch left with at least one item is turned into a node in normal form |
| TrieMap.GetNormalize | trie.py:533-556 | normalising a branch changes no lookup |
| TrieMap.GetDelete | trie.py:522-613 | for all keys: a lookup after a delete finds nothing at the key and the old value elsewhere |
| TrieCanonical.UpdateRefinesMap | trie.py:221-302 | update is assignment on the finite map of the contents, and `__len__` grows only for a new key |
| TrieCanonical.DeleteRefinesMap | trie.py:522-613 | delete is removal from the finite map, and `__len__` shrinks only for a key that was there |
| TrieCanonical.SizeIsCardinality | trie.py:627-643 | the counted size is the number of stored keys |
| TrieCanonical.AddEntries | trie.py:695-719 | the inner loop of `to_dict` adds exactly the entries of a subtree, with the prefix in front |
| TrieCanonical.ToDict | trie.py:685-731 | enumeration of a trie in normal form yields exactly its map |
| TrieCanonical.KidsToDict | trie.py:704-716 | the loop over the slots collects exactly the keys below them |
| TrieCanonical.CanonicalUnique | trie.py:533-556 | two tries in normal form with equal lookups are the same tree |
| TrieCanonical.ContentsDetermineTrie | trie.py:685-731 | two tries in normal form are the same tree exactly if they store the same map |
| TrieCanonical.RunRefinesMap | trie.py:754-764 | every run of updates and deletes refines the same run on a map |
| TrieCanonical.TrieIgnoresHistory | trie.py:221-302 | two histories end in the same tree exactly if they end in the same map |
| TrieCanonical.InsertThenDelete | trie.py:584-613 | deleting a freshly inserted absent key restores the trie as it was |
| TrieNavigation.NextIsLeastGreater | trie.py:503-506 | `next` is the least stored key above the given one, or none if there is none |
| TrieNavigation.PrevIsGreatestLess | trie.py:508-511 | `prev` is the greatest stored key below the given one exactly if the trie is not an empty key alone |
| TrieNavigation.GetAnyIsFirst | trie.py:304-333 | `_getany` yields the first, or last, stored key of every non-empty subtree |
| TrieNavigation.IterIsNeighbour | trie.py:458-501 | `_iter` yields the neighbour of the key in its direction, up to how it marks an empty rest |
| TrieSplitMerge.SplitPartitions | trie.py:335-392 | the left part holds exactly the smaller keys, the right part exactly the others, with their values |
| TrieSplitMerge.MergeIsUnion | trie.py:401-450 | merging separated tries gives a trie in normal form with the entries of both |
| TrieSplitMerge.AtMostOneCommonSlot | trie.py:443 | the assertion that at most one slot is used on both sides holds for separated tries |
| TrieSplitMerge.SplitSeparates | trie.py:335-392 | every key of the left part is below every key of the right part |
| TrieSplitMerge.SplitThenMerge | trie.py:394-456 | splitting at any key and merging gives back the same tree |
| Encoding.BinRoundTrip | trie.py:46-60 | joining the nibbles of a byte string gives the byte string back |
| Encoding.NibblesRoundTrip | trie.py:46-60 | splitting what was joined from an even list gives the list back |
| Encoding.OrderKept | trie.py:503-511 | the order of nibble lists is the order of the byte strings |
| Encoding.PackNibbles | trie.py:83-98 | the loop computes the hex-prefix form |
| Encoding.UnpackPack | trie.py:83-110 | unpacking a packed path gives back the path and its terminator |
| Encoding.PackUnpack | trie.py:83-110 | packing what was unpacked gives back the bytes exactly for well-formed hex-prefix strings |
| Encoding.PackInjective | trie.py:83-98 | different paths or flags pack differently |
| Encoding.AppendixC | trie.py:83-110 | in numbers: the flag nibble is 2 for a leaf plus 1 for an odd length, a zero nibble follows for an even one, and of a byte's nibbles the high one comes first |
| Encoding.BigEndianRoundTrip | utils.py:46-50 | big-endian numbers without leading zeros read back |
| Encoding.NoLeadingZero | utils.py:46-50 | no number is written with a leading zero |
| Encoding.FirstBytesCountMost | utils.py:46-50 | a number's first bytes count most |
| Encoding.DecodeEncode | trie.py:22-37 | a decoder gives back every encoded item and what follows it |
| Encoding.DecodesExactly | trie.py:22-37 | a strict decoder yields an item and a rest exactly for the encoding of that item followed by that rest |
| Encoding.AppendixBStrings | trie.py:22-37 | in numbers: what is in front of a string below 56 bytes, and from there on |
| Encoding.AppendixBLists | trie.py:28-37 | the same for lists, whose prefix bytes are 64 higher |
| Encoding.EncodingInjective | trie.py:22-37 | on nested lists with payloads below 2^64 the encoding is injective and prefix-free |
| NodeItems.LengthIsReal | trie.py:166-172 | the length compared with 32 is the length of the encoding for every 32-byte hash function |
| NodeItems.ReferenceRule | trie.py:166-176 | in bytes, for every 32-byte hash function: a reference takes at most 33 bytes, and is a hash exactly if the node is not blank and its own encoding has 32 bytes or more |
| NodeItems.NodeDecodes | trie.py:178-184 | the encoding of a node decodes to the packed path and value, the packed path and child, or sixteen children and value |
| NodeItems.RootBytes | trie.py:132-136 | the bytes hashed for the root of the blank trie, and of every trie with one key of three bytes and a value of five |
| NodeItems.NodeItemInjective | trie.py:166-176 | different nodes are written as different items, and referred to differently |
| NodeItems.RootHashNamesContents | trie.py:132-136 | root hashes are equal exactly if the contents are |
| NodeItems.RootIgnoresHistory | trie.py:132-136 | two histories have the same root hash exactly if they end in the same map |
| NodeItems.HeldGrows | trie.py:166-176 | a node that a database holds stays held when the database grows |
| NodeItems.PublishedGrows | trie.py:132-136 | every root that was published stays published when the database grows |
| NodeItems.PublishedDecodes | trie.py:142-150 | a published root decodes to exactly the tree it named |
| NodeItems.LoadGivesNode | trie.py:178-184 | decoding what a held node was written as gives the node |
| TrieStore.FindPrefixLength | trie.py:253-257 | the loop finds the longest common prefix |
| TrieStore.EncodeNode | trie.py:166-176 | the slot represents the node, inline or by hash, and the database only grows |
| TrieStore.EncodeNodeRule | trie.py:166-176 | in bytes: a record is added, under the hash of the node, exactly for encodings of 32 bytes or more; any other node stays inline and the database as it is |
| TrieStore.DecodeToNode | trie.py:178-184 | a slot decodes to lists that represent its node; an inlined child is the list itself |
| TrieStore.GetNode | trie.py:198-219 | lookup through lists and database equals lookup in the tree |
| TrieStore.UpdateNode | trie.py:221-238 | updating in place writes only the lists on the key's path, represents the updated tree and keeps the database content-addressed; a new value leaves no list on the path holding what it held, an old one leaves every list as it was |
| TrieStore.UpdateKvNode | trie.py:247-302 | the same below a key-value node, in all its cases |
| TrieStore.ForkNode | trie.py:272-296 | the new branch represents the fork of the old node and the new key |
| TrieStore.NormalizeBranchNode | trie.py:533-556 | normalising a list represents the normalised tree |
| TrieStore.DeleteNode | trie.py:522-531 | deleting in place writes only the lists on the key's path and represents the tree after the delete; a key that was there leaves no list on the path holding what it held, an absent one leaves every list as it was |
| TrieStore.DeleteHere | trie.py:565-568 | the value of a branch goes, and the branch is normalised |
| TrieStore.DeleteBelow | trie.py:565-582 | the same below a slot of a branch, which is normalised if the slot has become blank |
| TrieStore.DeleteFromKv | trie.py:584-613 | the same for a key-value node |
| TrieStore.DeleteSlot | trie.py:570-578 | a slot that compares equal after the delete may be left alone; the answer says whether it has become blank |
| TrieStore.PersistentTrie.Get | trie.py:733-734 | the object answers with the value of the tree it represents |
| TrieStore.PersistentTrie.Update | trie.py:754-764 | the object then represents the updated tree and names it by its root hash; every published root stays published |
| TrieStore.PersistentTrie.Delete | trie.py:615-625 | the object then represents the tree after the delete; every published root stays published |
| TrieStore.PersistentTrie.SetRootHash | trie.py:138-150 | setting a published root brings back exactly the tree it named |
| TrieStore.PersistentTrie.Replay | trie.py:132-184 | after any run every root hash met on the way still names its tree |
| TrieSharing.SplitNode | trie.py:335-392 | the parts of a split on lists and database represent the parts of the tree, no list changes, and a part that is a branch has the original's slots on its side |
| TrieSharing.SplitTrie | trie.py:394-399 | two new trie objects over the parts; the first one still is what it was |
| TrieSharing.UpdateBeside | trie.py:339-347 | an update of one of two tries leaves the other one valid exactly if the key had the value already or no list on the key's path is reached by the other |
| TrieSharing.DeleteBeside | trie.py:339-347 | the same for a delete, exactly if the key was absent or no such list is reached |
| TrieSharing.SharedSlot | trie.py:342-353 | a short branch that a part keeps is a list that both tries reach, and every change below it writes it |
| TrieSharing.SplitThenUpdate | trie.py:335-399 | after a split whose low part keeps a short branch, an update below that branch breaks the original for every such trie, cut, key and new value |
| TrieSharing.SplitMakesStale | trie.py:335-399 | four keys inserted, a split and one update of the low part: the first trie does not represent what its root hash names |
| TransactionRoot.IndexKeyInjective | apply.py:184-185 | different positions have different keys |
| TransactionRoot.ListTrieHolds | apply.py:182-187 | the trie holds each item under its position and nothing else |
| TransactionRoot.ListTrieDecodes | apply.py:182-187 | in bytes: the keys are exactly the paths of byte strings that decode to the number of a position, counted from 0, and the value there decodes to the item at that position |
| TransactionRoot.RootNamesList | apply.py:190-198 | transaction roots are equal exactly if the lists are |
| TransactionRoot.MkTransactionSha | apply.py:182-187 | the loop over the trie object computes the root of that trie |
| Networks.MembersCount | transactions.py:254-262 | a network with k host bits has 2^k addresses |
| Networks.SubnetMeans | transactions.py:254-262 | a network lies in another exactly if the widths agree and its prefix continues the other's |
| Networks.NestedOrDisjoint | transactions.py:254-262 | of two networks one lies in the other, or they have no address in common |
| LedgerLaws.OwnersStayDisjoint | apply.py:108-129 | no transaction gives an address a second owner |
| LedgerLaws.DelegationsStayOwn | apply.py:133-151 | an account delegates only what it owns, each address once, to others, with no empty entry |
| LedgerLaws.PairsStayMirrored | apply.py:116-121 | what is recorded as delegated stays what the other side records as received |
| LedgerLaws.TotalStays | apply.py:108-129 | the union of all owned addresses is conserved |
| LedgerLaws.ToOneselfBreaks | apply.py:123-128 | a transaction to its own sender loses the addresses or breaks the mirror |
| LedgerLaws.ApplyKeepsLedger | apply.py:105-171 | consistency and the total survive exactly if sender and recipient differ |
| LedgerLaws.ValidApplies | apply.py:105-171 | in a consistent ledger a valid transaction applies exactly if it has the recipient it needs and no zero locator field; it never fails on a missing key |
| Transfers.TakenExactly | apply.py:56-101 | validation passes exactly the transactions signed by an account other than the null address, at its current nonce, of the four kinds, and from an owner of the whole network if it is moved |
| Transfers.TurnedDownFor | apply.py:56-101 | which of the four errors is raised, and exactly when |
| Transfers.AppliesExactly | apply.py:105-171 | in a consistent ledger a transaction applies exactly if it is current and an allocation or delegation by an owner to somebody, a map server update, or a locator update without a zero |
| Transfers.AllocationMoves | apply.py:108-129 | an owner can always allocate to another account, which then owns exactly those addresses too; what was delegated of them is taken back, and all else stays |
| Transfers.DelegationLends | apply.py:132-152 | an owner can always delegate to another account, which then has exactly those addresses as its share; the owner stays the owner, and all else stays |
| Transfers.MapServersSet | apply.py:154-161 | a map server update always applies; for every address the last record is found, the locators are gone, and all else stays |
| Transfers.LocatorsSet | apply.py:163-169 | a locator update without a zero always applies; every address of the records is found with the weights of the last one, the map servers are gone, and all else stays |
| LedgerLaws.ReachableLedger | apply.py:238-269 | in every reachable ledger: disjoint owners, mirrored delegations, the genesis addresses, and nonces that count transactions |
| LedgerLaws.GenesisConsistent | genesis_helpers.py:37-46 | the first ledger is consistent exactly if no address is declared twice |
| Blocks.OtherSenderKeptValid | apply.py:56-101 | a transaction of another sender leaves validity and the affected shares as they are |
| Blocks.RunOutcome | apply.py:248-249 | validated transactions are applied exactly up to the first repeated sender, missing recipient or zero locator field, and the error says which |
| Blocks.StopIndexMeaning | apply.py:248-249 | nothing stops the run exactly if senders are distinct and all transactions can be executed |
| Blocks.ValidBlockApplies | apply.py:219-249 | a validated block is applied completely exactly if no sender repeats, no recipient is missing and no locator field is zero |
| Blocks.RepeatedSenderStopsOnNonce | apply.py:70-77 | with a repeated sender in a block that could be executed otherwise, the run stops there on the nonce, with everything before applied |
| Effects.EffectsCommute | apply.py:108-151 | the effects of two senders' allocations and delegations on any account commute |
| Effects.AccountsCommute | apply.py:105-171 | so do any two transactions of different senders, map servers and locators included |
| Blocks.ApplyCommutes | apply.py:105-171 | valid transactions of different senders give the same ledger in either order |
| Blocks.OrderDoesNotMatter | apply.py:238-249 | every permutation of a valid block gives the same ledger |
| Blocks.AnyOrderSameLedger | apply.py:219-249 | the same from what `validate_block` checks against a consistent parent |
| StateValues.JournalledMeans | state.py:87-115 | every marked cached account has a journal entry, and every other one agrees with the trie |
| StateValues.EmptyJournalMeansUnmarked | state.py:331-333 | the journal is empty exactly if no cached account is marked |
| StateValues.ReadIsView | state.py:59-85 | a read through the cache is a read of the committed and changed accounts |
| StateValues.SettersKeep | state.py:87-108 | a setter changes one field of one account and nothing else that can be read |
| StateRuns.UndoneTwice | state.py:309-316 | undoing in two steps is undoing in one |
| StateRuns.RevertRestores | state.py:305-322 | after any run of reads, writes, nested snapshots, and commits if nothing was pending, a revert restores every account and variable |
| StateRuns.RevertToClean | state.py:309-322 | from a snapshot with nothing pending a revert goes back from any state |
| StateRuns.RevertWorksIffNothingPending | state.py:305-322 | reverting works after every run exactly if the journal was empty at the snapshot; else a commit and one write make it raise or miss the write |
| AccountTries.RootsNameLedgers | securetrie.py:10-27 | under an injective hash of addresses and a faithful serialisation, roots are equal exactly if the ledgers are |
| AccountTries.NamedGrows | state.py:317-320 | a root that can be read from a store can be read from every store that has grown from it |
| AccountTries.AccountTrie.Get | securetrie.py:16-17 | the account that the root names for the address, or none |
| AccountTries.AccountTrie.Update | securetrie.py:10-14 | the root then names the ledger with the one account replaced, and the store has only grown |
| AccountTries.AccountTrie.SetRoot | securetrie.py:41-43 | going to any root that the store can read brings back the ledger it names |
| AccountTries.AccountTrie.Addresses | securetrie.py:22-27 | the addresses of exactly the accounts that the root names |
| BalanceObject.Balance.AddDelegatedIps | balance.py:32-37 | adds to the share of an account, new or old |
| BalanceObject.Balance.RemoveDelegatedIps | balance.py:39-43 | takes from a share and drops it when empty; a missing key fails and changes nothing |
| BalanceObject.Balance.AddReceivedIps | balance.py:45-50 | the same on the receiving side |
| BalanceObject.Balance.RemoveReceivedIps | balance.py:52-56 | the same on the receiving side |
| BalanceObject.Balance.AffectedDelegatedIps | balance.py:61-68 | the loop collects exactly the non-empty intersections with the delegated shares |
| BalanceObject.Balance.SetMapServer | balance.py:76-83 | the loop records every map server, a later record for an address over an earlier one, and clears the locators |
| BalanceObject.Balance.SetLocator | balance.py:88-99 | every entry shows the weights of the last record, since all share one list; fails exactly if some priority or weight is zero |
| StateObject.State.GetAndCacheAccount | state.py:59-77 | answers with the account as it can be read and keeps it in the cache |
| StateObject.State.GetBalance | state.py:79-82 | the result is a fresh copy of the stored holdings |
| StateObject.State.SetBalance | state.py:93-97 | the holdings of one account change, journalled |
| StateObject.State.SetNonce | state.py:105-108 | the nonce of one account changes, journalled |
| StateObject.State.IncrementNonce | state.py:110-115 | the nonce grows by one, journalled |
| StateObject.State.Commit | state.py:145-164 | the loop stores exactly the marked accounts, in any order, under a root that names what could be read before, and empties cache and journal |
| StateObject.State.Revert | state.py:309-322 | the loop undoes the journal down to the snapshot, or goes back to its root |
| StateObject.State.ToSnapshot | state.py:197-226 | the snapshot shows every account as it can be read, and the last 256 headers |
| StateObject.State.FromSnapshot | state.py:267-303 | a new state shows exactly the accounts and variables of the snapshot |
| StateObject.State.Clone | state.py:324-335 | a state of its own that shows the same, over a new overlay on the store of the original |
| StateObject.State.RootShows | state.py:331-333 | with nothing pending the root names exactly what can be read |
| StateObject.SnapshotRoundTrip | state.py:197-303 | a snapshot read back shows the same accounts |
| StateDriver.ExecuteAll | state.py:59-164 | every run on the object is the run on its value |
| StateDriver.TryAndRevert | state.py:305-322 | on the object: a run between snapshot and revert leaves no trace, because the store still holds the trie of the snapshot's root |
| StateDriver.RunOnClone | state.py:324-335 | no run on a clone changes what the original reads from the store below the clone's overlay |
| StateDriver.RunUnderClone | state.py:324-335 | no run on the original changes what a clone above it reads, although the store below it grows |
| ApplySteps.StepsMakeChange | apply.py:114-151 | revoking share by share, then recipient, sender and nonce, make the effect account by account |
| ApplyObject.ValidateTransaction | apply.py:56-101 | answers as validation on the ledger does and changes nothing that can be read |
| ApplyObject.RevokeShares | apply.py:117-121 | the loop takes every affected share from both sides, or fails exactly if some holder has no record of the sender |
| ApplyObject.MoveShares | apply.py:114-151 | all writes of an allocation or delegation together |
| ApplyObject.ChangeSettings | apply.py:153-166 | a map server or locator update changes its sender alone; a zero field fails with nothing written |
| ApplyObject.ApplyTransaction | apply.py:105-171 | the state then shows the ledger after the transaction; a failed one shows the old ledger |
| PrefixIndex.FindMeans | patricia_state.py:17-19 | lookup finds the longest entry around an address, or none if there is none |
| PrefixIndex.FindAfterWrite | patricia_state.py:13-15 | after a write exactly the addresses of the network that no longer entry contains find the new value |
| PrefixIndex.DeferredWrites | apply.py:262-264 | writing the collected changes at the end of the block is writing them one by one |
| IndexLaws.HoldsAfter | apply.py:108-151 | an allocation or delegation makes its recipient the holder of its network and changes no other holder |
| IndexLaws.WriteKeepsAgreement | apply.py:112-136 | index and ledger go on agreeing exactly if no visible longer entry inside names another account |
| IndexLaws.GenesisAgrees | genesis_helpers.py:43-44 | whatever the declaration, the first index agrees exactly if no address is declared for two accounts |
| IndexLaws.RunKeepsAgreement | apply.py:238-264 | over every run without shielded writes the index names every holder, deferred writes included |
| IndexLaws.IndexNamesHolders | genesis_helpers.py:24-53 | the same from genesis on |
| IndexLaws.StaleDelegation | apply.py:133-136 | delegating a whole after a part leaves the index wrong for the part |
| IndexLaws.StaleRun | apply.py:133-136 | this happens to every owner of the whole, in every consistent ledger |
| IndexLaws.StaleEntryFromGenesis | apply.py:133-136 | an example right after genesis |
| BlockApply.PatriciaState.GetValue | patricia_state.py:17-19 | the answer is the entry of the longest network around the address |
| BlockApply.ValidateShape | apply.py:190-216 | the checks in sequence accept exactly a header that follows its parent and names its transactions |
| BlockApply.PatriciaState.SetAll | apply.py:262-264 | the loop writes exactly the collected changes |
| BlockApply.ValidateBlock | apply.py:219-234 | accepts exactly the blocks that pass all checks |
| BlockRules.BlockTakenExactly | apply.py:190-234 | in numbers: a block passes exactly if signed by other than the null address, with the parent's hash, its transactions, the next number, a later timestamp up to 2^256 - 1, and current transactions of the four kinds from owners |
| BlockApply.ApplyTransactions | apply.py:246-249 | the loop shows the ledger of the run, whole or up to the failing transaction |
| BlockApply.ApplyBlock | apply.py:238-269 | ledger, headers and index change together; a malformed block and a zero locator field are reverted and change nothing; another failing transaction leaves the ones before it applied |
| BlockApply.TakeBack | apply.py:265-267 | the revert inside a block brings back ledger and variables from before, over a store that has grown |
| BlockApply.ValidatedBlockIsWhole | apply.py:219-269 | a validated block is whole exactly under distinct senders, present recipients and no zero locator field; else it stops at the first of these, and what was applied before is empty exactly if that is its first transaction |
| ChainHistory.TimestampsGrow | apply.py:201-216 | timestamps grow strictly along the chain, so no block occurs twice |
| ChainHistory.LinearGrows | chain.py:243-253 | a block that follows the head, is signed by other than the null address and names its transactions extends the linked chain, in which every block is like that |
| ChainHistory.PlaceAllMeans | chain.py:249-251 | after the writes the index knows the old transactions and the new ones, at their positions |
| ChainHistory.IndexGrows | chain.py:249-251 | every entry of the transaction index points at its transaction, and every transaction has one |
| ChainHistory.AtHeadGrows | chain.py:243-288 | all records and the header list move to the new head together |
| ChainObject.Chain.AddBlock | chain.py:218-296 | a validated block moves ledger, index, records and headers to the next height; a discarded or early one, and one stopped by a zero field, change nothing; one that fails otherwise leaves what was applied |
| ChainObject.Chain.Record | chain.py:247-276 | the loop stores the block, its number and the places of its transactions |
| ChainObject.Chain.Reload | chain.py:88-119 | the rebuilt state has the header list in memory cut at 257, which is its length from height 256 on; transaction count, number, coinbase and timestamp of the stored head block; and the accounts that its header's root names in the store |
| ChainObject.Chain.ReloadShowsHead | chain.py:98-99 | the store can read the head ledger under a root exactly if that is the root of the head ledger |
| StateRoots.AddForReload | chain.py:98-99 | after a block was added a reload shows the head ledger exactly if the header has the root of the ledger that its transactions give, which can be checked before |
| StateRoots.AddWrongRoot | chain.py:218-234 | at every head a signed block with a root that names nothing is added, and no reload shows its ledger |
| ChainObject.HeadersBack | chain.py:101-117 | the loop collects the headers back to genesis or to the depth limit |
| PoolSelection.SelectMeans | chain_service.py:92-104 | selected are exactly the first transactions per sender of the block's family that can be executed |
| PoolSelection.FamilyRule | chain_service.py:96-101 | in numbers: the first executable transaction of a sender in a family is selected exactly if its networks have 32 bits and the number is even, or 128 bits and it is odd |
| PoolSelection.SelectDistinct | chain_service.py:92-104 | no sender is selected twice |
| PoolSelection.SelectionIsValidBlock | chain_service.py:121-132 | the selection is a valid block of the right family that applies to the end |
| PoolSelection.TryNext | chain_service.py:93-104 | on the scratch ledger the next transaction applies exactly if its sender is new and it can be executed |
| PoolSelection.TriedSame | chain_service.py:89-101 | the choice on a copy that shows the same accounts is the choice on the original |
| PoolSelection.TriedApplies | chain_service.py:92-104 | whatever is pending, what was chosen is of the block's family and applies to the end |
| PoolSelection.TriedIsSelection | chain_service.py:92-104 | with every pending transaction valid or used up, the choice is the selection |
| PoolSelection.RemoveEachCounts | chain_service.py:148-150 | the pool loses one occurrence for each transaction of the block |
| PoolSelection.PurgeLeavesValid | chain_service.py:151-161 | removing the invalid ones leaves exactly the valid ones, in their order |
| PoolSelection.RemovalShows | chain_service.py:148-161 | taking a block's transactions out before the purge changes what the purge leaves exactly if one of them is pending and valid |
| ChainServiceObject.ChainService.AddPendingTransaction | chain_service.py:44-66 | the pool takes exactly the valid transactions |
| ChainServiceObject.ChainService.ChooseTransactions | chain_service.py:88-104 | the loop on a scratch state chooses what applies one after the other in the order of the pool, passing over what does not |
| ChainServiceObject.ChainService.CreateTries | chain_service.py:121-132 | applying to a clone gives the state root of the ledger that the list makes, or fails exactly if the list does not apply |
| ChainServiceObject.ChainService.CreateBlock | chain_service.py:69-107 | the block holds what applies of the pool, with the given coinbase and time, over the head, under the root of the ledger that it makes; with every pending transaction valid, it is the selection, IPv4 for an even number and IPv6 for an odd one, and passes validation once it is signed |
| ChainServiceObject.ChainService.AddBlock | chain_service.py:135-162 | a block is of the wrong family exactly if some network's width does not match the parity of its number; chain, ledger, index and pool after each outcome; the pool afterwards is what is left of it without the block's transactions and still valid |
| ChainServiceObject.ProcessBlock | chain_service.py:135-162 | after every cleanly accepted or rejected block the pending transactions are valid at the head, whatever was pending before |
| ChainServiceObject.CreateAndAdd | chain_service.py:69-162 | the chain takes every block made from its pool, and a reload shows the same accounts, the time and coinbase it was made with, and as many transactions as were selected |
| ServiceRuns.DeliverBlock | chain_service.py:135-162 | a delivered block moves ledger, index and last header as the run on values does, and the pool stays valid; only a block that passes the checks has to be proper |
| ServiceRuns.Serve | chain_service.py:44-162 | any run of submitted transactions, created and delivered blocks ends where the run on values ends, with a valid pool |
| ServiceRuns.RunKeeps | chain_service.py:44-162 | that run keeps the ledger consistent and its total, and if no added block has a shielded write it keeps ledger and index in agreement |
| ServiceRuns.ServeFromGenesis | chain_service.py:38-162 | every run from a genesis that declares each address once: the ledger owns what was declared, the pool is valid, and without shielded writes in added blocks the index names every holder |
| GenesisState.StateFromGenesis | genesis_helpers.py:24-53 | the state shows the declared accounts |
| GenesisState.StartChain | chain.py:36-66 | a new chain is at height 0; every account has nonce 0 and owns exactly what is declared for it; ledger and index agree exactly if no address is declared for two accounts |
| GenesisState.FirstIndex | genesis_helpers.py:43-44 | the loop makes an entry for exactly the declared networks, each for one of its accounts |
| RefcountValues.CounterReads | db.py:124-132 | a counter below 2^32 takes four bytes and reads back |
| RefcountValues.StoredBytes | db.py:124-156 | in bytes: four of the count, the most significant first, then the value |
| RefcountValues.PutCounts | db.py:150-156 | a put of the same content counts one up |
| RefcountValues.DeleteCounts | db.py:158-163 | a delete succeeds exactly if the count is positive, counts one down, and removes the last one |
| RefcountValues.RunCounts | db.py:141-163 | over every run within bounds: initial count plus puts minus deletes, present exactly while positive, values intact |
| RefcountValues.PutAtLimitBreaks | db.py:124-127 | the put that reaches 2^32 spoils value and count, and the next put fails |
| Stores.Db.Get | db.py:92-97 | reads see the overlay over the base, without what was deleted |
| Stores.Db.Put | db.py:99-100 | a put changes what readers of the overlay see at one key |
| Stores.Db.Delete | db.py:102-103 | a delete hides one key; on a dictionary it fails exactly if the key is absent |
| Stores.RefcountDb.Put | db.py:150-156 | on the stacked store: counts up, or fails if the value differs |
| Stores.RefcountDb.Delete | db.py:158-163 | on the stacked store: counts down, or fails if the key is absent |
| Stores.RunOnOverlay | db.py:85-163 | a run on the stacked store counts as above and leaves the base as it was |
| DkgAlgebra.HonestVerifies | Consensus/dkg.py:5-25 | an honest share verifies at every id |
| DkgAlgebra.ShareIsPolynomial | Consensus/dkg.py:14-17 | with integers for keys a share is the polynomial with the secrets as coefficients, at the id |
| DkgAlgebra.OnlyTheShareVerifies | Consensus/dkg.py:21-25 | with integers for keys nothing but that share verifies |
| DkgAlgebra.SumPermuted | Consensus/dkg.py:27-44 | sums do not depend on the order |
| DkgAlgebra.ShareOfSumVector | Consensus/dkg.py:34-44 | the share of the summed vector is the sum of the shares |
| DkgAlgebra.SummedShareVerifies | Consensus/dkg.py:21-44 | if all shares verify, the summed share verifies against the summed vector |
| Dkg.GenerateContribution | Consensus/dkg.py:5-19 | the loops compute the public keys and one share per id |
| Dkg.AddContributionShares | Consensus/dkg.py:27-32 | the loop adds up from the last share; an empty list fails |
| Dkg.AddedSharesAreSum | Consensus/dkg.py:27-32 | that is the sum of the shares |
| Dkg.AddVerificationVectors | Consensus/dkg.py:34-44 | the loops add up every position; no vector, or one longer than the first, fails |
| Dkg.SlotIsSum | Consensus/dkg.py:37-42 | a filled position is the sum of its column |
| DkgRuns.ReceivedIffValidSent | consensus.py:226-239 | a member's share is there after a run exactly if one of its messages was valid, whatever else arrived |
| DkgRuns.ReceivedIsFirst | consensus.py:232-236 | what is stored for a member is its first message that verifies at the receiver's id, and no later one changes it |
| DkgRuns.HonestRunCompletes | consensus.py:226-261 | a run with every honest contribution completes |
| DkgRuns.RunsVerify | consensus.py:232-239 | everything a member ever stores verifies at its id |
| DkgRuns.CompletedSecretFits | consensus.py:241-250 | a completed secret has as its public key the summed vector at the member's id |
| DkgRuns.CompletedMembersAgree | consensus.py:226-261 | for any two runs in which each source uses one vector: both secrets fit the same summed vector, and the group keys are equal |
| DkgRuns.GroupKeyOfSecrets | consensus.py:246-248 | if every vector is honest the group key is the public key of the sum of all first secrets |
| ConsensusObject.Consensus.VerifyDkgContribution | consensus.py:226-255 | the first valid share of a source is stored; when the table is complete the secret and the group key are the sums over it |
| ConsensusObject.Aggregate | consensus.py:241-250 | the sums over a complete table in the order of some dictionary are the sums in every order |
| ConsensusObject.Deliver | consensus.py:226-255 | one message changes the table of its destination alone, and keeps the group key the key of the vectors if each source uses one |
| ConsensusObject.DeliverAll | consensus.py:226-261 | after any messages to any ids in any interleaving each id has the table of its own messages and, once complete, the sum of its shares; if each source uses one vector the group key is the common key as soon as any id is complete |
| ConsensusObject.CompletedId | consensus.py:241-250 | a complete id of a node has a secret key that fits the summed vector at that id, and with honest vectors the group key is the public key of the sum of all first secrets |
| ConsensusObject.NewDkg | consensus.py:177-224 | all ids of the node hold each other's shares, and what is returned are exactly their contributions to the rest of the group |

## Left out

- TrieSplitMerge.SplitThenMerge: states equality of trees, not of stored bytes, because merge keeps decoded children inline whatever their length.
- TrieNavigation.NextIsLeastGreater: works on trees, without the database reads on the way, which TrieStore.GetNode covers for lookup and TrieSharing.SplitNode for split; so do merge and the enumeration.
- TrieStore.PersistentTrie.Update: the list `deletes` of recorded digests is not kept, since nothing reads it; the database is a value that the helper methods pass on.
- TrieStore.UpdateNode: a key-value list holds its path and flag instead of the packed string; UnpackPack and PackUnpack say that nothing is lost.
- NodeItems.RootHashNamesContents: the hash is a constructor, so collisions do not exist.
- Encoding.EncodingInjective: only below 2^64 bytes of payload, where the prefix byte ends.
- BlockApply.ApplyBlock: states nothing about the accounts left after a missing key; ValidApplies shows that it does not occur in a consistent ledger.
- BlockApply.ValidateShape: the transaction root is the list that it names, since RootNamesList says that roots are equal exactly if the lists are; the trie is not recomputed in this method.
- StateObject.State.Commit: the branch for deleted accounts, which nothing in the program deletes, and the address records that the head writes beside the trie.
- StateObject.State.Clone: the counting layer between trie and store is left out of a state's store; RunOnOverlay proves that layer over an overlay.
- AccountTries.AccountTrie.Update: opens the trie from its root for every operation, where the program keeps the decoded root between them; Replay covers the object that keeps it.
- AccountTries.RootsNameLedgers: takes it that serialising is a function of the account, which pickling is not promised to be; the address lies back under its hash by a function instead of a record.
- ApplyObject.ApplyTransaction: records with an odd number of fields or an unknown address family, which raise on parsing, cannot be written as a transaction here.
- ChainServiceObject.ChainService.ChooseTransactions: says nothing if a pending transaction raises on a missing share in the middle of its writes, which leaves the scratch state half written; a consistent ledger excludes that.
- ChainServiceObject.ChainService.CreateTries: gives the state root only; the transaction trie of the same loop is the one of MkTransactionSha.
- ChainServiceObject.CreateAndAdd: that the head reaches the root computed on the clone rests on deterministic serialisation.
- ChainServiceObject.ChainService.CreateBlock: ignores the size limit of a block and the random number, group key and signature fields; the current time is a parameter.
- ChainObject.Chain.AddBlock: blocks from the future are set aside and never come back, and the branches for unknown or other parents cannot be reached once a block is validated, so neither queue is kept; nor are the child records and the log of changed accounts.
- ChainObject.Chain.Reload: says nothing about timestamp and coinbase, which `add_block` does not set in memory; a root that the store does not have raises, and is excluded here; the genesis snapshot is read into a store of its own.
- RefcountValues.RunCounts: for values that are a function of their key, as in the trie; below 2^32 references.
- Stores.RefcountDb.Put: stacked on the overlay as under a clone; the store of the head state sits on a plain dictionary with the same operations.
- DkgRuns.CompletedMembersAgree: needs each source to send one vector to all, which nothing in the protocol enforces.
- ConsensusObject.NewDkg: the random polynomials are a parameter; the previous group key is not kept.
- TrieSharing.SplitNode: each trie has a view of its own on the database, which only grows.
- Empty values in the trie, which update would store as blanks, and the limit of 32 bytes that only delete checks.
- That a journal entry holds on to an account object dropped from the cache is not modelled, nor are code and storage of accounts.
- Signatures and key recovery, the clock, pickling, the key store and the BLS program.
- The radix tree's nodes, netaddr's set representation, LevelDB and its write cache, ListeningDB.
- Forks: the call in `chain.py:262` lacks an argument, so such a block is always turned down.
- Random beacon, signature shares and signer selection of `consensus.py`; recovery of a group secret.
- Network, peer-to-peer, locator requests and the main loop.
