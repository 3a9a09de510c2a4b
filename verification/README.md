# Order books on compressed Merkle tries: a verified model

This project models, in Dafny, the order-book engine of an exchange and the two compressed 16-way Merkle tries it rests
on, together with two smaller state machines of the same system, and proves the properties its design relies on. All
paths below are relative to the repository root.

* **The tries.** A trie is a map from fixed-length nibble keys to leaves. A node is `Empty`, `Leaf` or `Branch`; branches
  cache the sum of their leaves' metadata (size, endowment, deletion marks, rollback marks). `Canon` is the shape the
  block hash depends on: full-length leaves, children under their branch nibble, at least two children per branch, exact
  sums. Canonical tries are unique for their map, so every operation's contract, stated on the map, fixes the resulting
  nodes, sums and hash completely. Modules `Trie`, `Canonical`, `TrieOps`, `TrieMerge`, `TrieDelete`, `TrieMarks`,
  `TrieHash`, `HashCache`, `TrieSplit`, `TrieThreshold`, `TrieClean`, `TrieOrder`, `TrieQueries`, `Histories`.
* **The order book.** Producer clearing, validator re-clearing, undo records, rolling back, and the class that carries
  them (`Offers`, `OrderBook`, `Clearing`, `Undo`, `ClearedBooks`, `WorkUnits`, `Blocks`, `UndoOrder`); and a block on its
  way through a validator, from the arrival of its new offers to its rollback (`Validation`, `Shares`).
* **Persistence.** The five-phase batched write of block records, compared with applying the blocks one by one
  (`Batches`, `BatchTheorem`, `Persist`).
* **Demand queries.** The price index, its binary search and the fixed-width smoothing arithmetic (`PriceIndex`,
  `PriceTraversal`, `Smoothing`, `Demands`), and clearing at the prices of a query (`Rates`).
* **Account logs.** The work-stealing batch merge, under every schedule, and the parallel collection of values
  (`Stealing`, `Logs`, `Schedules`, `Ranges`).
* **Account views and the Bloom lookup table** (`Accounts`, `AccountViews`; `Cells`, `Peeling`, `Iblt`).
* **Words.** Prefixes packed into machine words refine nibble sequences (`Prefixes`; `Keys`, `KeyValues` for order).

`dafny verify dfyconfig.toml` checks everything.

## Where the code falls short of its intent

The model keeps the code's behaviour; where a property one would expect is false of it, the exact condition under which
it holds is proved, with a concrete failing case where that says more.

* `write_thunks` equals block-by-block application exactly when no offer cancelled in the batch that created it stays
  above all later thresholds, and no offer on disk stays untouched above all thresholds of a batch in which some but not
  all blocks clear the whole book (`BatchTheorem.BatchExact`, `PhantomHappens`, `StaleHappens`).
* `undo_thunk` restores the book exactly when the partially executed offer was not created in the block
  (`Blocks.BlockUndone`, `BlockNotUndone`).
* `rollback_thunks` works oldest first; this restores the book exactly when for every key the oldest and the newest
  record writing under it write the same (`UndoOrder.OldestFirstExact`, `OldestFirstFails`).
* `rollback_validation`, after a refused record or a failed later check, restores the book exactly when the header's
  threshold key is none of a new offer that was kept, and the header is not of the form "zero key, flag `thresholdKeyIsNull`
  down, nothing partially executed" over a block with new offers (`Validation.BlockRolledBack`), and what is left of the
  book before it is not a single provisional offer (`RollBack`). The first failure needs no odd header: the threshold
  offer just has to be new (`NewThresholdStays`). Headers of the second form are only turned down by `check_sanity`, after
  the new offers have been kept (no key precedes the zero key) and cleared (`KeptAndClearedStays`); for headers that pass
  `check_sanity`, the first condition alone decides (`SaneBlockRolledBack`). All this takes the flag
  `exists_partial_exec` of a refused record to be down; nothing has set it by then, and if it happens to be up, the book is
  not restored (`RefusedWithFlag`).
* `do_rollback` on a whole trie is right exactly when some leaf survives or there was none: a lone provisional leaf stays,
  and an emptied root branch is left without children (`TrieMarks.DoRollback`, `LoneLeafStays`). The latter is replaced by
  the merge of the undo that follows, unless cancelled offers are put back before that and the root has a non-empty prefix:
  then the insertion throws (`WorkUnits.WorkUnit.RollbackValidation`). It also leaves the root hash flagged valid, which is
  right exactly if no provisional leaf was live, until that merge (`HashCache.HashedTrie.DoRollback`).
* A validator sells the low 64 bits of the header's 128-bit share. It judges a header by the share itself, on every book
  with that threshold offer, exactly when the rounded-up share is below 2^64 (`Shares.JudgedByShareEverywhere`; for one book
  `JudgedByShare`); and what an accepted block takes out of the book is its recorded supply, rounded up, exactly under the
  same condition, as long as the sum compared does not wrap around 128 bits, where the condition is another one
  (`Shares.AcceptedConserves`). A header asking an offer to sell 2^64 units is accepted, and the offer sells nothing
  (`OverlargeShareAccepted`). A producer's share is always below (`Validation.RecordIsAccepted`, `ReplayBlock`).
* `get_metadata` answers "offers priced at most p" exactly when p is not the highest listed price
  (`PriceIndex.AnswerExact`).
* In consequence smoothing can make offers sell more than they have. With `u` the upper and `l` the lower price, `k` two to
  the smoothing parameter and the rate `sell / buy` at price radix `R`, what the offers between the prices sell stays
  within their endowment exactly when `l` is not the highest listed price, or `l == u`, or
  `(k - 1) * sell * R <= l * k * buy` (`Smoothing.SmoothingSound`, `SmoothingOversells`).
* `dedup` compares only the pairs of positions (0, 1), (2, 3), (4, 5), ... of the list it is given: it leaves no equal
  neighbours exactly when no element at an even position from 2 on equals the one before it (`Logs.DedupList`,
  `DedupMisses`). So nothing here depends on duplicate-freeness.
* `decode` on a Bloom lookup table leaves the core of the signed keys, the largest part of them in which no key has a cell
  of its own (`Peeling.CoreLargest`); so it decodes everything exactly when there is no such part (`Peeling.NoCore`). Its
  result looks at one cell per sub-range, and at no key words: success is reported exactly when the core leaves those cells
  looking empty (`Iblt.Table.Decode`), which it does whenever two keys share all their cells and none of these is looked
  at (`UndecodedUnnoticed`).

## Assumptions

Hash functions are injective on what they are given (a digest is a free term). Offer amounts and prices are positive and
prices fit 48 bits. Offer ids are used once. No key in play is all ones (64-bit owner and id and the price all maximal).
Amounts, counts and sums are unbounded integers except where 64- and 128-bit wrap-around is explicit: in `Smoothing`, in
the 64-bit guard of clearing, in the share a validator sells, and in the sum of supplies it compares. A sold amount is read as unsigned where
the original stores it signed. The checksum of a Bloom lookup table tells a cell of one key
from other cells. Atomics are modelled as atomic steps; locks and task scheduling as arbitrary
orders of steps. The disk is an ordered map.

## Model

| member | source | states |
|---|---|---|
| Canonical.CanonTrieUnique | implementation/src/merkle_trie.h:2979-3164 | two canonical tries for one map are the same tree, cached metadata included |
| Canonical.CanonUnique | implementation/src/merkle_trie.h:2979-3164 | the same for non-empty nodes, by structural induction on branch points |
| TrieOps.Insert | implementation/src/merkle_trie.h:2979-3164 | insertion keeps canonical form, updates the map at one key, and reports exactly the change of the node's metadata |
| TrieMerge.MergeIn | implementation/src/merkle_trie.h:3307-3643 | the five-case merge combines two maps leaf by leaf with the merge functor, ends canonical even if the second trie has lost subtrees, and reports the exact metadata change |
| TrieMerge.MergeChildren | implementation/src/merkle_trie.h:3395-3452 | merge case 1, slot by slot |
| TrieMerge.MergeBelow | implementation/src/merkle_trie.h:3453-3496 | merge case 2 |
| TrieMerge.MergeAbove | implementation/src/merkle_trie.h:3498-3592 | merge case 3 with the swapped recursion: contents, shape and delta as in the other cases |
| TrieMerge.JustifiedCompact | implementation/src/merkle_trie.h:3307-3330 | a trie whose branch prefixes all part keys in play, and that holds every key below it, has no single-child branch |
| TrieDelete.Delete | implementation/src/merkle_trie.h:1683-1712 | deletion returns the entry, removes exactly that key and keeps canonical form |
| TrieDelete.DeleteNode | implementation/src/merkle_trie.h:4041-4123 | node-level deletion: contents, at most a pending contraction at the node, exact delta |
| TrieMarks.SwapMark | implementation/src/merkle_trie.h:3679-3800 | marking and unmarking change one leaf's mark if it was in the expected state, return the value only then, and keep shape and sums |
| TrieMarks.PruneNode | implementation/src/merkle_trie.h:3803-3888 | removes exactly the marked leaves below a node, reports them in key order, and reports the exact delta |
| TrieMarks.PerformMarkedDeletions | implementation/src/merkle_trie.h:1574-1595 | the whole-trie form ends canonical, with the removed leaves in key order |
| TrieMarks.DoRollback | implementation/src/merkle_trie.h:1641-1648 | rollback removes exactly the provisional leaves if and only if some leaf survives or the trie was empty; what is left otherwise |
| TrieMarks.LoneLeafStays | implementation/src/merkle_trie.h:1641-1648 | a trie of one provisional leaf, at which it fails |
| TrieHash.RootHashExact | implementation/src/merkle_trie.h:2190-2250 | two tries have one root hash if and only if they have the same live leaves, whatever their marks and pending contractions |
| TrieHash.PruningKeepsRootHash | implementation/src/merkle_trie.h:2112-2187 | hashing around marked leaves gives the hash after removing them |
| TrieHash.LiveCountExact | implementation/src/merkle_trie.h:2223-2250 | the count hashed into the root is the number of live leaves |
| HashCache.CacheSurvives | implementation/src/merkle_trie.h:2979-2990 | hashes kept for nodes below which no key changed are the hashes of the nodes of the new trie |
| HashCache.ComputeHash | implementation/src/merkle_trie.h:2189-2220 | computing from whatever valid hashes there are gives the hash of the subtree, and fills in right hashes only |
| HashCache.HashedTrie.GetHash | implementation/src/merkle_trie.h:2274-2291 | the root hash is that of the trie, whatever is cached |
| HashCache.HashedTrie.InsertLeaf | implementation/src/merkle_trie.h:1440-1448 | after an insertion every valid flag stands by the hash of its node's present subtree |
| HashCache.HashedTrie.Delete | implementation/src/merkle_trie.h:1683-1712 | the same for a deletion, which invalidates nothing if the key is absent |
| HashCache.HashedTrie.SwapMark | implementation/src/merkle_trie.h:1543-1572 | the same for marking and unmarking, which invalidate nothing if the mark stays |
| HashCache.HashedTrie.PerformMarkedDeletions | implementation/src/merkle_trie.h:1574-1595 | the same for removing marked leaves, which invalidates the nodes above them only |
| HashCache.HashedTrie.MergeIn | implementation/src/merkle_trie.h:1490-1512 | the same for merging, the merged-in trie's valid hashes included |
| HashCache.HashedTrie.DoRollback | implementation/src/merkle_trie.h:1641-1648 | the same for rolling back, as to nodes; the root hash stays right if and only if no provisional leaf was live |
| HashCache.SplitOff | implementation/src/merkle_trie.h:1713-1747 | the same for a split, on both sides |
| HashCache.CleaningSpares | implementation/src/merkle_trie.h:3890-3922 | the same for the repair of single-child branches, which invalidates nothing below the root |
| Histories.Replay | implementation/src/merkle_trie.h:1490-1512 | any sequence of insertions, deletions, merges and removals of marked leaves ends canonical, with the map the operations denote |
| Histories.HistoriesAgree | implementation/src/merkle_trie.h:2223-2250 | two histories reach the same map if and only if they reach the same trie, and then the root hashes agree |
| TrieOrder.LeavesSorted | implementation/src/merkle_trie.h:5288-5315 | the leaves in traversal order are strictly increasing by key |
| TrieOrder.CachedTotal | implementation/src/merkle_trie.h:208-216 | a node's cached metadata is the sum over its leaves |
| TrieOrder.SortedUnique | implementation/src/merkle_trie.h:5288-5315 | a set of leaves has one sorted listing |
| TrieSplit.EndowSplitNode | implementation/src/merkle_trie.h:4147-4232 | a node-level split takes the longest key-ordered run within the budget; shape, sums and branch points of both sides |
| TrieThreshold.EndowSplit | implementation/src/merkle_trie.h:1713-1747 | succeeds if and only if the budget is at most the total, and then takes exactly the longest prefix of leaves within it, leaving the rest canonical |
| TrieThreshold.EndowLtKey | implementation/src/merkle_trie.h:5152-5212 | the sum of endowments over keys below the given key |
| TrieThreshold.RunIsBelowKey | implementation/src/merkle_work_unit.cc:995-997 | the run split off at that sum is exactly the leaves below the key |
| TrieClean.CleanSingleChildNodes | implementation/src/merkle_trie.h:1597-1607 | a trie whose single-child branches lie on the path to the key becomes canonical with the same contents |
| TrieClean.CleanNode | implementation/src/merkle_trie.h:3890-3922 | the node-level repair along the path |
| TrieClean.SplitOffPathOnly | implementation/src/merkle_trie.h:4147-4232 | in a trie split off below a key, single-child branches lie only on the path to that key |
| TrieQueries.AccumulateValues | implementation/src/merkle_trie.h:5288-5315 | the values of all leaves in key order |
| TrieQueries.GetLowestKey | implementation/src/merkle_trie.h:5214-5237 | the first key, or none exactly for the empty trie |
| TrieQueries.MergeTries | implementation/src/merkle_trie.h:1490-1512 | the whole-trie merge: canonical, the merged-in trie winning on shared keys |
| KeyValues.BeforeIsLess | implementation/src/price_utils.h:102-109 | byte order on equally long keys is numeric order of the numbers they encode |
| KeyValues.ValueOfDigits | implementation/src/price_utils.h:57-78 | writing a number big-endian and reading it back gives the number |
| Offers.KeyOrder | implementation/src/merkle_work_unit.h:378-390 | keys are ordered by price, then owner, then offer id, as numbers; two offers have one key if and only if they agree in all three |
| Offers.ZeroKeyUnused | implementation/src/merkle_work_unit.cc:895-916 | no offer has the all-zero key, which can therefore stand for "no partially executed offer" |
| Offers.SameOffers | implementation/src/merkle_trie.h:5288-5315 | books with the same offers list them alike, and conversely |
| FixedPoint.CeilMinus | implementation/src/fixed_point_value.h:121-127 | rounding up what remains of a supply after whole units were taken from it |
| OrderBook.PartialFits | implementation/src/merkle_work_unit.cc:1105-1211 | after splitting at the rounded-down supply the next offer covers the rounded-up rest, so the guard cannot fire |
| OrderBook.RemainingAmounts | implementation/src/merkle_work_unit.cc:1105-1211 | what the book gives up is the cleared offers plus what the threshold offer sold |
| Clearing.ProcessClearOffers | implementation/src/merkle_work_unit.cc:1036-1222 | succeeds if and only if the supply is within the book and 64 bits, every offer to be cleared settles (price within the rate, owner known) and the threshold offer's owner is known; then clears the longest run, partially executes the next offer and records both; cleared offers precede those left in price, at one price in owner, and for one owner in id |
| Clearing.Settle | implementation/src/merkle_work_unit.h:64-104 | the clearing functor over a trie throws exactly if some offer has no account or a price whose product with the buy price exceeds the sell price at price radix |
| OrderBook.SettlesExact | implementation/src/price_utils.h:228-230 | an offer of a known owner settles if and only if its price is at most the rate of exchange at price radix, rounded down |
| OrderBook.ClearsOnce | implementation/src/merkle_work_unit.cc:1036-1222 | the point a supply clears the book to is unique |
| Clearing.SupplyConserved | implementation/src/merkle_work_unit.cc:1046-1211 | the book's endowment drops by exactly the activated supply rounded up |
| Clearing.SplitLtKey | implementation/src/merkle_work_unit.cc:995-997 | the split at the endowment below a key just taken out is the "hypothetical split_lt_key" |
| Clearing.ClearForValidation | implementation/src/merkle_work_unit.cc:868-1034 | refuses a record if and only if it does not fit the book (threshold offer, low 64 bits of its share, its owner), leaving the offers; throws if and only if it fits and an offer does not settle; else clears at the recorded threshold |
| Clearing.PutBack | implementation/src/merkle_work_unit.cc:957-982 | a refused record's threshold offer is put back, in a fresh leaf without rollback mark |
| WorkUnits.WorkUnit.AddOffers | implementation/src/merkle_work_unit.h:232-236 | new offers join the uncommitted offers |
| WorkUnits.WorkUnit.MarkForDeletion | implementation/src/merkle_work_unit.h:238-240 | a cancelled offer leaves the live offers, not yet the book |
| WorkUnits.WorkUnit.TentativeCommit | implementation/src/merkle_work_unit.cc:36-46 | cancelled offers leave, new ones enter, the fresh record remembers both; throws exactly on an out-of-order block |
| WorkUnits.WorkUnit.ClearOffers | implementation/src/merkle_work_unit.cc:1036-1222 | clearing by the producer on the class, with its throws, completing the top record |
| WorkUnits.WorkUnit.TentativeClearOffers | implementation/src/merkle_work_unit.cc:868-1034 | clearing by the validator on the class: accepted, refused or throwing, exactly when |
| WorkUnits.WorkUnit.UndoThunk | implementation/src/merkle_work_unit.cc:48-74 | the book after an undo, as a function of the book and the record |
| WorkUnits.WorkUnit.RollbackValidation | implementation/src/merkle_work_unit.cc:110-142 | the book after rolling back a validation, as a function of the offers and the record, the root leaf or emptied root left by `do_rollback` included; when the undo throws |
| WorkUnits.WorkUnit.RollbackThunks | implementation/src/merkle_work_unit.cc:1270-1288 | later records are undone oldest first and removed; earlier ones stay in order |
| ClearedBooks.ClearedAtKey | implementation/src/merkle_work_unit.cc:1036-1222 | after clearing, exactly the offers below the threshold key are cleared, and the threshold offer holds what it has not sold |
| Validation.ValidatingManager.AddOffer | implementation/src/merkle_work_unit_manager.h:460-502 | a validator clears a new offer on arrival if the recorded key is null or above it, counting its supply, and else keeps it as provisional |
| Validation.ValidatingManager.AddOffers | implementation/src/merkle_work_unit_manager.h:460-502 | what a block's new offers leave: the kept ones as a book, the supply of the others |
| Validation.ValidatingManager.MergeInOther | implementation/src/merkle_work_unit_manager.h:521-534 | the managers of two threads combine offers and supplies |
| Validation.KeptIsRest | implementation/src/merkle_work_unit_manager.h:460-502 | the validator's book before clearing is the producer's without the offers cleared on arrival |
| Validation.ValidatorAgrees | implementation/src/merkle_work_unit.cc:868-1034 | from the producer's record a validator clears what the producer cleared except what it cleared on arrival, partially fills the same offer and ends with the same book; supplies activated on arrival, in clearing and by the share add up to the producer's supply |
| Validation.RecordIsAccepted | implementation/src/merkle_work_unit.cc:898-916 | the producer's record always fits the validator's book, passes the sanity check and makes nothing throw |
| Validation.Validate | implementation/src/edce.cc:367-411 | a validator accepts a block if and only if its record fits, everything cleared settles, supplies add up and the record is sane; the book and the record it leaves |
| Validation.ReplayBlock | implementation/src/merkle_work_unit.cc:20-35 | a whole block produced on one replica is accepted on the other, which ends with the same threshold offer, the same book and the same root hash |
| Shares.JudgedByShare | implementation/src/offer_clearing_logic.h:36-62 | on a book, a record is judged by its share itself if and only if the share fits 64 bits, or its low bits do not make it fit either, or there is no such offer or owner |
| Shares.JudgedByShareEverywhere | implementation/src/offer_clearing_logic.h:36-62 | whatever the threshold offer has left: if and only if the rounded-up share fits 64 bits |
| Shares.AcceptedConserves | implementation/src/work_unit_state_commitment.cc:111-132 | an accepted block takes exactly the rounded-up recorded supply out of the book if and only if the share fits 64 bits (or, where the compared sum wraps around, is 2^118 units) |
| Shares.OverlargeShareAccepted | implementation/src/merkle_work_unit.cc:957-970 | a share of 2^64 units is accepted and sells nothing |
| Blocks.BlockUndone | implementation/src/merkle_work_unit.cc:48-74 | undoing a block restores the book if and only if the partially executed offer is older than the block |
| Blocks.BlockNotUndone | implementation/src/merkle_work_unit.cc:48-74 | a new offer that is its block's threshold offer stays after the undo |
| Blocks.ProduceAndUndo | implementation/src/merkle_work_unit.cc:48-74 | the same through the methods of the class |
| Undo.CancelledMap | implementation/src/merkle_work_unit.cc:36-46 | the recorded cancelled offers and the live offers are the two parts of the book |
| Undo.ClearedParts | implementation/src/merkle_work_unit.cc:1036-1222 | cleared offers, remaining offers and threshold offer are the parts of the cleared book |
| UndoOrder.NewestFirstRestores | implementation/src/merkle_work_unit.cc:1270-1288 | undoing a run newest first restores the book |
| UndoOrder.OldestFirstExact | implementation/src/merkle_work_unit.cc:1270-1288 | oldest first does so if and only if oldest and newest writers of every key agree |
| UndoOrder.OldestFirstFails | implementation/src/merkle_work_unit.cc:1270-1288 | an offer created by one block and cancelled by the next comes back |
| UndoOrder.ValidationRolledBack | implementation/src/merkle_work_unit.cc:110-142 | rolling back a validation restores the book if and only if threshold offer and cleared offers are older than the block |
| Validation.BlockRolledBack | implementation/src/merkle_work_unit.cc:110-142 | rolling back a block, refused or failing a later check, restores the book if and only if the recorded threshold key is none of a kept new offer and the header does not make the validator both keep and clear new offers |
| Validation.RefusedWithFlag | implementation/src/merkle_work_unit_thunk.h:24-53 | a refused record's unset flag, if it is up, keeps the book from being restored |
| Validation.RollBack | implementation/src/merkle_work_unit.cc:110-142 | through the methods of the class: the book is restored if and only if, moreover, no lone provisional offer is left |
| Validation.SaneBlockRolledBack | implementation/src/work_unit_state_commitment.cc:83-97 | for headers that pass the sanity check: if and only if the threshold key is none of a new offer |
| Validation.NewThresholdStays | implementation/src/merkle_work_unit.cc:110-142 | the first failure at a concrete block that is rejected for its supplies |
| Validation.KeptAndClearedStays | implementation/src/merkle_work_unit.cc:110-142 | the second failure at a concrete block that is rejected by the sanity check alone |
| Batches.Life | implementation/src/merkle_work_unit.cc:1310-1665 | one offer through a run of blocks: present with what it has not sold, then gone for good |
| Batches.BatchExactAt | implementation/src/merkle_work_unit.cc:1310-1665 | under one key the five phases agree with block-by-block application if and only if neither failure occurs there |
| BatchTheorem.BatchExact | implementation/src/merkle_work_unit.cc:1310-1665 | the same for the whole disk |
| BatchTheorem.BatchExactUsually | implementation/src/merkle_work_unit.cc:1310-1665 | in particular if every record has a threshold offer and no key cancelled in the batch was created in it |
| BatchTheorem.MemoryApplies | implementation/src/merkle_work_unit.cc:1036-1222 | the book in memory after a block is what applying its record gives |
| BatchTheorem.DiskCatchesUp | implementation/src/merkle_work_unit.cc:1310-1665 | a disk that held the book before a run of blocks holds the book after it, exactly under the same conditions |
| BatchTheorem.PhantomHappens | implementation/src/merkle_work_unit.cc:1460-1537 | an offer cancelled in its own batch is written |
| BatchTheorem.StaleHappens | implementation/src/merkle_work_unit.cc:1398-1445 | an untouched offer survives a block that cleared the book |
| Persist.WorkUnitLMDB.WriteThunks | implementation/src/merkle_work_unit.cc:1310-1665 | takes the due records off the list, throws exactly on the two sequencing errors, and leaves the disk of the five phases |
| Persist.WorkUnitLMDB.DeleteCancelled | implementation/src/merkle_work_unit.cc:1355-1393 | phase 1: cancelled keys are gone and the greatest threshold is known |
| Persist.WorkUnitLMDB.DeleteBelow | implementation/src/merkle_work_unit.cc:1398-1436 | phase 2: the cursor sweep deletes exactly the keys below the greatest threshold, or all |
| Persist.WorkUnitLMDB.PutNewOffers | implementation/src/merkle_work_unit.cc:1456-1537 | phase 3: exactly the new offers not below any later threshold are written, latest record first |
| Persist.PriceFirst | implementation/src/merkle_work_unit.cc:1504-1531 | comparing prices and then keys is comparing keys |
| Persist.WorkUnitLMDB.SellPartials | implementation/src/merkle_work_unit.cc:1538-1620 | phase 4: every threshold offer found loses what it sold |
| Persist.NoOversell | implementation/src/merkle_work_unit.cc:1586-1605 | no record sells more than is on disk, so the throws of phase 4 are unreachable |
| Persist.WorkUnitLMDB.DropSwept | implementation/src/merkle_work_unit.cc:1622-1657 | phase 5: threshold offers below a later threshold are gone |
| PriceIndex.GetMetadata | implementation/src/merkle_work_unit.cc:506-537 | the binary search answers with the sum up to the price, or strictly below it at the highest listed price |
| PriceIndex.AnswerExact | implementation/src/merkle_work_unit.cc:506-537 | that is the sum over offers priced at most p if and only if p is not the highest listed price |
| PriceIndex.AnswerMonotone | implementation/src/merkle_work_unit.cc:566-588 | answers are monotone in the price |
| PriceTraversal.Traverse | implementation/src/merkle_trie.h:1967-2004 | the traversal lists every price once, in order, with cumulative sums |
| PriceTraversal.GenerateMetadataIndex | implementation/src/merkle_work_unit.cc:204-206 | the whole index, with its zero entry |
| Smoothing.ExecutionPricesLowBits | implementation/src/merkle_work_unit.cc:538-549 | the upper price is the low 64 bits of the rounded-down exchange rate |
| Smoothing.ExecutionPricesExact | implementation/src/merkle_work_unit.cc:538-549 | the upper price is the rounded-down exchange rate |
| Smoothing.SupplyBoundsOrdered | implementation/src/merkle_work_unit.cc:566-588 | the lower supply bound is at most the upper one |
| Smoothing.WideMultiplyExact | implementation/src/price_utils.h:232-238 | the split multiplication is exact whenever the result fits 128 bits |
| Smoothing.SmoothingSound | implementation/src/merkle_work_unit.cc:590-695 | the overflow throws are unreachable within the stated widths; what is bought is worth at most what is sold; the partial sell volume is at most the partial endowment at price radix if and only if the lower price is not the highest listed one, or is the upper one, or is within the smoothing factor of the rate |
| Smoothing.SmoothingWithinEndowment | implementation/src/merkle_work_unit.cc:590-695 | under that condition the buy volume, too, is worth at most the endowment |
| Smoothing.SmoothingOversells | implementation/src/merkle_work_unit.cc:590-695 | an index, a rate and a smoothing parameter at which the condition and the sell bound fail |
| Smoothing.PartialVolumes | implementation/src/merkle_work_unit.cc:590-695 | when no offer is above the rate and the shift fits, the 64- and 128-bit computation gives the exact smoothed volumes, the sell side rounded up and the buy side rounded down |
| Demands.PartialDemand | implementation/src/merkle_work_unit.cc:700-850 | told from the book: the smoothed volumes of a query are, exactly, those of the offers priced above the lower and at most the upper price, offers at the highest listed price left out as `get_metadata` does; it does not throw within the widths, and buys at most the worth of what it sells |
| Demands.DemandAndSupply | implementation/src/merkle_work_unit.cc:700-850 | the same for the whole query, with what the offers up to the lower price sell outright; no sum wraps around |
| Demands.AnswersIn | implementation/src/merkle_work_unit.cc:506-537 | what a query reads off the index is what the offers counted between its prices have, and ask for |
| Rates.SettlesAtUpper | implementation/src/merkle_work_unit.h:77-82 | the offers of known owners that clearing lets through are exactly those priced at most the upper price of a demand query at the same prices |
| Rates.ClearsWithin | implementation/src/merkle_work_unit.cc:1036-1222 | the offers a supply clears are priced within a bound if and only if no offer is dearer, or the supply falls short of those within and the cheapest dearer one |
| Rates.SupplyWithinBounds | implementation/src/merkle_work_unit.cc:566-588 | a supply within the upper supply bound of a query never makes clearing at the query's prices throw for its size or for an offer's price |
| Rates.GetSupplyBounds | implementation/src/merkle_work_unit.cc:566-588 | the two bounds of a query, told from the book |
| Stealing.StealChild | implementation/src/account_merkle_trie.h:1151-1201 | exactly the part below the prefix is taken, unless it is the whole trie; sizes and branch points of what is left |
| Stealing.MergeAt | implementation/src/account_merkle_trie.h:853-1024 | merging at an inner node and propagating the size change equals merging at the root |
| Schedules.BatchMerge.Split | implementation/src/account_merkle_trie.h:1257-1454 | a stealing split keeps what every account is owed; the new entry point waits for exactly what was below its prefix, tries that lie below it as a whole excepted, and the old one for the rest |
| Schedules.BatchMerge.Execute | implementation/src/account_merkle_trie.h:1456-1531 | executing an entry point keeps it too, whatever other entry points still wait |
| Schedules.Finished | implementation/src/account_merkle_trie.h:1257-1531 | at the end the main trie is canonical, of exact size, and holds every log, up to order |
| Schedules.SchedulesAgree | implementation/src/account_modification_log.cc:103-140 | two finished batch merges of the same logs become, normalised, one trie with one root hash, when sequence numbers determine new transactions |
| Schedules.HashMerged | implementation/src/account_modification_log.cc:103-140 | so do a finished schedule and serial merging |
| Schedules.NormalizeTrie | implementation/src/account_modification_log.cc:103-140 | normalising leaf by leaf keeps canonical form, sizes and keys |
| Schedules.MergeSerially | implementation/src/account_merkle_trie.h:1456-1531 | serial merging is the schedule without splits |
| Logs.NormalFormUnique | implementation/src/account_modification_log.cc:103-129 | any sort followed by `dedup` has one outcome on logs equal up to order |
| Logs.DedupList | implementation/src/account_modification_log.cc:91-100 | removes the second element of each pair of positions if it equals the first; leaves no equal neighbours if and only if no pair begins with what the one before it ended with; keeps one of each class of equals |
| Logs.DedupMisses | implementation/src/account_modification_log.cc:91-100 | two equal elements behind a different one both stay |
| Logs.NormalizeLog | implementation/src/account_modification_log.cc:103-129 | sorting and deduplicating the three lists of a log reaches a normal form of it, with no comparator named: own identifiers ascend, those of others by owner and sequence number, new transactions by sequence number; of each ascending list, an element at an odd position goes exactly if it is (or has the sequence number of) the one before it |
| Logs.NormalInPlainTerms | implementation/src/account_modification_log.cc:75-129 | every normal form, whatever sort it came of, is such |
| Ranges.SplitRange | implementation/src/account_merkle_trie_utils.h:817-851 | a split never throws, cuts a range into two non-empty consecutive ones, and keeps sizes and offsets |
| Ranges.WriteNode | implementation/src/account_merkle_trie.h:1135-1149 | a worker writes a node's values in key order from its offset on, and nothing else |
| Ranges.Accumulation.Split | implementation/src/account_merkle_trie_utils.h:817-851 | under any splits each slot waits in exactly one range or is written |
| Ranges.Accumulation.Work | implementation/src/account_merkle_trie.h:1109-1133 | a range's slots are written for the first time, and no others |
| Ranges.Finished | implementation/src/account_merkle_trie.h:1109-1133 | at the end the array is the key-ordered list of values |
| Accounts.UserAccount.ConditionalTransferAvailable | implementation/src/revertable_asset.h:170-187 | the compare-exchange loop, whatever other threads add meanwhile and however often the exchange fails, takes effect at one moment as "add unless the result is negative" and loses no addition |
| AccountViews.UserAccountView.ConditionalEscrow | implementation/src/memory_database_view.cc:5-26 | the escrow operation, with other threads at work, as a function of the view and of the shared balance it meets |
| AccountViews.UserAccountView.TransferAvailable | implementation/src/memory_database_view.cc:46-61 | the transfer operation |
| AccountViews.UserAccountView.CommitAsset | implementation/src/memory_database_view.cc:68-79 | one round of commit |
| AccountViews.UserAccountView.UnwindAsset | implementation/src/memory_database_view.cc:81-92 | one round of unwind |
| AccountViews.SpendIsGood | implementation/src/memory_database_view.h:24-37 | signs and books of a view are kept, and the shared balance moves by what the view gives |
| AccountViews.SpendSucceeds | implementation/src/memory_database_view.cc:5-66 | an operation succeeds exactly when the visible balance covers it, takes just the amount from it, changes nothing else, and lets no other view see more |
| AccountViews.BufferFirst | implementation/src/memory_database_view.cc:5-61 | an operation the buffer covers leaves the shared balances alone; any other that succeeds empties the buffer and takes from the shared balance just what was missing |
| AccountViews.StepKeeps | implementation/src/memory_database_view.h:24-37 | every step of every view keeps the account balanced |
| AccountViews.InterleavingsBalance | implementation/src/memory_database_view.h:24-56 | over any interleaving nothing goes negative, and at the end the balance is the start plus the committed net amounts |
| Iblt.Table.InsertKey | implementation/src/iblt.h:208-222 | the table encodes one key more |
| Iblt.Table.ComputeDifference | implementation/src/iblt.h:224-242 | the difference encodes exactly the keys of one side only, with the sign of that side |
| Iblt.Reconcile | implementation/src/iblt.h:208-311 | two replicas' tables subtracted and decoded: the decoded keys are exactly those on one side only, on the side reported, that are not in the core of the difference; a key whose hash, in some region, leaves a remainder no other one-sided key has is decoded; and all are decoded if and only if they can be ordered so that each has, in some region, a remainder no later one has |
| Iblt.DifferenceOk | implementation/src/iblt.h:56-65 | those signed keys, once each |
| Iblt.PeelRemoves | implementation/src/iblt.h:253-295 | peeling a pure cell takes exactly its key out of the table |
| Iblt.PeelsCommute | implementation/src/iblt.h:261-292 | two cells of one region can be peeled in either order |
| Iblt.Table.Decode | implementation/src/iblt.h:253-311 | the loop ends, output and remainder account for every signed key exactly, no pure cell is left, and the remainder is the core of the keys; success is reported if and only if the core leaves the cells looked at seeming empty |
| Peeling.CoreLargest | implementation/src/iblt.h:258-294 | the core holds every part of the keys in which no key has a cell of its own |
| Peeling.NoCore | implementation/src/iblt.h:258-294 | everything is decoded if and only if there is no such part |
| Iblt.UndecodedUnnoticed | implementation/src/iblt.h:296-311 | two keys with the same indices are never decoded, and success is reported if their cells are not looked at |
| Iblt.TableOf | implementation/src/iblt.h:202-222 | a new table encodes nothing, and after insertions the inserted keys |
| Cells.HitsExact | implementation/src/iblt.h:181-200 | a cell is a key's exactly if the hash of the cell's region leaves the cell's position in it |
| Cells.SharedCell | implementation/src/iblt.h:181-200 | two keys share their cell of a region if and only if the region's hash leaves them the same remainder |
| Peeling.DecodesAll | implementation/src/iblt.h:258-294 | peeling decodes everything if and only if the keys can be ordered so that each has, in some region, a remainder no later one has |
| Cells.ContentWithout | implementation/src/iblt.h:66-85 | taking a key out of what a cell holds subtracts its share |
| Prefixes.BranchBitsRefine | implementation/src/account_merkle_trie_utils.h:34-40 | the branch bits of an account id are the next nibble of its key; the throw |
| Prefixes.PrefixMatchRefines | implementation/src/account_merkle_trie_utils.h:42-56 | xor and leading-zero count give the match length of the keys |
| Prefixes.TruncateRefines | implementation/src/account_merkle_trie_utils.h:58-60 | truncation keeps a prefix of the key and zeroes the rest |
| Prefixes.SetNextRefines | implementation/src/account_merkle_trie_utils.h:88-98 | setting the next branch bits replaces one nibble |
| Prefixes.WordsMatchLen | implementation/src/merkle_trie_utils.h:79-102 | the word loop with trailing-zero count and half-byte correction gives the match length |
| Prefixes.WordsBranchBitsRefine | implementation/src/merkle_trie_utils.h:104-121 | branch bits of a byte-array key |
| Prefixes.WordsTruncate | implementation/src/merkle_trie_utils.h:123-140 | truncation of a byte-array key, in place |
| Prefixes.ByteOrder | implementation/src/merkle_trie_utils.h:222-237 | byte-wise comparison of keys is the order of the trie |

## Left out

- Nodes are values, not objects: a node owns its children exclusively (unique pointers; arena slots with one parent), so rewriting a node in place is modelled as producing its new value. Not captured: node addresses, locks, duplication for writing, and arena allocation with its pointer tags.
- `get_value`: it does not compare prefixes, so it is meaningful only for keys that are present; lookups are the map itself.
- Logs.NormalizeLog: which sort is used is left open in what is proved; the one written stands in for the library's.
- Account trie `insert`: it is the offer trie's insertion with a log appended to an existing leaf; only merging is modelled for account logs.
- WorkUnits.WorkUnit.ClearOffers: does not describe the state after a throw, which the original does not recover from either; payments, taxes, logs and statistics of clearing are other components' state.
- WorkUnits.WorkUnit.TentativeClearOffers: the same.
- Account creation inside a block: which accounts are known is one set, a parameter of clearing.
- TrieHash.RootHashExact: speaks of hashes computed afresh; that cached ones are the same is `HashCache.HashedTrie.GetHash`. In `HashCache`, routines may lower more flags than they must; the flags of account tries are not modelled.
- `finalize_validation` and `clear_rollback`: they reset rollback marks and would add only easy members.
- WorkUnits.WorkUnit.TentativeCommit: the indeterminate flag of a record whose clearing part is not filled in is taken to be down, except in `Validation.RefusedWithFlag`.
- AccountBatchMergeRange: which subtrees a split steals, and when, is left open (any prefix under an entry point that the main trie has a node below); the size heuristics and ownership lists that choose are not modelled.
- Schedules.BatchMerge.Execute: executing one entry point, with its size propagation, is one step; finer interleavings of its writes are not modelled. The main trie is non-empty, as the original ensures before it starts.
- Persist.WorkUnitLMDB: transactions, serialization and the persisted round counter's update belong to the database layer, which is not part of this model.
- Demands.DemandAndSupply: the final additions into the shared demand and supply workspaces are not modelled.
- Demands.PartialDemand: books and rates beyond the widths of the arithmetic are left to `Smoothing.PartialVolumes`.
- AccountViews: account creation and sequence numbers, and the unlimited-money variant.
- Iblt.Table.Decode: the parallel run over the cells of a region is modelled in cell order (`Iblt.PeelsCommute` has the order of two); serialization is not modelled. The purity test is assumed sound on what is left in the table.
- Prefixes.TruncateRefines: length 0 is excluded, since the source then shifts by the full word width, which C++ leaves undefined.
- Price and tatonnement solvers (floating point), networking, block production and the databases.
