# Dogecash core logic in Dafny

A Dafny model of the stateful and arithmetic core of the node, with proofs. `dafny verify dfyconfig.toml`
checks the whole project. Hash functions, random draws, clocks and the network are parameters about
which nothing is assumed unless a contract says so.

| files | what they model |
|---|---|
| `AddrState`, `AddrOps`, `AddrEffects`, `AddrMan`, `AddrCheck`, `AddrLoad`, `AddrSerialize` | the address manager `CAddrMan`: seven cross-linked structures, every operation with what it keeps and what it does, its own consistency check, and saving and loading |
| `Coins`, `CoinsCache`, `CoinsCodec`, `CoinsUndo` | unspent outputs: the stack of write-back caches over the database, the record codec, and connecting and disconnecting blocks with undo data |
| `CoinChains`, `MintSelection` | zerocoin denominations: greedy payment, change minimisation, the selection of mints |
| `Powers`, `Limbs`, `ArithUint`, `Compact` | multi-word arithmetic on 32-bit limbs for any width, and compact targets |
| `CheckQueue` | the script-check queue as a state machine over its critical sections |
| `Base58`, `Bytes`, `Bip39`, `Compressor` | Base58 text, BIP 39 sentences, compressed amounts |
| `Chain`, `Budget`, `BudgetTies`, `Kernel`, `LockedPages` | the active chain, budget allocation and finalization (with the sorting lemmas in module `Ordering`), when nodes agree on it, stake-modifier selection, page locks |
| `Folding` | the marker that keeps large invariants folded |

How it is put together: what the source updates in place is a class whose methods are proved equal to
functions on values (`AddrMan` and `AddrState.State`, `Cache` and `CoinsStack.Stack`, `Queue` and
`CheckQueue.Shared`); invariants and laws are lemmas about those functions; and a method such as
`RunThenCheck`, `RunScript`, `RunSchedule`, `ConnectThenDisconnect` or `FinalizeAndVote` puts the
real objects together and states the law for every input or every run. A few invariants are kept folded
behind a marker predicate (`Inside`) so that lemmas which only pass them on do not unfold them.

What came out different from what one would expect of the code:

- Disconnecting a block does not put the coinstake flag of a used-up record back (src/main.cpp:2689-2697
  copies the coinbase flag, height and version only). A coinstake record is used up only when somebody also spends
  its empty first output, the marker (src/primitives/transaction.cpp:141-152): as long as no input names one,
  disconnecting restores the view and is clean (`CoinsUndo.MarkersSpared`). Once somebody does, the flag is lost
  (`CoinsUndo.CoinstakeForgotten`), and disconnecting further down, the block of the coinstake is reported as
  mismatched although nothing is damaged (`CoinsUndo.StakeReported`, with transactions `CheckTransaction` accepts
  and a mature spend). `CoinsUndo.BlockUndoneIff` and `CoinsUndo.TwoBlocks` give the exact conditions.
- `x *= x` on a 256-bit number gives 0, because the factor is cleared before it is read
  (src/arith_uint256.cpp:70-83); `ArithUint.BaseUint.MulAssign` states both cases.
- `Good_` with a time of zero or less leaves a state that `Check_` rejects, and `Attempt_` one with a negative
  time; `AddrOps.GoodKeeps` and `AddrOps.AttemptKeeps` are equivalences. Clock times are positive.
- `Add_` reports a new address even when it is dropped again at once because its slot is taken
  (src/addrman.cpp:286-314). `AddrOps.AddKept` says exactly when the address is known afterwards,
  `AddrOps.ReportedAndDropped` gives two additions of which the second is reported and dropped.
- `Check_` does not look for stale entries of the address index and misses the index entry of id 0;
  `AddrCheck.CheckIsInv` says exactly what it leaves unchecked, and `AddrCheck.CheckMisses` gives a state it accepts.
- A stored stream that lists an address twice loads into a manager whose index has lost it
  (`AddrLoad.EntryTwice`); `AddrLoad.LoadedInvIff` says, on the stream alone,
  exactly which streams load into a consistent manager.
- Proposals that tie in votes and fee hash have no determined order. Two proposals can share a fee transaction,
  since it may carry several commitments (src/masternode-budget.cpp:41-73). `Budget.TiesMatter` gives two
  rankings that pay for different proposals; `BudgetTies.NodesAgreeIff` says that nodes agree on the payments
  exactly when in each tie the proposals that fit one by one also fit together.
- Locking a range that reaches the last page of the address space never ends: the page number wraps to 0
  (src/allocators.h:55); `LockedPages.LoopEndsIff` says that this is the only such case.
- 20 and 28 bytes of data give sentences of 15 and 21 words, which `Check` rejects
  (`Bip39.GenerateThenCheck`).
- A cache must not be changed while a child of it is live: `CoinsStack.ParentTouched` shows the assertion of
  `BatchWrite` failing otherwise.

## Model

| member | source | states |
|---|---|---|
| `AddrState.SwapRandomKeeps` | src/addrman.cpp:103-121 | swapping two places of the random order keeps it a permutation every entry knows its place in, and moves nothing else |
| `AddrState.DeleteKeeps` | src/addrman.cpp:123-135 | deleting an unreferenced new entry keeps the whole invariant and removes just that id |
| `AddrState.ClearNewKeeps` | src/addrman.cpp:137-150 | emptying a slot of the new table keeps the invariant; an entry without references left is deleted |
| `AddrState.CreateKeeps` | src/addrman.cpp:91-101 | a created entry is linked from index and random order, off by one in the counter until it is counted |
| `AddrOps.DisplaceKeeps` | src/addrman.cpp:171-190 | evicting the occupant of a tried slot back into its new slot keeps ids, tables, references and counters consistent |
| `AddrOps.MakeTriedKeeps` | src/addrman.cpp:152-198 | moving an entry to tried keeps the invariant, puts it in its own tried slot and changes no other tried slot |
| `AddrOps.GoodKeeps` | src/addrman.cpp:200-247 | after `Good_` the matching entry is tried in its slot; the invariant holds again exactly when nothing matched or the time is positive |
| `AddrOps.AttemptKeeps` | src/addrman.cpp:317-334 | the invariant holds after `Attempt_` exactly when nothing matched or the time is not negative |
| `AddrOps.ConnectedKeeps` | src/addrman.cpp:478-496 | `Connected_` keeps the invariant for every time |
| `AddrOps.InsertKeeps` | src/addrman.cpp:293-313 | giving an entry its slot, or dropping it, keeps the invariant with one to eight references per new entry |
| `AddrOps.AddKeeps` | src/addrman.cpp:249-315 | `Add_` keeps the invariant for every address, source, penalty and random draw |
| `AddrOps.AddKept` | src/addrman.cpp:286-314 | afterwards the address is known exactly when it was before, or it is routable and its slot is free or held by a terrible entry or one with further references |
| `AddrOps.ReportedAndDropped` | src/addrman.cpp:286-314 | two addresses of one slot added one after the other: the second is not known afterwards although it was new |
| `AddrEffects.TablesTell` | src/addrman.h:177-216 | the entries are exactly those in one of the two tables, tried or new by the table, with as many references as slots; so the tables decide which entries there are |
| `AddrEffects.SlotsPlaced` | src/addrman.cpp:15-35 | slots go by the keyed hashes of service, source and bucket |
| `AddrEffects.TerribleCases` | src/addrman.cpp:38-56 | just tried: never terrible; otherwise from the future, unseen for thirty days or never seen: always; else after three attempts if it never worked, and after ten and a week if it did |
| `AddrEffects.AttemptDoes` | src/addrman.cpp:317-334 | counts the attempt and notes its time in the entry with that very port, and changes nothing else |
| `AddrEffects.ConnectedDoes` | src/addrman.cpp:478-496 | refreshes the time last seen exactly when it is more than twenty minutes old, and changes nothing else |
| `AddrEffects.MakeTriedDoes` | src/addrman.cpp:152-198 | the entry leaves every slot of the new table for its tried slot; whoever sat there takes the new slot its own source selects; no other slot changes |
| `AddrEffects.GoodDoes` | src/addrman.cpp:200-247 | notes success and try, starts counting attempts anew, and makes a new entry tried; other statistics stay |
| `AddrEffects.AddKnownDoes` | src/addrman.cpp:256-314 | a known address: services joined, time refreshed exactly when old enough, one more reference exactly when the news is newer, the entry new with fewer than eight, the draw succeeds and the slot is free or held by a terrible entry; nothing else changes |
| `AddrEffects.AddUnknownDoes` | src/addrman.cpp:280-314 | an unknown address: an entry under the next id with the penalty taken off its time and one reference in its slot if that welcomes it; otherwise the tables stay as they were |
| `AddrManager.AddrMan.constructor` | src/addrman.h:442-465 | a fresh manager has empty tables of the fixed sizes and satisfies the invariant |
| `AddrManager.AddrMan.SwapRandom` | src/addrman.cpp:103-121 | the in-place swap is the swap on the state |
| `AddrManager.AddrMan.Delete` | src/addrman.cpp:123-135 | the in-place deletion is the deletion on the state; its assertions hold |
| `AddrManager.AddrMan.ClearNew` | src/addrman.cpp:137-150 | the in-place clearing of a slot is that on the state; reference counts stay positive |
| `AddrManager.AddrMan.LeaveNew` | src/addrman.cpp:154-161 | scanning all 1024 buckets at the entry's position removes every reference it has |
| `AddrManager.AddrMan.MakeTried` | src/addrman.cpp:152-198 | in place, with eviction, equal to the function on the state; the assertions on slots and counts hold |
| `AddrManager.AddrMan.FindBucket` | src/addrman.cpp:226-241 | the search for a bucket holding a new entry succeeds from every starting bucket |
| `AddrManager.AddrMan.Good` | src/addrman.cpp:200-247 | in place equal to the function on the state, whatever bucket the search starts at |
| `AddrManager.AddrMan.Attempt` | src/addrman.cpp:317-334 | in place equal to the function on the state |
| `AddrManager.AddrMan.Connected` | src/addrman.cpp:478-496 | in place equal to the function on the state; keeps the manager valid |
| `AddrManager.AddrMan.Add` | src/addrman.cpp:249-315 | in place equal to the function on the state; true exactly for a routable address not known before, and says exactly when such an address is kept |
| `AddrManager.AddrMan.GetAddr` | src/addrman.cpp:457-476 | only the random order changes; the answer lists the entries among those visited that are decent by the clock at their turn, at most 23 percent and 2500, and stops short of the limit only after visiting all; state and answer are those of the function on the state |
| `AddrManager.GetAddrsKeeps` | src/addrman.cpp:457-476 | `GetAddr_` keeps the invariant and changes only the random order, for every clock and draw |
| `AddrManager.PlaceReached` | src/addrman.cpp:467-468 | every place not yet visited is drawn by some random number |
| `AddrManager.DecentComplete` | src/addrman.cpp:457-476 | a complete pass reports every entry that is not terrible |
| `AddrManager.DecentDistinct` | src/addrman.cpp:457-476 | no address is reported twice, and each belongs to a known, decent entry |
| `AddrCheck.Check` | src/addrman.cpp:380-454 | the scan over entries and both tables returns 0 exactly when the conditions it is meant to check hold |
| `AddrCheck.CheckIsInv` | src/addrman.cpp:380-454 | the invariant is what `Check_` checks plus three conditions it does not |
| `AddrCheck.CheckMisses` | src/addrman.cpp:380-454 | a state with a stale index entry that `Check_` accepts and the invariant rejects |
| `AddrCheck.ReachedPasses` | src/addrman.cpp:200-334 | the invariant holds and `Check_` accepts in every state of every run of Add, Good, Attempt, Connected and GetAddr from a fresh manager, with positive times for Good and none negative for Attempt |
| `AddrCheck.RunThenCheck` | src/addrman.cpp:200-476 | on a real manager every such run ends in the state of the run with the answers of the run, and `Check_` returns 0 and changes nothing |
| `AddrSerialize.Serialize` | src/addrman.h:289-337 | writes the header, the referenced entries in id order, the tried ones, and every bucket by stream index; both counter assertions hold |
| `AddrSerialize.Unserialize` | src/addrman.h:339-435 | fails exactly on a wrong key size or a short stream, and otherwise rebuilds entries, tried table, references and prunes as the function on the stream says, for every stream and version; the manager is then valid exactly for sane streams |
| `AddrLoad.LoadedHalf` | src/addrman.h:360-417 | whatever the stream holds, what is read is consistent up to the address index, and counted |
| `AddrLoad.PruneThins` | src/addrman.h:419-429 | pruning removes exactly the unreferenced new entries, with the index entries of their addresses, and keeps the count |
| `AddrLoad.LoadedReads` | src/addrman.h:360-417 | what is read are the new entries and the tried ones first in their slot, with the references the stream gives them |
| `AddrLoad.SaneIff` | src/addrman.h:360-429 | whether entries that stay have legal times and addresses of their own can be read off the stream |
| `AddrLoad.LoadedInvIff` | src/addrman.h:344-434 | the loaded manager is consistent exactly when the stream has a key other than zero, no negative count, and every entry that is seated or gets a reference has a legal time and an address no other entry has |
| `AddrLoad.EntryTwice` | src/addrman.h:360-429 | a stream that lists an entry twice: the copy is pruned and takes the index entry of the address with it |
| `AddrLoad.FlagFlipped` | src/addrman.h:356-358 | the exclusive or with 2^30 sets the flag or clears it, and is undone by itself |
| `AddrSerialize.SanePassesCheck` | src/addrman.h:434-434 | the check at the end of loading passes for sane streams |
| `AddrSerialize.NothingLost` | src/addrman.h:289-435 | loading what was saved gives back every entry, slot of both tables, reference count and counter under the stream numbering; nothing collides and nothing is pruned |
| `AddrSerialize.RenamedInv` | src/addrman.h:339-435 | a renumbered copy of a consistent manager is consistent |
| `AddrSerialize.SaveAndLoad` | src/addrman.h:289-435 | saving a real manager and loading it into a fresh one yields a valid manager that is the renamed original |
| `Coins.TrimFacts` | src/coins.h:121-127 | trimming keeps the outputs up to the last unspent one |
| `Coins.TrimUnique` | src/coins.h:121-127 | no other prefix does that |
| `Coins.CleanedFacts` | src/coins.h:121-127 | cleaning keeps whether a record is pruned; a clean record is pruned only without outputs |
| `Coins.Cleanup` | src/coins.h:121-127 | the loop computes the trimmed record |
| `Coins.TestPruned` | src/coins.h:280-286 | the loop decides whether every output is spent |
| `CoinsStack.FetchedKeeps` | src/coins.cpp:86-102 | a lookup through the whole stack keeps the meaning of all flags and every view |
| `CoinsStack.FetchedDeep` | src/coins.cpp:86-102 | a lookup changes no view at any depth |
| `CoinsStack.ModifiedKeeps` | src/coins.cpp:114-131 | a modification changes the view of one transaction, to the cleaned new record, and nothing else, and keeps the flag invariant |
| `CoinsStack.WriteView` | src/coins.cpp:165-200 | writing one dirty or clean entry of a child makes the parent show what the child shows there |
| `CoinsStack.WriteKeeps` | src/coins.cpp:165-200 | writing one entry keeps the flag invariant of the parent |
| `CoinsStack.FlushKeeps` | src/coins.cpp:202-207 | after a flush the base shows what the child showed |
| `CoinsStack.ParentTouched` | src/coins.cpp:165-200 | if a parent is changed under a live child, a dirty, unpruned entry that is not fresh can be unknown to the parent |
| `CoinsView.Database.BatchWrite` | src/txdb.cpp:21-76 | in any order of the entries: pruned records erased, dirty ones written, so that the database shows the merged view |
| `CoinsView.Cache.FetchCoins` | src/coins.cpp:86-102 | entries are pulled up through every cache on the way; fresh exactly when pruned |
| `CoinsView.Cache.GetCoins` | src/coins.cpp:104-112 | returns what the lookup finds in the stack |
| `CoinsView.Cache.HaveCoins` | src/coins.cpp:143-151 | testing for outputs alone decides whether the view has the record |
| `CoinsView.Cache.ModifyCoins` | src/coins.cpp:114-131 | hands out the cached, fetched or empty entry, dirty, and fresh when the base has nothing |
| `CoinsView.Cache.Release` | src/coins.cpp:278-286 | cleans the entry and drops it when it is fresh and pruned |
| `CoinsView.Cache.BatchWrite` | src/coins.cpp:165-200 | in any order of the entries the cache ends up showing the merged view, and the fresh assertion holds |
| `CoinsView.Cache.Flush` | src/coins.cpp:202-207 | empties the cache and makes the base show what it showed |
| `CoinsStack.FetchedBelowKeeps` | src/coins.cpp:86-102 | a lookup through a lower cache keeps the flags and views of all caches above it |
| `CoinsView.RunScript` | src/coins.cpp:86-207 | every script of reads through any cache of the stack, modifications, flushes, new caches and dropped caches over a database answers as plain maps do, and leaves the lowest of them in the database |
| `CoinsCodec.CalcMaskSize` | src/coins.cpp:17-34 | the number of mask bytes up to the last non-zero one, and how many are non-zero |
| `CoinsCodec.SomethingAvailable` | src/coins.h:204-207 | the assertion of the writer holds exactly for records that are not pruned |
| `CoinsCodec.HeaderFormat` | src/coins.h:203-212 | the bits of the header: both flags, the first two outputs, and the number of non-zero mask bytes, less one if neither of the two is unspent |
| `CoinsCodec.Serialize` | src/coins.h:200-228 | writes version, header code, mask, unspent outputs and height |
| `CoinsCodec.Unserialize` | src/coins.h:230-264 | reads mask bytes until enough non-zero ones came, then the outputs; fails exactly when the stream does not hold that |
| `CoinsCodec.RoundTrip` | src/coins.h:200-264 | for every record that is not pruned, reading what was written consumes exactly that and returns the record with spent outputs cleared and those at the end dropped |
| `CoinsCodec.NormalIff` | src/coins.h:121-127 | that is the record itself exactly when it is clean and its spent outputs are cleared |
| `CoinsCodec.ReadIsNormal` | src/coins.h:263-263 | whatever is read is clean |
| `CoinsUndo.Spend` | src/coins.cpp:36-52 | succeeds exactly on an unspent output; gives the cleaned rest and undo data with the record's own data when it was the last output |
| `CoinsUndo.FromTxHolds` | src/coins.h:92-100 | the record of a transaction holds each output that is neither null nor unspendable, unchanged and in place, and nothing else, with the flags, height and version of the transaction |
| `CoinsUndo.InputsNamed` | src/main.cpp:2395-2402 | the inputs are the outputs named, in order; a coinbase and a zerocoin spend have none |
| `CoinsUndo.KindsApart` | src/primitives/transaction.cpp:141-152 | no transaction is both a coinbase and a coinstake |
| `CoinsUndo.SpentExactly` | src/main.cpp:2395-2402 | spending removes the outputs named and leaves every other, with the data of its record |
| `CoinsUndo.ConnectExactly` | src/main.cpp:2392-2406 | connecting: the inputs go, the spendable outputs come, every other output stays as it is |
| `CoinsUndo.RecordUndone` | src/main.cpp:2685-2706 | undoing a spend restores the record, except for the coinstake flag of one that was used up; the consistency tests pass exactly unless a record of height 0 was used up |
| `CoinsUndo.UsedUpIff` | src/coins.cpp:36-52 | a record is used up exactly when inputs name every output it has left, and otherwise keeps exactly the others |
| `CoinsUndo.InputsUndone` | src/main.cpp:2681-2707 | undoing the inputs of a transaction from the last to the first restores every record up to those flags, with all consistency tests passed |
| `CoinsUndo.TxUndone` | src/main.cpp:2656-2707 | undoing a transaction is reported clean exactly unless it is a coinstake whose record has lost its flag |
| `CoinsUndo.MatchMeans` | src/main.cpp:2662-2674 | matching outputs are those of the record, with its flags, height and version, a negative version apart |
| `CoinsUndo.CleanMeans` | src/main.cpp:2689-2702 | undo data with a height wants no record there; without one it wants a record with nothing unspent but a zerocoin mint in the place |
| `CoinsUndo.BlockUndone` | src/main.cpp:2611-2708 | disconnecting the transactions of one or more blocks in reverse restores the view up to the coinstake flags of used-up records, and is clean exactly when no coinstake record made on the way was used up on the way |
| `CoinsUndo.BlockUndoneIff` | src/main.cpp:2611-2727 | the view is restored exactly when no coinstake record of it was used up, and the verdict is clean exactly when no coinstake record made on the way was |
| `CoinsUndo.TwoBlocks` | src/main.cpp:2590-2727 | of two blocks disconnected in a row the later is clean exactly when it keeps its own stakes, the earlier exactly when also the later used up none of its coinstake records |
| `CoinsUndo.AlwaysTidy` | src/main.cpp:3090-3137 | views reached by connecting regular transactions hold tidy records of a height other than 0: genesis transactions are never connected, and ids still in the view are refused |
| `CoinsUndo.NoneUsedUp` | src/primitives/transaction.cpp:141-152 | while no input names the empty first output of a coinstake, no coinstake record is used up |
| `CoinsUndo.MarkersSpared` | src/main.cpp:2590-2727 | then disconnecting restores the view and is clean, for any number of blocks |
| `CoinsUndo.CoinstakeForgotten` | src/main.cpp:2689-2697 | a coinstake record of which both marker and reward are spent does not come back |
| `CoinsUndo.StakeReported` | src/main.cpp:2662-2674 | a coinstake and a mature transaction that spends its marker and its reward, both valid: the block of the coinstake is reported as mismatched |
| `CoinsUndo.UpdateCoins` | src/main.cpp:2392-2406 | on a real cache: inputs spent, undo data collected, outputs added, so that the view shows exactly the outputs it should; the assertion holds |
| `CoinsUndo.DisconnectTx` | src/main.cpp:2656-2707 | on a real cache: outputs compared and removed, inputs restored in reverse, with the verdict of the consistency tests, which do not count zerocoin mints as available |
| `CoinsUndo.DisconnectBlock` | src/main.cpp:2611-2727 | on a real cache, for any undo data: the verdict, and the view when the undo data can be applied |
| `CoinsUndo.ConnectThenDisconnect` | src/main.cpp:2392-2727 | transactions connected and disconnected on real caches: clean exactly when the stakes are kept, and the view unchanged exactly when no coinstake record of it was used up |
| `CoinChains.PayExactly` | src/denomination_functions.cpp:40-62 | coins worth at least a multiple of their largest value contain an exact payment of it |
| `CoinChains.Exchange` | src/denomination_functions.cpp:40-62 | smaller coins can be exchanged for the largest: same value, no more coins |
| `CoinChains.GreedyBest` | src/denomination_functions.cpp:40-62 | no choice of held coins within the amount pays more than the greedy one, and none that pays as much has fewer coins |
| `CoinChains.GreedyComplete` | src/denomination_functions.cpp:40-62 | an amount payable from the held coins is paid exactly, with the fewest coins |
| `CoinChains.ChangeBest` | src/denomination_functions.cpp:67-87 | change pays the most possible with the fewest coins |
| `CoinChains.ChangeRest` | src/denomination_functions.cpp:67-87 | change leaves less than the smallest value |
| `MintSelection.DenominationsChain` | src/libzerocoin/Denominations.h:14-27 | the eight denominations divide one another in order |
| `MintSelection.CountCoins` | src/denomination_functions.cpp:12-20 | adds up the coins of all denominations |
| `MintSelection.GetSpendCoins` | src/denomination_functions.cpp:40-62 | the loops compute the greedy choice, for any target |
| `MintSelection.GetChange` | src/denomination_functions.cpp:67-87 | the loops compute the change, for any target |
| `MintSelection.GetIdealSpends` | src/denomination_functions.cpp:93-117 | the loops over mints compute the greedy choice from the unused mints; true exactly when it is worth the target |
| `MintSelection.IdealIff` | src/denomination_functions.cpp:93-117 | which is exactly when some selection of unused mints is worth the target |
| `MintSelection.IdealFewest` | src/denomination_functions.cpp:93-117 | and no such selection has fewer mints |
| `MintSelection.PayableIff` | src/denomination_functions.cpp:93-117 | a selection worth the target within a limit on its size exists exactly when the greedy choice is one |
| `MintSelection.GetSpends` | src/denomination_functions.cpp:122-142 | with enough unused mints the loops end and list distinct unused mints, as many as wanted per denomination, with their value |
| `MintSelection.TopUpOne` | src/denomination_functions.cpp:248-260 | the second stage adds at most one coin, the smallest larger than what remains |
| `MintSelection.BelowBest` | src/denomination_functions.cpp:230-246 | the first stage pays the most below the target that the denominations allowed can |
| `MintSelection.TopUpIff` | src/denomination_functions.cpp:248-260 | the second adds the smallest held coin larger than what remains if there is one, and nothing otherwise |
| `MintSelection.CancelDisjoint` | src/denomination_functions.cpp:271-283 | the third leaves no denomination in both payment and change |
| `MintSelection.AlternativePaid` | src/denomination_functions.cpp:262-287 | the amount left after removing overlaps is paid exactly by the greedy choice, with no more coins |
| `MintSelection.MinimizedPays` | src/denomination_functions.cpp:213-302 | whatever change minimisation returns is a held payment above the target with that change, never more change than before, and within the limit when it is less |
| `MintSelection.MinimizeChange` | src/denomination_functions.cpp:213-302 | the four stages compute the function for any target and limit |
| `MintSelection.CalculatedPays` | src/denomination_functions.cpp:310-399 | change other than 0 means: coins held, worth more than the target, and that many coins in the change on the excess |
| `MintSelection.CalculateChange` | src/denomination_functions.cpp:310-399 | the branches compute the function, with that guarantee |
| `MintSelection.FirstChoiceSmallest` | src/denomination_functions.cpp:323-328 | a held coin above the target: the smallest one is the first choice |
| `MintSelection.CoverTight` | src/denomination_functions.cpp:360-374 | without the smallest coin it takes the fallback falls short of the target |
| `MintSelection.CalculatedBest` | src/denomination_functions.cpp:330-399 | the result is the first choice or the alternative; minimising, it has no more coins in the change than either, the alternative counting only within the limit; not minimising, it spends a single coin if one is large enough and otherwise no more coins than the first choice |
| `MintSelection.CoverReaches` | src/denomination_functions.cpp:360-374 | the fallback takes enough coins whenever the held ones are worth the target |
| `MintSelection.CoverOrRoom` | src/denomination_functions.cpp:228-260 | either the fallback meets the target, or the alternative finds a larger coin to top up with |
| `MintSelection.CalculatedIff` | src/denomination_functions.cpp:310-399 | without an exact payment within the limit, change on a positive multiple of the smallest value is found exactly when a held coin is larger than the target or the fallback goes over it |
| `MintSelection.CalculatedSucceeds` | src/denomination_functions.cpp:310-399 | a target that is a multiple of the smallest value and cannot be met exactly is covered with change whenever the held coins are worth it |
| `MintSelection.SelectMintsFromList` | src/denomination_functions.cpp:405-437 | a non-empty answer lists distinct unused mints worth the selected value, at least the target; an exact selection within the limit is always found, with the fewest mints; otherwise a positive multiple of the smallest value is covered exactly when a held coin is larger or the fallback goes over it, which without any exact selection means exactly when the mints are worth it; minimising, the change has no more coins than that of either choice |
| `ArithUint.BaseUint.AddAssign` | src/arith_uint256.h:136-146 | addition modulo 2^BITS, for every width |
| `ArithUint.BaseUint.Negated` | src/arith_uint256.h:78-85 | two's complement negation |
| `ArithUint.BaseUint.SubAssign` | src/arith_uint256.h:148-152 | subtraction modulo 2^BITS through negation |
| `ArithUint.BaseUint.Increment` | src/arith_uint256.h:174-181 | adds one modulo 2^BITS |
| `ArithUint.BaseUint.Decrement` | src/arith_uint256.h:191-198 | subtracts one modulo 2^BITS |
| `ArithUint.BaseUint.MulWordAssign` | src/arith_uint256.cpp:57-67 | product with a word modulo 2^BITS |
| `ArithUint.BaseUint.MulAssign` | src/arith_uint256.cpp:69-83 | schoolbook product modulo 2^BITS, and 0 when a number is multiplied by itself in place |
| `ArithUint.BaseUint.ShiftLeftAssign` | src/arith_uint256.cpp:23-38 | left shift of any size: product with a power of two modulo 2^BITS |
| `ArithUint.BaseUint.ShiftRightAssign` | src/arith_uint256.cpp:40-55 | right shift of any size: quotient by a power of two |
| `ArithUint.BaseUint.DivAssign` | src/arith_uint256.cpp:85-109 | floor quotient with the remainder left in `num`; a zero divisor is reported |
| `ArithUint.BaseUint.CompareTo` | src/arith_uint256.cpp:111-121 | orders by value |
| `ArithUint.BaseUint.Bits` | src/arith_uint256.cpp:173-186 | the bit length of the value |
| `Compact.OverflowExact` | src/arith_uint256.cpp:219-222 | the overflow test holds exactly when mantissa times 256^(exponent-3) reaches 2^256 |
| `Compact.SetCompact` | src/arith_uint256.cpp:206-224 | the value modulo 2^256, with exact sign and overflow reports |
| `Compact.GetLow64` | src/arith_uint256.h:246-250 | the value modulo 2^64 |
| `Compact.GetCompact` | src/arith_uint256.cpp:226-247 | the encoding of the value at its byte length; both assertions hold |
| `Compact.RoundTrip` | src/arith_uint256.cpp:206-247 | decoding an encoding never exceeds the value, is less than one unit below, and encodes to the same |
| `Compact.CompactRoundTrip` | src/arith_uint256.cpp:206-247 | the same for the real methods on every 256-bit number |
| `CheckQueue.Queue.Add` | src/checkqueue.h:146-158 | queues the checks and raises the count |
| `CheckQueue.Queue.Complete` | src/checkqueue.h:80-86 | folds a result in, lowers the count and says whether the master is to be notified |
| `CheckQueue.Queue.Next` | src/checkqueue.h:91-119 | returns, waits or takes a batch of the right size from the back of the queue |
| `CheckQueue.BatchShare` | src/checkqueue.h:108-113 | a batch is the most that all threads and one more could take each, up to the batch size, but never nothing |
| `CheckQueue.Execute` | src/checkqueue.h:121-125 | checks run until one fails |
| `CheckQueue.StepKeeps` | src/checkqueue.h:69-158 | every critical section of every thread keeps the invariant |
| `CheckQueue.RunSafe` | src/checkqueue.h:69-168 | it holds in every state of every interleaving of a master and any number of workers, spurious wake-ups included, and the queue is idle whenever nothing was added since the last `Wait` |
| `CheckQueue.CountersExact` | src/checkqueue.h:46-60 | `nTodo` is queued plus in-flight checks, `nTotal - nIdle` the number of threads holding a batch |
| `CheckQueue.IdleBetweenRounds` | src/checkqueue.h:183-190 | a new controller finds the queue idle |
| `CheckQueue.MasterNotStuck` | src/checkqueue.h:91-104 | a master blocked without notification has checks to wait for, and some worker is running one |
| `CheckQueue.AlwaysProductive` | src/checkqueue.h:69-129 | while the master waits, some thread with a batch or a notification can go on |
| `CheckQueue.WaitBounded` | src/checkqueue.h:69-129 | however threads interleave, a `Wait` lasts for no more events of such threads than the weight it starts with |
| `CheckQueue.WeightBound` | src/checkqueue.h:69-129 | which is at most four times the open checks plus the number of threads |
| `CheckQueue.BatchesBounded` | src/checkqueue.h:108-119 | a round runs at most as many batches as checks were added for it |
| `CheckQueue.FinishLocks` | src/checkqueue.h:80-86 | finishing a batch keeps the invariant under the lock and never takes the count below zero |
| `CheckQueue.RoundsCover` | src/checkqueue.h:138-158 | the rounds of a run and what was added since hold exactly the checks added, in order |
| `CheckQueue.RunSchedule` | src/checkqueue.h:69-199 | on a real queue, under every schedule: the rounds are those of the run, each `Wait` returns exactly whether all checks added for it pass, and the queue is idle after it |
| `Base58.EncodeRoom` | src/base58.cpp:92-93 | the base 58 buffer holds every number of n bytes |
| `Base58.DecodeRoom` | src/base58.cpp:34-35 | the base 256 buffer holds every number of m characters |
| `Base58.Accumulate` | src/base58.cpp:94-105 | the carry loop multiplies the buffer and adds a digit; what does not fit is the carry |
| `Base58.SameUnique` | src/base58.cpp:84-117 | leading zeros and value determine the digits |
| `Base58.AlphabetIs` | src/base58.cpp:20-21 | the alphabet is digits and letters except 0, I, O and l, in the order of their codes |
| `Base58.EncodeBase58` | src/base58.cpp:84-117 | alphabet text with the same leading zeros and the same number; the carry is always 0 |
| `Base58.DecodeBase58` | src/base58.cpp:23-67 | accepts exactly alphabet text with spaces around it, and gives bytes with the same leading zeros and number; the carry is always 0 |
| `Base58.EncodeThenDecode` | src/base58.cpp:23-117 | decoding the encoding of any bytes returns them |
| `Base58.DecodeThenEncode` | src/base58.cpp:23-117 | encoding what any accepted text decodes to returns that text without the spaces |
| `Base58.EncodeBase58Check` | src/base58.cpp:129-136 | encodes the data followed by four bytes of its hash |
| `Base58.DecodeBase58Check` | src/base58.cpp:138-153 | accepts exactly the text of data followed by its own checksum, and returns that data |
| `Base58.CheckRoundTrip` | src/base58.cpp:129-153 | decoding checked text returns the data, for any hash |
| `Bip39.FromData` | src/bip39.cpp:46-78 | the words for the groups of eleven bits of data and checksum byte, joined by spaces; empty for other lengths |
| `Bip39.Check` | src/bip39.cpp:80-149 | true exactly for sentences made from 16, 24 or 32 bytes; the rebuilt buffer is then that data followed by the retained checksum bits |
| `Bip39.SentenceSplits` | src/bip39.cpp:64-78 | a sentence splits into its words |
| `Bip39.SentenceMatches` | src/bip39.cpp:104-149 | the buffer rebuilt from a sentence holds its data and its checksum matches |
| `Bip39.MatchAccepted` | src/bip39.cpp:134-149 | a buffer whose checksum matches spells the sentence it came from |
| `Bip39.SentenceInjective` | src/bip39.cpp:46-78 | different data give different sentences |
| `Bip39.GenerateThenCheck` | src/bip39.cpp:46-149 | generated sentences are accepted for 16, 24 and 32 bytes of any data and any hash, with the data and its checksum bits in the rebuilt buffer, and rejected for 20 and 28 |
| `Compressor.DecompressCompress` | src/compressor.cpp:129-181 | decompressing the compressed amount returns it, for every natural |
| `Compressor.CompressDecompress` | src/compressor.cpp:129-181 | and the other way round |
| `Compressor.Bijective` | src/compressor.cpp:129-181 | every number is the compact form of exactly one amount |
| `Compressor.CompactForm` | src/compressor.cpp:129-155 | (10q + d) * 10^e with d from 1 to 9 and e below 9 is written as 1 + 10 * (9q + d - 1) + e |
| `Compressor.CompactRound` | src/compressor.cpp:129-155 | k * 10^9 is written as 10k |
| `Compressor.CompressAmount` | src/compressor.cpp:138-155 | on 64 bits: the compact form modulo 2^64; no value on the way wraps exactly when the compact form fits |
| `Compressor.DecompressAmount` | src/compressor.cpp:157-181 | on 64 bits: the amount modulo 2^64; no value on the way wraps exactly when the amount fits |
| `Compressor.AmountRoundTrip` | src/chainparams.cpp:228-228 | for every amount up to the money cap no value on the way wraps in either direction, and the machine versions invert each other |
| `ChainIndex.Chain.SetTip` | src/chain.cpp:14-25 | although rewriting stops early, entry h is the new tip's ancestor at height h |
| `ChainIndex.Chain.FindFork` | src/chain.cpp:56-66 | the highest block of the chain on the given block's path, or none |
| `ChainIndex.Chain.GetLocator` | src/chain.cpp:27-54 | exactly the hashes one, then doubling steps apart: strictly descending ancestors from the start down to height 0, at most 12 plus the logarithm of the height |
| `ChainIndex.Chain.Next` | src/chain.h:602-608 | the successor of a block in the chain |
| `Budget.PaidWithin` | src/masternode-budget.cpp:790-834 | the total paid stays within the budget |
| `Budget.PaidInOrder` | src/masternode-budget.cpp:804-834 | paid proposals pass and keep the order of the ranking |
| `Budget.PaidExactly` | src/masternode-budget.cpp:805-834 | a passing proposal is left out exactly when it does not fit with those paid before it |
| `Budget.RankedByVotes` | src/masternode-budget.cpp:759-766 | more net votes rank first, and on equal votes the greater fee hash |
| `Budget.PaidMeans` | src/masternode-budget.cpp:790-834 | paid exactly if valid, established, covering the cycle, with more net votes than a tenth of the masternodes, and fitting with those paid before, all of which have at least as many votes |
| `Budget.LeftOut` | src/masternode-budget.cpp:790-834 | a passing proposal left out does not fit together with the paid ones of at least as many votes |
| `Budget.Manager.GetBudget` | src/masternode-budget.cpp:769-837 | ranks the proposals and pays and allots in rank order |
| `Budget.AllotExactly` | src/masternode-budget.cpp:810-825 | a passing proposal is allotted its whole amount if paid and nothing otherwise |
| `Budget.RankingUniqueIff` | src/masternode-budget.cpp:759-766 | the ranking is determined exactly when no two proposals tie |
| `Budget.TiesMatter` | src/masternode-budget.cpp:759-766 | two rankings of the same tied, valid proposals that pay for different ones |
| `Budget.PayoutWithin` | src/masternode-budget.cpp:2046-2049 | a budget assembled from the paid proposals meets the payout cap |
| `Budget.Assemble` | src/masternode-budget.cpp:176-186 | one payment per paid proposal, of the allotted amount, which is the full one exactly where the allotment is |
| `Budget.PaidAllotted` | src/masternode-budget.cpp:816-819 | every paid proposal is allotted its full amount, so that is what is paid out |
| `Budget.GetTotalPayout` | src/masternode-budget.cpp:1946-1955 | the sum of the payments |
| `Budget.Agrees` | src/masternode-budget.cpp:1875-1927 | the hash-sorted comparison succeeds exactly when there are proposals and the payments are theirs, in any order |
| `BudgetTies.AgreeIff` | src/masternode-budget.cpp:769-837 | for passing proposals of no negative amount, every ranking pays the same proposals exactly when in each tie those that fit one by one fit together |
| `BudgetTies.NodesAgreeIff` | src/masternode-budget.cpp:1828-1927 | and exactly then all nodes assemble the same payments |
| `BudgetTies.CheckTies` | src/masternode-budget.cpp:759-837 | decides that condition from the proposals alone |
| `BudgetTies.FinalizeAndVote` | src/masternode-budget.cpp:1828-1927 | what one node finalizes stays within the budget, and any node with the same proposals, votes and cycle votes for it exactly when it is not empty, given the condition |
| `Kernel.SectionsGrow` | src/kernel.cpp:39-44 | sections grow from a third of the interval to the whole |
| `Kernel.SectionExact` | src/kernel.cpp:39-44 | 60 * 63 / (63 + 2 * (63 - n)) rounded down |
| `Kernel.StopsGrow` | src/kernel.cpp:195-199 | the interval grows by one section each round |
| `Kernel.SelectBlockFromCandidates` | src/kernel.cpp:49-107 | picks the free candidate of least selection hash within the stop, or the earliest free one if none qualifies; fails only on a candidate without index entry or when none is free |
| `Kernel.ChoiceUnique` | src/kernel.cpp:49-107 | there is only one right choice |
| `Kernel.Scores` | src/kernel.cpp:78-94 | a mined block scores the hash of its block hash and the previous modifier, a staked one the high part of such a hash, of its block hash from the upgrade on and of zero before |
| `Kernel.StakeFavoured` | src/kernel.cpp:88-102 | a mined block is chosen over a free staked one only if its hash is smaller by 2^32; so with hashes below top * 2^32 only below top |
| `Kernel.EarliestStaked` | src/kernel.cpp:78-85 | before the upgrade the earliest free staked block is the staked one that can be chosen |
| `Kernel.ComputeModifier` | src/kernel.cpp:180-215 | sorts the candidates by time and hash, makes the right choice in each of min(64, n) rounds and sets bit r from the block of round r; succeeds when all candidates are indexed |
| `Kernel.RoundFavours` | src/kernel.cpp:195-215 | in every round a staked block that is free in its interval yields only to staked ones and to mined ones with a hash below top |
| `Kernel.ModifierBits` | src/kernel.cpp:205-205 | bit r of the modifier is the entropy bit of the block of round r, and there are no others |
| `Kernel.PicksDistinct` | src/kernel.cpp:195-215 | the rounds pick different blocks |
| `LockedPages.TouchesIff` | src/allocators.h:52-55 | the pages from first to last are exactly those that have an address in common with the range |
| `LockedPages.LoopEndsIff` | src/allocators.h:55-55 | on 64-bit addresses the page number passes the last page touched exactly when that is not the last of the address space |
| `LockedPages.Manager.LockRange` | src/allocators.h:47-66 | ends exactly then, with every page the range touches counted once more |
| `LockedPages.Manager.UnlockRange` | src/allocators.h:69-89 | ends for every live range, with every page it touches counted once less; the assertion holds |
| `LockedPages.RunOps` | src/allocators.h:47-89 | every run ends exactly when no range locked reaches the last page, and then the pages locked are exactly those some live range touches |

## Left out

- `CAddrMan::Select_`: it ends only with probability one, and its weights are floating point.
- Loading into an address manager that has been in use: `Clear` does not empty its maps.
- The group arithmetic inside the bucket hashes: buckets and positions are arbitrary functions of key, address and source.
- Service bits are a set and the attempt counter is unbounded; their widths play no part in the invariant.
- Network serialization of addresses: the stored peers are a record of the values in the order of the stream.
- Modifying a lower cache while a child is live, which the code forbids itself (`CoinsStack.ParentTouched`).
- Best-block hashes of the coin views.
- A modification may look at a record only when it is not pruned; what a pruned record still holds is not visible to it.
- `CCoins::GetSerializeSize`: it weighs the mask code differently from the writer.
- Variable-length integers and compressed outputs are single tokens; header codes are unbounded, which matters from 2^31 outputs on.
- Undo data on disk and the zerocoin database entries undone with a block.
- Amounts of coins are unbounded integers, held counts are not negative.
- Whether an answer with change respects the limit on spends: the fallback of `calculateChange` does not.
- Thread interruption, and leaving the worker loop through `fQuit`, which nothing sets.
- `DecodeBase58` on a string with an embedded zero byte, which ends there.
- The English word list itself: any list of 2048 different words of one to nine characters without spaces.
- `GetAncestor` through the skip list: its result, not its route.
- `Tip` for proof of stake, block trust, and comparing chains.
- Vote bookkeeping and masternode validity: vote totals and whether a proposal is established are given.
- The collateral transaction, relay and network part of finalizing a budget.
- Budget.Manager.GetBudget: with ties the order is left open, as it is by the sort; `BudgetTies` says when it matters. Amounts are at least 10 coins (src/masternode-budget.cpp:1469); the theorems need that none is negative.
- Gathering the candidates of a stake modifier from the block tree.
- Address ranges that wrap around the end of the address space.
- Hash functions, signatures, encryption, seeds from passphrases, wallets, configuration and RPC.
