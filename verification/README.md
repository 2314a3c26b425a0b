# Verification of the DERO node's core algorithms

A Dafny model of the parts of the node on which consensus, contract balances and wallet balances rest, with
proofs of what they promise. Nothing here depends on the node's own code; every file is checked by

    dafny verify dfyconfig.toml

## What is modelled

**Suffix arrays** (`Pigeonhole`, `SuffixOrder`, `InducedOrder`, `Reduction`, `Buckets`, `Induce`, `Memory`, `Passes`,
`Scans`, `LmsPasses`, `Codes`, `Names`, `Expand`, `Sais`, `Pow`, `Index`). The construction by induced sorting works in
place on slices of shared arrays: one array is input, work queue, marker store, scratch space and result, and the
recursion runs on a reduced text packed into it. The passes are written once, over slices of 16-bit or 32-bit cells and
any alphabet, and stand for the byte and integer forms of all three source files. The specification is one line,
`IsSuffixArray`: a permutation of the positions whose suffixes ascend. Above the in-place code stands a ghost placement
of positions to places (`Induce`), in which both sub-scans and both final scans are instances of the same two steps.

**The canonical chain** (`ChainState`, `ChainSteps`, `ChainRuns`, `Topo`, `Chain`). Blocks, record file, tips and
snapshots form a state; adding and rewinding are functions on it, `Inv` is what they keep, and the class `Blockchain`
does the same in place, over the record file `TopoStore` and its searches.

**The nonce discipline** (`Spend`, `Tokens`, `ChainSpend`, `BlockVerify`). A branch is a sequence of blocks by height.
Executing a transaction is a sequence of events on accounts, and the nonce check is characterised exactly in terms of
the events between the reference block and the tip; tokens have trees of their own. `ChainSpend` takes the branches from
the block store: over every run of the chain no transfer is executed twice.

**Contracts** (`Variables`, `Ledger`, `BlockLedger`, `LedgerCalls`, `Settlement`, `Dvm`, `Operators`, `Semantics`,
`Interpreter`, `Contracts`, `Programs`). The byte form of variables, the overlay of a call's writes, the ledger phases
of a call, the payments after it, what operators compute, what a program means and what that costs, and the
interpreter, which succeeds exactly on programs whose meaning costs no more than the limits allow.
`Contracts.InvokeContract` joins them: it says exactly which calls go through, and conservation holds for every program; `Programs` computes two of them
in full; `BlockLedger` follows a contract's balances over all transactions of a block.

**Pruning** (`Prune`, `Metadata`). The store is rewritten from the changes that contract metadata shows, and the commit
at the end of a block writes that metadata; together they say which heights of which chains survive.

**Balance decoding** (`BalanceDecoder`), **Bech32** (`Checksum`, `Bech32`, `Bech32Vectors`, `ConvertBits`),
**miniblocks and rewards** (`MiniBlocks`, `Rewards`) and the **block codecs** (`MiniBlockCodec`, `BlockCodec`) stand
alone. `Powers`, `Partition` and `Totals` hold what several of the modules use.

Hashes, ciphers and execution of a block are function parameters; ids do not collide where a proof says so. Points are
elements of any cyclic group in which the first 2^64 multiples of the generator differ. A balance is the number that is
encrypted. Store snapshots are immutable maps from tree names to trees, a commit builds on the snapshot the trees were
taken from, and version 0 means the most recent one.

## Where the code differs from what it says

Each of these is kept in the model as the code has it; its exact condition is in the table below.

- Any block of height 0 counts as raising the chain (`blockchain/blockchain.go:866`), so a second one replaces
  record 0: `ChainSteps.AddKeepsInv`, `ChainSteps.SecondGenesisAccepted`, `ChainRuns.SecondGenesisReached`.
- A registration overwrites an existing account and resets its nonce (`blockchain/transaction_execute.go:173-202`):
  `Spend.KeyCheckExact`, `Spend.RegistrationReopens`.
- The trees of tokens are loaded again for every transaction of a block (`blockchain/blockchain.go:934-939`), so what an
  earlier transaction of the block did to a token is dropped, its nonces included: `Tokens.TokenCheckExact`,
  `Tokens.TokenUseLost`. If the token is that of a contract, what earlier calls took in, sent and wrote is dropped from
  its tree, while what they paid stays paid: `BlockLedger.BlockConserved`, `BlockLedger.DepositDropped`.
- A possible sender without an account of the token in the reference state is not checked
  (`blockchain/transaction_verify.go:135-190`): `Tokens.TokenPayloadExact`, `Tokens.StaleTokenSpend`.
- The deposit of incoming value is not checked for overflow (`dvm/sc.go:206-212`): `Ledger.ConservedExactly`,
  `Ledger.DepositWraps`.
- Of two payloads of one asset only the later burn is counted as incoming
  (`blockchain/transaction_execute.go:290-293`): `Ledger.IncomingCounts`, `Ledger.BurnsConserved`,
  `Ledger.BurnOverwritten`.
- Any 32 bytes can be sent as an asset (`dvm/dvm_functions.go:398-430`), so a contract can send away the bytes of its own
  variable: `Ledger.BytesKept`, `Ledger.VariableSent`. A block whose execution takes out a tree without metadata panics
  (`blockchain/blockchain.go:970-974`): `Metadata.SealContracts`, `Metadata.SealPanics`.
- The check that all destinations are registered overwrites the result of each lookup by that of the next
  (`dvm/simulator.go:227-239`), so only the last one decides; paying an unregistered one before it panics after the data
  tree has been committed: `LedgerCalls.TreeWrapper.SanityCheckExternalTransfers`, `Settlement.ProcessExternal`,
  `Settlement.FirstUnregistered`.
- After DELETE, LOAD and EXISTS of the same key panic within the call (`dvm/dvm_store.go:81-97`):
  `Variables.DeleteThenLoad`.
- A jump to a line that holds only its number repeats that line forever (`dvm/dvm.go:481-507`):
  `Interpreter.State.IncrementIP`.
- A number after a string is appended to it whatever the operator is (`dvm/dvm.go:1000-1003`): `Dvm.BinaryResult`.
- Metadata of the first form does not show changes of contract data (`dvm/sc.go:43-48`), and pruning relies on it:
  `Prune.MovedSame`, `Metadata.BlockBelowFork`, `Metadata.FirstFormLoses`.
- A search for height 0 in an empty record file finds the zero record, and locating the prune height panics when all
  records share one version: `Topo.TopoStore.BinarySearchHeight`, `Topo.TopoStore.LocatePruneTopo`.
- A separator put in place of a data character may go unnoticed (`rpc/bech32.go:119-122`): `Bech32.SeparatorUnnoticed`.
- A repeated miniblock that is not sane makes the check of a block panic (`block/miniblockdag.go:94-96`); a block that
  was received as bytes holds none, since reading a miniblock refuses it (`block/miniblock.go:205`):
  `MiniBlocks.VerifyMiniBlocks`.
- Below height 399000 a block may pay out less than subsidy and fees: `Rewards.RewardConserved`, `Rewards.TwoFinals`.

## Model

| member | source | states |
|---|---|---|
| SuffixOrder.SuffixArrayUnique | astrobwt/sais.go:143-152 | a text has only one suffix array, so every width and every form of the construction gives the same array |
| SuffixOrder.TypeIsOrder | astrobwt/sais.go:280-343 | the type of a position, S or L, says how its suffix compares with the next one |
| InducedOrder.OrdSImpliesLess | astrobwt/sais.go:447-511 | the order that the sub-scans produce on LMS-substrings agrees with the suffix order wherever it separates two positions |
| InducedOrder.TieSDefersToEnd | astrobwt/sais.go:593-629 | equal LMS-substrings are equally long, and their suffixes compare as the suffixes at their ends do |
| InducedOrder.TieSSameText | astrobwt/sais.go:593-629 | equal LMS-substrings hold the same characters, their last one included |
| InducedOrder.SameTextTieS | astrobwt/sais.go:593-629 | substrings of the same length and text are equal as LMS-substrings: comparing types is not needed |
| Reduction.LmsHalf | astrobwt/sais.go:655-717 | there are at most (n-1)/2 LMS positions, so the recursion shrinks the text |
| Reduction.ReductionSound | astrobwt/sais.go:719-751 | if IDs respect the order of LMS-substrings and are equal exactly for equal ones, suffixes of the reduced text compare as the LMS suffixes of the text |
| Reduction.MapBack | astrobwt/sais.go:727-751 | a suffix array of the reduced text, mapped back, lists the LMS positions in suffix order |
| Buckets.BucketSplit | astrobwt/sais.go:233-258 | inside a bucket the L suffixes come before the S suffixes |
| Induce.LAhead | astrobwt/sais.go:795-853 | in the left-to-right scan every insertion lands strictly ahead of the scan |
| Induce.LStep | astrobwt/sais.go:795-853 | one insertion of the left-to-right scan keeps buckets, order and progress |
| Induce.LComplete | astrobwt/sais.go:795-853 | when the left-to-right scan ends, every L position has been placed |
| Induce.SBehind | astrobwt/sais.go:856-899 | in the right-to-left scan every insertion lands strictly ahead of the scan, which runs downwards |
| Induce.SStep | astrobwt/sais.go:856-899 | one insertion of the right-to-left scan keeps buckets, order and progress |
| Induce.SComplete | astrobwt/sais.go:856-899 | when the right-to-left scan ends, every participating position has been placed |
| Induce.SStart | astrobwt/sais.go:856-899 | the L positions alone, with bucket pointers at the right ends, are what the right-to-left scan needs |
| Passes.FreqPass | astrobwt/sais.go:213-229 | the frequency table holds the true counts, whether it was cached or is counted again; the output is untouched |
| Passes.BucketMin | astrobwt/sais.go:233-245 | bucket pointers are the left ends of the buckets |
| Passes.BucketMax | astrobwt/sais.go:248-258 | bucket pointers are the right ends of the buckets |
| LmsPasses.PlaceLMS | astrobwt/sais.go:280-343 | returns the number of LMS positions and leaves them at the right ends of their buckets, the leftmost one dropped if there are several |
| Scans.InduceSubL | astrobwt/sais.go:357-427 | from seeded LMS positions to the state in which the L ends of LMS-substrings are in order |
| Scans.InduceSubS | astrobwt/sais.go:447-511 | from there to the LMS starts packed at the top of the output |
| Names.SubScansSort | astrobwt/sais.go:357-511 | after both sub-scans the top of the output lists every LMS position but the last ones left out by rule, in LMS-substring order |
| Codes.PackInjective | astrobwt/sais.go:531-582 | the packed text of a short byte LMS-substring determines its length and text |
| Codes.CodeFits | astrobwt/sais.go:531-582 | codes fit the word, are never -1, and a packed code is never taken for a length |
| Codes.TieSameCode | astrobwt/sais.go:531-582 | equal LMS-substrings have equal codes |
| Codes.SamePackedTie | astrobwt/sais.go:531-582 | equal packed codes mean equal LMS-substrings |
| Codes.SameLengthTie | astrobwt/sais.go:531-582 | for equal length codes, equality of the LMS-substrings is equality of that many characters |
| Names.LengthPass | astrobwt/sais.go:531-582 | stores the code of every LMS-substring at half its position and keeps the packed LMS list |
| Names.AssignDecision | astrobwt/sais.go:593-629 | the comparison of code, then text, decides exactly whether neighbours in the list are equal |
| Names.AssignID | astrobwt/sais.go:593-629 | IDs are dense ranks of the LMS-substrings, and the last one is returned |
| Names.RankOrder | astrobwt/sais.go:593-629 | equal ranks exactly for equal LMS-substrings, and smaller ranks only for smaller ones |
| Names.MapPass | astrobwt/sais.go:640-649 | packs the IDs, less one, to the top of the output in text order |
| Sais.ReducedNames | astrobwt/sais.go:640-717 | the packed IDs are a naming of the LMS-substrings over the alphabet of IDs |
| Sais.DistinctNames | astrobwt/sais.go:171-182 | if all IDs differ, the sub-scans have already sorted the LMS suffixes and no recursion is needed |
| Sais.ChooseTmp | astrobwt/sais.go:655-704 | the scratch space for the recursion is large enough, overlaps neither text nor result, and is allocated at most once |
| Sais.Recurse | astrobwt/sais.go:655-717 | the recursion leaves the suffix array of the reduced text at the bottom, the text and scratch marks intact |
| Sais.UnmapPass | astrobwt/sais.go:727-751 | maps the reduced suffix array back to LMS positions |
| Expand.ExpandPass | astrobwt/sais.go:757-788 | spreads the sorted LMS positions to the right ends of their buckets and clears the rest |
| Scans.InduceL | astrobwt/sais.go:795-853 | places all L positions in suffix order from the LMS positions |
| Scans.InduceS | astrobwt/sais.go:856-899 | places all S positions in suffix order and clears the marks |
| Scans.ScansSort | astrobwt/sais.go:195-203 | what the two scans leave is the suffix array |
| Sais.SortLMS | astrobwt/sais.go:168-194 | two or more LMS positions are put in suffix order and seeded |
| Sais.Sais | astrobwt/sais.go:143-203 | for every text, output cleared and scratch space apart from it, the result is the suffix array; text and unrelated memory are untouched, scratch space is unchanged or marked, and there is at most one fallback allocation in the whole recursion |
| Pow.TextToSuffixArray | astrobwt/sais.go:128-133 | a byte text of any length that fits the index width gets its suffix array |
| Pow.Pow16 | astrobwt/astrobwt.go:16-57 | the hash of the suffix array of the derived text, built with 16-bit indices |
| Pow.Pow32 | astrobwt/astrobwt.go:59-95 | the same value, built with 32-bit indices and narrowed |
| Pow.PowUnique | astrobwt/astrobwt.go:16-95 | the proof-of-work value of an input is unique, so both forms hash the same bytes |
| Pow.LittleEndianAt | astrobwt/astrobwt.go:36-45 | every word is hashed as two bytes, the lower one first |
| Index.Index.LookupAll | astrobwt/suffixarray.go:242-249 | the range found holds exactly the positions where the string occurs |
| Index.Index.Lookup | astrobwt/suffixarray.go:251-278 | at most n positions, each once and each an occurrence; all of them unless n were returned |
| Index.Index.FindLiteral | astrobwt/suffixarray.go:299-341 | terminates with sorted, non-overlapping matches, at most n; if fewer than n, they are the greedy left-to-right choice over all occurrences |
| Index.GreedyMatches | astrobwt/suffixarray.go:314-333 | every leading part of the greedy choice consists of non-overlapping matches |
| ChainState.HeightIsCount | blockchain/blockchain.go:1127-1135 | the height is the number of records less one |
| ChainState.SnapshotIsReplay | blockchain/blockchain.go:895-920 | the snapshot recorded at any height is the replay of the recorded blocks from the empty state, whatever side blocks were executed |
| ChainSteps.CheckMeans | blockchain/blockchain.go:386-563 | a block that passes the checks is not recorded, is no tip, and has a stored parent one height below |
| ChainSteps.ExecuteAgain | blockchain/blockchain.go:862-920 | executing a stored block again gives the snapshot that it gave before |
| ChainSteps.FixOk | blockchain/blockchain.go:1019-1055 | after the rewriting, the records up to the new block are its ancestors, and nothing above has changed |
| ChainSteps.PanicKeepsInv | blockchain/blockchain.go:862-920 | a block whose execution panics is stored unexecuted and breaks nothing |
| ChainSteps.SideBlockKeepsInv | blockchain/blockchain.go:866-1106 | a block that does not raise the chain leaves records and height alone |
| ChainSteps.RaisingBlockKeepsInv | blockchain/blockchain.go:866-1106 | a block that raises the chain becomes its top, with records, tips and snapshots in order |
| ChainSteps.AddKeepsInv | blockchain/blockchain.go:378-1106 | adding keeps the chain well-formed and never lowers it, if and only if the call does not accept a block of height 0 on a chain that has blocks |
| ChainSteps.AddAccepts | blockchain/blockchain.go:386-920 | a block of positive height is accepted exactly if it is new, has one parent, executed one height below, is at most 2 above and (above height 8) at most 8 below the top, passes the other checks and executes on the state of its parent; the chain is then as high as the higher of the two |
| ChainSteps.ChildExtends | blockchain/blockchain.go:862-1106 | a child of the top record that executes is accepted: one record more, the others as they were, its state recorded, and it is the only tip |
| ChainSteps.TipsExact | blockchain/blockchain.go:1067-1106 | the tips are then exactly the block and the earlier tips of top height |
| ChainSteps.SecondGenesisAccepted | blockchain/blockchain.go:866-872 | a chain that has blocks accepts a block of height 0, and is broken by it, exactly if it has no parents, is not record 0, passes the other checks and executes |
| ChainRuns.SecondGenesisReached | blockchain/blockchain.go:866-872 | a chain that has just its genesis block accepts another one and is broken, with ids that never collide |
| ChainSteps.RewindKeepsInv | blockchain/blockchain.go:1400-1441 | a rewind keeps the chain well-formed, lowers it by at most the count, and never below height 1 |
| ChainSteps.RewindExact | blockchain/blockchain.go:1400-1441 | a rewind is refused exactly if it asks for nothing or would not stay above the prune height, and then moves nothing; else the top is the larger of 1 and the height less the count, records up to it are unchanged, those above clean, and its block is the only tip |
| ChainRuns.StepKeeps | blockchain/blockchain.go:378-1441 | every call that brings in no second genesis block keeps record 0, and only a rewind lowers the height |
| ChainRuns.EveryRun | blockchain/blockchain.go:378-1441 | over every run of adds, reorganisations and rewinds from a fresh store in which no call accepts a second genesis block: one chain of executed blocks from the genesis block, its top a tip, and every recorded state the replay of the recorded blocks |
| ChainRuns.NotAllowedBreaks | blockchain/blockchain.go:866-872 | after any such run, a block is added to a well-formed chain if and only if it is not a second genesis block |
| ChainRuns.SameBlockSameState | blockchain/blockchain.go:895-1055 | two nodes that have the same block recorded at a height agree on all blocks and states up to it, whatever else they have seen |
| Chain.Blockchain.CheckBlock | blockchain/blockchain.go:386-563 | the checks before execution, in place |
| Chain.Blockchain.FixRecords | blockchain/blockchain.go:1019-1055 | the loop that rewrites records ends with the position equal to the block height, and does what the step function says |
| Chain.Blockchain.UpdateTips | blockchain/blockchain.go:1067-1106 | the new tips are the block and the other tips of top height, without parents |
| Chain.Blockchain.AddCompleteBlock | blockchain/blockchain.go:378-1106 | adding a block in place is one step of the state machine |
| Chain.Blockchain.RewindChain | blockchain/blockchain.go:1400-1441 | rewinding in place is one step of the state machine |
| Chain.Blockchain.IsBlockTopologicalOrder | blockchain/storetopo.go:263-274 | on a well-formed chain, true exactly if the record at the height of the block is the block |
| Topo.TopoStore.CountRecords | blockchain/storetopo.go:51-65 | the number of records up to the last one that is not clean |
| Topo.TopoStore.NarrowDown | blockchain/storetopo.go:190-219 | the search ends near the target, for every target inside the file |
| Topo.TopoStore.BinarySearchHeight | blockchain/storetopo.go:190-238 | exactly the record of that height, once; nothing outside the file, but for the zero record when the file is empty |
| Topo.SliceUniq | blockchain/storetopo.go:241-253 | keeps the first occurrences in order, in both slices |
| Topo.FirstsWithout | blockchain/storetopo.go:241-253 | removing a later duplicate does not change the first occurrences |
| Topo.TopoStore.LocatePruneTopo | blockchain/storetopo.go:134-183 | with non-decreasing versions, the last record that shares the version of record 0; a panic exactly if all records share it |
| Tokens.ProcessTransaction | blockchain/blockchain.go:930-950 | executing a transaction on the trees of the base asset and of its tokens, which are loaded again from the block below for every transaction; a panic exactly if an account is missing |
| Tokens.CheckNonceTips | blockchain/transaction_verify.go:71-198 | the nonce comparison over all payloads and all possible senders; ring members without an account of the token are skipped |
| Tokens.TokenCheckExact | blockchain/transaction_verify.go:135-190 | a token key passes if and only if no use of it above the reference block has survived its block |
| Tokens.TokenPayloadExact | blockchain/transaction_verify.go:135-190 | a whole payload of a token passes if and only if no use of a possible sender that had an account of the token in the reference state has survived; members without one are skipped |
| Tokens.AllNoncesExact | blockchain/transaction_verify.go:71-198 | the same for a whole transaction with payloads of the base asset and of tokens |
| Tokens.StaleTokenSpend | blockchain/transaction_verify.go:135-190 | an accepted branch on which a token key is used in block 1 and again in block 2 by a transaction built on block 0 |
| Tokens.BlockAt | blockchain/transaction_execute.go:204-252 | after a block the nonce of a token key is the height of the block exactly if it may have sent in the last transaction that names the token, else what it was |
| Tokens.TokenUseLost | blockchain/blockchain.go:934-939 | a use of a token key whose nonce is put back by a later transaction of the same block |
| Tokens.ValidBase | blockchain/transaction_verify.go:71-198 | branches that pass all checks pass those of the base asset, so that what follows holds of them |
| Spend.KeyCheckExact | blockchain/transaction_verify.go:135-190 | a key passes if and only if every use above the reference block was followed by a new registration |
| Spend.NonceCheckExact | blockchain/transaction_verify.go:135-190 | a transaction passes if and only if all its possible senders exist in the reference state and do |
| Spend.TenBlocks | blockchain/blockchain.go:719-753 | in numbers: a transaction may refer to one of the ten blocks below, by its id and height |
| Spend.TopPasses | blockchain/transaction_verify.go:71-198 | a transaction built on the block just below passes exactly if all its possible senders exist there, whatever they were used for before |
| Spend.NoStaleSpend | blockchain/blockchain.go:719-753 | a transaction that may spend a key used at height h refers to height h or above, unless the key was registered again |
| Spend.ExecutedOnce | blockchain/transaction_execute.go:204-252 | the same transfer stands only once on a branch, under the same proviso |
| Spend.RegistrationReopens | blockchain/transaction_execute.go:173-202 | a branch on which a new registration lets the same transfer in twice |
| ChainSpend.TokensFollow | blockchain/blockchain.go:930-950 | executing the transactions of a block on the trees of the base asset and of tokens is one of the executions that the next rows speak of |
| ChainSpend.AddGrows | blockchain/blockchain.go:862-1106 | an added block leaves all executed blocks executed, and a newly executed one has passed the checks and has an executed parent |
| ChainSpend.AncestryValid | blockchain/blockchain.go:719-753 | in every store in which each executed block has passed the checks against its ancestors, the branch of any executed block, side branches included, is one of accepted blocks |
| ChainSpend.RecordedValid | blockchain/blockchain.go:378-1441 | after every run of adds, reorganisations and rewinds the recorded chain is a branch of accepted blocks, and the nonces in every recorded state are those of the branch |
| ChainSpend.RecordedOnce | blockchain/blockchain.go:378-1441 | over every run, no transfer stands twice on the recorded chain, unless a possible sender was registered again in between |
| BlockVerify.CblVerify.Check | blockchain/block_verify.go:31-69 | fails exactly if a possible sender is recorded at another height; in the second round it records the keys |
| BlockVerify.VerifyTogether | blockchain/blockchain.go:834-846 | a block passes if and only if transactions that share a possible sender agree on their height |
| BlockVerify.VerifyNonces | blockchain/blockchain.go:702-717 | passes if and only if no two payloads of the block carry the same proof nonce |
| BlockVerify.OrderedPast | blockchain/blockchain.go:1545-1574 | the ids of the last blocks, lowest first |
| BlockVerify.CheckHistory | blockchain/blockchain.go:719-753 | a reference is accepted if and only if it names a recent block of the branch at the claimed height |
| BlockVerify.VerifyTransactions | blockchain/blockchain.go:702-801 | all nonce checks of a block, tokens included, together decide acceptance |
| BalanceDecoder.InitializeLookupTable | walletapi/balance_decoder.go:61-133 | row i holds the keys of the multiples i*size to (i+1)*size-1, sorted; sizes that are no multiple of 256 are refused |
| BalanceDecoder.Search | walletapi/balance_decoder.go:193-195 | the first entry whose high part reaches the key |
| BalanceDecoder.RowHolds | walletapi/balance_decoder.go:193-201 | the row in which the remainder lies has an entry with its key and its index |
| BalanceDecoder.TryRow | walletapi/balance_decoder.go:193-216 | tries all entries that share the key; a miss means that none of them is the balance |
| BalanceDecoder.Lookup | walletapi/balance_decoder.go:136-230 | terminates with the balance, for every 64-bit balance and every earlier balance, however many keys collide |
| Variables.UvarintBack | dvm/dvm_store.go:204-218 | unsigned varints of 64-bit numbers are read back |
| Variables.UvarintForm | dvm/dvm_store.go:204-218 | groups of seven bits, the lowest first; all bytes but the last have the high bit, and the last one is not empty |
| Variables.MarshalForm | dvm/dvm_store.go:204-218 | a number is a varint and then 4, a string its bytes and then 5 |
| Variables.UnmarshalMarshal | dvm/dvm_store.go:204-254 | every variable is read back as it was written |
| Variables.MarshalInjective | dvm/dvm_store.go:204-218 | different variables have different keys |
| Variables.KeySpaces | dvm/sc.go:82-84 | no variable key equals the key of an asset that can carry value |
| Variables.AccountKeys | cryptography/bn256/changes.go:19-35 | no variable is stored under the key of an account, of whatever length, and no account under that of an asset |
| Variables.StoreThenLoad | dvm/dvm_store.go:88-135 | a store is seen by later loads of that key and of no other |
| Variables.StoredLoads | dvm/dvm_store.go:88-125 | what is stored is loaded, unless the call has written the key; a key that is nowhere is missing |
| Variables.DeleteThenLoad | dvm/dvm_store.go:81-121 | after a delete, loads of that key panic until it is stored again; other keys do not see it |
| Ledger.DepositedAt | dvm/sc.go:206-212 | the incoming value is added to the stored one, modulo 2^64 |
| Ledger.DebitedAt | dvm/simulator.go:196-225 | what is taken off is exactly what is sent |
| Ledger.LedgerConserved | dvm/simulator.go:196-326 | stored after plus sent equals stored before plus incoming, modulo 2^64, for every other asset and every contract behaviour |
| Ledger.ConservedExactly | dvm/sc.go:206-212 | the sum is exact if and only if the deposit fits in 64 bits |
| Ledger.DepositWraps | dvm/sc.go:206-212 | a deposit of 1 on the largest balance leaves 0 |
| Ledger.AmountForm | dvm/sc.go:206-212 | an amount is stored in 8 bytes, the highest one first |
| Ledger.IncomingCounts | blockchain/transaction_execute.go:290-293 | what is counted as incoming is what was burned if and only if no earlier burn of the asset is overwritten |
| Ledger.BurnOverwritten | blockchain/transaction_execute.go:290-293 | a burn of 1 before a burn of 0: nothing is counted as incoming |
| Ledger.BurnsConserved | blockchain/transaction_execute.go:290-293 | from the payloads: the sum is exact if and only if no burn of the asset is overwritten and the deposit fits in 64 bits |
| Ledger.BytesKept | dvm/simulator.go:213-225 | a key of the data tree holds what the contract last saw there if and only if deposits and transfers spare it, for every 32 bytes that may be named as an asset |
| Ledger.VariablesCommitted | dvm/sc.go:278-288 | a committed call leaves every variable as the contract last saw it whose bytes name no asset that comes in or is sent; its bytes stay exactly if they are spared |
| Ledger.VariableSent | dvm/dvm_functions.go:398-430 | sending one unit of an asset named like a variable of the contract spoils the variable |
| BlockLedger.StoredAfter | blockchain/blockchain.go:934-939 | over the transactions of a block, what is stored of an asset has grown by what came in less what was sent since the tree was last loaded, modulo 2^64 |
| BlockLedger.BlockConserved | blockchain/blockchain.go:934-939 | over a whole block the sum is kept, modulo 2^64, if and only if the calls dropped by a later load took in what they sent |
| BlockLedger.NothingDropped | blockchain/blockchain.go:934-939 | so it is kept if no transaction that names the contract as an asset follows a call of it |
| BlockLedger.DepositDropped | blockchain/blockchain.go:934-939 | a deposit of 5 that a later transaction of the block drops |
| LedgerCalls.TotalsNext | dvm/simulator.go:198-211 | the overflow test on the running sum fires exactly when the true sum leaves 64 bits |
| LedgerCalls.EnoughStep | dvm/simulator.go:213-225 | the underflow test fires exactly when more is sent than stored |
| LedgerCalls.TreeWrapper.Deposit | dvm/sc.go:206-212 | the deposits of a call, in place |
| LedgerCalls.TreeWrapper.StoreWrites | dvm/sc.go:278-288 | the writes of a call, in place |
| LedgerCalls.TreeWrapper.SanityCheckExternalTransfers | dvm/simulator.go:196-242 | passes if and only if no other asset is sent beyond what is stored and the last destination is registered; then the amounts are taken off |
| LedgerCalls.TreeWrapper.CommitEntries | dvm/simulator.go:301-319 | entries are put into the tree, empty ones deleted |
| Settlement.ProcessExternal | dvm/simulator.go:321-373 | pays every address exactly what was sent to it, so that all accounts of an asset together grow by what was sent; fails if and only if something is sent to an unregistered address |
| Settlement.ErrorRevert | dvm/simulator.go:244-278 | gives back exactly what came in; fails if and only if the signer lacks an account for an asset |
| Settlement.CallContract | blockchain/transaction_execute.go:340-400 | a call either leaves the data tree as it was and refunds, or commits deposit, writes and debits together and pays |
| Settlement.FirstUnregistered | dvm/simulator.go:227-239 | two payments, the first to an unregistered address: the tree is committed and the payments stop |
| Contracts.InvokeContract | blockchain/transaction_execute.go:290-420 | for every contract program: a call goes through if and only if its function is exported and means a return of 0, with writes and transfers, at a cost within the limits, sends no more than there is, and its last destination is registered; it then commits exactly those writes and transfers, conserves every asset but its own, and leaves every spared variable as the program last saw it; else it changes no data, and gives back what came in if and only if the signer has the accounts; once all is paid, the balance of the contract and all accounts of an asset together have grown by exactly what was burned, if and only if no burn was overwritten and the deposit fits in 64 bits |
| Contracts.RunEntryPoint | dvm/sc.go:238-288 | pays for the call data and runs the function: a return of 0 if and only if the call means one within the limits |
| Contracts.LimitsMean | dvm/sc.go:238-252 | in numbers: 10000000 units of gas, 2000 lines, 11000 evaluations, and storage up to the fees and to 20000, or without limit if there are no fees |
| Contracts.SendMeans | dvm/dvm_functions.go:377-430 | something is sent exactly by a positive amount of an asset of 32 bytes to a valid address, and then just that |
| Programs.PingGoesThrough | dvm/sc.go:238-276 | a call of the one line RETURN 0 goes through exactly if its call data is paid for |
| Programs.PingPaid | blockchain/transaction_execute.go:290-420 | such a call with a burn of 5 is paid: the contract has 5 |
| Programs.DiffMeans | dvm/dvm.go:512-590 | a function with a branch and a blank line means the distance of its arguments, at its exact cost |
| Programs.KeepAsks | dvm/dvm.go:903-944 | a call that declares, calls, stores and loads means 0, one write, and its exact cost, for all arguments |
| Programs.LinesRefused | dvm/dvm.go:627-845 | which lines have no meaning: wrong types, undeclared and repeated variables, jumps to line 0, lines that are no calls |
| Programs.ExpressionsRefused | dvm/dvm.go:851-945 | which expressions have none: unknown names, wrong numbers and types of arguments, the complement of a string |
| Programs.NamesMean | dvm/dvm.go:366-372 | only names that start with a capital letter can be called from outside |
| Programs.ExistsMeans | dvm/dvm_store.go:88-125 | EXISTS gives 1 after STORE, 0 of a key that is nowhere, and panics after DELETE |
| Programs.StorageCosts | dvm/dvm_store.go:102-133 | reading costs a tenth of the length and at least 1, writing every byte |
| Dvm.UnmarshalFits | dvm/dvm_store.go:228-254 | numbers read from storage fit in 64 bits |
| Operators.SumUndone | dvm/dvm.go:1057-1058 | the sum wraps at 2^64, and subtracting undoes it |
| Operators.DifferenceUndone | dvm/dvm.go:1059-1060 | the difference is the true one if there is one; adding undoes it in any case |
| Operators.ProductMeans | dvm/dvm.go:1061-1062 | the product but for multiples of 2^64 |
| Operators.DivisionMeans | dvm/dvm.go:1063-1066 | quotient and remainder belong together; a division by zero is a panic |
| Operators.BitwiseMeans | dvm/dvm.go:1068-1074 | and, or and exclusive or, bit by bit |
| Operators.ShiftsMean | dvm/dvm.go:1075-1078 | shifts move the bits, and lose what leaves the 64 bits |
| Operators.DoubledMeans | dvm/dvm.go:1075-1076 | shifting up multiplies by a power of 2, but for multiples of 2^64 |
| Operators.HalvedMeans | dvm/dvm.go:1077-1078 | shifting down divides by a power of 2 |
| Operators.ComplementMeans | dvm/dvm.go:866-867 | the complement turns every bit around |
| Operators.NotMeans | dvm/dvm.go:868-879 | not is the complement of a number, and 1 exactly for the empty string |
| Operators.OrderMeans | dvm/dvm.go:1080-1103 | the six comparisons are one order and its negations |
| Operators.LogicMeans | dvm/dvm.go:1010-1027 | 0 and the empty string are false; and and or on two values of one type |
| Operators.StringsMean | dvm/dvm.go:1029-1052 | strings are joined below 1048576 bytes and compared for equality, and nothing else |
| Operators.DigitsBack | dvm/dvm.go:1000-1003 | a number is appended in decimal digits without leading zeros |
| Operators.MixedMeans | dvm/dvm.go:1000-1009 | a number after a string is appended whatever the operator; a string after a number panics |
| Interpreter.State.IncrementIP | dvm/dvm.go:478-509 | fall-through goes to the next larger line that is not blank; a jump goes to its target; the loop is endless exactly for a jump to a blank line |
| Interpreter.NextAfter | dvm/dvm.go:478-509 | the line after the current one in the table is the next larger line number |
| Semantics.OneWayOn | dvm/dvm.go:478-509 | after a line, or for a jump, there is at most one line to go on with |
| Semantics.EvalMore | dvm/dvm.go:851-1100 | the meaning of an expression does not depend on how deep one looks for it |
| Semantics.BinaryMeans | dvm/dvm.go:992-1108 | a binary expression means what the operation gives on its operands, left one first, if it gives something |
| Semantics.NestedAt | dvm/dvm.go:903-944 | a call means what the called function means for the values of its arguments, taken from left to right |
| Semantics.RestOver | dvm/dvm.go:512-590 | if what follows a line has no meaning, or costs more than the limits allow, the same holds from that line on |
| Semantics.OneMeaning | dvm/dvm.go:286-340 | a call means at most one result, with its writes, transfers and cost, whatever the limits are |
| Contracts.AsksOnce | dvm/dvm.go:286-340 | so nodes with different limits never disagree on what a call that goes through has done |
| Interpreter.State.Eval | dvm/dvm.go:851-1100 | evaluation terminates; a success is the meaning of the expression and leaves its cost in the counters; it fails only if there is no meaning, or one that costs more than the limits allow |
| Interpreter.State.EvalCall | dvm/dvm.go:903-944 | the same for a nested call, which gets its arguments by type, and whose errors are panics |
| Interpreter.State.Execute | dvm/dvm.go:536-589 | the same for one line: its jump or its result; only RETURN ends a function |
| Interpreter.State.Interpret | dvm/dvm.go:512-590 | the same for the lines of a function, which succeed only through RETURN and pay 5000 each |
| Interpreter.State.RunInternal | dvm/dvm.go:286-340 | the same for a function with given arguments; the recursion counter is restored on success |
| Interpreter.State.RunSmartContract | dvm/dvm.go:344-394 | started at level 0, it succeeds if and only if the function is exported and has a meaning whose gas, storage gas, lines and evaluations are within the limits; the result, writes, transfers and counters are that meaning; it hangs only through a jump to a blank line |
| Interpreter.State.ReadKey | dvm/dvm_store.go:88-125 | LOAD and EXISTS see the writes of the call before the stored value |
| Interpreter.State.WriteKey | dvm/dvm_store.go:128-135 | STORE keeps the value under the bytes of the key, at a price per byte |
| Interpreter.State.Send | dvm/dvm_functions.go:377-430 | a transfer is recorded exactly for a valid address, a positive amount and an asset of 32 bytes; an amount of 0 sends nothing |
| Prune.ApplyDiff | blockchain/prune_history.go:499-522 | the changes between two trees, applied key by key to a third |
| Prune.PatchedSame | blockchain/prune_history.go:499-522 | the changes lead from the old tree to the new one; without deletions, if and only if nothing was deleted |
| Prune.MovedSame | blockchain/prune_history.go:266-363 | after one block the new store agrees with the old one if and only if the metadata shows every change |
| Prune.WriteStore.CloneSnapshot | blockchain/prune_history.go:152-262 | the clone has the balances, the metadata and the data of every listed contract |
| Prune.WriteStore.DiffSnapshot | blockchain/prune_history.go:266-363 | one commit on top of the latest snapshot with exactly the changed trees |
| Metadata.MetaForms | dvm/sc.go:43-75 | the later form of the metadata is read back and shows the data hash; the first one shows the kind only |
| Metadata.SealContracts | blockchain/blockchain.go:970-997 | the loop that writes the hash of every tree taken out into its metadata; a panic exactly if one has no readable metadata |
| Metadata.SealPanics | blockchain/blockchain.go:970-974 | a block that takes out a tree without metadata panics |
| Metadata.BlockKeepsMarks | blockchain/blockchain.go:970-1004 | every block keeps all metadata in one of the two forms, the later one with the hash of the data, and removes none |
| Metadata.BlockShows | blockchain/blockchain.go:979-993 | a block at or above the fork shows every change of contract data in the metadata, also where it still had the first form, unless hashes clash |
| Metadata.BlockBelowFork | blockchain/blockchain.go:979-986 | a block below the fork shows every change if and only if contracts change their data only together with their kind |
| Metadata.FirstFormLoses | dvm/sc.go:43-48 | a block below the fork that writes one entry, which the rewriting loses |
| Metadata.ChainShows | blockchain/blockchain.go:895-1017 | on every well-formed chain the metadata shows every change from the height below the fork on; from a lower height on, if and only if the blocks below the fork changed no data behind the same kind |
| Metadata.PruneChain | blockchain/prune_history.go:66-112 | pruning a chain at or above the height below the fork keeps the content of every height that is left; lower, under exactly that condition |
| Prune.OneMoreHeight | blockchain/prune_history.go:394-424 | agreement up to a height extends to the next one exactly if the metadata shows the change between them |
| Prune.RewriteStore | blockchain/prune_history.go:366-492 | every height from the prune point to the top keeps its content if and only if the metadata showed every change; records get their new versions |
| Prune.PruneBlockchain | blockchain/prune_history.go:66-112 | finds the top below any clean records, refuses to leave fewer than 50 heights, and rewrites the store |
| Prune.PruneHeightLocated | blockchain/storetopo.go:134-183 | after the rewriting, the prune height is the one that locating it looks for |
| Checksum.Polymod | rpc/bech32.go:35-47 | the loop computes the polynomial remainder (BIP-173, section "Checksum") |
| Checksum.RunLinear | rpc/bech32.go:35-47 | the code is linear over exclusive or |
| Checksum.ValidIffChecksum | rpc/bech32.go:61-75 | six symbols complete a string to a valid one if and only if they are its checksum |
| Checksum.BurstDetected | rpc/bech32.go:35-63 | two strings that differ only within six adjacent symbols are not both valid |
| Bech32.CreateChecksum | rpc/bech32.go:65-73 | the six checksum symbols |
| Bech32.Encode | rpc/bech32.go:77-107 | the encoding loop and its errors |
| Bech32.Decode | rpc/bech32.go:111-141 | the decoding loop and its errors |
| Bech32.DecodeEncode | rpc/bech32.go:77-141 | whatever is encoded is decoded again, at any length |
| Bech32.EncodeDecode | rpc/bech32.go:77-141 | a decoded string, in lower case, is what its parts encode to |
| Bech32.ChangeNoticed | rpc/bech32.go:111-141 | any change within six adjacent data characters of a valid string, to anything but separators, is refused, unless only the case of the whole string has changed |
| Bech32.SeparatorUnnoticed | rpc/bech32.go:119-122 | two valid strings that differ in one character, a separator in one of them |
| Bech32.OneCharacter | rpc/bech32.go:77-90 | which single characters can be a human-readable part |
| Bech32Vectors.CharacterSet | rpc/bech32_test.go:38-38 | a known string that spells the character set in order is what its parts encode to, and is decoded |
| ConvertBits.Convert | rpc/bech32.go:143-169 | regroups the bits; refuses values out of range and, without padding, an unclean end, and nothing else |
| ConvertBits.WrappedLow | rpc/bech32.go:143-158 | the accumulator may wrap at 64 bits without reaching the bits still needed |
| ConvertBits.ThereAndBack | rpc/bech32.go:143-169 | bytes to 5-bit words with padding and back without is the identity |
| ConvertBits.HighestFirst | rpc/bech32.go:143-158 | of the bits of a word the highest one comes first |
| MiniBlocks.MiniBlocksCollection.InsertMiniBlock | block/miniblockdag.go:86-100 | final and known miniblocks are refused, others are added; a known one that is not sane is a panic |
| MiniBlocks.MiniBlocksCollection.Count | block/miniblockdag.go:50-59 | the number of miniblocks in all buckets |
| MiniBlocks.MiniBlocksCollection.PurgeHeight | block/miniblockdag.go:34-48 | forgets exactly the heights up to the given one |
| MiniBlocks.VerifyMiniBlocks | blockchain/miniblocks_consensus.go:53-128 | accepts exactly the blocks whose miniblocks keep the rules, and panics exactly if the first miniblock passes with a number of parents other than one, or one that is not sane is repeated |
| MiniBlocks.SoftForkRule | blockchain/miniblocks_consensus.go:119-125 | from height 399000 on: one final and nine pairwise different other miniblocks, and that suffices |
| MiniBlocks.BeforeFork | blockchain/miniblocks_consensus.go:53-128 | before height 399000: ten miniblocks of the height and the parent, at least one of them final |
| MiniBlocks.OnePlace | blockchain/miniblocks_consensus.go:88-118 | the same miniblocks make up a block at one height only, and with one parent only |
| MiniBlocks.SaneMeans | block/miniblock.go:120-138 | which miniblocks are sane, in numbers |
| MiniBlocks.OpenCounts | blockchain/miniblocks_consensus.go:88-125 | counting others without repetition loses exactly the repetitions |
| Rewards.IssuedIs | blockchain/transaction_execute.go:42-60 | the subsidy issued up to any height, in closed form; the genesis block pays none |
| Rewards.TotalIssue | blockchain/transaction_execute.go:42-60 | never more than 7,000,000 * 122,992 atomic units of subsidy less the 61,500 of height 0, and exactly that in the end |
| Rewards.ProcessMinerTransaction | blockchain/transaction_execute.go:123-160 | every account gets a share for each of its miniblocks, the integrator one more and the remainder; all balances together grow by that, even when payees coincide |
| Rewards.ProcessGenesisTransaction | blockchain/transaction_execute.go:71-121 | the genesis block creates the accounts of its miner and, outside the main network, of a list |
| Rewards.PremineTotal | blockchain/transaction_execute.go:71-121 | with new and different accounts, that adds exactly the sum of the amounts |
| Rewards.TwoFinals | blockchain/transaction_execute.go:123-160 | an acceptable block below height 399000 with two final miniblocks pays 55350 of 61500 |
| Rewards.DueOfTen | blockchain/transaction_execute.go:123-160 | of 61507 and ten miniblocks a miner of one gets 6150, and the integrator 6150 and 7 more than for his own |
| Rewards.RewardConserved | blockchain/transaction_execute.go:123-160 | that is at most subsidy plus fees, and exactly that with one final miniblock, as from the soft fork on |
| MiniBlockCodec.Serialize | block/miniblock.go:140-173 | 48 bytes for every sane miniblock, a panic for any other |
| MiniBlockCodec.Form | block/miniblock.go:140-173 | where every field stands in the 48 bytes |
| MiniBlockCodec.DeserializeSerialize | block/miniblock.go:140-221 | a sane miniblock of version 1 is read back, but for the part of the key hash that is not written |
| MiniBlockCodec.SerializeDeserialize | block/miniblock.go:176-221 | an accepted buffer is the form of what was read from it |
| BlockCodec.WriteBlock | block/block.go:99-162 | the writing loop, with or without the last miniblock |
| BlockCodec.ReadBlock | block/block.go:189-315 | the reading loop and its errors |
| BlockCodec.DeserializeSerialize | block/block.go:99-315 | a block is read back as it was written if and only if it has fewer than 128 tips and 16384 miniblocks |
| BlockCodec.WithoutLast | block/block.go:70-72 | leaving out the miniblock just appended gives the bytes of the template |
| BlockCodec.HeadForm | block/block.go:99-135 | where the numbers, the miner and the proof of a block stand, for numbers of one byte and a coinbase |
| BlockCodec.ListsForm | block/block.go:120-162 | where the tips, miniblocks and transactions of such a block stand |
| BlockCodec.PremineForm | transaction/transaction.go:418-452 | a premine has kind 0 and a value before the address |
| BlockCodec.VerifyHash | blockchain/miniblocks_consensus.go:32-50 | passes if and only if the last miniblock is final, of high difficulty, and carries the first 16 bytes of the header hash |
| BlockCodec.MatchMeans | blockchain/miniblocks_consensus.go:32-50 | the mark of a matching header is the first 16 bytes of the hash |
| BlockCodec.OpenBelongs | blockchain/miner_block.go:348-382 | the miniblock built over a template belongs to its height and parent; the first nine are open and name the miner, the next is final |
| BlockCodec.FinalPasses | blockchain/miner_block.go:348-382 | the final miniblock built for a template completes it to a block that passes, also after being sent as bytes |

## Left out

- Suffix arrays: the generated 64-bit copies; panics on misuse of lengths, which are preconditions here; regular
  expressions that are no literals; the two sort library calls are insertion sorts.
- Pow.Pow16: the hash, the stream cipher and the reinterpretation of memory as bytes are parameters or a byte function;
  recovery from panics is not modelled, as none occurs.
- ChainSteps.Check: the checks of time, version, size, proof of work and transactions are one parameter, `verdict`,
  because they do not change the state.
- Chain.Blockchain.RewindChain: the prune height that a rewind compares with is a field; locating it again after the
  rewind is not modelled.
- Tokens.ProcessTransaction: keys stand for the key pointers that resolve to them, the same key in every state; accounts
  of tokens that contract calls create or pay are left out.
- BlockVerify.VerifyTransactions: one after the other; the fan-out over goroutines and the caches are left out.
- Proof verification, ring and encryption arithmetic, registration proof of work.
- Settlement.ProcessExternal: accounts of the contract's own token live in the same tree as its variables, under keys
  that end in 0 or 1 where those of variables end in 4 or 5 (`Variables.AccountKeys`); here they are separate.
- ChainSpend.RecordedOnce: that the checks of `verdict` include those of transactions is a premise, `Checked`; a state
  may hold anything besides the nonces of the base asset.
- BlockLedger.BlockConserved: a call is given by what came in, what it wrote and what it sent, and every call that goes
  through is taken to have passed its checks; what joins one call to its program is `Contracts.InvokeContract`.
- Settlement.CallContract: an installation whose code fails keeps what came in, and calls of unknown contracts end
  before the deposit; neither is modelled.
- Interpreter.State.RunInternal: arguments are passed as values of the parameter's type instead of strings that are
  parsed again.
- Interpreter.State.Apply: built-in functions other than LOAD, EXISTS, STORE, DELETE and the two sends are given by the
  environment as functions of their arguments; those with a state of their own (the in-memory map, random numbers,
  VERSION and UPDATE_SC_CODE) are not modelled.
- Parsing of contract text and expressions: a contract is given as its line tables and expression trees.
- Metadata.CommitBlock: what the transactions of a block do to the trees is a parameter, `work`; the hash of a tree is
  any function of its content.
- Prune.PruneBlockchain: deleting old blocks and transactions, rewriting block files, and moving directories.
- BalanceDecoder.InitializeLookupTable: sorting is an insertion sort; normalising points for speed is left out.
- Bech32.Decode: strings are strings of single-byte characters; Unicode case mapping is not modelled. SegWit addresses
  are not modelled.
- BlockCodec.ReadBlock: miner transactions other than premine and coinbase are refused here.
- Difficulty, networking, pools, wallets, logging, file layout and locking.
