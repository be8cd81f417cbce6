# Verified model of the Primecoin node's core

This Dafny project models the parts of a Primecoin node that decide what the
chain is and what counts as work: the unspent set and its reorganisations,
block trees, merkle proofs, the prime sieve and the primality tests, difficulty
targets, the parallel check queue, the address manager, the script engine with
its verdicts and limits, the compact disk formats, the sync checkpoints and
base 58.
`dafny verify dfyconfig.toml` checks all of it.

## Reading order

- **Chain state.** `CoinRecords`, `UtxoSet` (applying and undoing transactions
  and blocks as functions on a map from transaction id to record), `CoinsViews`
  (the stacked caches), `MoneySupply`, `Validation`, `BlockTree`, `Chain`,
  `ChainState` (SetBestChain), `BestChain` (ConnectBestBlock), `FailedAncestor`,
  `Maturity` (what a branch makes of its coinbases).
- **Merkle trees.** `MerkleTree`, `PartialMerkleTree`, `PartialTreeBits`.
- **Proof of work.** `Arithmetic`, `PrimeTable`, `SieveSpec`, `SieveBits`,
  `SieveLayer`, `SieveArrays`, `SieveMultipliers`, `Sieve`; `TwoModPrime`,
  `PrimalityTests`, `PrimeChains`, `MinerChains`; `Target`.
- **Check queue.** `CheckQueue` holds the critical sections on the shared
  fields; `CheckQueueRuns` is the state machine over any number of threads.
- **Address manager.** `AddrTables`, `AddrEffects`, `AddrJoin`, `AddrSample`,
  `AddrCheck`, `AddrSelect`, `AddrMan`.
- **Scripts.** `ScriptCodec`, `Multisig`, `ScriptEngine`, `StandardScripts` (who can
  spend the standard outputs).
- **Formats.** `VarInts`, `AmountCodec`, `ScriptCompressor`, `CoinsCodec`,
  `CoinsStream`, `FormatExamples`; `Base58`; `SyncCheckpoint`.

## Conventions

Objects that the node updates in place are classes; their methods are proved
against functions on values, about which the lemmas speak. Disk and database
writes, the clock, random numbers, bucket hashes, and the hash functions and
signature checks of scripts are arbitrary choices or function parameters. A
transaction id is carried as a field and stands for its hash; block and undo
files give back what was written. Machine integers are unbounded except where
their width matters: the sieve's 32-bit multipliers and table entries,
`int_invert`, targets, chain lengths, VarInts and amounts are bounded or
reduced explicitly. Words of the sieve's bit arrays are sequences of 64 bits.

## Where the code and its documentation differ

- A block under the BIP 30 exemption (src/servilo/main.cpp:1424) that replaces
  a record with unspent outputs is not undone by disconnecting it, and its money
  supply exceeds the total of the unspent set by what was lost.
  `UtxoSet.UndoBlockInvertsApplyBlock` and `Validation.SupplyStaysTotal` say
  exactly when; `Validation.RepeatedCoinbaseIsLost` is a case, in which
  DisconnectBlock reports no error.
- ConnectBestBlock returns early when the best candidate is no better than the
  tip, and its walk stops where it meets the active chain, so a failed block
  that the chain kept, or the new one shares with the old, stays. `BestChain.ConnectBestBlock`
  says, by the state before the call, where the tip goes and when its branch is
  clean then; `FailedAncestor.FailedAncestorStays` is a case in which it is not.
- The assertion on the fractional length in the slow Fermat test is reachable,
  for the powers of two and for no other number (`PrimalityTests.FermatTest`);
  the odd origins 2^k + 1, 2^255 + 1 among them, lead there
  (`PrimalityTests.OddOriginReachesAssertion`).
- A block dated so far before its parent that the divisor of the moving average
  is negative gets the lowest next target instead of the highest, and at zero
  the division throws (`Target.NextTargetAntitone`, `Target.TargetGetNext`;
  `Target.DivisorOfAWeek` has the program's numbers).
- The sieve's candidate multiplier wraps at the largest sizes that the options
  permit, not at the default ones (`Sieve.MultipliersFit`, `Sieve.DefaultsFitMaximaDoNot`).
- The comment at src/servilo/main.h:1175 bounds the flag bits of a partial
  merkle tree by 2N - 1. `PartialTreeBits.CommentedBoundIff` says for which
  selections that is so, and `PartialTreeBits.CommentedBoundForAll` that it is so
  for all of them only in a tree of 2^k leaves; `PartialTreeBits.CommentedBitBoundFails`
  has a tree of three leaves that needs more.
- SelectTried notes the position of the oldest entry before the exchange
  (src/servilo/addrman.cpp:126), so the slot it returns need not hold the oldest
  entry: it does if and only if that entry was drawn from where it went
  (`AddrSelect.SlotHoldsOldestIff`), and `AddrSelect.NewerIsSelected` has draws
  for a full bucket for which it does not.
- A VarInt of a negative number is one byte with its low seven bits, so a record
  with a negative version is read back with another one, 127 for -1
  (`CoinsCodec.CleanRecordsSurviveIff`, `CoinsCodec.MinusOneReadsAs127`); the
  comment at src/servilo/main.cpp:1309 knows of it.
- The comment at src/servilo/serialize.h:252-257 gives 16511 and 65535 other bytes
  than the code writes (`FormatExamples.VarIntExamples`).
- Check_ reads a missing address as id 0 and enters it; `AddrMan.CAddrMan.Check_`
  models that.
- An on-schedule target leaves its value at fraction 0 of a length above the
  minimum (`Target.OnScheduleFixpoint`).

## Model

| member | source | states |
|---|---|---|
| CoinRecords.CCoins.Spend | src/servilo/main.h:1026-1041 | an available output is cleared and trailing spent outputs are dropped; the undo record carries the metadata exactly when the last output goes; anything else changes nothing |
| CoinRecords.CCoins.Cleanup | src/servilo/main.h:889-894 | leaves the longest prefix that does not end in a spent output |
| CoinRecords.RestoreInvertsSpend | src/servilo/main.cpp:1326-1350 | writing the undo record back gives the very record from before the spend, whatever pruned remainder is still in the table, and no consistency check complains |
| UtxoSet.UndoTxInvertsApplyTx | src/servilo/main.cpp:1137-1151 | one transaction is undone exactly, if and only if its id replaced no record that was still unspent |
| UtxoSet.OverwriteSpoilsUndo | src/servilo/main.cpp:1424-1440 | a replaced record cannot be recovered by any undo data |
| UtxoSet.UndoBlockInvertsApplyBlock | src/servilo/main.cpp:1277-1362 | undoing a block right after applying it gives back the same unspent set and reports clean, including spends inside the block, if and only if no unspent record was replaced; the BIP 30 test is enough for that |
| CoinsViews.CCoinsViewCache.GetCoins | src/servilo/main.cpp:97-117 | answers what the whole stack of views holds, counting fully spent records as absent, and filling the cache changes no content |
| CoinsViews.CCoinsViewCache.BatchWrite | src/servilo/main.cpp:147-152 | the view afterwards is the old one overlaid by the batch, entry by entry in any order |
| CoinsViews.CCoinsViewDB.BatchWrite | src/servilo/main.cpp:147-152 | a batch lands as a whole, with fully spent records erased, or not at all |
| CoinsViews.CCoinsViewCache.Flush | src/servilo/main.cpp:154-159 | a flush moves the content down one layer and keeps it; the tip arrives below only if this view has one of its own; a failure changes nothing |
| Validation.UpdateCoins | src/servilo/main.cpp:1137-1151 | the cached view becomes the transaction applied to the unspent set, and the undo list is the list of spent outputs; which records hold their outputs back is settled by the rows of Maturity |
| Validation.CheckInputs | src/servilo/main.cpp:1186-1272 | passes if and only if the inputs are present, mature, in money range and pay the fee against the unspent set, and the scripts, whose verdict is left open, pass |
| Validation.DisconnectBlock | src/servilo/main.cpp:1277-1362 | reported clean only with the unspent set that the undo specification gives, and unclean only when that gives none; for a caller that does not ask through pfClean an unclean undo is a failure |
| Validation.ConnectBlock | src/servilo/main.cpp:1396-1540 | succeeds if and only if the block's structure, its inputs, the BIP 30 test and the coinbase limit are met and the tests not modelled pass; then the view holds the block applied, the undo data are those of the block, and the money supply moves by outputs less inputs, by at most the minted amount; a supply that equalled the total of the unspent set still does, but for records replaced under the BIP 30 exemption |
| Validation.RepeatedCoinbaseIsLost | src/servilo/main.cpp:1424-1440 | a block at an exempt height, with its hash, that meets the conditions of ConnectBlock and repeats a coinbase still unspent: connecting replaces its record, and undoing reports no error and leaves nothing in its place |
| Validation.SupplyStaysTotal | src/servilo/main.cpp:1504-1508 | the total of the unspent set moves exactly as the money supply does, less the value of replaced records, of which there are none when the BIP 30 test passes |
| MoneySupply.GrowthIsAtMostMint | src/servilo/main.cpp:1518-1519 | when the coinbase meets its limit, outputs exceed inputs by at most TargetGetMint: fees cancel and the coinbase minimum fee pays for the allowance |
| MoneySupply.MintIsInverseSquare | src/servilo/prime.cpp:321-341 | the minted amount is that of 999 coins divided by the square of the difficulty, rounded down to a cent |
| MoneySupply.MinFeeFloor | src/servilo/main.cpp:499-542 | the minimum fee is never below MIN_TX_FEE nor above MAX_MONEY |
| MoneySupply.MinFeeBySize | src/servilo/main.cpp:499-542 | below the most money the minimum fee is the whole number of cents next above a cent per thousand bytes |
| MoneySupply.BlockConserves | src/servilo/main.cpp:1486-1488 | the total value of the unspent set after the first k transactions, exactly |
| Chain.FindFork | src/servilo/main.cpp:1568-1582 | the walk ends at the last common block of the two branches |
| Chain.CollectBranch | src/servilo/main.cpp:1584-1593 | the blocks of a branch above the fork, all of them, newest first |
| Chain.UndoGivesParentState | src/servilo/main.cpp:1277-1362 | undoing a connected block gives back the replay of the chain up to its parent if and only if it replaced no unspent record |
| Chain.DisconnectBranch | src/servilo/main.cpp:1600-1617 | disconnecting a branch whose blocks replaced nothing unspent leads, inside one view, to the replay of the chain up to its base |
| Chain.ConnectBranch | src/servilo/main.cpp:1619-1640 | connecting a branch leads to the replay up to its end, and counts how far it came when it fails |
| ChainState.BranchIsUndoable | src/servilo/main.cpp:1424-1440 | every block of the active chain can be undone exactly; of the two exceptions to BIP 30 it must be known that they replaced nothing unspent |
| ChainState.CChainState.MoveCoins | src/servilo/main.cpp:1562-1644 | disconnecting and connecting in a cache layer either reaches the replay of the new chain in pcoinsTip or leaves its content as it was |
| ChainState.CChainState.UpdateLinks | src/servilo/main.cpp:1668-1676 | after unlinking the old and linking the new blocks, pnext leads along the new branch and nowhere else |
| ChainState.CChainState.SetBestChain | src/servilo/main.cpp:1562-1722 | a reorganisation equals replaying the new branch from genesis; a failure before the flush keeps the tip, the links and the unspent set, every active block stays undoable, and only blocks of the failed new branch are marked; the undo data and money supply of the blocks tried may be new |
| Chain.SupplyOfBranch | src/servilo/main.cpp:1504-1519 | over a whole branch the money supply is the total of what is unspent and of the records replaced on the way, and at most the sum of what its blocks mint |
| ChainState.SupplyOfTip | src/servilo/main.cpp:1504-1519 | so in every state the tip's recorded money supply is the total value of pcoinsTip, but for records replaced under the BIP 30 exemption, and at most what its chain minted |
| Maturity.CoinbaseMatures | src/servilo/main.cpp:1205-1217 | a block that meets the conditions of ConnectBlock on a branch spends no output of a coinbase that was connected on it less than 3000 blocks before, over the replay of any number of blocks between |
| Maturity.EarlySpendIsRefused | src/servilo/main.cpp:1214-1217 | so a block below that height that spends one is not accepted |
| Maturity.RecordsHaveSources | src/servilo/main.h:883-883 | every record of a replayed branch comes from a transaction of the branch, with the height of its block |
| Maturity.OthersAreFree | src/servilo/main.cpp:1214-1217 | the outputs of other transactions are held back by no height |
| Maturity.HeightDoesNotMatter | src/servilo/main.cpp:1214-1217 | a record that no coinbase made passes or fails the tests on inputs alike at every height |
| BestChain.FindBlockByHeight | src/servilo/main.cpp:906-921 | the memoised walk finds the active block of a height, whatever block it remembers |
| BestChain.LastByWork | src/servilo/main.cpp:1046-1055 | the candidate chosen is the last in the comparator order |
| BestChain.MarkDescendantsFailed | src/servilo/main.cpp:1064-1074 | exactly the blocks of the branch above the failed one are marked and leave the candidates |
| BestChain.CheckAncestry | src/servilo/main.cpp:1060-1094 | stops at the first failed block, or where the branch meets the active chain or a root; the list to attach ends in the candidate |
| BestChain.MarkingKeeps | src/servilo/main.cpp:1064-1074 | marking changes the outcome of no walk, and only blocks whose walk would have ended at a failed one are marked |
| BestChain.RejectBranch | src/servilo/main.cpp:1064-1075 | each retry strictly shrinks the set of candidates, and the tip can move to the same ones as before |
| BestChain.ConnectBestBlock | src/servilo/main.cpp:1046-1096 | terminates; on success the tip is the last of the candidates with more work than the old tip whose walk, before the call, reaches no failed block, or the old tip if there are none; it has no failed ancestor if and only if, before the call, what its branch shares with the old one had none; no candidate has more work than it, and dropped candidates are failed |
| FailedAncestor.MakeTrunk | src/servilo/main.cpp:1046-1096 | a state of three blocks, the middle one failed, that meets the conditions of ConnectBestBlock; the tip is the only candidate and has not failed |
| FailedAncestor.FailedAncestorStays | src/servilo/main.cpp:1053-1055 | there the call succeeds and leaves the failed block below the tip |
| BestChain.BlockWorkGrows | src/servilo/main.cpp:2048-2068 | a child has strictly more chain work than its parent |
| MerkleTree.NodeInLevels | src/servilo/main.cpp:2214-2229 | the flat list of levels holds, at the place of every node, what the recursive hash computes there |
| MerkleTree.BuildMerkleTree | src/servilo/main.h:1371-1387 | the list is the concatenation of all levels from the ids up, and the result is the hash of the tree defined from the top by the hash function itself: 0 for an empty block, the id of a single transaction, H(a, b) for ids a and b |
| MerkleTree.NodeIsTreeHash | src/servilo/main.h:1376-1385 | a node above 2^h leaves and one to 2^h others is the hash of the node of the former with that of the latter; above at most 2^h leaves it is the hash of the one below with itself |
| MerkleTree.RootIsTreeHash | src/servilo/main.h:1371-1387 | the same of the root, whose height is the smallest at which the ids fit |
| MerkleTree.WidthFormula | src/servilo/main.h:1194-1196 | the closed form is the width that repeated halving with rounding up gives, at every height |
| MerkleTree.GetMerkleBranch | src/servilo/main.h:1396-1410 | the branch extracted from the flat tree is that of the recursive tree |
| MerkleTree.BranchFolds | src/servilo/main.h:1412-1425 | folding the true branch of any node at its position gives the root |
| MerkleTree.FoldIsSound | src/servilo/main.h:1412-1425 | with an injective pair hash, a hash and branch of the right length that fold to the root are the true ones |
| MerkleTree.BranchOfTransaction | src/servilo/main.h:1396-1425 | extraction and check together give the root, for every index |
| PartialMerkleTree.CPartialMerkleTree.TraverseAndBuild | src/servilo/main.cpp:2231-2247 | appends the bits and hashes of the encoding of a subtree |
| PartialMerkleTree.CPartialMerkleTree.TraverseAndExtract | src/servilo/main.cpp:2249-2279 | reads what the decoding specification reads, for any bits and hashes, with its overflow checks |
| PartialMerkleTree.DecodeAfterEncode | src/servilo/main.cpp:2231-2279 | decoding an encoded subtree gives its hash and its matches in order, and consumes all of it |
| PartialMerkleTree.EncodedSizes | src/servilo/main.h:1160-1175 | the number of hashes is at most the leaves and at most 1 + matches * height |
| PartialTreeBits.BitCount | src/servilo/main.cpp:2231-2247 | the exact number of bits of every subtree: twice its hashes less one, and one more for each node visited above a single child |
| PartialTreeBits.CommentedBoundIff | src/servilo/main.h:1160-1175 | the commented bound of 2N - 1 bits holds if and only if no match lies below the last node of a level of odd width |
| PartialTreeBits.CommentedBoundForAll | src/servilo/main.h:1160-1175 | it holds for all selections if and only if the number of leaves is a power of two |
| PartialTreeBits.CommentedBitBoundFails | src/servilo/main.h:1175-1175 | three leaves with the last one matched: 2 hashes and 4 bits |
| PartialMerkleTree.EncodedIsAccepted | src/servilo/main.cpp:2295-2326 | an encoded tree passes all tests of ExtractMatches, also with padding bits |
| PartialMerkleTree.ProveAndExtract | src/servilo/main.cpp:2281-2326 | from any ids and selection through the packed message: BuildMerkleTree's root, exactly the selected ids in order, within the bound on hashes |
| PartialMerkleTree.CPartialMerkleTree.Serialize | src/servilo/main.h:1211-1228 | bits are packed eight to a byte, least significant first |
| PartialMerkleTree.DecodeIsSound | src/servilo/main.cpp:2249-2279 | with an injective pair hash, a subtree that decodes to its true hash yields only ids below it, in block order |
| PartialMerkleTree.ExtractSoundly | src/servilo/main.cpp:2295-2326 | any bits and hashes for the true count that are accepted with the block's root yield a subsequence of the block's ids |
| PrimeTable.GeneratePrimeTable | src/servilo/prime.cpp:21-50 | the table is the ascending list of all primes below the limit |
| Arithmetic.IntInvert | src/servilo/prime.cpp:996-1038 | the inverse modulo a prime, between 0 and p; every quotient, product and coefficient on the way fits 32 bits |
| Arithmetic.PrimeDividesProduct | src/servilo/prime.cpp:996-1038 | a prime that divides a product divides a factor, which the inverse rests on |
| SieveMultipliers.CombinePrimes | src/servilo/prime.cpp:1290-1297 | the combined divisor is a product of table primes that fits 32 bits, from a table that ends above 2^16 |
| SieveMultipliers.ComputeMultipliers | src/servilo/prime.cpp:1282-1360 | for every sieving prime and layer the stored multiplier is the first index that the prime strikes, or the marker when it divides the fixed factor |
| SieveSpec.MultiplierHits | src/servilo/prime.cpp:1331-1345 | the odd half of the inverse, and of its negation, are exactly the residues that a prime strikes in a layer of either kind |
| SieveSpec.NextInverse | src/servilo/prime.cpp:1323-1348 | halving modulo the prime gives the inverse for the next layer |
| SieveSpec.FixedFactorNeverHits | src/servilo/prime.cpp:1308-1314 | a prime in the fixed factor divides no member of any chain |
| SieveLayer.ProcessMultiplier | src/servilo/prime.cpp:1041-1148 | in one chunk a bit of a layer is set exactly when some sieving prime divides that layer's number, and entries move past the chunk |
| SieveArrays.ApplyLayer | src/servilo/prime.cpp:1151-1242 | what each of the three variants combines into the three arrays, word for word |
| SieveArrays.CombineBitsets | src/servilo/prime.cpp:1244-1268 | a candidate is what is left by at least one of the three arrays |
| Sieve.CSieveOfEratosthenes.Weave | src/servilo/prime.cpp:1274-1427 | after an uninterrupted run every bit of every array of the base sieve and of the extensions is right |
| Sieve.CSieveOfEratosthenes.BitsMean | src/servilo/prime.cpp:1274-1427 | a bit is clear if and only if no sieving prime divides a member of the chain: CC1 with -1, CC2 with +1, bi-twin with the upper and lower half of the layers, multiplier (2i+1)*2^e |
| Sieve.CSieveOfEratosthenes.SkipEmptyWords | src/servilo/prime.h:649-690 | the words skipped hold no candidate |
| Sieve.CSieveOfEratosthenes.CandidateType | src/servilo/prime.h:700-752 | the type reported is one whose whole chain no sieving prime divides, bi-twin first |
| Sieve.CSieveOfEratosthenes.GetNextCandidateMultiplier | src/servilo/prime.h:649-752 | the next candidate, none skipped; its multiplier modulo 2^32; at the end the sieve is depleted and rewound |
| Sieve.CSieveOfEratosthenes.ScanAll | src/servilo/prime.h:649-752 | a whole scan yields each candidate bit from base index 1 on exactly once, in order, each with its multiplier modulo 2^32 and the first type whose chain survives |
| Sieve.MultipliersFit | src/servilo/prime.h:649-752 | the 32-bit multiplier is exact at all positions if and only if the last one fits |
| Sieve.DefaultsFitMaximaDoNot | src/servilo/prime.h:515-560 | the default sizes fit, the largest permitted ones do not |
| Sieve.FindCandidates | src/servilo/prime.cpp:1274-1427 | from Reset through Weave to the last candidate: the positions found are exactly those, but base index 0, with a type of chain that no sieving prime divides, and each is reported with its multiplier modulo 2^32 and the first such type |
| Sieve.TableServesSieve | src/servilo/prime.cpp:21-50 | the generated table meets all that the sieve asks of one: odd primes after the first, and two above 2^16 at its end |
| PrimalityTests.FermatTest | src/servilo/prime.cpp:382-398 | passes if and only if 2^(n-1) is 1 modulo n, as every odd prime does; the fractional assertion is reached if and only if n is a power of two |
| PrimalityTests.ZeroRemainderIff | src/servilo/prime.cpp:391-395 | the Fermat remainder is 0 if and only if n is a power of two |
| PrimalityTests.OddOriginReachesAssertion | src/servilo/prime.cpp:391-395 | the odd origin 2^k + 1 starts a chain of the first kind there, and the fraction comes out as a whole one |
| PrimalityTests.LifchitzTest | src/servilo/prime.cpp:406-435 | the verdict for the residue of n modulo 8, which every prime of an admitted residue passes, and the fractional length of the Fermat remainder; the fractional assertion cannot be reached for odd n of 3 or more |
| TwoModPrime.PowerIsSign | src/servilo/prime.cpp:406-424 | 2^((p-1)/2) modulo an odd prime p is 1 or p - 1 as p modulo 8 is 1 or 7, or is 3 or 5 |
| PrimalityTests.PrimePassesLifchitz | src/servilo/prime.cpp:406-424 | so a prime passes the Euler-Lagrange-Lifchitz test of either kind |
| PrimalityTests.LifchitzImpliesFermat | src/servilo/prime.cpp:406-435 | who passes the Euler-Lagrange-Lifchitz test passes the Fermat test |
| PrimalityTests.EulerImpliesFermat | src/servilo/prime.cpp:630-664 | who passes the fast Fermat test passes the slow one |
| PrimalityTests.EulerRemainderFast | src/servilo/prime.cpp:639-647 | moving up to nine squarings into the base gives 2^((n-1)/2) modulo n |
| PrimalityTests.FermatTestFast | src/servilo/prime.cpp:630-664 | Euler's criterion, which every prime passes; a failure leaves the same fractional length as the slow test |
| PrimalityTests.LifchitzTestFast | src/servilo/prime.cpp:673-721 | same verdict, same error and, without fast fail, same length as the slow test; every prime of an admitted residue passes |
| PrimeChains.MembersFit | src/servilo/prime.cpp:463-490 | after a passed start no member is even and none has a residue modulo 8 that the test rejects |
| PrimeChains.ProbableCunninghamChainTest | src/servilo/prime.cpp:463-490 | the length counts the members that pass before the first that fails, with that one's fraction; members that are prime are all counted |
| PrimeChains.MemberIs | src/servilo/prime.cpp:487-488 | member k of a chain is 2^k (n + 1) - 1 or 2^k (n - 1) + 1 |
| PrimeChains.PrimesAreCounted | src/servilo/prime.cpp:463-490 | a chain whose first k members are primes has at least length k |
| PrimeChains.FermatChainAtLeast | src/servilo/prime.cpp:545-561 | the Fermat-only double check never finds a shorter chain; it finds the same length if and only if the member that ended the chain fails Fermat too |
| MinerChains.ProbableCunninghamChainTestFast | src/servilo/prime.cpp:727-748 | the miner's length: none for a start that fails Euler, else the validator's count, with a fraction from the fifth member on |
| MinerChains.FastLengthCountsPrimes | src/servilo/prime.cpp:727-748 | the miner counts prime members in full, too |
| MinerChains.FastNeverOverclaims | src/servilo/prime.cpp:727-748 | the miner's length is at most the validator's, and equal from four members on |
| MinerChains.ProbableBiTwinChainTestFast | src/servilo/prime.cpp:752-786 | the alternating walk counts twins up to the first failure |
| MinerChains.ProbablePrimeChainTest | src/servilo/prime.cpp:496-514 | both chain lengths and the bi-twin length that follows, which fits 32 bits |
| MinerChains.BiTwinIsTwins | src/servilo/prime.cpp:506-512 | the bi-twin length computed from the two chains is the number of twins before the first failure, with that failure's fraction |
| MinerChains.FastTwinNeverOverclaims | src/servilo/prime.cpp:752-786 | the alternating walk and the formula agree from four members on, and before that the walk claims no more |
| MinerChains.MinedChainMeetsTarget | src/servilo/prime.cpp:792-819 | a chain of any type that meets the miner's target meets the validator's |
| MinerChains.MinedChainIsAcceptedIff | src/servilo/prime.cpp:531-561 | it passes both chain tests of the validator, the one with Fermat tests only among them, if and only if the members that end its two Cunningham chains fail Fermat too |
| Target.TargetGetNext | src/servilo/prime.cpp:345-377 | throws exactly when the moving average divides by zero, and otherwise succeeds for every target |
| Target.NextTargetIsValid | src/servilo/prime.cpp:345-377 | the next target is a 32-bit target, one length away at most and not below the minimum |
| Target.LengthMovesByOne | src/servilo/prime.cpp:360-372 | the length grows or shrinks under exactly these difficulties |
| Target.NextTargetAntitone | src/servilo/prime.cpp:345-377 | a slower block never gives a higher target while the divisor keeps its sign; a negative one gives the lowest of all |
| Target.SpacingsCancel | src/servilo/prime.cpp:345-360 | after a block that took k target spacings the difficulty is multiplied by (N + 1) / (N - 1 + 2k), N the spacings in the averaging interval, within its bounds |
| Target.DivisorOfAWeek | src/servilo/main.cpp:948-949 | with the program's week and minute the divisor is zero for a block dated 302370 seconds before its parent, and negative for an earlier one |
| Target.SetAfterGet | src/servilo/prime.cpp:293-309 | setting the fractional difficulty just read gives the target back |
| Target.OnScheduleFixpoint | src/servilo/prime.cpp:345-377 | on schedule a target stays if and only if its fraction is at most 2^24 - 2^16 and not 0 at a length that can be left |
| Target.BlockWorkAtLeast256 | src/servilo/main.cpp:2048-2068 | every block counts at least 256 |
| Target.BlockWorkMonotone | src/servilo/main.cpp:2048-2068 | a higher target never counts less |
| Target.BlockWorkIsRarity | src/servilo/main.cpp:2048-2068 | the work is 256 times 32 for each unit of length above the minimum, divided by the rate at which chains of the length meet the target, as the comment states that rate, and rounded down |
| Target.MinimumCounts256 | src/servilo/main.cpp:2048-2068 | the minimum length at fraction 0 counts exactly 256 |
| Target.OneMorePrime | src/servilo/main.cpp:2048-2068 | one more unit of length multiplies the work by 32, exactly so at fraction 0 |
| Target.BelowNextLength | src/servilo/main.cpp:2048-2068 | within a length the work stays below that of the start of the next |
| CheckQueue.CCheckQueue.Section | src/servilo/checkqueue.h:64-121 | the critical section of Loop as one step on the shared fields |
| CheckQueue.CCheckQueue.Add | src/servilo/checkqueue.h:139-150 | checks join the queue and are counted |
| CheckQueue.BatchLeavesShares | src/servilo/checkqueue.h:101-106 | a batch is the largest that leaves as much for every other thread, idle ones among them, up to nBatchSize, but one check at least |
| CheckQueue.RunBatch | src/servilo/checkqueue.h:117-121 | a batch is good if and only if all of it is and it started good |
| CheckQueueRuns.StepKeeps | src/servilo/checkqueue.h:64-121 | every step of any thread keeps the invariant |
| CheckQueueRuns.CountersAreRight | src/servilo/checkqueue.h:64-121 | in every state of every run nTodo counts queued and held checks, nTotal - nIdle the threads with a batch, and a blocked master without a notification implies a worker with a batch |
| CheckQueueRuns.ControllerStartsClean | src/servilo/checkqueue.h:161-176 | the constructor's three assertions hold whenever a controller can be made |
| CheckQueueRuns.WaitReturnsConjunction | src/servilo/checkqueue.h:134-136 | Wait returns the conjunction of all checks added since the controller was made |
| CheckQueueRuns.NeverStuck | src/servilo/checkqueue.h:64-121 | while the master waits some thread takes a step, to a next state, that is not a spurious wake-up |
| CheckQueueRuns.RankFalls | src/servilo/checkqueue.h:64-121 | each such step brings the master nearer to its return |
| CheckQueueRuns.WaitReturns | src/servilo/checkqueue.h:134-136 | in any run, spurious wake-ups among its steps or not, the number of the other steps before the master returns is bounded by the rank at the start |
| AddrMan.CAddrMan.constructor | src/servilo/addrman.h:382-390 | the empty manager is consistent |
| AddrMan.CAddrMan.SwapRandom | src/servilo/addrman.cpp:106-124 | two positions are exchanged and stay inverse to the ids |
| AddrMan.CAddrMan.SelectTried | src/servilo/addrman.cpp:126-148 | the bucket is shuffled by the draws, and the slot returned is the one from which the oldest inspected entry was drawn |
| AddrSelect.SlotHoldsOldestIff | src/servilo/addrman.cpp:126-148 | in a bucket of distinct ids that slot holds the oldest inspected entry if and only if it was drawn from where it went |
| AddrSelect.NewerIsSelected | src/servilo/addrman.cpp:126-148 | for every full bucket whose second entry is the oldest of the first four there are draws for which the slot holds a newer one |
| AddrMan.CAddrMan.ReplaceTried | src/servilo/addrman.cpp:231-259 | in a full bucket the entry evicted is the one in that slot, and it is the oldest inspected if and only if that one was drawn from where it went |
| AddrTables.TerribleMeans | src/servilo/addrman.cpp:38-56 | the reasons for which an entry is terrible, in seconds and attempts, and those for which it is not |
| AddrMan.CAddrMan.FindOldest | src/servilo/addrman.cpp:177-190 | the entry with the oldest time among at most four chosen by their positions |
| AddrMan.CAddrMan.ShrinkNew | src/servilo/addrman.cpp:150-202 | one entry of the bucket loses a reference, and goes with its last one: 0 only for one that was terrible; 1 only when none was, and then the oldest of those picked goes |
| AddrMan.CAddrMan.MakeTried | src/servilo/addrman.cpp:204-260 | the entry leaves all new buckets for the tried table; one evicted entry at most goes back; the sum of the counters stays |
| AddrMan.CAddrMan.Good_ | src/servilo/addrman.cpp:262-311 | a known service ends in the tried table with fresh times; of the others at most one changes, a tried one that goes back to a new bucket |
| AddrMan.CAddrMan.Add_ | src/servilo/addrman.cpp:313-369 | keeps everything; true exactly for a routable address that was unknown; a known one gets at most a newer time and one reference; at most one other entry, a new one, loses a reference |
| AddrMan.CAddrMan.Attempt_ | src/servilo/addrman.cpp:371-388 | exactly the attempt of a service known under that port is recorded |
| AddrMan.CAddrMan.Connected_ | src/servilo/addrman.cpp:510-528 | the time moves exactly when it is more than 20 minutes newer |
| AddrMan.CAddrMan.GetAddr_ | src/servilo/addrman.cpp:494-508 | as many entries as asked for, all from the table, with distinct addresses; only positions change |
| AddrMan.CAddrMan.Check_ | src/servilo/addrman.cpp:435-491 | 0 if and only if the tables are consistent, hence always between calls |
| AddrCheck.InvariantIsConsistent | src/servilo/addrman.cpp:435-491 | the invariant that every operation keeps implies all that Check_ looks at |
| AddrCheck.ConsistentMeansPlaced | src/servilo/addrman.cpp:435-491 | what passes has every id in its right number of buckets or slots and vRandom inverse to nRandomPos |
| ScriptCodec.PushIsRead | src/servilo/script.h:361-386 | a pushed byte string is read back as one instruction |
| ScriptCodec.NumRoundTrip | src/servilo/script.cpp:34-40 | numbers survive the stack |
| ScriptCodec.TrueIsNotZero | src/servilo/script.cpp:42-56 | a stack entry is true if and only if it is not the number zero, of either sign |
| ScriptCodec.FindAndDelete | src/servilo/script.h:493-512 | removes every copy at an instruction boundary and nothing else; after deleting one whole instruction none is left that starts with it |
| ScriptCodec.GetSigOpCount | src/servilo/script.cpp:1686-1708 | the loop counts what the recursive count does |
| ScriptCodec.AccurateCountsLess | src/servilo/script.cpp:1686-1708 | the accurate count is at most the other one |
| ScriptCodec.GetSigOpCountOfSpend | src/servilo/script.cpp:1710-1732 | the count of a pay-to-script-hash spend |
| Multisig.CSignatureChecker.TakeFirstKey | src/servilo/script.cpp:893-918 | giving the first signature the first key it fits loses no assignment |
| Multisig.CSignatureChecker.DropFirstKey | src/servilo/script.cpp:893-918 | a key that does not fit the first signature is needed by none |
| Multisig.CanonicalIff | src/servilo/script.cpp:225-290 | a signature is canonical if and only if it is the DER sequence of two positive integers without padding, and a hash type, within 73 bytes; a key if and only if it is one of the two forms of a point |
| Multisig.CSignatureChecker.MatchSignatures | src/servilo/script.cpp:893-918 | succeeds if and only if there is an order-preserving assignment of all signatures to distinct keys that verify them; one call per key at most |
| ScriptEngine.EffectsOnTwo | src/servilo/script.cpp:440-640 | the effect of the stack opcodes on one or two entries, as the comments beside them draw it |
| ScriptEngine.EffectsOnThree | src/servilo/script.cpp:458-640 | the effect of the stack opcodes on three entries |
| ScriptEngine.EffectsOnFour | src/servilo/script.cpp:458-640 | the effect of the stack opcodes on four entries |
| ScriptEngine.EffectsOnSix | src/servilo/script.cpp:506-520 | the effect of the stack opcode on six entries |
| ScriptEngine.PickAndRoll | src/servilo/script.cpp:586-605 | copying and moving the entry a given depth below the top |
| ScriptEngine.EffectsOfEqual | src/servilo/script.cpp:650-676 | equality, pushed or required |
| ScriptEngine.EffectsOnNumber | src/servilo/script.cpp:682-706 | the effects of the opcodes on one number |
| ScriptEngine.EffectsOnNumbers | src/servilo/script.cpp:708-760 | sum, difference, smaller and larger of two numbers |
| ScriptEngine.TestsOnNumbers | src/servilo/script.cpp:708-760 | the truth values of two numbers |
| ScriptEngine.EffectsOfComparing | src/servilo/script.cpp:752-782 | required equality of numbers, and the half-open interval |
| ScriptEngine.OperandFits | src/servilo/script.cpp:34-40 | an operand of at most four bytes is a number of 31 bits and a sign |
| ScriptEngine.LongOperandsFail | src/servilo/script.cpp:34-40 | a numeric operand above four bytes ends the script |
| ScriptEngine.CheckSigOp | src/servilo/script.cpp:824-859 | the verdict on the top two entries, for the script without the signature, pushed or required |
| ScriptEngine.CheckMultisigOp | src/servilo/script.cpp:861-935 | the verdict is whether the signatures are assignable, for the script without any of them; its operands go; one call per key at most |
| ScriptEngine.EvalScript | src/servilo/script.cpp:292-956 | succeeds if and only if the run of its instructions does, with the stack of that run; at most as many CheckSig calls as the accurate count of the script; a run of pushes ends with the last one on top |
| ScriptEngine.RedeemScriptIsCounted | src/servilo/script.cpp:1710-1732 | the count of the redeem script that a spend runs is at most that of the spend |
| ScriptEngine.VerifyScript | src/servilo/script.cpp:1477-1516 | true if and only if both runs succeed and leave a true entry on top, and for the hash of a script, if asked for, the signature script consists of pushes and the script pushed last does so on the entries below it; within the static counts of the scripts |
| ScriptEngine.InaccurateCountBounds | src/servilo/script.cpp:1686-1708 | hence within the inaccurate count |
| StandardScripts.PushForms | src/servilo/script.h:361-386 | the four forms of a push, by the length of the string |
| StandardScripts.CountsOnStack | src/servilo/script.cpp:866-887 | the counts of a multisignature check are accepted if and only if there are at most 20 keys, within the limit on operations, no more signatures than keys, and all of them on the stack above one more entry |
| StandardScripts.PayToPubKey | src/servilo/script.cpp:1134-1134 | an output that pays to a key is spent by a pushed signature if and only if it is good for that key on the output's script, and both fit their size |
| StandardScripts.PayToPubKeyHash | src/servilo/script.cpp:1137-1137 | an output that pays to the hash of a key is spent by a signature and a key if and only if the key has that hash and the signature is good for it |
| StandardScripts.PayToMultisig | src/servilo/script.cpp:1140-1140 | an output that pays to m of n keys is spent by pushes if and only if there are more than m and the last m are signatures that can be assigned to keys in order, on the output's script without them |
| StandardScripts.PayToScriptHash | src/servilo/script.cpp:1493-1513 | an output that pays to the hash of a script is spent if and only if the script pushed last has that hash and the other pushes spend an output with that script itself; without the flag the hash alone decides |
| StandardScripts.PayToMultisigHash | src/servilo/script.cpp:1493-1513 | so the hash of an m-of-n script is spent by that script under m signatures that can be assigned to its keys in order |
| StandardScripts.BranchIsChosen | src/servilo/script.cpp:381-416 | OP_IF and OP_NOTIF run one of two branches by the entry that they take, and pass over the other |
| StandardScripts.EvalWithinLimits | src/servilo/script.cpp:303-341 | a script that succeeds is well formed, within 10000 bytes and 201 counted operations, and has no push above 520 bytes and no disabled opcode, not even in a branch passed over |
| StandardScripts.StandardSigOps | src/servilo/script.cpp:1686-1708 | the templates for one key count for one signature operation, that for the hash of a script for none |
| StandardScripts.MultisigSigOps | src/servilo/script.cpp:1686-1708 | the template for m of n keys counts for n accurately, and for 20 otherwise |
| StandardScripts.ScriptHashSigOps | src/servilo/script.cpp:1710-1732 | a spend of the hash of a script counts for that script |
| VarInts.VarIntIsBijection | src/servilo/serialize.h:238-259 | every number has exactly one encoding, and every byte string of the right form is one |
| VarInts.ReadAfterWrite | src/servilo/serialize.h:289-302 | a number of the type is read back, whatever follows |
| VarInts.SignedRoundTripIff | src/servilo/serialize.h:272-302 | a signed number is read back if and only if it is not negative; a negative one is written as one byte |
| VarInts.WriteVarInt | src/servilo/serialize.h:272-287 | writes that encoding for every number of the type, and one byte with the low seven bits for a negative one |
| VarInts.FillDigits | src/servilo/serialize.h:272-283 | the temporary buffer is long enough |
| VarInts.ReadVarInt | src/servilo/serialize.h:289-302 | reads what the recursive reader does, in unsigned arithmetic of the type |
| VarInts.GetSizeOfVarInt | src/servilo/serialize.h:259-270 | the size is the length of what is written, for negative numbers too |
| AmountCodec.CompressedIsBijection | src/servilo/main.cpp:3921-3964 | compression and decompression of amounts are inverse to each other on all numbers |
| AmountCodec.CompressAmount | src/servilo/main.cpp:3921-3938 | computes the compact form modulo 2^64, for every amount; below 2^60 the form itself |
| AmountCodec.DecompressAmount | src/servilo/main.cpp:3940-3964 | computes the amount modulo 2^64 |
| ScriptCompressor.DecompressInverts | src/servilo/script.cpp:1783-1905 | a script in one of the six special forms is restored from it |
| ScriptCompressor.ScriptRoundTrip | src/servilo/script.h:630-667 | every script survives the round trip in as many bytes as announced |
| CoinsCodec.CoinsRoundTrip | src/servilo/main.h:962-1023 | a record that is not pruned is read back up to spent outputs at its end and the sign of its version, and nothing after it is consumed |
| CoinsCodec.CleanRecordsSurviveIff | src/servilo/main.h:962-1023 | a record as the unspent set holds it is read back unchanged if and only if its version is not negative; otherwise only the version differs |
| CoinsCodec.MinusOneReadsAs127 | src/servilo/main.cpp:1309-1313 | version -1 is read back as 127 |
| CoinsCodec.CodeFits | src/servilo/main.h:939-972 | the header code is a 32-bit number: something unspent shows in its flags or in the mask |
| CoinsStream.CalcMaskSize | src/servilo/main.h:917-933 | the mask's length up to its last used byte and the number of nonzero bytes |
| CoinsStream.Serialize | src/servilo/main.h:962-990 | writes the format |
| CoinsStream.GetSerializeSize | src/servilo/main.h:939-960 | as many bytes as Serialize writes |
| CoinsStream.Unserialize | src/servilo/main.h:992-1023 | reads the format, fails exactly when data run out |
| CoinsStream.CopyThroughStream | src/servilo/main.h:962-1023 | written and read into another object, a clean record is the same if and only if its version is not negative; the rest of the stream is untouched |
| FormatExamples.VarIntMeans | src/servilo/serialize.h:237-250 | the number of an encoding is its last digit and, each plus one, the others at their places |
| FormatExamples.VarIntExamples | src/servilo/serialize.h:252-257 | the numbers of the comment have the encodings it gives, but for 16511 and 65535 |
| FormatExamples.AmountFormula | src/servilo/main.cpp:3912-3919 | the compact form of an amount with a digit d before e zeros, by the formula of the comment |
| FormatExamples.WholeAmountFormula | src/servilo/main.cpp:3912-3919 | the same for nine zeros or more |
| FormatExamples.SpecialForms | src/servilo/script.cpp:1783-1905 | the leading byte and the rest of each special form |
| FormatExamples.RecordExample | src/servilo/main.h:833-846 | the first record of the comment has the bytes it gives |
| FormatExamples.CoinbaseExample | src/servilo/main.h:849-866 | the second record of the comment has the bytes it gives |
| SyncCheckpoint.CheckpointState.ValidateSyncCheckpoint | src/servilo/checkpointsync.cpp:105-145 | true if and only if the block is known and strictly above the current checkpoint on its branch; noted as invalid if and only if neither descends from the other |
| SyncCheckpoint.CheckpointState.AcceptPendingSyncCheckpoint | src/servilo/checkpointsync.cpp:166-204 | an accepted pending checkpoint extends the line of checkpoints, each strictly above the one before; otherwise the current one stays, and the pending one is dropped exactly when it is known and not strictly above |
| SyncCheckpoint.CheckpointState.ProcessSyncCheckpoint | src/servilo/checkpointsync.cpp:433-478 | likewise for a received one; an unknown block becomes pending |
| SyncCheckpoint.CheckpointState.ResetSyncCheckpoint | src/servilo/checkpointsync.cpp:275-301 | a reset starts a new line at the hardened checkpoint if its block is known, else at genesis with that checkpoint pending |
| SyncCheckpoint.CheckpointState.DescendsFromSync | src/servilo/checkpointsync.cpp:217-250 | the shortcut over the remembered block gives the answer of the plain ancestor test |
| SyncCheckpoint.CheckpointState.CheckSyncCheckpoint | src/servilo/checkpointsync.cpp:217-259 | above the checkpoint true if and only if the parent is the checkpoint or descends from it; at its height only itself; below only known blocks; the remembered block stays a descendant |
| Base58.RepOfNum | src/servilo/base58.h:29-70 | a digit string of any base is determined by its leading zeros and its number |
| Base58.DecodedEncoded | src/servilo/base58.h:29-121 | decoding inverts encoding on every byte string |
| Base58.EncodedDecoded | src/servilo/base58.h:29-121 | encoding inverts decoding on every string over the alphabet |
| Base58.AlphabetAscends | src/servilo/base58.h:26-26 | the alphabet is the digits and letters but 0, O, I and l, in ascending order |
| Base58.EncodeBase58 | src/servilo/base58.h:26-63 | the loops compute that encoding |
| Base58.DecodeBase58 | src/servilo/base58.h:74-121 | accepts exactly alphabet characters with white space around, and gives their bytes |
| Base58.TrimSign | src/servilo/base58.h:104-108 | the sign byte of the number's bytes is recognised, and nothing else is taken for it |
| Base58.SpacesDoNotMatter | src/servilo/base58.h:74-99 | white space around a text changes nothing |
| Base58.DecodeBase58Check | src/servilo/base58.h:146-162 | accepts exactly texts whose last four bytes are the checksum of the others |
| Base58.CheckedRoundTrip | src/servilo/base58.h:134-162 | the checksummed pair returns every byte string, for any hash |
| Base58.CheckedReturn | src/servilo/base58.h:134-162 | what decodes with its checksum is encoded to the same digits |

## Left out

- Validation.ConnectBlock: the check-only path; the limit on signature operations as a number, the script checks and CheckBlock's tests besides the predicate `BlockOk` are one verdict, `fOutside`, left open.
- Validation.DisconnectBlock: the database gives records back as they were written, so the loss of a negative version on disk, which main.cpp:1309-1313 allows for, is only in `CoinsCodec`.
- ChainState.CChainState.SetBestChain: memory pool resurrection and removal, warnings, notifications, file flushing and pruning are not modelled; InvalidChainFound only records `nBestInvalidWork`, which is left out; a BIP 30 exception to be disconnected must have replaced nothing unspent: else disconnecting it, which can succeed (`Validation.RepeatedCoinbaseIsLost`), does not lead back to the earlier set (`Chain.UndoGivesParentState`), and no replay is claimed.
- BestChain.ConnectBestBlock: it asks the same of the BIP 30 exceptions in the tree; an error that throws is a failure.
- CTxMemPool, wallet, CBlockLocator, orphans and relay policy.
- MerkleTree.FoldIsSound: for branches of the tree's height; BuildMerkleTree admits a second list of ids with a repeated tail and the same root, so no claim is made about other heights.
- Sieve.CSieveOfEratosthenes.Weave: the early stop when a new block arrives, the vector instructions and unrolled loops; Reset is the constructor, so reuse of the buffers of an earlier sieve is not covered; the sieve uses fewer primes than the table holds, so its option at the size of the whole table is not covered.
- Sieve.FindCandidates: mining statistics, time limits and primorial choice around the scan.
- PrimeChains.ProbableCunninghamChainTest: the walk has no bound in the program and need not end for pseudoprimes; a number of steps below 256 is a parameter, and within it the lengths fit their 32 bits.
- MinerChains.ProbablePrimeChainTest: likewise, with fewer than 128 steps.
- CheckPrimeProofOfWork beyond its two chain tests, which `MinerChains.MinedChainIsAcceptedIff` composes: header limits, size limits and the normalisation of the certificate; trial division and the estimates of mining speed.
- TargetGetMint is taken as computed, its over-limit error included; the floating point difficulty and GetChance are left out.
- CheckQueue: destruction and interruption of threads; fQuit is never set by the program.
- AddrMan.CAddrMan.GetAddr_: Select_, which draws with floating point weights, services and the file format of the manager are not modelled; sets are visited in any order.
- Maturity.CoinbaseMatures: ids are hashes, so no other transaction has the id of a coinbase; of the blocks that BIP 30 does not test this is asked (`ReusedByCoinbase`), and in all others it is proved.
- StandardScripts.PayToPubKey: signature scripts of one push, and of pushes in the lemmas after it; what other signature scripts leave on the stack is only in `Eval`.
- StandardScripts.BranchIsChosen: the two branches consist of pushes.
- Scripts: the transaction digest is inside the signature predicate; Solver, SignN and CombineSignatures are left out.
- AmountCodec.CompressAmount: amounts whose compact form exceeds 64 bits are far above the money range; that they do not return is not stated.
- CoinsCodec.CoinsRoundTrip: amounts are not negative and below 2^60, far above the money range.
- ScriptCompressor.ScriptRoundTrip: the curve is a table from compressed to full keys, so a full key is valid when compression leads back to it.
- CoinsStream.Unserialize: what an early end of data leaves in the half-read object is not stated.
- SyncCheckpoint.CheckpointState.ProcessSyncCheckpoint: message signing and relay; SetBestChain and database writes succeed or fail arbitrarily.
- Base58.DecodeBase58: texts do not contain the terminator; the alphabet is given by its ranges of characters.
- Network, threads start-up, disk files, LevelDB, OpenSSL and GMP are foreign code.
