# A verified model of the MEMBRA L3 core

This project models the stateful and algorithmic core of MEMBRA L3 in Dafny 4.11 and proves what that core
keeps over whole runs. `dafny verify dfyconfig.toml` checks everything.

| file | what it models |
|---|---|
| `Hashing`, `MerkleTree`, `MerkleRoot`, `MerkleProofs`, `MerkleBuilder` | the Merkle tree: build, prove, verify |
| `Appraisal` | scores and the market-cap appraisal |
| `VolatilityOracle` | the price ring buffer and the weighted mean |
| `ProofBook` | the hash-chained log |
| `ReceiverPaidGas` | gas receipts and the daily cap |
| `ComputeStaking`, `GasVault` | stakes, credit allowances and the vault that spends them |
| `ResourceAllocator` | resource commitments per node |
| `MempoolGovernor` | review, recommend, simulate, execute |
| `IntentNetwork` | payment intents and nonces |
| `Common`, `Decimal`, `MapSums`, `RealSums` | 64-bit wrap-around, number formatting, sums |

## Conventions

- Classes keep the program's fields and loops; each method is proved against a function of the old state, and the
  theorems are about those functions. Vectors and maps are `seq` and `map` fields; the price ring is an `array`.
- Every method holds a lock in the program, so it is one atomic step. Clock readings are inputs that do not go back
  within a run; a call has one reading, also where the program takes two (see "Left out").
- `uint64_t` arithmetic wraps explicitly (`Common.Wrap`). `double` is `real`.
- Iterating an `unordered_map` picks the remaining keys in arbitrary order.
- The hash is a parameter. No function into 32 bytes is injective, so collision-freeness is never assumed outright:
  each theorem takes a set `inputs` that contains everything hashed in the situation it speaks about, and requires
  only that no two members of that set collide.

## Where the code and its documentation differ

The model follows the code. Each difference is a theorem with the exact condition and an input that shows it.

- *Not every generated Merkle proof verifies.* When an odd last node moves up unpaired, the generator halves its
  index and the verifier does not. Proofs of the first `ProvableLeaves(n)` leaves verify and all others fail
  (`ProofVerifiesIff`); all verify only for a power-of-two leaf count.
- *Leaves and inner nodes are hashed alike*, so every list of two or more leaves has the root of a single 64-byte
  leaf (`SixtyFourByteLeafIsAmbiguous`), and that leaf passes as a member (`TopPassesAsLeaf`). Without 64-byte leaves
  the root determines the leaf list, even its length, and the accepted proofs are exactly the ones with the siblings
  of some leaf and an index that takes its sides (`AcceptedIff`).
- *The daily cap* is checked on a sum that can wrap 64 bits. Marking what was approved keeps a wallet's total within
  the cap exactly when that sum did not wrap or the receipt is older than a day (`ApprovalKeepsCapIff`). A whole run
  keeps the cap exactly when each receipt it marks has a fee within the cap or is older than a day
  (`CapOverEveryRunIff`); `WrapRunBreaksCap` is a run that does not.
- *The appraisal* divides by 10^9 where its comment says 10000^3. Before the cast to 64 bits only base 0 gives the
  documented value (`QuotientIsDocumentedIff`), and so does the returned value while the quotient fits 64 bits
  (`DocumentedFormulaIff`); beyond, the cast can make the two meet (`CastCanMeetDocumented`).
- *A score* is a percentage only for means up to 100, then wraps (`ScoreIsPercentIff`), so better factors can score
  lower; when they do not is exact as well (`ScoreKeepsOrderIff`).
- *`can_cover_gas`* promises cover from anyone's staked cores, `pay_gas` uses only the user's own
  (`CoveredButUnpaidIff`). The core counter can also wrap to zero while a stake still pays (`PaidIsCoveredIff`).
- *The log's payload* has no separator between data and timestamp, so digits can cross the border either way. Another
  entry with other data and the same hash exists exactly when the data ends in digits that could begin a number or the
  timestamp is ten seconds or more (`TwinIff`), hence for every reading of a real clock and whatever the data
  (`DelimitedDataHasTwin`). The hash binds the data only between entries whose data both end without such digits, as
  JSON text does; a verifier has to check that (`DelimitedEntriesAgree`, `TamperEvidentData`).
- *Ids made from timestamps* are used again within one microsecond (stakes) or millisecond (commitments), and the
  older record is lost. The books are proved with the lost records counted, for every run. Without them they balance
  exactly when the lost ones count for nothing (`BalancedIffNothingLost`, `ConservedIff`), in particular when no id is
  used again, and for stakes that is a condition on the calls alone (`DistinctStakesIff`).

## Model

| member | source | states |
|---|---|---|
| MerkleRoot.SplitPoint | src/merkle_provenance.cpp:217-246 | the split of section 2.1 of RFC 6962: a power of two k with k < n <= 2k |
| MerkleRoot.SplitPointUnique | src/merkle_provenance.cpp:217-246 | that property determines the split |
| MerkleRoot.BottomUpIsTreeHead | src/merkle_provenance.cpp:197-246 | for every non-empty leaf list the bottom-up loop with odd-node promotion returns the root of the RFC 6962 tree shape |
| MerkleRoot.RootHashesBytes | src/merkle_provenance.cpp:19-35 | in bytes: the root of one leaf is the leaf, of more the hash of the left part's root followed by the right part's |
| MerkleRoot.SameInputs | src/merkle_provenance.cpp:19-35 | both forms hash the same inputs |
| MerkleRoot.RootBindsLeafHashes | src/merkle_provenance.cpp:197-246 | equally many leaves and equal roots mean equal leaf hashes, odd promotions included |
| MerkleRoot.RootBindsData | src/merkle_provenance.cpp:12-35 | without 64-byte leaves equal roots mean the same leaf data, in the same order and number |
| MerkleRoot.SixtyFourByteLeafIsAmbiguous | src/merkle_provenance.cpp:12-35 | every list of two or more leaves has the root of one 64-byte leaf, the two digests hashed last, so the exclusion is needed |
| MerkleProofs.UnpromotedProofVerifies | src/merkle_provenance.cpp:41-64 | if no node on the path is promoted the generated proof verifies, for any hash |
| MerkleProofs.AcceptsStep | src/merkle_provenance.cpp:41-64 | in bytes: without siblings the leaf must be the root; else an even index hashes current then sibling, an odd one sibling then current, and goes on with half the index |
| MerkleProofs.ProofVerifiesIffAligned | src/merkle_provenance.cpp:41-64 | a generated proof verifies iff at each pairing verifier and generator agree on the side or the two nodes are equal |
| MerkleProofs.PromotedProofFails | src/merkle_provenance.cpp:278-302 | a promoted path whose node then meets a different sibling gives a proof that fails, whatever the leaf data |
| MerkleProofs.ProofVerifiesIff | src/merkle_provenance.cpp:248-305 | without 64-byte leaves the proof of leaf i verifies iff i < ProvableLeaves(n), a closed form in n |
| MerkleProofs.NeverPromotedIff | src/merkle_provenance.cpp:278-302 | the leaves no promotion touches are exactly that prefix |
| MerkleProofs.AllProofsVerifyIffPowerOfTwo | src/merkle_provenance.cpp:248-305 | every generated proof verifies iff the leaf count is a power of two |
| MerkleProofs.PositionBinding | src/merkle_provenance.cpp:41-64 | for 2^k leaves any accepted proof with k siblings carries the leaf at its index mod 2^k and exactly the generated siblings |
| MerkleProofs.AcceptedIff | src/merkle_provenance.cpp:41-64 | whatever the numbers of leaves and siblings, a proof for the hash of a string is accepted iff the string is some leaf i, the siblings are those generated for i, and the index takes the sides of i, if neither the string nor a leaf has 64 bytes |
| MerkleProofs.SidedProofVerifies | src/merkle_provenance.cpp:41-64 | the siblings of any leaf verify under every index that takes its sides, promoted or not, for any hash |
| MerkleProofs.AcceptedLeafIsMember | src/merkle_provenance.cpp:41-64 | so an accepted proof shows membership |
| MerkleProofs.TopPassesAsLeaf | src/merkle_provenance.cpp:41-64 | a 64-byte string can pass without being a leaf, for every list of two or more leaves |
| MerkleBuilder.AllNodesEndInRoot | src/merkle_provenance.cpp:208-214 | the node list ends in the root |
| MerkleBuilder.AllNodesLength | src/merkle_provenance.cpp:239-245 | its length is the sum of the level sizes ceil(n/2^k) |
| MerkleBuilder.AllNodesHashTheirChildren | src/merkle_provenance.cpp:19-35 | every node with children in it hashes exactly those children |
| MerkleBuilder.SiblingsAreInLayout | src/merkle_provenance.cpp:268-305 | each sibling of a proof is the partner's entry at its level's offset in the node list |
| MerkleBuilder.SiblingCount | src/merkle_provenance.cpp:278-302 | at most one sibling per level, exactly that many iff nothing is promoted |
| MerkleBuilder.DepthIsCeilLog | src/merkle_provenance.cpp:222-241 | the number of levels is the binary logarithm of n rounded up |
| MerkleBuilder.NextLevel | src/merkle_provenance.cpp:223-237 | the pairing loop yields the next level, each pair's node hashing left then right child, an odd last node unchanged, with one hash per pair |
| MerkleBuilder.Verify | src/merkle_provenance.cpp:41-64 | the verifying loop decides Accepts, in bytes for no and one sibling and step by step for more |
| MerkleBuilder.MerkleTreeBuilder.AddLeaf | src/merkle_provenance.cpp:193-195 | appends a childless node with the hash of the data |
| MerkleBuilder.MerkleTreeBuilder.BuildTree | src/merkle_provenance.cpp:217-246 | the node list is all levels in order; n leaves take n - 1 internal hashes |
| MerkleBuilder.MerkleTreeBuilder.BuildRoot | src/merkle_provenance.cpp:197-215 | zeros, the leaf, or the hash of the left part's root followed by the right part's; when the node list is rebuilt |
| MerkleBuilder.MerkleTreeBuilder.GenerateProof | src/merkle_provenance.cpp:248-266 | out of range, or the proof for the leaf; when the node list is rebuilt |
| MerkleBuilder.MerkleTreeBuilder.GenerateProofRecursive | src/merkle_provenance.cpp:268-305 | the second level loop collects exactly the siblings |
| MerkleBuilder.MerkleTreeBuilder.ProveAndVerify | tests/test_merkle_provenance.cpp:30-53 | build, prove and verify together return true exactly for i < ProvableLeaves(n) |
| Appraisal.CalculateScore | src/merkle_provenance.cpp:83-94 | the summing loop with its 32-bit wrap: 100 times the mean modulo 10001, at most 10000 |
| Appraisal.SumOfConcat | src/merkle_provenance.cpp:86-89 | every factor counts once in the sum |
| Appraisal.CalculateScores | src/merkle_provenance.cpp:82-101 | three scores, each at most 10000, each from its own factor list |
| Appraisal.MeanIsTrueIff | src/merkle_provenance.cpp:86-91 | the mean from the 32-bit sum is the true one iff the true sum is below 2^32 or below the number of factors |
| Appraisal.MeanBetween | src/merkle_provenance.cpp:86-91 | never above the largest factor; in the case above not below the smallest |
| Appraisal.ScoreIsPercentIff | src/merkle_provenance.cpp:91-93 | for every non-empty list, a score is 100 times the mean iff the mean is at most 100 |
| Appraisal.ScoreKeepsOrderIff | src/merkle_provenance.cpp:91-93 | the higher mean scores at least as high iff both lie in one of the bands 0-100, 101-200, 201-255 or differ by 100.01 per band passed |
| Appraisal.ScoreIsNotMonotone | src/merkle_provenance.cpp:91-93 | concrete factor lists where the better one scores lower |
| Appraisal.CalculateAppraisal | src/merkle_provenance.cpp:107-125 | the 128-bit computation returns the product of base and the three multipliers, divided by 10^9, modulo 2^64 |
| Appraisal.ProductFits | src/merkle_provenance.cpp:117-121 | no 128-bit step overflows for any 64-bit base and 16-bit scores |
| Appraisal.AppraisalMonotone | src/merkle_provenance.cpp:118-122 | monotone in every argument |
| Appraisal.AppraisalRange | src/merkle_provenance.cpp:118-124 | for scores up to 10000 between 1000 and 8000 times the base, and it fits when 8000 times the base does |
| Appraisal.AppraisalNearlyAdditive | src/merkle_provenance.cpp:118-122 | f(a) + f(b) <= f(a + b) <= f(a) + f(b) + 1 |
| Appraisal.DocumentedIsFormula | src/merkle_provenance.cpp:111 | the product divided by 10^12 is the commented formula, rounded down |
| Appraisal.QuotientIsDocumentedIff | src/merkle_provenance.cpp:111-122 | for any scores the quotient before the cast is the documented value iff the base is 0 |
| Appraisal.DocumentedFormulaIff | src/merkle_provenance.cpp:111-124 | the returned value is the documented one iff the base is 0, as long as the quotient fits 64 bits; beyond, also iff the documented value fits and 2^64 divides the difference |
| Appraisal.CastCanMeetDocumented | src/merkle_provenance.cpp:111-124 | a positive base for which it does |
| VolatilityOracle.RotationKeepsSums | include/volatility_oracle.hpp:143-154 | summing in physical order equals summing in feeding order |
| VolatilityOracle.WindowIsLastHundred | include/volatility_oracle.hpp:73-81 | with positive timestamps the points assessed are the last min(count, 100) fed |
| VolatilityOracle.MeanBetween | include/volatility_oracle.hpp:160 | the mean lies between any bounds on the prices |
| VolatilityOracle.AssessmentIs | include/volatility_oracle.hpp:137-180 | from twelve points on: mean times the sum of the volumes is the sum of price times volume (a volume that is not positive counting as 1), and change times first price is last less first price |
| VolatilityOracle.AssessesRecentPrices | include/volatility_oracle.hpp:137-180 | with positive timestamps the result is that of the last min(count, 100) points: (0, 0) below twelve, then a mean between their extreme prices |
| VolatilityOracle.RecentMeanIs | include/volatility_oracle.hpp:137-180 | and that mean and change in prices and volumes alone |
| VolatilityOracle.ValidPointsCount | include/volatility_oracle.hpp:143-144 | the points counted are those with a positive timestamp, each as often as it occurs |
| VolatilityOracle.WindowScales | include/volatility_oracle.hpp:137-180 | scaling all prices by c > 0 scales the mean by c and keeps the change |
| VolatilityOracle.VolatilityOracle.FeedPrice | include/volatility_oracle.hpp:73-81 | the ring buffer stays the sliding window of the whole history |
| VolatilityOracle.VolatilityOracle.SumPoints | include/volatility_oracle.hpp:139-154 | the first scan computes the sums of volumes and of price times volume, and the count, of the window's valid points |
| VolatilityOracle.VolatilityOracle.FirstAndLast | include/volatility_oracle.hpp:162-176 | the rotated scan finds the oldest and the newest valid price |
| VolatilityOracle.VolatilityOracle.ComputeTwap | include/volatility_oracle.hpp:137-180 | the mean weighted by volume and the change from first to last price of the window's valid points, (0, 0) below twelve of them |
| ProofBook.EveryRunVerifies | include/proof_book.hpp:53-60 | every run of appends verifies and keeps what was appended |
| ProofBook.PayloadText | include/proof_book.hpp:32-36 | the text hashed is the type's digit, data, timestamp text and previous hash, in this order |
| ProofBook.ChainIsStored | include/proof_book.hpp:75-85 | a verified log is one where each entry carries the hash of that text and the previous entry's hash, the first one sixty-four zeros |
| ProofBook.TamperEvident | include/proof_book.hpp:32-41 | two verified logs of one length with the same last hash agree everywhere on type, links and the text data + timestamp |
| ProofBook.SameLastHashSameLength | include/proof_book.hpp:75-85 | they also have one length unless a payload hashes to the genesis value |
| ProofBook.TwinIff | include/proof_book.hpp:32-36 | an entry with other data and the same text data + timestamp exists iff the data ends in digits that do not begin with 0, or the timestamp in microseconds is ten seconds or more |
| ProofBook.BorderCanMoveIff | include/proof_book.hpp:32-36 | one with less data exists iff the data ends in digits that do not begin with 0 |
| ProofBook.DelimitedDataHasTwin | include/proof_book.hpp:32-36 | data ending as JSON text does, and its twin with more data and the same hash |
| ProofBook.DelimitedEntriesAgree | include/proof_book.hpp:32-36 | if neither entry's data ends in such digits, data and timestamp of agreeing entries agree separately, to the microsecond |
| ProofBook.TamperEvidentData | include/proof_book.hpp:32-41 | so for two verified logs of such entries, of one length and last hash, at every position |
| ProofBook.BorderCanMove | include/proof_book.hpp:32-36 | an instance: two different entries with one hash |
| ProofBook.NewestCount | include/proof_book.hpp:62-73 | the entries selected by type are all of that type, each as often as stored |
| ProofBook.NewestConcat | include/proof_book.hpp:62-73 | what is selected from the end of a log comes first |
| ProofBook.ProofBook.Append | include/proof_book.hpp:53-60 | appends one entry linked to the previous hash, sealed with the hash of digit, data, timestamp and previous hash, and keeps the chain valid |
| ProofBook.ProofBook.VerifyChain | include/proof_book.hpp:75-85 | decides on any stored entries whether each carries its text's hash and the previous hash; true after appends |
| ProofBook.ProofBook.GetEntries | include/proof_book.hpp:62-73 | the newest entries of a type, newest first, at most the limit |
| Decimal.PrintParses | include/proof_book.hpp:33 | a printed number reads back as itself |
| Decimal.ParsePrints | include/proof_book.hpp:34 | digits not beginning with 0 are the print of the number they read as |
| Decimal.PrintRealInjective | include/proof_book.hpp:34 | equal timestamp texts mean the same microsecond |
| Decimal.PrintDigitAt | include/proof_book.hpp:33 | the i-th character from the right is the decimal digit of weight 10^i |
| Decimal.PaddedDigitAt | include/proof_book.hpp:34 | so are those of the six decimals |
| Decimal.PrintRealIs | include/proof_book.hpp:34 | a timestamp's text is sign, whole seconds, point and six decimals of the microseconds |
| Decimal.RoundIsNearest | include/proof_book.hpp:34 | microseconds are the nearest integer, halves to even |
| ReceiverPaidGas.ReceiptIdInjective | include/receiver_paid_gas.hpp:107 | receipt ids of different counters differ |
| ReceiverPaidGas.DailyCounts | include/receiver_paid_gas.hpp:230-244 | the total counts each used receipt of the wallet at most 86400 s old with its fee, and nothing else |
| ReceiverPaidGas.DailyShrinks | include/receiver_paid_gas.hpp:230-244 | a wallet's total only shrinks as the clock advances |
| ReceiverPaidGas.ApprovalKeepsCapIff | include/receiver_paid_gas.hpp:179-209 | marking an approved receipt keeps its wallet's total within the cap iff the checked sum did not wrap or the receipt is older than a day |
| ReceiverPaidGas.CapOverEveryRunIff | include/receiver_paid_gas.hpp:96-209 | over every run that marks only what was approved since the last mark: no wallet's total of the last day exceeds the cap, after any event and at any later moment, iff each receipt marked has a fee within the cap or is older than a day |
| ReceiverPaidGas.CapOverEveryRun | include/receiver_paid_gas.hpp:146-209 | the cap holds if no approval of a receipt of the last day rests on a wrapped sum |
| ReceiverPaidGas.CapForFittingFees | include/receiver_paid_gas.hpp:96-209 | so it holds if all fees are below 2^64 - 10^10 |
| ReceiverPaidGas.WrappedApprovalBreaksCap | include/receiver_paid_gas.hpp:179-196 | every approval whose sum wraps breaks the cap once marked |
| ReceiverPaidGas.WrapRunBreaksCap | include/receiver_paid_gas.hpp:96-209 | a concrete legal run that ends above the cap |
| ReceiverPaidGas.UsedForever | include/receiver_paid_gas.hpp:172-176 | a used receipt is never approved again in any run, whatever the fees |
| ReceiverPaidGas.TokenValueIs | include/receiver_paid_gas.hpp:185-193 | the conversion chain is half the fee's value in tokens |
| ReceiverPaidGas.Compensation | include/receiver_paid_gas.hpp:185-197 | never more than the token value nor the cap, and less than one unit below the value unless capped |
| ReceiverPaidGas.CompensationIs | include/receiver_paid_gas.hpp:185-197 | with value = fee * solUsd / (2 * membraUsd): 10^9 iff the value is at least that, else the value rounded down |
| ReceiverPaidGas.ReceiverPaidGas.CreateReceipt | include/receiver_paid_gas.hpp:96-127 | stores one unused receipt under an id not in use |
| ReceiverPaidGas.ReceiverPaidGas.GetWalletDailyCompensation | include/receiver_paid_gas.hpp:230-244 | the loop over the map, in any order, gives the day's total modulo 2^64 |
| ReceiverPaidGas.ReceiverPaidGas.CalculateCompensation | include/receiver_paid_gas.hpp:146-198 | approves iff the receipt is known, unused, compensation enabled, the oracle at most 300 s old and the wrapped sum within 10^10, and returns the value rounded down or 10^9 |
| ReceiverPaidGas.ReceiverPaidGas.MarkCompensated | include/receiver_paid_gas.hpp:201-209 | marks exactly a known receipt |
| ComputeStaking.AnyOrderIsLegal | include/compute_staking.hpp:150-164 | every iteration order debits some eligible stake, or none when there is none |
| ComputeStaking.StakeIdInjective | include/compute_staking.hpp:56-58 | two stake ids coincide iff staker and microsecond do |
| ComputeStaking.OverwrittenIsActive | include/compute_staking.hpp:56-82 | a stake can be overwritten only within its own microsecond, so while active |
| ComputeStaking.StakeKeepsConsistent | include/compute_staking.hpp:47-88 | staking keeps the counters equal to the sums over the stakes and the records overwritten so far |
| ComputeStaking.StakeKeepsSumsIff | include/compute_staking.hpp:47-88 | it keeps them equal to the sums over the stakes alone iff the record overwritten, if any, had no grant and no active cores or units |
| ComputeStaking.UnstakeKeepsConsistent | include/compute_staking.hpp:91-117 | unstaking keeps them, and the record gets grant plus time reward after at least 3600 s |
| ComputeStaking.UnstakeUnderflowsIff | include/compute_staking.hpp:113-114 | a subtraction goes below zero iff the true total passes a multiple of 2^64 downwards, never while the total fits 64 bits |
| ComputeStaking.ComputeStaking.StakeCompute | include/compute_staking.hpp:47-88 | the new record and the three counters |
| ComputeStaking.ComputeStaking.UnstakeCompute | include/compute_staking.hpp:91-117 | succeeds iff active and at least 3600 s old; the credits are units times rate times duration, rounded down; the exact new state |
| ComputeStaking.ComputeStaking.ConsumeGasAllowance | include/compute_staking.hpp:150-164 | the search loop debits exactly one eligible stake iff one exists |
| GasVault.PaySucceedsIff | include/gas_vault.hpp:51-77 | a payment succeeds iff the count is at most 1000 and one own stake or the reserves cover it |
| GasVault.OwnStakeComesFirst | include/gas_vault.hpp:58-77 | an own covering stake pays before the reserves: then the user's allowances fall by the gas and the reserves stay; otherwise only the reserves pay |
| GasVault.PaidIsSettled | include/gas_vault.hpp:51-77 | the whole outcome, field by field |
| GasVault.PayIsOrderIndependent | include/gas_vault.hpp:51-77 | result, vault counters and the sum of allowances do not depend on the search order |
| GasVault.PaidIsCoveredIff | include/gas_vault.hpp:38-48 | what can be paid was advertised as covered iff the reserves suffice or the counter of active cores did not wrap to 0; always below 2^64 active cores |
| GasVault.CoveredButUnpaidIff | include/gas_vault.hpp:38-77 | advertised cover is not paid iff the user is over the rate limit, or the reserves are short and no own stake covers the gas |
| GasVault.CoverIsNotPayment | include/gas_vault.hpp:38-77 | two reachable ledgers: covered and unpaid, paid and not covered (1 and 2^64 - 1 cores) |
| GasVault.ConservationOverEveryRun | include/gas_vault.hpp:34-77 | over every run, reused ids included: credits (with the overwritten records) and reserves balance exactly in unbounded totals, all counters are the 64-bit images of their sums, each stake's record is right, and a user's count is that user's successful payments, at most 1001 |
| GasVault.EndedForever | include/compute_staking.hpp:47-117 | an ended stake never changes again: unstaked once, never debited, never overwritten |
| GasVault.EveryRunIsKeyed | include/compute_staking.hpp:56-111 | in every run each stake stays under its staker and time, and an ended one is at least an hour old |
| GasVault.StakingKeepsBalanceIff | include/compute_staking.hpp:56-85 | staking keeps credits and counters balanced over the stakes alone iff the record overwritten, if any, counted for nothing |
| GasVault.BalancedIffNothingLost | include/compute_staking.hpp:56-85 | in every reachable state they balance over the stakes alone iff the overwritten records sum to nothing |
| GasVault.DistinctStakesIff | include/compute_staking.hpp:56-82 | a run overwrites nothing iff no address stakes twice within one microsecond, and then the books balance |
| GasVault.DoubleStakeUnbalances | include/compute_staking.hpp:56-85 | one core staked twice at one instant unbalances the books |
| GasVault.GasVault.DepositSol | include/gas_vault.hpp:34-36 | adds to the reserves and to nothing else |
| GasVault.GasVault.PayGas | include/gas_vault.hpp:51-77 | result and whole new state of vault and stakes: own stake first, then reserves, else nothing but the user's count |
| GasVault.GasVault.CanCoverGas | include/gas_vault.hpp:38-48 | covered iff linked stakes have a core or the reserves suffice |
| ResourceAllocator.CommitsExactlyTheNeed | src/zk_compute.cpp:317-371 | for an available node the commitment takes exactly the task's need: the minimum never clips and the subtractions never underflow |
| ResourceAllocator.AllocationIs | src/zk_compute.cpp:313-416 | a task is granted iff the node has a thousandth of its units in cores, a tenth in memory and, without a circuit, a GPU; what is then stored and left |
| ResourceAllocator.ConservedInEveryState | src/zk_compute.cpp:313-398 | in every reachable state, reused ids included, free plus committed plus overwritten resources are each node's capacity, and the task count is the number of those commitments modulo 2^64 |
| ResourceAllocator.ConservedIff | src/zk_compute.cpp:313-398 | without the overwritten ones iff no granted allocation met an outstanding commitment of its node and millisecond (below 2^64 overwrites) |
| ResourceAllocator.SecondReleaseIsNoOp | src/zk_compute.cpp:380-398 | a second release changes nothing |
| ResourceAllocator.ReleaseUndoesAllocateIff | src/zk_compute.cpp:313-398 | releasing what was just allocated restores the state iff the id was not in use |
| ResourceAllocator.ReleasingAllRestoresIff | src/zk_compute.cpp:380-398 | after any run, releasing all ids in any order restores the idle nodes iff no commitment was overwritten (below 2^64 overwrites) |
| ResourceAllocator.BalanceKeptIffIdIsNew | src/zk_compute.cpp:323-371 | an allocation keeps the balance iff no commitment is outstanding under its node and millisecond, for ids that do not collide |
| ResourceAllocator.IdsCollisionFree | src/zk_compute.cpp:323-340 | for times of thirteen digits ids collide only where the shortened hash does |
| ResourceAllocator.TextsCanCoincide | src/zk_compute.cpp:329 | for others node and time can run together into one text |
| ResourceAllocator.SameMillisecondUnbalances | src/zk_compute.cpp:313-378 | two tasks without need on the initial node within one millisecond lose a commitment |
| ResourceAllocator.ComputeResourceAllocator.AllocateResources | src/zk_compute.cpp:313-378 | when a commitment is granted, the stored commitment under the shortened hash of node and time, and the node's new status, or nothing |
| ResourceAllocator.ComputeResourceAllocator.ReleaseResources | src/zk_compute.cpp:380-398 | the node's new status without the commitment |
| MempoolGovernor.ReviewRange | src/llm_mempool_governor.cpp:72-111 | every review scores a risk in 4..50 and a confidence of 50 or 90 |
| MempoolGovernor.ReviewIs | src/llm_mempool_governor.cpp:72-111 | the review in numbers: thresholds of 10^6 in value and 10^9 in gas price, risk 20 or 4 plus 30 times the impact |
| MempoolGovernor.PriceImpactIs | src/llm_mempool_governor.cpp:313-325 | the impact is the share in the total depth, at most 1, and 0 without depth |
| MempoolGovernor.SumsAre | src/llm_mempool_governor.cpp:117-128 | total arbitrage and average risk are the sum and the mean over the pending transactions |
| MempoolGovernor.RecommendationIs | src/llm_mempool_governor.cpp:127-146 | block above the threshold, else reroute above 0.5 arbitrage, else nothing; scores are the percentages rounded down |
| MempoolGovernor.SimulationIs | src/llm_mempool_governor.cpp:188-236 | four actions can be simulated, two of them with a gain above their costs |
| MempoolGovernor.AverageRiskRange | src/llm_mempool_governor.cpp:120-128 | the average risk lies in 0.04..0.5 |
| MempoolGovernor.ScoresFitBytes | src/llm_mempool_governor.cpp:140-141 | the casts of confidence and risk to bytes never wrap: at most 100 and at most 50 |
| MempoolGovernor.BlocksIffThresholdBelowHalf | src/llm_mempool_governor.cpp:130-132 | some mempool gets BLOCK_UNSAFE_ACTION iff the threshold is below 0.5; never by default |
| MempoolGovernor.PipelineExecutesIff | src/llm_mempool_governor.cpp:113-424 | for every threshold, rule list and mempool, when recommend, simulate and execute end in true |
| MempoolGovernor.DefaultPipelineExecutesIff | src/llm_mempool_governor.cpp:113-424 | by default: iff non-empty and not (arbitrage > 0.5 with average risk > 0.49) |
| MempoolGovernor.HeatedMempoolIsRefused | src/llm_mempool_governor.cpp:133-135 | a mempool whose recommended action is refused |
| MempoolGovernor.MoreRulesExecuteLess | src/llm_mempool_governor.cpp:405-428 | one more rule restricts execution by exactly that rule |
| MempoolGovernor.WithoutRuleCount | src/llm_mempool_governor.cpp:430-438 | removal drops all rules of that id and no other |
| MempoolGovernor.WithoutRuleConcat | src/llm_mempool_governor.cpp:430-438 | the rules kept stay in order |
| MempoolGovernor.LLMMempoolGovernor.EstimatePriceImpact | src/llm_mempool_governor.cpp:313-325 | the summing loop computes the capped share |
| MempoolGovernor.LLMMempoolGovernor.ComputeNextAction | src/llm_mempool_governor.cpp:113-155 | the accumulating loop computes the recommendation |
| MempoolGovernor.OvermanifoldPolicy.ExecuteAction | src/llm_mempool_governor.cpp:363-424 | true iff all four checks pass |
| MempoolGovernor.OvermanifoldPolicy.RemovePolicyRule | src/llm_mempool_governor.cpp:430-438 | keeps the other rules in order |
| IntentNetwork.IntentIdInjective | include/intent_network.hpp:153-156 | ids of different counters differ |
| IntentNetwork.SweepLeavesNoOverdue | include/intent_network.hpp:130-141 | after a sweep no pending intent is past its expiry |
| IntentNetwork.EveryRunIsOrderly | include/intent_network.hpp:65-141 | over every run: ids distinct and exactly the issued ones, each sender's nonces 0..k-1 once each, claims before expiry, a settlement only on a claimed intent |
| IntentNetwork.FinalForever | include/intent_network.hpp:94-141 | claimed and expired are terminal; an expired record never changes |
| IntentNetwork.IntentNetwork.CreateIntent | include/intent_network.hpp:65-92 | the new intent, nonce and counter, under an id not in use |
| IntentNetwork.IntentNetwork.ClaimIntent | include/intent_network.hpp:94-107 | claims iff pending and not expired |
| IntentNetwork.IntentNetwork.ConfirmSettlement | include/intent_network.hpp:109-122 | records the transaction iff claimed |
| IntentNetwork.IntentNetwork.ExpireIntents | include/intent_network.hpp:130-141 | the mutating loop, in any order, expires exactly the overdue pending intents |
| IntentNetwork.IntentNetwork.PendingCount | include/intent_network.hpp:143-150 | counts the pending intents |

## Left out

- ReceiverPaidGas.ReceiverPaidGas.CalculateCompensation: where it approves, needs a non-negative SOL price and a positive MEMBRA price; for other prices, and for token amounts beyond 64 bits, the program's conversion of a double to an integer is undefined. One clock reading serves the oracle's age and the day's total, where the program takes two within the call.
- ComputeStaking.TimeRewards: a reward beyond 64 bits, where the program's conversion is undefined, is kept as an integer.
- ComputeStaking.ComputeStaking.StakeCompute: one clock reading serves the id and the record, where the program takes two within the call.
- ComputeStaking.ComputeStaking.UnstakeCompute: one clock reading serves the duration and the end of the stake, where the program takes two within the call.
- IntentNetwork.IntentNetwork.ClaimIntent: one clock reading serves the expiry test and the time of the claim, where the program takes two within the call; that a claim's time lies before the expiry, in EveryRunIsOrderly, rests on this.
- GasVault.PaidIsCoveredIff: the rate is a real product; from 2^64 on, that is above 18446744073709551 cores, the program's conversion of it to an integer is undefined. CoveredButUnpaidIff likewise.
- ResourceAllocator.ComputeResourceAllocator.AllocateResources: the clock reading in milliseconds is a natural number, so not before 1970; GasVault.EndedForever, GasVault.DistinctStakesIff and ProofBook.BorderCanMoveIff likewise take times that are not negative.
- ResourceAllocator.ConservedIff: supposes fewer than 2^64 overwritten commitments, since the program's task counter wraps; ConservedInEveryState has no such bound. ReleasingAllRestoresIff likewise.
- ReceiverPaidGas.CapOverEveryRunIff: supposes that callers mark only what calculate_compensation approved since the last mark; the program does not enforce it.
- Counters, nonces and payment counts that grow by one per call do not wrap in the model.
- Pointers returned into maps (get_stake, get_receipt, get_intent, claim_intent): the model returns values, so changes made through such a pointer are not modelled.
- SHA-256, hexadecimal formatting, mutexes and atomics.
- IEEE-754 rounding: reals throughout; the text form of a timestamp rounds the real value to microseconds, halves to even.
- Compensation per epoch: the limit is stored and never checked by the program.
- Receipt fields payment_source, fee_payer and block_time; commitment hashes and expiry times; stake redemption.
- The oracle's assess and can_unlock_rebase, the gas feed and the compute rate: settled by reading one branch.
- Attestation assembly around the appraisal; its root is a plain hash of the factors, not a tree root.
- Intent classification, rationale texts, routes, JSON and observation proofs of the governor; check_policy_compliance, which no other step calls.
- The mock prover, task manager and reward tables; futures, benchmarks, the IPFS verifier, gas reimbursement, the reward vault, proof of inference and zero-balance preservation.
