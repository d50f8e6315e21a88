# Volt protocol core, modelled and verified in Dafny

A model of the parts of the Volt protocol that keep state and do integer arithmetic, with proofs
of what they guarantee over whole runs. `dafny verify dfyconfig.toml` checks everything.

Every contract is modelled twice. A *specification* on values says what one call does, including
every revert, in the words of the source (`VconSpec`, `TokenBucket`, `RateLimitedV2.Step`,
`VoltSystemOracle.CompoundInterest`, `OracleRef.ReadOracle`, `PsmSpec`). A *class* holds the
contract's fields and updates them in place. Every method of a class that stands for an external
call is proved to make exactly the specified step, or to report the specified error and leave every
field of every contract it touched as it was, including calls that revert after their first write.
The properties are then proved about the specification, for all inputs and all runs.

| file | contents |
|---|---|
| `Evm.dfy` | results that may revert, checked 256-bit arithmetic, integer widths |
| `Floors.dfy` | nonlinear facts about products, powers and floor division |
| `Ledger.dfy`, `Token.dfy` | mappings with default zero, sums over them, EIP-20 balances |
| `VconSpec.dfy`, `VconVotes.dfy`, `VconHistory.dfy`, `VconToken.dfy` | the governance token: calls, votes as sums, whole histories, the contract |
| `TokenBucket.dfy`, `RateLimited.dfy`, `RateLimitedV2.dfy` | the two rate limiters |
| `VoltSystemOracle.dfy` | the compounding price oracle |
| `Decimal.dfy`, `OracleRef.dfy`, `PsmQuotes.dfy` | fixed-point prices, inversion and scaling, mint and redeem quotes |
| `PsmSpec.dfy`, `PsmSafety.dfy`, `PsmGovernance.dfy`, `PsmSolvency.dfy`, `PsmTraders.dfy`, `PriceBoundPsm.dfy` | the price-bounded peg stability module |
| `VoltSystem.dfy` | oracle and module together over time |

## Main results

* **Past votes are history.** In every reachable state, for every account and every finished block,
  the binary search over checkpoints returns the sum of the balances that were delegated to the
  account when that block ended (`VconHistory.PriorVotesAreHistoricalTally`,
  `VconToken.VconToken.GetPriorVotes`). Nothing that happens later changes the answer
  (`PastVotesAreImmutable`), and no token is ever counted for two delegates (`NoTokenVotesTwice`).
* **Bookkeeping never blocks a transfer.** A token move succeeds exactly when the addresses are not
  zero and the balance suffices; the only other obstacle is a block number of 32 bits or more.
* **Every call of the token is known exactly**: in every reachable state, when it succeeds and what
  it does to every entry of the storage (`VconHistory.CallsExactly`).
* **The rate limit holds over runs** with governance changing rate and cap, the lazy buffer cannot
  be told from one that is topped up every second while it does not overflow, and the packed version
  behaves like the plain one.
* **The oracle is schedule independent and never falls**, with a closed-form bound on iterated rounding.
* **The module stays solvent up to the price.** Over any run of trades, payments, mints and burns
  elsewhere, allocations and governance calls, at any prices, what the module owns and what it
  allocated cover what it started with, what the moving price made of its reserves, and all the VOLT
  it created (`PsmSolvency.SolventOverRuns`, along the oracle `VoltSystem.SolventWithOracle`). At a
  price that stays or rises nothing is lost. The deployed modules invert the oracle price, so
  interest lowers it every second; there the loss is at most the fall of the price on the largest
  reserves held (`VoltSystem.SolventUpToInterest`), and it is real (`VoltSystem.InterestLosesExactly`).
* **No group of traders ever gets ahead** at the inverted price, by round trips through any number of
  its accounts, by splitting, or by waiting (`VoltSystem.NoGroupGains`).
* **Every trade is known exactly**: the guards, funds and limits under which it settles
  (`PsmSafety.MintSettlesExactly`, `PsmSafety.RedeemSettlesExactly`, `PsmSafety.TradePriceExactly`)
  and what it pays, in figures (`PsmGovernance.TradesInFigures`, `OracleRef.DeployedReading`).
* **The VOLT the module creates is rate-limited** over any run (`PsmSolvency.NewVoltIsRateLimited`).

## Where the code and its documentation differ

* `add96` carries a message for overflow, but checked arithmetic of Solidity 0.8.13 fails first, so
  the model reports `Panic`.
* `RateLimited.buffer()` is documented to replenish up to the cap. It adds before it clips, so it
  reverts when the unclipped sum leaves 256 bits. `TokenBucket.StepIsSimple` and
  `TokenBucket.LazyRefinesPerSecond` give the exact condition (`Overflows`), `LargestCapStops` gives
  an input, and `OverflowIsFinal` shows that the limiter never recovers. A bound on caps, rate and
  time that is known beforehand excludes it (`BoundedRunsNeverOverflow`; for the module,
  `PsmSolvency.ReachableBufferAnswers`).
* Near that overflow the early return of `RateLimited._replenishBuffer` and extra
  `_updateBufferStored` calls can be observed: storing the clipped buffer postpones the overflow.
  `TokenBucket.RefreshObservableExactly` gives the exact window, `EarlyReturnObservable` an input, and
  `RefreshUnobservable` shows that within bounds known beforehand no later call can tell.
  `RateLimitedV2` is free of both (`NeverOverflows`, `EarlyReturnUnobservable`, `EarlyReturnUnobservableInRuns`).
* `getMaxMintAmountOut` reverts when the buffer overflows, although mints out of held VOLT still
  settle (`PsmSafety.MaxMintIsTheLimit`, `PsmSafety.HeldVoltSettlesWithoutBuffer`).
* Interest compounds once per 30.42-day period; the header comment of the oracle says annually. Once
  a period's interest no longer fits 256 bits, compounding reverts for good
  (`VoltSystemOracle.IncomputableIsFinal`), and so does every reading from the end of that period on
  (`FlatAfterPeriod`), and trades with it. Reading can even stop at the instant of a late but
  successful `compoundInterest` (`CompoundKeepsPrice` has the exact condition, `CatchingUpCanStop`
  an input). The pass-through multiplies the price by 10^18 on top of that, so the module stops
  reading earlier than the oracle (`OracleRef.PassThroughReadsExactly`).
* The zero address collects no votes: accounts without a delegate count for nobody, and
  `getPriorVotes` of the zero address is always 0.

## Reading the model

Addresses are naturals and 0 is the zero address. Block numbers, timestamps, `msg.sender`, role
checks (`authorized`, `isMinter`) and oracle answers are parameters. `isMinter` stands for the
minter role together with a VOLT token that is not paused. `Result` is either the value of a call
or the reason it reverted; the `Panic` case is compiler-checked arithmetic.

## Model

| member | source | states |
|---|---|---|
| VconHistory.PriorVotesAreHistoricalTally | contracts/vcon/Vcon.sol:363-398 | After any run from deployment in a block >= 1, past votes equal the delegated balances at the end of that block, for every account and exactly the finished blocks; checkpoint blocks increase |
| VconHistory.PastVotesAreImmutable | contracts/vcon/Vcon.sol:466-491 | No continuation of a run changes the votes reported for a finished block |
| VconHistory.NoTokenVotesTwice | contracts/vcon/Vcon.sol:432-464 | For any set of delegates, their votes in a finished block add up to at most the tokens that existed at its end |
| VconHistory.CurrentVotesAreTally | contracts/vcon/Vcon.sol:350-354 | After any run, current votes equal delegated balances, and all balances add up to the supply, below 2^96 |
| VconHistory.TransferSucceedsExactly | contracts/vcon/Vcon.sol:262-266 | After any run, a transfer succeeds if and only if addresses are nonzero, the balance suffices, and votes can be recorded |
| VconHistory.RunInv | contracts/vcon/Vcon.sol:124-464 | Any run of blocks and calls keeps votes, supply, checkpoint order and history in agreement, and only adds to the history |
| VconHistory.DeployedInv | contracts/vcon/Vcon.sol:99-104 | The constructor establishes the invariant |
| VconHistory.DeployedTokens | contracts/vcon/Vcon.sol:99-104 | Deployment gives one billion tokens with eighteen decimals to the account and nobody else, nobody votes or may spend for others yet, and exactly the given minter can mint or hand over minting |
| VconHistory.MintingIsHandedOver | contracts/vcon/Vcon.sol:110-117 | Exactly the minter can hand over minting, nothing else changes, and afterwards exactly the new minter can mint |
| VconHistory.CallsExactly | contracts/vcon/Vcon.sol:110-305 | In every reachable state each call succeeds if and only if it is allowed, changes exactly the entries it should, and leaves votes equal to delegated balances |
| VconHistory.EndBlockInv | contracts/vcon/Vcon.sol:363-398 | When a block ends its current votes become its past votes |
| VconVotes.MintEffect | contracts/vcon/Vcon.sol:124-150 | Exactly when a mint succeeds, its new balances and supply, and that votes stay in line and the past untouched |
| VconVotes.TransferEffect | contracts/vcon/Vcon.sol:410-430 | Exactly when a token move succeeds, that it is neutral for a transfer to oneself, and that votes stay in line and the past untouched |
| VconVotes.TransferFromEffect | contracts/vcon/Vcon.sol:275-297 | The same for moves by a spender, with the exact use of the allowance |
| VconVotes.ApproveEffect | contracts/vcon/Vcon.sol:173-188 | An approval succeeds if and only if the amount has 96 bits or is the largest 256-bit one; it sets one entry of the allowances, to at most 2^96 - 1, and leaves every other entry and everything else alone |
| VconVotes.ApprovedSpending | contracts/vcon/Vcon.sol:173-188 | An approval of any amount, refused amounts included, followed by a spender's move: exactly when both succeed and what allowance is left |
| VconVotes.OtherApprovalsStand | contracts/vcon/Vcon.sol:173-188 | An approval changes nothing for any other pair of owner and spender: their moves succeed as before, with the same balances and allowances |
| VconVotes.StepExactly | contracts/vcon/Vcon.sol:110-305 | For all six calls: exactly when they succeed, what they do to every entry of supply, minter, allowances, balances and delegates, and that votes stay in line and the past untouched |
| VconVotes.DelegateEffect | contracts/vcon/Vcon.sol:400-408 | Delegation fails only when votes cannot be recorded any more; it keeps balances, moves the votes, and leaves the past untouched |
| VconVotes.MoveDelegatesSettles | contracts/vcon/Vcon.sol:432-464 | If balances or delegations moved every tally by the shifted amount, moving votes restores agreement without underflow or overflow |
| VconVotes.RecordedEffect | contracts/vcon/Vcon.sol:466-491 | Writing a checkpoint never overflows the counter before block 2^32, sets the current votes, and keeps the votes of all earlier blocks |
| VconVotes.MovedTallies | contracts/vcon/Vcon.sol:417-426 | Moving tokens conserves their sum and shifts the tallies of the two delegates only |
| VconVotes.TallyAfterDelegate | contracts/vcon/Vcon.sol:400-408 | How the sum delegated to each account changes when one account changes its delegate |
| VconVotes.TalliesAddUp | contracts/vcon/Vcon.sol:33-34 | The votes of a set of delegates add up to the balances of the accounts that chose one of them |
| VconToken.VconToken.GetPriorVotes | contracts/vcon/Vcon.sol:363-398 | The binary search terminates on any storage and, on increasing checkpoints, finds the newest checkpoint not after the block |
| VconToken.NewestBefore | contracts/vcon/Vcon.sol:374-397 | On increasing checkpoints, a checkpoint at or before the block whose successor is after it is the one the naive backward search reports |
| VconToken.OverwriteCell | contracts/vcon/Vcon.sol:477-481 | Writing one mapping cell is overwriting one element of the checkpoint sequence, for that account only |
| VconToken.AppendCell | contracts/vcon/Vcon.sol:482-488 | Writing the next cell and raising the count is appending to the checkpoint sequence |
| VconToken.VconToken.WriteCheckpoint | contracts/vcon/Vcon.sol:466-491 | Writing a cell and a count in two mappings is writing or replacing the last element of one sequence; a failure changes nothing |
| VconToken.VconToken.Transfer | contracts/vcon/Vcon.sol:262-266 | Balances and checkpoints move together, or the balances already written are restored |
| VconToken.VconToken.TransferFrom | contracts/vcon/Vcon.sol:275-297 | Allowance, balances and checkpoints move together, or allowance and balances already written are restored |
| VconToken.VconToken.Mint | contracts/vcon/Vcon.sol:124-150 | Supply, balance and checkpoints grow together, or supply and balance already written are restored |
| VconToken.VconToken.Delegate | contracts/vcon/Vcon.sol:303-305 | Delegate and checkpoints change together, or the delegate already written is restored |
| VconToken.VconToken.Approve | contracts/vcon/Vcon.sol:173-188 | Overwrites one allowance in place as specified, or reports the error and changes nothing |
| VconToken.VconToken.SetMinter | contracts/vcon/Vcon.sol:110-117 | Only the minter hands over minting; nothing else changes |
| VconToken.VconToken.GetCurrentVotes | contracts/vcon/Vcon.sol:350-354 | Returns the votes of the newest checkpoint of the abstract sequence |
| TokenBucket.RateLimitHolds | contracts/utils/RateLimited.sol:57-127 | Over any ordered run with governance: use plus what is left is at most the starting buffer, plus maximum rate times elapsed time, plus what was put back |
| TokenBucket.LazyRefinesPerSecond | contracts/utils/RateLimited.sol:78-155 | Over any run after which `buffer()` still answers, every caller sees the results of a bucket topped up once per second |
| TokenBucket.BoundedRunsArePerSecond | contracts/utils/RateLimited.sol:57-155 | The same over every run whose caps, maximum rate and end time leave room in a word, all known before the run |
| TokenBucket.BoundedRunsNeverOverflow | contracts/utils/RateLimited.sol:78-82 | Such a run never makes `buffer()` overflow |
| TokenBucket.StepIsSimple | contracts/utils/RateLimited.sol:57-155 | One call of any kind agrees with the per-second bucket, in result and in state, or overflows and reverts; a new cap clips the level, a new rate and an extra update leave it alone |
| TokenBucket.WaitIsLazy | contracts/utils/RateLimited.sol:78-82 | The closed formula equals adding the rate and clipping once per elapsed second |
| TokenBucket.OverflowIsFinal | contracts/utils/RateLimited.sol:78-82 | Once `buffer()` overflows every later call reverts and nothing changes |
| TokenBucket.LargestCapStops | contracts/utils/RateLimited.sol:78-82 | A full bucket with the largest cap answers now and reverts one second later |
| TokenBucket.NewBucketIsFull | contracts/utils/RateLimited.sol:35-54 | A new limiter answers with its cap until it is used or overflows, and takes exactly the rates up to its maximum |
| TokenBucket.FirstUse | contracts/utils/RateLimited.sol:35-109 | Exactly when the first use succeeds, with and without partial actions, how much it takes, and the buffer at every later time |
| TokenBucket.BufferIsLevel | contracts/utils/RateLimited.sol:78-82 | `buffer()` fails exactly when the unclipped sum leaves 256 bits, and otherwise is the clipped level |
| TokenBucket.RefreshObservableExactly | contracts/utils/RateLimited.sol:118-126 | Storing the buffer without using it (early return skipped, or an extra update) changes no later level, and changes a later `buffer()` if and only if the unclipped sum leaves 256 bits while the clipped one still fits |
| TokenBucket.RefreshedByCalls | contracts/utils/RateLimited.sol:113-155 | An extra update stores exactly the level; at the cap the early return stores nothing, and the update stores a full buffer |
| TokenBucket.EarlyReturnObservable | contracts/utils/RateLimited.sol:118-121 | An input where an early return makes a later depletion revert that succeeds after storing the full buffer |
| TokenBucket.RefreshUnobservable | contracts/utils/RateLimited.sol:118-155 | Within bounds known beforehand, no later call of any run can tell the difference |
| RateLimited.RateLimited.Deplete | contracts/utils/RateLimited.sol:91-109 | Returns the amount used, possibly the whole buffer for a partial action, and stores the rest with the time |
| RateLimited.RateLimited.Replenish | contracts/utils/RateLimited.sol:113-127 | Returns early at the cap without writing; an overflow restores the time already written |
| RateLimited.RateLimited.SetRateLimitPerSecond | contracts/utils/RateLimited.sol:57-67 | The buffer accrued at the old rate is stored before the new rate applies |
| RateLimited.RateLimited.SetCap | contracts/utils/RateLimited.sol:139-146 | The buffer accrued under the old cap is stored before the new cap applies |
| RateLimitedV2.BisimilarToV1 | contracts/utils/RateLimitedV2.sol:71-164 | Before time 2^32, on any run, the packed limiter gives every caller the results of the plain one and ends in the same state; no cast or sum fails |
| RateLimitedV2.DeployedFull | contracts/utils/RateLimitedV2.sol:51-68 | Deployment succeeds if and only if the time has 32 bits and the rate is within the maximum; the buffer is then the cap at every time until it is used, and exactly the rates up to the maximum can be set |
| RateLimitedV2.FirstUse | contracts/utils/RateLimitedV2.sol:51-114 | The first use succeeds if and only if the cap is not zero and covers it; later the buffer is what was left plus the rate for every second, up to the cap |
| RateLimitedV2.NeverOverflows | contracts/utils/RateLimitedV2.sol:90-94 | With 128-bit rates and 32-bit times `buffer()` never overflows |
| RateLimitedV2.EarlyReturnUnobservable | contracts/utils/RateLimitedV2.sol:124-129 | Returning early at the cap cannot be told, by any later reading of the 32-bit clock, from storing a full buffer |
| RateLimitedV2.EarlyReturnUnobservableInRuns | contracts/utils/RateLimitedV2.sol:124-129 | Nor by any result of any later run |
| RateLimitedV2.RunIsPerSecond | contracts/utils/RateLimitedV2.sol:71-164 | Before time 2^32 every run gives the results of a bucket topped up once per second, without further condition |
| RateLimitedV2.ClockRunsOut | contracts/utils/RateLimitedV2.sol:90-94 | `buffer()` answers if and only if the time fits 32 bits; afterwards every call reverts |
| RateLimitedV2.RateLimitHolds | contracts/utils/RateLimitedV2.sol:71-164 | The rate limit over whole runs of the packed limiter |
| RateLimitedV2.RateLimitedV2.Deplete | contracts/utils/RateLimitedV2.sol:103-114 | Uses the whole amount or nothing, and stores the rest in 224 bits |
| RateLimitedV2.RateLimitedV2.Replenish | contracts/utils/RateLimitedV2.sol:118-137 | Returns early at the cap without writing; an overflow or failed cast restores the time already written |
| RateLimitedV2.RateLimitedV2.SetRateLimitPerSecond | contracts/utils/RateLimitedV2.sol:71-81 | The buffer accrued at the old rate is stored before the new rate applies |
| RateLimitedV2.RateLimitedV2.SetCap | contracts/utils/RateLimitedV2.sol:149-156 | The buffer accrued under the old cap is stored before the new cap applies |
| VoltSystemOracle.ScheduleIndependent | contracts/oracle/VoltSystemOracle.sol:73-89 | After any run with k successful calls the state is k compoundings and k periods on, all of them over |
| VoltSystemOracle.CaughtUpSchedulesAgree | contracts/oracle/VoltSystemOracle.sol:73-89 | Two schedules that end at the same time with nothing left to compound end in the same state |
| VoltSystemOracle.BatchCatchesUp | contracts/oracle/VoltSystemOracle.sol:73-89 | Of any number of calls in a row at most as many succeed as periods are due, and all of these if and only if the interest of the last of their periods fits; after enough calls the next one reverts |
| VoltSystemOracle.CatchingUpCanStop | contracts/oracle/VoltSystemOracle.sol:55-89 | An input with three periods due where one call succeeds, the next reverts, and reading stops at that instant |
| VoltSystemOracle.CompoundExactly | contracts/oracle/VoltSystemOracle.sol:73-89 | A call succeeds if and only if the period is over and its interest fits, and adds the whole period's interest however late it comes |
| VoltSystemOracle.InterestInFigures | contracts/oracle/VoltSystemOracle.sol:55-89 | A period is 2628288 seconds and its interest is rate / 10000 of the price, earned in proportion to the time; compounding adds all of it, starts the next period at the end of this one, and is refused before |
| VoltSystemOracle.IncomputableIsFinal | contracts/oracle/VoltSystemOracle.sol:62-66 | If the period's interest does not fit, no later call ever succeeds |
| VoltSystemOracle.ReadNeverFalls | contracts/oracle/VoltSystemOracle.sol:55-89 | Along any run of time and compounding a later reading is at least an earlier one |
| VoltSystemOracle.CompoundKeepsPrice | contracts/oracle/VoltSystemOracle.sol:81-87 | Compounding leaves the reading unchanged exactly at the end of the period; later the reading survives if and only if the new price's interest for the time since fits, and then it is not lower |
| VoltSystemOracle.FlatAfterPeriod | contracts/oracle/VoltSystemOracle.sol:62-66 | From the end of an uncompounded period on every reading is the same: the compounded price, or a failure exactly when its interest does not fit |
| VoltSystemOracle.CompoundingRoundsLittle | contracts/oracle/VoltSystemOracle.sol:62-66 | Closed-form bounds between k rounded compoundings and exact compound interest, from below and above |
| VoltSystemOracle.InterpolationRoundsLittle | contracts/oracle/VoltSystemOracle.sol:62-66 | The interpolated price is below the exact line by less than two units |
| VoltSystemOracle.VoltSystemOracle.Compound | contracts/oracle/VoltSystemOracle.sol:73-89 | The price is read before the period start moves, and both change or neither |
| OracleRef.SwitchingTwiceRestores | contracts/refs/OracleRef.sol:133-142 | Switching the inversion succeeds if and only if the scaling can be negated, and switching back restores it |
| OracleRef.UnscaledReading | contracts/refs/OracleRef.sol:94-104 | Without scaling the reading is the peg, or inverted 10^36 divided by it, and a peg of zero cannot be inverted |
| OracleRef.EachDigitUp | contracts/refs/OracleRef.sol:109-114 | One more digit of positive scaling multiplies the reading by exactly ten; it can be read if and only if the result fits and there are at most 77 digits |
| OracleRef.EachDigitDown | contracts/refs/OracleRef.sol:105-108 | One more digit of negative scaling divides the reading by ten with one floor, so the floors of all digits are one floor; at most 77 digits can be read |
| OracleRef.ReadsExactly | contracts/refs/OracleRef.sol:94-117 | The module reads a price if and only if the oracle has one, it can be inverted, the scaling is between -77 and 77 digits, and the scaled price fits a word |
| OracleRef.DeployedReading | scripts/priceBoundPSMDeployUSDC.ts:39-63 | With the deployed scaling of twelve digits, inverted, the reading is 10^36 / peg times 10^12, for every peg |
| OracleRef.SwitchedQuoteIsReciprocal | contracts/refs/OracleRef.sol:94-117 | The quotes before and after switching multiply to at most 10^36; if the first one was not scaled down the second is 10^36 divided by it, rounded down once despite two roundings |
| OracleRef.QuoteFollowsPeg | contracts/refs/OracleRef.sol:101-114 | A higher oracle price never lowers the quote, and inverted never raises it |
| OracleRef.PassThroughIsPrice | contracts/oracle/OraclePassThrough.sol:32-42 | Scaling up and down in the pass-through loses nothing |
| OracleRef.PassThroughReadsExactly | contracts/oracle/OraclePassThrough.sol:32-42 | The pass-through answers if and only if the oracle does and its price leaves room for eighteen more digits |
| OracleRef.OracleRef.UpdateDoInvert | contracts/refs/OracleRef.sol:133-142 | Flag and scaling change together, or the flag already written is restored |
| PsmQuotes.MintQuotesExactly | contracts/peg/PegStabilityModule.sol:397-409 | A mint is quoted if and only if the fee is at most 10000 and both products fit a word, and then at price times amount less the fee, divided once by 10^22 |
| PsmQuotes.RedeemQuotesExactly | contracts/peg/PegStabilityModule.sol:413-429 | A redemption is quoted if and only if the fee is at most 10000, there is a price, and amount and net amount with 36 more digits fit a word; the exact quote |
| PsmQuotes.MintRoundsDown | contracts/peg/PegStabilityModule.sol:397-409 | A mint quote is the exact amount after fees rounded down once, despite two divisions |
| PsmQuotes.RedeemRoundsDown | contracts/peg/PegStabilityModule.sol:413-429 | A redeem quote is rounded down once for the fee and once for the price, despite three divisions |
| PsmQuotes.MintThenRedeem | contracts/peg/PegStabilityModule.sol:397-429 | Minting and redeeming again loses at least both fees |
| PsmQuotes.RedeemThenMint | contracts/peg/PegStabilityModule.sol:397-429 | Redeeming and minting again loses at least both fees |
| PsmQuotes.SplittingMintNeverHelps | contracts/peg/PegStabilityModule.sol:397-409 | Two mints never give more than one mint of the sum |
| PsmQuotes.SplittingRedeemNeverHelps | contracts/peg/PegStabilityModule.sol:413-429 | Two redemptions never pay more than one redemption of the sum |
| PsmSolvency.SolventOverRuns | contracts/peg/PegStabilityModule.sol:227-297 | Over any run from outside at any prices: what the module owns at the end plus what it allocated at the prices of the day is worth at least what it owned, plus the revaluation of its reserves by every price change, plus all the VOLT it created |
| PsmSolvency.SolventAtRisingPrices | contracts/peg/PegStabilityModule.sol:227-297 | At a price that stays or rises the same holds without the revaluation |
| PsmSolvency.SolventAtFallingPrices | contracts/peg/PegStabilityModule.sol:227-297 | At a price that stays or falls at most the whole fall on the largest reserves held is lost |
| PsmSolvency.FallingPricesLose | contracts/peg/PegStabilityModule.sol:227-297 | A falling price never gains, and loses at most the whole fall on the largest reserves held |
| PsmSolvency.StepValue | contracts/peg/PegStabilityModule.sol:227-297 | One call at a price: what the module owns plus what leaves it for the surplus target grows at least by the worth of the VOLT it creates |
| PsmTraders.StepGains | contracts/peg/PegStabilityModule.sol:246-297 | One call at a price: no group of accounts gets richer together, except by gifts from outside of it |
| PsmSolvency.SupplyAccounts | contracts/volt/Volt.sol:41-54 | The supply changes by exactly what the module creates, what others mint, and what is burned |
| PsmSafety.TradePriceExactly | contracts/peg/PriceBoundPSM.sol:119-136 | A trade has a price if and only if the oracle is read and lies strictly between floor and ceiling, of 10^14 per basis point; otherwise which error |
| PsmSafety.MintSettlesExactly | contracts/peg/PegStabilityModule.sol:267-334 | A mint settles if and only if neither pause is on, there is a price, the amount out can be computed and is at least the minimum, the caller pays, there is somebody to pay, and held VOLT covers it or role, buffer and supply cover the rest; it pays that amount, never below the minimum |
| PsmSafety.TradesRefused | contracts/peg/PegStabilityModule.sol:102-111 | The reasons to refuse mints and redemptions in their order: each looks at its own pause flag and the common one, then at the price, then at the minimum |
| PsmSafety.MaxMintIsTheLimit | contracts/peg/PegStabilityModule.sol:359-361 | `getMaxMintAmountOut` is held VOLT plus buffer; exactly the amounts up to it settle; it fails exactly when the buffer overflows, and then exactly the amounts covered by held VOLT settle, or when only its sum with the held VOLT does, and then every amount settles, given minter role and room in the supply |
| PsmSafety.HeldVoltSettlesWithoutBuffer | contracts/peg/PegStabilityModule.sol:282-294 | A deployment after which, one second later, `getMaxMintAmountOut` reverts and a mint settles |
| PsmSafety.MintPaysExactly | contracts/peg/PegStabilityModule.sol:282-294 | For any caller and recipient, the module included: the recipient gets exactly the quote, held VOLT is used first, and the buffer falls by exactly the rest |
| PsmSafety.RedeemSettlesExactly | contracts/peg/PegStabilityModule.sol:246-316 | A redemption settles if and only if neither its pause nor the common one is on, there is a price, the amount out can be computed and is at least the minimum, addresses are nonzero, and caller and module have the tokens; it pays that amount, never below the minimum |
| PsmSafety.RedeemTradeEffect | contracts/peg/PegStabilityModule.sol:246-264 | Everybody's VOLT and underlying tokens after a redemption; VOLT is kept, not burned, and nothing else changes |
| PsmGovernance.TradesInFigures | contracts/peg/PegStabilityModule.sol:397-429 | What every settled mint and redemption pays, in figures, from the reading and the fee of its own kind |
| PsmGovernance.DeployedPriceWindow | scripts/priceBoundPSMDeployUSDC.ts:39-63 | With the deployed bounds and scaling the module trades exactly at VOLT prices above 1 and up to 1.111111111111111109 |
| PsmGovernance.SettingsExactly | contracts/peg/PegStabilityModule.sol:114-222 | Fees up to 300, any threshold but zero, any target but the zero address, and any pauses are accepted, nothing else is, and nothing else changes |
| PsmGovernance.OnlyGovernanceChanges | contracts/peg/PegStabilityModule.sol:145-171 | Without authorization every change is refused |
| PsmGovernance.BoundsExactly | contracts/peg/PriceBoundPSM.sol:54-116 | A bound changes to exactly the given value, if and only if the range stays ordered and fits a word |
| PsmGovernance.RatesExactly | contracts/utils/RateLimited.sol:57-67 | A rate is accepted if and only if it is within the maximum and the buffer answers; the level then grows at the new rate from what had accrued, and nothing else of the module changes |
| PsmGovernance.CapsExactly | contracts/utils/RateLimited.sol:70-74 | A cap is accepted if and only if the buffer answers; what had accrued stays, clipped to the new cap |
| PsmGovernance.MintFeeTakesEffect | contracts/peg/PegStabilityModule.sol:145-149 | After a change of the mint fee mints pay by the new fee, and redemptions settle and pay as before |
| PsmGovernance.DeploysExactly | contracts/peg/PriceBoundPSM.sol:26-51 | The constructor accepts exactly the checked parameters, stores each where it belongs, pauses nothing, and starts with a full buffer |
| PsmGovernance.FirstTrades | contracts/peg/PegStabilityModule.sol:73-99 | Mints with a new module keep back its mint fee and redemptions its redemption fee, at the reading of its feed, and a mint creates at most the buffer cap |
| PsmGovernance.FirstAllocation | contracts/peg/PegStabilityModule.sol:227-234 | The surplus of a new module above its threshold goes to its surplus target, and nobody else's tokens change |
| PsmSafety.AllocationSettlesExactly | contracts/peg/PegStabilityModule.sol:227-243 | Allocation succeeds if and only if there is a surplus that fits a signed word, and brings reserves down to the threshold; a deposit does the same and ignores a deficit |
| PsmSolvency.NewVoltIsRateLimited | contracts/volt/minter/RateLimitedMinter.sol:26-29 | Over any run, the VOLT the module creates is at most the starting buffer plus the maximum rate times elapsed time, whatever others mint or burn |
| PsmSolvency.ModuleRunIsLimiterRun | contracts/volt/minter/RateLimitedMinter.sol:26-29 | Seen from the rate limiter, any run of the module is a run of the limiter in which the amounts used are the amounts of VOLT created |
| PsmSolvency.ReachableBufferAnswers | contracts/volt/minter/RateLimitedMinter.sol:9-22 | The buffer of a deployed module answers in every reachable state, under a bound on caps and time known beforehand |
| PsmSolvency.NewVoltEffect | contracts/peg/PegStabilityModule.sol:451-456 | A mint raises the supply by exactly the VOLT it creates and pays for exactly that out of the buffer |
| PsmSafety.PayOutEffect | contracts/volt/minter/RateLimitedMinter.sol:26-29 | Everybody's VOLT after a payout, the new supply, and that only the minted part counts against the limit |
| PsmSafety.ReachableTradesWithinBounds | contracts/peg/PriceBoundPSM.sol:79-136 | In every reachable state bounds are ordered and fees capped, and every trade that does not revert is within the bounds at a price above zero |
| PsmSafety.TradesWithinBounds | contracts/peg/PriceBoundPSM.sol:119-136 | Whatever the oracle says, payouts respect ceiling and floor |
| PsmSafety.InitialRangeIsBounded | contracts/peg/PriceBoundPSM.sol:48-51 | The constructor accepts exactly the ranges 0 < floor < ceiling that fit a word |
| PsmSafety.SettersKeepBounded | contracts/peg/PriceBoundPSM.sol:79-116 | The setters accept exactly the changes that keep the range ordered |
| PsmSafety.StepKeepsInv | contracts/peg/PegStabilityModule.sol:174-334 | Every call keeps fees capped, bounds ordered, the limiter valid and both tokens conserved |
| PriceBoundPsm.PriceBoundPsm.Mint | contracts/peg/PegStabilityModule.sol:320-334 | Both tokens and the limiter change together, or all three are restored |
| PriceBoundPsm.PriceBoundPsm.Redeem | contracts/peg/PegStabilityModule.sol:302-316 | Both tokens change together, or both are restored |
| PriceBoundPsm.PriceBoundPsm.PayOutVolt | contracts/peg/PegStabilityModule.sol:282-294 | A payout that succeeds takes held VOLT first and rate-limited minting for the rest |
| PriceBoundPsm.PriceBoundPsm.AllocateSurplus | contracts/peg/PriceBoundPSM.sol:72-76 | Sends exactly the surplus to the target, or changes nothing |
| PriceBoundPsm.PriceBoundPsm.UpdateMintFee | contracts/peg/PegStabilityModule.sol:174-183 | Only the mint fee changes, and only up to the maximum |
| PriceBoundPsm.PriceBoundPsm.UpdateRedeemFee | contracts/peg/PegStabilityModule.sol:186-195 | Only the redeem fee changes, and only up to the maximum |
| PriceBoundPsm.PriceBoundPsm.UpdateFloor | contracts/peg/PriceBoundPSM.sol:102-116 | Only the floor changes, and only below the ceiling |
| PriceBoundPsm.PriceBoundPsm.UpdateCeiling | contracts/peg/PriceBoundPSM.sol:79-99 | Only the ceiling changes, and only above the floor |
| VoltSystem.NoGroupGains | contracts/peg/PegStabilityModule.sol:246-297 | At the inverted oracle price, over any run of time, compounding, governance, token movements and trades, no group of accounts that receives no gifts from outside is worth more VOLT together at the end |
| VoltSystem.NoTraderGains | contracts/peg/PegStabilityModule.sol:246-297 | The same for a single account |
| VoltSystem.SolventWithOracle | contracts/peg/PegStabilityModule.sol:227-297 | The solvency bound along the whole run of the oracle, inverted or not, with the revaluation that interest causes |
| VoltSystem.SolventUpToInterest | contracts/peg/PegStabilityModule.sol:227-297 | With the inverted price the module is solvent up to the fall of the quote on its largest reserves; without inversion it is solvent outright |
| VoltSystem.InterestLoses | contracts/refs/OracleRef.sol:101-104 | Inverted, interest revalues the reserves by nothing or a loss of at most the whole fall on the largest amount held |
| VoltSystem.InterestGains | contracts/refs/OracleRef.sol:101-104 | Without inversion interest never loses |
| VoltSystem.InterestLosesExactly | contracts/refs/OracleRef.sol:101-104 | A deployed module that loses, by one period of interest and without a call, exactly the fall of the quote on its reserves |
| VoltSystem.InvertedQuoteNeverRises | contracts/refs/OracleRef.sol:94-117 | Along any run the module's inverted price never rises |
| VoltSystem.RoundTripsOverTime | contracts/peg/PegStabilityModule.sol:397-429 | Redeeming now and minting later returns at most the VOLT redeemed; minting now and redeeming later pays at most what was paid in |

## Left out

- VconHistory.PriorVotesAreHistoricalTally: states zero votes for the zero address, because the contract keeps no checkpoints for it.
- VoltSystem.SolventWithOracle: measures worth at the quote in unbounded arithmetic; while a reading fails trades revert, but that quote goes on.
- PriceBoundPsm.PriceBoundPsm.PayOutVolt: says nothing about tokens and limiter after an internal failure, because the external call that made it restores them; the same holds for the other internal steps of a trade.
- VconToken.VconToken.TransferTokens: says nothing about the storage after an internal failure, because the external call that made it restores every slot; the same holds for the other internal methods of the token.
- PriceBoundPsm.PriceBoundPsm.constructor: requires parameters that the source's constructor checks accept, because a Dafny constructor cannot fail; `PsmSpec.Deploy` has the error cases.
- RateLimited.RateLimited.constructor: requires a rate within the maximum, for the same reason; so does `RateLimitedV2.RateLimitedV2.constructor`, together with a time of 32 bits, and `RateLimitedV2.Full` has its error cases.
- Signatures (`permit`, `delegateBySig`): foreign cryptography; their effect is that of `approve` and `delegate`.
- Events, names, reentrancy guards and storage layout, except for integer widths.
- The base `PegStabilityModule` without price bounds: the same code without one check, except that its surplus target is notified of an allocation.
- `withdraw`: a trusted controller may take any reserves, so nothing about solvency survives it.
- EIP-20 allowances of the two tokens of the module: taken to cover every amount.
- Choosing between oracle and backup oracle, and changing the oracle, the inversion or the scaling during a run of the module: a reading is a parameter of every trade.
- The functions that pause and unpause the module are one operation that sets all three flags.
- `RateLimited._resetBuffer` and `Decimal.pow`: unused.
- Roles, guardians, timelocks, escrow, allocators, routers and venue deposits: thin wrappers or dominated by external contracts.
