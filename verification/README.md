# Verified model of the market maker's order plane

A Dafny model of the Go market maker (`market-maker-service`) from price reading to persisted trade, and
of the fixed-point price code it shares with the TypeScript pool scripts (`issuer-service/scripts`).
`dafny verify dfyconfig.toml` checks the whole project.

| file | models |
|---|---|
| `IntSqrt.dfy`, `PriceCodec.dfy` | the Newton square root and the Q64.96 price encoding, written and read back |
| `PoolReaders.dfy`, `TokenOrder.dfy` | the V2, V3 and V4 readers, the scripts' reserve choice, the three token orders |
| `SwapChecks.dfy`, `Strategy.dfy` | minimum output and precheck; evaluation and sizing of decisions |
| `TwapSlices.dfy`, `Settlement.dfy` | splitting an order into slices; what is marked and booked afterwards |
| `Nonces.dfy` | nonce allocation over failing nodes |
| `RunLock.dfy` | one execution per instrument, locally and through Redis |
| `RiskGuard.dfy`, `RuntimeConfig.dfy` | back-off, circuit and daily budget; hot parameters |
| `Klines.dfy`, `LiveKlines.dfy` | coarse bars and the live minute bars |
| `PriceHistory.dfy` | the pruned history behind the time-weighted price |
| `Positions.dfy`, `AuditQueue.dfy` | the operator's position values; the audit pipeline |

Objects the program updates in place are classes whose methods are proved equal to a step function of
their state; the claims about whole runs and interleavings are lemmas about sequences of those steps.
A body that runs under a mutex is one step. The clock, the nodes, Redis and SQLite are inputs:
their failures appear as arbitrary parameters or events. `big.Int` and bigint are unbounded integers,
`float64` and `big.Float` exact reals, durations int64 nanoseconds.

What the proofs found about the code:

- The nonce allocator believes any error message that contains "known transaction". "unknown transaction type"
  does, and a node that rejects a transaction that way makes the allocator skip a nonce. Two exact conditions
  are proved, each for one call and for whole runs: `next` stays 0 or the pending nonce exactly while no call is
  told falsely, and the accepted nonces have no gap and no repeat exactly while no call puts a transaction on
  the chain under another nonce than the pending one.
- The strategy can emit an order whose minimum output rounds down to zero, and V4 then rejects it. An order
  that passes the precheck whole can fail it in slices; the exact condition and a sufficient slippage are proved.
- A sliced run that stops halfway is returned as failed: no cooldown is marked and nothing is booked for the
  slices that went out.
- The Redis lock excludes a second execution exactly as long as no holder outlives the TTL. By default an
  execution may take 3 minutes and the TTL is 15 seconds. After a lock error the local flag decides, and the
  two locks do not see each other: exclusion then lasts exactly while each acquire goes to the lock that
  granted the running body, or meets a live key that an earlier release failed to delete.
- The gas charged in a day can exceed every budget in force that day, by a call that read its budget before
  midnight. Gas is metered only while the per-trade cap is positive and both prices are available.
- The pruned price history is indistinguishable from the full one exactly if the window, as an int64 duration,
  is at most 300 s, the bound of the runtime parameter. Windows of 9223372037 s and more can overflow to that.
  A late old sample hides newer ones from the average.
- Executions of two instruments that share a token can lose a position update between its read and its write.
- Processes that share the audit queue each run a consumer, and two consumers can persist out of order.
- An envelope whose insert fails is dropped, so the audit tables can miss what the pipeline delivered.
- The bar query never aggregates: asked for 5m or 15m bars it reads rows stored under that name, and only
  1m rows are ever stored.
- The comment on `computeAmountIn` (`strategy/engine.go:180-186`) converts through the pool price; the code
  divides by the sold token's own USD price, and the model follows the code.

## Model

| member | source | states |
|---|---|---|
| `IntSqrt.BigIntSqrt` | issuer-service/scripts/v3_pool.ts:32-38 | terminates on every bigint; on non-negative input returns the exact floor of the square root, a negative input unchanged |
| `IntSqrt.Iterate` | issuer-service/scripts/v4_pool.ts:36-41 | the Newton loop ends with x*x <= value < (x+1)*(x+1) |
| `IntSqrt.NewtonStaysAbove` | issuer-service/scripts/v4_pool.ts:39 | one Newton step from any x >= 1 lands at or above the root, never below it |
| `IntSqrt.NewtonStops` | issuer-service/scripts/v4_pool.ts:37 | if the next iterate is not smaller, x*x <= value |
| `IntSqrt.RootIsUnique` | issuer-service/scripts/v3_pool.ts:32-38 | only one number is a floor square root: the one counting up finds |
| `IntSqrt.FloorSqrtIsRoot` | issuer-service/scripts/v3_pool.ts:32-38 | the reference definition by counting up satisfies x*x <= v < (x+1)*(x+1) |
| `PriceCodec.EncodePriceSqrt` | issuer-service/scripts/v3_pool.ts:40-42 | the Q64.96 root of the reserve ratio, or no value where the division by a zero reserve throws |
| `PriceCodec.EncodedIsExactFloor` | issuer-service/scripts/v4_pool.ts:44-47 | both roundings together give the exact floor of the root of the unrounded ratio |
| `PriceCodec.EncodedMonotone` | issuer-service/scripts/v4_pool.ts:44-47 | never falls as reserve1 grows, never rises as reserve0 grows |
| `PriceCodec.SwappedReservesAreReciprocal` | issuer-service/scripts/v4_pool.ts:166-173 | with the reserves swapped, e*f <= 2^192 < (e+1)*(f+1) |
| `PriceCodec.EncodedRatioBounds` | issuer-service/scripts/v3_pool.ts:40-42 | the raw ratio lies in [e^2, (e+1)^2) / 2^192 |
| `PriceCodec.RoundTrip` | market-maker-service/internal/uniswap/math.go:20-27 | decoding an encoded price gives at most the price written, short of it by less than (2e+1)/2^192 scaled by the decimals |
| `PriceCodec.RootStep` | market-maker-service/internal/uniswap/math.go:20-27 | (2e+1)/2^192 is the distance between the ratios of e and e+1 |
| `PriceCodec.ReadSqrtWord` | market-maker-service/internal/uniswap/v4_reader.go:44-53 | copying bytes 12 to 32 into a zeroed buffer reads the word modulo 256^20; a short word gives nothing |
| `PriceCodec.PackedWordGivesPrice` | market-maker-service/internal/uniswap/v4_reader.go:48-53 | packing a price under any upper 96 bits and reading the word gives back exactly that price |
| `PriceCodec.BytesRoundTrip` | market-maker-service/internal/uniswap/v4_reader.go:51-53 | the bytes of a number read back as that number |
| `PriceCodec.BigEndianSplits` | market-maker-service/internal/uniswap/v4_reader.go:51-53 | the number of a byte string is the sum of its halves, the upper one shifted |
| `PoolReaders.V2ReadsHumanPrice` | market-maker-service/internal/uniswap/v2_reader.go:43-53 | whichever token sorts first, the V2 reading is exactly (quote reserve / 10^dq) / (base reserve / 10^db) |
| `PoolReaders.V2ReadingBalances` | market-maker-service/internal/uniswap/v2_reader.go:43-53 | by multiplication only: reading times base reserve times 10^dq is quote reserve times 10^db |
| `PoolReaders.V2EmptyReserveReadsZero` | market-maker-service/internal/uniswap/v2_reader.go:39-54 | the V2 reading is 0 exactly when a reserve is empty |
| `PoolReaders.InverseRatioIsHumanPrice` | market-maker-service/internal/uniswap/math.go:31-47 | with the quote token first, the raw ratio is the reciprocal of the human price |
| `PoolReaders.ScriptPriceReadBack` | market-maker-service/internal/uniswap/v3_reader.go:38-45 | a pool initialised by the script reads back within one step of the encoded root of the price its reserves mean: down when the base sorts first, up when the price is inverted, 0 exactly for a zero encoding |
| `PoolReaders.V4Read` | market-maker-service/internal/uniswap/v4_reader.go:41-62 | short words and zero prices read 0, any other word the oriented price of its low 160 bits |
| `PoolReaders.KeyOrderDecides` | market-maker-service/internal/uniswap/v4_reader.go:58-61 | whichever way the pool key names the pair, its price is read as quote per base, directly with the base first and inverted otherwise |
| `PoolReaders.DecimalsAre` | market-maker-service/internal/uniswap/v2_reader.go:59-67 | a token of the pair has its own decimals, any other 18 |
| `PoolReaders.V4WordReadsLikeV3` | market-maker-service/internal/uniswap/v4_reader.go:48-61 | with a sorted pool key a V4 word reads as the V3 reader reads its price, whatever else is packed in it |
| `Prelude.Pow10Signed` | market-maker-service/internal/uniswap/math.go:50-62 | the two loops compute 10^n for every sign of n |
| `Prelude.Pow10Upward` | market-maker-service/internal/execution/v4_executor.go:308-314 | the one loop computes 10^max(n, 0) |
| `Prelude.Pow10Difference` | market-maker-service/internal/uniswap/math.go:20-27 | scaling by 10^(a-b) is scaling by the ratio of the powers |
| `TokenOrder.OrdersAgree` | issuer-service/scripts/v4_pool.ts:29-31 | for any two address texts the script, the legacy pool key and the readers pick the same ordered pair of addresses |
| `TokenOrder.AddressOrder` | market-maker-service/internal/config/config.go:268-272 | the order of two lower-cased address texts is the order of their 160-bit numbers |
| `TokenOrder.StringOrderIsNumberOrder` | market-maker-service/internal/config/config.go:270 | hex strings of one length, in any mixture of cases, compare like their values |
| `TokenOrder.StringOrderIsTotal` | issuer-service/scripts/v4_pool.ts:30 | of two different strings exactly one comes first, and a proper prefix does |
| `TokenOrder.HexValueAppends` | market-maker-service/internal/uniswap/math.go:11-16 | a hex digit more is sixteen times the value and the digit |
| `SwapChecks.UnslicedOrderPasses` | market-maker-service/internal/execution/v4_executor.go:116-136 | the quote never falls short of the strategy's minimum, for every price, decimals and slippage; the precheck passes exactly if that minimum is at least one unit |
| `SwapChecks.ExpectedIsLinear` | market-maker-service/internal/execution/v4_executor.go:281-306 | the expected output is the amount times a positive unit price |
| `SwapChecks.ExpectedIsWorthInput` | market-maker-service/internal/execution/v4_executor.go:281-306 | the output is worth the input at the price, by multiplication only: times the price for a sale, divided by it for a purchase |
| `SwapChecks.MinOutIsShare` | market-maker-service/internal/strategy/engine.go:231-262 | the minimum is (1 - s) of the expected output rounded down; a slippage outside [0, 0.5] counts as the nearer end |
| `SwapChecks.PrecheckPassesExactlyWhen` | market-maker-service/internal/execution/v4_executor.go:116-136 | the answer for every input: passes exactly if amount, minimum and price are positive and the minimum is within what the amount buys |
| `SwapChecks.BuyingOneEther` | market-maker-service/internal/strategy/engine.go:247-257 | 3000 USDT at 3000 buy one ether, at least 0.99 at a slippage of 1% |
| `SwapChecks.ZeroMinimumIsRejected` | market-maker-service/internal/execution/v4_executor.go:124-128 | an amount whose minimum is computed as zero, and which the V4 path rejects |
| `SwapChecks.ClampSlippage` | market-maker-service/internal/strategy/engine.go:232-237 | the slippage used lies in [0, 0.5] |
| `Strategy.NotionalIsClamped` | market-maker-service/internal/strategy/engine.go:125-131 | the notional stays in [Min, Max] |
| `Strategy.NotionalIs` | market-maker-service/internal/strategy/engine.go:125-131 | it is the size of gain * deviation * Max where that fits, the nearer bound where it does not |
| `Strategy.NotionalMonotone` | market-maker-service/internal/strategy/engine.go:125-131 | the notional never falls as the deviation grows in size, for any gain and bounds |
| `Strategy.SizingIsTight` | market-maker-service/internal/strategy/engine.go:187-205 | a*u <= notional*10^k < (a+1)*u for the raw amount a, token price u and k decimals |
| `Strategy.EmittedDecisionIsSound` | market-maker-service/internal/strategy/engine.go:71-178 | every emitted decision rests on fresh positive prices, respects cooldown, deadband, trigger and circuit threshold, sells the dear side, is sized tightly within the bounds, sets the expected output less slippage as its minimum, and passes the V4 precheck exactly if that is positive |
| `Strategy.EmitsExactlyWhen` | market-maker-service/internal/strategy/engine.go:71-178 | a decision is emitted if and only if prices are fresh and positive, circuit threshold, deadband, trigger and cooldown are clear, both tokens have a USD price and the notional buys a raw unit |
| `Strategy.DecisionsKeepCooldown` | market-maker-service/internal/strategy/engine.go:45-122 | over every run of marks and decisions, an instrument is decided on if and only if its other gates are clear and the cooldown since its last mark has passed |
| `Strategy.CooldownIs` | market-maker-service/internal/strategy/engine.go:110-116 | the cooldown in force is an override of at least a second, in whole seconds, or the instrument's own |
| `Strategy.USDPriceExactlyWhen` | market-maker-service/internal/strategy/engine.go:207-226 | USDT is worth one dollar, BTC and ETH their positive quotes, nothing else has a price |
| `Strategy.CooldownDuration` | market-maker-service/internal/strategy/engine.go:116 | the int64 duration is the cooldown up to 9223372036 s; one second more and it is negative |
| `Strategy.EmittedOrderCanBeRejected` | market-maker-service/internal/strategy/engine.go:71-178 | inputs for which the strategy emits an order with a zero minimum and the V4 precheck rejects it |
| `Strategy.Engine.Decide` | market-maker-service/internal/strategy/engine.go:53-66 | one decision for each entry whose gates are all clear, none for any other, whatever the order of the map; an instrument in lastTrade only once its cooldown has passed |
| `Strategy.Engine.MarkExecuted` | market-maker-service/internal/strategy/engine.go:45-49 | records the trade time of one instrument and touches no other |
| `TwapSlices.ExecuteTwap` | market-maker-service/internal/execution/service.go:213-266 | slice i gets floor((amount+i)/n) and floor((minimum+i)/n); submitted exactly if every slice is and the context lasts; a failing or cancelled run stops there; one plain execution when slicing is off or the amount is invalid |
| `TwapSlices.SendSlices` | market-maker-service/internal/execution/service.go:233-265 | the loop's attempts, one by one, and where it stops |
| `TwapSlices.AttemptIs` | market-maker-service/internal/execution/v3_executor.go:50-70 | an attempt carries the order's amounts and is submitted if and only if the checks and the chain side pass |
| `TwapSlices.V3TakesSlicesExactlyWhen` | market-maker-service/internal/execution/v3_executor.go:58-65 | V3 takes all n slices if and only if the amount has at least n units |
| `TwapSlices.PartsConserve` | market-maker-service/internal/execution/service.go:238-246 | n shares add up to the total, the first i of them to at most i/n of it |
| `TwapSlices.RemainderShare` | market-maker-service/internal/execution/service.go:239-243 | what is left after i slices, divided by the slices to come, is share i |
| `TwapSlices.CompletedRunConserves` | market-maker-service/internal/execution/service.go:233-265 | a completed run spends exactly the order's amount behind minimums that sum to exactly its minimum |
| `TwapSlices.StoppedRunSpendsItsShare` | market-maker-service/internal/execution/service.go:248-262 | a run stopped after s submitted slices has spent at most s/n of the amount |
| `TwapSlices.CompletedRunReceivesMinimum` | market-maker-service/internal/execution/service.go:213-266 | if each swap honours its own minimum, a completed run receives the order's minimum |
| `TwapSlices.FillsHonourMinimums` | market-maker-service/internal/execution/service.go:213-266 | the same for any run, against the minimums of its submitted slices |
| `TwapSlices.SlicesPassExactlyWhen` | market-maker-service/internal/execution/v4_executor.go:116-136 | all n slices pass the V4 precheck if and only if amount and minimum are at least n and two named slices pass |
| `TwapSlices.EnoughSlippageLetsSlicesPass` | market-maker-service/internal/execution/v4_executor.go:124-136 | q*u*s >= u*(1-s)+1 and a minimum of at least n let every slice of a strategy order pass |
| `TwapSlices.SlicingCanFailThePrecheck` | market-maker-service/internal/execution/service.go:238-247 | an order on the configured tokens that passes whole and fails in two slices |
| `Settlement.Execute` | market-maker-service/internal/execution/service.go:150-171 | the run, then the cooldown mark, failure count and booking that follow from its status |
| `Settlement.Settle` | market-maker-service/internal/execution/service.go:152-171 | submitted marks the trade time and books the result, failed counts a failure and books nothing |
| `Settlement.BookMovesBookedValue` | market-maker-service/internal/execution/service.go:388-406 | the booked value moves between the two tokens of the pair |
| `Settlement.BookMatchesSpendingExactlyWhen` | market-maker-service/internal/execution/service.go:213-266 | for all orders, node and cancellation behaviour, the book holds what a sliced run spent if and only if the notional is zero, the first slice does not go out, or all slices do and the context lasts |
| `Settlement.HalfwayRunIsNotBooked` | market-maker-service/internal/execution/service.go:248-250 | a run that spends half of its notional and books none of it |
| `RuntimeConfig.Config.HandleRuntimeParam` | market-maker-service/internal/api/server.go:570-598 | a parameter is set exactly if whitelisted and in its safe range; every stored override stays in range |
| `RuntimeConfig.SafeExactlyWhen` | market-maker-service/internal/api/server.go:947-977 | the whitelist is exactly the parameters with a safe value, and these are their ranges |
| `RuntimeConfig.WindowAndSlicesAre` | market-maker-service/internal/market/aggregator.go:122-125 | an override in whole seconds or slices wins over the configured value; slices only where slicing is configured |
| `RuntimeConfig.SafeOverridesBound` | market-maker-service/internal/api/server.go:956-977 | safe overrides bound the TWAP window by 300 s and the slice count by 10, unless the configured value itself is larger |
| `Nonces.Nonces.SignAndSend` | market-maker-service/internal/execution/nonce.go:55-92 | state and outcome of one call, over every script of nodes that fail, take transactions and report independently of each other |
| `Nonces.Nonces.SendWithFailover` | market-maker-service/internal/execution/nonce.go:96-115 | stops at the first node that reports no error or an already-known one, whether or not anything was taken; a transaction reaches the chain at most once |
| `Nonces.Nonces.Allocate` | market-maker-service/internal/execution/nonce.go:185-194 | hands out the kept nonce, or asks the nodes when it is 0 |
| `Nonces.Nonces.PendingNonceWithFailover` | market-maker-service/internal/execution/nonce.go:196-212 | the first node that answers decides |
| `Nonces.Nonces.SuggestWithFailover` | market-maker-service/internal/execution/nonce.go:117-151 | the first node that quotes a positive value decides |
| `Nonces.StepKeepsInv` | market-maker-service/internal/execution/nonce.go:55-92 | with answers that count everything and no false acknowledgement, a call keeps next at 0 or the pending nonce, adds at most that nonce to the chain, and a reported success has put exactly it there |
| `Nonces.InvKeptExactlyWhen` | market-maker-service/internal/execution/nonce.go:55-115 | from a good state a call keeps the invariant if and only if it does not reach a broadcast whose first acknowledgement is false |
| `Nonces.RunKeepsInv` | market-maker-service/internal/execution/nonce.go:55-115 | over every run without false acknowledgement the accepted nonces are start, start+1, ... with no gap and no repeat |
| `Nonces.InvThroughoutExactlyWhen` | market-maker-service/internal/execution/nonce.go:55-115 | a whole run keeps the invariant throughout if and only if no call of it is told falsely |
| `Nonces.SendAllMeans` | market-maker-service/internal/execution/nonce.go:96-115 | taken exactly if a node takes it no later than the first acknowledgement; told so exactly if some node acknowledges |
| `Nonces.AcknowledgesExactlyWhen` | market-maker-service/internal/execution/nonce.go:96-115 | a reply ends the failover if and only if it has no error or one of the two phrases stands somewhere in its message, in any case |
| `Nonces.OutcomeExactlyWhen` | market-maker-service/internal/execution/nonce.go:55-92 | which of the six outcomes a call has, exactly, from what the nodes answer, quote and reply |
| `Nonces.NextAfterCall` | market-maker-service/internal/execution/nonce.go:59-90 | a failed quote keeps the nonce, a failed signature or broadcast makes the next call ask again, a success moves on by one |
| `Nonces.RefusedEverywhere` | market-maker-service/internal/execution/nonce.go:96-115 | if every node refuses with an error that says neither phrase, the call fails and next is 0 |
| `Nonces.KnownAfterTaken` | market-maker-service/internal/execution/nonce.go:105-108 | a node that answers already known after another took the transaction makes it a success, on the chain once |
| `Nonces.FirstAnswerIs` | market-maker-service/internal/execution/nonce.go:196-212 | the value is the answer of the first node that answers, and there is none exactly if no node does |
| `Nonces.FirstPositiveIs` | market-maker-service/internal/execution/nonce.go:117-151 | the same for the first positive quote |
| `Nonces.UnknownReadsAsKnown` | market-maker-service/internal/execution/nonce.go:176-183 | every message around the words known transaction counts as already known, unknown transaction type included |
| `Nonces.FalseAcknowledgementLeavesGap` | market-maker-service/internal/execution/nonce.go:96-115 | a run in which such a rejection makes the allocator skip a nonce |
| `Nonces.SentNoncesIncrease` | market-maker-service/internal/execution/nonce.go:55-92 | without false acknowledgement, successful calls return strictly increasing nonces |
| `Nonces.RecoversFromAnyFailure` | market-maker-service/internal/execution/nonce.go:83-90 | after any failures, the next call that meets working nodes sends the pending nonce, and it is on the chain exactly if a node took it by the acknowledgement |
| `Nonces.GaplessExactlyWhen` | market-maker-service/internal/execution/nonce.go:55-115 | from any state, the chain is gapless after a call if and only if it was before and the call puts no transaction on it under another nonce than the pending one |
| `Nonces.GaplessRunExactlyWhen` | market-maker-service/internal/execution/nonce.go:55-115 | over every run, with no hypothesis on the nodes, the accepted nonces have no gap and no repeat if and only if no call does that |
| `Nonces.FalseAcknowledgementCanHeal` | market-maker-service/internal/execution/nonce.go:79-90 | a run with a false acknowledgement that ends without a gap, because a later call fails before it broadcasts |
| `Nonces.LaggingNodeRepeatsNonce` | market-maker-service/internal/execution/nonce.go:185-212 | a node that lags behind makes the allocator repeat a nonce |
| `RunLock.Service.TryAcquire` | market-maker-service/internal/execution/service.go:452-467 | the Redis answer decides if there is one, the local flag otherwise |
| `RunLock.Service.Release` | market-maker-service/internal/execution/service.go:469-474 | the key is deleted whoever set it, the flag cleared always |
| `RunLock.Redis.SetNX` | market-maker-service/internal/execution/async_audit.go:157-166 | succeeds exactly if no live key is there, and sets it for the TTL |
| `RunLock.LocalExclusion` | market-maker-service/internal/execution/service.go:106-118 | with Redis off, at most one body per instrument in a process, in every interleaving |
| `RunLock.GrantedExactlyWhenIdle` | market-maker-service/internal/execution/service.go:460-474 | over every run with Redis off, an acquire starts a body if and only if the process runs none for the instrument: what was released can be acquired again |
| `RunLock.GrantedAfterRelease` | market-maker-service/internal/execution/async_audit.go:157-175 | with Redis answering, the next acquire after a successful deletion starts a body, from any process |
| `RunLock.GrantedAfterReleaseOnError` | market-maker-service/internal/execution/service.go:452-474 | if the lock errors, the next acquire in the process that released starts a body, since the flag is cleared in any case |
| `RunLock.RefusedWhileKeyLives` | market-maker-service/internal/execution/async_audit.go:168-175 | a release whose deletion fails leaves the instrument locked while the key lives |
| `RunLock.GrantedAfterExpiry` | market-maker-service/internal/execution/async_audit.go:164 | so does one after the key has expired start a body |
| `RunLock.RefusalChangesNothing` | market-maker-service/internal/execution/service.go:452-467 | a refused acquire changes nothing |
| `RunLock.TimelyHoldersExclude` | market-maker-service/internal/execution/async_audit.go:157-175 | with Redis on, at most one body per instrument across processes while no lock call errors and holders are timely |
| `RunLock.RedisExclusionExactlyWhen` | market-maker-service/internal/execution/async_audit.go:157-175 | that exclusion holds over all runs if and only if a holder's time is at most the TTL |
| `RunLock.LateHolderBreaksExclusion` | market-maker-service/internal/execution/async_audit.go:62-65 | any longer hold lets two bodies run: the defaults are a 15 s TTL and a 3 min context |
| `RunLock.LockErrorBreaksExclusion` | market-maker-service/internal/execution/service.go:453-466 | a run in which one lock error lets a second body start even within a process |
| `RunLock.AcquireExclusiveExactlyWhen` | market-maker-service/internal/execution/service.go:452-467 | one acquire, with or without a lock error, keeps exclusion if and only if the key or flag it consults refuses it or the instrument is idle |
| `RunLock.ExclusiveThroughoutExactlyWhen` | market-maker-service/internal/execution/service.go:452-474 | over every run of timely holders with lock errors, bodies of an instrument never overlap if and only if every acquire of one in flight goes to the lock, key or flag, that granted it |
| `RiskGuard.ComputeBackoff` | market-maker-service/internal/risk/guard.go:141-147 | min(300, 5*3^(f-1)) seconds for every f, terminating, in int64 nanoseconds without overflow |
| `RiskGuard.BackoffSchedule` | market-maker-service/internal/risk/guard.go:134-147 | 5, 15, 45, 135 seconds and then five minutes |
| `RiskGuard.BackoffNeverMovesEarlier` | market-maker-service/internal/risk/guard.go:136-152 | after f failures in a row the back-off ends that long after the last one, and never earlier than it did before |
| `RiskGuard.BackoffFollowsFailures` | market-maker-service/internal/risk/guard.go:125-152 | over every run of failures, successes, trips, clears and Allow calls, the back-off is that of the failures since the last success |
| `RiskGuard.NothingAllowedWhileBackingOff` | market-maker-service/internal/risk/guard.go:75-78 | in every such run no decision whose back-off is read then is allowed before the back-off of any failure since the last success has ended, whatever happens after the read |
| `RiskGuard.Guard.RecordFailure` | market-maker-service/internal/risk/guard.go:136-152 | the failing instrument's counter and back-off change, nothing else |
| `RiskGuard.Guard.RecordSuccess` | market-maker-service/internal/risk/guard.go:125-132 | clears counter and back-off and leaves the circuit alone |
| `RiskGuard.Guard.TripCircuit` | market-maker-service/internal/risk/guard.go:156-171 | opens the circuit and adds one clearing timer |
| `RiskGuard.Guard.ClearFires` | market-maker-service/internal/risk/guard.go:164-170 | a timer closes the circuit and is gone |
| `RiskGuard.Guard.CheckBreakers` | market-maker-service/internal/sync/engine.go:141-160 | every usable instrument at least its positive threshold away from zero, on either side, ends with an open circuit; if it was closed, with one more timer at the cooldown or, without one, two minutes; every other circuit and every back-off is as before |
| `RiskGuard.Guard.Allow` | market-maker-service/internal/risk/guard.go:69-122 | the verdict and the day meter, check by check, in the order of the code, with anything other goroutines do between the read of the back-off, the read of the circuit and the charge |
| `RiskGuard.Guard.ConsumeDailyBudget` | market-maker-service/internal/risk/guard.go:231-244 | rolls the day over and charges the amount exactly if it fits the budget |
| `RiskGuard.CircuitHasOneTimer` | market-maker-service/internal/sync/engine.go:141-160 | in every reachable state a circuit is open exactly when one clearing timer is pending, the last trip's |
| `RiskGuard.TripLastsItsCooldown` | market-maker-service/internal/risk/guard.go:156-171 | whatever happens after a trip, the circuit stays open for the full cooldown |
| `RiskGuard.TimerCloses` | market-maker-service/internal/risk/guard.go:164-170 | from the end of the cooldown on, the timer closes the circuit when it fires, and not before |
| `RiskGuard.OpenCircuitDenies` | market-maker-service/internal/risk/guard.go:80-83 | an open circuit denies every decision and charges nothing |
| `RiskGuard.TripDeniesForItsCooldown` | market-maker-service/internal/risk/guard.go:80-171 | from a trip on, whatever happens, an Allow that reads the circuit before the full cooldown has passed denies the instrument and charges nothing |
| `RiskGuard.TripNeedsClosedCircuit` | market-maker-service/internal/sync/engine.go:151-157 | a trip keeps the one-timer state if and only if the circuit was closed, which the caller's test ensures |
| `RiskGuard.AllowedExactlyWhen` | market-maker-service/internal/risk/guard.go:69-122 | a decision is allowed if and only if every gate that applies is clear, whatever the order of the checks |
| `RiskGuard.DeniedBecause` | market-maker-service/internal/risk/guard.go:69-122 | otherwise the reason is that of the first gate, in the order of the code, that is not clear |
| `RiskGuard.GasUSDIs` | market-maker-service/internal/risk/guard.go:214-222 | 10^18 times the estimate is gas price times 250000 times the ether price |
| `RiskGuard.AllowedIsChargedWhenMetered` | market-maker-service/internal/risk/guard.go:96-116 | an allowed decision is charged exactly its estimate if metered, and nothing otherwise; one denied for its edge stays charged |
| `RiskGuard.DailyBudgetHolds` | market-maker-service/internal/risk/guard.go:104-107 | in every interleaving of calls, overrides and midnights: allowed estimates <= meter <= the day's largest budget or one carried over midnight |
| `RiskGuard.SameDayReadsStayWithinPeak` | market-maker-service/internal/risk/guard.go:231-244 | without a call that straddles midnight the meter stays within the day's largest budget |
| `RiskGuard.ChargesStayWithinPeakExactlyWhen` | market-maker-service/internal/risk/guard.go:104-107 | every amount a call can charge keeps the day's bound if and only if the budget it read is not above the day's largest, or not positive |
| `RiskGuard.PeakKeptExactlyWhen` | market-maker-service/internal/risk/guard.go:231-244 | a step keeps the meter within the day's largest budget if and only if it is no charge that fits the budget it read and exceeds that one |
| `RiskGuard.WithinPeakThroughoutExactlyWhen` | market-maker-service/internal/risk/guard.go:104-107 | over every interleaving, the meter stays within the day's largest budget at all times if and only if no charge overdraws it |
| `RiskGuard.BudgetReadBeforeMidnightOverspends` | market-maker-service/internal/risk/guard.go:104-107 | a run in which a budget read before midnight is spent on a day that never had it |
| `Klines.AggregateKlines` | market-maker-service/internal/db/sqlite.go:422-467 | the loop computes the fold of the points, and returns unknown intervals as they are |
| `Klines.BucketIs` | market-maker-service/internal/db/sqlite.go:438 | a bucket is a multiple of five or fifteen minutes less than one length from its times, on the side of zero |
| `Klines.NamesThatAggregate` | market-maker-service/internal/db/sqlite.go:426-434 | 5m and 15m aggregate, any other name returns the points |
| `Klines.BarOpensExactlyWhen` | market-maker-service/internal/db/sqlite.go:437-454 | in any order, a point opens a bar if and only if its bucket is not that of the point before it |
| `Klines.AggregationComposes` | market-maker-service/internal/db/sqlite.go:422-467 | 5m and then 15m is 15m, for every sequence of points in any order |
| `Klines.SortedPointsGiveOneBarPerBucket` | market-maker-service/internal/db/sqlite.go:437-462 | sorted points give strictly increasing aligned bars, one per bucket with points, each with first open, last close, extreme high and low of exactly its points |
| `Klines.GetPrices` | market-maker-service/internal/db/sqlite.go:386-420 | every answer is stored rows as they are, limited; nothing is aggregated |
| `Klines.QueryReads` | market-maker-service/internal/db/sqlite.go:386-403 | the interval read, the limit in force and exactly which rows are in range |
| `Klines.CoarseQueryAggregatesExactlyWhen` | market-maker-service/internal/db/sqlite.go:393-419 | with only 1m rows stored, a 5m or 15m query returns the aggregate of the minute bars if and only if there are none in range |
| `LiveKlines.Engine.OnSnapshot` | market-maker-service/internal/sync/engine.go:72-98 | every instrument's bucket and rows after a snapshot, in any order of the map |
| `LiveKlines.Engine.OnPrice` | market-maker-service/internal/sync/engine.go:76-96 | one positive sample extends the bucket or closes and flushes it; other instruments are untouched |
| `LiveKlines.Engine.FlushAll` | market-maker-service/internal/sync/engine.go:173-177 | every bucket in progress is stored, none is changed |
| `LiveKlines.Engine.FlushKline` | market-maker-service/internal/db/sqlite.go:369-384 | the upsert writes one row and overwrites only the one with its key |
| `LiveKlines.GroupsSplitSamples` | market-maker-service/internal/sync/engine.go:80-89 | the samples are cut into contiguous groups under a minute long whose starts are at least 60 s apart |
| `LiveKlines.RunRefinesGroups` | market-maker-service/internal/sync/engine.go:72-98 | in every interleaving of snapshots and flushes each closed bucket's row is exactly the bar of its group, and no row belongs to anything else |
| `LiveKlines.BarIsOhlc` | market-maker-service/internal/sync/engine.go:84-96 | the accumulated bar is first, highest, lowest and last price of its group |
| `LiveKlines.FlushStoresCurrentBucket` | market-maker-service/internal/sync/engine.go:162-180 | after a flush the row of the bucket in progress is current too |
| `PriceHistory.Client.HandleMessage` | market-maker-service/internal/binance/ws_client.go:266-294 | appends one sample and prunes the front of that symbol only |
| `PriceHistory.MessageDoes` | market-maker-service/internal/binance/ws_client.go:266-293 | a positive price is appended and exactly the samples before the first that is not older than five minutes go; any other price changes nothing |
| `PriceHistory.Client.FirstRecent` | market-maker-service/internal/binance/ws_client.go:285-290 | the index loop finds the pruned suffix |
| `PriceHistory.Client.FetchREST` | market-maker-service/internal/binance/ws_client.go:178-189 | appends one sample without pruning |
| `PriceHistory.Client.GetTWAP` | market-maker-service/internal/binance/ws_client.go:206-232 | the backward loop computes the mean of the samples walked, or no value; the cutoff uses the int64 duration |
| `PriceHistory.ValueExactlyWhen` | market-maker-service/internal/binance/ws_client.go:216-231 | there is a value if and only if, going back from the newest sample, a positive price comes before a sample that is too old |
| `PriceHistory.CutoffIs` | market-maker-service/internal/binance/ws_client.go:209-216 | the window reaches back the seconds asked for, or 45 if none are |
| `PriceHistory.StampIs` | market-maker-service/internal/binance/ws_client.go:274-278 | a message without an exchange time is stamped with the clock |
| `PriceHistory.KeptMissesOldPrefix` | market-maker-service/internal/binance/ws_client.go:284-293 | what pruning has removed is always a prefix older than five minutes |
| `PriceHistory.PruningInvisible` | market-maker-service/internal/binance/ws_client.go:206-232 | for windows up to 300 s, as durations, the pruned and the full history give the same value and flag, in any arrival order and with any exchange times |
| `PriceHistory.PruningInvisibleExactlyWhen` | market-maker-service/internal/binance/ws_client.go:206-293 | that is so for all arrivals if and only if the duration is at most 300 s; for windows that do not overflow, if and only if the window is |
| `PriceHistory.LongWindowSeesPruning` | market-maker-service/internal/binance/ws_client.go:284-293 | arrivals that a longer window tells apart |
| `PriceHistory.WrappedWindowLooksAhead` | market-maker-service/internal/binance/ws_client.go:216 | at 9223372037 s the duration wraps and the cutoff lies in the future |
| `PriceHistory.RuntimeWindowIsShort` | market-maker-service/internal/market/aggregator.go:122-126 | every window the runtime parameters can set is short enough, given the configured one is |
| `PriceHistory.TwapWithinWindowPrices` | market-maker-service/internal/binance/ws_client.go:216-231 | the value lies between any bounds on the prices in the window |
| `PriceHistory.WalkIsWindowExactlyWhen` | market-maker-service/internal/binance/ws_client.go:219-227 | over positive prices the walk adds up the whole window if and only if no sample in the window precedes one too old for it |
| `PriceHistory.StoredPricesArePositive` | market-maker-service/internal/binance/ws_client.go:178-282 | the client stores positive prices only |
| `PriceHistory.LateSampleHidesWindow` | market-maker-service/internal/binance/ws_client.go:219-231 | arrivals after which a late old sample leaves GetTWAP without a value although the window holds a price |
| `PriceHistory.SortedWalkIsWindow` | market-maker-service/internal/binance/ws_client.go:219-227 | for samples in time order the walk visits exactly the window |
| `Positions.Store.UpdateAccountPositions` | market-maker-service/internal/execution/service.go:388-406 | the value column after one result, with either write failing |
| `Positions.Store.BumpPosition` | market-maker-service/internal/execution/service.go:408-425 | read, add and upsert one row, if nothing comes in between |
| `Positions.ConservedExactlyWhen` | market-maker-service/internal/execution/service.go:399-405 | a result keeps the total value if and only if both writes succeed, both fail, or its notional is zero |
| `Positions.TotalStaysZero` | market-maker-service/internal/execution/service.go:388-424 | after any sequence of results persisted one at a time the values sum to 0 |
| `Positions.ResultMovesNotional` | market-maker-service/internal/execution/service.go:427-450 | a result moves its notional between the two different tokens of its pair and touches no other |
| `Positions.ResultMoves` | market-maker-service/internal/execution/service.go:388-406 | what every result does to every token, from its status, amount and action |
| `Positions.TokensAre` | market-maker-service/internal/execution/service.go:427-450 | the tokens of each configured instrument, and of any other |
| `Positions.BumpShiftsTotal` | market-maker-service/internal/execution/service.go:408-425 | a bump shifts the total by its delta |
| `Positions.WriteMovesTotal` | market-maker-service/internal/execution/service.go:408-425 | a write is off by exactly what happened to its row since the read |
| `Positions.MovesByDeltaExactlyWhen` | market-maker-service/internal/execution/service.go:408-425 | a step moves the total by what it was meant to if and only if its row still holds the value read |
| `Positions.TotalTracksExactlyWhen` | market-maker-service/internal/execution/service.go:408-425 | over every interleaving of reads and writes, the total is what the writes were meant to add at all times if and only if every write finds its row as read |
| `Positions.ExclusiveRowsKeepTotal` | market-maker-service/internal/execution/service.go:388-425 | that holds if no row is read while another bump of it is pending |
| `Positions.InterleavedResultsLoseValue` | market-maker-service/internal/execution/service.go:388-450 | two results of instruments that share the USDT row, both reading it before either writes, leave the total off by a notional |
| `Positions.InterleavedBumpsLoseValue` | market-maker-service/internal/execution/service.go:408-425 | two overlapping bumps of one row lose the first delta, from any book |
| `AuditQueue.Pipeline.Enqueue` | market-maker-service/internal/execution/async_audit.go:82-114 | pushed on the left, or handed to the persist step at once if the push fails |
| `AuditQueue.Pipeline.TakeNext` | market-maker-service/internal/execution/async_audit.go:123-133 | takes the rightmost envelope, or nothing; an envelope whose reply does not arrive is lost |
| `AuditQueue.Pipeline.PersistSync` | market-maker-service/internal/execution/service.go:286-366 | an envelope handed to the persist step is stored, or dropped if an insert fails |
| `AuditQueue.Pipeline.PersistHand` | market-maker-service/internal/execution/async_audit.go:137-153 | the envelope one consumer holds goes to the persist step, or is lost if it does not decode |
| `AuditQueue.EveryEnvelopeAccounted` | market-maker-service/internal/execution/async_audit.go:82-155 | at all times every envelope is in exactly one of queue, hand, stored, dropped by a failed insert, and lost on the way, with its multiplicity |
| `AuditQueue.NothingDroppedExactlyWhen` | market-maker-service/internal/execution/async_audit.go:82-155 | nothing is dropped or lost if and only if no event fails an insert, loses a reply or meets an undecodable payload |
| `AuditQueue.PersistOrderIsEnqueueOrder` | market-maker-service/internal/execution/async_audit.go:106-155 | without fallbacks, lost replies and undecodable payloads, and with the envelope popped first persisted first, envelopes reach the persist step in the enqueue order, for any number of consumers |
| `AuditQueue.OneConsumerKeepsOrder` | market-maker-service/internal/execution/async_audit.go:116-155 | a single consumer does so by itself |
| `AuditQueue.OrderKeptExactlyWhen` | market-maker-service/internal/execution/async_audit.go:82-155 | from a state in order, a step keeps what was tried a prefix of what was handed over if and only if what it hands to the persist step is, or equals, the first envelope on its way |
| `AuditQueue.TwoConsumersReorder` | market-maker-service/internal/execution/async_audit.go:116-155 | two consumers turn two envelopes round |

## Left out

- Nonces.RunKeepsInv: nonces are unbounded naturals; the wrap-around of uint64 is not modelled, because EIP-2681 bounds an account's nonce below 2^64 - 1. That an answering node's pending count includes every accepted transaction is a hypothesis (HonestRun). Nobody else sends from the account, and a node never drops an accepted transaction again.
- Nonces.AcknowledgesExactlyWhen: error messages are lower-cased as ASCII text.
- RunLock.TimelyHoldersExclude: a lock call that reports an error has not set the key, and a deletion takes effect at once or not at all.
- RiskGuard.Guard.Allow: a field read without the mutex is read whole; a torn read is not modelled. Overrides of the limits between reads appear as arbitrary limits.
- RiskGuard.Guard.CheckBreakers: snapshots with a nil instrument are not modelled.
- Strategy.EmittedDecisionIsSound: the difference of two clock readings does not saturate at 292 years.
- LiveKlines.RunRefinesGroups: the second, insert-only table of prices is not modelled, nor are failing writes.
- Klines.GetPrices: the table is the list of the pair's rows in time order; errors of the query are not modelled.
- AuditQueue.EveryEnvelopeAccounted: a push that reports an error has pushed nothing; a payload that decodes to an unknown or empty envelope counts as one that does not decode; an envelope with several inserts counts as stored if all of them succeed.
- PriceHistory.Client.GetTWAP: a configured window is converted through float64 exactly, and the monotonic clock is the wall clock.
- Settlement.Settle: the executors return submitted or failed, so the branch for an already confirmed result is not modelled; the result is persisted at once, as with Redis off.
- Positions.TotalStaysZero: only the value column; the amount column mixes raw and whole units and is formatted to ten decimals.
- TwapSlices.ExecuteTwap: an executor's on-chain part (approval, preflight, broadcast) is one arbitrary success or failure, and the pause between slices only its cancellation.
- Floating-point rounding and `Math.log` tick estimates: reals instead.
- RPC, WebSocket, HTTP, SQL and Redis mechanics, ABI packing, hashing, signing and JSON: foreign calls, seen only through their outcomes.
- The final status of trades: confirmation starts before the trade row is written, so the code does not decide it.
- The cooldown across interleaved snapshots: deciding and acquiring are separate steps; the cooldown is stated for one evaluation.
- Read failover wrappers, configuration loading, authentication, quality labels and report merging: they would only add easy members.
- The user console and the ERC-20 contracts: a user interface, and thin wrappers of library code.
