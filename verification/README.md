# Verified model of the trading SDK

A Dafny 4.11 model of the parts of `trading_aggregator` where money amounts, instruction lists and
submission order have to be right, with proofs of what those parts guarantee. `dafny verify
dfyconfig.toml` checks everything.

The model follows the program's own structure:

| module | models |
|---|---|
| `Types`, `Arithmetic`, `Bytes`, `Subsequences` | fixed-width integers with explicit wrap-around, rounded division, little- and big-endian byte strings, lists decoded element by element |
| `SolanaTypes`, `Transactions` | keys, instructions and their builders, trades, quotes, compiled transactions with the in-place reimbursement edit |
| `SdkFees`, `ProviderFees`, `GasSponsors`, `SponsorCost`, `Routing` | the fee pipeline: reserve, route, charge, finalize |
| `ComputeBudget`, `Executor` | budget requests inside instruction lists; building, patching, signing and submitting a transaction |
| `Settlement`, `SponsoredRoutes` | ledgers: what the submitted instructions do to USDC and lamports, with and without a sponsor |
| `ConstantProduct`, `PumpFunQuotes`, `PumpSwapQuotes` | the integer pool arithmetic, over runs of trades and against the Pump.fun program's published formula |
| `EvmTypes`, `RelayQuotes`, `UniswapV2` | 256-bit amounts, slippage under output-side fees, the pair quote |
| `RelayTransactions`, `EvmExecution` | Relay's step decoder with approval bounding; the submission protocol against an arbitrary node, signer and submitter |
| `LookupTable` | resumable population of a shared address lookup table |

How the outside world appears: provider answers, simulations, prices, receipts and clock readings
are parameters, and nothing is assumed of them, so each statement covers every behaviour of a
provider, node, signer or submitter. In `EvmExecution` and `LookupTable` the answers along a run are
functions of the call's index, which is the same as an adaptive environment because the run is
deterministic once they are fixed. Where the source mutates a field in a loop or in place, the model
has a class or an array and a method proved equal to a function of the old state; the lemmas are
about that function.

Token-account addresses are a constructor of the key type, so derivation is injective and never hits
a held key. Compiled messages keep their instructions resolved and in order, with the fee payer first
among distinct signers. In the lamport ledger a System instruction takes lamports only from its first
account and an associated-token-account instruction only from its payer; amounts of System calls
other than transfers, and rent, are arbitrary.

Results that differ from what one might expect:

* Splitting one buy into pieces can pay more than the single buy, exactly when the pool's quote
  reserve is zero and it holds more than one token (`ConstantProduct.SplittingNeverPaysExactly`).
* The Pump.fun spend is the program's corrected net SOL or one lamport less, so the quote is never
  below the program's own output, and it stays within the amount, exactly while the two rates' sum
  does not wrap 64 bits or next to nothing is spent (`PumpFunQuotes.SpendTracksIdlExactly`,
  `PumpFunQuotes.BuyStaysWithinAmountExactly`).
* While the rates' sum fits 64 bits the correction branch of PumpSwap buys never changes the result (`PumpSwapQuotes.CorrectionNeverFires`).
* The EIP-1559 tip exceeds its cap exactly when Relay names only a cap and the node's estimated tip is
  above it (`EvmExecution.TipWithinCapExactly`).
* A V0 priority fee within one price step of its budget needs a unit price that fits 64 bits; above
  that, nearly all of the budget is lost to the cast (`Executor.PriorityFeeWithinBudget`).
* Relay's slippage floor is zero once output plus fees leaves 256 bits
  (`RelayQuotes.OverflowRemovesFloor`, `RelayQuotes.FloorGivesUpFeeShareExactly`).
* The estimated gas limit has its headroom exactly while the estimate times twenty fits 64 bits
  (`EvmExecution.GasHeadroomExactly`).
* `Ok` means "all submitted and confirmed" both ways only for a nonempty transaction list: with an
  empty one a wrong chain is still an error (`EvmExecution.ProtocolIsSafe`).
* The executor's comment that sponsorship builds V0 transactions only (src/solana/executor.rs:36) is
  out of date; the proofs cover V0 and V1.

## Model

| member | source | states |
|---|---|---|
| `Settlement.SponsoredConservation` | src/solana/client/routing.rs:36-120 | For every accepted sponsored trade that is finalized and submitted, over every provider, node and price behaviour: the instructions after the route execute on a token ledger, the wallet pays exactly the transferred fee plus the charge, the charge is within the ceiling, every other account is credited exactly its due, a buy costs at most `trade.amount`, a sell brings in at least the quoted, positive minimum |
| `Settlement.UnsponsoredConservation` | src/solana/client/routing.rs:36-120 | For every accepted and submitted trade without a sponsor, in SOL or USDC: the instructions after the route run on both ledgers and change every account's lamports and USDC by exactly the SDK's fee and the tip; network fees and tip apart, a buy costs at most `trade.amount` and a sell brings in at least the quoted, positive minimum |
| `Settlement.AppendedFeeMovesExactly` | src/solana/sdk_fee.rs:128-155 | What preparation appends to an unsponsored route, executed, takes exactly the transferred fee from wallet to recipient, as lamports in a SOL trade and as USDC in a USDC trade, and nothing else |
| `Settlement.TipPays` | src/solana/executor.rs:159-163 | The tip moves exactly its lamports from the fee payer to the tip account |
| `Settlement.SubmittedShape` | src/solana/executor.rs:99-149 | The submitted instructions are budget prefix, kept route, SDK fee, reimbursement at exactly the charge reported to the caller, then the tip; the charge is at most the reserved ceiling |
| `Settlement.BuiltShape` | src/solana/executor.rs:151-199 | Before finalization the built message ends in the fee tail at the full ceiling and the tip, for V0 and V1 and any placement of budget requests in the route |
| `Settlement.PreparedIsRouteThenFees` | src/solana/client/routing.rs:100-120 | Preparation only appends: the accepted route, then the fee transfers at the ceiling that the quote reports |
| `Settlement.FeeTailExecutes` | src/solana/sdk_fee.rs:158-185 | The fee tail executes whenever the wallet holds both fees and changes exactly the wallet and the two recipients, also when both recipients are one account |
| `Settlement.FeeMovesAmount` | src/solana/sdk_fee.rs:158-185 | One USDC fee to somebody else moves exactly its amount, creating the recipient's account if needed |
| `Settlement.RecipientsDiffer` | src/solana/gas_sponsor/mod.rs:72-89 | No accepted sponsored trade pays a fee to the trading wallet itself or lets it be its own sponsor |
| `Settlement.SubmissionIsFullySigned` | src/solana/executor.rs:124-140 | The signers of a sponsored submission are exactly sponsor and wallet, both signatures are over the message that carries the final charge, and that signed message is what was submitted |
| `SponsoredRoutes.SponsoredSwapSparesWallet` | src/solana/sources/mod.rs:197-233 | In every submitted sponsored bloXroute or Relay swap, fees, reimbursement and tip included, no top-level System or token-account instruction takes lamports from the trading wallet |
| `SponsoredRoutes.AdapterSparesWallet` | src/solana/sources/relay/mod.rs:190-222 | The same for the route part alone, over every provider response either adapter accepts |
| `SponsoredRoutes.MovedSparesWallet` | src/solana/sources/mod.rs:197-233 | An instruction that passes the rent check costs the wallet no lamports, whatever rent is and however other System calls decode |
| `SponsoredRoutes.BloxrouteInOrder` | src/solana/sources/bloxroute.rs:142-171 | An accepted list is the configuration, the fee account where a provider collects, every setup instruction in order and with only its payer replaced, and the swap last |
| `SponsoredRoutes.BloxrouteAcceptedExactly` | src/solana/sources/bloxroute.rs:142-171 | A response is accepted if and only if its settings are in range, each setup instruction can be taken and the swap is bloXroute's, signable and signed by the wallet |
| `SponsoredRoutes.RelayInOrder` | src/solana/sources/relay/mod.rs:190-222 | An accepted list is the response's instructions in order, unchanged but for a moved payer, without the limit and price requests, and then the configuration |
| `SponsoredRoutes.RelayAcceptedExactly` | src/solana/sources/relay/mod.rs:190-222 | A response is accepted if and only if chain and version fit, every instruction can be taken, a kept one still needs the wallet's signature, and the settings are in range |
| `SponsoredRoutes.BloxrouteBudgetIsItsConfig` | src/solana/sources/bloxroute.rs:142-171 | A bloXroute route's budget requests are exactly its configuration, so V1 always takes them, field by field |
| `SponsoredRoutes.RelayBudgetFailsOnlyOnDuplicates` | src/solana/sources/mod.rs:176-193 | After the filter every budget request of an accepted Relay route is readable; V1 refuses it exactly on a field requested twice |
| `SponsoredRoutes.CollectBloxroute` | src/solana/sources/bloxroute.rs:142-171 | The loop collects config, fee setup, moved setup instructions and the swap as specified, with the same refusals |
| `SponsoredRoutes.CollectRelay` | src/solana/sources/relay/mod.rs:190-222 | The loop collects the moved, filtered instructions and then the config as specified, with the same refusals |
| `Routing.BuySplitsAmountExactly` | src/solana/client/routing.rs:68-77 | On a buy, routed amount plus transferred fee plus reserved ceiling is exactly the trade's amount, and a positive amount is routed |
| `Routing.SellKeepsSlippageGap` | src/solana/client/routing.rs:101-120 | On a sell, fee and ceiling come off expectation and minimum alike, so the route's slippage gap survives and the minimum stays positive |
| `Routing.SellGapWithinSlippage` | src/solana/client/routing.rs:101-120 | For every source, aggregator, bonding curve or pool: from its numbers to the final sell quote, expected minus minimum is at most the slippage share of the route's expectation, rounded up, and the minimum is positive |
| `Routing.SourceQuoteGap` | src/solana/dexes/common.rs:169-171 | Whatever prices it, a source's quote gives up at most the slippage share of its expectation, rounded up |
| `Routing.ValidatedQuoteGap` | src/solana/sources/mod.rs:32-57 | A provider's quote is accepted if and only if it spends the traded amount and its positive minimum gives up at most the slippage share of its expectation, rounded up; it is then reported unchanged |
| `Routing.FeeIsChargedOnce` | src/solana/client/routing.rs:44-55 | Never both fees: an SDK transfer only on a route that charged none, at its share of gross input or route expectation; beside a provider-collected fee nothing is transferred |
| `Routing.PlansExactly` | src/solana/client/routing.rs:68-135 | A trade is planned if and only if it is valid, its source (its own choice, else the client's, else its venue's, else Relay) can settle and collect as asked, payer and recipients differ and a buy leaves something to route; then exactly one party collects the fee |
| `Routing.PreparesExactly` | src/solana/client/routing.rs:36-66 | A planned trade is prepared if and only if its source answers with instructions and a positive, ordered quote for the routed amount, without fees nobody asked for, and a sell's minimum exceeds the fees to come |
| `Routing.PreparedQuote` | src/solana/client/routing.rs:101-120 | Preparation keeps the venue fee and a buy's outputs as the route quoted them, and reports the trader's amount and the ceiling |
| `Routing.PrepareSelectedSwap` | src/solana/client/routing.rs:36-66 | Preparation succeeds exactly when the specified pipeline does and leaves the specified quote and instructions |
| `Routing.AppendFees` | src/solana/client/routing.rs:101-120 | The in-place charging of both fees yields the specified swap or refusal |
| `SdkFees.ApplyWithPayer` | src/solana/sdk_fee.rs:103-155 | The field updates and appended instructions equal the specified charged swap, or the specified refusal |
| `SdkFees.FeeAmountBounds` | src/solana/sdk_fee.rs:85-87 | The fee is the exact floor of its share and below any positive basis, so no subtraction underflows |
| `GasSponsors.ApplyToSwap` | src/solana/gas_sponsor/mod.rs:91-112 | The quote updates and the appended reimbursement equal the specified swap, or the specified refusal |
| `GasSponsors.NewSponsorIsSound` | src/solana/gas_sponsor/mod.rs:25-66 | Exactly the nonzero wallets can sponsor, are reimbursed themselves under the default ceilings, and keep a sound policy however it is then configured |
| `SponsorCost.FinalizedExactly` | src/solana/gas_sponsor/cost.rs:73-165 | Finalization yields a charge and patched instructions if and only if the payer's first balance falls by one and the same amount in both simulations, the second of the patched instructions, at least the network fee and within the cost cap, the price is usable at both checks, and the charge is the service fee plus the least USDC covering that loss, within its cap |
| `SponsorCost.FinalizedChargeIsLeastCovering` | src/solana/gas_sponsor/cost.rs:73-165 | Every finalized charge covers, to the unit, a loss that both simulations show, and is at least the service fee |
| `SponsorCost.BuiltPolicyIsSound` | src/solana/gas_sponsor/cost.rs:36-71 | After construction and any sequence of accepted builder calls the service fee is below the USDC cap and the cost cap positive |
| `SponsorCost.BuildersKeepPolicySound` | src/solana/gas_sponsor/cost.rs:54-71 | The same as an invariant of every builder call |
| `SponsorCost.PolicyHoldsLastCalls` | src/solana/gas_sponsor/cost.rs:54-71 | After any accepted builder calls the policy holds what the last call of each kind set |
| `SponsorCost.FinalizeFee` | src/solana/gas_sponsor/cost.rs:73-95 | The sequenced simulation, patch, second simulation and recheck equal the specified result; on success the transaction holds the patched instructions |
| `Transactions.PatchIsPositional` | src/solana/gas_sponsor/cost.rs:167-193 | The patched amount reads back little-endian as the charge; program, accounts, tag and decimals stay, every other instruction is untouched even with equal bytes, and a lowered amount cannot be patched again |
| `Transactions.PatchAcceptedExactly` | src/solana/gas_sponsor/cost.rs:167-193 | A patch is accepted if and only if it addresses a checked transfer of the reserved amount with six decimals, for a charge no larger |
| `Transactions.VersionedTransaction.ReplaceReimbursement` | src/solana/gas_sponsor/cost.rs:167-193 | The byte-by-byte overwrite yields the specified instructions and changes nothing when it refuses |
| `ProviderFees.SellFeeAcceptedExactly` | src/solana/provider_fee.rs:40-56 | A sell fee is accepted exactly when it is at the requested rate, solves the fixed-point equation, equivalently lies in the band around net·rate, and the gross fits 64 bits |
| `ProviderFees.SellFeeIsSolvable` | src/solana/provider_fee.rs:40-56 | For every net output and rate below the whole the equation has a solution; the largest is given |
| `ProviderFees.FixedPointIffInBand` | src/solana/provider_fee.rs:48-49 | The equation over all amounts is the two-sided bound `a·kept <= n·b < a·kept + 10000` |
| `ProviderFees.BuyFeeAcceptedExactly` | src/solana/provider_fee.rs:40-56 | A buy fee is accepted exactly when it is at the requested rate and leaves less than one unit of that share of the input uncharged, and it never consumes a positive input |
| `Executor.IndexFindsLastInstruction` | src/solana/executor.rs:325-343 | In either format, with or without tip and wherever budget requests stood, the compiled instruction at the computed index is the route's last one |
| `Executor.BuildTransaction` | src/solana/executor.rs:151-199 | Building succeeds exactly as specified and yields the specified message, unsigned |
| `Executor.BuiltMessage` | src/solana/executor.rs:151-199 | Read from its bytes: a V0 message starts with the limit and a price worth the budgeted fee, a V1 header carries limit, fee and the route's requests; the rest of the route and the tip follow. Building fails exactly when the requests, the node or a size check refuse it |
| `Executor.V1HeaderCarriesConfig` | src/solana/executor.rs:191-194 | A provider's settings encoded anywhere in a V1 route arrive in the header as asked, and the message carries exactly the route's own instructions and the tip |
| `Executor.PriorityFeeWithinBudget` | src/solana/executor.rs:179-187 | The fee the runtime charges for price times limit never exceeds the budget, and falls short of it by less than one price step if and only if the unit price fits 64 bits |
| `Executor.PriceOverflows` | src/solana/executor.rs:182-183 | The counterexample: a budget whose unit price leaves 64 bits is charged one lamport |
| `Executor.SignersAreExactlyUserAndPayer` | src/solana/executor.rs:56-69 | A message is accepted for signing exactly when every required signer is the wallet or the payer and the wallet is one; signer order and index are then fixed |
| `Executor.UnsponsoredSubmission` | src/solana/executor.rs:99-149 | Without a sponsor a swap is submitted exactly when it builds, asks for no signature but the wallet's, is signed and taken; what is submitted is the built message under the wallet's signature, and the quote's fees are reported |
| `Executor.SponsoredSubmission` | src/solana/executor.rs:99-149 | With a sponsor it is submitted exactly when it also has a transfer to patch, finalizes, and both sign; what is submitted is the finalized message, sponsor's signature first, and the charge is reported |
| `Executor.SubmissionIsSigned` | src/solana/executor.rs:71-86 | Whoever pays, there is one signature per required signer: the sponsor's first if there is one, the wallet's everywhere else, over the message the submitter received |
| `Executor.SignTransaction` | src/solana/executor.rs:71-86 | The signatures written in place equal the specified ones, or the specified refusal |
| `Executor.SubmitSwap` | src/solana/executor.rs:99-149 | Index, build, signer check, finalize, sign and submit, in that order, equal the specified submission or error |
| `ComputeBudget.BudgetRoundTrip` | src/solana/executor.rs:211-235 | Wherever encoded settings stand in a route, V1 takes back exactly those settings and leaves exactly the route's own instructions in order |
| `ComputeBudget.BudgetRoundTripAtEitherEnd` | src/solana/sources/mod.rs:132-174 | Settings put before or after a route without budget requests come back unchanged, and so does the route |
| `ComputeBudget.TakeFailsExactlyOnDuplicates` | src/solana/executor.rs:211-261 | On readable budget instructions a route is refused exactly when it requests a field twice, for V1; for V0 exactly on a second compute-unit limit |
| `ComputeBudget.TakenIsAskedFor` | src/solana/executor.rs:211-261 | What is taken is what the route's bytes ask for, each field once, and exactly the asking instructions are removed, in either format |
| `ComputeBudget.ConfigAcceptedExactly` | src/solana/sources/mod.rs:132-174 | Settings are accepted if and only if each is absent or in the runtime's range |
| `ComputeBudget.LimitCoversRequest` | src/solana/executor.rs:169-174 | Whatever was simulated, the final limit is in 1..1,400,000, at least the request and at least the simulated units within range |
| `ComputeBudget.LimitIsLeast` | src/solana/executor.rs:169-174 | No smaller limit would do: it is the request, the estimate within range, or the default for want of one |
| `ComputeBudget.Route.Take` | src/solana/executor.rs:211-235 | The scan and the two filters yield the specified requests and remaining instructions, or the specified refusal |
| `ComputeBudget.Route.TakeComputeUnitLimit` | src/solana/executor.rs:350-375 | The scan yields the specified limit and removes exactly the limit requests; on refusal the list is unchanged |
| `ConstantProduct.OutputIsLargestAffordable` | src/solana/dexes/common.rs:143-148 | An output lies strictly below its nonzero reserve, is the largest the invariant can pay, and loses nothing to the 64-bit cast |
| `ConstantProduct.OutputWithinReserve` | src/solana/dexes/common.rs:143-155 | Outputs never exceed their reserve, and the two quote directions are one formula with the reserves exchanged |
| `ConstantProduct.OutputMonotone` | src/solana/dexes/common.rs:143-148 | More input never yields less output |
| `ConstantProduct.RunKeepsProductAndTotals` | src/solana/dexes/common.rs:143-155 | Over any run of buys and sells the reserve product never falls, a stocked side never empties, and pool plus trader hold constant totals |
| `ConstantProduct.NoFreeQuote` | src/solana/dexes/common.rs:143-155 | A trader who ends a run with at least the initial tokens has not gained quote currency |
| `ConstantProduct.TwoBuysNeverBeatOne` | src/solana/dexes/common.rs:143-148 | Two consecutive buys never yield more than one buy of their sum |
| `ConstantProduct.SplittingNeverPaysExactly` | src/solana/dexes/common.rs:143-148 | Splitting a buy into any pieces never pays, if and only if the quote reserve is nonzero or at most one token is left |
| `ConstantProduct.SplitOfEmptyQuoteReserve` | src/solana/dexes/common.rs:144-146 | The counterexample: against an empty quote reserve two unit buys take half the tokens while the single buy takes none |
| `ConstantProduct.SlippageDownIsCeiling` | src/solana/dexes/common.rs:169-171 | The minimum after slippage is the kept share rounded up, never above the expectation |
| `ConstantProduct.FeesFit` | src/solana/dexes/common.rs:157-163 | The casts in the rounded fees lose nothing if and only if the fee fits 64 bits |
| `ConstantProduct.BuyBackCostsAtMost` | src/solana/dexes/common.rs:143-155 | Selling at most the tokens a deposit pays for returns at most the deposit |
| `PumpFunQuotes.BuyStaysWithinAmountExactly` | src/solana/dexes/pumpfun/mod.rs:270-273 | For all amounts and rates, the curve input plus both fees, each rounded up, is within the amount if and only if the rates' 64-bit sum does not wrap, or no lamport goes in, or one does whose fees the amount covers |
| `PumpFunQuotes.WrappedRatesOverspend` | src/solana/dexes/pumpfun/mod.rs:270-273 | The counterexample: rates of 2^63 each wrap to zero, and two lamports buy one lamport of input that owes fees beyond the amount |
| `PumpFunQuotes.SpendTracksIdlExactly` | src/solana/dexes/pumpfun/idl.json:924-928 | Under the same condition, and only then, the curve input is the program's corrected net SOL or one less |
| `PumpFunQuotes.BuyQuoteTracksIdl` | src/solana/dexes/pumpfun/mod.rs:269-289 | Under that condition a quoted buy lies between the program's own output and its output for one lamport more, capped by the real reserves; the fee is the amount less one of those two spends, and the minimum the kept share rounded up |
| `PumpFunQuotes.SellPaysGrossLessFees` | src/solana/dexes/pumpfun/mod.rs:291-310 | At any rates, a sell charges both fees, rounded up, if and only if their sum fits 64 bits, and fee and payout make up the gross if and only if it covers them; rates within the whole owe at most one lamport more than the gross |
| `PumpFunQuotes.RoundTripNeverProfits` | src/solana/dexes/pumpfun/mod.rs:260-313 | At any rates, buying and selling straight back returns at most the amount less the quoted buy fee |
| `PumpSwapQuotes.BuyStaysWithinAmount` | src/solana/dexes/pumpswap/mod.rs:356-365 | Net input plus three floored fees stays within the amount, so the correction never fires and nothing overflows; the dust is below four units plus the total rate |
| `PumpSwapQuotes.QuoteIntoPool` | src/solana/dexes/pumpswap/mod.rs:356-365 | The reassigned pool input equals the specified one, correction branch and wrap-around included |
| `PumpSwapQuotes.CorrectionNeverFires` | src/solana/dexes/pumpswap/mod.rs:362-365 | While the rates' sum fits 64 bits, the corrected pool input is the uncorrected quotient |
| `PumpSwapQuotes.ComputeQuote` | src/solana/dexes/pumpswap/mod.rs:341-400 | The computed quote equals the specified one on both sides |
| `PumpSwapQuotes.BuyFeeCoversThreeFees` | src/solana/dexes/pumpswap/mod.rs:355-381 | The quoted buy fee covers the three fees on the net input, by less than four units plus the total rate, and all but one unit of that input is priced |
| `PumpSwapQuotes.SellPaysGrossLessFees` | src/solana/dexes/pumpswap/mod.rs:382-398 | A sell charges three floored fees if and only if their sum fits 64 bits; fee and payout make up the gross if and only if it covers them, which rates within the whole guarantee |
| `PumpSwapQuotes.RoundTripNeverProfits` | src/solana/dexes/pumpswap/mod.rs:341-400 | At any rates, buying and selling straight back returns at most what the pool retained of the buy |
| `PumpSwapQuotes.EffectiveQuoteReserves` | src/solana/dexes/pumpswap/mod.rs:58-64 | Accepted exactly when the signed sum fits 64 bits, and then loses nothing |
| `EvmTypes.PortionIsFloor` | src/evm/types.rs:128-133 | Up to the whole amount the divided-first product is the exact floor |
| `EvmTypes.PortionIntermediatesFit` | src/evm/types.rs:128-133 | No intermediate product exceeds the amount or 10^8, so nothing leaves 256 bits |
| `RelayQuotes.FloorAntitone` | src/evm/sources/relay/mod.rs:122-126 | More output-side fees never raise the floor, and it never exceeds the plain slippage minimum |
| `RelayQuotes.FloorGivesUpFeeShareExactly` | src/evm/sources/relay/mod.rs:122-126 | The floor is below the plain minimum by at most the slippage share of the fees, rounded up, if and only if output plus fees fits 256 bits or that share covers the whole minimum |
| `RelayQuotes.OverflowRemovesFloor` | src/evm/sources/relay/mod.rs:122-126 | Once output plus fees leaves 256 bits the floor is zero |
| `RelayQuotes.AcceptedQuoteProtects` | src/evm/sources/relay/mod.rs:85-119 | An accepted quote spends the traded amount, promises a positive minimum, and while amounts fit keeps it within slippage of the output before fees, less the fees |
| `RelayQuotes.QuoteReportsExactly` | src/evm/sources/relay/mod.rs:74-171 | A response becomes a quote if and only if it matches the request and the quote reports its output and minimum in the trade's currencies, at or above the floor, with the application fee that was asked for |
| `RelayQuotes.InputFeeMatchesRate` | src/evm/sources/relay/mod.rs:138-171 | A requested app fee reported in the input currency is its share of the amount, rounded down |
| `UniswapV2.QuoteIsOptimal` | src/evm/dexes/uniswap/v2.rs:41-51 | The quote is the largest output the pair's fee-adjusted invariant accepts, one unit more fails, and it is below the output reserve |
| `UniswapV2.ProductsFitPair` | src/evm/dexes/uniswap/v2.rs:49-51 | Against a pair's 112-bit reserves the products fit 256 bits for every input below 2^134 |
| `UniswapV2.QuoteMonotone` | src/evm/dexes/uniswap/v2.rs:49-51 | More input never yields a smaller quote |
| `RelayTransactions.EveryPrefixStaysWithinTrade` | src/evm/sources/relay/transactions.rs:25-68 | Stopped anywhere and with any of its transactions reverted, an accepted response changes only this trade's allowances for Relay's contracts, to zero or the traded amount, until its swap lands; it spends no native currency before that and exactly the trade's native input with it |
| `RelayTransactions.DecodedResponse` | src/evm/sources/relay/transactions.rs:25-68 | Every accepted response is zero to two bounded approvals, then exactly one swap from the wallet to one of Relay's contracts; native input has no approvals |
| `RelayTransactions.DecodedInOrder` | src/evm/sources/relay/transactions.rs:25-68 | The result is exactly the unfinished items' transactions in step and item order; target, calldata, value, gas and every fee field as sent, except the allowance bytes of a nonzero approval |
| `RelayTransactions.ResponseAcceptedExactly` | src/evm/sources/relay/transactions.rs:25-68 | A response is accepted if and only if it is one swap step, or one approval step and then one swap step, each of whose unfinished items carries a permitted transaction |
| `RelayTransactions.ItemCarriesExactly` | src/evm/sources/relay/transactions.rs:54-146 | An item yields a transaction if and only if it carries it, field by field |
| `RelayTransactions.ApprovalsWriteOnlyTradeEntries` | src/evm/sources/relay/transactions.rs:120-146 | Any bounded approvals, whichever take effect, write only input-token, wallet, Relay-contract entries, with zero or the traded amount, and send no value |
| `RelayTransactions.ApprovalRoundTrip` | src/evm/sources/relay/transactions.rs:120-146 | A bounded approval re-parses to the same selector and spender, 68 bytes, allowance zero or the traded amount over all 256 bits, and a second validation changes nothing |
| `RelayTransactions.ValidateApproval` | src/evm/sources/relay/transactions.rs:120-146 | Accepts exactly the approvals of the input token to Relay's contracts with zero or sufficient allowance, and rewrites the buffer to the bounded approval |
| `RelayTransactions.DecodeLoop` | src/evm/sources/relay/transactions.rs:25-68 | The nested loops over steps and items yield the specified decoding or refusal |
| `EvmExecution.ProtocolIsSafe` | src/evm/execution.rs:15-74 | On every run, whatever node, signer and submitter do: the log is the in-order list of verified hashes of a prefix; each submit call carries the prepared call signed by the wallet, after its hash was recorded and every earlier transaction confirmed, none twice; at most the last entry is unconfirmed; success exactly when all were submitted and confirmed |
| `EvmExecution.EverySubmissionIsFilledIn` | src/evm/execution.rs:47-137 | Every submit call carries, decoded from its bytes, the prepared target, value and calldata, the node's nonce for it, the provider's or the node's gas limit and fees with headroom and a cap no lower than the tip it was raised for, signed by the wallet while the quote was under 60 seconds old; the hash logged before it is theirs |
| `EvmExecution.RunSucceedsExactly` | src/evm/execution.rs:34-74 | A run succeeds if and only if quote, node and client agree on the chain and each transaction is in time, faithfully signed, reported under its own hash and confirmed before the timeout |
| `EvmExecution.SignedExactly` | src/evm/execution.rs:54-59 | What is signed for a transaction is accepted if and only if it decodes to that transaction filled in, with nothing left over and the wallet as signer |
| `EvmExecution.FillExactly` | src/evm/execution.rs:86-137 | Filling in has exactly one outcome, described field by field, and fails if and only if there is none |
| `EvmExecution.EveryRunIsSafe` | src/evm/execution.rs:47-73 | The same as an invariant of the loop from any transaction on |
| `EvmExecution.OneSubmission` | src/evm/execution.rs:54-71 | One iteration records before it submits, reads receipts of its own transaction only, and succeeds exactly on a successful receipt |
| `EvmExecution.SentIsPrepared` | src/evm/execution.rs:47-73 | At any moment of any run, decoding the bytes submitted so far and carrying them out has exactly the effects of a leading part of the prepared list, whichever submissions land |
| `EvmExecution.EachSubmitFollowsEffects` | src/evm/execution.rs:60-71 | While receipts are true, a transaction is submitted into the state in which exactly the ones before it have taken effect |
| `EvmExecution.RelayRunStaysWithinTrade` | src/evm/execution.rs:34-74 | At any moment of any run of a Relay response, the bytes submitted so far, decoded and carried out wherever they land, changed only this trade's allowances and spent no native currency until the swap landed, which spends exactly the trade's value; success means the swap was submitted and, under true receipts, landed |
| `EvmExecution.TipWithinCapExactly` | src/evm/execution.rs:111-137 | For consistent fee fields the tip is within the cap if and only if Relay did not name only a cap below the estimated tip |
| `EvmExecution.GasHeadroomExactly` | src/evm/execution.rs:88-95 | The estimated limit is 120 percent rounded down if and only if the intermediate product fits 64 bits |
| `EvmExecution.Execution.ExecuteTransactions` | src/evm/execution.rs:34-74 | The loop's result, log and observed events equal the specified run |
| `EvmExecution.Execution.SubmitAndConfirm` | src/evm/execution.rs:60-71 | Recording, submitting, comparing and confirming append exactly the specified log entry and events |
| `EvmExecution.Execution.FillSignVerify` | src/evm/execution.rs:54-59 | Fill, sign and verify yield the specified bytes and hash or error |
| `EvmExecution.Execution.Confirm` | src/evm/execution.rs:139-158 | The poll loop ends as specified: success, revert, node error or timeout |
| `LookupTable.ResumptionReachesTarget` | examples/create_shared_alt.rs:92-140 | However often and wherever runs are cut short, the next complete run ends with stored addresses then missing ones in desired order, nothing appended twice, within capacity, with exactly the funded number of sends |
| `LookupTable.RunsStayOnTarget` | examples/create_shared_alt.rs:92-140 | After any number of runs the table is a leading part of that same target |
| `LookupTable.OneRun` | examples/create_shared_alt.rs:116-140 | One run never sends more than it funded, and a complete one sends exactly that |
| `LookupTable.RunCompletesExactly` | examples/create_shared_alt.rs:92-140 | A run completes if and only if the table is its own, the target fits, it is funded, every send it paid for is confirmed and the table becomes active; one that is not admitted sends nothing |
| `LookupTable.RunLeavesLanded` | examples/create_shared_alt.rs:116-140 | A run stops at its first unconfirmed send and leaves exactly what landed, in chunks of twenty |
| `LookupTable.MissingInOrder` | examples/create_shared_alt.rs:97-101 | The missing addresses are a subsequence of the desired ones in their order; those left out are stored |
| `LookupTable.DeduplicatedIsDistinct` | src/solana/lookup_table.rs:31-32 | Deduplication keeps every address once and adds none |
| `LookupTable.DeduplicatedInOrder` | src/solana/lookup_table.rs:31-32 | Each address stays at its first occurrence, in the order of the list |
| `LookupTable.Table.PopulateTable` | examples/create_shared_alt.rs:92-140 | The chunk loop against the on-chain table equals the specified run |

## Left out

- HTTP, JSON, base58 and base64 decoding, number parsing from strings, RPC transport: their results are parameters.
- Signature recovery, RLP, account-index compilation and wire sizes: decoding signed bytes, compiling and size limits are oracles; a message carries its instructions resolved. The order of signers beyond the payer is first appearance, which no accepted message depends on.
- Legacy message format in the reimbursement edit: the executor builds V0 and V1 only.
- Token accounts' existence, mint decimals and on-chain failures of the route itself: the ledger starts after the route, with the route's own promise as hypothesis.
- Provider-collected fees inside a route, DFlow and Jupiter instruction decoding: they enter as arbitrary accepted routes.
- Floating point: USD values, spot prices and the 1.2 headroom on simulated units, which is any 32-bit number before clamping.
- Uniswap v3 and v4, pool discovery, Pump account lists: numbers and constants without reasoning in them.
- Confirmation polling and balance reading on Solana, and lookup-table loading and merging: would add only easy members.
- Real time: clock readings are parameters, compared only where the source compares them.
- Panics: sums of fee rates and fees wrap as in a release build, and a debug build's panic on them is not modelled; a zero denominator after 256-bit wrap-around in the pair quote is an error.
- Updates through a reference to a plain value (one instruction's payer account, one decoded transaction) and builder methods that consume the policy return the new value instead; aliasing does not arise there.
- UniswapV2.QuoteIsOptimal: holds while the quote's products fit 256 bits, which `UniswapV2.ProductsFitPair` gives for every real pair and inputs below 2^134; beyond that the wrapped product is not compared with the pair's own arithmetic.
