/** Relay's quote checks of src/evm/sources/relay/mod.rs: the slippage floor under output-side fees. */
module RelayQuotes {
  import opened Types
  import opened Arithmetic
  import opened EvmTypes

  /** One reported fee; its amount is the parsed decimal string, or the parse error. */
  datatype FeeLine = FeeLine(chainId: u64, address: Address, amount: Result<u256>)

  datatype Fees = Fees(relayer: Option<FeeLine>, app: Option<FeeLine>)

  datatype Details = Details(matches: bool, input: Result<u256>, output: Result<u256>, minimum: Result<u256>)

  datatype FeeAmount = FeeAmount(currency: Currency, amount: u256)

  datatype Quote = Quote(
    chainId: u64,
    input: Currency,
    output: Currency,
    inAmount: u256,
    expectedOut: u256,
    minOut: u256,
    applicationFee: Option<FeeAmount>
  )

  /** The minimum of the output with its fees added back, less those fees. */
  function SlippageFloor(trade: Trade, output: u256, feesFromOutput: u256): u256
    requires trade.slippageBps <= 10_000
  {
    SaturatingSub(trade.MinOut(Wrap256(output + feesFromOutput)), feesFromOutput)
  }

  /** Adds a fee line charged in the output currency to the running total. */
  function AddFee(sum: Result<u256>, line: Option<FeeLine>, chainId: u64, output: Address): Result<u256> {
    if sum.Err? || line.None? || line.value.chainId != chainId || line.value.address != output then sum
    else if line.value.amount.Err? then Err(line.value.amount.error)
    else Ok(Wrap256(sum.value + line.value.amount.value))
  }

  function FeesFromOutput(fees: Fees, chainId: u64, output: Address): Result<u256> {
    AddFee(AddFee(Ok(0), fees.relayer, chainId, output), fees.app, chainId, output)
  }

  function AppFeeCharge(fees: Fees, trade: Trade, requestedBps: Option<u16>, chainId: u64)
    : Result<Option<FeeAmount>>
  {
    if fees.app.None? then
      if requestedBps.Some? then Err(DecodeError) else Ok(None)
    else
      var app := fees.app.value;
      var amount :- app.amount;
      if requestedBps.None? then
        if amount == 0 then Ok(None) else Err(DecodeError)
      else if app.chainId != chainId then Err(DecodeError)
      else if app.address == trade.input.Address() && amount != Portion(trade.amount, requestedBps.value) then
        Err(DecodeError)
      else
        Ok(Some(FeeAmount(if app.address == 0 then Native else Token(app.address), amount)))
  }

  function QuoteOf(network: Network, details: Details, fees: Fees, trade: Trade, requestedBps: Option<u16>)
    : Result<Quote>
    requires trade.Valid()
  {
    if !details.matches then Err(DecodeError)
    else
      var input :- details.input;
      var output :- details.output;
      var minimum :- details.minimum;
      var feesFromOutput :- FeesFromOutput(fees, network.chainId, trade.output.Address());
      if input != trade.amount || minimum == 0 || minimum > output
         || minimum < SlippageFloor(trade, output, feesFromOutput)
      then Err(DecodeError)
      else
        var charge :- AppFeeCharge(fees, trade, requestedBps, network.chainId);
        Ok(Quote(network.chainId, trade.input, trade.output, input, output, minimum, charge))
  }

  // ---- the floor

  lemma FloorWithoutOverflow(trade: Trade, output: u256, fees: u256)
    requires trade.slippageBps <= 10_000 && output + fees < U256_LIMIT
    ensures SlippageFloor(trade, output, fees)
         == SaturatingSub(FloorDiv((output + fees) * trade.KeptBps(), 10_000), fees)
  {
    Wrap256Identity(output + fees);
    MinOutIsFloor(trade, output + fees);
  }

  /** Once output plus fees leaves 256 bits the floor is zero, whatever the slippage. */
  lemma OverflowRemovesFloor(trade: Trade, output: u256, fees: u256)
    requires trade.slippageBps <= 10_000 && output + fees >= U256_LIMIT
    ensures SlippageFloor(trade, output, fees) == 0
  {
    assert Wrap256(output + fees) == output + fees - U256_LIMIT;
    MinOutIsFloor(trade, output + fees - U256_LIMIT);
  }

  /** More fees never raise the floor, and it never exceeds the plain slippage minimum. */
  lemma FloorAntitone(trade: Trade, output: u256, fewer: u256, more: u256)
    requires trade.slippageBps <= 10_000 && fewer <= more
    ensures SlippageFloor(trade, output, more) <= SlippageFloor(trade, output, fewer) <= trade.MinOut(output)
  {
    var k := trade.KeptBps();
    MinOutIsFloor(trade, output);
    FloorBelowMinOut(trade, output, fewer);
    if output + more >= U256_LIMIT {
      OverflowRemovesFloor(trade, output, more);
    } else {
      FloorWithoutOverflow(trade, output, fewer);
      FloorWithoutOverflow(trade, output, more);
      PortionStep(output + fewer, more - fewer, k);
    }
  }

  lemma FloorBelowMinOut(trade: Trade, output: u256, fees: u256)
    requires trade.slippageBps <= 10_000
    ensures SlippageFloor(trade, output, fees) <= trade.MinOut(output)
  {
    MinOutIsFloor(trade, output);
    if output + fees >= U256_LIMIT {
      OverflowRemovesFloor(trade, output, fees);
    } else {
      FloorWithoutOverflow(trade, output, fees);
      PortionStep(output, fees, trade.KeptBps());
    }
  }

  /**
   The floor gives up at most the slippage share of the fees, rounded up, exactly while output
   plus fees fits 256 bits or that share already covers the whole minimum.
   */
  lemma FloorGivesUpFeeShareExactly(trade: Trade, output: u256, fees: u256)
    requires trade.slippageBps <= 10_000
    ensures trade.MinOut(output) <= SlippageFloor(trade, output, fees) + CeilDiv(fees * trade.slippageBps, 10_000)
       <==> output + fees < U256_LIMIT
            || FloorDiv(output * trade.KeptBps(), 10_000) <= CeilDiv(fees * trade.slippageBps, 10_000)
  {
    var k := trade.KeptBps();
    MinOutIsFloor(trade, output);
    if output + fees < U256_LIMIT {
      FloorWithoutOverflow(trade, output, fees);
      PortionStep(output, fees, k);
      PortionRemainder(fees, trade.slippageBps, k);
    } else {
      OverflowRemovesFloor(trade, output, fees);
    }
  }

  /** The true total of the output-side fees. */
  function LineAmount(line: Option<FeeLine>, chainId: u64, output: Address): nat {
    if line.Some? && line.value.chainId == chainId && line.value.address == output && line.value.amount.Ok?
    then line.value.amount.value else 0
  }

  /** A fee line in the output currency, the only kind that counts, has a readable amount. */
  predicate ReadableIfCharged(line: Option<FeeLine>, chainId: u64, output: Address) {
    line.Some? && line.value.chainId == chainId && line.value.address == output ==> line.value.amount.Ok?
  }

  /**
   The application fee a quote reports: none where none was asked for, and then none may be charged;
   otherwise the provider's line as it stands, which in the input currency must be the requested
   share of the amount, rounded down.
   */
  predicate ReportsAppFee(fees: Fees, trade: Trade, requestedBps: Option<u16>, chainId: u64, charge: Option<FeeAmount>)
    requires requestedBps.Some? ==> requestedBps.value <= 10_000
  {
    if fees.app.None? then requestedBps.None? && charge.None?
    else
      var app := fees.app.value;
      && app.amount.Ok?
      && if requestedBps.None? then app.amount.value == 0 && charge.None?
         else
           && app.chainId == chainId
           && (app.address == trade.input.Address() ==>
                 app.amount.value * 10_000 <= trade.amount * requestedBps.value < app.amount.value * 10_000 + 10_000)
           && charge.Some? && charge.value.amount == app.amount.value
           && charge.value.currency == (if app.address == 0 then Native else Token(app.address))
  }

  lemma AppFeeExactly(fees: Fees, trade: Trade, requestedBps: Option<u16>, chainId: u64, charge: Option<FeeAmount>)
    requires requestedBps.Some? ==> requestedBps.value <= 10_000
    ensures AppFeeCharge(fees, trade, requestedBps, chainId) == Ok(charge)
       <==> ReportsAppFee(fees, trade, requestedBps, chainId, charge)
  {
    if requestedBps.Some? {
      PortionIsFloor(trade.amount, requestedBps.value);
      if fees.app.Some? && fees.app.value.amount.Ok? {
        ShareExactly(trade.amount * requestedBps.value, fees.app.value.amount.value);
      }
    }
  }

  lemma ShareExactly(scaled: nat, share: nat)
    ensures share == FloorDiv(scaled, 10_000) <==> share * 10_000 <= scaled < share * 10_000 + 10_000
  {
    if share * 10_000 <= scaled < share * 10_000 + 10_000 {
      FloorDivUnique(scaled, 10_000, share);
    }
  }

  lemma FeeTotal(fees: Fees, chainId: u64, output: Address)
    ensures FeesFromOutput(fees, chainId, output).Ok?
       <==> ReadableIfCharged(fees.relayer, chainId, output) && ReadableIfCharged(fees.app, chainId, output)
    ensures FeesFromOutput(fees, chainId, output).Ok? ==>
      FeesFromOutput(fees, chainId, output).value
      == Wrap256(LineAmount(fees.relayer, chainId, output) + LineAmount(fees.app, chainId, output))
  {
  }

  /**
   A response becomes `quote` exactly when it matches the request and the quote reports it: the
   trade's chain, currencies and amount, the provider's output and minimum with the minimum positive,
   within the output and at or above the floor, and the application fee that was asked for.
   */
  lemma QuoteReportsExactly(
      network: Network, details: Details, fees: Fees, trade: Trade, requestedBps: Option<u16>, quote: Quote)
    requires trade.Valid() && (requestedBps.Some? ==> requestedBps.value <= 10_000)
    ensures QuoteOf(network, details, fees, trade, requestedBps) == Ok(quote)
       <==> && details.matches
            && details.input == Ok(trade.amount) && quote.inAmount == trade.amount
            && details.output == Ok(quote.expectedOut) && details.minimum == Ok(quote.minOut)
            && quote.chainId == network.chainId && quote.input == trade.input && quote.output == trade.output
            && 1 <= quote.minOut <= quote.expectedOut
            && ReadableIfCharged(fees.relayer, network.chainId, trade.output.Address())
            && ReadableIfCharged(fees.app, network.chainId, trade.output.Address())
            && SlippageFloor(trade, quote.expectedOut,
                             Wrap256(LineAmount(fees.relayer, network.chainId, trade.output.Address())
                                     + LineAmount(fees.app, network.chainId, trade.output.Address()))) <= quote.minOut
            && ReportsAppFee(fees, trade, requestedBps, network.chainId, quote.applicationFee)
  {
    FeeTotal(fees, network.chainId, trade.output.Address());
    AppFeeExactly(fees, trade, requestedBps, network.chainId, quote.applicationFee);
  }

  /**
   An accepted quote spends exactly the traded amount and promises a positive minimum; while
   the reported amounts fit 256 bits, that minimum is within the slippage of what is received
   before fees, less the fees.
   */
  lemma AcceptedQuoteProtects(network: Network, details: Details, fees: Fees, trade: Trade, requestedBps: Option<u16>)
    requires trade.Valid() && QuoteOf(network, details, fees, trade, requestedBps).Ok?
    ensures var quote := QuoteOf(network, details, fees, trade, requestedBps).value;
            var taken := LineAmount(fees.relayer, network.chainId, trade.output.Address())
                       + LineAmount(fees.app, network.chainId, trade.output.Address());
            && quote.inAmount == trade.amount
            && 1 <= quote.minOut <= quote.expectedOut
            && (quote.expectedOut + taken < U256_LIMIT ==>
                  (quote.expectedOut + taken) * trade.KeptBps() < (quote.minOut + taken + 1) * 10_000)
  {
    var quote := QuoteOf(network, details, fees, trade, requestedBps).value;
    var taken := LineAmount(fees.relayer, network.chainId, trade.output.Address())
               + LineAmount(fees.app, network.chainId, trade.output.Address());
    AcceptedFields(network, details, fees, trade, requestedBps);
    if quote.expectedOut + taken < U256_LIMIT {
      Wrap256Identity(taken);
      AboveFloor(trade, quote.expectedOut, taken, quote.minOut);
    }
  }

  lemma AcceptedFields(network: Network, details: Details, fees: Fees, trade: Trade, requestedBps: Option<u16>)
    requires trade.Valid() && QuoteOf(network, details, fees, trade, requestedBps).Ok?
    ensures var quote := QuoteOf(network, details, fees, trade, requestedBps).value;
            var taken := Wrap256(LineAmount(fees.relayer, network.chainId, trade.output.Address())
                               + LineAmount(fees.app, network.chainId, trade.output.Address()));
            && quote.inAmount == trade.amount
            && 1 <= quote.minOut <= quote.expectedOut
            && SlippageFloor(trade, quote.expectedOut, taken) <= quote.minOut
  {
    FeeTotal(fees, network.chainId, trade.output.Address());
  }

  lemma AboveFloor(trade: Trade, output: u256, taken: u256, minimum: u256)
    requires trade.slippageBps <= 10_000 && output + taken < U256_LIMIT
    requires SlippageFloor(trade, output, taken) <= minimum
    ensures (output + taken) * trade.KeptBps() < (minimum + taken + 1) * 10_000
  {
    FloorWithoutOverflow(trade, output, taken);
    MinimumAboveFloor((output + taken) * trade.KeptBps(), taken, minimum);
  }

  lemma MinimumAboveFloor(scaled: nat, taken: nat, minimum: nat)
    requires SaturatingSub(FloorDiv(scaled, 10_000), taken) <= minimum
    ensures scaled < (minimum + taken + 1) * 10_000
  {
  }

  /** An app fee charged in the input currency is the requested share of the amount, rounded down. */
  lemma InputFeeMatchesRate(network: Network, details: Details, fees: Fees, trade: Trade, bps: u16)
    requires trade.Valid() && bps < 10_000 && QuoteOf(network, details, fees, trade, Some(bps)).Ok?
    ensures var charge := QuoteOf(network, details, fees, trade, Some(bps)).value.applicationFee;
            && charge.Some?
            && (charge.value.currency == trade.input ==>
                  charge.value.amount * 10_000 <= trade.amount * bps < (charge.value.amount + 1) * 10_000)
  {
    PortionIsFloor(trade.amount, bps);
  }
}
