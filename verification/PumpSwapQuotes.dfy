/** Pool quotes of src/solana/dexes/pumpswap/mod.rs. */
module PumpSwapQuotes {
  import opened Types
  import opened Arithmetic
  import opened SolanaTypes
  import opened ConstantProduct

  datatype Fees = Fees(lpBps: u64, protocolBps: u64, creatorBps: u64)

  datatype PoolState = PoolState(coinCreator: Pubkey, baseReserves: u64, quoteReserves: u64)

  /** The vault balance plus signed virtual reserves, refused outside 64 bits. */
  function EffectiveQuoteReserves(vaultBalance: u64, virtualReserves: int): (r: Result<u64>)
    requires -U128_LIMIT / 2 <= virtualReserves < U128_LIMIT / 2
    ensures r.Ok? <==> 0 <= vaultBalance + virtualReserves < U64_LIMIT
    ensures r.Ok? ==> r.value - virtualReserves == vaultBalance
  {
    var reserves := vaultBalance + virtualReserves;
    if reserves >= U128_LIMIT / 2 then Err(VenueError)
    else if 0 <= reserves < U64_LIMIT then Ok(reserves)
    else Err(VenueError)
  }

  function ThreeFees(net: u64, fees: Fees, creatorBps: u64): nat {
    FeeFloor(net, fees.lpBps) + FeeFloor(net, fees.protocolBps) + FeeFloor(net, creatorBps)
  }

  /** The same fees with none cut to 64 bits. */
  function DueFees(net: nat, fees: Fees, creatorBps: u64): nat {
    FloorShare(net, fees.lpBps) + FloorShare(net, fees.protocolBps) + FloorShare(net, creatorBps)
  }

  function CreatorBps(pool: PoolState, fees: Fees): u64 {
    if pool.coinCreator != SYSTEM_PROGRAM then fees.creatorBps else 0
  }

  function TotalBps(fees: Fees, creatorBps: u64): nat {
    fees.lpBps + fees.protocolBps + creatorBps
  }

  /** The quotient before the correction branch. */
  function UncorrectedInput(amount: u64, totalBps: u64): u64 {
    Wrap64(FloorDiv(amount * 10_000, 10_000 + totalBps))
  }

  /** The three fees as the source adds them, in 64 bits. */
  function WrappedFees(net: u64, fees: Fees, creatorBps: u64): u64 {
    Wrap64(Wrap64(FeeFloor(net, fees.lpBps) + FeeFloor(net, fees.protocolBps)) + FeeFloor(net, creatorBps))
  }

  /** The rates as the source adds them, in 64 bits. */
  function WrappedBps(fees: Fees, creatorBps: u64): u64 {
    Wrap64(Wrap64(fees.lpBps + fees.protocolBps) + creatorBps)
  }

  /** The correction branch: what exceeds the amount comes off the input. */
  function Corrected(amount: u64, input: u64, fee: u64): u64 {
    var spent := Wrap64(input + fee);
    if spent > amount then SaturatingSub(input, spent - amount) else input
  }

  /** The pool input after the correction branch. */
  function InputIntoPool(amount: u64, fees: Fees, creatorBps: u64): u64 {
    var input := UncorrectedInput(amount, WrappedBps(fees, creatorBps));
    Corrected(amount, input, WrappedFees(input, fees, creatorBps))
  }

  method QuoteIntoPool(amount: u64, fees: Fees, creatorBps: u64) returns (quoteIntoPool: u64)
    ensures quoteIntoPool == InputIntoPool(amount, fees, creatorBps)
  {
    var totalBps := Wrap64(Wrap64(fees.lpBps + fees.protocolBps) + creatorBps);
    quoteIntoPool := UncorrectedInput(amount, totalBps);
    var fee := WrappedFees(quoteIntoPool, fees, creatorBps);
    quoteIntoPool := WithinAmount(amount, quoteIntoPool, fee);
  }

  /** The correction of the pool input. */
  method WithinAmount(amount: u64, quoteIntoPool: u64, fee: u64) returns (input: u64)
    ensures input == Corrected(amount, quoteIntoPool, fee)
  {
    input := quoteIntoPool;
    var spent := Wrap64(input + fee);
    if spent > amount {
      input := SaturatingSub(input, spent - amount);
    }
  }

  /**
   Rounding every fee down leaves the net input and the fees inside the amount, so the source's
   correction branch never fires and no 64-bit addition overflows; what is left over is below
   four units plus the total rate.
   */
  lemma BuyStaysWithinAmount(amount: u64, fees: Fees, creatorBps: u64)
    requires TotalBps(fees, creatorBps) < U64_LIMIT
    ensures var t := TotalBps(fees, creatorBps);
            var net := UncorrectedInput(amount, t);
            && net + ThreeFees(net, fees, creatorBps) <= amount
            && (amount - net - ThreeFees(net, fees, creatorBps)) * 10_000 < 4 * 10_000 + t
  {
    DueWithinAmount(amount, fees, creatorBps);
    ThreeFeesExact(UncorrectedInput(amount, TotalBps(fees, creatorBps)), fees, creatorBps);
  }

  lemma DueWithinAmount(amount: u64, fees: Fees, creatorBps: u64)
    requires TotalBps(fees, creatorBps) < U64_LIMIT
    ensures var t := TotalBps(fees, creatorBps);
            var net := UncorrectedInput(amount, t);
            && net + DueFees(net, fees, creatorBps) <= amount
            && (amount - net - DueFees(net, fees, creatorBps)) * 10_000 < 4 * 10_000 + t
  {
    var t := TotalBps(fees, creatorBps);
    var net: nat := FloorDiv(amount * 10_000, 10_000 + t);
    NetWithinAmount(amount, t, net);
    Wrap64Identity(net);
    FlooredFees(net, fees.lpBps, fees.protocolBps, creatorBps);
  }

  /** Fees whose sum fits 64 bits lose nothing to the casts. */
  lemma ThreeFeesExact(net: u64, fees: Fees, creatorBps: u64)
    requires DueFees(net, fees, creatorBps) < U64_LIMIT
    ensures ThreeFees(net, fees, creatorBps) == DueFees(net, fees, creatorBps)
  {
    FeesFit(net, fees.lpBps);
    FeesFit(net, fees.protocolBps);
    FeesFit(net, creatorBps);
  }

  /** The net input scaled by the whole rate is the amount, short of one rounding step. */
  lemma NetWithinAmount(amount: nat, t: nat, net: nat)
    requires net * (10_000 + t) <= amount * 10_000 < net * (10_000 + t) + (10_000 + t)
    ensures net <= amount
    ensures net * 10_000 + net * t <= amount * 10_000 < net * 10_000 + net * t + 10_000 + t
  {
    assert net * (10_000 + t) == net * 10_000 + net * t;
  }

  /** Three fees, each rounded down, against the fee at the total rate. */
  lemma FlooredFees(net: nat, a: nat, b: nat, c: nat)
    ensures var total := FloorShare(net, a) + FloorShare(net, b) + FloorShare(net, c);
            total * 10_000 <= net * (a + b + c) < total * 10_000 + 30_000
  {
    assert net * (a + b + c) == net * a + net * b + net * c;
  }

  /** However often the additions wrap, the result is the sum of the fees cut to 64 bits. */
  lemma FeesWrapOnce(gross: u64, fees: Fees, creatorBps: u64)
    ensures WrappedFees(gross, fees, creatorBps) == Wrap64(DueFees(gross, fees, creatorBps))
  {
    ThreeWraps(FloorShare(gross, fees.lpBps), FloorShare(gross, fees.protocolBps), FloorShare(gross, creatorBps));
  }

  lemma ThreeWraps(a: nat, b: nat, c: nat)
    ensures Wrap64(Wrap64(Wrap64(a) + Wrap64(b)) + Wrap64(c)) == Wrap64(a + b + c)
  {
    WrapSum(a, b);
    WrapSum(a + b, c);
  }

  /** While the rates fit 64 bits the correction branch never changes the input. */
  lemma CorrectionNeverFires(amount: u64, fees: Fees, creatorBps: u64)
    requires TotalBps(fees, creatorBps) < U64_LIMIT
    ensures InputIntoPool(amount, fees, creatorBps) == UncorrectedInput(amount, TotalBps(fees, creatorBps)) <= amount
  {
    var input := UncorrectedInput(amount, TotalBps(fees, creatorBps));
    var due := DueFees(input, fees, creatorBps);
    RatesFit(fees, creatorBps);
    assert input + due <= amount by {
      DueWithinAmount(amount, fees, creatorBps);
    }
    assert WrappedFees(input, fees, creatorBps) == Wrap64(due) by {
      FeesWrapOnce(input, fees, creatorBps);
    }
    NothingToCorrect(amount, input, due);
  }

  lemma NothingToCorrect(amount: u64, input: u64, due: nat)
    requires input + due <= amount
    ensures Corrected(amount, input, Wrap64(due)) == input
  {
  }

  lemma RatesFit(fees: Fees, creatorBps: u64)
    requires TotalBps(fees, creatorBps) < U64_LIMIT
    ensures WrappedBps(fees, creatorBps) == TotalBps(fees, creatorBps)
  {
  }

  /** At any rates the pool gets no more than the amount. */
  lemma InputWithinAmount(amount: u64, fees: Fees, creatorBps: u64)
    ensures InputIntoPool(amount, fees, creatorBps) <= amount
  {
    var totalBps: nat := WrappedBps(fees, creatorBps);
    var input: nat := FloorDiv(amount * 10_000, 10_000 + totalBps);
    NetWithinAmount(amount, totalBps, input);
    Wrap64Identity(input);
  }

  // ---- quotes

  function Quoted(amount: u64, expectedOut: u64, slippageBps: u64, fee: u64): (quote: Quote)
    requires slippageBps < 10_000
    ensures quote.minOut == CeilShare(expectedOut, 10_000 - slippageBps) <= expectedOut
  {
    SlippageDownIsCeiling(expectedOut, slippageBps, 10_000 - slippageBps);
    Quote(amount, expectedOut, SlippageDown(expectedOut, slippageBps), fee, 0, 0)
  }

  function BuyQuote(pool: PoolState, fees: Fees, amount: u64, slippageBps: u64): Quote
    requires slippageBps < 10_000
  {
    var input := InputIntoPool(amount, fees, CreatorBps(pool, fees));
    Quoted(amount, BaseOutForQuoteIn(pool.quoteReserves, pool.baseReserves, SaturatingSub(input, 1)), slippageBps,
           SaturatingSub(amount, input))
  }

  function SellQuote(pool: PoolState, fees: Fees, tokens: u64, slippageBps: u64): Quote
    requires slippageBps < 10_000
  {
    var gross := QuoteOutForBaseIn(pool.quoteReserves, pool.baseReserves, tokens);
    var fee := WrappedFees(gross, fees, CreatorBps(pool, fees));
    Quoted(tokens, SaturatingSub(gross, fee), slippageBps, fee)
  }

  function PoolQuote(pool: PoolState, fees: Fees, side: Side, amount: u64, slippageBps: u64): Quote
    requires slippageBps < 10_000
  {
    match side
    case BuySide => BuyQuote(pool, fees, amount, slippageBps)
    case SellSide => SellQuote(pool, fees, amount, slippageBps)
  }

  method ComputeQuote(pool: PoolState, fees: Fees, side: Side, amount: u64, slippageBps: u64)
    returns (quote: Quote)
    requires slippageBps < 10_000
    ensures quote == PoolQuote(pool, fees, side, amount, slippageBps)
  {
    var creatorBps := if pool.coinCreator != SYSTEM_PROGRAM then fees.creatorBps else 0;
    var expectedOut: u64;
    var fee: u64;
    match side {
      case BuySide =>
        var quoteIntoPool := QuoteIntoPool(amount, fees, creatorBps);
        expectedOut :=
          BaseOutForQuoteIn(pool.quoteReserves, pool.baseReserves, SaturatingSub(quoteIntoPool, 1));
        fee := SaturatingSub(amount, quoteIntoPool);
      case SellSide =>
        var gross := QuoteOutForBaseIn(pool.quoteReserves, pool.baseReserves, amount);
        fee := WrappedFees(gross, fees, creatorBps);
        expectedOut := SaturatingSub(gross, fee);
    }
    quote := Quoted(amount, expectedOut, slippageBps, fee);
  }

  /** Nothing but amounts: a venue's quote charges no application or sponsorship fee. */
  predicate VenueQuote(quote: Quote, amount: u64, slippageBps: u64)
    requires slippageBps < 10_000
  {
    && quote.inAmount == amount
    && quote.minOut == CeilShare(quote.expectedOut, 10_000 - slippageBps)
    && quote.applicationFee == quote.sponsorshipFee == 0
  }

  /**
   A buy is priced on all but one unit of its net input; its quoted fee covers the fees on that
   input and exceeds them by less than four units plus the total rate. The creator's fee is among
   them exactly in a pool that has a coin creator.
   */
  lemma BuyFeeCoversThreeFees(pool: PoolState, fees: Fees, amount: u64, slippageBps: u64)
    requires slippageBps < 10_000
    requires fees.lpBps + fees.protocolBps + (if pool.coinCreator == SYSTEM_PROGRAM then 0 else fees.creatorBps) < U64_LIMIT
    ensures var creatorBps := if pool.coinCreator == SYSTEM_PROGRAM then 0 else fees.creatorBps;
            var buy := PoolQuote(pool, fees, BuySide, amount, slippageBps);
            var net := amount - buy.fee;
            && VenueQuote(buy, amount, slippageBps)
            && net >= 0
            && var due := FloorShare(net, fees.lpBps) + FloorShare(net, fees.protocolBps) + FloorShare(net, creatorBps);
            && due <= buy.fee
            && (buy.fee - due) * 10_000 < 4 * 10_000 + (fees.lpBps + fees.protocolBps + creatorBps)
            && buy.expectedOut == BaseOutForQuoteIn(pool.quoteReserves, pool.baseReserves, SaturatingSub(net, 1))
  {
    CorrectionNeverFires(amount, fees, CreatorBps(pool, fees));
    DueWithinAmount(amount, fees, CreatorBps(pool, fees));
  }

  /**
   A sell charges the fees of the gross output exactly while their sum fits 64 bits, and fee and
   payout make up the gross exactly while the fees are within it, as rates up to the whole always
   are. The creator's fee is among them exactly in a pool that has a coin creator.
   */
  lemma SellPaysGrossLessFees(pool: PoolState, fees: Fees, tokens: u64, slippageBps: u64)
    requires slippageBps < 10_000
    ensures var creatorBps := if pool.coinCreator == SYSTEM_PROGRAM then 0 else fees.creatorBps;
            var gross := QuoteOutForBaseIn(pool.quoteReserves, pool.baseReserves, tokens);
            var due :=
              FloorShare(gross, fees.lpBps) + FloorShare(gross, fees.protocolBps) + FloorShare(gross, creatorBps);
            var sell := PoolQuote(pool, fees, SellSide, tokens, slippageBps);
            && VenueQuote(sell, tokens, slippageBps)
            && (sell.fee == due <==> due < U64_LIMIT)
            && (sell.fee == due && sell.expectedOut + due == gross <==> due <= gross)
            && (fees.lpBps + fees.protocolBps + creatorBps <= 10_000 ==> due <= gross)
  {
    var gross := QuoteOutForBaseIn(pool.quoteReserves, pool.baseReserves, tokens);
    var creatorBps := CreatorBps(pool, fees);
    var due := DueFees(gross, fees, creatorBps);
    assert WrappedFees(gross, fees, creatorBps) == Wrap64(due) by {
      FeesWrapOnce(gross, fees, creatorBps);
    }
    Payout(gross, due);
    if TotalBps(fees, creatorBps) <= 10_000 {
      DueWithinGross(gross, fees.lpBps, fees.protocolBps, creatorBps);
    }
  }

  /** A fee cut to 64 bits and taken off by a saturating subtraction. */
  lemma Payout(gross: u64, due: nat)
    ensures Wrap64(due) == due <==> due < U64_LIMIT
    ensures Wrap64(due) == due && SaturatingSub(gross, Wrap64(due)) + due == gross <==> due <= gross
  {
  }

  lemma DueWithinGross(gross: nat, a: nat, b: nat, c: nat)
    requires a + b + c <= 10_000
    ensures FloorShare(gross, a) + FloorShare(gross, b) + FloorShare(gross, c) <= gross
  {
    FlooredFees(gross, a, b, c);
    MulMonotone(a + b + c, 10_000, gross);
  }

  /** The pool once a quoted buy has settled and left `retained` of its quote currency there. */
  function AfterBuy(pool: PoolState, buy: Quote, retained: u64): PoolState {
    pool.(quoteReserves := Wrap64(pool.quoteReserves + retained),
          baseReserves := SaturatingSub(pool.baseReserves, buy.expectedOut))
  }

  /**
   Buying and selling straight back returns no more than the pool retained of the buy, be it the net
   input alone or the liquidity providers' fee as well, at any rates; with the net input alone, no
   more than the amount less the quoted fee.
   */
  lemma RoundTripNeverProfits(
      pool: PoolState, fees: Fees, amount: u64, slippageBps: u64, sellSlippageBps: u64, retained: u64)
    requires slippageBps < 10_000 && sellSlippageBps < 10_000
    requires pool.quoteReserves + retained < U64_LIMIT
    requires amount <= retained + BuyQuote(pool, fees, amount, slippageBps).fee
    ensures var buy := BuyQuote(pool, fees, amount, slippageBps);
            var sell := SellQuote(AfterBuy(pool, buy, retained), fees, buy.expectedOut, sellSlippageBps);
            && sell.expectedOut <= retained
            && (retained + buy.fee == amount ==> sell.expectedOut + buy.fee <= amount)
  {
    var buy := BuyQuote(pool, fees, amount, slippageBps);
    InputWithinAmount(amount, fees, CreatorBps(pool, fees));
    SellBackWithin(pool, fees, InputIntoPool(amount, fees, CreatorBps(pool, fees)), retained, buy, sellSlippageBps);
  }

  lemma SellBackWithin(pool: PoolState, fees: Fees, input: u64, retained: u64, buy: Quote, slippageBps: u64)
    requires slippageBps < 10_000 && input <= retained && pool.quoteReserves + retained < U64_LIMIT
    requires buy.expectedOut == BaseOutForQuoteIn(pool.quoteReserves, pool.baseReserves, SaturatingSub(input, 1))
    ensures SellQuote(AfterBuy(pool, buy, retained), fees, buy.expectedOut, slippageBps).expectedOut <= retained
  {
    TokensAffordable(pool, input, retained);
    Wrap64Identity(pool.quoteReserves + retained);
    BuyBackCostsAtMost(pool.quoteReserves, pool.baseReserves, retained, buy.expectedOut);
  }

  /** What `input` less one unit buys is affordable for whatever the pool retains. */
  lemma TokensAffordable(pool: PoolState, input: u64, retained: u64)
    requires input <= retained
    ensures BaseOutForQuoteIn(pool.quoteReserves, pool.baseReserves, SaturatingSub(input, 1))
         <= BaseOutForQuoteIn(pool.quoteReserves, pool.baseReserves, retained) <= pool.baseReserves
  {
    OutputMonotone(pool.quoteReserves, pool.baseReserves, SaturatingSub(input, 1), retained);
    OutputWithinReserve(pool.quoteReserves, pool.baseReserves, retained);
  }
}
