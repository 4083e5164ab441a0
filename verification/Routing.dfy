/** The order in which fees are reserved, routed around and charged, src/solana/client/routing.rs. */
module Routing {
  import opened Types
  import opened Arithmetic
  import opened SolanaTypes
  import opened SdkFees
  import opened GasSponsors
  import opened ConstantProduct
  import PumpFunQuotes
  import PumpSwapQuotes

  datatype Client = Client(sdkFee: Option<SdkFee>, sponsor: Option<GasSponsor>, quoteSource: Option<QuoteSource>)

  /**
   A source adapter's answer to one request: source, routed trade, paying sponsor and
   provider-collected fee. Quantifying over it covers every provider response.
   */
  type RouteProvider = (QuoteSource, Trade, Option<Pubkey>, Option<SdkFee>) -> Result<Swap>

  function QuoteSourceFor(client: Client, trade: Trade): QuoteSource {
    if trade.quoteSource.Some? then trade.quoteSource.value
    else if client.quoteSource.Some? then client.quoteSource.value
    else
      match trade.venue
      case Some(PumpFunVenue) => PumpFun
      case Some(PumpSwapVenue) => PumpSwap
      case None => Relay
  }

  /** A client's sponsor covers exactly its trades that settle in USDC. */
  function SponsorFor(client: Client, trade: Trade): Option<GasSponsor> {
    if trade.settlement.Usdc? then client.sponsor else None
  }

  function ProviderFeeFor(client: Client, trade: Trade, source: QuoteSource): Result<Option<SdkFee>> {
    if client.sdkFee.None? || client.sdkFee.value.collection != ByProvider || client.sdkFee.value.basisPoints == 0
    then Ok(None)
    else if !(source.Bloxroute? || source.DFlow? || source.Relay?) then Err(BuildError)
    else
      var _ :- TradeAfterFee(client.sdkFee.value, trade);
      Ok(client.sdkFee)
  }

  function RoutedTrade(client: Client, trade: Trade, transferFee: Option<SdkFee>): Result<Trade> {
    var routed :- if transferFee.Some? then TradeAfterFee(transferFee.value, trade) else Ok(trade);
    match SponsorFor(client, trade)
    case Some(sponsor) => ReserveFee(sponsor, routed)
    case None => Ok(routed)
  }

  predicate CandidateAccepted(routed: Trade, swap: Swap, providerFee: bool) {
    && swap.quote.inAmount == routed.amount
    && (providerFee || swap.quote.applicationFee == 0)
    && swap.quote.sponsorshipFee == 0
    && 0 < swap.quote.minOut <= swap.quote.expectedOut
    && swap.instructions != []
  }

  function Payer(sponsor: Option<GasSponsor>, wallet: Pubkey): Pubkey {
    if sponsor.Some? then sponsor.value.wallet else wallet
  }

  function WithFees(client: Client, trade: Trade, swap: Swap, transferFee: Option<SdkFee>): Result<Swap> {
    var sponsor := SponsorFor(client, trade);
    var charged :-
      if transferFee.Some? then WithSdkFee(transferFee.value, trade, swap, Payer(sponsor, trade.wallet)) else Ok(swap);
    var complete := charged.(quote := charged.quote.(inAmount := trade.amount));
    if sponsor.Some? then WithReimbursement(sponsor.value, trade, complete) else Ok(complete)
  }

  /** The trade the selected source is asked for, and the fee the SDK transfers itself. */
  function PlanRoute(client: Client, trade: Trade): Result<(Trade, Option<SdkFee>, Option<SdkFee>)> {
    if !trade.Valid() then Err(BuildError)
    else
      var source := QuoteSourceFor(client, trade);
      if source.Native() && trade.settlement.Usdc? then Err(BuildError)
      else
        var providerFee :- ProviderFeeFor(client, trade, source);
        // The SDK transfers its own fee only where no provider collects one.
        var transferFee := if providerFee.None? then client.sdkFee else None;
        var routed :- RoutedTrade(client, trade, transferFee);
        Ok((routed, transferFee, providerFee))
  }

  function SponsorKey(sponsor: Option<GasSponsor>): Option<Pubkey> {
    if sponsor.Some? then Some(sponsor.value.wallet) else None
  }

  function Prepare(client: Client, trade: Trade, provider: RouteProvider): Result<Swap> {
    var (routed, transferFee, providerFee) :- PlanRoute(client, trade);
    var swap :- provider(QuoteSourceFor(client, trade), routed, SponsorKey(SponsorFor(client, trade)), providerFee);
    if CandidateAccepted(routed, swap, providerFee.Some?) then WithFees(client, trade, swap, transferFee)
    else Err(BuildError)
  }

  method AppendFees(client: Client, trade: Trade, prepared: PreparedSwap, transferFee: Option<SdkFee>)
    returns (r: Result<()>)
    modifies prepared
    ensures var spec := WithFees(client, trade, old(prepared.View()), transferFee);
            && (r.Ok? <==> spec.Ok?)
            && (r.Ok? ==> prepared.View() == spec.value)
            && (r.Err? ==> r.error == spec.error)
  {
    var sponsor := SponsorFor(client, trade);
    if transferFee.Some? {
      var payer := if sponsor.Some? then sponsor.value.wallet else trade.wallet;
      var applied := ApplyWithPayer(transferFee.value, trade, prepared, payer);
      if applied.Err? {
        return applied;
      }
    }
    prepared.quote := prepared.quote.(inAmount := trade.amount);
    if sponsor.Some? {
      r := ApplyToSwap(sponsor.value, trade, prepared);
    } else {
      r := Ok(());
    }
  }

  method PrepareSelectedSwap(client: Client, trade: Trade, provider: RouteProvider)
    returns (r: Result<()>, prepared: PreparedSwap?)
    ensures var spec := Prepare(client, trade, provider);
            && (r.Ok? <==> spec.Ok?)
            && (r.Ok? ==> prepared != null && fresh(prepared) && prepared.View() == spec.value)
            && (r.Err? ==> r.error == spec.error)
  {
    prepared := null;
    var plan := PlanRoute(client, trade);
    if plan.Err? {
      return Err(plan.error), null;
    }
    var (routed, transferFee, providerFee) := plan.value;
    var route := provider(QuoteSourceFor(client, trade), routed, SponsorKey(SponsorFor(client, trade)), providerFee);
    if route.Err? {
      return Err(route.error), null;
    }
    if !CandidateAccepted(routed, route.value, providerFee.Some?) {
      return Err(BuildError), null;
    }
    prepared := new PreparedSwap(route.value);
    r := AppendFees(client, trade, prepared, transferFee);
  }

  // ---- what preparation guarantees

  /** The accepted route behind a prepared swap. */
  function RouteOf(client: Client, trade: Trade, provider: RouteProvider): Swap
    requires Prepare(client, trade, provider).Ok?
  {
    var (routed, _, providerFee) := PlanRoute(client, trade).value;
    provider(QuoteSourceFor(client, trade), routed, SponsorKey(SponsorFor(client, trade)), providerFee).value
  }

  function Routed(client: Client, trade: Trade): Trade
    requires PlanRoute(client, trade).Ok?
  {
    PlanRoute(client, trade).value.0
  }

  function TransferFee(client: Client, trade: Trade): Option<SdkFee>
    requires PlanRoute(client, trade).Ok?
  {
    PlanRoute(client, trade).value.1
  }

  /** What the SDK transfers as its own fee: nothing when a provider collects. */
  function TransferredFee(client: Client, trade: Trade, swap: Swap): u64
    requires PlanRoute(client, trade).Ok?
  {
    if TransferFee(client, trade).Some? then swap.quote.applicationFee else 0
  }

  /** What the sponsorship reserves: nothing without a sponsor. */
  function Ceiling(client: Client, trade: Trade): u64 {
    if SponsorFor(client, trade).Some? then SponsorFor(client, trade).value.policy.maxFeeUsdc else 0
  }

  /** The trade's own choice of source comes first, then the client's, then the venue's, then Relay. */
  predicate Chosen(client: Client, trade: Trade, source: QuoteSource) {
    if trade.quoteSource.Some? then source == trade.quoteSource.value
    else if client.quoteSource.Some? then source == client.quoteSource.value
    else if trade.venue == Some(PumpFunVenue) then source == PumpFun
    else if trade.venue == Some(PumpSwapVenue) then source == PumpSwap
    else source == Relay
  }

  /** The client's fee is one a provider is to collect. */
  predicate ProviderMode(client: Client) {
    client.sdkFee.Some? && client.sdkFee.value.collection == ByProvider && client.sdkFee.value.basisPoints > 0
  }

  /** Nobody pays a fee to themselves, and no wallet sponsors itself. */
  predicate PartiesDiffer(client: Client, trade: Trade) {
    && (client.sdkFee.Some? && client.sdkFee.value.basisPoints > 0 ==> client.sdkFee.value.recipient != trade.wallet)
    && (trade.settlement.Usdc? && client.sponsor.Some? ==>
          client.sponsor.value.wallet != trade.wallet && client.sponsor.value.feeRecipient != trade.wallet)
  }

  /** What the SDK's own fee takes of a basis, none if a provider collects. */
  function OwnFee(client: Client, basis: u64): u64 {
    if client.sdkFee.Some? && !ProviderMode(client) then FeeAmount(client.sdkFee.value, basis) else 0
  }

  lemma SourceIsChosen(client: Client, trade: Trade, source: QuoteSource)
    ensures Chosen(client, trade, source) <==> source == QuoteSourceFor(client, trade)
  {
  }

  /**
   A trade is planned exactly when it is valid, its source settles in its currency and can collect
   the fee it is to collect, the parties differ and, on a buy, something is left to route; then the
   fee has one collector and only the amount of the trade changes.
   */
  lemma PlansExactly(client: Client, trade: Trade, source: QuoteSource)
    requires Chosen(client, trade, source)
    ensures PlanRoute(client, trade).Ok?
       <==> && trade.amount > 0 && trade.slippageBps < 10_000 && trade.mint != trade.settlement.Mint()
            && !((source == PumpFun || source == PumpSwap) && trade.settlement == Usdc)
            && (ProviderMode(client) ==> source == Bloxroute || source == DFlow || source == Relay)
            && PartiesDiffer(client, trade)
            && (trade.side.BuySide? ==> OwnFee(client, trade.amount) + Ceiling(client, trade) < trade.amount)
    ensures PlanRoute(client, trade).Ok? ==>
      var (routed, transferFee, providerFee) := PlanRoute(client, trade).value;
      && transferFee == (if ProviderMode(client) then None else client.sdkFee)
      && providerFee == (if ProviderMode(client) then client.sdkFee else None)
      && routed == trade.(amount := routed.amount)
      && routed.amount
         == if trade.side.SellSide? then trade.amount
            else trade.amount - OwnFee(client, trade.amount) - Ceiling(client, trade)
  {
    SourceIsChosen(client, trade, source);
    if client.sdkFee.Some? {
      FeeAmountBounds(client.sdkFee.value, trade.amount);
    }
  }

  /** The source's answer to a planned trade. */
  function Answer(client: Client, trade: Trade, provider: RouteProvider): Result<Swap>
    requires PlanRoute(client, trade).Ok?
  {
    var (routed, _, providerFee) := PlanRoute(client, trade).value;
    provider(QuoteSourceFor(client, trade), routed, SponsorKey(SponsorFor(client, trade)), providerFee)
  }

  /**
   A planned trade is prepared exactly when its source answers with instructions and a positive,
   ordered quote for the routed amount that charges no fee nobody asked for and, on a sell, promises
   at least more than the fees to come.
   */
  lemma PreparesExactly(client: Client, trade: Trade, provider: RouteProvider)
    ensures Prepare(client, trade, provider).Ok?
       <==> && PlanRoute(client, trade).Ok? && Answer(client, trade, provider).Ok?
            && var quote := Answer(client, trade, provider).value.quote;
               && Answer(client, trade, provider).value.instructions != []
               && quote.inAmount == Routed(client, trade).amount
               && 0 < quote.minOut <= quote.expectedOut
               && quote.sponsorshipFee == 0
               && (!ProviderMode(client) ==> quote.applicationFee == 0)
               && (trade.side.SellSide? ==> OwnFee(client, quote.expectedOut) + Ceiling(client, trade) < quote.minOut)
  {
    PlansExactly(client, trade, QuoteSourceFor(client, trade));
  }

  /** What preparation leaves of the route's quote, and what it sets: the trader's amount and the ceiling. */
  lemma PreparedQuote(client: Client, trade: Trade, provider: RouteProvider)
    requires Prepare(client, trade, provider).Ok?
    ensures var swap, route := Prepare(client, trade, provider).value, RouteOf(client, trade, provider);
            && Answer(client, trade, provider) == Ok(route)
            && swap.format == route.format
            && swap.quote.fee == route.quote.fee
            && swap.quote.inAmount == trade.amount
            && swap.quote.sponsorshipFee == Ceiling(client, trade)
            && (trade.side.BuySide? ==>
                  swap.quote.minOut == route.quote.minOut && swap.quote.expectedOut == route.quote.expectedOut)
  {
  }

  /** On a buy the routed amount, the transferred fee and the reserved ceiling make up the amount exactly. */
  lemma BuySplitsAmountExactly(client: Client, trade: Trade, provider: RouteProvider)
    requires Prepare(client, trade, provider).Ok? && trade.side.BuySide?
    ensures var swap := Prepare(client, trade, provider).value;
            && Routed(client, trade).amount + TransferredFee(client, trade, swap) + Ceiling(client, trade) == trade.amount
            && Routed(client, trade).amount >= 1
            && RouteOf(client, trade, provider).quote.inAmount == Routed(client, trade).amount
            && swap.quote.inAmount == trade.amount
            && 1 <= swap.quote.minOut <= swap.quote.expectedOut
  {
    var transferFee := TransferFee(client, trade);
    if transferFee.Some? {
      FeeAmountBounds(transferFee.value, trade.amount);
    }
  }

  /**
   On a sell the transferred fee and the ceiling leave the route's output; they come off the
   expectation and the minimum alike, so the slippage gap is the route's and the minimum stays positive.
   */
  lemma SellKeepsSlippageGap(client: Client, trade: Trade, provider: RouteProvider)
    requires Prepare(client, trade, provider).Ok? && trade.side.SellSide?
    ensures var swap, route := Prepare(client, trade, provider).value, RouteOf(client, trade, provider);
            var fees := TransferredFee(client, trade, swap) + Ceiling(client, trade);
            && Routed(client, trade).amount == trade.amount == swap.quote.inAmount
            && swap.quote.minOut + fees == route.quote.minOut
            && swap.quote.expectedOut + fees == route.quote.expectedOut
            && swap.quote.expectedOut - swap.quote.minOut == route.quote.expectedOut - route.quote.minOut
            && 1 <= swap.quote.minOut <= swap.quote.expectedOut
  {
  }

  /**
   A fee is charged once. What the SDK transfers is its share of the gross input on a buy and of
   the route's expected output on a sell, on a route that charged none; what a provider collected
   is reported as it came and nothing is transferred beside it.
   */
  lemma FeeIsChargedOnce(client: Client, trade: Trade, provider: RouteProvider)
    requires Prepare(client, trade, provider).Ok?
    ensures var swap, route := Prepare(client, trade, provider).value, RouteOf(client, trade, provider);
            var providerFee := PlanRoute(client, trade).value.2;
            && (TransferFee(client, trade).Some? ==>
                  && providerFee.None? && route.quote.applicationFee == 0
                  && swap.quote.applicationFee
                     == FeeAmount(TransferFee(client, trade).value,
                                  if trade.side.BuySide? then trade.amount else route.quote.expectedOut))
            && (TransferFee(client, trade).None? ==> swap.quote.applicationFee == route.quote.applicationFee)
            && (providerFee.Some? ==> TransferFee(client, trade).None? && TransferredFee(client, trade, swap) == 0)
  {
  }

  // ---- the quote check every aggregator adapter applies

  /** The smallest minimum a provider may answer with, src/solana/sources/mod.rs:32-57. */
  function ValidatedQuote(trade: Trade, input: u64, expected: u64, minimum: u64): Result<Quote> {
    if !trade.Valid() then Err(BuildError)
    else
      var floor := FloorShare(expected, trade.KeptBps());
      if input != trade.amount || minimum == 0 || minimum > expected || minimum < floor then Err(DecodeError)
      else Ok(Quote(input, expected, minimum, 0, 0, 0))
  }

  /**
   A quote is accepted exactly when it spends the traded amount and its positive minimum gives up at
   most the slippage share of its expectation, rounded up; it then reports the provider's numbers.
   */
  lemma ValidatedQuoteGap(trade: Trade, input: u64, expected: u64, minimum: u64)
    ensures ValidatedQuote(trade, input, expected, minimum).Ok?
       <==> && trade.Valid() && input == trade.amount && 1 <= minimum <= expected
            && expected - minimum <= CeilShare(expected, trade.slippageBps)
    ensures ValidatedQuote(trade, input, expected, minimum).Ok? ==>
      ValidatedQuote(trade, input, expected, minimum).value == Quote(input, expected, minimum, 0, 0, 0)
  {
    if trade.Valid() && minimum <= expected {
      GapWithinShare(expected, minimum, trade.KeptBps(), trade.slippageBps);
    }
  }

  lemma GapWithinShare(expected: nat, minimum: nat, kept: nat, bps: nat)
    requires kept + bps == 10_000 && minimum <= expected
    ensures FloorShare(expected, kept) <= minimum <==> expected - minimum <= CeilShare(expected, bps)
  {
    assert expected * kept + expected * bps == expected * (kept + bps) == expected * 10_000;
  }

  /** Routing changes nothing of a trade but its amount. */
  lemma RoutedKeepsTrade(client: Client, trade: Trade)
    requires PlanRoute(client, trade).Ok?
    ensures Routed(client, trade) == trade.(amount := Routed(client, trade).amount)
    ensures trade.Valid()
  {
  }

  /** Where a route's quote comes from: an aggregator's numbers, a bonding curve or a pool. */
  datatype Pricing =
    | Aggregated(input: u64, expected: u64, minimum: u64)
    | OnCurve(curve: PumpFunQuotes.Curve, curveFees: PumpFunQuotes.Fees)
    | InPool(pool: PumpSwapQuotes.PoolState, poolFees: PumpSwapQuotes.Fees)

  /** The quote a source of this kind prepares; trades are validated before any source is asked. */
  function SourceQuote(pricing: Pricing, routed: Trade): Result<Quote> {
    if !routed.Valid() then Err(BuildError)
    else
      match pricing
      case Aggregated(input, expected, minimum) => ValidatedQuote(routed, input, expected, minimum)
      case OnCurve(curve, fees) =>
        PumpFunQuotes.ComputeQuote(curve, fees, routed.side, routed.amount, routed.slippageBps)
      case InPool(pool, fees) =>
        Ok(PumpSwapQuotes.PoolQuote(pool, fees, routed.side, routed.amount, routed.slippageBps))
  }

  /** Every source gives up at most the slippage share of its expectation, rounded up. */
  lemma SourceQuoteGap(pricing: Pricing, routed: Trade)
    requires SourceQuote(pricing, routed).Ok?
    ensures var quote := SourceQuote(pricing, routed).value;
            && quote.inAmount == routed.amount
            && quote.minOut <= quote.expectedOut
            && quote.expectedOut - quote.minOut <= CeilShare(quote.expectedOut, routed.slippageBps)
  {
    var quote := SourceQuote(pricing, routed).value;
    match pricing
    case Aggregated(input, expected, minimum) => ValidatedQuoteGap(routed, input, expected, minimum);
    case OnCurve(_, _) => SlippageGap(quote.expectedOut, routed.slippageBps);
    case InPool(_, _) => SlippageGap(quote.expectedOut, routed.slippageBps);
  }

  /** Native venues take the slippage off themselves, rounding in the trader's disfavour. */
  lemma SlippageGap(expected: u64, bps: u64)
    requires bps < 10_000
    ensures 0 <= SlippageDown(expected, bps) <= expected
    ensures SlippageDown(expected, bps) == CeilShare(expected, 10_000 - bps)
    ensures expected - SlippageDown(expected, bps) <= CeilShare(expected, bps)
  {
    SlippageDownIsCeiling(expected, bps, 10_000 - bps);
    ShareAndRest(expected, bps, 10_000 - bps);
  }

  /** From any source's numbers to the final quote of a sell: the gap never exceeds the slippage. */
  lemma SellGapWithinSlippage(client: Client, trade: Trade, provider: RouteProvider, pricing: Pricing)
    requires Prepare(client, trade, provider).Ok? && trade.side.SellSide?
    requires SourceQuote(pricing, Routed(client, trade)).Ok?
    requires var route := RouteOf(client, trade, provider).quote;
             var priced := SourceQuote(pricing, Routed(client, trade)).value;
             route.expectedOut == priced.expectedOut && route.minOut == priced.minOut
    ensures var quote, route := Prepare(client, trade, provider).value.quote, RouteOf(client, trade, provider).quote;
            && 1 <= quote.minOut <= quote.expectedOut
            && quote.expectedOut - quote.minOut <= CeilShare(route.expectedOut, trade.slippageBps)
  {
    var route := RouteOf(client, trade, provider).quote;
    RoutedGap(client, trade, pricing);
    SellGapCarries(client, trade, provider, CeilShare(route.expectedOut, trade.slippageBps));
  }

  lemma RoutedGap(client: Client, trade: Trade, pricing: Pricing)
    requires PlanRoute(client, trade).Ok? && SourceQuote(pricing, Routed(client, trade)).Ok?
    ensures var quote := SourceQuote(pricing, Routed(client, trade)).value;
            quote.expectedOut - quote.minOut <= CeilShare(quote.expectedOut, trade.slippageBps)
  {
    RoutedKeepsTrade(client, trade);
    SourceQuoteGap(pricing, Routed(client, trade));
  }

  lemma SellGapCarries(client: Client, trade: Trade, provider: RouteProvider, share: nat)
    requires Prepare(client, trade, provider).Ok? && trade.side.SellSide?
    requires RouteOf(client, trade, provider).quote.expectedOut - RouteOf(client, trade, provider).quote.minOut <= share
    ensures var quote := Prepare(client, trade, provider).value.quote;
            1 <= quote.minOut <= quote.expectedOut && quote.expectedOut - quote.minOut <= share
  {
    SellKeepsSlippageGap(client, trade, provider);
  }
}
