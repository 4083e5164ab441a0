/** Bonding-curve quotes of src/solana/dexes/pumpfun/mod.rs, against the program's own formula. */
module PumpFunQuotes {
  import opened Types
  import opened Arithmetic
  import opened SolanaTypes
  import opened ConstantProduct

  datatype Curve = Curve(creator: Pubkey, baseReserves: u64, quoteReserves: u64, realTokenReserves: u64)

  datatype Fees = Fees(protocolBps: u64, creatorBps: u64)

  /** The creator's rate counts only on a curve that has a creator. */
  function CreatorBps(curve: Curve, fees: Fees): u64 {
    if curve.creator != SYSTEM_PROGRAM then fees.creatorBps else 0
  }

  function SolIntoCurve(amount: u64, totalBps: u64): u64 {
    Wrap64(FloorDiv(SaturatingSub(amount, 1) * 10_000, totalBps + 10_000))
  }

  function ComputeQuote(curve: Curve, fees: Fees, side: Side, amount: u64, slippageBps: u64): Result<Quote> {
    match side
    case BuySide =>
      var totalBps := Wrap64(fees.protocolBps + CreatorBps(curve, fees));
      var solIntoCurve := SolIntoCurve(amount, totalBps);
      var curveOutput := BaseOutForQuoteIn(curve.quoteReserves, curve.baseReserves, solIntoCurve);
      var expectedOut := Min(curveOutput, curve.realTokenReserves);
      Quoted(amount, expectedOut, slippageBps, SaturatingSub(amount, solIntoCurve))
    case SellSide =>
      var grossSolOut := QuoteOutForBaseIn(curve.quoteReserves, curve.baseReserves, amount);
      var creatorFee :=
        if curve.creator != SYSTEM_PROGRAM then FeeCeil(grossSolOut, fees.creatorBps) else 0;
      var fee := Wrap64(FeeCeil(grossSolOut, fees.protocolBps) + creatorFee);
      Quoted(amount, SaturatingSub(grossSolOut, fee), slippageBps, fee)
  }

  /** The quote's slippage subtraction must not underflow; trades are validated before it. */
  function Quoted(amount: u64, expectedOut: u64, slippageBps: u64, fee: u64): (r: Result<Quote>)
    ensures slippageBps < 10_000 ==>
      && r.Ok? && r.value == Quote(amount, expectedOut, r.value.minOut, fee, 0, 0)
      && r.value.minOut == CeilShare(expectedOut, 10_000 - slippageBps) <= expectedOut
  {
    var minOut := SlippageDown(expectedOut, slippageBps);
    if slippageBps < 10_000 then
      SlippageDownIsCeiling(expectedOut, slippageBps, 10_000 - slippageBps);
      Ok(Quote(amount, expectedOut, minOut, fee, 0, 0))
    else if minOut < 0 then Err(VenueError)
    else Ok(Quote(amount, expectedOut, minOut, fee, 0, 0))
  }

  // ---- the program's formula, src/solana/dexes/pumpfun/idl.json:924-934

  /** Net SOL before the correction step. */
  function IdlGrossNet(spendable: u64, protocolBps: nat, creatorBps: nat): nat {
    FloorDiv(spendable * 10_000, 10_000 + (protocolBps + creatorBps))
  }

  function RoundedUpFees(net: nat, protocolBps: nat, creatorBps: nat): nat {
    CeilShare(net, protocolBps) + CeilShare(net, creatorBps)
  }

  /** Net SOL after the correction step. */
  function IdlNetSol(spendable: u64, protocolBps: nat, creatorBps: nat): int {
    var net := IdlGrossNet(spendable, protocolBps, creatorBps);
    var spent := net + RoundedUpFees(net, protocolBps, creatorBps);
    if spent > spendable then net - (spent - spendable) else net
  }

  lemma RoundedUpFeesBound(net: nat, p: nat, c: nat)
    ensures net * (p + c) <= RoundedUpFees(net, p, c) * 10_000 < net * (p + c) + 2 * 10_000
    ensures net * (10_000 + (p + c)) == net * 10_000 + net * (p + c)
  {
    assert net * (p + c) == net * p + net * c;
    var protocol, creator := CeilShare(net, p), CeilShare(net, c);
    assert (protocol + creator) * 10_000 == protocol * 10_000 + creator * 10_000;
  }

  /** What the SDK sends into the curve, as the inequality that defines it. */
  lemma SolIntoCurveBounds(amount: u64, totalBps: u64)
    requires amount > 0
    ensures var s := SolIntoCurve(amount, totalBps);
            && s < amount
            && s * (10_000 + totalBps) <= (amount - 1) * 10_000
            && (amount - 1) * 10_000 < (s + 1) * (10_000 + totalBps)
  {
    var d := totalBps + 10_000;
    var q := FloorDiv((amount - 1) * 10_000, d);
    MulMonotone(10_000, d, q);
    assert (q + 1) * d == q * d + d;
  }

  /** A spend scaled inside the amount less one leaves room for both round-ups. */
  lemma RoundUpsFit(s: nat, amount: nat, p: nat, c: nat)
    requires amount > 0
    requires s * (10_000 + (p + c)) <= (amount - 1) * 10_000
    ensures s + RoundedUpFees(s, p, c) <= amount
  {
    RoundedUpFeesBound(s, p, c);
  }

  lemma SpendLeavesRoundUps(amount: u64, protocolBps: u64, creatorBps: u64)
    requires protocolBps + creatorBps < U64_LIMIT
    ensures var s := SolIntoCurve(amount, protocolBps + creatorBps);
            s + RoundedUpFees(s, protocolBps, creatorBps) <= amount
  {
    var t: u64 := protocolBps + creatorBps;
    var s := SolIntoCurve(amount, t);
    if amount > 0 {
      SolIntoCurveBounds(amount, t);
      RoundUpsFit(s, amount, protocolBps, creatorBps);
    } else {
      FloorDivUnique(0, t + 10_000, 0);
      assert s == 0;
      assert 0 * protocolBps == 0 && 0 * creatorBps == 0;
      assert RoundedUpFees(0, protocolBps, creatorBps) == 0;
    }
  }

  /**
   The spend is the program's corrected net SOL or one lamport less; so the curve input priced by
   the SDK exceeds the program's `net_sol - 1` by zero or one.
   */
  lemma SpendTracksIdl(amount: u64, protocolBps: u64, creatorBps: u64)
    requires amount > 0 && protocolBps + creatorBps < U64_LIMIT
    ensures var s := SolIntoCurve(amount, protocolBps + creatorBps);
            IdlNetSol(amount, protocolBps, creatorBps) - 1 <= s <= IdlNetSol(amount, protocolBps, creatorBps)
  {
    var s, net := SolIntoCurve(amount, protocolBps + creatorBps), IdlGrossNet(amount, protocolBps, creatorBps);
    SolIntoCurveBounds(amount, protocolBps + creatorBps);
    OneLamportLess(amount, 10_000 + (protocolBps + creatorBps), s, net);
    CorrectionAtMostOne(net, amount, protocolBps, creatorBps);
    SpendLeavesRoundUps(amount, protocolBps, creatorBps);
    Corrected(s, net, RoundedUpFees(s, protocolBps, creatorBps), RoundedUpFees(net, protocolBps, creatorBps), amount);
  }

  /** The correction only ever applies to a net above the spend, and then brings it down to it. */
  lemma Corrected(s: nat, net: nat, spendFees: nat, netFees: nat, amount: nat)
    requires net - 1 <= s <= net && (s == net ==> spendFees == netFees)
    requires s + spendFees <= amount && net + netFees <= amount + 1
    ensures var corrected := if net + netFees > amount then net - (net + netFees - amount) else net;
            corrected - 1 <= s <= corrected
  {
  }

  /** Dropping one lamport before the division lowers the quotient by at most one. */
  lemma OneLamportLess(amount: nat, d: nat, s: nat, net: nat)
    requires amount > 0 && d >= 10_000
    requires s * d <= (amount - 1) * 10_000 < (s + 1) * d
    requires net * d <= amount * 10_000 < net * d + d
    ensures net - 1 <= s <= net
  {
    assert (s + 2) * d == (s + 1) * d + d;
    MulCancelStrict(net, s + 2, d);
    assert (net + 1) * d == net * d + d;
    MulCancelStrict(s, net + 1, d);
  }

  /** The correction step takes back at most one lamport. */
  lemma CorrectionAtMostOne(net: nat, amount: nat, p: nat, c: nat)
    requires net * (10_000 + (p + c)) <= amount * 10_000
    ensures net + RoundedUpFees(net, p, c) <= amount + 1
  {
    RoundedUpFeesBound(net, p, c);
  }

  // ---- every pair of 64-bit rates

  /**
   The source adds the two rates in 64 bits. A sum that wraps prices the spend at a rate far below
   the fees that are due, and the arithmetic survives only where next to nothing is spent: no
   lamport goes in, or a single one whose fees the amount still covers.
   */
  predicate RatesPriced(amount: u64, protocolBps: u64, creatorBps: u64) {
    var step := 10_000 + Wrap64(protocolBps + creatorBps);
    || protocolBps + creatorBps < U64_LIMIT
    || SaturatingSub(amount, 1) * 10_000 < step
    || (SaturatingSub(amount, 1) * 10_000 < 2 * step && 1 + RoundedUpFees(1, protocolBps, creatorBps) <= amount)
  }

  /** Two or more lamports priced at a wrapped rate cost more than the amount, fees included. */
  lemma WrappedSpendExceeds(s: nat, amount: nat, sum: nat, wrapped: nat, fees: nat)
    requires s >= 2 && wrapped < U64_LIMIT && sum == wrapped + U64_LIMIT
    requires (amount - 1) * 10_000 < (s + 1) * (10_000 + wrapped)
    requires s * sum <= fees * 10_000
    ensures s + fees > amount
  {
    assert (s + 1) * (10_000 + wrapped) == s * 10_000 + s * wrapped + 10_000 + wrapped;
    assert s * sum == s * wrapped + s * U64_LIMIT;
    assert s * U64_LIMIT >= 2 * U64_LIMIT;
  }

  /** The quotient of a spend below one price step is zero, and below two at most one. */
  lemma FewLamports(s: nat, spendable: nat, step: nat)
    requires step > 0 && s * step <= spendable < s * step + step
    ensures s == 0 <==> spendable < step
    ensures s <= 1 <==> spendable < 2 * step
  {
    if s >= 1 {
      MulMonotone(1, s, step);
    }
    if s >= 2 {
      MulMonotone(2, s, step);
    }
  }

  lemma SpendSteps(amount: u64, protocolBps: u64, creatorBps: u64)
    ensures var wrapped := Wrap64(protocolBps + creatorBps);
            var s, step := SolIntoCurve(amount, wrapped), 10_000 + wrapped;
            && s * step <= SaturatingSub(amount, 1) * 10_000 < (s + 1) * step
            && (s == 0 <==> SaturatingSub(amount, 1) * 10_000 < step)
            && (s <= 1 <==> SaturatingSub(amount, 1) * 10_000 < 2 * step)
  {
    var wrapped := Wrap64(protocolBps + creatorBps);
    var s: nat, step: nat := SolIntoCurve(amount, wrapped), wrapped as nat + 10_000;
    if amount > 0 {
      SolIntoCurveBounds(amount, wrapped);
    } else {
      FloorDivUnique(0, step, 0);
    }
    assert (s + 1) * step == s * step + step;
    FewLamports(s, SaturatingSub(amount, 1) * 10_000, step);
  }

  lemma TwoLamportsExceed(amount: u64, protocolBps: u64, creatorBps: u64)
    requires amount > 0 && protocolBps + creatorBps >= U64_LIMIT
    requires SolIntoCurve(amount, Wrap64(protocolBps + creatorBps)) >= 2
    ensures var s := SolIntoCurve(amount, Wrap64(protocolBps + creatorBps));
            s + RoundedUpFees(s, protocolBps, creatorBps) > amount
  {
    var sum: nat, wrapped: nat := protocolBps + creatorBps, Wrap64(protocolBps + creatorBps);
    var s: nat := SolIntoCurve(amount, wrapped);
    var fees := RoundedUpFees(s, protocolBps, creatorBps);
    assert (amount - 1) * 10_000 < (s + 1) * (10_000 + wrapped) by {
      SolIntoCurveBounds(amount, wrapped);
    }
    assert s * sum <= fees * 10_000 by {
      RoundedUpFeesBound(s, protocolBps, creatorBps);
    }
    WrappedSpendExceeds(s, amount, sum, wrapped, fees);
  }

  /** The three cases put together. */
  lemma BudgetByLamports(s: nat, amount: nat, spendable: nat, step: nat, fees: nat, feesOnOne: nat)
    requires s == 0 <==> spendable < step
    requires s <= 1 <==> spendable < 2 * step
    requires s == 0 ==> fees == 0
    requires s == 1 ==> fees == feesOnOne
    requires s >= 2 ==> s + fees > amount
    ensures s + fees <= amount <==> spendable < step || (spendable < 2 * step && 1 + feesOnOne <= amount)
  {
  }

  /** With a wrapping sum the budget survives exactly where next to nothing is spent. */
  lemma WrappedBudget(amount: u64, protocolBps: u64, creatorBps: u64)
    requires protocolBps + creatorBps >= U64_LIMIT
    ensures var s := SolIntoCurve(amount, Wrap64(protocolBps + creatorBps));
            s + RoundedUpFees(s, protocolBps, creatorBps) <= amount <==> RatesPriced(amount, protocolBps, creatorBps)
  {
    var wrapped: nat := Wrap64(protocolBps + creatorBps);
    var s, step := SolIntoCurve(amount, wrapped), 10_000 + wrapped;
    SpendSteps(amount, protocolBps, creatorBps);
    NothingNoFees(protocolBps, creatorBps);
    if s >= 2 {
      TwoLamportsExceed(amount, protocolBps, creatorBps);
    }
    BudgetByLamports(s, amount, SaturatingSub(amount, 1) * 10_000, step, RoundedUpFees(s, protocolBps, creatorBps),
                     RoundedUpFees(1, protocolBps, creatorBps));
  }

  lemma CeilFeesFit(s: u64, protocolBps: u64, creatorBps: u64)
    requires RoundedUpFees(s, protocolBps, creatorBps) < U64_LIMIT
    ensures FeeCeil(s, protocolBps) + FeeCeil(s, creatorBps) == RoundedUpFees(s, protocolBps, creatorBps)
  {
    FeesFit(s, protocolBps);
    FeesFit(s, creatorBps);
  }

  /** The spend and both fees, each rounded up on its own, stay inside the amount exactly while the rates are priced. */
  lemma BuyStaysWithinAmountExactly(amount: u64, protocolBps: u64, creatorBps: u64)
    ensures var s := SolIntoCurve(amount, Wrap64(protocolBps + creatorBps));
            && (s + RoundedUpFees(s, protocolBps, creatorBps) <= amount
                <==> RatesPriced(amount, protocolBps, creatorBps))
            && (RatesPriced(amount, protocolBps, creatorBps) ==>
                  FeeCeil(s, protocolBps) + FeeCeil(s, creatorBps) == RoundedUpFees(s, protocolBps, creatorBps))
  {
    var sum := protocolBps + creatorBps;
    var s := SolIntoCurve(amount, Wrap64(sum));
    if sum < U64_LIMIT {
      Wrap64Identity(sum);
      SpendLeavesRoundUps(amount, protocolBps, creatorBps);
    } else {
      WrappedBudget(amount, protocolBps, creatorBps);
    }
    if RatesPriced(amount, protocolBps, creatorBps) {
      CeilFeesFit(s, protocolBps, creatorBps);
    }
  }

  lemma NothingNoFees(protocolBps: nat, creatorBps: nat)
    ensures RoundedUpFees(0, protocolBps, creatorBps) == 0
  {
    assert 0 * protocolBps == 0 && 0 * creatorBps == 0;
  }

  /** The smallest wrapping sum: two lamports buy one lamport of input that owes fees beyond any amount. */
  lemma WrappedRatesOverspend()
    ensures var half := 0x8000_0000_0000_0000;
            && Wrap64(half + half) == 0
            && SolIntoCurve(2, Wrap64(half + half)) == 1
            && RoundedUpFees(1, half, half) > 1_000_000_000_000_000
            && !RatesPriced(2, half, half)
  {
    var half := 0x8000_0000_0000_0000;
    assert SolIntoCurve(2, 0) == 1;
    RoundedUpFeesBound(1, half, half);
  }

  /**
   Under exactly the same condition the spend is the program's corrected net SOL or one lamport
   less, so the curve input exceeds the program's `net_sol - 1` by zero or one.
   */
  lemma SpendTracksIdlExactly(amount: u64, protocolBps: u64, creatorBps: u64)
    requires amount > 0
    ensures var s := SolIntoCurve(amount, Wrap64(protocolBps + creatorBps));
            var net := IdlNetSol(amount, protocolBps, creatorBps);
            net - 1 <= s <= net <==> RatesPriced(amount, protocolBps, creatorBps)
  {
    var sum := protocolBps + creatorBps;
    if sum < U64_LIMIT {
      Wrap64Identity(sum);
      SpendTracksIdl(amount, protocolBps, creatorBps);
    } else {
      SpendSteps(amount, protocolBps, creatorBps);
      NothingNoFees(protocolBps, creatorBps);
      RoundedUpFeesBound(1, protocolBps, creatorBps);
      WrappedNet(amount, sum, Wrap64(sum), SolIntoCurve(amount, Wrap64(sum)),
                 IdlGrossNet(amount, protocolBps, creatorBps), RoundedUpFees(1, protocolBps, creatorBps));
    }
  }

  /** At the true rate of a wrapping sum at most one lamport is left net, and only if its fees are covered. */
  lemma WrappedNet(amount: nat, sum: nat, wrapped: nat, s: nat, net: nat, feesOnOne: nat)
    requires amount > 0 && wrapped < U64_LIMIT && sum == wrapped + U64_LIMIT
    requires s * (10_000 + wrapped) <= (amount - 1) * 10_000 < (s + 1) * (10_000 + wrapped)
    requires net * (10_000 + sum) <= amount * 10_000 < net * (10_000 + sum) + (10_000 + sum)
    requires sum <= feesOnOne * 10_000
    ensures s == 0 ==> net == 0
    ensures s == 1 ==> net <= 1 && (1 + feesOnOne <= amount ==> net == 1)
    ensures s >= 2 ==> net < s
  {
    FewLamports(net, amount * 10_000, 10_000 + sum);
    if s >= 2 {
      NetBelowSpend(amount, sum, wrapped, s, net);
    }
  }

  lemma NetBelowSpend(amount: nat, sum: nat, wrapped: nat, s: nat, net: nat)
    requires s >= 2 && amount > 0 && wrapped < U64_LIMIT && sum == wrapped + U64_LIMIT
    requires (amount - 1) * 10_000 < (s + 1) * (10_000 + wrapped)
    requires net * (10_000 + sum) <= amount * 10_000
    ensures net < s
  {
    assert (s + 1) * (10_000 + wrapped) == s * (10_000 + wrapped) + 10_000 + wrapped;
    assert s * (10_000 + sum) == s * (10_000 + wrapped) + s * U64_LIMIT;
    MulCancelStrict(net, s, 10_000 + sum);
  }

  lemma SpendBracketed(amount: u64, protocolBps: u64, creatorBps: u64)
    requires amount > 0 && RatesPriced(amount, protocolBps, creatorBps)
    ensures var s := SolIntoCurve(amount, Wrap64(protocolBps + creatorBps));
            var net := IdlNetSol(amount, protocolBps, creatorBps);
            net - 1 <= s <= net <= amount && 0 <= net
  {
    SpendTracksIdlExactly(amount, protocolBps, creatorBps);
    SolIntoCurveBounds(amount, Wrap64(protocolBps + creatorBps));
  }

  /**
   The quote lies between the outputs for `net - 1` and `net`, under the cap of the real reserves;
   what it does not report as fee is one of those two, and its minimum is the kept share rounded up.
   */
  predicate PricedAround(curve: Curve, fees: Fees, amount: u64, slippageBps: u64, net: u64)
    requires slippageBps < 10_000
  {
    var quote := ComputeQuote(curve, fees, BuySide, amount, slippageBps);
    && quote.Ok?
    && quote.value.inAmount == amount
    && quote.value.applicationFee == quote.value.sponsorshipFee == 0
    && net - 1 <= amount - quote.value.fee <= net
    && quote.value.minOut == CeilShare(quote.value.expectedOut, 10_000 - slippageBps)
    && quote.value.minOut <= quote.value.expectedOut <= curve.realTokenReserves
    && quote.value.expectedOut <= BaseOutForQuoteIn(curve.quoteReserves, curve.baseReserves, net)
    && (net > 0 ==>
          Min(BaseOutForQuoteIn(curve.quoteReserves, curve.baseReserves, net - 1), curve.realTokenReserves)
          <= quote.value.expectedOut)
  }

  lemma BuyTracksSpend(curve: Curve, fees: Fees, amount: u64, slippageBps: u64, net: u64)
    requires slippageBps < 10_000 && net <= amount
    requires net - 1 <= SolIntoCurve(amount, Wrap64(fees.protocolBps + CreatorBps(curve, fees))) <= net
    ensures PricedAround(curve, fees, amount, slippageBps, net)
  {
    CappedOutputs(curve, SolIntoCurve(amount, Wrap64(fees.protocolBps + CreatorBps(curve, fees))), net);
    BuyQuoteFields(curve, fees, amount, slippageBps);
  }

  lemma CappedOutputs(curve: Curve, s: u64, net: u64)
    requires net - 1 <= s <= net
    ensures BaseOutForQuoteIn(curve.quoteReserves, curve.baseReserves, s)
         <= BaseOutForQuoteIn(curve.quoteReserves, curve.baseReserves, net)
    ensures net > 0 ==>
      BaseOutForQuoteIn(curve.quoteReserves, curve.baseReserves, net - 1)
      <= BaseOutForQuoteIn(curve.quoteReserves, curve.baseReserves, s)
  {
    OutputMonotone(curve.quoteReserves, curve.baseReserves, s, net);
    if net > 0 {
      OutputMonotone(curve.quoteReserves, curve.baseReserves, net - 1, s);
    }
  }

  lemma BuyQuoteFields(curve: Curve, fees: Fees, amount: u64, slippageBps: u64)
    ensures var s := SolIntoCurve(amount, Wrap64(fees.protocolBps + CreatorBps(curve, fees)));
            var out := Min(BaseOutForQuoteIn(curve.quoteReserves, curve.baseReserves, s), curve.realTokenReserves);
            ComputeQuote(curve, fees, BuySide, amount, slippageBps)
            == Quoted(amount, out, slippageBps, SaturatingSub(amount, s))
  {
  }

  /** A quoted buy is never below the program's own output, nor above its output for one lamport more. */
  lemma BuyQuoteTracksIdl(curve: Curve, fees: Fees, amount: u64, slippageBps: u64)
    requires amount > 0 && slippageBps < 10_000
    requires RatesPriced(amount, fees.protocolBps, if curve.creator == SYSTEM_PROGRAM then 0 else fees.creatorBps)
    ensures var creatorBps := if curve.creator == SYSTEM_PROGRAM then 0 else fees.creatorBps;
            var net := IdlNetSol(amount, fees.protocolBps, creatorBps);
            0 <= net <= amount && PricedAround(curve, fees, amount, slippageBps, net)
  {
    SpendBracketed(amount, fees.protocolBps, CreatorBps(curve, fees));
    BuyTracksSpend(curve, fees, amount, slippageBps, IdlNetSol(amount, fees.protocolBps, CreatorBps(curve, fees)));
  }

  /** The curve once a quoted buy has settled: the spend is the amount less the quoted fee. */
  function AfterBuy(curve: Curve, buy: Quote): Curve {
    curve.(quoteReserves := Wrap64(curve.quoteReserves + SaturatingSub(buy.inAmount, buy.fee)),
           baseReserves := SaturatingSub(curve.baseReserves, buy.expectedOut))
  }

  /** Buying and selling straight back returns no more than what entered the curve, at any rates. */
  lemma RoundTripNeverProfits(curve: Curve, fees: Fees, amount: u64, slippageBps: u64, sellSlippageBps: u64,
                              buy: Quote, sell: Quote)
    requires slippageBps < 10_000 && sellSlippageBps < 10_000
    requires curve.quoteReserves + amount < U64_LIMIT
    requires ComputeQuote(curve, fees, BuySide, amount, slippageBps) == Ok(buy)
    requires ComputeQuote(AfterBuy(curve, buy), fees, SellSide, buy.expectedOut, sellSlippageBps) == Ok(sell)
    ensures sell.expectedOut + buy.fee <= amount
  {
    var s := SolIntoCurve(amount, Wrap64(fees.protocolBps + CreatorBps(curve, fees)));
    SpendWithinAmount(amount, Wrap64(fees.protocolBps + CreatorBps(curve, fees)));
    BuyQuoteFields(curve, fees, amount, slippageBps);
    OutputWithinReserve(curve.quoteReserves, curve.baseReserves, s);
    Wrap64Identity(curve.quoteReserves + s);
    BuyBackCostsAtMost(curve.quoteReserves, curve.baseReserves, s, buy.expectedOut);
    SellPaysAtMostGross(AfterBuy(curve, buy), fees, buy.expectedOut, sellSlippageBps);
  }

  lemma SpendWithinAmount(amount: u64, totalBps: u64)
    ensures SolIntoCurve(amount, totalBps) <= amount
  {
    if amount > 0 {
      SolIntoCurveBounds(amount, totalBps);
    } else {
      FloorDivUnique(0, totalBps + 10_000, 0);
    }
  }

  lemma SellPaysAtMostGross(curve: Curve, fees: Fees, tokens: u64, slippageBps: u64)
    requires slippageBps < 10_000
    ensures var sell := ComputeQuote(curve, fees, SellSide, tokens, slippageBps);
            && sell.Ok?
            && sell.value.minOut <= sell.value.expectedOut
            && sell.value.expectedOut <= QuoteOutForBaseIn(curve.quoteReserves, curve.baseReserves, tokens)
  {
    SellQuoteFields(curve, fees, tokens, slippageBps);
  }

  lemma SellFeeWrapsOnce(curve: Curve, fees: Fees, gross: u64)
    ensures Wrap64(FeeCeil(gross, fees.protocolBps)
                   + if curve.creator != SYSTEM_PROGRAM then FeeCeil(gross, fees.creatorBps) else 0)
         == Wrap64(RoundedUpFees(gross, fees.protocolBps, CreatorBps(curve, fees)))
  {
    var protocol := CeilShare(gross, fees.protocolBps);
    if curve.creator != SYSTEM_PROGRAM {
      WrapSum(protocol, CeilShare(gross, fees.creatorBps));
    } else {
      NoRateNoShare(gross);
      WrapSum(protocol, 0);
    }
  }

  /** The fields of a quoted sell, with the fee as one sum that wraps once. */
  lemma SellQuoteFields(curve: Curve, fees: Fees, tokens: u64, slippageBps: u64)
    ensures var gross := QuoteOutForBaseIn(curve.quoteReserves, curve.baseReserves, tokens);
            var fee := Wrap64(RoundedUpFees(gross, fees.protocolBps, CreatorBps(curve, fees)));
            ComputeQuote(curve, fees, SellSide, tokens, slippageBps)
            == Quoted(tokens, SaturatingSub(gross, fee), slippageBps, fee)
  {
    SellFeeWrapsOnce(curve, fees, QuoteOutForBaseIn(curve.quoteReserves, curve.baseReserves, tokens));
  }

  lemma NoRateNoShare(amount: nat)
    ensures CeilShare(amount, 0) == 0
  {
    assert amount * 0 == 0;
  }

  /**
   A sell charges both rates of the gross output, each rounded up, exactly while their sum fits 64
   bits, and pays out the rest exactly while the gross covers it. Rates that add up to the whole at
   most owe no more than one lamport beyond the gross, and then nothing is paid out. A curve without a
   creator charges no creator fee.
   */
  lemma SellPaysGrossLessFees(curve: Curve, fees: Fees, tokens: u64, slippageBps: u64)
    requires slippageBps < 10_000
    ensures var creatorBps := if curve.creator == SYSTEM_PROGRAM then 0 else fees.creatorBps;
            var gross := QuoteOutForBaseIn(curve.quoteReserves, curve.baseReserves, tokens);
            var due := CeilShare(gross, fees.protocolBps) + CeilShare(gross, creatorBps);
            var sell := ComputeQuote(curve, fees, SellSide, tokens, slippageBps);
            && sell.Ok?
            && sell.value.inAmount == tokens && sell.value.applicationFee == sell.value.sponsorshipFee == 0
            && sell.value.minOut == CeilShare(sell.value.expectedOut, 10_000 - slippageBps) <= sell.value.expectedOut
            && (sell.value.fee == due <==> due < U64_LIMIT)
            && (sell.value.fee == due && sell.value.expectedOut + due == gross <==> due <= gross)
            && (fees.protocolBps + creatorBps <= 10_000 ==>
                  sell.value.fee == due <= gross + 1 && sell.value.expectedOut == Max(gross - due, 0))
  {
    var gross := QuoteOutForBaseIn(curve.quoteReserves, curve.baseReserves, tokens);
    var due := RoundedUpFees(gross, fees.protocolBps, CreatorBps(curve, fees));
    SellQuoteFields(curve, fees, tokens, slippageBps);
    WrapExactly(due);
    GrossBelowLimit(curve, tokens);
    if fees.protocolBps + CreatorBps(curve, fees) <= 10_000 {
      DueWithinOne(gross, fees.protocolBps, CreatorBps(curve, fees));
    }
  }

  lemma DueWithinOne(gross: nat, p: nat, c: nat)
    requires p + c <= 10_000
    ensures RoundedUpFees(gross, p, c) <= gross + 1
  {
    RoundedUpFeesBound(gross, p, c);
    MulMonotone(p + c, 10_000, gross);
  }

  lemma GrossBelowLimit(curve: Curve, tokens: u64)
    ensures QuoteOutForBaseIn(curve.quoteReserves, curve.baseReserves, tokens) + 1 < U64_LIMIT
  {
    OutputWithinReserve(curve.baseReserves, curve.quoteReserves, tokens);
    if curve.quoteReserves > 0 && curve.baseReserves > 0 {
      OutputIsLargestAffordable(curve.baseReserves, curve.quoteReserves, tokens);
    }
  }
}
