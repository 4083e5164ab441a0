/** The pair quote of src/evm/dexes/uniswap/v2.rs. */
module UniswapV2 {
  import opened Types
  import opened Arithmetic

  /** Output for `amount` at the pair's reserves, in wrapping 256-bit arithmetic. */
  function AmountOut(reserveIn: u128, reserveOut: u128, amount: u256): Result<u256> {
    if reserveIn == 0 || reserveOut == 0 then Err(VenueError)
    else
      var inAfterFee := Wrap256(amount * 997);
      var denominator := Wrap256(Wrap256(reserveIn * 1_000) + inAfterFee);
      if denominator == 0 then Err(VenueError)
      else Ok(FloorDiv(Wrap256(inAfterFee * reserveOut), denominator))
  }

  /** The products of the quote stay inside 256 bits. */
  predicate ProductsFit(reserveIn: u128, reserveOut: u128, amount: u256) {
    && amount * 997 * reserveOut < U256_LIMIT
    && reserveIn * 1_000 + amount * 997 < U256_LIMIT
  }

  /** A pair's balances have 112 bits; against those, inputs of up to 134 bits never overflow. */
  lemma ProductsFitPair(reserveIn: u128, reserveOut: u128, amount: u256)
    requires reserveIn < 0x1_0000000000000000000000000000 && reserveOut < 0x1_0000000000000000000000000000
    requires amount < 0x40_00000000000000000000000000000000
    ensures ProductsFit(reserveIn, reserveOut, amount)
  {
    var widest := 0x40_00000000000000000000000000000000 * 1_024;
    MulMonotone(amount * 997, widest, reserveOut);
    MulMonotone(reserveOut, 0x1_0000000000000000000000000000, widest);
  }

  /** The fee-adjusted invariant a pair enforces, section 3.2.1 of the Uniswap v2 Core whitepaper. */
  predicate PairAccepts(reserveIn: nat, reserveOut: nat, amount: nat, out: nat) {
    && out <= reserveOut
    && 1_000 * (reserveIn + amount) - 3 * amount >= 0
    && (1_000 * (reserveIn + amount) - 3 * amount) * (1_000 * (reserveOut - out))
       >= 1_000_000 * (reserveIn * reserveOut)
  }

  lemma QuoteValue(reserveIn: u128, reserveOut: u128, amount: u256)
    requires reserveIn > 0 && reserveOut > 0 && ProductsFit(reserveIn, reserveOut, amount)
    ensures AmountOut(reserveIn, reserveOut, amount)
         == Ok(FloorDiv(amount * 997 * reserveOut, reserveIn * 1_000 + amount * 997))
  {
    Wrap256Identity(amount * 997);
    Wrap256Identity(reserveIn * 1_000);
    Wrap256Identity(reserveIn * 1_000 + amount * 997);
    Wrap256Identity(amount * 997 * reserveOut);
    QuotientFits(reserveIn, reserveOut, amount);
  }

  lemma QuotientFits(reserveIn: u128, reserveOut: u128, amount: u256)
    requires reserveIn > 0 && reserveOut > 0
    ensures FloorDiv(amount * 997 * reserveOut, reserveIn * 1_000 + amount * 997) < reserveOut
  {
    var kept, d := amount * 997, reserveIn * 1_000 + amount * 997;
    var best := FloorDiv(kept * reserveOut, d);
    assert reserveOut * d == 1_000 * (reserveIn * reserveOut) + kept * reserveOut;
    assert reserveIn * reserveOut > 0;
    MulCancelStrict(best, reserveOut, d);
  }

  /** An output is accepted by the pair exactly up to the payable product. */
  lemma AcceptedIffPayable(reserveIn: nat, reserveOut: nat, amount: nat, out: nat)
    requires out <= reserveOut
    ensures PairAccepts(reserveIn, reserveOut, amount, out)
       <==> out * (reserveIn * 1_000 + amount * 997) <= amount * 997 * reserveOut
  {
    var d := reserveIn * 1_000 + amount * 997;
    assert 1_000 * (reserveIn + amount) - 3 * amount == d;
    assert d * (1_000 * (reserveOut - out)) == 1_000 * (d * reserveOut - out * d);
    assert d * reserveOut == 1_000 * (reserveIn * reserveOut) + amount * 997 * reserveOut;
  }

  /** The quote is the largest output the pair accepts, and lies below its reserve. */
  lemma QuoteIsOptimal(reserveIn: u128, reserveOut: u128, amount: u256, out: nat)
    requires reserveIn > 0 && reserveOut > 0 && ProductsFit(reserveIn, reserveOut, amount)
    ensures AmountOut(reserveIn, reserveOut, amount).Ok?
    ensures AmountOut(reserveIn, reserveOut, amount).value < reserveOut
    ensures PairAccepts(reserveIn, reserveOut, amount, out)
       <==> out <= AmountOut(reserveIn, reserveOut, amount).value
  {
    QuoteValue(reserveIn, reserveOut, amount);
    QuotientFits(reserveIn, reserveOut, amount);
    if out <= reserveOut {
      AcceptedIffPayable(reserveIn, reserveOut, amount, out);
      UpToQuotient(amount * 997 * reserveOut, reserveIn * 1_000 + amount * 997, out);
    }
  }

  lemma UpToQuotient(a: nat, d: nat, q: nat)
    requires d > 0
    ensures q * d <= a <==> q <= FloorDiv(a, d)
  {
    var best := FloorDiv(a, d);
    if q <= best {
      MulMonotone(q, best, d);
    } else {
      assert (best + 1) * d == best * d + d;
      MulMonotone(best + 1, q, d);
    }
  }

  lemma QuoteMonotone(reserveIn: u128, reserveOut: u128, less: u256, more: u256)
    requires reserveIn > 0 && reserveOut > 0 && less <= more && ProductsFit(reserveIn, reserveOut, more)
    ensures AmountOut(reserveIn, reserveOut, less).Ok? && AmountOut(reserveIn, reserveOut, more).Ok?
    ensures AmountOut(reserveIn, reserveOut, less).value <= AmountOut(reserveIn, reserveOut, more).value
  {
    MulMonotone(less * 997, more * 997, reserveOut);
    QuoteValue(reserveIn, reserveOut, less);
    QuotientFits(reserveIn, reserveOut, less);
    QuoteValue(reserveIn, reserveOut, more);
    var out := AmountOut(reserveIn, reserveOut, less).value;
    MorePaysMore(reserveIn, reserveOut, less, more, out);
    UpToQuotient(more * 997 * reserveOut, reserveIn * 1_000 + more * 997, out);
  }

  /** Each further unit of input pays for `out` units of output, since `out` is within the reserve. */
  lemma MorePaysMore(reserveIn: nat, reserveOut: nat, less: nat, more: nat, out: nat)
    requires out <= reserveOut && less <= more
    requires out * (reserveIn * 1_000 + less * 997) <= less * 997 * reserveOut
    ensures out * (reserveIn * 1_000 + more * 997) <= more * 997 * reserveOut
  {
    var extra := (more - less) * 997;
    MulMonotone(out, reserveOut, extra);
    assert out * (reserveIn * 1_000 + more * 997) == out * (reserveIn * 1_000 + less * 997) + out * extra;
    assert more * 997 * reserveOut == less * 997 * reserveOut + reserveOut * extra;
  }
}
