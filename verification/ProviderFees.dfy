/** Provider-collected fees of src/solana/provider_fee.rs: the sell fee as a fixed point. */
module ProviderFees {
  import opened Types
  import opened Arithmetic
  import opened SolanaTypes
  import opened SdkFees

  /** The received fee is the requested share of the input, or of the output before the fee. */
  function ValidateAmount(fee: SdkFee, side: Side, quote: Quote, amount: u64, bps: u64): Result<()> {
    if side.SellSide? && quote.expectedOut + amount >= U64_LIMIT then Err(BuildError)
    else
      var basis: u64 := if side.BuySide? then quote.inAmount else quote.expectedOut + amount;
      var expected := Wrap64(FloorShare(basis, fee.basisPoints));
      if bps != fee.basisPoints || amount != expected then Err(BuildError) else Ok(())
  }

  /** `amount` is the floored share of the gross output that it is itself part of. */
  predicate FixedPoint(net: nat, bps: nat, amount: nat) {
    amount == FloorShare(net + amount, bps)
  }

  /** The fixed points are a band of amounts around `net·bps / (10_000 − bps)`. */
  predicate InBand(net: nat, bps: nat, kept: nat, amount: nat) {
    amount * kept <= net * bps < amount * kept + 10_000
  }

  lemma FixedPointIffInBand(net: nat, bps: nat, kept: nat, amount: nat)
    requires bps + kept == 10_000
    ensures FixedPoint(net, bps, amount) <==> InBand(net, bps, kept, amount)
  {
    assert (net + amount) * bps == net * bps + amount * bps;
    assert amount * kept + amount * bps == amount * (kept + bps) == amount * 10_000;
    if InBand(net, bps, kept, amount) {
      FloorDivUnique((net + amount) * bps, 10_000, amount);
    }
  }

  /** A fee below the whole is always solvable, and this is the largest solution. */
  lemma SellFeeIsSolvable(net: nat, bps: nat, kept: nat) returns (amount: nat)
    requires bps + kept == 10_000 && kept > 0
    ensures FixedPoint(net, bps, amount)
    ensures forall other: nat :: FixedPoint(net, bps, other) ==> other <= amount
  {
    amount := FloorDiv(net * bps, kept);
    FixedPointIffInBand(net, bps, kept, amount);
    forall other: nat | FixedPoint(net, bps, other)
      ensures other <= amount
    {
      FixedPointIffInBand(net, bps, kept, other);
      assert (amount + 1) * kept == amount * kept + kept;
      MulCancelStrict(other, amount + 1, kept);
    }
  }

  /**
   A reported sell fee is accepted exactly when it is at the requested rate, solves the equation,
   equivalently lies in the band, and the gross output fits 64 bits.
   */
  lemma SellFeeAcceptedExactly(fee: SdkFee, quote: Quote, amount: u64, bps: u64, kept: nat)
    requires fee.basisPoints + kept == 10_000
    ensures ValidateAmount(fee, SellSide, quote, amount, bps).Ok?
       <==> && bps == fee.basisPoints && quote.expectedOut + amount < U64_LIMIT
            && FixedPoint(quote.expectedOut, fee.basisPoints, amount)
    ensures ValidateAmount(fee, SellSide, quote, amount, bps).Ok?
       <==> && bps == fee.basisPoints && quote.expectedOut + amount < U64_LIMIT
            && InBand(quote.expectedOut, fee.basisPoints, kept, amount)
  {
    FixedPointIffInBand(quote.expectedOut, fee.basisPoints, kept, amount);
    if quote.expectedOut + amount < U64_LIMIT {
      ShareFits(fee, quote.expectedOut + amount);
    }
  }

  /** A share of a 64-bit amount fits 64 bits. */
  lemma ShareFits(fee: SdkFee, basis: u64)
    ensures Wrap64(FloorShare(basis, fee.basisPoints)) == FloorShare(basis, fee.basisPoints)
  {
    FeeAmountBounds(fee, basis);
    MulMonotone(fee.basisPoints, 9_999, basis);
    Wrap64Identity(FloorShare(basis, fee.basisPoints));
  }

  /**
   A reported buy fee is accepted exactly when it is at the requested rate and leaves less than one
   unit of the rate's share of the input uncharged; so one amount at most is accepted, and a
   positive input is never consumed by it.
   */
  lemma BuyFeeAcceptedExactly(fee: SdkFee, quote: Quote, amount: u64, bps: u64)
    ensures ValidateAmount(fee, BuySide, quote, amount, bps).Ok?
       <==> bps == fee.basisPoints && amount * 10_000 <= quote.inAmount * fee.basisPoints < amount * 10_000 + 10_000
    ensures ValidateAmount(fee, BuySide, quote, amount, bps).Ok? && quote.inAmount > 0 ==> amount < quote.inAmount
  {
    FeeAmountBounds(fee, quote.inAmount);
    if amount * 10_000 <= quote.inAmount * fee.basisPoints < amount * 10_000 + 10_000 {
      FloorDivUnique(quote.inAmount * fee.basisPoints, 10_000, amount);
    }
  }
}
