/** Reserving and charging the sponsorship ceiling, src/solana/gas_sponsor/mod.rs. */
module GasSponsors {
  import opened Types
  import opened SolanaTypes
  import opened SdkFees
  import SponsorCost

  const DEFAULT_MAX_COST_LAMPORTS: u64 := 10_000_000
  const DEFAULT_MAX_FEE_USDC: u64 := 3_000_000

  datatype GasSponsor = GasSponsor(wallet: Pubkey, feeRecipient: Pubkey, policy: SponsorCost.Policy)

  /** A sponsor as first built: it pays, is reimbursed itself, and charges under these ceilings. */
  function NewSponsor(wallet: Pubkey): Result<GasSponsor> {
    if wallet == SYSTEM_PROGRAM then Err(BuildError)
    else
      var policy :- SponsorCost.NewPolicy(DEFAULT_MAX_COST_LAMPORTS, DEFAULT_MAX_FEE_USDC);
      Ok(GasSponsor(wallet, wallet, policy))
  }

  /** Every nonzero wallet can sponsor, and however its policy is then configured it stays sound. */
  lemma NewSponsorIsSound(wallet: Pubkey, calls: seq<SponsorCost.BuilderCall>)
    ensures NewSponsor(wallet).Ok? <==> wallet != SYSTEM_PROGRAM
    ensures NewSponsor(wallet).Ok? ==>
      && NewSponsor(wallet).value.wallet == NewSponsor(wallet).value.feeRecipient == wallet
      && NewSponsor(wallet).value.policy == SponsorCost.Policy(10_000_000, 3_000_000, 1_000_000)
      && NewSponsor(wallet).value.policy.Sound()
      && var built := SponsorCost.ConfigureAll(NewSponsor(wallet).value.policy, calls);
         built.Ok? ==> built.value.Sound()
  {
    var policy := SponsorCost.NewPolicy(DEFAULT_MAX_COST_LAMPORTS, DEFAULT_MAX_FEE_USDC);
    if SponsorCost.ConfigureAll(policy.value, calls).Ok? {
      SponsorCost.BuiltPolicyIsSound(DEFAULT_MAX_COST_LAMPORTS, DEFAULT_MAX_FEE_USDC, calls);
    }
  }

  /** What is left of an amount after a fee, refused unless something is. */
  function SubtractFee(amount: u64, fee: u64): Result<u64> {
    if amount > fee then Ok(amount - fee) else Err(BuildError)
  }

  function ReserveFee(sponsor: GasSponsor, trade: Trade): Result<Trade> {
    if trade.settlement != Usdc || trade.wallet == sponsor.wallet then Err(BuildError)
    else if sponsor.feeRecipient == trade.wallet then Err(BuildError)
    else if trade.side.BuySide? then
      var amount :- SubtractFee(trade.amount, sponsor.policy.maxFeeUsdc);
      Ok(trade.(amount := amount))
    else Ok(trade)
  }

  function WithReimbursement(sponsor: GasSponsor, trade: Trade, swap: Swap): Result<Swap> {
    var ceiling := sponsor.policy.maxFeeUsdc;
    var minOut :- if trade.side.SellSide? then SubtractFee(swap.quote.minOut, ceiling) else Ok(swap.quote.minOut);
    var expectedOut :-
      if trade.side.SellSide? then SubtractFee(swap.quote.expectedOut, ceiling) else Ok(swap.quote.expectedOut);
    Ok(swap.(
         quote := swap.quote.(inAmount := trade.amount, minOut := minOut, expectedOut := expectedOut,
                              sponsorshipFee := ceiling),
         instructions := swap.instructions + UsdcFee(sponsor.wallet, trade.wallet, sponsor.feeRecipient, ceiling)))
  }

  method ApplyToSwap(sponsor: GasSponsor, trade: Trade, prepared: PreparedSwap) returns (r: Result<()>)
    modifies prepared
    ensures var spec := WithReimbursement(sponsor, trade, old(prepared.View()));
            && (r.Ok? <==> spec.Ok?)
            && (r.Ok? ==> prepared.View() == spec.value)
            && (r.Err? ==> r.error == spec.error)
  {
    prepared.quote := prepared.quote.(inAmount := trade.amount);
    var ceiling := sponsor.policy.maxFeeUsdc;
    if trade.side.SellSide? {
      var minOut := SubtractFee(prepared.quote.minOut, ceiling);
      if minOut.Err? {
        return Err(minOut.error);
      }
      prepared.quote := prepared.quote.(minOut := minOut.value);
      var expectedOut := SubtractFee(prepared.quote.expectedOut, ceiling);
      if expectedOut.Err? {
        return Err(expectedOut.error);
      }
      prepared.quote := prepared.quote.(expectedOut := expectedOut.value);
    }
    prepared.quote := prepared.quote.(sponsorshipFee := ceiling);
    AppendUsdcFee(prepared, sponsor.wallet, trade.wallet, sponsor.feeRecipient, ceiling);
    return Ok(());
  }
}
