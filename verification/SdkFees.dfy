/** The settlement-currency fee of src/solana/sdk_fee.rs and its effect on trades and quotes. */
module SdkFees {
  import opened Types
  import opened Arithmetic
  import opened SolanaTypes

  datatype FeeCollection = BySdk | ByProvider

  datatype FeeSettings = FeeSettings(recipient: Pubkey, basisPoints: u16, collection: FeeCollection)

  /** A constructed fee: a nonzero recipient and a rate below the whole. */
  type SdkFee = f: FeeSettings | f.recipient != SYSTEM_PROGRAM && f.basisPoints < 10_000
    witness FeeSettings(TOKEN_PROGRAM, 0, BySdk)

  /** The prepared swap that fees are added to; its fields change as they are. */
  class PreparedSwap {
    var quote: Quote
    var instructions: seq<Instruction>
    const format: TransactionFormat

    constructor (swap: Swap)
      ensures View() == swap
    {
      quote, instructions, format := swap.quote, swap.instructions, swap.format;
    }

    function View(): Swap
      reads this
    {
      Swap(quote, instructions, format)
    }
  }

  function FeeAmount(fee: SdkFee, basis: u64): u64 {
    Wrap64(FloorShare(basis, fee.basisPoints))
  }

  lemma FeeAmountBounds(fee: SdkFee, basis: u64)
    ensures FeeAmount(fee, basis) * 10_000 <= basis * fee.basisPoints < (FeeAmount(fee, basis) + 1) * 10_000
    ensures FeeAmount(fee, basis) <= basis
    ensures basis > 0 ==> FeeAmount(fee, basis) < basis
  {
    MulMonotone(fee.basisPoints, 9_999, basis);
    var q := FloorShare(basis, fee.basisPoints);
    assert q <= basis;
    Wrap64Identity(q);
  }

  function TradeAfterFee(fee: SdkFee, trade: Trade): Result<Trade> {
    if !trade.Valid() then Err(BuildError)
    else if fee.basisPoints > 0 && trade.wallet == fee.recipient then Err(BuildError)
    else if trade.side.BuySide? then
      FeeAmountBounds(fee, trade.amount);
      Ok(trade.(amount := trade.amount - FeeAmount(fee, trade.amount)))
    else Ok(trade)
  }

  function QuoteAfterFee(fee: SdkFee, trade: Trade, quote: Quote): Result<Quote> {
    if quote.minOut == 0 || quote.expectedOut < quote.minOut then Err(BuildError)
    else
      var charged := FeeAmount(fee, if trade.side.BuySide? then trade.amount else quote.expectedOut);
      var updated := quote.(inAmount := trade.amount, applicationFee := charged);
      if trade.side.BuySide? then Ok(updated)
      else if charged >= quote.minOut then Err(BuildError)
      else Ok(updated.(expectedOut := quote.expectedOut - charged, minOut := quote.minOut - charged))
  }

  /** An idempotent account setup for the recipient, then the transfer. */
  function UsdcFee(payer: Pubkey, wallet: Pubkey, recipient: Pubkey, amount: u64): seq<Instruction> {
    [CreateAtaIdempotent(payer, recipient, USDC_MINT), UsdcTransfer(wallet, recipient, amount)]
  }

  function FeeInstructions(fee: SdkFee, trade: Trade, amount: u64, payer: Pubkey): seq<Instruction> {
    if amount == 0 then []
    else if trade.settlement.Sol? then [SystemTransfer(trade.wallet, fee.recipient, amount)]
    else UsdcFee(payer, trade.wallet, fee.recipient, amount)
  }

  function WithSdkFee(fee: SdkFee, trade: Trade, swap: Swap, payer: Pubkey): Result<Swap> {
    var quote :- QuoteAfterFee(fee, trade, swap.quote);
    Ok(swap.(quote := quote,
             instructions := swap.instructions + FeeInstructions(fee, trade, quote.applicationFee, payer)))
  }

  method AppendUsdcFee(prepared: PreparedSwap, payer: Pubkey, wallet: Pubkey, recipient: Pubkey, amount: u64)
    modifies prepared`instructions
    ensures prepared.instructions == old(prepared.instructions) + UsdcFee(payer, wallet, recipient, amount)
  {
    prepared.instructions := prepared.instructions + [CreateAtaIdempotent(payer, recipient, USDC_MINT)];
    prepared.instructions := prepared.instructions + [UsdcTransfer(wallet, recipient, amount)];
  }

  /** On refusal the caller drops the swap. */
  method ApplyWithPayer(fee: SdkFee, trade: Trade, prepared: PreparedSwap, payer: Pubkey) returns (r: Result<()>)
    modifies prepared
    ensures var spec := WithSdkFee(fee, trade, old(prepared.View()), payer);
            && (r.Ok? <==> spec.Ok?)
            && (r.Ok? ==> prepared.View() == spec.value)
            && (r.Err? ==> r.error == spec.error)
  {
    var quote := prepared.quote;
    if quote.minOut == 0 || quote.expectedOut < quote.minOut {
      return Err(BuildError);
    }
    quote := quote.(inAmount := trade.amount);
    quote := quote.(applicationFee := FeeAmount(fee, if trade.side.BuySide? then trade.amount else quote.expectedOut));
    if trade.side.SellSide? {
      if quote.applicationFee >= quote.minOut {
        return Err(BuildError);
      }
      quote := quote.(expectedOut := quote.expectedOut - quote.applicationFee);
      quote := quote.(minOut := quote.minOut - quote.applicationFee);
    }
    prepared.quote := quote;
    if quote.applicationFee > 0 {
      match trade.settlement {
        case Sol =>
          prepared.instructions :=
            prepared.instructions + [SystemTransfer(trade.wallet, fee.recipient, quote.applicationFee)];
        case Usdc =>
          AppendUsdcFee(prepared, payer, trade.wallet, fee.recipient, quote.applicationFee);
      }
    }
    return Ok(());
  }
}
