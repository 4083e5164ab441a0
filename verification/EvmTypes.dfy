/** Amounts, trades and transactions of src/evm/types.rs. */
module EvmTypes {
  import opened Types
  import opened Arithmetic

  type Address = x: int | 0 <= x < 0x1_00000000_00000000_00000000_00000000_00000000

  datatype Currency = Native | Token(token: Address) {
    function Address(): Address {
      if Native? then 0 else token
    }
  }

  datatype Trade = Trade(wallet: Address, input: Currency, output: Currency, amount: u256, slippageBps: u16) {
    predicate Valid() {
      && wallet != 0 && amount != 0 && slippageBps < 10_000
      && input.Address() != output.Address()
      && !(input.Token? && input.token == 0)
      && !(output.Token? && output.token == 0)
    }

    /** The share of the output that slippage leaves. */
    function KeptBps(): u16
      requires slippageBps <= 10_000
    {
      10_000 - slippageBps
    }

    /** What must arrive when `expected` was promised: the share that slippage keeps, rounded down. */
    function MinOut(expected: u256): u256
      requires slippageBps <= 10_000
    {
      Portion(expected, KeptBps())
    }
  }

  /** A transaction as prepared, before nonce, gas and fees are filled in. */
  datatype Transaction = Transaction(
    chainId: u64,
    from: Address,
    to: Address,
    data: seq<byte>,
    value: u256,
    gas: Option<u256>,
    gasPrice: Option<u256>,
    maxFeePerGas: Option<u256>,
    maxPriorityFeePerGas: Option<u256>
  )

  /** The chain's constants; `router` and `approvalProxy` are Relay's two contracts. */
  datatype Network = Network(chainId: u64, router: Address, approvalProxy: Address) {
    predicate Trusted(address: Address) {
      address == router || address == approvalProxy
    }
  }

  /** A basis-point share computed in two parts, the division coming first. */
  function Portion(amount: u256, bps: u16): u256 {
    Wrap256(Wrap256(FloorDiv(amount, 10_000) * bps) + FloorDiv(Wrap256(amount % 10_000 * bps), 10_000))
  }

  /** The product split at the basis-point boundary. */
  lemma SplitProduct(amount: nat, bps: nat)
    ensures FloorDiv(amount * bps, 10_000)
         == FloorDiv(amount, 10_000) * bps + FloorDiv(amount % 10_000 * bps, 10_000)
  {
    var whole, part := FloorDiv(amount, 10_000), amount % 10_000;
    assert amount == whole * 10_000 + part;
    assert amount * bps == whole * bps * 10_000 + part * bps;
    FloorDivUnique(amount * bps, 10_000, whole * bps + FloorDiv(part * bps, 10_000));
  }

  /** Up to the whole amount, no intermediate product leaves 256 bits. */
  lemma PortionIntermediatesFit(amount: nat, bps: nat)
    requires bps <= 10_000
    ensures FloorDiv(amount, 10_000) * bps <= amount
    ensures amount % 10_000 * bps <= 100_000_000
    ensures FloorDiv(amount * bps, 10_000) <= amount
  {
    MulMonotone(bps, 10_000, FloorDiv(amount, 10_000));
    MulMonotone(bps, 10_000, amount % 10_000);
    MulMonotone(bps, 10_000, amount);
  }

  /** Up to the whole amount, the result is the exact floor. */
  lemma PortionIsFloor(amount: u256, bps: u16)
    requires bps <= 10_000
    ensures Portion(amount, bps) == FloorDiv(amount * bps, 10_000) <= amount
  {
    var whole, part, total := FloorDiv(amount, 10_000) * bps, amount % 10_000 * bps, FloorDiv(amount * bps, 10_000);
    PortionIntermediatesFit(amount, bps);
    assert total == whole + FloorDiv(part, 10_000) by {
      SplitProduct(amount, bps);
    }
    WrappedTerms(whole, part, total);
  }

  lemma WrappedTerms(whole: nat, part: nat, total: u256)
    requires total == whole + FloorDiv(part, 10_000) && part < U256_LIMIT
    ensures Wrap256(Wrap256(whole) + FloorDiv(Wrap256(part), 10_000)) == total
  {
    Wrap256Identity(whole);
    Wrap256Identity(part);
    Wrap256Identity(total);
  }

  lemma MinOutIsFloor(trade: Trade, expected: u256)
    requires trade.slippageBps <= 10_000
    ensures trade.MinOut(expected) == FloorDiv(expected * trade.KeptBps(), 10_000) <= expected
  {
    PortionIsFloor(expected, trade.KeptBps());
  }

  /** A portion grows by at least the portion of what is added and by no more than all of it. */
  lemma PortionStep(x: nat, added: nat, bps: nat)
    requires bps <= 10_000
    ensures FloorDiv(x * bps, 10_000) + FloorDiv(added * bps, 10_000) <= FloorDiv((x + added) * bps, 10_000)
    ensures FloorDiv((x + added) * bps, 10_000) <= FloorDiv(x * bps, 10_000) + added
  {
    MulMonotone(bps, 10_000, added);
    assert (x + added) * bps == x * bps + added * bps;
  }

  /** What a portion leaves behind is the opposite portion, rounded up. */
  lemma PortionRemainder(x: nat, bps: nat, kept: nat)
    requires bps + kept == 10_000
    ensures x - FloorDiv(x * kept, 10_000) == CeilDiv(x * bps, 10_000)
  {
    assert x * kept + x * bps == x * (kept + bps) == x * 10_000;
  }
}
