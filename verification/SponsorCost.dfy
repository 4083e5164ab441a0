/** The cost policy of src/solana/gas_sponsor/cost.rs: limits, price checks and the final charge. */
module SponsorCost {
  import opened Types
  import opened Arithmetic
  import opened SolanaTypes
  import opened Transactions

  const ONE_USDC: u64 := 1_000_000
  const NANOSECONDS: nat := 1_000_000_000
  const MAX_PRICE_AGE: nat := 30 * NANOSECONDS

  /** A feed's price; times are nanoseconds on one clock. */
  datatype Price = Price(usdcUnitsPerSol: u64, observedAt: nat)

  datatype Policy = Policy(maxCostLamports: u64, maxFeeUsdc: u64, serviceFeeUsdc: u64) {
    /** What every constructed policy satisfies. */
    predicate Sound() {
      maxCostLamports > 0 && serviceFeeUsdc < maxFeeUsdc
    }
  }

  function NewPolicy(maxCostLamports: u64, maxFeeUsdc: u64): Result<Policy> {
    if maxCostLamports == 0 || maxFeeUsdc <= ONE_USDC then Err(BuildError)
    else Ok(Policy(maxCostLamports, maxFeeUsdc, ONE_USDC))
  }

  datatype BuilderCall = ServiceFee(amount: u64) | Limits(maxCostLamports: u64, maxFeeUsdc: u64)

  /** One builder call; a refused call consumes the policy. */
  function Configure(policy: Policy, call: BuilderCall): Result<Policy> {
    match call
    case ServiceFee(amount) =>
      if amount >= policy.maxFeeUsdc then Err(BuildError) else Ok(policy.(serviceFeeUsdc := amount))
    case Limits(maxCostLamports, maxFeeUsdc) =>
      if maxCostLamports == 0 || maxFeeUsdc <= policy.serviceFeeUsdc then Err(BuildError)
      else Ok(policy.(maxCostLamports := maxCostLamports, maxFeeUsdc := maxFeeUsdc))
  }

  function ConfigureAll(policy: Policy, calls: seq<BuilderCall>): Result<Policy>
    decreases |calls|
  {
    if calls == [] then Ok(policy)
    else
      var next :- Configure(policy, calls[0]);
      ConfigureAll(next, calls[1..])
  }

  /** No sequence of accepted builder calls lets the service fee reach the cap or the cost cap reach zero. */
  lemma {:induction false} BuildersKeepPolicySound(policy: Policy, calls: seq<BuilderCall>)
    requires policy.Sound() && ConfigureAll(policy, calls).Ok?
    ensures ConfigureAll(policy, calls).value.Sound()
    decreases |calls|
  {
    if calls != [] {
      BuildersKeepPolicySound(Configure(policy, calls[0]).value, calls[1..]);
    }
  }

  lemma BuiltPolicyIsSound(maxCostLamports: u64, maxFeeUsdc: u64, calls: seq<BuilderCall>)
    requires NewPolicy(maxCostLamports, maxFeeUsdc).Ok?
    requires ConfigureAll(NewPolicy(maxCostLamports, maxFeeUsdc).value, calls).Ok?
    ensures ConfigureAll(NewPolicy(maxCostLamports, maxFeeUsdc).value, calls).value.Sound()
  {
    BuildersKeepPolicySound(NewPolicy(maxCostLamports, maxFeeUsdc).value, calls);
  }

  /** The service fee in force after `calls`: the last one set, or the one before them. */
  function LastServiceFee(before: u64, calls: seq<BuilderCall>): u64 {
    if calls == [] then before
    else match calls[|calls| - 1]
      case ServiceFee(amount) => amount
      case Limits(_, _) => LastServiceFee(before, calls[..|calls| - 1])
  }

  /** The cost cap and the USDC cap in force after `calls`. */
  function LastLimits(before: (u64, u64), calls: seq<BuilderCall>): (u64, u64) {
    if calls == [] then before
    else match calls[|calls| - 1]
      case ServiceFee(_) => LastLimits(before, calls[..|calls| - 1])
      case Limits(maxCostLamports, maxFeeUsdc) => (maxCostLamports, maxFeeUsdc)
  }

  lemma {:induction false} FirstCallApplied(policy: Policy, calls: seq<BuilderCall>)
    requires calls != [] && Configure(policy, calls[0]).Ok?
    ensures var next := Configure(policy, calls[0]).value;
            && LastServiceFee(policy.serviceFeeUsdc, calls) == LastServiceFee(next.serviceFeeUsdc, calls[1..])
            && LastLimits((policy.maxCostLamports, policy.maxFeeUsdc), calls)
               == LastLimits((next.maxCostLamports, next.maxFeeUsdc), calls[1..])
    decreases |calls|
  {
    if |calls| == 1 {
      assert calls[..0] == [] && calls[1..] == [];
    } else {
      var init := calls[..|calls| - 1];
      FirstCallApplied(policy, init);
      assert calls[1..][..|calls[1..]| - 1] == init[1..];
    }
  }

  /** A configured policy holds what the last accepted call of each kind set. */
  lemma {:induction false} PolicyHoldsLastCalls(policy: Policy, calls: seq<BuilderCall>)
    requires ConfigureAll(policy, calls).Ok?
    ensures var built := ConfigureAll(policy, calls).value;
            && built.serviceFeeUsdc == LastServiceFee(policy.serviceFeeUsdc, calls)
            && (built.maxCostLamports, built.maxFeeUsdc)
               == LastLimits((policy.maxCostLamports, policy.maxFeeUsdc), calls)
    decreases |calls|
  {
    if calls != [] {
      FirstCallApplied(policy, calls);
      PolicyHoldsLastCalls(Configure(policy, calls[0]).value, calls[1..]);
    }
  }

  function Charge(policy: Policy, cost: u64, price: Price, now: nat): Result<u64> {
    if now < price.observedAt then Err(BuildError)
    else if price.usdcUnitsPerSol == 0 || now - price.observedAt > MAX_PRICE_AGE then Err(BuildError)
    else if cost > policy.maxCostLamports then Err(BuildError)
    else
      var reimbursement := CeilDiv(cost * price.usdcUnitsPerSol, 1_000_000_000);
      var charge := reimbursement + policy.serviceFeeUsdc;
      if charge > policy.maxFeeUsdc then Err(BuildError) else Ok(charge)
  }

  // ---- simulation

  datatype Simulation = Simulation(
    failed: bool,
    preBalances: Option<seq<u64>>,
    postBalances: Option<seq<u64>>,
    fee: Option<u64>
  )

  function First(balances: Option<seq<u64>>): Option<u64> {
    if balances.Some? && balances.value != [] then Some(balances.value[0]) else None
  }

  /** The fee payer's net expense in one simulation. */
  function SimulatedCost(simulation: Result<Simulation>): Result<u64> {
    if simulation.Err? then Err(RpcError)
    else if simulation.value.failed then Err(SimulationError)
    else
      var before, after := First(simulation.value.preBalances), First(simulation.value.postBalances);
      if simulation.value.fee.None? then Err(BuildError)
      else if before.None? || after.None? || before.value < after.value then Err(BuildError)
      else if before.value - after.value < simulation.value.fee.value then Err(BuildError)
      else Ok(before.value - after.value)
  }

  /** The node, the price feed and the clock, as one finalization meets them. */
  datatype CostWorld = CostWorld(
    simulate: (nat, seq<Instruction>) -> Result<Simulation>,
    price: Result<Price>,
    firstCheck: nat,
    secondCheck: nat
  )

  /** The charge and the instructions carrying it. */
  function Finalized(policy: Policy, world: CostWorld, instructions: seq<Instruction>, index: nat)
    : Result<(u64, seq<Instruction>)>
  {
    var cost :- SimulatedCost(world.simulate(0, instructions));
    if world.price.Err? then Err(BuildError)
    else
      var charge :- Charge(policy, cost, world.price.value, world.firstCheck);
      var patched :- Reimbursed(instructions, index, policy.maxFeeUsdc, charge);
      var again :- SimulatedCost(world.simulate(1, patched));
      if again != cost then Err(BuildError)
      else
        var _ :- Charge(policy, cost, world.price.value, world.secondCheck);
        Ok((charge, patched))
  }

  method FinalizeFee(policy: Policy, world: CostWorld, transaction: VersionedTransaction, index: nat)
    returns (r: Result<u64>)
    modifies transaction`instructions
    ensures var spec := Finalized(policy, world, old(transaction.instructions), index);
            && (r.Ok? <==> spec.Ok?)
            && (r.Ok? ==> r.value == spec.value.0 && transaction.instructions == spec.value.1)
            && (r.Err? ==> r.error == spec.error)
  {
    var cost := SimulatedCost(world.simulate(0, transaction.instructions));
    if cost.Err? {
      return Err(cost.error);
    }
    if world.price.Err? {
      return Err(BuildError);
    }
    var price := world.price.value;
    var charge := Charge(policy, cost.value, price, world.firstCheck);
    if charge.Err? {
      return charge;
    }
    var replaced := transaction.ReplaceReimbursement(index, policy.maxFeeUsdc, charge.value);
    if replaced.Err? {
      return Err(replaced.error);
    }
    var again := SimulatedCost(world.simulate(1, transaction.instructions));
    if again.Err? {
      return Err(again.error);
    }
    if again.value != cost.value {
      return Err(BuildError);
    }
    var rechecked := Charge(policy, cost.value, price, world.secondCheck);
    if rechecked.Err? {
      return rechecked;
    }
    return charge;
  }

  /** `units` of USDC cover `cost` lamports at the price, and one unit less would not. */
  predicate LeastCovering(units: int, cost: nat, usdcUnitsPerSol: nat) {
    && cost * usdcUnitsPerSol <= units * 1_000_000_000
    && (units - 1) * 1_000_000_000 < cost * usdcUnitsPerSol
  }

  /**
   A successful simulation in which the first account, the fee payer, ends with `cost` less than it
   started with: network fee, rent and transfers together.
   */
  predicate PayerLost(simulation: Result<Simulation>, cost: nat) {
    && simulation.Ok? && !simulation.value.failed
    && simulation.value.preBalances.Some? && simulation.value.preBalances.value != []
    && simulation.value.postBalances.Some? && simulation.value.postBalances.value != []
    && cost + simulation.value.postBalances.value[0] == simulation.value.preBalances.value[0]
    && simulation.value.fee.Some? && simulation.value.fee.value <= cost
  }

  /** The price was observed before the clock reading, by at most thirty seconds. */
  predicate PriceUsable(price: Price, now: nat) {
    price.usdcUnitsPerSol > 0 && price.observedAt <= now <= price.observedAt + 30_000_000_000
  }

  lemma CostIsPayerLoss(simulation: Result<Simulation>, cost: u64)
    ensures SimulatedCost(simulation) == Ok(cost) <==> PayerLost(simulation, cost)
    ensures SimulatedCost(simulation).Err? ==>
      SimulatedCost(simulation).error
      == if simulation.Err? then RpcError else if simulation.value.failed then SimulationError else BuildError
  {
  }

  lemma ChargeIsLeastCovering(policy: Policy, cost: u64, price: Price, now: nat, charge: u64)
    ensures Charge(policy, cost, price, now) == Ok(charge)
       <==> && PriceUsable(price, now) && cost <= policy.maxCostLamports && charge <= policy.maxFeeUsdc
            && LeastCovering(charge - policy.serviceFeeUsdc, cost, price.usdcUnitsPerSol)
  {
    var due := cost * price.usdcUnitsPerSol;
    var units: int := CeilDiv(due, 1_000_000_000);
    OnlyOneCovers(units, charge - policy.serviceFeeUsdc, due);
  }

  lemma OnlyOneCovers(units: int, other: int, due: nat)
    requires due <= units * 1_000_000_000 < due + 1_000_000_000
    ensures other == units <==> due <= other * 1_000_000_000 && (other - 1) * 1_000_000_000 < due
  {
  }

  /**
   Finalization yields `charge` and `patched` exactly when the payer loses the same amount in the
   simulation of the instructions as built and in that of the instructions with the charge patched
   in, that loss is at least the network fee each time and within the cost cap, the price is usable
   at both checks, and the charge is the service fee plus the least USDC covering the loss, within
   the USDC cap.
   */
  lemma FinalizedExactly(
      policy: Policy, world: CostWorld, instructions: seq<Instruction>, index: nat, cost: u64, charge: u64,
      patched: seq<Instruction>)
    ensures Finalized(policy, world, instructions, index) == Ok((charge, patched))
            && PayerLost(world.simulate(0, instructions), cost)
       <==> && PayerLost(world.simulate(0, instructions), cost)
            && PayerLost(world.simulate(1, patched), cost)
            && cost <= policy.maxCostLamports
            && world.price.Ok?
            && PriceUsable(world.price.value, world.firstCheck) && PriceUsable(world.price.value, world.secondCheck)
            && LeastCovering(charge - policy.serviceFeeUsdc, cost, world.price.value.usdcUnitsPerSol)
            && charge <= policy.maxFeeUsdc
            && Reimbursed(instructions, index, policy.maxFeeUsdc, charge) == Ok(patched)
  {
    CostIsPayerLoss(world.simulate(0, instructions), cost);
    CostIsPayerLoss(world.simulate(1, patched), cost);
    if world.price.Ok? {
      ChargeIsLeastCovering(policy, cost, world.price.value, world.firstCheck, charge);
      ChargeIsLeastCovering(policy, cost, world.price.value, world.secondCheck, charge);
    }
  }

  /** Every finalized charge covers a loss that both simulations show, at no less than the service fee. */
  lemma FinalizedChargeIsLeastCovering(
      policy: Policy, world: CostWorld, instructions: seq<Instruction>, index: nat) returns (cost: u64)
    requires Finalized(policy, world, instructions, index).Ok?
    ensures var (charge, patched) := Finalized(policy, world, instructions, index).value;
            && PayerLost(world.simulate(0, instructions), cost) && PayerLost(world.simulate(1, patched), cost)
            && cost <= policy.maxCostLamports
            && world.price.Ok?
            && PriceUsable(world.price.value, world.firstCheck) && PriceUsable(world.price.value, world.secondCheck)
            && LeastCovering(charge - policy.serviceFeeUsdc, cost, world.price.value.usdcUnitsPerSol)
            && policy.serviceFeeUsdc <= charge <= policy.maxFeeUsdc
            && Reimbursed(instructions, index, policy.maxFeeUsdc, charge) == Ok(patched)
  {
    var (charge, patched) := Finalized(policy, world, instructions, index).value;
    cost := SimulatedCost(world.simulate(0, instructions)).value;
    CostIsPayerLoss(world.simulate(0, instructions), cost);
    FinalizedExactly(policy, world, instructions, index, cost, charge, patched);
  }
}
