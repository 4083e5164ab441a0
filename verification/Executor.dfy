/** Building, patching, signing and submitting one Solana swap, src/solana/executor.rs. */
module Executor {
  import opened Types
  import opened Arithmetic
  import opened Bytes
  import opened SolanaTypes
  import opened Transactions
  import opened ComputeBudget
  import opened SdkFees
  import opened GasSponsors
  import opened Routing
  import SponsorCost

  /** Answers the executor gets while building: simulated units with headroom, and the gates after them. */
  datatype BuildWorld = BuildWorld(
    scaledUnits: Result<Option<u32>>,
    blockhash: Result<()>,
    compiles: bool,
    fits: bool
  )

  /** Everything outside the executor, as one submission meets it. */
  datatype SubmitWorld = SubmitWorld(
    build: BuildWorld,
    cost: SponsorCost.CostWorld,
    userSign: Message -> Option<Signature>,
    sponsorSign: Message -> Option<Signature>,
    submit: (Message, seq<Signature>) -> Option<nat>
  )

  // ---- building

  /** The unit price that V0 derives from the fee the caller is willing to spend in all. */
  function UnitPrice(priorityFeeLamports: u64, computeUnitLimit: u32): u64
    requires computeUnitLimit > 0
  {
    Wrap64(FloorDiv(priorityFeeLamports * 1_000_000, computeUnitLimit))
  }

  /**
   The runtime charges price times limit in micro-lamports, rounded up. That is never above the
   budgeted fee, and less than one price step below it exactly while the unit price fits 64 bits.
   */
  lemma PriorityFeeWithinBudget(priorityFeeLamports: u64, computeUnitLimit: u32)
    requires computeUnitLimit > 0
    ensures var price := UnitPrice(priorityFeeLamports, computeUnitLimit);
            && CeilDiv(price * computeUnitLimit, 1_000_000) <= priorityFeeLamports
            && (priorityFeeLamports * 1_000_000 < price * computeUnitLimit + computeUnitLimit
                <==> priorityFeeLamports * 1_000_000 < U64_LIMIT * computeUnitLimit)
  {
    var q := FloorDiv(priorityFeeLamports * 1_000_000, computeUnitLimit);
    WrapShrinks(q);
    WrapExactly(q);
    PriceTimesLimit(priorityFeeLamports, computeUnitLimit, q, UnitPrice(priorityFeeLamports, computeUnitLimit));
    WithinOneStep(priorityFeeLamports * 1_000_000, computeUnitLimit, q, Wrap64(q));
  }

  /** Only the quotient itself is within one step, and it is below a limit exactly when its steps are. */
  lemma WithinOneStep(a: nat, step: nat, q: nat, price: nat)
    requires step > 0 && q * step <= a < q * step + step
    requires price <= q && (price == q <==> q < U64_LIMIT)
    ensures a < price * step + step <==> a < U64_LIMIT * step
  {
    assert (q + 1) * step == q * step + step;
    if q < U64_LIMIT {
      MulMonotone(q + 1, U64_LIMIT, step);
    } else {
      MulMonotone(U64_LIMIT, q, step);
      assert (price + 1) * step == price * step + step;
      MulMonotone(price + 1, q, step);
    }
  }

  /** A budget of 3.7 billion SOL over 200,000 units is priced at four micro-lamports per unit: one lamport in all. */
  lemma PriceOverflows()
    ensures UnitPrice(3_689_348_814_741_910_324, 200_000) == 4
    ensures CeilDiv(4 * 200_000, 1_000_000) == 1
  {
  }

  lemma PriceTimesLimit(fee: nat, limit: nat, q: nat, price: nat)
    requires limit > 0 && price <= q && q * limit <= fee * 1_000_000
    ensures price * limit <= fee * 1_000_000
    ensures CeilDiv(price * limit, 1_000_000) <= fee
    ensures q <= fee * 1_000_000
  {
    MulMonotone(price, q, limit);
    MulMonotone(1, limit, q);
  }

  function TipInstructions(payer: Pubkey, tip: Option<Tip>): seq<Instruction> {
    if tip.Some? then [SystemTransfer(payer, tip.value.account, tip.value.lamports)] else []
  }

  function PrependedBudget(format: TransactionFormat, computeUnitLimit: u32, priorityFeeLamports: u64): seq<Instruction>
    requires computeUnitLimit > 0
  {
    if format.V0? then
      [BudgetInstruction(SET_COMPUTE_UNIT_LIMIT, computeUnitLimit),
       SetComputeUnitPrice(UnitPrice(priorityFeeLamports, computeUnitLimit))]
    else []
  }

  /** The distinct required signers in order of appearance after the payer. */
  function AddSigners(signers: seq<Pubkey>, accounts: seq<AccountMeta>): seq<Pubkey>
    decreases |accounts|
  {
    if accounts == [] then signers
    else
      var first := accounts[0];
      AddSigners(if first.isSigner && first.pubkey !in signers then signers + [first.pubkey] else signers,
                 accounts[1..])
  }

  function CollectSigners(signers: seq<Pubkey>, instructions: seq<Instruction>): seq<Pubkey>
    decreases |instructions|
  {
    if instructions == [] then signers
    else CollectSigners(AddSigners(signers, instructions[0].accounts), instructions[1..])
  }

  function Compile(payer: Pubkey, format: TransactionFormat, instructions: seq<Instruction>, config: Option<V1Config>)
    : Message
  {
    Message(format, CollectSigners([payer], instructions), instructions, config)
  }

  function Build(
      payer: Pubkey, instructions: seq<Instruction>, format: TransactionFormat, priorityFeeLamports: u64,
      tip: Option<Tip>, world: BuildWorld): Result<Message>
  {
    var (budget, kept) :- TakeFrom(instructions, format);
    var scaledUnits :- world.scaledUnits;
    var limit := ComputeUnitLimit(scaledUnits, budget);
    if world.blockhash.Err? then Err(RpcError)
    else if !world.compiles || !world.fits then Err(BuildError)
    else
      LimitCoversRequest(instructions, format, scaledUnits);
      Ok(Compile(payer, format,
                 PrependedBudget(format, limit, priorityFeeLamports) + kept + TipInstructions(payer, tip),
                 if format.V1? then Some(budget.HeaderConfig(limit, priorityFeeLamports)) else None))
  }

  method BuildTransaction(
      payer: Pubkey, route: Route, priorityFeeLamports: u64, tip: Option<Tip>, world: BuildWorld)
    returns (r: Result<()>, tx: VersionedTransaction?)
    modifies route`instructions
    ensures var spec := Build(payer, old(route.instructions), route.format, priorityFeeLamports, tip, world);
            && (r.Ok? <==> spec.Ok?)
            && (r.Err? ==> r.error == spec.error)
            && (r.Ok? ==> && tx != null && fresh(tx) && fresh(tx.signatures)
                          && tx.View() == spec.value
                          && tx.signatures.Length == |tx.signers|
                          && forall i | 0 <= i < tx.signatures.Length :: tx.signatures[i] == UNSIGNED)
  {
    tx := null;
    ghost var before := route.instructions;
    var budget := route.Take();
    if budget.Err? {
      return Err(budget.error), null;
    }
    if tip.Some? {
      route.instructions := route.instructions + [SystemTransfer(payer, tip.value.account, tip.value.lamports)];
    }
    ghost var kept := TakeFrom(before, route.format).value.1;
    assert route.instructions == kept + TipInstructions(payer, tip);
    if world.scaledUnits.Err? {
      return Err(world.scaledUnits.error), null;
    }
    LimitCoversRequest(before, route.format, world.scaledUnits.value);
    var limit := ComputeUnitLimit(world.scaledUnits.value, budget.value);
    if world.blockhash.Err? {
      return Err(RpcError), null;
    }
    if !world.compiles || !world.fits {
      return Err(BuildError), null;
    }
    var message: Message;
    match route.format {
      case V0 =>
        var all := [BudgetInstruction(SET_COMPUTE_UNIT_LIMIT, limit),
                    SetComputeUnitPrice(UnitPrice(priorityFeeLamports, limit))];
        all := all + route.instructions;
        assert all == PrependedBudget(V0, limit, priorityFeeLamports) + kept + TipInstructions(payer, tip);
        message := Compile(payer, V0, all, None);
      case V1 =>
        assert route.instructions == PrependedBudget(V1, limit, priorityFeeLamports) + kept + TipInstructions(payer, tip);
        message := Compile(payer, V1, route.instructions, Some(budget.value.HeaderConfig(limit, priorityFeeLamports)));
    }
    tx := new VersionedTransaction(message);
    r := Ok(());
  }

  /** The position that the final instruction of a route takes in the built message, if it has one. */
  function LastCompiledIndex(instructions: seq<Instruction>, format: TransactionFormat): Option<nat> {
    var kept := if format.V0? then |Retain(instructions, NotComputeUnitLimit)| else |Retain(instructions, NotBudget)|;
    var prepended := if format.V0? then 2 else 0;
    if kept == 0 then None else Some(kept - 1 + prepended)
  }

  /**
   A route ending in an instruction that is no budget request finds that instruction at the
   computed index of the built message, in either format, with or without a tip and wherever the
   budget requests stood; what precedes it is the budget prefix and the rest of the route.
   */
  lemma IndexFindsLastInstruction(
      payer: Pubkey, instructions: seq<Instruction>, format: TransactionFormat, priorityFeeLamports: u64,
      tip: Option<Tip>, world: BuildWorld)
    requires instructions != [] && NotBudget(instructions[|instructions| - 1])
    requires Build(payer, instructions, format, priorityFeeLamports, tip, world).Ok?
    ensures var message := Build(payer, instructions, format, priorityFeeLamports, tip, world).value;
            var index := LastCompiledIndex(instructions, format);
            && index.Some?
            && index.value + |TipInstructions(payer, tip)| + 1 == |message.instructions|
            && message.instructions[index.value] == instructions[|instructions| - 1]
  {
    if format.V0? {
      RetainLast(instructions, NotComputeUnitLimit);
    } else {
      RetainLast(instructions, NotBudget);
      RetainRetain(instructions, NotComputeUnitLimit, NotBudget);
    }
  }

  /**
   A provider's budget settings, encoded anywhere into a V1 route, reach the message header as they
   were asked for, and the message carries the route's own instructions and the tip, nothing else.
   */
  lemma V1HeaderCarriesConfig(
      payer: Pubkey, config: TransactionConfig, instructions: seq<Instruction>, route: seq<Instruction>,
      priorityFeeLamports: u64, tip: Option<Tip>, world: BuildWorld)
    requires ConfigInstructions(config).Ok?
    requires Retain(instructions, IsBudget) == ConfigInstructions(config).value
    requires Retain(instructions, NotBudget) == route
    requires Build(payer, instructions, V1, priorityFeeLamports, tip, world).Ok?
    ensures var message := Build(payer, instructions, V1, priorityFeeLamports, tip, world).value;
            && message.instructions == route + TipInstructions(payer, tip)
            && message.config.Some?
            && var header := message.config.value;
               && header.heapSize == config.heapSize
               && header.loadedAccountsDataSizeLimit
                  == config.loadedAccountsDataSizeLimit.GetOr(MAX_LOADED_ACCOUNTS_DATA_SIZE)
               && config.computeUnitLimit.GetOr(1) <= header.computeUnitLimit <= CU_LIMIT_MAX
               && header.priorityFee.GetOr(0) == priorityFeeLamports
  {
    BudgetRoundTrip(config, instructions, route);
    LimitCoversRequest(instructions, V1, world.scaledUnits.value);
  }

  /** A V0 unit price, read from the bytes of its instruction. */
  predicate ReadsPrice(i: Instruction, price: u64) {
    && i.program == COMPUTE_BUDGET_PROGRAM && i.accounts == []
    && |i.data| == 9 && i.data[0] == 3 && FromLe(i.data[1..]) == price
  }

  /** What price times limit is charged for the budgeted fee, see `PriorityFeeWithinBudget`. */
  predicate PricedWithin(price: u64, limit: u32, priorityFeeLamports: u64) {
    && CeilDiv(price * limit, 1_000_000) <= priorityFeeLamports
    && (priorityFeeLamports * 1_000_000 < price * limit + limit
        <==> priorityFeeLamports * 1_000_000 < U64_LIMIT * limit)
  }

  lemma PrefixReadsBack(limit: u32, priorityFeeLamports: u64) returns (price: u64)
    requires limit > 0
    ensures PricedWithin(price, limit, priorityFeeLamports)
    ensures var prefix := PrependedBudget(V0, limit, priorityFeeLamports);
            |prefix| == 2 && Reads(prefix[0], 2, limit) && prefix[0].accounts == [] && ReadsPrice(prefix[1], price)
  {
    price := UnitPrice(priorityFeeLamports, limit);
    PriorityFeeWithinBudget(priorityFeeLamports, limit);
    BudgetValueRoundTrip(SET_COMPUTE_UNIT_LIMIT, limit);
    var i := SetComputeUnitPrice(price);
    assert i.data[1..] == ToLe(price, 8);
    Widths();
    LeRoundTrip(price, 8);
  }

  /** The final limit: in range, covering what the route's bytes ask for and what was simulated, and no more. */
  ghost predicate LimitFor(instructions: seq<Instruction>, scaledUnits: Option<u32>, limit: u32) {
    && 1 <= limit <= 1_400_000
    && exists asked: Option<u32> ::
         && AsksOnce(instructions, SET_COMPUTE_UNIT_LIMIT, asked)
         && asked.GetOr(0) <= limit
         && (scaledUnits.Some? ==> Min(scaledUnits.value, 1_400_000) <= limit)
         && (scaledUnits.None? ==> 350_000 <= limit)
         && (|| Some(limit) == asked || Some(limit) == scaledUnits || limit == 1 || limit == 350_000
             || limit == 1_400_000)
  }

  lemma BuiltLimit(instructions: seq<Instruction>, format: TransactionFormat, scaledUnits: Option<u32>)
    requires TakeFrom(instructions, format).Ok?
    ensures LimitFor(instructions, scaledUnits, ComputeUnitLimit(scaledUnits, TakeFrom(instructions, format).value.0))
  {
    var budget := TakeFrom(instructions, format).value.0;
    LimitCoversRequest(instructions, format, scaledUnits);
    LimitIsLeast(scaledUnits, budget);
    TakenIsAskedFor(instructions, format);
    assert AsksOnce(instructions, SET_COMPUTE_UNIT_LIMIT, budget.computeUnitLimit);
  }

  /** A V1 header: the limit, the whole fee, and the heap and data sizes that the route's bytes ask for. */
  ghost predicate HeaderOf(instructions: seq<Instruction>, header: V1Config, limit: u32, priorityFeeLamports: u64) {
    && header.computeUnitLimit == limit
    && header.priorityFee.GetOr(0) == priorityFeeLamports
    && AsksOnce(instructions, REQUEST_HEAP_FRAME, header.heapSize)
    && exists size: Option<u32> ::
         && AsksOnce(instructions, SET_LOADED_ACCOUNTS_DATA_SIZE_LIMIT, size)
         && header.loadedAccountsDataSizeLimit == size.GetOr(67_108_864)
  }

  lemma BuiltList(
      payer: Pubkey, instructions: seq<Instruction>, format: TransactionFormat, priorityFeeLamports: u64,
      tip: Option<Tip>, world: BuildWorld, limit: u32)
    requires Build(payer, instructions, format, priorityFeeLamports, tip, world).Ok? && limit > 0
    requires limit == ComputeUnitLimit(world.scaledUnits.value, TakeFrom(instructions, format).value.0)
    ensures var list := Build(payer, instructions, format, priorityFeeLamports, tip, world).value.instructions;
            if format.V0? then
              && list[..2] == PrependedBudget(V0, limit, priorityFeeLamports)
              && list[2..] == Retain(instructions, NotComputeUnitLimit) + TipInstructions(payer, tip)
            else list == Retain(instructions, NotBudget) + TipInstructions(payer, tip)
  {
    var tail := TakeFrom(instructions, format).value.1 + TipInstructions(payer, tip);
    if format.V0? {
      assert Build(payer, instructions, format, priorityFeeLamports, tip, world).value.instructions
          == PrependedBudget(V0, limit, priorityFeeLamports) + tail;
    } else {
      RetainRetain(instructions, NotComputeUnitLimit, NotBudget);
      assert Build(payer, instructions, format, priorityFeeLamports, tip, world).value.instructions == tail;
    }
  }

  lemma BuiltHeader(instructions: seq<Instruction>, limit: u32, priorityFeeLamports: u64)
    requires TakeFrom(instructions, V1).Ok?
    ensures HeaderOf(instructions, TakeFrom(instructions, V1).value.0.HeaderConfig(limit, priorityFeeLamports),
                     limit, priorityFeeLamports)
  {
    var budget := TakeFrom(instructions, V1).value.0;
    TakenIsAskedFor(instructions, V1);
    assert AsksOnce(instructions, SET_LOADED_ACCOUNTS_DATA_SIZE_LIMIT, budget.loadedAccountsDataSizeLimit);
  }

  /**
   The built message, read from its bytes. A V0 message starts with the limit and a unit price worth
   the budgeted fee and keeps the route but for its limit requests; a V1 message carries the limit,
   the fee and the route's other requests in its header and keeps the rest of the route. The tip
   comes last. Building fails exactly when the route's requests, the node or a size check refuse it.
   */
  lemma BuiltMessage(
      payer: Pubkey, instructions: seq<Instruction>, format: TransactionFormat, priorityFeeLamports: u64,
      tip: Option<Tip>, world: BuildWorld) returns (limit: u32, price: u64)
    ensures Build(payer, instructions, format, priorityFeeLamports, tip, world).Ok?
       <==> && TakeFrom(instructions, format).Ok? && world.scaledUnits.Ok? && world.blockhash.Ok?
            && world.compiles && world.fits
    ensures Build(payer, instructions, format, priorityFeeLamports, tip, world).Ok? ==>
      var message := Build(payer, instructions, format, priorityFeeLamports, tip, world).value;
      && message.format == format
      && LimitFor(instructions, world.scaledUnits.value, limit)
      && (format.V0? ==>
            && message.config.None? && |message.instructions| >= 2
            && Reads(message.instructions[0], 2, limit) && message.instructions[0].accounts == []
            && ReadsPrice(message.instructions[1], price) && PricedWithin(price, limit, priorityFeeLamports)
            && message.instructions[2..] == Retain(instructions, NotComputeUnitLimit) + TipInstructions(payer, tip))
      && (format.V1? ==>
            && message.config.Some? && HeaderOf(instructions, message.config.value, limit, priorityFeeLamports)
            && message.instructions == Retain(instructions, NotBudget) + TipInstructions(payer, tip))
  {
    limit, price := 1, 0;
    if Build(payer, instructions, format, priorityFeeLamports, tip, world).Ok? {
      BuiltLimit(instructions, format, world.scaledUnits.value);
      limit := ComputeUnitLimit(world.scaledUnits.value, TakeFrom(instructions, format).value.0);
      price := PrefixReadsBack(limit, priorityFeeLamports);
      BuiltList(payer, instructions, format, priorityFeeLamports, tip, world, limit);
      if format.V1? {
        BuiltHeader(instructions, limit, priorityFeeLamports);
      }
    }
  }

  // ---- signing

  /** Where the user signs: only the wallet and the payer may be required, the payer first. */
  function UserSignerIndex(signers: seq<Pubkey>, wallet: Pubkey, payer: Pubkey): Result<nat> {
    if signers == [] || signers[0] != payer || wallet !in signers
       || (exists key :: key in signers && key != wallet && key != payer)
    then Err(SignError)
    else Ok(IndexOf(signers, wallet))
  }

  function IndexOf(keys: seq<Pubkey>, key: Pubkey): (i: nat)
    requires key in keys
    ensures i < |keys| && keys[i] == key
    ensures forall j | 0 <= j < i :: keys[j] != key
  {
    if keys[0] == key then 0 else 1 + IndexOf(keys[1..], key)
  }

  predicate Distinct(keys: seq<Pubkey>) {
    forall i, j | 0 <= i < j < |keys| :: keys[i] != keys[j]
  }

  /** Some account of the list must sign, and it is this key. */
  ghost predicate AsksFor(accounts: seq<AccountMeta>, key: Pubkey) {
    exists a :: a in accounts && a.isSigner && a.pubkey == key
  }

  lemma AsksForCons(first: AccountMeta, rest: seq<AccountMeta>, key: Pubkey)
    ensures AsksFor([first] + rest, key) <==> (first.isSigner && first.pubkey == key) || AsksFor(rest, key)
  {
    if AsksFor(rest, key) {
      var a :| a in rest && a.isSigner && a.pubkey == key;
      assert a in [first] + rest;
    }
    assert first in [first] + rest;
  }

  lemma {:induction false} AddSignersKeeps(signers: seq<Pubkey>, accounts: seq<AccountMeta>)
    requires Distinct(signers) && signers != []
    ensures var all := AddSigners(signers, accounts);
            && Distinct(all) && |signers| <= |all| && all[0] == signers[0]
            && (forall key :: key in all <==> key in signers || AsksFor(accounts, key))
    decreases |accounts|
  {
    if accounts != [] {
      var first := accounts[0];
      var next := if first.isSigner && first.pubkey !in signers then signers + [first.pubkey] else signers;
      AddSignersKeeps(next, accounts[1..]);
      assert accounts == [first] + accounts[1..];
      forall key
        ensures AsksFor(accounts, key) <==> (first.isSigner && first.pubkey == key) || AsksFor(accounts[1..], key)
      {
        AsksForCons(first, accounts[1..], key);
      }
    }
  }

  /** Some instruction requires this key's signature. */
  ghost predicate Requires(instructions: seq<Instruction>, key: Pubkey) {
    exists i :: i in instructions && AsksFor(i.accounts, key)
  }

  lemma {:induction false} CollectSignersKeeps(signers: seq<Pubkey>, instructions: seq<Instruction>)
    requires Distinct(signers) && signers != []
    ensures var all := CollectSigners(signers, instructions);
            && Distinct(all) && all != [] && all[0] == signers[0]
            && (forall key :: key in all <==> key in signers || Requires(instructions, key))
    decreases |instructions|
  {
    if instructions != [] {
      var first := instructions[0];
      AddSignersKeeps(signers, first.accounts);
      CollectSignersKeeps(AddSigners(signers, first.accounts), instructions[1..]);
      assert instructions == [first] + instructions[1..];
      forall key
        ensures Requires(instructions, key) <==> AsksFor(first.accounts, key) || Requires(instructions[1..], key)
      {
        RequiresCons(first, instructions[1..], key);
      }
    }
  }

  lemma RequiresCons(first: Instruction, rest: seq<Instruction>, key: Pubkey)
    ensures Requires([first] + rest, key) <==> AsksFor(first.accounts, key) || Requires(rest, key)
  {
    if Requires(rest, key) {
      var i :| i in rest && AsksFor(i.accounts, key);
      assert i in [first] + rest;
    }
    assert first in [first] + rest;
  }

  /**
   A built message is signed by exactly the payer and the wallet, or it is refused: no other
   signature can be required, and the signing order is fixed.
   */
  lemma SignersAreExactlyUserAndPayer(payer: Pubkey, wallet: Pubkey, format: TransactionFormat,
                                      instructions: seq<Instruction>, config: Option<V1Config>)
    ensures var signers := Compile(payer, format, instructions, config).signers;
            var index := UserSignerIndex(signers, wallet, payer);
            && (index.Ok? <==> && (wallet == payer || Requires(instructions, wallet))
                               && forall key :: Requires(instructions, key) ==> key == wallet || key == payer)
            && (index.Ok? ==> && signers == (if wallet == payer then [payer] else [payer, wallet])
                              && index.value == (if wallet == payer then 0 else 1))
  {
    var signers := CollectSigners([payer], instructions);
    CollectSignersKeeps([payer], instructions);
    var index := UserSignerIndex(signers, wallet, payer);
    if index.Ok? {
      TwoKeysAtMost(signers, payer, wallet);
    }
  }

  /** Distinct keys out of two, the first given and the second present. */
  lemma TwoKeysAtMost(keys: seq<Pubkey>, first: Pubkey, second: Pubkey)
    requires Distinct(keys) && keys != [] && keys[0] == first && second in keys
    requires forall key | key in keys :: key == first || key == second
    ensures keys == if first == second then [first] else [first, second]
  {
    var second', third := if |keys| > 1 then keys[1] else first, if |keys| > 2 then keys[2] else first;
    assert second' in keys && third in keys;
    assert |keys| <= 2;
  }

  // ---- submitting

  datatype SwapResult = SwapResult(hash: nat, applicationFee: u64, sponsorshipFee: u64)

  /** What reached the submitter, and what the caller is told. */
  datatype Submission = Submission(message: Message, signatures: seq<Signature>, result: SwapResult)

  function Sign(world: SubmitWorld, sponsored: bool, userIndex: nat, message: Message): Result<seq<Signature>>
    requires userIndex < |message.signers|
  {
    var blank := seq(|message.signers|, _ => UNSIGNED);
    var user := world.userSign(message);
    if user.None? then Err(SignError)
    else
      var signed := blank[userIndex := user.value];
      if !sponsored then Ok(signed)
      else
        var sponsor := world.sponsorSign(message);
        if sponsor.None? then Err(SignError) else Ok(signed[0 := sponsor.value])
  }

  function Submit(
      sponsor: Option<GasSponsor>, trade: Trade, swap: Swap, priorityFeeLamports: u64, tip: Option<Tip>,
      world: SubmitWorld): Result<Submission>
  {
    var built :- Build(Payer(sponsor, trade.wallet), swap.instructions, swap.format, priorityFeeLamports, tip, world.build);
    Complete(sponsor, trade, swap, built, world)
  }

  /** From the built message on: signer check, final reimbursement, signatures, submission. */
  function Complete(sponsor: Option<GasSponsor>, trade: Trade, swap: Swap, built: Message, world: SubmitWorld)
    : Result<Submission>
  {
    var userIndex := UserSignerIndex(built.signers, trade.wallet, Payer(sponsor, trade.wallet));
    var final := FinalMessage(sponsor, swap, built, world);
    if userIndex.Err? then Err(userIndex.error)
    else if final.Err? then Err(final.error)
    else
      var (fee, message) := final.value;
      var signatures := Sign(world, sponsor.Some?, userIndex.value, message);
      if signatures.Err? then Err(signatures.error)
      else
        var hash := world.submit(message, signatures.value);
        if hash.None? then Err(SubmitError)
        else Ok(Submission(message, signatures.value, SwapResult(hash.value, swap.quote.applicationFee, fee)))
  }

  /** The sponsorship fee and the message once the reimbursement is final; unsponsored swaps keep both. */
  function FinalMessage(sponsor: Option<GasSponsor>, swap: Swap, built: Message, world: SubmitWorld)
    : (r: Result<(u64, Message)>)
    ensures r.Ok? ==> r.value.1.signers == built.signers
  {
    if sponsor.None? then Ok((swap.quote.sponsorshipFee, built))
    else
      var index := LastCompiledIndex(swap.instructions, swap.format);
      if index.None? then Err(BuildError)
      else
        var (charge, patched) :-
          SponsorCost.Finalized(sponsor.value.policy, world.cost, built.instructions, index.value);
        Ok((charge, built.(instructions := patched)))
  }

  lemma SignsAlone(world: SubmitWorld, message: Message)
    requires |message.signers| == 1
    ensures Sign(world, false, 0, message).Ok? <==> world.userSign(message).Some?
    ensures Sign(world, false, 0, message).Ok? ==>
              Sign(world, false, 0, message).value == [world.userSign(message).value]
  {
  }

  lemma SignsBoth(world: SubmitWorld, message: Message, userIndex: nat)
    requires |message.signers| == userIndex + 1 <= 2
    ensures Sign(world, true, userIndex, message).Ok?
       <==> world.userSign(message).Some? && world.sponsorSign(message).Some?
    ensures Sign(world, true, userIndex, message).Ok? ==>
              Sign(world, true, userIndex, message).value
              == if userIndex == 0 then [world.sponsorSign(message).value]
                 else [world.sponsorSign(message).value, world.userSign(message).value]
  {
  }

  /**
   Without a sponsor a swap is submitted exactly when it builds, asks for no signature but the
   wallet's, is signed by it and taken by the submitter: the built message itself, under the
   wallet's signature alone.
   */
  lemma UnsponsoredSubmission(
      trade: Trade, swap: Swap, priorityFeeLamports: u64, tip: Option<Tip>, world: SubmitWorld)
    ensures var built := Build(trade.wallet, swap.instructions, swap.format, priorityFeeLamports, tip, world.build);
            var r := Submit(None, trade, swap, priorityFeeLamports, tip, world);
            && (r.Ok? <==>
                  && built.Ok?
                  && (forall key :: Requires(built.value.instructions, key) ==> key == trade.wallet)
                  && world.userSign(built.value).Some?
                  && world.submit(built.value, [world.userSign(built.value).value]).Some?)
            && (r.Ok? ==>
                  && r.value.message == built.value
                  && r.value.message.signers == [trade.wallet]
                  && r.value.signatures == [world.userSign(built.value).value]
                  && world.submit(r.value.message, r.value.signatures) == Some(r.value.result.hash)
                  && r.value.result.applicationFee == swap.quote.applicationFee
                  && r.value.result.sponsorshipFee == swap.quote.sponsorshipFee)
  {
    var built := Build(trade.wallet, swap.instructions, swap.format, priorityFeeLamports, tip, world.build);
    if built.Ok? {
      var message := built.value;
      assert message == Compile(trade.wallet, message.format, message.instructions, message.config);
      SignersAreExactlyUserAndPayer(trade.wallet, trade.wallet, message.format, message.instructions, message.config);
      if UserSignerIndex(message.signers, trade.wallet, trade.wallet).Ok? {
        SignsAlone(world, message);
      }
    }
  }

  /** The built message once the instruction at `index` carries the charge. */
  function WithInstructions(message: Message, instructions: seq<Instruction>): Message {
    message.(instructions := instructions)
  }

  /**
   With a sponsor a swap is submitted exactly when it builds with a kept instruction to patch, asks
   for the wallet's signature and at most the sponsor's besides, is finalized, signed by both and
   taken by the submitter: the finalized message, the sponsor's signature first.
   */
  lemma SponsoredSubmission(
      sponsor: GasSponsor, trade: Trade, swap: Swap, priorityFeeLamports: u64, tip: Option<Tip>, world: SubmitWorld)
    requires sponsor.wallet != trade.wallet
    ensures var built := Build(sponsor.wallet, swap.instructions, swap.format, priorityFeeLamports, tip, world.build);
            var index := LastCompiledIndex(swap.instructions, swap.format);
            var r := Submit(Some(sponsor), trade, swap, priorityFeeLamports, tip, world);
            && (r.Ok? <==>
                  && built.Ok? && index.Some?
                  && Requires(built.value.instructions, trade.wallet)
                  && (forall key :: Requires(built.value.instructions, key) ==>
                                      key == trade.wallet || key == sponsor.wallet)
                  && var final :=
                       SponsorCost.Finalized(sponsor.policy, world.cost, built.value.instructions, index.value);
                     && final.Ok?
                     && var message := WithInstructions(built.value, final.value.1);
                        && world.userSign(message).Some? && world.sponsorSign(message).Some?
                        && world.submit(message, [world.sponsorSign(message).value, world.userSign(message).value]).Some?)
            && (r.Ok? ==>
                  && var (charge, patched) :=
                       SponsorCost.Finalized(sponsor.policy, world.cost, built.value.instructions, index.value).value;
                  && r.value.message == WithInstructions(built.value, patched)
                  && r.value.message.signers == [sponsor.wallet, trade.wallet]
                  && r.value.signatures
                     == [world.sponsorSign(r.value.message).value, world.userSign(r.value.message).value]
                  && world.submit(r.value.message, r.value.signatures) == Some(r.value.result.hash)
                  && r.value.result.applicationFee == swap.quote.applicationFee
                  && r.value.result.sponsorshipFee == charge)
  {
    var built := Build(sponsor.wallet, swap.instructions, swap.format, priorityFeeLamports, tip, world.build);
    if built.Ok? {
      var message := built.value;
      assert message == Compile(sponsor.wallet, message.format, message.instructions, message.config);
      SignersAreExactlyUserAndPayer(sponsor.wallet, trade.wallet, message.format, message.instructions, message.config);
      if UserSignerIndex(message.signers, trade.wallet, sponsor.wallet).Ok? {
        var final := FinalMessage(Some(sponsor), swap, message, world);
        if final.Ok? {
          SignsBoth(world, final.value.1, 1);
        }
      }
    }
  }

  /** Whoever pays, every required signature of a submission is there: the payer's first, the wallet's last. */
  lemma SubmissionIsSigned(
      sponsor: Option<GasSponsor>, trade: Trade, swap: Swap, priorityFeeLamports: u64, tip: Option<Tip>,
      world: SubmitWorld)
    requires Submit(sponsor, trade, swap, priorityFeeLamports, tip, world).Ok?
    ensures var submission := Submit(sponsor, trade, swap, priorityFeeLamports, tip, world).value;
            var user, payer := world.userSign(submission.message), world.sponsorSign(submission.message);
            && user.Some?
            && |submission.signatures| == |submission.message.signers| <= 2
            && trade.wallet in submission.message.signers
            && (sponsor.Some? ==> payer.Some? && submission.message.signers[0] == sponsor.value.wallet)
            && (forall k | 0 <= k < |submission.signatures| ::
                  submission.signatures[k] == if sponsor.Some? && k == 0 then payer.value else user.value)
            && world.submit(submission.message, submission.signatures) == Some(submission.result.hash)
  {
    var payer := Payer(sponsor, trade.wallet);
    var message := Build(payer, swap.instructions, swap.format, priorityFeeLamports, tip, world.build).value;
    assert message == Compile(payer, message.format, message.instructions, message.config);
    SignersAreExactlyUserAndPayer(payer, trade.wallet, message.format, message.instructions, message.config);
    if sponsor.None? {
      SignsAlone(world, message);
    } else {
      var final := FinalMessage(sponsor, swap, message, world).value.1;
      SignsBoth(world, final, if trade.wallet == payer then 0 else 1);
    }
  }

  /** Writes the signatures into the transaction, the sponsor's first among them. */
  method SignTransaction(sponsored: bool, userIndex: nat, tx: VersionedTransaction, world: SubmitWorld)
    returns (r: Result<()>)
    requires userIndex < |tx.signers| == tx.signatures.Length
    requires forall i | 0 <= i < tx.signatures.Length :: tx.signatures[i] == UNSIGNED
    modifies tx.signatures
    ensures var spec := Sign(world, sponsored, userIndex, tx.View());
            && (r.Ok? <==> spec.Ok?)
            && (r.Ok? ==> tx.signatures[..] == spec.value)
            && (r.Err? ==> r.error == spec.error)
  {
    var message := tx.View();
    var user := world.userSign(message);
    if user.None? {
      return Err(SignError);
    }
    ghost var blank := seq(|tx.signers|, _ => UNSIGNED);
    assert tx.signatures[..] == blank;
    tx.signatures[userIndex] := user.value;
    assert tx.signatures[..] == blank[userIndex := user.value];
    if sponsored {
      var sponsor := world.sponsorSign(message);
      if sponsor.None? {
        return Err(SignError);
      }
      tx.signatures[0] := sponsor.value;
      assert tx.signatures[..] == blank[userIndex := user.value][0 := sponsor.value];
    }
    return Ok(());
  }

  method SubmitSwap(
      sponsor: Option<GasSponsor>, trade: Trade, prepared: PreparedSwap, priorityFeeLamports: u64, tip: Option<Tip>,
      world: SubmitWorld)
    returns (r: Result<SwapResult>, tx: VersionedTransaction?)
    ensures var spec := Submit(sponsor, trade, prepared.View(), priorityFeeLamports, tip, world);
            && (r.Ok? <==> spec.Ok?)
            && (r.Err? ==> r.error == spec.error)
            && (r.Ok? ==> && tx != null && r.value == spec.value.result
                          && tx.View() == spec.value.message
                          && tx.signatures[..] == spec.value.signatures)
  {
    tx := null;
    var payer := if sponsor.Some? then sponsor.value.wallet else trade.wallet;
    var reimbursementIndex := LastCompiledIndex(prepared.instructions, prepared.format);
    var sponsorshipFee := prepared.quote.sponsorshipFee;
    var route := new Route(prepared.instructions, prepared.format);
    var built;
    built, tx := BuildTransaction(payer, route, priorityFeeLamports, tip, world.build);
    if built.Err? {
      return Err(built.error), null;
    }
    var userIndex := UserSignerIndex(tx.signers, trade.wallet, payer);
    if userIndex.Err? {
      return Err(userIndex.error), null;
    }
    if sponsor.Some? {
      if reimbursementIndex.None? {
        return Err(BuildError), null;
      }
      var finalized := SponsorCost.FinalizeFee(sponsor.value.policy, world.cost, tx, reimbursementIndex.value);
      if finalized.Err? {
        return Err(finalized.error), null;
      }
      sponsorshipFee := finalized.value;
    }
    var message := tx.View();
    var signed := SignTransaction(sponsor.Some?, userIndex.value, tx, world);
    if signed.Err? {
      return Err(signed.error), null;
    }
    var hash := world.submit(message, tx.signatures[..]);
    if hash.None? {
      return Err(SubmitError), null;
    }
    r := Ok(SwapResult(hash.value, prepared.quote.applicationFee, sponsorshipFee));
  }
}
