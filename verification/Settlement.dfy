/**
 What a swap does to balances: the submitted instructions are executed over ledgers of USDC and
 lamports, across the fee reservation, the route, the fee transfers and the patched reimbursement.
 */
module Settlement {
  import opened Types
  import opened Bytes
  import opened SolanaTypes
  import opened Transactions
  import opened ComputeBudget
  import opened SdkFees
  import opened GasSponsors
  import opened Routing
  import opened Executor
  import SponsorCost

  // ---- the shape of what is submitted

  /** The part of a route that stays in the instruction list. */
  function KeptRoute(route: seq<Instruction>, format: TransactionFormat): seq<Instruction> {
    if format.V0? then Retain(route, NotComputeUnitLimit) else Retain(route, NotBudget)
  }

  /** The SDK's own fee transfer, if it makes one. */
  function SdkTransfer(client: Client, trade: Trade, swap: Swap): seq<Instruction>
    requires PlanRoute(client, trade).Ok?
  {
    if TransferFee(client, trade).None? then []
    else
      FeeInstructions(TransferFee(client, trade).value, trade, swap.quote.applicationFee,
                      Payer(SponsorFor(client, trade), trade.wallet))
  }

  /** The fees at the end of a sponsored swap, with the reimbursement at `charge`. */
  function FeeTail(client: Client, trade: Trade, swap: Swap, charge: u64): seq<Instruction>
    requires PlanRoute(client, trade).Ok? && SponsorFor(client, trade).Some?
  {
    var sponsor := SponsorFor(client, trade).value;
    SdkTransfer(client, trade, swap) + UsdcFee(sponsor.wallet, trade.wallet, sponsor.feeRecipient, charge)
  }

  /** Preparation only appends: the route, then the fee tail at the full ceiling. */
  lemma PreparedIsRouteThenFees(client: Client, trade: Trade, provider: RouteProvider)
    requires Prepare(client, trade, provider).Ok? && SponsorFor(client, trade).Some?
    ensures var swap := Prepare(client, trade, provider).value;
            && swap.instructions == RouteOf(client, trade, provider).instructions
                                  + FeeTail(client, trade, swap, Ceiling(client, trade))
            && swap.format == RouteOf(client, trade, provider).format
            && swap.quote.sponsorshipFee == Ceiling(client, trade)
  {
    var route := RouteOf(client, trade, provider);
    var transfer := SdkTransfer(client, trade, Prepare(client, trade, provider).value);
    var sponsor := SponsorFor(client, trade).value;
    var reimbursement := UsdcFee(sponsor.wallet, trade.wallet, sponsor.feeRecipient, Ceiling(client, trade));
    assert route.instructions + transfer + reimbursement == route.instructions + (transfer + reimbursement);
    assert route.instructions + [] == route.instructions;
  }

  predicate FeeProgram(i: Instruction) {
    i.program == ATA_PROGRAM || i.program == TOKEN_PROGRAM || i.program == SYSTEM_PROGRAM
  }

  lemma KeepsFees(route: seq<Instruction>, fees: seq<Instruction>, format: TransactionFormat)
    requires forall i | i in fees :: FeeProgram(i)
    ensures KeptRoute(route + fees, format) == KeptRoute(route, format) + fees
  {
    if format.V0? {
      RetainConcat(route, fees, NotComputeUnitLimit);
      RetainAll(fees, NotComputeUnitLimit);
    } else {
      RetainConcat(route, fees, NotBudget);
      RetainAll(fees, NotBudget);
    }
  }

  lemma TakenIsKept(instructions: seq<Instruction>, format: TransactionFormat)
    requires TakeFrom(instructions, format).Ok?
    ensures TakeFrom(instructions, format).value.1 == KeptRoute(instructions, format)
  {
    if format.V1? {
      RetainRetain(instructions, NotComputeUnitLimit, NotBudget);
    }
  }

  /** `head` is nothing but budget instructions and then what building keeps of the route. */
  ghost predicate Heads(head: seq<Instruction>, route: Swap) {
    exists budget: seq<Instruction> ::
      head == budget + KeptRoute(route.instructions, route.format) && forall i | i in budget :: IsBudget(i)
  }

  /**
   What a sponsored submission sends: budget prefix, kept route, the fee tail carrying exactly the
   finalized charge, then the tip. The charge, not the ceiling, is what the caller is told.
   */
  lemma SubmittedShape(
      client: Client, trade: Trade, provider: RouteProvider, priorityFeeLamports: u64, tip: Option<Tip>,
      world: SubmitWorld) returns (head: seq<Instruction>)
    requires Prepare(client, trade, provider).Ok? && SponsorFor(client, trade).Some?
    requires Submit(SponsorFor(client, trade), trade, Prepare(client, trade, provider).value,
                    priorityFeeLamports, tip, world).Ok?
    ensures var swap := Prepare(client, trade, provider).value;
            var submission := Submit(SponsorFor(client, trade), trade, swap, priorityFeeLamports, tip, world).value;
            var charge := submission.result.sponsorshipFee;
            && Heads(head, RouteOf(client, trade, provider))
            && submission.message.instructions
               == head + FeeTail(client, trade, swap, charge)
                  + TipInstructions(SponsorFor(client, trade).value.wallet, tip)
            && charge <= Ceiling(client, trade)
            && submission.result.applicationFee == swap.quote.applicationFee
  {
    var swap, sponsor := Prepare(client, trade, provider).value, SponsorFor(client, trade).value;
    var built := Build(sponsor.wallet, swap.instructions, swap.format, priorityFeeLamports, tip, world.build).value;
    head := BuiltShape(client, trade, provider, priorityFeeLamports, tip, world.build);
    PreparedIsRouteThenFees(client, trade, provider);
    IndexFindsLastInstruction(sponsor.wallet, swap.instructions, swap.format, priorityFeeLamports, tip, world.build);
    var index := LastCompiledIndex(swap.instructions, swap.format).value;
    var _ := SponsorCost.FinalizedChargeIsLeastCovering(sponsor.policy, world.cost, built.instructions, index);
    var charge := SponsorCost.Finalized(sponsor.policy, world.cost, built.instructions, index).value.0;
    PatchInPlace(head, SdkTransfer(client, trade, swap), sponsor.wallet, trade.wallet, sponsor.feeRecipient,
                 Ceiling(client, trade), charge, TipInstructions(sponsor.wallet, tip), built.instructions);
  }

  /** Fee instructions behind a route stay behind what building keeps of it, in front of the tip. */
  lemma BuiltAround(
      payer: Pubkey, route: Swap, fees: seq<Instruction>, priorityFeeLamports: u64, tip: Option<Tip>,
      world: BuildWorld) returns (head: seq<Instruction>)
    requires Build(payer, route.instructions + fees, route.format, priorityFeeLamports, tip, world).Ok?
    requires forall i | i in fees :: FeeProgram(i)
    ensures Heads(head, route)
    ensures Build(payer, route.instructions + fees, route.format, priorityFeeLamports, tip, world).value.instructions
         == head + (fees + TipInstructions(payer, tip))
  {
    var all := route.instructions + fees;
    var limit := ComputeUnitLimit(world.scaledUnits.value, TakeFrom(all, route.format).value.0);
    LimitCoversRequest(all, route.format, world.scaledUnits.value);
    var prefix := PrependedBudget(route.format, limit, priorityFeeLamports);
    var kept := KeptRoute(route.instructions, route.format);
    TakenIsKept(all, route.format);
    KeepsFees(route.instructions, fees, route.format);
    head := prefix + kept;
    Regrouped(prefix, kept, fees, TipInstructions(payer, tip));
  }

  lemma Regrouped<T>(a: seq<T>, b: seq<T>, c: seq<T>, d: seq<T>)
    ensures a + (b + c) + d == (a + b) + (c + d)
  {
  }

  /** The built message before the charge is known: the tail still carries the full ceiling. */
  lemma BuiltShape(
      client: Client, trade: Trade, provider: RouteProvider, priorityFeeLamports: u64, tip: Option<Tip>,
      world: BuildWorld) returns (head: seq<Instruction>)
    requires Prepare(client, trade, provider).Ok? && SponsorFor(client, trade).Some?
    requires var swap := Prepare(client, trade, provider).value;
             Build(SponsorFor(client, trade).value.wallet, swap.instructions, swap.format,
                   priorityFeeLamports, tip, world).Ok?
    ensures var swap, payer := Prepare(client, trade, provider).value, SponsorFor(client, trade).value.wallet;
            && Heads(head, RouteOf(client, trade, provider))
            && Build(payer, swap.instructions, swap.format, priorityFeeLamports, tip, world).value.instructions
               == head + FeeTail(client, trade, swap, Ceiling(client, trade)) + TipInstructions(payer, tip)
  {
    var swap, route := Prepare(client, trade, provider).value, RouteOf(client, trade, provider);
    var payer, fees := SponsorFor(client, trade).value.wallet, FeeTail(client, trade, swap, Ceiling(client, trade));
    PreparedIsRouteThenFees(client, trade, provider);
    head := BuiltAround(payer, route, fees, priorityFeeLamports, tip, world);
    assert head + (fees + TipInstructions(payer, tip)) == head + fees + TipInstructions(payer, tip);
  }

  /** Replacing the one instruction before the tips turns the reserved reimbursement into the charge. */
  lemma PatchInPlace(
      head: seq<Instruction>, transfer: seq<Instruction>, payer: Pubkey, wallet: Pubkey, recipient: Pubkey,
      reserved: u64, charge: u64, tips: seq<Instruction>, all: seq<Instruction>)
    requires all == head + (transfer + UsdcFee(payer, wallet, recipient, reserved)) + tips
    ensures var index := |all| - |tips| - 1;
            && index >= 0
            && all[index := all[index].(data := TransferCheckedData(charge))]
               == head + (transfer + UsdcFee(payer, wallet, recipient, charge)) + tips
  {
  }

  // ---- executing it

  /** USDC balances by token account. */
  type Ledger = map<Pubkey, nat>

  predicate IsUsdcTransfer(i: Instruction) {
    && i.program == TOKEN_PROGRAM && |i.data| == 10 && i.data[0] == TRANSFER_CHECKED
    && |i.accounts| >= 4 && i.accounts[1].pubkey == USDC_MINT
  }

  predicate CreatesUsdcAccount(i: Instruction) {
    i.program == ATA_PROGRAM && i.data == [ATA_CREATE_IDEMPOTENT] && |i.accounts| == 6 && i.accounts[3].pubkey == USDC_MINT
  }

  /** The effect of one top-level instruction on USDC; a failing one fails the transaction. */
  function Execute(i: Instruction, ledger: Ledger): Option<Ledger> {
    if IsUsdcTransfer(i) then
      var source, destination := i.accounts[0].pubkey, i.accounts[2].pubkey;
      var amount := FromLe(i.data[1..9]);
      if source !in ledger || destination !in ledger || ledger[source] < amount then None
      else
        var debited := ledger[source := ledger[source] - amount];
        Some(debited[destination := debited[destination] + amount])
    else if CreatesUsdcAccount(i) then
      var account := i.accounts[1].pubkey;
      Some(if account in ledger then ledger else ledger[account := 0])
    else Some(ledger)
  }

  function ExecuteAll(instructions: seq<Instruction>, ledger: Ledger): Option<Ledger>
    decreases |instructions|
  {
    if instructions == [] then Some(ledger)
    else
      match Execute(instructions[0], ledger)
      case None => None
      case Some(next) => ExecuteAll(instructions[1..], next)
  }

  lemma {:induction false} ExecuteConcat(a: seq<Instruction>, b: seq<Instruction>, ledger: Ledger)
    ensures ExecuteAll(a + b, ledger)
         == match ExecuteAll(a, ledger) case None => None case Some(next) => ExecuteAll(b, next)
    decreases |a|
  {
    if a == [] {
      assert a + b == b;
    } else {
      assert (a + b)[0] == a[0] && (a + b)[1..] == a[1..] + b;
      if Execute(a[0], ledger).Some? {
        ExecuteConcat(a[1..], b, Execute(a[0], ledger).value);
      }
    }
  }

  function Balance(ledger: Ledger, account: Pubkey): nat {
    if account in ledger then ledger[account] else 0
  }

  /** `after` is `before` with `amount` moved from the wallet to the recipient and nothing else changed. */
  predicate Moved(before: Ledger, after: Ledger, wallet: Pubkey, recipient: Pubkey, amount: nat) {
    && before.Keys <= after.Keys
    && UsdcAccount(wallet) in after
    && Balance(after, UsdcAccount(wallet)) == Balance(before, UsdcAccount(wallet)) - amount
    && Balance(after, UsdcAccount(recipient)) == Balance(before, UsdcAccount(recipient)) + amount
    && forall account | account in after && account != UsdcAccount(wallet) && account != UsdcAccount(recipient) ::
         account in before && after[account] == before[account]
  }

  /** A fee to somebody else executes whenever the wallet can pay it, and moves exactly the fee. */
  lemma FeeMovesAmount(payer: Pubkey, wallet: Pubkey, recipient: Pubkey, amount: u64, ledger: Ledger)
    requires wallet != recipient && UsdcAccount(wallet) in ledger && amount <= ledger[UsdcAccount(wallet)]
    ensures ExecuteAll(UsdcFee(payer, wallet, recipient, amount), ledger).Some?
    ensures Moved(ledger, ExecuteAll(UsdcFee(payer, wallet, recipient, amount), ledger).value, wallet, recipient, amount)
  {
    var fee := UsdcFee(payer, wallet, recipient, amount);
    var create, transfer := CreateAtaIdempotent(payer, recipient, USDC_MINT), UsdcTransfer(wallet, recipient, amount);
    assert fee[0] == create && fee[1..] == [transfer];
    assert [transfer][0] == transfer && [transfer][1..] == [];
    var ready := Execute(create, ledger).value;
    TransferCarriesAmount(amount);
    var paid := Execute(transfer, ready);
    assert paid.Some?;
    assert ExecuteAll([transfer], ready) == ExecuteAll([], paid.value);
    assert ExecuteAll(fee, ledger) == Some(paid.value);
  }

  /** Tips and budget requests leave USDC alone. */
  lemma TipMovesNoUsdc(payer: Pubkey, tip: Option<Tip>, ledger: Ledger)
    ensures ExecuteAll(TipInstructions(payer, tip), ledger) == Some(ledger)
  {
    var tips := TipInstructions(payer, tip);
    if tip.Some? {
      assert tips[1..] == [];
      assert ExecuteAll(tips[1..], ledger) == Some(ledger);
    }
  }

  /** What everyone but the trading wallet holds after the fees. */
  function Credited(client: Client, trade: Trade, swap: Swap, charge: nat, ledger: Ledger, account: Pubkey): nat
    requires PlanRoute(client, trade).Ok? && SponsorFor(client, trade).Some?
  {
    Balance(ledger, account)
    + (if TransferFee(client, trade).Some? && account == UsdcAccount(TransferFee(client, trade).value.recipient)
       then swap.quote.applicationFee else 0)
    + (if account == UsdcAccount(SponsorFor(client, trade).value.feeRecipient) then charge else 0)
  }

  lemma NoRateNoFee(fee: SdkFee, basis: u64)
    requires fee.basisPoints == 0
    ensures FeeAmount(fee, basis) == 0
  {
    FeeAmountBounds(fee, basis);
  }

  /** Whoever gets the SDK's own fee: the wallet itself only when there is none. */
  lemma FeeGoesElsewhere(client: Client, trade: Trade, provider: RouteProvider)
    requires Prepare(client, trade, provider).Ok?
    ensures TransferFee(client, trade).None? || Prepare(client, trade, provider).value.quote.applicationFee == 0
            || TransferFee(client, trade).value.recipient != trade.wallet
  {
    if TransferFee(client, trade).Some? {
      var fee := TransferFee(client, trade).value;
      if fee.basisPoints == 0 {
        NoRateNoFee(fee, trade.amount);
        NoRateNoFee(fee, RouteOf(client, trade, provider).quote.expectedOut);
      }
    }
  }

  /** The checks made while planning keep both fee recipients apart from the wallet. */
  lemma RecipientsDiffer(client: Client, trade: Trade, provider: RouteProvider)
    requires Prepare(client, trade, provider).Ok? && SponsorFor(client, trade).Some?
    ensures SponsorFor(client, trade).value.feeRecipient != trade.wallet
    ensures SponsorFor(client, trade).value.wallet != trade.wallet
    ensures trade.settlement.Usdc?
    ensures TransferFee(client, trade).None? || Prepare(client, trade, provider).value.quote.applicationFee == 0
            || TransferFee(client, trade).value.recipient != trade.wallet
  {
    FeeGoesElsewhere(client, trade, provider);
  }

  /** The fee tail executes whenever the wallet holds both fees, and moves exactly those. */
  lemma FeeTailExecutes(client: Client, trade: Trade, provider: RouteProvider, charge: u64, ledger: Ledger)
    requires Prepare(client, trade, provider).Ok? && SponsorFor(client, trade).Some?
    requires UsdcAccount(trade.wallet) in ledger
    requires var swap := Prepare(client, trade, provider).value;
             TransferredFee(client, trade, swap) + charge <= ledger[UsdcAccount(trade.wallet)]
    ensures var swap := Prepare(client, trade, provider).value;
            var after := ExecuteAll(FeeTail(client, trade, swap, charge), ledger);
            && after.Some?
            && UsdcAccount(trade.wallet) in after.value
            && after.value[UsdcAccount(trade.wallet)] + TransferredFee(client, trade, swap) + charge
               == ledger[UsdcAccount(trade.wallet)]
            && (forall account | account != UsdcAccount(trade.wallet) ::
                  Balance(after.value, account) == Credited(client, trade, swap, charge, ledger, account))
  {
    var swap, sponsor := Prepare(client, trade, provider).value, SponsorFor(client, trade).value;
    RecipientsDiffer(client, trade, provider);
    var transfer := SdkTransfer(client, trade, swap);
    var reimbursement := UsdcFee(sponsor.wallet, trade.wallet, sponsor.feeRecipient, charge);
    ExecuteConcat(transfer, reimbursement, ledger);
    var middle := ledger;
    if transfer != [] {
      FeeMovesAmount(sponsor.wallet, trade.wallet, TransferFee(client, trade).value.recipient,
                     swap.quote.applicationFee, ledger);
      middle := ExecuteAll(transfer, ledger).value;
    }
    FeeMovesAmount(sponsor.wallet, trade.wallet, sponsor.feeRecipient, charge, middle);
  }

  /** The wallet's USDC after the route, which spends at most the routed amount or pays at least its minimum. */
  predicate RouteDelivered(client: Client, trade: Trade, provider: RouteProvider, before: nat, ledger: Ledger)
    requires Prepare(client, trade, provider).Ok?
  {
    && UsdcAccount(trade.wallet) in ledger
    && (if trade.side.BuySide? then ledger[UsdcAccount(trade.wallet)] + Routed(client, trade).amount >= before
        else ledger[UsdcAccount(trade.wallet)] >= before + RouteOf(client, trade, provider).quote.minOut)
  }

  /**
   Conservation, end to end. For every accepted sponsored trade that is finalized and submitted,
   with the route keeping its side, the instructions after it execute: the wallet pays exactly
   the transferred fee and the charge, the charge stays within the ceiling, every other account
   gets exactly what is due to it, a buy costs at most the trade's amount and a sell brings in at
   least the quoted minimum, which is positive.
   */
  lemma SponsoredConservation(
      client: Client, trade: Trade, provider: RouteProvider, priorityFeeLamports: u64, tip: Option<Tip>,
      world: SubmitWorld, before: nat, ledger: Ledger) returns (head: seq<Instruction>, tail: seq<Instruction>)
    requires Prepare(client, trade, provider).Ok? && SponsorFor(client, trade).Some?
    requires Submit(SponsorFor(client, trade), trade, Prepare(client, trade, provider).value,
                    priorityFeeLamports, tip, world).Ok?
    requires RouteDelivered(client, trade, provider, before, ledger)
    requires trade.side.BuySide? ==> before >= trade.amount
    ensures var swap := Prepare(client, trade, provider).value;
            var submission := Submit(SponsorFor(client, trade), trade, swap, priorityFeeLamports, tip, world).value;
            var charge := submission.result.sponsorshipFee;
            var after := ExecuteAll(tail, ledger);
            && submission.message.instructions == head + tail
            && Heads(head, RouteOf(client, trade, provider))
            && charge <= Ceiling(client, trade)
            && after.Some? && UsdcAccount(trade.wallet) in after.value
            && var final := after.value[UsdcAccount(trade.wallet)];
               && final + TransferredFee(client, trade, swap) + charge == ledger[UsdcAccount(trade.wallet)]
               && (forall account | account != UsdcAccount(trade.wallet) ::
                     Balance(after.value, account) == Credited(client, trade, swap, charge, ledger, account))
               && (trade.side.BuySide? ==> final + trade.amount >= before)
               && (trade.side.SellSide? ==> final >= before + swap.quote.minOut && swap.quote.minOut >= 1)
  {
    var swap := Prepare(client, trade, provider).value;
    var submission := Submit(SponsorFor(client, trade), trade, swap, priorityFeeLamports, tip, world).value;
    var charge := submission.result.sponsorshipFee;
    head := SubmittedShape(client, trade, provider, priorityFeeLamports, tip, world);
    var fees := FeeTail(client, trade, swap, charge);
    var tips := TipInstructions(SponsorFor(client, trade).value.wallet, tip);
    tail := fees + tips;
    assert head + fees + tips == head + tail;
    if trade.side.BuySide? {
      BuySplitsAmountExactly(client, trade, provider);
    } else {
      SellKeepsSlippageGap(client, trade, provider);
    }
    FeeTailExecutes(client, trade, provider, charge, ledger);
    ExecuteConcat(fees, tips, ledger);
    TipMovesNoUsdc(SponsorFor(client, trade).value.wallet, tip, ExecuteAll(fees, ledger).value);
  }

  /** Both parties sign the very message that carries the charge, and nobody else can be asked to. */
  lemma SubmissionIsFullySigned(
      client: Client, trade: Trade, provider: RouteProvider, priorityFeeLamports: u64, tip: Option<Tip>,
      world: SubmitWorld)
    requires Prepare(client, trade, provider).Ok? && SponsorFor(client, trade).Some?
    requires Submit(SponsorFor(client, trade), trade, Prepare(client, trade, provider).value,
                    priorityFeeLamports, tip, world).Ok?
    ensures var submission := Submit(SponsorFor(client, trade), trade, Prepare(client, trade, provider).value,
                                     priorityFeeLamports, tip, world).value;
            var user, sponsor := world.userSign(submission.message), world.sponsorSign(submission.message);
            && user.Some? && sponsor.Some?
            && submission.message.signers == [SponsorFor(client, trade).value.wallet, trade.wallet]
            && submission.signatures == [sponsor.value, user.value]
            && world.submit(submission.message, submission.signatures) == Some(submission.result.hash)
  {
    RecipientsDiffer(client, trade, provider);
    SponsoredSubmission(SponsorFor(client, trade).value, trade, Prepare(client, trade, provider).value,
                        priorityFeeLamports, tip, world);
  }

  // ---- lamports, and swaps without a sponsor

  /** Lamports by account. */
  type Lamports = map<Pubkey, nat>

  predicate IsLamportTransfer(i: Instruction) {
    && i.program == SYSTEM_PROGRAM && |i.accounts| >= 2 && |i.data| == 12 && i.data[..4] == [2, 0, 0, 0]
  }

  /** A System transfer moves the amount in its bytes; the payer's shortage fails the transaction. */
  function ExecuteLamports(i: Instruction, ledger: Lamports): Option<Lamports> {
    if !IsLamportTransfer(i) then Some(ledger)
    else
      var from, to, amount := i.accounts[0].pubkey, i.accounts[1].pubkey, FromLe(i.data[4..12]);
      if Balance(ledger, from) < amount then None
      else
        var debited := ledger[from := Balance(ledger, from) - amount];
        Some(debited[to := Balance(debited, to) + amount])
  }

  function ExecuteAllLamports(instructions: seq<Instruction>, ledger: Lamports): Option<Lamports>
    decreases |instructions|
  {
    if instructions == [] then Some(ledger)
    else
      match ExecuteLamports(instructions[0], ledger)
      case None => None
      case Some(next) => ExecuteAllLamports(instructions[1..], next)
  }

  lemma {:induction false} ExecuteLamportsConcat(a: seq<Instruction>, b: seq<Instruction>, ledger: Lamports)
    ensures ExecuteAllLamports(a + b, ledger)
         == match ExecuteAllLamports(a, ledger) case None => None case Some(next) => ExecuteAllLamports(b, next)
    decreases |a|
  {
    if a == [] {
      assert a + b == b;
    } else {
      assert (a + b)[0] == a[0] && (a + b)[1..] == a[1..] + b;
      if ExecuteLamports(a[0], ledger).Some? {
        ExecuteLamportsConcat(a[1..], b, ExecuteLamports(a[0], ledger).value);
      }
    }
  }

  /** The part of a transfer of `amount` that an account gives or gets. */
  function Share(account: Pubkey, key: Pubkey, amount: nat): nat {
    if account == key then amount else 0
  }

  /** A transfer runs exactly when its sender can pay, and moves the amount it was built with. */
  lemma TransferMovesAmount(from: Pubkey, to: Pubkey, amount: u64, ledger: Lamports)
    ensures ExecuteAllLamports([SystemTransfer(from, to, amount)], ledger).Some? <==> Balance(ledger, from) >= amount
    ensures Balance(ledger, from) >= amount ==>
      forall account ::
        Balance(ExecuteAllLamports([SystemTransfer(from, to, amount)], ledger).value, account)
        + Share(account, from, amount)
        == Balance(ledger, account) + Share(account, to, amount)
  {
    var i := SystemTransfer(from, to, amount);
    TransferDataReadsBack(amount);
    assert [i][1..] == [];
    if Balance(ledger, from) >= amount {
      var after := ExecuteLamports(i, ledger).value;
      assert ExecuteAllLamports([i], ledger) == ExecuteAllLamports([], after);
    }
  }

  lemma TransferDataReadsBack(amount: u64)
    ensures var data := SystemTransferData(amount);
            |data| == 12 && data[..4] == [2, 0, 0, 0] && FromLe(data[4..12]) == amount
  {
    var data := SystemTransferData(amount);
    assert data[..4] == ToLe(SYS_TRANSFER, 4);
    assert ToLe(2, 4) == [2] + ToLe(0, 3) && ToLe(0, 3) == [0] + ToLe(0, 2) && ToLe(0, 2) == [0, 0];
    assert data[4..12] == ToLe(amount, 8);
    Widths();
    LeRoundTrip(amount, 8);
  }

  /** The tip moves exactly its lamports from the fee payer to the tip account. */
  lemma TipPays(payer: Pubkey, tip: Option<Tip>, ledger: Lamports)
    requires tip.Some? ==> Balance(ledger, payer) >= tip.value.lamports
    ensures ExecuteAllLamports(TipInstructions(payer, tip), ledger).Some?
    ensures var after := ExecuteAllLamports(TipInstructions(payer, tip), ledger).value;
            forall account ::
              Balance(after, account) + (if tip.Some? then Share(account, payer, tip.value.lamports) else 0)
              == Balance(ledger, account) + (if tip.Some? then Share(account, tip.value.account, tip.value.lamports) else 0)
  {
    if tip.Some? {
      TransferMovesAmount(payer, tip.value.account, tip.value.lamports, ledger);
    }
  }

  /** Setting up and paying a USDC fee moves no lamports by transfer; the setup's rent is its payer's. */
  lemma UsdcFeeMovesNoLamports(payer: Pubkey, wallet: Pubkey, recipient: Pubkey, amount: u64, ledger: Lamports)
    ensures ExecuteAllLamports(UsdcFee(payer, wallet, recipient, amount), ledger) == Some(ledger)
  {
    var fee := UsdcFee(payer, wallet, recipient, amount);
    assert fee[1..] == [UsdcTransfer(wallet, recipient, amount)] && fee[1..][1..] == [];
    assert ExecuteAllLamports(fee[1..], ledger) == Some(ledger);
  }

  /** A lamport transfer leaves USDC alone. */
  lemma TransferMovesNoUsdc(from: Pubkey, to: Pubkey, amount: u64, ledger: Ledger)
    ensures ExecuteAll([SystemTransfer(from, to, amount)], ledger) == Some(ledger)
  {
    assert [SystemTransfer(from, to, amount)][1..] == [];
    assert ExecuteAll([], ledger) == Some(ledger);
  }

  /** Without a sponsor preparation only appends the SDK's own transfer. */
  lemma UnsponsoredIsRouteThenFee(client: Client, trade: Trade, provider: RouteProvider)
    requires Prepare(client, trade, provider).Ok? && SponsorFor(client, trade).None?
    ensures var swap, route := Prepare(client, trade, provider).value, RouteOf(client, trade, provider);
            swap.instructions == route.instructions + SdkTransfer(client, trade, swap)
  {
    var route := RouteOf(client, trade, provider);
    assert route.instructions + [] == route.instructions;
  }

  function FeeRecipient(client: Client, trade: Trade): Pubkey
    requires PlanRoute(client, trade).Ok?
  {
    if TransferFee(client, trade).Some? then TransferFee(client, trade).value.recipient else trade.wallet
  }

  /**
   What preparation appends to an unsponsored route, executed: in a SOL trade it takes the
   transferred fee in lamports from the wallet to the recipient and no USDC, in a USDC trade it takes
   it in USDC and no lamports. It runs whenever the wallet can pay.
   */
  lemma AppendedFeeMovesExactly(
      client: Client, trade: Trade, provider: RouteProvider, lamports: Lamports, usdc: Ledger)
    returns (appended: seq<Instruction>)
    requires Prepare(client, trade, provider).Ok? && SponsorFor(client, trade).None?
    requires var fee := TransferredFee(client, trade, Prepare(client, trade, provider).value);
             if trade.settlement.Sol? then Balance(lamports, trade.wallet) >= fee
             else UsdcAccount(trade.wallet) in usdc && usdc[UsdcAccount(trade.wallet)] >= fee
    ensures var swap := Prepare(client, trade, provider).value;
            var fee, recipient := TransferredFee(client, trade, swap), FeeRecipient(client, trade);
            && swap.instructions == RouteOf(client, trade, provider).instructions + appended
            && (forall i | i in appended :: FeeProgram(i))
            && ExecuteAllLamports(appended, lamports).Some? && ExecuteAll(appended, usdc).Some?
            && var (lamports', usdc') := (ExecuteAllLamports(appended, lamports).value, ExecuteAll(appended, usdc).value);
            && (trade.settlement.Sol? ==>
                  && usdc' == usdc
                  && forall account ::
                       Balance(lamports', account) + Share(account, trade.wallet, fee)
                       == Balance(lamports, account) + Share(account, recipient, fee))
            && (trade.settlement.Usdc? ==>
                  && lamports' == lamports && UsdcAccount(trade.wallet) in usdc'
                  && forall account ::
                       Balance(usdc', account) + Share(account, UsdcAccount(trade.wallet), fee)
                       == Balance(usdc, account) + Share(account, UsdcAccount(recipient), fee))
  {
    var swap := Prepare(client, trade, provider).value;
    appended := SdkTransfer(client, trade, swap);
    UnsponsoredIsRouteThenFee(client, trade, provider);
    FeeGoesElsewhere(client, trade, provider);
    if appended != [] {
      var fee, recipient := swap.quote.applicationFee, TransferFee(client, trade).value.recipient;
      if trade.settlement.Sol? {
        TransferMovesAmount(trade.wallet, recipient, fee, lamports);
        TransferMovesNoUsdc(trade.wallet, recipient, fee, usdc);
      } else {
        FeeMovesAmount(trade.wallet, trade.wallet, recipient, fee, usdc);
        UsdcFeeMovesNoLamports(trade.wallet, trade.wallet, recipient, fee, lamports);
      }
    }
  }

  /** An unsponsored submission sends the budget prefix, the kept route, what preparation appended, and the tip. */
  lemma UnsponsoredShape(
      client: Client, trade: Trade, provider: RouteProvider, appended: seq<Instruction>, priorityFeeLamports: u64,
      tip: Option<Tip>, world: SubmitWorld) returns (head: seq<Instruction>)
    requires Prepare(client, trade, provider).Ok?
    requires var swap, route := Prepare(client, trade, provider).value, RouteOf(client, trade, provider);
             && swap.instructions == route.instructions + appended
             && Submit(None, trade, swap, priorityFeeLamports, tip, world).Ok?
    requires forall i | i in appended :: FeeProgram(i)
    ensures Heads(head, RouteOf(client, trade, provider))
    ensures var swap := Prepare(client, trade, provider).value;
            Submit(None, trade, swap, priorityFeeLamports, tip, world).value.message.instructions
            == head + (appended + TipInstructions(trade.wallet, tip))
  {
    var swap, route := Prepare(client, trade, provider).value, RouteOf(client, trade, provider);
    UnsponsoredSubmission(trade, swap, priorityFeeLamports, tip, world);
    PreparedQuote(client, trade, provider);
    head := BuiltAround(trade.wallet, route, appended, priorityFeeLamports, tip, world.build);
  }

  /** What the trading wallet holds of the currency the trade settles in. */
  function Held(trade: Trade, lamports: Lamports, usdc: Ledger): nat {
    if trade.settlement.Sol? then Balance(lamports, trade.wallet) else Balance(usdc, UsdcAccount(trade.wallet))
  }

  /** The holdings after the route, which spends at most the routed amount or pays at least its minimum. */
  predicate Delivered(client: Client, trade: Trade, provider: RouteProvider, before: nat, held: nat)
    requires Prepare(client, trade, provider).Ok?
  {
    if trade.side.BuySide? then held + Routed(client, trade).amount >= before
    else held >= before + RouteOf(client, trade, provider).quote.minOut
  }

  function TipLamports(tip: Option<Tip>): nat { if tip.Some? then tip.value.lamports else 0 }

  function TipAccount(tip: Option<Tip>, wallet: Pubkey): Pubkey {
    if tip.Some? then tip.value.account else wallet
  }

  /**
   Conservation without a sponsor, in either currency. The instructions submitted after the route run
   whenever the wallet can pay them; every account's lamports and USDC change by exactly the SDK's
   own fee, in the settlement currency, and the tip. Network fees apart, a buy costs at most the
   trade's amount and a sell brings in at least the quoted, positive minimum, each less a tip paid in
   the same currency.
   */
  lemma UnsponsoredConservation(
      client: Client, trade: Trade, provider: RouteProvider, priorityFeeLamports: u64, tip: Option<Tip>,
      world: SubmitWorld, before: nat, lamports: Lamports, usdc: Ledger)
    returns (head: seq<Instruction>, tail: seq<Instruction>)
    requires Prepare(client, trade, provider).Ok? && SponsorFor(client, trade).None?
    requires Submit(None, trade, Prepare(client, trade, provider).value, priorityFeeLamports, tip, world).Ok?
    requires trade.settlement.Usdc? ==> UsdcAccount(trade.wallet) in usdc
    requires Delivered(client, trade, provider, before, Held(trade, lamports, usdc))
    requires var fee := TransferredFee(client, trade, Prepare(client, trade, provider).value);
             && Held(trade, lamports, usdc) >= fee
             && Balance(lamports, trade.wallet) >= (if trade.settlement.Sol? then fee else 0) + TipLamports(tip)
    ensures var swap := Prepare(client, trade, provider).value;
            var submission := Submit(None, trade, swap, priorityFeeLamports, tip, world).value;
            var fee, recipient := TransferredFee(client, trade, swap), FeeRecipient(client, trade);
            var (solFee, usdcFee) := if trade.settlement.Sol? then (fee, 0) else (0, fee);
            && submission.message.instructions == head + tail
            && Heads(head, RouteOf(client, trade, provider))
            && submission.result.applicationFee == swap.quote.applicationFee
            && submission.result.sponsorshipFee == 0
            && ExecuteAllLamports(tail, lamports).Some? && ExecuteAll(tail, usdc).Some?
            && var (lamports', usdc') := (ExecuteAllLamports(tail, lamports).value, ExecuteAll(tail, usdc).value);
            && (forall account ::
                  Balance(lamports', account) + Share(account, trade.wallet, solFee + TipLamports(tip))
                  == Balance(lamports, account) + Share(account, recipient, solFee)
                     + Share(account, TipAccount(tip, trade.wallet), TipLamports(tip)))
            && (forall account ::
                  Balance(usdc', account) + Share(account, UsdcAccount(trade.wallet), usdcFee)
                  == Balance(usdc, account) + Share(account, UsdcAccount(recipient), usdcFee))
            && var final := Held(trade, lamports', usdc')
                          + if trade.settlement.Sol? then TipLamports(tip) else 0;
               && (trade.side.BuySide? ==> final + trade.amount >= before)
               && (trade.side.SellSide? ==> final >= before + swap.quote.minOut && swap.quote.minOut >= 1)
  {
    var swap := Prepare(client, trade, provider).value;
    var tips := TipInstructions(trade.wallet, tip);
    var appended := AppendedFeeMovesExactly(client, trade, provider, lamports, usdc);
    head := UnsponsoredShape(client, trade, provider, appended, priorityFeeLamports, tip, world);
    tail := appended + tips;
    UnsponsoredSubmission(trade, swap, priorityFeeLamports, tip, world);
    PreparedQuote(client, trade, provider);
    if trade.side.BuySide? {
      BuySplitsAmountExactly(client, trade, provider);
    } else {
      SellKeepsSlippageGap(client, trade, provider);
    }
    FeesThenTip(appended, trade.wallet, tip, lamports, usdc);
  }

  /** Executing the tip after the fees. */
  lemma FeesThenTip(fees: seq<Instruction>, wallet: Pubkey, tip: Option<Tip>, lamports: Lamports, usdc: Ledger)
    requires ExecuteAllLamports(fees, lamports).Some? && ExecuteAll(fees, usdc).Some?
    requires Balance(ExecuteAllLamports(fees, lamports).value, wallet) >= TipLamports(tip)
    ensures var tail := fees + TipInstructions(wallet, tip);
            && ExecuteAll(tail, usdc) == ExecuteAll(fees, usdc)
            && ExecuteAllLamports(tail, lamports).Some?
            && forall account ::
                 Balance(ExecuteAllLamports(tail, lamports).value, account) + Share(account, wallet, TipLamports(tip))
                 == Balance(ExecuteAllLamports(fees, lamports).value, account)
                    + Share(account, TipAccount(tip, wallet), TipLamports(tip))
  {
    var tips := TipInstructions(wallet, tip);
    ExecuteConcat(fees, tips, usdc);
    ExecuteLamportsConcat(fees, tips, lamports);
    TipMovesNoUsdc(wallet, tip, ExecuteAll(fees, usdc).value);
    TipPays(wallet, tip, ExecuteAllLamports(fees, lamports).value);
  }
}
