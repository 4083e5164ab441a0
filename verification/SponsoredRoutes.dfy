/**
 Sponsored routes of the bloXroute and Relay adapters (src/solana/sources): account rent is moved to
 the sponsor, and no top-level System or token-account instruction spends the wallet's lamports.
 */
module SponsoredRoutes {
  import opened Types
  import opened Bytes
  import opened SolanaTypes
  import opened Subsequences
  import opened Transactions
  import opened ComputeBudget
  import opened SdkFees
  import opened Routing
  import opened Executor
  import opened Settlement

  // Where a token-account setup lists its accounts.
  const PAYER: nat := 0
  const ADDRESS: nat := 1
  const OWNER: nat := 2
  const MINT: nat := 3
  const SYSTEM: nat := 4
  const TOKEN: nat := 5

  /** A provider's instruction: only the wallet and the payer may be asked to sign. */
  function DecodeInstruction(api: Instruction, wallet: Pubkey, payer: Option<Pubkey>): Result<Instruction> {
    if exists a :: a in api.accounts && a.isSigner && a.pubkey != wallet && Some(a.pubkey) != payer
    then Err(DecodeError)
    else Ok(api)
  }

  /** A token-account setup whose payer may be replaced by the sponsor. */
  predicate MovableSetup(i: Instruction, wallet: Pubkey, sponsor: Pubkey) {
    && (i.data == [] || i.data == [ATA_CREATE] || i.data == [ATA_CREATE_IDEMPOTENT])
    && |i.accounts| == 6
    && (i.accounts[PAYER].pubkey == wallet || i.accounts[PAYER].pubkey == sponsor)
    && i.accounts[SYSTEM].pubkey == SYSTEM_PROGRAM
    && i.accounts[ADDRESS].pubkey == Ata(i.accounts[OWNER].pubkey, i.accounts[MINT].pubkey, i.accounts[TOKEN].pubkey)
  }

  predicate SpendsUserSol(i: Instruction, wallet: Pubkey) {
    && i.program == SYSTEM_PROGRAM
    && i.accounts != [] && i.accounts[0].pubkey == wallet
    && i.data != SystemTransferData(0)
  }

  function MoveRentToSponsor(i: Instruction, wallet: Pubkey, sponsor: Pubkey): Result<Instruction> {
    if i.program == ATA_PROGRAM && !MovableSetup(i, wallet, sponsor) then Err(DecodeError)
    else
      var moved := if i.program == ATA_PROGRAM then i.(accounts := i.accounts[PAYER := Signer(sponsor)]) else i;
      if SpendsUserSol(moved, wallet) then Err(DecodeError) else Ok(moved)
  }

  /** Whether a provider's budget instruction stays: limit and price are the executor's to set. */
  function RetainComputeBudget(i: Instruction): Result<bool> {
    if NotBudget(i) then Ok(true)
    else if i.data == [] then Err(DecodeError)
    else if i.data[0] == SET_COMPUTE_UNIT_LIMIT && |i.data| == 5 then Ok(false)
    else if i.data[0] == SET_COMPUTE_UNIT_PRICE && |i.data| == 9 then Ok(false)
    else if (i.data[0] == REQUEST_HEAP_FRAME || i.data[0] == SET_LOADED_ACCOUNTS_DATA_SIZE_LIMIT) && |i.data| == 5
    then Ok(true)
    else Err(DecodeError)
  }

  /** Decoding with the rent moved whenever a sponsor pays. */
  function DecodeMoved(api: Instruction, wallet: Pubkey, payer: Option<Pubkey>): Result<Instruction> {
    var i :- DecodeInstruction(api, wallet, payer);
    if payer.Some? then MoveRentToSponsor(i, wallet, payer.value) else Ok(i)
  }

  // ---- the two adapters

  datatype BloxrouteResponse = BloxrouteResponse(config: TransactionConfig, setup: seq<Instruction>, swap: Instruction)

  /** One setup instruction; budget requests have no place among them. */
  function SetupDecoder(wallet: Pubkey, payer: Option<Pubkey>): Instruction -> Result<Option<Instruction>> {
    api =>
      if IsBudget(api) then Err(DecodeError)
      else
        var i :- DecodeMoved(api, wallet, payer);
        Ok(Some(i))
  }

  function SetupInstructions(
      setup: seq<Instruction>, wallet: Pubkey, payer: Option<Pubkey>, done: seq<Instruction>): Result<seq<Instruction>>
  {
    Collect(setup, SetupDecoder(wallet, payer), done)
  }

  predicate BloxrouteSwap(swap: Instruction, wallet: Pubkey) {
    && swap.program == BLOXROUTE_PROGRAM && swap.data != []
    && exists a :: a in swap.accounts && a.pubkey == wallet && a.isSigner
  }

  /** Where the provider collects a fee, the recipient's settlement account is set up first. */
  function FeeSetup(fee: Option<SdkFee>, trade: Trade, payer: Option<Pubkey>): seq<Instruction> {
    if fee.None? then []
    else [CreateAtaIdempotent(payer.GetOr(trade.wallet), fee.value.recipient, trade.settlement.Mint())]
  }

  function BloxrouteInstructions(
      response: BloxrouteResponse, trade: Trade, payer: Option<Pubkey>, fee: Option<SdkFee>): Result<seq<Instruction>>
  {
    var budget :- ConfigInstructions(response.config);
    var ready :- SetupInstructions(response.setup, trade.wallet, payer, budget + FeeSetup(fee, trade, payer));
    var swap :- DecodeInstruction(response.swap, trade.wallet, payer);
    if BloxrouteSwap(swap, trade.wallet) then Ok(ready + [swap]) else Err(DecodeError)
  }

  method CollectBloxroute(response: BloxrouteResponse, trade: Trade, payer: Option<Pubkey>, fee: Option<SdkFee>)
    returns (r: Result<seq<Instruction>>)
    ensures r == BloxrouteInstructions(response, trade, payer, fee)
  {
    var config := ConfigInstructions(response.config);
    if config.Err? {
      return config;
    }
    var instructions := config.value;
    if fee.Some? {
      instructions :=
        instructions + [CreateAtaIdempotent(payer.GetOr(trade.wallet), fee.value.recipient, trade.settlement.Mint())];
    }
    assert instructions == config.value + FeeSetup(fee, trade, payer);
    ghost var before := instructions;
    for k := 0 to |response.setup|
      invariant SetupInstructions(response.setup, trade.wallet, payer, before)
             == SetupInstructions(response.setup[k..], trade.wallet, payer, instructions)
    {
      var setup := response.setup[k];
      assert response.setup[k..][0] == setup && response.setup[k..][1..] == response.setup[k + 1..];
      var instruction := DecodeInstruction(setup, trade.wallet, payer);
      if setup.program == COMPUTE_BUDGET_PROGRAM {
        return Err(DecodeError);
      }
      if instruction.Err? {
        return Err(instruction.error);
      }
      if payer.Some? {
        instruction := MoveRentToSponsor(instruction.value, trade.wallet, payer.value);
        if instruction.Err? {
          return Err(instruction.error);
        }
      }
      instructions := instructions + [instruction.value];
    }
    var swap := DecodeInstruction(response.swap, trade.wallet, payer);
    if swap.Err? {
      return Err(swap.error);
    }
    if !BloxrouteSwap(swap.value, trade.wallet) {
      return Err(DecodeError);
    }
    return Ok(instructions + [swap.value]);
  }

  datatype RelayResponse = RelayResponse(accepted: bool, instructions: seq<Instruction>, config: TransactionConfig)

  /** One instruction of a Relay route, or nothing where the executor sets the value itself. */
  function RelayDecoder(wallet: Pubkey, payer: Option<Pubkey>): Instruction -> Result<Option<Instruction>> {
    api =>
      var i :- DecodeMoved(api, wallet, payer);
      var keep :- RetainComputeBudget(i);
      Ok(if keep then Some(i) else None)
  }

  function RelayRoute(
      api: seq<Instruction>, wallet: Pubkey, payer: Option<Pubkey>, done: seq<Instruction>): Result<seq<Instruction>>
  {
    Collect(api, RelayDecoder(wallet, payer), done)
  }

  predicate SignsAs(i: Instruction, wallet: Pubkey) {
    exists a :: a in i.accounts && a.isSigner && a.pubkey == wallet
  }

  predicate SignedBy(instructions: seq<Instruction>, wallet: Pubkey) {
    exists i :: i in instructions && SignsAs(i, wallet)
  }

  /** `accepted` stands for the chain and transaction version checks. */
  function RelayInstructions(response: RelayResponse, trade: Trade, payer: Option<Pubkey>): Result<seq<Instruction>> {
    if !response.accepted then Err(DecodeError)
    else
      var route :- RelayRoute(response.instructions, trade.wallet, payer, []);
      if route == [] || !SignedBy(route, trade.wallet) then Err(DecodeError)
      else
        var config :- ConfigInstructions(response.config);
        Ok(route + config)
  }

  method CollectRelay(response: RelayResponse, trade: Trade, payer: Option<Pubkey>) returns (r: Result<seq<Instruction>>)
    ensures r == RelayInstructions(response, trade, payer)
  {
    if !response.accepted {
      return Err(DecodeError);
    }
    var instructions: seq<Instruction> := [];
    for k := 0 to |response.instructions|
      invariant RelayRoute(response.instructions, trade.wallet, payer, [])
             == RelayRoute(response.instructions[k..], trade.wallet, payer, instructions)
    {
      var api := response.instructions[k];
      assert response.instructions[k..][0] == api && response.instructions[k..][1..] == response.instructions[k + 1..];
      var instruction := DecodeInstruction(api, trade.wallet, payer);
      if instruction.Err? {
        return Err(instruction.error);
      }
      if payer.Some? {
        instruction := MoveRentToSponsor(instruction.value, trade.wallet, payer.value);
        if instruction.Err? {
          return Err(instruction.error);
        }
      }
      var keep := RetainComputeBudget(instruction.value);
      if keep.Err? {
        return Err(keep.error);
      }
      assert instructions + [] == instructions;
      if keep.value {
        instructions := instructions + [instruction.value];
      }
    }
    if instructions == [] || !SignedBy(instructions, trade.wallet) {
      return Err(DecodeError);
    }
    var config := ConfigInstructions(response.config);
    if config.Err? {
      return config;
    }
    return Ok(instructions + config.value);
  }

  // ---- what is taken from a response, in its order

  /** Nobody but the wallet and the payer is asked to sign. */
  predicate SignableBy(i: Instruction, wallet: Pubkey, payer: Option<Pubkey>) {
    forall a | a in i.accounts && a.isSigner :: a.pubkey == wallet || Some(a.pubkey) == payer
  }

  /**
   `i` is the provider's instruction: the very same, but for the setup of a derived token account
   under a sponsor, whose first account becomes the sponsor, signing. Program and data never change.
   */
  predicate TakenFrom(api: Instruction, wallet: Pubkey, payer: Option<Pubkey>, i: Instruction) {
    && SignableBy(api, wallet, payer)
    && i.program == api.program && i.data == api.data
    && if payer.None? then i.accounts == api.accounts
       else if api.program == ATA_PROGRAM then
         && (api.data == [] || api.data == [0] || api.data == [1])
         && |api.accounts| == 6
         && (api.accounts[0].pubkey == wallet || api.accounts[0].pubkey == payer.value)
         && api.accounts[1].pubkey == Ata(api.accounts[2].pubkey, api.accounts[3].pubkey, api.accounts[5].pubkey)
         && api.accounts[4].pubkey == SYSTEM_PROGRAM
         && i.accounts == [AccountMeta(payer.value, true, true)] + api.accounts[1..]
       else
         && i.accounts == api.accounts
         && !(api.program == SYSTEM_PROGRAM && api.accounts != [] && api.accounts[0].pubkey == wallet
              && api.data != SystemTransferData(0))
  }

  lemma TakenExactly(api: Instruction, wallet: Pubkey, payer: Option<Pubkey>, i: Instruction)
    ensures DecodeMoved(api, wallet, payer) == Ok(i) <==> TakenFrom(api, wallet, payer, i)
  {
    if payer.Some? && |api.accounts| == 6 {
      assert api.accounts[0 := Signer(payer.value)] == [Signer(payer.value)] + api.accounts[1..];
    }
  }

  /** What the executor sets itself: a compute-unit limit or price. */
  predicate LeftToExecutor(i: Instruction) {
    IsBudget(i) && ((|i.data| == 5 && i.data[0] == 2) || (|i.data| == 9 && i.data[0] == 3))
  }

  /** An instruction that stays in a Relay route: no budget request, or one for heap or loaded data size. */
  predicate StaysInRoute(i: Instruction) {
    NotBudget(i) || (|i.data| == 5 && (i.data[0] == 1 || i.data[0] == 4))
  }

  lemma RelayDecodesExactly(api: Instruction, wallet: Pubkey, payer: Option<Pubkey>, i: Instruction)
    ensures RelayDecoder(wallet, payer)(api) == Ok(Some(i)) <==> TakenFrom(api, wallet, payer, i) && StaysInRoute(i)
  {
    TakenExactly(api, wallet, payer, i);
  }

  /** The decoder skips what is left to the executor, and refuses what is neither kept nor skipped. */
  lemma RelaySkipsExactly(api: Instruction, wallet: Pubkey, payer: Option<Pubkey>)
    ensures RelayDecoder(wallet, payer)(api) == Ok(None) ==> LeftToExecutor(api)
    ensures RelayDecoder(wallet, payer)(api).Ok?
       <==> exists i :: TakenFrom(api, wallet, payer, i) && (StaysInRoute(i) || LeftToExecutor(i))
  {
    var decoded := DecodeMoved(api, wallet, payer);
    if decoded.Ok? {
      TakenExactly(api, wallet, payer, decoded.value);
    }
    forall i | TakenFrom(api, wallet, payer, i)
      ensures decoded == Ok(i)
    {
      TakenExactly(api, wallet, payer, i);
    }
  }

  /**
   A bloXroute list is the encoded configuration, the fee recipient's account where a provider
   collects a fee, every setup instruction in the response's order, and the swap last.
   */
  lemma BloxrouteInOrder(
      response: BloxrouteResponse, trade: Trade, payer: Option<Pubkey>, fee: Option<SdkFee>)
    returns (setup: seq<Instruction>)
    requires BloxrouteInstructions(response, trade, payer, fee).Ok?
    ensures |setup| == |response.setup|
    ensures forall k | 0 <= k < |setup| ::
              TakenFrom(response.setup[k], trade.wallet, payer, setup[k]) && NotBudget(response.setup[k])
    ensures BloxrouteInstructions(response, trade, payer, fee).value
         == ConfigInstructions(response.config).value
            + (if fee.None? then []
               else [CreateAtaIdempotent(payer.GetOr(trade.wallet), fee.value.recipient, trade.settlement.Mint())])
            + setup + [response.swap]
  {
    var done := ConfigInstructions(response.config).value + FeeSetup(fee, trade, payer);
    setup := CollectAll(response.setup, SetupDecoder(trade.wallet, payer), done);
    forall k | 0 <= k < |setup|
      ensures TakenFrom(response.setup[k], trade.wallet, payer, setup[k]) && NotBudget(response.setup[k])
    {
      TakenExactly(response.setup[k], trade.wallet, payer, setup[k]);
    }
  }

  /** A bloXroute response is accepted exactly when every part of it is. */
  lemma BloxrouteAcceptedExactly(response: BloxrouteResponse, trade: Trade, payer: Option<Pubkey>, fee: Option<SdkFee>)
    ensures BloxrouteInstructions(response, trade, payer, fee).Ok?
       <==> && ConfigInstructions(response.config).Ok?
            && (forall api | api in response.setup :: NotBudget(api) && exists i :: TakenFrom(api, trade.wallet, payer, i))
            && SignableBy(response.swap, trade.wallet, payer)
            && response.swap.program == BLOXROUTE_PROGRAM && response.swap.data != []
            && exists a :: a in response.swap.accounts && a.pubkey == trade.wallet && a.isSigner
  {
    var decode := SetupDecoder(trade.wallet, payer);
    forall api
      ensures decode(api).Ok? <==> NotBudget(api) && exists i :: TakenFrom(api, trade.wallet, payer, i)
    {
      var decoded := DecodeMoved(api, trade.wallet, payer);
      if decoded.Ok? {
        TakenExactly(api, trade.wallet, payer, decoded.value);
      }
      forall i | TakenFrom(api, trade.wallet, payer, i)
        ensures decoded == Ok(i)
      {
        TakenExactly(api, trade.wallet, payer, i);
      }
    }
    if ConfigInstructions(response.config).Ok? {
      CollectsExactly(response.setup, decode,
                      ConfigInstructions(response.config).value + FeeSetup(fee, trade, payer));
    }
  }

  function TakenAndStays(wallet: Pubkey, payer: Option<Pubkey>): (Instruction, Instruction) -> bool {
    (api, i) => TakenFrom(api, wallet, payer, i) && StaysInRoute(i)
  }

  /**
   A Relay list is the response's own instructions in their order, without the limit and price
   requests that the executor sets itself, and then the encoded configuration.
   */
  lemma RelayInOrder(response: RelayResponse, trade: Trade, payer: Option<Pubkey>)
    returns (route: seq<Instruction>, at: seq<nat>)
    requires RelayInstructions(response, trade, payer).Ok?
    ensures PickedInOrder(response.instructions, route, at, TakenAndStays(trade.wallet, payer), LeftToExecutor)
    ensures RelayInstructions(response, trade, payer).value == route + ConfigInstructions(response.config).value
    ensures SignedBy(route, trade.wallet)
  {
    var decode := RelayDecoder(trade.wallet, payer);
    forall api | api in response.instructions && decode(api).Ok?
      ensures if decode(api).value.Some? then TakenAndStays(trade.wallet, payer)(api, decode(api).value.value)
              else LeftToExecutor(api)
    {
      if decode(api).value.Some? {
        RelayDecodesExactly(api, trade.wallet, payer, decode(api).value.value);
      } else {
        RelaySkipsExactly(api, trade.wallet, payer);
      }
    }
    route, at := CollectInOrder(response.instructions, decode, [], TakenAndStays(trade.wallet, payer), LeftToExecutor);
    assert [] + route == route;
  }

  /**
   A Relay response is accepted exactly when its chain and version are right, each instruction can be
   taken and is kept or left to the executor, a kept one still asks for the wallet's signature, and
   the configuration is in range.
   */
  lemma RelayAcceptedExactly(response: RelayResponse, trade: Trade, payer: Option<Pubkey>)
    ensures RelayInstructions(response, trade, payer).Ok?
       <==> && response.accepted
            && (forall api | api in response.instructions ::
                  exists i :: TakenFrom(api, trade.wallet, payer, i) && (StaysInRoute(i) || LeftToExecutor(i)))
            && (exists api, i :: api in response.instructions && TakenAndStays(trade.wallet, payer)(api, i)
                              && SignsAs(i, trade.wallet))
            && ConfigInstructions(response.config).Ok?
  {
    var decode := RelayDecoder(trade.wallet, payer);
    CollectsExactly(response.instructions, decode, []);
    forall api
      ensures decode(api).Ok?
         <==> exists i :: TakenFrom(api, trade.wallet, payer, i) && (StaysInRoute(i) || LeftToExecutor(i))
    {
      RelaySkipsExactly(api, trade.wallet, payer);
    }
    if RelayRoute(response.instructions, trade.wallet, payer, []).Ok? {
      RouteSignedExactly(response.instructions, trade.wallet, payer);
    }
  }

  lemma RouteSignedExactly(api: seq<Instruction>, wallet: Pubkey, payer: Option<Pubkey>)
    requires RelayRoute(api, wallet, payer, []).Ok?
    ensures SignedBy(RelayRoute(api, wallet, payer, []).value, wallet)
       <==> exists from, i :: from in api && TakenAndStays(wallet, payer)(from, i) && SignsAs(i, wallet)
  {
    forall from, i
      ensures TakenAndStays(wallet, payer)(from, i) <==> RelayDecoder(wallet, payer)(from) == Ok(Some(i))
    {
      RelayDecodesExactly(from, wallet, payer, i);
    }
    CollectsGood(api, RelayDecoder(wallet, payer), TakenAndStays(wallet, payer), i => SignsAs(i, wallet));
  }

  // ---- the budget requests of a route

  lemma OnlyFirstRequests(
      budget: seq<Instruction>, account: seq<Instruction>, setup: seq<Instruction>, swap: Instruction)
    requires forall i | i in budget :: IsBudget(i)
    requires (forall i | i in account :: NotBudget(i)) && (forall i | i in setup :: NotBudget(i)) && NotBudget(swap)
    ensures Retain(budget + account + setup + [swap], IsBudget) == budget
  {
    var rest := account + setup + [swap];
    FrontRegrouped(budget, account, setup, [swap]);
    RetainConcat(budget, rest, IsBudget);
    RetainAll(budget, IsBudget);
    NothingRetained(rest, IsBudget);
  }

  lemma BloxrouteRequests(response: BloxrouteResponse, trade: Trade, payer: Option<Pubkey>, fee: Option<SdkFee>)
    requires BloxrouteInstructions(response, trade, payer, fee).Ok?
    ensures Retain(BloxrouteInstructions(response, trade, payer, fee).value, IsBudget)
         == ConfigInstructions(response.config).value
  {
    var budget := ConfigInstructions(response.config).value;
    var setup := BloxrouteInOrder(response, trade, payer, fee);
    TakenAddsNoBudget(response.setup, trade.wallet, payer, setup);
    OnlyFirstRequests(budget, FeeSetup(fee, trade, payer), setup, response.swap);
  }

  lemma FrontRegrouped<T>(a: seq<T>, b: seq<T>, c: seq<T>, d: seq<T>)
    ensures a + b + c + d == a + (b + c + d)
  {
  }

  lemma TakenAddsNoBudget(api: seq<Instruction>, wallet: Pubkey, payer: Option<Pubkey>, taken: seq<Instruction>)
    requires |taken| == |api|
    requires forall k | 0 <= k < |api| :: TakenFrom(api[k], wallet, payer, taken[k]) && NotBudget(api[k])
    ensures forall i | i in taken :: NotBudget(i)
  {
  }

  /**
   A bloXroute route requests exactly what its configuration names, so V1 always takes it, field by
   field, and builds the remaining instructions in order.
   */
  lemma BloxrouteBudgetIsItsConfig(
      response: BloxrouteResponse, trade: Trade, payer: Option<Pubkey>, fee: Option<SdkFee>)
    requires BloxrouteInstructions(response, trade, payer, fee).Ok?
    ensures var list, config := BloxrouteInstructions(response, trade, payer, fee).value, response.config;
            TakeFrom(list, V1)
            == Ok((RequestedBudget(config.computeUnitLimit, config.loadedAccountsDataSizeLimit, config.heapSize),
                   Retain(list, NotBudget)))
  {
    var list := BloxrouteInstructions(response, trade, payer, fee).value;
    BloxrouteRequests(response, trade, payer, fee);
    BudgetRoundTrip(response.config, list, Retain(list, NotBudget));
  }

  ghost predicate AllReadable(instructions: seq<Instruction>) {
    forall i | i in instructions && IsBudget(i) :: WellFormed(i)
  }

  lemma FilteredRouteIsReadable(
      api: seq<Instruction>, wallet: Pubkey, payer: Option<Pubkey>, done: seq<Instruction>)
    requires AllReadable(done) && RelayRoute(api, wallet, payer, done).Ok?
    ensures AllReadable(RelayRoute(api, wallet, payer, done).value)
  {
    CollectKeeps(api, RelayDecoder(wallet, payer), done, i => IsBudget(i) ==> WellFormed(i));
  }

  lemma ConfigIsReadable(config: TransactionConfig)
    requires ConfigInstructions(config).Ok?
    ensures AllReadable(ConfigInstructions(config).value)
  {
    if config.computeUnitLimit.Some? {
      BudgetValueRoundTrip(SET_COMPUTE_UNIT_LIMIT, config.computeUnitLimit.value);
    }
  }

  /**
   What survives Relay's filter, with the configuration behind it, is readable throughout: the
   only way V1 refuses the budget of an accepted Relay route is a field requested twice.
   */
  lemma RelayBudgetFailsOnlyOnDuplicates(response: RelayResponse, trade: Trade, payer: Option<Pubkey>)
    requires RelayInstructions(response, trade, payer).Ok?
    ensures var list := RelayInstructions(response, trade, payer).value;
            TakeFrom(list, V1).Ok?
            <==> && Requests(list, SET_COMPUTE_UNIT_LIMIT) <= 1
                 && Requests(list, REQUEST_HEAP_FRAME) <= 1
                 && Requests(list, SET_LOADED_ACCOUNTS_DATA_SIZE_LIMIT) <= 1
  {
    FilteredRouteIsReadable(response.instructions, trade.wallet, payer, []);
    ConfigIsReadable(response.config);
    TakeFailsExactlyOnDuplicates(RelayInstructions(response, trade, payer).value);
  }

  // ---- the wallet's lamports

  /** Lamports a System instruction moves out of its first account; `other` decodes all but transfers. */
  function SystemAmount(data: seq<byte>, other: seq<byte> -> nat): nat {
    if |data| >= 12 && data[..4] == ToLe(SYS_TRANSFER, 4) then FromLe(data[4..12]) else other(data)
  }

  /** Lamports one top-level System or token-account instruction takes from the wallet. */
  function WalletDebit(i: Instruction, wallet: Pubkey, rent: nat, other: seq<byte> -> nat): nat {
    if i.accounts == [] || i.accounts[0].pubkey != wallet then 0
    else if i.program == SYSTEM_PROGRAM then SystemAmount(i.data, other)
    else if i.program == ATA_PROGRAM then rent
    else 0
  }

  /** Whatever rent is and however other System calls decode, the wallet pays nothing. */
  ghost predicate SparesWallet(i: Instruction, wallet: Pubkey) {
    forall rent: nat, other: seq<byte> -> nat :: WalletDebit(i, wallet, rent, other) == 0
  }

  ghost predicate AllSpareWallet(instructions: seq<Instruction>, wallet: Pubkey) {
    forall i | i in instructions :: SparesWallet(i, wallet)
  }

  lemma ZeroTransferMovesNothing(other: seq<byte> -> nat)
    ensures SystemAmount(SystemTransferData(0), other) == 0
  {
    var data := SystemTransferData(0);
    assert data[..4] == ToLe(SYS_TRANSFER, 4) && data[4..12] == ToLe(0, 8);
    LeRoundTrip(0, 8);
  }

  lemma MovedSparesWallet(i: Instruction, wallet: Pubkey, sponsor: Pubkey)
    requires wallet != sponsor && MoveRentToSponsor(i, wallet, sponsor).Ok?
    ensures SparesWallet(MoveRentToSponsor(i, wallet, sponsor).value, wallet)
  {
    var moved := MoveRentToSponsor(i, wallet, sponsor).value;
    forall rent: nat, other: seq<byte> -> nat
      ensures WalletDebit(moved, wallet, rent, other) == 0
    {
      ZeroTransferMovesNothing(other);
    }
  }

  /** Whatever either adapter's decoder lets through has been through the rent check. */
  lemma DecodedSparesWallet(api: Instruction, wallet: Pubkey, sponsor: Pubkey)
    requires wallet != sponsor && DecodeMoved(api, wallet, Some(sponsor)).Ok?
    ensures SparesWallet(DecodeMoved(api, wallet, Some(sponsor)).value, wallet)
  {
    MovedSparesWallet(api, wallet, sponsor);
  }

  lemma SetupSparesWallet(setup: seq<Instruction>, wallet: Pubkey, sponsor: Pubkey, done: seq<Instruction>)
    requires wallet != sponsor && AllSpareWallet(done, wallet)
    requires SetupInstructions(setup, wallet, Some(sponsor), done).Ok?
    ensures AllSpareWallet(SetupInstructions(setup, wallet, Some(sponsor), done).value, wallet)
  {
    var decode := SetupDecoder(wallet, Some(sponsor));
    forall i | i in SetupInstructions(setup, wallet, Some(sponsor), done).value
      ensures SparesWallet(i, wallet)
    {
      CollectedMembers(setup, decode, done, i);
      if i !in done {
        var api :| api in setup && decode(api) == Ok(Some(i));
        DecodedSparesWallet(api, wallet, sponsor);
      }
    }
  }

  lemma RelayRouteSparesWallet(api: seq<Instruction>, wallet: Pubkey, sponsor: Pubkey, done: seq<Instruction>)
    requires wallet != sponsor && AllSpareWallet(done, wallet)
    requires RelayRoute(api, wallet, Some(sponsor), done).Ok?
    ensures AllSpareWallet(RelayRoute(api, wallet, Some(sponsor), done).value, wallet)
  {
    var decode := RelayDecoder(wallet, Some(sponsor));
    forall i | i in RelayRoute(api, wallet, Some(sponsor), done).value
      ensures SparesWallet(i, wallet)
    {
      CollectedMembers(api, decode, done, i);
      if i !in done {
        var from :| from in api && decode(from) == Ok(Some(i));
        DecodedSparesWallet(from, wallet, sponsor);
      }
    }
  }

  /** A sponsored adapter's route: either of the two that move rent to the sponsor. */
  datatype AdapterRoute =
    | FromBloxroute(bloxroute: BloxrouteResponse, fee: Option<SdkFee>)
    | FromRelay(relay: RelayResponse)

  function AdapterInstructions(route: AdapterRoute, trade: Trade, sponsor: Pubkey): Result<seq<Instruction>> {
    match route
    case FromBloxroute(response, fee) => BloxrouteInstructions(response, trade, Some(sponsor), fee)
    case FromRelay(response) => RelayInstructions(response, trade, Some(sponsor))
  }

  lemma AdapterSparesWallet(route: AdapterRoute, trade: Trade, sponsor: Pubkey)
    requires trade.wallet != sponsor && AdapterInstructions(route, trade, sponsor).Ok?
    ensures AllSpareWallet(AdapterInstructions(route, trade, sponsor).value, trade.wallet)
  {
    match route
    case FromBloxroute(response, fee) =>
      var first := ConfigInstructions(response.config).value + FeeSetup(fee, trade, Some(sponsor));
      assert AllSpareWallet(first, trade.wallet);
      SetupSparesWallet(response.setup, trade.wallet, sponsor, first);
    case FromRelay(response) =>
      RelayRouteSparesWallet(response.instructions, trade.wallet, sponsor, []);
  }

  /**
   In a submitted sponsored swap over either adapter, fee setup, fee transfers, reimbursement and
   tip included, no top-level System or token-account instruction takes lamports from the wallet.
   */
  lemma SponsoredSwapSparesWallet(
      client: Client, trade: Trade, provider: RouteProvider, priorityFeeLamports: u64, tip: Option<Tip>,
      world: SubmitWorld, route: AdapterRoute)
    requires Prepare(client, trade, provider).Ok? && SponsorFor(client, trade).Some?
    requires Submit(SponsorFor(client, trade), trade, Prepare(client, trade, provider).value,
                    priorityFeeLamports, tip, world).Ok?
    requires AdapterInstructions(route, Routed(client, trade), SponsorFor(client, trade).value.wallet)
          == Ok(RouteOf(client, trade, provider).instructions)
    ensures AllSpareWallet(
      Submit(SponsorFor(client, trade), trade, Prepare(client, trade, provider).value,
             priorityFeeLamports, tip, world).value.message.instructions,
      trade.wallet)
  {
    var sponsor := SponsorFor(client, trade).value.wallet;
    var swap := Prepare(client, trade, provider).value;
    RecipientsDiffer(client, trade, provider);
    RoutedKeepsTrade(client, trade);
    AdapterSparesWallet(route, Routed(client, trade), sponsor);
    var head := SubmittedShape(client, trade, provider, priorityFeeLamports, tip, world);
    HeadSparesWallet(head, RouteOf(client, trade, provider), trade.wallet);
    var charge :=
      Submit(SponsorFor(client, trade), trade, swap, priorityFeeLamports, tip, world).value.result.sponsorshipFee;
    FeeTailSparesWallet(client, trade, swap, charge);
    assert AllSpareWallet(TipInstructions(sponsor, tip), trade.wallet);
  }

  lemma HeadSparesWallet(head: seq<Instruction>, route: Swap, wallet: Pubkey)
    requires Heads(head, route) && AllSpareWallet(route.instructions, wallet)
    ensures AllSpareWallet(head, wallet)
  {
    RetainMembers(route.instructions, NotComputeUnitLimit);
    RetainMembers(route.instructions, NotBudget);
    var kept := KeptRoute(route.instructions, route.format);
    forall i | i in head
      ensures SparesWallet(i, wallet)
    {
      assert i in kept || IsBudget(i);
    }
  }

  lemma FeeTailSparesWallet(client: Client, trade: Trade, swap: Swap, charge: u64)
    requires PlanRoute(client, trade).Ok? && SponsorFor(client, trade).Some?
    requires SponsorFor(client, trade).value.wallet != trade.wallet
    ensures AllSpareWallet(FeeTail(client, trade, swap, charge), trade.wallet)
  {
    var sponsor := SponsorFor(client, trade).value.wallet;
    var tail := FeeTail(client, trade, swap, charge);
    forall i | i in tail
      ensures SparesWallet(i, trade.wallet)
    {
      assert i.program == TOKEN_PROGRAM || (i.program == ATA_PROGRAM && i.accounts[0].pubkey == sponsor);
    }
  }
}
