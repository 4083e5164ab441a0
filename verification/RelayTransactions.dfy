/**
 Relay's step decoder of src/evm/sources/relay/transactions.rs: what a response may contain, how
 approvals are bounded, and what executing them can do.
 */
module RelayTransactions {
  import opened Types
  import opened Bytes
  import opened EvmTypes
  import opened Subsequences

  const APPROVE_SELECTOR: seq<byte> := [0x09, 0x5e, 0xa7, 0xb3]
  const ZEROES: seq<byte> := [0, 0, 0, 0, 0, 0, 0, 0, 0, 0, 0, 0]

  /** A transaction as the provider sends it; quantities are parsed JSON numbers or parse errors. */
  datatype ApiTransaction = ApiTransaction(
    chainId: u64,
    from: Address,
    to: Address,
    data: seq<byte>,
    value: Result<u256>,
    gas: Option<Result<u256>>,
    gasPrice: Option<Result<u256>>,
    maxFeePerGas: Option<Result<u256>>,
    maxPriorityFeePerGas: Option<Result<u256>>
  )

  datatype Item = Item(status: string, data: Option<ApiTransaction>)

  datatype Step = Step(id: string, kind: string, items: seq<Item>)

  function Transpose(field: Option<Result<u256>>): Result<Option<u256>> {
    match field
    case None => Ok(None)
    case Some(Err(e)) => Err(e)
    case Some(Ok(v)) => Ok(Some(v))
  }

  /** The fee fields agree: no legacy price beside EIP-1559 fields, and no tip above its cap. */
  predicate ConsistentFees(tx: Transaction) {
    && !(tx.gasPrice.Some? && (tx.maxFeePerGas.Some? || tx.maxPriorityFeePerGas.Some?))
    && !(tx.maxPriorityFeePerGas.Some? && tx.maxFeePerGas.Some?
         && tx.maxPriorityFeePerGas.value > tx.maxFeePerGas.value)
  }

  function DecodeTransaction(api: ApiTransaction, network: Network, trade: Trade): Result<Transaction> {
    if api.chainId != network.chainId || api.from != trade.wallet || api.to == 0 || |api.data| < 4 then Err(DecodeError)
    else
      var value :- api.value;
      var gas :- Transpose(api.gas);
      var gasPrice :- Transpose(api.gasPrice);
      var maxFee :- Transpose(api.maxFeePerGas);
      var maxPriorityFee :- Transpose(api.maxPriorityFeePerGas);
      var tx := Transaction(api.chainId, api.from, api.to, api.data, value, gas, gasPrice, maxFee, maxPriorityFee);
      if ConsistentFees(tx) then Ok(tx) else Err(DecodeError)
  }

  function SwapValue(trade: Trade): u256 {
    if trade.input.Native? then trade.amount else 0
  }

  predicate SwapAccepted(network: Network, tx: Transaction, trade: Trade) {
    network.Trusted(tx.to) && tx.value == SwapValue(trade)
  }

  // ---- approvals

  /** Spender and allowance of `approve(address,uint256)` calldata. */
  function Spender(data: seq<byte>): nat
    requires |data| >= 36
  {
    FromBe(data[16..36])
  }

  function Allowance(data: seq<byte>): nat
    requires |data| >= 68
  {
    FromBe(data[36..68])
  }

  predicate ApprovalShape(tx: Transaction, trade: Trade) {
    && trade.input.Token?
    && tx.to == trade.input.Address()
    && tx.value == 0
    && |tx.data| == 68
    && tx.data[..4] == APPROVE_SELECTOR
    && tx.data[4..16] == ZEROES
  }

  predicate TrustedSpender(network: Network, spender: nat) {
    spender == network.router || spender == network.approvalProxy
  }

  predicate ApprovalAccepted(network: Network, tx: Transaction, trade: Trade) {
    && ApprovalShape(tx, trade)
    && TrustedSpender(network, Spender(tx.data))
    && (Allowance(tx.data) == 0 || Allowance(tx.data) >= trade.amount)
  }

  /** The accepted approval, its allowance cut down to the traded amount. */
  function Bounded(tx: Transaction, trade: Trade): Transaction
    requires |tx.data| == 68
  {
    if Allowance(tx.data) == 0 then tx else tx.(data := tx.data[..36] + ToBe(trade.amount, 32))
  }

  method ValidateApproval(network: Network, transaction: Transaction, trade: Trade) returns (r: Result<Transaction>)
    ensures r.Ok? <==> ApprovalAccepted(network, transaction, trade)
    ensures r.Ok? ==> r.value == Bounded(transaction, trade)
    ensures r.Err? ==> r.error == DecodeError
  {
    if trade.input.Native?
       || transaction.to != trade.input.Address()
       || transaction.value != 0
       || |transaction.data| != 68
       || transaction.data[..4] != APPROVE_SELECTOR
       || transaction.data[4..16] != ZEROES
    {
      return Err(DecodeError);
    }
    var spender := FromBe(transaction.data[16..36]);
    var allowance := FromBe(transaction.data[36..68]);
    if !(spender == network.router || spender == network.approvalProxy)
       || (allowance != 0 && allowance < trade.amount)
    {
      return Err(DecodeError);
    }
    if allowance == 0 {
      return Ok(transaction);
    }
    var data := new byte[68](i requires 0 <= i < 68 => transaction.data[i]);
    assert data[..] == transaction.data;
    var bytes := ToBe(trade.amount, 32);
    var i := 0;
    while i < 32
      invariant 0 <= i <= 32
      invariant data[..36] == transaction.data[..36]
      invariant data[36..36 + i] == bytes[..i]
    {
      data[36 + i] := bytes[i];
      i := i + 1;
    }
    assert data[..] == data[..36] + data[36..68];
    return Ok(transaction.(data := data[..]));
  }

  /**
   What signing a bounded approval grants: same selector and spender, the allowance zero or the
   traded amount to the last of its 256 bits, and nothing left for a second validation to change.
   */
  lemma ApprovalRoundTrip(network: Network, tx: Transaction, trade: Trade)
    requires ApprovalAccepted(network, tx, trade)
    ensures var bounded := Bounded(tx, trade);
            && |bounded.data| == 68
            && bounded.data[..36] == tx.data[..36]
            && Spender(bounded.data) == Spender(tx.data)
            && Allowance(bounded.data) == (if Allowance(tx.data) == 0 then 0 else trade.amount)
            && ApprovalAccepted(network, bounded, trade)
            && Bounded(bounded, trade) == bounded
  {
    var bounded := Bounded(tx, trade);
    if Allowance(tx.data) != 0 {
      var bytes := ToBe(trade.amount, 32);
      assert bounded.data[36..68] == bytes;
      Widths();
      BeRoundTrip(trade.amount, 32);
    }
    assert bounded.data[..36] == tx.data[..36];
    assert bounded.data[..4] == bounded.data[..36][..4] == tx.data[..36][..4] == tx.data[..4];
    assert bounded.data[4..16] == bounded.data[..36][4..16] == tx.data[..36][4..16] == tx.data[4..16];
    assert bounded.data[16..36] == bounded.data[..36][16..36] == tx.data[..36][16..36] == tx.data[16..36];
    if Allowance(tx.data) != 0 {
      assert bounded.data[..36] + ToBe(trade.amount, 32) == bounded.data;
    }
  }

  // ---- the decoder

  predicate StepAccepted(step: Step, swap: bool) {
    && step.kind == "transaction"
    && (if swap then step.id == "swap" else step.id == "approve" || step.id == "approval")
    && 0 < |step.items| <= (if swap then 1 else 2)
  }

  /** One item's transaction, validated for its step; `None` for an approval already executed. */
  function DecodeItem(network: Network, item: Item, swap: bool, trade: Trade): Result<Option<Transaction>> {
    if !swap && item.status == "complete" then Ok(None)
    else if item.status != "incomplete" || item.data.None? then Err(DecodeError)
    else
      var tx :- DecodeTransaction(item.data.value, network, trade);
      if swap then
        if SwapAccepted(network, tx, trade) then Ok(Some(tx)) else Err(DecodeError)
      else if ApprovalAccepted(network, tx, trade) then Ok(Some(Bounded(tx, trade)))
      else Err(DecodeError)
  }

  function ItemDecoder(network: Network, swap: bool, trade: Trade): Item -> Result<Option<Transaction>> {
    item => DecodeItem(network, item, swap, trade)
  }

  /** Decodes `items` after the transactions already collected in `done`. */
  function DecodeItems(network: Network, items: seq<Item>, swap: bool, trade: Trade, done: seq<Transaction>)
    : Result<seq<Transaction>>
  {
    Collect(items, ItemDecoder(network, swap, trade), done)
  }

  /** Decodes `steps`, the last of which is the swap, after the transactions in `done`. */
  function DecodeSteps(network: Network, steps: seq<Step>, trade: Trade, done: seq<Transaction>)
    : Result<seq<Transaction>>
    decreases |steps|
  {
    if steps == [] then Ok(done)
    else if !StepAccepted(steps[0], |steps| == 1) then Err(DecodeError)
    else
      var more :- DecodeItems(network, steps[0].items, |steps| == 1, trade, done);
      DecodeSteps(network, steps[1..], trade, more)
  }

  function DecodeResponse(network: Network, steps: seq<Step>, trade: Trade): Result<seq<Transaction>> {
    if |steps| == 0 || |steps| > 2 then Err(DecodeError) else DecodeSteps(network, steps, trade, [])
  }

  method DecodeLoop(network: Network, steps: seq<Step>, trade: Trade) returns (r: Result<seq<Transaction>>)
    ensures r == DecodeResponse(network, steps, trade)
  {
    if |steps| == 0 || |steps| > 2 {
      return Err(DecodeError);
    }
    var result: seq<Transaction> := [];
    var count := |steps|;
    for index := 0 to count
      invariant DecodeSteps(network, steps, trade, []) == DecodeSteps(network, steps[index..], trade, result)
    {
      var step := steps[index];
      var swap := index + 1 == count;
      assert steps[index..][0] == step && steps[index..][1..] == steps[index + 1..];
      if step.kind != "transaction"
         || (swap && step.id != "swap")
         || (!swap && step.id != "approve" && step.id != "approval")
         || step.items == []
         || |step.items| > (if swap then 1 else 2)
      {
        return Err(DecodeError);
      }
      ghost var before := result;
      for k := 0 to |step.items|
        invariant DecodeItems(network, step.items, swap, trade, before)
               == DecodeItems(network, step.items[k..], swap, trade, result)
      {
        var item := step.items[k];
        assert step.items[k..][0] == item && step.items[k..][1..] == step.items[k + 1..];
        assert result + [] == result;
        if !swap && item.status == "complete" {
          continue;
        }
        if item.status != "incomplete" || item.data.None? {
          return Err(DecodeError);
        }
        var decoded := DecodeTransaction(item.data.value, network, trade);
        if decoded.Err? {
          return Err(decoded.error);
        }
        var transaction := decoded.value;
        if swap {
          if !SwapAccepted(network, transaction, trade) {
            return Err(DecodeError);
          }
        } else {
          var validated := ValidateApproval(network, transaction, trade);
          if validated.Err? {
            return Err(DecodeError);
          }
          transaction := validated.value;
        }
        result := result + [transaction];
      }
    }
    return Ok(result);
  }

  // ---- what an accepted response contains

  /** An approval the wallet may sign: bounded, to the input token, for one of Relay's contracts. */
  predicate BoundedApproval(network: Network, tx: Transaction, trade: Trade) {
    && tx.chainId == network.chainId && tx.from == trade.wallet && ConsistentFees(tx)
    && ApprovalShape(tx, trade)
    && TrustedSpender(network, Spender(tx.data))
    && (Allowance(tx.data) == 0 || Allowance(tx.data) == trade.amount)
  }

  predicate RoutedSwap(network: Network, tx: Transaction, trade: Trade) {
    && tx.chainId == network.chainId && tx.from == trade.wallet && ConsistentFees(tx)
    && SwapAccepted(network, tx, trade)
  }

  lemma DecodedItem(network: Network, item: Item, swap: bool, trade: Trade)
    ensures var r := DecodeItem(network, item, swap, trade);
            && (swap && r.Ok? ==> r.value.Some? && RoutedSwap(network, r.value.value, trade))
            && (!swap && r.Ok? && r.value.Some? ==> BoundedApproval(network, r.value.value, trade))
  {
    var r := DecodeItem(network, item, swap, trade);
    if !swap && r.Ok? && r.value.Some? {
      ApprovalRoundTrip(network, DecodeTransaction(item.data.value, network, trade).value, trade);
    }
  }

  lemma DecodedApprovals(network: Network, items: seq<Item>, trade: Trade, done: seq<Transaction>)
    requires DecodeItems(network, items, false, trade, done).Ok?
    requires forall tx | tx in done :: BoundedApproval(network, tx, trade)
    ensures var txs := DecodeItems(network, items, false, trade, done).value;
            && |done| <= |txs| <= |done| + |items|
            && forall tx | tx in txs :: BoundedApproval(network, tx, trade)
  {
    forall item | item in items
      ensures var r := DecodeItem(network, item, false, trade);
              r.Ok? && r.value.Some? ==> BoundedApproval(network, r.value.value, trade)
    {
      DecodedItem(network, item, false, trade);
    }
    CollectKeeps(items, ItemDecoder(network, false, trade), done, tx => BoundedApproval(network, tx, trade));
  }

  /** Zero to two bounded approvals, then exactly one swap. */
  predicate ApprovalsThenSwap(network: Network, txs: seq<Transaction>, trade: Trade) {
    && 1 <= |txs| <= 3
    && (forall k | 0 <= k < |txs| - 1 :: BoundedApproval(network, txs[k], trade))
    && RoutedSwap(network, txs[|txs| - 1], trade)
  }

  lemma DecodedResponse(network: Network, steps: seq<Step>, trade: Trade)
    requires DecodeResponse(network, steps, trade).Ok?
    ensures var txs := DecodeResponse(network, steps, trade).value;
            && ApprovalsThenSwap(network, txs, trade)
            && (trade.input.Native? ==> |txs| == 1)
  {
    var approvals: seq<Transaction> := [];
    var swapStep := steps[|steps| - 1];
    if |steps| == 2 {
      DecodedApprovals(network, steps[0].items, trade, []);
      approvals := DecodeItems(network, steps[0].items, false, trade, []).value;
    }
    assert DecodeResponse(network, steps, trade) == DecodeSteps(network, [swapStep], trade, approvals) by {
      assert steps[|steps| - 1..] == [swapStep];
    }
    DecodedSwapStep(network, swapStep, trade, approvals);
    assert approvals != [] ==> BoundedApproval(network, approvals[0], trade);
  }

  lemma DecodedSwapStep(network: Network, step: Step, trade: Trade, approvals: seq<Transaction>)
    requires DecodeSteps(network, [step], trade, approvals).Ok?
    ensures var txs := DecodeSteps(network, [step], trade, approvals).value;
            |txs| == |approvals| + 1 && txs[..|approvals|] == approvals && RoutedSwap(network, txs[|approvals|], trade)
  {
    var items := step.items;
    assert [step][0] == step && [step][1..] == [];
    assert items == [items[0]] && items[1..] == [];
    DecodedItem(network, items[0], true, trade);
    var swap := DecodeItem(network, items[0], true, trade).value.value;
    assert DecodeItems(network, items[1..], true, trade, approvals + [swap]) == Ok(approvals + [swap]);
    assert DecodeItems(network, items, true, trade, approvals) == Ok(approvals + [swap]);
    assert DecodeSteps(network, [], trade, approvals + [swap]) == Ok(approvals + [swap]);
  }

  // ---- what is taken from the response

  /** A quantity is kept as parsed, and absent exactly where the provider left it out. */
  predicate KeepsQuantity(sent: Option<Result<u256>>, kept: Option<u256>) {
    match sent
    case None => kept.None?
    case Some(parsed) => parsed.Ok? && kept == Some(parsed.value)
  }

  /** Chain, sender, target, value, gas and every fee field of `tx` are those of the provider's transaction. */
  predicate CarriesFields(network: Network, api: ApiTransaction, trade: Trade, tx: Transaction) {
    && api.chainId == network.chainId && api.from == trade.wallet && api.to != 0 && |api.data| >= 4
    && tx.chainId == api.chainId && tx.from == api.from && tx.to == api.to
    && api.value == Ok(tx.value)
    && KeepsQuantity(api.gas, tx.gas)
    && KeepsQuantity(api.gasPrice, tx.gasPrice)
    && KeepsQuantity(api.maxFeePerGas, tx.maxFeePerGas)
    && KeepsQuantity(api.maxPriorityFeePerGas, tx.maxPriorityFeePerGas)
    && ConsistentFees(tx)
  }

  /** The swap's calldata is untouched; it goes to one of Relay's contracts with the trade's native value. */
  predicate CarriesSwap(network: Network, api: ApiTransaction, trade: Trade, tx: Transaction) {
    && CarriesFields(network, api, trade, tx)
    && tx.data == api.data
    && (tx.to == network.router || tx.to == network.approvalProxy)
    && tx.value == (if trade.input.Native? then trade.amount else 0)
  }

  /** An approval's calldata is untouched up to the allowance, which becomes the traded amount unless it is zero. */
  predicate CarriesApproval(network: Network, api: ApiTransaction, trade: Trade, tx: Transaction) {
    && CarriesFields(network, api, trade, tx)
    && trade.input.Token? && tx.to == trade.input.token && tx.value == 0
    && |api.data| == |tx.data| == 68
    && tx.data[..36] == api.data[..36]
    && api.data[..4] == [0x09, 0x5e, 0xa7, 0xb3]
    && api.data[4..16] == [0, 0, 0, 0, 0, 0, 0, 0, 0, 0, 0, 0]
    && (FromBe(api.data[16..36]) == network.router || FromBe(api.data[16..36]) == network.approvalProxy)
    && (if FromBe(api.data[36..68]) == 0 then tx.data == api.data
        else FromBe(api.data[36..68]) >= trade.amount && FromBe(tx.data[36..68]) == trade.amount)
  }

  predicate Carries(network: Network, item: Item, swap: bool, trade: Trade, tx: Transaction) {
    && item.status == "incomplete" && item.data.Some?
    && if swap then CarriesSwap(network, item.data.value, trade, tx)
       else CarriesApproval(network, item.data.value, trade, tx)
  }

  lemma DecodesExactly(network: Network, api: ApiTransaction, trade: Trade, tx: Transaction)
    ensures DecodeTransaction(api, network, trade) == Ok(tx)
       <==> CarriesFields(network, api, trade, tx) && tx.data == api.data
  {
  }

  /** Only the bounded approval differs from the one sent in the allowance alone. */
  lemma BoundedExactly(network: Network, sent: Transaction, trade: Trade, data: seq<byte>)
    requires |sent.data| == |data| == 68 && data[..36] == sent.data[..36]
    ensures data == Bounded(sent, trade).data
       <==> if Allowance(sent.data) == 0 then data == sent.data else Allowance(data) == trade.amount
  {
    Widths();
    BeRoundTrip(trade.amount, 32);
    BeInverse(data[36..68]);
    assert data == data[..36] + data[36..68];
    if Allowance(sent.data) != 0 {
      assert (sent.data[..36] + ToBe(trade.amount, 32))[36..68] == ToBe(trade.amount, 32);
    }
  }

  /** An item yields `tx` exactly when it carries it. */
  lemma ItemCarriesExactly(network: Network, item: Item, swap: bool, trade: Trade, tx: Transaction)
    ensures DecodeItem(network, item, swap, trade) == Ok(Some(tx)) <==> Carries(network, item, swap, trade, tx)
  {
    if item.data.Some? {
      var api := item.data.value;
      var decoded := DecodeTransaction(api, network, trade);
      DecodesExactly(network, api, trade, tx.(data := api.data));
      if decoded.Ok? {
        DecodesExactly(network, api, trade, decoded.value);
        if !swap && |api.data| == |tx.data| == 68 && tx.data[..36] == api.data[..36] {
          BoundedExactly(network, decoded.value, trade, tx.data);
        }
        if !swap && ApprovalAccepted(network, decoded.value, trade) {
          ApprovalRoundTrip(network, decoded.value, trade);
        }
      }
    }
  }

  /** The transactions are what the step's items carry, in their order; left out are approvals already completed. */
  ghost predicate CarriedInOrder(
      network: Network, items: seq<Item>, swap: bool, trade: Trade, txs: seq<Transaction>, at: seq<nat>)
  {
    PickedInOrder(items, txs, at, Carried(network, swap, trade), Completed(swap))
  }

  function Carried(network: Network, swap: bool, trade: Trade): (Item, Transaction) -> bool {
    (item, tx) => Carries(network, item, swap, trade, tx)
  }

  function Completed(swap: bool): Item -> bool {
    (item: Item) => !swap && item.status == "complete"
  }

  lemma ItemsInOrder(network: Network, items: seq<Item>, swap: bool, trade: Trade, done: seq<Transaction>)
    returns (txs: seq<Transaction>, at: seq<nat>)
    requires DecodeItems(network, items, swap, trade, done).Ok?
    ensures DecodeItems(network, items, swap, trade, done).value == done + txs
    ensures CarriedInOrder(network, items, swap, trade, txs, at)
  {
    forall item | item in items && DecodeItem(network, item, swap, trade).Ok?
      ensures var decoded := DecodeItem(network, item, swap, trade).value;
              if decoded.Some? then Carried(network, swap, trade)(item, decoded.value) else Completed(swap)(item)
    {
      var decoded := DecodeItem(network, item, swap, trade).value;
      if decoded.Some? {
        ItemCarriesExactly(network, item, swap, trade, decoded.value);
      }
    }
    txs, at := CollectInOrder(items, ItemDecoder(network, swap, trade), done, Carried(network, swap, trade),
                              Completed(swap));
  }

  /** Some transaction is what this item carries. */
  ghost predicate Executable(network: Network, item: Item, swap: bool, trade: Trade) {
    exists tx :: Carries(network, item, swap, trade, tx)
  }

  lemma ItemDecodesExactly(network: Network, item: Item, swap: bool, trade: Trade)
    ensures DecodeItem(network, item, swap, trade).Ok?
       <==> (!swap && item.status == "complete") || Executable(network, item, swap, trade)
  {
    var decoded := DecodeItem(network, item, swap, trade);
    if decoded.Ok? && decoded.value.Some? {
      ItemCarriesExactly(network, item, swap, trade, decoded.value.value);
    }
    if Executable(network, item, swap, trade) {
      var tx :| Carries(network, item, swap, trade, tx);
      ItemCarriesExactly(network, item, swap, trade, tx);
    }
  }

  lemma ItemsDecodeExactly(network: Network, items: seq<Item>, swap: bool, trade: Trade, done: seq<Transaction>)
    ensures DecodeItems(network, items, swap, trade, done).Ok?
       <==> forall item | item in items ::
              (!swap && item.status == "complete") || Executable(network, item, swap, trade)
  {
    CollectsExactly(items, ItemDecoder(network, swap, trade), done);
    forall item | item in items
      ensures ItemDecoder(network, swap, trade)(item).Ok?
         <==> (!swap && item.status == "complete") || Executable(network, item, swap, trade)
    {
      ItemDecodesExactly(network, item, swap, trade);
    }
  }

  /** The swap, alone in the last step. */
  ghost predicate SwapStep(network: Network, step: Step, trade: Trade) {
    && step.kind == "transaction" && step.id == "swap"
    && |step.items| == 1 && Executable(network, step.items[0], true, trade)
  }

  /** One or two approvals in the step before it, completed ones included. */
  ghost predicate ApprovalStep(network: Network, step: Step, trade: Trade) {
    && step.kind == "transaction" && (step.id == "approve" || step.id == "approval")
    && 1 <= |step.items| <= 2
    && forall item | item in step.items :: item.status == "complete" || Executable(network, item, false, trade)
  }

  /** A response is accepted exactly when it is a swap step, or an approval step and then a swap step. */
  lemma ResponseAcceptedExactly(network: Network, steps: seq<Step>, trade: Trade)
    ensures DecodeResponse(network, steps, trade).Ok?
       <==> || (|steps| == 1 && SwapStep(network, steps[0], trade))
            || (|steps| == 2 && ApprovalStep(network, steps[0], trade) && SwapStep(network, steps[1], trade))
  {
    if |steps| == 1 {
      SwapStepDecodesExactly(network, steps, trade, []);
    } else if |steps| == 2 && StepAccepted(steps[0], false) {
      ItemsDecodeExactly(network, steps[0].items, false, trade, []);
      var more := DecodeItems(network, steps[0].items, false, trade, []);
      if more.Ok? {
        SwapStepDecodesExactly(network, steps[1..], trade, more.value);
      }
    }
  }

  lemma SwapStepDecodesExactly(network: Network, steps: seq<Step>, trade: Trade, done: seq<Transaction>)
    requires |steps| == 1
    ensures DecodeSteps(network, steps, trade, done).Ok? <==> SwapStep(network, steps[0], trade)
  {
    ItemsDecodeExactly(network, steps[0].items, true, trade, done);
    var more := DecodeItems(network, steps[0].items, true, trade, done);
    if more.Ok? {
      assert DecodeSteps(network, steps[1..], trade, more.value) == Ok(more.value);
    }
  }

  /**
   An accepted response becomes exactly the transactions its unfinished items carry, in step and item
   order: the approvals at positions `at` of the first of two steps, then the swap.
   */
  lemma DecodedInOrder(network: Network, steps: seq<Step>, trade: Trade) returns (at: seq<nat>)
    requires DecodeResponse(network, steps, trade).Ok?
    ensures var txs := DecodeResponse(network, steps, trade).value;
            && 1 <= |steps| <= 2 && |txs| >= 1
            && |steps[|steps| - 1].items| == 1
            && Carries(network, steps[|steps| - 1].items[0], true, trade, txs[|txs| - 1])
            && (|steps| == 1 ==> |txs| == 1)
            && (|steps| == 2 ==> CarriedInOrder(network, steps[0].items, false, trade, txs[..|txs| - 1], at))
  {
    ResponseAcceptedExactly(network, steps, trade);
    var approvals: seq<Transaction> := [];
    at := [];
    if |steps| == 2 {
      approvals, at := ApprovalsFirst(network, steps, trade);
    }
    var last := steps[|steps| - 1];
    assert steps[|steps| - 1..] == [last];
    DecodedSwapIs(network, last, trade, approvals);
  }

  /** The approvals of a two-step response, and the swap step left to decode behind them. */
  lemma ApprovalsFirst(network: Network, steps: seq<Step>, trade: Trade)
    returns (approvals: seq<Transaction>, at: seq<nat>)
    requires |steps| == 2 && DecodeResponse(network, steps, trade).Ok?
    ensures CarriedInOrder(network, steps[0].items, false, trade, approvals, at)
    ensures DecodeResponse(network, steps, trade) == DecodeSteps(network, steps[1..], trade, approvals)
  {
    approvals, at := ItemsInOrder(network, steps[0].items, false, trade, []);
    assert [] + approvals == approvals;
  }

  lemma DecodedSwapIs(network: Network, step: Step, trade: Trade, approvals: seq<Transaction>)
    requires DecodeSteps(network, [step], trade, approvals).Ok?
    ensures var txs := DecodeSteps(network, [step], trade, approvals).value;
            && |txs| == |approvals| + 1 && txs[..|approvals|] == approvals
            && |step.items| == 1 && Carries(network, step.items[0], true, trade, txs[|approvals|])
  {
    DecodedSwapStep(network, step, trade, approvals);
    var txs, at := ItemsInOrder(network, step.items, true, trade, approvals);
    assert [step][0] == step && [step][1..] == [];
    assert DecodeSteps(network, [step][1..], trade, approvals + txs) == Ok(approvals + txs);
    assert 0 in at;
  }

  // ---- executing the result

  /** ERC-20 allowances by token, owner and spender. */
  type Allowances = map<(Address, Address, nat), nat>

  /** What calls that took effect leave behind: allowances, and the native currency sent along. */
  datatype Effects = Effects(allowances: Allowances, spent: nat)

  /** `approve(spender, amount)` as the token contract at `to` executes it; other calls write no allowance. */
  function Approve(ledger: Allowances, owner: Address, to: Address, data: seq<byte>): Allowances {
    if |data| < 68 || data[..4] != APPROVE_SELECTOR then ledger
    else ledger[(to, owner, Spender(data)) := Allowance(data)]
  }

  /** One call by `owner` taking effect. */
  function Land(effects: Effects, owner: Address, to: Address, data: seq<byte>, value: nat): Effects {
    Effects(Approve(effects.allowances, owner, to, data), effects.spent + value)
  }

  /** `owner` carries out transactions `i` to `n`; those that `lands` leaves out revert or never arrive. */
  function CarryOut(effects: Effects, owner: Address, txs: seq<Transaction>, i: nat, n: nat, lands: nat -> bool)
    : Effects
    requires i <= n <= |txs|
    decreases n - i
  {
    if i == n then effects
    else
      var tx := txs[i];
      var next := if lands(i) then Land(effects, owner, tx.to, tx.data, tx.value) else effects;
      CarryOut(next, owner, txs, i + 1, n, lands)
  }

  lemma {:induction false} CarryOutLast(
      effects: Effects, owner: Address, txs: seq<Transaction>, i: nat, n: nat, lands: nat -> bool)
    requires i <= n < |txs|
    ensures var before, tx := CarryOut(effects, owner, txs, i, n, lands), txs[n];
            CarryOut(effects, owner, txs, i, n + 1, lands)
            == if lands(n) then Land(before, owner, tx.to, tx.data, tx.value) else before
    decreases n - i
  {
    if i < n {
      var tx := txs[i];
      CarryOutLast(if lands(i) then Land(effects, owner, tx.to, tx.data, tx.value) else effects,
                   owner, txs, i + 1, n, lands);
    }
  }

  /** An entry the approvals of this trade may write, and the values they may write there. */
  predicate MayWrite(network: Network, trade: Trade, key: (Address, Address, nat), value: nat) {
    && key.0 == trade.input.Address() && key.1 == trade.wallet && TrustedSpender(network, key.2)
    && (value == 0 || value == trade.amount)
  }

  ghost predicate OnlyTradeEntries(network: Network, trade: Trade, before: Allowances, after: Allowances) {
    && before.Keys <= after.Keys
    && forall key | key in after ::
         (key in before && after[key] == before[key]) || MayWrite(network, trade, key, after[key])
  }

  /** Bounded approvals, whichever of them take effect, write only this trade's entries and send nothing. */
  lemma {:induction false} ApprovalsWriteOnlyTradeEntries(
      network: Network, trade: Trade, before: Allowances, effects: Effects,
      txs: seq<Transaction>, i: nat, n: nat, lands: nat -> bool)
    requires i <= n <= |txs| && forall k | i <= k < n :: BoundedApproval(network, txs[k], trade)
    requires OnlyTradeEntries(network, trade, before, effects.allowances)
    ensures var after := CarryOut(effects, trade.wallet, txs, i, n, lands);
            OnlyTradeEntries(network, trade, before, after.allowances) && after.spent == effects.spent
    decreases n - i
  {
    if i < n {
      var tx := txs[i];
      assert BoundedApproval(network, tx, trade);
      var next := if lands(i) then Land(effects, trade.wallet, tx.to, tx.data, tx.value) else effects;
      ApprovalsWriteOnlyTradeEntries(network, trade, before, next, txs, i + 1, n, lands);
    }
  }

  /**
   Wherever the list is stopped and whichever of its transactions take effect, until the swap does
   every allowance outside this trade is untouched, none granted exceeds the traded amount and no
   native currency is spent; the swap then spends the traded amount if the input is native and
   nothing otherwise.
   */
  lemma EveryPrefixStaysWithinTrade(
      network: Network, steps: seq<Step>, trade: Trade, before: Allowances, k: nat, lands: nat -> bool)
    requires DecodeResponse(network, steps, trade).Ok?
    requires k <= |DecodeResponse(network, steps, trade).value|
    ensures var txs := DecodeResponse(network, steps, trade).value;
            var after := CarryOut(Effects(before, 0), trade.wallet, txs, 0, k, lands);
            var swapLanded := 0 < k == |txs| && lands(k - 1);
            && (!swapLanded ==> OnlyTradeEntries(network, trade, before, after.allowances))
            && after.spent == if swapLanded then SwapValue(trade) else 0
  {
    var txs := DecodeResponse(network, steps, trade).value;
    DecodedResponse(network, steps, trade);
    var approvals := Min(k, |txs| - 1);
    ApprovalsWriteOnlyTradeEntries(network, trade, before, Effects(before, 0), txs, 0, approvals, lands);
    if k == |txs| {
      CarryOutLast(Effects(before, 0), trade.wallet, txs, 0, approvals, lands);
    }
  }
}
