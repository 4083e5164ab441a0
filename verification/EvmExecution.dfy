/**
 The submission protocol of src/evm/execution.rs, run against an arbitrary node, signer and
 submitter. Every answer of the outside world is a function of the transaction's index, so
 quantifying over `World` covers every behaviour along a run.
 */
module EvmExecution {
  import opened Types
  import opened EvmTypes
  import opened RelayTransactions

  const MAX_QUOTE_AGE: nat := 60

  type Hash = nat

  datatype UnsignedTransaction = UnsignedTransaction(
    chainId: u64,
    nonce: u64,
    gasLimit: u64,
    maxFeePerGas: u128,
    maxPriorityFeePerGas: u128,
    to: Address,
    value: u256,
    input: seq<byte>
  )

  /** Signed bytes decoded as an EIP-1559 transaction; `signer` is absent when recovery fails. */
  datatype Decoded = Decoded(
    transaction: UnsignedTransaction,
    remaining: seq<byte>,
    signer: Option<Address>,
    hash: Hash
  )

  datatype ReceiptStatus = Pending | Succeeded | Reverted

  datatype World = World(
    nodeChain: Result<u64>,
    quoteAge: nat -> nat,
    estimateGas: nat -> Result<u64>,
    eip1559Fees: nat -> Result<(u128, u128)>,
    pendingNonce: nat -> Result<u64>,
    sign: (nat, UnsignedTransaction) -> Option<seq<byte>>,
    decode: seq<byte> -> Option<Decoded>,
    submit: (nat, seq<byte>) -> Option<Hash>,
    receipt: (nat, nat) -> Result<ReceiptStatus>,
    // How many receipt answers arrive before the confirmation timeout fires.
    polls: nat -> nat
  )

  datatype Prepared = Prepared(quoteChain: u64, wallet: Address, transactions: seq<Transaction>)

  // ---- filling

  function GasLimit(world: World, tx: Transaction, i: nat): Result<u64> {
    if tx.gas.Some? then
      if tx.gas.value < U64_LIMIT then Ok(tx.gas.value) else Err(BuildError)
    else
      var estimate :- world.estimateGas(i);
      Ok(WithHeadroom(estimate))
  }

  /** Twenty percent above the estimate, in 64-bit arithmetic. */
  function WithHeadroom(estimate: u64): u64 {
    Wrap64(estimate + Wrap64(estimate * 20) / 100)
  }

  function ToU128(amount: u256): Result<u128> {
    if amount < U128_LIMIT then Ok(amount) else Err(BuildError)
  }

  /** The fee cap and the tip, in that order. */
  function FillFees(world: World, tx: Transaction, i: nat): Result<(u128, u128)> {
    if tx.gasPrice.Some? then
      var price :- ToU128(tx.gasPrice.value);
      Ok((price, price))
    else if tx.maxFeePerGas.Some? && tx.maxPriorityFeePerGas.Some? then
      var cap :- ToU128(tx.maxFeePerGas.value);
      var tip :- ToU128(tx.maxPriorityFeePerGas.value);
      Ok((cap, tip))
    else
      var estimated :- world.eip1559Fees(i);
      var tip :- if tx.maxPriorityFeePerGas.Some? then ToU128(tx.maxPriorityFeePerGas.value) else Ok(estimated.1);
      var cap :- if tx.maxFeePerGas.Some? then ToU128(tx.maxFeePerGas.value) else Ok(Max(estimated.0, tip));
      Ok((cap, tip))
  }

  function Fill(world: World, network: Network, tx: Transaction, i: nat): Result<UnsignedTransaction> {
    var gasLimit :- GasLimit(world, tx, i);
    var fees :- FillFees(world, tx, i);
    var nonce :- world.pendingNonce(i);
    Ok(UnsignedTransaction(network.chainId, nonce, gasLimit, fees.0, fees.1, tx.to, tx.value, tx.data))
  }

  /**
   For fee fields that agree, the tip stays within the cap in every case but one: the provider
   names only a cap and the node's estimated tip is above it.
   */
  lemma TipWithinCapExactly(world: World, tx: Transaction, i: nat)
    requires FillFees(world, tx, i).Ok?
    requires ConsistentFees(tx)
    ensures FillFees(world, tx, i).value.1 <= FillFees(world, tx, i).value.0
       <==> tx.gasPrice.Some? || tx.maxPriorityFeePerGas.Some? || tx.maxFeePerGas.None?
            || world.eip1559Fees(i).value.1 <= tx.maxFeePerGas.value
  {
    if tx.gasPrice.None? && tx.maxPriorityFeePerGas.None? {
      assert world.eip1559Fees(i).Ok?;
    }
  }

  /**
   The estimated gas limit carries its twenty percent of headroom, rounded down, exactly while the
   intermediate product fits 64 bits.
   */
  lemma GasHeadroomExactly(world: World, tx: Transaction, i: nat)
    requires tx.gas.None? && world.estimateGas(i).Ok?
    ensures GasLimit(world, tx, i).Ok?
    ensures var limit, estimate := GasLimit(world, tx, i).value, world.estimateGas(i).value;
            limit * 100 <= estimate * 120 < limit * 100 + 100 <==> estimate * 20 < U64_LIMIT
  {
    HeadroomExactly(world.estimateGas(i).value);
  }

  lemma HeadroomExactly(estimate: u64)
    ensures WithHeadroom(estimate) * 100 <= estimate * 120 < WithHeadroom(estimate) * 100 + 100
       <==> estimate * 20 < U64_LIMIT
  {
    if estimate * 20 < U64_LIMIT {
      Wrap64Identity(estimate * 20);
      Wrap64Identity(estimate + estimate * 20 / 100);
    } else {
      WrapLoses(estimate * 20);
      var limit := estimate + Wrap64(estimate * 20) / 100;
      assert limit * 100 + 100 <= estimate * 120;
      WrapShrinks(limit);
    }
  }

  lemma WrapLoses(x: nat)
    requires x >= U64_LIMIT
    ensures Wrap64(x) <= x - U64_LIMIT
  {
  }

  /** An estimate with twenty percent on top, rounded down, or what wrapping leaves of that. */
  predicate HeadroomOf(estimate: u64, limit: u64) {
    if estimate * 20 < U64_LIMIT then limit * 100 <= estimate * 120 < limit * 100 + 100
    else limit == Wrap64(estimate + Wrap64(estimate * 20) / 100)
  }

  predicate GasOf(world: World, tx: Transaction, n: nat, limit: u64) {
    if tx.gas.Some? then limit == tx.gas.value
    else world.estimateGas(n).Ok? && HeadroomOf(world.estimateGas(n).value, limit)
  }

  /** A legacy price is cap and tip at once; fields the provider named are used; the rest comes from the node. */
  predicate FeesOf(world: World, tx: Transaction, n: nat, cap: u128, tip: u128) {
    if tx.gasPrice.Some? then cap == tx.gasPrice.value && tip == tx.gasPrice.value
    else
      && (tx.maxFeePerGas.Some? ==> cap == tx.maxFeePerGas.value)
      && (tx.maxPriorityFeePerGas.Some? ==> tip == tx.maxPriorityFeePerGas.value)
      && (tx.maxFeePerGas.None? || tx.maxPriorityFeePerGas.None? ==> world.eip1559Fees(n).Ok?)
      && (tx.maxPriorityFeePerGas.None? ==> tip == world.eip1559Fees(n).value.1)
      && (tx.maxFeePerGas.None? ==>
            && cap >= tip && cap >= world.eip1559Fees(n).value.0
            && (cap == tip || cap == world.eip1559Fees(n).value.0))
  }

  /** `u` is the prepared transaction with the chain's, the node's and the provider's own values in their places. */
  predicate FilledIn(world: World, network: Network, tx: Transaction, n: nat, u: UnsignedTransaction) {
    && u.chainId == network.chainId && u.to == tx.to && u.value == tx.value && u.input == tx.data
    && world.pendingNonce(n) == Ok(u.nonce)
    && GasOf(world, tx, n, u.gasLimit)
    && FeesOf(world, tx, n, u.maxFeePerGas, u.maxPriorityFeePerGas)
  }

  lemma GasExactly(world: World, tx: Transaction, n: nat, limit: u64)
    ensures GasLimit(world, tx, n) == Ok(limit) <==> GasOf(world, tx, n, limit)
  {
    if tx.gas.None? && world.estimateGas(n).Ok? {
      OneHeadroom(world.estimateGas(n).value, limit);
    }
  }

  lemma OneHeadroom(estimate: u64, limit: u64)
    ensures WithHeadroom(estimate) == limit <==> HeadroomOf(estimate, limit)
  {
    HeadroomExactly(estimate);
    if estimate * 20 < U64_LIMIT {
      OneShare(estimate * 120, WithHeadroom(estimate), limit);
    }
  }

  lemma OneShare(scaled: nat, a: nat, b: nat)
    requires a * 100 <= scaled < a * 100 + 100
    ensures a == b <==> b * 100 <= scaled < b * 100 + 100
  {
  }

  lemma FeesExactly(world: World, tx: Transaction, n: nat, cap: u128, tip: u128)
    ensures FillFees(world, tx, n) == Ok((cap, tip)) <==> FeesOf(world, tx, n, cap, tip)
  {
  }

  /** A transaction is filled in exactly one way, and refused exactly when there is none. */
  lemma FillExactly(world: World, network: Network, tx: Transaction, n: nat, u: UnsignedTransaction)
    ensures Fill(world, network, tx, n) == Ok(u) <==> FilledIn(world, network, tx, n, u)
  {
    GasExactly(world, tx, n, u.gasLimit);
    FeesExactly(world, tx, n, u.maxFeePerGas, u.maxPriorityFeePerGas);
  }

  // ---- verification

  function VerifySigned(world: World, signed: seq<byte>, unsigned: UnsignedTransaction, wallet: Address): Result<Hash> {
    var decoded := world.decode(signed);
    if decoded.None? then Err(SignError)
    else if decoded.value.remaining != [] || decoded.value.transaction != unsigned then Err(SignError)
    else if decoded.value.signer != Some(wallet) then Err(SignError)
    else Ok(decoded.value.hash)
  }

  /** Fill, sign and verify: the bytes for transaction `i` and their hash. */
  function SignedTransaction(world: World, network: Network, p: Prepared, i: nat): Result<(seq<byte>, Hash)>
    requires i < |p.transactions|
  {
    var unsigned :- Fill(world, network, p.transactions[i], i);
    var signed := world.sign(i, unsigned);
    if signed.None? then Err(SignError)
    else
      var hash :- VerifySigned(world, signed.value, unsigned, p.wallet);
      Ok((signed.value, hash))
  }

  // ---- the run

  datatype Event =
    | Recorded(index: nat, hash: Hash)
    | SubmitCalled(index: nat, signed: seq<byte>)
    | ReceiptRead(index: nat, hash: Hash, status: ReceiptStatus)

  datatype Outcome = Outcome(submitted: seq<Hash>, trace: seq<Event>, result: Result<()>)

  /** Polls the receipt from the `k`-th answer on, until it settles, errs or times out. */
  function ConfirmFrom(world: World, i: nat, hash: Hash, k: nat): Outcome
    decreases world.polls(i) - k
  {
    if k >= world.polls(i) then Outcome([], [], Err(SubmitError))
    else
      match world.receipt(i, k)
      case Err(e) => Outcome([], [], Err(e))
      case Ok(Succeeded) => Outcome([], [ReceiptRead(i, hash, Succeeded)], Ok(()))
      case Ok(Reverted) => Outcome([], [ReceiptRead(i, hash, Reverted)], Err(SubmitError))
      case Ok(Pending) =>
        var later := ConfirmFrom(world, i, hash, k + 1);
        later.(trace := [ReceiptRead(i, hash, Pending)] + later.trace)
  }

  /** Submission and confirmation of transaction `i`, once its hash is known. */
  function SubmitOne(world: World, i: nat, signed: seq<byte>, hash: Hash): Outcome {
    var sent := [Recorded(i, hash), SubmitCalled(i, signed)];
    if world.submit(i, signed) != Some(hash) then Outcome([hash], sent, Err(SubmitError))
    else
      var confirmed := ConfirmFrom(world, i, hash, 0);
      Outcome([hash], sent + confirmed.trace, confirmed.result)
  }

  function Then(first: Outcome, rest: Outcome): Outcome {
    Outcome(first.submitted + rest.submitted, first.trace + rest.trace, rest.result)
  }

  /** The loop from transaction `i` on. */
  function RunFrom(world: World, network: Network, p: Prepared, i: nat): Outcome
    requires i <= |p.transactions|
    decreases |p.transactions| - i
  {
    if i == |p.transactions| then Outcome([], [], Ok(()))
    else if world.quoteAge(i) >= MAX_QUOTE_AGE then Outcome([], [], Err(BuildError))
    else
      match SignedTransaction(world, network, p, i)
      case Err(e) => Outcome([], [], Err(e))
      case Ok((signed, hash)) =>
        var one := SubmitOne(world, i, signed, hash);
        if one.result.Err? then one else Then(one, RunFrom(world, network, p, i + 1))
  }

  function Execute(world: World, network: Network, p: Prepared): Outcome {
    if p.quoteChain != network.chainId then Outcome([], [], Err(BuildError))
    else if world.nodeChain.Err? then Outcome([], [], Err(world.nodeChain.error))
    else if world.nodeChain.value != network.chainId then Outcome([], [], Err(BuildError))
    else RunFrom(world, network, p, 0)
  }

  /** A running execution: the log the caller keeps on failure, and what the world has seen. */
  class Execution {
    const world: World
    const network: Network
    var submitted: seq<Hash>
    ghost var trace: seq<Event>

    constructor (world: World, network: Network)
      ensures this.world == world && this.network == network
      ensures submitted == [] && trace == []
    {
      this.world := world;
      this.network := network;
      submitted := [];
      trace := [];
    }

    method Confirm(i: nat, hash: Hash) returns (r: Result<()>)
      modifies this`trace
      ensures r == ConfirmFrom(world, i, hash, 0).result
      ensures trace == old(trace) + ConfirmFrom(world, i, hash, 0).trace
    {
      var k := 0;
      while k < world.polls(i)
        invariant k <= world.polls(i)
        invariant ConfirmFrom(world, i, hash, 0).result == ConfirmFrom(world, i, hash, k).result
        invariant old(trace) + ConfirmFrom(world, i, hash, 0).trace
               == trace + ConfirmFrom(world, i, hash, k).trace
      {
        var status := world.receipt(i, k);
        if status.Err? {
          return Err(status.error);
        }
        ghost var rest := ConfirmFrom(world, i, hash, k);
        assert rest.trace != [] && rest.trace[0] == ReceiptRead(i, hash, status.value);
        ghost var seen := trace;
        trace := trace + [ReceiptRead(i, hash, status.value)];
        assert seen + rest.trace == trace + rest.trace[1..];
        match status.value {
          case Succeeded => return Ok(());
          case Reverted => return Err(SubmitError);
          case Pending =>
        }
        k := k + 1;
      }
      return Err(SubmitError);
    }

    method ExecuteTransactions(prepared: Prepared) returns (r: Result<()>)
      modifies this
      ensures var outcome := Execute(world, network, prepared);
              && r == outcome.result
              && submitted == old(submitted) + outcome.submitted
              && trace == old(trace) + outcome.trace
    {
      if prepared.quoteChain != network.chainId {
        return Err(BuildError);
      }
      if world.nodeChain.Err? {
        return Err(world.nodeChain.error);
      }
      if world.nodeChain.value != network.chainId {
        return Err(BuildError);
      }
      ghost var whole := RunFrom(world, network, prepared, 0);
      for i := 0 to |prepared.transactions|
        invariant Continues(whole, old(submitted), old(trace), RunFrom(world, network, prepared, i), submitted, trace)
      {
        ghost var rest := RunFrom(world, network, prepared, i);
        if world.quoteAge(i) >= MAX_QUOTE_AGE {
          Stops(whole, old(submitted), old(trace), rest, submitted, trace);
          return Err(BuildError);
        }
        var next := FillSignVerify(prepared, i);
        if next.Err? {
          Stops(whole, old(submitted), old(trace), rest, submitted, trace);
          return Err(next.error);
        }
        ghost var log, seen := submitted, trace;
        ghost var one := SubmitOne(world, i, next.value.0, next.value.1);
        var confirmed := SubmitAndConfirm(i, next.value.0, next.value.1);
        if confirmed.Err? {
          assert rest == one;
          return confirmed;
        }
        assert rest == Then(one, RunFrom(world, network, prepared, i + 1));
        Appended(log, one.submitted, RunFrom(world, network, prepared, i + 1).submitted);
        Appended(seen, one.trace, RunFrom(world, network, prepared, i + 1).trace);
      }
      Stops(whole, old(submitted), old(trace), RunFrom(world, network, prepared, |prepared.transactions|),
            submitted, trace);
      return Ok(());
    }

    method FillSignVerify(prepared: Prepared, i: nat) returns (r: Result<(seq<byte>, Hash)>)
      requires i < |prepared.transactions|
      ensures r == SignedTransaction(world, network, prepared, i)
    {
      var filled := Fill(world, network, prepared.transactions[i], i);
      if filled.Err? {
        return Err(filled.error);
      }
      var signed := world.sign(i, filled.value);
      if signed.None? {
        return Err(SignError);
      }
      var verified := VerifySigned(world, signed.value, filled.value, prepared.wallet);
      if verified.Err? {
        return Err(verified.error);
      }
      return Ok((signed.value, verified.value));
    }

    method SubmitAndConfirm(i: nat, signed: seq<byte>, hash: Hash) returns (r: Result<()>)
      modifies this
      ensures var one := SubmitOne(world, i, signed, hash);
              && r == one.result
              && submitted == old(submitted) + one.submitted
              && trace == old(trace) + one.trace
    {
      // The hash enters the log first, so an error from here on never hides a transaction.
      submitted := submitted + [hash];
      trace := trace + [Recorded(i, hash)];
      trace := trace + [SubmitCalled(i, signed)];
      var reported := world.submit(i, signed);
      if reported.None? {
        return Err(SubmitError);
      }
      if reported.value != hash {
        return Err(SubmitError);
      }
      r := Confirm(i, hash);
    }
  }

  /** What is logged and seen so far, followed by `rest`, makes up the `whole` run. */
  predicate Continues(
      whole: Outcome, log0: seq<Hash>, seen0: seq<Event>, rest: Outcome, log: seq<Hash>, seen: seq<Event>)
  {
    && whole.result == rest.result
    && log0 + whole.submitted == log + rest.submitted
    && seen0 + whole.trace == seen + rest.trace
  }

  lemma Stops(whole: Outcome, log0: seq<Hash>, seen0: seq<Event>, rest: Outcome, log: seq<Hash>, seen: seq<Event>)
    requires Continues(whole, log0, seen0, rest, log, seen)
    requires rest.submitted == [] && rest.trace == []
    ensures log == log0 + whole.submitted && seen == seen0 + whole.trace
  {
  }

  lemma Appended<T>(a: seq<T>, b: seq<T>, c: seq<T>)
    ensures a + (b + c) == (a + b) + c
  {
  }

  // ---- safety

  /** The bytes sent for transaction `i` are the prepared call, filled in for this chain, signed by the wallet. */
  predicate Faithful(world: World, network: Network, p: Prepared, i: nat, signed: seq<byte>)
    requires i < |p.transactions|
  {
    var decoded := world.decode(signed);
    && decoded.Some?
    && decoded.value.remaining == []
    && decoded.value.signer == Some(p.wallet)
    && FilledIn(world, network, p.transactions[i], i, decoded.value.transaction)
  }

  predicate Confirmed(trace: seq<Event>, i: nat, hash: Hash) {
    ReceiptRead(i, hash, Succeeded) in trace
  }

  /** The transactions from `i` on, whose hashes these are, all have a successful receipt. */
  ghost predicate AllConfirmed(i: nat, hashes: seq<Hash>, trace: seq<Event>) {
    forall j | 0 <= j < |hashes| :: Confirmed(trace, i + j, hashes[j])
  }

  predicate VerifiedAs(world: World, network: Network, p: Prepared, k: nat, hash: Hash)
    requires k < |p.transactions|
  {
    var signed := SignedTransaction(world, network, p, k);
    signed.Ok? && signed.value.1 == hash
  }

  /** The logged hashes are those of the prepared transactions from `i` on, in order. */
  ghost predicate LogIsVerifiedPrefix(world: World, network: Network, p: Prepared, i: nat, submitted: seq<Hash>) {
    && i + |submitted| <= |p.transactions|
    && forall j | 0 <= j < |submitted| :: VerifiedAs(world, network, p, i + j, submitted[j])
  }

  /**
   What had happened when the submit call at `pos` was made: its own hash was on record, and
   every earlier transaction from `i` on had a successful receipt.
   */
  ghost predicate SubmitAllowed(
      world: World, network: Network, p: Prepared, i: nat, submitted: seq<Hash>, trace: seq<Event>, pos: nat)
    requires pos < |trace| && trace[pos].SubmitCalled?
  {
    var n := trace[pos].index;
    && i <= n < i + |submitted| && n < |p.transactions|
    && Faithful(world, network, p, n, trace[pos].signed)
    && Recorded(n, submitted[n - i]) in trace[..pos]
    && AllConfirmed(i, submitted[..n - i], trace[..pos])
  }

  /** Every call was allowed, and no transaction is submitted twice. */
  ghost predicate SubmitsInOrder(
      world: World, network: Network, p: Prepared, i: nat, submitted: seq<Hash>, trace: seq<Event>)
  {
    && (forall pos | 0 <= pos < |trace| && trace[pos].SubmitCalled? ::
          SubmitAllowed(world, network, p, i, submitted, trace, pos))
    && (forall a, b | 0 <= a < b < |trace| && trace[a].SubmitCalled? && trace[b].SubmitCalled? ::
          trace[a].index < trace[b].index)
  }

  ghost predicate SafeRun(world: World, network: Network, p: Prepared, i: nat, o: Outcome)
    requires i <= |p.transactions|
  {
    var done := i + |o.submitted| == |p.transactions| && AllConfirmed(i, o.submitted, o.trace);
    && LogIsVerifiedPrefix(world, network, p, i, o.submitted)
    && SubmitsInOrder(world, network, p, i, o.submitted, o.trace)
    // At most the last logged transaction is unconfirmed.
    && (o.submitted != [] ==> AllConfirmed(i, o.submitted[..|o.submitted| - 1], o.trace))
    // Success is exactly: the whole list logged and confirmed.
    && (o.result.Ok? ==> done)
    && (i < |p.transactions| && done ==> o.result.Ok?)
  }

  lemma {:induction false} ConfirmReadsOneReceipt(world: World, i: nat, hash: Hash, k: nat)
    ensures var o := ConfirmFrom(world, i, hash, k);
            && (forall e | e in o.trace :: e.ReceiptRead? && e.index == i && e.hash == hash)
            && (o.result.Ok? <==> Confirmed(o.trace, i, hash))
    decreases world.polls(i) - k
  {
    if k < world.polls(i) && world.receipt(i, k) == Ok(Pending) {
      ConfirmReadsOneReceipt(world, i, hash, k + 1);
    }
  }

  /** What is signed for a transaction decodes to it, filled in, with nothing left over and the wallet as signer. */
  lemma SignedExactly(world: World, network: Network, p: Prepared, i: nat, signed: seq<byte>, hash: Hash)
    requires i < |p.transactions|
    ensures SignedTransaction(world, network, p, i) == Ok((signed, hash))
       <==> && Faithful(world, network, p, i, signed)
            && world.sign(i, world.decode(signed).value.transaction) == Some(signed)
            && world.decode(signed).value.hash == hash
  {
    var filled := Fill(world, network, p.transactions[i], i);
    if filled.Ok? {
      FillExactly(world, network, p.transactions[i], i, filled.value);
    }
    if world.decode(signed).Some? {
      FillExactly(world, network, p.transactions[i], i, world.decode(signed).value.transaction);
    }
  }

  lemma SignedIsFaithful(world: World, network: Network, p: Prepared, i: nat)
    requires i < |p.transactions| && SignedTransaction(world, network, p, i).Ok?
    ensures Faithful(world, network, p, i, SignedTransaction(world, network, p, i).value.0)
  {
    var (signed, hash) := SignedTransaction(world, network, p, i).value;
    SignedExactly(world, network, p, i, signed, hash);
  }

  /** One iteration, on its own, is a safe run that logs exactly one transaction. */
  lemma OneSubmission(world: World, network: Network, p: Prepared, i: nat)
    requires i < |p.transactions| && SignedTransaction(world, network, p, i).Ok?
    ensures var (signed, hash) := SignedTransaction(world, network, p, i).value;
            var o := SubmitOne(world, i, signed, hash);
            && o.submitted == [hash]
            && SubmitsInOrder(world, network, p, i, o.submitted, o.trace)
            && OfTransaction(i, o.trace)
            && (o.result.Ok? <==> Confirmed(o.trace, i, hash))
            && (o.result.Ok? <==> AllConfirmed(i, o.submitted, o.trace))
  {
    var (signed, hash) := SignedTransaction(world, network, p, i).value;
    var o := SubmitOne(world, i, signed, hash);
    var sent := [Recorded(i, hash), SubmitCalled(i, signed)];
    SignedIsFaithful(world, network, p, i);
    ConfirmReadsOneReceipt(world, i, hash, 0);
    var polled := if world.submit(i, signed) == Some(hash) then ConfirmFrom(world, i, hash, 0).trace else [];
    assert o.trace == sent + polled;
    assert forall pos | 2 <= pos < |o.trace| :: o.trace[pos] == polled[pos - 2] && polled[pos - 2] in polled;
    assert o.trace[..1] == [Recorded(i, hash)];
    assert SubmitAllowed(world, network, p, i, [hash], o.trace, 1);
    OneConfirmed(i, hash, o.trace);
  }

  lemma OneConfirmed(i: nat, hash: Hash, trace: seq<Event>)
    ensures AllConfirmed(i, [hash], trace) <==> Confirmed(trace, i, hash)
  {
    assert [hash][0] == hash;
    assert AllConfirmed(i, [hash], trace) ==> Confirmed(trace, i + 0, [hash][0]);
  }

  /** Every event belongs to transaction `i`. */
  predicate OfTransaction(i: nat, trace: seq<Event>) {
    forall e | e in trace :: e.index == i
  }

  /** A confirmed first transaction extends the confirmations of the rest, and nothing else can. */
  lemma ConfirmedCons(i: nat, hash: Hash, rest: seq<Hash>, first: seq<Event>, later: seq<Event>)
    requires Confirmed(first, i, hash) && OfTransaction(i, first)
    ensures AllConfirmed(i + 1, rest, later) <==> AllConfirmed(i, [hash] + rest, first + later)
  {
    var all := [hash] + rest;
    if AllConfirmed(i + 1, rest, later) {
      forall j | 0 <= j < |all|
        ensures Confirmed(first + later, i + j, all[j])
      {
        assert j > 0 ==> Confirmed(later, i + 1 + (j - 1), rest[j - 1]);
      }
    }
    if AllConfirmed(i, all, first + later) {
      forall j | 0 <= j < |rest|
        ensures Confirmed(later, i + 1 + j, rest[j])
      {
        assert Confirmed(first + later, i + (j + 1), all[j + 1]);
      }
    }
  }

  lemma VerifiedCons(world: World, network: Network, p: Prepared, i: nat, hash: Hash, rest: seq<Hash>)
    requires i < |p.transactions| && VerifiedAs(world, network, p, i, hash)
    requires LogIsVerifiedPrefix(world, network, p, i + 1, rest)
    ensures LogIsVerifiedPrefix(world, network, p, i, [hash] + rest)
  {
    forall j | 0 <= j < |[hash] + rest|
      ensures VerifiedAs(world, network, p, i + j, ([hash] + rest)[j])
    {
      assert j > 0 ==> VerifiedAs(world, network, p, i + 1 + (j - 1), rest[j - 1]);
    }
  }

  /** Putting a confirmed transaction in front of a safe run keeps every submission allowed. */
  lemma SubmitsCons(
      world: World, network: Network, p: Prepared, i: nat, hash: Hash, first: seq<Event>,
      rest: seq<Hash>, later: seq<Event>)
    requires i < |p.transactions|
    requires SubmitsInOrder(world, network, p, i, [hash], first)
    requires OfTransaction(i, first) && Confirmed(first, i, hash)
    requires SubmitsInOrder(world, network, p, i + 1, rest, later)
    ensures SubmitsInOrder(world, network, p, i, [hash] + rest, first + later)
  {
    var submitted, trace := [hash] + rest, first + later;
    forall pos | 0 <= pos < |trace| && trace[pos].SubmitCalled?
      ensures SubmitAllowed(world, network, p, i, submitted, trace, pos)
      ensures pos >= |first| ==> trace[pos].index > i
    {
      if pos < |first| {
        assert first[pos] in first;
        assert SubmitAllowed(world, network, p, i, [hash], first, pos);
        assert trace[..pos] == first[..pos];
        assert submitted[..0] == [];
      } else {
        var q := pos - |first|;
        assert SubmitAllowed(world, network, p, i + 1, rest, later, q);
        var n := later[q].index;
        assert trace[..pos] == first + later[..q];
        assert submitted[..n - i] == [hash] + rest[..n - (i + 1)];
        ConfirmedCons(i, hash, rest[..n - (i + 1)], first, later[..q]);
      }
    }
    forall a, b | 0 <= a < b < |trace| && trace[a].SubmitCalled? && trace[b].SubmitCalled?
      ensures trace[a].index < trace[b].index
    {
      if a < |first| {
        assert first[a] in first;
      } else {
        assert later[a - |first|].index < later[b - |first|].index;
      }
    }
  }

  /** A run that stops before its next transaction, or has none left, is safe. */
  lemma StopIsSafe(world: World, network: Network, p: Prepared, i: nat, result: Result<()>)
    requires i <= |p.transactions| && (result.Ok? <==> i == |p.transactions|)
    ensures SafeRun(world, network, p, i, Outcome([], [], result))
  {
  }

  /** A run that ends with transaction `i` unconfirmed is safe. */
  lemma UnconfirmedIsSafe(
      world: World, network: Network, p: Prepared, i: nat, hash: Hash, trace: seq<Event>, error: Error)
    requires i < |p.transactions| && VerifiedAs(world, network, p, i, hash)
    requires SubmitsInOrder(world, network, p, i, [hash], trace)
    requires !AllConfirmed(i, [hash], trace)
    ensures SafeRun(world, network, p, i, Outcome([hash], trace, Err(error)))
  {
    assert [hash][..0] == [];
  }

  /** A confirmed transaction in front of a safe run makes a safe run. */
  lemma SafeCons(world: World, network: Network, p: Prepared, i: nat, hash: Hash, first: seq<Event>, rest: Outcome)
    requires i < |p.transactions| && VerifiedAs(world, network, p, i, hash)
    requires SubmitsInOrder(world, network, p, i, [hash], first)
    requires OfTransaction(i, first) && Confirmed(first, i, hash)
    requires SafeRun(world, network, p, i + 1, rest)
    requires i + 1 == |p.transactions| ==> rest.result.Ok?
    ensures SafeRun(world, network, p, i, Outcome([hash] + rest.submitted, first + rest.trace, rest.result))
  {
    VerifiedCons(world, network, p, i, hash, rest.submitted);
    SubmitsCons(world, network, p, i, hash, first, rest.submitted, rest.trace);
    ConfirmedCons(i, hash, rest.submitted, first, rest.trace);
    if rest.submitted != [] {
      var last := |rest.submitted| - 1;
      ConfirmedCons(i, hash, rest.submitted[..last], first, rest.trace);
      assert ([hash] + rest.submitted)[..last + 1] == [hash] + rest.submitted[..last];
    }
  }

  /** Every run is safe, whatever the node, the signer and the submitter do. */
  lemma {:induction false} EveryRunIsSafe(world: World, network: Network, p: Prepared, i: nat)
    requires i <= |p.transactions|
    ensures SafeRun(world, network, p, i, RunFrom(world, network, p, i))
    decreases |p.transactions| - i
  {
    var o := RunFrom(world, network, p, i);
    if i == |p.transactions| || world.quoteAge(i) >= MAX_QUOTE_AGE || SignedTransaction(world, network, p, i).Err? {
      StopIsSafe(world, network, p, i, o.result);
    } else {
      var (signed, hash) := SignedTransaction(world, network, p, i).value;
      var one := SubmitOne(world, i, signed, hash);
      OneSubmission(world, network, p, i);
      if one.result.Ok? {
        EveryRunIsSafe(world, network, p, i + 1);
        SafeCons(world, network, p, i, hash, one.trace, RunFrom(world, network, p, i + 1));
      } else {
        UnconfirmedIsSafe(world, network, p, i, hash, one.trace, one.result.error);
      }
    }
  }

  /**
   The whole protocol: nothing is sent on the wrong chain, and from there every run is safe; with
   at least one transaction, success means exactly that every one was submitted and confirmed.
   */
  lemma ProtocolIsSafe(world: World, network: Network, p: Prepared)
    ensures var o := Execute(world, network, p);
            && (o.submitted != [] || o.trace != [] ==>
                  p.quoteChain == network.chainId && world.nodeChain == Ok(network.chainId))
            && SafeRun(world, network, p, 0, o)
            && (p.transactions != [] ==>
                  (o.result.Ok? <==> |o.submitted| == |p.transactions| && AllConfirmed(0, o.submitted, o.trace)))
  {
    EveryRunIsSafe(world, network, p, 0);
  }

  lemma OneSubmitCall(world: World, i: nat, signed: seq<byte>, hash: Hash)
    ensures forall e | e in SubmitOne(world, i, signed, hash).trace && e.SubmitCalled? :: e == SubmitCalled(i, signed)
  {
    ConfirmReadsOneReceipt(world, i, hash, 0);
  }

  lemma {:induction false} SubmissionsAreSigned(world: World, network: Network, p: Prepared, i: nat)
    requires i <= |p.transactions|
    ensures forall e | e in RunFrom(world, network, p, i).trace && e.SubmitCalled? ::
              && i <= e.index < |p.transactions|
              && world.quoteAge(e.index) < 60
              && SignedTransaction(world, network, p, e.index).Ok?
              && SignedTransaction(world, network, p, e.index).value.0 == e.signed
    decreases |p.transactions| - i
  {
    if i < |p.transactions| && world.quoteAge(i) < MAX_QUOTE_AGE && SignedTransaction(world, network, p, i).Ok? {
      var (signed, hash) := SignedTransaction(world, network, p, i).value;
      OneSubmitCall(world, i, signed, hash);
      SubmissionsAreSigned(world, network, p, i + 1);
    }
  }

  /**
   Every submit call carries the prepared transaction field by field: its own target, value and
   calldata; the nonce the node gave for it; the provider's gas limit and fees or the node's, with
   headroom; signed by the wallet, while the quote was under sixty seconds old. The hash on record
   for it, before the call, is the one these bytes decode to.
   */
  lemma EverySubmissionIsFilledIn(world: World, network: Network, p: Prepared, pos: nat)
    requires var trace := Execute(world, network, p).trace; pos < |trace| && trace[pos].SubmitCalled?
    ensures var o := Execute(world, network, p);
            var n, signed := o.trace[pos].index, o.trace[pos].signed;
            && n < |p.transactions| && n < |o.submitted|
            && world.quoteAge(n) < 60
            && world.decode(signed).Some?
            && var decoded := world.decode(signed).value;
            && FilledIn(world, network, p.transactions[n], n, decoded.transaction)
            && decoded.remaining == [] && decoded.signer == Some(p.wallet)
            && world.sign(n, decoded.transaction) == Some(signed)
            && o.submitted[n] == decoded.hash
            && Recorded(n, decoded.hash) in o.trace[..pos]
  {
    var o := Execute(world, network, p);
    var n, signed := o.trace[pos].index, o.trace[pos].signed;
    ProtocolIsSafe(world, network, p);
    assert SubmitAllowed(world, network, p, 0, o.submitted, o.trace, pos);
    SubmissionsAreSigned(world, network, p, 0);
    assert o.trace[pos] in o.trace;
    SignedExactly(world, network, p, n, signed, SignedTransaction(world, network, p, n).value.1);
    assert VerifiedAs(world, network, p, 0 + n, o.submitted[n]);
  }

  /** The receipt turns successful before the confirmation timeout, and only pending answers come before. */
  ghost predicate Settles(world: World, i: nat, from: nat) {
    exists k: nat :: SettlesAt(world, i, from, k)
  }

  ghost predicate SettlesAt(world: World, i: nat, from: nat, k: nat) {
    && from <= k < world.polls(i) && world.receipt(i, k) == Ok(Succeeded)
    && forall j | from <= j < k :: world.receipt(i, j) == Ok(Pending)
  }

  lemma {:induction false} ConfirmsExactly(world: World, i: nat, hash: Hash, from: nat)
    ensures ConfirmFrom(world, i, hash, from).result.Ok? <==> Settles(world, i, from)
    decreases world.polls(i) - from
  {
    if from < world.polls(i) {
      if world.receipt(i, from) == Ok(Succeeded) {
        assert SettlesAt(world, i, from, from);
      }
      if world.receipt(i, from) == Ok(Pending) {
        ConfirmsExactly(world, i, hash, from + 1);
        if Settles(world, i, from + 1) {
          var k: nat :| SettlesAt(world, i, from + 1, k);
          assert SettlesAt(world, i, from, k);
        }
        if Settles(world, i, from) {
          var k: nat :| SettlesAt(world, i, from, k);
          assert SettlesAt(world, i, from + 1, k);
        }
      }
    }
  }

  /** Transaction `i` goes through: in time, faithfully signed, reported under its own hash and confirmed. */
  ghost predicate GoesThrough(world: World, network: Network, p: Prepared, i: nat)
    requires i < |p.transactions|
  {
    && world.quoteAge(i) < 60
    && exists signed: seq<byte> ::
         && Faithful(world, network, p, i, signed)
         && world.sign(i, world.decode(signed).value.transaction) == Some(signed)
         && world.submit(i, signed) == Some(world.decode(signed).value.hash)
         && Settles(world, i, 0)
  }

  lemma OneGoesThrough(world: World, network: Network, p: Prepared, i: nat)
    requires i < |p.transactions|
    ensures GoesThrough(world, network, p, i)
       <==> && world.quoteAge(i) < MAX_QUOTE_AGE && SignedTransaction(world, network, p, i).Ok?
            && var (signed, hash) := SignedTransaction(world, network, p, i).value;
               SubmitOne(world, i, signed, hash).result.Ok?
  {
    if SignedTransaction(world, network, p, i).Ok? {
      var (signed, hash) := SignedTransaction(world, network, p, i).value;
      SignedExactly(world, network, p, i, signed, hash);
      ConfirmsExactly(world, i, hash, 0);
    }
    if GoesThrough(world, network, p, i) {
      var signed: seq<byte> :|
        && Faithful(world, network, p, i, signed)
        && world.sign(i, world.decode(signed).value.transaction) == Some(signed)
        && world.submit(i, signed) == Some(world.decode(signed).value.hash)
        && Settles(world, i, 0);
      SignedExactly(world, network, p, i, signed, world.decode(signed).value.hash);
      ConfirmsExactly(world, i, world.decode(signed).value.hash, 0);
    }
  }

  lemma {:induction false} RestGoesThrough(world: World, network: Network, p: Prepared, i: nat)
    requires i <= |p.transactions|
    ensures RunFrom(world, network, p, i).result.Ok?
       <==> forall n | i <= n < |p.transactions| :: GoesThrough(world, network, p, n)
    decreases |p.transactions| - i
  {
    if i < |p.transactions| {
      OneGoesThrough(world, network, p, i);
      RestGoesThrough(world, network, p, i + 1);
    }
  }

  /** A run succeeds exactly when quote, node and client agree on the chain and every transaction goes through. */
  lemma RunSucceedsExactly(world: World, network: Network, p: Prepared)
    ensures Execute(world, network, p).result.Ok?
       <==> && p.quoteChain == network.chainId && world.nodeChain == Ok(network.chainId)
            && forall n | 0 <= n < |p.transactions| :: GoesThrough(world, network, p, n)
  {
    RestGoesThrough(world, network, p, 0);
  }

  // ---- what the submitted bytes do

  /** The chain reads submitted bytes by itself: it sees what they decode to and who signed them. */
  function LandBytes(world: World, signed: seq<byte>, effects: Effects): Effects {
    var decoded := world.decode(signed);
    if decoded.None? || decoded.value.signer.None? then effects
    else
      var call := decoded.value.transaction;
      Land(effects, decoded.value.signer.value, call.to, call.input, call.value)
  }

  /**
   The effects of everything a trace submitted. `lands` says which submissions take effect, whatever
   the submitter answered: one that failed may have been broadcast, one that succeeded may revert.
   */
  function Landed(world: World, trace: seq<Event>, lands: nat -> bool, effects: Effects): Effects {
    if trace == [] then effects
    else
      var e := trace[0];
      Landed(world, trace[1..], lands,
             if e.SubmitCalled? && lands(e.index) then LandBytes(world, e.signed, effects) else effects)
  }

  /** A submit call was made for transaction `n`. */
  ghost predicate Sent(trace: seq<Event>, n: nat) {
    exists e :: e in trace && e.SubmitCalled? && e.index == n
  }

  lemma {:induction false} LandedConcat(
      world: World, a: seq<Event>, b: seq<Event>, lands: nat -> bool, effects: Effects)
    ensures Landed(world, a + b, lands, effects) == Landed(world, b, lands, Landed(world, a, lands, effects))
  {
    if a == [] {
      assert a + b == b;
    } else {
      var e := a[0];
      assert (a + b)[0] == e && (a + b)[1..] == a[1..] + b;
      LandedConcat(world, a[1..], b, lands,
                   if e.SubmitCalled? && lands(e.index) then LandBytes(world, e.signed, effects) else effects);
    }
  }

  lemma {:induction false} NothingLands(world: World, trace: seq<Event>, lands: nat -> bool, effects: Effects)
    requires forall e | e in trace :: !e.SubmitCalled?
    ensures Landed(world, trace, lands, effects) == effects
  {
    if trace != [] {
      NothingLands(world, trace[1..], lands, effects);
    }
  }

  /** The effect of submitting transaction `n`, as prepared. */
  function LandPrepared(p: Prepared, n: nat, lands: nat -> bool, effects: Effects): Effects
    requires n < |p.transactions|
  {
    var tx := p.transactions[n];
    if lands(n) then Land(effects, p.wallet, tx.to, tx.data, tx.value) else effects
  }

  /** Within one iteration the bytes do what the prepared transaction says, from the submit call on. */
  lemma OneLands(
      world: World, network: Network, p: Prepared, i: nat, pos: nat, lands: nat -> bool, effects: Effects)
    requires i < |p.transactions| && SignedTransaction(world, network, p, i).Ok?
    requires var (signed, hash) := SignedTransaction(world, network, p, i).value;
             pos <= |SubmitOne(world, i, signed, hash).trace|
    ensures var (signed, hash) := SignedTransaction(world, network, p, i).value;
            var seen := SubmitOne(world, i, signed, hash).trace[..pos];
            && Landed(world, seen, lands, effects) == (if pos >= 2 then LandPrepared(p, i, lands, effects) else effects)
            && (forall k: nat :: Sent(seen, k) <==> pos >= 2 && k == i)
  {
    var (signed, hash) := SignedTransaction(world, network, p, i).value;
    var answers := if world.submit(i, signed) == Some(hash) then ConfirmFrom(world, i, hash, 0).trace else [];
    ConfirmReadsOneReceipt(world, i, hash, 0);
    assert SubmitOne(world, i, signed, hash).trace == [Recorded(i, hash), SubmitCalled(i, signed)] + answers;
    OneSubmitLands(world, i, signed, hash, answers, pos, lands, effects);
  }

  /** In a trace with one submit call, only that call can have an effect. */
  lemma OneSubmitLands(
      world: World, i: nat, signed: seq<byte>, hash: Hash, answers: seq<Event>, pos: nat,
      lands: nat -> bool, effects: Effects)
    requires forall e | e in answers :: e.ReceiptRead?
    requires pos <= |[Recorded(i, hash), SubmitCalled(i, signed)] + answers|
    ensures var seen := ([Recorded(i, hash), SubmitCalled(i, signed)] + answers)[..pos];
            && Landed(world, seen, lands, effects)
               == (if pos >= 2 && lands(i) then LandBytes(world, signed, effects) else effects)
            && (forall k: nat :: Sent(seen, k) <==> pos >= 2 && k == i)
  {
    var trace := [Recorded(i, hash), SubmitCalled(i, signed)] + answers;
    var seen := trace[..pos];
    if pos < 2 {
      assert forall e | e in seen :: e == Recorded(i, hash);
      NothingLands(world, seen, lands, effects);
    } else {
      var first := answers[..pos - 2];
      assert seen == [Recorded(i, hash)] + ([SubmitCalled(i, signed)] + first);
      assert seen[1..] == [SubmitCalled(i, signed)] + first && seen[1..][1..] == first;
      assert forall e | e in first :: e in answers;
      NothingLands(world, first, lands, if lands(i) then LandBytes(world, signed, effects) else effects);
      assert SubmitCalled(i, signed) in seen;
    }
  }

  lemma SentConcat(a: seq<Event>, b: seq<Event>, k: nat)
    ensures Sent(a + b, k) <==> Sent(a, k) || Sent(b, k)
  {
    if Sent(a, k) {
      var e :| e in a && e.SubmitCalled? && e.index == k;
      assert e in a + b;
    }
    if Sent(b, k) {
      var e :| e in b && e.SubmitCalled? && e.index == k;
      assert e in a + b;
    }
  }

  lemma SentJoined(first: seq<Event>, rest: seq<Event>, i: nat, n: nat)
    requires i < n
    requires forall k: nat :: Sent(first, k) <==> k == i
    requires forall k: nat :: Sent(rest, k) <==> i + 1 <= k < n
    ensures forall k: nat :: Sent(first + rest, k) <==> i <= k < n
  {
    forall k: nat
      ensures Sent(first + rest, k) <==> i <= k < n
    {
      SentConcat(first, rest, k);
    }
  }

  /** Transaction `i` and then transactions `i + 1` to `n`. */
  lemma LandedJoined(
      world: World, p: Prepared, i: nat, n: nat, first: seq<Event>, rest: seq<Event>, lands: nat -> bool,
      effects: Effects)
    requires i < n <= |p.transactions|
    requires Landed(world, first, lands, effects) == LandPrepared(p, i, lands, effects)
    requires Landed(world, rest, lands, LandPrepared(p, i, lands, effects))
          == CarryOut(LandPrepared(p, i, lands, effects), p.wallet, p.transactions, i + 1, n, lands)
    ensures Landed(world, first + rest, lands, effects) == CarryOut(effects, p.wallet, p.transactions, i, n, lands)
  {
    LandedConcat(world, first, rest, lands, effects);
  }

  /** `seen` submits exactly transactions `i` to `n`, and carries them out where `lands` says. */
  ghost predicate Submits(
      world: World, p: Prepared, i: nat, n: nat, seen: seq<Event>, lands: nat -> bool, effects: Effects)
  {
    && i <= n <= |p.transactions|
    && Landed(world, seen, lands, effects) == CarryOut(effects, p.wallet, p.transactions, i, n, lands)
    && forall k: nat :: Sent(seen, k) <==> i <= k < n
  }

  lemma SubmitsNothing(world: World, p: Prepared, i: nat, lands: nat -> bool, effects: Effects)
    requires i <= |p.transactions|
    ensures Submits(world, p, i, i, [], lands, effects)
  {
  }

  /** A complete first iteration and what was seen after it. */
  lemma SubmitsJoined(
      world: World, p: Prepared, i: nat, n: nat, first: seq<Event>, rest: seq<Event>, lands: nat -> bool,
      effects: Effects)
    requires Submits(world, p, i, i + 1, first, lands, effects)
    requires Submits(world, p, i + 1, n, rest, lands, LandPrepared(p, i, lands, effects))
    ensures Submits(world, p, i, n, first + rest, lands, effects)
  {
    var next := LandPrepared(p, i, lands, effects);
    assert CarryOut(next, p.wallet, p.transactions, i + 1, i + 1, lands) == next;
    LandedJoined(world, p, i, n, first, rest, lands, effects);
    SentJoined(first, rest, i, n);
  }

  /** Transaction `i` is next and gets submitted. */
  predicate Submittable(world: World, network: Network, p: Prepared, i: nat) {
    i < |p.transactions| && world.quoteAge(i) < MAX_QUOTE_AGE && SignedTransaction(world, network, p, i).Ok?
  }

  function FirstOutcome(world: World, network: Network, p: Prepared, i: nat): Outcome
    requires Submittable(world, network, p, i)
  {
    var (signed, hash) := SignedTransaction(world, network, p, i).value;
    SubmitOne(world, i, signed, hash)
  }

  /** The run at a moment within its first iteration. */
  lemma FirstSubmits(
      world: World, network: Network, p: Prepared, i: nat, pos: nat, lands: nat -> bool, effects: Effects)
    returns (n: nat)
    requires Submittable(world, network, p, i) && pos <= |FirstOutcome(world, network, p, i).trace|
    ensures var o := RunFrom(world, network, p, i);
            && |FirstOutcome(world, network, p, i).trace| <= |o.trace|
            && Submits(world, p, i, n, o.trace[..pos], lands, effects)
            && (pos == |o.trace| ==> n == i + |o.submitted|)
            && (pos == |FirstOutcome(world, network, p, i).trace| ==> n == i + 1)
  {
    n := if pos >= 2 then i + 1 else i;
    OneLands(world, network, p, i, pos, lands, effects);
    assert RunFrom(world, network, p, i).trace[..pos] == FirstOutcome(world, network, p, i).trace[..pos];
  }

  /** A run whose first iteration is confirmed is that iteration and then the run from the next transaction on. */
  lemma ConfirmedFirst(world: World, network: Network, p: Prepared, i: nat)
    requires Submittable(world, network, p, i) && FirstOutcome(world, network, p, i).result.Ok?
    ensures RunFrom(world, network, p, i)
         == Then(FirstOutcome(world, network, p, i), RunFrom(world, network, p, i + 1))
    ensures |FirstOutcome(world, network, p, i).submitted| == 1
  {
  }

  /** The run at a moment after its first iteration. */
  lemma LaterSubmits(
      world: World, p: Prepared, i: nat, n: nat, first: Outcome, later: Outcome, pos: nat, lands: nat -> bool,
      effects: Effects)
    requires |first.submitted| == 1 && |first.trace| <= pos <= |first.trace| + |later.trace|
    requires Submits(world, p, i, i + 1, first.trace, lands, effects)
    requires Submits(world, p, i + 1, n, later.trace[..pos - |first.trace|], lands, LandPrepared(p, i, lands, effects))
    requires pos - |first.trace| == |later.trace| ==> n == i + 1 + |later.submitted|
    ensures var o := Then(first, later);
            && Submits(world, p, i, n, o.trace[..pos], lands, effects)
            && (pos == |o.trace| ==> n == i + |o.submitted|)
  {
    SubmitsJoined(world, p, i, n, first.trace, later.trace[..pos - |first.trace|], lands, effects);
    assert (first.trace + later.trace)[..pos] == first.trace + later.trace[..pos - |first.trace|];
  }

  /**
   At any moment of a run the bytes submitted so far have exactly the effects of a leading part of
   the prepared list, of which they are the submissions.
   */
  lemma {:induction false} SentIsPrepared(
      world: World, network: Network, p: Prepared, i: nat, pos: nat, lands: nat -> bool, effects: Effects)
    returns (n: nat)
    requires i <= |p.transactions| && pos <= |RunFrom(world, network, p, i).trace|
    ensures var o := RunFrom(world, network, p, i);
            && Submits(world, p, i, n, o.trace[..pos], lands, effects)
            && (pos == |o.trace| ==> n == i + |o.submitted|)
    decreases |p.transactions| - i
  {
    if !Submittable(world, network, p, i) {
      n := i;
      SubmitsNothing(world, p, i, lands, effects);
    } else {
      var first := FirstOutcome(world, network, p, i);
      n := FirstSubmits(world, network, p, i, Min(pos, |first.trace|), lands, effects);
      if first.result.Ok? && pos > |first.trace| {
        ConfirmedFirst(world, network, p, i);
        var later := RunFrom(world, network, p, i + 1);
        assert RunFrom(world, network, p, i).trace[..|first.trace|] == first.trace;
        n := SentIsPrepared(world, network, p, i + 1, pos - |first.trace|, lands, LandPrepared(p, i, lands, effects));
        LaterSubmits(world, p, i, n, first, later, pos, lands, effects);
      }
    }
  }

  /** The same for the whole protocol, which submits nothing when it meets the wrong chain. */
  lemma SubmittedIsPrepared(
      world: World, network: Network, p: Prepared, pos: nat, lands: nat -> bool, effects: Effects)
    returns (n: nat)
    requires pos <= |Execute(world, network, p).trace|
    ensures var o := Execute(world, network, p);
            && Submits(world, p, 0, n, o.trace[..pos], lands, effects)
            && (pos == |o.trace| ==> n == |o.submitted|)
  {
    if p.quoteChain == network.chainId && world.nodeChain == Ok(network.chainId) {
      n := SentIsPrepared(world, network, p, 0, pos, lands, effects);
    } else {
      n := 0;
      SubmitsNothing(world, p, 0, lands, effects);
    }
  }

  /** A successful receipt is only given for a submission that took effect. */
  ghost predicate ReceiptsTrue(trace: seq<Event>, lands: nat -> bool) {
    forall e | e in trace && e.ReceiptRead? && e.status.Succeeded? :: lands(e.index)
  }

  lemma {:induction false} CarryOutAgrees(
      effects: Effects, owner: Address, txs: seq<Transaction>, i: nat, n: nat, a: nat -> bool, b: nat -> bool)
    requires i <= n <= |txs| && forall k | i <= k < n :: a(k) == b(k)
    ensures CarryOut(effects, owner, txs, i, n, a) == CarryOut(effects, owner, txs, i, n, b)
    decreases n - i
  {
    if i < n {
      var tx := txs[i];
      CarryOutAgrees(if a(i) then Land(effects, owner, tx.to, tx.data, tx.value) else effects,
                     owner, txs, i + 1, n, a, b);
    }
  }

  /** A submission whose predecessors are exactly the transactions below `m` is that of `m`. */
  lemma NextToSend(trace: seq<Event>, pos: nat, seen: seq<Event>, after: seq<Event>, m: nat, m': nat)
    requires pos < |trace| && trace[pos].SubmitCalled?
    requires forall a | 0 <= a < pos && trace[a].SubmitCalled? :: trace[a].index < trace[pos].index
    requires seen == trace[..pos] && after == trace[..pos + 1]
    requires forall k: nat :: Sent(seen, k) <==> k < m
    requires forall k: nat :: Sent(after, k) <==> k < m'
    ensures trace[pos].index == m
  {
    var n := trace[pos].index;
    assert after == seen + [trace[pos]];
    assert trace[pos] in after;
    assert Sent(after, n);
    assert !Sent(seen, n);
    if m < n {
      SentConcat(seen, [trace[pos]], m);
    }
  }

  /** What a submission is allowed to follow has landed, if receipts are true. */
  lemma EarlierLanded(
      world: World, network: Network, p: Prepared, submitted: seq<Hash>, trace: seq<Event>, pos: nat,
      lands: nat -> bool)
    requires pos < |trace| && trace[pos].SubmitCalled?
    requires SubmitAllowed(world, network, p, 0, submitted, trace, pos) && ReceiptsTrue(trace[..pos], lands)
    ensures forall k: nat | k < trace[pos].index :: lands(k)
  {
    forall k: nat | k < trace[pos].index
      ensures lands(k)
    {
      assert Confirmed(trace[..pos], 0 + k, submitted[..trace[pos].index - 0][k]);
    }
  }

  /** The safety of a run, read at one of its submit calls. */
  lemma SubmissionAllowed(world: World, network: Network, p: Prepared, pos: nat)
    requires var trace := Execute(world, network, p).trace; pos < |trace| && trace[pos].SubmitCalled?
    ensures var o := Execute(world, network, p);
            && SubmitAllowed(world, network, p, 0, o.submitted, o.trace, pos)
            && forall a | 0 <= a < pos && o.trace[a].SubmitCalled? :: o.trace[a].index < o.trace[pos].index
  {
    ProtocolIsSafe(world, network, p);
  }

  /**
   While receipts are true, transaction `n` is submitted into a state in which exactly the `n`
   transactions before it have taken effect, in order.
   */
  lemma EachSubmitFollowsEffects(
      world: World, network: Network, p: Prepared, pos: nat, lands: nat -> bool, effects: Effects)
    requires var trace := Execute(world, network, p).trace;
             pos < |trace| && trace[pos].SubmitCalled? && ReceiptsTrue(trace[..pos], lands)
    ensures var trace := Execute(world, network, p).trace;
            var n := trace[pos].index;
            && n < |p.transactions|
            && Landed(world, trace[..pos], lands, effects)
               == CarryOut(effects, p.wallet, p.transactions, 0, n, _ => true)
  {
    var o := Execute(world, network, p);
    SubmissionAllowed(world, network, p, pos);
    var m := SubmittedIsPrepared(world, network, p, pos, lands, effects);
    var m' := SubmittedIsPrepared(world, network, p, pos + 1, lands, effects);
    NextToSend(o.trace, pos, o.trace[..pos], o.trace[..pos + 1], m, m');
    EarlierLanded(world, network, p, o.submitted, o.trace, pos, lands);
    CarryOutAgrees(effects, p.wallet, p.transactions, 0, m, lands, _ => true);
  }

  /** A successful run has logged every transaction, and under true receipts every one took effect. */
  lemma SuccessSubmitsAll(world: World, network: Network, p: Prepared, lands: nat -> bool)
    requires p.transactions != [] && Execute(world, network, p).result.Ok?
    ensures var o := Execute(world, network, p);
            && |o.submitted| == |p.transactions|
            && (ReceiptsTrue(o.trace, lands) ==> forall k: nat | k < |p.transactions| :: lands(k))
  {
    var o := Execute(world, network, p);
    ProtocolIsSafe(world, network, p);
    if ReceiptsTrue(o.trace, lands) {
      forall k: nat | k < |p.transactions|
        ensures lands(k)
      {
        assert Confirmed(o.trace, 0 + k, o.submitted[k]);
      }
    }
  }

  /**
   A Relay response carried out by the protocol, seen at any moment `pos` of the run, for any node,
   signer and submitter and whichever submissions take effect. Until the submitted swap does, the
   bytes sent have changed only this trade's own allowances, to zero or the traded amount, and have
   spent no native currency; the swap spends exactly what the trade names. A successful run has
   submitted it, and under true receipts carried it out.
   */
  lemma RelayRunStaysWithinTrade(
      world: World, network: Network, steps: seq<Step>, trade: Trade, before: Allowances,
      pos: nat, lands: nat -> bool)
    requires DecodeResponse(network, steps, trade).Ok?
    requires var p := Prepared(network.chainId, trade.wallet, DecodeResponse(network, steps, trade).value);
             pos <= |Execute(world, network, p).trace|
    ensures var txs := DecodeResponse(network, steps, trade).value;
            var o := Execute(world, network, Prepared(network.chainId, trade.wallet, txs));
            var now := Landed(world, o.trace[..pos], lands, Effects(before, 0));
            && |txs| > 0
            && var swapLanded := Sent(o.trace[..pos], |txs| - 1) && lands(|txs| - 1);
            && (!swapLanded ==> OnlyTradeEntries(network, trade, before, now.allowances))
            && now.spent == (if swapLanded then SwapValue(trade) else 0)
            && (o.result.Ok? && pos == |o.trace| ==>
                  && Sent(o.trace[..pos], |txs| - 1)
                  && (ReceiptsTrue(o.trace, lands) ==> swapLanded))
  {
    var txs := DecodeResponse(network, steps, trade).value;
    var p := Prepared(network.chainId, trade.wallet, txs);
    DecodedResponse(network, steps, trade);
    var n := SubmittedIsPrepared(world, network, p, pos, lands, Effects(before, 0));
    EveryPrefixStaysWithinTrade(network, steps, trade, before, n, lands);
    if Execute(world, network, p).result.Ok? {
      SuccessSubmitsAll(world, network, p, lands);
    }
  }
}
