/** Compiled Solana transactions, in resolved form, and the in-place edit of the reimbursement. */
module Transactions {
  import opened Types
  import opened Bytes
  import opened SolanaTypes

  /** Budget fields of a V1 message header. */
  datatype V1Config = V1Config(
    priorityFee: Option<u64>,
    computeUnitLimit: u32,
    loadedAccountsDataSizeLimit: u32,
    heapSize: Option<u32>
  )

  /**
   A compiled message. Compilation keeps the instruction order and puts the fee payer first among
   the distinct required signers; account indices are left resolved.
   */
  datatype Message = Message(
    format: TransactionFormat,
    signers: seq<Pubkey>,
    instructions: seq<Instruction>,
    config: Option<V1Config>
  )

  type Signature = nat

  /** `Signature::default()`, the placeholder before signing. */
  const UNSIGNED: Signature := 0

  /** The reimbursement rewritten from its reserved amount to the charge, or a refusal. */
  function Reimbursed(instructions: seq<Instruction>, index: nat, reserved: u64, charge: u64)
    : Result<seq<Instruction>>
  {
    if index >= |instructions| then Err(BuildError)
    else if instructions[index].data != TransferCheckedData(reserved) || charge > reserved then Err(BuildError)
    else Ok(instructions[index := instructions[index].(data := TransferCheckedData(charge))])
  }

  class VersionedTransaction {
    const format: TransactionFormat
    const signers: seq<Pubkey>
    const config: Option<V1Config>
    var instructions: seq<Instruction>
    const signatures: array<Signature>

    constructor (message: Message)
      ensures View() == message
      ensures fresh(signatures) && signatures.Length == |message.signers|
      ensures forall i | 0 <= i < signatures.Length :: signatures[i] == UNSIGNED
    {
      format, signers, config := message.format, message.signers, message.config;
      instructions := message.instructions;
      signatures := new Signature[|message.signers|](_ => UNSIGNED);
    }

    function View(): Message
      reads this
    {
      Message(format, signers, instructions, config)
    }

    /** Overwrites the eight amount bytes of one instruction; everything else stays as it is. */
    method ReplaceReimbursement(index: nat, reserved: u64, charge: u64) returns (r: Result<()>)
      modifies this`instructions
      ensures var spec := Reimbursed(old(instructions), index, reserved, charge);
              && (r.Ok? <==> spec.Ok?)
              && instructions == if spec.Ok? then spec.value else old(instructions)
      ensures r.Err? ==> r.error == BuildError
    {
      if index >= |instructions| {
        return Err(BuildError);
      }
      var expected := [TRANSFER_CHECKED] + ToLe(reserved, 8) + [USDC_DECIMALS];
      if instructions[index].data != expected || charge > reserved {
        return Err(BuildError);
      }
      var bytes := ToLe(charge, 8);
      var k := 0;
      assert expected[..1] + bytes[..0] + expected[1..] == expected;
      assert instructions == instructions[index := instructions[index].(data := expected)];
      while k < 8
        invariant 0 <= k <= 8
        invariant |instructions| == |old(instructions)|
        invariant instructions
               == old(instructions)[index := old(instructions)[index].(data := expected[..1] + bytes[..k] + expected[1 + k..])]
      {
        var instruction := instructions[index];
        instructions := instructions[index := instruction.(data := instruction.data[1 + k := bytes[k]])];
        assert instructions[index].data == expected[..1] + bytes[..k + 1] + expected[1 + (k + 1)..];
        k := k + 1;
      }
      assert instructions[index].data == TransferCheckedData(charge);
      return Ok(());
    }
  }

  /**
   Patching is by position: the addressed instruction keeps its program and accounts and carries
   exactly the charge, read back little-endian, while every other instruction is untouched, even
   one with the same bytes. The result is refused by a second patch unless it was a full charge.
   */
  lemma PatchIsPositional(instructions: seq<Instruction>, index: nat, reserved: u64, charge: u64)
    requires Reimbursed(instructions, index, reserved, charge).Ok?
    ensures var patched := Reimbursed(instructions, index, reserved, charge).value;
            && |patched| == |instructions| && index < |patched|
            && (forall k | 0 <= k < |patched| && k != index :: patched[k] == instructions[k])
            && patched[index].program == instructions[index].program
            && patched[index].accounts == instructions[index].accounts
            && |patched[index].data| == 10
            && patched[index].data[0] == instructions[index].data[0]
            && patched[index].data[9] == instructions[index].data[9]
            && FromLe(patched[index].data[1..9]) == charge <= reserved
            && (charge < reserved ==> Reimbursed(patched, index, reserved, charge).Err?)
  {
    TransferCarriesAmount(charge);
    TransferCarriesAmount(reserved);
  }

  /**
   A patch is accepted exactly at a ten-byte checked transfer that carries the reserved amount with
   six decimals, for a charge no larger.
   */
  lemma PatchAcceptedExactly(instructions: seq<Instruction>, index: nat, reserved: u64, charge: u64)
    ensures Reimbursed(instructions, index, reserved, charge).Ok?
       <==> && index < |instructions| && charge <= reserved
            && var data := instructions[index].data;
               |data| == 10 && data[0] == 12 && FromLe(data[1..9]) == reserved && data[9] == 6
  {
    if index < |instructions| && |instructions[index].data| == 10 {
      var data := instructions[index].data;
      TransferCarriesAmount(reserved);
      LeInverse(data[1..9]);
      assert data == [data[0]] + data[1..9] + [data[9]];
    }
  }

  lemma TransferCarriesAmount(amount: u64)
    ensures FromLe(TransferCheckedData(amount)[1..9]) == amount
  {
    assert TransferCheckedData(amount)[1..9] == ToLe(amount, 8);
    Widths();
    LeRoundTrip(amount, 8);
  }
}
