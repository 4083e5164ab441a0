/** Keys, instructions, trades and quotes of src/solana/types.rs and src/solana/dexes/common.rs. */
module SolanaTypes {
  import opened Types
  import opened Bytes

  /**
   A public key. Derived token-account addresses are a constructor of their own: derivation is
   taken to be collision-free and never to hit a key somebody holds.
   */
  datatype Pubkey = Key(id: nat) | Ata(owner: Pubkey, mint: Pubkey, tokenProgram: Pubkey)

  /** The all-zero key, which is also the System program. */
  const SYSTEM_PROGRAM := Key(0)
  const TOKEN_PROGRAM := Key(1)
  const ATA_PROGRAM := Key(2)
  const COMPUTE_BUDGET_PROGRAM := Key(3)
  const WSOL := Key(4)
  const USDC_MINT := Key(5)
  const BLOXROUTE_PROGRAM := Key(6)

  datatype AccountMeta = AccountMeta(pubkey: Pubkey, isSigner: bool, isWritable: bool)

  datatype Instruction = Instruction(program: Pubkey, accounts: seq<AccountMeta>, data: seq<byte>)

  datatype Side = BuySide | SellSide

  datatype Settlement = Sol | Usdc {
    function Mint(): Pubkey {
      if Sol? then WSOL else USDC_MINT
    }
  }

  datatype NativeVenue = PumpFunVenue | PumpSwapVenue

  datatype QuoteSource = Jupiter | DFlow | Bloxroute | Relay | PumpFun | PumpSwap {
    predicate Native() { PumpFun? || PumpSwap? }
  }

  datatype Trade = Trade(
    settlement: Settlement,
    wallet: Pubkey,
    mint: Pubkey,
    side: Side,
    amount: u64,
    slippageBps: u64,
    venue: Option<NativeVenue>,
    quoteSource: Option<QuoteSource>
  ) {
    predicate Valid() {
      amount != 0 && slippageBps < BASIS_POINTS && mint != settlement.Mint()
    }

    /** The share of the output that slippage leaves. */
    function KeptBps(): u64
      requires slippageBps < BASIS_POINTS
    {
      BASIS_POINTS - slippageBps
    }
  }

  datatype Quote = Quote(
    inAmount: u64,
    expectedOut: u64,
    minOut: u64,
    fee: u64,
    applicationFee: u64,
    sponsorshipFee: u64
  )

  datatype TransactionFormat = V0 | V1

  /** The value of a `PreparedSwap`: what its quote and instructions hold at one moment. */
  datatype Swap = Swap(quote: Quote, instructions: seq<Instruction>, format: TransactionFormat)

  datatype Tip = Tip(account: Pubkey, lamports: u64)

  // ---- instruction builders

  const REQUEST_HEAP_FRAME: byte := 1
  const SET_COMPUTE_UNIT_LIMIT: byte := 2
  const SET_COMPUTE_UNIT_PRICE: byte := 3
  const SET_LOADED_ACCOUNTS_DATA_SIZE_LIMIT: byte := 4
  const ATA_CREATE: byte := 0
  const ATA_CREATE_IDEMPOTENT: byte := 1
  const SYS_TRANSFER: u32 := 2
  const TRANSFER_CHECKED: byte := 12
  const USDC_DECIMALS: byte := 6

  function Signer(key: Pubkey): AccountMeta { AccountMeta(key, true, true) }

  function Writable(key: Pubkey): AccountMeta { AccountMeta(key, false, true) }

  function ReadOnly(key: Pubkey): AccountMeta { AccountMeta(key, false, false) }

  function CreateAtaIdempotent(payer: Pubkey, wallet: Pubkey, mint: Pubkey): Instruction {
    Instruction(
      ATA_PROGRAM,
      [ Signer(payer), Writable(Ata(wallet, mint, TOKEN_PROGRAM)), ReadOnly(wallet), ReadOnly(mint),
        ReadOnly(SYSTEM_PROGRAM), ReadOnly(TOKEN_PROGRAM) ],
      [ATA_CREATE_IDEMPOTENT])
  }

  function SystemTransferData(lamports: u64): seq<byte> {
    ToLe(SYS_TRANSFER, 4) + ToLe(lamports, 8)
  }

  function SystemTransfer(from: Pubkey, to: Pubkey, lamports: u64): Instruction {
    Instruction(SYSTEM_PROGRAM, [Signer(from), Writable(to)], SystemTransferData(lamports))
  }

  function UsdcAccount(wallet: Pubkey): Pubkey {
    Ata(wallet, USDC_MINT, TOKEN_PROGRAM)
  }

  function TransferCheckedData(amount: u64): (data: seq<byte>)
    ensures |data| == 10
  {
    [TRANSFER_CHECKED] + ToLe(amount, 8) + [USDC_DECIMALS]
  }

  function UsdcTransfer(wallet: Pubkey, recipient: Pubkey, amount: u64): Instruction {
    Instruction(
      TOKEN_PROGRAM,
      [ Writable(UsdcAccount(wallet)), ReadOnly(USDC_MINT), Writable(UsdcAccount(recipient)),
        AccountMeta(wallet, true, false) ],
      TransferCheckedData(amount))
  }

  /** A compute-budget instruction carrying one 32-bit value. */
  function BudgetInstruction(tag: byte, value: u32): Instruction {
    Instruction(COMPUTE_BUDGET_PROGRAM, [], [tag] + ToLe(value, 4))
  }

  function SetComputeUnitPrice(microLamports: u64): Instruction {
    Instruction(COMPUTE_BUDGET_PROGRAM, [], [SET_COMPUTE_UNIT_PRICE] + ToLe(microLamports, 8))
  }

  // ---- filtering, as `retain` and `filter` do

  function Retain<T>(s: seq<T>, keep: T -> bool): (r: seq<T>)
    ensures |r| <= |s|
  {
    if s == [] then []
    else if keep(s[0]) then [s[0]] + Retain(s[1..], keep)
    else Retain(s[1..], keep)
  }

  lemma {:induction false} RetainMembers<T>(s: seq<T>, keep: T -> bool)
    ensures forall x :: x in Retain(s, keep) <==> x in s && keep(x)
  {
    if s != [] {
      RetainMembers(s[1..], keep);
      assert s == [s[0]] + s[1..];
    }
  }

  lemma {:induction false} RetainConcat<T>(a: seq<T>, b: seq<T>, keep: T -> bool)
    ensures Retain(a + b, keep) == Retain(a, keep) + Retain(b, keep)
  {
    if a == [] {
      assert a + b == b;
    } else {
      RetainConcat(a[1..], b, keep);
      assert (a + b)[0] == a[0] && (a + b)[1..] == a[1..] + b;
      var head := if keep(a[0]) then [a[0]] else [];
      assert head + (Retain(a[1..], keep) + Retain(b, keep)) == (head + Retain(a[1..], keep)) + Retain(b, keep);
    }
  }

  lemma {:induction false} RetainAll<T>(s: seq<T>, keep: T -> bool)
    requires forall x | x in s :: keep(x)
    ensures Retain(s, keep) == s
  {
    if s != [] {
      RetainAll(s[1..], keep);
    }
  }

  /** A kept last element stays last. */
  lemma RetainLast<T>(s: seq<T>, keep: T -> bool)
    requires s != [] && keep(s[|s| - 1])
    ensures Retain(s, keep) != []
    ensures Retain(s, keep)[|Retain(s, keep)| - 1] == s[|s| - 1]
  {
    var init, last := s[..|s| - 1], [s[|s| - 1]];
    assert s == init + last;
    RetainConcat(init, last, keep);
    RetainAll(last, keep);
  }

  lemma {:induction false} RetainRetain<T>(s: seq<T>, p: T -> bool, q: T -> bool)
    requires forall x | x in s && q(x) :: p(x)
    ensures Retain(Retain(s, p), q) == Retain(s, q)
  {
    if s != [] {
      RetainRetain(s[1..], p, q);
      RetainConcat(if p(s[0]) then [s[0]] else [], Retain(s[1..], p), q);
    }
  }
}
