/**
 Compute-budget requests inside instruction lists: what the executor takes out of a route
 (src/solana/executor.rs) and what the adapters put in (src/solana/sources/mod.rs).
 */
module ComputeBudget {
  import opened Types
  import opened Bytes
  import opened SolanaTypes
  import opened Transactions

  const CU_LIMIT_MAX: u32 := 1_400_000
  const DEFAULT_CU_LIMIT: u32 := 350_000
  const MAX_LOADED_ACCOUNTS_DATA_SIZE: u32 := 67_108_864

  datatype RequestedBudget = RequestedBudget(
    computeUnitLimit: Option<u32>,
    loadedAccountsDataSizeLimit: Option<u32>,
    heapSize: Option<u32>
  ) {
    function HeaderConfig(computeUnitLimit: u32, priorityFeeLamports: u64): V1Config {
      V1Config(
        if priorityFeeLamports > 0 then Some(priorityFeeLamports) else None,
        computeUnitLimit,
        loadedAccountsDataSizeLimit.GetOr(MAX_LOADED_ACCOUNTS_DATA_SIZE),
        heapSize)
    }
  }

  predicate IsBudget(i: Instruction) { i.program == COMPUTE_BUDGET_PROGRAM }

  predicate NotBudget(i: Instruction) { !IsBudget(i) }

  predicate IsComputeUnitLimit(i: Instruction) {
    IsBudget(i) && i.data != [] && i.data[0] == SET_COMPUTE_UNIT_LIMIT
  }

  predicate NotComputeUnitLimit(i: Instruction) { !IsComputeUnitLimit(i) }

  function U32FromLe(bytes: seq<byte>): u32
    requires |bytes| == 4
  {
    LeInverse(bytes);
    Widths();
    FromLe(bytes)
  }

  /** The value of a compute-unit limit request, if it is one the executor accepts. */
  function LimitOf(i: Instruction): Result<u32>
    requires IsComputeUnitLimit(i)
  {
    if |i.data| != 5 then Err(BuildError)
    else
      var limit := U32FromLe(i.data[1..]);
      if 1 <= limit <= CU_LIMIT_MAX && i.accounts == [] then Ok(limit) else Err(BuildError)
  }

  /** Scans for compute-unit limits after those already found. */
  function ScanLimits(instructions: seq<Instruction>, requested: Option<u32>): Result<Option<u32>>
    decreases |instructions|
  {
    if instructions == [] then Ok(requested)
    else if !IsComputeUnitLimit(instructions[0]) then ScanLimits(instructions[1..], requested)
    else
      var limit :- LimitOf(instructions[0]);
      if requested.Some? then Err(BuildError) else ScanLimits(instructions[1..], Some(limit))
  }

  /** Tag and value of a five-byte budget request. */
  function BudgetValue(i: Instruction): Result<(byte, u32)> {
    if |i.data| != 5 then Err(BuildError) else Ok((i.data[0], U32FromLe(i.data[1..])))
  }

  /** Records one heap or loaded-size request; anything else, or a second one, is refused. */
  function Record(budget: RequestedBudget, i: Instruction): Result<RequestedBudget> {
    var (tag, value) :- BudgetValue(i);
    if tag == REQUEST_HEAP_FRAME then
      if budget.heapSize.Some? then Err(BuildError) else Ok(budget.(heapSize := Some(value)))
    else if tag == SET_LOADED_ACCOUNTS_DATA_SIZE_LIMIT then
      if budget.loadedAccountsDataSizeLimit.Some? then Err(BuildError)
      else Ok(budget.(loadedAccountsDataSizeLimit := Some(value)))
    else Err(BuildError)
  }

  function ScanFields(instructions: seq<Instruction>, budget: RequestedBudget): Result<RequestedBudget>
    decreases |instructions|
  {
    if instructions == [] then Ok(budget)
    else if NotBudget(instructions[0]) then ScanFields(instructions[1..], budget)
    else
      var next :- Record(budget, instructions[0]);
      ScanFields(instructions[1..], next)
  }

  /** The requests a route makes, and the route without the instructions that carried them. */
  function TakeFrom(instructions: seq<Instruction>, format: TransactionFormat)
    : Result<(RequestedBudget, seq<Instruction>)>
  {
    var limit :- ScanLimits(instructions, None);
    var rest := Retain(instructions, NotComputeUnitLimit);
    var budget := RequestedBudget(limit, None, None);
    if format.V0? then Ok((budget, rest))
    else
      var full :- ScanFields(rest, budget);
      Ok((full, Retain(rest, NotBudget)))
  }

  /** The instruction list of one route, edited in place on its way into a transaction. */
  class Route {
    var instructions: seq<Instruction>
    const format: TransactionFormat

    constructor (instructions: seq<Instruction>, format: TransactionFormat)
      ensures this.instructions == instructions && this.format == format
    {
      this.instructions, this.format := instructions, format;
    }

    method TakeComputeUnitLimit() returns (r: Result<Option<u32>>)
      modifies this`instructions
      ensures r == ScanLimits(old(instructions), None)
      ensures instructions
           == if r.Ok? then Retain(old(instructions), NotComputeUnitLimit) else old(instructions)
    {
      var requested: Option<u32> := None;
      for k := 0 to |instructions|
        invariant instructions == old(instructions)
        invariant ScanLimits(instructions, None) == ScanLimits(instructions[k..], requested)
      {
        var instruction := instructions[k];
        assert instructions[k..][0] == instruction && instructions[k..][1..] == instructions[k + 1..];
        if IsComputeUnitLimit(instruction) {
          var bytes := instruction.data[1..];
          if |bytes| != 4 {
            return Err(BuildError);
          }
          var limit := U32FromLe(bytes);
          if requested.Some? || !(1 <= limit <= CU_LIMIT_MAX) || instruction.accounts != [] {
            return Err(BuildError);
          }
          requested := Some(limit);
        }
      }
      instructions := Retain(instructions, NotComputeUnitLimit);
      return Ok(requested);
    }

    method Take() returns (r: Result<RequestedBudget>)
      modifies this`instructions
      ensures var spec := TakeFrom(old(instructions), format);
              && (r.Ok? <==> spec.Ok?)
              && (r.Ok? ==> r.value == spec.value.0 && instructions == spec.value.1)
              && (r.Err? ==> r.error == spec.error)
    {
      var limit := TakeComputeUnitLimit();
      if limit.Err? {
        return Err(limit.error);
      }
      var budget := RequestedBudget(limit.value, None, None);
      if format.V0? {
        return Ok(budget);
      }
      for k := 0 to |instructions|
        invariant instructions == Retain(old(instructions), NotComputeUnitLimit)
        invariant ScanFields(instructions, RequestedBudget(limit.value, None, None))
               == ScanFields(instructions[k..], budget)
      {
        var instruction := instructions[k];
        assert instructions[k..][0] == instruction && instructions[k..][1..] == instructions[k + 1..];
        if instruction.program == COMPUTE_BUDGET_PROGRAM {
          var request := BudgetValue(instruction);
          if request.Err? {
            return Err(request.error);
          }
          var (tag, value) := request.value;
          if tag == REQUEST_HEAP_FRAME && budget.heapSize.None? {
            budget := budget.(heapSize := Some(value));
          } else if tag == SET_LOADED_ACCOUNTS_DATA_SIZE_LIMIT && budget.loadedAccountsDataSizeLimit.None? {
            budget := budget.(loadedAccountsDataSizeLimit := Some(value));
          } else {
            return Err(BuildError);
          }
        }
      }
      instructions := Retain(instructions, NotBudget);
      return Ok(budget);
    }
  }

  // ---- when taking succeeds

  /** A budget instruction the executor can read in a V1 route. */
  predicate WellFormed(i: Instruction) {
    && |i.data| == 5
    && (i.data[0] == REQUEST_HEAP_FRAME || i.data[0] == SET_LOADED_ACCOUNTS_DATA_SIZE_LIMIT
        || (i.data[0] == SET_COMPUTE_UNIT_LIMIT && IsBudget(i) && LimitOf(i).Ok?))
  }

  /** How often a field is requested. */
  function Requests(instructions: seq<Instruction>, tag: byte): nat {
    if instructions == [] then 0
    else
      (if IsBudget(instructions[0]) && instructions[0].data != [] && instructions[0].data[0] == tag then 1 else 0)
      + Requests(instructions[1..], tag)
  }

  function Slot(field: Option<u32>): nat { if field.Some? then 1 else 0 }

  lemma {:induction false} LimitsScanExactly(instructions: seq<Instruction>, requested: Option<u32>)
    requires forall i | i in instructions && IsComputeUnitLimit(i) :: LimitOf(i).Ok?
    ensures var r := ScanLimits(instructions, requested);
            var total := Slot(requested) + Requests(instructions, SET_COMPUTE_UNIT_LIMIT);
            && (r.Ok? <==> total <= 1)
            && (r.Ok? ==> Slot(r.value) == total)
    decreases |instructions|
  {
    if instructions != [] {
      var first := instructions[0];
      if !IsComputeUnitLimit(first) {
        LimitsScanExactly(instructions[1..], requested);
      } else if requested.None? {
        LimitsScanExactly(instructions[1..], Some(LimitOf(first).value));
      }
    }
  }

  lemma {:induction false} FieldsScanExactly(instructions: seq<Instruction>, budget: RequestedBudget)
    requires forall i | i in instructions && IsBudget(i) :: WellFormed(i) && !IsComputeUnitLimit(i)
    ensures var r := ScanFields(instructions, budget);
            var heaps := Slot(budget.heapSize) + Requests(instructions, REQUEST_HEAP_FRAME);
            var sizes := Slot(budget.loadedAccountsDataSizeLimit)
                       + Requests(instructions, SET_LOADED_ACCOUNTS_DATA_SIZE_LIMIT);
            && (r.Ok? <==> heaps <= 1 && sizes <= 1)
            && (r.Ok? ==> r.value.computeUnitLimit == budget.computeUnitLimit)
    decreases |instructions|
  {
    if instructions != [] {
      var first := instructions[0];
      if NotBudget(first) {
        FieldsScanExactly(instructions[1..], budget);
      } else {
        assert WellFormed(first) && !IsComputeUnitLimit(first);
        var next := Record(budget, first);
        if next.Ok? {
          FieldsScanExactly(instructions[1..], next.value);
        }
      }
    }
  }

  lemma {:induction false} RequestsWithoutLimits(instructions: seq<Instruction>, tag: byte)
    requires tag != SET_COMPUTE_UNIT_LIMIT
    ensures Requests(Retain(instructions, NotComputeUnitLimit), tag) == Requests(instructions, tag)
  {
    if instructions != [] {
      RequestsWithoutLimits(instructions[1..], tag);
      var rest := Retain(instructions[1..], NotComputeUnitLimit);
      assert ([instructions[0]] + rest)[1..] == rest;
    }
  }

  /** On readable budget instructions a V1 route is refused exactly when it requests a field twice. */
  lemma TakeFailsExactlyOnDuplicates(instructions: seq<Instruction>)
    requires forall i | i in instructions && IsBudget(i) :: WellFormed(i)
    ensures TakeFrom(instructions, V1).Ok?
       <==> && Requests(instructions, SET_COMPUTE_UNIT_LIMIT) <= 1
            && Requests(instructions, REQUEST_HEAP_FRAME) <= 1
            && Requests(instructions, SET_LOADED_ACCOUNTS_DATA_SIZE_LIMIT) <= 1
    ensures TakeFrom(instructions, V0).Ok? <==> Requests(instructions, SET_COMPUTE_UNIT_LIMIT) <= 1
  {
    forall i | i in instructions && IsComputeUnitLimit(i)
      ensures LimitOf(i).Ok?
    {
      assert WellFormed(i);
    }
    LimitsScanExactly(instructions, None);
    var rest := Retain(instructions, NotComputeUnitLimit);
    RetainMembers(instructions, NotComputeUnitLimit);
    RequestsWithoutLimits(instructions, REQUEST_HEAP_FRAME);
    RequestsWithoutLimits(instructions, SET_LOADED_ACCOUNTS_DATA_SIZE_LIMIT);
    var limit := ScanLimits(instructions, None);
    if limit.Ok? {
      FieldsScanExactly(rest, RequestedBudget(limit.value, None, None));
    }
  }

  /** A budget request for a field, with its value read from the bytes. */
  predicate Reads(i: Instruction, tag: byte, value: u32) {
    IsBudget(i) && |i.data| == 5 && i.data[0] == tag && FromLe(i.data[1..]) == value
  }

  /** The list asks for the field just once, for this value, or not at all. */
  ghost predicate AsksOnce(instructions: seq<Instruction>, tag: byte, field: Option<u32>) {
    match field
    case None => Requests(instructions, tag) == 0
    case Some(value) => Requests(instructions, tag) == 1 && exists i :: i in instructions && Reads(i, tag, value)
  }

  lemma AsksOnceCons(first: Instruction, rest: seq<Instruction>, tag: byte, field: Option<u32>)
    ensures Requests([first] + rest, tag) == Requests([first], tag) + Requests(rest, tag)
    ensures Requests([first], tag) == 0 && AsksOnce(rest, tag, field) ==> AsksOnce([first] + rest, tag, field)
    ensures field.Some? && Reads(first, tag, field.value) && Requests(rest, tag) == 0 ==>
      AsksOnce([first] + rest, tag, field)
  {
    assert ([first] + rest)[1..] == rest && [first][1..] == [];
    assert first in [first] + rest;
    if field.Some? && AsksOnce(rest, tag, field) {
      var i :| i in rest && Reads(i, tag, field.value);
      assert i in [first] + rest;
    }
  }

  lemma {:induction false} LimitsRead(instructions: seq<Instruction>, requested: Option<u32>)
    requires ScanLimits(instructions, requested).Ok?
    ensures var limit := ScanLimits(instructions, requested).value;
            if requested.Some? then limit == requested && Requests(instructions, SET_COMPUTE_UNIT_LIMIT) == 0
            else AsksOnce(instructions, SET_COMPUTE_UNIT_LIMIT, limit)
    decreases |instructions|
  {
    if instructions != [] {
      var first, rest := instructions[0], instructions[1..];
      assert instructions == [first] + rest;
      AsksOnceCons(first, rest, SET_COMPUTE_UNIT_LIMIT, ScanLimits(instructions, requested).value);
      LimitsRead(rest, if IsComputeUnitLimit(first) then Some(LimitOf(first).value) else requested);
    }
  }

  /** A field already recorded is not asked for again; an open one is asked for as recorded. */
  ghost predicate FieldRead(instructions: seq<Instruction>, tag: byte, before: Option<u32>, after: Option<u32>) {
    if before.Some? then after == before && Requests(instructions, tag) == 0 else AsksOnce(instructions, tag, after)
  }

  lemma {:induction false} FieldsRead(instructions: seq<Instruction>, budget: RequestedBudget)
    requires ScanFields(instructions, budget).Ok?
    ensures var full := ScanFields(instructions, budget).value;
            && FieldRead(instructions, REQUEST_HEAP_FRAME, budget.heapSize, full.heapSize)
            && FieldRead(instructions, SET_LOADED_ACCOUNTS_DATA_SIZE_LIMIT, budget.loadedAccountsDataSizeLimit,
                         full.loadedAccountsDataSizeLimit)
    decreases |instructions|
  {
    if instructions != [] {
      var first, rest := instructions[0], instructions[1..];
      var full := ScanFields(instructions, budget).value;
      assert instructions == [first] + rest;
      AsksOnceCons(first, rest, REQUEST_HEAP_FRAME, full.heapSize);
      AsksOnceCons(first, rest, SET_LOADED_ACCOUNTS_DATA_SIZE_LIMIT, full.loadedAccountsDataSizeLimit);
      FieldsRead(rest, if IsBudget(first) then Record(budget, first).value else budget);
    }
  }

  lemma AsksOnceWithoutLimits(instructions: seq<Instruction>, tag: byte, field: Option<u32>)
    requires tag != SET_COMPUTE_UNIT_LIMIT && AsksOnce(Retain(instructions, NotComputeUnitLimit), tag, field)
    ensures AsksOnce(instructions, tag, field)
  {
    RequestsWithoutLimits(instructions, tag);
    RetainMembers(instructions, NotComputeUnitLimit);
    if field.Some? {
      var i :| i in Retain(instructions, NotComputeUnitLimit) && Reads(i, tag, field.value);
    }
  }

  /**
   What is taken is what the bytes of the route ask for, each field once: the compute-unit limit in
   either format, the others in V1 only; the instructions that asked are gone and the rest remain.
   */
  lemma TakenIsAskedFor(instructions: seq<Instruction>, format: TransactionFormat)
    requires TakeFrom(instructions, format).Ok?
    ensures var (budget, rest) := TakeFrom(instructions, format).value;
            && AsksOnce(instructions, SET_COMPUTE_UNIT_LIMIT, budget.computeUnitLimit)
            && (if format.V0? then budget.heapSize.None? && budget.loadedAccountsDataSizeLimit.None?
                else && AsksOnce(instructions, REQUEST_HEAP_FRAME, budget.heapSize)
                     && AsksOnce(instructions, SET_LOADED_ACCOUNTS_DATA_SIZE_LIMIT, budget.loadedAccountsDataSizeLimit))
            && (forall i :: i in rest <==>
                  && i in instructions
                  && !(if format.V0? then IsBudget(i) && i.data != [] && i.data[0] == 2 else IsBudget(i)))
  {
    LimitsRead(instructions, None);
    RetainMembers(instructions, NotComputeUnitLimit);
    if format.V1? {
      var left := Retain(instructions, NotComputeUnitLimit);
      var budget := RequestedBudget(ScanLimits(instructions, None).value, None, None);
      FieldsKeepLimit(left, budget);
      FieldsRead(left, budget);
      RetainMembers(left, NotBudget);
      var full := ScanFields(left, budget).value;
      AsksOnceWithoutLimits(instructions, REQUEST_HEAP_FRAME, full.heapSize);
      AsksOnceWithoutLimits(instructions, SET_LOADED_ACCOUNTS_DATA_SIZE_LIMIT, full.loadedAccountsDataSizeLimit);
    }
  }

  // ---- the round trip

  /** The settings a provider may ask for beside its route; absent ones are left to the executor. */
  datatype TransactionConfig = TransactionConfig(
    computeUnitLimit: Option<u32>,
    loadedAccountsDataSizeLimit: Option<u32>,
    heapSize: Option<u32>,
    priorityFee: Option<u64>
  )

  function Encoded(tag: byte, field: Option<u32>): seq<Instruction> {
    if field.Some? then [BudgetInstruction(tag, field.value)] else []
  }

  /** The settings as budget instructions, refused when out of range. */
  function ConfigInstructions(config: TransactionConfig): Result<seq<Instruction>> {
    if config.computeUnitLimit.Some? && !(1 <= config.computeUnitLimit.value <= 1_400_000) then Err(DecodeError)
    else if config.loadedAccountsDataSizeLimit.Some? && !(1 <= config.loadedAccountsDataSizeLimit.value <= 67_108_864)
    then Err(DecodeError)
    else if config.priorityFee.Some? && config.priorityFee.value != 0 then Err(DecodeError)
    else if config.heapSize.Some? && (!(32_768 <= config.heapSize.value <= 262_144) || config.heapSize.value % 1024 != 0)
    then Err(DecodeError)
    else
      Ok(Encoded(SET_COMPUTE_UNIT_LIMIT, config.computeUnitLimit)
         + Encoded(SET_LOADED_ACCOUNTS_DATA_SIZE_LIMIT, config.loadedAccountsDataSizeLimit)
         + Encoded(REQUEST_HEAP_FRAME, config.heapSize))
  }

  /** Every setting is absent or in the range the runtime takes; a provider may not set the fee. */
  lemma ConfigAcceptedExactly(config: TransactionConfig)
    ensures ConfigInstructions(config).Ok?
       <==> && 1 <= config.computeUnitLimit.GetOr(1) <= 1_400_000
            && 1 <= config.loadedAccountsDataSizeLimit.GetOr(1) <= 64 * 1024 * 1024
            && config.priorityFee.GetOr(0) == 0
            && 32 * 1024 <= config.heapSize.GetOr(32 * 1024) <= 256 * 1024
            && config.heapSize.GetOr(0) % 1024 == 0
  {
  }

  lemma {:induction false} LimitsSeeOnlyBudget(instructions: seq<Instruction>, requested: Option<u32>)
    ensures ScanLimits(Retain(instructions, IsBudget), requested) == ScanLimits(instructions, requested)
    decreases |instructions|
  {
    if instructions != [] {
      var first, tail := instructions[0], Retain(instructions[1..], IsBudget);
      assert ([first] + tail)[1..] == tail;
      LimitsSeeOnlyBudget(instructions[1..], requested);
      if IsComputeUnitLimit(first) && LimitOf(first).Ok? {
        LimitsSeeOnlyBudget(instructions[1..], Some(LimitOf(first).value));
      }
    }
  }

  lemma {:induction false} FieldsSeeOnlyBudget(instructions: seq<Instruction>, budget: RequestedBudget)
    ensures ScanFields(Retain(instructions, IsBudget), budget) == ScanFields(instructions, budget)
    decreases |instructions|
  {
    if instructions != [] {
      var first, tail := instructions[0], Retain(instructions[1..], IsBudget);
      assert ([first] + tail)[1..] == tail;
      if NotBudget(first) {
        FieldsSeeOnlyBudget(instructions[1..], budget);
      } else if Record(budget, first).Ok? {
        FieldsSeeOnlyBudget(instructions[1..], Record(budget, first).value);
      }
    }
  }

  lemma {:induction false} RetainCommutes<T>(s: seq<T>, p: T -> bool, q: T -> bool)
    ensures Retain(Retain(s, p), q) == Retain(Retain(s, q), p)
  {
    if s != [] {
      RetainCommutes(s[1..], p, q);
      var ps, qs := Retain(s[1..], p), Retain(s[1..], q);
      assert ([s[0]] + ps)[1..] == ps && ([s[0]] + qs)[1..] == qs;
    }
  }

  /** The value in an encoded request reads back. */
  lemma BudgetValueRoundTrip(tag: byte, value: u32)
    ensures var i := BudgetInstruction(tag, value);
            && IsBudget(i) && i.accounts == [] && |i.data| == 5 && i.data[0] == tag
            && U32FromLe(i.data[1..]) == value
  {
    var i := BudgetInstruction(tag, value);
    assert i.data[1..] == ToLe(value, 4);
    Widths();
    LeRoundTrip(value, 4);
  }

  lemma EncodedLimitScans(field: Option<u32>, rest: seq<Instruction>)
    requires field.Some? ==> 1 <= field.value <= CU_LIMIT_MAX
    requires forall i | i in rest :: !IsComputeUnitLimit(i)
    ensures ScanLimits(Encoded(SET_COMPUTE_UNIT_LIMIT, field) + rest, None) == Ok(field)
    ensures Retain(Encoded(SET_COMPUTE_UNIT_LIMIT, field) + rest, NotComputeUnitLimit) == rest
  {
    RetainAll(rest, NotComputeUnitLimit);
    NoLimitsToScan(rest, field);
    if field.Some? {
      BudgetValueRoundTrip(SET_COMPUTE_UNIT_LIMIT, field.value);
      assert (Encoded(SET_COMPUTE_UNIT_LIMIT, field) + rest)[1..] == rest;
    } else {
      assert Encoded(SET_COMPUTE_UNIT_LIMIT, field) + rest == rest;
    }
  }

  lemma {:induction false} NoLimitsToScan(instructions: seq<Instruction>, requested: Option<u32>)
    requires forall i | i in instructions :: !IsComputeUnitLimit(i)
    ensures ScanLimits(instructions, requested) == Ok(requested)
    decreases |instructions|
  {
    if instructions != [] {
      NoLimitsToScan(instructions[1..], requested);
    }
  }

  lemma EncodedFieldsScan(size: Option<u32>, heap: Option<u32>, budget: RequestedBudget)
    requires budget.loadedAccountsDataSizeLimit.None? && budget.heapSize.None?
    ensures ScanFields(Encoded(SET_LOADED_ACCOUNTS_DATA_SIZE_LIMIT, size) + Encoded(REQUEST_HEAP_FRAME, heap), budget)
         == Ok(budget.(loadedAccountsDataSizeLimit := size, heapSize := heap))
  {
    var sizes, heaps := Encoded(SET_LOADED_ACCOUNTS_DATA_SIZE_LIMIT, size), Encoded(REQUEST_HEAP_FRAME, heap);
    var sized := budget.(loadedAccountsDataSizeLimit := size);
    if heap.Some? {
      BudgetValueRoundTrip(REQUEST_HEAP_FRAME, heap.value);
      assert heaps[1..] == [];
      assert ScanFields(heaps[1..], sized.(heapSize := heap)) == Ok(sized.(heapSize := heap));
    }
    assert ScanFields(heaps, sized) == Ok(sized.(heapSize := heap));
    if size.Some? {
      BudgetValueRoundTrip(SET_LOADED_ACCOUNTS_DATA_SIZE_LIMIT, size.value);
      assert (sizes + heaps)[1..] == heaps;
    } else {
      assert sizes + heaps == heaps;
    }
  }

  /**
   Wherever the encoded settings stand in a route, V1 takes back exactly those settings and
   leaves exactly the route's own instructions, in their order.
   */
  lemma BudgetRoundTrip(config: TransactionConfig, instructions: seq<Instruction>, route: seq<Instruction>)
    requires ConfigInstructions(config).Ok?
    requires Retain(instructions, IsBudget) == ConfigInstructions(config).value
    requires Retain(instructions, NotBudget) == route
    ensures TakeFrom(instructions, V1)
         == Ok((RequestedBudget(config.computeUnitLimit, config.loadedAccountsDataSizeLimit, config.heapSize), route))
  {
    var limits := Encoded(SET_COMPUTE_UNIT_LIMIT, config.computeUnitLimit);
    var fields := Encoded(SET_LOADED_ACCOUNTS_DATA_SIZE_LIMIT, config.loadedAccountsDataSizeLimit)
                + Encoded(REQUEST_HEAP_FRAME, config.heapSize);
    assert ConfigInstructions(config).value == limits + fields;
    LimitsSeeOnlyBudget(instructions, None);
    EncodedLimitScans(config.computeUnitLimit, fields);
    var rest := Retain(instructions, NotComputeUnitLimit);
    FieldsSeeOnlyBudget(rest, RequestedBudget(config.computeUnitLimit, None, None));
    RetainCommutes(instructions, NotComputeUnitLimit, IsBudget);
    EncodedFieldsScan(config.loadedAccountsDataSizeLimit, config.heapSize,
                      RequestedBudget(config.computeUnitLimit, None, None));
    RetainRetain(instructions, NotComputeUnitLimit, NotBudget);
  }

  /** Encoded settings put before or after a route without budget requests of its own. */
  lemma BudgetRoundTripAtEitherEnd(config: TransactionConfig, route: seq<Instruction>)
    requires ConfigInstructions(config).Ok?
    requires forall i | i in route :: NotBudget(i)
    ensures var encoded := ConfigInstructions(config).value;
            var taken := Ok((RequestedBudget(config.computeUnitLimit, config.loadedAccountsDataSizeLimit,
                                             config.heapSize), route));
            TakeFrom(encoded + route, V1) == taken && TakeFrom(route + encoded, V1) == taken
  {
    var encoded := ConfigInstructions(config).value;
    RetainAll(route, NotBudget);
    NothingRetained(route, IsBudget);
    RetainAll(encoded, IsBudget);
    NothingRetained(encoded, NotBudget);
    RetainConcat(encoded, route, IsBudget);
    RetainConcat(encoded, route, NotBudget);
    RetainConcat(route, encoded, IsBudget);
    RetainConcat(route, encoded, NotBudget);
    BudgetRoundTrip(config, encoded + route, route);
    BudgetRoundTrip(config, route + encoded, route);
  }

  lemma {:induction false} NothingRetained<T>(s: seq<T>, keep: T -> bool)
    requires forall x | x in s :: !keep(x)
    ensures Retain(s, keep) == []
  {
    if s != [] {
      NothingRetained(s[1..], keep);
    }
  }

  // ---- the final limit

  /** Simulated units with headroom, clamped; the default without an estimate; at least the request. */
  function ComputeUnitLimit(scaledUnits: Option<u32>, budget: RequestedBudget): u32 {
    var base := if scaledUnits.Some? then Max(1, Min(scaledUnits.value, CU_LIMIT_MAX)) else DEFAULT_CU_LIMIT;
    Max(base, budget.computeUnitLimit.GetOr(0))
  }

  lemma {:induction false} ScannedLimitInRange(instructions: seq<Instruction>, requested: Option<u32>)
    requires requested.Some? ==> 1 <= requested.value <= CU_LIMIT_MAX
    ensures var r := ScanLimits(instructions, requested);
            r.Ok? && r.value.Some? ==> 1 <= r.value.value <= CU_LIMIT_MAX
    decreases |instructions|
  {
    if instructions != [] {
      ScannedLimitInRange(instructions[1..], requested);
      if IsComputeUnitLimit(instructions[0]) && LimitOf(instructions[0]).Ok? {
        ScannedLimitInRange(instructions[1..], Some(LimitOf(instructions[0]).value));
      }
    }
  }

  lemma {:induction false} FieldsKeepLimit(instructions: seq<Instruction>, budget: RequestedBudget)
    ensures ScanFields(instructions, budget).Ok? ==>
              ScanFields(instructions, budget).value.computeUnitLimit == budget.computeUnitLimit
    decreases |instructions|
  {
    if instructions != [] {
      FieldsKeepLimit(instructions[1..], budget);
      if IsBudget(instructions[0]) && Record(budget, instructions[0]).Ok? {
        FieldsKeepLimit(instructions[1..], Record(budget, instructions[0]).value);
      }
    }
  }

  /** Whatever was simulated, the limit built in lies in range and covers the request. */
  lemma LimitCoversRequest(instructions: seq<Instruction>, format: TransactionFormat, scaledUnits: Option<u32>)
    requires TakeFrom(instructions, format).Ok?
    ensures var budget := TakeFrom(instructions, format).value.0;
            var limit := ComputeUnitLimit(scaledUnits, budget);
            && 1 <= limit <= CU_LIMIT_MAX
            && (budget.computeUnitLimit.Some? ==> budget.computeUnitLimit.value <= limit)
            && (scaledUnits.Some? && scaledUnits.value <= CU_LIMIT_MAX ==> scaledUnits.value <= limit)
  {
    ScannedLimitInRange(instructions, None);
    FieldsKeepLimit(Retain(instructions, NotComputeUnitLimit),
                    RequestedBudget(ScanLimits(instructions, None).value, None, None));
  }

  /** No smaller limit would do: it is the request, the estimate within range, or the default for want of one. */
  lemma LimitIsLeast(scaledUnits: Option<u32>, budget: RequestedBudget)
    ensures var limit := ComputeUnitLimit(scaledUnits, budget);
            && (scaledUnits.None? ==> limit >= 350_000)
            && (scaledUnits.Some? && scaledUnits.value > 1_400_000 ==> limit >= 1_400_000)
            && (|| Some(limit) == budget.computeUnitLimit
                || Some(limit) == scaledUnits
                || (limit == 350_000 && scaledUnits.None?)
                || (limit == 1_400_000 && scaledUnits.Some? && scaledUnits.value > 1_400_000)
                || (limit == 1 && scaledUnits == Some(0)))
  {
  }
}
