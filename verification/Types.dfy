/** Fixed-width integers and the error type shared by both chains. */
module Types {

  const U16_LIMIT: int := 0x1_0000
  const U32_LIMIT: int := 0x1_0000_0000
  const U64_LIMIT: int := 0x1_0000_0000_0000_0000
  const U128_LIMIT: int := 0x1_0000_0000_0000_0000_0000_0000_0000_0000
  const U256_LIMIT: int :=
    0x1_0000_0000_0000_0000_0000_0000_0000_0000_0000_0000_0000_0000_0000_0000_0000_0000

  type byte = x: int | 0 <= x < 256
  type u16 = x: int | 0 <= x < U16_LIMIT
  type u32 = x: int | 0 <= x < U32_LIMIT
  type u64 = x: int | 0 <= x < U64_LIMIT
  type u128 = x: int | 0 <= x < U128_LIMIT
  type u256 = x: int | 0 <= x < U256_LIMIT

  /** A basis point is one ten-thousandth. */
  const BASIS_POINTS: int := 10_000

  /** `as u64` on a wider unsigned value, and release-mode u64 addition. */
  function Wrap64(x: nat): u64 { x % 0x1_0000_0000_0000_0000 }

  /** Arithmetic on 256-bit amounts wraps around. */
  function Wrap256(x: nat): u256 {
    x % 0x1_0000_0000_0000_0000_0000_0000_0000_0000_0000_0000_0000_0000_0000_0000_0000_0000
  }

  lemma Wrap64Identity(x: nat)
    requires x < U64_LIMIT
    ensures Wrap64(x) == x
  {
  }

  /** Wrapping keeps a value exactly while it fits. */
  lemma WrapExactly(x: nat)
    ensures Wrap64(x) == x <==> x < U64_LIMIT
  {
  }

  /** Terms may be wrapped before they are added. */
  lemma WrapSum(a: nat, b: nat)
    ensures Wrap64(Wrap64(a) + Wrap64(b)) == Wrap64(a + b)
  {
    var whole := a / 0x1_0000_0000_0000_0000 + b / 0x1_0000_0000_0000_0000;
    assert a + b == whole * 0x1_0000_0000_0000_0000 + (Wrap64(a) + Wrap64(b));
  }

  lemma WrapShrinks(x: nat)
    ensures Wrap64(x) <= x
  {
  }

  lemma Wrap256Identity(x: nat)
    requires x < U256_LIMIT
    ensures Wrap256(x) == x
  {
  }

  datatype Option<+T> = None | Some(value: T) {
    function GetOr(default: T): T {
      if Some? then value else default
    }
  }

  datatype Error =
    | BuildError | DecodeError | SignError | SubmitError | RpcError | SimulationError | VenueError

  datatype Result<+T> = Ok(value: T) | Err(error: Error) {
    predicate IsFailure() { Err? }

    function PropagateFailure<U>(): Result<U>
      requires Err?
    {
      Err(error)
    }

    function Extract(): T
      requires Ok?
    {
      value
    }
  }

  function Min(a: int, b: int): int { if a <= b then a else b }

  function Max(a: int, b: int): int { if a >= b then a else b }

  function SaturatingSub(a: nat, b: nat): nat { if a >= b then a - b else 0 }
}
