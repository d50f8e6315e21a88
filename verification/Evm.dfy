/** What the Solidity 0.8.13 runtime contributes to every contract: integer widths,
    checked arithmetic and transactions that revert as a whole. */
module Evm {
  import opened Floors

  const U32: nat := 0x1_0000_0000
  const U96: nat := 0x1_0000_0000_0000_0000_0000_0000
  const U128: nat := 0x1_0000_0000_0000_0000_0000_0000_0000_0000
  const U224: nat := 0x1_0000_0000_0000_0000_0000_0000_0000_0000_0000_0000_0000_0000_0000_0000
  const INT256_LIMIT: nat := 0x8000_0000_0000_0000_0000_0000_0000_0000_0000_0000_0000_0000_0000_0000_0000_0000
  const U256: nat := 0x1_0000_0000_0000_0000_0000_0000_0000_0000_0000_0000_0000_0000_0000_0000_0000_0000

  /** The widths of the integer types are powers of two. */
  lemma WidthsArePowers()
    ensures U32 == Pow(2, 32) && U96 == Pow(2, 96) && U128 == Pow(2, 128) && U224 == Pow(2, 224)
    ensures U256 == Pow(2, 256) && INT256_LIMIT == Pow(2, 255)
  {
    assert Pow(2, 4) == 16;
    PowerOfSum(2, 4, 16, 4, 16);
    PowerOfSum(2, 8, 0x100, 8, 0x100);
    PowerOfSum(2, 16, 0x1_0000, 16, 0x1_0000);
    PowerOfSum(2, 32, U32, 32, U32);
    PowerOfSum(2, 64, U32 * U32, 32, U32);
    PowerOfSum(2, 64, U32 * U32, 64, U32 * U32);
    PowerOfSum(2, 128, U128, 96, U96);
    PowerOfSum(2, 128, U128, 128, U128);
    assert Pow(2, 256) == 2 * Pow(2, 255);
  }

  /** Why a call reverted. `Panic` is the compiler's own check (overflow, underflow or a
      zero divisor); every other case is one `require` of the sources. */
  datatype Error =
    | Panic
    | Unauthorized
    | ZeroAddress
    | InsufficientBalance
    | NotMinter
    // Vcon
    | AmountExceeds96Bits
    | SupplyExceeds96Bits
    | BlockExceeds32Bits
    | AllowanceExceeded
    | VoteUnderflow
    | NotYetDetermined
    // RateLimited, RateLimitedV2
    | CastOverflow
    | RateTooHigh
    | NoBuffer
    | RateLimitHit
    // VoltSystemOracle
    | NotPastEndTime
    // PegStabilityModule, PriceBoundPSM
    | Paused
    | FeeTooHigh
    | InvalidBound
    | PriceOutOfBounds
    | NotEnoughOut
    | NoSurplus
    | InvalidThreshold

  datatype Result<+T> = Ok(value: T) | Revert(error: Error) {
    predicate IsFailure() {
      Revert?
    }

    function PropagateFailure<U>(): Result<U>
      requires Revert?
    {
      Revert(error)
    }

    function Extract(): T
      requires Ok?
    {
      value
    }
  }

  function Require(condition: bool, error: Error): Result<()> {
    if condition then Ok(()) else Revert(error)
  }

  function CheckedAdd(a: nat, b: nat): Result<nat> {
    if a + b < U256 then Ok(a + b) else Revert(Panic)
  }

  function CheckedSub(a: nat, b: nat): Result<nat> {
    if b <= a then Ok(a - b) else Revert(Panic)
  }

  function CheckedMul(a: nat, b: nat): Result<nat> {
    if a * b < U256 then Ok(a * b) else Revert(Panic)
  }

  function CheckedDiv(a: nat, b: nat): Result<nat> {
    if b != 0 then Ok(a / b) else Revert(Panic)
  }

  function Min(a: nat, b: nat): nat {
    if a <= b then a else b
  }
}
