/** The resource limits every backend shares. */
module Limits {
  const MAX_GLOBAL_SLOTS: nat := 256
  const MAX_LOCAL_SLOTS: nat := 1024
  const MAX_FRAMES: nat := 100
  const MAX_OPERAND_STACK: nat := 1000
  const MAX_CYCLES: nat := 100_000
  const MAX_INSTRUCTIONS: nat := 10_000
  const GC_THRESHOLD: nat := 8
}

/** Options, and the outcome codes the runtimes share. */
module Common {
  datatype Option<+T> = None | Some(value: T)

  datatype TrapCode =
    | NoTrap
    | DivideByZero
    | UndefinedLocal
    | ArrayOutOfBounds
    | StackOverflow
    | CycleLimit
    | UndefinedFunction
    | StackUnderflow
    | InvalidInstruction
}

/** How the runtimes' own operations report a trap to their caller. */
module Fallibles {
  import opened Common

  /** A value, or the code of the trap that ends the run. */
  datatype Fallible<+T> = Ok(value: T) | Trap(code: TrapCode) {
    predicate IsFailure() {
      Trap?
    }

    function PropagateFailure<U>(): Fallible<U>
      requires Trap?
    {
      Trap(code)
    }

    function Extract(): T
      requires Ok?
    {
      value
    }
  }
}

/** Machine integers: values travel as i64 and results are narrowed to i32. */
module Int32 {
  const TWO_32: int := 0x1_0000_0000
  const TWO_64: int := 0x1_0000_0000_0000_0000
  const I32_MIN: int := -0x8000_0000
  const I32_MAX: int := 0x7FFF_FFFF

  // The value that marks an undefined local.
  const I64_MIN: int := -0x8000_0000_0000_0000

  type I32 = x: int | -0x8000_0000 <= x <= 0x7FFF_FFFF

  predicate IsI32(x: int) {
    I32_MIN <= x <= I32_MAX
  }

  /** Two's-complement wrap-around of i64 arithmetic. */
  function Wrap64(x: int): int {
    var m := x % TWO_64;
    if m >= TWO_64 / 2 then m - TWO_64 else m
  }

  /** Keeps the low 32 bits and sign-extends them; also what `as i32` does. */
  function NormalizeI32(x: int): (r: I32)
    ensures IsI32(x) ==> r == x
  {
    var masked := x % TWO_32;
    if masked > I32_MAX then masked - TWO_32 else masked
  }

  /** `as usize` on an i32: negative values become huge addresses. */
  function AsUsize(x: I32): (r: nat)
    ensures 0 <= x ==> r == x
    ensures x < 0 ==> r > I32_MAX
  {
    if x < 0 then x + TWO_64 else x
  }

  /** Division that truncates toward zero. */
  function TruncDiv(a: int, b: int): int
    requires b != 0
  {
    if a >= 0 then
      (if b > 0 then a / b else -(a / -b))
    else
      (if b > 0 then -(-a / b) else -a / -b)
  }

  function BoolValue(b: bool): int {
    if b then 1 else 0
  }
}
