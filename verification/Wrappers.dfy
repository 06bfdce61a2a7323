/** Types shared by every component of the model: machine integers, optional
    values and results. */
module Wrappers {
  const U32_MAX: int := 0xFFFF_FFFF

  type u32 = x: int | 0 <= x <= 0xFFFF_FFFF
  type u8 = x: int | 0 <= x <= 0xFF

  datatype Option<+T> = None | Some(value: T)

  datatype Result<+T, +E> = Ok(value: T) | Err(error: E) {
    predicate IsFailure() {
      Err?
    }

    function PropagateFailure<U>(): Result<U, E>
      requires Err?
    {
      Err(error)
    }

    function Extract(): T
      requires Ok?
    {
      value
    }
  }

  /** `u32::checked_add(1)`. */
  function CheckedSuccessor(x: u32): Option<u32> {
    if x == U32_MAX then None else Some(x + 1)
  }

  /** `u32::wrapping_add`. */
  function WrappingAdd(x: u32, n: nat): u32 {
    (x + n) % (U32_MAX + 1)
  }

  /** A subset has no more elements. */
  lemma {:induction false} SubsetSize(a: set<u32>, b: set<u32>)
    requires a <= b
    ensures |a| <= |b|
    decreases |a|
  {
    if a != {} {
      var x :| x in a;
      SubsetSize(a - {x}, b - {x});
    }
  }
}
