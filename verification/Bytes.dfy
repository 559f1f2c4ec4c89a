/** Bytes, words and the outcome of an operation that may throw. */
module Bytes {

  type Byte = x: int | 0 <= x < 0x100

  type Word = x: int | 0 <= x < 0x1_0000

  type Dword = x: int | 0 <= x < 0x1_0000_0000

  /** The value an operation returns, or the fact that it throws and stops the run. */
  datatype Outcome<+T> = Done(value: T) | Thrown

  datatype Option<+T> = None | Some(value: T)

  /** Is the bit of the given weight (a power of two) set in `x`? */
  predicate Bit(x: int, weight: int)
    requires weight > 0
  {
    x / weight % 2 == 1
  }

  function Min(a: int, b: int): int {
    if a <= b then a else b
  }

  function Max(a: int, b: int): int {
    if a <= b then b else a
  }

  function Pow2(n: nat): (p: nat)
    ensures p > 0
  {
    if n == 0 then 1 else 2 * Pow2(n - 1)
  }

  lemma Associates<T>(a: seq<T>, b: seq<T>, c: seq<T>)
    ensures a + (b + c) == (a + b) + c
  {
  }
}
