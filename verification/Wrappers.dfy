/** Failure-compatible result types, and the Go integer widths and sequence facts used across the models. */
module Wrappers {

  datatype Option<+T> = None | Some(value: T)

  /** One durable write: it committed or not, and the process was told so or not. */
  datatype Commit = Acked | AckLost | NotCommitted

  datatype Result<+T, +E> = Success(value: T) | Failure(error: E) {
    predicate IsFailure() {
      Failure?
    }

    function PropagateFailure<U>(): Result<U, E>
      requires Failure?
    {
      Failure(error)
    }

    function Extract(): T
      requires Success?
    {
      value
    }
  }
}

module GoIntegers {

  const MAX_INT64 := 0x7fff_ffff_ffff_ffff
  const TWO_TO_THE_64 := 0x1_0000_0000_0000_0000
  const TWO_TO_THE_32 := 0x1_0000_0000

  newtype int64 = x: int | -0x8000_0000_0000_0000 <= x <= 0x7fff_ffff_ffff_ffff

  type uint64 = x: int | 0 <= x < 0x1_0000_0000_0000_0000

  type uint32 = x: int | 0 <= x < 0x1_0000_0000

  /** The 64-bit duration nearest to a difference of times, as Time.Sub gives it. */
  function SaturateInt64(x: int): (r: int)
    ensures -MAX_INT64 - 1 <= r <= MAX_INT64
    ensures -MAX_INT64 - 1 <= x <= MAX_INT64 ==> r == x
    ensures r >= 0 <==> x >= 0
  {
    if x > MAX_INT64 then MAX_INT64 else if x < -MAX_INT64 - 1 then -MAX_INT64 - 1 else x
  }

  /** Go's integer quotient, which rounds toward zero. */
  function Quotient(a: int, b: int): (q: int)
    requires b > 0
    ensures a >= 0 ==> q * b <= a < q * b + b
    ensures a <= 0 ==> q * b - b < a <= q * b
  {
    if a >= 0 then a / b else -((-a) / b)
  }

  /** The int64 that a mathematical integer becomes when Go arithmetic wraps. */
  function WrapInt64(x: int): (r: int)
    ensures -MAX_INT64 - 1 <= r <= MAX_INT64
    ensures -MAX_INT64 - 1 <= x <= MAX_INT64 ==> r == x
    ensures MAX_INT64 < x <= MAX_INT64 + TWO_TO_THE_64 ==> r == x - TWO_TO_THE_64
  {
    (x + MAX_INT64 + 1) % TWO_TO_THE_64 - MAX_INT64 - 1
  }
}

module Sequences {

  lemma Associative<T>(a: seq<T>, b: seq<T>, c: seq<T>)
    ensures (a + b) + c == a + (b + c)
  {
  }

  lemma TakeOneMore<T>(items: seq<T>, k: nat)
    requires k < |items|
    ensures items[..k + 1] == items[..k] + [items[k]]
  {
  }
}
