/** Values shared by every part of the model: optional values (Java's nullable
    references), the closed set of failures the services raise, and Java's
    integer division. */
module Shared {

  /** A nullable reference: `None` stands for Java's `null`. */
  datatype Option<+T> = None | Some(value: T) {
    function GetOr(default: T): T {
      match this
      case Some(v) => v
      case None => default
    }
  }

  /** The exception kinds the services throw, each with its message.
      IllegalArgument maps to HTTP 400, IllegalState to 403, NotFound to 404,
      Conflict to 409 and Internal (any other exception) to 500. */
  datatype Error =
    | IllegalArgument(msg: string)
    | IllegalState(msg: string)
    | NotFound(msg: string)
    | Conflict(msg: string)
    | Internal(msg: string)

  /** The outcome of an operation that either returns a value or throws. */
  datatype Result<+T> = Ok(value: T) | Err(error: Error) {
    predicate IsFailure() { Err? }
    function PropagateFailure<U>(): Result<U>
      requires Err?
    {
      Err(error)
    }
    function Extract(): T
      requires Ok?
    {
      value
    }
  }

  /** Where a call in the source evidently does not do what its authors
      meant, the guard that makes it is modelled both ways: `AsWritten`
      follows the code, `Corrected` the evident intent. */
  datatype Version = AsWritten | Corrected

  /** Java's `/` on `int`: the quotient is truncated toward zero (Dafny's `/`
      is Euclidean, so the two differ on negative operands). */
  function JavaDiv(a: int, b: int): (q: int)
    requires b != 0
    ensures 0 <= a && 0 < b ==> q == a / b
    ensures q * b == a - JavaRem(a, b)
    ensures Abs(JavaRem(a, b)) < Abs(b)
    ensures JavaRem(a, b) == 0 || (JavaRem(a, b) < 0 <==> a < 0)
    ensures 0 < b ==> (0 <= q <==> -b < a)
  {
    TruncatedDivision(a, b);
    var q := Abs(a) / Abs(b);
    if (a < 0) == (b < 0) then q else -q
  }

  const MinInt: int := -0x8000_0000
  const MaxInt: int := 0x7fff_ffff

  /** Java's `int`: 32-bit two's complement. */
  type Int32 = x: int | MinInt <= x <= MaxInt

  /** Java's `/` on two `int`s: the truncated quotient, taken modulo 2^32.
      Only `Integer.MIN_VALUE / -1` leaves the `int` range, and it wraps
      back to `Integer.MIN_VALUE`. */
  function IntDiv(a: Int32, b: Int32): (q: int)
    requires b != 0
    ensures (q - JavaDiv(a, b)) % 0x1_0000_0000 == 0
    ensures !(a == MinInt && b == -1) ==> q == JavaDiv(a, b)
    ensures a == MinInt && b == -1 ==> q == MinInt && JavaDiv(a, b) == MaxInt + 1
  {
    if a == MinInt && b == -1 then MinInt else JavaDiv(a, b)
  }

  /** The magnitudes divide as naturals; the signs are then put back. */
  lemma TruncatedDivision(a: int, b: int)
    requires b != 0
    ensures var q := Abs(a) / Abs(b);
            && (if (a < 0) == (b < 0) then q else -q) * b == a - JavaRem(a, b)
            && (0 < b ==> (0 <= (if (a < 0) == (b < 0) then q else -q) <==> -b < a))
  {
    var x, y := Abs(a), Abs(b);
    var q, r := x / y, x % y;
    assert q * y + r == x && 0 <= r < y;
    SignedProduct(q, y, b);
    if 0 < b && a < 0 {
      if q == 0 {
        assert x == r < y;
      } else {
        MulAtLeast(q, y);
      }
    }
  }

  /** Multiplying by `b` is multiplying by its magnitude, with its sign. */
  lemma SignedProduct(q: int, y: int, b: int)
    requires y == Abs(b)
    ensures q * b == (if b < 0 then -(q * y) else q * y)
    ensures -q * b == (if b < 0 then q * y else -(q * y))
  {
  }

  lemma MulAtLeast(q: int, y: nat)
    requires 1 <= q
    ensures y <= q * y
  {
  }

  /** Java's `%` on `int`: the remainder takes the sign of the dividend. */
  function JavaRem(a: int, b: int): int
    requires b != 0
  {
    var r := Abs(a) % Abs(b);
    if a < 0 then -r else r
  }

  function Abs(x: int): nat { if x < 0 then -x else x }
}
