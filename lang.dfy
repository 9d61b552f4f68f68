/**
 * The pieces of the Java platform the HNBT code relies on, in Dafny terms:
 * 16-bit `char` code units, strings of them, the exceptions the core throws,
 * 32-bit `int` arithmetic, and a character sink standing for an `Appendable`
 * such as `CharArrayWriter`.
 */
module Lang {

  /** A Java `char`: one UTF-16 code unit, surrogates included. */
  type JChar = c: int | 0 <= c < 0x1_0000

  /** A Java `String` or `CharSequence`: a sequence of code units. */
  type JString = seq<JChar>

  /** Java's fixed-width signed integer types. */
  type Int8 = x: int | -0x80 <= x < 0x80
  type Int16 = x: int | -0x8000 <= x < 0x8000
  type Int32 = x: int | -0x8000_0000 <= x < 0x8000_0000
  type Int64 = x: int | -0x8000_0000_0000_0000 <= x < 0x8000_0000_0000_0000

  const INT_MIN: int := -0x8000_0000
  const INT_MAX: int := 0x7FFF_FFFF

  const NL: JChar := '\n' as int

  /** The exceptions the modelled code can throw. */
  datatype Exception =
    | IllegalArgument          // IllegalArgumentException, including Guava's checkArgument
    | StringIndexOutOfBounds   // String.charAt / String.substring out of range
    | ArrayIndexOutOfBounds    // array store past the end
    | NegativeArraySize        // Arrays.copyOf with a negative length
    | OutOfMemory              // OutOfMemoryError

  /** The value a Java call returns, or the exception it throws. */
  datatype Result<+T> = Ok(value: T) | Err(error: Exception) {
    predicate IsFailure() { Err? }
    function PropagateFailure<U>(): Result<U>
      requires Err?
    {
      Err(error)
    }
    function Extract(): T
      requires Ok?
    {
      value
    }
  }

  datatype Option<+T> = None | Some(value: T) {
    predicate IsFailure() { None? }
    function PropagateFailure<U>(): Option<U>
      requires None?
    {
      None
    }
    function Extract(): T
      requires Some?
    {
      value
    }
  }

  /** The Java `int` that the mathematical integer `x` wraps around to. */
  function Wrap(x: int): (r: int)
    ensures INT_MIN <= r <= INT_MAX
    ensures INT_MIN <= x <= INT_MAX ==> r == x
    ensures INT_MAX < x <= INT_MAX + 0x1_0000_0000 ==> r == x - 0x1_0000_0000
    ensures INT_MIN - 0x1_0000_0000 <= x < INT_MIN ==> r == x + 0x1_0000_0000
  {
    if INT_MIN <= x <= INT_MAX then x else (x - INT_MIN) % 0x1_0000_0000 + INT_MIN
  }

  /** Java's `a / b` for a positive divisor: the quotient rounded toward zero. */
  function Quot(a: int, b: int): (q: int)
    requires b > 0
    ensures a >= 0 ==> 0 <= a - b * q < b
    ensures a < 0 ==> -b < a - b * q <= 0
  {
    if a >= 0 then a / b else -((-a) / b)
  }

  /** Java's `a % b` for a positive divisor: the remainder takes the sign of `a`. */
  function Rem(a: int, b: int): (r: int)
    requires b > 0
    ensures a == b * Quot(a, b) + r
    ensures a >= 0 ==> 0 <= r < b && r == a % b
    ensures a < 0 ==> -b < r <= 0
  {
    a - b * Quot(a, b)
  }

  /**
   * A character sink (an `Appendable` such as `CharArrayWriter`): everything
   * appended so far, in order.
   */
  class CharSink {
    var text: JString

    constructor ()
      ensures text == []
    {
      text := [];
    }

    method Append(s: JString)
      modifies this
      ensures text == old(text) + s
    {
      text := text + s;
    }
  }
}
