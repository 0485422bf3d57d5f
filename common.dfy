/** Result and option types and the integer arithmetic shared by every
    module of the model. */
module Common {

  datatype Option<+T> = None | Some(value: T)

  /** The Python exceptions the modelled code can raise and not catch. */
  datatype Error =
    | IndexError         // indexing an empty list
    | ZeroDivisionError  // `i % 0`
    | ValueError         // `int(s)` on a string that is not an integer

  datatype Result<+T> = Ok(value: T) | Err(error: Error)

  /** CPython's default limit on the number of decimal digits of an integer
      read from a string or written to one: longer ones raise `ValueError`. */
  const MaxIntDigits := 4300

  function Max(a: int, b: int): int { if a < b then b else a }
  function Min(a: int, b: int): int { if a < b then a else b }

  /** Python's `round(num / den)` on the exact quotient: to the nearest
      integer, a tie going to the even neighbour. */
  function RoundHalfEven(num: nat, den: nat): (q: nat)
    requires den > 0
    ensures 2 * num - den <= 2 * q * den <= 2 * num + den
    ensures 2 * q * den == 2 * num - den || 2 * q * den == 2 * num + den ==> q % 2 == 0
  {
    var q, r := num / den, num % den;
    DivisionExpanded(num, den, q, r);
    if 2 * r < den then q
    else if 2 * r > den then q + 1
    else if q % 2 == 0 then q
    else q + 1
  }

  /** Twice the quotient and its successor, times the divisor, in terms of
      the dividend and the remainder. */
  lemma DivisionExpanded(num: nat, den: nat, q: int, r: int)
    requires den > 0 && q == num / den && r == num % den
    ensures 2 * q * den == 2 * num - 2 * r
    ensures 2 * (q + 1) * den == 2 * num - 2 * r + 2 * den
  {
    assert num == q * den + r;
    assert 2 * (q + 1) * den == 2 * q * den + 2 * den;
  }

  lemma MulMono(d: int, k: int)
    requires d > 0 && k >= 1
    ensures d * k >= d
  {
  }

  /** The quotient and remainder of Euclidean division are unique. */
  lemma ModUnique(a: int, d: int, q: int, r: int)
    requires d > 0 && 0 <= r < d && a == d * q + r
    ensures a % d == r
  {
    var q', r' := a / d, a % d;
    assert d * (q - q') == r' - r;
    if q > q' {
      MulMono(d, q - q');
    } else if q < q' {
      MulMono(d, q' - q);
    }
  }
}
