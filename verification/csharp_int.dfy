/** C# integer division and remainder by a positive divisor.
    C# truncates toward zero, whereas Dafny's `/` and `%` are Euclidean;
    the two agree only on non-negative dividends. */
module CSharpInt {

  /** The value of `a / b` in C# for `b > 0`: the quotient rounded toward zero. */
  function CsDiv(a: int, b: int): (q: int)
    requires b > 0
    ensures a >= 0 ==> 0 <= a - b * q < b
    ensures a < 0 ==> -b < a - b * q <= 0
  {
    if a >= 0 then a / b else -((-a) / b)
  }

  /** The value of `a % b` in C# for `b > 0`: what `CsDiv` leaves over, which
      differs from `a` by a multiple of `b`, takes the sign of `a` and is
      smaller than `b` in magnitude. Together these fix it uniquely. */
  function CsRem(a: int, b: int): (r: int)
    requires b > 0
    ensures -b < r < b
    ensures a >= 0 ==> r >= 0
    ensures a < 0 ==> r <= 0
    ensures (a - r) % b == 0
  {
    MultipleRemainsZero(CsDiv(a, b), b);
    a - b * CsDiv(a, b)
  }

  /** A multiple of `b` leaves no Euclidean remainder. */
  lemma {:induction false} MultipleRemainsZero(q: int, b: int)
    requires b > 0
    ensures (b * q) % b == 0
  {
    var q', r' := (b * q) / b, (b * q) % b;
    assert b * q == b * q' + r' && 0 <= r' < b;
    assert b * (q - q') == r';
    if q - q' >= 1 {
      assert false;
    } else if q - q' <= -1 {
      assert false;
    }
  }

  /** The odd-unit test of the centre rules: C#'s `a % 2` is non-zero exactly
      when `a` is odd, whatever the sign of `a`. */
  lemma OddTestIsParity(a: int)
    ensures CsRem(a, 2) != 0 <==> a % 2 == 1
  {
  }
}
