/** Sums and integer facts that several of the puzzles share. */
module Common {

  /** The sum of a sequence of counts, as `iter().sum()` computes it. */
  function Sum(s: seq<nat>): nat {
    if s == [] then 0 else Sum(s[..|s| - 1]) + s[|s| - 1]
  }

  /** `iter().sum()` as a loop. */
  method SumOf(s: seq<nat>) returns (total: nat)
    ensures total == Sum(s)
  {
    total := 0;
    for i := 0 to |s|
      invariant total == Sum(s[..i])
    {
      assert s[..i + 1][..i] == s[..i];
      total := total + s[i];
    }
    assert s[..|s|] == s;
  }

  lemma MulAtLeast(x: int, b: int)
    requires x >= 1 && b > 0
    ensures x * b >= b && (-x) * b == -(x * b)
  {
    assert x * b == (x - 1) * b + b;
    assert (x - 1) * b >= 0;
  }

  /** Quotient and remainder are the only such pair. */
  lemma DivModUnique(a: int, b: int, q: int, r: int)
    requires b > 0 && a == q * b + r && 0 <= r < b
    ensures a / b == q && a % b == r
  {
    var q', r' := a / b, a % b;
    assert a == q' * b + r';
    assert (q - q') * b == r' - r;
    if q > q' {
      MulAtLeast(q - q', b);
    } else if q < q' {
      MulAtLeast(q' - q, b);
    }
  }

  lemma MulLess(a: int, b: int, w: int)
    requires a < b && w >= 0
    ensures a * w + w <= b * w
  {
    assert (b - a) * w >= w by {
      assert b - a >= 1;
    }
  }

  lemma PositiveFactor(a: int, w: int)
    requires a * w > 0 && w > 0
    ensures a > 0
  {
  }
}
