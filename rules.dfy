/** The arithmetic rules of the tile game: which of the four operator buttons
  * is enabled for the two selected tile values, and what pressing it yields.
  * The selection order of the pair is kept, although no rule depends on it. */
module TileRules {

  datatype Op = Add | Sub | Mul | Div

  /** The larger of the pair, picked as `x > y ? x : y`. */
  function Larger(x: int, y: int): int { if x > y then x else y }

  /** The smaller of the pair, picked as `x > y ? y : x`. */
  function Smaller(x: int, y: int): int { if x > y then y else x }

  /** Whether the button of `op` is disabled for the selected values x and y.
    * Division tests the larger value modulo the smaller one. In the page that
    * remainder is JavaScript's `%`: it truncates where Dafny's `%` is
    * Euclidean, but the two are zero for the same operands, and a zero divisor
    * gives NaN, which is not equal to 0, so the button stays disabled. */
  predicate Disabled(op: Op, x: int, y: int)
  {
    match op
    case Add => false
    case Sub => x == y
    case Mul => false
    case Div => Smaller(x, y) == 0 || Larger(x, y) % Smaller(x, y) != 0
  }

  /** What pressing the button of `op` writes into the first selected tile.
    * Division is exact whenever the button is enabled, so the page's floating
    * point quotient is this integer. */
  function Apply(op: Op, x: int, y: int): (r: int)
    requires !Disabled(op, x, y)
    ensures op == Sub ==> r > 0 && (r == x - y || r == y - x)
    ensures op == Div ==> r * Smaller(x, y) == Larger(x, y)
    ensures x > 0 && y > 0 ==> r > 0
  {
    match op
    case Add => x + y
    case Sub => if x > y then x - y else y - x
    case Mul => MulPositive(x, y); x * y
    case Div => DivPositive(Larger(x, y), Smaller(x, y)); Larger(x, y) / Smaller(x, y)
  }

  lemma MulPositive(x: int, y: int)
    ensures x > 0 && y > 0 ==> x * y > 0
  {
  }

  lemma DivPositive(m: int, n: int)
    requires n != 0 && m % n == 0
    ensures (m / n) * n == m
    ensures m >= n > 0 ==> m / n > 0
  {
  }

  /** The value the operator yields on the real numbers: the page's own
    * arithmetic, before any test for legality. */
  function Exact(op: Op, x: int, y: int): real
    requires x > 0 && y > 0
  {
    match op
    case Add => (x + y) as real
    case Sub => (Larger(x, y) - Smaller(x, y)) as real
    case Mul => (x * y) as real
    case Div => Larger(x, y) as real / Smaller(x, y) as real
  }

  /** A result is a tile value when it is a positive whole number. */
  ghost predicate IsTileValue(r: real)
  {
    r > 0.0 && r.Floor as real == r
  }

  /** On positive tiles a button is enabled exactly when its operator yields a
    * positive whole number, and the enabled result is that number. */
  lemma {:induction false} EnabledIffTileValue(op: Op, x: int, y: int)
    requires x > 0 && y > 0
    ensures !Disabled(op, x, y) <==> IsTileValue(Exact(op, x, y))
    ensures !Disabled(op, x, y) ==> Apply(op, x, y) as real == Exact(op, x, y)
  {
    match op
    case Add =>
    case Sub =>
    case Mul =>
      MulPositive(x, y);
    case Div =>
      QuotientIsWhole(Larger(x, y), Smaller(x, y));
  }

  /** For positive m and n, the real quotient m / n is a whole number exactly
    * when n divides m, and it is then the integer quotient. */
  lemma QuotientIsWhole(m: int, n: int)
    requires m >= n > 0
    ensures m % n == 0 <==> IsTileValue(m as real / n as real)
    ensures m % n == 0 ==> (m / n) as real == m as real / n as real
  {
    var q := m as real / n as real;
    assert q * n as real == m as real;
    if m % n == 0 {
      DivPositive(m, n);
      var k := m / n;
      CastProduct(k, n);
      assert (q - k as real) * n as real == 0.0;
      assert q == k as real;
      assert q.Floor == k;
    } else if q.Floor as real == q {
      var k := q.Floor;
      CastProduct(k, n);
      assert k * n == m;
      QuotientExact(m, n, k);
    }
  }

  lemma CastProduct(k: int, n: int)
    ensures (k * n) as real == k as real * n as real
  {
  }

  /** An exact multiple leaves no remainder. */
  lemma QuotientExact(m: int, n: int, k: int)
    requires n > 0 && k * n == m
    ensures m % n == 0
  {
    var d := k - m / n;
    assert d * n == k * n - (m / n) * n;
    assert d * n == m % n;
    if d >= 1 {
      MulAtLeast(d, n);
    }
  }

  lemma {:induction false} MulAtLeast(d: int, n: int)
    requires d >= 1 && n > 0
    ensures d * n >= n
    decreases d
  {
    if d > 1 {
      MulAtLeast(d - 1, n);
      assert d * n == (d - 1) * n + n;
    }
  }

  /** The rules do not depend on which tile was selected first. */
  lemma Commutes(op: Op, x: int, y: int)
    ensures Disabled(op, x, y) == Disabled(op, y, x)
    ensures !Disabled(op, x, y) ==> Apply(op, x, y) == Apply(op, y, x)
  {
  }
}
