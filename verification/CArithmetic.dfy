/** Integer division, remainder and conversion from `double` as C and C++ define them,
    and the two `round` functions the program is built against. Doubles are exact reals. */
module CArithmetic {
  // The WIN32 build rounds with .NET Math::Round, the Linux build with C round().
  datatype Platform = Win32 | Linux

  // a / b: truncates toward zero.
  function Div(a: int, b: int): int
    requires b > 0
  {
    if a >= 0 then a / b else -(-a / b)
  }

  // a % b: takes the sign of a.
  function Rem(a: int, b: int): int
    requires b > 0
  {
    a - b * Div(a, b)
  }

  // Truncating division and its remainder, independently of how they are computed
  lemma DivRem(a: int, b: int)
    requires b > 0
    ensures a == b * Div(a, b) + Rem(a, b) && -b < Rem(a, b) < b
    ensures (a >= 0 ==> Rem(a, b) >= 0) && (a <= 0 ==> Rem(a, b) <= 0)
  {
  }

  type Byte = b: int | 0 <= b < 256

  function Pow2(k: nat): nat {
    if k == 0 then 1 else 2 * Pow2(k - 1)
  }

  lemma RemNonNegative(a: int, b: int)
    requires a >= 0 && b > 0
    ensures Rem(a, b) == a % b
  {
  }

  // (long)x
  function Trunc(x: real): int {
    if x >= 0.0 then x.Floor else -((-x).Floor)
  }

  // C round(): halves go away from zero.
  function RoundHalfAway(x: real): int {
    if x >= 0.0 then (x + 0.5).Floor else -((-x + 0.5).Floor)
  }

  // Math::Round: halves go to the even neighbour.
  function RoundHalfEven(x: real): int {
    var below := x.Floor;
    var rest := x - below as real;
    if rest < 0.5 || (rest == 0.5 && below % 2 == 0) then below else below + 1
  }

  function Round(platform: Platform, x: real): int {
    if platform == Win32 then RoundHalfEven(x) else RoundHalfAway(x)
  }

  // Truncation goes toward zero and loses less than one.
  lemma TruncTowardZero(x: real)
    ensures x >= 0.0 ==> 0 <= Trunc(x) && x - 1.0 < Trunc(x) as real <= x
    ensures x <= 0.0 ==> Trunc(x) <= 0 && x <= Trunc(x) as real < x + 1.0
  {
  }

  // Rounding goes to the nearest integer. Of two nearest ones, the WIN32 build takes the even
  // one and the Linux build the one farther from zero.
  lemma RoundToNearest(platform: Platform, x: real)
    ensures x - 0.5 <= Round(platform, x) as real <= x + 0.5
    ensures x - x.Floor as real == 0.5 ==>
      if platform == Win32 then Round(platform, x) % 2 == 0
      else Round(platform, x) == if x > 0.0 then x.Floor + 1 else x.Floor
  {
  }

  // A truncated rate never exceeds the rounding of a larger non-negative rate.
  lemma TruncBelowRound(platform: Platform, x: real, y: real)
    requires x <= y && 0.0 <= y
    ensures Trunc(x) <= Round(platform, y)
  {
  }

  // Quotient and remainder are the only numbers that fit.
  lemma DivModUnique(a: int, d: int, q: int, r: int)
    requires 0 <= r < d && a == d * q + r
    ensures a / d == q && a % d == r
  {
    SameQuotient(d, q, r, a / d, a % d);
  }

  lemma SameQuotient(d: int, q: int, r: int, q': int, r': int)
    requires 0 <= r < d && 0 <= r' < d && d * q + r == d * q' + r'
    ensures q == q' && r == r'
  {
    var k := q - q';
    assert d * k == d * q - d * q' == r' - r;
    Multiples(d, k);
  }

  // The multiples of d nearest to zero
  lemma Multiples(d: int, k: int)
    requires d > 0
    ensures k >= 1 ==> d * k >= d
    ensures k <= -1 ==> d * k <= -d
  {
  }

  lemma DivModIdentity(n: nat, m: nat)
    requires m > 0
    ensures n == m * (n / m) + n % m && 0 <= n / m && 0 <= n % m < m
  {
  }

  lemma DivDiv(n: nat, a: nat, b: nat)
    requires a > 0 && b > 0
    ensures a * b > 0 && n / a / b == n / (a * b)
  {
    var q, r, s, t := n / a, n % a, n / a / b, n / a % b;
    assert q == b * s + t && n == a * q + r;
    assert a * (b * s + t) == a * b * s + a * t;
    Multiples(a, b - 1 - t);
    assert a * (b - 1 - t) == a * b - a - a * t;
    DivModUnique(n, a * b, s, a * t + r);
  }

  lemma ShiftedMod(a: int, d: int, k: int)
    requires d > 0
    ensures (a + d * k) % d == a % d && (a + d * k) / d == a / d + k
  {
    assert a + d * k == d * (a / d + k) + a % d by {
      assert a == d * (a / d) + a % d;
      assert d * (a / d + k) == d * (a / d) + d * k;
    }
    DivModUnique(a + d * k, d, a / d + k, a % d);
  }

  // n / d + 0.5 rounded: one above the quotient, except that the WIN32 build keeps an even
  // quotient that comes out exactly.
  function RoundedUp(platform: Platform, n: int, d: int): int
    requires d > 0
  {
    if platform == Win32 && n % d == 0 && n / d % 2 == 0 then n / d else n / d + 1
  }

  lemma FloorOfQuotient(p: int, d: int)
    requires p >= 0 && d > 0
    ensures Trunc(p as real / d as real) == p / d
  {
    assert p as real == (d * (p / d) + p % d) as real;
    QuotientBetween(p as real / d as real, (p / d) as real, (p % d) as real, d as real);
  }

  lemma RoundOfHalfMore(platform: Platform, n: int, d: int)
    requires 0 <= n && 0 < d
    ensures Round(platform, n as real / d as real + 0.5) == RoundedUp(platform, n, d)
  {
    var q, r, x := n / d, n % d, n as real / d as real;
    assert x * d as real == (d * q + r) as real;
    QuotientBetween(x, q as real, r as real, d as real);
  }

  lemma QuotientBetween(x: real, q: real, r: real, d: real)
    requires 0.0 <= r < d && x * d == d * q + r
    ensures q <= x < q + 1.0 && (x == q <==> r == 0.0)
  {
    var e, f := x - q, q + 1.0 - x;
    assert e * d == r && f * d == d - r;
    SameSign(e, d);
    SameSign(f, d);
  }

  // A positive factor keeps the sign.
  lemma SameSign(x: real, k: real)
    requires k > 0.0
    ensures x * k > 0.0 <==> x > 0.0
    ensures x * k < 0.0 <==> x < 0.0
  {
  }

  lemma NonNegativeProduct(x: real, y: real)
    requires x >= 0.0 && y >= 0.0
    ensures x * y >= 0.0
  {
  }

  lemma PositiveProduct(x: real, y: real)
    requires x > 0.0 && y > 0.0
    ensures x * y > 0.0
  {
  }

  lemma ProductBelow(x: real, y: real, k: real)
    requires x < y && k > 0.0
    ensures x * k < y * k
  {
  }
}
