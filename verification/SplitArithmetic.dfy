/**
  The arithmetic of WritebackOp.SplitStatements (tracelistener/tracelistener.go:193-208), in exact reals,
  and the proof that evaluating it in double precision gives the same integers.
*/
module SplitArithmetic {

  function CeilDiv(a: nat, b: nat): nat
    requires b > 0
  {
    (a + b - 1) / b
  }

  function Ceil(x: real): int {
    -(-x).Floor
  }

  /** Rows per chunk, as the source computes it: a ceiling and two divisions, then truncation to an integer. */
  function SplitAmount(placeholders: nat, fields: nat, limit: nat): int
    requires placeholders > limit > 0 && fields > 0
  {
    var chunks := Ceil(placeholders as real / limit as real);
    CeilOfQuotient(placeholders, limit);
    var placeholdersPerChunk := placeholders as real / chunks as real;
    (placeholdersPerChunk / fields as real).Floor
  }

  lemma DivBounds(a: nat, b: nat)
    requires b > 0
    ensures a / b * b <= a < (a / b + 1) * b
  {
  }

  lemma DivUnique(a: nat, b: nat, q: int)
    requires b > 0 && q * b <= a < (q + 1) * b
    ensures a / b == q
  {
    DivBounds(a, b);
    if a / b < q {
      MulMonotone(a / b + 1, q, b);
    } else if a / b > q {
      MulMonotone(q + 1, a / b, b);
    }
  }

  lemma MulMonotone(a: int, b: int, c: nat)
    requires a <= b
    ensures a * c <= b * c
  {
  }

  lemma RealMulMonotone(a: real, b: real, c: real)
    requires a <= b && c >= 0.0
    ensures a * c <= b * c
  {
  }

  lemma CeilDivBounds(a: nat, b: nat)
    requires b > 0
    ensures (CeilDiv(a, b) - 1) * b < a <= CeilDiv(a, b) * b || (a == 0 && CeilDiv(a, b) == 0)
  {
    DivBounds(a + b - 1, b);
  }

  /** x lies strictly above k exactly when x * b lies strictly above k * b, stated for quotients. */
  lemma QuotientAbove(a: int, b: nat, k: int)
    requires b > 0
    ensures a as real / b as real <= k as real <==> a <= k * b
    ensures a as real / b as real >= k as real <==> a >= k * b
  {
    var x := a as real / b as real;
    assert x * b as real == a as real;
    if x <= k as real { RealMulMonotone(x, k as real, b as real); }
    if x >= k as real { RealMulMonotone(k as real, x, b as real); }
    assert (k * b) as real == k as real * b as real;
  }

  lemma CeilOfQuotient(a: nat, b: nat)
    requires a > b > 0
    ensures Ceil(a as real / b as real) == CeilDiv(a, b) >= 2
  {
    var c := CeilDiv(a, b);
    CeilDivBounds(a, b);
    QuotientAbove(a, b, c);
    QuotientAbove(a, b, c - 1);
    if c <= 1 { MulMonotone(c, 1, b); }
  }

  lemma FloorOfQuotient(a: nat, b: nat)
    requires b > 0
    ensures (a as real / b as real).Floor == a / b
  {
    DivBounds(a, b);
    QuotientAbove(a, b, a / b);
    QuotientAbove(a, b, a / b + 1);
  }

  lemma CancelFields(n: nat, fields: nat, c: nat)
    requires fields > 0 && c > 0
    ensures (n * fields) as real / c as real / fields as real == n as real / c as real
  {
    var x := (n * fields) as real / c as real;
    var y := n as real / c as real;
    assert x * c as real == n as real * fields as real;
    assert y * c as real == n as real;
    assert (y * fields as real) * c as real == x * c as real;
    assert y * fields as real == x;
  }

  lemma AtMostAsManyChunksAsRows(n: nat, fields: nat, limit: nat, c: nat)
    requires n > 0 && fields > 0 && limit > 0 && c > 0
    requires (c - 1) * limit < n * fields <= c * limit
    ensures c <= n <==> fields <= limit
  {
    if fields <= limit {
      MulMonotone(fields, limit, n);
      if c > n { MulMonotone(n, c - 1, limit); }
    } else {
      MulMonotone(limit + 1, fields, n);
      if c <= n { MulMonotone(c, n, limit); }
    }
  }

  lemma FullChunkFits(n: nat, fields: nat, limit: nat, c: nat, k: nat)
    requires c > 0 && k * c <= n && n * fields <= c * limit
    ensures k * fields <= limit
  {
    MulMonotone(k * c, n, fields);
    assert (k * fields) * c == (k * c) * fields;
    assert (limit + 1) * c == c * limit + c;
    if k * fields > limit {
      MulMonotone(limit + 1, k * fields, c);
    }
  }

  lemma DivAtLeastOne(n: nat, c: nat)
    requires c > 0
    ensures n / c >= 1 <==> n >= c
  {
    DivBounds(n, c);
    if n >= c && n / c <= 0 { MulMonotone(n / c + 1, 1, c); }
    if n < c && n / c >= 1 { MulMonotone(1, n / c, c); }
  }

  /**
    In exact arithmetic the formula is the integer quotient of the rows by the number of chunks aimed at.
    It is at least one exactly when a single row fits the limit, and a full chunk then fits the limit too.
  */
  lemma SplitAmountIsQuotient(n: nat, fields: nat, limit: nat)
    requires n > 0 && fields > 0 && n * fields > limit > 0
    ensures SplitAmount(n * fields, fields, limit) == n / CeilDiv(n * fields, limit)
    ensures SplitAmount(n * fields, fields, limit) >= 1 <==> fields <= limit
    ensures SplitAmount(n * fields, fields, limit) * fields <= limit
  {
    var c := CeilDiv(n * fields, limit);
    CeilOfQuotient(n * fields, limit);
    CancelFields(n, fields, c);
    FloorOfQuotient(n, c);
    DivBounds(n, c);
    CeilDivBounds(n * fields, limit);
    AtMostAsManyChunksAsRows(n, fields, limit, c);
    DivAtLeastOne(n, c);
    FullChunkFits(n, fields, limit, c, n / c);
  }

  lemma CountAtLeast(n: nat, c: nat, k: nat, m: nat)
    requires c > 0 && k * c <= n <= m * k && k > 0
    ensures c <= m
  {
    assert (c - 1) * k == k * c - k;
    if m < c {
      MulMonotone(m, c - 1, k);
    }
  }

  lemma CountAtMost(n: nat, c: nat, k: nat, m: int)
    requires c > 0 && k > 0 && n < (k + 1) * c && (m - 1) * k < n
    ensures m <= 2 * c - 1
  {
    assert (2 * c - 1) * k == k * c + (c - 1) * k;
    assert (k + 1) * c == k * c + c;
    MulMonotone(1, k, c - 1);
    if m > 2 * c - 1 {
      MulMonotone(2 * c - 1, m - 1, k);
    }
  }

  /** With k = n / c rows a chunk, the number of chunks lies between c and 2c - 1. */
  lemma ChunkCountBounds(n: nat, c: nat)
    requires n >= c > 0
    ensures n / c >= 1
    ensures c <= CeilDiv(n, n / c) <= 2 * c - 1
  {
    DivAtLeastOne(n, c);
    DivBounds(n, c);
    CeilDivBounds(n, n / c);
    CountAtLeast(n, c, n / c, CeilDiv(n, n / c));
    CountAtMost(n, c, n / c, CeilDiv(n, n / c));
  }

  // ---------------------------------------------------------------- double precision

  const UNIT_ROUNDOFF: real := 1.0 / 9007199254740992.0

  /**
    double is what a correctly rounded IEEE 754 operation may return for exact: within half a unit, and exact on small
    integers.
  */
  ghost predicate Rounded(exact: real, double: real) {
    && exact - exact * UNIT_ROUNDOFF <= double <= exact + exact * UNIT_ROUNDOFF
    && (exact == exact.Floor as real && exact <= 9007199254740992.0 ==> double == exact)
  }

  lemma RoundedQuotient(a: nat, b: nat, double: real)
    requires 0 < b && 0 < a < 0x8_0000_0000_0000
    requires Rounded(a as real / b as real, double)
    ensures a % b == 0 ==> double == (a / b) as real
    ensures a % b != 0 ==> (a / b) as real < double < (a / b) as real + 1.0
  {
    if a % b == 0 {
      MultipleIsProduct(a, b);
      RoundedExact(a, b, a / b, double);
    } else {
      NotMultiple(a, b);
      RoundedBetween(a as real, b as real, (a / b) as real, double);
    }
  }

  lemma MultipleIsProduct(a: nat, b: nat)
    requires 0 < b && a % b == 0
    ensures a == a / b * b
  {
  }

  lemma RoundedBetween(a: real, b: real, k: real, double: real)
    requires b > 0.0 && k * b + 1.0 <= a && a <= (k + 1.0) * b - 1.0
    requires 0.0 <= a < 2251799813685248.0 && Rounded(a / b, double)
    ensures k < double < k + 1.0
  {
    QuotientTimesDivisor(a, b);
    RoundedInexact(a, b, k, a / b, double);
  }

  lemma RoundedExact(a: nat, b: nat, k: nat, double: real)
    requires 0 < b && a == k * b && a < 0x8_0000_0000_0000
    requires Rounded(a as real / b as real, double)
    ensures double == k as real
  {
    QuotientAbove(a, b, k);
    MulMonotone(1, b, k);
  }

  lemma RoundedInexact(a: real, b: real, k: real, x: real, double: real)
    requires b > 0.0 && k * b + 1.0 <= a && a <= (k + 1.0) * b - 1.0
    requires x * b == a && x >= 0.0 && a < 2251799813685248.0
    requires Rounded(x, double)
    ensures k < double < k + 1.0
  {
    var slack := 3.0 * UNIT_ROUNDOFF * x;
    SlackIsSmall(a, b, x, slack);
    NearQuotient(a, b, k, x, double, slack);
  }

  /** In units of 1 / b: k * b + 1 <= x * b and an error below one unit keep y above k. */
  lemma StaysAbove(b: real, k: real, x: real, y: real, slack: real)
    requires b > 0.0 && k * b + 1.0 <= x * b
    requires slack * b < 1.0 && x - slack <= y
    ensures k < y
  {
    var xb, sb, kb := x * b, slack * b, k * b;
    assert kb < xb - sb;
    assert (x - slack) * b == xb - sb;
    if x - slack <= k { RealMulMonotone(x - slack, k, b); }
  }

  lemma StaysBelow(b: real, k: real, x: real, y: real, slack: real)
    requires b > 0.0 && x * b <= k * b - 1.0
    requires slack * b < 1.0 && y <= x + slack
    ensures y < k
  {
    var xb, sb, kb := x * b, slack * b, k * b;
    assert xb + sb < kb;
    assert (x + slack) * b == xb + sb;
    if k <= x + slack { RealMulMonotone(k, x + slack, b); }
  }

  /** A value closer to a / b than 1 / b stays between the same two integers when b does not divide a. */
  lemma NearQuotient(a: real, b: real, k: real, x: real, y: real, slack: real)
    requires b > 0.0 && k * b + 1.0 <= a && a <= (k + 1.0) * b - 1.0
    requires x * b == a && slack * b < 1.0
    requires x - slack <= y <= x + slack
    ensures k < y < k + 1.0
  {
    StaysAbove(b, k, x, y, slack);
    StaysBelow(b, k + 1.0, x, y, slack);
  }

  lemma ProductAsReal(a: int, b: int)
    ensures (a * b) as real == a as real * b as real
  {
  }

  lemma NotMultiple(a: nat, b: nat)
    requires b > 0 && a % b != 0
    ensures (a / b) as real * b as real + 1.0 <= a as real
    ensures a as real <= ((a / b) as real + 1.0) * b as real - 1.0
  {
    var k := a / b;
    assert a == k * b + a % b;
    ProductAsReal(k, b);
    var kr, br := k as real, b as real;
    assert (kr + 1.0) * br == kr * br + br;
  }

  /**
    Rounding does not matter: for every op of fewer than 2^51 placeholders, whatever correctly rounded doubles
    the three float64 operations return, the source obtains the exact number of chunks and of rows a chunk.
  */
  lemma DoublesSplitExactly(n: nat, fields: nat, limit: nat, q1: real, q2: real, q3: real)
    requires n > 0 && fields > 0 && n * fields > limit > 0 && n * fields < 0x8_0000_0000_0000
    requires Rounded((n * fields) as real / limit as real, q1)
    requires Ceil(q1) > 0 ==> Rounded((n * fields) as real / Ceil(q1) as real, q2) && Rounded(q2 / fields as real, q3)
    ensures Ceil(q1) == CeilDiv(n * fields, limit)
    ensures q3.Floor == SplitAmount(n * fields, fields, limit)
  {
    var p := n * fields;
    var c := CeilDiv(p, limit);
    RoundedQuotient(p, limit, q1);
    DivBounds(p, limit);
    CeilDivBounds(p, limit);
    assert c == p / limit + (if p % limit == 0 then 0 else 1) by { CeilDivByCases(p, limit); }
    assert Ceil(q1) == c;
    CeilOfQuotient(p, limit);
    SplitAmountIsQuotient(n, fields, limit);
    RowsInDoubles(n, fields, c, q2, q3);
  }

  lemma CeilDivByCases(a: nat, b: nat)
    requires b > 0
    ensures CeilDiv(a, b) == a / b + (if a % b == 0 then 0 else 1)
  {
    var q, r := a / b, a % b;
    assert a == q * b + r;
    if r == 0 {
      DivUnique(a + b - 1, b, q);
    } else {
      assert (q + 1) * b <= a + b - 1;
      assert (q + 2) * b == q * b + 2 * b;
      DivUnique(a + b - 1, b, q + 1);
    }
  }

  lemma RowsBelowBound(n: nat, fields: nat, p: nat)
    requires fields > 0 && p == n * fields < 0x8_0000_0000_0000
    ensures n as real < 2251799813685248.0 && p as real == n as real * fields as real
  {
    MulMonotone(1, fields, n);
    ProductAsReal(n, fields);
  }

  lemma FloorBetween(x: real, k: int)
    requires k as real < x < k as real + 1.0
    ensures x.Floor == k
  {
  }

  lemma RowsInDoubles(n: nat, fields: nat, c: nat, q2: real, q3: real)
    requires n > 0 && fields > 0 && c > 0 && n * fields < 0x8_0000_0000_0000
    requires Rounded((n * fields) as real / c as real, q2)
    requires Rounded(q2 / fields as real, q3)
    ensures q3.Floor == n / c
  {
    if n % c == 0 {
      MultipleIsProduct(n, c);
      RowsExactly(n, fields, c, n / c, q2, q3);
    } else {
      NotMultiple(n, c);
      RowsBetween(n, fields, c, n * fields, n / c, q2, q3);
    }
  }

  lemma RowsBetween(n: nat, fields: nat, c: nat, p: nat, k: nat, q2: real, q3: real)
    requires fields > 0 && c > 0 && p == n * fields < 0x8_0000_0000_0000
    requires Rounded(p as real / c as real, q2) && Rounded(q2 / fields as real, q3)
    requires k as real * c as real + 1.0 <= n as real && n as real <= (k as real + 1.0) * c as real - 1.0
    ensures q3.Floor == k
  {
    RowsBelowBound(n, fields, p);
    RowsInexactly(n as real, fields as real, c as real, p as real, k as real, q2, q3);
    FloorBetween(q3, k);
  }

  lemma RowsInexactly(n: real, fields: real, c: real, p: real, k: real, q2: real, q3: real)
    requires fields >= 1.0 && c > 0.0 && 0.0 <= n < 2251799813685248.0 && p == n * fields
    requires Rounded(p / c, q2) && Rounded(q2 / fields, q3)
    requires k * c + 1.0 <= n && n <= (k + 1.0) * c - 1.0
    ensures k < q3 < k + 1.0
  {
    QuotientTimesDivisor(n, c);
    QuotientOfProduct(n, fields, c);
    QuotientTimesDivisor(q2, fields);
    InexactRows(n, p / c, fields, c, k, n / c, q2 / fields, q2, q3);
  }

  lemma QuotientOfProduct(n: real, fields: real, c: real)
    requires fields >= 1.0 && c > 0.0 && 0.0 <= n
    ensures (n / c) * fields == n * fields / c >= 0.0
  {
    var x := n / c;
    assert x * c == n;
    assert (x * fields) * c == n * fields;
  }

  lemma InexactRows(n: real, x2: real, fields: real, c: real, k: real, x: real, y: real, q2: real, q3: real)
    requires fields >= 1.0 && c > 0.0 && n < 2251799813685248.0 && 0.0 <= x2
    requires k * c + 1.0 <= n && n <= (k + 1.0) * c - 1.0
    requires x * c == n && x * fields == x2 && y * fields == q2
    requires Rounded(x2, q2) && Rounded(y, q3)
    ensures k < q3 < k + 1.0
  {
    var slack := 3.0 * UNIT_ROUNDOFF * x;
    TwoRoundings(x2, fields, x, y, q2, q3);
    SlackIsSmall(n, c, x, slack);
    NearQuotient(n, c, k, x, q3, slack);
  }

  lemma QuotientTimesDivisor(a: real, b: real)
    requires b > 0.0
    ensures a / b * b == a
    ensures a >= 0.0 ==> a / b >= 0.0
  {
  }

  lemma SmallError(n: real)
    requires n < 2251799813685248.0
    ensures 3.0 * UNIT_ROUNDOFF * n < 1.0
  {
  }

  lemma Associate(a: real, b: real, c: real)
    ensures (a * b) * c == a * (b * c)
  {
  }

  lemma SlackIsSmall(n: real, c: real, x: real, slack: real)
    requires x * c == n && n < 2251799813685248.0 && slack == 3.0 * UNIT_ROUNDOFF * x
    ensures slack * c < 1.0
  {
    SmallError(n);
    Associate(3.0 * UNIT_ROUNDOFF, x, c);
    assert slack * c == 3.0 * UNIT_ROUNDOFF * n;
  }

  lemma SwapFactors(n: nat, fields: nat, c: nat, k: nat)
    requires n == k * c
    ensures n * fields == (k * fields) * c
  {
  }

  /** An exact division stays exact, and its quotient stays small enough for the next one. */
  lemma ExactDivision(a: nat, b: nat, k: nat, double: real)
    requires 0 < b && a == k * b && a < 0x8_0000_0000_0000
    requires Rounded(a as real / b as real, double)
    ensures double == k as real && k < 0x8_0000_0000_0000
  {
    RoundedExact(a, b, k, double);
    MulMonotone(1, b, k);
  }

  lemma RowsExactly(n: nat, fields: nat, c: nat, k: nat, q2: real, q3: real)
    requires n > 0 && fields > 0 && c > 0 && n == k * c && n * fields < 0x8_0000_0000_0000
    requires Rounded((n * fields) as real / c as real, q2)
    requires Rounded(q2 / fields as real, q3)
    ensures q3 == k as real
  {
    var p, kf := n * fields, k * fields;
    SwapFactors(n, fields, c, k);
    ExactDivision(p, c, kf, q2);
    ExactDivision(kf, fields, k, q3);
  }

  lemma TwoRoundings(x2: real, f: real, x: real, y: real, q2: real, q3: real)
    requires x2 >= 0.0 && f >= 1.0 && x * f == x2 && y * f == q2
    requires Rounded(x2, q2) && Rounded(y, q3)
    ensures x - 3.0 * UNIT_ROUNDOFF * x <= q3 <= x + 3.0 * UNIT_ROUNDOFF * x
  {
    var u := UNIT_ROUNDOFF;
    Distribute(x, u, f);
    DivideInequality(x - x * u, y, f);
    DivideInequality(y, x + x * u, f);
    DivideInequality(0.0, x, f);
  }

  lemma Distribute(x: real, u: real, f: real)
    ensures (x - x * u) * f == x * f - (x * f) * u
    ensures (x + x * u) * f == x * f + (x * f) * u
  {
    assert x * u * f == x * f * u;
  }

  lemma DivideInequality(a: real, b: real, f: real)
    requires f > 0.0 && a * f <= b * f
    ensures a <= b
  {
  }
}
