// The Wilson score interval over exact reals and the percentile bootstrap.
module Statistics {
  import opened Utils

  datatype Interval = Interval(point: real, lower: real, upper: real)

  datatype Result = Error(message: string) | Ok(interval: Interval)

  // The number whose square root the interval takes.
  function Radicand(k: int, n: int, z: real): real
    requires n > 0
  {
    var m := n as real;
    var p := k as real / m;
    (p * (1.0 - p) + z * z / (4.0 * m)) / m
  }

  predicate IsRoot(root: real, x: real) { root >= 0.0 && root * root == x }

  function Centre(k: int, n: int, z: real): real
    requires n > 0
  {
    (k as real / n as real + z * z / (2.0 * n as real)) / Denominator(n, z)
  }

  function Denominator(n: int, z: real): (d: real)
    requires n > 0
    ensures d >= 1.0
  {
    SquareOver(z, n as real);
    1.0 + z * z / n as real
  }

  lemma SquareOver(z: real, m: real)
    requires m > 0.0
    ensures z * z / m >= 0.0
  {
  }

  lemma SquareOverPositive(z: real, m: real)
    requires m > 0.0 && z > 0.0
    ensures z * z / m > 0.0
  {
    var q := z / m;
    QuotientPositive(z, m);
    assert q * m == z;
    assert q * m * q == z * q;
    ProductPositive(z, q);
    assert z * q * m == z * z;
    assert (z * z / m) * m == z * z;
    assert z * z / m == z * q;
  }

  lemma ProductPositive(a: real, b: real)
    requires a > 0.0 && b > 0.0
    ensures a * b > 0.0
  {
  }

  lemma QuotientSum(a: real, b: real, d: real)
    requires d > 0.0
    ensures a / d + b / d == (a + b) / d
    ensures a / d - b / d == (a - b) / d
  {
    var x, y := a / d, b / d;
    assert x * d == a && y * d == b;
    assert (x + y) * d == a + b && (x - y) * d == a - b;
    Quotient(a + b, x + y, d);
    Quotient(a - b, x - y, d);
  }

  lemma Product(a: real, b: real)
    ensures a > 0.0 && b > 0.0 ==> a * b > 0.0
    ensures a >= 0.0 && b >= 0.0 ==> a * b >= 0.0
  {
  }

  function Margin(n: int, z: real, root: real): real
    requires n > 0
  {
    z * root / Denominator(n, z)
  }

  // wilson_score_interval, the square root being an argument.
  function Wilson(k: int, n: int, z: real, root: real): Result {
    if k < 0 || n < 0 then Error("successes and trials must be non-negative")
    else if k > n then Error("successes cannot exceed trials")
    else if n == 0 then Ok(Interval(0.0, 0.0, 1.0))
    else
      var centre, margin := Centre(k, n, z), Margin(n, z, root);
      var lower := MaxReal(0.0, centre - margin);
      var upper := MinReal(1.0, centre + margin);
      Ok(Interval(k as real / n as real,
                  if k == 0 then 0.0 else lower,
                  if k == n then 1.0 else upper))
  }

  // ------------------------------------------------ the algebra, in p = k/n and u = z*z/n

  // The two roots of the Wilson quadratic multiply to p * p * (1 + u).
  lemma RootsMultiply(p: real, u: real, m: real)
    requires m * m == u * (p * (1.0 - p)) + u * u / 4.0
    ensures (p + u / 2.0 - m) * (p + u / 2.0 + m) == p * p * (1.0 + u)
  {
    var a := p + u / 2.0;
    assert (a - m) * (a + m) == a * a - m * m;
    assert a * a == p * p + p * u + u * u / 4.0;
    assert u * (p * (1.0 - p)) == u * p - u * (p * p);
    assert p * p * (1.0 + u) == p * p + u * (p * p);
  }

  lemma SquareOrder(x: real, y: real)
    requires y >= 0.0 && x * x <= y * y
    ensures x <= y
  {
    if x > y { SquareStrict(y, x - y); SameSquare(x, y + (x - y)); }
  }

  lemma SameSquare(x: real, y: real)
    requires x == y
    ensures x * x == y * y
  {
  }

  lemma SquareStrict(y: real, d: real)
    requires y >= 0.0 && d > 0.0
    ensures y * y < (y + d) * (y + d)
  {
    assert (y + d) * (y + d) == y * y + 2.0 * (y * d) + d * d;
    Product(y, d);
    Product(d, d);
  }

  // p*(1+u) lies within m of the centre's numerator.
  lemma PointInside(p: real, u: real, m: real)
    requires 0.0 <= p <= 1.0 && u > 0.0 && m >= 0.0
    requires m * m == u * (p * (1.0 - p)) + u * u / 4.0
    ensures p + u / 2.0 - m <= p * (1.0 + u) <= p + u / 2.0 + m
  {
    var q := p * (1.0 - p);
    var h := u * (1.0 - 2.0 * p) / 2.0;
    Product(p, 1.0 - p);
    Product(u, q);
    Product(u, u * q);
    assert (1.0 - 2.0 * p) * (1.0 - 2.0 * p) == 1.0 - 4.0 * q;
    assert h * h == u * u / 4.0 * ((1.0 - 2.0 * p) * (1.0 - 2.0 * p));
    assert u * u / 4.0 * (1.0 - 4.0 * q) == u * u / 4.0 - u * (u * q);
    assert h * h <= m * m;
    SquareOrder(h, m);
    assert (-h) * (-h) == h * h;
    SquareOrder(-h, m);
    assert h == u / 2.0 - p * u;
    assert p * (1.0 + u) == p + p * u;
  }

  // Everything the interval promises, before dividing by 1 + u.
  lemma Bracket(p: real, u: real, m: real)
    requires 0.0 <= p <= 1.0 && u > 0.0 && m >= 0.0
    requires m * m == u * (p * (1.0 - p)) + u * u / 4.0
    ensures 0.0 <= p + u / 2.0 - m <= p * (1.0 + u) <= p + u / 2.0 + m <= 1.0 + u
    ensures m > 0.0
    ensures p == 0.0 ==> p + u / 2.0 - m == 0.0
    ensures p == 1.0 ==> p + u / 2.0 + m == 1.0 + u
  {
    PointInside(p, u, m);
    LowerNonNegative(p, u, m);
    assert (1.0 - p) * (1.0 - (1.0 - p)) == p * (1.0 - p);
    LowerNonNegative(1.0 - p, u, m);
    Product(p, 1.0 - p);
    RootPositive(p * (1.0 - p), u, m);
    if p == 0.0 || p == 1.0 {
      assert p * (1.0 - p) == 0.0;
      RootAtEnds(u, m);
    }
  }

  lemma RootPositive(q: real, u: real, m: real)
    requires q >= 0.0 && u > 0.0 && m >= 0.0 && m * m == u * q + u * u / 4.0
    ensures m > 0.0
  {
    ProductPositive(u, q + u / 4.0);
    assert u * (q + u / 4.0) == m * m;
    SquareNonZero(m, u * (q + u / 4.0));
  }

  lemma SquareNonZero(m: real, x: real)
    requires m * m == x && x > 0.0
    ensures m != 0.0
  {
  }

  lemma RootAtEnds(u: real, m: real)
    requires u > 0.0 && m >= 0.0 && m * m == u * 0.0 + u * u / 4.0
    ensures m == u / 2.0
  {
    assert (u / 2.0) * (u / 2.0) == u * u / 4.0;
    SquareOrder(m, u / 2.0);
    SquareOrder(u / 2.0, m);
  }

  lemma LowerNonNegative(p: real, u: real, m: real)
    requires 0.0 <= p && u > 0.0 && m >= 0.0
    requires m * m == u * (p * (1.0 - p)) + u * u / 4.0
    ensures p + u / 2.0 - m >= 0.0
  {
    RootsMultiply(p, u, m);
    Product(p, p);
    Product(p * p, 1.0 + u);
    SignOfFactor(p + u / 2.0 - m, p + u / 2.0 + m);
  }

  lemma SignOfFactor(low: real, high: real)
    requires high > 0.0 && low * high >= 0.0
    ensures low >= 0.0
  {
    Times(low, 0.0, high);
  }

  // ------------------------------------------------ the interval itself

  // The names of the algebra: p = k/n, u = z*z/n and m = z * root, with m the root of the Wilson
  // quadratic; and centre and half width of the interval in them.
  function Proportion(k: int, n: int): real
    requires n > 0
  {
    k as real / n as real
  }

  function Penalty(n: int, z: real): real
    requires n > 0
  {
    z * z / n as real
  }

  predicate Solves(p: real, u: real, m: real)
  {
    0.0 <= p <= 1.0 && u > 0.0 && m >= 0.0 && m * m == u * (p * (1.0 - p)) + u * u / 4.0
  }

  function CentreOf(p: real, u: real): real
    requires u > 0.0
  {
    (p + u / 2.0) / (1.0 + u)
  }

  function HalfWidthOf(u: real, m: real): real
    requires u > 0.0
  {
    m / (1.0 + u)
  }

  lemma ToAlgebra(k: int, n: int, z: real, root: real)
    requires 0 <= k <= n && n > 0 && z > 0.0 && IsRoot(root, Radicand(k, n, z))
    ensures Solves(Proportion(k, n), Penalty(n, z), z * root)
  {
    var b := n as real;
    var p, u := k as real / b, z * z / b;
    FractionInUnit(k, n);
    SquareOverPositive(z, b);
    Product(z, root);
    RadicandInAlgebra(k, n, z);
    assert u * b == z * z;
    hide Radicand;
    RootScaled(z, root, b, p * (1.0 - p), u);
  }

  lemma RadicandInAlgebra(k: int, n: int, z: real)
    requires n > 0
    ensures var (p, u) := (Proportion(k, n), Penalty(n, z));
            Radicand(k, n, z) == (p * (1.0 - p) + u / 4.0) / n as real
  {
    HalveInside(z * z, n as real);
  }

  lemma CentreInAlgebra(k: int, n: int, z: real, root: real)
    requires n > 0 && z > 0.0
    ensures Penalty(n, z) > 0.0
    ensures Centre(k, n, z) == CentreOf(Proportion(k, n), Penalty(n, z))
    ensures Margin(n, z, root) == HalfWidthOf(Penalty(n, z), z * root)
  {
    SquareOverPositive(z, n as real);
    HalveInside(z * z, n as real);
  }

  lemma FractionInUnit(k: int, n: int)
    requires 0 <= k <= n && n > 0
    ensures 0.0 <= k as real / n as real <= 1.0
    ensures k == 0 <==> k as real / n as real == 0.0
    ensures k == n <==> k as real / n as real == 1.0
  {
    Quotient(k as real, 0.0, n as real);
    Quotient(k as real, 1.0, n as real);
  }

  lemma HalveInside(x: real, b: real)
    requires b > 0.0
    ensures x / (2.0 * b) == x / b / 2.0 && x / (4.0 * b) == x / b / 4.0
  {
    var q := x / b;
    assert q * b == x;
    assert (q / 2.0) * (2.0 * b) == x;
    assert (q / 4.0) * (4.0 * b) == x;
  }

  lemma RootScaled(z: real, root: real, b: real, q: real, u: real)
    requires b > 0.0 && u * b == z * z && root * root == (q + u / 4.0) / b
    ensures (z * root) * (z * root) == u * q + u * u / 4.0
  {
    var r := (q + u / 4.0) / b;
    assert r * b == q + u / 4.0;
    assert (z * root) * (z * root) == (z * z) * (root * root);
    assert (u * b) * r == u * (r * b);
    assert u * (q + u / 4.0) == u * q + u * u / 4.0;
  }

  // For every 0 <= k <= n with n > 0 and z > 0 the interval contains k/n, lies in [0, 1] and has
  // positive width; the clamps and the boundary snaps never change the exact value.
  lemma WilsonIsSound(k: int, n: int, z: real, root: real)
    requires 0 <= k <= n && n > 0 && z > 0.0 && IsRoot(root, Radicand(k, n, z))
    ensures Wilson(k, n, z, root).Ok?
    ensures var i := Wilson(k, n, z, root).interval;
            && i.point == k as real / n as real
            && 0.0 <= i.lower <= i.point <= i.upper <= 1.0
            && i.lower < i.upper
            && i.lower == Centre(k, n, z) - Margin(n, z, root)
            && i.upper == Centre(k, n, z) + Margin(n, z, root)
  {
    hide *;
    var p, u, m := Proportion(k, n), Penalty(n, z), z * root;
    ToAlgebra(k, n, z, root);
    CentreInAlgebra(k, n, z, root);
    EndsInOrder(p, u, m);
    PointIs(k, n);
    ClampsIdle(k, n, z, root);
  }

  lemma PointIs(k: int, n: int)
    requires 0 <= k <= n && n > 0
    ensures Proportion(k, n) == k as real / n as real
    ensures k == 0 <==> Proportion(k, n) == 0.0
    ensures k == n <==> Proportion(k, n) == 1.0
  {
    FractionInUnit(k, n);
  }

  // When the ends lie in [0, 1] and reach it where a boundary is snapped, nothing is changed.
  lemma ClampsIdle(k: int, n: int, z: real, root: real)
    requires 0 <= k <= n && n > 0
    requires var (c, g) := (Centre(k, n, z), Margin(n, z, root));
             0.0 <= c - g && c + g <= 1.0 && (k == 0 ==> c - g == 0.0) && (k == n ==> c + g == 1.0)
    ensures Wilson(k, n, z, root) == Ok(Interval(k as real / n as real, Centre(k, n, z) - Margin(n, z, root),
                                                 Centre(k, n, z) + Margin(n, z, root)))
  {
    hide Centre, Margin;
  }

  // The ends c - g and c + g enclose p, lie in [0, 1] and touch it exactly at the boundaries.
  lemma EndsInOrder(p: real, u: real, m: real)
    requires Solves(p, u, m)
    ensures var (c, g) := (CentreOf(p, u), HalfWidthOf(u, m));
            && 0.0 <= c - g <= p <= c + g <= 1.0 && g > 0.0
            && (p == 0.0 ==> c - g == 0.0) && (p == 1.0 ==> c + g == 1.0)
  {
    Bracket(p, u, m);
    QuotientsInOrder(p, u, m);
  }

  lemma QuotientsInOrder(p: real, u: real, m: real)
    requires u > 0.0 && m > 0.0
    requires 0.0 <= p + u / 2.0 - m <= p * (1.0 + u) <= p + u / 2.0 + m <= 1.0 + u
    ensures var (c, g) := ((p + u / 2.0) / (1.0 + u), m / (1.0 + u));
            && 0.0 <= c - g <= p <= c + g <= 1.0 && g > 0.0
            && (p + u / 2.0 - m == 0.0 ==> c - g == 0.0)
            && (p + u / 2.0 + m == 1.0 + u ==> c + g == 1.0)
  {
    var a, d := p + u / 2.0, 1.0 + u;
    QuotientSum(a, m, d);
    Quotient(a - m, 0.0, d);
    Quotient(a - m, p, d);
    Quotient(a + m, p, d);
    Quotient(a + m, 1.0, d);
    Quotient(m, 0.0, d);
  }

  // Swapping successes and failures mirrors the interval in 1/2.
  lemma WilsonMirrors(k: int, n: int, z: real, root: real)
    requires 0 <= k <= n && n > 0 && z > 0.0 && IsRoot(root, Radicand(k, n, z))
    ensures IsRoot(root, Radicand(n - k, n, z))
    ensures var (a, b) := (Wilson(k, n, z, root), Wilson(n - k, n, z, root));
            && a.Ok? && b.Ok?
            && b.interval.point == 1.0 - a.interval.point
            && b.interval.lower == 1.0 - a.interval.upper
            && b.interval.upper == 1.0 - a.interval.lower
  {
    ComplementFraction(k, n);
    MirroredRadicand(k, n, z);
    hide *;
    WilsonIsSound(k, n, z, root);
    WilsonIsSound(n - k, n, z, root);
    CentreMirrors(k, n, z);
  }

  lemma MirroredRadicand(k: int, n: int, z: real)
    requires n > 0
    ensures Radicand(n - k, n, z) == Radicand(k, n, z)
  {
    ComplementFraction(k, n);
    var p := k as real / n as real;
    assert (1.0 - p) * (1.0 - (1.0 - p)) == p * (1.0 - p);
  }

  lemma ComplementFraction(k: int, n: int)
    requires n > 0
    ensures (n - k) as real / n as real == 1.0 - k as real / n as real
  {
    QuotientSum((n - k) as real, k as real, n as real);
    Quotient(n as real, 1.0, n as real);
  }

  lemma CentreMirrors(k: int, n: int, z: real)
    requires n > 0
    ensures Centre(n - k, n, z) == 1.0 - Centre(k, n, z)
  {
    ComplementFraction(k, n);
    HalveInside(z * z, n as real);
    MirrorInHalf(k as real / n as real, z * z / n as real, Denominator(n, z));
  }

  lemma MirrorInHalf(p: real, u: real, d: real)
    requires d > 0.0 && d == 1.0 + u
    ensures (1.0 - p + u / 2.0) / d == 1.0 - (p + u / 2.0) / d
  {
    QuotientSum(p + u / 2.0, 1.0 - p + u / 2.0, d);
    Quotient(d, 1.0, d);
  }

  // ------------------------------------------------ what the interval is

  // The score test does not reject the proportion t: (k/n - t)^2 <= z^2 * t(1 - t)/n.
  predicate ScoreTestAccepts(k: int, n: int, z: real, t: real)
    requires n > 0
  {
    var p := k as real / n as real;
    (p - t) * (p - t) <= z * z / n as real * (t * (1.0 - t))
  }

  // The interval is exactly the set of proportions the score test does not reject.
  lemma WilsonInvertsTheScoreTest(k: int, n: int, z: real, root: real, t: real)
    requires 0 <= k <= n && n > 0 && z > 0.0 && IsRoot(root, Radicand(k, n, z))
    ensures Wilson(k, n, z, root).Ok?
    ensures var i := Wilson(k, n, z, root).interval;
            i.lower <= t <= i.upper <==> ScoreTestAccepts(k, n, z, t)
  {
    hide *;
    WilsonIsSound(k, n, z, root);
    ToAlgebra(k, n, z, root);
    CentreInAlgebra(k, n, z, root);
    ScoreTestInAlgebra(k, n, z, t);
    BetweenTheRoots(Proportion(k, n), Penalty(n, z), z * root, t);
  }

  predicate ScoreAt(p: real, u: real, t: real)
  {
    (p - t) * (p - t) <= u * (t * (1.0 - t))
  }

  lemma ScoreTestInAlgebra(k: int, n: int, z: real, t: real)
    requires n > 0
    ensures ScoreTestAccepts(k, n, z, t) <==> ScoreAt(Proportion(k, n), Penalty(n, z), t)
  {
  }

  lemma BetweenTheRoots(p: real, u: real, m: real, t: real)
    requires Solves(p, u, m) && u > 0.0
    ensures CentreOf(p, u) - HalfWidthOf(u, m) <= t <= CentreOf(p, u) + HalfWidthOf(u, m) <==> ScoreAt(p, u, t)
  {
    var d := 1.0 + u;
    var c, g := (p + u / 2.0) / d, m / d;
    Quotient(m, 0.0, d);
    RootsMultiply(p, u, m);
    ProductOfRoots(p, u, m, d, c, g);
    Factored(p, u, d, c, g, t);
    BetweenRoots(t - (c - g), t - (c + g), d);
  }

  lemma ProductOfRoots(p: real, u: real, m: real, d: real, c: real, g: real)
    requires u > 0.0 && d == 1.0 + u && c == (p + u / 2.0) / d && g == m / d
    requires (p + u / 2.0 - m) * (p + u / 2.0 + m) == p * p * (1.0 + u)
    ensures d * ((c - g) * (c + g)) == p * p && 2.0 * (d * c) == 2.0 * p + u
  {
    var a := p + u / 2.0;
    assert c * d == a && g * d == m;
    var low, high := c - g, c + g;
    assert low * d == a - m && high * d == a + m;
    assert (low * d) * (high * d) == d * (low * high) * d;
    assert d * (low * high) * d == p * p * d;
    Times(d * (low * high), p * p, d);
  }

  lemma Factored(p: real, u: real, d: real, c: real, g: real, t: real)
    requires d == 1.0 + u && d * ((c - g) * (c + g)) == p * p && 2.0 * (d * c) == 2.0 * p + u
    ensures (p - t) * (p - t) - u * (t * (1.0 - t)) == d * ((t - (c - g)) * (t - (c + g)))
  {
    assert (t - (c - g)) * (t - (c + g)) == t * t - 2.0 * (c * t) + (c - g) * (c + g);
    assert d * (t * t - 2.0 * (c * t) + (c - g) * (c + g))
        == d * (t * t) - 2.0 * (d * c) * t + d * ((c - g) * (c + g));
    assert d * (t * t) == t * t + u * (t * t);
    assert (2.0 * p + u) * t == 2.0 * (p * t) + u * t;
    assert u * (t * (1.0 - t)) == u * t - u * (t * t);
  }

  lemma BetweenRoots(x: real, y: real, d: real)
    requires d > 0.0 && y <= x
    ensures d * (x * y) <= 0.0 <==> y <= 0.0 <= x
  {
    var xy := x * y;
    Times(xy, 0.0, d);
    Product(x, y);
    Product(-x, -y);
    assert (-x) * (-y) == xy;
    Product(x, -y);
    assert x * (-y) == -xy;
  }

  // ------------------------------------------------ the percentile bootstrap

  function Sum(s: seq<real>): real
  {
    if s == [] then 0.0 else Sum(s[..|s| - 1]) + s[|s| - 1]
  }

  lemma {:induction false} SumAdds(a: seq<real>, b: seq<real>)
    ensures Sum(a + b) == Sum(a) + Sum(b)
    ensures |b| == 1 ==> Sum(b) == b[0]
    decreases |b|
  {
    if b != [] {
      assert (a + b)[..|a + b| - 1] == a + b[..|b| - 1];
      SumAdds(a, b[..|b| - 1]);
    } else {
      assert a + b == a;
    }
  }

  // The positions one resample draws, and the values found there.
  function Drawn(samples: seq<real>, draw: nat -> nat, count: nat): seq<real>
    requires forall j: nat :: draw(j) < |samples|
  {
    seq(count, j requires 0 <= j < count => samples[draw(j)])
  }

  function ResampledMeans(samples: seq<real>, draw: nat -> nat -> nat, iterations: nat): seq<real>
    requires |samples| > 0
    requires forall i: nat, j: nat :: draw(i)(j) < |samples|
  {
    seq(iterations, i requires 0 <= i < iterations => Sum(Drawn(samples, draw(i), |samples|)) / |samples| as real)
  }

  function Insert(x: real, s: seq<real>): seq<real>
  {
    if s == [] || x <= s[0] then [x] + s else [s[0]] + Insert(x, s[1..])
  }

  function Sort(s: seq<real>): (r: seq<real>)
    ensures |r| == |s|
    ensures Ascending(r)
    ensures multiset(r) == multiset(s)
  {
    if s == [] then [] else
      assert s == s[..|s| - 1] + [s[|s| - 1]];
      InsertSorts(s[|s| - 1], Sort(s[..|s| - 1]));
      Insert(s[|s| - 1], Sort(s[..|s| - 1]))
  }

  lemma {:induction false} InsertKeeps(x: real, s: seq<real>)
    ensures |Insert(x, s)| == |s| + 1
    ensures multiset(Insert(x, s)) == multiset(s) + multiset{x}
  {
    if s != [] && x > s[0] {
      InsertKeeps(x, s[1..]);
      assert s == [s[0]] + s[1..];
    } else {
      assert Insert(x, s) == [x] + s;
    }
  }

  predicate Ascending(s: seq<real>)
  {
    forall i, j :: 0 <= i < j < |s| ==> s[i] <= s[j]
  }

  lemma {:induction false} InsertedFrom(x: real, s: seq<real>, k: nat)
    requires k < |Insert(x, s)|
    ensures Insert(x, s)[k] == x || Insert(x, s)[k] in s
  {
    if s != [] && x > s[0] && k > 0 { InsertedFrom(x, s[1..], k - 1); }
  }

  lemma {:induction false} InsertAscends(x: real, s: seq<real>)
    requires Ascending(s)
    ensures Ascending(Insert(x, s))
  {
    if s != [] && x > s[0] {
      InsertAscends(x, s[1..]);
      var r := Insert(x, s[1..]);
      forall k | 0 <= k < |r| ensures s[0] <= r[k] { InsertedFrom(x, s[1..], k); }
    }
  }

  lemma InsertSorts(x: real, s: seq<real>)
    requires Ascending(s)
    ensures |Insert(x, s)| == |s| + 1
    ensures multiset(Insert(x, s)) == multiset(s) + multiset{x}
    ensures Ascending(Insert(x, s))
  {
    hide Insert, Ascending;
    InsertKeeps(x, s);
    InsertAscends(x, s);
  }

  function LowIndex(confidence: real, iterations: int): int
  {
    var i := ((1.0 - confidence) / 2.0 * iterations as real).Floor;
    if i < 0 then 0 else i
  }

  function Ceiling(x: real): int { -((-x).Floor) }

  function HighIndex(confidence: real, iterations: int): int
  {
    var i := Ceiling((1.0 - (1.0 - confidence) / 2.0) * iterations as real) - 1;
    if iterations - 1 < i then iterations - 1 else i
  }

  function Share(confidence: real, iterations: int): real { confidence * iterations as real }

  // The two percentile positions are mirror images, in range and in order; they enclose the wanted
  // share, and one position less at either end would not.
  lemma IndicesMirror(confidence: real, iterations: int)
    requires iterations >= 1 && 0.0 < confidence < 1.0
    ensures 0 <= LowIndex(confidence, iterations) <= HighIndex(confidence, iterations) < iterations
    ensures HighIndex(confidence, iterations) == iterations - 1 - LowIndex(confidence, iterations)
    ensures var (low, high) := (LowIndex(confidence, iterations), HighIndex(confidence, iterations));
            (high - low - 1) as real < Share(confidence, iterations) <= (high - low + 1) as real
  {
    var b := iterations as real;
    var x := (1.0 - confidence) / 2.0 * b;
    Product((1.0 - confidence) / 2.0, b);
    Product(confidence, b);
    assert x == b / 2.0 - confidence * b / 2.0;
    assert (1.0 - (1.0 - confidence) / 2.0) * b == b - x;
    FloorOfShift(x, iterations);
    ProductPositive(confidence, b);
  }

  lemma FloorOfShift(x: real, n: int)
    ensures (x - n as real).Floor == x.Floor - n
  {
  }

  // bootstrap_mean_ci; draw(i)(j) is the j-th index drawn in iteration i.
  method BootstrapMeanCi(samples: seq<real>, draw: nat -> nat -> nat, iterations: int, confidence: real)
    returns (r: Result)
    requires |samples| > 1 ==> forall i: nat, j: nat :: draw(i)(j) < |samples|
    ensures r.Error? <==> iterations < 1 || !(0.0 < confidence < 1.0)
    ensures r.Ok? && |samples| == 0 ==> r.interval == Interval(0.0, 0.0, 0.0)
    ensures r.Ok? && |samples| == 1 ==> r.interval == Interval(samples[0], samples[0], samples[0])
    ensures r.Ok? && |samples| > 1 ==>
              && r.interval.point == Sum(samples) / |samples| as real
              && IsPercentileInterval(ResampledMeans(samples, draw, iterations), confidence, r.interval)
  {
    if iterations < 1 { return Error("iterations must be >= 1"); }
    if !(0.0 < confidence < 1.0) { return Error("confidence must be in (0, 1)"); }
    var n := |samples|;
    if n == 0 { return Ok(Interval(0.0, 0.0, 0.0)); }
    if n == 1 { return Ok(Interval(samples[0], samples[0], samples[0])); }
    var means: seq<real> := [];
    for i := 0 to iterations
      invariant means == ResampledMeans(samples, draw, i)
    {
      var total := 0.0;
      for j := 0 to n
        invariant total == Sum(Drawn(samples, draw(i), j))
      {
        total := total + samples[draw(i)(j)];
        assert Drawn(samples, draw(i), j + 1)[..j] == Drawn(samples, draw(i), j);
      }
      means := means + [total / n as real];
    }
    var sorted := Sort(means);
    IndicesMirror(confidence, iterations);
    r := Ok(Interval(Sum(samples) / n as real,
                     sorted[LowIndex(confidence, iterations)], sorted[HighIndex(confidence, iterations)]));
  }

  // The bounds are the elements at the two percentile positions of the sorted means.
  predicate IsPercentileInterval(means: seq<real>, confidence: real, i: Interval)
    requires |means| >= 1 && 0.0 < confidence < 1.0
  {
    IndicesMirror(confidence, |means|);
    && i.lower == Sort(means)[LowIndex(confidence, |means|)]
    && i.upper == Sort(means)[HighIndex(confidence, |means|)]
  }

  function CountWithin(s: seq<real>, low: real, high: real): nat
  {
    if s == [] then 0
    else CountWithin(s[..|s| - 1], low, high) + if low <= s[|s| - 1] <= high then 1 else 0
  }

  predicate AllWithin(s: seq<real>, low: real, high: real)
  {
    forall k :: 0 <= k < |s| ==> low <= s[k] <= high
  }

  // The bounds lie in order between the least and the greatest sample, and at least the wanted
  // share of the resampled means lies between them.
  lemma BootstrapCovers(samples: seq<real>, draw: nat -> nat -> nat, iterations: nat, confidence: real, i: Interval)
    requires |samples| > 0 && iterations >= 1 && 0.0 < confidence < 1.0
    requires forall i: nat, j: nat :: draw(i)(j) < |samples|
    requires IsPercentileInterval(ResampledMeans(samples, draw, iterations), confidence, i)
    ensures i.lower <= i.upper
    ensures forall low, high :: AllWithin(samples, low, high) ==> low <= i.lower && i.upper <= high
    ensures CountWithin(ResampledMeans(samples, draw, iterations), i.lower, i.upper) as real
            >= Share(confidence, iterations)
  {
    hide *;
    var means := ResampledMeans(samples, draw, iterations);
    MeansCount(samples, draw, iterations);
    PercentilesCover(means, confidence, i);
    forall low, high | AllWithin(samples, low, high)
      ensures low <= i.lower && i.upper <= high
    {
      MeansWithin(samples, draw, iterations, low, high);
      WithinAt(means, i.lower, low, high);
      WithinAt(means, i.upper, low, high);
    }
  }

  lemma MeansCount(samples: seq<real>, draw: nat -> nat -> nat, iterations: nat)
    requires |samples| > 0 && forall i: nat, j: nat :: draw(i)(j) < |samples|
    ensures |ResampledMeans(samples, draw, iterations)| == iterations
  {
  }

  lemma PercentilesCover(means: seq<real>, confidence: real, i: Interval)
    requires |means| >= 1 && 0.0 < confidence < 1.0 && IsPercentileInterval(means, confidence, i)
    ensures i.lower <= i.upper && i.lower in means && i.upper in means
    ensures CountWithin(means, i.lower, i.upper) as real >= Share(confidence, |means|)
  {
    hide LowIndex, HighIndex, Share, CountWithin, Sort;
    IndicesMirror(confidence, |means|);
    ElementsCover(means, LowIndex(confidence, |means|), HighIndex(confidence, |means|), i);
  }

  lemma WithinAt(s: seq<real>, x: real, low: real, high: real)
    requires x in s && AllWithin(s, low, high)
    ensures low <= x <= high
  {
  }

  lemma ElementsCover(means: seq<real>, a: nat, b: nat, i: Interval)
    requires a <= b < |means| && i.lower == Sort(means)[a] && i.upper == Sort(means)[b]
    ensures i.lower <= i.upper && i.lower in means && i.upper in means
    ensures CountWithin(means, i.lower, i.upper) >= b - a + 1
  {
    hide Sort, CountWithin;
    var sorted := Sort(means);
    ElementOf(sorted, means, a);
    ElementOf(sorted, means, b);
    SliceWithin(sorted, a, b);
    hide *;
    CountSlice(sorted, a, b + 1, i.lower, i.upper);
    CountPermuted(sorted, means, i.lower, i.upper);
  }

  lemma ElementOf(s: seq<real>, t: seq<real>, i: nat)
    requires multiset(s) == multiset(t) && i < |s|
    ensures s[i] in t
  {
    assert s[i] in multiset(t);
  }

  lemma SliceWithin(s: seq<real>, a: nat, b: nat)
    requires Ascending(s) && a <= b < |s|
    ensures s[a] <= s[b] && forall k :: a <= k < b + 1 ==> s[a] <= s[k] <= s[b]
  {
  }

  lemma MeansWithin(samples: seq<real>, draw: nat -> nat -> nat, iterations: nat, low: real, high: real)
    requires |samples| > 0 && AllWithin(samples, low, high)
    requires forall i: nat, j: nat :: draw(i)(j) < |samples|
    ensures AllWithin(ResampledMeans(samples, draw, iterations), low, high)
  {
    hide Sum, Between;
    forall k | 0 <= k < iterations ensures low <= ResampledMeans(samples, draw, iterations)[k] <= high {
      var drawn := Drawn(samples, draw(k), |samples|);
      SumBetween(drawn, low, high);
      MeanBetween(Sum(drawn), |samples| as real, low, high);
    }
  }

  // x lies between g times low and g times high.
  predicate Between(x: real, g: real, low: real, high: real) { low * g <= x <= high * g }

  lemma OneMoreTerm(x: real, g: real, low: real, high: real, t: real)
    requires Between(x, g, low, high) && low <= t <= high
    ensures Between(x + t, g + 1.0, low, high)
  {
    assert low * (g + 1.0) == low * g + low && high * (g + 1.0) == high * g + high;
  }

  lemma NoTerms(low: real, high: real)
    ensures Between(0.0, 0.0, low, high)
  {
  }

  lemma {:induction false} SumBetween(s: seq<real>, low: real, high: real)
    requires AllWithin(s, low, high)
    ensures Between(Sum(s), |s| as real, low, high)
  {
    hide Between;
    if s == [] {
      NoTerms(low, high);
    } else {
      var p := s[..|s| - 1];
      SumBetween(p, low, high);
      OneMoreTerm(Sum(p), |p| as real, low, high, s[|s| - 1]);
    }
  }

  lemma MeanBetween(sum: real, n: real, low: real, high: real)
    requires n > 0.0 && Between(sum, n, low, high)
    ensures low <= sum / n <= high
  {
    Quotient(sum, low, n);
    Quotient(sum, high, n);
  }

  lemma {:induction false} CountSlice(s: seq<real>, a: nat, b: nat, low: real, high: real)
    requires a <= b <= |s|
    requires forall k :: a <= k < b ==> low <= s[k] <= high
    ensures CountWithin(s, low, high) >= b - a
    decreases |s|
  {
    if s != [] {
      var p := s[..|s| - 1];
      var b' := if b == |s| then b - 1 else b;
      if a < |s| {
        assert forall k :: a <= k < b' ==> p[k] == s[k];
        if a <= b' { CountSlice(p, a, b', low, high); }
      }
    }
  }

  // Membership counts depend on the multiset only.
  lemma {:induction false} CountPermuted(s: seq<real>, t: seq<real>, low: real, high: real)
    requires multiset(s) == multiset(t)
    ensures CountWithin(s, low, high) == CountWithin(t, low, high)
    decreases |s|
  {
    if s == [] {
      assert |t| == |multiset(t)| == 0;
    } else {
      var x := s[|s| - 1];
      assert x in multiset(t);
      var k :| 0 <= k < |t| && t[k] == x;
      var s', t' := s[..|s| - 1], t[..k] + t[k + 1..];
      assert s == s' + [x];
      assert t == t[..k] + [x] + t[k + 1..];
      assert multiset(t) == multiset(t[..k]) + multiset{x} + multiset(t[k + 1..]);
      assert multiset(t') == multiset(t[..k]) + multiset(t[k + 1..]);
      assert multiset(s) == multiset(s') + multiset{x};
      assert multiset(s') == multiset(s) - multiset{x};
      assert multiset(s') == multiset(t');
      CountPermuted(s', t', low, high);
      CountConcat(t[..k] + [x], t[k + 1..], low, high);
      CountConcat(t[..k], [x], low, high);
      CountConcat(t[..k], t[k + 1..], low, high);
    }
  }

  lemma {:induction false} CountConcat(a: seq<real>, b: seq<real>, low: real, high: real)
    ensures CountWithin(a + b, low, high) == CountWithin(a, low, high) + CountWithin(b, low, high)
    decreases |b|
  {
    if b == [] {
      assert a + b == a;
    } else {
      assert (a + b)[..|a + b| - 1] == a + b[..|b| - 1];
      CountConcat(a, b[..|b| - 1], low, high);
    }
  }
}
