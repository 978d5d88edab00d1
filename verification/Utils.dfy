// Small arithmetic and set facts shared by all modules.
module Utils {
  function MinNat(a: nat, b: nat): (r: nat)
    ensures r <= a && r <= b && (r == a || r == b)
  {
    if a <= b then a else b
  }

  function MaxNat(a: nat, b: nat): (r: nat)
    ensures a <= r && b <= r && (r == a || r == b)
  {
    if a >= b then a else b
  }

  function MinReal(a: real, b: real): (r: real)
    ensures r <= a && r <= b && (r == a || r == b)
  {
    if a <= b then a else b
  }

  function MaxReal(a: real, b: real): (r: real)
    ensures a <= r && b <= r && (r == a || r == b)
  {
    if a >= b then a else b
  }

  lemma SubsetSize<T>(a: set<T>, b: set<T>)
    requires a <= b
    ensures |a| <= |b|
  {
    assert b == a + (b - a);
    assert a !! (b - a);
  }

  lemma QuotientPositive(a: real, d: real)
    requires a > 0.0 && d > 0.0
    ensures a / d > 0.0
  {
  }

  // Multiplying by a positive number keeps the order.
  lemma Times(a: real, b: real, c: real)
    requires c > 0.0
    ensures a < b <==> a * c < b * c
    ensures a == b <==> a * c == b * c
  {
    assert b * c - a * c == (b - a) * c;
  }

  lemma TimesLe(a: real, b: real, c: real)
    requires a <= b && c >= 0.0
    ensures a * c <= b * c
  {
  }

  // Comparing a quotient with x.
  lemma Quotient(a: real, x: real, d: real)
    requires d > 0.0
    ensures a < x * d <==> a / d < x
    ensures a == x * d <==> a / d == x
  {
    var q := a / d;
    assert q * d == a;
    Times(q, x, d);
  }

  lemma QuotientOrder(a: real, b: real, d: real)
    requires d > 0.0 && a <= b
    ensures a / d <= b / d
  {
    var q := b / d;
    assert q * d == b;
    Quotient(a, q, d);
  }
}
