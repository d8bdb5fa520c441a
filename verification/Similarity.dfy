/** Cosine similarity (src/kvgate/cache/embedders.py) lies between -1 and 1. */
module Similarity {

  type Vector = seq<real>

  function Dot(a: Vector, b: Vector): real
    requires |a| == |b|
  {
    if a == [] then 0.0 else Dot(a[..|a| - 1], b[..|b| - 1]) + a[|a| - 1] * b[|b| - 1]
  }

  /** `sqrt` is the square root on the two sums it is applied to. */
  ghost predicate IsRoot(sqrt: real -> real, x: real) {
    sqrt(x) >= 0.0 && sqrt(x) * sqrt(x) == x
  }

  /** `cosine_similarity` */
  function Cosine(sqrt: real -> real, a: Vector, b: Vector): real {
    if a == [] || b == [] || |a| != |b| then 0.0
    else
      var na, nb := sqrt(Dot(a, a)), sqrt(Dot(b, b));
      if na == 0.0 || nb == 0.0 then 0.0
      else Ratio(Dot(a, b), na, nb)
  }

  function Ratio(dot: real, na: real, nb: real): real
    requires na != 0.0 && nb != 0.0
  {
    NonZeroProduct(na, nb);
    dot / (na * nb)
  }

  lemma NonZeroProduct(x: real, y: real)
    requires x != 0.0 && y != 0.0
    ensures x * y != 0.0
  {
  }

  // ----- arithmetic -----

  lemma Square(x: real)
    ensures x * x >= 0.0
  {
  }

  lemma SquareGrows(a: real, b: real)
    requires 0.0 <= a < b
    ensures a * a < b * b
  {
    PositiveProduct(b - a, b + a);
    assert (b - a) * (b + a) == b * b - a * a;
  }

  lemma PositiveProduct(x: real, y: real)
    requires x > 0.0 && y > 0.0
    ensures x * y > 0.0
  {
  }

  lemma SquareOrder(a: real, b: real)
    requires a >= 0.0 && b * b <= a * a
    ensures -a <= b <= a
  {
    if b > a {
      SquareGrows(a, b);
    }
    if -b > a {
      SquareGrows(a, -b);
    }
  }

  lemma ProductOrder(x: real, y: real, z: real)
    requires x <= y && z >= 0.0
    ensures x * z <= y * z
  {
  }

  lemma ProductGrows(x: real, y: real, z: real)
    requires x < y && z > 0.0
    ensures x * z < y * z
  {
    PositiveProduct(y - x, z);
    assert (y - x) * z == y * z - x * z;
  }

  /** One more coordinate: d² ≤ s·t gives (d + xy)² ≤ (s + x²)(t + y²). */
  lemma CauchyStep(d: real, s: real, t: real, x: real, y: real)
    requires s >= 0.0 && t >= 0.0 && d * d <= s * t
    ensures (d + x * y) * (d + x * y) <= (s + x * x) * (t + y * y)
  {
    var p, q, r := s * (y * y), t * (x * x), d * (x * y);
    Square(x);
    Square(y);
    Square(x * y);
    Square(p - q);
    ProductOrder(0.0, s, y * y);
    ProductOrder(0.0, t, x * x);
    ProductOrder(d * d, s * t, (x * y) * (x * y));
    assert r * r == (d * d) * ((x * y) * (x * y));
    assert p * q == (s * t) * ((x * y) * (x * y));
    assert (p - q) * (p - q) == (p + q) * (p + q) - 4.0 * (p * q);
    assert (2.0 * r) * (2.0 * r) == 4.0 * (r * r);
    SquareOrder(p + q, 2.0 * r);
    assert (d + x * y) * (d + x * y) == d * d + 2.0 * r + (x * y) * (x * y);
    assert (s + x * x) * (t + y * y) == s * t + p + q + (x * y) * (x * y);
  }

  lemma {:induction false} SelfDot(a: Vector)
    ensures Dot(a, a) >= 0.0
  {
    if a == [] {
    } else {
      SelfDot(a[..|a| - 1]);
      Square(a[|a| - 1]);
    }
  }

  /** dot² ≤ Σx²·Σy² */
  lemma {:induction false} CauchySchwarz(a: Vector, b: Vector)
    requires |a| == |b|
    ensures Dot(a, b) * Dot(a, b) <= Dot(a, a) * Dot(b, b)
  {
    if a == [] {
    } else {
      var a', b' := a[..|a| - 1], b[..|b| - 1];
      CauchySchwarz(a', b');
      SelfDot(a');
      SelfDot(b');
      CauchyStep(Dot(a', b'), Dot(a', a'), Dot(b', b'), a[|a| - 1], b[|b| - 1]);
    }
  }

  lemma RatioBounds(dot: real, na: real, nb: real)
    requires na > 0.0 && nb > 0.0 && dot * dot <= (na * na) * (nb * nb)
    ensures -1.0 <= Ratio(dot, na, nb) <= 1.0
  {
    var n := na * nb;
    PositiveProduct(na, nb);
    assert n * n == (na * na) * (nb * nb);
    SquareOrder(n, dot);
    var r := dot / n;
    assert r * n == dot;
    if r > 1.0 {
      ProductGrows(1.0, r, n);
    }
    if r < -1.0 {
      ProductGrows(r, -1.0, n);
    }
  }

  /** So the starting score of -1 loses no entry that is not exactly opposite. */
  lemma CosineBounds(sqrt: real -> real, a: Vector, b: Vector)
    requires IsRoot(sqrt, Dot(a, a)) && IsRoot(sqrt, Dot(b, b))
    ensures -1.0 <= Cosine(sqrt, a, b) <= 1.0
  {
    var na, nb := sqrt(Dot(a, a)), sqrt(Dot(b, b));
    if a != [] && |a| == |b| && na != 0.0 && nb != 0.0 {
      CauchySchwarz(a, b);
      RatioBounds(Dot(a, b), na, nb);
    }
  }

  // ----- what the similarity measures -----

  /** The dot product is the sum over all coordinates: of one it is the product, and of
      vectors put together it is the sum of the two. */
  lemma {:induction false} DotAddsUp(a: Vector, b: Vector, a': Vector, b': Vector)
    requires |a| == |b| && |a'| == |b'|
    ensures Dot(a + a', b + b') == Dot(a, b) + Dot(a', b')
    ensures forall x, y :: Dot([x], [y]) == x * y
  {
    assert Dot([], []) == 0.0;
    assert forall x: real :: [x][..0] == [];
    if a' == [] {
      assert a + a' == a && b + b' == b;
    } else {
      var n := |a'| - 1;
      DotAddsUp(a, b, a'[..n], b'[..n]);
      assert (a + a')[..|a| + n] == a + a'[..n] && (b + b')[..|b| + n] == b + b'[..n];
    }
  }

  function Opposite(a: Vector): Vector {
    seq(|a|, i requires 0 <= i < |a| => -a[i])
  }

  lemma {:induction false} DotOfOpposite(a: Vector, b: Vector)
    requires |a| == |b|
    ensures Dot(a, Opposite(b)) == -Dot(a, b)
    ensures Dot(Opposite(b), Opposite(b)) == Dot(b, b)
  {
    if a == [] {
    } else {
      var n := |a| - 1;
      DotOfOpposite(a[..n], b[..n]);
      assert Opposite(b)[..n] == Opposite(b[..n]);
      assert a[n] * -b[n] == -(a[n] * b[n]);
    }
  }

  function Times(x: real, y: real): real {
    x * y
  }

  lemma PositiveTimes(x: real, y: real)
    requires x > 0.0 && y > 0.0
    ensures Times(x, y) > 0.0
  {
  }

  lemma PositiveSquare(x: real)
    requires x != 0.0
    ensures Times(x, x) > 0.0
  {
    if x > 0.0 {
      PositiveTimes(x, x);
    } else {
      assert Times(-x, -x) == Times(x, x);
      hide Times;
      PositiveTimes(-x, -x);
    }
  }

  lemma {:induction false} SelfDotPositive(a: Vector, i: nat)
    requires i < |a| && a[i] != 0.0
    ensures Dot(a, a) > 0.0
  {
    var n := |a| - 1;
    SelfDot(a[..n]);
    Square(a[n]);
    assert Dot(a, a) == Dot(a[..n], a[..n]) + Times(a[n], a[n]);
    if i == n {
      hide Times;
      PositiveSquare(a[n]);
    } else {
      SelfDotPositive(a[..n], i);
    }
  }

  /** A non-zero vector has similarity 1 with itself and -1 with its opposite. */
  lemma SelfSimilarity(sqrt: real -> real, a: Vector, i: nat)
    requires i < |a| && a[i] != 0.0 && IsRoot(sqrt, Dot(a, a))
    ensures Cosine(sqrt, a, a) == 1.0 && Cosine(sqrt, a, Opposite(a)) == -1.0
  {
    SelfDotPositive(a, i);
    DotOfOpposite(a, a);
    RatioOfSelf(Dot(a, a), sqrt(Dot(a, a)));
  }

  lemma RatioOfSelf(d: real, n: real)
    requires d > 0.0 && n * n == d
    ensures n != 0.0 && Ratio(d, n, n) == 1.0 && Ratio(-d, n, n) == -1.0
  {
    assert n == 0.0 ==> n * n == 0.0;
    var m := n * n;
    assert d / m == 1.0 && (-d) / m == -1.0;
  }

  /** Vectors of different length, and any with a zero vector, have similarity 0. */
  lemma NoSimilarity(sqrt: real -> real, a: Vector, b: Vector)
    requires |a| != |b| || forall i :: 0 <= i < |a| ==> a[i] == 0.0
    requires IsRoot(sqrt, Dot(a, a))
    ensures Cosine(sqrt, a, b) == 0.0
  {
    if forall i :: 0 <= i < |a| ==> a[i] == 0.0 {
      ZeroDot(a);
      ZeroRoot(sqrt(Dot(a, a)));
    }
  }

  lemma ZeroRoot(x: real)
    requires x * x == 0.0
    ensures x == 0.0
  {
    assert Times(x, x) == 0.0;
    hide Times;
    if x != 0.0 {
      PositiveSquare(x);
    }
  }

  lemma {:induction false} ZeroDot(a: Vector)
    requires forall i :: 0 <= i < |a| ==> a[i] == 0.0
    ensures Dot(a, a) == 0.0
  {
    if a == [] {
    } else {
      ZeroDot(a[..|a| - 1]);
    }
  }
}
