/** The cosine similarity of two embedding vectors. */
module Similarity {

  function Product(x: real, y: real): real {
    x * y
  }

  function Dot(a: seq<real>, b: seq<real>): real
    requires |a| == |b|
    decreases |a|
  {
    if a == [] then 0.0 else Dot(a[..|a| - 1], b[..|b| - 1]) + Product(a[|a| - 1], b[|b| - 1])
  }

  lemma {:induction false} DotIsSymmetric(a: seq<real>, b: seq<real>)
    requires |a| == |b|
    ensures Dot(a, b) == Dot(b, a)
    decreases |a|
  {
    if a != [] { DotIsSymmetric(a[..|a| - 1], b[..|b| - 1]); }
  }

  lemma {:induction false} NormIsPositive(a: seq<real>)
    ensures Dot(a, a) >= 0.0
    decreases |a|
  {
    hide Product;
    if a != [] {
      NormIsPositive(a[..|a| - 1]);
      SquareIsPositive(a[|a| - 1]);
    }
  }

  lemma {:induction false} NonZeroNorm(a: seq<real>, k: nat)
    requires k < |a| && a[k] != 0.0
    ensures Dot(a, a) > 0.0
    decreases |a|
  {
    hide Product;
    var n := |a| - 1;
    SquareIsPositive(a[n]);
    NormIsPositive(a[..n]);
    if k < n { NonZeroNorm(a[..n], k); }
  }

  lemma ProductIsPositive(x: real, y: real)
    requires x > 0.0 && y > 0.0
    ensures x * y > 0.0 && Product(x, y) > 0.0
  {
  }

  lemma OppositeSquare(x: real)
    ensures Product(-x, -x) == Product(x, x)
  {
  }

  lemma SquareIsPositive(x: real)
    ensures x * x >= 0.0
    ensures Product(x, x) >= 0.0 && (x != 0.0 ==> Product(x, x) > 0.0)
  {
    assert Product(x, x) == x * x;
    hide Product;
    if x > 0.0 {
      ProductIsPositive(x, x);
    } else if x < 0.0 {
      ProductIsPositive(-x, -x);
      OppositeSquare(x);
    }
  }

  lemma RootOrder(x: real, y: real)
    requires y >= 0.0 && x * x <= y * y
    ensures x <= y
  {
    if x > y { Bigger(x, y); }
  }

  lemma Bigger(x: real, y: real)
    requires x > y >= 0.0
    ensures x * x > y * y
  {
    ProductIsPositive(x - y, x + y);
    assert (x - y) * (x + y) == x * x - y * y;
  }

  /** One more component: twice a product is at most the sum of the crossed squares. */
  lemma CrossTerm(d: real, na: real, nb: real, x: real, y: real)
    requires na >= 0.0 && nb >= 0.0 && d * d <= na * nb
    ensures 2.0 * d * x * y <= na * y * y + nb * x * x
  {
    var p, q := na * (y * y), nb * (x * x);
    SquareIsPositive(x);
    SquareIsPositive(y);
    assert p >= 0.0 && q >= 0.0;
    SquareIsPositive(p - q);
    var z := 2.0 * d * x * y;
    var xy := (x * x) * (y * y);
    assert xy >= 0.0;
    assert z * z == 4.0 * (d * d) * xy;
    assert p * q == (na * nb) * xy;
    assert (d * d) * xy <= (na * nb) * xy;
    assert (p + q) * (p + q) == (p - q) * (p - q) + 4.0 * (p * q);
    RootOrder(z, p + q);
  }

  /** The Cauchy-Schwarz inequality. */
  lemma {:induction false} CauchySchwarz(a: seq<real>, b: seq<real>)
    requires |a| == |b|
    ensures Dot(a, b) * Dot(a, b) <= Dot(a, a) * Dot(b, b)
    decreases |a|
  {
    if a != [] {
      var n := |a| - 1;
      var d, na, nb, x, y := Dot(a[..n], b[..n]), Dot(a[..n], a[..n]), Dot(b[..n], b[..n]), a[n], b[n];
      CauchySchwarz(a[..n], b[..n]);
      NormIsPositive(a[..n]);
      NormIsPositive(b[..n]);
      CrossTerm(d, na, nb, x, y);
      Expand(d, na, nb, x, y);
    }
  }

  lemma Expand(d: real, na: real, nb: real, x: real, y: real)
    requires d * d <= na * nb && 2.0 * d * x * y <= na * y * y + nb * x * x
    ensures (d + x * y) * (d + x * y) <= (na + x * x) * (nb + y * y)
  {
    var s := (x * x) * (y * y);
    assert (d + x * y) * (d + x * y) == d * d + 2.0 * d * x * y + s;
    assert (na + x * x) * (nb + y * y) == na * nb + na * y * y + nb * x * x + s;
  }

  /** The loop. A second vector that is too short makes a sum that is not a number. */
  method Accumulate(vecA: seq<real>, vecB: seq<real>) returns (isNumber: bool, dot: real, normA: real, normB: real)
    ensures isNumber <==> |vecA| <= |vecB|
    ensures isNumber ==>
      var b := vecB[..|vecA|]; dot == Dot(vecA, b) && normA == Dot(vecA, vecA) && normB == Dot(b, b)
  {
    dot, normA, normB, isNumber := 0.0, 0.0, 0.0, true;
    for i := 0 to |vecA|
      invariant isNumber <==> i <= |vecB|
      invariant isNumber ==>
        var a, b := vecA[..i], vecB[..i]; dot == Dot(a, b) && normA == Dot(a, a) && normB == Dot(b, b)
    {
      if i < |vecB| {
        assert vecA[..i + 1][..i] == vecA[..i] && vecB[..i + 1][..i] == vecB[..i];
        dot := dot + Product(vecA[i], vecB[i]);
        normA := normA + Product(vecA[i], vecA[i]);
        normB := normB + Product(vecB[i], vecB[i]);
      } else {
        isNumber := false;
      }
    }
    assert vecA[..|vecA|] == vecA;
  }

  /** What is answered, given the two square roots. */
  function Similarity(dot: real, rootA: real, rootB: real): real
    requires rootA > 0.0 && rootB > 0.0
  {
    dot / (rootA * rootB)
  }

  ghost predicate IsRoot(r: real, x: real) {
    r >= 0.0 && r * r == x
  }

  lemma Quotient(d: real, m: real)
    requires m > 0.0 && d * d <= m * m
    ensures -1.0 <= d / m <= 1.0
  {
    RootOrder(d, m);
    assert (-d) * (-d) == d * d;
    RootOrder(-d, m);
    assert d / m * m == d;
  }

  /** For all vectors of one length that are not all zeros, the similarity is a number from -1 to 1, and
      the same both ways round. */
  lemma SimilarityInRange(a: seq<real>, b: seq<real>, rootA: real, rootB: real)
    requires |a| == |b| && IsRoot(rootA, Dot(a, a)) && IsRoot(rootB, Dot(b, b))
    requires (exists x <- a :: x != 0.0) && (exists x <- b :: x != 0.0)
    ensures rootA > 0.0 && rootB > 0.0
    ensures -1.0 <= Similarity(Dot(a, b), rootA, rootB) <= 1.0
    ensures Similarity(Dot(a, b), rootA, rootB) == Similarity(Dot(b, a), rootB, rootA)
  {
    var i :| 0 <= i < |a| && a[i] != 0.0;
    var j :| 0 <= j < |b| && b[j] != 0.0;
    NonZeroNorm(a, i);
    NonZeroNorm(b, j);
    CauchySchwarz(a, b);
    DotIsSymmetric(a, b);
    var d, m := Dot(a, b), rootA * rootB;
    assert m * m == Dot(a, a) * Dot(b, b);
    Quotient(d, m);
    assert rootA * rootB == rootB * rootA;
  }
}
