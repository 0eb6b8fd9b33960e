/** Dot products, normalisation and the nearest centroid of a row, as functions over reals.
    `math.Sqrt` is a parameter: any function that returns the non-negative root. */
module Cosine {
  import opened Sequences

  type Vector = seq<real>

  ghost predicate IsSqrt(sqrt: real -> real) {
    forall s: real :: s >= 0.0 ==> IsRoot(sqrt, s)
  }

  ghost predicate IsRoot(sqrt: real -> real, s: real) {
    sqrt(s) >= 0.0 && sqrt(s) * sqrt(s) == s
  }

  function Dot(a: Vector, b: Vector): real
    requires |a| == |b|
  {
    if a == [] then 0.0
    else
      var n := |a| - 1;
      Dot(a[..n], b[..n]) + a[n] * b[n]
  }

  function Scale(v: Vector, c: real): (r: Vector)
    ensures |r| == |v|
  {
    seq(|v|, i requires 0 <= i < |v| => v[i] * c)
  }

  /** A row divided by its norm; a zero row stays as it is. */
  function Unit(v: Vector, sqrt: real -> real): (u: Vector)
    ensures |u| == |v|
  {
    var norm := sqrt(Dot(v, v));
    if norm != 0.0 then seq(|v|, i requires 0 <= i < |v| => v[i] / norm) else v
  }

  function Similarity(a: Vector, b: Vector, sqrt: real -> real): real
    requires |a| == |b|
  {
    Dot(Unit(a, sqrt), Unit(b, sqrt))
  }

  // ----- dot products

  lemma {:induction false} DotScale(a: Vector, b: Vector, c: real)
    requires |a| == |b|
    ensures Dot(Scale(a, c), b) == c * Dot(a, b)
  {
    if a == [] {
    } else {
      var n := |a| - 1;
      DotScale(a[..n], b[..n], c);
      forall i | 0 <= i < n ensures Scale(a, c)[..n][i] == Scale(a[..n], c)[i] {
      }
      assert Scale(a, c)[..n] == Scale(a[..n], c);
      Regroup(c, Dot(a[..n], b[..n]), a[n], b[n]);
    }
  }

  lemma DotOfScaled(v: Vector, c: real)
    ensures Dot(Scale(v, c), Scale(v, c)) == c * (c * Dot(v, v))
  {
    DotScale(v, Scale(v, c), c);
    DotComm(v, Scale(v, c));
    DotScale(v, v, c);
  }

  lemma Regroup(c: real, d: real, x: real, y: real)
    ensures c * d + (x * c) * y == c * (d + x * y)
  {
  }

  lemma {:induction false} DotComm(a: Vector, b: Vector)
    requires |a| == |b|
    ensures Dot(a, b) == Dot(b, a)
  {
    if a == [] {
    } else {
      var n := |a| - 1;
      DotComm(a[..n], b[..n]);
    }
  }

  lemma {:induction false} DotSelf(a: Vector)
    ensures Dot(a, a) >= 0.0
    ensures Dot(a, a) == 0.0 ==> forall i :: 0 <= i < |a| ==> a[i] == 0.0
  {
    if a == [] {
    } else {
      var n := |a| - 1;
      DotSelf(a[..n]);
      SumIsZero(Dot(a[..n], a[..n]), a[n], a[n] * a[n]);
      if Dot(a, a) == 0.0 {
        forall i | 0 <= i < n ensures a[i] == 0.0 {
          assert a[..n][i] == 0.0;
        }
      }
    }
  }

  // ----- what the dot product is

  function Add(a: Vector, b: Vector): (r: Vector)
    requires |a| == |b|
    ensures |r| == |a|
  {
    seq(|a|, j requires 0 <= j < |a| => a[j] + b[j])
  }

  function Products(a: Vector, b: Vector): (r: seq<real>)
    requires |a| == |b|
    ensures |r| == |a|
  {
    seq(|a|, j requires 0 <= j < |a| => a[j] * b[j])
  }

  /** It is the plain sum of the products of the components. */
  lemma {:induction false} DotIsSum(a: Vector, b: Vector)
    requires |a| == |b|
    ensures Dot(a, b) == RealSum(Products(a, b))
  {
    if a == [] {
    } else {
      var n := |a| - 1;
      DotIsSum(a[..n], b[..n]);
      forall j | 0 <= j < n ensures Products(a, b)[..n][j] == Products(a[..n], b[..n])[j] {
      }
      assert Products(a, b)[..n] == Products(a[..n], b[..n]);
    }
  }

  function Basis(n: nat, j: nat): (e: Vector)
    ensures |e| == n
  {
    seq(n, i => if i == j then 1.0 else 0.0)
  }

  /** The product with a basis vector is the component. */
  lemma {:induction false} DotBasis(a: Vector, j: nat)
    ensures Dot(a, Basis(|a|, j)) == if j < |a| then a[j] else 0.0
  {
    if a == [] {
    } else {
      var n := |a| - 1;
      DotBasis(a[..n], j);
      assert Basis(|a|, j)[..n] == Basis(n, j);
    }
  }

  /** The product is additive. */
  lemma {:induction false} DotAdd(a: Vector, b: Vector, c: Vector)
    requires |a| == |b| == |c|
    ensures Dot(Add(a, b), c) == Dot(a, c) + Dot(b, c)
  {
    if a == [] {
    } else {
      var n := |a| - 1;
      DotAdd(a[..n], b[..n], c[..n]);
      assert Add(a, b)[..n] == Add(a[..n], b[..n]);
      assert Add(a, b)[n] * c[n] == a[n] * c[n] + b[n] * c[n];
    }
  }

  /** It does not depend on the order of the components. */
  lemma DotPermuted(a: Vector, b: Vector, order: seq<nat>)
    requires |a| == |b| && IsOrder(order, |a|)
    ensures Dot(Permuted(a, order), Permuted(b, order)) == Dot(a, b)
  {
    DotIsSum(a, b);
    DotIsSum(Permuted(a, order), Permuted(b, order));
    ProductsPermuted(a, b, order);
    PermutedIsPermutation(Products(a, b), order);
    RealSumIgnoresOrder(Products(a, b), Permuted(Products(a, b), order));
  }

  lemma ProductsPermuted(a: Vector, b: Vector, order: seq<nat>)
    requires |a| == |b| && IsOrder(order, |a|)
    ensures Products(Permuted(a, order), Permuted(b, order)) == Permuted(Products(a, b), order)
  {
    var p, q := Permuted(a, order), Permuted(b, order);
    forall j | 0 <= j < |a| ensures Products(p, q)[j] == Permuted(Products(a, b), order)[j] {
      assert p[j] == a[order[j]] && q[j] == b[order[j]];
    }
  }

  // Products are named by arguments, which keeps them opaque to the solver.

  lemma ProductSign(x: real, y: real, m: real)
    requires m == x * y
    ensures x > 0.0 && y > 0.0 ==> m > 0.0
    ensures x < 0.0 && y < 0.0 ==> m > 0.0
    ensures x == 0.0 ==> m == 0.0
  {
    if x < 0.0 && y < 0.0 {
      assert m == (-x) * (-y);
    }
  }

  lemma SumIsZero(d: real, x: real, m: real)
    requires d >= 0.0 && m == x * x
    ensures d + m >= 0.0
    ensures d + m == 0.0 ==> d == 0.0 && x == 0.0
  {
    ProductSign(x, x, m);
  }

  function Combine(a: Vector, b: Vector, c: real): Vector
    requires |a| == |b|
  {
    seq(|a|, i requires 0 <= i < |a| => a[i] + c * b[i])
  }

  /** |a + c b|^2 for c = 1 and c = -1. */
  lemma {:induction false} DotCombine(a: Vector, b: Vector, c: real)
    requires |a| == |b| && (c == 1.0 || c == -1.0)
    ensures Dot(Combine(a, b, c), Combine(a, b, c)) == Dot(a, a) + 2.0 * c * Dot(a, b) + Dot(b, b)
  {
    if a == [] {
    } else {
      var n := |a| - 1;
      DotCombine(a[..n], b[..n], c);
      assert Combine(a, b, c)[..n] == Combine(a[..n], b[..n], c);
      Square(a[n], b[n], c);
    }
  }

  lemma Square(x: real, y: real, c: real)
    requires c == 1.0 || c == -1.0
    ensures (x + c * y) * (x + c * y) == x * x + 2.0 * c * (x * y) + y * y
  {
  }

  // ----- normalised rows

  /** A normalised row has length one, unless it is the zero row. */
  lemma UnitLength(v: Vector, sqrt: real -> real)
    requires IsSqrt(sqrt)
    ensures var u := Unit(v, sqrt);
      Dot(u, u) == 1.0 || (Dot(u, u) == 0.0 && u == v)
  {
    DotSelf(v);
    assert IsRoot(sqrt, Dot(v, v));
    var norm := sqrt(Dot(v, v));
    if norm != 0.0 {
      assert norm > 0.0;
      var u := Unit(v, sqrt);
      UnitIsScale(v, sqrt);
      DotOfScaled(v, 1.0 / norm);
    }
  }

  lemma UnitIsScale(v: Vector, sqrt: real -> real)
    requires sqrt(Dot(v, v)) != 0.0
    ensures Unit(v, sqrt) == Scale(v, 1.0 / sqrt(Dot(v, v)))
  {
    var norm := sqrt(Dot(v, v));
    forall i | 0 <= i < |v| ensures Unit(v, sqrt)[i] == Scale(v, 1.0 / norm)[i] {
      DivIsTimes(v[i], norm);
    }
  }

  lemma DivIsTimes(x: real, y: real)
    requires y != 0.0
    ensures x / y == x * (1.0 / y)
  {
    assert x * (1.0 / y) * y == x;
  }

  lemma TimesOver(x: real, norm: real)
    requires norm != 0.0
    ensures x / norm * norm == x
  {
  }

  /** A row is its unit row times its length. */
  lemma UnitTimesLength(v: Vector, sqrt: real -> real)
    requires IsSqrt(sqrt)
    ensures Scale(Unit(v, sqrt), sqrt(Dot(v, v))) == v
  {
    DotSelf(v);
    assert IsRoot(sqrt, Dot(v, v));
    var norm := sqrt(Dot(v, v));
    forall i | 0 <= i < |v| ensures Scale(Unit(v, sqrt), norm)[i] == v[i] {
      if norm != 0.0 {
        TimesOver(v[i], norm);
      }
    }
  }

  /** The similarity is the cosine: of two rows given by their directions and lengths it is the dot
      product of the directions. Every row is such a multiple, by `UnitLength` and `UnitTimesLength`,
      except a zero row, whose similarity is zero. */
  lemma SimilarityIsCosine(u: Vector, w: Vector, x: real, y: real, sqrt: real -> real)
    requires IsSqrt(sqrt) && |u| == |w| && x > 0.0 && y > 0.0
    requires Dot(u, u) == 1.0 || Dot(u, u) == 0.0
    requires Dot(w, w) == 1.0 || Dot(w, w) == 0.0
    ensures Similarity(Scale(u, x), Scale(w, y), sqrt) == Dot(u, w)
  {
    UnitOfScaled(u, x, sqrt);
    UnitOfScaled(w, y, sqrt);
    UnitOfUnit(u, sqrt);
    UnitOfUnit(w, sqrt);
  }

  lemma UnitOfUnit(u: Vector, sqrt: real -> real)
    requires IsSqrt(sqrt) && (Dot(u, u) == 1.0 || Dot(u, u) == 0.0)
    ensures Unit(u, sqrt) == u
  {
    assert IsRoot(sqrt, Dot(u, u));
    SqrtUnique(sqrt(Dot(u, u)), Dot(u, u));
  }

  lemma ZeroUnit(a: Vector, b: Vector, sqrt: real -> real)
    requires IsSqrt(sqrt) && |a| == |b| && Dot(a, a) == 0.0
    ensures Similarity(a, b, sqrt) == 0.0
  {
    DotSelf(a);
    assert IsRoot(sqrt, 0.0);
    assert Unit(a, sqrt) == a == Scale(a, 0.0);
    DotScale(a, Unit(b, sqrt), 0.0);
  }

  /** A row is as similar to itself as can be. */
  lemma SelfSimilarity(a: Vector, sqrt: real -> real)
    requires IsSqrt(sqrt)
    ensures Similarity(a, a, sqrt) == if Dot(a, a) == 0.0 then 0.0 else 1.0
  {
    UnitLength(a, sqrt);
    if Dot(a, a) == 0.0 {
      ZeroUnit(a, a, sqrt);
    }
  }

  /** Nor does the similarity depend on the order of the components. */
  lemma SimilarityPermuted(a: Vector, b: Vector, order: seq<nat>, sqrt: real -> real)
    requires |a| == |b| && IsOrder(order, |a|)
    ensures Similarity(Permuted(a, order), Permuted(b, order), sqrt) == Similarity(a, b, sqrt)
  {
    UnitPermuted(a, order, sqrt);
    UnitPermuted(b, order, sqrt);
    DotPermuted(Unit(a, sqrt), Unit(b, sqrt), order);
  }

  lemma UnitPermuted(a: Vector, order: seq<nat>, sqrt: real -> real)
    requires IsOrder(order, |a|)
    ensures Unit(Permuted(a, order), sqrt) == Permuted(Unit(a, sqrt), order)
  {
    DotPermuted(a, a, order);
  }

  /** Cauchy-Schwarz for normalised rows, zero rows included. */
  lemma SimilarityRange(a: Vector, b: Vector, sqrt: real -> real)
    requires IsSqrt(sqrt) && |a| == |b|
    ensures -1.0 <= Similarity(a, b, sqrt) <= 1.0
  {
    var u, w := Unit(a, sqrt), Unit(b, sqrt);
    UnitLength(a, sqrt);
    UnitLength(b, sqrt);
    DotSelf(Combine(u, w, 1.0));
    DotSelf(Combine(u, w, -1.0));
    DotCombine(u, w, 1.0);
    DotCombine(u, w, -1.0);
  }

  lemma SqrtUnique(x: real, y: real)
    requires x >= 0.0 && y >= 0.0 && x * x == y * y
    ensures x == y
  {
    if x > y {
      ProductSign(x - y, x + y, (x - y) * (x + y));
    } else if y > x {
      ProductSign(y - x, y + x, (y - x) * (y + x));
    }
  }

  /** Normalising does not see a positive factor. */
  lemma UnitOfScaled(v: Vector, c: real, sqrt: real -> real)
    requires IsSqrt(sqrt) && c > 0.0
    ensures Unit(Scale(v, c), sqrt) == Unit(v, sqrt)
  {
    var w := Scale(v, c);
    DotSelf(v);
    DotSelf(w);
    DotOfScaled(v, c);
    assert IsRoot(sqrt, Dot(v, v)) && IsRoot(sqrt, Dot(w, w));
    var n, n' := sqrt(Dot(v, v)), sqrt(Dot(w, w));
    RootOfScaled(n, n', c, Dot(v, v), Dot(w, w));
    if n == 0.0 {
      assert w == v;
    } else {
      ProductSign(c, n, c * n);
      ScaledQuotients(v, c, n, n');
    }
  }

  lemma ScaledQuotients(v: Vector, c: real, n: real, n': real)
    requires c > 0.0 && n > 0.0 && n' > 0.0 && n' == c * n
    ensures forall i :: 0 <= i < |v| ==> Scale(v, c)[i] / n' == v[i] / n
  {
    forall i | 0 <= i < |v| ensures Scale(v, c)[i] / n' == v[i] / n {
      CancelFactor(v[i], c, n, n');
    }
  }

  lemma RootOfScaled(n: real, n': real, c: real, s: real, s': real)
    requires n >= 0.0 && n' >= 0.0 && c > 0.0
    requires n * n == s && n' * n' == s' && s' == c * (c * s)
    ensures n' == c * n
  {
    assert (c * n) * (c * n) == c * (c * (n * n));
    assert c * n >= 0.0;
    SqrtUnique(n', c * n);
  }

  lemma CancelFactor(x: real, c: real, n: real, n': real)
    requires c > 0.0 && n > 0.0 && n' > 0.0 && n' == c * n
    ensures (x * c) / n' == x / n
  {
    var q := x / n;
    assert q * n == x;
    assert q * n' == x * c;
  }

  /** Normalising twice is normalising once, so an in-place normalisation can be repeated. */
  lemma UnitIdempotent(v: Vector, sqrt: real -> real)
    requires IsSqrt(sqrt)
    ensures Unit(Unit(v, sqrt), sqrt) == Unit(v, sqrt)
  {
    UnitLength(v, sqrt);
    UnitOfUnit(Unit(v, sqrt), sqrt);
  }

  // ----- nearest centroid

  /** The leftmost position of the maximum. */
  ghost predicate IsLeftmostMax(scores: seq<real>, k: nat) {
    && k < |scores|
    && (forall j :: 0 <= j < |scores| ==> scores[j] <= scores[k])
    && (forall j :: 0 <= j < k ==> scores[j] < scores[k])
  }

  function ArgMax(scores: seq<real>): (k: nat)
    requires scores != []
    ensures k < |scores|
  {
    var n := |scores| - 1;
    if n == 0 then 0
    else
      var before := ArgMax(scores[..n]);
      if scores[n] > scores[before] then n else before
  }

  lemma {:induction false} ArgMaxIsLeftmost(scores: seq<real>)
    requires scores != []
    ensures IsLeftmostMax(scores, ArgMax(scores))
  {
    var n := |scores| - 1;
    if n == 0 {
    } else {
      ArgMaxIsLeftmost(scores[..n]);
      assert forall j :: 0 <= j < n ==> scores[..n][j] == scores[j];
    }
  }

  /** A scan that finds the leftmost maximum finds this position, and no other. */
  lemma ArgMaxIff(scores: seq<real>, k: nat)
    requires scores != []
    ensures k == ArgMax(scores) <==> IsLeftmostMax(scores, k)
  {
    ArgMaxIsLeftmost(scores);
    if IsLeftmostMax(scores, k) {
      assert scores[k] <= scores[ArgMax(scores)] && scores[ArgMax(scores)] <= scores[k];
    }
  }

  predicate SameWidth(rows: seq<Vector>, cols: nat) {
    forall i :: 0 <= i < |rows| ==> |rows[i]| == cols
  }

  function Scores(centroids: seq<Vector>, row: Vector, sqrt: real -> real): (scores: seq<real>)
    requires SameWidth(centroids, |row|)
    ensures |scores| == |centroids|
  {
    seq(|centroids|, j requires 0 <= j < |centroids| => Similarity(centroids[j], row, sqrt))
  }

  /** The index of the centroid most similar to `row`, the leftmost one if several tie. */
  function Nearest(centroids: seq<Vector>, row: Vector, sqrt: real -> real): (k: nat)
    requires centroids != [] && SameWidth(centroids, |row|)
    ensures k < |centroids|
  {
    ArgMax(Scores(centroids, row, sqrt))
  }

  /** The similarity of the nearest centroid. */
  function NearestScore(centroids: seq<Vector>, row: Vector, sqrt: real -> real): real
    requires centroids != [] && SameWidth(centroids, |row|)
  {
    Similarity(centroids[Nearest(centroids, row, sqrt)], row, sqrt)
  }

  /** No centroid is more similar to the row, and none before is as similar. */
  lemma NearestIsMostSimilar(centroids: seq<Vector>, row: Vector, sqrt: real -> real, j: nat)
    requires centroids != [] && SameWidth(centroids, |row|) && j < |centroids|
    ensures Similarity(centroids[j], row, sqrt) <= NearestScore(centroids, row, sqrt)
    ensures j < Nearest(centroids, row, sqrt) ==>
              Similarity(centroids[j], row, sqrt) < NearestScore(centroids, row, sqrt)
  {
    var scores := Scores(centroids, row, sqrt);
    ArgMaxIsLeftmost(scores);
    assert scores[j] == Similarity(centroids[j], row, sqrt);
  }

  /** The nearest centroid of every point. */
  function NearestAll(centroids: seq<Vector>, points: seq<Vector>, cols: nat, sqrt: real -> real): (ks: seq<nat>)
    requires centroids != [] && SameWidth(centroids, cols) && SameWidth(points, cols)
    ensures |ks| == |points|
  {
    seq(|points|, i requires 0 <= i < |points| => Nearest(centroids, points[i], sqrt))
  }

  /** Points can be searched in chunks. */
  lemma NearestAllAppend(centroids: seq<Vector>, p1: seq<Vector>, p2: seq<Vector>, cols: nat, sqrt: real -> real)
    requires centroids != [] && SameWidth(centroids, cols)
    requires SameWidth(p1, cols) && SameWidth(p2, cols)
    ensures SameWidth(p1 + p2, cols)
    ensures NearestAll(centroids, p1 + p2, cols, sqrt)
         == NearestAll(centroids, p1, cols, sqrt) + NearestAll(centroids, p2, cols, sqrt)
  {
    var all := p1 + p2;
    assert forall i :: 0 <= i < |p1| ==> all[i] == p1[i];
    assert forall i :: 0 <= i < |p2| ==> all[|p1| + i] == p2[i];
  }

  /** `k` is the nearest centroid of `row` and `similarity` how near it is. */
  ghost predicate IsMatch(k: nat, similarity: real, centroids: seq<Vector>, row: Vector, sqrt: real -> real)
    requires centroids != [] && SameWidth(centroids, |row|)
  {
    k == Nearest(centroids, row, sqrt) && similarity == NearestScore(centroids, row, sqrt)
  }

  function UnitRows(rows: seq<Vector>, sqrt: real -> real): seq<Vector> {
    seq(|rows|, i requires 0 <= i < |rows| => Unit(rows[i], sqrt))
  }

  /** The nearest index does not depend on the length of the row or of any centroid. */
  lemma NearestIgnoresScale(centroids: seq<Vector>, row: Vector, c: real, j: nat, sqrt: real -> real)
    requires IsSqrt(sqrt) && c > 0.0 && j < |centroids|
    requires SameWidth(centroids, |row|)
    ensures Nearest(centroids, Scale(row, c), sqrt) == Nearest(centroids, row, sqrt)
    ensures Nearest(centroids[j := Scale(centroids[j], c)], row, sqrt) == Nearest(centroids, row, sqrt)
  {
    UnitOfScaled(row, c, sqrt);
    UnitOfScaled(centroids[j], c, sqrt);
    assert Scores(centroids, Scale(row, c), sqrt) == Scores(centroids, row, sqrt);
    assert Scores(centroids[j := Scale(centroids[j], c)], row, sqrt) == Scores(centroids, row, sqrt);
  }

  /** Nor on whether the rows were normalised before. */
  lemma NearestOfNormalised(centroids: seq<Vector>, row: Vector, sqrt: real -> real)
    requires IsSqrt(sqrt) && centroids != []
    requires SameWidth(centroids, |row|)
    ensures Nearest(UnitRows(centroids, sqrt), Unit(row, sqrt), sqrt) == Nearest(centroids, row, sqrt)
  {
    UnitIdempotent(row, sqrt);
    forall i | 0 <= i < |centroids|
      ensures Unit(UnitRows(centroids, sqrt)[i], sqrt) == Unit(centroids[i], sqrt)
    {
      UnitIdempotent(centroids[i], sqrt);
    }
    assert Scores(UnitRows(centroids, sqrt), Unit(row, sqrt), sqrt) == Scores(centroids, row, sqrt);
  }
}
