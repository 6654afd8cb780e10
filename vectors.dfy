/** Squared Euclidean distance, and the extended value that stands for the
    `math.Inf(1)` returned on vectors of different lengths. Every use of a
    distance in the source compares or thresholds it, and the square root is
    monotone, so the squared distance decides every comparison the same way. */
module Vectors {

  /** A distance that is either finite (the squared Euclidean distance) or +Inf. */
  datatype Distance = Finite(sq: real) | Infinite

  /** Go's `<` on float64 restricted to these values: +Inf < +Inf is false. */
  predicate Below(a: Distance, b: Distance)
  {
    match (a, b)
    case (Finite(x), Finite(y)) => x < y
    case (Finite(_), Infinite) => true
    case (Infinite, _) => false
  }

  /** `a <= b`, i.e. not `b < a`. */
  predicate AtMost(a: Distance, b: Distance)
  {
    !Below(b, a)
  }

  /** `x` squared. It is written as the product of `x` and an identical but
      distinct term because the solver gives up on some linear consequences
      of equations that contain a literal square `x * x`. */
  function Square(x: real): real
  {
    x * Same(x)
  }

  function Same(x: real): real
  {
    x
  }

  /** Sum over the first `n` coordinates of the squared differences. */
  function SumSq(a: seq<real>, b: seq<real>, n: nat): real
    requires n <= |a| && n <= |b|
  {
    if n == 0 then 0.0 else SumSq(a, b, n - 1) + Square(a[n - 1] - b[n - 1])
  }

  /** The distance used by classification.go and clustering.go: +Inf when the
      lengths differ, otherwise the squared Euclidean distance. */
  function Dist(a: seq<real>, b: seq<real>): Distance
  {
    if |a| != |b| then Infinite else Finite(SumSq(a, b, |a|))
  }

  lemma {:induction false} SumSqNonNegative(a: seq<real>, b: seq<real>, n: nat)
    requires n <= |a| && n <= |b|
    ensures SumSq(a, b, n) >= 0.0
  {
    if n > 0 { SumSqNonNegative(a, b, n - 1); }
  }

  lemma {:induction false} SumSqSymmetric(a: seq<real>, b: seq<real>, n: nat)
    requires n <= |a| && n <= |b|
    ensures SumSq(a, b, n) == SumSq(b, a, n)
  {
    if n > 0 { SumSqSymmetric(a, b, n - 1); }
  }

  lemma SquarePositive(d: real)
    ensures Square(d) >= 0.0
    ensures d != 0.0 ==> Square(d) > 0.0
  {
    if d > 0.0 {
      assert d * Same(d) > 0.0;
    } else if d < 0.0 {
      assert d * Same(d) > 0.0;
    }
  }

  lemma AddPositive(s: real, t: real, u: real)
    requires u == s + t && s >= 0.0 && t > 0.0
    ensures u > 0.0
  {
  }

  /** The squared distance over a prefix is zero when the prefixes agree and
      positive otherwise. */
  lemma {:induction false} SumSqZeroIff(a: seq<real>, b: seq<real>, n: nat)
    requires n <= |a| && n <= |b|
    ensures a[..n] == b[..n] ==> SumSq(a, b, n) == 0.0
    ensures a[..n] != b[..n] ==> SumSq(a, b, n) > 0.0
  {
    if n > 0 {
      SumSqZeroIff(a, b, n - 1);
      SumSqNonNegative(a, b, n - 1);
      var d := a[n - 1] - b[n - 1];
      SquarePositive(d);
      assert a[..n] == a[..n - 1] + [a[n - 1]];
      assert b[..n] == b[..n - 1] + [b[n - 1]];
      if a[..n] == b[..n] {
        assert a[..n - 1] == a[..n][..n - 1];
        assert b[..n - 1] == b[..n][..n - 1];
        assert a[n - 1] == a[..n][n - 1] == b[..n][n - 1] == b[n - 1];
      } else if a[..n - 1] == b[..n - 1] {
        assert d != 0.0;
        AddPositive(SumSq(a, b, n - 1), Square(d), SumSq(a, b, n));
      } else {
        AddPositive(Square(d), SumSq(a, b, n - 1), SumSq(a, b, n));
      }
    }
  }

  /** `Dist` is +Inf exactly on mismatched lengths, otherwise non-negative and
      symmetric, and zero exactly on identical vectors. */
  lemma DistProperties(a: seq<real>, b: seq<real>)
    ensures Dist(a, b) == Infinite <==> |a| != |b|
    ensures Dist(a, b) == Dist(b, a)
    ensures Dist(a, b).Finite? ==> Dist(a, b).sq >= 0.0
    ensures Dist(a, b) == Finite(0.0) <==> a == b
  {
    if |a| == |b| {
      SumSqNonNegative(a, b, |a|);
      SumSqSymmetric(a, b, |a|);
      SumSqZeroIff(a, b, |a|);
      assert a[..|a|] == a && b[..|b|] == b;
    }
  }

  /** `Below` is a strict order and `AtMost` a total preorder. */
  lemma OrderFacts(a: Distance, b: Distance, c: Distance)
    ensures !Below(a, a)
    ensures AtMost(a, b) || AtMost(b, a)
    ensures AtMost(a, b) && AtMost(b, c) ==> AtMost(a, c)
    ensures Below(a, b) && AtMost(b, c) ==> Below(a, c)
    ensures AtMost(a, b) && Below(b, c) ==> Below(a, c)
  {
  }
}
