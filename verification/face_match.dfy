/** The face check of `/login` (backend/routes/auth.js): the Euclidean
    distance between the stored and the submitted face descriptor, and the
    strict `< 0.6` threshold.

    The distance is kept squared: `Math.sqrt` is monotone on non-negative
    numbers, so `sqrt(s) < 0.6` holds exactly when `s < 0.36`
    (`ThresholdOnSquares`), and no square root is needed. When the submitted
    vector is shorter than the stored one, `b[i]` is `undefined` past its end
    and the sum becomes `NaN`, which no comparison accepts. */
module FaceMatch {

  /** The value `euclidean` returns, before the square root. */
  datatype Distance = Squared(sum: real) | NaN

  /** The threshold of the face check. */
  const Threshold: real := 0.6

  /** `Threshold * Threshold`, the bound on the squared distance. */
  const SquaredThreshold: real := 0.36

  function Square(x: real): (r: real)
    ensures r >= 0.0
  {
    x * x
  }

  /** The sum of `(a[i] - b[i])^2` over the first `n` indices. */
  function SumSqTo(a: seq<real>, b: seq<real>, n: nat): (r: real)
    requires n <= |a| && n <= |b|
    ensures r >= 0.0
  {
    if n == 0 then 0.0 else SumSqTo(a, b, n - 1) + Square(a[n - 1] - b[n - 1])
  }

  /** What `euclidean(a, b)` computes: the sum runs over the indices of `a`
      only, so entries of `b` beyond `|a|` are ignored, and a `b` shorter
      than `a` gives `NaN`. */
  function Euclid(a: seq<real>, b: seq<real>): Distance {
    if |a| <= |b| then Squared(SumSqTo(a, b, |a|)) else NaN
  }

  /** `distance < threshold`: false for `NaN`. */
  predicate IsMatch(d: Distance) {
    d.Squared? && d.sum < SquaredThreshold
  }

  /** The loop of `euclidean`, accumulating `sum` index by index. */
  method Euclidean(a: seq<real>, b: seq<real>) returns (d: Distance)
    ensures d == Euclid(a, b)
    ensures d.Squared? <==> |a| <= |b|
  {
    d := Squared(0.0);
    var i := 0;
    while i < |a|
      invariant 0 <= i <= |a|
      invariant d == if i <= |b| then Squared(SumSqTo(a, b, i)) else NaN
    {
      if d.Squared? && i < |b| {
        d := Squared(d.sum + Square(a[i] - b[i]));
      } else {
        d := NaN;
      }
      i := i + 1;
    }
  }

  /** Comparing the square root with 0.6 is comparing the square with 0.36;
      in particular a distance of exactly 0.6 is not a match. */
  lemma ThresholdOnSquares(root: real, s: real)
    requires root >= 0.0 && root * root == s
    ensures root < Threshold <==> s < SquaredThreshold
  {
    if root < Threshold {
      assert root * root <= root * Threshold < Threshold * Threshold;
    } else {
      assert root * root >= Threshold * root >= Threshold * Threshold;
    }
  }

  /** A descriptor is at distance zero from itself, so it always matches. */
  lemma {:induction false} SelfDistanceZero(a: seq<real>, n: nat)
    requires n <= |a|
    ensures SumSqTo(a, a, n) == 0.0
  {
    if n > 0 {
      SelfDistanceZero(a, n - 1);
    }
  }

  lemma SelfMatch(a: seq<real>)
    ensures Euclid(a, a) == Squared(0.0) && IsMatch(Euclid(a, a))
  {
    SelfDistanceZero(a, |a|);
  }

  lemma {:induction false} SumSqSymmetric(a: seq<real>, b: seq<real>, n: nat)
    requires n <= |a| && n <= |b|
    ensures SumSqTo(a, b, n) == SumSqTo(b, a, n)
  {
    if n > 0 {
      SumSqSymmetric(a, b, n - 1);
      assert Square(a[n - 1] - b[n - 1]) == Square(b[n - 1] - a[n - 1]);
    }
  }

  /** For vectors of the same length the distance is symmetric. */
  lemma DistanceSymmetric(a: seq<real>, b: seq<real>)
    requires |a| == |b|
    ensures Euclid(a, b) == Euclid(b, a)
  {
    SumSqSymmetric(a, b, |a|);
  }

  /** Only the first `n` entries of either vector take part in the sum. */
  lemma {:induction false} SumSqPrefix(a: seq<real>, b: seq<real>, c: seq<real>, n: nat)
    requires n <= |a| && n <= |b|
    ensures SumSqTo(a, b + c, n) == SumSqTo(a, b, n)
  {
    if n > 0 {
      SumSqPrefix(a, b, c, n - 1);
      assert (b + c)[n - 1] == b[n - 1];
    }
  }

  /** Entries of the submitted vector beyond the stored one's length do not
      change the distance. */
  lemma ExtraEntriesIgnored(a: seq<real>, b: seq<real>, c: seq<real>)
    requires |a| <= |b|
    ensures Euclid(a, b + c) == Euclid(a, b)
  {
    SumSqPrefix(a, b, c, |a|);
  }

  /** A submitted vector shorter than the stored one never matches. */
  lemma ShorterNeverMatches(a: seq<real>, b: seq<real>)
    requires |b| < |a|
    ensures !IsMatch(Euclid(a, b))
  {
  }
}
