/** The latency accumulator, over exact reals: streaming mean and squared deviation,
    extremes, a bounded reservoir of samples and interpolated quantiles. */
module Statistics {
  import opened RingIndex

  /** Multiplication under a name, so that proofs about figures need not see products. */
  function Mul(a: real, b: real): real {
    a * b
  }

  // ---- definitions the streaming figures must agree with

  ghost function Total(xs: seq<real>): real {
    if xs == [] then 0.0 else Total(xs[..|xs| - 1]) + xs[|xs| - 1]
  }

  ghost function Mean(xs: seq<real>): real {
    if xs == [] then 0.0 else Total(xs) / |xs| as real
  }

  ghost function SquaredDeviation(xs: seq<real>, m: real): real {
    if xs == [] then 0.0
    else SquaredDeviation(xs[..|xs| - 1], m) + Mul(xs[|xs| - 1] - m, xs[|xs| - 1] - m)
  }

  ghost function SquareTotal(xs: seq<real>): real {
    if xs == [] then 0.0 else SquareTotal(xs[..|xs| - 1]) + Mul(xs[|xs| - 1], xs[|xs| - 1])
  }

  /** Largest finite value of the source's floating-point type: 53 significant bits, exponent 1023. */
  const FINITE_MAX: real := (Pow2(1024) - Pow2(971)) as real

  lemma OneLess(a: int, b: int)
    ensures (a - 1) * b == a * b - b
  {
  }

  /** All ones in 53 bits, shifted as far as the exponent allows. */
  lemma LargestDouble()
    ensures FINITE_MAX == ((Pow2(53) - 1) * Pow2(971)) as real
  {
    hide Pow2;
    Pow2Divides(971, 1024);
    OneLess(Pow2(53), Pow2(971));
  }

  const MAX_SAMPLES: nat := 1_000_000

  predicate Finite(x: real) {
    -FINITE_MAX <= x <= FINITE_MAX
  }

  ghost predicate AllFinite(xs: seq<real>) {
    forall i :: 0 <= i < |xs| ==> Finite(xs[i])
  }

  lemma Times(a: real, b: real, c: real)
    ensures a * (b + c) == a * b + a * c && (b + c) * a == b * a + c * a
    ensures a * (b - c) == a * b - a * c && (b - c) * a == b * a - c * a
  {
  }

  /** What the squared deviation from `m` must be, for n samples with the given totals. */
  ghost predicate Expanded(n: real, squares: real, total: real, m: real, deviation: real) {
    deviation == squares - 2.0 * Mul(m, total) + Mul(n, Mul(m, m))
  }

  lemma ExpandStep(n: real, squares: real, total: real, m: real, x: real, deviation: real)
    requires Expanded(n, squares, total, m, deviation)
    ensures Expanded(n + 1.0, squares + Mul(x, x), total + x, m, deviation + Mul(x - m, x - m))
  {
    Times(x - m, x, m);
    Times(x, x, m);
    Times(m, x, m);
    Times(m, total, x);
    Times(m * m, n, 1.0);
  }

  lemma {:induction false} DeviationExpands(xs: seq<real>, m: real)
    ensures Expanded(|xs| as real, SquareTotal(xs), Total(xs), m, SquaredDeviation(xs, m))
  {
    if xs == [] {
      assert Expanded(0.0, 0.0, 0.0, m, 0.0);
    } else {
      hide Expanded, Mul;
      var front, x := xs[..|xs| - 1], xs[|xs| - 1];
      DeviationExpands(front, m);
      ExpandStep(|front| as real, SquareTotal(front), Total(front), m, x, SquaredDeviation(front, m));
      assert |xs| as real == |front| as real + 1.0;
    }
  }

  /** The new mean, times the new count, is the new total. */
  lemma MeanStep(n: real, total: real, mean: real, v: real)
    requires n >= 0.0 && Mul(n, mean) == total
    ensures Mul(n + 1.0, mean + (v - mean) / (n + 1.0)) == total + v
  {
    var q := (v - mean) / (n + 1.0);
    assert (n + 1.0) * q == v - mean;
    Times(n + 1.0, mean, q);
    Times(mean, n, 1.0);
  }

  /** The identity behind the streaming update, with n old samples of mean `m` and new mean `m'`. */
  lemma DeviationStep(n: real, m: real, m': real, v: real)
    requires Mul(n + 1.0, m') == Mul(n, m) + v
    ensures Mul(v, v) - Mul(n + 1.0, Mul(m', m')) == Mul(v - m, v - m') - Mul(n, Mul(m, m))
  {
    var a, b := n * m, (n + 1.0) * m';
    assert (n + 1.0) * (m' * m') == b * m' && n * (m * m) == a * m;
    Times(v - m', v, m);
    Times(v, v, m');
    Times(m, v, m');
    assert v == b - a;
    Times(m', b, a);
    Times(m, b, a);
    Times(m', n, 1.0);
    Times(m, n * m', m');
    assert a * m' == m * (n * m');
  }

  lemma Centred(total: real, n: real, m: real)
    requires Mul(n, m) == total
    ensures Mul(m, total) == Mul(n, Mul(m, m))
  {
  }

  lemma WelfordAlgebra(n: real, squares: real, total: real, m: real, m': real, v: real, d: real, d': real)
    requires Mul(n, m) == total && Mul(n + 1.0, m') == total + v
    requires Expanded(n, squares, total, m, d) && Expanded(n + 1.0, squares + Mul(v, v), total + v, m', d')
    ensures d' == d + Mul(v - m, v - m')
  {
    hide Mul;
    Centred(total, n, m);
    Centred(total + v, n + 1.0, m');
    DeviationStep(n, m, m', v);
  }

  lemma Quotient(total: real, n: real, m: real)
    requires n > 0.0
    ensures Mul(n, m) == total <==> total / n == m
  {
  }

  lemma MeanTimesCount(xs: seq<real>)
    ensures Mul(|xs| as real, Mean(xs)) == Total(xs)
  {
    if xs == [] {
      assert Mul(0.0, 0.0) == 0.0;
    } else {
      Quotient(Total(xs), |xs| as real, Mean(xs));
    }
  }

  lemma OneMore(xs: seq<real>, v: real, m: real)
    ensures Total(xs + [v]) == Total(xs) + v
    ensures SquareTotal(xs + [v]) == SquareTotal(xs) + Mul(v, v)
    ensures Mul(|xs + [v]| as real, m) == Total(xs + [v]) <==> Mean(xs + [v]) == m
  {
    var ys := xs + [v];
    assert ys[..|ys| - 1] == xs;
    Quotient(Total(ys), |ys| as real, m);
  }

  /** Mean and squared deviation of one more sample. */
  lemma Welford(xs: seq<real>, v: real)
    ensures var n, m := |xs| as real, Mean(xs);
      var m' := m + (v - m) / (n + 1.0);
      && Mean(xs + [v]) == m'
      && SquaredDeviation(xs + [v], m') == SquaredDeviation(xs, m) + Mul(v - m, v - m')
  {
    hide Mul, Expanded, Mean, Total, SquareTotal, SquaredDeviation;
    var n, m := |xs| as real, Mean(xs);
    var m' := m + (v - m) / (n + 1.0);
    var ys := xs + [v];
    assert |ys| as real == n + 1.0;
    MeanTimesCount(xs);
    MeanStep(n, Total(xs), m, v);
    OneMore(xs, v, m');
    DeviationExpands(xs, m);
    DeviationExpands(ys, m');
    WelfordAlgebra(n, SquareTotal(xs), Total(xs), m, m', v, SquaredDeviation(xs, m), SquaredDeviation(ys, m'));
  }

  // ---- quantiles

  ghost predicate NonDecreasing(s: seq<real>) {
    forall i, j :: 0 <= i < j < |s| ==> s[i] <= s[j]
  }

  function Clamp(q: real): real {
    if q < 0.0 then 0.0 else if q > 1.0 then 1.0 else q
  }

  /** Where a quantile falls among the order statistics. */
  function Position(n: nat, q: real): (p: real)
    requires n >= 1
    ensures 0.0 <= p <= (n - 1) as real && 0 <= p.Floor <= n - 1
  {
    hide Mul;
    MulMonotone((n - 1) as real, 0.0, Clamp(q));
    MulMonotone((n - 1) as real, Clamp(q), 1.0);
    MulUnits((n - 1) as real);
    Mul((n - 1) as real, Clamp(q))
  }

  function Between(a: real, b: real, f: real): real {
    a + Mul(b - a, f)
  }

  /** Linear interpolation between order statistics. */
  function LinearQuantile(sorted: seq<real>, q: real): real {
    if sorted == [] then 0.0
    else if |sorted| == 1 then sorted[0]
    else
      var pos := Position(|sorted|, q);
      var lo := pos.Floor;
      var hi := if lo + 1 < |sorted| - 1 then lo + 1 else |sorted| - 1;
      Between(sorted[lo], sorted[hi], pos - lo as real)
  }

  lemma MulMonotone(w: real, f: real, g: real)
    requires 0.0 <= w && f <= g
    ensures Mul(w, f) <= Mul(w, g)
  {
  }

  lemma MulUnits(w: real)
    ensures Mul(w, 0.0) == 0.0 && Mul(w, 1.0) == w
  {
  }

  lemma BetweenIs(a: real, b: real, f: real)
    requires a <= b && 0.0 <= f <= 1.0
    ensures a <= Between(a, b, f) <= b
  {
    hide Mul;
    MulMonotone(b - a, 0.0, f);
    MulMonotone(b - a, f, 1.0);
    MulUnits(b - a);
  }

  lemma BetweenMonotone(a: real, b: real, f: real, g: real)
    requires a <= b && f <= g
    ensures Between(a, b, f) <= Between(a, b, g)
  {
    hide Mul;
    MulMonotone(b - a, f, g);
  }

  lemma PositionMonotone(n: nat, q: real, r: real)
    requires n >= 1 && q <= r
    ensures Position(n, q) <= Position(n, r)
  {
    hide Mul;
    MulMonotone((n - 1) as real, Clamp(q), Clamp(r));
  }

  /** Quantiles never decrease as the level rises, and stay between the extremes. */
  lemma QuantileMonotone(s: seq<real>, q: real, r: real)
    requires s != [] && NonDecreasing(s) && q <= r
    ensures s[0] <= LinearQuantile(s, q) <= LinearQuantile(s, r) <= s[|s| - 1]
  {
    if |s| >= 2 {
      PositionMonotone(|s|, q, r);
      var p, p' := Position(|s|, q), Position(|s|, r);
      hide Position, Between;
      var lo, lo' := p.Floor, p'.Floor;
      assert lo <= lo';
      var hi := if lo + 1 < |s| - 1 then lo + 1 else |s| - 1;
      var hi' := if lo' + 1 < |s| - 1 then lo' + 1 else |s| - 1;
      BetweenIs(s[lo], s[hi], p - lo as real);
      BetweenIs(s[lo'], s[hi'], p' - lo' as real);
      BetweenMonotone(s[lo], s[hi], p - lo as real, p' - lo as real);
    }
  }

  lemma Scale(n: real, q: real, p: real)
    requires n > 0.0 && q * n == p
    ensures p >= 0.0 ==> q >= 0.0
    ensures p <= n ==> q <= 1.0
    ensures Mul(n, q) == p
  {
  }

  /** The quantile at a level that falls a fraction `f` of the way from the k-th order statistic to the
      next is that fraction of the way from one to the other. */
  lemma QuantileInterpolates(s: seq<real>, q: real, k: nat, f: real)
    requires k < |s| - 1 && 0.0 <= f <= 1.0
    requires q * (|s| - 1) as real == k as real + f
    ensures LinearQuantile(s, q) == s[k] + f * (s[k + 1] - s[k])
  {
    var n := (|s| - 1) as real;
    Scale(n, q, k as real + f);
    hide Mul;
    var pos := Position(|s|, q);
    assert pos == k as real + f;
    hide Position;
    if f < 1.0 {
      assert pos.Floor == k;
      MulIs(s[k + 1] - s[k], f);
    } else {
      assert pos == (k + 1) as real && pos.Floor == k + 1;
      var hi := if k + 2 < |s| - 1 then k + 2 else |s| - 1;
      MulUnits(s[hi] - s[k + 1]);
    }
  }

  lemma MulIs(a: real, b: real)
    ensures Mul(a, b) == b * a
  {
  }

  /** Levels that fall on an order statistic give it. */
  lemma QuantileHitsOrderStatistics(s: seq<real>, q: real, k: nat)
    requires |s| >= 2 && k < |s| && q * (|s| - 1) as real == k as real
    ensures LinearQuantile(s, q) == s[k]
  {
    if k < |s| - 1 {
      QuantileInterpolates(s, q, k, 0.0);
    } else {
      QuantileInterpolates(s, q, k - 1, 1.0);
    }
  }

  /** No samples give zero, one sample is every quantile, and levels outside [0, 1] give the extremes. */
  lemma QuantileEnds(s: seq<real>, q: real)
    ensures s == [] ==> LinearQuantile(s, q) == 0.0
    ensures |s| == 1 ==> LinearQuantile(s, q) == s[0]
    ensures s != [] && q <= 0.0 ==> LinearQuantile(s, q) == s[0]
    ensures s != [] && q >= 1.0 ==> LinearQuantile(s, q) == s[|s| - 1]
  {
    if |s| >= 2 && q <= 0.0 {
      QuantileHitsOrderStatistics(s, 0.0, 0);
      SamePosition(|s|, q, 0.0);
    } else if |s| >= 2 && q >= 1.0 {
      QuantileHitsOrderStatistics(s, 1.0, |s| - 1);
      SamePosition(|s|, q, 1.0);
    }
  }

  lemma SamePosition(n: nat, q: real, r: real)
    requires n >= 1 && Clamp(q) == Clamp(r)
    ensures Position(n, q) == Position(n, r)
  {
  }

  // ---- sorting a copy of the samples

  function InsertSorted(s: seq<real>, x: real): seq<real> {
    if s == [] || x <= s[0] then [x] + s else [s[0]] + InsertSorted(s[1..], x)
  }

  function Sort(s: seq<real>): seq<real> {
    if s == [] then [] else InsertSorted(Sort(s[1..]), s[0])
  }

  lemma {:induction false} InsertSortedMultiset(s: seq<real>, x: real)
    ensures multiset(InsertSorted(s, x)) == multiset(s) + multiset{x}
  {
    if s != [] && x > s[0] {
      InsertSortedMultiset(s[1..], x);
      assert s == [s[0]] + s[1..];
    }
  }

  lemma {:induction false} InsertSortedKeepsOrder(s: seq<real>, x: real)
    requires NonDecreasing(s)
    ensures NonDecreasing(InsertSorted(s, x))
    ensures forall i :: 0 <= i < |InsertSorted(s, x)| ==> InsertSorted(s, x)[i] == x || InsertSorted(s, x)[i] in s
  {
    if s != [] && x > s[0] {
      InsertSortedKeepsOrder(s[1..], x);
      var t := InsertSorted(s[1..], x);
      forall i | 0 <= i < |t|
        ensures s[0] <= t[i] && (t[i] == x || t[i] in s)
      {
        if t[i] != x {
          var j :| 0 <= j < |s[1..]| && s[1..][j] == t[i];
          assert s[j + 1] == t[i];
        }
      }
    }
  }

  lemma {:induction false} SortOk(s: seq<real>)
    ensures NonDecreasing(Sort(s)) && multiset(Sort(s)) == multiset(s)
  {
    if s != [] {
      SortOk(s[1..]);
      InsertSortedMultiset(Sort(s[1..]), s[0]);
      InsertSortedKeepsOrder(Sort(s[1..]), s[0]);
      assert s == [s[0]] + s[1..];
    }
  }

  lemma SortMembers(s: seq<real>)
    ensures |Sort(s)| == |s| && forall x :: x in Sort(s) <==> x in s
  {
    SortOk(s);
    assert |multiset(Sort(s))| == |multiset(s)|;
    assert forall x :: x in Sort(s) <==> x in multiset(Sort(s));
  }

  // ---- the accumulator

  datatype Snapshot = Snapshot(
    count: nat, mean: real, variance: real, min: real, max: real,
    p10: real, p50: real, p95: real, p99: real, p999: real)

  /** `least` and `most` bound every sample and are samples, or are the starting sentinels. */
  ghost predicate Extremes(xs: seq<real>, least: real, most: real) {
    && (forall i :: 0 <= i < |xs| ==> least <= xs[i] <= most)
    && (if xs == [] then least == FINITE_MAX && most == -FINITE_MAX else least in xs && most in xs)
  }

  lemma ExtremesStep(xs: seq<real>, least: real, most: real, v: real)
    requires Extremes(xs, least, most) && Finite(v)
    ensures Extremes(xs + [v], if v < least then v else least, if most < v then v else most)
  {
    hide Pow2;
  }

  /** The retained samples are seen samples, and all of them until the cap is reached. */
  ghost predicate Reservoir(seen: seq<real>, samples: seq<real>) {
    && |samples| == (if |seen| < MAX_SAMPLES then |seen| else MAX_SAMPLES)
    && (forall i :: 0 <= i < |samples| ==> samples[i] in seen)
    && (|seen| <= MAX_SAMPLES ==> samples == seen)
  }

  lemma ReservoirStep(seen: seq<real>, samples: seq<real>, v: real, choice: nat)
    requires Reservoir(seen, samples) && 1 <= choice
    ensures |samples| < MAX_SAMPLES ==> Reservoir(seen + [v], samples + [v])
    ensures |samples| >= MAX_SAMPLES ==>
      Reservoir(seen + [v], if choice <= MAX_SAMPLES then samples[choice - 1 := v] else samples)
  {
  }

  class LatencyAccumulator {
    var count: nat
    var mean: real
    var m2: real
    var min: real
    var max: real
    var samples: seq<real>
    ghost var seen: seq<real>

    ghost predicate Valid()
      reads this
    {
      && count == |seen| && AllFinite(seen)
      && mean == Mean(seen) && m2 == SquaredDeviation(seen, mean)
      && Extremes(seen, min, max)
      && Reservoir(seen, samples)
    }

    constructor ()
      ensures Valid() && seen == []
    {
      count, mean, m2, min, max, samples, seen := 0, 0.0, 0.0, FINITE_MAX, -FINITE_MAX, [], [];
    }

    /** Incorporate one reading; `choice` is the reservoir's draw from 1 to the new count. */
    method Add(value: real, choice: nat)
      requires Valid() && Finite(value) && 1 <= choice <= count + 1
      modifies this
      ensures Valid() && seen == old(seen) + [value]
      ensures old(count) < 1_000_000 ==> samples == old(samples) + [value]
      ensures old(count) >= 1_000_000 ==>
        samples == if choice <= 1_000_000 then old(samples)[choice - 1 := value] else old(samples)
    {
      hide SquaredDeviation, Mean, Extremes, Finite, Mul, Pow2;
      Welford(seen, value);
      ExtremesStep(seen, min, max, value);
      ReservoirStep(seen, samples, value, choice);
      count := count + 1;
      var delta := value - mean;
      mean := mean + delta / count as real;
      var delta2 := value - mean;
      m2 := m2 + Mul(delta, delta2);
      min := if value < min then value else min;
      max := if max < value then value else max;
      if |samples| < MAX_SAMPLES {
        samples := samples + [value];
      } else if choice <= MAX_SAMPLES {
        samples := samples[choice - 1 := value];
      }
      seen := seen + [value];
    }

    /** Summary so far: exact moments and extremes, and quantiles in order between the extremes. */
    method Summarize() returns (s: Snapshot)
      requires Valid()
      ensures s.count == |seen|
      ensures seen != [] ==> s.mean == Mean(seen)
      ensures |seen| == 1 ==> s.variance == 0.0
      ensures |seen| > 1 ==> Mul((|seen| - 1) as real, s.variance) == SquaredDeviation(seen, Mean(seen))
      ensures seen != [] ==>
        && s.p10 == LinearQuantile(Sort(samples), 0.10) && s.p50 == LinearQuantile(Sort(samples), 0.50)
        && s.p95 == LinearQuantile(Sort(samples), 0.95) && s.p99 == LinearQuantile(Sort(samples), 0.99)
        && s.p999 == LinearQuantile(Sort(samples), 0.999)
      ensures seen != [] ==> s.min <= s.p10 <= s.p50 <= s.p95 <= s.p99 <= s.p999 <= s.max
      ensures seen != [] && min == FINITE_MAX ==> s.min == 0.0
      ensures seen != [] && max == -FINITE_MAX ==> s.max == 0.0
      ensures seen != [] && min != FINITE_MAX ==> s.min in seen && forall i :: 0 <= i < |seen| ==> s.min <= seen[i]
      ensures seen != [] && max != -FINITE_MAX ==> s.max in seen && forall i :: 0 <= i < |seen| ==> seen[i] <= s.max
      ensures seen == [] ==> s == Snapshot(0, 0.0, 0.0, 0.0, 0.0, 0.0, 0.0, 0.0, 0.0, 0.0)
    {
      hide SquaredDeviation, Mean, LinearQuantile, Mul, Pow2;
      if count == 0 {
        return Snapshot(0, 0.0, 0.0, 0.0, 0.0, 0.0, 0.0, 0.0, 0.0, 0.0);
      }
      var variance := if count > 1 then m2 / (count - 1) as real else 0.0;
      if count > 1 {
        Quotient(m2, (count - 1) as real, variance);
      }
      var lowest := if min == FINITE_MAX then 0.0 else min;
      var highest := if max == -FINITE_MAX then 0.0 else max;
      var sorted := Sort(samples);
      SortOk(samples);
      SortMembers(samples);
      assert sorted[0] in sorted && sorted[|sorted| - 1] in sorted;
      QuantileMonotone(sorted, 0.10, 0.50);
      QuantileMonotone(sorted, 0.50, 0.95);
      QuantileMonotone(sorted, 0.95, 0.99);
      QuantileMonotone(sorted, 0.99, 0.999);
      s := Snapshot(count, mean, variance, lowest, highest,
                    LinearQuantile(sorted, 0.10), LinearQuantile(sorted, 0.50), LinearQuantile(sorted, 0.95),
                    LinearQuantile(sorted, 0.99), LinearQuantile(sorted, 0.999));
    }
  }
}
