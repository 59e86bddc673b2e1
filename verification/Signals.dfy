/** src/chips/harvester/signals.py: normalised entropy in exact arithmetic, and a file's co-change entropy. */
module Signals {
  import opened Sums

  datatype GeneratedKind = Generated | Scaffolded

  datatype Option<+T> = None | Some(value: T)

  /** The path classifier is uninterpreted: it decides from the path alone. */
  type Classifier = string -> Option<GeneratedKind>

  const MIN_SUPPORT: nat := 2
  const TOLERANCE: real := 0.000000000001

  // ---- What is assumed of the natural logarithm ----

  predicate Positives(x: real, y: real) {
    x > 0.0 && y > 0.0
  }

  function Times(a: real, b: real): real { a * b }

  ghost predicate LnLaws(ln: real -> real) {
    && (forall x, y {:trigger Positives(x, y)} :: Positives(x, y) ==> ln(Times(x, y)) == ln(x) + ln(y))
    && (forall x :: x > 0.0 ==> ln(x) <= x - 1.0)
  }

  lemma LnOfInverse(ln: real -> real, x: real)
    requires LnLaws(ln) && x > 0.0
    ensures ln(1.0) == 0.0 && ln(1.0 / x) == -ln(x)
  {
    hide Times;
    QuotientTimes(1.0, x);
    QuotientTimes(1.0, 1.0);
    assert Positives(1.0, 1.0) && Positives(x, 1.0 / x);
    assert 1.0 / 1.0 == 1.0;
  }

  lemma QuotientTimes(a: real, b: real)
    requires b != 0.0
    ensures Times(b, a / b) == a
  {
  }

  lemma ProductPositive(a: real, b: real)
    requires a > 0.0 && b > 0.0
    ensures Times(a, b) > 0.0
  {
  }

  lemma SquarePositive(d: real)
    requires d != 0.0
    ensures Times(d, d) > 0.0
  {
    if d < 0.0 {
      ProductPositive(-d, -d);
      assert Times(-d, -d) == Times(d, d);
    } else {
      ProductPositive(d, d);
    }
  }

  lemma ProductMonotone(s: real, a: real, b: real)
    requires s > 0.0 && a <= b
    ensures Times(s, a) <= Times(s, b)
  {
    assert s * (b - a) >= 0.0;
  }

  lemma QuotientPositive(a: real, b: real)
    requires a > 0.0 && b > 0.0
    ensures a / b > 0.0
  {
    assert a / b * b == a;
  }

  lemma QuotientBelowOne(a: real, b: real)
    requires 0.0 < a < b
    ensures 0.0 < a / b < 1.0
  {
    QuotientPositive(a, b);
    QuotientPositive(b - a, b);
    assert a / b + (b - a) / b == 1.0;
  }

  /** With s half way between 1 and x = 2s - 1, the quotient x / s is below s. */
  lemma HalfwayGap(s: real, t: real)
    requires s > 0.0 && s != 1.0 && Times(s, t) == 2.0 * s - 1.0
    ensures t < s
  {
    SquarePositive(s - 1.0);
    if s <= t {
      ProductMonotone(s, s, t);
    }
  }

  /** `ln x = x - 1` only at 1: were it to hold at some other point, the laws would fail half way to 1. */
  lemma LnStrict(ln: real -> real, x: real)
    requires LnLaws(ln) && x > 0.0 && x != 1.0
    ensures ln(x) < x - 1.0
  {
    var s := (1.0 + x) / 2.0;
    var t := x / s;
    QuotientPositive(x, s);
    assert Positives(s, t);
    QuotientTimes(x, s);
    assert ln(Times(s, t)) == ln(s) + ln(t);
    HalfwayGap(s, t);
  }

  lemma LnPositive(ln: real -> real, x: real)
    requires LnLaws(ln) && x > 1.0
    ensures ln(x) > 0.0
  {
    LnOfInverse(ln, x);
    assert 1.0 / x < 1.0;
    assert ln(1.0 / x) <= 1.0 / x - 1.0;
  }

  // ---- normalized_entropy ----

  predicate AllPositive(values: seq<real>) {
    forall i :: 0 <= i < |values| ==> values[i] > 0.0
  }

  function PositiveValues(frequencies: seq<real>): (r: seq<real>)
    ensures AllPositive(r)
  {
    if frequencies == [] then []
    else (if frequencies[0] > 0.0 then [frequencies[0]] else []) + PositiveValues(frequencies[1..])
  }

  function Identity(): real -> real { v => v }

  function Total(values: seq<real>): real {
    SumBy(values, Identity())
  }

  function Share(v: real, total: real): real {
    if total > 0.0 then v / total else 0.0
  }

  function PLogP(ln: real -> real, p: real): real {
    -(p * ln(p))
  }

  /** One summand of the entropy: -p ln p with p = v / total. */
  function Surprise(ln: real -> real, total: real): real -> real {
    v => PLogP(ln, Share(v, total))
  }

  /** Shannon entropy of the distribution the values are proportional to. */
  function Entropy(ln: real -> real, values: seq<real>): real {
    SumBy(values, Surprise(ln, Total(values)))
  }

  function Abs(x: real): real { if x < 0.0 then -x else x }

  /** math.isclose(x, 1.0, rel_tol=TOLERANCE, abs_tol=TOLERANCE) */
  predicate CloseToOne(x: real) {
    var larger := if Abs(x) > 1.0 then Abs(x) else 1.0;
    Abs(x - 1.0) <= TOLERANCE * larger || Abs(x - 1.0) <= TOLERANCE
  }

  function Clamp(x: real, low: real, high: real): real {
    if (if x < high then x else high) > low then (if x < high then x else high) else low
  }

  /** The quotient before rounding and clamping. */
  function Ratio(ln: real -> real, values: seq<real>): real
    requires LnLaws(ln) && |values| >= 2
  {
    LnPositive(ln, |values| as real);
    Entropy(ln, values) / ln(|values| as real)
  }

  function NormalizedEntropy(ln: real -> real, frequencies: seq<real>): real
    requires LnLaws(ln)
  {
    var values := PositiveValues(frequencies);
    if |values| <= 1 then 0.0
    else
      var ratio := Ratio(ln, values);
      if CloseToOne(ratio) then 1.0 else Clamp(ratio, 0.0, 1.0)
  }

  lemma {:induction false} TotalPositive(values: seq<real>)
    requires AllPositive(values)
    ensures Total(values) >= 0.0
    ensures forall i :: 0 <= i < |values| ==> values[i] <= Total(values)
    ensures |values| >= 2 ==> forall i :: 0 <= i < |values| ==> values[i] < Total(values)
    ensures values != [] ==> Total(values) > 0.0
  {
    if values == [] {
    } else {
      TotalPositive(values[1..]);
      forall i | 1 <= i < |values| ensures values[i] <= Total(values[1..]) {
        assert values[i] == values[1..][i - 1];
      }
    }
  }

  /** The accumulator loop of the source, against the specification above. */
  method ComputeNormalizedEntropy(ln: real -> real, frequencies: seq<real>) returns (r: real)
    requires LnLaws(ln)
    ensures r == NormalizedEntropy(ln, frequencies)
  {
    var values := PositiveValues(frequencies);
    if |values| <= 1 {
      return 0.0;
    }
    var total := Total(values);
    TotalPositive(values);
    if total <= 0.0 {
      assert false;
    }
    var entropy := 0.0;
    var i := 0;
    while i < |values|
      invariant 0 <= i <= |values|
      invariant entropy + SumBy(values[i..], Surprise(ln, total)) == Entropy(ln, values)
    {
      var probability := Share(values[i], total);
      entropy := entropy + PLogP(ln, probability);
      assert values[i..][1..] == values[i + 1..];
      i := i + 1;
    }
    LnPositive(ln, |values| as real);
    var normalized := entropy / ln(|values| as real);
    if CloseToOne(normalized) {
      return 1.0;
    }
    return Clamp(normalized, 0.0, 1.0);
  }

  // ---- Bounds ----

  lemma ProductBelow(p: real, a: real, b: real)
    requires p > 0.0 && a < b
    ensures p * a < p * b
  {
    assert p * (b - a) > 0.0;
  }

  /** The line that -p ln p lies under, touching it at p = 1 / n. */
  function Tangent(ln: real -> real, p: real, n: real): real
    requires n > 1.0
  {
    p * ln(n) + 1.0 / n - p
  }

  function Tangents(ln: real -> real, total: real, n: real): real -> real
    requires n > 1.0
  {
    v => Tangent(ln, Share(v, total), n)
  }

  /** With q = 1 / (n p): p q is 1 / n. */
  lemma Reciprocal(p: real, n: real, q: real)
    requires p > 0.0 && n > 0.0 && Times(Times(n, p), q) == 1.0
    ensures p * (q - 1.0) == 1.0 / n - p
    ensures q == 1.0 <==> p == 1.0 / n
  {
    assert Times(Times(n, p), q) == n * (p * q);
    assert p * q == 1.0 / n;
  }

  lemma LogSpread(p: real, a: real, b: real)
    ensures p * -(a + b) == -(p * b) - p * a
  {
  }

  lemma LogNegative(ln: real -> real, p: real)
    requires LnLaws(ln) && 0.0 < p < 1.0
    ensures 0.0 < PLogP(ln, p)
  {
    assert ln(p) <= p - 1.0 < 0.0;
    ProductBelow(p, ln(p), 0.0);
  }

  /** Gibbs' inequality for one summand, strict unless p = 1 / n. */
  lemma SurpriseBound(ln: real -> real, p: real, n: real)
    requires LnLaws(ln) && 0.0 < p < 1.0 && n > 1.0
    ensures 0.0 < PLogP(ln, p) <= Tangent(ln, p, n)
    ensures PLogP(ln, p) == Tangent(ln, p, n) <==> p == 1.0 / n
  {
    hide Times;
    LogNegative(ln, p);
    ProductPositive(n, p);
    var np := Times(n, p);
    var q := 1.0 / np;
    QuotientTimes(1.0, np);
    Reciprocal(p, n, q);
    assert Positives(n, p);
    LnOfInverse(ln, np);
    LogSpread(p, ln(n), ln(p));
    if q != 1.0 {
      QuotientPositive(1.0, np);
      LnStrict(ln, q);
      ProductBelow(p, ln(q), q - 1.0);
    } else {
      LnOfInverse(ln, 1.0);
    }
  }

  predicate UniformShares(values: seq<real>, total: real, n: real)
    requires n > 1.0
  {
    forall i :: 0 <= i < |values| ==> Share(values[i], total) == 1.0 / n
  }

  lemma {:induction false} EntropyBound(ln: real -> real, values: seq<real>, total: real, n: real)
    requires LnLaws(ln) && n > 1.0
    requires forall i :: 0 <= i < |values| ==> 0.0 < Share(values[i], total) < 1.0
    ensures SumBy(values, Surprise(ln, total)) >= 0.0
    ensures values != [] ==> SumBy(values, Surprise(ln, total)) > 0.0
    ensures SumBy(values, Surprise(ln, total)) <= SumBy(values, Tangents(ln, total, n))
    ensures SumBy(values, Surprise(ln, total)) == SumBy(values, Tangents(ln, total, n))
        <==> UniformShares(values, total, n)
  {
    if values == [] {
    } else {
      SurpriseBound(ln, Share(values[0], total), n);
      EntropyBound(ln, values[1..], total, n);
      UniformSharesStep(values, total, n);
    }
  }

  lemma UniformSharesStep(values: seq<real>, total: real, n: real)
    requires n > 1.0 && values != []
    ensures UniformShares(values, total, n)
        <==> Share(values[0], total) == 1.0 / n && UniformShares(values[1..], total, n)
  {
    if UniformShares(values[1..], total, n) {
      forall i | 1 <= i < |values| ensures Share(values[i], total) == Share(values[1..][i - 1], total) {
      }
    }
  }

  lemma {:induction false} TangentSum(ln: real -> real, values: seq<real>, total: real, n: real)
    requires total > 0.0 && n > 1.0
    ensures SumBy(values, Tangents(ln, total, n))
         == Total(values) / total * ln(n) + |values| as real / n - Total(values) / total
  {
    if values == [] {
    } else {
      TangentSum(ln, values[1..], total, n);
      TangentSumStep(values[0], Total(values[1..]), total, |values[1..]| as real, n, ln(n));
    }
  }

  lemma TangentSumOfWhole(ln: real -> real, values: seq<real>)
    requires |values| >= 2 && Total(values) > 0.0
    ensures SumBy(values, Tangents(ln, Total(values), |values| as real)) == ln(|values| as real)
  {
    TangentSum(ln, values, Total(values), |values| as real);
    assert Total(values) / Total(values) == 1.0;
    assert |values| as real / |values| as real == 1.0;
  }

  lemma TangentSumStep(v: real, t: real, total: real, k: real, n: real, l: real)
    requires total > 0.0 && n > 1.0
    ensures (v + t) / total * l + (k + 1.0) / n - (v + t) / total
         == (v / total * l + 1.0 / n - v / total) + (t / total * l + k / n - t / total)
  {
    assert (v + t) / total == v / total + t / total;
    assert (v / total + t / total) * l == v / total * l + t / total * l;
    assert (k + 1.0) / n == 1.0 / n + k / n;
  }

  /** Before the clamp the ratio lies in (0, 1], and it is 1 exactly for equal frequencies. */
  lemma RatioBounds(ln: real -> real, values: seq<real>)
    requires LnLaws(ln) && |values| >= 2
    requires AllPositive(values)
    ensures 0.0 < Ratio(ln, values) <= 1.0
    ensures Ratio(ln, values) == 1.0 <==> AllEqual(values)
  {
    var n, total := |values| as real, Total(values);
    TotalPositive(values);
    LnPositive(ln, n);
    forall i | 0 <= i < |values| ensures 0.0 < Share(values[i], total) < 1.0 {
      QuotientBelowOne(values[i], total);
    }
    EntropyBound(ln, values, total, n);
    TangentSumOfWhole(ln, values);
    QuotientBounds(Entropy(ln, values), ln(n));
    UniformMeansEqual(values);
  }

  predicate AllEqual(values: seq<real>) {
    forall i, j :: 0 <= i < |values| && 0 <= j < |values| ==> values[i] == values[j]
  }

  /** Every share of the total is 1 / n exactly when the values are all equal. */
  lemma UniformMeansEqual(values: seq<real>)
    requires |values| >= 2 && Total(values) > 0.0
    ensures UniformShares(values, Total(values), |values| as real) <==> AllEqual(values)
  {
    var n, total := |values| as real, Total(values);
    if AllEqual(values) {
      AllEqualTotal(values, values[0]);
      forall i | 0 <= i < |values| ensures Share(values[i], total) == 1.0 / n {
        ShareOfEqual(values[i], n, total);
      }
    }
    if UniformShares(values, total, n) {
      forall i | 0 <= i < |values| ensures values[i] == 1.0 / n * total {
        var share := values[i] / total;
        assert share * total == values[i];
      }
    }
  }

  lemma ShareOfEqual(v: real, n: real, total: real)
    requires total > 0.0 && n > 0.0 && total == n * v
    ensures v / total == 1.0 / n
  {
    assert v / total * total == v;
    assert 1.0 / n * total == v;
  }

  lemma QuotientBounds(e: real, l: real)
    requires 0.0 < e <= l
    ensures 0.0 < e / l <= 1.0
    ensures e / l == 1.0 <==> e == l
  {
    assert e / l * l == e;
  }

  lemma {:induction false} AllEqualTotal(values: seq<real>, v: real)
    requires forall i :: 0 <= i < |values| ==> values[i] == v
    ensures Total(values) == |values| as real * v
  {
    if values == [] {
    } else {
      AllEqualTotal(values[1..], v);
      var k := |values[1..]| as real;
      assert |values| as real == k + 1.0 && (k + 1.0) * v == k * v + v;
    }
  }

  /** What the source's result means: in [0,1]; 0 exactly below two positive frequencies; the
      clamp never acts; 1 for equal frequencies, and otherwise only within the rounding tolerance. */
  lemma NormalizedEntropyBounds(ln: real -> real, frequencies: seq<real>)
    requires LnLaws(ln)
    ensures 0.0 <= NormalizedEntropy(ln, frequencies) <= 1.0
    ensures NormalizedEntropy(ln, frequencies) == 0.0 <==> |PositiveValues(frequencies)| <= 1
    ensures |PositiveValues(frequencies)| >= 2 ==>
      var ratio := Ratio(ln, PositiveValues(frequencies));
      NormalizedEntropy(ln, frequencies) == if ratio >= 1.0 - 0.000000000001 then 1.0 else ratio
    ensures |PositiveValues(frequencies)| >= 2 && AllEqual(PositiveValues(frequencies)) ==>
      NormalizedEntropy(ln, frequencies) == 1.0
  {
    var values := PositiveValues(frequencies);
    if |values| >= 2 {
      RatioBounds(ln, values);
    }
  }

  // ---- The entropy of counts ----

  function VLogV(ln: real -> real): real -> real {
    v => Times(v, ln(v))
  }

  lemma TimesSpread(a: real, b: real, c: real)
    ensures Times(a, b + c) == Times(a, b) + Times(a, c) && Times(b + c, a) == Times(b, a) + Times(c, a)
    ensures Times(a, -b) == -Times(a, b) && Times(a, Times(b, c)) == Times(Times(a, b), c)
  {
  }

  lemma OneSummand(ln: real -> real, v: real, total: real)
    requires LnLaws(ln) && v > 0.0 && total > 0.0
    ensures Times(total, Surprise(ln, total)(v)) == Times(v, ln(total)) - Times(v, ln(v))
  {
    var p := v / total;
    QuotientTimes(v, total);
    QuotientPositive(v, total);
    assert Positives(total, p);
    assert Surprise(ln, total)(v) == -Times(p, ln(p));
    hide Times, Surprise, PLogP, Share;
    assert ln(v) == ln(total) + ln(p);
    TimesSpread(total, Times(p, ln(p)), 0.0);
    TimesSpread(total, p, ln(p));
    TimesSpread(v, ln(total), ln(p));
  }

  lemma {:induction false} SummandsOf(ln: real -> real, values: seq<real>, total: real)
    requires LnLaws(ln) && AllPositive(values) && total > 0.0
    ensures Times(total, SumBy(values, Surprise(ln, total)))
         == Times(Total(values), ln(total)) - SumBy(values, VLogV(ln))
  {
    hide Times, Surprise, LnLaws, AllPositive, VLogV;
    if values == [] {
      NoSummands(total, ln(total));
    } else {
      RestPositive(values);
      SummandsOf(ln, values[1..], total);
      OneSummand(ln, values[0], total);
      assert VLogV(ln)(values[0]) == Times(values[0], ln(values[0])) by { VLogVAt(ln, values[0]); }
      OneMoreSummand(total, Surprise(ln, total)(values[0]), SumBy(values[1..], Surprise(ln, total)),
                     values[0], Total(values[1..]), ln(total), VLogV(ln)(values[0]), SumBy(values[1..], VLogV(ln)));
    }
  }

  lemma NoSummands(t: real, l: real)
    ensures Times(t, 0.0) == 0.0 && Times(0.0, l) == 0.0
  {
  }

  lemma RestPositive(values: seq<real>)
    requires AllPositive(values) && values != []
    ensures values[0] > 0.0 && AllPositive(values[1..])
  {
  }

  lemma VLogVAt(ln: real -> real, v: real)
    ensures VLogV(ln)(v) == Times(v, ln(v))
  {
  }

  lemma OneMoreSummand(t: real, x: real, xs: real, v: real, vs: real, l: real, a: real, rest: real)
    requires Times(t, x) == Times(v, l) - a && Times(t, xs) == Times(vs, l) - rest
    ensures Times(t, x + xs) == Times(v + vs, l) - (a + rest)
  {
    hide Times;
    TimesSpread(t, x, xs);
    TimesSpread(l, v, vs);
  }

  /** For frequencies v of total T the entropy is ln T less the mean of ln v, weighted by v. */
  lemma EntropyOfCounts(ln: real -> real, values: seq<real>)
    requires LnLaws(ln) && AllPositive(values) && values != []
    ensures Times(Total(values), Entropy(ln, values))
         == Times(Total(values), ln(Total(values))) - SumBy(values, VLogV(ln))
  {
    TotalPositive(values);
    SummandsOf(ln, values, Total(values));
  }

  // ---- Invariance ----

  lemma {:induction false} PositiveValuesCount(s: seq<real>, x: real)
    ensures multiset(PositiveValues(s))[x] == if x > 0.0 then multiset(s)[x] else 0
  {
    if s == [] {
    } else {
      PositiveValuesCount(s[1..], x);
      assert s == [s[0]] + s[1..];
    }
  }

  /** The order in which the frequencies arrive does not matter. */
  lemma EntropyPermutation(ln: real -> real, a: seq<real>, b: seq<real>)
    requires LnLaws(ln) && multiset(a) == multiset(b)
    ensures NormalizedEntropy(ln, a) == NormalizedEntropy(ln, b)
  {
    var va, vb := PositiveValues(a), PositiveValues(b);
    forall x ensures multiset(va)[x] == multiset(vb)[x] {
      PositiveValuesCount(a, x);
      PositiveValuesCount(b, x);
    }
    assert multiset(va) == multiset(vb);
    assert |multiset(va)| == |va| && |multiset(vb)| == |vb|;
    SumPermutation(va, vb, Identity());
    SumPermutation(va, vb, Surprise(ln, Total(va)));
  }

  function Scale(s: seq<real>, c: real): seq<real> {
    if s == [] then [] else [Times(c, s[0])] + Scale(s[1..], c)
  }

  lemma SignOfScaled(c: real, v: real)
    requires c > 0.0
    ensures Times(c, v) > 0.0 <==> v > 0.0
  {
    if v > 0.0 {
      assert c * v > 0.0;
    } else {
      assert c * -v >= 0.0;
    }
  }

  lemma {:induction false} ScalePositive(s: seq<real>, c: real)
    requires c > 0.0
    ensures PositiveValues(Scale(s, c)) == Scale(PositiveValues(s), c)
  {
    if s == [] {
    } else {
      ScalePositive(s[1..], c);
      SignOfScaled(c, s[0]);
      var head := if s[0] > 0.0 then [s[0]] else [];
      assert PositiveValues(s) == head + PositiveValues(s[1..]);
      ScaleAppend(head, PositiveValues(s[1..]), c);
      assert Scale(s, c)[1..] == Scale(s[1..], c);
    }
  }

  lemma {:induction false} ScaleAppend(a: seq<real>, b: seq<real>, c: real)
    ensures Scale(a + b, c) == Scale(a, c) + Scale(b, c)
  {
    if a == [] {
      assert a + b == b;
    } else {
      assert (a + b)[1..] == a[1..] + b;
      ScaleAppend(a[1..], b, c);
      assert Scale(a + b, c) == [Times(c, a[0])] + (Scale(a[1..], c) + Scale(b, c));
    }
  }

  lemma {:induction false} ScaleLength(s: seq<real>, c: real)
    ensures |Scale(s, c)| == |s|
  {
    if s == [] {
    } else {
      ScaleLength(s[1..], c);
    }
  }

  lemma {:induction false} ScaleTotal(s: seq<real>, c: real)
    ensures Total(Scale(s, c)) == Times(c, Total(s))
  {
    if s == [] {
    } else {
      ScaleTotal(s[1..], c);
      assert c * (s[0] + Total(s[1..])) == c * s[0] + c * Total(s[1..]);
    }
  }

  lemma ShareOfScaled(v: real, c: real, total: real)
    requires c > 0.0 && total > 0.0
    ensures Share(Times(c, v), Times(c, total)) == Share(v, total)
  {
    SignOfScaled(c, total);
    var x := v / total;
    assert x * total == v;
    assert x * (c * total) == c * v;
  }

  lemma {:induction false} ScaleEntropy(ln: real -> real, s: seq<real>, c: real, total: real)
    requires c > 0.0 && total > 0.0
    ensures SumBy(Scale(s, c), Surprise(ln, Times(c, total))) == SumBy(s, Surprise(ln, total))
  {
    if s == [] {
    } else {
      ScaleEntropy(ln, s[1..], c, total);
      ShareOfScaled(s[0], c, total);
      ghost var scaled := Scale(s, c);
      assert scaled[0] == Times(c, s[0]) && scaled[1..] == Scale(s[1..], c);
      assert Surprise(ln, Times(c, total))(scaled[0]) == Surprise(ln, total)(s[0]);
    }
  }

  /** Only the proportions matter. */
  lemma EntropyScaling(ln: real -> real, frequencies: seq<real>, c: real)
    requires LnLaws(ln) && c > 0.0
    ensures NormalizedEntropy(ln, Scale(frequencies, c)) == NormalizedEntropy(ln, frequencies)
  {
    var values := PositiveValues(frequencies);
    ScalePositive(frequencies, c);
    ScaleLength(values, c);
    if |values| >= 2 {
      TotalPositive(values);
      ScaleTotal(values, c);
      ScaleEntropy(ln, values, c, Total(values));
      assert Ratio(ln, Scale(values, c)) == Ratio(ln, values);
    }
  }

  // ---- cochange_entropy_for_file ----

  type Partners = map<string, nat>

  /** What one partner adds to the frequency list: nothing when it is generated or below the support. */
  function RealFrequency(classify: Classifier, partners: Partners): string -> seq<real> {
    partner =>
      if partner in partners && classify(partner).None? && partners[partner] >= MIN_SUPPORT
      then [partners[partner] as real] else []
  }

  ghost function CochangeEntropy(ln: real -> real, classify: Classifier, file: string, partners: Partners): real
    requires LnLaws(ln)
  {
    if classify(file).Some? then 0.0
    else NormalizedEntropy(ln, Collect(Listing(partners.Keys), RealFrequency(classify, partners)))
  }

  /** Any order of reading the dictionary gives the same entropy. */
  lemma CochangeEntropyListing(ln: real -> real, classify: Classifier, file: string, partners: Partners,
                               keys: seq<string>)
    requires LnLaws(ln) && classify(file).None?
    requires Distinct(keys) && forall k :: k in keys <==> k in partners
    ensures CochangeEntropy(ln, classify, file, partners)
         == NormalizedEntropy(ln, Collect(keys, RealFrequency(classify, partners)))
  {
    var listing := Listing(partners.Keys);
    DistinctSameMembers(listing, keys);
    CollectPermutation(listing, keys, RealFrequency(classify, partners));
    EntropyPermutation(ln, Collect(listing, RealFrequency(classify, partners)),
                       Collect(keys, RealFrequency(classify, partners)));
  }

  /** The dictionary is read in an arbitrary order. */
  method CochangeEntropyForFile(ln: real -> real, classify: Classifier, file: string, partners: Partners)
    returns (r: real)
    requires LnLaws(ln)
    ensures r == CochangeEntropy(ln, classify, file, partners)
  {
    if classify(file).Some? {
      return 0.0;
    }
    var frequencies: seq<real> := [];
    var unread := partners.Keys;
    ghost var read: seq<string> := [];
    while unread != {}
      invariant unread <= partners.Keys
      invariant Distinct(read) && forall k :: k in read <==> k in partners.Keys - unread
      invariant frequencies == Collect(read, RealFrequency(classify, partners))
      decreases unread
    {
      var partner :| partner in unread;
      if classify(partner).None? && partners[partner] >= MIN_SUPPORT {
        frequencies := frequencies + [partners[partner] as real];
      }
      CollectAppend(read, [partner], RealFrequency(classify, partners));
      assert Collect([partner], RealFrequency(classify, partners)) == RealFrequency(classify, partners)(partner);
      assert forall i :: 0 <= i < |read| ==> read[i] in read;
      unread := unread - {partner};
      read := read + [partner];
    }
    CochangeEntropyListing(ln, classify, file, partners, read);
    r := ComputeNormalizedEntropy(ln, frequencies);
  }

  ghost predicate AreCounted(classify: Classifier, partners: Partners, counted: seq<string>) {
    && Distinct(counted)
    && forall g :: g in counted <==> g in partners && classify(g) == None && partners[g] >= 2
  }

  function FrequenciesOf(partners: Partners, counted: seq<string>): seq<real> {
    seq(|counted|, i requires 0 <= i < |counted| => Get(partners, counted[i]) as real)
  }

  /** The entropy of a hand-written file is that of its frequencies with the hand-written partners of at least two
      shared commits, listed in any order: generated partners and single encounters do not count. It is positive
      exactly when two or more partners count. */
  lemma CountedPartners(ln: real -> real, classify: Classifier, file: string, partners: Partners, counted: seq<string>)
    requires LnLaws(ln) && classify(file) == None && AreCounted(classify, partners, counted)
    ensures CochangeEntropy(ln, classify, file, partners) == NormalizedEntropy(ln, FrequenciesOf(partners, counted))
    ensures CochangeEntropy(ln, classify, file, partners) > 0.0 <==> |counted| >= 2
  {
    hide NormalizedEntropy, RealFrequency, AreCounted, CochangeEntropy, FrequenciesOf, PositiveValues;
    var uncounted := OthersListed(classify, partners, counted);
    var f := FrequenciesOf(partners, counted);
    CochangeEntropyListing(ln, classify, file, partners, counted + uncounted);
    CollectAppend(counted, uncounted, RealFrequency(classify, partners));
    CountedAre(classify, partners, counted);
    CountedFrequencies(classify, partners, counted);
    UncountedFrequencies(classify, partners, uncounted);
    assert f + [] == f;
    NormalizedEntropyBounds(ln, f);
    FrequenciesPositive(classify, partners, counted);
  }

  lemma CountedAre(classify: Classifier, partners: Partners, counted: seq<string>)
    requires AreCounted(classify, partners, counted)
    ensures forall g :: g in counted ==> g in partners && classify(g) == None && partners[g] >= 2
  {
  }

  /** The partners that do not count. */
  lemma OthersListed(classify: Classifier, partners: Partners, counted: seq<string>) returns (uncounted: seq<string>)
    requires AreCounted(classify, partners, counted)
    ensures forall i :: 0 <= i < |uncounted| ==>
      uncounted[i] in partners && (classify(uncounted[i]) != None || partners[uncounted[i]] < 2)
    ensures Distinct(counted + uncounted) && forall g :: g in counted + uncounted <==> g in partners
  {
    uncounted := Listing(partners.Keys - set g | g in counted);
    DistinctConcat(counted, uncounted);
    assert forall i :: 0 <= i < |uncounted| ==> uncounted[i] in uncounted;
  }

  lemma FrequenciesPositive(classify: Classifier, partners: Partners, counted: seq<string>)
    requires AreCounted(classify, partners, counted)
    ensures PositiveValues(FrequenciesOf(partners, counted)) == FrequenciesOf(partners, counted)
    ensures |FrequenciesOf(partners, counted)| == |counted|
  {
    assert forall i :: 0 <= i < |counted| ==> counted[i] in counted;
    AllPositiveValues(FrequenciesOf(partners, counted));
  }

  lemma {:induction false} CountedFrequencies(classify: Classifier, partners: Partners, counted: seq<string>)
    requires forall g :: g in counted ==> g in partners && classify(g) == None && partners[g] >= 2
    ensures Collect(counted, RealFrequency(classify, partners)) == FrequenciesOf(partners, counted)
  {
    if counted != [] {
      assert counted[0] in counted && forall g :: g in counted[1..] ==> g in counted;
      CountedFrequencies(classify, partners, counted[1..]);
      assert FrequenciesOf(partners, counted)
        == [partners[counted[0]] as real] + FrequenciesOf(partners, counted[1..]);
    }
  }

  lemma {:induction false} UncountedFrequencies(classify: Classifier, partners: Partners, uncounted: seq<string>)
    requires forall i :: 0 <= i < |uncounted| ==>
      uncounted[i] in partners && (classify(uncounted[i]) != None || partners[uncounted[i]] < 2)
    ensures Collect(uncounted, RealFrequency(classify, partners)) == []
  {
    if uncounted != [] {
      UncountedFrequencies(classify, partners, uncounted[1..]);
    }
  }

  lemma {:induction false} AllPositiveValues(values: seq<real>)
    requires AllPositive(values)
    ensures PositiveValues(values) == values
  {
    if values != [] {
      AllPositiveValues(values[1..]);
    }
  }

  lemma CochangeEntropyInUnitInterval(ln: real -> real, classify: Classifier, file: string, partners: Partners)
    requires LnLaws(ln)
    ensures 0.0 <= CochangeEntropy(ln, classify, file, partners) <= 1.0
  {
    if classify(file).None? {
      NormalizedEntropyBounds(ln, Collect(Listing(partners.Keys), RealFrequency(classify, partners)));
    }
  }
}
