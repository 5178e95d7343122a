/**
 The 95th percentile of a Prometheus histogram: the sorted-scan interpolation loop, the
 piecewise-linear cumulative curve it is meant to invert, and how the two agree.

 Arithmetic is over `real`; the `+Inf` bound is a value of its own.
 */
module Histogram {
  import opened Text

  datatype Bound = Finite(value: real) | Infinite

  datatype Bucket = Bucket(le: Bound, count: real)

  datatype Reading = Reading(name: string, labels: map<string, string>, value: real)

  predicate Leq(a: Bound, b: Bound) {
    b.Infinite? || (a.Finite? && a.value <= b.value)
  }

  // ---------------------------------------------------------------------------------------
  // Collecting and sorting buckets
  // ---------------------------------------------------------------------------------------

  /** `parse` is the host's `float`; None stands for its ValueError. */
  function BoundOf(parse: string -> Option<Bound>, labels: map<string, string>): Option<Bound> {
    if "le" !in labels || labels["le"] == "" then None
    else if labels["le"] == "+Inf" then Some(Infinite)
    else parse(labels["le"])
  }

  function BucketsOf(parse: string -> Option<Bound>, samples: seq<Reading>, name: string): seq<Bucket> {
    if samples == [] then []
    else
      var s := samples[|samples| - 1];
      var le := BoundOf(parse, s.labels);
      BucketsOf(parse, samples[..|samples| - 1], name)
      + if s.name == name && le.Some? then [Bucket(le.value, s.value)] else []
  }

  /** Insert after every bucket whose bound is not larger. */
  function Insert(bs: seq<Bucket>, b: Bucket): seq<Bucket> {
    if bs == [] || Leq(bs[|bs| - 1].le, b.le) then bs + [b]
    else Insert(bs[..|bs| - 1], b) + [bs[|bs| - 1]]
  }

  /** The stable sort by bound. */
  function StableSort(bs: seq<Bucket>): seq<Bucket> {
    if bs == [] then [] else Insert(StableSort(bs[..|bs| - 1]), bs[|bs| - 1])
  }

  ghost predicate IsSorted(bs: seq<Bucket>) {
    forall i, j :: 0 <= i < j < |bs| ==> Leq(bs[i].le, bs[j].le)
  }

  /** The buckets with a given bound, in order. */
  function WithBound(bs: seq<Bucket>, le: Bound): seq<Bucket> {
    if bs == [] then []
    else WithBound(bs[..|bs| - 1], le) + if bs[|bs| - 1].le == le then [bs[|bs| - 1]] else []
  }

  lemma WithBoundLast(bs: seq<Bucket>, b: Bucket, le: Bound)
    ensures WithBound(bs + [b], le) == WithBound(bs, le) + if b.le == le then [b] else []
  {
    assert (bs + [b])[..|bs|] == bs;
  }

  lemma {:induction false} InsertSorts(bs: seq<Bucket>, b: Bucket)
    requires IsSorted(bs)
    ensures IsSorted(Insert(bs, b)) && |Insert(bs, b)| == |bs| + 1
    ensures forall x :: x in Insert(bs, b) <==> x == b || x in bs
  {
    if bs != [] && !Leq(bs[|bs| - 1].le, b.le) {
      var front, last := bs[..|bs| - 1], bs[|bs| - 1];
      InsertSorts(front, b);
      var r := Insert(front, b);
      assert bs == front + [last];
      forall i | 0 <= i < |r|
        ensures Leq(r[i].le, last.le)
      {
        assert r[i] in r;
        assert r[i] in front ==> Leq(r[i].le, last.le);
      }
    }
  }

  /** The new bucket comes after those with the same bound; all others keep their order. */
  lemma {:induction false} InsertIsStable(bs: seq<Bucket>, b: Bucket, le: Bound)
    ensures WithBound(Insert(bs, b), le) == WithBound(bs, le) + if b.le == le then [b] else []
  {
    if bs == [] || Leq(bs[|bs| - 1].le, b.le) {
      WithBoundLast(bs, b, le);
    } else {
      var front, last := bs[..|bs| - 1], bs[|bs| - 1];
      InsertIsStable(front, b, le);
      WithBoundLast(Insert(front, b), last, le);
    }
  }

  /** The sort orders by bound, keeps every bucket, and keeps the order of equal bounds. */
  lemma {:induction false} SortIsStable(bs: seq<Bucket>)
    ensures IsSorted(StableSort(bs)) && |StableSort(bs)| == |bs|
    ensures forall x :: x in StableSort(bs) <==> x in bs
    ensures forall le :: WithBound(StableSort(bs), le) == WithBound(bs, le)
  {
    if bs != [] {
      var front, last := bs[..|bs| - 1], bs[|bs| - 1];
      assert bs == front + [last];
      SortIsStable(front);
      InsertSorts(StableSort(front), last);
      forall le {
        InsertIsStable(StableSort(front), last, le);
      }
    }
  }

  // ---------------------------------------------------------------------------------------
  // The answer, read off the first bucket that reaches the target
  // ---------------------------------------------------------------------------------------

  function Total(bs: seq<Bucket>): real
    requires bs != []
  {
    bs[|bs| - 1].count
  }

  function Target(bs: seq<Bucket>): real
    requires bs != []
  {
    0.95 * Total(bs)
  }

  function PrevCount(bs: seq<Bucket>, k: nat): real
    requires k <= |bs|
  {
    if k == 0 then 0.0 else bs[k - 1].count
  }

  function PrevBound(bs: seq<Bucket>, k: nat): Bound
    requires k <= |bs|
  {
    if k == 0 then Finite(0.0) else bs[k - 1].le
  }

  predicate IsFirstReaching(bs: seq<Bucket>, t: real, k: nat) {
    k < |bs| && bs[k].count >= t && forall j :: 0 <= j < k ==> bs[j].count < t
  }

  /** Where a target strictly above the previous count is met on the segment ending at (le, count). */
  function Interpolate(t: real, prevLe: real, prevCount: real, le: real, count: real): real
    requires count != prevCount
  {
    prevLe + (t - prevCount) / (count - prevCount) * (le - prevLe)
  }

  /** The interpolated value in the bucket that first reaches the target. */
  function AnswerAt(bs: seq<Bucket>, k: nat): real
    requires k < |bs| && bs[k].le.Finite? && PrevBound(bs, k).Finite? && bs[k].count != PrevCount(bs, k)
  {
    Interpolate(Target(bs), PrevBound(bs, k).value, PrevCount(bs, k), bs[k].le.value, bs[k].count)
  }

  ghost predicate IsAnswerAt(bs: seq<Bucket>, k: nat, r: Bound)
    requires k < |bs|
  {
    if bs[k].le.Infinite? then
      r == if PrevCount(bs, k) > 0.0 then PrevBound(bs, k) else Infinite
    else
      && PrevBound(bs, k).Finite? && bs[k].count != PrevCount(bs, k)
      && r == Finite(AnswerAt(bs, k))
  }

  /** For sorted buckets: nothing without observations, else the answer of the first reaching bucket. */
  ghost predicate IsP95(bs: seq<Bucket>, r: Option<Bound>) {
    if bs == [] || Total(bs) <= 0.0 then r.None?
    else r.Some? && IsSorted(bs) && exists k: nat :: IsFirstReaching(bs, Target(bs), k) && IsAnswerAt(bs, k, r.value)
  }

  // ---------------------------------------------------------------------------------------
  // The code
  // ---------------------------------------------------------------------------------------

  method HistogramP95(parse: string -> Option<Bound>, samples: seq<Reading>, histogramName: string) returns (r: Option<Bound>)
    ensures IsP95(StableSort(BucketsOf(parse, samples, histogramName + "_bucket")), r)
    ensures var bs := StableSort(BucketsOf(parse, samples, histogramName + "_bucket"));
            && (r.None? <==> bs == [] || bs[|bs| - 1].count <= 0.0)
            && (WellFormed(bs) && r.Some? ==> IsQuantileOf(bs, 0.95, r.value))
  {
    r := None;
    var buckets := CollectBuckets(parse, samples, histogramName + "_bucket");
    if |buckets| == 0 {
      return None;
    }
    SortIsStable(buckets);
    buckets := StableSort(buckets);
    if buckets[|buckets| - 1].count <= 0.0 {
      return None;
    }
    var bound := Scan(buckets);
    if WellFormed(buckets) {
      AnswerIsQuantile(buckets, bound);
    }
    return Some(bound);
  }

  /** The loop over the sorted buckets; with a positive total some bucket reaches the target, so it is never left at the end. */
  method Scan(buckets: seq<Bucket>) returns (r: Bound)
    requires buckets != [] && IsSorted(buckets) && Total(buckets) > 0.0
    ensures exists k: nat :: IsFirstReaching(buckets, 0.95 * buckets[|buckets| - 1].count, k) && IsAnswerAt(buckets, k, r)
  {
    r := Infinite;
    var target := 0.95 * Total(buckets);
    var prevLe, prevCount := Finite(0.0), 0.0;
    for i := 0 to |buckets|
      invariant prevLe == PrevBound(buckets, i) && prevCount == PrevCount(buckets, i)
      invariant forall j :: 0 <= j < i ==> buckets[j].count < target
    {
      var le, count := buckets[i].le, buckets[i].count;
      if count >= target {
        assert IsFirstReaching(buckets, Target(buckets), i);
        if le.Infinite? || count == prevCount {
          r := if prevCount > 0.0 then prevLe else le;
        } else {
          assert i > 0 ==> Leq(buckets[i - 1].le, le);
          r := Finite(Interpolate(target, prevLe.value, prevCount, le.value, count));
        }
        assert IsAnswerAt(buckets, i, r);
        return;
      }
      prevLe, prevCount := le, count;
    }
    assert false;
  }

  /** The sample belongs to the series and its bound can be read; `+Inf` is spelled out, all else is a float. */
  predicate Contributes(parse: string -> Option<Bound>, s: Reading, name: string, b: Bucket) {
    && s.name == name && s.value == b.count && "le" in s.labels && s.labels["le"] != ""
    && if s.labels["le"] == "+Inf" then b.le == Infinite else parse(s.labels["le"]) == Some(b.le)
  }

  /** The buckets collected are those of the contributing samples. */
  lemma {:induction false} BucketsAre(parse: string -> Option<Bound>, samples: seq<Reading>, name: string, b: Bucket)
    ensures b in BucketsOf(parse, samples, name) <==> exists s :: s in samples && Contributes(parse, s, name, b)
  {
    if samples != [] {
      var front, s := samples[..|samples| - 1], samples[|samples| - 1];
      assert samples == front + [s];
      BucketsAre(parse, front, name, b);
      assert s in samples;
    }
  }

  lemma BucketsStep(parse: string -> Option<Bound>, front: seq<Reading>, s: Reading, name: string)
    ensures BucketsOf(parse, front + [s], name) == BucketsOf(parse, front, name) + BucketsOf(parse, [s], name)
  {
    assert (front + [s])[..|front|] == front && [s][..0] == [];
    assert BucketsOf(parse, [s][..0], name) == [];
  }

  /** They come in the order of the samples. */
  lemma {:induction false} BucketsAppend(parse: string -> Option<Bound>, a: seq<Reading>, b: seq<Reading>, name: string)
    ensures BucketsOf(parse, a + b, name) == BucketsOf(parse, a, name) + BucketsOf(parse, b, name)
  {
    if b == [] {
      assert a + b == a;
    } else {
      var front, s := b[..|b| - 1], b[|b| - 1];
      BucketsAppend(parse, a, front, name);
      BucketsStep(parse, a + front, s, name);
      BucketsStep(parse, front, s, name);
      assert a + b == a + front + [s] && b == front + [s];
      Associate(BucketsOf(parse, a, name), BucketsOf(parse, front, name), BucketsOf(parse, [s], name));
    }
  }

  method CollectBuckets(parse: string -> Option<Bound>, samples: seq<Reading>, name: string) returns (buckets: seq<Bucket>)
    ensures buckets == BucketsOf(parse, samples, name)
  {
    buckets := [];
    for i := 0 to |samples|
      invariant buckets == BucketsOf(parse, samples[..i], name)
    {
      assert samples[..i + 1][..i] == samples[..i];
      var s := samples[i];
      if s.name == name && "le" in s.labels && s.labels["le"] != "" {
        var le := if s.labels["le"] == "+Inf" then Some(Infinite) else parse(s.labels["le"]);
        if le.Some? {
          buckets := buckets + [Bucket(le.value, s.value)];
        }
      }
    }
    assert samples[..|samples|] == samples;
  }

  /**
   On any buckets with a positive total some bucket reaches the target, so the final fallback is
   unreachable, and that bucket's count differs from the previous one, so the equality test never
   decides and the division is defined.
   */
  lemma {:induction false} SomeBucketReaches(bs: seq<Bucket>, n: nat) returns (k: nat)
    requires bs != [] && Total(bs) > 0.0
    requires n < |bs| && forall j :: 0 <= j < n ==> bs[j].count < Target(bs)
    ensures IsFirstReaching(bs, Target(bs), k) && bs[k].count != PrevCount(bs, k)
    decreases |bs| - n
  {
    if bs[n].count >= Target(bs) {
      k := n;
    } else {
      k := SomeBucketReaches(bs, n + 1);
    }
  }

  // ---------------------------------------------------------------------------------------
  // The cumulative curve
  // ---------------------------------------------------------------------------------------

  predicate AllButLastFinite(bs: seq<Bucket>) {
    forall i :: 0 <= i < |bs| - 1 ==> bs[i].le.Finite?
  }

  /** What exporters promise: increasing bounds from zero on, cumulative counts. */
  ghost predicate WellFormed(bs: seq<Bucket>) {
    && bs != []
    && AllButLastFinite(bs)
    && (forall i, j :: 0 <= i < j < |bs| && bs[j].le.Finite? ==> bs[i].le.value < bs[j].le.value)
    && (forall i, j :: 0 <= i < j < |bs| ==> bs[i].count <= bs[j].count)
    && bs[0].count >= 0.0 && (bs[0].le.Finite? ==> bs[0].le.value >= 0.0)
  }

  /** Observations at or below x, spreading each bucket evenly between its bounds, from bucket k on. */
  function CurveFrom(bs: seq<Bucket>, k: nat, x: real): real
    requires k <= |bs| && AllButLastFinite(bs)
    decreases |bs| - k
  {
    if k == |bs| || bs[k].le.Infinite? then PrevCount(bs, k)
    else
      var a, b := PrevBound(bs, k).value, bs[k].le.value;
      if x >= b || a == b then CurveFrom(bs, k + 1, x)
      else PrevCount(bs, k) + (x - a) / (b - a) * (bs[k].count - PrevCount(bs, k))
  }

  function Curve(bs: seq<Bucket>, x: real): real
    requires AllButLastFinite(bs)
  {
    CurveFrom(bs, 0, x)
  }

  /** The smallest point at which the curve has reached the target. */
  ghost predicate IsLeastReaching(bs: seq<Bucket>, q: real)
    requires WellFormed(bs)
  {
    q >= 0.0 && Curve(bs, q) >= Target(bs) && forall x :: 0.0 <= x < q ==> Curve(bs, x) < Target(bs)
  }

  /** The declarative quantile. */
  ghost predicate IsQuantile(bs: seq<Bucket>, r: Bound)
    requires WellFormed(bs)
  {
    if exists x :: x >= 0.0 && Curve(bs, x) >= Target(bs) then
      r.Finite? && IsLeastReaching(bs, r.value)
    else if exists x :: x >= 0.0 && Curve(bs, x) > 0.0 then
      |bs| > 1 && r == bs[|bs| - 2].le
    else
      r == Infinite
  }

  /** The same for any fraction of the last count: least point reaching it, else the last finite bound, else +Inf. */
  ghost predicate IsQuantileOf(bs: seq<Bucket>, fraction: real, r: Bound)
    requires WellFormed(bs)
  {
    var n := bs[|bs| - 1].count;
    if exists x :: x >= 0.0 && Curve(bs, x) >= fraction * n then
      r.Finite? && r.value >= 0.0 && Curve(bs, r.value) >= fraction * n && forall x :: 0.0 <= x < r.value ==> Curve(bs, x) < fraction * n
    else if exists x :: x >= 0.0 && Curve(bs, x) > 0.0 then
      |bs| > 1 && r == bs[|bs| - 2].le
    else
      r == Infinite
  }

  lemma MulSub(f: real, a: real, b: real)
    ensures f * (a - b) == f * a - f * b
  {
  }

  lemma MulMono(f: real, g: real, d: real)
    requires f <= g && d >= 0.0
    ensures f * d <= g * d
  {
    MulSub(d, g, f);
    assert d * (g - f) >= 0.0;
  }

  lemma StrictMulMono(f: real, g: real, d: real)
    requires f < g && d > 0.0
    ensures f * d < g * d
  {
    MulSub(d, g, f);
    assert d * (g - f) > 0.0;
  }

  lemma MulBetween(f: real, d: real)
    requires 0.0 <= f <= 1.0 && d >= 0.0
    ensures 0.0 <= f * d <= d
  {
    MulMono(0.0, f, d);
    MulMono(f, 1.0, d);
  }

  lemma DivCancel(f: real, d: real)
    requires d != 0.0
    ensures f * d / d == f
  {
  }

  lemma CancelDiv(n: real, d: real)
    requires d != 0.0
    ensures n / d * d == n
  {
  }

  lemma FractionBounds(n: real, d: real)
    requires 0.0 <= n <= d && d > 0.0
    ensures 0.0 <= n / d <= 1.0 && (n < d ==> n / d < 1.0) && (n == d ==> n / d == 1.0)
  {
    var f := n / d;
    CancelDiv(n, d);
    if f < 0.0 {
      StrictMulMono(f, 0.0, d);
    }
    if f > 1.0 {
      StrictMulMono(1.0, f, d);
    }
  }

  lemma InterpolateIsBetween(t: real, a: real, p: real, b: real, c: real)
    requires p < t <= c && a <= b
    ensures a <= Interpolate(t, a, p, b, c) <= b
    ensures t == c ==> Interpolate(t, a, p, b, c) == b
  {
    FractionBounds(t - p, c - p);
    MulBetween((t - p) / (c - p), b - a);
  }

  /** The segment's height at the interpolated point is the target; to the left of it, less. */
  lemma SegmentInverts(t: real, a: real, p: real, b: real, c: real, x: real)
    requires p < t <= c && a < b
    ensures var q := Interpolate(t, a, p, b, c);
            && p + (q - a) / (b - a) * (c - p) == t
            && (x < q ==> p + (x - a) / (b - a) * (c - p) < t)
  {
    var q := Interpolate(t, a, p, b, c);
    var f := (t - p) / (c - p);
    DivCancel(f, b - a);
    CancelDiv(t - p, c - p);
    assert (q - a) / (b - a) == f;
    if x < q {
      LeftIsBelow(t, a, p, b, c, x, f);
    }
  }

  lemma LeftIsBelow(t: real, a: real, p: real, b: real, c: real, x: real, f: real)
    requires p < c && a < b && f * (c - p) == t - p && x - a < f * (b - a)
    ensures p + (x - a) / (b - a) * (c - p) < t
  {
    var g := (x - a) / (b - a);
    CancelDiv(x - a, b - a);
    if g >= f {
      MulMono(f, g, b - a);
    }
    StrictMulMono(g, f, c - p);
  }

  /** On a segment the curve stays between its end counts. */
  lemma SegmentIsBetween(p: real, c: real, a: real, b: real, x: real)
    requires p <= c && a <= x < b
    ensures p <= p + (x - a) / (b - a) * (c - p) <= c
  {
    FractionBounds(x - a, b - a);
    MulBetween((x - a) / (b - a), c - p);
  }

  lemma PrevIsBelow(bs: seq<Bucket>, k: nat)
    requires WellFormed(bs) && k < |bs|
    ensures PrevBound(bs, k).Finite? && 0.0 <= PrevCount(bs, k) <= bs[k].count
    ensures bs[k].le.Finite? ==> PrevBound(bs, k).value <= bs[k].le.value
    ensures bs[k].le.Finite? && k > 0 ==> PrevBound(bs, k).value < bs[k].le.value
  {
    if k > 0 {
      assert bs[0].count <= bs[k - 1].count;
    }
  }

  lemma BelowOnLastSegment(bs: seq<Bucket>, k: nat, x: real)
    requires WellFormed(bs) && Total(bs) > 0.0 && IsFirstReaching(bs, Target(bs), k) && bs[k].le.Finite?
    requires PrevBound(bs, k).Finite? && bs[k].count != PrevCount(bs, k) && PrevBound(bs, k).value <= x < AnswerAt(bs, k)
    ensures CurveFrom(bs, k, x) < Target(bs)
  {
    PrevIsBelow(bs, k);
    var a, b, p, c := PrevBound(bs, k).value, bs[k].le.value, PrevCount(bs, k), bs[k].count;
    InterpolateIsBetween(Target(bs), a, p, b, c);
    SegmentInverts(Target(bs), a, p, b, c, x);
  }

  lemma BelowOnEarlierSegment(bs: seq<Bucket>, j: nat, k: nat, x: real)
    requires WellFormed(bs) && Total(bs) > 0.0 && IsFirstReaching(bs, Target(bs), k) && j < k
    requires PrevBound(bs, j).Finite? && PrevBound(bs, j).value <= x < bs[j].le.value
    ensures CurveFrom(bs, j, x) < Target(bs)
  {
    PrevIsBelow(bs, j);
    var a, b, p, c := PrevBound(bs, j).value, bs[j].le.value, PrevCount(bs, j), bs[j].count;
    SegmentIsBetween(p, c, a, b, x);
    assert CurveFrom(bs, j, x) == p + (x - a) / (b - a) * (c - p);
  }

  /** Left of the answer the curve is below the target, whichever segment x is on. */
  lemma {:induction false} BelowAnswer(bs: seq<Bucket>, j: nat, k: nat, x: real)
    requires WellFormed(bs) && Total(bs) > 0.0 && IsFirstReaching(bs, Target(bs), k) && j <= k
    requires PrevBound(bs, k).Finite? && bs[k].count != PrevCount(bs, k)
    requires PrevBound(bs, j).Finite? && x >= PrevBound(bs, j).value
    requires bs[k].le.Finite? ==> x < AnswerAt(bs, k)
    ensures CurveFrom(bs, j, x) < Target(bs)
    decreases k - j
  {
    if j < k {
      if x < bs[j].le.value {
        BelowOnEarlierSegment(bs, j, k, x);
      } else {
        BelowAnswer(bs, j + 1, k, x);
      }
    } else if bs[k].le.Finite? {
      BelowOnLastSegment(bs, k, x);
    }
  }

  /** At the answer the curve has reached the target. */
  lemma {:induction false} AtAnswer(bs: seq<Bucket>, j: nat, k: nat)
    requires WellFormed(bs) && Total(bs) > 0.0 && IsFirstReaching(bs, Target(bs), k) && j <= k
    requires bs[k].le.Finite? && PrevBound(bs, k).Finite? && bs[k].count != PrevCount(bs, k)
    ensures var q := AnswerAt(bs, k);
            PrevBound(bs, k).value <= q <= bs[k].le.value && CurveFrom(bs, j, q) >= Target(bs)
    decreases k - j
  {
    PrevIsBelow(bs, j);
    PrevIsBelow(bs, k);
    var t := Target(bs);
    var a, b, p, c := PrevBound(bs, k).value, bs[k].le.value, PrevCount(bs, k), bs[k].count;
    var q := Interpolate(t, a, p, b, c);
    InterpolateIsBetween(t, a, p, b, c);
    if j < k {
      assert bs[j].le.value <= a;
      AtAnswer(bs, j + 1, k);
    } else if q >= b {
      CurveAtBound(bs, k + 1);
    } else {
      SegmentInverts(t, a, p, b, c, q);
    }
  }

  /** At a bucket's bound the curve shows the bucket's count. */
  lemma CurveAtBound(bs: seq<Bucket>, k: nat)
    requires WellFormed(bs) && 0 < k <= |bs| && bs[k - 1].le.Finite?
    ensures CurveFrom(bs, k, bs[k - 1].le.value) == bs[k - 1].count
  {
    if k < |bs| && bs[k].le.Finite? {
      var a, b := bs[k - 1].le.value, bs[k].le.value;
      assert (a - a) / (b - a) == 0.0;
    }
  }

  lemma CurvePositive(bs: seq<Bucket>, k: nat, x: real)
    requires WellFormed(bs) && k <= |bs| && (forall i :: 0 <= i < |bs| && bs[i].le.Finite? ==> bs[i].count <= 0.0)
    requires PrevCount(bs, k) <= 0.0
    ensures CurveFrom(bs, k, x) <= 0.0
    decreases |bs| - k
  {
    if k < |bs| && bs[k].le.Finite? {
      PrevIsBelow(bs, k);
      assert bs[k].count == 0.0 && PrevCount(bs, k) == 0.0;
      CurvePositive(bs, k + 1, x);
    }
  }

  /** When only the +Inf bucket reaches the target, the curve is positive somewhere iff a finite bucket has observations. */
  lemma PositiveSomewhere(bs: seq<Bucket>, k: nat)
    requires WellFormed(bs) && k == |bs| - 1 && bs[k].le.Infinite?
    ensures (exists x :: x >= 0.0 && Curve(bs, x) > 0.0) <==> PrevCount(bs, k) > 0.0
  {
    if PrevCount(bs, k) > 0.0 {
      var top := bs[k - 1].le.value;
      SkipTo(bs, 0, k, top);
      CurveAtBound(bs, k);
      assert bs[0].le.value <= top;
      assert top >= 0.0 && Curve(bs, top) > 0.0;
    } else {
      forall x
        ensures Curve(bs, x) <= 0.0
      {
        CurvePositive(bs, 0, x);
      }
    }
  }

  lemma {:induction false} SkipTo(bs: seq<Bucket>, j: nat, k: nat, x: real)
    requires WellFormed(bs) && j <= k <= |bs| && forall i :: j <= i < k ==> bs[i].le.Finite? && bs[i].le.value <= x
    ensures CurveFrom(bs, j, x) == CurveFrom(bs, k, x)
    decreases k - j
  {
    if j < k {
      SkipTo(bs, j + 1, k, x);
    }
  }

  /**
   The curve, point by point: at each finite bound it shows the bucket's count, it rises straight from
   zero to the first bound and stays level after the last one.
   */
  lemma CurveAtBounds(bs: seq<Bucket>, k: nat, x: real)
    requires WellFormed(bs) && k < |bs| && x >= 0.0
    ensures bs[k].le.Finite? ==> Curve(bs, bs[k].le.value) == bs[k].count
    ensures bs[0].le.Finite? && x < bs[0].le.value ==> Curve(bs, x) == x / bs[0].le.value * bs[0].count
    ensures bs[k].le.Finite? && bs[k].le.value <= x && (k + 1 == |bs| || bs[k + 1].le.Infinite?) ==> Curve(bs, x) == bs[k].count
    ensures bs[0].le.Infinite? ==> Curve(bs, x) == 0.0
  {
    if bs[k].le.Finite? {
      BoundsUpTo(bs, k);
      SkipTo(bs, 0, k + 1, bs[k].le.value);
      CurveAtBound(bs, k + 1);
      if bs[k].le.value <= x {
        SkipTo(bs, 0, k + 1, x);
      }
    }
  }

  /** Between two finite bounds it is the straight line through their counts. */
  lemma CurveBetweenBounds(bs: seq<Bucket>, k: nat, x: real)
    requires WellFormed(bs) && k + 1 < |bs| && bs[k + 1].le.Finite?
    requires bs[k].le.value <= x < bs[k + 1].le.value
    ensures var a, b := bs[k], bs[k + 1];
            Curve(bs, x) == a.count + (x - a.le.value) / (b.le.value - a.le.value) * (b.count - a.count)
  {
    BoundsUpTo(bs, k);
    SkipTo(bs, 0, k + 1, x);
  }

  lemma BoundsUpTo(bs: seq<Bucket>, k: nat)
    requires WellFormed(bs) && k < |bs| && bs[k].le.Finite?
    ensures forall i :: 0 <= i <= k ==> bs[i].le.Finite? && bs[i].le.value <= bs[k].le.value
  {
  }

  /** The main theorem: on well-formed buckets the loop's answer is the quantile of the cumulative curve. */
  lemma AnswerIsQuantile(bs: seq<Bucket>, r: Bound)
    requires WellFormed(bs) && Total(bs) > 0.0 && IsP95(bs, Some(r))
    ensures IsQuantile(bs, r) && IsQuantileOf(bs, 0.95, r)
  {
    var k: nat :| IsFirstReaching(bs, Target(bs), k) && IsAnswerAt(bs, k, r);
    PrevIsBelow(bs, k);
    if bs[k].le.Finite? {
      AtAnswer(bs, 0, k);
      forall x | 0.0 <= x < r.value
        ensures Curve(bs, x) < Target(bs)
      {
        BelowAnswer(bs, 0, k, x);
      }
      assert IsLeastReaching(bs, r.value);
    } else {
      forall x | x >= 0.0
        ensures Curve(bs, x) < Target(bs)
      {
        BelowAnswer(bs, 0, k, x);
      }
      PositiveSomewhere(bs, k);
    }
  }

  /** The quantile is unique, so the theorem pins the answer down. */
  lemma QuantileIsUnique(bs: seq<Bucket>, r: Bound, s: Bound)
    requires WellFormed(bs) && IsQuantile(bs, r) && IsQuantile(bs, s)
    ensures r == s
  {
    if exists x :: x >= 0.0 && Curve(bs, x) >= Target(bs) {
      LeastIsLeast(bs, r.value, s.value);
      LeastIsLeast(bs, s.value, r.value);
    }
  }

  lemma LeastIsLeast(bs: seq<Bucket>, q: real, x: real)
    requires WellFormed(bs) && IsLeastReaching(bs, q) && x >= 0.0 && Curve(bs, x) >= Target(bs)
    ensures q <= x
  {
  }

  // ---------------------------------------------------------------------------------------
  // Stochastic order and scaling
  // ---------------------------------------------------------------------------------------

  /** Same bounds, and everywhere at most as many observations so far. */
  ghost predicate IsLater(slow: seq<Bucket>, fast: seq<Bucket>) {
    |slow| == |fast| && forall i :: 0 <= i < |slow| ==> slow[i].le == fast[i].le && slow[i].count <= fast[i].count
  }

  lemma MixMono(f: real, p1: real, c1: real, p2: real, c2: real)
    requires 0.0 <= f <= 1.0 && p1 <= p2 && c1 <= c2
    ensures p1 + f * (c1 - p1) <= p2 + f * (c2 - p2)
  {
    MulBetween(f, p2 - p1);
    MulBetween(f, c2 - c1);
    CrossDifference(f, p1, c1, p2, c2);
    Gap(f * (p2 - p1), f * (c2 - c1), f * (c1 - p1), f * (c2 - p2), p2 - p1);
  }

  lemma CrossDifference(f: real, p1: real, c1: real, p2: real, c2: real)
    ensures f * (c2 - c1) - f * (p2 - p1) == f * (c2 - p2) - f * (c1 - p1)
  {
    MulSub(f, c2, c1);
    MulSub(f, p2, p1);
    MulSub(f, c2, p2);
    MulSub(f, c1, p1);
  }

  lemma Gap(x: real, y: real, s: real, t: real, d: real)
    requires y - x == t - s && x <= d && y >= 0.0
    ensures s <= t + d
  {
  }

  lemma SegmentMono(a: real, b: real, x: real, p1: real, c1: real, p2: real, c2: real)
    requires a <= x < b && p1 <= p2 && c1 <= c2
    ensures p1 + (x - a) / (b - a) * (c1 - p1) <= p2 + (x - a) / (b - a) * (c2 - p2)
  {
    var f := (x - a) / (b - a);
    FractionBounds(x - a, b - a);
    assert 0.0 <= f <= 1.0;
    MixMono(f, p1, c1, p2, c2);
  }

  lemma {:induction false} CurveMono(slow: seq<Bucket>, fast: seq<Bucket>, k: nat, x: real)
    requires WellFormed(slow) && WellFormed(fast) && IsLater(slow, fast) && k <= |slow|
    requires k < |slow| && PrevBound(slow, k).Finite? ==> x >= PrevBound(slow, k).value
    ensures CurveFrom(slow, k, x) <= CurveFrom(fast, k, x)
    decreases |slow| - k
  {
    if k < |slow| && slow[k].le.Finite? {
      PrevIsBelow(slow, k);
      var a, b := PrevBound(slow, k).value, slow[k].le.value;
      if x >= b || a == b {
        CurveMono(slow, fast, k + 1, x);
      } else {
        SegmentMono(a, b, x, PrevCount(slow, k), slow[k].count, PrevCount(fast, k), fast[k].count);
      }
    }
  }

  /** A reached quantile lies at or below the largest finite bound. */
  lemma FiniteAnswerIsBounded(bs: seq<Bucket>, r: Bound)
    requires WellFormed(bs) && Total(bs) > 0.0 && IsP95(bs, Some(r)) && |bs| > 1 && bs[|bs| - 1].le.Infinite?
    ensures Leq(r, bs[|bs| - 2].le) || r.Infinite?
  {
    var k: nat :| IsFirstReaching(bs, Target(bs), k) && IsAnswerAt(bs, k, r);
    PrevIsBelow(bs, k);
    if bs[k].le.Finite? {
      AtAnswer(bs, 0, k);
    }
  }

  lemma CurveIsBelow(slow: seq<Bucket>, fast: seq<Bucket>, x: real)
    requires WellFormed(slow) && WellFormed(fast) && IsLater(slow, fast) && x >= 0.0
    ensures Curve(slow, x) <= Curve(fast, x)
  {
    CurveMono(slow, fast, 0, x);
  }

  /** When the slower curve reaches the target, the faster one does so no later. */
  lemma ReachedNoLater(slow: seq<Bucket>, fast: seq<Bucket>, r: Bound, s: Bound)
    requires WellFormed(slow) && WellFormed(fast) && IsLater(slow, fast) && Total(slow) == Total(fast)
    requires IsQuantile(slow, r) && IsQuantile(fast, s) && exists x :: x >= 0.0 && Curve(slow, x) >= Target(slow)
    ensures Leq(s, r)
  {
    CurveIsBelow(slow, fast, r.value);
    assert Curve(fast, r.value) >= Target(fast);
    LeastIsLeast(fast, s.value, r.value);
  }

  /** When the slower answer is the largest finite bound for want of reaching the target, the faster one is not above it. */
  lemma CappedNoLater(slow: seq<Bucket>, fast: seq<Bucket>, r: Bound, s: Bound)
    requires WellFormed(slow) && WellFormed(fast) && IsLater(slow, fast) && Total(slow) == Total(fast) > 0.0
    requires IsQuantile(slow, r) && IsQuantile(fast, s) && IsP95(slow, Some(r)) && IsP95(fast, Some(s))
    requires r.Finite? && !exists x :: x >= 0.0 && Curve(slow, x) >= Target(slow)
    ensures Leq(s, r)
  {
    var x :| x >= 0.0 && Curve(slow, x) > 0.0;
    CurveIsBelow(slow, fast, x);
    UnreachedEndsInfinite(slow, r);
    FiniteAnswerIsBounded(fast, s);
  }

  lemma UnreachedEndsInfinite(bs: seq<Bucket>, r: Bound)
    requires WellFormed(bs) && Total(bs) > 0.0 && IsP95(bs, Some(r))
    requires !exists x :: x >= 0.0 && Curve(bs, x) >= Target(bs)
    ensures bs[|bs| - 1].le.Infinite?
  {
    var k: nat :| IsFirstReaching(bs, Target(bs), k) && IsAnswerAt(bs, k, r);
    if bs[k].le.Finite? {
      FiniteAnswerReaches(bs, k);
    }
  }

  lemma FiniteAnswerReaches(bs: seq<Bucket>, k: nat)
    requires WellFormed(bs) && Total(bs) > 0.0 && IsFirstReaching(bs, Target(bs), k) && bs[k].le.Finite?
    ensures exists x :: x >= 0.0 && Curve(bs, x) >= Target(bs)
  {
    PrevIsBelow(bs, k);
    AtAnswer(bs, 0, k);
    assert k > 0 ==> bs[0].le.value <= bs[k - 1].le.value;
    assert AnswerAt(bs, k) >= 0.0 && Curve(bs, AnswerAt(bs, k)) >= Target(bs);
  }

  /** Slower distributions never report a smaller p95. */
  lemma P95RespectsOrder(slow: seq<Bucket>, fast: seq<Bucket>, r: Bound, s: Bound)
    requires WellFormed(slow) && WellFormed(fast) && IsLater(slow, fast)
    requires Total(slow) == Total(fast) > 0.0 && IsP95(slow, Some(r)) && IsP95(fast, Some(s))
    ensures Leq(s, r)
  {
    AnswerIsQuantile(slow, r);
    AnswerIsQuantile(fast, s);
    if exists x :: x >= 0.0 && Curve(slow, x) >= Target(slow) {
      ReachedNoLater(slow, fast, r, s);
    } else if r.Finite? {
      CappedNoLater(slow, fast, r, s);
    }
  }

  function Scaled(bs: seq<Bucket>, c: real): seq<Bucket> {
    seq(|bs|, i requires 0 <= i < |bs| => Bucket(bs[i].le, bs[i].count * c))
  }

  lemma ScaledInterpolation(t: real, a: real, p: real, b: real, n: real, c: real)
    requires c > 0.0 && n != p
    ensures n * c != p * c
    ensures Interpolate(t * c, a, p * c, b, n * c) == Interpolate(t, a, p, b, n)
  {
    MulSub(c, n, p);
    MulSub(c, t, p);
    NonZeroProduct(n - p, c);
    ScaledFraction(t - p, n - p, c);
  }

  lemma NonZeroProduct(n: real, c: real)
    requires n != 0.0 && c > 0.0
    ensures n * c != 0.0
  {
  }

  lemma ScaledFraction(m: real, n: real, c: real)
    requires n != 0.0 && c > 0.0 && n * c != 0.0
    ensures (m * c) / (n * c) == m / n
  {
    var f := m / n;
    CancelDiv(m, n);
    assert m * c == f * (n * c);
    DivCancel(f, n * c);
  }

  lemma ScaledCount(bs: seq<Bucket>, c: real, j: nat, t: real)
    requires c > 0.0 && j < |bs|
    ensures bs[j].count < t ==> Scaled(bs, c)[j].count < t * c
    ensures bs[j].count >= t ==> Scaled(bs, c)[j].count >= t * c
  {
    if bs[j].count < t {
      StrictMulMono(bs[j].count, t, c);
    } else {
      MulMono(t, bs[j].count, c);
    }
  }

  lemma ScaledFirstReaching(bs: seq<Bucket>, c: real, k: nat)
    requires c > 0.0 && bs != [] && IsFirstReaching(bs, Target(bs), k)
    ensures Target(Scaled(bs, c)) == Target(bs) * c && IsFirstReaching(Scaled(bs, c), Target(Scaled(bs, c)), k)
  {
    var scaled, t := Scaled(bs, c), Target(bs);
    assert 0.95 * (Total(bs) * c) == (0.95 * Total(bs)) * c;
    forall j | 0 <= j < k
      ensures scaled[j].count < t * c
    {
      ScaledCount(bs, c, j, t);
    }
    ScaledCount(bs, c, k, t);
  }

  lemma ScaledFiniteAnswer(bs: seq<Bucket>, c: real, k: nat, r: Bound)
    requires c > 0.0 && k < |bs| && bs[k].le.Finite? && IsAnswerAt(bs, k, r) && Target(Scaled(bs, c)) == Target(bs) * c
    ensures IsAnswerAt(Scaled(bs, c), k, r)
  {
    ScaledPrev(bs, c, k);
    ScaledInterpolation(Target(bs), PrevBound(bs, k).value, PrevCount(bs, k), bs[k].le.value, bs[k].count, c);
    SameAnswer(bs, Scaled(bs, c), k, c);
  }

  lemma ScaledInfiniteAnswer(bs: seq<Bucket>, c: real, k: nat, r: Bound)
    requires c > 0.0 && k < |bs| && bs[k].le.Infinite? && IsAnswerAt(bs, k, r)
    ensures IsAnswerAt(Scaled(bs, c), k, r)
  {
    ScaledPrev(bs, c, k);
    var p := PrevCount(bs, k);
    if p > 0.0 {
      StrictMulMono(0.0, p, c);
    } else {
      MulMono(p, 0.0, c);
    }
  }

  lemma ScaledPrev(bs: seq<Bucket>, c: real, k: nat)
    requires k < |bs|
    ensures var scaled := Scaled(bs, c);
            && PrevCount(scaled, k) == PrevCount(bs, k) * c && PrevBound(scaled, k) == PrevBound(bs, k)
            && scaled[k] == Bucket(bs[k].le, bs[k].count * c)
  {
  }

  lemma SameAnswer(bs: seq<Bucket>, scaled: seq<Bucket>, k: nat, c: real)
    requires k < |bs| && bs[k].le.Finite? && PrevBound(bs, k).Finite? && bs[k].count != PrevCount(bs, k)
    requires |scaled| == |bs| && Target(scaled) == Target(bs) * c && PrevBound(scaled, k) == PrevBound(bs, k)
    requires PrevCount(scaled, k) == PrevCount(bs, k) * c && scaled[k] == Bucket(bs[k].le, bs[k].count * c)
    requires bs[k].count * c != PrevCount(bs, k) * c
    requires Interpolate(Target(bs) * c, PrevBound(bs, k).value, PrevCount(bs, k) * c, bs[k].le.value, bs[k].count * c)
          == Interpolate(Target(bs), PrevBound(bs, k).value, PrevCount(bs, k), bs[k].le.value, bs[k].count)
    ensures AnswerAt(scaled, k) == AnswerAt(bs, k)
  {
  }

  lemma ScaledTotal(bs: seq<Bucket>, c: real)
    requires c > 0.0 && bs != []
    ensures Total(Scaled(bs, c)) <= 0.0 <==> Total(bs) <= 0.0
  {
    ScaledCount(bs, c, |bs| - 1, 0.0);
    if Total(bs) > 0.0 {
      StrictMulMono(0.0, Total(bs), c);
    } else {
      MulMono(Total(bs), 0.0, c);
    }
  }

  lemma ScaledPositive(bs: seq<Bucket>, c: real, k: nat, r: Bound)
    requires c > 0.0 && bs != [] && IsFirstReaching(bs, Target(bs), k) && IsAnswerAt(bs, k, r)
    ensures IsFirstReaching(Scaled(bs, c), Target(Scaled(bs, c)), k) && IsAnswerAt(Scaled(bs, c), k, r)
  {
    ScaledFirstReaching(bs, c, k);
    if bs[k].le.Finite? {
      ScaledFiniteAnswer(bs, c, k, r);
    } else {
      ScaledInfiniteAnswer(bs, c, k, r);
    }
  }

  /** Multiplying every count by a positive factor changes nothing, for any sorted buckets. */
  lemma P95IgnoresScale(bs: seq<Bucket>, c: real, r: Option<Bound>)
    requires c > 0.0 && IsSorted(bs) && IsP95(bs, r)
    ensures IsP95(Scaled(bs, c), r)
  {
    if bs != [] {
      ScaledTotal(bs, c);
      if Total(bs) > 0.0 {
        var k: nat :| IsFirstReaching(bs, Target(bs), k) && IsAnswerAt(bs, k, r.value);
        ScaledPositive(bs, c, k, r.value);
      }
    }
  }
}
