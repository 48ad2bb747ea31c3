/** Pulse analysis of one channel's trace: baseline, integral, centroid and the
    three-point parabolic peak (analyzing/AnalyzeFrame.cpp).  Doubles are reals. */
module Pulse {
  import opened ThreePoints

  const CHANNELS_PER_AGET := 68

  /** One entry of a trace: time bucket and ADC value. */
  datatype Sample = Sample(bucket: nat, value: nat)

  type Trace = seq<Sample>

  /** A double quotient: the code divides by the integral without looking at it. */
  datatype Quotient = Finite(value: real) | PlusInfinity | MinusInfinity | NotANumber {
    function Shift(d: real): Quotient {
      if Finite? then Finite(value + d) else this
    }
  }

  datatype Hit = Hit(cobo: nat, asad: nat, aget: nat, chan: nat,
                     time: Quotient, peak: real, integral: real) {
    function Affine(k: real, d: real): Hit {
      this.(time := time.Shift(d), peak := k * peak, integral := k * integral)
    }
  }

  function Divide(a: real, b: real): Quotient {
    if b != 0.0 then Finite(a / b)
    else if a > 0.0 then PlusInfinity
    else if a < 0.0 then MinusInfinity
    else NotANumber
  }

  function Min(a: real, b: real): real {
    if a <= b then a else b
  }

  /** The baseline: the lower of the second and the next to last sample, or what a
      trace of one or two samples offers instead. */
  function Offset(t: Trace): real
    requires |t| > 0
  {
    if |t| == 1 then t[0].value as real
    else if |t| == 2 then Min(t[0].value as real, t[1].value as real)
    else Min(t[1].value as real, t[|t| - 2].value as real)
  }

  function Height(t: Trace, o: real, i: nat): real
    requires i < |t|
  {
    t[i].value as real - o
  }

  function Bucket(t: Trace, i: nat): real
    requires i < |t|
  {
    t[i].bucket as real
  }

  /** Sum of the heights of samples 1 to n - 1. */
  function Sum(t: Trace, o: real, n: nat): real
    requires n <= |t|
  {
    if n <= 1 then 0.0 else Sum(t, o, n - 1) + Height(t, o, n - 1)
  }

  function Weight(t: Trace, o: real, i: nat): real
    requires i < |t|
  {
    Bucket(t, i) * Height(t, o, i)
  }

  lemma WeightIs(t: Trace, o: real, i: nat, bin: real, ht: real)
    requires i < |t| && bin == Bucket(t, i) && ht == Height(t, o, i)
    ensures bin * ht == Weight(t, o, i)
  {
  }

  /** Sum of bucket times height of samples 1 to n - 1. */
  function Moment(t: Trace, o: real, n: nat): real
    requires n <= |t|
  {
    if n <= 1 then 0.0 else Moment(t, o, n - 1) + Weight(t, o, n - 1)
  }

  /** Index of the first highest positive sample among 1 to n - 1, or 0 if none is positive. */
  function PeakIndex(t: Trace, o: real, n: nat): (m: nat)
    requires n <= |t|
    ensures m == 0 || m < n
  {
    if n <= 1 then 0
    else if Height(t, o, n - 1) > PeakHeight(t, o, n - 1) then n - 1
    else PeakIndex(t, o, n - 1)
  }

  function PeakHeight(t: Trace, o: real, n: nat): real
    requires n <= |t|
  {
    if n <= 1 then 0.0
    else if Height(t, o, n - 1) > PeakHeight(t, o, n - 1) then Height(t, o, n - 1)
    else PeakHeight(t, o, n - 1)
  }

  /** The height of the peak: the vertex of the parabola around sample `maxpos` when that
      sample has enough neighbours, its own height otherwise. */
  function InterpolatePeak(t: Trace, maxpos: nat, offset: real): real
    requires maxpos < |t|
  {
    var peak := t[maxpos].value as real - offset;
    if maxpos > 1 && maxpos + 2 < |t| then
      var x1, y1 := t[maxpos - 1].bucket as real, t[maxpos - 1].value as real - offset;
      var x2, y2 := t[maxpos].bucket as real, t[maxpos].value as real - offset;
      var x3, y3 := t[maxpos + 1].bucket as real, t[maxpos + 1].value as real - offset;
      GuardedPeak(x1, y1, x2, y2, x3, y3)
    else peak
  }

  function Peak(t: Trace, o: real): real
    requires |t| > 0
  {
    InterpolatePeak(t, PeakIndex(t, o, |t| - 1), o)
  }

  /** The sum of the interior heights. */
  function Integral(t: Trace): real
    requires |t| > 0
  {
    Sum(t, Offset(t), |t| - 1)
  }

  /** The mean bucket, weighted by the interior heights. */
  function Centroid(t: Trace): Quotient
    requires |t| > 0
  {
    Divide(Moment(t, Offset(t), |t| - 1), Integral(t))
  }

  /** What the hit builder reports for one trace. */
  function HitOf(cobo: nat, asad: nat, asadchan: nat, t: Trace): Hit
    requires |t| > 0
  {
    Hit(cobo, asad, asadchan / CHANNELS_PER_AGET, asadchan % CHANNELS_PER_AGET,
        Centroid(t), Peak(t, Offset(t)), Integral(t))
  }

  // ---------- the baseline and the sums ----------

  /** The baseline is the lower of the two samples next to the ends, of both samples when there
      are two, and the only sample when there is one. */
  lemma BaselineIsLower(t: Trace)
    requires |t| > 0
    ensures |t| == 1 ==> Offset(t) == t[0].value as real
    ensures |t| == 2 ==>
            && Offset(t) <= t[0].value as real && Offset(t) <= t[1].value as real
            && (Offset(t) == t[0].value as real || Offset(t) == t[1].value as real)
    ensures |t| >= 3 ==>
            && Offset(t) <= t[1].value as real && Offset(t) <= t[|t| - 2].value as real
            && (Offset(t) == t[1].value as real || Offset(t) == t[|t| - 2].value as real)
  {
  }

  /** Neither end of a trace is preferred. */
  lemma BaselineOfReversed(t: Trace, u: Trace)
    requires |t| > 0 && |u| == |t| && forall i :: 0 <= i < |t| ==> u[i] == t[|t| - 1 - i]
    ensures Offset(u) == Offset(t)
  {
    assert u[0] == t[|t| - 1] && u[|t| - 1] == t[0];
    if |t| >= 2 { assert u[1] == t[|t| - 2] && u[|t| - 2] == t[1]; }
  }

  /** One sample changed by v. */
  ghost predicate Raised(t: Trace, u: Trace, i: nat, v: int) {
    && i < |t| == |u| && u[i].bucket == t[i].bucket && u[i].value == t[i].value + v
    && forall j :: 0 <= j < |t| && j != i ==> u[j] == t[j]
  }

  lemma {:induction false} RaisedSums(t: Trace, u: Trace, o: real, i: nat, v: int, n: nat)
    requires Raised(t, u, i, v) && 1 <= i && n <= |t|
    ensures Sum(u, o, n) == Sum(t, o, n) + (if i < n then v as real else 0.0)
    ensures Moment(u, o, n) == Moment(t, o, n) + (if i < n then Bucket(t, i) * v as real else 0.0)
  {
    if n > 1 {
      RaisedSums(t, u, o, i, v, n - 1);
      RaisedWeight(t, u, o, i, v, n - 1);
    }
  }

  lemma RaisedWeight(t: Trace, u: Trace, o: real, i: nat, v: int, k: nat)
    requires Raised(t, u, i, v) && k < |t|
    ensures Height(u, o, k) == Height(t, o, k) + (if k == i then v as real else 0.0)
    ensures Weight(u, o, k) == Weight(t, o, k) + (if k == i then Bucket(t, i) * v as real else 0.0)
  {
    if k == i { Distribute(Bucket(t, i), Height(t, o, i), v as real); }
  }

  lemma Distribute(b: real, h: real, v: real)
    ensures b * (h + v) == b * h + b * v
  {
  }

  lemma QuotientTimes(m: real, s: real)
    ensures Divide(m, s).Finite? <==> s != 0.0
    ensures s != 0.0 ==> Divide(m, s).value * s == m
  {
  }

  /** An interior sample counts by its height in the integral, and by bucket times height in the time:
      changing it by v changes them by v and bucket * v, as long as the baseline stays. */
  lemma InteriorCounts(t: Trace, u: Trace, i: nat, v: int)
    requires Interior(t, i) && Raised(t, u, i, v) && Offset(u) == Offset(t)
    ensures Integral(u) == Integral(t) + v as real
    ensures Centroid(t).Finite? <==> Integral(t) != 0.0
    ensures Centroid(t).Finite? && Centroid(u).Finite? ==>
            Centroid(u).value * Integral(u) == Centroid(t).value * Integral(t) + Bucket(t, i) * v as real
  {
    RaisedSums(t, u, Offset(t), i, v, |t| - 1);
    QuotientTimes(Moment(t, Offset(t), |t| - 1), Integral(t));
    QuotientTimes(Moment(u, Offset(u), |u| - 1), Integral(u));
  }

  lemma {:induction false} SameSums(t: Trace, u: Trace, o: real, n: nat)
    requires n <= |t| && n <= |u| && forall i :: 1 <= i < n ==> u[i] == t[i]
    ensures Sum(u, o, n) == Sum(t, o, n) && Moment(u, o, n) == Moment(t, o, n)
  {
    if n > 1 { SameSums(t, u, o, n - 1); }
  }

  /** The first and the last sample do not count. */
  lemma EndsDoNotCount(t: Trace, u: Trace)
    requires |u| == |t| >= 3 && forall i: nat :: Interior(t, i) ==> u[i] == t[i]
    ensures Integral(u) == Integral(t) && Centroid(u) == Centroid(t)
  {
    assert Interior(t, 1) && Interior(t, |t| - 2);
    SameSums(t, u, Offset(t), |t| - 1);
  }

  lemma {:induction false} FlatSums(t: Trace, o: real, n: nat)
    requires n <= |t| && forall i: nat :: 1 <= i < n ==> t[i].value as real == o
    ensures Sum(t, o, n) == 0.0 && Moment(t, o, n) == 0.0
  {
    if n > 1 { FlatSums(t, o, n - 1); }
  }

  /** A trace whose interior samples are all equal, or that has none, has integral 0 and no time. */
  lemma FlatIsZero(t: Trace)
    requires |t| > 0 && forall i: nat, j: nat :: Interior(t, i) && Interior(t, j) ==> t[i].value == t[j].value
    ensures Integral(t) == 0.0 && Centroid(t) == NotANumber
  {
    if |t| >= 3 {
      assert Interior(t, 1) && Interior(t, |t| - 2);
      forall i: nat | 1 <= i < |t| - 1 ensures t[i].value as real == Offset(t) { assert Interior(t, i); }
    }
    FlatSums(t, Offset(t), |t| - 1);
  }

  lemma SumOfFive(t: Trace, o: real)
    requires |t| >= 4
    ensures Sum(t, o, 4) == Height(t, o, 1) + Height(t, o, 2) + Height(t, o, 3)
    ensures Moment(t, o, 4) == Weight(t, o, 1) + Weight(t, o, 2) + Weight(t, o, 3)
  {
    assert Sum(t, o, 1) == 0.0 && Moment(t, o, 1) == 0.0;
    assert Sum(t, o, 2) == Height(t, o, 1) && Moment(t, o, 2) == Weight(t, o, 1);
    assert Sum(t, o, 3) == Sum(t, o, 2) + Height(t, o, 2) && Moment(t, o, 3) == Moment(t, o, 2) + Weight(t, o, 2);
  }

  /** Traces whose interior heights cancel: the sign of the moment decides which infinity the time is. */
  lemma CancellingTimes()
    ensures var late := [Sample(0, 0), Sample(1, 6), Sample(2, 3), Sample(3, 9), Sample(4, 6), Sample(5, 0)];
            Integral(late) == 0.0 && Centroid(late) == PlusInfinity
    ensures var early := [Sample(0, 0), Sample(1, 6), Sample(2, 9), Sample(3, 3), Sample(4, 6), Sample(5, 0)];
            Integral(early) == 0.0 && Centroid(early) == MinusInfinity
  {
    var late := [Sample(0, 0), Sample(1, 6), Sample(2, 3), Sample(3, 9), Sample(4, 6), Sample(5, 0)];
    var early := [Sample(0, 0), Sample(1, 6), Sample(2, 9), Sample(3, 3), Sample(4, 6), Sample(5, 0)];
    SumOfFive(late, 6.0);
    SumOfFive(early, 6.0);
    assert Weight(late, 6.0, 2) == -6.0 && Weight(late, 6.0, 3) == 9.0 && Weight(late, 6.0, 4) == 0.0;
    assert Weight(early, 6.0, 2) == 6.0 && Weight(early, 6.0, 3) == -9.0 && Weight(early, 6.0, 4) == 0.0;
  }

  // ---------- the chosen maximum ----------

  /** Sample i is neither the first nor the last one. */
  predicate Interior(t: Trace, i: nat) {
    1 <= i < |t| - 1
  }

  ghost predicate SomePositive(t: Trace, o: real) {
    exists i: nat :: Interior(t, i) && Height(t, o, i) > 0.0
  }

  lemma {:induction false} PeakIndexIsFirstMaximum(t: Trace, o: real, n: nat)
    requires n <= |t|
    ensures var m := PeakIndex(t, o, n);
            && PeakHeight(t, o, n) == (if m == 0 then 0.0 else Height(t, o, m))
            && PeakHeight(t, o, n) >= 0.0
            && (m > 0 ==> PeakHeight(t, o, n) > 0.0)
            && (forall i: nat :: 1 <= i < m ==> Height(t, o, i) < PeakHeight(t, o, n))
            && (forall i: nat :: 1 <= i < n ==> Height(t, o, i) <= PeakHeight(t, o, n))
  {
    if n > 1 { PeakIndexIsFirstMaximum(t, o, n - 1); }
  }

  // ---------- interpolation ----------

  ghost predicate Increasing(t: Trace) {
    forall i, j :: 0 <= i < j < |t| ==> t[i].bucket < t[j].bucket
  }

  /** The hit builder interpolates around this trace's maximum. */
  predicate Interpolates(t: Trace, o: real)
    requires |t| > 0
  {
    1 < PeakIndex(t, o, |t| - 1) && PeakIndex(t, o, |t| - 1) + 2 < |t|
  }

  ghost predicate ThroughPeak(q: Parabola, t: Trace, o: real, m: nat)
    requires 1 <= m && m + 1 < |t|
  {
    Through(q, Bucket(t, m - 1), Height(t, o, m - 1), Bucket(t, m), Height(t, o, m),
            Bucket(t, m + 1), Height(t, o, m + 1))
  }

  function CurvatureAt(t: Trace, o: real, m: nat): real
    requires 1 <= m && m + 1 < |t|
  {
    Curvature(Bucket(t, m - 1), Height(t, o, m - 1), Bucket(t, m), Height(t, o, m),
              Bucket(t, m + 1), Height(t, o, m + 1))
  }

  function VertexAt(t: Trace, o: real, m: nat): real
    requires 1 <= m && m + 1 < |t|
    requires CurvatureAt(t, o, m) != 0.0
  {
    Vertex(Bucket(t, m - 1), Height(t, o, m - 1), Bucket(t, m), Height(t, o, m), Bucket(t, m + 1), Height(t, o, m + 1))
  }

  /** What the chosen maximum knows about its neighbours. */
  lemma Neighbours(t: Trace, o: real)
    requires |t| > 0 && Increasing(t) && Interpolates(t, o)
    ensures var m := PeakIndex(t, o, |t| - 1);
            && Bucket(t, m - 1) < Bucket(t, m) < Bucket(t, m + 1)
            && Height(t, o, m - 1) < Height(t, o, m)
            && Height(t, o, m + 1) <= Height(t, o, m)
  {
    PeakIndexIsFirstMaximum(t, o, |t| - 1);
  }

  /** The branches `InterpolatePeak` takes once its guards are known to pass. */
  lemma InterpolatePeakBranch(t: Trace, o: real, m: nat)
    requires 1 < m && m + 2 < |t|
    requires Bucket(t, m - 1) < Bucket(t, m) < Bucket(t, m + 1)
    requires CurvatureAt(t, o, m) != 0.0
    ensures InterpolatePeak(t, m, o)
         == InterpolatedPeak(Bucket(t, m - 1), Height(t, o, m - 1), Bucket(t, m), Height(t, o, m),
                             Bucket(t, m + 1), Height(t, o, m + 1))
  {
    GuardPasses(Bucket(t, m - 1), Bucket(t, m), Bucket(t, m + 1));
  }

  /** Neither guard of the interpolation can fail, and the peak it returns is the maximum of
      the one parabola through the three samples, taken within half a bucket gap of the
      middle one. */
  lemma InterpolationFindsVertex(t: Trace, o: real)
    requires |t| > 0 && Increasing(t) && Interpolates(t, o)
    ensures var m := PeakIndex(t, o, |t| - 1);
            && CurvatureAt(t, o, m) < 0.0
            && Spread(Bucket(t, m - 1), Bucket(t, m), Bucket(t, m + 1))
            && Bucket(t, m) - (Bucket(t, m) - Bucket(t, m - 1)) / 2.0 < VertexAt(t, o, m)
            && VertexAt(t, o, m) <= Bucket(t, m) + (Bucket(t, m + 1) - Bucket(t, m)) / 2.0
            && (exists q :: ThroughPeak(q, t, o, m))
            && (forall q :: ThroughPeak(q, t, o, m) ==> IsMaximum(q, VertexAt(t, o, m), Peak(t, o)))
            && (forall q, r :: ThroughPeak(q, t, o, m) && ThroughPeak(r, t, o, m) ==> q == r)
  {
    var m := PeakIndex(t, o, |t| - 1);
    Neighbours(t, o);
    var x1, y1 := Bucket(t, m - 1), Height(t, o, m - 1);
    var x2, y2 := Bucket(t, m), Height(t, o, m);
    var x3, y3 := Bucket(t, m + 1), Height(t, o, m + 1);
    VertexIsMaximum(x1, y1, x2, y2, x3, y3);
    GuardPasses(x1, x2, x3);
    InterpolatePeakBranch(t, o, m);
    var q := ParabolaExists(x1, y1, x2, y2, x3, y3);
    assert ThroughPeak(q, t, o, m);
    forall q, r | ThroughPeak(q, t, o, m) && ThroughPeak(r, t, o, m) ensures q == r {
      ParabolaUnique(q, r, x1, y1, x2, y2, x3, y3);
    }
  }

  // ---------- how the peak compares with the samples ----------

  // The gaps from sample m to its neighbours and the drops to them, and the coefficients of the
  // curve through the three: bend, lean and span.

  function LeftGap(t: Trace, m: nat): real
    requires 1 <= m < |t|
  {
    Bucket(t, m) - Bucket(t, m - 1)
  }

  function RightGap(t: Trace, m: nat): real
    requires m + 1 < |t|
  {
    Bucket(t, m + 1) - Bucket(t, m)
  }

  function LeftDrop(t: Trace, m: nat): real
    requires 1 <= m < |t|
  {
    (t[m].value - t[m - 1].value) as real
  }

  function RightDrop(t: Trace, m: nat): real
    requires m + 1 < |t|
  {
    (t[m].value - t[m + 1].value) as real
  }

  function Bend(t: Trace, m: nat): real
    requires 1 <= m && m + 1 < |t|
  {
    LeftDrop(t, m) * RightGap(t, m) + RightDrop(t, m) * LeftGap(t, m)
  }

  function Lean(t: Trace, m: nat): real
    requires 1 <= m && m + 1 < |t|
  {
    LeftDrop(t, m) * RightGap(t, m) * RightGap(t, m) - RightDrop(t, m) * LeftGap(t, m) * LeftGap(t, m)
  }

  function Span(t: Trace, m: nat): real
    requires 1 <= m && m + 1 < |t|
  {
    LeftGap(t, m) * RightGap(t, m) * (LeftGap(t, m) + RightGap(t, m))
  }

  lemma CurveCoefficients(t: Trace, m: nat)
    requires 1 <= m && m + 1 < |t|
    ensures Coefficients(LeftGap(t, m), RightGap(t, m), LeftDrop(t, m), RightDrop(t, m),
                         Bend(t, m), Lean(t, m), Span(t, m))
  {
  }

  lemma GapsAround(t: Trace, o: real, m: nat)
    requires 1 <= m && m + 1 < |t|
    ensures Gaps(Bucket(t, m - 1), Height(t, o, m - 1), Bucket(t, m), Height(t, o, m),
                 Bucket(t, m + 1), Height(t, o, m + 1),
                 LeftGap(t, m), RightGap(t, m), LeftDrop(t, m), RightDrop(t, m))
  {
  }

  /** In whatever order the buckets are: where the hit builder interpolates, the peak is the highest
      sample if two of the three buckets are equal or the three samples lie on a line, and otherwise
      lean^2 / (4 bend span) above it. */
  lemma PeakRise(t: Trace, o: real)
    requires |t| > 0 && Interpolates(t, o)
    ensures var m := PeakIndex(t, o, |t| - 1);
            Rises(Bend(t, m), Lean(t, m), Span(t, m), Peak(t, o) - Height(t, o, m))
  {
    var m := PeakIndex(t, o, |t| - 1);
    PeakBranches(t, o);
    GapsAround(t, o, m);
    CurveCoefficients(t, m);
    GuardedRise(Bucket(t, m - 1), Height(t, o, m - 1), Bucket(t, m), Height(t, o, m),
                Bucket(t, m + 1), Height(t, o, m + 1),
                LeftGap(t, m), RightGap(t, m), LeftDrop(t, m), RightDrop(t, m), Bend(t, m), Lean(t, m), Span(t, m));
  }

  /** The interpolation around sample m does not lead below it: it opens downwards, has its vertex
      at the sample or is not done. */
  predicate NotBelow(t: Trace, m: nat)
    requires 1 <= m && m + 1 < |t|
  {
    Bend(t, m) == 0.0 || Span(t, m) == 0.0 || Lean(t, m) == 0.0 || Bend(t, m) * Span(t, m) > 0.0
  }

  /** In whatever order the buckets are: exactly when the reported peak is at least every interior height. */
  lemma PeakCoversExactly(t: Trace, o: real)
    requires |t| > 0
    ensures var m := PeakIndex(t, o, |t| - 1);
            (forall i: nat :: Interior(t, i) ==> Height(t, o, i) <= Peak(t, o))
            <==> if SomePositive(t, o)
                 then !Interpolates(t, o) || NotBelow(t, m)
                 else forall i: nat :: Interior(t, i) ==> Height(t, o, i) <= Height(t, o, 0)
  {
    var m := PeakIndex(t, o, |t| - 1);
    PeakIndexIsFirstMaximum(t, o, |t| - 1);
    if m > 0 {
      assert Interior(t, m) && Height(t, o, m) > 0.0;
      if Interpolates(t, o) {
        PeakRise(t, o);
        RiseSign(Bend(t, m), Lean(t, m), Span(t, m), Peak(t, o) - Height(t, o, m));
      }
    }
  }

  /** Buckets that go back: the curve around the highest sample opens upwards, and the reported peak
      is below the baseline. */
  lemma PeakMayMissMaximum()
    ensures var t := [Sample(0, 0), Sample(1, 0), Sample(11, 10), Sample(6, 0), Sample(12, 0), Sample(13, 0)];
            && Offset(t) == 0.0 && PeakIndex(t, 0.0, 5) == 2 && Interpolates(t, 0.0)
            && Height(t, 0.0, 2) == 10.0 && Peak(t, 0.0) == -1.25
  {
    var t := [Sample(0, 0), Sample(1, 0), Sample(11, 10), Sample(6, 0), Sample(12, 0), Sample(13, 0)];
    assert Height(t, 0.0, 1) == 0.0 && Height(t, 0.0, 3) == 0.0 && Height(t, 0.0, 4) == 0.0;
    assert PeakIndex(t, 0.0, 1) == 0 && PeakIndex(t, 0.0, 2) == 0 && PeakIndex(t, 0.0, 3) == 2;
    assert PeakIndex(t, 0.0, 4) == 2 && PeakIndex(t, 0.0, 5) == 2;
    PeakRise(t, 0.0);
    assert LeftGap(t, 2) == 10.0 && RightGap(t, 2) == -5.0 && LeftDrop(t, 2) == 10.0 && RightDrop(t, 2) == 10.0;
    assert Bend(t, 2) == 50.0 && Lean(t, 2) == -750.0 && Span(t, 2) == -250.0;
  }

  /** The reported peak is at least every interior height exactly when some interior height is
      positive, or the first sample, which is reported otherwise, is itself as high. */
  lemma PeakCoversHeights(t: Trace, o: real)
    requires |t| > 0 && Increasing(t)
    ensures (forall i: nat :: Interior(t, i) ==> Height(t, o, i) <= Peak(t, o))
            <==> (SomePositive(t, o) || forall i: nat :: Interior(t, i) ==> Height(t, o, i) <= Height(t, o, 0))
    ensures SomePositive(t, o) <==> PeakIndex(t, o, |t| - 1) > 0
  {
    var m := PeakIndex(t, o, |t| - 1);
    PeakIndexIsFirstMaximum(t, o, |t| - 1);
    if m > 0 {
      assert Interior(t, m) && Height(t, o, m) > 0.0;
      if Interpolates(t, o) {
        Neighbours(t, o);
        PeakAboveMiddle(Bucket(t, m - 1), Height(t, o, m - 1), Bucket(t, m), Height(t, o, m),
                        Bucket(t, m + 1), Height(t, o, m + 1));
        InterpolatePeakBranch(t, o, m);
      }
      assert Peak(t, o) >= Height(t, o, m);
    } else {
      assert Peak(t, o) == Height(t, o, 0);
    }
  }

  /** With the baseline the hit builder uses, a caller can tell from two samples. */
  lemma PeakCoversFromSamples(t: Trace)
    requires |t| >= 3 && Increasing(t)
    ensures (forall i: nat :: Interior(t, i) ==> Height(t, Offset(t), i) <= Peak(t, Offset(t)))
       <==> SomePositive(t, Offset(t)) || t[0].value >= t[1].value
  {
    PeakCoversHeights(t, Offset(t));
    assert Interior(t, 1) && Interior(t, |t| - 2);
  }

  /** A flat trace after a low first sample: the reported peak is below every interior height. */
  lemma PeakMayMissHeights()
    ensures var t := [Sample(0, 0), Sample(1, 5), Sample(2, 5), Sample(3, 5)];
            && Increasing(t)
            && Peak(t, Offset(t)) == -5.0
            && Interior(t, 1) && Height(t, Offset(t), 1) == 0.0
  {
  }

  ghost predicate UnitSpaced(t: Trace) {
    forall i :: 0 <= i < |t| ==> t[i].bucket == t[0].bucket + i
  }

  /** The larger of the two drops from the chosen maximum to its neighbours. */
  function LargerDrop(t: Trace, o: real, m: nat): real
    requires 1 <= m && m + 1 < |t|
  {
    var a, b := Height(t, o, m) - Height(t, o, m - 1), Height(t, o, m) - Height(t, o, m + 1);
    if a <= b then b else a
  }

  /** What the chosen maximum knows about its gaps and drops. */
  lemma GapsAndDrops(t: Trace, o: real)
    requires |t| > 0 && Increasing(t) && Interpolates(t, o)
    ensures var m := PeakIndex(t, o, |t| - 1);
            LeftGap(t, m) > 0.0 && RightGap(t, m) > 0.0 && LeftDrop(t, m) > 0.0 && RightDrop(t, m) >= 0.0
  {
    Neighbours(t, o);
  }

  /** For increasing buckets: the exact rise over the highest sample, and its bound by one of the drops. */
  lemma InterpolatedOvershoot(t: Trace, o: real)
    requires |t| > 0 && Increasing(t) && Interpolates(t, o)
    ensures var m := PeakIndex(t, o, |t| - 1);
            var rise := Peak(t, o) - Height(t, o, m);
            && Bend(t, m) > 0.0 && Span(t, m) > 0.0 && Rises(Bend(t, m), Lean(t, m), Span(t, m), rise)
            && BoundedRise(LeftGap(t, m), RightGap(t, m), LeftDrop(t, m), RightDrop(t, m), rise)
  {
    var m := PeakIndex(t, o, |t| - 1);
    GapsAndDrops(t, o);
    PeakRise(t, o);
    CurveCoefficients(t, m);
    RiseBounded(LeftGap(t, m), RightGap(t, m), LeftDrop(t, m), RightDrop(t, m), Bend(t, m), Lean(t, m), Span(t, m),
                Peak(t, o) - Height(t, o, m));
  }

  lemma UnitOvershoot(t: Trace, o: real, m: nat)
    requires |t| > 0 && UnitSpaced(t) && Interpolates(t, o) && m == PeakIndex(t, o, |t| - 1)
    ensures Peak(t, o) <= Height(t, o, m) + LargerDrop(t, o, m) / 8.0
  {
    InterpolatedOvershoot(t, o);
    assert LeftGap(t, m) == 1.0 && RightGap(t, m) == 1.0;
    UnitBound(LeftDrop(t, m), RightDrop(t, m), Peak(t, o) - Height(t, o, m));
  }

  lemma UnitBound(a: real, b: real, rise: real)
    requires BoundedRise(1.0, 1.0, a, b, rise)
    ensures rise <= (if a <= b then b else a) / 8.0
  {
  }

  /** On unit-spaced samples the peak exceeds the highest one by at most an eighth of the
      larger neighbour drop, which for 12-bit samples is less than 512 counts. */
  lemma OvershootBounded(t: Trace, o: real)
    requires |t| > 0 && UnitSpaced(t) && SomePositive(t, o)
    ensures var m := PeakIndex(t, o, |t| - 1);
            && 1 <= m < |t| - 1
            && (forall i: nat :: Interior(t, i) ==> Height(t, o, i) <= Height(t, o, m))
            && Height(t, o, m) <= Peak(t, o)
            && (Interpolates(t, o) ==> Peak(t, o) <= Height(t, o, m) + LargerDrop(t, o, m) / 8.0)
            && (!Interpolates(t, o) ==> Peak(t, o) == Height(t, o, m))
            && ((forall i :: 0 <= i < |t| ==> t[i].value < 4096) ==> Peak(t, o) < Height(t, o, m) + 512.0)
  {
    var m := PeakIndex(t, o, |t| - 1);
    PeakCoversHeights(t, o);
    PeakIndexIsFirstMaximum(t, o, |t| - 1);
    if Interpolates(t, o) { UnitOvershoot(t, o, m); }
    if forall i :: 0 <= i < |t| ==> t[i].value < 4096 {
      DropBelow4096(t, o, m);
    }
  }

  /** For 12-bit samples the peak is within 512 counts of the highest interior sample exactly when
      some interior sample is above the baseline or the first sample is not a spike of 512. */
  lemma OvershootExactly(t: Trace)
    requires |t| >= 3 && UnitSpaced(t) && forall i :: 0 <= i < |t| ==> t[i].value < 4096
    ensures (exists i: nat :: Interior(t, i) && Peak(t, Offset(t)) < Height(t, Offset(t), i) + 512.0)
       <==> SomePositive(t, Offset(t)) || t[0].value < t[1].value + 512
  {
    var o := Offset(t);
    assert Interior(t, 1) && Interior(t, |t| - 2);
    if SomePositive(t, o) {
      OvershootBounded(t, o);
      assert Interior(t, PeakIndex(t, o, |t| - 1));
    } else {
      PeakCoversHeights(t, o);
      assert Height(t, o, 1) == 0.0 && Peak(t, o) == Height(t, o, 0);
    }
  }

  /** A spike in the first sample over a flat trace is reported as the peak. */
  lemma SpikeOvershoots()
    ensures var t := [Sample(0, 4095), Sample(1, 5), Sample(2, 5), Sample(3, 5)];
            && UnitSpaced(t) && Peak(t, Offset(t)) == 4090.0
            && forall i: nat :: Interior(t, i) ==> Height(t, Offset(t), i) == 0.0
  {
    var t := [Sample(0, 4095), Sample(1, 5), Sample(2, 5), Sample(3, 5)];
    assert Offset(t) == 5.0 && Height(t, 5.0, 1) == 0.0 && Height(t, 5.0, 2) == 0.0;
    PeakCoversHeights(t, 5.0);
  }

  lemma DropBelow4096(t: Trace, o: real, m: nat)
    requires 1 <= m && m + 1 < |t|
    requires forall i :: 0 <= i < |t| ==> t[i].value < 4096
    ensures LargerDrop(t, o, m) < 4096.0
  {
  }

  // ---------- the centroid ----------

  lemma {:induction false} SumBounds(t: Trace, o: real, n: nat)
    requires n <= |t|
    requires forall i: nat :: 1 <= i < n ==> Height(t, o, i) >= 0.0
    ensures Sum(t, o, n) >= 0.0
    ensures forall i: nat :: 1 <= i < n ==> Height(t, o, i) <= Sum(t, o, n)
  {
    if n > 1 { SumBounds(t, o, n - 1); }
  }

  lemma {:induction false} MomentAbove(t: Trace, o: real, n: nat, lo: real)
    requires n <= |t|
    requires forall i: nat :: 1 <= i < n ==> Height(t, o, i) >= 0.0 && lo <= Bucket(t, i)
    ensures lo * Sum(t, o, n) <= Moment(t, o, n)
  {
    if n > 1 {
      var i := n - 1;
      MomentAbove(t, o, i, lo);
      AddWeight(lo, Bucket(t, i), Height(t, o, i), Sum(t, o, i), Moment(t, o, i), Sum(t, o, n), Moment(t, o, n));
    }
  }

  lemma {:induction false} MomentBelow(t: Trace, o: real, n: nat, hi: real)
    requires n <= |t|
    requires forall i: nat :: 1 <= i < n ==> Height(t, o, i) >= 0.0 && Bucket(t, i) <= hi
    ensures Moment(t, o, n) <= hi * Sum(t, o, n)
  {
    if n > 1 {
      var i := n - 1;
      MomentBelow(t, o, i, hi);
      AddWeightBelow(hi, Bucket(t, i), Height(t, o, i), Sum(t, o, i), Moment(t, o, i), Sum(t, o, n), Moment(t, o, n));
    }
  }

  lemma AddWeight(lo: real, b: real, h: real, s: real, m: real, s1: real, m1: real)
    requires lo <= b && h >= 0.0 && lo * s <= m && s1 == s + h && m1 == m + b * h
    ensures lo * s1 <= m1
  {
  }

  lemma AddWeightBelow(hi: real, b: real, h: real, s: real, m: real, s1: real, m1: real)
    requires b <= hi && h >= 0.0 && m <= hi * s && s1 == s + h && m1 == m + b * h
    ensures m1 <= hi * s1
  {
  }

  lemma MeanBetween(t: Trace, o: real, n: nat, k: nat, lo: real, hi: real)
    requires n <= |t| && 1 <= k < n && Height(t, o, k) > 0.0
    requires forall i: nat :: 1 <= i < n ==> Height(t, o, i) >= 0.0 && lo <= Bucket(t, i) <= hi
    ensures Sum(t, o, n) > 0.0 && lo * Sum(t, o, n) <= Moment(t, o, n) <= hi * Sum(t, o, n)
  {
    SumBounds(t, o, n);
    MomentAbove(t, o, n, lo);
    MomentBelow(t, o, n, hi);
  }

  lemma DivideBetween(lo: real, hi: real, m: real, s: real)
    requires s > 0.0 && lo * s <= m <= hi * s
    ensures Divide(m, s).Finite? && lo <= Divide(m, s).value <= hi
  {
  }

  lemma QuotientOfSums(t: Trace, o: real, n: nat, lo: real, hi: real)
    requires 0 < |t| && n == |t| - 1 && SomePositive(t, o)
    requires forall i: nat :: Interior(t, i) ==> Height(t, o, i) >= 0.0 && lo <= Bucket(t, i) <= hi
    ensures var q := Divide(Moment(t, o, n), Sum(t, o, n));
            Sum(t, o, n) > 0.0 && q.Finite? && lo <= q.value <= hi
  {
    var k: nat :| Interior(t, k) && Height(t, o, k) > 0.0;
    forall i: nat | 1 <= i < n ensures Height(t, o, i) >= 0.0 && lo <= Bucket(t, i) <= hi { assert Interior(t, i); }
    MeanBetween(t, o, n, k, lo, hi);
    DivideBetween(lo, hi, Moment(t, o, n), Sum(t, o, n));
  }

  /** The centroid is a weighted mean: it lies among the interior buckets. */
  lemma CentroidIsWeightedMean(cobo: nat, asad: nat, asadchan: nat, t: Trace, lo: real, hi: real)
    requires |t| > 0 && SomePositive(t, Offset(t))
    requires forall i: nat :: Interior(t, i) ==> Height(t, Offset(t), i) >= 0.0 && lo <= Bucket(t, i) <= hi
    ensures var h := HitOf(cobo, asad, asadchan, t);
            h.integral > 0.0 && h.time.Finite? && lo <= h.time.value <= hi
  {
    QuotientOfSums(t, Offset(t), |t| - 1, lo, hi);
  }

  const SMALL_PULSE: Trace := [Sample(0, 0), Sample(1, 10), Sample(2, 50), Sample(3, 5), Sample(4, 0)]

  lemma SmallPulseSums()
    ensures Offset(SMALL_PULSE) == 5.0 && Integral(SMALL_PULSE) == 50.0 && Centroid(SMALL_PULSE) == Finite(1.9)
  {
    var t := SMALL_PULSE;
    SumOfFive(t, 5.0);
    assert Height(t, 5.0, 1) == 5.0 && Height(t, 5.0, 2) == 45.0 && Height(t, 5.0, 3) == 0.0;
    assert Weight(t, 5.0, 1) == 5.0 && Weight(t, 5.0, 2) == 90.0 && Weight(t, 5.0, 3) == 0.0;
  }

  lemma SmallPulseIndex()
    ensures PeakIndex(SMALL_PULSE, 5.0, 4) == 2
  {
    var t := SMALL_PULSE;
    assert Height(t, 5.0, 1) == 5.0 && Height(t, 5.0, 2) == 45.0 && Height(t, 5.0, 3) == 0.0;
    assert PeakHeight(t, 5.0, 1) == 0.0 && PeakHeight(t, 5.0, 2) == 5.0 && PeakHeight(t, 5.0, 3) == 45.0;
  }

  lemma SmallPulsePeak()
    ensures Peak(SMALL_PULSE, 5.0) == 45.0 + 5.0 / 136.0
  {
    var t := SMALL_PULSE;
    SmallPulseIndex();
    PeakRise(t, 5.0);
    assert LeftGap(t, 2) == 1.0 && RightGap(t, 2) == 1.0 && LeftDrop(t, 2) == 40.0 && RightDrop(t, 2) == 45.0;
    assert Bend(t, 2) == 85.0 && Lean(t, 2) == -5.0 && Span(t, 2) == 2.0;
  }

  /** All numbers of one small pulse. */
  lemma SmallPulseHit(cobo: nat, asad: nat)
    ensures HitOf(cobo, asad, 70, SMALL_PULSE) == Hit(cobo, asad, 1, 2, Finite(1.9), 45.0 + 5.0 / 136.0, 50.0)
  {
    SmallPulseSums();
    SmallPulsePeak();
  }

  // ---------- affine changes of the data ----------

  /** Samples scaled by k and raised by c, buckets shifted by d. */
  ghost predicate AffineImage(t: Trace, u: Trace, k: real, c: real, d: real) {
    && |u| == |t|
    && forall i: nat :: i < |t| ==>
         u[i].value as real == k * t[i].value as real + c && u[i].bucket as real == t[i].bucket as real + d
  }

  // The proofs below name the scaling as a function g and use its laws one at a time, at the
  // arguments they need.

  ghost predicate ScalesAt(g: real -> real, k: real, x: real) {
    g(x) == k * x
  }

  ghost predicate Scaling(g: real -> real, k: real) {
    k > 0.0 && forall x {:trigger ScalesAt(g, k, x)} :: ScalesAt(g, k, x)
  }

  ghost predicate ImageAt(t: Trace, u: Trace, g: real -> real, c: real, d: real, i: nat)
    requires i < |t| && i < |u|
  {
    && u[i].value as real == g(t[i].value as real) + c
    && u[i].bucket as real == t[i].bucket as real + d
  }

  ghost predicate Image(t: Trace, u: Trace, g: real -> real, c: real, d: real) {
    |u| == |t| && forall i: nat {:trigger ImageAt(t, u, g, c, d, i)} :: i < |t| ==> ImageAt(t, u, g, c, d, i)
  }

  lemma DifferenceScaled(g: real -> real, k: real, a: real, b: real)
    requires Scaling(g, k)
    ensures g(a) - g(b) == g(a - b)
  {
    assert ScalesAt(g, k, a) && ScalesAt(g, k, b) && ScalesAt(g, k, a - b);
  }

  lemma SumScaled(g: real -> real, k: real, a: real, b: real)
    requires Scaling(g, k)
    ensures g(a) + g(b) == g(a + b)
  {
    assert ScalesAt(g, k, a) && ScalesAt(g, k, b) && ScalesAt(g, k, a + b);
  }

  lemma ZeroScaled(g: real -> real, k: real)
    requires Scaling(g, k)
    ensures g(0.0) == 0.0
  {
    assert ScalesAt(g, k, 0.0);
  }

  lemma OrderScaled(g: real -> real, k: real, a: real, b: real)
    requires Scaling(g, k)
    ensures (g(a) > g(b)) == (a > b)
  {
    assert ScalesAt(g, k, a) && ScalesAt(g, k, b);
    if a > b { Product(a - b, k); } else { NonNegative(b - a, k); }
  }

  lemma WeightScaled(g: real -> real, k: real, b: real, h: real, d: real, s: real)
    requires Scaling(g, k)
    ensures (b + d) * g(h) == g(b * h + d * h)
    ensures d * s + d * h == d * (s + h)
  {
    assert ScalesAt(g, k, h) && ScalesAt(g, k, b * h + d * h);
  }

  lemma ImageOffset(t: Trace, u: Trace, g: real -> real, k: real, c: real, d: real)
    requires |t| > 0 && Scaling(g, k) && Image(t, u, g, c, d)
    ensures Offset(u) == g(Offset(t)) + c
  {
    assert ImageAt(t, u, g, c, d, 0);
    if |t| == 2 {
      assert ImageAt(t, u, g, c, d, 1);
      OrderScaled(g, k, t[0].value as real, t[1].value as real);
    } else if |t| > 2 {
      assert ImageAt(t, u, g, c, d, 1) && ImageAt(t, u, g, c, d, |t| - 2);
      OrderScaled(g, k, t[1].value as real, t[|t| - 2].value as real);
    }
  }

  lemma ImageHeight(t: Trace, o: real, u: Trace, o': real, g: real -> real, k: real, c: real, d: real, i: nat)
    requires Scaling(g, k) && Image(t, u, g, c, d) && o' == g(o) + c && i < |t|
    ensures Height(u, o', i) == g(Height(t, o, i))
    ensures Bucket(u, i) == Bucket(t, i) + d
  {
    assert ImageAt(t, u, g, c, d, i);
    DifferenceScaled(g, k, t[i].value as real, o);
  }

  /** The moment with every bucket shifted by d. */
  function ShiftedMoment(t: Trace, o: real, n: nat, d: real): real
    requires n <= |t|
  {
    Moment(t, o, n) + d * Sum(t, o, n)
  }

  lemma {:induction false} ImageSums(t: Trace, o: real, u: Trace, o': real, g: real -> real, k: real, c: real, d: real,
                                     n: nat)
    requires Scaling(g, k) && Image(t, u, g, c, d) && o' == g(o) + c && n <= |t|
    ensures Sum(u, o', n) == g(Sum(t, o, n))
    ensures Moment(u, o', n) == g(ShiftedMoment(t, o, n, d))
  {
    ZeroScaled(g, k);
    if n > 1 {
      var i := n - 1;
      ImageSums(t, o, u, o', g, k, c, d, i);
      ImageHeight(t, o, u, o', g, k, c, d, i);
      SumScaled(g, k, Sum(t, o, i), Height(t, o, i));
      ImageMoment(g, k, Moment(t, o, i), Sum(t, o, i), Bucket(t, i), Height(t, o, i), d, Moment(t, o, n), Sum(t, o, n),
                  ShiftedMoment(t, o, i, d), ShiftedMoment(t, o, n, d), Moment(u, o', i), Bucket(u, i),
                  Height(u, o', i), Moment(u, o', n));
    }
  }

  lemma ImageMoment(g: real -> real, k: real, m: real, s: real, b: real, h: real, d: real, m1: real, s1: real,
                    w: real, w1: real, m': real, b': real, h': real, m1': real)
    requires Scaling(g, k) && w == m + d * s && w1 == m1 + d * s1 && m' == g(w) && b' == b + d && h' == g(h)
    requires m1 == m + b * h && s1 == s + h && m1' == m' + b' * h'
    ensures m1' == g(w1)
  {
    WeightScaled(g, k, b, h, d, s);
    SumScaled(g, k, w, b * h + d * h);
    assert w + (b * h + d * h) == w1;
  }

  lemma {:induction false} ImagePeakIndex(t: Trace, o: real, u: Trace, o': real, g: real -> real, k: real, c: real,
                                          d: real, n: nat)
    requires Scaling(g, k) && Image(t, u, g, c, d) && o' == g(o) + c && n <= |t|
    ensures PeakIndex(u, o', n) == PeakIndex(t, o, n)
    ensures PeakHeight(u, o', n) == g(PeakHeight(t, o, n))
  {
    ZeroScaled(g, k);
    if n > 1 {
      var i := n - 1;
      ImagePeakIndex(t, o, u, o', g, k, c, d, i);
      ImageHeight(t, o, u, o', g, k, c, d, i);
      OrderScaled(g, k, Height(t, o, i), PeakHeight(t, o, i));
    }
  }

  /** The peak is interpolated exactly when the maximum is neither among the first two nor among the
      last two samples. */
  lemma PeakBranches(t: Trace, o: real)
    requires |t| > 0
    ensures var m := PeakIndex(t, o, |t| - 1);
            && (Interpolates(t, o) <==> 2 <= m <= |t| - 3)
            && Peak(t, o) == if 2 <= m <= |t| - 3
                             then GuardedPeak(Bucket(t, m - 1), Height(t, o, m - 1), Bucket(t, m), Height(t, o, m),
                                              Bucket(t, m + 1), Height(t, o, m + 1))
                             else Height(t, o, m)
  {
  }

  lemma ImagePeak(t: Trace, o: real, u: Trace, o': real, g: real -> real, k: real, c: real, d: real)
    requires |t| > 0 && Scaling(g, k) && Image(t, u, g, c, d) && o' == g(o) + c
    ensures Peak(u, o') == g(Peak(t, o))
  {
    var m := PeakIndex(t, o, |t| - 1);
    PeakBranches(t, o);
    PeakBranches(u, o');
    ImagePeakIndex(t, o, u, o', g, k, c, d, |t| - 1);
    ImageHeight(t, o, u, o', g, k, c, d, m);
    if Interpolates(t, o) {
      ImageHeight(t, o, u, o', g, k, c, d, m - 1);
      ImageHeight(t, o, u, o', g, k, c, d, m + 1);
      ImageGuardedPeak(Bucket(t, m - 1), Height(t, o, m - 1), Bucket(t, m), Height(t, o, m),
                       Bucket(t, m + 1), Height(t, o, m + 1),
                       Bucket(u, m - 1), Height(u, o', m - 1), Bucket(u, m), Height(u, o', m),
                       Bucket(u, m + 1), Height(u, o', m + 1), g, k, d);
    }
  }

  lemma ImageGuardedPeak(x1: real, y1: real, x2: real, y2: real, x3: real, y3: real,
                         x1': real, y1': real, x2': real, y2': real, x3': real, y3': real,
                         g: real -> real, k: real, d: real)
    requires Scaling(g, k) && x1' == x1 + d && x2' == x2 + d && x3' == x3 + d
    requires y1' == g(y1) && y2' == g(y2) && y3' == g(y3)
    ensures GuardedPeak(x1', y1', x2', y2', x3', y3') == g(GuardedPeak(x1, y1, x2, y2, x3, y3))
  {
    assert ScalesAt(g, k, y1) && ScalesAt(g, k, y2) && ScalesAt(g, k, y3);
    AffineGuardedPeak(x1, y1, x2, y2, x3, y3, x1', y1', x2', y2', x3', y3', k, d);
    assert ScalesAt(g, k, GuardedPeak(x1, y1, x2, y2, x3, y3));
  }

  lemma ImageHit(cobo: nat, asad: nat, asadchan: nat, t: Trace, u: Trace, g: real -> real, k: real, c: real, d: real)
    requires |t| > 0 && Scaling(g, k) && Image(t, u, g, c, d)
    ensures var h := HitOf(cobo, asad, asadchan, t);
            HitOf(cobo, asad, asadchan, u)
              == h.(time := h.time.Shift(d), peak := g(h.peak), integral := g(h.integral))
  {
    var n := |t| - 1;
    ImageOffset(t, u, g, k, c, d);
    ImageSums(t, Offset(t), u, Offset(u), g, k, c, d, n);
    ImagePeak(t, Offset(t), u, Offset(u), g, k, c, d);
    ImageQuotient(Moment(t, Offset(t), n), Sum(t, Offset(t), n), ShiftedMoment(t, Offset(t), n, d), g, k, d);
  }

  lemma ImageQuotient(m: real, s: real, w: real, g: real -> real, k: real, d: real)
    requires Scaling(g, k) && w == m + d * s
    ensures Divide(g(w), g(s)) == Divide(m, s).Shift(d)
  {
    assert ScalesAt(g, k, w) && ScalesAt(g, k, s);
    ScaledQuotient(m, s, g(w), g(s), k, d);
  }

  lemma ScaledQuotient(m: real, s: real, m': real, s': real, k: real, d: real)
    requires k > 0.0 && m' == k * (m + d * s) && s' == k * s
    ensures Divide(m', s') == Divide(m, s).Shift(d)
  {
  }

  /** The whole hit under an affine change: identity fields stay, integral and peak scale with
      the samples, and the time moves with the buckets.  The time of a trace whose integral is
      zero is not a number or infinite, and stays so. */
  lemma HitAffine(cobo: nat, asad: nat, asadchan: nat, t: Trace, u: Trace, k: real, c: real, d: real)
    requires |t| > 0 && k > 0.0 && AffineImage(t, u, k, c, d)
    ensures HitOf(cobo, asad, asadchan, u) == HitOf(cobo, asad, asadchan, t).Affine(k, d)
  {
    ImageOfScale(t, u, k, c, d);
    ImageHit(cobo, asad, asadchan, t, u, Scale(k), k, c, d);
    ScaledHit(HitOf(cobo, asad, asadchan, t), HitOf(cobo, asad, asadchan, u), k, d);
  }

  lemma ScaledHit(h: Hit, h': Hit, k: real, d: real)
    requires h' == h.(time := h.time.Shift(d), peak := Scale(k)(h.peak), integral := Scale(k)(h.integral))
    ensures h' == h.Affine(k, d)
  {
  }

  ghost function Scale(k: real): real -> real {
    x => k * x
  }

  lemma ImageOfScale(t: Trace, u: Trace, k: real, c: real, d: real)
    requires k > 0.0 && AffineImage(t, u, k, c, d)
    ensures Scaling(Scale(k), k) && Image(t, u, Scale(k), c, d)
  {
  }
}
