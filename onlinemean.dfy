/** The running mean of colour samples (math/onlinemean.rs) that decides when
    a pixel has converged. The samples seen so far are kept as ghost state so
    that the mean can be stated as their arithmetic mean. */
module OnlineMeans {
  import opened Vectors

  /** The sum of the samples, added left to right. */
  function SumOf(ss: seq<Vec3>): Vec3 {
    if |ss| == 0 then Zero else Add(SumOf(ss[..|ss| - 1]), ss[|ss| - 1])
  }

  /** Componentwise division by a count. */
  function Div(v: Vec3, k: real): Vec3
    requires k != 0.0
  {
    Vec3(v.x / k, v.y / k, v.z / k)
  }

  /** The arithmetic mean of the samples; zero for none. */
  function MeanOf(ss: seq<Vec3>): Vec3 {
    if |ss| == 0 then Zero else Div(SumOf(ss), |ss| as real)
  }

  /** One channel of an update: folding sample `s` into the mean `m` of `c`
      values summing to `total` gives the mean of `n = c + 1` values summing
      to `total + s`. With no values before, `m` is the sample itself. */
  lemma ChannelUpdate(m: real, s: real, total: real, c: real, n: real)
    requires 0.0 <= c && n == c + 1.0
    requires c == 0.0 ==> m == s && total == 0.0
    requires c != 0.0 ==> m == total / c
    ensures m + (s - m) / n == (total + s) / n
  {
    if c != 0.0 {
      assert m * c == total;
    }
    assert m + (s - m) / n == (m * n + (s - m)) / n;
  }

  /** The update `add_sample` makes to a mean `m` when it has seen `n`
      samples in all: m + (sample - m) / n. */
  function Step(m: Vec3, sample: Vec3, n: nat): Vec3
    requires n > 0
  {
    Add(m, Div(Sub(sample, m), n as real))
  }

  /** The mean `add_sample` maintains, replayed over the samples in order:
      the first sample replaces the initial zero before its step. */
  function RunningMean(ss: seq<Vec3>): Vec3 {
    if |ss| == 0 then Zero
    else
      var m := if |ss| == 1 then ss[0] else RunningMean(ss[..|ss| - 1]);
      Step(m, ss[|ss| - 1], |ss|)
  }

  /** The convergence delta after the samples: the initial maximum before
      any, otherwise the squared distance the last sample moved the mean
      (from that sample itself, for the first). */
  function ConvOf(ss: seq<Vec3>): real {
    if |ss| == 0 then MaxF64
    else
      var start := if |ss| == 1 then ss[0] else RunningMean(ss[..|ss| - 1]);
      NormSquared(Sub(start, RunningMean(ss)))
  }

  /** Appending a sample to the history: the new running mean is one step
      from the mean `m` the update starts from, and the delta is the squared
      distance between the two. */
  lemma Appended(before: seq<Vec3>, sample: Vec3, m: Vec3)
    requires |before| == 0 ==> m == sample
    requires |before| > 0 ==> m == RunningMean(before)
    ensures RunningMean(before + [sample]) == Step(m, sample, |before| + 1)
    ensures ConvOf(before + [sample]) == NormSquared(Sub(m, Step(m, sample, |before| + 1)))
  {
    var after := before + [sample];
    assert after[..|after| - 1] == before;
  }

  /** The running mean is the arithmetic mean of the samples. */
  lemma {:induction false} RunningMeanIsMean(ss: seq<Vec3>)
    ensures RunningMean(ss) == MeanOf(ss)
  {
    if |ss| > 0 {
      var before := ss[..|ss| - 1];
      var sample := ss[|ss| - 1];
      assert ss == before + [sample];
      var m := if |ss| == 1 then ss[0] else RunningMean(before);
      if |ss| > 1 {
        RunningMeanIsMean(before);
      }
      StepIsMean(before, sample, m);
    }
  }

  /** The step, from the mean `m` it starts from (the sample itself when
      there were none before), gives the mean of the samples with the new one
      appended. */
  lemma {:induction false} StepIsMean(before: seq<Vec3>, sample: Vec3, m: Vec3)
    requires |before| == 0 ==> m == sample
    requires |before| > 0 ==> m == MeanOf(before)
    ensures Step(m, sample, |before| + 1) == MeanOf(before + [sample])
  {
    var after := before + [sample];
    assert after[..|after| - 1] == before;
    var c := |before| as real;
    var n := (|before| + 1) as real;
    var total := SumOf(before);
    assert SumOf(after) == Add(total, sample);
    assert MeanOf(after) == Div(Add(total, sample), n);
    ChannelUpdate(m.x, sample.x, total.x, c, n);
    ChannelUpdate(m.y, sample.y, total.y, c, n);
    ChannelUpdate(m.z, sample.z, total.z, c, n);
  }

  /** A sample equal to the mean leaves the mean where it is. */
  lemma StepAtMean(m: Vec3, n: nat)
    requires n > 0
    ensures Step(m, m, n) == m
  {
    assert Div(Sub(m, m), n as real) == Zero;
  }

  /** After the first sample the mean is that sample, and it moved from the
      sample by nothing: the convergence delta is zero. */
  lemma FirstSample(s: Vec3)
    ensures RunningMean([s]) == s
    ensures NormSquared(Sub(s, RunningMean([s]))) == 0.0
  {
    StepAtMean(s, 1);
  }

  /** A sample equal to the current mean leaves the mean unchanged, so the
      convergence delta it records is zero. */
  lemma SampleAtMean(ss: seq<Vec3>, s: Vec3)
    requires |ss| > 0 && s == RunningMean(ss)
    ensures RunningMean(ss + [s]) == RunningMean(ss)
    ensures NormSquared(Sub(RunningMean(ss), RunningMean(ss + [s]))) == 0.0
  {
    var all := ss + [s];
    assert all[..|all| - 1] == ss;
    StepAtMean(s, |all|);
  }

  class OnlineMean {
    var count: nat
    var mean: Vec3
    var conv: real
    /** The samples added so far, oldest first. */
    ghost var samples: seq<Vec3>

    /** The count is the number of samples, the mean is their arithmetic
        mean, and the convergence delta is a squared length or the initial
        maximum, so never negative. */
    ghost predicate Valid()
      reads this
    {
      count == |samples| && mean == RunningMean(samples) && conv == ConvOf(samples) && 0.0 <= conv
    }

    /** `OnlineMean::new`: no samples, a zero mean, and a convergence delta
        of `f64::MAX` so that the first convergence test fails. */
    constructor ()
      ensures Valid()
      ensures samples == [] && count == 0 && mean == Zero && conv == MaxF64
    {
      count := 0;
      mean := Zero;
      conv := MaxF64;
      samples := [];
    }

    /** `add_sample`: one more sample; the mean becomes the mean of all of
        them and the delta the squared distance the mean moved. */
    method AddSample(sample: Vec3)
      requires Valid()
      modifies this
      ensures Valid()
      ensures samples == old(samples) + [sample]
      ensures count == old(count) + 1
      ensures mean == RunningMean(samples)
      ensures conv == ConvOf(samples)
      ensures conv == NormSquared(Sub(if old(count) == 0 then sample else old(mean), mean))
    {
      ghost var before := samples;
      count := count + 1;
      if count == 1 {
        mean := sample;
      }
      var oldMean := mean;
      Appended(before, sample, oldMean);
      var newMean := Step(oldMean, sample, count);
      mean := newMean;
      conv := NormSquared(Sub(oldMean, newMean));
      samples := samples + [sample];
    }

    /** `mean`: the arithmetic mean of the samples added so far. */
    function Mean(): (m: Vec3)
      reads this
      ensures Valid() ==> m == MeanOf(samples)
    {
      RunningMeanIsMean(samples);
      mean
    }

    /** `count`: the number of samples added so far. */
    function Count(): (n: nat)
      reads this
      ensures Valid() ==> n == |samples|
    {
      count
    }

    /** `convergence_delta`: how far the last sample moved the mean, squared. */
    function ConvergenceDelta(): (d: real)
      reads this
      ensures Valid() ==> 0.0 <= d
    {
      conv
    }
  }

  /** Every channel lies in [0, 1]. */
  predicate InUnitBox(v: Vec3) {
    0.0 <= v.x <= 1.0 && 0.0 <= v.y <= 1.0 && 0.0 <= v.z <= 1.0
  }

  /** One channel of a step lies between the old mean and the sample. */
  lemma ChannelBetween(m: real, s: real, n: real)
    requires 1.0 <= n
    ensures Min(m, s) <= m + (s - m) / n <= Max(m, s)
  {
    var t := (s - m) / n;
    assert t * n == s - m;
    if s >= m {
      assert 0.0 <= t;
      assert t * (n - 1.0) >= 0.0 by {
        if 0.0 < t && 1.0 < n {
          TimesPos(t, n - 1.0);
        }
      }
    } else {
      assert t < 0.0;
      assert t * (n - 1.0) <= 0.0 by {
        if 1.0 < n {
          TimesPos(-t, n - 1.0);
        }
      }
    }
  }

  /** Samples with channels in [0, 1] have a running mean in [0, 1]: each
      step moves the mean part of the way towards the new sample. */
  lemma {:induction false} RunningMeanInUnitBox(ss: seq<Vec3>)
    requires forall k :: 0 <= k < |ss| ==> InUnitBox(ss[k])
    ensures InUnitBox(RunningMean(ss))
  {
    if |ss| > 0 {
      var before := ss[..|ss| - 1];
      var m := if |ss| == 1 then ss[0] else RunningMean(before);
      if |ss| > 1 {
        RunningMeanInUnitBox(before);
      }
      var s := ss[|ss| - 1];
      var n := |ss| as real;
      ChannelBetween(m.x, s.x, n);
      ChannelBetween(m.y, s.y, n);
      ChannelBetween(m.z, s.z, n);
    }
  }

  /** Two distinct colours in turn settle below their squared
      half-difference: the samples lo, hi, lo move the mean to lo, then
      half-way, then a third of the way back, so the last delta is the
      squared distance over 36, under the squared half-distance, which is
      over 4 (on one channel, 0, 1, 0 give 1/36 against 1/4). */
  lemma AlternatingSettles(lo: Vec3, hi: Vec3)
    requires lo != hi
    ensures ConvOf([lo, hi, lo]) == NormSquared(Sub(hi, lo)) / 36.0
    ensures 0.0 < ConvOf([lo, hi, lo]) < NormSquared(Div(Sub(hi, lo), 2.0))
  {
    var d := Sub(hi, lo);
    ThreeSamples(lo, hi);
    BackAThird(lo, hi);
    ScaledNormSquared(d, 6.0);
    ScaledNormSquared(d, 2.0);
    DistinctApart(hi, lo);
    SixthBelowHalf(NormSquared(d), ConvOf([lo, hi, lo]), NormSquared(Div(d, 2.0)));
  }

  lemma SixthBelowHalf(n: real, c: real, h: real)
    requires 0.0 < n && c == n / (6.0 * 6.0) && h == n / (2.0 * 2.0)
    ensures c == n / 36.0
    ensures 0.0 < c < h
  {
  }

  /** The delta after lo, hi, lo is the squared distance between the mean
      of the first two and the mean of all three. */
  lemma ThreeSamples(lo: Vec3, hi: Vec3)
    ensures ConvOf([lo, hi, lo]) == NormSquared(Sub(Step(lo, hi, 2), Step(Step(lo, hi, 2), lo, 3)))
  {
    assert [lo, hi, lo][..2] == [lo, hi];
    assert RunningMean([lo, hi]) == Step(lo, hi, 2) by {
      assert [lo, hi][..1] == [lo];
    }
  }

  /** Half-way to hi and a third of the way back leaves a sixth of the
      distance between the two means. */
  lemma BackAThird(lo: Vec3, hi: Vec3)
    ensures Sub(Step(lo, hi, 2), Step(Step(lo, hi, 2), lo, 3)) == Div(Sub(hi, lo), 6.0)
  {
  }

  lemma DivSquare(a: real, k: real)
    requires k != 0.0
    ensures (a / k) * (a / k) * (k * k) == a * a
  {
    var q := a / k;
    assert q * k == a;
    assert q * q * (k * k) == (q * k) * (q * k);
  }

  lemma ScaledNormSquared(d: Vec3, k: real)
    requires k != 0.0
    ensures NormSquared(Div(d, k)) == NormSquared(d) / (k * k)
  {
    DivSquare(d.x, k);
    DivSquare(d.y, k);
    DivSquare(d.z, k);
    var e := Div(d, k);
    var kk := k * k;
    SquarePos(k);
    assert NormSquared(e) * kk == e.x * e.x * kk + e.y * e.y * kk + e.z * e.z * kk;
    assert NormSquared(e) * kk == NormSquared(d);
  }

  /** Distinct points are a positive squared distance apart. */
  lemma DistinctApart(a: Vec3, b: Vec3)
    requires a != b
    ensures 0.0 < NormSquared(Sub(a, b))
  {
    var d := Sub(a, b);
    assert 0.0 <= d.x * d.x && 0.0 <= d.y * d.y && 0.0 <= d.z * d.z;
    if a.x != b.x { SquarePos(d.x); } else if a.y != b.y { SquarePos(d.y); } else { SquarePos(d.z); }
  }

}
