/** The integrator (rendering/renderer.rs): `trace` follows a ray through
    the scene up to a depth limit, and `render_px` averages batches of
    jittered samples through one pixel until the running mean settles. The
    scene query, the materials' `scatter` and `emit`, and the background
    colour are parameters. */
module Renderers {
  import opened Vectors
  import I = Intervals
  import opened Rays
  import opened Hits
  import opened Options
  import C = Colors
  import M = Materials
  import Cam = Cameras
  import OM = OnlineMeans

  /** The distances `trace` accepts hits at: [0.001, f64::MAX]. */
  const HitRange: I.Interval := I.New(0.001, MaxF64)

  /** `Renderer::trace`. At depth 0 the ray carries no light. Otherwise a
      miss shows the background; a hit shows its material's emission, plus,
      if the material scatters, the attenuated light traced along the
      scattered ray one level deeper. */
  function Trace(scene: (Ray, I.Interval) -> Option<Intersection>, scatter: (Ray, Intersection) -> Option<M.Scatter>,
                 emit: (MaterialRef, UV) -> C.Color, background: C.Color, ray: Ray, depth: nat): (c: C.Color)
    ensures depth == 0 ==> c == C.Black()
    ensures depth > 0 && scene(ray, HitRange).None? ==> c == background
    ensures depth > 0 && scene(ray, HitRange).Some? && scatter(ray, scene(ray, HitRange).value).None? ==>
      c == emit(scene(ray, HitRange).value.material, scene(ray, HitRange).value.uv)
    ensures depth > 0 && scene(ray, HitRange).Some? && scatter(ray, scene(ray, HitRange).value).Some? ==> C.InRange(c)
    decreases depth
  {
    if depth == 0 then C.Black()
    else
      match scene(ray, HitRange)
      case None => background
      case Some(inter) =>
        var e := emit(inter.material, inter.uv);
        match scatter(ray, inter)
        case None => e
        case Some(s) => C.Add(e, C.Mul(Trace(scene, scatter, emit, background, s.ray, depth - 1), s.color))
  }

  /** A background and emissions in [0, 1] give a traced colour in [0, 1],
      because `+` and `*` clamp. */
  lemma TraceInRange(scene: (Ray, I.Interval) -> Option<Intersection>, scatter: (Ray, Intersection) -> Option<M.Scatter>,
                     emit: (MaterialRef, UV) -> C.Color, background: C.Color, ray: Ray, depth: nat)
    requires C.InRange(background)
    requires forall m, uv :: C.InRange(emit(m, uv))
    ensures C.InRange(Trace(scene, scatter, emit, background, ray, depth))
  {
  }

  /** With a black background and no emitter, every path is black, however
      deep the recursion. */
  lemma {:induction false} DarkSceneIsBlack(scene: (Ray, I.Interval) -> Option<Intersection>,
                                            scatter: (Ray, Intersection) -> Option<M.Scatter>,
                                            emit: (MaterialRef, UV) -> C.Color, depth: nat)
    requires forall m, uv :: emit(m, uv) == C.Black()
    ensures forall ray :: Trace(scene, scatter, emit, C.Black(), ray, depth) == C.Black()
    decreases depth
  {
    if depth > 0 {
      DarkSceneIsBlack(scene, scatter, emit, depth - 1);
    }
    forall ray
      ensures Trace(scene, scatter, emit, C.Black(), ray, depth) == C.Black()
    {
      if Scatters(scene, scatter, ray, depth) {
        var next := ScatteredRay(scene, scatter, ray);
        assert Trace(scene, scatter, emit, C.Black(), next, depth - 1) == C.Black();
      }
      DarkLevel(scene, scatter, emit, ray, depth);
    }
  }

  /** The path goes on: the ray hits something that scatters it. */
  predicate Scatters(scene: (Ray, I.Interval) -> Option<Intersection>, scatter: (Ray, Intersection) -> Option<M.Scatter>,
                     ray: Ray, depth: nat)
  {
    depth > 0 && scene(ray, HitRange).Some? && scatter(ray, scene(ray, HitRange).value).Some?
  }

  /** The ray a hit scatters into. */
  function ScatteredRay(scene: (Ray, I.Interval) -> Option<Intersection>, scatter: (Ray, Intersection) -> Option<M.Scatter>,
                        ray: Ray): Ray
    requires scene(ray, HitRange).Some? && scatter(ray, scene(ray, HitRange).value).Some?
  {
    scatter(ray, scene(ray, HitRange).value).value.ray
  }

  /** One level of the induction above: a path that ends here is black, and
      one that goes on is black when the light from deeper is. */
  lemma DarkLevel(scene: (Ray, I.Interval) -> Option<Intersection>, scatter: (Ray, Intersection) -> Option<M.Scatter>,
                  emit: (MaterialRef, UV) -> C.Color, ray: Ray, depth: nat)
    requires forall m, uv :: emit(m, uv) == C.Black()
    requires Scatters(scene, scatter, ray, depth) ==>
      Trace(scene, scatter, emit, C.Black(), ScatteredRay(scene, scatter, ray), depth - 1) == C.Black()
    ensures Trace(scene, scatter, emit, C.Black(), ray, depth) == C.Black()
  {
    if Scatters(scene, scatter, ray, depth) {
      var hit := scene(ray, HitRange).value;
      var s := scatter(ray, hit).value;
      C.AbsorbBlack(emit(hit.material, hit.uv), Trace(scene, scatter, emit, C.Black(), s.ray, depth - 1), s.color);
    }
  }

  /** The ray of one sample: through the pixel (x, y) moved by a jitter of
      (du - 1/2, dv - 1/2) for draws du, dv in [0, 1). */
  function SampleRay(sqrt: real -> real, cam: Cam.Camera, x: nat, y: nat, d: UV): Ray {
    Cam.RayThrough(sqrt, cam, x as real + (d.u - 0.5), y as real + (d.v - 0.5))
  }

  /** The colour of every sample the draws give, in draw order. */
  function PixelSamples(sqrt: real -> real, cam: Cam.Camera, shade: Ray -> C.Color, x: nat, y: nat, draws: seq<UV>)
    : (ss: seq<Vec3>)
    ensures |ss| == |draws|
  {
    seq(|draws|, k requires 0 <= k < |draws| => C.InnerVec(shade(SampleRay(sqrt, cam, x, y, draws[k]))))
  }

  /** The sample count at which `render_px` stops, searching the batch
      boundaries from `n` on: the first whose convergence delta is at most
      the cutoff, or None when the next batch needs more samples than
      remain. */
  function SettleAt(ss: seq<Vec3>, samplesPerBatch: nat, convCutoff: real, n: nat): (k: Option<nat>)
    requires samplesPerBatch > 0 && n <= |ss|
    ensures k.Some? ==> n <= k.value <= |ss|
    decreases |ss| - n
  {
    if OM.ConvOf(ss[..n]) <= convCutoff then Some(n)
    else if |ss| - n < samplesPerBatch then None
    else SettleAt(ss, samplesPerBatch, convCutoff, n + samplesPerBatch)
  }

  /** The first `n` samples are whole batches, and the convergence test
      failed at every batch boundary before `n`. */
  predicate KeptGoing(ss: seq<Vec3>, samplesPerBatch: nat, convCutoff: real, n: nat)
    requires samplesPerBatch > 0
  {
    n <= |ss| && n % samplesPerBatch == 0 &&
    forall m :: 0 <= m < n && m % samplesPerBatch == 0 ==> OM.ConvOf(ss[..m]) > convCutoff
  }

  /** Where the search stops, the delta is at most the cutoff, after whole
      batches, and at every earlier boundary it was above the cutoff. */
  lemma {:induction false} SettleAtFound(ss: seq<Vec3>, samplesPerBatch: nat, convCutoff: real, n: nat)
    requires samplesPerBatch > 0 && KeptGoing(ss, samplesPerBatch, convCutoff, n)
    requires SettleAt(ss, samplesPerBatch, convCutoff, n).Some?
    ensures var k := SettleAt(ss, samplesPerBatch, convCutoff, n).value;
      n <= k && OM.ConvOf(ss[..k]) <= convCutoff && KeptGoing(ss, samplesPerBatch, convCutoff, k)
    decreases |ss| - n
  {
    if OM.ConvOf(ss[..n]) > convCutoff {
      KeptGoingStep(ss, samplesPerBatch, convCutoff, n);
      SettleAtFound(ss, samplesPerBatch, convCutoff, n + samplesPerBatch);
    }
  }

  /** When the search gives up, the delta was above the cutoff at every
      batch boundary the samples reach. */
  lemma {:induction false} SettleAtNone(ss: seq<Vec3>, samplesPerBatch: nat, convCutoff: real, n: nat)
    requires samplesPerBatch > 0 && KeptGoing(ss, samplesPerBatch, convCutoff, n)
    requires SettleAt(ss, samplesPerBatch, convCutoff, n).None?
    ensures forall m :: 0 <= m <= |ss| && m % samplesPerBatch == 0 ==> OM.ConvOf(ss[..m]) > convCutoff
    decreases |ss| - n
  {
    if |ss| - n < samplesPerBatch {
      forall m | 0 <= m <= |ss| && m % samplesPerBatch == 0
        ensures OM.ConvOf(ss[..m]) > convCutoff
      {
        NoBoundaryBetween(n, m, samplesPerBatch);
      }
    } else {
      KeptGoingStep(ss, samplesPerBatch, convCutoff, n);
      SettleAtNone(ss, samplesPerBatch, convCutoff, n + samplesPerBatch);
    }
  }

  /** With a cutoff below the initial delta of f64::MAX, a pixel always
      averages at least one batch. */
  lemma NoEmptyPixel(ss: seq<Vec3>, samplesPerBatch: nat, convCutoff: real)
    requires samplesPerBatch > 0 && convCutoff < MaxF64
    requires SettleAt(ss, samplesPerBatch, convCutoff, 0).Some?
    ensures samplesPerBatch <= SettleAt(ss, samplesPerBatch, convCutoff, 0).value
  {
    assert ss[..0] == [];
  }

  /** `render_px`: whole batches of samples are added to a fresh running
      mean until its convergence delta is at most the cutoff; the pixel is
      the mean. `shade` is `trace` at the renderer's depth. The program's
      loop runs as long as it takes; the model consumes a finite list of
      jitter draws and answers None when a batch would need more draws than
      remain. `used` is the number of samples taken. */
  method RenderPx(sqrt: real -> real, cam: Cam.Camera, shade: Ray -> C.Color, samplesPerBatch: nat, convCutoff: real,
                  x: nat, y: nat, draws: seq<UV>) returns (c: Option<C.Color>, used: nat)
    requires samplesPerBatch > 0
    ensures used <= |draws|
    ensures c.Some? <==> SettleAt(PixelSamples(sqrt, cam, shade, x, y, draws), samplesPerBatch, convCutoff, 0).Some?
    ensures c.Some? ==> used == SettleAt(PixelSamples(sqrt, cam, shade, x, y, draws), samplesPerBatch, convCutoff, 0).value
    ensures c.Some? ==> c.value == C.FromVec(OM.MeanOf(PixelSamples(sqrt, cam, shade, x, y, draws)[..used]))
  {
    var estimator := new OM.OnlineMean();
    used := SampleUntilSettled(sqrt, cam, shade, samplesPerBatch, convCutoff, x, y, draws, estimator);
    if estimator.ConvergenceDelta() > convCutoff {
      c := None;
    } else {
      c := Some(C.FromVec(estimator.Mean()));
    }
  }

  /** The outer loop of `render_px`, on an estimator that starts empty: it
      stops where `SettleAt` does, or where the draws run out. */
  method SampleUntilSettled(sqrt: real -> real, cam: Cam.Camera, shade: Ray -> C.Color, samplesPerBatch: nat,
                            convCutoff: real, x: nat, y: nat, draws: seq<UV>, estimator: OM.OnlineMean)
    returns (used: nat)
    requires samplesPerBatch > 0
    requires estimator.Valid() && estimator.samples == []
    modifies estimator
    ensures estimator.Valid() && used <= |draws|
    ensures estimator.samples == PixelSamples(sqrt, cam, shade, x, y, draws)[..used]
    ensures SettleAt(PixelSamples(sqrt, cam, shade, x, y, draws), samplesPerBatch, convCutoff, 0)
         == SettleAt(PixelSamples(sqrt, cam, shade, x, y, draws), samplesPerBatch, convCutoff, used)
    ensures estimator.ConvergenceDelta() > convCutoff ==> |draws| - used < samplesPerBatch
  {
    ghost var all := PixelSamples(sqrt, cam, shade, x, y, draws);
    used := 0;
    assert all[..0] == [];
    while estimator.ConvergenceDelta() > convCutoff && samplesPerBatch <= |draws| - used
      invariant estimator.Valid()
      invariant used <= |draws|
      invariant estimator.samples == all[..used]
      invariant SettleAt(all, samplesPerBatch, convCutoff, 0) == SettleAt(all, samplesPerBatch, convCutoff, used)
      decreases |draws| - used
    {
      AddBatch(sqrt, cam, shade, x, y, draws, estimator, used, samplesPerBatch);
      used := used + samplesPerBatch;
    }
  }

  /** Another batch that starts where the test failed keeps the invariant. */
  lemma KeptGoingStep(ss: seq<Vec3>, samplesPerBatch: nat, convCutoff: real, n: nat)
    requires samplesPerBatch > 0 && n + samplesPerBatch <= |ss|
    requires KeptGoing(ss, samplesPerBatch, convCutoff, n) && OM.ConvOf(ss[..n]) > convCutoff
    ensures KeptGoing(ss, samplesPerBatch, convCutoff, n + samplesPerBatch)
  {
    MultipleStep(n, samplesPerBatch);
    forall m | 0 <= m < n + samplesPerBatch && m % samplesPerBatch == 0
      ensures OM.ConvOf(ss[..m]) > convCutoff
    {
      NoBoundaryBetween(n, m, samplesPerBatch);
    }
  }

  lemma MulLe(d: int, a: int, b: int)
    requires 0 <= d && a <= b
    ensures d * a <= d * b
  {
    assert d * b - d * a == d * (b - a);
  }

  lemma MultipleMod(d: int, k: int)
    requires d > 0
    ensures (d * k) % d == 0
  {
    var x := d * k;
    var q := x / d;
    var r := x % d;
    assert d * (k - q) == r;
    if k - q >= 1 {
      MulLe(d, 1, k - q);
      assert false;
    } else if k - q <= -1 {
      MulLe(d, k - q, -1);
      assert false;
    }
  }

  /** The next multiple of d after a multiple of d. */
  lemma MultipleStep(n: nat, d: nat)
    requires d > 0 && n % d == 0
    ensures (n + d) % d == 0
  {
    var p := n / d;
    assert n + d == d * (p + 1);
    MultipleMod(d, p + 1);
  }

  /** No multiple of d lies strictly between two consecutive ones. */
  lemma NoBoundaryBetween(n: nat, m: nat, d: nat)
    requires d > 0 && n % d == 0 && m % d == 0 && m < n + d
    ensures m <= n
  {
    var p := n / d;
    var q := m / d;
    if p < q {
      MulLe(d, p + 1, q);
      assert false;
    } else {
      MulLe(d, q, p);
    }
  }

  /** The inner loop of `render_px`: the batch of samples drawn from
      position `from` on, added to the running mean in order. */
  method AddBatch(sqrt: real -> real, cam: Cam.Camera, shade: Ray -> C.Color, x: nat, y: nat, draws: seq<UV>,
                  estimator: OM.OnlineMean, from: nat, samplesPerBatch: nat)
    requires from + samplesPerBatch <= |draws|
    requires estimator.Valid() && estimator.samples == PixelSamples(sqrt, cam, shade, x, y, draws)[..from]
    modifies estimator
    ensures estimator.Valid()
    ensures estimator.samples == PixelSamples(sqrt, cam, shade, x, y, draws)[..from + samplesPerBatch]
  {
    ghost var all := PixelSamples(sqrt, cam, shade, x, y, draws);
    for k := 0 to samplesPerBatch
      invariant estimator.Valid()
      invariant estimator.samples == all[..from + k]
    {
      var ray := SampleRay(sqrt, cam, x, y, draws[from + k]);
      var color := shade(ray);
      estimator.AddSample(C.InnerVec(color));
      PrefixAppend(all, from + k);
    }
  }

  /** A prefix followed by the next element is the longer prefix. */
  lemma PrefixAppend<T>(s: seq<T>, i: nat)
    requires i < |s|
    ensures s[..i] + [s[i]] == s[..i + 1]
  {
    assert s[..i + 1] == s[..i] + [s[i]];
  }

  /** When every sample colour is in [0, 1], so is the pixel. */
  lemma {:induction false} PixelInRange(ss: seq<Vec3>)
    requires forall k :: 0 <= k < |ss| ==> OM.InUnitBox(ss[k])
    ensures C.InRange(C.FromVec(OM.MeanOf(ss)))
  {
    OM.RunningMeanIsMean(ss);
    OM.RunningMeanInUnitBox(ss);
  }
}
