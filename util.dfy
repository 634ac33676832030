/** Random vectors (util.rs). The uniform draws in [0, 1) that the program
    takes from its random source are parameters. */
module Randoms {
  import opened Vectors
  import opened Options

  /** Every component of a triple of draws lies in [0, 1). */
  predicate IsDraw(r: Vec3) {
    0.0 <= r.x < 1.0 && 0.0 <= r.y < 1.0 && 0.0 <= r.z < 1.0
  }

  /** One component of `random_vec3` as written: (hi - lo) r - (hi - lo) / 2,
      which lies in [-(hi - lo) / 2, (hi - lo) / 2). */
  function ComponentAsWritten(lo: real, hi: real, r: real): (c: real)
    ensures lo < hi && 0.0 <= r < 1.0 ==> -(hi - lo) / 2.0 <= c < (hi - lo) / 2.0
  {
    ComponentBounds(lo, hi, r);
    (hi - lo) * r - (hi - lo) / 2.0
  }

  /** `random_vec3(lo, hi)` as written: a box of the right size, centred on
      the origin. */
  function RandomVec3AsWritten(lo: real, hi: real, r: Vec3): (p: Vec3)
    ensures lo < hi && IsDraw(r) ==>
      var h := (hi - lo) / 2.0;
      -h <= p.x < h && -h <= p.y < h && -h <= p.z < h
  {
    Vec3(ComponentAsWritten(lo, hi, r.x), ComponentAsWritten(lo, hi, r.y), ComponentAsWritten(lo, hi, r.z))
  }

  /** As written, the components are centred on 0, not on (lo + hi) / 2:
      with lo = 0 and hi = 1 a draw of 0 gives -1/2, outside [lo, hi). */
  lemma AsWrittenLeavesRange()
    ensures RandomVec3AsWritten(0.0, 1.0, Zero) == Vec3(-0.5, -0.5, -0.5)
    ensures IsDraw(Zero) && !(0.0 <= RandomVec3AsWritten(0.0, 1.0, Zero).x < 1.0)
  {
  }

  /** One component of the intended `random_vec3`: lo + (hi - lo) r. */
  function Component(lo: real, hi: real, r: real): (c: real)
    ensures lo < hi && 0.0 <= r < 1.0 ==> lo <= c < hi
  {
    ComponentBounds(lo, hi, r);
    lo + (hi - lo) * r
  }

  lemma ComponentBounds(lo: real, hi: real, r: real)
    ensures lo < hi && 0.0 <= r < 1.0 ==> 0.0 <= (hi - lo) * r < hi - lo
  {
    if lo < hi && 0.0 <= r < 1.0 {
      TimesPos(hi - lo, 1.0 - r);
      if 0.0 < r {
        TimesPos(hi - lo, r);
      }
    }
  }

  /** `random_vec3(lo, hi)` with each component uniform in [lo, hi). */
  function RandomVec3(lo: real, hi: real, r: Vec3): (p: Vec3)
    ensures lo < hi && IsDraw(r) ==> lo <= p.x < hi && lo <= p.y < hi && lo <= p.z < hi
  {
    Vec3(Component(lo, hi, r.x), Component(lo, hi, r.y), Component(lo, hi, r.z))
  }

  /** On a range centred on 0, such as the [-1, 1) that `random_unit_vec3`
      asks for, the two agree. */
  lemma AgreeOnSymmetricRange(hi: real, r: Vec3)
    ensures RandomVec3AsWritten(-hi, hi, r) == RandomVec3(-hi, hi, r)
  {
  }

  /** The index of the first candidate that `random_unit_vec3` accepts, one
      whose squared length is at most 1, if any. */
  function FirstInBall(draws: seq<Vec3>): (k: Option<nat>)
    ensures k.Some? ==> k.value < |draws| && NormSquared(RandomVec3(-1.0, 1.0, draws[k.value])) <= 1.0
    ensures k.Some? ==> forall j :: 0 <= j < k.value ==> NormSquared(RandomVec3(-1.0, 1.0, draws[j])) > 1.0
    ensures k.None? ==> forall j :: 0 <= j < |draws| ==> NormSquared(RandomVec3(-1.0, 1.0, draws[j])) > 1.0
  {
    if |draws| == 0 then None
    else if NormSquared(RandomVec3(-1.0, 1.0, draws[0])) <= 1.0 then Some(0)
    else match FirstInBall(draws[1..])
      case None => None
      case Some(k) => Some(k + 1)
  }

  /** `random_unit_vec3`: rejection sampling in the cube [-1, 1)^3, keeping
      the first candidate inside the unit ball and normalising it. The
      program loops until it finds one; the model consumes a finite list of
      draws and answers None when every candidate is rejected. */
  method RandomUnitVec3(sqrt: real -> real, draws: seq<Vec3>) returns (r: Option<Vec3>)
    ensures r.None? <==> FirstInBall(draws).None?
    ensures r.Some? ==> r.value == Normalize(sqrt, RandomVec3(-1.0, 1.0, draws[FirstInBall(draws).value]))
  {
    var k := 0;
    while k < |draws|
      invariant 0 <= k <= |draws|
      invariant forall j :: 0 <= j < k ==> NormSquared(RandomVec3(-1.0, 1.0, draws[j])) > 1.0
    {
      var p := RandomVec3(-1.0, 1.0, draws[k]);
      if NormSquared(p) <= 1.0 {
        FirstInBallIs(draws, k);
        return Some(Normalize(sqrt, p));
      }
      k := k + 1;
    }
    return None;
  }

  /** The first accepted index is the one a left-to-right search stops at. */
  lemma {:induction false} FirstInBallIs(draws: seq<Vec3>, k: nat)
    requires k < |draws| && NormSquared(RandomVec3(-1.0, 1.0, draws[k])) <= 1.0
    requires forall j :: 0 <= j < k ==> NormSquared(RandomVec3(-1.0, 1.0, draws[j])) > 1.0
    ensures FirstInBall(draws) == Some(k)
  {
    if k > 0 {
      FirstInBallIs(draws[1..], k - 1);
    }
  }

  /** A nonzero accepted candidate normalises to a unit vector. */
  lemma AcceptedIsUnit(sqrt: real -> real, p: Vec3)
    requires IsSqrt(sqrt) && p != Zero
    ensures IsUnit(Normalize(sqrt, p))
  {
    NormalizeUnit(sqrt, p);
  }

  /** `random_on_hemisphere`: the drawn unit vector, flipped when it points
      away from the normal. */
  function RandomOnHemisphere(normal: Vec3, rand: Vec3): (r: Vec3)
    ensures r == rand || r == Neg(rand)
    ensures 0.0 <= Dot(normal, r)
    ensures Dot(normal, rand) > 0.0 ==> r == rand
  {
    if Dot(normal, rand) > 0.0 then rand else Neg(rand)
  }
}
