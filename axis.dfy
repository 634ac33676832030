/** The three coordinate axes (geom/axis.rs; geom/aabb.rs declares a private
    copy of the same enum with the same `vec_idx`, which this module stands
    for as well). */
module Axes {
  import opened Vectors

  datatype Axis = X | Y | Z

  /** Number of distinct values of a `u64` draw. */
  const U64Count: int := 0x1_0000_0000_0000_0000

  /** The coordinate of `v` along the axis. */
  function VecIdx(a: Axis, v: Vec3): real {
    match a
    case X => v.x
    case Y => v.y
    case Z => v.z
  }

  /** `Axis::random`, with the random `u64` passed in as `draw`. The panic after
      the if-chain is the `assert false` branch: it is unreachable since
      `draw % 3 < 3`. */
  function Random(draw: nat): (a: Axis)
    requires draw < U64Count
    ensures a == X <==> draw % 3 == 0
    ensures a == Y <==> draw % 3 == 1
    ensures a == Z <==> draw % 3 == 2
  {
    var r := draw % 3;
    if r == 0 then X
    else if r == 1 then Y
    else if r == 2 then Z
    else assert false; X
  }

  /** A vector is determined by its three coordinates. */
  lemma VecIdxDetermines(v: Vec3, w: Vec3)
    requires forall a: Axis :: VecIdx(a, v) == VecIdx(a, w)
    ensures v == w
  {
    assert VecIdx(X, v) == VecIdx(X, w);
    assert VecIdx(Y, v) == VecIdx(Y, w);
    assert VecIdx(Z, v) == VecIdx(Z, w);
  }

  /** Reading a coordinate commutes with vector addition and scaling. */
  lemma VecIdxLinear(a: Axis, v: Vec3, w: Vec3, k: real)
    ensures VecIdx(a, Add(v, w)) == VecIdx(a, v) + VecIdx(a, w)
    ensures VecIdx(a, Scale(v, k)) == k * VecIdx(a, v)
  {
  }

  /** Every axis is drawn by some `u64`. */
  lemma {:induction false} RandomReachesEveryAxis(a: Axis)
    ensures exists draw: nat :: draw < U64Count && Random(draw) == a
  {
    match a
    case X => assert Random(0) == X;
    case Y => assert Random(1) == Y;
    case Z => assert Random(2) == Z;
  }
}
