/** Closed real intervals [min, max] (math/interval.rs): hit-distance ranges
    and the per-axis extents of bounding boxes. */
module Intervals {
  import opened Vectors

  datatype Interval = Interval(min: real, max: real)

  /** `Interval::default()`: the degenerate interval [0, 0]. */
  const Default: Interval := Interval(0.0, 0.0)

  /** `Interval::UNIT`, the range of valid surface coordinates. */
  const Unit: Interval := Interval(0.0, 1.0)

  predicate Contains(i: Interval, t: real) {
    i.min <= t <= i.max
  }

  /** Every point of `inner` lies in `outer`. */
  predicate Covers(outer: Interval, inner: Interval) {
    outer.min <= inner.min && inner.max <= outer.max
  }

  /** `Interval::length`. */
  function Length(i: Interval): real {
    i.max - i.min
  }

  /** The length is never negative exactly when the bounds are ordered, and
      zero exactly when the interval is a single point. */
  lemma LengthSign(i: Interval)
    ensures 0.0 <= Length(i) <==> i.min <= i.max
    ensures Length(i) == 0.0 <==> i.min == i.max
  {
  }

  /** `Interval::new` asserts that the bounds are ordered (neither is NaN in the model). */
  function New(min: real, max: real): (r: Interval)
    requires min <= max
    ensures r.min == min && r.max == max
    ensures 0.0 <= Length(r)
  {
    Interval(min, max)
  }

  function Translate(i: Interval, shift: real): (r: Interval)
    ensures Length(r) == Length(i)
    ensures forall t :: Contains(i, t) <==> Contains(r, t + shift)
  {
    Interval(i.min + shift, i.max + shift)
  }

  /** The smallest interval holding both arguments. */
  function Union(i0: Interval, i1: Interval): (r: Interval)
    ensures r.min == Min(i0.min, i1.min) && r.max == Max(i0.max, i1.max)
    ensures forall t :: Contains(i0, t) || Contains(i1, t) ==> Contains(r, t)
  {
    var min := if i0.min <= i1.min then i0.min else i1.min;
    var max := if i0.max >= i1.max then i0.max else i1.max;
    Interval(min, max)
  }

  /** `pad_by` widens the interval in place by `delta / 2` at each end; the
      padded value is returned. */
  function PadBy(i: Interval, delta: real): (r: Interval)
    ensures Length(r) == Length(i) + delta
    ensures 0.0 <= delta ==> Covers(r, i)
    ensures r.min + r.max == i.min + i.max
  {
    var padding := delta / 2.0;
    Interval(i.min - padding, i.max + padding)
  }

  lemma UnionCovers(i0: Interval, i1: Interval)
    ensures Covers(Union(i0, i1), i0) && Covers(Union(i0, i1), i1)
  {
  }

  /** Union is the least upper bound: any interval covering both covers the union. */
  lemma UnionLeast(i0: Interval, i1: Interval, j: Interval)
    requires Covers(j, i0) && Covers(j, i1)
    ensures Covers(j, Union(i0, i1))
  {
  }

  lemma UnionCommutative(i0: Interval, i1: Interval)
    ensures Union(i0, i1) == Union(i1, i0)
  {
  }

  lemma UnionIdempotent(i: Interval)
    ensures Union(i, i) == i
  {
  }

  lemma UnionAssociative(i0: Interval, i1: Interval, i2: Interval)
    ensures Union(Union(i0, i1), i2) == Union(i0, Union(i1, i2))
  {
  }

  lemma UnitContains(t: real)
    ensures Contains(Unit, t) <==> 0.0 <= t <= 1.0
  {
  }

  lemma CoversTransitive(a: Interval, b: Interval, c: Interval)
    requires Covers(a, b) && Covers(b, c)
    ensures Covers(a, c)
  {
  }
}
