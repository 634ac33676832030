/** The flattening step `into_geoms` that the transforms share
    (geom/scaling.rs, geom/rotation.rs): a transform applied to a compound
    geometry becomes the list of the inner geometry's pieces, each wrapped
    in its own copy of the transform. A wrapped piece is the pair of the
    transform and the piece. */
module Geoms {
  /** Wraps every piece, in order, in a copy of `w`. */
  function WrapAll<W, G>(w: W, pieces: seq<G>): (gs: seq<(W, G)>)
    ensures |gs| == |pieces|
    ensures forall k :: 0 <= k < |pieces| ==> gs[k] == (w, pieces[k])
  {
    if |pieces| == 0 then [] else [(w, pieces[0])] + WrapAll(w, pieces[1..])
  }
}
