/** Collision shapes and the pairwise intersection tests of the engine.

    The shapes form a closed set, circle and axis-aligned box, so the
    dispatcher is a total function: the "pair not implemented" exception of
    the engine cannot arise for any pair that can be built here. */
module Colliders {
  import opened Vectors

  /** A circle given by its centre and radius. */
  datatype CircleCollider = CircleCollider(centre: Vector2, radius: real)

  /** An axis-aligned box given by its anchor corner and its extent on each axis. */
  datatype BoxCollider = BoxCollider(position: Vector2, size: Vector2)

  datatype Shape = CircleShape(circle: CircleCollider) | BoxShape(box: BoxCollider)

  /** A collider: the metadata every shape carries, and the shape itself.
      The flags and the layer are stored for the caller; no test reads them. */
  datatype Collider = Collider(isActive: bool, isTrigger: bool, layer: string, shape: Shape)

  const DefaultLayer: string := "Default"

  /** A circle collider as freshly constructed: unit circle at the origin. */
  function NewCircleCollider(): (c: Collider)
    ensures c.isActive && !c.isTrigger && c.layer == DefaultLayer
    ensures c.shape.CircleShape? && c.shape.circle.centre == Zero && c.shape.circle.radius == 1.0
  {
    Collider(true, false, DefaultLayer, CircleShape(CircleCollider(Zero, 1.0)))
  }

  /** A box collider as freshly constructed: an empty box at the origin. */
  function NewBoxCollider(): (c: Collider)
    ensures c.isActive && !c.isTrigger && c.layer == DefaultLayer
    ensures c.shape.BoxShape? && c.shape.box.position == Zero && c.shape.box.size == Zero
  {
    Collider(true, false, DefaultLayer, BoxShape(BoxCollider(Zero, Zero)))
  }

  // ---------------------------------------------------------------------------
  // Geometry used to state what the tests mean

  /** `p` lies in the closed interval that starts at `lo` and has length `length`. */
  predicate InSpan(lo: real, length: real, p: real)
  {
    lo <= p <= lo + length
  }

  /** `p` lies in the closed region covered by the box. */
  predicate InBox(box: BoxCollider, p: Vector2)
  {
    InSpan(box.position.x, box.size.x, p.x) && InSpan(box.position.y, box.size.y, p.y)
  }

  /** The box has non-negative width and height, so it covers at least its anchor. */
  predicate WellFormed(box: BoxCollider)
  {
    box.size.x >= 0.0 && box.size.y >= 0.0
  }

  // ---------------------------------------------------------------------------
  // Circle against circle

  /** The centres are strictly closer than the sum of the radii. The distance
      itself needs a square root; this compares squares instead, which is the
      same test whenever the radii add up to a positive number (see
      CirclesIntersectIffCloserThanRadii). */
  function IntersectsCircles(a: CircleCollider, b: CircleCollider): (r: bool)
    ensures r ==> a.radius + b.radius > 0.0
  {
    var reach := a.radius + b.radius;
    reach > 0.0 && SquaredDistance(a.centre, b.centre) < reach * reach
  }

  /** For non-negative `d`, being below `s` is the same as squaring below `s * s`
      with `s` positive. */
  lemma BelowIffSquareBelow(d: real, s: real)
    requires d >= 0.0
    ensures d < s <==> (s > 0.0 && d * d < s * s)
  {
    if d < s {
      PositiveProduct(s - d, s + d);
      assert s * s - d * d == (s - d) * (s + d);
    } else if s > 0.0 {
      NonNegativeProduct(d - s, d + s);
      assert d * d - s * s == (d - s) * (d + s);
    }
  }

  /** With `d` the Euclidean distance between the centres, the squared test
      is exactly "distance strictly less than the sum of the radii". */
  lemma CirclesIntersectIffCloserThanRadii(a: CircleCollider, b: CircleCollider, d: real)
    requires d >= 0.0 && d * d == SquaredDistance(a.centre, b.centre)
    ensures IntersectsCircles(a, b) <==> d < a.radius + b.radius
  {
    BelowIffSquareBelow(d, a.radius + b.radius);
  }

  /** Tangent circles, whose distance equals the sum of the radii, do not intersect. */
  lemma TangentCirclesDoNotIntersect(a: CircleCollider, b: CircleCollider, d: real)
    requires d >= 0.0 && d * d == SquaredDistance(a.centre, b.centre)
    requires d == a.radius + b.radius
    ensures !IntersectsCircles(a, b)
  {
    CirclesIntersectIffCloserThanRadii(a, b, d);
  }

  /** Circle against circle does not depend on the order of the arguments. */
  lemma IntersectsCirclesSymmetric(a: CircleCollider, b: CircleCollider)
    ensures IntersectsCircles(a, b) == IntersectsCircles(b, a)
  {
    SquaredDistanceSymmetric(a.centre, b.centre);
  }

  // ---------------------------------------------------------------------------
  // Box against box

  /** On one axis: the near or the far edge of the second box lies in the
      closed span of the first. */
  predicate EdgeInSpan(aLo: real, aLength: real, bLo: real, bLength: real)
  {
    InSpan(aLo, aLength, bLo) || InSpan(aLo, aLength, bLo + bLength)
  }

  /** Box against box as the engine evaluates it: one edge of `b` falls in
      `a`'s span on the x axis, and one on the y axis. Touching edges count.
      Whenever `b` is well-formed this never reports a pair that does not
      share a point; the converse fails (see BoxesOverlap). */
  function IntersectsBoxes(a: BoxCollider, b: BoxCollider): (r: bool)
    ensures r && WellFormed(b) ==> BoxesOverlap(a, b)
  {
    EdgeInSpan(a.position.x, a.size.x, b.position.x, b.size.x)
    && EdgeInSpan(a.position.y, a.size.y, b.position.y, b.size.y)
  }

  /** The usual closed overlap test: the spans intersect on both axes. */
  predicate BoxesOverlap(a: BoxCollider, b: BoxCollider)
  {
    && a.position.x <= b.position.x + b.size.x && b.position.x <= a.position.x + a.size.x
    && a.position.y <= b.position.y + b.size.y && b.position.y <= a.position.y + a.size.y
  }

  /** For well-formed boxes, BoxesOverlap holds exactly when the boxes share a point. */
  lemma BoxesOverlapIffCommonPoint(a: BoxCollider, b: BoxCollider)
    requires WellFormed(a) && WellFormed(b)
    ensures BoxesOverlap(a, b) <==> exists p :: InBox(a, p) && InBox(b, p)
  {
    if BoxesOverlap(a, b) {
      var p := Vector2(Max(a.position.x, b.position.x), Max(a.position.y, b.position.y));
      assert InBox(a, p) && InBox(b, p);
    }
  }

  /** `outer` reaches strictly beyond `inner` on both ends of one axis. */
  predicate StrictlyWider(innerLo: real, innerLength: real, outerLo: real, outerLength: real)
  {
    outerLo < innerLo && innerLo + innerLength < outerLo + outerLength
  }

  /** For well-formed boxes the engine's test is the overlap test minus the
      pairs where `b` sticks out of `a` on both ends of some axis. */
  lemma IntersectsBoxesIffOverlapUnlessWider(a: BoxCollider, b: BoxCollider)
    requires WellFormed(a) && WellFormed(b)
    ensures IntersectsBoxes(a, b)
        <==> && BoxesOverlap(a, b)
             && !StrictlyWider(a.position.x, a.size.x, b.position.x, b.size.x)
             && !StrictlyWider(a.position.y, a.size.y, b.position.y, b.size.y)
  {
  }

  /** BoxesOverlap does not depend on the order of the arguments. */
  lemma BoxesOverlapSymmetric(a: BoxCollider, b: BoxCollider)
    ensures BoxesOverlap(a, b) == BoxesOverlap(b, a)
  {
  }

  /** The engine's box test depends on the order of its arguments: a box
      strictly inside another on an axis is missed from the inside. */
  lemma IntersectsBoxesNotSymmetric()
    ensures var inner := BoxCollider(Vector2(1.0, 1.0), Vector2(1.0, 1.0));
            var outer := BoxCollider(Vector2(0.0, 0.0), Vector2(4.0, 4.0));
            !IntersectsBoxes(inner, outer) && IntersectsBoxes(outer, inner)
  {
  }

  /** Two well-formed boxes crossing like a plus sign share a point, yet the
      engine's test reports no intersection in either argument order. */
  lemma CrossingBoxesMissed()
    ensures var wide := BoxCollider(Vector2(0.0, 1.0), Vector2(4.0, 1.0));
            var tall := BoxCollider(Vector2(1.0, 0.0), Vector2(1.0, 4.0));
            && WellFormed(wide) && WellFormed(tall)
            && InBox(wide, Vector2(1.5, 1.5)) && InBox(tall, Vector2(1.5, 1.5))
            && BoxesOverlap(wide, tall)
            && !IntersectsBoxes(wide, tall) && !IntersectsBoxes(tall, wide)
  {
  }

  // ---------------------------------------------------------------------------
  // Circle against box

  function Min(a: real, b: real): real { if a <= b then a else b }
  function Max(a: real, b: real): real { if a >= b then a else b }

  /** `v` clamped into the span from `lo` to `hi`, the lower bound winning
      when the span is empty. */
  function Clamp(lo: real, hi: real, v: real): (r: real)
    ensures lo <= hi ==> lo <= r <= hi
    ensures lo <= v <= hi ==> r == v
  {
    Max(lo, Min(v, hi))
  }

  /** The point of the box nearest to `p`, found axis by axis. */
  function ClosestPoint(box: BoxCollider, p: Vector2): (q: Vector2)
    ensures WellFormed(box) ==> InBox(box, q)
    ensures InBox(box, p) ==> q == p
  {
    Vector2(Clamp(box.position.x, box.position.x + box.size.x, p.x),
            Clamp(box.position.y, box.position.y + box.size.y, p.y))
  }

  /** Circle against box: the centre is strictly closer than the radius to the
      closest point of the box (compared as squares), so a circle of radius
      zero never intersects. */
  function IntersectsCircleBox(circle: CircleCollider, box: BoxCollider): (r: bool)
    ensures r ==> circle.radius != 0.0
  {
    SquaredDistance(circle.centre, ClosestPoint(box, circle.centre)) < circle.radius * circle.radius
  }

  /** A centre inside the box intersects exactly when the radius is not zero. */
  lemma CentreInsideBox(circle: CircleCollider, box: BoxCollider)
    requires InBox(box, circle.centre)
    ensures IntersectsCircleBox(circle, box) <==> circle.radius != 0.0
  {
    if circle.radius != 0.0 {
      calc {
        SquaredDistance(circle.centre, ClosestPoint(box, circle.centre));
        == 0.0;
        < { SquareNonNegative(circle.radius); }
        circle.radius * circle.radius;
      }
    }
  }

  /** On one axis, the clamped coordinate is at least as close to `v` as any
      coordinate `w` inside the span. */
  lemma ClampIsNearest(lo: real, hi: real, v: real, w: real)
    requires lo <= w <= hi
    ensures (v - Clamp(lo, hi, v)) * (v - Clamp(lo, hi, v)) <= (v - w) * (v - w)
  {
    var c := Clamp(lo, hi, v);
    if v < lo {
      assert c == lo;
      NonNegativeProduct(w - lo, w + lo - 2.0 * v);
      assert (v - w) * (v - w) - (v - c) * (v - c) == (w - lo) * (w + lo - 2.0 * v);
    } else if v > hi {
      assert c == hi;
      NonNegativeProduct(hi - w, 2.0 * v - w - hi);
      assert (v - w) * (v - w) - (v - c) * (v - c) == (hi - w) * (2.0 * v - w - hi);
    } else {
      assert c == v;
      SquareNonNegative(v - w);
    }
  }

  /** ClosestPoint is the nearest point of a well-formed box. */
  lemma ClosestPointIsNearest(box: BoxCollider, p: Vector2, q: Vector2)
    requires InBox(box, q)
    ensures SquaredDistance(p, ClosestPoint(box, p)) <= SquaredDistance(p, q)
  {
    ClampIsNearest(box.position.x, box.position.x + box.size.x, p.x, q.x);
    ClampIsNearest(box.position.y, box.position.y + box.size.y, p.y, q.y);
  }

  /** For a well-formed box, circle against box holds exactly when some point
      of the box is strictly within the radius of the centre. */
  lemma CircleBoxIffSomePointWithinRadius(circle: CircleCollider, box: BoxCollider)
    requires WellFormed(box)
    ensures IntersectsCircleBox(circle, box)
        <==> exists q :: InBox(box, q) && SquaredDistance(circle.centre, q) < circle.radius * circle.radius
  {
    var nearest := ClosestPoint(box, circle.centre);
    if IntersectsCircleBox(circle, box) {
      assert InBox(box, nearest);
    }
    forall q | InBox(box, q)
      ensures SquaredDistance(circle.centre, nearest) <= SquaredDistance(circle.centre, q)
    {
      ClosestPointIsNearest(box, circle.centre, q);
    }
  }

  // ---------------------------------------------------------------------------
  // The dispatcher

  /** Picks the test by the pair of shapes. A circle and a box are tested with
      the circle first whichever collider the call is made on. */
  function Intersects(a: Collider, b: Collider): (r: bool)
    ensures a.shape.CircleShape? && b.shape.CircleShape? ==> r == IntersectsCircles(a.shape.circle, b.shape.circle)
    ensures a.shape.BoxShape? && b.shape.BoxShape? ==> r == IntersectsBoxes(a.shape.box, b.shape.box)
    ensures a.shape.CircleShape? && b.shape.BoxShape? ==> r == IntersectsCircleBox(a.shape.circle, b.shape.box)
    ensures a.shape.BoxShape? && b.shape.CircleShape? ==> r == IntersectsCircleBox(b.shape.circle, a.shape.box)
  {
    match (a.shape, b.shape)
    case (CircleShape(ca), CircleShape(cb)) => IntersectsCircles(ca, cb)
    case (CircleShape(ca), BoxShape(bb)) => IntersectsCircleBox(ca, bb)
    case (BoxShape(ba), BoxShape(bb)) => IntersectsBoxes(ba, bb)
    case (BoxShape(ba), CircleShape(cb)) => IntersectsCircleBox(cb, ba)
  }

  /** Every pair except two boxes gives the same answer in either order. */
  lemma IntersectsSymmetricUnlessBoxes(a: Collider, b: Collider)
    requires !(a.shape.BoxShape? && b.shape.BoxShape?)
    ensures Intersects(a, b) == Intersects(b, a)
  {
    if a.shape.CircleShape? && b.shape.CircleShape? {
      IntersectsCirclesSymmetric(a.shape.circle, b.shape.circle);
    }
  }

  /** Two boxes may give different answers in the two orders. */
  lemma IntersectsNotSymmetricForBoxes()
    ensures exists a: Collider, b: Collider :: Intersects(a, b) != Intersects(b, a)
  {
    IntersectsBoxesNotSymmetric();
    var inner := Collider(true, false, DefaultLayer, BoxShape(BoxCollider(Vector2(1.0, 1.0), Vector2(1.0, 1.0))));
    var outer := Collider(true, false, DefaultLayer, BoxShape(BoxCollider(Vector2(0.0, 0.0), Vector2(4.0, 4.0))));
    assert Intersects(inner, outer) != Intersects(outer, inner);
  }

  /** The active and trigger flags and the layer never change the answer. */
  lemma IntersectsIgnoresMetadata(a: Collider, b: Collider, a': Collider, b': Collider)
    requires a.shape == a'.shape && b.shape == b'.shape
    ensures Intersects(a, b) == Intersects(a', b')
  {
  }
}
