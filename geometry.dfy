/** The optional value used for the nullable slots of both controllers, and the set such a slot holds. */
module Options {
  datatype Option<T> = None | Some(value: T)

  /** The items a slot holding at most one item contains. */
  function ActiveSet<Item>(active: Option<Item>): set<Item> {
    match active
    case None => {}
    case Some(item) => {item}
  }
}

/**
  Page-space points, the `computeGradient` predictor shared by both variants,
  and the way JavaScript orders the numbers it produces.
 */
module Geometry {
  import opened Options

  /** A position in page coordinates; y grows downwards, as on screen. */
  datatype Point = Point(x: real, y: real)

  /** The JavaScript number a gradient evaluates to: a finite value, one of
      the two infinities (a vertical line), or NaN (0/0, or an undefined
      operand). */
  datatype Slope = Finite(value: real) | PosInf | NegInf | NaN

  /** JavaScript `a < b` on such numbers: NaN compares false with everything,
      -Infinity lies below and +Infinity above every finite value. */
  predicate Less(a: Slope, b: Slope) {
    match (a, b)
    case (NaN, _) => false
    case (_, NaN) => false
    case (Finite(u), Finite(v)) => u < v
    case (NegInf, other) => !other.NegInf?
    case (Finite(_), other) => other.PosInf?
    case (PosInf, _) => false
  }

  /** JavaScript `a > b`, which is `b < a`. */
  predicate Greater(a: Slope, b: Slope) {
    Less(b, a)
  }

  /** `computeGradient(a, b)`: the slope of the line from `a` to `b`, as
      `(b.y - a.y) / (b.x - a.x)` evaluates in JavaScript. The difference of
      two equal coordinates is +0, so a vertical line gives an infinity signed
      like the rise, and two equal points give NaN. */
  function Gradient(a: Point, b: Point): (g: Slope)
    ensures g.Finite? <==> a.x != b.x
    ensures g.Finite? ==> g.value * (b.x - a.x) == b.y - a.y
    ensures g.PosInf? <==> a.x == b.x && a.y < b.y
    ensures g.NegInf? <==> a.x == b.x && a.y > b.y
    ensures g.NaN? <==> a == b
  {
    var dx, dy := b.x - a.x, b.y - a.y;
    if dx != 0.0 then Finite(dy / dx)
    else if dy > 0.0 then PosInf
    else if dy < 0.0 then NegInf
    else NaN
  }

  /** The gradient from a sample that may still be undefined: reading `x`
      and `y` of an empty object yields `undefined`, and arithmetic on it NaN. */
  function SampleGradient(sample: Option<Point>, corner: Point): Slope {
    match sample
    case None => NaN
    case Some(p) => Gradient(p, corner)
  }

  /** `<` on gradients is a strict partial order, and NaN is incomparable. */
  lemma LessIsStrictOrder(a: Slope, b: Slope, c: Slope)
    ensures !Less(a, a)
    ensures Less(a, b) ==> !Less(b, a)
    ensures Less(a, b) && Less(b, c) ==> Less(a, c)
    ensures a.NaN? ==> !Less(a, b) && !Less(b, a)
    ensures !a.NaN? && !b.NaN? ==> Less(a, b) || a == b || Less(b, a)
  {
  }

  /** Seen from `p`, two corners on one vertical line at distance `d` to the
      right differ in gradient by their vertical distance over `d`. */
  lemma GradientGap(p: Point, first: Point, second: Point)
    requires first.x == second.x && p.x < first.x
    ensures Gradient(p, second).value - Gradient(p, first).value
         == (second.y - first.y) / (first.x - p.x)
  {
  }

  /** If `h / b` exceeds `h / a` for positive `a` and `b`, then `h` is not
      zero and `b` lies on the side of `a` that the sign of `h` says. */
  lemma QuotientOrder(h: real, a: real, b: real)
    requires a > 0.0 && b > 0.0
    ensures h / b > h / a ==> h != 0.0 && (h > 0.0 <==> b < a)
    ensures h / b >= h / a && h > 0.0 ==> b <= a
  {
  }

  /**
    The geometric meaning of the "moving toward the submenu" verdict: two
    reference corners on one vertical edge at x == first.x, both samples
    strictly on the left of that edge. If the gradient towards `first`
    decreased and the gradient towards `second` increased, the two corners are
    distinct, the cursor moved horizontally, and it moved right (toward the
    edge) exactly when `first` is the upper corner.
   */
  lemma ConvergingMovesTowardEdge(prev: Point, cur: Point, first: Point, second: Point)
    requires first.x == second.x
    requires prev.x < first.x && cur.x < first.x
    requires Less(Gradient(cur, first), Gradient(prev, first))
    requires Greater(Gradient(cur, second), Gradient(prev, second))
    ensures first.y != second.y && prev.x != cur.x
    ensures prev.x < cur.x <==> first.y < second.y
  {
    var h := second.y - first.y;
    var a, b := first.x - prev.x, first.x - cur.x;
    GradientGap(prev, first, second);
    GradientGap(cur, first, second);
    assert h / b > h / a;
    QuotientOrder(h, a, b);
  }

  /** The reflection of a point in the vertical axis. */
  function Mirror(p: Point): Point {
    Point(-p.x, p.y)
  }

  /** Reflecting both points in the vertical axis negates a finite gradient. */
  lemma GradientMirror(a: Point, b: Point)
    requires a.x != b.x
    ensures Gradient(Mirror(a), Mirror(b)) == Finite(-Gradient(a, b).value)
  {
  }

  /**
    The same verdict seen with both samples strictly right of a vertical edge
    at x == first.x (a submenu on the left): the cursor moved left, toward
    the edge, exactly when `second` is the upper corner.
   */
  lemma ConvergingMovesTowardLeftEdge(prev: Point, cur: Point, first: Point, second: Point)
    requires first.x == second.x
    requires prev.x > first.x && cur.x > first.x
    requires Less(Gradient(cur, first), Gradient(prev, first))
    requires Greater(Gradient(cur, second), Gradient(prev, second))
    ensures first.y != second.y && prev.x != cur.x
    ensures cur.x < prev.x <==> second.y < first.y
  {
    GradientMirror(cur, first);
    GradientMirror(prev, first);
    GradientMirror(cur, second);
    GradientMirror(prev, second);
    ConvergingMovesTowardEdge(Mirror(prev), Mirror(cur), Mirror(second), Mirror(first));
  }

  /**
    The non-strict form, for a predictor that delays unless a gradient
    strictly moved the wrong way: if the gradient towards the upper corner
    `upper` did not increase and the gradient towards the lower corner `lower`
    did not decrease, the cursor did not move away from the edge.
   */
  lemma NotDivergingMovesTowardEdge(prev: Point, cur: Point, upper: Point, lower: Point)
    requires upper.x == lower.x && upper.y < lower.y
    requires prev.x < upper.x && cur.x < upper.x
    requires !Less(Gradient(prev, upper), Gradient(cur, upper))
    requires !Greater(Gradient(prev, lower), Gradient(cur, lower))
    ensures prev.x <= cur.x
  {
    var h := lower.y - upper.y;
    var a, b := upper.x - prev.x, upper.x - cur.x;
    GradientGap(prev, upper, lower);
    GradientGap(cur, upper, lower);
    assert h / b >= h / a;
    QuotientOrder(h, a, b);
  }
}
