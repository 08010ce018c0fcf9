/**
  The menu rectangle of `src/index.js` and the choice of the two reference
  corners from the configured submenu direction.
 */
module MenuBounds {
  import opened Geometry

  /** The four corners of a block, as `src/index.js` computes them once. */
  datatype Rectangle = Rectangle(topLeft: Point, topRight: Point, bottomLeft: Point, bottomRight: Point)

  /** The reference corners, read as (decreasingCorner, increasingCorner). */
  datatype CornerPair = CornerPair(decreasing: Point, increasing: Point)

  /** The vertical slack added above and below the menu block. */
  const Padding: real := 100.0

  /** The menu block from its page offset and its size, padded vertically. */
  function MenuRectangle(top: real, left: real, width: real, height: real): Rectangle {
    var topLeft := Point(left, top - Padding);
    var topRight := Point(left + width, topLeft.y);
    var bottomLeft := Point(left, top + height + Padding);
    var bottomRight := Point(left + width, bottomLeft.y);
    Rectangle(topLeft, topRight, bottomLeft, bottomRight)
  }

  /** An axis-aligned rectangle whose corners are where their names say. */
  predicate WellFormed(r: Rectangle) {
    && r.topLeft.y == r.topRight.y && r.bottomLeft.y == r.bottomRight.y
    && r.topLeft.x == r.bottomLeft.x && r.topRight.x == r.bottomRight.x
    && r.topLeft.x <= r.topRight.x && r.topLeft.y <= r.bottomLeft.y
  }

  /** The test `shouldChangeActiveMenuItem` applies to the previous sample. */
  predicate Outside(r: Rectangle, p: Point) {
    p.x < r.topLeft.x || p.x > r.bottomRight.x || p.y < r.topLeft.y || p.y > r.bottomRight.y
  }

  /** The `switch (options.submenuDirection)` table; any other value falls
      through to the default, a submenu on the right. */
  function ReferenceCorners(direction: string, r: Rectangle): CornerPair {
    match direction
    case "top" => CornerPair(r.topLeft, r.topRight)
    case "bottom" => CornerPair(r.bottomRight, r.bottomLeft)
    case "left" => CornerPair(r.bottomLeft, r.topLeft)
    case _ => CornerPair(r.topRight, r.bottomRight)
  }

  /**
    The padded menu rectangle is well formed for a non-negative size, spans
    x from `left` to `left + width` and y from `top - 100` to
    `top + height + 100`, and so keeps the element's own box inside.
   */
  lemma MenuRectangleSpan(top: real, left: real, width: real, height: real, p: Point)
    requires width >= 0.0 && height >= 0.0
    ensures WellFormed(MenuRectangle(top, left, width, height))
    ensures !Outside(MenuRectangle(top, left, width, height), p) <==>
              left <= p.x <= left + width && top - 100.0 <= p.y <= top + height + 100.0
    ensures left <= p.x <= left + width && top <= p.y <= top + height ==>
              !Outside(MenuRectangle(top, left, width, height), p)
  {
  }

  /**
    The chosen corners are two corners of the rectangle on the side the
    submenu opens to: the top edge for "top", the bottom edge for "bottom",
    the left edge for "left", and the right edge for every other value. The
    corner whose gradient is expected to decrease is the one met first when
    turning clockwise along that edge.
   */
  lemma ReferenceCornersFaceSubmenu(direction: string, r: Rectangle)
    requires WellFormed(r)
    ensures var c := ReferenceCorners(direction, r);
      && c.decreasing in {r.topLeft, r.topRight, r.bottomLeft, r.bottomRight}
      && c.increasing in {r.topLeft, r.topRight, r.bottomLeft, r.bottomRight}
      && (direction == "top" ==>
            c.decreasing.y == c.increasing.y == r.topLeft.y && c.decreasing.x <= c.increasing.x)
      && (direction == "bottom" ==>
            c.decreasing.y == c.increasing.y == r.bottomLeft.y && c.decreasing.x >= c.increasing.x)
      && (direction == "left" ==>
            c.decreasing.x == c.increasing.x == r.topLeft.x && c.decreasing.y >= c.increasing.y)
      && (direction !in {"top", "bottom", "left"} ==>
            c.decreasing.x == c.increasing.x == r.topRight.x && c.decreasing.y <= c.increasing.y)
  {
  }
}
