/** Hit-testing rectangles for the towers and the two buttons (TowerOfHanoi.js, class BoundingBox). */
module Geometry {

  /**
   * An axis-aligned rectangle with its top-left corner at (posX, posY).
   * Coordinates are the canvas offsets of a click, so they are modelled as reals.
   */
  class BoundingBox {
    var posX: real
    var posY: real
    var width: real
    var height: real

    /**
     * The source leaves the four fields undefined until the first layout; every
     * comparison with `undefined` is false there, so such a box contains no point.
     * A zero rectangle has the same effect (see NewBoxHitsNothing).
     */
    constructor ()
      ensures posX == 0.0 && posY == 0.0 && width == 0.0 && height == 0.0
    {
      posX, posY, width, height := 0.0, 0.0, 0.0, 0.0;
    }

    /** Replaces the rectangle; called by the layout code on every resize. */
    method UpdateBounds(x: real, y: real, w: real, h: real)
      modifies this
      ensures posX == x && posY == y && width == w && height == h
    {
      posX, posY, width, height := x, y, w, h;
    }

    /** Strict containment: a point on an edge or a corner is outside. */
    predicate InBounds(px: real, py: real)
      reads this
      ensures InBounds(px, py) ==> width > 0.0 && height > 0.0
      ensures (px <= posX || py <= posY) ==> !InBounds(px, py)
      ensures (posX + width <= px || posY + height <= py) ==> !InBounds(px, py)
    {
      (posX < px && px < posX + width) && (posY < py && py < posY + height)
    }
  }

  /** Points on any of the four edges (and so on the corners) are never hits. */
  lemma BoundaryIsOutside(b: BoundingBox, px: real, py: real)
    requires px == b.posX || px == b.posX + b.width || py == b.posY || py == b.posY + b.height
    ensures !b.InBounds(px, py)
  {
  }

  /** A hit lies strictly between the edges on both axes, and every such point is a hit. */
  lemma InBoundsMeansStrictlyInside(b: BoundingBox, px: real, py: real)
    ensures b.InBounds(px, py) <==>
      b.posX < px < b.posX + b.width && b.posY < py < b.posY + b.height
    ensures b.InBounds(px, py) ==> b.width > 0.0 && b.height > 0.0
  {
  }

  /** A box that has not been laid out, or is degenerate, contains no point. */
  lemma NewBoxHitsNothing(b: BoundingBox, px: real, py: real)
    requires b.width <= 0.0 || b.height <= 0.0
    ensures !b.InBounds(px, py)
  {
  }

  /** After UpdateBounds(x, y, w, h) with a positive size, the centre of the new rectangle is a hit. */
  lemma CentreIsInside(b: BoundingBox)
    requires b.width > 0.0 && b.height > 0.0
    ensures b.InBounds(b.posX + b.width / 2.0, b.posY + b.height / 2.0)
  {
  }

  /**
   * The layout resize computes keeps the undo button clear of every tower: a
   * tower spans the heights from 0.8 H - 360 s to 0.8 H and the button from
   * 20 s to 70 s, where the scale s is at most H / 800, so no point is in both.
   */
  lemma UndoClearOfTowers(tower: BoundingBox, undo: BoundingBox, canvasW: real, canvasH: real, scale: real,
                          px: real, py: real)
    requires canvasW >= 0.0 && canvasH >= 0.0
    requires scale == if canvasH / 800.0 < canvasW / 1200.0 then canvasH / 800.0 else canvasW / 1200.0
    requires tower.posY == canvasH * 0.8 - 360.0 * scale && tower.height == 360.0 * scale
    requires undo.posY == 20.0 * scale && undo.height == 50.0 * scale
    ensures !(tower.InBounds(px, py) && undo.InBounds(px, py))
  {
  }
}
