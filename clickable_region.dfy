/** ClickableRegion.cs: an axis-aligned screen rectangle with an id and an edge-inclusive hit test. */
module Regions {
  import opened Vectors

  /** The test of contains: p is rejected when it lies before the origin or past the far edge on either axis. */
  predicate InRect(position: Vec2, size: Vec2, p: Vec2)
  {
    if p.x < position.x || p.y < position.y then false
    else if p.x > position.x + size.x || p.y > position.y + size.y then false
    else true
  }

  /** contains is the closed rectangle [x, x + width] x [y, y + height]. */
  lemma InRectIsClosedRectangle(position: Vec2, size: Vec2, p: Vec2)
    ensures InRect(position, size, p) <==>
      position.x <= p.x <= position.x + size.x && position.y <= p.y <= position.y + size.y
  {
  }

  lemma InRectRejectsBeforeOrigin(position: Vec2, size: Vec2, p: Vec2)
    requires p.x < position.x || p.y < position.y
    ensures !InRect(position, size, p)
  {
  }

  lemma InRectRejectsPastFarEdge(position: Vec2, size: Vec2, p: Vec2)
    requires p.x > position.x + size.x || p.y > position.y + size.y
    ensures !InRect(position, size, p)
  {
  }

  /** With a non-negative size the four corners are inside: the edges belong to the region. */
  lemma InRectContainsCorners(position: Vec2, size: Vec2)
    requires size.x >= 0.0 && size.y >= 0.0
    ensures InRect(position, size, position)
    ensures InRect(position, size, Vec2(position.x + size.x, position.y))
    ensures InRect(position, size, Vec2(position.x, position.y + size.y))
    ensures InRect(position, size, Vec2(position.x + size.x, position.y + size.y))
  {
  }

  /** A negative width or height leaves no point inside. */
  lemma InRectNegativeSizeIsEmpty(position: Vec2, size: Vec2, p: Vec2)
    requires size.x < 0.0 || size.y < 0.0
    ensures !InRect(position, size, p)
  {
  }

  class ClickableRegion {
    var position: Vec2
    var size: Vec2
    var id: int

    /** A fresh region holds the C# field defaults. */
    constructor ()
      ensures position == Zero && size == Zero && id == 0
    {
      position, size, id := Zero, Zero, 0;
    }

    method Initialize(newPosition: Vec2, newSize: Vec2, newId: int)
      modifies this
      ensures position == newPosition && size == newSize && id == newId
    {
      position, size, id := newPosition, newSize, newId;
    }

    method SetSize(newSize: Vec2)
      modifies this
      ensures size == newSize
      ensures position == old(position) && id == old(id)
    {
      size := newSize;
    }

    method SetPosition(newPosition: Vec2)
      modifies this
      ensures position == newPosition
      ensures size == old(size) && id == old(id)
    {
      position := newPosition;
    }

    method GetId() returns (r: int)
      ensures r == id
    {
      r := id;
    }

    method GetSize() returns (r: Vec2)
      ensures r == size
    {
      r := size;
    }

    method GetPosition() returns (r: Vec2)
      ensures r == position
    {
      r := position;
    }

    /** contains: the point lies in the closed rectangle the stored position and size span. */
    predicate Contains(p: Vec2)
      reads this
      ensures Contains(p) <==>
        position.x <= p.x <= position.x + size.x && position.y <= p.y <= position.y + size.y
    {
      InRect(position, size, p)
    }
  }
}
