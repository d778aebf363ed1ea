/** SimpleSwipe.cs: a swipe tracker that records a start point (Vector2.zero meaning "none recorded") and an
    end point, and on release classifies the stroke as a tap or one of four directions. Vector2.Distance and
    the Atan2 angle of the stroke are engine float computations and enter as inputs; the screen region
    (init, setActive, contains) is graphics and is not modelled. */
module Swipes {
  import opened Vectors

  /** ENUMswipeOutput. */
  datatype Direction = None | Up | Down | Left | Right | Tap

  /** The `if (angle < 0) angle += 360` step: a negative angle is moved up by a full turn; NaN stays NaN. */
  function Normalize(angle: Float): (r: Float)
    ensures r.NaN? <==> angle.NaN?
    ensures angle.Num? && -180.0 <= angle.value <= 180.0 ==> 0.0 <= r.value <= 360.0
    ensures angle.Num? ==> r.value == angle.value || r.value == angle.value + 360.0
  {
    if Less(angle, 0.0) then Num(angle.value + 360.0) else angle
  }

  /** The angle buckets, tried in the source's order; an angle that no comparison accepts (NaN) falls through to
      None. */
  function Bucket(angle: Float): (r: Direction)
    ensures r != Tap
    ensures r == None <==> angle.NaN?
  {
    if AtMost(angle, 45.0) || Greater(angle, 315.0) then Right
    else if AtMost(angle, 135.0) && Greater(angle, 45.0) then Up
    else if AtMost(angle, 225.0) && Greater(angle, 135.0) then Left
    else if AtMost(angle, 315.0) && Greater(angle, 225.0) then Down
    else None
  }

  /** swipeCalcSwipeDirection: a distance strictly below the tap distance is a Tap, whatever the angle; otherwise
      the normalised angle picks the bucket. None comes out exactly when the stroke is no tap and the angle is
      NaN. */
  function Classify(tapDistance: real, distance: Float, angle: Float): (r: Direction)
    ensures r == Tap <==> Less(distance, tapDistance)
    ensures r == None <==> !Less(distance, tapDistance) && angle.NaN?
  {
    if Less(distance, tapDistance) then Tap else Bucket(Normalize(angle))
  }

  /** On an angle already in [0, 360] each bucket is exactly its interval: Right for at most 45 or above 315, Up
      for (45, 135], Left for (135, 225], Down for (225, 315]. */
  lemma BucketsAreExact(a: real)
    requires 0.0 <= a <= 360.0
    ensures Bucket(Num(a)) == Right <==> a <= 45.0 || a > 315.0
    ensures Bucket(Num(a)) == Up <==> 45.0 < a <= 135.0
    ensures Bucket(Num(a)) == Left <==> 135.0 < a <= 225.0
    ensures Bucket(Num(a)) == Down <==> 225.0 < a <= 315.0
  {
  }

  /** Normalisation leaves [0, 360] alone, so on those angles the classifier is the bucket of the angle itself. */
  lemma ClassifyInTurn(tapDistance: real, distance: Float, a: real)
    requires 0.0 <= a <= 360.0
    requires !Less(distance, tapDistance)
    ensures Classify(tapDistance, distance, Num(a)) == Bucket(Num(a))
  {
  }

  /** Atan2 in degrees lies in [-180, 180]: for such an angle a stroke that is no tap always gets one of the four
      directions. A negative angle is classified as the angle a full turn above it. */
  lemma AtanRangeIsAlwaysClassified(tapDistance: real, distance: Float, a: real)
    requires -180.0 <= a <= 180.0
    requires !Less(distance, tapDistance)
    ensures Classify(tapDistance, distance, Num(a)) in {Up, Down, Left, Right}
    ensures a < 0.0 ==> Classify(tapDistance, distance, Num(a)) == Classify(tapDistance, distance, Num(a + 360.0))
  {
  }

  /** Screen y grows upwards, so a stroke straight up (90 degrees) is Up, straight down (-90) is Down, to the
      left (180 or -180) is Left and to the right (0) is Right; the 45-degree diagonal belongs to Right and the
      -135-degree one to Left. */
  lemma ClassifyExamples()
    ensures Classify(10.0, Num(50.0), Num(90.0)) == Up
    ensures Classify(10.0, Num(50.0), Num(-90.0)) == Down
    ensures Classify(10.0, Num(50.0), Num(180.0)) == Left
    ensures Classify(10.0, Num(50.0), Num(-180.0)) == Left
    ensures Classify(10.0, Num(50.0), Num(0.0)) == Right
    ensures Classify(10.0, Num(50.0), Num(45.0)) == Right
    ensures Classify(10.0, Num(50.0), Num(-135.0)) == Left
    ensures Classify(10.0, Num(9.5), Num(90.0)) == Tap
    ensures Classify(10.0, Num(10.0), NaN) == None
  {
  }

  /** Squared distance between two points. */
  function SquaredDistance(p: Vec2, q: Vec2): real
  {
    (q.x - p.x) * (q.x - p.x) + (q.y - p.y) * (q.y - p.y)
  }

  /** When the distance input is the Euclidean distance of the stroke (a non-negative number whose square is the
      squared distance), a stroke is a Tap exactly when its end lies strictly inside the circle of radius
      tapDistance around its start. */
  lemma TapIffWithinRadius(start: Vec2, end: Vec2, tapDistance: real, d: real, angle: Float)
    requires 0.0 <= tapDistance
    requires 0.0 <= d && d * d == SquaredDistance(start, end)
    ensures Classify(tapDistance, Num(d), angle) == Tap <==> SquaredDistance(start, end) < tapDistance * tapDistance
  {
    if d < tapDistance {
      SquareIsMonotone(d, tapDistance);
    } else {
      SquareIsMonotoneOrEqual(tapDistance, d);
    }
  }

  lemma SquareIsMonotone(x: real, y: real)
    requires 0.0 <= x < y
    ensures x * x < y * y
  {
    var xx, xy, yy := x * x, x * y, y * y;
    assert xx <= xy;
    assert xy < yy;
  }

  lemma SquareIsMonotoneOrEqual(x: real, y: real)
    requires 0.0 <= x <= y
    ensures x * x <= y * y
  {
    var xx, xy, yy := x * x, x * y, y * y;
    assert xx <= xy;
    assert xy <= yy;
  }

  /** The tracked points: m_touchPosInitial and m_touchPosEnd. */
  datatype Stroke = Stroke(start: Vec2, end: Vec2)
  {
    /** No start recorded: the sentinel Vector2.zero. */
    predicate Idle()
    {
      start == Zero
    }

    /** onPress: record the touch as start and end only when no start is recorded. */
    function Press(p: Vec2): Stroke
    {
      if start == Zero then Stroke(p, p) else this
    }

    /** onHold: the touch becomes the end point. */
    function Hold(p: Vec2): Stroke
    {
      this.(end := p)
    }

    /** onRelease: classify, then reset both points to zero. */
    function Release(tapDistance: real, distance: Float, angle: Float): (Stroke, Direction)
    {
      (Stroke(Zero, Zero), Classify(tapDistance, distance, angle))
    }
  }

  const Cleared := Stroke(Zero, Zero)

  /** A press on an idle tracker starts a stroke at the touch; a press while a stroke is being tracked changes
      nothing, and nor does any later press. */
  lemma PressStartsOnlyWhenIdle(s: Stroke, p: Vec2, q: Vec2)
    ensures s.Idle() ==> s.Press(p) == Stroke(p, p)
    ensures !s.Idle() ==> s.Press(p) == s
    ensures p != Zero || !s.Idle() ==> s.Press(p).Press(q) == s.Press(p)
  {
  }

  /** The zero-vector sentinel cannot tell "a stroke started exactly at the origin" from "no stroke": after a
      press at the origin, a second press elsewhere restarts the stroke there. */
  lemma PressAtOriginIsForgotten(s: Stroke, q: Vec2)
    requires s.Idle()
    ensures s.Press(Zero).Idle()
    ensures s.Press(Zero).Press(q) == Stroke(q, q)
  {
  }

  /** onHold overwrites only the end point; onRelease leaves the tracker idle and cleared, so the next press
      always starts a new stroke. */
  lemma HoldAndRelease(s: Stroke, p: Vec2, q: Vec2, tapDistance: real, distance: Float, angle: Float)
    ensures s.Hold(p).start == s.start && s.Hold(p).end == p
    ensures s.Release(tapDistance, distance, angle).0 == Cleared
    ensures s.Release(tapDistance, distance, angle).0.Press(q) == Stroke(q, q)
    ensures s.Release(tapDistance, distance, angle).1 == Classify(tapDistance, distance, angle)
  {
  }

  /** A run of onHold calls, one per frame. */
  function HoldAll(s: Stroke, ps: seq<Vec2>): Stroke
    decreases |ps|
  {
    if ps == [] then s else HoldAll(s.Hold(ps[0]), ps[1..])
  }

  /** Holding through any number of frames keeps the start point and leaves the end at the last touch. */
  lemma {:induction false} HoldAllKeepsStart(s: Stroke, ps: seq<Vec2>)
    ensures HoldAll(s, ps).start == s.start
    ensures HoldAll(s, ps).end == if ps == [] then s.end else ps[|ps| - 1]
    decreases |ps|
  {
    if ps != [] {
      HoldAllKeepsStart(s.Hold(ps[0]), ps[1..]);
    }
  }

  class SimpleSwipe {
    /** u_tapDistance, set in the editor. */
    const tapDistance: real
    var touchPosInitial: Vec2
    var touchPosEnd: Vec2

    function Value(): Stroke
      reads this
    {
      Stroke(touchPosInitial, touchPosEnd)
    }

    /** Both points start as Vector2.zero. */
    constructor (tap: real)
      ensures tapDistance == tap && Value() == Cleared
    {
      tapDistance := tap;
      touchPosInitial, touchPosEnd := Zero, Zero;
    }

    method OnPress(touchPos: Vec2)
      modifies this
      ensures Value() == old(Value()).Press(touchPos)
    {
      if touchPosInitial == Zero {
        touchPosInitial := touchPos;
        touchPosEnd := touchPosInitial;
      }
    }

    method OnHold(touchPos: Vec2)
      modifies this
      ensures Value() == old(Value()).Hold(touchPos)
    {
      touchPosEnd := touchPos;
    }

    /** onRelease, with the distance between the tracked points and the Atan2 angle of the stroke in degrees. */
    method OnRelease(distance: Float, angle: Float) returns (r: Direction)
      modifies this
      ensures (Value(), r) == old(Value()).Release(tapDistance, distance, angle)
    {
      r := CalcSwipeDirection(distance, angle);
      touchPosInitial := Zero;
      touchPosEnd := Zero;
    }

    method CalcSwipeDirection(distance: Float, rawAngle: Float) returns (r: Direction)
      ensures r == Classify(tapDistance, distance, rawAngle)
    {
      r := None;
      if Less(distance, tapDistance) {
        return Tap;
      }
      var angle := rawAngle;
      if Less(angle, 0.0) {
        angle := Num(angle.value + 360.0);
      }
      if AtMost(angle, 45.0) || Greater(angle, 315.0) {
        r := Right;
      } else if AtMost(angle, 135.0) && Greater(angle, 45.0) {
        r := Up;
      } else if AtMost(angle, 225.0) && Greater(angle, 135.0) {
        r := Left;
      } else if AtMost(angle, 315.0) && Greater(angle, 225.0) {
        r := Down;
      }
    }
  }
}
