/** Plane points and the engine's single-precision scalars, as the UI layer sees them. */
module Vectors {

  /** A screen position or size in pixels (Unity's Vector2). */
  datatype Vec2 = Vec2(x: real, y: real)

  /** Vector2.zero, which the swipe tracker also uses as "no point recorded". */
  const Zero: Vec2 := Vec2(0.0, 0.0)

  /** A float result of an engine computation (a distance, an angle): a number or NaN.
      Every ordered comparison with NaN is false, as in IEEE 754. */
  datatype Float = Num(value: real) | NaN

  predicate Less(a: Float, b: real) { a.Num? && a.value < b }
  predicate AtMost(a: Float, b: real) { a.Num? && a.value <= b }
  predicate Greater(a: Float, b: real) { a.Num? && a.value > b }
}
