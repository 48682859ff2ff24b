/**
  Positions and the few numeric helpers of the game engine that the core
  uses, over exact reals: a three-component vector, `Mathf.Min`,
  `Mathf.Max` and `Vector3.Lerp` (which clamps its parameter to [0, 1]).
*/
module Vectors {
  datatype Vec3 = Vec3(x: real, y: real, z: real)

  const Zero: Vec3 := Vec3(0.0, 0.0, 0.0)

  function Min(a: real, b: real): (r: real)
    ensures r <= a && r <= b && (r == a || r == b)
  {
    if a <= b then a else b
  }

  function Max(a: real, b: real): (r: real)
    ensures r >= a && r >= b && (r == a || r == b)
  {
    if a >= b then a else b
  }

  /** The parameter of a lerp, clamped to [0, 1]. */
  function Clamp01(t: real): (c: real)
    ensures 0.0 <= c <= 1.0
    ensures 0.0 <= t <= 1.0 ==> c == t
  {
    if t < 0.0 then 0.0 else if t > 1.0 then 1.0 else t
  }

  function LerpCoordinate(a: real, b: real, t: real): real
  {
    a + (b - a) * Clamp01(t)
  }

  /** `Vector3.Lerp(a, b, t)`: the point a fraction `t` of the way from `a` to `b`. */
  function Lerp(a: Vec3, b: Vec3, t: real): Vec3
  {
    Vec3(LerpCoordinate(a.x, b.x, t), LerpCoordinate(a.y, b.y, t), LerpCoordinate(a.z, b.z, t))
  }

  /** A lerp with parameter 1 or more lands exactly on the target, one with 0 or less stays at the start. */
  lemma LerpEnds(a: Vec3, b: Vec3, t: real)
    ensures t >= 1.0 ==> Lerp(a, b, t) == b
    ensures t <= 0.0 ==> Lerp(a, b, t) == a
  {
  }

  /** Each coordinate of a lerp lies between the coordinates of its end points. */
  lemma {:induction false} LerpBetween(a: real, b: real, t: real)
    ensures Min(a, b) <= LerpCoordinate(a, b, t) <= Max(a, b)
  {
    var c := Clamp01(t);
    MulNonNegative((b - a) * (if a <= b then 1.0 else -1.0), c);
    MulNonNegative((b - a) * (if a <= b then 1.0 else -1.0), 1.0 - c);
  }

  /** `p` lies in the box spanned by `a` and `b`, coordinate by coordinate. */
  predicate Between(a: Vec3, b: Vec3, p: Vec3)
  {
    && Min(a.x, b.x) <= p.x <= Max(a.x, b.x)
    && Min(a.y, b.y) <= p.y <= Max(a.y, b.y)
    && Min(a.z, b.z) <= p.z <= Max(a.z, b.z)
  }

  /** A lerp never leaves the box spanned by its end points. */
  lemma LerpStaysBetween(a: Vec3, b: Vec3, t: real)
    ensures Between(a, b, Lerp(a, b, t))
  {
    LerpBetween(a.x, b.x, t);
    LerpBetween(a.y, b.y, t);
    LerpBetween(a.z, b.z, t);
  }

  lemma MulNonNegative(x: real, y: real)
    requires x >= 0.0 && y >= 0.0
    ensures x * y >= 0.0
  {
  }

  lemma MulPositive(x: real, y: real)
    requires x > 0.0 && y > 0.0
    ensures x * y > 0.0
  {
  }
}
