/** Engine values the three components handle, with the engine itself abstracted away. */
module Engine {

  /** Identity of a scene object (a GameObject, or a component living on one).
      Equality is the engine's reference equality. */
  type ObjId = nat

  datatype Vec3 = Vec3(x: real, y: real, z: real)

  /** A rotation, kept as the four quaternion components the engine stores. */
  datatype Quat = Quat(x: real, y: real, z: real, w: real)

  datatype Option<T> = None | Some(value: T)

  function DistanceSq(a: Vec3, b: Vec3): real
  {
    (a.x - b.x) * (a.x - b.x) + (a.y - b.y) * (a.y - b.y) + (a.z - b.z) * (a.z - b.z)
  }

  /** `Vector3.Distance(a, b) < limit`, decided without a square root:
      a distance is never negative, so it is below `limit` exactly when
      `limit` is positive and the squared distance is below `limit * limit`. */
  predicate CloserThan(a: Vec3, b: Vec3, limit: real)
  {
    0.0 < limit && DistanceSq(a, b) < limit * limit
  }

  /** With `d` the distance from a to b (`d * d` the squared distance), CloserThan is the
      comparison `d < limit` the engine makes. */
  lemma CloserThanIsDistance(a: Vec3, b: Vec3, limit: real, d: real)
    requires 0.0 <= d && d * d == DistanceSq(a, b)
    ensures CloserThan(a, b, limit) <==> d < limit
  {
    var gap := limit - d;
    assert limit * limit - d * d == gap * (limit + d);
    if d < limit {
      assert 0.0 < gap && 0.0 < limit + d;
      assert 0.0 < gap * (limit + d);
    } else if 0.0 < limit {
      assert gap <= 0.0 && 0.0 < limit + d;
      assert gap * (limit + d) <= 0.0;
    }
  }

  /** `Mathf.Clamp01`, as `Vector3.Lerp` applies it to its fraction. */
  function Clamp01(t: real): (c: real)
    ensures 0.0 <= c <= 1.0
    ensures 0.0 <= t <= 1.0 ==> c == t
    ensures t < 0.0 ==> c == 0.0
    ensures t > 1.0 ==> c == 1.0
  {
    if t < 0.0 then 0.0 else if t > 1.0 then 1.0 else t
  }

  /** `Vector3.Lerp(a, b, t)`: the point a fraction `t` (clamped to [0, 1]) of the way from a to b. */
  function Lerp(a: Vec3, b: Vec3, t: real): (r: Vec3)
    ensures t <= 0.0 ==> r == a
    ensures t >= 1.0 ==> r == b
    ensures a == b ==> r == a
  {
    var c := Clamp01(t);
    Vec3(a.x + (b.x - a.x) * c, a.y + (b.y - a.y) * c, a.z + (b.z - a.z) * c)
  }
}
