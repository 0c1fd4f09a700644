/** The engine's small value types and scalar helpers, over exact reals.
    Vector3 and Vector2 are value structs in the engine; Mathf.Sign, Mathf.Abs
    and Mathf.Clamp are the engine's scalar helpers. */
module UnityMath {

  datatype Vec3 = Vec3(x: real, y: real, z: real)

  datatype Vec2 = Vec2(x: real, y: real)

  const Zero: Vec3 := Vec3(0.0, 0.0, 0.0)

  function Add(a: Vec3, b: Vec3): Vec3 {
    Vec3(a.x + b.x, a.y + b.y, a.z + b.z)
  }

  function Sub(a: Vec3, b: Vec3): Vec3 {
    Vec3(a.x - b.x, a.y - b.y, a.z - b.z)
  }

  function Scale(k: real, v: Vec3): Vec3 {
    Vec3(k * v.x, k * v.y, k * v.z)
  }

  /** `v / k` for a non-zero scalar. */
  function Div(v: Vec3, k: real): Vec3
    requires k != 0.0
  {
    Vec3(v.x / k, v.y / k, v.z / k)
  }

  function Dot(a: Vec3, b: Vec3): real {
    a.x * b.x + a.y * b.y + a.z * b.z
  }

  function SqrMagnitude(v: Vec3): real {
    Dot(v, v)
  }

  /** Scalar multiplication kept behind a name, so that proofs treat each
      product as one term. */
  function Product(a: real, b: real): real {
    a * b
  }

  /** Component-wise absolute value. */
  function AbsVec(v: Vec3): Vec3 {
    Vec3(Abs(v.x), Abs(v.y), Abs(v.z))
  }

  function Abs(r: real): real {
    if r < 0.0 then -r else r
  }

  /** Mathf.Sign: 1 for zero and positive values, -1 for negative ones. */
  function Sign(r: real): (s: real)
    ensures s == 1.0 || s == -1.0
    ensures s == 1.0 <==> r >= 0.0
  {
    if r >= 0.0 then 1.0 else -1.0
  }

  /** Mathf.Clamp(value, lo, hi): the lower bound is tested first. */
  function Clamp(value: real, lo: real, hi: real): (r: real)
    ensures lo <= hi ==> lo <= r <= hi
    ensures lo <= value <= hi ==> r == value
    ensures value < lo ==> r == lo
    ensures lo <= value && hi < value ==> r == hi
  {
    if value < lo then lo else if value > hi then hi else value
  }
}
