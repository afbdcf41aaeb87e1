/**
 * Value types shared by the client, the game server and the identity service:
 * optional values, and Unity's `Vector3` with its tolerance-based equality.
 * Float components are idealised as reals (no rounding).
 */
module Base {

  /** A value that may be absent; stands for C#'s `null` references. */
  datatype Option<+T> = None | Some(value: T) {
    function GetOr(default: T): T {
      match this
      case Some(v) => v
      case None => default
    }
  }

  /** A flat JSON object, as a request body: member names to string values. */
  type JsonObject = map<string, string>

  /** Unity's `Vector3`. */
  datatype Vec3 = Vec3(x: real, y: real, z: real)

  /** `Vector3.zero`. */
  const Zero := Vec3(0.0, 0.0, 0.0)

  /** Unity's `Vector3.kEpsilon` squared: two vectors closer than this compare equal. */
  const EqualityToleranceSqr: real := 0.0000000001

  function Square(r: real): (q: real)
    ensures q >= 0.0
  {
    r * r
  }

  /** `(a - b).sqrMagnitude`. */
  function SqrDistance(a: Vec3, b: Vec3): (d: real)
    ensures d >= Square(a.x - b.x) && d >= Square(a.y - b.y) && d >= Square(a.z - b.z)
  {
    Square(a.x - b.x) + Square(a.y - b.y) + Square(a.z - b.z)
  }

  /** Unity's `Vector3 ==`, which compares with a tolerance rather than exactly. */
  predicate ApproxEqual(a: Vec3, b: Vec3) {
    SqrDistance(a, b) < EqualityToleranceSqr
  }

  /** Exact equality implies Unity equality, and a vector with a component at least
      0.00001 away from the other's is never Unity-equal to it. */
  lemma ApproxEqualBounds(a: Vec3, b: Vec3)
    ensures a == b ==> ApproxEqual(a, b)
    ensures Square(a.x - b.x) >= EqualityToleranceSqr ==> !ApproxEqual(a, b)
    ensures Square(a.y - b.y) >= EqualityToleranceSqr ==> !ApproxEqual(a, b)
    ensures Square(a.z - b.z) >= EqualityToleranceSqr ==> !ApproxEqual(a, b)
  {
  }
}
