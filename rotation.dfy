/** Rotation data of revolute joints. */
module Rotation {
  import opened RobotTypes

  /** Position (0, 1 or 2) of the principal axis a direction names, if it names one. */
  function AxisIndex(d: JointDirection): Option<nat>
  {
    match d
    case XAxisJointDirection => Some(0)
    case YAxisJointDirection => Some(1)
    case ZAxisJointDirection => Some(2)
    case CustomJointDirection => None
  }

  /** Coordinate `i` of a triple. */
  function Coordinate(v: Vec3, i: nat): int
    requires i < 3
  {
    if i == 0 then v.x else if i == 1 then v.y else v.z
  }

  /** The unit vector of the principal axis the direction names; the zero vector for any
      other direction. */
  function GetRotationAxis(d: JointDirection): (r: Vec3)
    ensures r in {Vec3(1, 0, 0), Vec3(0, 1, 0), Vec3(0, 0, 1), Vec3(0, 0, 0)}
    ensures forall i :: 0 <= i < 3 ==> Coordinate(r, i) == (if AxisIndex(d) == Some(i) then 1 else 0)
    ensures r == Vec3(0, 0, 0) <==> d == CustomJointDirection
  {
    match d
    case XAxisJointDirection => Vec3(1, 0, 0)
    case YAxisJointDirection => Vec3(0, 1, 0)
    case ZAxisJointDirection => Vec3(0, 0, 1)
    case CustomJointDirection => Vec3(0, 0, 0)
  }

  /** The value of pi the exporter multiplies with. */
  const Pi: real := 3.141592653589793

  /** Radians to degrees, `radians * (180.0 / pi)`, in exact arithmetic. */
  function ToDegrees(radians: real): (degrees: real)
    ensures radians == Pi ==> degrees == 180.0
    ensures radians < 0.0 <==> degrees < 0.0
  {
    radians * (180.0 / Pi)
  }
}
