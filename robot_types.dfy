/** The records the joint-graph exporter reads from the design and the records it builds.
    Host objects (components, occurrences, joints, joint motions) are replaced by plain values
    holding exactly the fields the exporter consumes. */
module RobotTypes {

  datatype Option<T> = None | Some(value: T)

  datatype Result<T, E> = Success(value: T) | Failure(error: E)

  // ---- Input side: what the design exposes ----

  /** A component of the design tree; `id` is the host's component identity. */
  datatype Component = Component(name: string, id: string)

  /** An occurrence of a component; `componentId` is the id of `occurrence.component`. */
  datatype Occurrence = Occurrence(name: string, componentId: string)

  /** Joint origin coordinates, copied through unchanged. */
  datatype Point = Point(x: real, y: real, z: real)

  datatype JointDirection =
    | XAxisJointDirection
    | YAxisJointDirection
    | ZAxisJointDirection
    | CustomJointDirection

  /** Joint kinds other than revolute. */
  datatype JointType =
    | RigidJointType
    | SliderJointType
    | CylindricalJointType
    | PinSlotJointType
    | PlanarJointType
    | BallJointType

  /** A joint's motion: a revolute motion carries its rotation axis and limits (radians). */
  datatype JointMotion =
    | RevoluteJointMotion(rotationAxis: JointDirection, minimumValue: real, maximumValue: real)
    | OtherJointMotion(jointType: JointType)

  datatype Joint = Joint(
    name: string,
    occurrenceOne: Option<Occurrence>,
    occurrenceTwo: Option<Occurrence>,
    origin: Point,
    jointMotion: JointMotion)

  /** The active design: every component, and every joint in the host's traversal order. */
  datatype Design = Design(allComponents: seq<Component>, allJoints: seq<Joint>)

  // ---- Output side: the joint descriptor ----

  /** A rotation axis as the integer triple written to the descriptor. */
  datatype Vec3 = Vec3(x: int, y: int, z: int)

  /** Rotation limits in degrees. */
  datatype Constraint = Constraint(min: real, max: real)

  /** One entry of the `joints` object; `rotation` and `constraint` are present only
      when the joint that created the entry is revolute. */
  datatype JointRecord = JointRecord(
    id: nat,
    isRoot: bool,
    origin: Point,
    linkedTo: seq<string>,
    rotation: Option<Vec3>,
    constraint: Option<Constraint>)

  /** Why a run ends without a descriptor. */
  datatype RunError =
    | NoActiveDesign
    | MissingBaseLink
    | JointWithoutOccurrenceTwo(index: nat)
}
