/** The joint graph: one record per distinct "from" occurrence, built in one pass over the
    design's joints. */
module JointGraph {
  import opened RobotTypes
  import opened Naming
  import opened Rotation

  /** The `joints` object of the descriptor, keyed by the sanitised "from" occurrence name. */
  type JointMap = map<string, JointRecord>

  /** `to_part`: occurrence one's name without colons, or None when it is missing. */
  function ToPart(j: Joint): (r: Option<string>)
    ensures r.Some? <==> j.occurrenceOne.Some?
    ensures r.Some? ==> ':' !in r.value && |r.value| <= |j.occurrenceOne.value.name|
  {
    match j.occurrenceOne
    case Some(occ) => Some(StripColons(occ.name))
    case None => None
  }

  /** `from_part`: occurrence two's name without colons, or None when it is missing. */
  function FromPart(j: Joint): (r: Option<string>)
    ensures r.Some? <==> j.occurrenceTwo.Some?
    ensures r.Some? ==> ':' !in r.value && |r.value| <= |j.occurrenceTwo.value.name|
  {
    match j.occurrenceTwo
    case Some(occ) => Some(StripColons(occ.name))
    case None => None
  }

  /** The entry a joint contributes to `linked_to`: `str(to_part)`. */
  function LinkText(j: Joint): (r: string)
    ensures ':' !in r
    ensures j.occurrenceOne.None? ==> r == "None"
  {
    PyStr(ToPart(j))
  }

  /** The record a joint creates when its "from" key is new. */
  function NewRecord(j: Joint, id: nat, baseLinkId: string): (r: JointRecord)
    requires j.occurrenceTwo.Some?
    ensures r.id == id && r.origin == j.origin && r.linkedTo == [LinkText(j)]
    ensures r.isRoot <==> j.occurrenceTwo.value.componentId == baseLinkId
    ensures r.rotation.Some? <==> j.jointMotion.RevoluteJointMotion?
    ensures r.constraint.Some? <==> j.jointMotion.RevoluteJointMotion?
  {
    var rec := JointRecord(id, j.occurrenceTwo.value.componentId == baseLinkId, j.origin,
                           [LinkText(j)], None, None);
    match j.jointMotion
    case RevoluteJointMotion(axis, minimum, maximum) =>
      rec.(rotation := Some(GetRotationAxis(axis)),
           constraint := Some(Constraint(ToDegrees(minimum), ToDegrees(maximum))))
    case OtherJointMotion(_) => rec
  }

  /** Processing one joint with counter value `id`. None is the exception raised when the
      joint has no occurrence two: its key None is never present, so the creation branch
      runs and dereferences the missing occurrence. */
  function AddJoint(desc: JointMap, j: Joint, id: nat, baseLinkId: string): (r: Option<JointMap>)
    ensures r.None? <==> j.occurrenceTwo.None?
    ensures r.Some? ==> r.value.Keys == desc.Keys + {FromPart(j).value}
    ensures r.Some? ==> forall k :: k in desc && k != FromPart(j).value ==> r.value[k] == desc[k]
    ensures r.Some? && FromPart(j).value in desc ==>
      var prev := desc[FromPart(j).value];
      r.value[FromPart(j).value] == prev.(linkedTo := prev.linkedTo + [LinkText(j)])
    ensures r.Some? && FromPart(j).value !in desc ==>
      r.value[FromPart(j).value] == NewRecord(j, id, baseLinkId)
  {
    match FromPart(j)
    case None => None
    case Some(k) =>
      if k in desc then Some(desc[k := desc[k].(linkedTo := desc[k].linkedTo + [LinkText(j)])])
      else Some(desc[k := NewRecord(j, id, baseLinkId)])
  }

  /** The joint map after processing `joints` in order, the counter starting at 0; or the
      position of the joint whose missing occurrence two aborts the run. */
  function Built(joints: seq<Joint>, baseLinkId: string): (r: Result<JointMap, RunError>)
    ensures r.Success? <==> forall i :: 0 <= i < |joints| ==> joints[i].occurrenceTwo.Some?
    ensures r.Failure? ==>
      && r.error.JointWithoutOccurrenceTwo?
      && r.error.index < |joints|
      && joints[r.error.index].occurrenceTwo.None?
      && forall i :: 0 <= i < r.error.index ==> joints[i].occurrenceTwo.Some?
    decreases |joints|
  {
    if joints == [] then Success(map[])
    else
      var n := |joints| - 1;
      match Built(joints[..n], baseLinkId)
      case Failure(e) => Failure(e)
      case Success(desc) =>
        match AddJoint(desc, joints[n], n, baseLinkId)
        case None => Failure(JointWithoutOccurrenceTwo(n))
        case Some(desc') => Success(desc')
  }

  /** The joint loop of the exporter: a running counter and a map updated in place. */
  method BuildJoints(joints: seq<Joint>, baseLinkId: string) returns (result: Result<JointMap, RunError>)
    ensures result == Built(joints, baseLinkId)
  {
    var jointsDesc: JointMap := map[];
    var id: nat := 0;
    for i := 0 to |joints|
      invariant id == i
      invariant Built(joints[..i], baseLinkId) == Success(jointsDesc)
    {
      var joint := joints[i];
      assert joints[..i + 1][..i] == joints[..i];
      var toPart := ToPart(joint);
      var fromPart := FromPart(joint);
      if fromPart.Some? && fromPart.value in jointsDesc {
        var rec := jointsDesc[fromPart.value];
        jointsDesc := jointsDesc[fromPart.value := rec.(linkedTo := rec.linkedTo + [PyStr(toPart)])];
      } else {
        if joint.occurrenceTwo.None? {
          // `occ2.component` raises; the top-level handler ends the run
          return Failure(JointWithoutOccurrenceTwo(i));
        }
        var occ2 := joint.occurrenceTwo.value;
        var rec := JointRecord(id, occ2.componentId == baseLinkId, joint.origin, [PyStr(toPart)], None, None);
        match joint.jointMotion {
          case RevoluteJointMotion(axis, minimum, maximum) =>
            rec := rec.(rotation := Some(GetRotationAxis(axis)),
                        constraint := Some(Constraint(ToDegrees(minimum), ToDegrees(maximum))));
          case OtherJointMotion(_) =>
            // unsupported joint type: only a warning is logged
        }
        jointsDesc := jointsDesc[fromPart.value := rec];
      }
      id := id + 1;
    }
    assert joints[..|joints|] == joints;
    result := Success(jointsDesc);
  }
}
