/** Small concrete designs and the joint maps they produce. */
module Scenarios {
  import opened RobotTypes
  import opened Naming
  import opened Rotation
  import opened JointGraph

  const Origin0 := Point(1.0, 2.0, 0.0)
  const Origin1 := Point(3.0, 0.0, 0.0)

  /** One revolute joint about Y whose occurrence two, "A:1", belongs to the base link and
      whose occurrence one is "B:2". */
  lemma SingleRevoluteJoint(minimum: real, maximum: real)
    ensures var joint := Joint("Rev1", Some(Occurrence("B:2", "comp-b")), Some(Occurrence("A:1", "comp-base")),
                               Origin0, RevoluteJointMotion(YAxisJointDirection, minimum, maximum));
      Built([joint], "comp-base") == Success(map[
        "A1" := JointRecord(0, true, Origin0, ["B2"], Some(Vec3(0, 1, 0)),
                            Some(Constraint(ToDegrees(minimum), ToDegrees(maximum))))])
  {
    var joint := Joint("Rev1", Some(Occurrence("B:2", "comp-b")), Some(Occurrence("A:1", "comp-base")),
                       Origin0, RevoluteJointMotion(YAxisJointDirection, minimum, maximum));
    assert StripColons("A:1") == "A1" by {
      assert "A:1"[1..] == ":1" && ":1"[1..] == "1";
    }
    assert StripColons("B:2") == "B2" by {
      assert "B:2"[1..] == ":2" && ":2"[1..] == "2";
    }
    assert [joint][..0] == [];
  }

  /** Two joints from "A:1" to "B:2" and then "C:3", then one from "D:4": the second joint
      only extends the links (its own origin and rigid motion are dropped), and the counter
      gives the third joint id 2, so ids skip 1. */
  lemma SharedFromKey()
    ensures var j0 := Joint("J0", Some(Occurrence("B:2", "b")), Some(Occurrence("A:1", "a")), Origin0, OtherJointMotion(RigidJointType));
            var j1 := Joint("J1", Some(Occurrence("C:3", "c")), Some(Occurrence("A:1", "a")), Origin1, OtherJointMotion(SliderJointType));
            var j2 := Joint("J2", None, Some(Occurrence("D:4", "d")), Origin1, OtherJointMotion(RigidJointType));
      Built([j0, j1, j2], "base") == Success(map[
        "A1" := JointRecord(0, false, Origin0, ["B2", "C3"], None, None),
        "D4" := JointRecord(2, false, Origin1, ["None"], None, None)])
  {
    var j0 := Joint("J0", Some(Occurrence("B:2", "b")), Some(Occurrence("A:1", "a")), Origin0, OtherJointMotion(RigidJointType));
    var j1 := Joint("J1", Some(Occurrence("C:3", "c")), Some(Occurrence("A:1", "a")), Origin1, OtherJointMotion(SliderJointType));
    var j2 := Joint("J2", None, Some(Occurrence("D:4", "d")), Origin1, OtherJointMotion(RigidJointType));
    var js := [j0, j1, j2];
    assert StripColons("A:1") == "A1" by { assert "A:1"[1..] == ":1" && ":1"[1..] == "1"; }
    assert StripColons("B:2") == "B2" by { assert "B:2"[1..] == ":2" && ":2"[1..] == "2"; }
    assert StripColons("C:3") == "C3" by { assert "C:3"[1..] == ":3" && ":3"[1..] == "3"; }
    assert StripColons("D:4") == "D4" by { assert "D:4"[1..] == ":4" && ":4"[1..] == "4"; }
    assert js[..2] == [j0, j1] && [j0, j1][..1] == [j0] && [j0][..0] == [];
    var m0 := map["A1" := JointRecord(0, false, Origin0, ["B2"], None, None)];
    assert Built([j0], "base") == Success(m0);
    var m1 := map["A1" := JointRecord(0, false, Origin0, ["B2", "C3"], None, None)];
    assert LinkText(j1) == "C3" && FromPart(j1) == Some("A1");
    assert ["B2"] + ["C3"] == ["B2", "C3"];
    assert "A1" in m0 && m0["A1"].linkedTo == ["B2"];
    assert m0["A1" := m0["A1"].(linkedTo := m0["A1"].linkedTo + [LinkText(j1)])] == m1;
    assert AddJoint(m0, j1, 1, "base") == Some(m1);
    assert Built([j0, j1], "base") == Success(m1);
  }

  /** A joint with no occurrence two aborts the build, even after joints that succeeded. */
  lemma MissingOccurrenceTwoAborts(first: Joint, dangling: Joint)
    requires first.occurrenceTwo.Some? && dangling.occurrenceTwo.None?
    ensures Built([first, dangling], "base") == Failure(JointWithoutOccurrenceTwo(1))
  {
  }
}
