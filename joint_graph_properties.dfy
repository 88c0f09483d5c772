/** What the joint map built from a sequence of joints contains, stated independently of
    the order in which the loop builds it. */
module JointGraphProperties {
  import opened RobotTypes
  import opened Naming
  import opened Rotation
  import opened JointGraph

  /** `str(to_part)` of every joint whose "from" key is `k`, in traversal order. */
  function LinksOf(joints: seq<Joint>, k: string): seq<string>
    decreases |joints|
  {
    if joints == [] then []
    else (if FromPart(joints[0]) == Some(k) then [LinkText(joints[0])] else []) + LinksOf(joints[1..], k)
  }

  /** `r` is the record for key `k`: its id is the position of the first joint with that key,
      its root flag, origin, rotation and constraint come from that joint, and its links list
      every joint with that key. */
  ghost predicate RecordDescribes(r: JointRecord, joints: seq<Joint>, k: string, baseLinkId: string)
  {
    && r.id < |joints|
    && FromPart(joints[r.id]) == Some(k)
    && (forall i :: 0 <= i < r.id ==> FromPart(joints[i]) != Some(k))
    && r.isRoot == (joints[r.id].occurrenceTwo.value.componentId == baseLinkId)
    && r.origin == joints[r.id].origin
    && r.linkedTo == LinksOf(joints, k)
    && (r.rotation.Some? <==> joints[r.id].jointMotion.RevoluteJointMotion?)
    && (r.constraint.Some? <==> joints[r.id].jointMotion.RevoluteJointMotion?)
    && (joints[r.id].jointMotion.RevoluteJointMotion? ==>
          var motion := joints[r.id].jointMotion;
          && r.rotation.value == GetRotationAxis(motion.rotationAxis)
          && r.constraint.value == Constraint(ToDegrees(motion.minimumValue), ToDegrees(motion.maximumValue)))
  }

  /** `m` holds exactly one record per distinct "from" key of `joints`, each as above. */
  ghost predicate Describes(m: JointMap, joints: seq<Joint>, baseLinkId: string)
  {
    && (forall k :: k in m <==> exists i :: 0 <= i < |joints| && FromPart(joints[i]) == Some(k))
    && (forall k :: k in m ==> RecordDescribes(m[k], joints, k, baseLinkId))
  }

  lemma {:induction false} LinksOfSnoc(joints: seq<Joint>, j: Joint, k: string)
    ensures LinksOf(joints + [j], k) ==
            LinksOf(joints, k) + (if FromPart(j) == Some(k) then [LinkText(j)] else [])
    decreases |joints|
  {
    if joints == [] {
      assert joints + [j] == [j];
    } else {
      assert (joints + [j])[1..] == joints[1..] + [j];
      LinksOfSnoc(joints[1..], j, k);
    }
  }

  lemma {:induction false} LinksOfAbsent(joints: seq<Joint>, k: string)
    requires forall i :: 0 <= i < |joints| ==> FromPart(joints[i]) != Some(k)
    ensures LinksOf(joints, k) == []
    decreases |joints|
  {
    if joints != [] {
      LinksOfAbsent(joints[1..], k);
    }
  }

  /** A non-empty build is the build of all but the last joint, followed by one step. */
  lemma BuiltStep(joints: seq<Joint>, baseLinkId: string)
    requires |joints| > 0 && Built(joints, baseLinkId).Success?
    ensures Built(joints[..|joints| - 1], baseLinkId).Success?
    ensures AddJoint(Built(joints[..|joints| - 1], baseLinkId).value, joints[|joints| - 1], |joints| - 1, baseLinkId)
         == Some(Built(joints, baseLinkId).value)
  {
  }

  /** An existing record stays correct when a joint is appended: only its links grow. */
  lemma RecordAfterJoint(r: JointRecord, pre: seq<Joint>, last: Joint, k: string, baseLinkId: string)
    requires RecordDescribes(r, pre, k, baseLinkId)
    ensures RecordDescribes(r.(linkedTo := LinksOf(pre + [last], k)), pre + [last], k, baseLinkId)
  {
  }

  /** The record a joint creates for a key no earlier joint has is correct. */
  lemma NewRecordDescribes(pre: seq<Joint>, last: Joint, baseLinkId: string)
    requires last.occurrenceTwo.Some?
    requires forall i :: 0 <= i < |pre| ==> FromPart(pre[i]) != FromPart(last)
    ensures var k := FromPart(last).value;
      RecordDescribes(NewRecord(last, |pre|, baseLinkId), pre + [last], k, baseLinkId)
  {
    var k := FromPart(last).value;
    LinksOfAbsent(pre, k);
    LinksOfSnoc(pre, last, k);
    assert forall i :: 0 <= i < |pre| ==> (pre + [last])[i] == pre[i];
  }

  /** The keys after one more joint are the keys before plus its "from" key. */
  lemma KeysAfterJoint(m0: JointMap, m: JointMap, pre: seq<Joint>, last: Joint, baseLinkId: string)
    requires forall k :: k in m0 <==> exists i :: 0 <= i < |pre| && FromPart(pre[i]) == Some(k)
    requires AddJoint(m0, last, |pre|, baseLinkId) == Some(m)
    ensures forall k :: k in m <==> exists i :: 0 <= i < |pre + [last]| && FromPart((pre + [last])[i]) == Some(k)
  {
    var joints := pre + [last];
    forall k
      ensures k in m <==> exists i :: 0 <= i < |joints| && FromPart(joints[i]) == Some(k)
    {
      if k in m {
        if k == FromPart(last).value {
          assert FromPart(joints[|pre|]) == Some(k);
        } else {
          var i :| 0 <= i < |pre| && FromPart(pre[i]) == Some(k);
          assert joints[i] == pre[i];
        }
      }
      if exists i :: 0 <= i < |joints| && FromPart(joints[i]) == Some(k) {
        var i :| 0 <= i < |joints| && FromPart(joints[i]) == Some(k);
        if i < |pre| {
          assert pre[i] == joints[i];
        }
      }
    }
  }

  /** One step keeps the map describing the joints processed so far. */
  lemma AddJointDescribes(m0: JointMap, m: JointMap, joints: seq<Joint>, baseLinkId: string)
    requires |joints| > 0
    requires Describes(m0, joints[..|joints| - 1], baseLinkId)
    requires AddJoint(m0, joints[|joints| - 1], |joints| - 1, baseLinkId) == Some(m)
    ensures Describes(m, joints, baseLinkId)
  {
    var pre, last := joints[..|joints| - 1], joints[|joints| - 1];
    assert joints == pre + [last];
    KeysAfterJoint(m0, m, pre, last, baseLinkId);
    var key := FromPart(last).value;
    forall k | k in m
      ensures RecordDescribes(m[k], pre + [last], k, baseLinkId)
    {
      LinksOfSnoc(pre, last, k);
      if k in m0 {
        RecordAfterJoint(m0[k], pre, last, k, baseLinkId);
      } else {
        forall i | 0 <= i < |pre|
          ensures FromPart(pre[i]) != FromPart(last)
        {
          assert FromPart(pre[i]) == Some(k) ==> k in m0;
        }
        NewRecordDescribes(pre, last, baseLinkId);
      }
    }
  }

  /** Every successful build describes its joints. */
  lemma {:induction false} BuiltDescribes(joints: seq<Joint>, baseLinkId: string)
    requires Built(joints, baseLinkId).Success?
    ensures Describes(Built(joints, baseLinkId).value, joints, baseLinkId)
    decreases |joints|
  {
    if joints != [] {
      var pre := joints[..|joints| - 1];
      BuiltStep(joints, baseLinkId);
      BuiltDescribes(pre, baseLinkId);
      AddJointDescribes(Built(pre, baseLinkId).value, Built(joints, baseLinkId).value, joints, baseLinkId);
    }
  }

  /** Distinct keys get distinct ids. */
  lemma IdsDistinct(m: JointMap, joints: seq<Joint>, baseLinkId: string, k1: string, k2: string)
    requires Describes(m, joints, baseLinkId)
    requires k1 in m && k2 in m && k1 != k2
    ensures m[k1].id != m[k2].id
  {
  }

  /** Later joints only add keys and append to `linked_to`: every record of a prefix's map
      survives with the same fields and its links as a prefix of the final links. */
  lemma {:induction false} BuiltAppendOnly(joints: seq<Joint>, n: nat, baseLinkId: string)
    requires n <= |joints|
    requires Built(joints, baseLinkId).Success?
    ensures Built(joints[..n], baseLinkId).Success?
    ensures var m0, m := Built(joints[..n], baseLinkId).value, Built(joints, baseLinkId).value;
      forall k :: k in m0 ==>
        && k in m
        && m[k] == m0[k].(linkedTo := m[k].linkedTo)
        && m0[k].linkedTo <= m[k].linkedTo
    decreases |joints| - n
  {
    if n < |joints| {
      var pre := joints[..|joints| - 1];
      assert pre[..n] == joints[..n];
      BuiltStep(joints, baseLinkId);
      BuiltAppendOnly(pre, n, baseLinkId);
    } else {
      assert joints[..n] == joints;
    }
  }

  /** Keys enter the map in ascending id order: the keys present after the first `n` joints
      have ids below `n`, and every key added later has an id of at least `n`. */
  lemma InsertionOrderIsIdOrder(joints: seq<Joint>, n: nat, baseLinkId: string, k: string)
    requires n <= |joints|
    requires Built(joints, baseLinkId).Success?
    requires k in Built(joints, baseLinkId).value
    ensures Built(joints[..n], baseLinkId).Success?
    ensures k in Built(joints[..n], baseLinkId).value <==> Built(joints, baseLinkId).value[k].id < n
  {
    var m := Built(joints, baseLinkId).value;
    BuiltAppendOnly(joints, n, baseLinkId);
    BuiltDescribes(joints, baseLinkId);
    BuiltDescribes(joints[..n], baseLinkId);
    var m0 := Built(joints[..n], baseLinkId).value;
    assert RecordDescribes(m[k], joints, k, baseLinkId);
    assert k in m0 ==> RecordDescribes(m0[k], joints[..n], k, baseLinkId);
    assert m[k].id < n ==> joints[..n][m[k].id] == joints[m[k].id];
  }
}
