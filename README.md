# SimpleRobotJSON joint graph, in Dafny

SimpleRobotJSON is a Fusion 360 script that exports a robot's kinematic joint graph as a
JSON descriptor. This project models the logic of its `run` function and of
`get_rotation_axis`, with the host objects replaced by plain records:

- **Root lookup**: the components are scanned for the first one named exactly `base_link`;
  without one the run ends with no descriptor.
- **Joint pass**: the joints are visited in the order the host gives them. Each joint's
  occurrence names have their `:` characters removed. The "from" key is occurrence two's
  name; the "to" entry is `str(...)` of occurrence one's name, which is `"None"` when that
  occurrence is missing.
- **Map update**: the first joint with a given "from" key creates its record. The record
  holds the counter value as `id`, `is_root` (occurrence two's component is the base link),
  the joint origin and a one-element `linked_to`. A revolute joint also adds `rotation` and
  `constraint` (the limits in degrees). A later joint with the same key only appends to
  `linked_to`. The counter advances once per joint on every branch, so ids are the
  positions of first occurrences and can skip numbers.
- **Failure**: a joint without occurrence two reaches the creation branch, because `None`
  is never a key. There `occ2.component` raises, and the top-level handler ends the run
  with no descriptor.

Modules:

- `RobotTypes` holds the input records (design, component, occurrence, joint, motion) and the
  output records (joint record, rotation vector, constraint, run error).
- `Naming` holds colon stripping and `str` of an optional name.
- `Rotation` holds the axis vector and the degree conversion.
- `BaseLink` holds the root lookup, as a specification function and as the scanning loop.
- `JointGraph` holds the per-joint step (`AddJoint`), the whole pass as a function (`Built`)
  and the imperative loop `BuildJoints`, which is proved equal to `Built`.
- `JointGraphProperties` characterises the finished map independently of the loop, with the
  `Describes` predicate: its keys are exactly the distinct "from" keys. Each record's id is the
  position of the first joint with its key. Its fields come from that joint. Its `linked_to`
  lists every joint with that key, in traversal order.
- `Exporter.Run` joins the lookup and the pass.
- `Scenarios` works through small concrete designs.

In `Scenarios.SingleRevoluteJoint`, the key and the root test both come from occurrence two.
So a record `A1` linked to `B2`, with `is_root` true, needs `A:1` as occurrence two, in the base
link, and `B:2` as occurrence one.

## Model

| member | source | states |
|---|---|---|
| `Naming.StripColons` | SimpleRobotJSON.py:70-71 | the sanitised name contains no `:` and is no longer than the original |
| `Naming.StripColonsAppend` | SimpleRobotJSON.py:70-71 | sanitising distributes over concatenation, so the kept characters stay in their original order |
| `Naming.StripColonsKeepsOthers` | SimpleRobotJSON.py:70-71 | every character other than `:` keeps its count, and the length drops by exactly the number of colons |
| `Naming.StripColonsIdentity` | SimpleRobotJSON.py:70-71 | a name without colons is used unchanged as key or link |
| `Naming.StripColonsIdempotent` | SimpleRobotJSON.py:70-71 | sanitising an already sanitised name changes nothing |
| `Naming.PyStr` | SimpleRobotJSON.py:79 | definition: `str` of an optional name, the name itself or `"None"` |
| `JointGraph.ToPart` | SimpleRobotJSON.py:70 | `to_part` is present exactly when occurrence one is, and then holds no `:` and is no longer than the occurrence's name |
| `JointGraph.FromPart` | SimpleRobotJSON.py:71 | `from_part` is present exactly when occurrence two is, and then holds no `:` and is no longer than the occurrence's name |
| `JointGraph.LinkText` | SimpleRobotJSON.py:89 | a `linked_to` entry never contains `:`, and is `"None"` when occurrence one is missing |
| `JointGraph.NewRecord` | SimpleRobotJSON.py:81-97 | a new record has the counter value as id, the joint's origin and one link; `is_root` holds exactly when occurrence two's component id is the base link's; `rotation` and `constraint` are present exactly when the joint is revolute |
| `Rotation.GetRotationAxis` | SimpleRobotJSON.py:13-23 | the result is one of (1,0,0), (0,1,0), (0,0,1), (0,0,0); coordinate i is 1 exactly when the direction is the i-th principal axis; it is the zero vector exactly for a non-principal direction |
| `Rotation.ToDegrees` | SimpleRobotJSON.py:95-96 | pi radians convert to 180 degrees, and the conversion keeps the sign |
| `BaseLink.BaseLinkIndex` | SimpleRobotJSON.py:45-49 | the index found names a component called exactly `base_link`, and no earlier component has that name; there is no index exactly when no component has that name |
| `BaseLink.FindBaseLink` | SimpleRobotJSON.py:42-53 | the scan with `break` returns the component at `BaseLinkIndex`, and nothing exactly when there is none |
| `JointGraph.AddJoint` | SimpleRobotJSON.py:63-102 | one joint fails exactly when occurrence two is missing; otherwise the keys grow by its "from" key only, every other record is unchanged, an existing record only gets `str(to_part)` appended to `linked_to`, and a new key gets the record of `NewRecord` |
| `JointGraph.Built` | SimpleRobotJSON.py:57-104 | the pass succeeds exactly when every joint has occurrence two; a failure names the first joint without one |
| `JointGraph.BuildJoints` | SimpleRobotJSON.py:57-104 | the loop with its running counter and in-place map updates returns exactly `Built` of the joints |
| `JointGraphProperties.AddJointDescribes` | SimpleRobotJSON.py:78-97 | one more joint keeps the map an exact description of the joints processed so far |
| `JointGraphProperties.BuiltDescribes` | SimpleRobotJSON.py:62-102 | a successful pass has one key per distinct "from" key; each record's id is the 0-based position of the first joint with that key; `is_root`, origin, rotation and constraint come from that joint, with rotation and constraint present exactly when it is revolute; `linked_to` lists `str(to_part)` of every joint with that key, in traversal order |
| `JointGraphProperties.InsertionOrderIsIdOrder` | SimpleRobotJSON.py:78-102 | a key is present after the first `n` joints exactly when its final id is below `n`, so keys enter the map in ascending id order |
| `JointGraphProperties.IdsDistinct` | SimpleRobotJSON.py:62-102 | records for different keys have different ids |
| `JointGraphProperties.BuiltAppendOnly` | SimpleRobotJSON.py:78-79 | every record present after a prefix of the joints survives to the end with all fields but `linked_to` unchanged, and its earlier `linked_to` is a prefix of the final one |
| `Exporter.Run` | SimpleRobotJSON.py:37-104 | no design fails with `NoActiveDesign`; no `base_link` fails with `MissingBaseLink` before any joint is visited; otherwise the result is the pass over the joints with the base link's id, and a success describes every joint |
| `Scenarios.SingleRevoluteJoint` | SimpleRobotJSON.py:81-97 | one revolute joint about Y from `A:1` (in the base link) to `B:2` gives `A1` with id 0, root, its origin, links `["B2"]`, rotation (0,1,0) and the limits in degrees |
| `Scenarios.SharedFromKey` | SimpleRobotJSON.py:78-102 | a second joint from `A:1` only appends `C3` and its own origin and motion are dropped; the next key gets id 2; a missing occurrence one is linked as `"None"` |
| `Scenarios.MissingOccurrenceTwoAborts` | SimpleRobotJSON.py:81-83 | a joint without occurrence two aborts the pass even after a successful joint |

## Left out

- `create_header`: it reads the document name, version and author attribute from the host
  application; it holds no logic beyond the `'Unknown'` default.
- JSON formatting, the save dialog, the file write and the message boxes: user interface and
  I/O. A failed run is modelled only as a `Failure` value, without traceback text.
- Logging through `app.log`, including the unsupported-joint-type warning: a side effect only.
- Host API casts and object identity: components, occurrences and joints are plain records.
  A found component is assumed truthy in `if not base_link`, as host objects are. Component
  identity is compared through the `id` string, as the code does.
- Key order: the `joints` map is unordered, while the Python dict keeps insertion order for
  `json.dumps`. Nothing is lost, because keys are inserted in ascending id order
  (`JointGraphProperties.InsertionOrderIsIdOrder`), so the written order is recoverable from ids.
- Joint order: the joints arrive as a sequence, and whatever order the host yields is taken as
  given.
- Origin coordinates are copied as exact reals. The `float(...)` conversion is not modelled.
- `Rotation.ToDegrees`: it uses exact real arithmetic with the code's value of pi, so the
  IEEE double rounding of the product is not modelled.
- Exceptions other than the missing occurrence two (host errors while reading joints or
  components): the host is not modelled.
