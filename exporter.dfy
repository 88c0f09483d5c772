/** The exporter's run, up to the point where the joint map is complete. Building the header,
    JSON formatting, the save dialog and the file write are not part of this model. */
module Exporter {
  import opened RobotTypes
  import opened BaseLink
  import opened JointGraph
  import opened JointGraphProperties

  /** `run`: no design, no "base_link" component and a joint without occurrence two each end
      the run with no descriptor; otherwise the joint map describes every joint. */
  method Run(design: Option<Design>) returns (result: Result<JointMap, RunError>)
    ensures design.None? ==> result == Failure(NoActiveDesign)
    ensures design.Some? && BaseLinkIndex(design.value.allComponents).None? ==>
      result == Failure(MissingBaseLink)
    ensures design.Some? && BaseLinkIndex(design.value.allComponents).Some? ==>
      var baseLink := design.value.allComponents[BaseLinkIndex(design.value.allComponents).value];
      && result == Built(design.value.allJoints, baseLink.id)
      && (result.Success? ==> Describes(result.value, design.value.allJoints, baseLink.id))
  {
    if design.None? {
      return Failure(NoActiveDesign);
    }
    var des := design.value;
    var baseLink := FindBaseLink(des.allComponents);
    if baseLink.None? {
      return Failure(MissingBaseLink);
    }
    result := BuildJoints(des.allJoints, baseLink.value.id);
    if result.Success? {
      BuiltDescribes(des.allJoints, baseLink.value.id);
    }
  }
}
