/** Finding the root component of the robot. */
module BaseLink {
  import opened RobotTypes

  const BaseLinkName: string := "base_link"

  /** Index of the first component named exactly "base_link", if any. */
  function BaseLinkIndex(components: seq<Component>): (r: Option<nat>)
    ensures r.Some? ==> r.value < |components| && components[r.value].name == BaseLinkName
    ensures r.Some? ==> forall i :: 0 <= i < r.value ==> components[i].name != BaseLinkName
    ensures r.None? <==> forall i :: 0 <= i < |components| ==> components[i].name != BaseLinkName
    decreases |components|
  {
    if components == [] then None
    else if components[0].name == BaseLinkName then Some(0)
    else match BaseLinkIndex(components[1..])
      case None => None
      case Some(i) => Some(i + 1)
  }

  /** The scan of `allComponents` that stops at the first "base_link". */
  method FindBaseLink(allComponents: seq<Component>) returns (baseLink: Option<Component>)
    ensures baseLink.None? <==> BaseLinkIndex(allComponents).None?
    ensures baseLink.Some? ==> baseLink.value == allComponents[BaseLinkIndex(allComponents).value]
  {
    baseLink := None;
    for i := 0 to |allComponents|
      invariant baseLink.None?
      invariant forall j :: 0 <= j < i ==> allComponents[j].name != BaseLinkName
    {
      if allComponents[i].name == BaseLinkName {
        baseLink := Some(allComponents[i]);
        break;
      }
    }
  }
}
