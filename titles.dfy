/** The section titles of the manual that the legacy patcher looks up. */
module Titles {
  const Scope := "Scope"
  const Prerequisites := "Prerequisites"
  const LinksMapping := "Links and Buttons Mapping"
  const TopNav := "Top Navigation"
  const LeftNav := "Left Navigation (Common Signed-out Items)"
  const VideoCard := "Home Feed Video Card"
  const ExampleFlows := "Example Task Flows"
  const FlowA := "Flow A: Search for a Video"
  const FlowB := "Flow B: Open a Video Watch Page"
  const Maintenance := "Maintenance Notes"
  const Build := "Build"
}
