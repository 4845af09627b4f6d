/** The table's optional custom name and the name it reports. */
module Naming {
  import opened Wrappers

  /** The localisation key reported when there is no custom name. */
  const DefaultName: string := "storageDrawers.container.framingTable"

  /** A name counts as custom when it is set and not empty. */
  predicate HasCustomName(name: Option<string>)
    ensures HasCustomName(name) ==> name.Some? && |name.value| > 0
    ensures name.Some? && name.value != [] ==> HasCustomName(name)
  {
    name.Some? && |name.value| > 0
  }

  /** The reported name: the custom name verbatim, otherwise the default key. */
  function GetName(name: Option<string>): (r: string)
    ensures HasCustomName(name) ==> r == name.value
    ensures !HasCustomName(name) ==> r == DefaultName
    ensures |r| > 0
    ensures r != DefaultName ==> name.Some? && r == name.value
  {
    if HasCustomName(name) then name.value else DefaultName
  }
}
