/** The rebalancing extension point of a grid with groups. The base layer
    accepts no resize request and has no rebalance plan to offer; a concrete
    rebalancing strategy would replace both. */
module ManagedGridGroups {
  import opened Wrappers
  import GridGroups

  /** Java's `int`, the type of a requested group size. */
  newtype int32 = x: int | -0x8000_0000 <= x < 0x8000_0000

  /** A grid with groups whose sizes may be managed. The tables, listeners
      and notifications are those of `registry`; this layer adds no state of
      its own, so no target size survives a call. */
  class ManagedContainerGridGroups<GID(==), NID(==), A(==), L, GL, GRD> {
    const registry: GridGroups.ContainerGridGroups<GID, NID, A, L, GL>

    constructor ()
      ensures registry.Valid() && fresh(registry) && fresh(registry.grid)
      ensures registry.groups == map[] && registry.groupsListeners == [] && registry.groupsEvents == []
      ensures registry.grid.nodes == map[] && registry.grid.gridListeners == [] && registry.grid.events == []
    {
      registry := new GridGroups.ContainerGridGroups();
    }

    /** Asks for group `id` to hold `size` nodes. The base layer rejects
        every request, whatever the group and the size, and being a function
        of its arguments alone it changes neither table nor any log. */
    function SetGroupSize(id: GID, size: int32): (accepted: bool)
      ensures !accepted
    {
      false
    }

    /** The current rebalance plan: the base layer never has one, whatever
        was requested through `SetGroupSize` before. */
    function GetGroupsRebalanceData(): (data: Option<GRD>)
      ensures data.None?
    {
      None
    }
  }
}
