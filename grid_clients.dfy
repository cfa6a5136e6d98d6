/** Callers of the registry, showing what the contracts of the node and
    group operations let a caller conclude about a sequence of calls. */
module GridClients {
  import opened Wrappers
  import opened Grid
  import opened GridGroups

  /** Adding the same node twice: the first call wins, the second is refused,
      and listeners hear of the node exactly once. */
  method AddNodeTwice<NID(==), A(==), L>(grid: ContainerGrid<NID, A, L>, node: ContainerNode<NID, A>)
    returns (first: bool, second: bool)
    requires grid.Valid() && node.id !in grid.nodes
    modifies grid
    ensures grid.Valid()
    ensures first && !second
    ensures grid.GetNode(node.id) == Some(node)
    ensures grid.events == old(grid.events) + [NodeAdded(node)]
  {
    first := grid.AddNode(node);
    second := grid.AddNode(node);
  }

  /** Removing a registered node twice: the first call removes it and
      announces it once, the second finds nothing, and the node is gone. */
  method RemoveNodeTwice<NID(==), A(==), L>(grid: ContainerGrid<NID, A, L>, id: NID)
    returns (first: bool, second: bool)
    requires grid.Valid() && id in grid.nodes
    modifies grid
    ensures grid.Valid()
    ensures first && !second
    ensures grid.GetNode(id) == None
    ensures grid.events == old(grid.events) + [NodeRemoved(old(grid.nodes)[id])]
  {
    first := grid.RemoveNode(id);
    second := grid.RemoveNode(id);
  }

  /** Adding a node whose identifier is free and then removing it restores
      the node table; listeners hear of the node coming and then going. */
  method AddThenRemoveNode<NID(==), A(==), L>(grid: ContainerGrid<NID, A, L>, node: ContainerNode<NID, A>)
    returns (added: bool, removed: bool)
    requires grid.Valid() && node.id !in grid.nodes
    modifies grid
    ensures grid.Valid()
    ensures added && removed
    ensures grid.nodes == old(grid.nodes)
    ensures grid.events == old(grid.events) + [NodeAdded(node), NodeRemoved(node)]
  {
    added := grid.AddNode(node);
    removed := grid.RemoveNode(node.id);
  }

  /** Registering a group that holds node `nid`, where no registered group
      held it before: the reverse lookup finds that group; after the group is
      removed again it finds nothing, and the group table is as it was. */
  method AddThenRemoveGroupLookup<GID(==), NID(==), A(==), L, GL>(
    registry: ContainerGridGroups<GID, NID, A, L, GL>, group: ContainerGroup<GID, NID>, nid: NID)
    returns (before: Option<ContainerGroup<GID, NID>>, after: Option<ContainerGroup<GID, NID>>)
    requires registry.Valid()
    requires group.id !in registry.groups && group.HasNode(nid) && !HeldBySome(registry.groups, nid)
    modifies registry
    ensures registry.Valid()
    ensures before == Some(group) && after == None
    ensures registry.groups == old(registry.groups)
  {
    var added := registry.AddGroup(group);
    assert registry.groups[group.id].HasNode(nid);
    before := registry.GetGroupByNode(nid);
    var removed := registry.RemoveGroup(group.id);
    after := registry.GetGroupByNode(nid);
  }
}
