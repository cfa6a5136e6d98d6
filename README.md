# Container grid registry

A Dafny model of the node and group registry of Spring Data Grid
(`org.springframework.data.grid.support`). The registry has three layers:

- **Container grid** (`Grid.ContainerGrid`): a table from node identifier to
  node. `addNode` inserts only when the identifier is free (the first writer
  wins) and `removeNode` removes only what is there. Each answers whether the
  table changed. Exactly the changes that happened are announced to the grid's
  listeners.
- **Grid with groups** (`GridGroups.ContainerGridGroups`): the same protocol for
  groups in a second table. It adds a reverse lookup from a node identifier to
  a registered group that holds it. It also adds four group-level notifications:
  group added, group removed, node added to a group and node removed from a group.
- **Managed grid with groups** (`ManagedGridGroups.ManagedContainerGridGroups`):
  the rebalancing extension point. Its base behaviour rejects every resize
  request and never has a rebalance plan.

Java's inheritance between the three classes becomes composition. The group
layer owns its node registry as `grid`, and the managed layer owns its group
registry as `registry`. Node operations reached through the group layer are
`ContainerGridGroups.AddNode` and `ContainerGridGroups.RemoveNode`.

The notifications each layer hands to its listener dispatcher are kept in a
ghost log (`events`, `groupsEvents`). The object invariant `Valid()` of each
layer says two things about its log:

- replaying the log from an empty registry rebuilds exactly the current table
  (`NodesAfter`, `GroupsAfter`);
- every entry reports a change that really happened (`Faithful`, `GroupsFaithful`):
  an added entry's identifier was free, and a removed entry was the one stored.

This is the registry's promise that an event is sent if and only if the table
changed. The lemmas derive from it that every entry is stored under its own
identifier, and that the number of added events minus removed events is the
size of the table.

Modules: `Wrappers` (`Option`, standing for Java's `null`), `Keyed` (facts about
tables keyed by their values' own identifiers), `Grid`, `GridGroups`,
`ManagedGridGroups` and `GridClients` (callers showing what the contracts give
over a sequence of calls).

## Model

| member | source | states |
|---|---|---|
| Grid.ContainerGrid.constructor | spring-data-grid-core/src/main/java/org/springframework/data/grid/support/AbstractContainerGrid.java:38-41 | a new grid has no nodes, no listeners and has sent no notification |
| Grid.ContainerGrid.GetNodes | spring-data-grid-core/src/main/java/org/springframework/data/grid/support/AbstractContainerGrid.java:43-46 | the result holds exactly the registered nodes, each under its own identifier, one per identifier |
| Grid.ContainerGrid.GetNode | spring-data-grid-core/src/main/java/org/springframework/data/grid/support/AbstractContainerGrid.java:48-51 | a node is returned exactly when the identifier is registered; it is the stored node and carries that identifier |
| Grid.ContainerGrid.AddNode | spring-data-grid-core/src/main/java/org/springframework/data/grid/support/AbstractContainerGrid.java:53-62 | returns true exactly when the identifier was free; only then is the node stored under its identifier and one node-added event carrying it sent; otherwise the old entry is kept and nothing is sent; listeners unchanged; the invariant is kept |
| Grid.ContainerGrid.RemoveNode | spring-data-grid-core/src/main/java/org/springframework/data/grid/support/AbstractContainerGrid.java:64-74 | returns true exactly when the identifier was registered; the entry is gone afterwards and no other entry changes; exactly one node-removed event carrying the removed node is sent on success, none otherwise |
| Grid.ContainerGrid.AddContainerGridListener | spring-data-grid-core/src/main/java/org/springframework/data/grid/support/AbstractContainerGrid.java:76-79 | appends the listener; the node table and the notifications sent are unchanged |
| Grid.ContainerGrid.NotifyNodeAdded | spring-data-grid-core/src/main/java/org/springframework/data/grid/support/AbstractContainerGrid.java:87-89 | hands exactly one node-added event to the dispatcher and changes nothing else |
| Grid.ContainerGrid.NotifyNodeRemoved | spring-data-grid-core/src/main/java/org/springframework/data/grid/support/AbstractContainerGrid.java:97-99 | hands exactly one node-removed event to the dispatcher and changes nothing else |
| Grid.NodesAfterKeyedById | spring-data-grid-core/src/main/java/org/springframework/data/grid/support/AbstractContainerGrid.java:56 | the table rebuilt from any notification log stores each node under its own identifier |
| Grid.NodeCountFromEvents | spring-data-grid-core/src/main/java/org/springframework/data/grid/support/AbstractContainerGrid.java:53-74 | for a log of real changes, the number of registered nodes is the number of node-added events minus the number of node-removed events |
| Keyed.ValuesOfKeyed | spring-data-grid-core/src/main/java/org/springframework/data/grid/support/AbstractContainerGrid.java:43-46 | a table keyed by its values' own identifiers has exactly one value per key, so the collection of nodes or groups has no duplicates |
| GridGroups.ContainerGridGroups.constructor | spring-data-grid-core/src/main/java/org/springframework/data/grid/support/AbstractContainerGridGroups.java:42-46 | a new grid with groups has no groups, no group listeners, no group notifications and an empty node registry |
| GridGroups.ContainerGridGroups.AddGroup | spring-data-grid-core/src/main/java/org/springframework/data/grid/support/AbstractContainerGridGroups.java:48-57 | returns true exactly when the identifier was free; only then is the group stored and one group-added event sent; otherwise the old group is kept and nothing is sent; the node table and node notifications are unchanged |
| GridGroups.ContainerGridGroups.RemoveGroup | spring-data-grid-core/src/main/java/org/springframework/data/grid/support/AbstractContainerGridGroups.java:59-69 | returns true exactly when the identifier was registered; the entry is gone afterwards; exactly one group-removed event carrying the removed group on success, none otherwise; the node table is unchanged |
| GridGroups.ContainerGridGroups.GetGroup | spring-data-grid-core/src/main/java/org/springframework/data/grid/support/AbstractContainerGridGroups.java:71-74 | a group is returned exactly when the identifier is registered; it is the stored group and carries that identifier |
| GridGroups.ContainerGridGroups.GetGroups | spring-data-grid-core/src/main/java/org/springframework/data/grid/support/AbstractContainerGridGroups.java:76-79 | the result holds exactly the registered groups, one per identifier |
| GridGroups.ContainerGridGroups.GetGroupByNode | spring-data-grid-core/src/main/java/org/springframework/data/grid/support/AbstractContainerGridGroups.java:81-89 | a returned group is registered under its identifier and holds the node; nothing is returned exactly when no registered group holds the node |
| GridGroups.ContainerGridGroups.AddNode | spring-data-grid-core/src/main/java/org/springframework/data/grid/support/AbstractContainerGrid.java:53-62 | a node addition through the group layer changes the node table as the grid's does and leaves the group table and group notifications unchanged |
| GridGroups.ContainerGridGroups.RemoveNode | spring-data-grid-core/src/main/java/org/springframework/data/grid/support/AbstractContainerGrid.java:64-74 | a node removal through the group layer changes the node table as the grid's does and leaves the group table and group notifications unchanged |
| GridGroups.ContainerGridGroups.AddContainerGridGroupsListener | spring-data-grid-core/src/main/java/org/springframework/data/grid/support/AbstractContainerGridGroups.java:91-94 | appends the group listener; the group table and notifications are unchanged |
| GridGroups.ContainerGridGroups.NotifyGroupAdded | spring-data-grid-core/src/main/java/org/springframework/data/grid/support/AbstractContainerGridGroups.java:102-104 | hands exactly one group-added event to the dispatcher and changes nothing else |
| GridGroups.ContainerGridGroups.NotifyGroupRemoved | spring-data-grid-core/src/main/java/org/springframework/data/grid/support/AbstractContainerGridGroups.java:112-114 | hands exactly one group-removed event to the dispatcher and changes nothing else |
| GridGroups.ContainerGridGroups.NotifyNodeAdded | spring-data-grid-core/src/main/java/org/springframework/data/grid/support/AbstractContainerGridGroups.java:123-125 | sends exactly one node-added-to-group event carrying the group and the node; the group table is unchanged and the invariant is kept |
| GridGroups.ContainerGridGroups.NotifyNodeRemoved | spring-data-grid-core/src/main/java/org/springframework/data/grid/support/AbstractContainerGridGroups.java:134-136 | sends exactly one node-removed-from-group event carrying the group and the node; the group table is unchanged and the invariant is kept |
| GridGroups.GroupsAfterKeyedById | spring-data-grid-core/src/main/java/org/springframework/data/grid/support/AbstractContainerGridGroups.java:51 | the group table rebuilt from any notification log stores each group under its own identifier |
| GridGroups.GroupCountFromEvents | spring-data-grid-core/src/main/java/org/springframework/data/grid/support/AbstractContainerGridGroups.java:48-69 | for a log of real changes, the number of registered groups is the number of group-added events minus group-removed events; membership events do not count |
| ManagedGridGroups.ManagedContainerGridGroups.constructor | spring-data-grid-core/src/main/java/org/springframework/data/grid/support/AbstractManagedContainerGridGroups.java:34-35 | a managed grid starts as an empty grid with groups |
| ManagedGridGroups.ManagedContainerGridGroups.SetGroupSize | spring-data-grid-core/src/main/java/org/springframework/data/grid/support/AbstractManagedContainerGridGroups.java:37-40 | every resize request is rejected, for every group and size, and no state changes |
| ManagedGridGroups.ManagedContainerGridGroups.GetGroupsRebalanceData | spring-data-grid-core/src/main/java/org/springframework/data/grid/support/AbstractManagedContainerGridGroups.java:42-45 | there is never a rebalance plan, whatever resize requests came before |
| GridClients.AddNodeTwice | spring-data-grid-core/src/main/java/org/springframework/data/grid/support/AbstractContainerGrid.java:53-62 | adding the same node twice gives true then false, the node is then found, and exactly one node-added event is sent |
| GridClients.RemoveNodeTwice | spring-data-grid-core/src/main/java/org/springframework/data/grid/support/AbstractContainerGrid.java:64-74 | removing a registered node twice gives true then false, the node is then absent, and exactly one node-removed event is sent |
| GridClients.AddThenRemoveNode | spring-data-grid-core/src/main/java/org/springframework/data/grid/support/AbstractContainerGrid.java:53-74 | adding a node with a free identifier and then removing it restores the node table, with one node-added and then one node-removed event |
| GridClients.AddThenRemoveGroupLookup | spring-data-grid-core/src/main/java/org/springframework/data/grid/support/AbstractContainerGridGroups.java:48-89 | for any valid registry, group with a free identifier and node held by that group and by no registered group: after the group is added the reverse lookup returns it; after it is removed the lookup returns nothing and the group table is as before |

## Left out

- Concurrency: the tables are `ConcurrentHashMap`s. Each `putIfAbsent` and `remove` is modelled as one atomic sequential step. Interleavings of concurrent callers are not modelled.
- Listener dispatch: `DefaultContainerGridListener` and `DefaultContainerGridGroupsListener` are not part of this model. A notification is an append to the layer's ghost log. Delivery to each listener, the order among listeners, and what happens when a listener throws are not modelled. The listener lists are kept as sequences only to model registration.
- Null arguments: the `Assert.notNull` guards of `addNode`, `removeNode`, `addGroup` and `removeGroup` are met by typing, since a Dafny datatype value cannot be null. The exception path and its message are not modelled. The same typing rules out the `NullPointerException` that `ConcurrentHashMap` throws for a null key: `getNode(null)` (AbstractContainerGrid.java line 50), `getGroup(null)` (AbstractContainerGridGroups.java line 73), and a node or group whose `getId()` is null (AbstractContainerGrid.java line 56, AbstractContainerGridGroups.java line 51).
- Live views: `getNodes` and `getGroups` return the map's live `values()` view. They are modelled as the set of values at the time of the call.
- `ContainerNode`, `ContainerGroup` and `GroupsRebalanceData` are not part of this model. A node is an identifier plus opaque attributes. A group is an identifier plus a set of member node identifiers, and `hasNode` is membership in that set. The rebalance payload is an opaque type parameter.
- Adding or removing a node within a group is done by concrete group types outside this model. Only the two notifications for it are modelled.
- GridGroups.ContainerGridGroups.GetGroupByNode: returns some registered group holding the node rather than the first one in the hash map's iteration order, because that order is unspecified. When exactly one group holds the node, the result is determined.
- Grid.ContainerGrid.NotifyNodeAdded, Grid.ContainerGrid.NotifyNodeRemoved, GridGroups.ContainerGridGroups.NotifyGroupAdded and GridGroups.ContainerGridGroups.NotifyGroupRemoved: these are protected hooks that a subclass could call on its own. `Valid()` is only promised when they are called from the add and remove operations.
- Concrete rebalancing strategies: none exists in this code.
