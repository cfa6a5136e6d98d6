/** The group layer of a container grid: a second table, from group
    identifier to group, with the same put-if-absent and remove-if-present
    protocol as the node table, a reverse lookup from a node to a group that
    holds it, and a dispatcher for group-level notifications. */
module GridGroups {
  import opened Wrappers
  import Keyed
  import opened Grid

  /** A group: an identifier that never changes once the group is
      registered, and the identifiers of the nodes it holds. */
  datatype ContainerGroup<GID, NID> = ContainerGroup(id: GID, members: set<NID>)
  {
    predicate HasNode(nid: NID)
    {
      nid in members
    }
  }

  function GroupId<GID, NID>(group: ContainerGroup<GID, NID>): GID
  {
    group.id
  }

  /** What the group layer tells its listeners. */
  datatype GroupsEvent<GID, NID, A> =
    | GroupAdded(group: ContainerGroup<GID, NID>)
    | GroupRemoved(group: ContainerGroup<GID, NID>)
    | NodeAddedToGroup(group: ContainerGroup<GID, NID>, node: ContainerNode<NID, A>)
    | NodeRemovedFromGroup(group: ContainerGroup<GID, NID>, node: ContainerNode<NID, A>)

  /** The change that a listener reads off one event; the two membership
      events leave the group table as it is. */
  function ApplyGroupsEvent<GID, NID, A>(groups: map<GID, ContainerGroup<GID, NID>>, event: GroupsEvent<GID, NID, A>): map<GID, ContainerGroup<GID, NID>>
  {
    match event
    case GroupAdded(group) => groups[group.id := group]
    case GroupRemoved(group) => groups - {group.id}
    case _ => groups
  }

  /** An event describes a change that really happened to `groups`: the
      added group's identifier was free, the removed group was the one
      stored. Nothing is demanded of the membership events. */
  predicate DescribesGroups<GID, NID(==), A>(groups: map<GID, ContainerGroup<GID, NID>>, event: GroupsEvent<GID, NID, A>)
  {
    match event
    case GroupAdded(group) => group.id !in groups
    case GroupRemoved(group) => group.id in groups && groups[group.id] == group
    case _ => true
  }

  /** The group table a listener rebuilds from an empty grid by applying, in
      order, every event it was sent. */
  ghost function GroupsAfter<GID, NID, A>(events: seq<GroupsEvent<GID, NID, A>>): map<GID, ContainerGroup<GID, NID>>
  {
    if events == [] then map[]
    else ApplyGroupsEvent(GroupsAfter(events[..|events| - 1]), events[|events| - 1])
  }

  ghost predicate GroupsFaithful<GID, NID, A>(events: seq<GroupsEvent<GID, NID, A>>)
  {
    events == [] ||
    (GroupsFaithful(events[..|events| - 1]) &&
     DescribesGroups(GroupsAfter(events[..|events| - 1]), events[|events| - 1]))
  }

  ghost function GroupsAddedCount<GID, NID, A>(events: seq<GroupsEvent<GID, NID, A>>): nat
  {
    if events == [] then 0
    else GroupsAddedCount(events[..|events| - 1]) + (if events[|events| - 1].GroupAdded? then 1 else 0)
  }

  ghost function GroupsRemovedCount<GID, NID, A>(events: seq<GroupsEvent<GID, NID, A>>): nat
  {
    if events == [] then 0
    else GroupsRemovedCount(events[..|events| - 1]) + (if events[|events| - 1].GroupRemoved? then 1 else 0)
  }

  lemma AppendGroupsEvent<GID, NID, A>(events: seq<GroupsEvent<GID, NID, A>>, event: GroupsEvent<GID, NID, A>)
    ensures GroupsAfter(events + [event]) == ApplyGroupsEvent(GroupsAfter(events), event)
    ensures GroupsFaithful(events + [event]) <==> GroupsFaithful(events) && DescribesGroups(GroupsAfter(events), event)
  {
  }

  /** However the log came about, the rebuilt table stores each group under
      its own identifier. */
  lemma {:induction false} GroupsAfterKeyedById<GID, NID, A>(events: seq<GroupsEvent<GID, NID, A>>)
    ensures Keyed.KeyedBy(GroupsAfter(events), GroupId)
  {
    if events != [] {
      GroupsAfterKeyedById(events[..|events| - 1]);
    }
  }

  /** A listener that only counts group-added and group-removed events knows
      how many groups are registered; membership events do not disturb the
      count. */
  lemma {:induction false} GroupCountFromEvents<GID, NID, A>(events: seq<GroupsEvent<GID, NID, A>>)
    requires GroupsFaithful(events)
    ensures |GroupsAfter(events)| == GroupsAddedCount(events) - GroupsRemovedCount(events)
  {
    if events != [] {
      var prefix := events[..|events| - 1];
      GroupCountFromEvents(prefix);
      var before := GroupsAfter(prefix);
      match events[|events| - 1]
      case GroupRemoved(group) =>
        assert (before - {group.id}).Keys == before.Keys - {group.id};
      case _ =>
    }
  }

  /** Some group registered in `groups` holds node `nid`. */
  ghost predicate HeldBySome<GID, NID>(groups: map<GID, ContainerGroup<GID, NID>>, nid: NID)
  {
    exists gid :: gid in groups && groups[gid].HasNode(nid)
  }

  /** A grid with groups. The node table and its listeners are those of
      `grid`; `groups` is the group table; `groupsListeners` are the group
      listeners in registration order; `groupsEvents` is every group-level
      notification handed to the dispatcher so far. */
  class ContainerGridGroups<GID(==), NID(==), A(==), L, GL> {
    const grid: ContainerGrid<NID, A, L>
    var groups: map<GID, ContainerGroup<GID, NID>>
    var groupsListeners: seq<GL>
    ghost var groupsEvents: seq<GroupsEvent<GID, NID, A>>

    ghost predicate Valid()
      reads this, grid
    {
      grid.Valid() && groups == GroupsAfter(groupsEvents) && GroupsFaithful(groupsEvents)
    }

    constructor ()
      ensures Valid() && fresh(grid)
      ensures grid.nodes == map[] && grid.gridListeners == [] && grid.events == []
      ensures groups == map[] && groupsListeners == [] && groupsEvents == []
    {
      grid := new ContainerGrid();
      groups := map[];
      groupsListeners := [];
      groupsEvents := [];
    }

    /** Registers `group` unless its identifier is taken (the first writer
        wins); exactly a successful insertion is announced. The node table
        is not touched. */
    method AddGroup(group: ContainerGroup<GID, NID>) returns (added: bool)
      requires Valid()
      modifies this
      ensures Valid()
      ensures added <==> group.id !in old(groups)
      ensures groups == if added then old(groups)[group.id := group] else old(groups)
      ensures groupsEvents == old(groupsEvents) + if added then [GroupAdded(group)] else []
      ensures groupsListeners == old(groupsListeners)
      ensures grid.nodes == old(grid.nodes) && grid.events == old(grid.events)
    {
      AppendGroupsEvent(groupsEvents, GroupAdded(group));
      if group.id !in groups {
        groups := groups[group.id := group];
        NotifyGroupAdded(group);
        added := true;
      } else {
        added := false;
      }
    }

    /** Unregisters the group stored under `id`, if any; exactly a successful
        removal is announced, with the group that was removed. The node table
        is not touched. */
    method RemoveGroup(id: GID) returns (removed: bool)
      requires Valid()
      modifies this
      ensures Valid()
      ensures removed <==> id in old(groups)
      ensures groups == old(groups) - {id}
      ensures groupsEvents == old(groupsEvents) + if removed then [GroupRemoved(old(groups)[id])] else []
      ensures groupsListeners == old(groupsListeners)
      ensures grid.nodes == old(grid.nodes) && grid.events == old(grid.events)
    {
      GroupsAfterKeyedById(groupsEvents);
      var previous := if id in groups then Some(groups[id]) else None;
      groups := groups - {id};
      if previous.Some? {
        AppendGroupsEvent(groupsEvents, GroupRemoved(previous.value));
        NotifyGroupRemoved(previous.value);
        removed := true;
      } else {
        assert groups == old(groups);
        removed := false;
      }
    }

    /** The group registered under `id`, if any; it carries that identifier. */
    function GetGroup(id: GID): (r: Option<ContainerGroup<GID, NID>>)
      reads this, grid
      requires Valid()
      ensures r.Some? <==> id in groups
      ensures r.Some? ==> r.value == groups[id] && r.value.id == id
    {
      GroupsAfterKeyedById(groupsEvents);
      if id in groups then Some(groups[id]) else None
    }

    /** All registered groups, one per identifier. */
    function GetGroups(): (r: set<ContainerGroup<GID, NID>>)
      reads this, grid
      requires Valid()
      ensures forall group <- r :: group.id in groups && groups[group.id] == group
      ensures forall id <- groups :: groups[id] in r
      ensures |r| == |groups|
    {
      GroupsAfterKeyedById(groupsEvents);
      Keyed.ValuesOfKeyed(groups, GroupId);
      groups.Values
    }

    /** Scans the registered groups and returns one that holds node `nid`, or
        `None` when none does. Which one is returned when several hold the
        node is left open, as the scan order of the table is. */
    method GetGroupByNode(nid: NID) returns (r: Option<ContainerGroup<GID, NID>>)
      requires Valid()
      ensures r.Some? ==> r.value.id in groups && groups[r.value.id] == r.value && r.value.HasNode(nid)
      ensures r.None? <==> !HeldBySome(groups, nid)
    {
      GroupsAfterKeyedById(groupsEvents);
      var unseen := groups.Values;
      while unseen != {}
        invariant unseen <= groups.Values
        invariant forall gid <- groups :: groups[gid] !in unseen ==> !groups[gid].HasNode(nid)
        decreases unseen
      {
        var group :| group in unseen;
        if group.HasNode(nid) {
          return Some(group);
        }
        unseen := unseen - {group};
      }
      return None;
    }

    /** A node operation reached through the group layer: the node table
        changes exactly as `ContainerGrid.AddNode` says, the group table and
        the group notifications do not. */
    method AddNode(node: ContainerNode<NID, A>) returns (added: bool)
      requires Valid()
      modifies grid
      ensures Valid()
      ensures added <==> node.id !in old(grid.nodes)
      ensures grid.nodes == if added then old(grid.nodes)[node.id := node] else old(grid.nodes)
      ensures grid.events == old(grid.events) + if added then [NodeAdded(node)] else []
      ensures grid.gridListeners == old(grid.gridListeners)
      ensures groups == old(groups) && groupsEvents == old(groupsEvents)
      ensures groupsListeners == old(groupsListeners)
    {
      added := grid.AddNode(node);
    }

    /** A node operation reached through the group layer: the node table
        changes exactly as `ContainerGrid.RemoveNode` says, the group table and
        the group notifications do not. */
    method RemoveNode(id: NID) returns (removed: bool)
      requires Valid()
      modifies grid
      ensures Valid()
      ensures removed <==> id in old(grid.nodes)
      ensures grid.nodes == old(grid.nodes) - {id}
      ensures grid.events == old(grid.events) + if removed then [NodeRemoved(old(grid.nodes)[id])] else []
      ensures grid.gridListeners == old(grid.gridListeners)
      ensures groups == old(groups) && groupsEvents == old(groupsEvents)
      ensures groupsListeners == old(groupsListeners)
    {
      removed := grid.RemoveNode(id);
    }

    /** Registers one more group listener; the tables and the notifications
        already sent stay as they were. */
    method AddContainerGridGroupsListener(listener: GL)
      requires Valid()
      modifies this
      ensures Valid()
      ensures groupsListeners == old(groupsListeners) + [listener]
      ensures groups == old(groups) && groupsEvents == old(groupsEvents)
    {
      groupsListeners := groupsListeners + [listener];
    }

    /** Hands one group-added notification to the dispatcher. */
    method NotifyGroupAdded(group: ContainerGroup<GID, NID>)
      modifies this
      ensures groupsEvents == old(groupsEvents) + [GroupAdded(group)]
      ensures groups == old(groups) && groupsListeners == old(groupsListeners)
    {
      groupsEvents := groupsEvents + [GroupAdded(group)];
    }

    /** Hands one group-removed notification to the dispatcher. */
    method NotifyGroupRemoved(group: ContainerGroup<GID, NID>)
      modifies this
      ensures groupsEvents == old(groupsEvents) + [GroupRemoved(group)]
      ensures groups == old(groups) && groupsListeners == old(groupsListeners)
    {
      groupsEvents := groupsEvents + [GroupRemoved(group)];
    }

    /** Announces that `node` joined `group`. The announcement is all it does:
        the group table is untouched and still agrees with the log. */
    method NotifyNodeAdded(group: ContainerGroup<GID, NID>, node: ContainerNode<NID, A>)
      requires Valid()
      modifies this
      ensures Valid()
      ensures groupsEvents == old(groupsEvents) + [NodeAddedToGroup(group, node)]
      ensures groups == old(groups) && groupsListeners == old(groupsListeners)
    {
      AppendGroupsEvent(groupsEvents, NodeAddedToGroup(group, node));
      groupsEvents := groupsEvents + [NodeAddedToGroup(group, node)];
    }

    /** Announces that `node` left `group`. The announcement is all it does:
        the group table is untouched and still agrees with the log. */
    method NotifyNodeRemoved(group: ContainerGroup<GID, NID>, node: ContainerNode<NID, A>)
      requires Valid()
      modifies this
      ensures Valid()
      ensures groupsEvents == old(groupsEvents) + [NodeRemovedFromGroup(group, node)]
      ensures groups == old(groups) && groupsListeners == old(groupsListeners)
    {
      AppendGroupsEvent(groupsEvents, NodeRemovedFromGroup(group, node));
      groupsEvents := groupsEvents + [NodeRemovedFromGroup(group, node)];
    }
  }
}
