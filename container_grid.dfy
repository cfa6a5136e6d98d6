/** The node registry of a container grid: a table from node identifier to
    node with put-if-absent and remove-if-present updates, and a dispatcher
    that tells the grid's listeners about every node that was added or
    removed. */
module Grid {
  import opened Wrappers
  import Keyed

  /** A member of the cluster: an identifier that never changes once the node
      is registered, and deployment-specific attributes the registry never
      looks at. */
  datatype ContainerNode<NID, A> = ContainerNode(id: NID, attributes: A)

  function NodeId<NID, A>(node: ContainerNode<NID, A>): NID
  {
    node.id
  }

  /** What the grid tells its listeners. */
  datatype GridEvent<NID, A> =
    | NodeAdded(node: ContainerNode<NID, A>)
    | NodeRemoved(node: ContainerNode<NID, A>)

  /** The change that a listener reads off one event. */
  function ApplyEvent<NID, A(==)>(nodes: map<NID, ContainerNode<NID, A>>, event: GridEvent<NID, A>): map<NID, ContainerNode<NID, A>>
  {
    match event
    case NodeAdded(node) => nodes[node.id := node]
    case NodeRemoved(node) => nodes - {node.id}
  }

  /** An event describes a change that really happened to `nodes`: the added
      node's identifier was free, the removed node was the one stored. */
  predicate Describes<NID, A(==)>(nodes: map<NID, ContainerNode<NID, A>>, event: GridEvent<NID, A>)
  {
    match event
    case NodeAdded(node) => node.id !in nodes
    case NodeRemoved(node) => node.id in nodes && nodes[node.id] == node
  }

  /** The node table a listener rebuilds from an empty grid by applying, in
      order, every event it was sent. */
  ghost function NodesAfter<NID, A>(events: seq<GridEvent<NID, A>>): map<NID, ContainerNode<NID, A>>
  {
    if events == [] then map[]
    else ApplyEvent(NodesAfter(events[..|events| - 1]), events[|events| - 1])
  }

  /** Every event of the log describes a change that really happened to the
      table rebuilt from the events before it. */
  ghost predicate Faithful<NID, A>(events: seq<GridEvent<NID, A>>)
  {
    events == [] ||
    (Faithful(events[..|events| - 1]) && Describes(NodesAfter(events[..|events| - 1]), events[|events| - 1]))
  }

  ghost function AddedCount<NID, A>(events: seq<GridEvent<NID, A>>): nat
  {
    if events == [] then 0
    else AddedCount(events[..|events| - 1]) + (if events[|events| - 1].NodeAdded? then 1 else 0)
  }

  ghost function RemovedCount<NID, A>(events: seq<GridEvent<NID, A>>): nat
  {
    if events == [] then 0
    else RemovedCount(events[..|events| - 1]) + (if events[|events| - 1].NodeRemoved? then 1 else 0)
  }

  lemma AppendEvent<NID, A>(events: seq<GridEvent<NID, A>>, event: GridEvent<NID, A>)
    ensures NodesAfter(events + [event]) == ApplyEvent(NodesAfter(events), event)
    ensures Faithful(events + [event]) <==> Faithful(events) && Describes(NodesAfter(events), event)
  {
  }

  /** However the log came about, the rebuilt table stores each node under its
      own identifier. */
  lemma {:induction false} NodesAfterKeyedById<NID, A>(events: seq<GridEvent<NID, A>>)
    ensures Keyed.KeyedBy(NodesAfter(events), NodeId)
  {
    if events != [] {
      NodesAfterKeyedById(events[..|events| - 1]);
    }
  }

  /** A listener that only counts node-added and node-removed events knows
      how many nodes the grid holds. */
  lemma {:induction false} NodeCountFromEvents<NID, A>(events: seq<GridEvent<NID, A>>)
    requires Faithful(events)
    ensures |NodesAfter(events)| == AddedCount(events) - RemovedCount(events)
  {
    if events != [] {
      var prefix := events[..|events| - 1];
      NodeCountFromEvents(prefix);
      var before := NodesAfter(prefix);
      match events[|events| - 1]
      case NodeAdded(node) =>
      case NodeRemoved(node) =>
        assert (before - {node.id}).Keys == before.Keys - {node.id};
    }
  }

  /** A node registry. `nodes` is the table; `gridListeners` are the
      registered listeners in registration order; `events` is every
      notification handed to the dispatcher so far. */
  class ContainerGrid<NID(==), A(==), L> {
    var nodes: map<NID, ContainerNode<NID, A>>
    var gridListeners: seq<L>
    ghost var events: seq<GridEvent<NID, A>>

    /** A listener that replays the notifications rebuilds exactly the table,
        and every notification reports a change that really happened. */
    ghost predicate Valid()
      reads this
    {
      nodes == NodesAfter(events) && Faithful(events)
    }

    constructor ()
      ensures Valid()
      ensures nodes == map[] && gridListeners == [] && events == []
    {
      nodes := map[];
      gridListeners := [];
      events := [];
    }

    /** All registered nodes, one per identifier. */
    function GetNodes(): (r: set<ContainerNode<NID, A>>)
      reads this
      requires Valid()
      ensures forall node <- r :: node.id in nodes && nodes[node.id] == node
      ensures forall id <- nodes :: nodes[id] in r
      ensures |r| == |nodes|
    {
      NodesAfterKeyedById(events);
      Keyed.ValuesOfKeyed(nodes, NodeId);
      nodes.Values
    }

    /** The node registered under `id`, if any; it carries that identifier. */
    function GetNode(id: NID): (r: Option<ContainerNode<NID, A>>)
      reads this
      requires Valid()
      ensures r.Some? <==> id in nodes
      ensures r.Some? ==> r.value == nodes[id] && r.value.id == id
    {
      NodesAfterKeyedById(events);
      if id in nodes then Some(nodes[id]) else None
    }

    /** Registers `node` unless its identifier is taken (the first writer
        wins); exactly a successful insertion is announced. */
    method AddNode(node: ContainerNode<NID, A>) returns (added: bool)
      requires Valid()
      modifies this
      ensures Valid()
      ensures added <==> node.id !in old(nodes)
      ensures nodes == if added then old(nodes)[node.id := node] else old(nodes)
      ensures events == old(events) + if added then [NodeAdded(node)] else []
      ensures gridListeners == old(gridListeners)
    {
      AppendEvent(events, NodeAdded(node));
      if node.id !in nodes {
        nodes := nodes[node.id := node];
        NotifyNodeAdded(node);
        added := true;
      } else {
        added := false;
      }
    }

    /** Unregisters the node stored under `id`, if any; exactly a successful
        removal is announced, with the node that was removed. */
    method RemoveNode(id: NID) returns (removed: bool)
      requires Valid()
      modifies this
      ensures Valid()
      ensures removed <==> id in old(nodes)
      ensures nodes == old(nodes) - {id}
      ensures events == old(events) + if removed then [NodeRemoved(old(nodes)[id])] else []
      ensures gridListeners == old(gridListeners)
    {
      NodesAfterKeyedById(events);
      var previous := if id in nodes then Some(nodes[id]) else None;
      nodes := nodes - {id};
      if previous.Some? {
        AppendEvent(events, NodeRemoved(previous.value));
        NotifyNodeRemoved(previous.value);
        removed := true;
      } else {
        assert nodes == old(nodes);
        removed := false;
      }
    }

    /** Registers one more listener; the node table and the notifications
        already sent stay as they were. */
    method AddContainerGridListener(listener: L)
      requires Valid()
      modifies this
      ensures Valid()
      ensures gridListeners == old(gridListeners) + [listener]
      ensures nodes == old(nodes) && events == old(events)
    {
      gridListeners := gridListeners + [listener];
    }

    /** Hands one node-added notification to the dispatcher. */
    method NotifyNodeAdded(node: ContainerNode<NID, A>)
      modifies this
      ensures events == old(events) + [NodeAdded(node)]
      ensures nodes == old(nodes) && gridListeners == old(gridListeners)
    {
      events := events + [NodeAdded(node)];
    }

    /** Hands one node-removed notification to the dispatcher. */
    method NotifyNodeRemoved(node: ContainerNode<NID, A>)
      modifies this
      ensures events == old(events) + [NodeRemoved(node)]
      ensures nodes == old(nodes) && gridListeners == old(gridListeners)
    {
      events := events + [NodeRemoved(node)];
    }
  }
}
