/** The consistency of the host state the script works on: the node
    graph, the host's listing order, the deletion log and the next fresh id. */
module State {
  import opened Nodes

  /** The host state the script works on: the node graph, the host's listing
      order, the deletion log, the next fresh id, and a ranking of the graph. */
  datatype Host = Host(nodes: Graph, order: seq<Id>, deleted: seq<Id>, next: nat, topo: Ranks)

  ghost predicate Sound(h: Host) {
    Consistent(h.nodes, h.order, h.deleted, h.next, h.topo)
  }

  /** `b` is `a` with possibly other dependents: the node's class, inputs,
      position, size, file type and knobs are all the same. */
  ghost predicate Grown(a: Node, b: Node) {
    && a.cls == b.cls && a.inputs == b.inputs
    && a.xpos == b.xpos && a.ypos == b.ypos && a.width == b.width && a.height == b.height
    && a.fileType == b.fileType && a.translate == b.translate && a.scaling == b.scaling
  }

  /** `r` only adds to `h`: every node of `h` is still there and only its
      dependents may have grown, the listing only grows at its end, and the
      deletion log is the same. */
  ghost predicate Extends(h: Host, r: Host) {
    && (forall id :: id in h.nodes ==> id in r.nodes && Grown(h.nodes[id], r.nodes[id]))
    && h.order <= r.order
    && r.deleted == h.deleted
  }

  /** The graph is ranked, every id is below the next fresh id,
      and everything listed or deleted is a node. */
  ghost predicate Consistent(g: Graph, order: seq<Id>, deleted: seq<Id>, next: nat, topo: Ranks) {
    && Acyclic(g, topo)
    && (forall id :: id in g ==> id < next)
    && (forall k :: 0 <= k < |order| ==> order[k] in g)
    && (forall k :: 0 <= k < |deleted| ==> deleted[k] in g)
  }

  /** Changing nodes without adding or removing any keeps the state consistent
      when the ranking still holds. */
  lemma SameKeysConsistent(g: Graph, h: Graph, order: seq<Id>, deleted: seq<Id>, next: nat, topo: Ranks)
    requires Consistent(g, order, deleted, next, topo)
    requires h.Keys == g.Keys && Acyclic(h, topo)
    ensures Consistent(h, order, deleted, next, topo)
  {
  }

  /** Adding a new unconnected node under the next fresh id, listed last and
      ranked above all others, keeps the state consistent. */
  lemma AddedConsistent(g: Graph, order: seq<Id>, deleted: seq<Id>, next: nat, topo: Ranks, n: Node)
    requires Consistent(g, order, deleted, next, topo)
    requires n.inputs == [] && n.dependents == []
    ensures Consistent(g[next := n], order + [next], deleted, next + 1, topo[next := |g|])
  {
    AddedKeepsAcyclic(g, topo, next, n);
    var h, o := g[next := n], order + [next];
    forall k | 0 <= k < |o|
      ensures o[k] in h
    {
      if k < |order| {
        assert o[k] == order[k];
      }
    }
  }
}
