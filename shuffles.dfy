/** Locating the per-layer Shuffle nodes below the decomposed read node
    (find_connected_shuffles).  The walk follows dependent edges depth first:
    a Shuffle is collected, a Dot is walked through, anything else ends that
    branch.
 */
module Shuffles {
  import opened Nodes

  /** find_connected_shuffles(n). */
  function FindConnectedShuffles(g: Graph, ghost topo: Ranks, n: Id): (r: seq<Id>)
    requires Acyclic(g, topo) && n in g
    ensures forall k :: 0 <= k < |r| ==> r[k] in g && g[r[k]].cls == Shuffle
    decreases |g| - topo[n], 1
  {
    ShufflesAmong(g, topo, n, 0)
  }

  /** What the loop of find_connected_shuffles collects from the dependents of
      `n` from position `i` on: each Dot's own result is spliced in at that
      Dot's place. */
  function ShufflesAmong(g: Graph, ghost topo: Ranks, n: Id, i: nat): (r: seq<Id>)
    requires Acyclic(g, topo) && n in g && i <= |g[n].dependents|
    ensures forall k :: 0 <= k < |r| ==> r[k] in g && g[r[k]].cls == Shuffle
    decreases |g| - topo[n], 0, |g[n].dependents| - i
  {
    if i == |g[n].dependents| then []
    else
      var d := g[n].dependents[i];
      var here :=
        if g[d].cls == Shuffle then [d]
        else if g[d].cls == Dot then FindConnectedShuffles(g, topo, d)
        else [];
      here + ShufflesAmong(g, topo, n, i + 1)
  }

  /** `s` is a dependent of `n`, or of a Dot that is reached from `n` through
      Dots only. */
  ghost predicate ThroughDots(g: Graph, topo: Ranks, n: Id, s: Id)
    requires Acyclic(g, topo) && n in g
    decreases |g| - topo[n], 1
  {
    exists d :: d in g[n].dependents && Feeds(g, topo, n, d, s)
  }

  /** The dependent `d` of `n` is `s`, or is a Dot through which `s` is reached. */
  ghost predicate Feeds(g: Graph, topo: Ranks, n: Id, d: Id, s: Id)
    requires Acyclic(g, topo) && n in g && d in g[n].dependents
    decreases |g| - topo[n], 0
  {
    d == s || (g[d].cls == Dot && ThroughDots(g, topo, d, s))
  }

  /** The locator finds exactly the Shuffles reachable through Dots: it never
      reports a Dot or any other class, and never looks past a node that is
      not a Dot. */
  lemma {:induction false} FindConnectedShufflesExact(g: Graph, topo: Ranks, n: Id, s: Id)
    requires Acyclic(g, topo) && n in g
    ensures s in FindConnectedShuffles(g, topo, n) <==>
              s in g && g[s].cls == Shuffle && ThroughDots(g, topo, n, s)
    decreases |g| - topo[n], 1
  {
    AmongExact(g, topo, n, 0, s);
    var ds := g[n].dependents;
    if ThroughDots(g, topo, n, s) {
      var d :| d in ds && Feeds(g, topo, n, d, s);
      var j :| 0 <= j < |ds| && ds[j] == d;
      assert FedFrom(g, topo, n, 0, s, j);
    }
  }

  /** The dependent at position `j` of `n`, at or after position `i`, feeds `s`. */
  ghost predicate FedFrom(g: Graph, topo: Ranks, n: Id, i: nat, s: Id, j: int)
    requires Acyclic(g, topo) && n in g
  {
    i <= j < |g[n].dependents| && Feeds(g, topo, n, g[n].dependents[j], s)
  }

  lemma {:induction false} AmongExact(g: Graph, topo: Ranks, n: Id, i: nat, s: Id)
    requires Acyclic(g, topo) && n in g && i <= |g[n].dependents|
    ensures s in ShufflesAmong(g, topo, n, i) <==>
              s in g && g[s].cls == Shuffle && exists j :: FedFrom(g, topo, n, i, s, j)
    decreases |g| - topo[n], 0, |g[n].dependents| - i
  {
    var ds := g[n].dependents;
    if i < |ds| {
      var d, i1 := ds[i], i + 1;
      var here := if g[d].cls == Shuffle then [d]
                  else if g[d].cls == Dot then FindConnectedShuffles(g, topo, d)
                  else [];
      var rest := ShufflesAmong(g, topo, n, i1);
      assert ShufflesAmong(g, topo, n, i) == here + rest;
      AmongExact(g, topo, n, i1, s);
      if g[d].cls == Dot {
        FindConnectedShufflesExact(g, topo, d, s);
      }
      assert s in here <==> s in g && g[s].cls == Shuffle && Feeds(g, topo, n, d, s);
      if exists j :: FedFrom(g, topo, n, i, s, j) {
        var j :| FedFrom(g, topo, n, i, s, j);
        if j > i {
          assert FedFrom(g, topo, n, i1, s, j);
        }
      }
      if exists j :: FedFrom(g, topo, n, i1, s, j) {
        var j :| FedFrom(g, topo, n, i1, s, j);
        assert FedFrom(g, topo, n, i, s, j);
      }
      if Feeds(g, topo, n, d, s) {
        assert FedFrom(g, topo, n, i, s, i);
      }
    }
  }

  /** With no Dot among the dependents, the locator returns exactly the Shuffle
      dependents, in dependent order. */
  lemma {:induction false} NoDotsMeansDirectShuffles(g: Graph, topo: Ranks, n: Id)
    requires Acyclic(g, topo) && n in g
    requires forall k :: 0 <= k < |g[n].dependents| ==> g[g[n].dependents[k]].cls != Dot
    ensures FindConnectedShuffles(g, topo, n) == OfClass(g, g[n].dependents, Shuffle)
  {
    var ds := g[n].dependents;
    var i := |ds|;
    while i > 0
      invariant 0 <= i <= |ds|
      invariant ShufflesAmong(g, topo, n, i) == OfClass(g, ds[i..], Shuffle)
    {
      i := i - 1;
      assert ds[i..][1..] == ds[i + 1..];
    }
  }
}
