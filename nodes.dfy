/** The node graph of the compositing application, as the script sees it.

    A node has a class tag, ordered input slots (its upstream "dependencies"),
    an ordered list of downstream "dependents", an integer position and size in
    the graph editor, an optional "file_type" knob and the two vector knobs the
    script writes on cards and cameras.  Nodes are keyed by an `Id`.

    The script assumes the graph is acyclic.  The model makes that explicit
    with a ranking `topo`: every dependency of a node ranks lower than the
    node, every dependent ranks higher, and every rank is below the number of
    nodes.  Recursive walks use the ranking as their termination measure.
 */
module Nodes {

  type Id = nat

  datatype Option<T> = None | Some(value: T)

  /** A three-component knob value ("translate", "scaling"). */
  datatype Vec3 = Vec3(x: real, y: real, z: real)

  datatype Node = Node(
    cls: string,                 // Class()
    inputs: seq<Option<Id>>,     // input slots; None is a disconnected slot
    dependents: seq<Id>,         // dependent(), in host order
    xpos: int,
    ypos: int,
    width: int,                  // screenWidth(); bdwidth for a backdrop
    height: int,                 // screenHeight(); bdheight for a backdrop
    fileType: Option<string>,    // the "file_type" knob, None when the node has none
    translate: Vec3,
    scaling: Vec3)

  /** A node as the host creates it: unconnected, with default knob values. */
  function Created(cls: string, xpos: int, ypos: int, width: int, height: int): Node {
    Node(cls, [], [], xpos, ypos, width, height, None, Vec3(0.0, 0.0, 0.0), Vec3(1.0, 1.0, 1.0))
  }

  type Graph = map<Id, Node>

  type Ranks = map<Id, nat>

  const Shuffle: string := "Shuffle"
  const Dot: string := "Dot"
  const Crop: string := "Crop"
  const BackdropNode: string := "BackdropNode"
  const Premult: string := "Premult"
  const Card: string := "Card2"
  const Scene: string := "Scene"
  const Camera: string := "Camera"
  const ScanlineRender: string := "ScanlineRender"

  /** The connected inputs of a slot list, in slot order: what dependencies() returns. */
  function Connected(slots: seq<Option<Id>>): (r: seq<Id>)
    ensures |r| <= |slots|
    ensures forall u :: u in r <==> Some(u) in slots
  {
    if slots == [] then []
    else
      var rest := Connected(slots[1..]);
      assert forall u :: Some(u) in slots <==> slots[0] == Some(u) || Some(u) in slots[1..];
      match slots[0]
      case Some(u) => [u] + rest
      case None => rest
  }

  function Dependencies(n: Node): seq<Id> {
    Connected(n.inputs)
  }

  /** The ids of `ids` that are not in the deletion log `del`, in order. */
  function Live(del: seq<Id>, ids: seq<Id>): (r: seq<Id>)
    ensures |r| <= |ids|
    ensures forall x :: x in r <==> x in ids && x !in del
  {
    if ids == [] then []
    else
      var rest := Live(del, ids[1..]);
      assert forall x :: x in ids <==> x == ids[0] || x in ids[1..];
      if ids[0] in del then rest else [ids[0]] + rest
  }

  /** The ids of `ids` whose node has class `cls`, in order: allNodes(cls). */
  function OfClass(g: Graph, ids: seq<Id>, cls: string): (r: seq<Id>)
    requires forall k :: 0 <= k < |ids| ==> ids[k] in g
    ensures |r| <= |ids|
    ensures forall x :: x in r <==> x in ids && g[x].cls == cls
    ensures forall k :: 0 <= k < |r| ==> r[k] in g
  {
    if ids == [] then []
    else
      var rest := OfClass(g, ids[1..], cls);
      assert forall x :: x in ids <==> x == ids[0] || x in ids[1..];
      if g[ids[0]].cls == cls then [ids[0]] + rest else rest
  }

  /** The graph is closed under its edges and `topo` ranks it topologically. */
  ghost predicate Acyclic(g: Graph, topo: Ranks) {
    RanksBounded(g, topo) && DependentsAbove(g, topo) && DependenciesBelow(g, topo)
  }

  ghost predicate RanksBounded(g: Graph, topo: Ranks) {
    forall id :: id in g ==> id in topo && topo[id] < |g|
  }

  ghost predicate DependentsAbove(g: Graph, topo: Ranks) {
    forall id, k :: id in g && 0 <= k < |g[id].dependents| ==>
      g[id].dependents[k] in g && id in topo && g[id].dependents[k] in topo && topo[id] < topo[g[id].dependents[k]]
  }

  ghost predicate DependenciesBelow(g: Graph, topo: Ranks) {
    forall id, k :: id in g && 0 <= k < |g[id].inputs| && g[id].inputs[k].Some? ==>
      g[id].inputs[k].value in g && id in topo && g[id].inputs[k].value in topo &&
      topo[g[id].inputs[k].value] < topo[id]
  }

  /** The slots after setInput(i, y): slot `i` holds `y`, the slot list grows
      with empty slots if `i` is past its end, and no other slot changes. */
  function Plug(slots: seq<Option<Id>>, i: nat, y: Id): (r: seq<Option<Id>>)
    ensures |r| == if i < |slots| then |slots| else i + 1
    ensures r[i] == Some(y)
    ensures forall k :: 0 <= k < |r| && k != i ==> r[k] == if k < |slots| then slots[k] else None
  {
    if i < |slots| then slots[i := Some(y)]
    else slots + seq(i - |slots|, _ => None) + [Some(y)]
  }

  /** After setInput(i, y) a node depends on what it depended on before, and on `y`. */
  lemma PlugDependencies(slots: seq<Option<Id>>, i: nat, y: Id)
    ensures forall u :: u in Connected(Plug(slots, i, y)) ==> u in Connected(slots) || u == y
    ensures y in Connected(Plug(slots, i, y))
  {
    var r := Plug(slots, i, y);
    forall u | u in Connected(r)
      ensures u in Connected(slots) || u == y
    {
      var k :| 0 <= k < |r| && r[k] == Some(u);
      if k != i {
        assert slots[k] == Some(u);
      }
    }
  }

  /** Replacing a node by one with the same edges keeps the ranking. */
  lemma SameEdgesKeepAcyclic(g: Graph, topo: Ranks, id: Id, n: Node)
    requires Acyclic(g, topo) && id in g
    requires n.inputs == g[id].inputs && n.dependents == g[id].dependents
    ensures Acyclic(g[id := n], topo)
  {
    SameKeysKeepBounded(g, topo, id, n);
    SameDependentsKeepAbove(g, topo, id, n);
    SameInputsKeepBelow(g, topo, id, n);
  }

  lemma SameKeysKeepBounded(g: Graph, topo: Ranks, id: Id, n: Node)
    requires RanksBounded(g, topo) && id in g
    ensures RanksBounded(g[id := n], topo)
  {
    assert g[id := n].Keys == g.Keys;
  }

  lemma SameDependentsKeepAbove(g: Graph, topo: Ranks, id: Id, n: Node)
    requires DependentsAbove(g, topo) && id in g && n.dependents == g[id].dependents
    ensures DependentsAbove(g[id := n], topo)
  {
    var h := g[id := n];
    forall j, k | j in h && 0 <= k < |h[j].dependents|
      ensures h[j].dependents[k] in h && j in topo && h[j].dependents[k] in topo && topo[j] < topo[h[j].dependents[k]]
    {
      assert h[j].dependents == g[j].dependents;
    }
  }

  lemma SameInputsKeepBelow(g: Graph, topo: Ranks, id: Id, n: Node)
    requires DependenciesBelow(g, topo) && id in g && n.inputs == g[id].inputs
    ensures DependenciesBelow(g[id := n], topo)
  {
    var h := g[id := n];
    forall j, k | j in h && 0 <= k < |h[j].inputs| && h[j].inputs[k].Some?
      ensures h[j].inputs[k].value in h && j in topo && h[j].inputs[k].value in topo &&
              topo[h[j].inputs[k].value] < topo[j]
    {
      assert h[j].inputs == g[j].inputs;
    }
  }

  /** A new unconnected node ranked above every existing node keeps the ranking. */
  lemma AddedKeepsAcyclic(g: Graph, topo: Ranks, id: Id, n: Node)
    requires Acyclic(g, topo) && id !in g
    requires n.inputs == [] && n.dependents == []
    ensures Acyclic(g[id := n], topo[id := |g|])
  {
    var h, t := g[id := n], topo[id := |g|];
    assert |h| == |g| + 1;
    assert RanksBounded(h, t);
    AddedKeepsAbove(g, topo, id, n);
    AddedKeepsBelow(g, topo, id, n);
  }

  lemma AddedKeepsAbove(g: Graph, topo: Ranks, id: Id, n: Node)
    requires DependentsAbove(g, topo) && id !in g && n.dependents == []
    ensures DependentsAbove(g[id := n], topo[id := |g|])
  {
    var h, t := g[id := n], topo[id := |g|];
    forall j, k | j in h && 0 <= k < |h[j].dependents|
      ensures h[j].dependents[k] in h && j in t && h[j].dependents[k] in t && t[j] < t[h[j].dependents[k]]
    {
      if j == id {
        assert false;
      } else {
        assert h[j] == g[j];
        assert g[j].dependents[k] in g;
        assert topo[j] < topo[g[j].dependents[k]];
      }
    }
    assert DependentsAbove(h, t);
  }

  lemma AddedKeepsBelow(g: Graph, topo: Ranks, id: Id, n: Node)
    requires DependenciesBelow(g, topo) && id !in g && n.inputs == []
    ensures DependenciesBelow(g[id := n], topo[id := |g|])
  {
    var h, t := g[id := n], topo[id := |g|];
    forall j, k | j in h && 0 <= k < |h[j].inputs| && h[j].inputs[k].Some?
      ensures h[j].inputs[k].value in h && j in t && h[j].inputs[k].value in t &&
              t[h[j].inputs[k].value] < t[j]
    {
      assert j != id && h[j] == g[j];
      var u := g[j].inputs[k].value;
      assert u in g && u != id;
    }
  }

  /** Connecting `y` to an input of `x` keeps the ranking when `y` ranks below `x`. */
  lemma WiredKeepsAcyclic(g: Graph, topo: Ranks, x: Id, i: nat, y: Id)
    requires Acyclic(g, topo) && x in g && y in g && topo[y] < topo[x]
    ensures Acyclic(Wired(g, x, i, y), topo)
  {
    WiredChanges(g, x, i, y);
    WiredKeepsAbove(g, topo, x, i, y);
    WiredKeepsBelow(g, topo, x, i, y);
  }

  /** The graph after x.setInput(i, y): slot `i` of `x` holds `y`, `x` is
      appended to the dependents of `y`, and the node slot `i` held before
      lists `x` once less. A node is listed among the dependents of another
      once per input slot reading it. */
  function Wired(g: Graph, x: Id, i: nat, y: Id): Graph
    requires x in g && y in g
  {
    var g1 := g[x := g[x].(inputs := Plug(g[x].inputs, i, y))];
    var g2 := if i < |g[x].inputs| && g[x].inputs[i].Some? && g[x].inputs[i].value in g
      then var a := g[x].inputs[i].value; g1[a := g1[a].(dependents := Unlisted(g1[a].dependents, x))]
      else g1;
    g2[y := g2[y].(dependents := g2[y].dependents + [x])]
  }

  /** A list of dependents with the first occurrence of `x` taken out. */
  function Unlisted(s: seq<Id>, x: Id): seq<Id> {
    if s == [] then [] else if s[0] == x then s[1..] else [s[0]] + Unlisted(s[1..], x)
  }

  /** Taking out `x` leaves one occurrence of it fewer and every other
      dependent as often as before. */
  lemma {:induction false} UnlistedDropsOne(s: seq<Id>, x: Id)
    ensures multiset(Unlisted(s, x)) == multiset(s) - multiset{x}
  {
    if s != [] {
      assert s == [s[0]] + s[1..];
      if s[0] != x {
        UnlistedDropsOne(s[1..], x);
      }
    }
  }

  /** Taking out `x` adds no dependent. */
  lemma {:induction false} UnlistedKeeps(s: seq<Id>, x: Id)
    ensures forall u :: u in Unlisted(s, x) ==> u in s
  {
    if s != [] && s[0] != x {
      UnlistedKeeps(s[1..], x);
    }
  }

  /** setInput keeps every node and every field but inputs and dependents;
      only `x` changes its inputs, to the plugged slots. */
  lemma WiredChanges(g: Graph, x: Id, i: nat, y: Id)
    requires x in g && y in g
    ensures var h := Wired(g, x, i, y);
      && h.Keys == g.Keys
      && (forall j :: j in g ==> h[j] == g[j].(inputs := h[j].inputs, dependents := h[j].dependents))
      && h[x].inputs == Plug(g[x].inputs, i, y)
      && (forall j :: j in g && j != x ==> h[j].inputs == g[j].inputs)
  {
    var h := Wired(g, x, i, y);
    forall j | j in g
      ensures j in h && h[j] == g[j].(inputs := h[j].inputs, dependents := h[j].dependents)
      ensures j != x ==> h[j].inputs == g[j].inputs
    {
    }
    assert h.Keys == g.Keys;
  }

  /** After setInput `y` lists `x` once more, at the end; the node slot `i`
      held before lists it once less; every other node keeps its dependents. */
  lemma WiredDependents(g: Graph, x: Id, i: nat, y: Id)
    requires x in g && y in g
    ensures var h := Wired(g, x, i, y);
      var was := if i < |g[x].inputs| then g[x].inputs[i] else None;
      && (forall j :: j in g && j != y && was != Some(j) ==> h[j].dependents == g[j].dependents)
      && (was != Some(y) ==> h[y].dependents == g[y].dependents + [x])
      && (was == Some(y) ==> h[y].dependents == Unlisted(g[y].dependents, x) + [x])
      && (was.Some? && was.value in g && was.value != y ==>
            multiset(h[was.value].dependents) == multiset(g[was.value].dependents) - multiset{x})
  {
    if i < |g[x].inputs| && g[x].inputs[i].Some? && g[x].inputs[i].value in g {
      UnlistedDropsOne(g[g[x].inputs[i].value].dependents, x);
    }
  }

  lemma WiredKeepsAbove(g: Graph, topo: Ranks, x: Id, i: nat, y: Id)
    requires DependentsAbove(g, topo) && x in g && y in g && x in topo && y in topo && topo[y] < topo[x]
    ensures DependentsAbove(Wired(g, x, i, y), topo)
  {
    var h := Wired(g, x, i, y);
    WiredChanges(g, x, i, y);
    forall j, k | j in h && 0 <= k < |h[j].dependents|
      ensures h[j].dependents[k] in h && j in topo && h[j].dependents[k] in topo && topo[j] < topo[h[j].dependents[k]]
    {
      var u := h[j].dependents[k];
      if j != y || k < |h[j].dependents| - 1 {
        if i < |g[x].inputs| && g[x].inputs[i] == Some(j) {
          UnlistedKeeps(g[j].dependents, x);
        }
        assert u in g[j].dependents;
        var m :| 0 <= m < |g[j].dependents| && g[j].dependents[m] == u;
      }
    }
  }

  lemma WiredKeepsBelow(g: Graph, topo: Ranks, x: Id, i: nat, y: Id)
    requires DependenciesBelow(g, topo) && x in g && y in g && x in topo && y in topo && topo[y] < topo[x]
    ensures DependenciesBelow(Wired(g, x, i, y), topo)
  {
    var h := Wired(g, x, i, y);
    WiredChanges(g, x, i, y);
    forall j, k | j in h && 0 <= k < |h[j].inputs| && h[j].inputs[k].Some?
      ensures h[j].inputs[k].value in h && j in topo && h[j].inputs[k].value in topo &&
              topo[h[j].inputs[k].value] < topo[j]
    {
      if j == x && k != i {
        assert h[x].inputs[k] == g[x].inputs[k];
      }
    }
  }

  /** The inputs of a node are nodes of the graph, ranked below it. */
  lemma InputsRankBelow(g: Graph, topo: Ranks, n: Id, ups: seq<Id>)
    requires Acyclic(g, topo) && n in g
    requires forall u :: u in ups ==> u in Dependencies(g[n])
    ensures forall k :: 0 <= k < |ups| ==> ups[k] in g && topo[ups[k]] < topo[n]
  {
    forall k | 0 <= k < |ups|
      ensures ups[k] in g && topo[ups[k]] < topo[n]
    {
      assert ups[k] in ups;
    }
  }

  /** The dependents of a node are nodes of the graph, ranked above it. */
  lemma OutputsRankAbove(g: Graph, topo: Ranks, n: Id, downs: seq<Id>)
    requires Acyclic(g, topo) && n in g
    requires forall d :: d in downs ==> d in g[n].dependents
    ensures forall k :: 0 <= k < |downs| ==> downs[k] in g && topo[n] < topo[downs[k]]
  {
    forall k | 0 <= k < |downs|
      ensures downs[k] in g && topo[n] < topo[downs[k]]
    {
      assert downs[k] in downs;
    }
  }

  /** `e` is `c` itself or lies below it along dependent edges. */
  ghost predicate Below(g: Graph, topo: Ranks, c: Id, e: Id)
    requires Acyclic(g, topo) && c in g
    decreases |g| - topo[c]
  {
    c == e || exists d :: d in g[c].dependents && Below(g, topo, d, e)
  }

  /** A node below `c` ranks at least as high as `c`. */
  lemma {:induction false} BelowRanks(g: Graph, topo: Ranks, c: Id, e: Id)
    requires Acyclic(g, topo) && c in g
    requires Below(g, topo, c, e)
    ensures e in g && topo[c] <= topo[e]
    decreases |g| - topo[c]
  {
    if c != e {
      var d :| d in g[c].dependents && Below(g, topo, d, e);
      BelowRanks(g, topo, d, e);
    }
  }
}
