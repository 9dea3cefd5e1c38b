/** What convert_psd_to_cards builds, stated over graphs: the wiring of each
    layer, of the Scene and of the render nodes, and the relation "every node
    keeps its wiring" that the later steps of the conversion preserve. */
module Wiring {
  import opened Nodes
  import opened Shuffles
  import opened Backdrops
  import opened Cards

  /** `h` is `g` with the backdrop `b` refitted around the nodes `ids` list. */
  ghost predicate Refitted(g: Graph, ids: seq<Id>, b: Id, h: Graph) {
    && b in g && (forall k :: 0 <= k < |ids| ==> ids[k] in g)
    && |Inside(g, ids, BoxOf(g[b]), b)| > 0
    && h == g[b := Moved(g[b], FitBox(g, ids, b))]
  }

  /** What convert_psd_to_cards built: the read node, the shuffles it found,
      one Premult and one Card per shuffle, and the Scene, Camera and
      ScanlineRender nodes. */
  datatype Built = Built(read: Id, shuffles: seq<Id>, premults: seq<Id>, cards: seq<Id>,
                         scene: Id, camera: Id, scanline: Id)

  /** Why convert_psd_to_cards stopped early. */
  datatype Failure =
    | Declined(message: string)  // the guard showed a message and returned
    | NoSelection                // nuke.selectedNode() raised: nothing is selected
    | UsedDeletedNode            // a call on a node deleted by a crop cleanup raised
    | NoBackdrop                 // find_backdrop found none, and resizing None raised

  datatype Outcome = Done(built: Built) | Failed(failure: Failure)

  /** The parts of a node the conversion sets: class, inputs and card knobs. */
  ghost predicate SameWiring(a: Node, b: Node) {
    a.cls == b.cls && a.inputs == b.inputs && a.translate == b.translate && a.scaling == b.scaling
  }

  /** Every node of `g` is still in `h` with the same wiring. */
  ghost predicate Kept(g: Graph, h: Graph) {
    forall id :: id in g ==> id in h && SameWiring(g[id], h[id])
  }

  lemma KeptTrans(a: Graph, b: Graph, c: Graph)
    requires Kept(a, b) && Kept(b, c)
    ensures Kept(a, c)
  {
  }

  /** The layer of shuffle `s`: a Premult reading `s` and a Card reading that
      Premult, with the card's translate and scaling for `rank`. */
  ghost predicate Layer(g: Graph, s: Id, p: Id, c: Id, rank: nat) {
    && p in g && g[p].cls == Premult && g[p].inputs == [Some(s)]
    && c in g && g[c].cls == Card && g[c].inputs == [Some(p)]
    && g[c].translate == CardTranslate(rank) && g[c].scaling == CardScaling(rank)
  }

  /** The first `i` of `n` layers are built. */
  ghost predicate Layers(g: Graph, ss: seq<Id>, ps: seq<Id>, cs: seq<Id>, n: nat, i: nat) {
    && i <= n && i <= |ss| && i <= |ps| && i <= |cs|
    && forall k :: 0 <= k < i ==> Layer(g, ss[k], ps[k], cs[k], OrderFromTop(n, k))
  }

  lemma KeptLayer(g: Graph, h: Graph, s: Id, p: Id, c: Id, rank: nat)
    requires Kept(g, h) && Layer(g, s, p, c, rank)
    ensures Layer(h, s, p, c, rank)
  {
  }

  lemma KeptLayers(g: Graph, h: Graph, ss: seq<Id>, ps: seq<Id>, cs: seq<Id>, n: nat, i: nat)
    requires Kept(g, h) && Layers(g, ss, ps, cs, n, i)
    ensures Layers(h, ss, ps, cs, n, i)
  {
    forall k | 0 <= k < i
      ensures Layer(h, ss[k], ps[k], cs[k], OrderFromTop(n, k))
    {
      assert Layer(g, ss[k], ps[k], cs[k], OrderFromTop(n, k));
    }
  }

  lemma LayersGrow(g: Graph, ss: seq<Id>, ps: seq<Id>, cs: seq<Id>, n: nat, i: nat, p: Id, c: Id)
    requires Layers(g, ss, ps, cs, n, i) && |ps| == i && |cs| == i && i < n && i < |ss|
    requires Layer(g, ss[i], p, c, OrderFromTop(n, i))
    ensures Layers(g, ss, ps + [p], cs + [c], n, i + 1)
  {
    forall k | 0 <= k < i + 1
      ensures Layer(g, ss[k], (ps + [p])[k], (cs + [c])[k], OrderFromTop(n, k))
    {
      if k < i {
        assert Layer(g, ss[k], ps[k], cs[k], OrderFromTop(n, k));
      }
    }
  }

  /** The graph `g` is the result of a completed conversion `b` of the graph
      `g0` whose fresh ids start at `next0`. */
  ghost predicate Converted(g0: Graph, topo0: Ranks, next0: nat, g: Graph, b: Built)
    requires Acyclic(g0, topo0) && b.read in g0
  {
    var n := |b.shuffles|;
    && b.shuffles == FindConnectedShuffles(g0, topo0, b.read)
    && |b.premults| == n && |b.cards| == n
    && Layers(g, b.shuffles, b.premults, b.cards, n, n)
    && (forall k :: 0 <= k < n ==> next0 <= b.premults[k] && next0 <= b.cards[k])
    && SceneOf(g, b.scene, b.cards) && CameraOf(g, b.camera) && ScanlineOf(g, b.scanline, b.scene, b.camera)
    && next0 <= b.scene && next0 <= b.camera && next0 <= b.scanline
  }

  /** `x` is a Scene whose input `k` reads card `k`, and nothing more. */
  ghost predicate SceneOf(g: Graph, x: Id, cards: seq<Id>) {
    && x in g && g[x].cls == Scene && |g[x].inputs| == |cards|
    && forall k :: 0 <= k < |cards| ==> g[x].inputs[k] == Some(cards[k])
  }

  /** `x` is a Camera at the camera translate. */
  ghost predicate CameraOf(g: Graph, x: Id) {
    x in g && g[x].cls == Camera && g[x].translate == CameraTranslate
  }

  /** `x` is a ScanlineRender reading nothing at input 0, `scene` at input 1
      and `camera` at input 2. */
  ghost predicate ScanlineOf(g: Graph, x: Id, scene: Id, camera: Id) {
    x in g && g[x].cls == ScanlineRender && g[x].inputs == [None, Some(scene), Some(camera)]
  }

  /** A node created after every deleted one was already a node is live. */
  lemma NewIsLive(g: Graph, deleted: seq<Id>, id: Id)
    requires forall k :: 0 <= k < |deleted| ==> deleted[k] in g
    requires id !in g
    ensures id !in deleted
  {
  }
}
