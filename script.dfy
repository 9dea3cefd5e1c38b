/** convert_psd_to_cards as a function of the host state: one function per
    operation of the script that changes the state, giving the state after
    it, and lemmas stating what each part builds, when the conversion stops
    and what a completed conversion leaves behind.

    A call on a node that is not alive (deleted by an earlier cleanup) makes
    the host raise; the functions below then leave the state as it stood and
    report the failure.
 */
module Script {
  import opened Nodes
  import opened Cleanup
  import opened Backdrops
  import opened Shuffles
  import opened Cards
  import opened State
  import opened Wiring

  // ---------------------------------------------------------------------------
  // Single host calls

  /** A node the script can still use: one of the graph's, and not deleted. */
  predicate Alive(h: Host, x: Id) {
    x in h.nodes && x !in h.deleted
  }

  /** nuke.nodes.<cls>(): a new unconnected node with default knobs, placed
      at `at`, under the next fresh id, listed last and ranked above every
      other node. */
  function WithNode(h: Host, cls: string, at: Box): Host {
    Host(h.nodes[h.next := Moved(Created(cls, 0, 0, 0, 0), at)], h.order + [h.next], h.deleted,
         h.next + 1, h.topo[h.next := |h.nodes|])
  }

  /** x.setInput(i, y) on two live nodes: slot `i` of `x` reads `y` and `x`
      becomes a dependent of `y`. Where the script can reach a setInput on a
      deleted node (the Scene's inputs), the caller tests for it first. */
  function WithInput(h: Host, x: Id, i: nat, y: Id): Host
    requires x in h.nodes && y in h.nodes
  {
    h.(nodes := Wired(h.nodes, x, i, y))
  }

  /** n["translate"].setValue(v). */
  function WithTranslate(h: Host, n: Id, v: Vec3): Host
    requires n in h.nodes
  {
    h.(nodes := h.nodes[n := h.nodes[n].(translate := v)])
  }

  /** n["scaling"].setValue(v). */
  function WithScaling(h: Host, n: Id, v: Vec3): Host
    requires n in h.nodes
  {
    h.(nodes := h.nodes[n := h.nodes[n].(scaling := v)])
  }

  // ---------------------------------------------------------------------------
  // One layer

  /** Lines 36-37: a new Premult reading the shuffle `s`. */
  function WithPremult(h: Host, s: Id, place: Id -> Box): Host
    requires s in h.nodes
  {
    WithInput(WithNode(h, Premult, place(h.next)), h.next, 0, s)
  }

  /** Lines 40-41: a new Card reading the Premult `p`. */
  function WithCard(h: Host, p: Id, place: Id -> Box): Host
    requires p in h.nodes
  {
    WithInput(WithNode(h, Card, place(h.next)), h.next, 0, p)
  }

  /** Lines 42-47: the translate and scaling of the card `c` for `rank`. */
  function WithCardKnobs(h: Host, c: Id, rank: nat): Host
    requires c in h.nodes
  {
    WithScaling(WithTranslate(h, c, CardTranslate(rank)), c, CardScaling(rank))
  }

  /** Lines 36-47: the Premult and the Card of the shuffle `s`. */
  function WithLayer(h: Host, s: Id, rank: nat, place: Id -> Box): Host
    requires s in h.nodes
  {
    var h1 := WithPremult(h, s, place);
    WithCardKnobs(WithCard(h1, h.next, place), h1.next, rank)
  }

  // ---------------------------------------------------------------------------
  // The backdrop

  /** nuke.allNodes(): the live nodes in host order. */
  function Listed(h: Host): (r: seq<Id>)
    requires Sound(h)
    ensures forall k :: 0 <= k < |r| ==> r[k] in h.nodes && r[k] in h.order && r[k] !in h.deleted
    ensures forall x :: x in r <==> x in h.order && x !in h.deleted
  {
    var r := Live(h.deleted, h.order);
    assert forall k :: 0 <= k < |r| ==> r[k] in r;
    r
  }

  /** No live backdrop in host order has a box strictly containing the box
      of `s`. */
  ghost predicate NoBackdropAround(g: Graph, order: seq<Id>, deleted: seq<Id>, s: Id)
    requires s in g
  {
    forall b :: b in g && b in order && b !in deleted && g[b].cls == BackdropNode ==>
      !StrictlyInside(BoxOf(g[s]), BoxOf(g[b]))
  }

  /** find_backdrop(s) over nuke.allNodes("BackdropNode"): the first live
      backdrop in host order whose box strictly contains the box of `s`. */
  function BackdropOf(h: Host, s: Id): (r: Option<Id>)
    requires Sound(h) && s in h.nodes
    ensures r.Some? ==> exists k :: FirstContaining(h.nodes, OfClass(h.nodes, Listed(h), BackdropNode), BoxOf(h.nodes[s]), k)
                                    && OfClass(h.nodes, Listed(h), BackdropNode)[k] == r.value
    ensures r.Some? ==> && r.value in h.nodes && r.value in h.order && r.value !in h.deleted
                        && h.nodes[r.value].cls == BackdropNode
                        && StrictlyInside(BoxOf(h.nodes[s]), BoxOf(h.nodes[r.value]))
    ensures r.None? <==> NoBackdropAround(h.nodes, h.order, h.deleted, s)
  {
    var bds := OfClass(h.nodes, Listed(h), BackdropNode);
    assert forall k :: 0 <= k < |bds| ==> bds[k] in bds;
    FindBackdrop(h.nodes, bds, BoxOf(h.nodes[s]))
  }

  /** Line 51: resize_backdrop_to_fit(find_backdrop(s)). With a backdrop
      around `s` it is refitted around the live nodes; with none, the resize
      of None raises (the flag is false) and nothing changes. */
  function Refit(h: Host, s: Id): (r: (bool, Host))
    requires Sound(h) && s in h.order && Alive(h, s) && h.nodes[s].cls != BackdropNode
    ensures Sound(r.1) && r.0 == BackdropOf(h, s).Some? && Kept(h.nodes, r.1.nodes)
    ensures r.1.order == h.order && r.1.deleted == h.deleted && r.1.next == h.next
    ensures r.0 ==> Refitted(h.nodes, Listed(h), BackdropOf(h, s).value, r.1.nodes)
    ensures !r.0 ==> r.1 == h
  {
    match BackdropOf(h, s)
    case None => (false, h)
    case Some(b) =>
      var ids := Listed(h);
      BackdropHoldsOne(h, s, b);
      var m := h.nodes[b := Moved(h.nodes[b], FitBox(h.nodes, ids, b))];
      SameEdgesKeepAcyclic(h.nodes, h.topo, b, m[b]);
      SameKeysConsistent(h.nodes, m, h.order, h.deleted, h.next, h.topo);
      (true, h.(nodes := m))
  }

  /** A backdrop around the live node `s` holds at least the box of `s`. */
  lemma BackdropHoldsOne(h: Host, s: Id, b: Id)
    requires Sound(h) && s in h.order && Alive(h, s) && h.nodes[s].cls != BackdropNode
    requires BackdropOf(h, s) == Some(b)
    ensures |Inside(h.nodes, Listed(h), BoxOf(h.nodes[b]), b)| > 0
  {
    var ids := Listed(h);
    assert s in ids;
    var at :| 0 <= at < |ids| && ids[at] == s;
    InsideExact(h.nodes, ids, BoxOf(h.nodes[b]), b);
    assert BoxOf(h.nodes[s]) in Inside(h.nodes, ids, BoxOf(h.nodes[b]), b);
  }

  // ---------------------------------------------------------------------------
  // The loop over the shuffles

  /** Lines 31-34: the Crop branches below the shuffle `s` removed, as a new
      deletion log. */
  function Cleaned(h: Host, s: Id): (r: Host)
    requires Sound(h) && s in h.nodes && h.nodes[s].cls == Shuffle
    ensures Sound(r) && r.nodes == h.nodes && r.order == h.order && r.next == h.next && r.topo == h.topo
    ensures r.deleted == RemoveCrops(h.nodes, h.topo, h.deleted, s).log
    ensures RemoveCrops(h.nodes, h.topo, h.deleted, s).ok ==> s !in r.deleted
  {
    CleanupSparesShuffle(h, s);
    h.(deleted := RemoveCrops(h.nodes, h.topo, h.deleted, s).log)
  }

  /** The deletion log after a Crop cleanup below the shuffle `s` lists graph
      nodes only, and a cleanup that completes has spared `s`. */
  lemma CleanupSparesShuffle(h: Host, s: Id)
    requires Sound(h) && s in h.nodes && h.nodes[s].cls == Shuffle
    ensures var w := RemoveCrops(h.nodes, h.topo, h.deleted, s);
      && Sound(h.(deleted := w.log))
      && (w.ok ==> s !in w.log)
  {
    var w := RemoveCrops(h.nodes, h.topo, h.deleted, s);
    RemoveCropsSparesShuffle(h.nodes, h.topo, h.deleted, s);
    forall k | 0 <= k < |w.log|
      ensures w.log[k] in h.nodes && (w.ok ==> w.log[k] != s)
    {
      if k < |h.deleted| {
        assert w.log[k] == h.deleted[k];
      }
    }
  }

  /** One iteration of the loop (lines 30-51) for the shuffle `s` of rank
      `rank`: the Crop branches below `s` are removed, its layer is built
      and the backdrop around it is refitted. */
  function Step(h: Host, s: Id, rank: nat, place: Id -> Box): (r: (Option<Failure>, Host))
    requires Sound(h) && s in h.nodes && s in h.order && h.nodes[s].cls == Shuffle
    ensures Sound(r.1) && Kept(h.nodes, r.1.nodes) && h.order <= r.1.order
  {
    var h1 := Cleaned(h, s);
    if !RemoveCrops(h.nodes, h.topo, h.deleted, s).ok then (Some(UsedDeletedNode), h1)
    else
      var f := Layered(h1, s, rank, place);
      (if f.0 then None else Some(NoBackdrop), f.1)
  }

  /** Lines 36-51 for the live shuffle `s`: its layer, then the refit of the
      backdrop around it; false when there is none. */
  function Layered(h: Host, s: Id, rank: nat, place: Id -> Box): (r: (bool, Host))
    requires Sound(h) && s in h.order && Alive(h, s) && h.nodes[s].cls == Shuffle
    ensures Sound(r.1) && Kept(h.nodes, r.1.nodes) && h.order <= r.1.order
  {
    var h2 := WithLayer(h, s, rank, place);
    LayerOf(h, s, rank, place);
    ExtendsKept(h, h2);
    var f := Refit(h2, s);
    KeptTrans(h.nodes, h2.nodes, f.1.nodes);
    f
  }

  /** The fresh id after the next one: the Card of a step, the
      ScanlineRender of the conversion. */
  function AfterNext(h: Host): Id {
    h.next + 1
  }

  /** Where the loop ended: the failure that stopped it, if any, the state,
      and the Premults and Cards built so far, in order. */
  datatype Layering = Layering(stop: Option<Failure>, host: Host, premults: seq<Id>, cards: seq<Id>)

  /** The loop over the shuffles from position `i` on, having built the
      Premults `premults` and the Cards `cards`; layer `k` gets the rank
      OrderFromTop(|shuffles|, k), and a failing step ends the loop. */
  function Run(h: Host, shuffles: seq<Id>, i: nat, premults: seq<Id>, cards: seq<Id>, place: Id -> Box): Layering
    requires Sound(h) && i <= |shuffles| && ShufflesOf(h, shuffles)
    decreases |shuffles| - i
  {
    if i == |shuffles| then Layering(None, h, premults, cards)
    else
      ShuffleOf(h, shuffles, i);
      var st := Step(h, shuffles[i], OrderFromTop(|shuffles|, i), place);
      if st.0.Some? then Layering(st.0, st.1, premults, cards)
      else
        StillShuffles(h, st.1, shuffles);
        Run(st.1, shuffles, i + 1, premults + [h.next], cards + [AfterNext(h)], place)
  }

  /** Every id of `shuffles` is a listed Shuffle node. */
  ghost predicate ShufflesOf(h: Host, shuffles: seq<Id>) {
    forall k :: 0 <= k < |shuffles| ==>
      shuffles[k] in h.nodes && shuffles[k] in h.order && h.nodes[shuffles[k]].cls == Shuffle
  }

  lemma ShuffleOf(h: Host, shuffles: seq<Id>, i: nat)
    requires ShufflesOf(h, shuffles) && i < |shuffles|
    ensures shuffles[i] in h.nodes && shuffles[i] in h.order && h.nodes[shuffles[i]].cls == Shuffle
  {
  }

  /** Keeping every node's wiring and only adding to the listing keeps the
      shuffles. */
  lemma StillShuffles(h: Host, r: Host, shuffles: seq<Id>)
    requires ShufflesOf(h, shuffles) && Kept(h.nodes, r.nodes) && h.order <= r.order
    ensures ShufflesOf(r, shuffles)
  {
    PrefixListed(h.order, r.order);
  }

  /** The shuffles found below a node of a sound graph whose nodes are all
      listed. */
  lemma ShufflesFound(h: Host, read: Id)
    requires Sound(h) && read in h.nodes
    requires forall id :: id in h.nodes ==> id in h.order
    ensures ShufflesOf(h, FindConnectedShuffles(h.nodes, h.topo, read))
  {
  }

  // ---------------------------------------------------------------------------
  // The Scene and the render nodes

  /** Lines 54-55 from slot `j` on: slot `k` of `scene` reads card `k`; a
      setInput that raises ends the loop (the flag is false). */
  function WithInputs(h: Host, scene: Id, cards: seq<Id>, j: nat): (bool, Host)
    decreases |cards| - j
  {
    if j >= |cards| then (true, h)
    else if !Alive(h, scene) || !Alive(h, cards[j]) then (false, h)
    else WithInputs(WithInput(h, scene, j, cards[j]), scene, cards, j + 1)
  }

  /** Lines 53-55: a new Scene reading every card in order. */
  function WithScene(h: Host, cards: seq<Id>, place: Id -> Box): (bool, Host) {
    WithInputs(WithNode(h, Scene, place(h.next)), h.next, cards, 0)
  }

  /** Lines 57-58: a new Camera moved to the camera translate. */
  function WithCamera(h: Host, place: Id -> Box): Host {
    WithTranslate(WithNode(h, Camera, place(h.next)), h.next, CameraTranslate)
  }

  /** Lines 60-62: a new ScanlineRender reading the Camera at input 2, then
      the Scene at input 1. */
  function WithScanline(h: Host, scene: Id, camera: Id, place: Id -> Box): Host
    requires scene in h.nodes && camera in h.nodes
  {
    var h1 := WithNode(h, ScanlineRender, place(h.next));
    WithInput(WithInput(h1, h.next, 2, camera), h.next, 1, scene)
  }

  /** Lines 57-62: the Camera, and the ScanlineRender reading it and `scene`. */
  function WithRender(h: Host, scene: Id, place: Id -> Box): Host
    requires scene in h.nodes
  {
    WithScanline(WithCamera(h, place), scene, h.next, place)
  }

  // ---------------------------------------------------------------------------
  // The conversion

  /** convert_psd_to_cards for the nodes `selected`, on a graph where nothing
      is deleted yet and every node is listed. */
  function Conversion(h: Host, selected: seq<Id>, place: Id -> Box): (Outcome, Host)
    requires Sound(h) && h.deleted == []
    requires forall k :: 0 <= k < |selected| ==> selected[k] in h.nodes
    requires forall id :: id in h.nodes ==> id in h.order
  {
    var v := Guard(h.nodes, selected);
    if v.Refused? then (Failed(Declined(v.message)), h)
    else if v.NothingSelected? then (Failed(NoSelection), h)
    else
      var shuffles := FindConnectedShuffles(h.nodes, h.topo, v.read);
      ShufflesFound(h, v.read);
      var l := Run(h, shuffles, 0, [], [], place);
      if l.stop.Some? then (Failed(l.stop.value), l.host)
      else
        var sc := WithScene(l.host, l.cards, place);
        if !sc.0 then (Failed(UsedDeletedNode), sc.1)
        else
          var scene := l.host.next;
          SceneKept(l.host, l.cards, place);
          (Done(Built(v.read, shuffles, l.premults, l.cards, scene, sc.1.next, AfterNext(sc.1))),
           WithRender(sc.1, scene, place))
  }

  // ---------------------------------------------------------------------------
  // What each host call does

  /** A created node is new, alive, listed last and ranked above every other
      node; nothing else changes. */
  lemma NodeAdded(h: Host, cls: string, at: Box)
    requires Sound(h)
    ensures var r := WithNode(h, cls, at);
      && Sound(r) && Extends(h, r) && r.next == h.next + 1 && r.order == h.order + [h.next]
      && h.next !in h.nodes && Alive(r, h.next) && r.nodes[h.next] == Moved(Created(cls, 0, 0, 0, 0), at)
      && (forall id :: id in h.nodes ==> r.topo[id] < r.topo[h.next])
  {
    AddedConsistent(h.nodes, h.order, h.deleted, h.next, h.topo, Moved(Created(cls, 0, 0, 0, 0), at));
    NewIsLive(h.nodes, h.deleted, h.next);
  }

  /** Connecting a node to one ranked below it keeps the state sound; only
      the two nodes change, and `y` only in its dependents. */
  lemma InputSet(h: Host, x: Id, i: nat, y: Id)
    requires Sound(h) && x in h.nodes && y in h.nodes && h.topo[y] < h.topo[x]
    ensures var r := WithInput(h, x, i, y);
      && Sound(r) && r.order == h.order && r.deleted == h.deleted && r.next == h.next && r.topo == h.topo
      && (forall id :: id in h.nodes ==> id in r.nodes && (id != x ==> Grown(h.nodes[id], r.nodes[id])))
      && r.nodes[x].cls == h.nodes[x].cls && r.nodes[x].inputs == Plug(h.nodes[x].inputs, i, y)
  {
    WiredKeepsAcyclic(h.nodes, h.topo, x, i, y);
    SameKeysConsistent(h.nodes, Wired(h.nodes, x, i, y), h.order, h.deleted, h.next, h.topo);
  }

  /** Setting the translate of a node changes that knob only. */
  lemma TranslateSet(h: Host, n: Id, v: Vec3)
    requires Sound(h) && n in h.nodes
    ensures var r := WithTranslate(h, n, v);
      && Sound(r) && r.order == h.order && r.deleted == h.deleted && r.next == h.next && r.topo == h.topo
      && (forall id :: id in h.nodes ==> id in r.nodes && (id != n ==> r.nodes[id] == h.nodes[id]))
      && r.nodes[n] == h.nodes[n].(translate := v)
  {
    var r := WithTranslate(h, n, v);
    SameEdgesKeepAcyclic(h.nodes, h.topo, n, r.nodes[n]);
    SameKeysConsistent(h.nodes, r.nodes, h.order, h.deleted, h.next, h.topo);
  }

  /** Setting the scaling of a node changes that knob only. */
  lemma ScalingSet(h: Host, n: Id, v: Vec3)
    requires Sound(h) && n in h.nodes
    ensures var r := WithScaling(h, n, v);
      && Sound(r) && r.order == h.order && r.deleted == h.deleted && r.next == h.next && r.topo == h.topo
      && (forall id :: id in h.nodes ==> id in r.nodes && (id != n ==> r.nodes[id] == h.nodes[id]))
      && r.nodes[n] == h.nodes[n].(scaling := v)
  {
    var r := WithScaling(h, n, v);
    SameEdgesKeepAcyclic(h.nodes, h.topo, n, r.nodes[n]);
    SameKeysConsistent(h.nodes, r.nodes, h.order, h.deleted, h.next, h.topo);
  }

  /** A new node of class `cls` reading the live node `y` at input 0. */
  lemma ReaderAdded(h: Host, cls: string, at: Box, y: Id)
    requires Sound(h) && Alive(h, y)
    ensures var r := WithInput(WithNode(h, cls, at), h.next, 0, y);
      && Sound(r) && Extends(h, r) && r.next == h.next + 1 && r.order == h.order + [h.next]
      && Alive(r, h.next) && r.nodes[h.next].cls == cls && r.nodes[h.next].inputs == [Some(y)]
  {
    var h1 := WithNode(h, cls, at);
    NodeAdded(h, cls, at);
    InputSet(h1, h.next, 0, y);
    var r := WithInput(h1, h.next, 0, y);
    ExtendsExcept(h, h1, r, h.next);
  }

  // ---------------------------------------------------------------------------
  // What each part of the conversion builds

  /** A new Card reading the live node `p`, with the card knobs for `rank`. */
  lemma CardAdded(h: Host, p: Id, rank: nat, place: Id -> Box)
    requires Sound(h) && Alive(h, p)
    ensures var r := WithCardKnobs(WithCard(h, p, place), h.next, rank);
      && Sound(r) && Extends(h, r) && r.next == h.next + 1 && r.order == h.order + [h.next]
      && Alive(r, h.next) && r.nodes[h.next].cls == Card && r.nodes[h.next].inputs == [Some(p)]
      && r.nodes[h.next].translate == CardTranslate(rank) && r.nodes[h.next].scaling == CardScaling(rank)
  {
    var c := h.next;
    var h1 := WithCard(h, p, place);
    ReaderAdded(h, Card, place(c), p);
    var h2 := WithTranslate(h1, c, CardTranslate(rank));
    TranslateSet(h1, c, CardTranslate(rank));
    var r := WithScaling(h2, c, CardScaling(rank));
    ScalingSet(h2, c, CardScaling(rank));
    ExtendsExcept(h, h1, r, c);
  }

  /** `r` holds the layer of `s` for `rank` under the fresh ids `p` and
      `p + 1`, both alive, and `p + 2` is the next fresh id. */
  ghost predicate LayerAdded(r: Host, s: Id, p: Id, rank: nat) {
    Layer(r.nodes, s, p, p + 1, rank) && r.next == p + 2 && Alive(r, p) && Alive(r, p + 1)
  }

  /** Keeping every node's wiring, the deletion log and the next fresh id
      keeps a built layer. */
  lemma KeptLayerAdded(l: Host, r: Host, s: Id, p: Id, rank: nat)
    requires LayerAdded(l, s, p, rank) && Kept(l.nodes, r.nodes) && r.deleted == l.deleted && r.next == l.next
    ensures LayerAdded(r, s, p, rank)
  {
    KeptLayer(l.nodes, r.nodes, s, p, p + 1, rank);
  }

  /** The layer of a live shuffle is a Premult reading it under the next
      fresh id and a Card reading the Premult under the one after, with the
      card knobs for `rank`; both are alive and listed last. */
  lemma LayerOf(h: Host, s: Id, rank: nat, place: Id -> Box)
    requires Sound(h) && Alive(h, s)
    ensures var r := WithLayer(h, s, rank, place);
      && Sound(r) && Extends(h, r) && LayerAdded(r, s, h.next, rank)
      && r.order == h.order + [h.next, AfterNext(h)]
  {
    var h1 := WithPremult(h, s, place);
    ReaderAdded(h, Premult, place(h.next), s);
    CardAdded(h1, h.next, rank, place);
    LayerJoined(h, h1, WithLayer(h, s, rank, place), s, rank);
  }

  /** A Premult reading `s` under the next fresh id of `h`, then a Card
      reading that Premult under the one after, make up the layer of `s`. */
  lemma LayerJoined(h: Host, h1: Host, r: Host, s: Id, rank: nat)
    requires Extends(h, h1) && h1.next == h.next + 1 && h1.order == h.order + [h.next]
    requires Alive(h1, h.next) && h1.nodes[h.next].cls == Premult && h1.nodes[h.next].inputs == [Some(s)]
    requires Extends(h1, r) && r.next == h1.next + 1 && r.order == h1.order + [h1.next]
    requires Alive(r, h1.next) && r.nodes[h1.next].cls == Card && r.nodes[h1.next].inputs == [Some(h.next)]
    requires r.nodes[h1.next].translate == CardTranslate(rank) && r.nodes[h1.next].scaling == CardScaling(rank)
    ensures Extends(h, r) && LayerAdded(r, s, h.next, rank) && r.order == h.order + [h.next, AfterNext(h)]
  {
    ExtendsTrans(h, h1, r);
    assert Grown(h1.nodes[h.next], r.nodes[h.next]);
  }

  /** Adding the layer of `s` changes no backdrop and no box that
      find_backdrop(s) looks at. */
  lemma BackdropsUnchanged(h: Host, l: Host, s: Id, rank: nat)
    requires Sound(h) && s in h.nodes && Extends(h, l)
    requires l.order == h.order + [h.next, AfterNext(h)] && LayerAdded(l, s, h.next, rank)
    ensures s in l.nodes && BoxOf(l.nodes[s]) == BoxOf(h.nodes[s])
    ensures NoBackdropAround(l.nodes, l.order, l.deleted, s) <==> NoBackdropAround(h.nodes, h.order, h.deleted, s)
  {
    var p, c := h.next, h.next + 1;
    forall b | b in l.nodes && b in l.order && b !in l.deleted && l.nodes[b].cls == BackdropNode
      ensures b in h.nodes && b in h.order && h.nodes[b].cls == BackdropNode
      ensures BoxOf(l.nodes[b]) == BoxOf(h.nodes[b])
    {
      assert b != p && b != c;
      var k :| 0 <= k < |l.order| && l.order[k] == b;
      assert k < |h.order| && h.order[k] == b;
    }
    forall b | b in h.nodes && b in h.order && b !in h.deleted && h.nodes[b].cls == BackdropNode
      ensures b in l.nodes && b in l.order && l.nodes[b].cls == BackdropNode
      ensures BoxOf(l.nodes[b]) == BoxOf(h.nodes[b])
    {
      PrefixListed(h.order, l.order);
    }
  }

  /** `r` is `l` with the first live backdrop around `s` refitted around the
      live nodes. */
  ghost predicate RefitAround(l: Host, s: Id, r: Host) {
    && Sound(l) && s in l.nodes
    && exists b :: BackdropOf(l, s) == Some(b) && Refitted(l.nodes, Listed(l), b, r.nodes)
  }

  /** The part of a step after the cleanup, from the cleaned state `h`: the
      layer of `s` is built under the next two fresh ids and stays alive
      through the refit; the refit finds a backdrop exactly when one around
      `s` is alive in `h`, and then refits it around the live nodes. */
  lemma LayerRefitted(h: Host, s: Id, rank: nat, place: Id -> Box)
    requires Sound(h) && s in h.order && Alive(h, s) && h.nodes[s].cls == Shuffle
    ensures var l := WithLayer(h, s, rank, place);
      && Sound(l) && s in l.order && Alive(l, s) && l.nodes[s].cls == Shuffle
      && var f := Refit(l, s);
      && LayerAdded(f.1, s, h.next, rank) && f.1.deleted == h.deleted
      && (f.0 <==> !NoBackdropAround(h.nodes, h.order, h.deleted, s))
      && (f.0 ==> RefitAround(l, s, f.1))
  {
    var l := WithLayer(h, s, rank, place);
    LayerOf(h, s, rank, place);
    PrefixListed(h.order, l.order);
    BackdropsUnchanged(h, l, s, rank);
    var f := Refit(l, s);
    KeptLayerAdded(l, f.1, s, h.next, rank);
    if f.0 {
      assert Refitted(l.nodes, Listed(l), BackdropOf(l, s).value, f.1.nodes);
    }
  }

  /** A step that completes builds the layer of `s` under the next two fresh
      ids, and both stay alive. */
  lemma StepLayer(h: Host, s: Id, rank: nat, place: Id -> Box)
    requires Sound(h) && s in h.nodes && s in h.order && h.nodes[s].cls == Shuffle
    ensures var r := Step(h, s, rank, place);
      r.0.None? ==> LayerAdded(r.1, s, h.next, rank)
  {
    if RemoveCrops(h.nodes, h.topo, h.deleted, s).ok {
      var h1 := Cleaned(h, s);
      LayerRefitted(h1, s, rank, place);
      assert Step(h, s, rank, place).1 == Refit(WithLayer(h1, s, rank, place), s).1;
    } else {
      assert Step(h, s, rank, place).0.Some?;
    }
  }

  /** How a step ends: it raises when the cleanup used a deleted node; it
      stops with no backdrop exactly when no live backdrop (after the
      cleanup) strictly contains `s`; otherwise the first such backdrop is
      refitted around the live nodes, the new layer included. The deletion
      log after the step is the cleanup's. */
  lemma StepStops(h: Host, s: Id, rank: nat, place: Id -> Box, stop: Option<Failure>, r: Host)
    requires Sound(h) && s in h.nodes && s in h.order && h.nodes[s].cls == Shuffle
    requires (stop, r) == Step(h, s, rank, place)
    ensures var w := RemoveCrops(h.nodes, h.topo, h.deleted, s);
      && r.deleted == w.log
      && (stop == Some(UsedDeletedNode) <==> !w.ok)
      && (stop == Some(NoBackdrop) <==> w.ok && NoBackdropAround(h.nodes, h.order, w.log, s))
      && (stop.None? ==> && w.ok && LayerAdded(r, s, h.next, rank)
                          && RefitAround(WithLayer(Cleaned(h, s), s, rank, place), s, r))
  {
    StepLayer(h, s, rank, place);
    if RemoveCrops(h.nodes, h.topo, h.deleted, s).ok {
      LayerRefitted(Cleaned(h, s), s, rank, place);
    }
  }

  /** After `i` steps from a state whose fresh ids started at `start`: the
      first `i` layers are built, layer `k` as the Premult `start + 2k` and
      the Card `start + 2k + 1`. */
  ghost predicate Progress(h: Host, shuffles: seq<Id>, i: nat, premults: seq<Id>, cards: seq<Id>, start: nat) {
    && |premults| == i && |cards| == i && h.next == start + 2 * i
    && Layers(h.nodes, shuffles, premults, cards, |shuffles|, i)
    && (forall k :: 0 <= k < i ==> premults[k] == start + 2 * k && cards[k] == start + 2 * k + 1)
  }

  lemma ProgressStarts(h: Host, shuffles: seq<Id>)
    ensures Progress(h, shuffles, 0, [], [], h.next)
  {
  }

  /** A completed step adds the next layer. */
  lemma ProgressGrows(h: Host, r: Host, shuffles: seq<Id>, i: nat, premults: seq<Id>, cards: seq<Id>, start: nat)
    requires Progress(h, shuffles, i, premults, cards, start) && i < |shuffles|
    requires Kept(h.nodes, r.nodes) && LayerAdded(r, shuffles[i], h.next, OrderFromTop(|shuffles|, i))
    ensures Progress(r, shuffles, i + 1, premults + [h.next], cards + [AfterNext(h)], start)
  {
    var n := |shuffles|;
    KeptLayers(h.nodes, r.nodes, shuffles, premults, cards, n, i);
    LayersGrow(r.nodes, shuffles, premults, cards, n, i, h.next, AfterNext(h));
  }

  /** Every card of the finished layers is a node. */
  lemma ProgressCards(h: Host, shuffles: seq<Id>, premults: seq<Id>, cards: seq<Id>, start: nat)
    requires Progress(h, shuffles, |shuffles|, premults, cards, start)
    ensures forall k :: 0 <= k < |cards| ==> cards[k] in h.nodes
  {
    forall k | 0 <= k < |cards|
      ensures cards[k] in h.nodes
    {
      assert Layer(h.nodes, shuffles[k], premults[k], cards[k], OrderFromTop(|shuffles|, k));
    }
  }

  /** The loop builds one layer per shuffle, in order, under consecutive
      fresh ids, and keeps every node's wiring. */
  lemma {:induction false} RunLayers(h: Host, shuffles: seq<Id>, i: nat, premults: seq<Id>, cards: seq<Id>,
                                     place: Id -> Box, start: nat)
    requires Sound(h) && i <= |shuffles| && ShufflesOf(h, shuffles)
    requires Progress(h, shuffles, i, premults, cards, start)
    ensures var l := Run(h, shuffles, i, premults, cards, place);
      && Sound(l.host) && Kept(h.nodes, l.host.nodes)
      && (l.stop.None? ==> Progress(l.host, shuffles, |shuffles|, l.premults, l.cards, start))
    decreases |shuffles| - i
  {
    var n := |shuffles|;
    if i < n {
      ShuffleOf(h, shuffles, i);
      var st := Step(h, shuffles[i], OrderFromTop(n, i), place);
      if st.0.None? {
        StepLayer(h, shuffles[i], OrderFromTop(n, i), place);
        ProgressGrows(h, st.1, shuffles, i, premults, cards, start);
        StillShuffles(h, st.1, shuffles);
        var l := Run(st.1, shuffles, i + 1, premults + [h.next], cards + [AfterNext(h)], place);
        RunNext(h, shuffles, i, premults, cards, place);
        RunLayers(st.1, shuffles, i + 1, premults + [h.next], cards + [AfterNext(h)], place, start);
        RunJoined(h.nodes, st.1.nodes, l, Run(h, shuffles, i, premults, cards, place), shuffles, start);
      }
    }
  }

  /** The loop from `l0` ends as the loop from a state `b` between, kept
      from `g`, does. */
  lemma RunJoined(g: Graph, b: Graph, l: Layering, l0: Layering, shuffles: seq<Id>, start: nat)
    requires l0 == l && Kept(g, b) && Sound(l.host) && Kept(b, l.host.nodes)
    requires l.stop.None? ==> Progress(l.host, shuffles, |shuffles|, l.premults, l.cards, start)
    ensures && Sound(l0.host) && Kept(g, l0.host.nodes)
            && (l0.stop.None? ==> Progress(l0.host, shuffles, |shuffles|, l0.premults, l0.cards, start))
  {
    KeptTrans(g, b, l.host.nodes);
  }

  /** A completed step hands the loop on to the next shuffle. */
  lemma RunNext(h: Host, shuffles: seq<Id>, i: nat, premults: seq<Id>, cards: seq<Id>, place: Id -> Box)
    requires Sound(h) && i < |shuffles| && ShufflesOf(h, shuffles)
    requires shuffles[i] in h.nodes && shuffles[i] in h.order && h.nodes[shuffles[i]].cls == Shuffle
    ensures var st := Step(h, shuffles[i], OrderFromTop(|shuffles|, i), place);
      st.0.None? ==> && ShufflesOf(st.1, shuffles)
                     && Run(h, shuffles, i, premults, cards, place)
                        == Run(st.1, shuffles, i + 1, premults + [h.next], cards + [AfterNext(h)], place)
  {
    var st := Step(h, shuffles[i], OrderFromTop(|shuffles|, i), place);
    if st.0.None? {
      StillShuffles(h, st.1, shuffles);
    }
  }

  // ---------------------------------------------------------------------------
  // The Premults stay with their Cards

  /** For every finished layer: its Card is the only reader of its Premult
      and is listed among the Premult's dependents, and the Premult is
      deleted only if the Card is. */
  ghost predicate PremultsGuarded(h: Host, premults: seq<Id>, cards: seq<Id>) {
    && |premults| == |cards|
    && forall k :: 0 <= k < |premults| ==>
         && SoleReader(h.nodes, premults[k], cards[k]) && h.nodes[premults[k]].cls == Premult
         && Guarded(h.deleted, premults[k], cards[k])
  }

  /** `r` is `g` with the new node `x` reading `y`: only `y`'s dependents
      change, `y` lists `x` last, and `x` lists none. */
  ghost predicate ReaderDependents(g: Graph, r: Graph, x: Id, y: Id) {
    && r.Keys == g.Keys + {x}
    && (forall id :: id in g && id != y ==> r[id].dependents == g[id].dependents)
    && y in g && r[y].dependents == g[y].dependents + [x] && x in r && r[x].dependents == []
  }

  /** A new node wired to read `y`, as a Premult or a Card is. */
  lemma ReaderDependentsOf(h: Host, cls: string, at: Box, y: Id)
    requires h.next !in h.nodes && y in h.nodes
    ensures ReaderDependents(h.nodes, WithInput(WithNode(h, cls, at), h.next, 0, y).nodes, h.next, y)
  {
    var h1 := WithNode(h, cls, at);
    WiredChanges(h1.nodes, h.next, 0, y);
    WiredDependents(h1.nodes, h.next, 0, y);
  }

  /** `r` is `g` with two new nodes `p` and `c`: no node's dependents but
      those of `s` change, and `p` lists `c` alone. */
  ghost predicate LayerDeps(g: Graph, r: Graph, s: Id, p: Id, c: Id) {
    && (forall id :: id in g && id != s ==> id in r && r[id].dependents == g[id].dependents)
    && p in r && r[p].dependents == [c]
    && (forall id :: id in r ==> id in g || id == p || id == c)
  }

  /** Building the layer of `s` changes the dependents of no node but `s`,
      adds only the Premult and the Card, and the Premult lists the Card. */
  lemma LayerDependents(h: Host, s: Id, rank: nat, place: Id -> Box)
    requires s in h.nodes && h.next !in h.nodes && AfterNext(h) !in h.nodes
    ensures LayerDeps(h.nodes, WithLayer(h, s, rank, place).nodes, s, h.next, AfterNext(h))
  {
    var h1 := WithPremult(h, s, place);
    ReaderDependentsOf(h, Premult, place(h.next), s);
    var h2 := WithCard(h1, h.next, place);
    ReaderDependentsOf(h1, Card, place(h1.next), h.next);
    KnobsKeepDependents(h2, h1.next, rank);
    LayerDependentsJoined(h.nodes, h1.nodes, h2.nodes, WithLayer(h, s, rank, place).nodes, s, h.next, h1.next);
  }

  /** The card knobs change no node's dependents. */
  lemma KnobsKeepDependents(h: Host, c: Id, rank: nat)
    requires c in h.nodes
    ensures var r := WithCardKnobs(h, c, rank);
      && r.nodes.Keys == h.nodes.Keys
      && forall id :: id in h.nodes ==> r.nodes[id].dependents == h.nodes[id].dependents
  {
  }

  /** A Premult `p` reading `s`, then a Card `c` reading `p`. */
  lemma LayerDependentsJoined(g: Graph, g1: Graph, g2: Graph, r: Graph, s: Id, p: Id, c: Id)
    requires p !in g && ReaderDependents(g, g1, p, s) && ReaderDependents(g1, g2, c, p) && c != p
    requires r.Keys == g2.Keys && forall id :: id in g2 ==> r[id].dependents == g2[id].dependents
    ensures LayerDeps(g, r, s, p, c)
  {
  }

  /** `r` has the nodes of `g`, each with the same dependents. */
  ghost predicate SameDependents(g: Graph, r: Graph) {
    && r.Keys == g.Keys
    && forall id :: id in g ==> r[id].dependents == g[id].dependents
  }

  /** The refit moves a backdrop only: no node is added and no node's
      dependents change. */
  lemma RefitDependents(h: Host, s: Id)
    requires Sound(h) && s in h.order && Alive(h, s) && h.nodes[s].cls != BackdropNode
    ensures SameDependents(h.nodes, Refit(h, s).1.nodes)
  {
    var f := Refit(h, s);
    if f.0 {
      var b := BackdropOf(h, s).value;
      assert f.1.nodes == h.nodes[b := Moved(h.nodes[b], FitBox(h.nodes, Listed(h), b))];
    }
  }

  /** The layer, then a change that keeps every node's dependents. */
  lemma LayerDepsKept(g: Graph, l: Graph, r: Graph, s: Id, p: Id, c: Id)
    requires LayerDeps(g, l, s, p, c) && SameDependents(l, r)
    ensures LayerDeps(g, r, s, p, c)
  {
  }

  /** The layer of `s` and the refit around it change the dependents of
      no node but `s`, add only the Premult and the Card, and the Premult
      lists the Card. */
  lemma LayeredDependents(h: Host, s: Id, rank: nat, place: Id -> Box)
    requires Sound(h) && s in h.order && Alive(h, s) && h.nodes[s].cls == Shuffle
    ensures LayerDeps(h.nodes, Layered(h, s, rank, place).1.nodes, s, h.next, AfterNext(h))
  {
    var l := WithLayer(h, s, rank, place);
    LayerOf(h, s, rank, place);
    LayerDependents(h, s, rank, place);
    RefitDependents(l, s);
    LayerDepsKept(h.nodes, l.nodes, Refit(l, s).1.nodes, s, h.next, AfterNext(h));
  }

  /** LayerDeps read through equal arguments. */
  lemma LayerDepsSame(g: Graph, r: Graph, g': Graph, r': Graph, s: Id, p: Id, p': Id, c: Id, c': Id)
    requires LayerDeps(g, r, s, p, c) && g' == g && r' == r && p' == p && c' == c
    ensures LayerDeps(g', r', s, p', c')
  {
  }

  /** A completed step changes the dependents of no node but `s`, adds
      only its Premult and its Card, and the Premult lists the Card. */
  lemma StepDependents(h: Host, s: Id, rank: nat, place: Id -> Box)
    requires Sound(h) && s in h.nodes && s in h.order && h.nodes[s].cls == Shuffle
    ensures var st := Step(h, s, rank, place);
      st.0.None? ==> LayerDeps(h.nodes, st.1.nodes, s, h.next, AfterNext(h))
  {
    if RemoveCrops(h.nodes, h.topo, h.deleted, s).ok {
      var h1 := Cleaned(h, s);
      LayeredDependents(h1, s, rank, place);
      assert Step(h, s, rank, place).1 == Layered(h1, s, rank, place).1;
      LayerDepsSame(h1.nodes, Layered(h1, s, rank, place).1.nodes, h.nodes, Step(h, s, rank, place).1.nodes,
                    s, h1.next, h.next, AfterNext(h1), AfterNext(h));
    } else {
      assert Step(h, s, rank, place).0.Some?;
    }
  }

  /** A completed step keeps every finished Premult with its Card, through
      the cleanup and the new layer, and adds the new pair. */
  lemma StepGuards(h: Host, s: Id, rank: nat, place: Id -> Box, stop: Option<Failure>, r: Host,
                   premults: seq<Id>, cards: seq<Id>)
    requires Sound(h) && s in h.nodes && s in h.order && h.nodes[s].cls == Shuffle
    requires (stop, r) == Step(h, s, rank, place)
    requires PremultsGuarded(h, premults, cards)
    ensures stop.None? ==> PremultsGuarded(r, premults + [h.next], cards + [AfterNext(h)])
  {
    StepStops(h, s, rank, place, stop, r);
    StepDependents(h, s, rank, place);
    if stop.None? {
      CleanupSparesShuffle(h, s);
      PairsAfterStep(h, r, s, rank, premults, cards);
    }
  }

  /** The finished pairs and the new one after a completed step. */
  lemma PairsAfterStep(h: Host, r: Host, s: Id, rank: nat, premults: seq<Id>, cards: seq<Id>)
    requires Sound(h) && s in h.nodes && h.nodes[s].cls == Shuffle && PremultsGuarded(h, premults, cards)
    requires var w := RemoveCrops(h.nodes, h.topo, h.deleted, s);
      w.ok && r.deleted == w.log && Sound(h.(deleted := w.log))
    requires Kept(h.nodes, r.nodes) && LayerAdded(r, s, h.next, rank)
    requires LayerDeps(h.nodes, r.nodes, s, h.next, AfterNext(h))
    ensures PremultsGuarded(r, premults + [h.next], cards + [AfterNext(h)])
  {
    forall k | 0 <= k < |premults|
      ensures SoleReader(r.nodes, premults[k], cards[k]) && r.nodes[premults[k]].cls == Premult
      ensures Guarded(r.deleted, premults[k], cards[k])
    {
      PairKept(h, r, s, premults[k], cards[k], rank);
      RemoveCropsGuards(h.nodes, h.topo, h.deleted, s, premults[k], cards[k]);
    }
    NewPairGuarded(h, r, s, rank);
  }

  /** A finished pair stays a pair when a step adds the layer of `s`. */
  lemma PairKept(h: Host, r: Host, s: Id, p: Id, c: Id, rank: nat)
    requires Sound(h) && s in h.nodes && h.nodes[s].cls == Shuffle
    requires SoleReader(h.nodes, p, c) && h.nodes[p].cls == Premult
    requires Kept(h.nodes, r.nodes) && LayerAdded(r, s, h.next, rank)
    requires forall id :: id in h.nodes && id != s ==> id in r.nodes && r.nodes[id].dependents == h.nodes[id].dependents
    requires forall id :: id in r.nodes ==> id in h.nodes || id == h.next || id == AfterNext(h)
    ensures SoleReader(r.nodes, p, c) && r.nodes[p].cls == Premult
  {
    forall id | id in r.nodes && p in Dependencies(r.nodes[id])
      ensures id == c
    {
      if id in h.nodes {
        assert r.nodes[id].inputs == h.nodes[id].inputs;
      }
    }
  }

  /** The Premult and the Card of a completed step make a new pair. */
  lemma NewPairGuarded(h: Host, r: Host, s: Id, rank: nat)
    requires Sound(h) && s in h.nodes
    requires Kept(h.nodes, r.nodes) && LayerAdded(r, s, h.next, rank) && r.deleted == RemoveCrops(h.nodes, h.topo, h.deleted, s).log
    requires Sound(h.(deleted := r.deleted))
    requires h.next in r.nodes && r.nodes[h.next].dependents == [AfterNext(h)]
    requires forall id :: id in r.nodes ==> id in h.nodes || id == h.next || id == AfterNext(h)
    ensures SoleReader(r.nodes, h.next, AfterNext(h)) && r.nodes[h.next].cls == Premult
    ensures Guarded(r.deleted, h.next, AfterNext(h))
  {
    forall id | id in r.nodes && h.next in Dependencies(r.nodes[id])
      ensures id == AfterNext(h)
    {
    }
  }

  /** The loop keeps every Premult with its Card. */
  lemma {:induction false} RunGuards(h: Host, shuffles: seq<Id>, i: nat, premults: seq<Id>, cards: seq<Id>,
                                     place: Id -> Box)
    requires Sound(h) && i <= |shuffles| && ShufflesOf(h, shuffles)
    requires PremultsGuarded(h, premults, cards)
    ensures var l := Run(h, shuffles, i, premults, cards, place);
      l.stop.None? ==> PremultsGuarded(l.host, l.premults, l.cards)
    decreases |shuffles| - i
  {
    if i < |shuffles| {
      ShuffleOf(h, shuffles, i);
      var st := Step(h, shuffles[i], OrderFromTop(|shuffles|, i), place);
      if st.0.None? {
        StepGuards(h, shuffles[i], OrderFromTop(|shuffles|, i), place, st.0, st.1, premults, cards);
        RunNext(h, shuffles, i, premults, cards, place);
        RunGuards(st.1, shuffles, i + 1, premults + [h.next], cards + [AfterNext(h)], place);
      }
    }
  }

  /** Connecting cards never adds or removes a node. */
  lemma {:induction false} InputsKeepNodes(h: Host, scene: Id, cards: seq<Id>, j: nat)
    ensures WithInputs(h, scene, cards, j).1.nodes.Keys == h.nodes.Keys
    decreases |cards| - j
  {
    if j < |cards| && Alive(h, scene) && Alive(h, cards[j]) {
      InputsKeepNodes(WithInput(h, scene, j, cards[j]), scene, cards, j + 1);
    }
  }

  /** The Scene stays a node while the cards are connected. */
  lemma SceneKept(h: Host, cards: seq<Id>, place: Id -> Box)
    ensures h.next in WithScene(h, cards, place).1.nodes
  {
    InputsKeepNodes(WithNode(h, Scene, place(h.next)), h.next, cards, 0);
  }

  /** Every card is a node ranked below the Scene. */
  ghost predicate CardsBelow(h: Host, scene: Id, cards: seq<Id>) {
    forall k :: 0 <= k < |cards| ==> cards[k] in h.nodes && cards[k] in h.topo && scene in h.topo && h.topo[cards[k]] < h.topo[scene]
  }

  /** `r` is `h` sound again with no node changed but the Scene, whose
      class stays. */
  ghost predicate SceneOnly(h: Host, r: Host, scene: Id) {
    && Sound(r) && r.order == h.order && r.deleted == h.deleted && r.next == h.next
    && GrownBut(h.nodes, r.nodes, scene) && scene in h.nodes && scene in r.nodes
    && r.nodes[scene].cls == h.nodes[scene].cls
  }

  /** Connecting one card keeps the state sound and changes no node but the
      Scene. */
  lemma InputKeeps(h: Host, scene: Id, cards: seq<Id>, j: nat)
    requires Sound(h) && Alive(h, scene) && CardsBelow(h, scene, cards) && j < |cards|
    ensures var r := WithInput(h, scene, j, cards[j]);
      SceneOnly(h, r, scene) && Alive(r, scene) && CardsBelow(r, scene, cards)
  {
    InputSet(h, scene, j, cards[j]);
  }

  /** Connecting the cards from slot `j` on keeps the state sound and
      changes no node but the Scene. */
  lemma {:induction false} InputsKeep(h: Host, scene: Id, cards: seq<Id>, j: nat)
    requires Sound(h) && Alive(h, scene) && CardsBelow(h, scene, cards)
    ensures SceneOnly(h, WithInputs(h, scene, cards, j).1, scene)
    decreases |cards| - j
  {
    if j < |cards| && cards[j] !in h.deleted {
      var h1 := WithInput(h, scene, j, cards[j]);
      InputKeeps(h, scene, cards, j);
      InputsKeep(h1, scene, cards, j + 1);
      SceneOnlyTrans(h, h1, WithInputs(h1, scene, cards, j + 1).1, scene);
    }
  }

  lemma SceneOnlyTrans(a: Host, b: Host, c: Host, scene: Id)
    requires SceneOnly(a, b, scene) && SceneOnly(b, c, scene)
    ensures SceneOnly(a, c, scene)
  {
    GrownButTrans(a.nodes, b.nodes, c.nodes, scene);
  }

  /** Connecting the cards from slot `j` on completes exactly when none of
      them is deleted, and then slot `k` of the Scene reads card `k`. */
  lemma {:induction false} InputsWired(h: Host, scene: Id, cards: seq<Id>, j: nat)
    requires Sound(h) && Alive(h, scene) && j <= |cards|
    requires forall k :: 0 <= k < |cards| ==> cards[k] in h.nodes && h.topo[cards[k]] < h.topo[scene]
    requires |h.nodes[scene].inputs| == j
    requires forall k :: 0 <= k < j ==> h.nodes[scene].inputs[k] == Some(cards[k])
    ensures var r := WithInputs(h, scene, cards, j);
      && (r.0 <==> forall k :: j <= k < |cards| ==> cards[k] !in h.deleted)
      && (r.0 ==> && scene in r.1.nodes && |r.1.nodes[scene].inputs| == |cards|
                  && forall k :: 0 <= k < |cards| ==> r.1.nodes[scene].inputs[k] == Some(cards[k]))
    decreases |cards| - j
  {
    if j < |cards| && cards[j] !in h.deleted {
      var h1 := WithInput(h, scene, j, cards[j]);
      InputSet(h, scene, j, cards[j]);
      assert h1.nodes[scene].inputs == h.nodes[scene].inputs + [Some(cards[j])];
      InputsWired(h1, scene, cards, j + 1);
    }
  }

  /** The Scene is the next fresh node and stays alive; it reads every card
      in order exactly when no card is deleted. */
  lemma SceneWired(h: Host, cards: seq<Id>, place: Id -> Box)
    requires Sound(h) && forall k :: 0 <= k < |cards| ==> cards[k] in h.nodes
    ensures var r := WithScene(h, cards, place);
      && Sound(r.1) && Extends(h, r.1) && r.1.next == h.next + 1
      && Alive(r.1, h.next) && r.1.nodes[h.next].cls == Scene
      && (r.0 <==> forall k :: 0 <= k < |cards| ==> cards[k] !in h.deleted)
      && (r.0 ==> SceneOf(r.1.nodes, h.next, cards))
  {
    var h1 := WithNode(h, Scene, place(h.next));
    NodeAdded(h, Scene, place(h.next));
    InputsKeep(h1, h.next, cards, 0);
    InputsWired(h1, h.next, cards, 0);
    ExtendsExcept(h, h1, WithScene(h, cards, place).1, h.next);
  }

  /** The Camera is the next fresh node, alive and moved to the camera
      translate. */
  lemma CameraAdded(h: Host, place: Id -> Box)
    requires Sound(h)
    ensures var r := WithCamera(h, place);
      && Sound(r) && Extends(h, r) && r.next == h.next + 1 && r.order == h.order + [h.next]
      && Alive(r, h.next) && CameraOf(r.nodes, h.next)
  {
    var h0 := WithNode(h, Camera, place(h.next));
    NodeAdded(h, Camera, place(h.next));
    TranslateSet(h0, h.next, CameraTranslate);
    ExtendsExcept(h, h0, WithCamera(h, place), h.next);
  }

  /** The ScanlineRender is the next fresh node, alive, reading `scene` at
      input 1 and `camera` at input 2. */
  lemma ScanlineAdded(h: Host, scene: Id, camera: Id, place: Id -> Box)
    requires Sound(h) && Alive(h, scene) && Alive(h, camera)
    ensures var r := WithScanline(h, scene, camera, place);
      && Sound(r) && Extends(h, r) && r.next == h.next + 1
      && Alive(r, h.next) && ScanlineOf(r.nodes, h.next, scene, camera)
  {
    var scanline := h.next;
    var h1 := WithNode(h, ScanlineRender, place(scanline));
    NodeAdded(h, ScanlineRender, place(scanline));
    var h2 := WithInput(h1, scanline, 2, camera);
    InputSet(h1, scanline, 2, camera);
    assert h2.nodes[scanline].inputs == [None, None, Some(camera)];
    var r := WithInput(h2, scanline, 1, scene);
    InputSet(h2, scanline, 1, scene);
    assert r.nodes[scanline].inputs == [None, Some(scene), Some(camera)];
    ExtendsExcept(h, h1, h2, scanline);
    ExtendsExcept(h, h2, r, scanline);
  }

  /** The Camera is the next fresh node, moved to the camera translate, and
      the ScanlineRender the one after, reading the Scene at input 1 and the
      Camera at input 2; both stay alive. */
  lemma RenderWired(h: Host, scene: Id, place: Id -> Box)
    requires Sound(h) && Alive(h, scene)
    ensures var r := WithRender(h, scene, place);
      && Sound(r) && Extends(h, r) && r.next == h.next + 2
      && Alive(r, h.next) && CameraOf(r.nodes, h.next)
      && Alive(r, AfterNext(h)) && ScanlineOf(r.nodes, AfterNext(h), scene, h.next)
  {
    var h1 := WithCamera(h, place);
    CameraAdded(h, place);
    ScanlineAdded(h1, scene, h.next, place);
    RenderJoined(h, h1, WithRender(h, scene, place), scene);
  }

  /** A Camera under the next fresh id of `h`, then a ScanlineRender reading
      it under the one after, make up the render nodes. */
  lemma RenderJoined(h: Host, h1: Host, r: Host, scene: Id)
    requires Extends(h, h1) && h1.next == h.next + 1 && Alive(h1, h.next) && CameraOf(h1.nodes, h.next)
    requires Extends(h1, r) && r.next == h1.next + 1
    requires Alive(r, h1.next) && ScanlineOf(r.nodes, h1.next, scene, h.next)
    ensures Extends(h, r) && r.next == h.next + 2 && Alive(r, h.next) && CameraOf(r.nodes, h.next)
    ensures Alive(r, AfterNext(h)) && ScanlineOf(r.nodes, AfterNext(h), scene, h.next)
  {
    ExtendsTrans(h, h1, r);
    assert Grown(h1.nodes[h.next], r.nodes[h.next]);
  }

  // ---------------------------------------------------------------------------
  // What the conversion does

  /** A refused selection, or none at all, leaves the state as it was. */
  lemma ConversionRefuses(h: Host, selected: seq<Id>, place: Id -> Box, out: Outcome, r: Host)
    requires Sound(h) && h.deleted == []
    requires forall k :: 0 <= k < |selected| ==> selected[k] in h.nodes
    requires forall id :: id in h.nodes ==> id in h.order
    requires (out, r) == Conversion(h, selected, place)
    ensures var v := Guard(h.nodes, selected);
      && (v.Refused? ==> out == Failed(Declined(v.message)) && r == h)
      && (v.NothingSelected? ==> out == Failed(NoSelection) && r == h)
      && (!v.Admit? ==> out.Failed?)
  {
  }

  /** The conversion completes exactly when the selection is one PSD Read,
      every step of the loop over its shuffles completes, and no card is
      deleted by a later cleanup; otherwise it reports why it stopped. */
  lemma ConversionCompletes(h: Host, selected: seq<Id>, place: Id -> Box, out: Outcome, r: Host)
    requires Sound(h) && h.deleted == []
    requires forall k :: 0 <= k < |selected| ==> selected[k] in h.nodes
    requires forall id :: id in h.nodes ==> id in h.order
    requires (out, r) == Conversion(h, selected, place)
    ensures var v := Guard(h.nodes, selected);
      v.Admit? ==>
        var l := Run(h, FindConnectedShuffles(h.nodes, h.topo, v.read), 0, [], [], place);
        && (out.Done? <==> l.stop.None? && forall k :: 0 <= k < |l.cards| ==> l.cards[k] !in l.host.deleted)
        && (l.stop.Some? ==> out == Failed(l.stop.value))
        && (l.stop.None? && !out.Done? ==> out == Failed(UsedDeletedNode))
  {
    var v := Guard(h.nodes, selected);
    if v.Admit? {
      var shuffles := FindConnectedShuffles(h.nodes, h.topo, v.read);
      var l := Run(h, shuffles, 0, [], [], place);
      ShufflesFound(h, v.read);
      ProgressStarts(h, shuffles);
      RunLayers(h, shuffles, 0, [], [], place, h.next);
      if l.stop.None? {
        ProgressCards(l.host, shuffles, l.premults, l.cards, h.next);
        SceneWired(l.host, l.cards, place);
      }
    }
  }

  /** After the loop ended in `h` with the cards `cards`: `sc` adds the
      Scene reading every card, none of them deleted, and `r` adds the
      Camera and the ScanlineRender reading the Scene and the Camera; the
      three are alive. */
  ghost predicate Finished(h: Host, cards: seq<Id>, sc: Host, r: Host) {
    && Extends(h, sc) && sc.next == h.next + 1
    && Alive(sc, h.next) && SceneOf(sc.nodes, h.next, cards)
    && (forall k :: 0 <= k < |cards| ==> cards[k] !in h.deleted)
    && Extends(sc, r) && r.next == sc.next + 2
    && Alive(r, sc.next) && CameraOf(r.nodes, sc.next)
    && Alive(r, AfterNext(sc)) && ScanlineOf(r.nodes, AfterNext(sc), h.next, sc.next)
  }

  /** The steps after the loop, when the Scene reads every card. */
  lemma Finish(h: Host, cards: seq<Id>, place: Id -> Box)
    requires Sound(h) && forall k :: 0 <= k < |cards| ==> cards[k] in h.nodes
    ensures var sc := WithScene(h, cards, place);
      sc.0 ==> Sound(sc.1) && Alive(sc.1, h.next) && Finished(h, cards, sc.1, WithRender(sc.1, h.next, place))
  {
    var sc := WithScene(h, cards, place);
    SceneWired(h, cards, place);
    if sc.0 {
      RenderWired(sc.1, h.next, place);
    }
  }

  /** What a completed conversion of `h` ending in `r` built, as the script
      promises: the nodes of `b` (Converted), under exactly 2N + 3 fresh ids
      for N shuffles, the layers first, then the Scene, the Camera and the
      ScanlineRender; every Premult, every Card and the three final
      nodes are alive. */
  ghost predicate BuiltFrom(h: Host, r: Host, b: Built) {
    && Sound(h) && b.read in h.nodes
    && Converted(h.nodes, h.topo, h.next, r.nodes, b)
    && FreshAndAlive(h, r, b)
  }

  /** The ids and the liveness part of BuiltFrom. */
  ghost predicate FreshAndAlive(h: Host, r: Host, b: Built) {
    var n := |b.shuffles|;
    && |b.premults| == n && |b.cards| == n
    && r.next == h.next + 2 * n + 3
    && (forall k :: 0 <= k < n ==> b.premults[k] == h.next + 2 * k && b.cards[k] == h.next + 2 * k + 1)
    && b.scene == h.next + 2 * n && b.camera == b.scene + 1 && b.scanline == b.scene + 2
    && (forall k :: 0 <= k < n ==> Alive(r, b.premults[k]))
    && (forall k :: 0 <= k < n ==> Alive(r, b.cards[k]))
    && Alive(r, b.scene) && Alive(r, b.camera) && Alive(r, b.scanline)
  }

  /** What the parts of a completed conversion add up to: `b` is built by
      the loop `l`, the Scene step `sc` and the render step ending in `r`. */
  lemma Assembled(h: Host, shuffles: seq<Id>, l: Layering, sc: (bool, Host), b: Built, r: Host)
    requires Sound(h) && b.read in h.nodes && shuffles == FindConnectedShuffles(h.nodes, h.topo, b.read)
    requires b == Built(b.read, shuffles, l.premults, l.cards, l.host.next, sc.1.next, AfterNext(sc.1))
    requires Kept(h.nodes, l.host.nodes) && Progress(l.host, shuffles, |shuffles|, l.premults, l.cards, h.next)
    requires Finished(l.host, l.cards, sc.1, r)
    requires forall k :: 0 <= k < |l.premults| ==> Alive(l.host, l.premults[k])
    ensures BuiltFrom(h, r, b)
  {
    var n := |shuffles|;
    AssembledFresh(h, shuffles, l, sc, b, r);
    ExtendsTrans(l.host, sc.1, r);
    ExtendsKept(l.host, r);
    KeptLayers(l.host.nodes, r.nodes, shuffles, l.premults, l.cards, n, n);
    assert Grown(sc.1.nodes[b.scene], r.nodes[b.scene]);
  }

  /** The fresh ids of a completed conversion, and the nodes under them
      that are alive at its end. */
  lemma AssembledFresh(h: Host, shuffles: seq<Id>, l: Layering, sc: (bool, Host), b: Built, r: Host)
    requires b == Built(b.read, shuffles, l.premults, l.cards, l.host.next, sc.1.next, AfterNext(sc.1))
    requires Progress(l.host, shuffles, |shuffles|, l.premults, l.cards, h.next)
    requires Finished(l.host, l.cards, sc.1, r)
    requires forall k :: 0 <= k < |l.premults| ==> Alive(l.host, l.premults[k])
    ensures FreshAndAlive(h, r, b)
  {
    ProgressCards(l.host, shuffles, l.premults, l.cards, h.next);
    ExtendsTrans(l.host, sc.1, r);
    AliveExtends(l.host, r, l.premults);
  }

  /** Nodes alive in `h` stay alive in an extension of `h`. */
  lemma AliveExtends(h: Host, r: Host, xs: seq<Id>)
    requires Extends(h, r) && forall k :: 0 <= k < |xs| ==> Alive(h, xs[k])
    ensures forall k :: 0 <= k < |xs| ==> Alive(r, xs[k])
  {
  }

  /** A Premult whose Card is not deleted is not deleted either. */
  lemma PremultsAlive(h: Host, premults: seq<Id>, cards: seq<Id>)
    requires PremultsGuarded(h, premults, cards)
    requires forall k :: 0 <= k < |cards| ==> cards[k] !in h.deleted
    ensures forall k :: 0 <= k < |premults| ==> Alive(h, premults[k])
  {
    forall k | 0 <= k < |premults|
      ensures Alive(h, premults[k])
    {
      assert Guarded(h.deleted, premults[k], cards[k]);
    }
  }

  /** A completed conversion built what the script promises (BuiltFrom)
      from the Read the guard admitted. */
  lemma ConversionBuilds(h: Host, selected: seq<Id>, place: Id -> Box, out: Outcome, r: Host)
    requires Sound(h) && h.deleted == []
    requires forall k :: 0 <= k < |selected| ==> selected[k] in h.nodes
    requires forall id :: id in h.nodes ==> id in h.order
    requires (out, r) == Conversion(h, selected, place)
    ensures out.Done? ==>
      && Guard(h.nodes, selected) == Admit(out.built.read) && out.built.read in h.nodes
      && BuiltFrom(h, r, out.built)
  {
    var v := Guard(h.nodes, selected);
    if out.Done? {
      var shuffles := FindConnectedShuffles(h.nodes, h.topo, v.read);
      var l := Run(h, shuffles, 0, [], [], place);
      ShufflesFound(h, v.read);
      ProgressStarts(h, shuffles);
      RunLayers(h, shuffles, 0, [], [], place, h.next);
      RunGuards(h, shuffles, 0, [], [], place);
      ProgressCards(l.host, shuffles, l.premults, l.cards, h.next);
      var sc := WithScene(l.host, l.cards, place);
      Finish(l.host, l.cards, place);
      PremultsAlive(l.host, l.premults, l.cards);
      Assembled(h, shuffles, l, sc, out.built, r);
    }
  }

  // ---------------------------------------------------------------------------
  // Helpers

  /** Only growing dependents keeps every node's wiring. */
  lemma ExtendsKept(h: Host, r: Host)
    requires Extends(h, r)
    ensures Kept(h.nodes, r.nodes)
  {
  }

  lemma ExtendsTrans(a: Host, b: Host, c: Host)
    requires Extends(a, b) && Extends(b, c)
    ensures Extends(a, c)
  {
  }

  /** Changing only a node `x` that `a` does not have, beyond growing
      dependents, keeps `r` an extension of `a`. */
  lemma ExtendsExcept(a: Host, b: Host, r: Host, x: Id)
    requires Extends(a, b) && x !in a.nodes
    requires GrownBut(b.nodes, r.nodes, x) && b.order <= r.order && r.deleted == b.deleted
    ensures Extends(a, r)
  {
  }

  /** Every node of `g` is still in `r`, and each but `x` has only grown. */
  ghost predicate GrownBut(g: Graph, r: Graph, x: Id) {
    forall id :: id in g ==> id in r && (id != x ==> Grown(g[id], r[id]))
  }

  lemma GrownButTrans(a: Graph, b: Graph, c: Graph, x: Id)
    requires GrownBut(a, b, x) && GrownBut(b, c, x)
    ensures GrownBut(a, c, x)
  {
  }

  lemma PrefixListed(a: seq<Id>, b: seq<Id>)
    requires a <= b
    ensures forall x :: x in a ==> x in b
  {
    forall x | x in a
      ensures x in b
    {
      var k :| 0 <= k < |a| && a[k] == x;
      assert b[k] == x;
    }
  }
}
