/** The script's view of the host's node graph as mutable state, and the
    operations of the script that change it.

    `nodes` holds every node the script can name; `order` is the order in
    which the host lists its nodes (allNodes()); `deleted` is the deletion log.
    A deleted node stays in `nodes` but is hidden from every host query, and
    any call on it makes the host raise, which the methods report as
    `ok == false`.  The ghost `topo` ranks the graph topologically.
 */
module Dag {
  import opened Nodes
  import opened Cleanup
  import opened Backdrops
  import opened Shuffles
  import opened Cards
  import opened State
  import opened Wiring
  import opened Script

  class NodeGraph {
    var nodes: Graph
    var order: seq<Id>
    var deleted: seq<Id>
    var nextId: nat
    ghost var topo: Ranks

    /** The fields as one host state, the value the functions of Script
        transform. */
    ghost function State(): Host
      reads this
    {
      Host(nodes, order, deleted, nextId, topo)
    }

    ghost predicate Valid()
      reads this
    {
      Sound(State())
    }

    constructor (g: Graph, listed: seq<Id>, next: nat, ghost ranks: Ranks)
      requires Acyclic(g, ranks)
      requires forall id :: id in g ==> id < next
      requires forall k :: 0 <= k < |listed| ==> listed[k] in g
      ensures Valid()
      ensures nodes == g && order == listed && deleted == [] && nextId == next && topo == ranks
    {
      nodes, order, deleted, nextId := g, listed, [], next;
      topo := ranks;
    }

    /** nuke.allNodes(): the live nodes in host order. */
    function AllNodes(): (r: seq<Id>)
      reads this
      requires Valid()
      ensures forall k :: 0 <= k < |r| ==> r[k] in nodes && r[k] !in deleted
      ensures forall x :: x in r <==> x in order && x !in deleted
    {
      var r := Live(deleted, order);
      assert forall k :: 0 <= k < |r| ==> r[k] in order;
      r
    }

    /** nuke.delete(n); deleting a node twice makes the host raise. */
    method Delete(n: Id) returns (ok: bool)
      requires Valid() && n in nodes
      modifies this`deleted
      ensures Valid()
      ensures Walk(ok, deleted) == Erase(old(deleted), n)
    {
      ok := n !in deleted;
      if ok {
        deleted := deleted + [n];
      }
    }

    /** remove_upstream_nodes_until_shuffle(n). */
    method RemoveUpstreamNodesUntilShuffle(n: Id) returns (ok: bool)
      requires Valid() && n in nodes
      modifies this`deleted
      ensures Valid()
      ensures Walk(ok, deleted) == RemoveUpstream(nodes, topo, old(deleted), n)
      decreases topo[n]
    {
      if n in deleted {
        return false;
      }
      var ups := Live(deleted, Dependencies(nodes[n]));
      InputsRankBelow(nodes, topo, n, ups);
      var i := 0;
      while i < |ups|
        invariant 0 <= i <= |ups| && Valid()
        invariant RemoveEach(nodes, topo, deleted, n, ups, i) == RemoveUpstream(nodes, topo, old(deleted), n)
      {
        var u := ups[i];
        if u in deleted {
          return false;
        }
        if nodes[u].cls == Shuffle {
          ok := Delete(n);
          return;
        }
        ghost var before := deleted;
        ok := RemoveUpstreamNodesUntilShuffle(u);
        RemoveEachStep(nodes, topo, before, n, ups, i);
        if !ok {
          return;
        }
        i := i + 1;
      }
      ok := Delete(n);
    }

    /** find_lowest_node_then_remove(n). */
    method FindLowestNodeThenRemove(n: Id) returns (ok: bool)
      requires Valid() && n in nodes
      modifies this`deleted
      ensures Valid()
      ensures Walk(ok, deleted) == FindLowest(nodes, topo, old(deleted), n)
      decreases |nodes| - topo[n]
    {
      if n in deleted {
        return false;
      }
      var downs := Live(deleted, nodes[n].dependents);
      OutputsRankAbove(nodes, topo, n, downs);
      if |downs| >= 1 {
        var i := 0;
        while i < |downs|
          invariant 0 <= i <= |downs| && Valid()
          invariant LowestEach(nodes, topo, deleted, n, downs, i) == FindLowest(nodes, topo, old(deleted), n)
        {
          ghost var before := deleted;
          ok := FindLowestNodeThenRemove(downs[i]);
          LowestEachStep(nodes, topo, before, n, downs, i);
          if !ok {
            return;
          }
          i := i + 1;
        }
        ok := true;
      } else {
        ok := RemoveUpstreamNodesUntilShuffle(n);
      }
    }

    /** The Crop loop of convert_psd_to_cards for the Shuffle `s`. */
    method RemoveCropBranches(s: Id) returns (ok: bool)
      requires Valid() && s in nodes
      modifies this`deleted
      ensures Valid()
      ensures Walk(ok, deleted) == RemoveCrops(nodes, topo, old(deleted), s)
    {
      if s in deleted {
        return false;
      }
      var downs := Live(deleted, nodes[s].dependents);
      OutputsRankAbove(nodes, topo, s, downs);
      var i := 0;
      while i < |downs|
        invariant 0 <= i <= |downs| && Valid()
        invariant CropsEach(nodes, topo, deleted, s, downs, i) == RemoveCrops(nodes, topo, old(deleted), s)
      {
        var d := downs[i];
        if d in deleted {
          return false;
        }
        if nodes[d].cls == Crop {
          ghost var before := deleted;
          ok := FindLowestNodeThenRemove(d);
          CropsEachStep(nodes, topo, before, s, downs, i);
          if !ok {
            return;
          }
        }
        i := i + 1;
      }
      ok := true;
    }

    /** nuke.nodes.<cls>(): a new unconnected node with default knobs, placed
        at `at` by the host, listed last and ranked above every other node. */
    method CreateNode(cls: string, at: Box) returns (id: Id)
      requires Valid()
      modifies this`nodes, this`order, this`nextId, this`topo
      ensures Valid() && id == old(nextId) && State() == WithNode(old(State()), cls, at)
      ensures id !in old(nodes) && Alive(State(), id)
      ensures forall x :: x in old(nodes) ==> x in topo && topo[x] == old(topo)[x] && topo[x] < topo[id]
    {
      ghost var h := State();
      NodeAdded(h, cls, at);
      id := nextId;
      topo := topo[id := |nodes|];
      nodes := nodes[id := Moved(Created(cls, 0, 0, 0, 0), at)];
      order := order + [id];
      nextId := nextId + 1;
    }

    /** x.setInput(i, y): connecting a deleted node makes the host raise and
        changes nothing. */
    method SetInput(x: Id, i: nat, y: Id) returns (ok: bool)
      requires Valid() && x in nodes && y in nodes && topo[y] < topo[x]
      modifies this`nodes
      ensures Valid() && ok == (x !in deleted && y !in deleted) && nodes.Keys == old(nodes).Keys
      ensures State() == if ok then WithInput(old(State()), x, i, y) else old(State())
      ensures ok ==> && y in Dependencies(nodes[x])
                     && forall u :: u in Dependencies(nodes[x]) ==> u in Dependencies(old(nodes)[x]) || u == y
    {
      ok := x !in deleted && y !in deleted;
      if ok {
        InputSet(State(), x, i, y);
        WiredChanges(nodes, x, i, y);
        PlugDependencies(nodes[x].inputs, i, y);
        nodes := Wired(nodes, x, i, y);
      }
    }

    /** n["translate"].setValue(v). */
    method SetTranslate(n: Id, v: Vec3)
      requires Valid() && n in nodes
      modifies this`nodes
      ensures Valid() && State() == WithTranslate(old(State()), n, v)
    {
      TranslateSet(State(), n, v);
      nodes := nodes[n := nodes[n].(translate := v)];
    }

    /** n["scaling"].setValue(v). */
    method SetScaling(n: Id, v: Vec3)
      requires Valid() && n in nodes
      modifies this`nodes
      ensures Valid() && State() == WithScaling(old(State()), n, v)
    {
      ScalingSet(State(), n, v);
      nodes := nodes[n := nodes[n].(scaling := v)];
    }

    /** find_backdrop(n) over nuke.allNodes("BackdropNode"): the first
        backdrop in that order whose box strictly contains the box of `n`. */
    function FindBackdropOf(n: Id): (r: Option<Id>)
      reads this
      requires Valid() && n in nodes && n !in deleted
      ensures r == BackdropOf(State(), n)
      ensures r.Some? ==> exists k :: FirstContaining(nodes, OfClass(nodes, AllNodes(), BackdropNode), BoxOf(nodes[n]), k)
                                      && OfClass(nodes, AllNodes(), BackdropNode)[k] == r.value
      ensures r.Some? ==> && r.value in nodes && r.value !in deleted
                          && nodes[r.value].cls == BackdropNode
                          && StrictlyInside(BoxOf(nodes[n]), BoxOf(nodes[r.value]))
      ensures r.None? <==> forall b :: b in AllNodes() && nodes[b].cls == BackdropNode ==>
                             !StrictlyInside(BoxOf(nodes[n]), BoxOf(nodes[b]))
    {
      var ids := AllNodes();
      var bds := OfClass(nodes, ids, BackdropNode);
      var r := FindBackdrop(nodes, bds, BoxOf(nodes[n]));
      assert forall k :: 0 <= k < |bds| ==> bds[k] in bds;
      r
    }

    /** resize_backdrop_to_fit(bd): the padded bounds written back to the
        backdrop's position and size; nothing else changes. */
    method ResizeBackdropToFit(bd: Id)
      requires Valid() && bd in nodes && bd !in deleted
      requires |Inside(nodes, AllNodes(), BoxOf(nodes[bd]), bd)| > 0
      modifies this`nodes
      ensures Valid()
      ensures nodes == old(nodes)[bd := Moved(old(nodes)[bd], FitBox(old(nodes), old(AllNodes()), bd))]
    {
      var fitted := Fit(nodes, AllNodes(), bd);
      var m := nodes[bd := Moved(nodes[bd], fitted)];
      SameEdgesKeepAcyclic(nodes, topo, bd, m[bd]);
      SameKeysConsistent(nodes, m, order, deleted, nextId, topo);
      nodes := m;
    }

    /** Lines 36-37 of convert_psd_to_cards: a new Premult reading `s`.
        `place` gives the position the host puts each new node at, the later
        ypos shift included. */
    method AddPremult(s: Id, place: Id -> Box) returns (ok: bool, p: Id)
      requires Valid() && s in nodes
      modifies this`nodes, this`order, this`nextId, this`topo
      ensures Valid() && p == old(nextId) && ok == (s !in deleted)
      ensures State() == if ok then WithPremult(old(State()), s, place) else WithNode(old(State()), Premult, place(p))
    {
      p := CreateNode(Premult, place(nextId));
      ok := SetInput(p, 0, s);
    }

    /** Lines 40-41 of convert_psd_to_cards: a new Card reading the live
        Premult `p`. */
    method AddCard(p: Id, place: Id -> Box) returns (c: Id)
      requires Valid() && Alive(State(), p)
      modifies this`nodes, this`order, this`nextId, this`topo
      ensures Valid() && c == old(nextId) && State() == WithCard(old(State()), p, place)
    {
      c := CreateNode(Card, place(nextId));
      var wired := SetInput(c, 0, p);
      assert wired;
    }

    /** Lines 42-47 of convert_psd_to_cards: the translate and scaling of the
        card `c` for `rank`. */
    method SetCardKnobs(c: Id, rank: nat)
      requires Valid() && c in nodes
      modifies this`nodes
      ensures Valid() && State() == WithCardKnobs(old(State()), c, rank)
    {
      SetTranslate(c, CardTranslate(rank));
      SetScaling(c, CardScaling(rank));
    }

    /** Lines 36-47 of convert_psd_to_cards for the shuffle `s`: a Premult
        reading `s` under the next fresh id, then a Card reading it under the
        one after, with the knobs for `rank`. A deleted `s` makes the first
        setInput raise. */
    method AddLayer(s: Id, rank: nat, place: Id -> Box) returns (ok: bool, p: Id, c: Id)
      requires Valid() && s in nodes
      modifies this`nodes, this`order, this`nextId, this`topo
      ensures Valid() && ok == (s !in deleted) && p == old(nextId)
      ensures !ok ==> State() == WithNode(old(State()), Premult, place(p))
      ensures ok ==> && c == AfterNext(old(State())) && State() == WithLayer(old(State()), s, rank, place)
                     && LayerAdded(State(), s, p, rank)
    {
      ghost var h := State();
      ok, p := AddPremult(s, place);
      if !ok {
        c := p;
        return;
      }
      ReaderAdded(h, Premult, place(p), s);
      c := AddCard(p, place);
      SetCardKnobs(c, rank);
      LayerOf(h, s, rank, place);
    }

    /** Line 51 of convert_psd_to_cards: resize_backdrop_to_fit(find_backdrop(s)).
        With no backdrop around `s` the resize of None raises (`found` is
        false) and nothing changes. */
    method FitBackdropAround(s: Id) returns (found: bool)
      requires Valid() && s in order && Alive(State(), s) && nodes[s].cls != BackdropNode
      modifies this`nodes
      ensures Valid() && (found, State()) == Refit(old(State()), s)
      ensures found <==> !NoBackdropAround(old(nodes), old(order), old(deleted), s)
      ensures found ==> Refitted(old(nodes), old(AllNodes()), old(FindBackdropOf(s)).value, nodes)
    {
      var bd := FindBackdropOf(s);
      if bd.None? {
        return false;
      }
      BackdropHoldsOne(State(), s, bd.value);
      ResizeBackdropToFit(bd.value);
      found := true;
    }

    /** Lines 36-51 of convert_psd_to_cards for the live shuffle `s`: its
        layer is built and the backdrop around it refitted; `found` is false
        when no live backdrop contains `s`. */
    method LayerAndFit(s: Id, rank: nat, place: Id -> Box) returns (found: bool, p: Id, c: Id)
      requires Valid() && s in order && Alive(State(), s) && nodes[s].cls == Shuffle
      modifies this`nodes, this`order, this`nextId, this`topo
      ensures Valid() && (found, State()) == Layered(old(State()), s, rank, place)
      ensures found <==> !NoBackdropAround(old(nodes), old(order), old(deleted), s)
      ensures p == old(nextId) && c == AfterNext(old(State())) && LayerAdded(State(), s, p, rank)
    {
      LayerRefitted(State(), s, rank, place);
      var ok;
      ok, p, c := AddLayer(s, rank, place);
      found := FitBackdropAround(s);
    }

    /** One iteration of the loop of convert_psd_to_cards (lines 30-51) for
        the shuffle `s` of rank `rank`: the Crop branches below `s` are
        removed, its layer is built and the backdrop around it is refitted.
        It stops when the cleanup calls on a deleted node, or when no live
        backdrop contains `s`. */
    method ConvertStep(s: Id, rank: nat, place: Id -> Box) returns (stop: Option<Failure>, p: Id, c: Id)
      requires Valid() && s in nodes && s in order && nodes[s].cls == Shuffle
      modifies this`nodes, this`order, this`deleted, this`nextId, this`topo
      ensures Valid() && (stop, State()) == Step(old(State()), s, rank, place)
      ensures var w := RemoveCrops(old(nodes), old(topo), old(deleted), s);
        && deleted == w.log
        && (stop == Some(UsedDeletedNode) <==> !w.ok)
        && (stop == Some(NoBackdrop) <==> w.ok && NoBackdropAround(old(nodes), old(order), w.log, s))
      ensures stop.None? ==> && p == old(nextId) && c == AfterNext(old(State()))
                             && LayerAdded(State(), s, p, rank)
                             && RefitAround(WithLayer(Cleaned(old(State()), s), s, rank, place), s, State())
    {
      ghost var h := State();
      var ok := RemoveCropBranches(s);
      if !ok {
        stop, p, c := Some(UsedDeletedNode), 0, 0;
      } else {
        assert State() == Cleaned(h, s);
        var found;
        found, p, c := LayerAndFit(s, rank, place);
        stop := if found then None else Some(NoBackdrop);
      }
      StepStops(h, s, rank, place, stop, State());
    }

    /** The loop of convert_psd_to_cards over the shuffles, in order: layer
        `k` gets the rank OrderFromTop(|shuffles|, k), and a failing step
        ends the loop. */
    method BuildLayers(shuffles: seq<Id>, place: Id -> Box) returns (stop: Option<Failure>, premults: seq<Id>, cards: seq<Id>)
      requires Valid() && ShufflesOf(State(), shuffles)
      modifies this`nodes, this`order, this`deleted, this`nextId, this`topo
      ensures Valid() && Layering(stop, State(), premults, cards) == Run(old(State()), shuffles, 0, [], [], place)
      ensures Kept(old(nodes), nodes)
      ensures stop.None? ==> Progress(State(), shuffles, |shuffles|, premults, cards, old(nextId))
    {
      ghost var h0 := State();
      ProgressStarts(h0, shuffles);
      RunLayers(h0, shuffles, 0, [], [], place, h0.next);
      var n := |shuffles|;
      premults, cards := [], [];
      var i := 0;
      while i < n
        invariant 0 <= i <= n && Valid() && ShufflesOf(State(), shuffles)
        invariant Run(State(), shuffles, i, premults, cards, place) == Run(h0, shuffles, 0, [], [], place)
      {
        ghost var h := State();
        ShuffleOf(h, shuffles, i);
        RunNext(h, shuffles, i, premults, cards, place);
        var p, c;
        stop, p, c := ConvertStep(shuffles[i], OrderFromTop(n, i), place);
        if stop.Some? {
          return;
        }
        premults, cards := premults + [p], cards + [c];
        i := i + 1;
      }
      stop := None;
    }

    /** Lines 54-55 of convert_psd_to_cards: input `k` of the live Scene
        `scene` is connected to card `k`, for every card in order.
        Connecting a card an earlier cleanup deleted raises. */
    method ConnectCards(scene: Id, cards: seq<Id>) returns (ok: bool)
      requires Valid() && Alive(State(), scene) && nodes[scene].inputs == []
      requires forall k :: 0 <= k < |cards| ==> cards[k] in nodes && topo[cards[k]] < topo[scene]
      modifies this`nodes
      ensures Valid() && (ok, State()) == WithInputs(old(State()), scene, cards, 0)
      ensures ok == forall k :: 0 <= k < |cards| ==> cards[k] !in deleted
      ensures ok ==> && scene in nodes && |nodes[scene].inputs| == |cards|
                     && forall k :: 0 <= k < |cards| ==> nodes[scene].inputs[k] == Some(cards[k])
    {
      ghost var h0 := State();
      InputsWired(h0, scene, cards, 0);
      ok := true;
      var j := 0;
      while j < |cards|
        invariant 0 <= j <= |cards| && Valid() && Alive(State(), scene)
        invariant CardsBelow(State(), scene, cards)
        invariant WithInputs(State(), scene, cards, j) == WithInputs(h0, scene, cards, 0)
      {
        InputKeeps(State(), scene, cards, j);
        ok := SetInput(scene, j, cards[j]);
        if !ok {
          return;
        }
        j := j + 1;
      }
    }

    /** Lines 53-55 of convert_psd_to_cards: a new Scene under the next
        fresh id whose input `k` is card `k`. */
    method WireScene(cards: seq<Id>, place: Id -> Box) returns (ok: bool, scene: Id)
      requires Valid() && forall k :: 0 <= k < |cards| ==> cards[k] in nodes
      modifies this`nodes, this`order, this`nextId, this`topo
      ensures Valid() && scene == old(nextId) && (ok, State()) == WithScene(old(State()), cards, place)
      ensures Alive(State(), scene) && nodes[scene].cls == Scene
      ensures ok == forall k :: 0 <= k < |cards| ==> cards[k] !in deleted
      ensures ok ==> SceneOf(nodes, scene, cards)
    {
      ghost var h := State();
      SceneWired(h, cards, place);
      scene := CreateNode(Scene, place(nextId));
      ok := ConnectCards(scene, cards);
    }

    /** Lines 57-58 of convert_psd_to_cards: a new Camera moved to the camera
        translate. */
    method AddCamera(place: Id -> Box) returns (camera: Id)
      requires Valid()
      modifies this`nodes, this`order, this`nextId, this`topo
      ensures Valid() && camera == old(nextId) && State() == WithCamera(old(State()), place)
      ensures Alive(State(), camera) && CameraOf(nodes, camera)
    {
      CameraAdded(State(), place);
      camera := CreateNode(Camera, place(nextId));
      SetTranslate(camera, CameraTranslate);
    }

    /** Lines 60-62 of convert_psd_to_cards: a new ScanlineRender reading the
        Camera at input 2 and then the Scene at input 1. */
    method AddScanline(scene: Id, camera: Id, place: Id -> Box) returns (scanline: Id)
      requires Valid() && Alive(State(), scene) && Alive(State(), camera)
      modifies this`nodes, this`order, this`nextId, this`topo
      ensures Valid() && scanline == old(nextId) && State() == WithScanline(old(State()), scene, camera, place)
      ensures Alive(State(), scanline) && ScanlineOf(nodes, scanline, scene, camera)
    {
      ScanlineAdded(State(), scene, camera, place);
      scanline := CreateNode(ScanlineRender, place(nextId));
      var wired := SetInput(scanline, 2, camera);
      assert wired;
      wired := SetInput(scanline, 1, scene);
      assert wired;
    }

    /** Lines 57-62 of convert_psd_to_cards, once the Scene is wired: the
        Camera under the next fresh id and the ScanlineRender under the one
        after. */
    method AddRender(scene: Id, place: Id -> Box) returns (camera: Id, scanline: Id)
      requires Valid() && Alive(State(), scene)
      modifies this`nodes, this`order, this`nextId, this`topo
      ensures Valid() && State() == WithRender(old(State()), scene, place)
      ensures camera == old(nextId) && scanline == AfterNext(old(State()))
      ensures Alive(State(), camera) && CameraOf(nodes, camera)
      ensures Alive(State(), scanline) && ScanlineOf(nodes, scanline, scene, camera)
    {
      ghost var h := State();
      RenderWired(h, scene, place);
      CameraAdded(h, place);
      camera := AddCamera(place);
      scanline := AddScanline(scene, camera, place);
    }

    /** convert_psd_to_cards for the selected nodes, on the graph as it stands
        after the PSD breakout: nothing is deleted yet and every node is
        listed. */
    method ConvertPsdToCards(selected: seq<Id>, place: Id -> Box) returns (out: Outcome)
      requires Valid() && deleted == []
      requires forall k :: 0 <= k < |selected| ==> selected[k] in nodes
      requires forall id :: id in nodes ==> id in order
      modifies this`nodes, this`order, this`deleted, this`nextId, this`topo
      ensures Valid() && (out, State()) == Conversion(old(State()), selected, place)
      ensures var v := Guard(old(nodes), selected);
        && (v.Refused? ==> out == Failed(Declined(v.message)) && State() == old(State()))
        && (v.NothingSelected? ==> out == Failed(NoSelection) && State() == old(State()))
        && (v.Admit? ==>
              var l := Run(old(State()), FindConnectedShuffles(old(nodes), old(topo), v.read), 0, [], [], place);
              && (out.Done? <==> l.stop.None? && forall k :: 0 <= k < |l.cards| ==> l.cards[k] !in l.host.deleted)
              && (l.stop.Some? ==> out == Failed(l.stop.value))
              && (l.stop.None? && !out.Done? ==> out == Failed(UsedDeletedNode)))
      ensures out.Done? ==>
        && Guard(old(nodes), selected) == Admit(out.built.read) && out.built.read in old(nodes)
        && BuiltFrom(old(State()), State(), out.built)
    {
      ghost var h0 := State();
      var v := Guard(nodes, selected);
      if v.Refused? {
        out := Failed(Declined(v.message));
      } else if v.NothingSelected? {
        out := Failed(NoSelection);
      } else {
        var read := v.read;
        var shuffles := FindConnectedShuffles(nodes, topo, read);
        ShufflesFound(h0, read);
        var stop, premults, cards := BuildLayers(shuffles, place);
        if stop.Some? {
          out := Failed(stop.value);
        } else {
          ProgressCards(State(), shuffles, premults, cards, h0.next);
          var ok, scene := WireScene(cards, place);
          if !ok {
            out := Failed(UsedDeletedNode);
          } else {
            var camera, scanline := AddRender(scene, place);
            out := Done(Built(read, shuffles, premults, cards, scene, camera, scanline));
          }
        }
      }
      ConversionRefuses(h0, selected, place, out, State());
      ConversionCompletes(h0, selected, place, out, State());
      ConversionBuilds(h0, selected, place, out, State());
    }
  }
}
