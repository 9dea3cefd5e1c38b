/** Backdrop geometry (find_backdrop and the arithmetic of
    resize_backdrop_to_fit).  A box is a node's position and size in the graph
    editor; for a backdrop the size is its bdwidth and bdheight knobs.  All
    coordinates are integers, y grows downwards.
 */
module Backdrops {
  import opened Nodes

  datatype Box = Box(x: int, y: int, w: int, h: int)

  function BoxOf(n: Node): Box {
    Box(n.xpos, n.ypos, n.width, n.height)
  }

  /** `n` with its position and size replaced by `b`, everything else kept. */
  function Moved(n: Node, b: Box): (r: Node)
    ensures BoxOf(r) == b
    ensures r.cls == n.cls && r.inputs == n.inputs && r.dependents == n.dependents
    ensures r.fileType == n.fileType && r.translate == n.translate && r.scaling == n.scaling
  {
    n.(xpos := b.x, ypos := b.y, width := b.w, height := b.h)
  }

  /** The containment test: `b` lies strictly inside `outer` on all four sides. */
  predicate StrictlyInside(b: Box, outer: Box) {
    && b.x > outer.x && b.x + b.w < outer.x + outer.w
    && b.y > outer.y && b.y + b.h < outer.y + outer.h
  }

  /** find_backdrop: the first of the backdrops `bds`, in list order, that
      strictly contains the box `b`. */
  function FindBackdrop(g: Graph, bds: seq<Id>, b: Box): (r: Option<Id>)
    requires forall k :: 0 <= k < |bds| ==> bds[k] in g
    ensures r.Some? ==> exists k :: FirstContaining(g, bds, b, k) && bds[k] == r.value
    ensures r.None? <==> forall k :: 0 <= k < |bds| ==> !StrictlyInside(b, BoxOf(g[bds[k]]))
  {
    if bds == [] then None
    else if StrictlyInside(b, BoxOf(g[bds[0]])) then
      assert FirstContaining(g, bds, b, 0);
      Some(bds[0])
    else
      var rest := FindBackdrop(g, bds[1..], b);
      FirstAfterMiss(g, bds, b);
      assert rest.Some? ==> exists k :: FirstContaining(g, bds[1..], b, k) && bds[k + 1] == rest.value;
      rest
  }

  /** When the first backdrop misses the box, the first containing position
      of the tail is one less than that of the whole list. */
  lemma FirstAfterMiss(g: Graph, bds: seq<Id>, b: Box)
    requires forall k :: 0 <= k < |bds| ==> bds[k] in g
    requires |bds| > 0 && !StrictlyInside(b, BoxOf(g[bds[0]]))
    ensures forall k :: FirstContaining(g, bds[1..], b, k) ==> FirstContaining(g, bds, b, k + 1)
    ensures (forall k :: 0 <= k < |bds[1..]| ==> !StrictlyInside(b, BoxOf(g[bds[1..][k]]))) ==>
            (forall k :: 0 <= k < |bds| ==> !StrictlyInside(b, BoxOf(g[bds[k]])))
  {
    forall k | FirstContaining(g, bds[1..], b, k)
      ensures FirstContaining(g, bds, b, k + 1)
    {
      var k1 := k + 1;
      forall j | 0 <= j < k1
        ensures !StrictlyInside(b, BoxOf(g[bds[j]]))
      {
        if j > 0 {
          assert bds[j] == bds[1..][j - 1];
        }
      }
    }
  }

  /** Position `k` of `bds` contains `b` and no earlier position does. */
  ghost predicate FirstContaining(g: Graph, bds: seq<Id>, b: Box, k: int)
    requires forall k :: 0 <= k < |bds| ==> bds[k] in g
  {
    && 0 <= k < |bds| && StrictlyInside(b, BoxOf(g[bds[k]]))
    && forall j :: 0 <= j < k ==> !StrictlyInside(b, BoxOf(g[bds[j]]))
  }

  /** The boxes of the nodes `ids`, other than `skip`, that lie strictly
      inside `outer`, in list order. */
  function Inside(g: Graph, ids: seq<Id>, outer: Box, skip: Id): (r: seq<Box>)
    requires forall k :: 0 <= k < |ids| ==> ids[k] in g
    ensures |r| <= |ids|
  {
    if ids == [] then []
    else
      var front := ids[..|ids| - 1];
      var id := ids[|ids| - 1];
      if id != skip && StrictlyInside(BoxOf(g[id]), outer)
      then Inside(g, front, outer, skip) + [BoxOf(g[id])]
      else Inside(g, front, outer, skip)
  }

  /** `Inside` holds exactly the boxes of the nodes other than `skip` that lie
      strictly inside `outer`. */
  lemma {:induction false} InsideExact(g: Graph, ids: seq<Id>, outer: Box, skip: Id)
    requires forall k :: 0 <= k < |ids| ==> ids[k] in g
    ensures var r := Inside(g, ids, outer, skip);
      && (forall k :: 0 <= k < |r| ==> StrictlyInside(r[k], outer))
      && (forall k :: 0 <= k < |ids| && ids[k] != skip && StrictlyInside(BoxOf(g[ids[k]]), outer) ==>
            BoxOf(g[ids[k]]) in r)
      && (forall b :: b in r ==> exists k :: 0 <= k < |ids| && ids[k] != skip && BoxOf(g[ids[k]]) == b)
  {
    if ids != [] {
      var front := ids[..|ids| - 1];
      InsideExact(g, front, outer, skip);
      assert forall k :: 0 <= k < |front| ==> front[k] == ids[k];
      var r := Inside(g, ids, outer, skip);
      var rf := Inside(g, front, outer, skip);
      forall b | b in r
        ensures exists k :: 0 <= k < |ids| && ids[k] != skip && BoxOf(g[ids[k]]) == b
      {
        if b in rf {
          var k :| 0 <= k < |front| && front[k] != skip && BoxOf(g[front[k]]) == b;
          assert ids[k] == front[k];
        } else {
          assert ids[|ids| - 1] != skip && BoxOf(g[ids[|ids| - 1]]) == b;
        }
      }
    }
  }

  /** One more listed node: `Inside` over the first `i + 1` ids. */
  lemma InsideStep(g: Graph, ids: seq<Id>, outer: Box, skip: Id, i: nat)
    requires forall k :: 0 <= k < |ids| ==> ids[k] in g
    requires i < |ids|
    ensures Inside(g, ids[..i + 1], outer, skip) ==
            if ids[i] != skip && StrictlyInside(BoxOf(g[ids[i]]), outer)
            then Inside(g, ids[..i], outer, skip) + [BoxOf(g[ids[i]])]
            else Inside(g, ids[..i], outer, skip)
  {
    assert ids[..i + 1][..i] == ids[..i];
  }

  /** The left, top, right and bottom edges of a region. */
  datatype Extent = Extent(left: int, top: int, right: int, bottom: int)

  function Min(a: int, b: int): int { if a <= b then a else b }
  function Max(a: int, b: int): int { if a >= b then a else b }

  /** The smallest region holding every box of `bs`: the accumulators
      min_x, min_y, max_x, max_y of resize_backdrop_to_fit after the loop.
      Every edge is attained by some box. */
  function Hull(bs: seq<Box>): (e: Extent)
    requires |bs| > 0
    ensures forall k :: 0 <= k < |bs| ==> Holds(e, bs[k])
  {
    var b := bs[|bs| - 1];
    if |bs| == 1 then Extent(b.x, b.y, b.x + b.w, b.y + b.h)
    else
      var front := bs[..|bs| - 1];
      var e := Hull(front);
      assert forall k :: 0 <= k < |front| ==> front[k] == bs[k];
      Extent(Min(e.left, b.x), Min(e.top, b.y), Max(e.right, b.x + b.w), Max(e.bottom, b.y + b.h))
  }

  /** Every edge of the hull is the edge of some box. */
  lemma {:induction false} HullAttained(bs: seq<Box>)
    requires |bs| > 0
    ensures var e := Hull(bs);
      && (exists k :: 0 <= k < |bs| && e.left == bs[k].x)
      && (exists k :: 0 <= k < |bs| && e.top == bs[k].y)
      && (exists k :: 0 <= k < |bs| && e.right == bs[k].x + bs[k].w)
      && (exists k :: 0 <= k < |bs| && e.bottom == bs[k].y + bs[k].h)
  {
    var n := |bs| - 1;
    var b := bs[n];
    if n == 0 {
      assert Hull(bs).left == bs[0].x && Hull(bs).top == bs[0].y;
      assert Hull(bs).right == bs[0].x + bs[0].w && Hull(bs).bottom == bs[0].y + bs[0].h;
    } else {
      var front := bs[..n];
      HullAttained(front);
      var f, e := Hull(front), Hull(bs);
      assert e == Extent(Min(f.left, b.x), Min(f.top, b.y), Max(f.right, b.x + b.w), Max(f.bottom, b.y + b.h));
      var i :| 0 <= i < |front| && f.left == front[i].x;
      assert front[i] == bs[i];
      assert e.left == bs[if b.x <= f.left then n else i].x;
      i :| 0 <= i < |front| && f.top == front[i].y;
      assert front[i] == bs[i];
      assert e.top == bs[if b.y <= f.top then n else i].y;
      i :| 0 <= i < |front| && f.right == front[i].x + front[i].w;
      assert front[i] == bs[i];
      var r := if b.x + b.w >= f.right then n else i;
      assert e.right == bs[r].x + bs[r].w;
      i :| 0 <= i < |front| && f.bottom == front[i].y + front[i].h;
      assert front[i] == bs[i];
      r := if b.y + b.h >= f.bottom then n else i;
      assert e.bottom == bs[r].y + bs[r].h;
    }
  }

  /** One more box: the hull grows by taking the smaller near edges and the
      larger far edges. */
  lemma HullStep(bs: seq<Box>, b: Box)
    ensures |bs| == 0 ==> Hull(bs + [b]) == Extent(b.x, b.y, b.x + b.w, b.y + b.h)
    ensures |bs| > 0 ==> var e := Hull(bs);
      Hull(bs + [b]) == Extent(Min(e.left, b.x), Min(e.top, b.y), Max(e.right, b.x + b.w), Max(e.bottom, b.y + b.h))
  {
    assert (bs + [b])[..|bs|] == bs;
  }

  /** The region `e` covers the box `b` (edges may touch). */
  predicate Holds(e: Extent, b: Box) {
    e.left <= b.x && e.top <= b.y && b.x + b.w <= e.right && b.y + b.h <= e.bottom
  }

  const Padding: int := 50

  /** The backdrop written back: the region grown by the padding on every
      side, as a position and a size. */
  function Fitted(e: Extent): (r: Box)
    ensures r.x == e.left - Padding && r.y == e.top - Padding
    ensures r.x + r.w == e.right + Padding && r.y + r.h == e.bottom + Padding
  {
    var minX, minY := e.left - Padding, e.top - Padding;
    var maxX, maxY := e.right + Padding, e.bottom + Padding;
    Box(minX, minY, maxX - minX, maxY - minY)
  }

  /** The new bounds of a backdrop `bd` that contains at least one of `ids`
      other than itself. */
  function FitBox(g: Graph, ids: seq<Id>, bd: Id): Box
    requires bd in g && forall k :: 0 <= k < |ids| ==> ids[k] in g
    requires |Inside(g, ids, BoxOf(g[bd]), bd)| > 0
  {
    Fitted(Hull(Inside(g, ids, BoxOf(g[bd]), bd)))
  }

  // ---------------------------------------------------------------------------
  // Properties

  /** The loop of resize_backdrop_to_fit(bd) over the listed nodes `ids`:
      it accumulates the extent of the boxes strictly inside the backdrop and
      pads it. */
  method Fit(g: Graph, ids: seq<Id>, bd: Id) returns (fitted: Box)
    requires bd in g && forall k :: 0 <= k < |ids| ==> ids[k] in g
    requires |Inside(g, ids, BoxOf(g[bd]), bd)| > 0
    ensures fitted == FitBox(g, ids, bd)
  {
    var outer := BoxOf(g[bd]);
    var found := false;
    var minX, minY, maxX, maxY := 0, 0, 0, 0;
    var i := 0;
    while i < |ids|
      invariant 0 <= i <= |ids|
      invariant found == (Inside(g, ids[..i], outer, bd) != [])
      invariant found ==> Hull(Inside(g, ids[..i], outer, bd)) == Extent(minX, minY, maxX, maxY)
    {
      var id := ids[i];
      InsideStep(g, ids, outer, bd, i);
      if id != bd {
        var b := BoxOf(g[id]);
        if b.x > outer.x && b.y > outer.y && b.x + b.w < outer.x + outer.w && b.y + b.h < outer.y + outer.h {
          HullStep(Inside(g, ids[..i], outer, bd), b);
          if found {
            minX, minY := Min(minX, b.x), Min(minY, b.y);
            maxX, maxY := Max(maxX, b.x + b.w), Max(maxY, b.y + b.h);
          } else {
            minX, minY, maxX, maxY := b.x, b.y, b.x + b.w, b.y + b.h;
            found := true;
          }
        }
      }
      i := i + 1;
    }
    assert ids[..|ids|] == ids;
    minX, minY := minX - Padding, minY - Padding;
    maxX, maxY := maxX + Padding, maxY + Padding;
    fitted := Box(minX, minY, maxX - minX, maxY - minY);
  }

  /** Every box used for the fit is strictly inside the fitted bounds, because
      the padding is positive. */
  lemma FittedKeepsInside(bs: seq<Box>)
    requires |bs| > 0
    ensures forall k :: 0 <= k < |bs| ==> StrictlyInside(bs[k], Fitted(Hull(bs)))
  {
  }

  /** resize_backdrop_to_fit keeps every node that was strictly inside the
      backdrop strictly inside it. */
  lemma FitKeepsContained(g: Graph, ids: seq<Id>, bd: Id, k: int)
    requires bd in g && forall k :: 0 <= k < |ids| ==> ids[k] in g
    requires |Inside(g, ids, BoxOf(g[bd]), bd)| > 0
    requires 0 <= k < |ids| && ids[k] != bd && StrictlyInside(BoxOf(g[ids[k]]), BoxOf(g[bd]))
    ensures StrictlyInside(BoxOf(g[ids[k]]), FitBox(g, ids, bd))
  {
    var bs := Inside(g, ids, BoxOf(g[bd]), bd);
    InsideExact(g, ids, BoxOf(g[bd]), bd);
    var j :| 0 <= j < |bs| && bs[j] == BoxOf(g[ids[k]]);
    FittedKeepsInside(bs);
  }

  /** Each side of the fitted bounds lies exactly the padding away from the
      nearest box on that side. */
  lemma FittedIsTight(bs: seq<Box>)
    requires |bs| > 0
    ensures var r := Fitted(Hull(bs));
      && (exists k :: 0 <= k < |bs| && bs[k].x - r.x == Padding)
      && (exists k :: 0 <= k < |bs| && bs[k].y - r.y == Padding)
      && (exists k :: 0 <= k < |bs| && (r.x + r.w) - (bs[k].x + bs[k].w) == Padding)
      && (exists k :: 0 <= k < |bs| && (r.y + r.h) - (bs[k].y + bs[k].h) == Padding)
  {
    HullAttained(bs);
  }

  /** The hull depends only on which boxes occur, not on their order or
      repetition: the order in which the host lists its nodes does not
      affect the fit. */
  lemma HullOfSameBoxes(bs: seq<Box>, cs: seq<Box>)
    requires |bs| > 0 && |cs| > 0
    requires forall b :: b in bs <==> b in cs
    ensures Hull(bs) == Hull(cs)
  {
    var e, f := Hull(bs), Hull(cs);
    forall k | 0 <= k < |bs|
      ensures Holds(f, bs[k])
    {
      assert bs[k] in cs;
    }
    forall k | 0 <= k < |cs|
      ensures Holds(e, cs[k])
    {
      assert cs[k] in bs;
    }
    HullAttained(bs);
    HullAttained(cs);
    var i :| 0 <= i < |bs| && e.left == bs[i].x;
    var j :| 0 <= j < |cs| && f.left == cs[j].x;
    assert e.left == f.left;
    i :| 0 <= i < |bs| && e.top == bs[i].y;
    j :| 0 <= j < |cs| && f.top == cs[j].y;
    assert e.top == f.top;
    i :| 0 <= i < |bs| && e.right == bs[i].x + bs[i].w;
    j :| 0 <= j < |cs| && f.right == cs[j].x + cs[j].w;
    assert e.right == f.right;
    i :| 0 <= i < |bs| && e.bottom == bs[i].y + bs[i].h;
    j :| 0 <= j < |cs| && f.bottom == cs[j].y + cs[j].h;
  }

  /** Moving the backdrop `bd` itself does not change which other nodes lie
      inside a given region. */
  lemma {:induction false} InsideIgnoresSkipped(g: Graph, ids: seq<Id>, outer: Box, bd: Id, b: Box)
    requires bd in g && forall k :: 0 <= k < |ids| ==> ids[k] in g
    ensures Inside(g[bd := Moved(g[bd], b)], ids, outer, bd) == Inside(g, ids, outer, bd)
  {
    if ids != [] {
      InsideIgnoresSkipped(g, ids[..|ids| - 1], outer, bd, b);
    }
  }

  /** Fitting a second time changes nothing when the fitted bounds take in no
      node that the first bounds did not already hold. */
  lemma RefitIsStable(g: Graph, ids: seq<Id>, bd: Id)
    requires bd in g && forall k :: 0 <= k < |ids| ==> ids[k] in g
    requires |Inside(g, ids, BoxOf(g[bd]), bd)| > 0
    requires var r := FitBox(g, ids, bd);
      forall k :: 0 <= k < |ids| && ids[k] != bd && StrictlyInside(BoxOf(g[ids[k]]), r) ==>
        StrictlyInside(BoxOf(g[ids[k]]), BoxOf(g[bd]))
    ensures var r := FitBox(g, ids, bd);
      var g1 := g[bd := Moved(g[bd], r)];
      |Inside(g1, ids, BoxOf(g1[bd]), bd)| > 0 && FitBox(g1, ids, bd) == r
  {
    var old_ := Inside(g, ids, BoxOf(g[bd]), bd);
    var r := FitBox(g, ids, bd);
    var g1 := g[bd := Moved(g[bd], r)];
    InsideIgnoresSkipped(g, ids, r, bd, r);
    var new_ := Inside(g, ids, r, bd);
    assert Inside(g1, ids, BoxOf(g1[bd]), bd) == new_;
    InsideExact(g, ids, BoxOf(g[bd]), bd);
    InsideExact(g, ids, r, bd);
    FittedKeepsInside(old_);
    forall b | b in old_
      ensures b in new_
    {
      var k :| 0 <= k < |ids| && ids[k] != bd && BoxOf(g[ids[k]]) == b;
    }
    forall b | b in new_
      ensures b in old_
    {
      var k :| 0 <= k < |ids| && ids[k] != bd && BoxOf(g[ids[k]]) == b;
    }
    assert old_[0] in new_;
    HullOfSameBoxes(old_, new_);
  }

  /** Fitting is not idempotent in general: a node just outside the old
      bounds can fall inside the padded new ones and be taken in by a second
      fit.  Here backdrop 0 holds node 1, and node 2 sits just left of it. */
  lemma RefitCanGrow(g: Graph)
    requires 0 in g && 1 in g && 2 in g
    requires BoxOf(g[0]) == Box(0, 0, 100, 100)
    requires BoxOf(g[1]) == Box(10, 10, 10, 10)
    requires BoxOf(g[2]) == Box(-30, 20, 5, 5)
    ensures var r := FitBox(g, [0, 1, 2], 0);
      && r == Box(-40, -40, 110, 110)
      && FitBox(g[0 := Moved(g[0], r)], [0, 1, 2], 0) == Box(-80, -40, 150, 115)
  {
    var ids := [0, 1, 2];
    assert ids[..2] == [0, 1] && [0, 1][..1] == [0] && [0][..0] == [];
    FirstFit(g, ids);
    var r := Box(-40, -40, 110, 110);
    SecondFit(g[0 := Moved(g[0], r)], ids);
  }

  lemma FirstFit(g: Graph, ids: seq<Id>)
    requires 0 in g && 1 in g && 2 in g && ids == [0, 1, 2]
    requires BoxOf(g[0]) == Box(0, 0, 100, 100)
    requires BoxOf(g[1]) == Box(10, 10, 10, 10)
    requires BoxOf(g[2]) == Box(-30, 20, 5, 5)
    ensures Inside(g, ids, BoxOf(g[0]), 0) == [Box(10, 10, 10, 10)]
    ensures FitBox(g, ids, 0) == Box(-40, -40, 110, 110)
  {
    assert ids[..2] == [0, 1] && [0, 1][..1] == [0] && [0][..0] == [];
    var outer := Box(0, 0, 100, 100);
    assert Inside(g, [0], outer, 0) == [];
    assert Inside(g, [0, 1], outer, 0) == [Box(10, 10, 10, 10)];
  }

  lemma SecondFit(g: Graph, ids: seq<Id>)
    requires 0 in g && 1 in g && 2 in g && ids == [0, 1, 2]
    requires BoxOf(g[0]) == Box(-40, -40, 110, 110)
    requires BoxOf(g[1]) == Box(10, 10, 10, 10)
    requires BoxOf(g[2]) == Box(-30, 20, 5, 5)
    ensures Inside(g, ids, BoxOf(g[0]), 0) == [Box(10, 10, 10, 10), Box(-30, 20, 5, 5)]
    ensures FitBox(g, ids, 0) == Box(-80, -40, 150, 115)
  {
    assert ids[..2] == [0, 1] && [0, 1][..1] == [0] && [0][..0] == [];
    var outer := Box(-40, -40, 110, 110);
    assert Inside(g, [0], outer, 0) == [];
    assert Inside(g, [0, 1], outer, 0) == [Box(10, 10, 10, 10)];
    TwoBoxHull();
  }

  lemma TwoBoxHull()
    ensures Hull([Box(10, 10, 10, 10), Box(-30, 20, 5, 5)]) == Extent(-30, 10, 20, 25)
  {
    var bs := [Box(10, 10, 10, 10), Box(-30, 20, 5, 5)];
    assert bs[..1] == [Box(10, 10, 10, 10)];
  }
}
