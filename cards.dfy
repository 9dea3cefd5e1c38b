/** The per-layer decisions of convert_psd_to_cards that do not touch the
    graph: the selection guard, the depth rank of each layer, and the knob
    values a layer's card receives.
 */
module Cards {
  import opened Nodes

  const OneAtATime: string := "You can only breakout one .PSD file at a time."
  const OnlyPsd: string := "You can only breakout .PSD read nodes."

  /** What the guard decides for a selection. */
  datatype Verdict =
    | Admit(read: Id)           // the single selected node, a PSD read
    | Refused(message: string)  // a message is shown and nothing else happens
    | NothingSelected           // the host raises: no node is selected

  /** The guard of convert_psd_to_cards over the selected nodes, in the
      host's selection order. */
  function Guard(g: Graph, selected: seq<Id>): (v: Verdict)
    requires forall k :: 0 <= k < |selected| ==> selected[k] in g
    ensures v.Admit? <==> |selected| == 1 && g[selected[0]].fileType == Some("psd")
    ensures v.Admit? ==> v.read == selected[0]
    ensures v == Refused(OneAtATime) <==> |selected| > 1
    ensures v == Refused(OnlyPsd) <==> |selected| == 1 && g[selected[0]].fileType != Some("psd")
    ensures v == NothingSelected <==> |selected| == 0
  {
    if |selected| > 1 then Refused(OneAtATime)
    else if |selected| == 0 then NothingSelected
    else
      match g[selected[0]].fileType
      case None => Refused(OnlyPsd)
      case Some(t) => if t != "psd" then Refused(OnlyPsd) else Admit(selected[0])
  }

  /** order_from_top for the layer at `index` of `count`. */
  function OrderFromTop(count: nat, index: nat): (r: nat)
    requires index < count
    ensures 1 <= r <= count
    ensures r + index == count
  {
    count - index
  }

  /** The first layer is ranked highest and the last lowest. */
  lemma RankEnds(count: nat)
    requires count > 0
    ensures OrderFromTop(count, 0) == count && OrderFromTop(count, count - 1) == 1
  {
  }

  /** Ranks strictly decrease along the layer list, so no two layers share a rank. */
  lemma RankStrictlyDecreases(count: nat, i: nat, j: nat)
    requires i < j < count
    ensures OrderFromTop(count, i) > OrderFromTop(count, j)
  {
  }

  /** The ranks of `count` layers are exactly 1 .. count. */
  lemma RanksCoverAll(count: nat, r: nat)
    requires 1 <= r <= count
    ensures exists i :: 0 <= i < count && OrderFromTop(count, i) == r
  {
    assert OrderFromTop(count, count - r) == r;
  }

  /** The card's translate: pushed back along z by a tenth of its rank. */
  function CardTranslate(rank: nat): (t: Vec3)
    ensures t.x == 0.0 && t.y == 0.0 && t.z * 10.0 == -(rank as real)
  {
    Vec3(0.0, 0.0, (rank as real / 10.0) * -1.0)
  }

  /** The card's scaling: grown in x and y by a hundredth of its rank. */
  function CardScaling(rank: nat): (s: Vec3)
    ensures s.x == s.y && (s.x - 1.0) * 100.0 == rank as real && s.z == 1.0
  {
    var f := 1.0 + rank as real / 100.0;
    Vec3(f, f, 1.0)
  }

  /** A layer ranked higher (listed earlier) sits strictly farther from the
      camera and is scaled strictly larger, so every card sits behind z = 0
      and is scaled up. */
  lemma HigherRankFartherAndLarger(lo: nat, hi: nat)
    requires lo < hi
    ensures CardTranslate(hi).z < CardTranslate(lo).z <= 0.0
    ensures CardScaling(hi).x > CardScaling(lo).x >= 1.0
  {
  }

  /** The camera's translate. */
  const CameraTranslate: Vec3 := Vec3(0.0, 0.0, 2.0)
}
