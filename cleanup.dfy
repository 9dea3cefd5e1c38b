/** Crop-branch removal (find_lowest_node_then_remove,
    remove_upstream_nodes_until_shuffle, and the Crop loop of
    convert_psd_to_cards), as functions of the deletion log.

    The graph itself does not change while nodes are deleted; the log `del`
    records deleted nodes in deletion order, and every host query skips them.
    Every call into the host on a node that is already deleted (asking for its
    class, its dependents or dependencies, or deleting it again) makes the host
    raise; a walk then ends with `ok == false` and the log as it stood.
 */
module Cleanup {
  import opened Nodes

  /** The outcome of a walk: whether it ran to completion, and the deletion log after it. */
  datatype Walk = Walk(ok: bool, log: seq<Id>)

  /** nuke.delete(n). */
  function Erase(del: seq<Id>, n: Id): Walk {
    if n in del then Walk(false, del) else Walk(true, del + [n])
  }

  /** remove_upstream_nodes_until_shuffle(n). */
  function RemoveUpstream(g: Graph, ghost topo: Ranks, del: seq<Id>, n: Id): Walk
    requires Acyclic(g, topo) && n in g
    decreases topo[n], 1
  {
    if n in del then Walk(false, del)
    else RemoveEach(g, topo, del, n, Live(del, Dependencies(g[n])), 0)
  }

  /** The loop of remove_upstream_nodes_until_shuffle(n) over the dependencies
      `ups` of `n` (taken when the call began), from position `i` on. */
  function RemoveEach(g: Graph, ghost topo: Ranks, del: seq<Id>, n: Id, ups: seq<Id>, i: nat): Walk
    requires Acyclic(g, topo) && n in g && i <= |ups|
    requires forall u :: u in ups ==> u in Dependencies(g[n])
    decreases topo[n], 0, |ups| - i
  {
    InputsRankBelow(g, topo, n, ups);
    if i == |ups| then Erase(del, n)
    else
      var u := ups[i];
      if u in del then Walk(false, del)
      else if g[u].cls == Shuffle then Erase(del, n)
      else
        var w := RemoveUpstream(g, topo, del, u);
        if !w.ok then w else RemoveEach(g, topo, w.log, n, ups, i + 1)
  }

  /** find_lowest_node_then_remove(n). */
  function FindLowest(g: Graph, ghost topo: Ranks, del: seq<Id>, n: Id): Walk
    requires Acyclic(g, topo) && n in g
    decreases |g| - topo[n], 1
  {
    if n in del then Walk(false, del)
    else
      var downs := Live(del, g[n].dependents);
      if |downs| >= 1 then LowestEach(g, topo, del, n, downs, 0)
      else RemoveUpstream(g, topo, del, n)
  }

  /** The loop of find_lowest_node_then_remove(n) over the dependents `downs`
      of `n` (taken when the call began), from position `i` on. */
  function LowestEach(g: Graph, ghost topo: Ranks, del: seq<Id>, n: Id, downs: seq<Id>, i: nat): Walk
    requires Acyclic(g, topo) && n in g && i <= |downs|
    requires forall d :: d in downs ==> d in g[n].dependents
    decreases |g| - topo[n], 0, |downs| - i
  {
    OutputsRankAbove(g, topo, n, downs);
    if i == |downs| then Walk(true, del)
    else
      var w := FindLowest(g, topo, del, downs[i]);
      if !w.ok then w else LowestEach(g, topo, w.log, n, downs, i + 1)
  }

  /** The Crop loop of convert_psd_to_cards for the Shuffle `s`: every Crop
      among its dependents has its branch removed. */
  function RemoveCrops(g: Graph, ghost topo: Ranks, del: seq<Id>, s: Id): Walk
    requires Acyclic(g, topo) && s in g
  {
    if s in del then Walk(false, del)
    else CropsEach(g, topo, del, s, Live(del, g[s].dependents), 0)
  }

  function CropsEach(g: Graph, ghost topo: Ranks, del: seq<Id>, s: Id, downs: seq<Id>, i: nat): Walk
    requires Acyclic(g, topo) && s in g && i <= |downs|
    requires forall d :: d in downs ==> d in g[s].dependents
    decreases |downs| - i
  {
    OutputsRankAbove(g, topo, s, downs);
    if i == |downs| then Walk(true, del)
    else
      var d := downs[i];
      if d in del then Walk(false, del)
      else if g[d].cls == Crop then
        var w := FindLowest(g, topo, del, d);
        if !w.ok then w else CropsEach(g, topo, w.log, s, downs, i + 1)
      else CropsEach(g, topo, del, s, downs, i + 1)
  }

  // ---------------------------------------------------------------------------
  // Properties

  ghost predicate Distinct(s: seq<Id>) {
    forall i, j :: 0 <= i < j < |s| ==> s[i] != s[j]
  }

  /** A walk only appends to the log, and never deletes a node twice. */
  ghost predicate Grows(del: seq<Id>, log: seq<Id>) {
    && |del| <= |log| && log[..|del|] == del
    && (Distinct(del) ==> Distinct(log))
  }

  lemma GrowsTrans(a: seq<Id>, b: seq<Id>, c: seq<Id>)
    requires Grows(a, b) && Grows(b, c)
    ensures Grows(a, c)
  {
    assert c[..|a|] == c[..|b|][..|a|];
  }

  /** `a` lies above `n`, reached along dependencies through nodes none of which is a Shuffle. */
  ghost predicate AboveWithoutShuffle(g: Graph, topo: Ranks, a: Id, n: Id)
    requires Acyclic(g, topo) && n in g
    decreases topo[n], 1
  {
    exists u :: u in Dependencies(g[n]) && StepsTo(g, topo, n, u, a)
  }

  /** The dependency `u` of `n` is not a Shuffle and is `a` or leads up to `a`. */
  ghost predicate StepsTo(g: Graph, topo: Ranks, n: Id, u: Id, a: Id)
    requires Acyclic(g, topo) && n in g && u in Dependencies(g[n])
    decreases topo[n], 0
  {
    g[u].cls != Shuffle && (u == a || AboveWithoutShuffle(g, topo, a, u))
  }

  lemma {:induction false} AboveWithoutShuffleIsNoShuffle(g: Graph, topo: Ranks, a: Id, n: Id)
    requires Acyclic(g, topo) && n in g
    requires AboveWithoutShuffle(g, topo, a, n)
    ensures a in g && g[a].cls != Shuffle
    decreases topo[n]
  {
    var u :| u in Dependencies(g[n]) && StepsTo(g, topo, n, u, a);
    if u != a {
      AboveWithoutShuffleIsNoShuffle(g, topo, a, u);
    }
  }

  /** Every node the walk added to the log is `n`, or lies above `n` through non-Shuffle nodes. */
  ghost predicate AddedAbove(g: Graph, topo: Ranks, del: seq<Id>, log: seq<Id>, n: Id)
    requires Acyclic(g, topo) && n in g
  {
    forall k :: |del| <= k < |log| ==> log[k] == n || AboveWithoutShuffle(g, topo, log[k], n)
  }

  /** Every node the walk added to the log is a graph node that is below `c` or is not a Shuffle. */
  ghost predicate AddedBelowOrNoShuffle(g: Graph, topo: Ranks, del: seq<Id>, log: seq<Id>, c: Id)
    requires Acyclic(g, topo) && c in g
  {
    forall k :: |del| <= k < |log| ==> log[k] in g && (g[log[k]].cls != Shuffle || Below(g, topo, c, log[k]))
  }

  /** The walk upstream from `n` appends distinct nodes to the log; each is `n`
      or lies above `n` through non-Shuffle nodes only, so it never deletes or
      walks past a Shuffle. */
  lemma {:induction false} RemoveUpstreamSound(g: Graph, topo: Ranks, del: seq<Id>, n: Id)
    requires Acyclic(g, topo) && n in g
    ensures var w := RemoveUpstream(g, topo, del, n);
      && Grows(del, w.log)
      && AddedAbove(g, topo, del, w.log, n)
    decreases topo[n], 1
  {
    if n !in del {
      RemoveEachSound(g, topo, del, n, Live(del, Dependencies(g[n])), 0);
    }
  }

  lemma {:induction false} RemoveEachSound(g: Graph, topo: Ranks, del: seq<Id>, n: Id, ups: seq<Id>, i: nat)
    requires Acyclic(g, topo) && n in g && i <= |ups|
    requires forall u :: u in ups ==> u in Dependencies(g[n])
    ensures var w := RemoveEach(g, topo, del, n, ups, i);
      && Grows(del, w.log)
      && AddedAbove(g, topo, del, w.log, n)
    decreases topo[n], 0, |ups| - i
  {
    InputsRankBelow(g, topo, n, ups);
    if i == |ups| {
      EraseGrows(del, n);
    } else if ups[i] in del {
      assert RemoveEach(g, topo, del, n, ups, i) == Walk(false, del);
    } else if g[ups[i]].cls == Shuffle {
      assert RemoveEach(g, topo, del, n, ups, i) == Erase(del, n);
      EraseGrows(del, n);
    } else {
      var u := ups[i];
      var w := RemoveUpstream(g, topo, del, u);
      RemoveUpstreamSound(g, topo, del, u);
      AboveThrough(g, topo, del, w.log, n, u);
      if !w.ok {
        assert RemoveEach(g, topo, del, n, ups, i) == w;
      } else {
        var w2 := RemoveEach(g, topo, w.log, n, ups, i + 1);
        assert RemoveEach(g, topo, del, n, ups, i) == w2;
        RemoveEachSound(g, topo, w.log, n, ups, i + 1);
        GrowsTrans(del, w.log, w2.log);
        AddedAboveTrans(g, topo, del, w.log, w2.log, n);
      }
    }
  }

  /** When the walk upstream from `n` completes, `n` is the last node deleted:
      its non-Shuffle dependencies are walked first. */
  lemma {:induction false} RemoveUpstreamDeletesStartLast(g: Graph, topo: Ranks, del: seq<Id>, n: Id)
    requires Acyclic(g, topo) && n in g
    ensures var w := RemoveUpstream(g, topo, del, n);
      w.ok ==> |del| < |w.log| && w.log[|w.log| - 1] == n
    decreases topo[n], 1
  {
    if n !in del {
      RemoveEachDeletesStartLast(g, topo, del, n, Live(del, Dependencies(g[n])), 0);
    }
  }

  lemma {:induction false} RemoveEachDeletesStartLast(g: Graph, topo: Ranks, del: seq<Id>, n: Id, ups: seq<Id>, i: nat)
    requires Acyclic(g, topo) && n in g && i <= |ups|
    requires forall u :: u in ups ==> u in Dependencies(g[n])
    ensures var w := RemoveEach(g, topo, del, n, ups, i);
      w.ok ==> |del| < |w.log| && w.log[|w.log| - 1] == n
    decreases topo[n], 0, |ups| - i
  {
    InputsRankBelow(g, topo, n, ups);
    if i < |ups| && ups[i] !in del && g[ups[i]].cls != Shuffle {
      var w := RemoveUpstream(g, topo, del, ups[i]);
      if w.ok {
        RemoveUpstreamSound(g, topo, del, ups[i]);
        RemoveEachDeletesStartLast(g, topo, w.log, n, ups, i + 1);
      }
    }
  }

  /** What a walk from the non-Shuffle dependency `u` of `n` adds lies above `n`. */
  lemma AboveThrough(g: Graph, topo: Ranks, del: seq<Id>, log: seq<Id>, n: Id, u: Id)
    requires Acyclic(g, topo) && n in g && u in Dependencies(g[n]) && g[u].cls != Shuffle
    requires AddedAbove(g, topo, del, log, u)
    ensures forall k :: |del| <= k < |log| ==> AboveWithoutShuffle(g, topo, log[k], n)
  {
    forall k | |del| <= k < |log|
      ensures AboveWithoutShuffle(g, topo, log[k], n)
    {
      assert StepsTo(g, topo, n, u, log[k]);
    }
  }

  lemma AddedAboveTrans(g: Graph, topo: Ranks, a: seq<Id>, b: seq<Id>, c: seq<Id>, n: Id)
    requires Acyclic(g, topo) && n in g
    requires forall k :: |a| <= k < |b| ==> AboveWithoutShuffle(g, topo, b[k], n)
    requires Grows(b, c) && |a| <= |b|
    requires AddedAbove(g, topo, b, c, n)
    ensures AddedAbove(g, topo, a, c, n)
  {
    forall k | |a| <= k < |b|
      ensures c[k] == b[k]
    {
      assert c[k] == c[..|b|][k];
    }
  }

  lemma EraseGrows(del: seq<Id>, n: Id)
    ensures Grows(del, Erase(del, n).log)
    ensures var w := Erase(del, n); w.ok ==> |del| < |w.log| && w.log[|w.log| - 1] == n
  {
    assert (del + [n])[..|del|] == del;
  }

  /** find_lowest_node_then_remove below `c` appends distinct nodes to the log,
      and every one it deletes is below `c` or is not a Shuffle. */
  lemma {:induction false} FindLowestSound(g: Graph, topo: Ranks, del: seq<Id>, c: Id)
    requires Acyclic(g, topo) && c in g
    ensures var w := FindLowest(g, topo, del, c);
      Grows(del, w.log) && AddedBelowOrNoShuffle(g, topo, del, w.log, c)
    decreases |g| - topo[c], 1
  {
    if c !in del {
      var downs := Live(del, g[c].dependents);
      if |downs| >= 1 {
        LowestEachSound(g, topo, del, c, downs, 0);
      } else {
        var w := RemoveUpstream(g, topo, del, c);
        RemoveUpstreamSound(g, topo, del, c);
        forall k | |del| <= k < |w.log| && w.log[k] != c
          ensures w.log[k] in g && g[w.log[k]].cls != Shuffle
        {
          AboveWithoutShuffleIsNoShuffle(g, topo, w.log[k], c);
        }
      }
    }
  }

  lemma {:induction false} LowestEachSound(g: Graph, topo: Ranks, del: seq<Id>, c: Id, downs: seq<Id>, i: nat)
    requires Acyclic(g, topo) && c in g && i <= |downs|
    requires forall d :: d in downs ==> d in g[c].dependents
    ensures var w := LowestEach(g, topo, del, c, downs, i);
      Grows(del, w.log) && AddedBelowOrNoShuffle(g, topo, del, w.log, c)
    decreases |g| - topo[c], 0, |downs| - i
  {
    OutputsRankAbove(g, topo, c, downs);
    if i < |downs| {
      var d := downs[i];
      var w := FindLowest(g, topo, del, d);
      FindLowestSound(g, topo, del, d);
      BelowThrough(g, topo, del, w.log, c, d);
      if w.ok {
        var w2 := LowestEach(g, topo, w.log, c, downs, i + 1);
        assert LowestEach(g, topo, del, c, downs, i) == w2;
        LowestEachSound(g, topo, w.log, c, downs, i + 1);
        GrowsTrans(del, w.log, w2.log);
        AddedBelowTrans(g, topo, del, w.log, w2.log, c);
      }
    }
  }

  /** What a walk below the dependent `d` of `c` adds is below `c` or not a Shuffle. */
  lemma BelowThrough(g: Graph, topo: Ranks, del: seq<Id>, log: seq<Id>, c: Id, d: Id)
    requires Acyclic(g, topo) && c in g && d in g[c].dependents
    requires AddedBelowOrNoShuffle(g, topo, del, log, d)
    ensures AddedBelowOrNoShuffle(g, topo, del, log, c)
  {
    forall k | |del| <= k < |log| && Below(g, topo, d, log[k])
      ensures Below(g, topo, c, log[k])
    {
    }
  }

  lemma AddedBelowTrans(g: Graph, topo: Ranks, a: seq<Id>, b: seq<Id>, c: seq<Id>, n: Id)
    requires Acyclic(g, topo) && n in g
    requires AddedBelowOrNoShuffle(g, topo, a, b, n)
    requires Grows(b, c) && |a| <= |b|
    requires AddedBelowOrNoShuffle(g, topo, b, c, n)
    ensures AddedBelowOrNoShuffle(g, topo, a, c, n)
  {
    forall k | |a| <= k < |b|
      ensures c[k] == b[k]
    {
      assert c[k] == c[..|b|][k];
    }
  }

  /** Every node the walk added to the log is a graph node that is not a
      Shuffle, or is a Shuffle strictly below `s`. */
  ghost predicate AddedSpares(g: Graph, topo: Ranks, del: seq<Id>, log: seq<Id>, s: Id)
    requires Acyclic(g, topo) && s in g
  {
    forall k :: |del| <= k < |log| ==>
      log[k] in g && (g[log[k]].cls != Shuffle || (log[k] != s && Below(g, topo, s, log[k])))
  }

  /** The Crop loop for the Shuffle `s` appends distinct nodes to the log, and
      never deletes `s` or any Shuffle that is not strictly below `s`. */
  lemma {:induction false} RemoveCropsSparesShuffle(g: Graph, topo: Ranks, del: seq<Id>, s: Id)
    requires Acyclic(g, topo) && s in g
    ensures var w := RemoveCrops(g, topo, del, s);
      Grows(del, w.log) && AddedSpares(g, topo, del, w.log, s)
  {
    if s !in del {
      CropsEachSound(g, topo, del, s, Live(del, g[s].dependents), 0);
    }
  }

  lemma {:induction false} CropsEachSound(g: Graph, topo: Ranks, del: seq<Id>, s: Id, downs: seq<Id>, i: nat)
    requires Acyclic(g, topo) && s in g && i <= |downs|
    requires forall d :: d in downs ==> d in g[s].dependents
    ensures var w := CropsEach(g, topo, del, s, downs, i);
      Grows(del, w.log) && AddedSpares(g, topo, del, w.log, s)
    decreases |downs| - i
  {
    OutputsRankAbove(g, topo, s, downs);
    if i < |downs| && downs[i] !in del {
      var d := downs[i];
      var w := if g[d].cls == Crop then FindLowest(g, topo, del, d) else Walk(true, del);
      if g[d].cls == Crop {
        FindLowestSound(g, topo, del, d);
        SparedThrough(g, topo, del, w.log, s, d);
      } else {
        assert w.log[..|del|] == del;
      }
      if w.ok {
        var w2 := CropsEach(g, topo, w.log, s, downs, i + 1);
        assert CropsEach(g, topo, del, s, downs, i) == w2;
        CropsEachSound(g, topo, w.log, s, downs, i + 1);
        GrowsTrans(del, w.log, w2.log);
        AddedSparesTrans(g, topo, del, w.log, w2.log, s);
      }
    }
  }

  /** What a removal below the dependent `d` of `s` adds spares `s`. */
  lemma SparedThrough(g: Graph, topo: Ranks, del: seq<Id>, log: seq<Id>, s: Id, d: Id)
    requires Acyclic(g, topo) && s in g && d in g[s].dependents
    requires AddedBelowOrNoShuffle(g, topo, del, log, d)
    ensures AddedSpares(g, topo, del, log, s)
  {
    forall k | |del| <= k < |log| && Below(g, topo, d, log[k])
      ensures log[k] != s && Below(g, topo, s, log[k])
    {
      BelowRanks(g, topo, d, log[k]);
    }
  }

  lemma AddedSparesTrans(g: Graph, topo: Ranks, a: seq<Id>, b: seq<Id>, c: seq<Id>, s: Id)
    requires Acyclic(g, topo) && s in g
    requires AddedSpares(g, topo, a, b, s)
    requires Grows(b, c) && |a| <= |b|
    requires AddedSpares(g, topo, b, c, s)
    ensures AddedSpares(g, topo, a, c, s)
  {
    forall k | |a| <= k < |b|
      ensures c[k] == b[k]
    {
      assert c[k] == c[..|b|][k];
    }
  }

  /** When the loop over the dependencies of `n` reaches a live Shuffle at
      position `i`, it deletes `n` and stops: the dependencies after it are
      never visited. */
  lemma ShuffleParentStops(g: Graph, topo: Ranks, del: seq<Id>, n: Id, ups: seq<Id>, i: nat)
    requires Acyclic(g, topo) && n in g && i < |ups|
    requires forall u :: u in ups ==> u in Dependencies(g[n])
    requires ups[i] in g && ups[i] !in del && g[ups[i]].cls == Shuffle
    ensures RemoveEach(g, topo, del, n, ups, i) == Erase(del, n)
  {
  }

  /** A node without live dependencies is deleted and the walk stops there. */
  lemma DeadEndStops(g: Graph, topo: Ranks, del: seq<Id>, n: Id)
    requires Acyclic(g, topo) && n in g && n !in del
    requires Live(del, Dependencies(g[n])) == []
    ensures RemoveUpstream(g, topo, del, n) == Walk(true, del + [n])
  {
  }

  // ---------------------------------------------------------------------------
  // A node and its only reader

  /** `c` is the only node reading `p`, and `p` lists `c` among its
      dependents: a Premult and the Card made for it. */
  ghost predicate SoleReader(g: Graph, p: Id, c: Id) {
    && p in g && c in g && c in g[p].dependents
    && forall id :: id in g && p in Dependencies(g[id]) ==> id == c
  }

  /** `p` is deleted only if `c` is. */
  ghost predicate Guarded(del: seq<Id>, p: Id, c: Id) {
    p in del ==> c in del
  }

  /** What a log holds stays in the logs that grow from it. */
  lemma GrowsKeeps(del: seq<Id>, log: seq<Id>)
    requires Grows(del, log)
    ensures forall x :: x in del ==> x in log
  {
    forall x | x in del
      ensures x in log
    {
      var k :| 0 <= k < |del| && del[k] == x;
      assert log[k] == log[..|del|][k];
    }
  }

  /** A walk upstream from a node other than `p` that completes deletes `p`
      only together with its sole reader `c`: the walk reaches `p` only from
      `c`, and deletes `c` on the way back. */
  lemma {:induction false} RemoveUpstreamGuards(g: Graph, topo: Ranks, del: seq<Id>, n: Id, p: Id, c: Id)
    requires Acyclic(g, topo) && n in g && SoleReader(g, p, c) && n != p
    ensures var w := RemoveUpstream(g, topo, del, n);
      w.ok && Guarded(del, p, c) ==> Guarded(w.log, p, c)
    decreases topo[n], 1
  {
    if n !in del {
      RemoveEachGuards(g, topo, del, n, Live(del, Dependencies(g[n])), 0, p, c);
    }
  }

  lemma {:induction false} RemoveEachGuards(g: Graph, topo: Ranks, del: seq<Id>, n: Id, ups: seq<Id>, i: nat,
                                            p: Id, c: Id)
    requires Acyclic(g, topo) && n in g && i <= |ups| && SoleReader(g, p, c) && n != p
    requires forall u :: u in ups ==> u in Dependencies(g[n])
    ensures var w := RemoveEach(g, topo, del, n, ups, i);
      w.ok && Guarded(del, p, c) ==> Guarded(w.log, p, c)
    decreases topo[n], 0, |ups| - i
  {
    InputsRankBelow(g, topo, n, ups);
    if i < |ups| && ups[i] !in del && g[ups[i]].cls != Shuffle {
      var u := ups[i];
      var w := RemoveUpstream(g, topo, del, u);
      if w.ok {
        var w2 := RemoveEach(g, topo, w.log, n, ups, i + 1);
        assert RemoveEach(g, topo, del, n, ups, i) == w2;
        if u == p {
          assert u in ups;
          RemoveEachDeletesStartLast(g, topo, w.log, n, ups, i + 1);
        } else {
          RemoveUpstreamGuards(g, topo, del, u, p, c);
          RemoveEachGuards(g, topo, w.log, n, ups, i + 1, p, c);
        }
      }
    }
  }

  /** find_lowest_node_then_remove deletes `p` only together with its sole
      reader `c`: it walks upstream from `p` only once `c` is deleted. */
  lemma {:induction false} FindLowestGuards(g: Graph, topo: Ranks, del: seq<Id>, n: Id, p: Id, c: Id)
    requires Acyclic(g, topo) && n in g && SoleReader(g, p, c)
    ensures var w := FindLowest(g, topo, del, n);
      w.ok && Guarded(del, p, c) ==> Guarded(w.log, p, c)
    decreases |g| - topo[n], 1
  {
    if n !in del {
      var downs := Live(del, g[n].dependents);
      if |downs| >= 1 {
        LowestEachGuards(g, topo, del, n, downs, 0, p, c);
      } else if n == p {
        RemoveUpstreamSound(g, topo, del, n);
        GrowsKeeps(del, RemoveUpstream(g, topo, del, n).log);
      } else {
        RemoveUpstreamGuards(g, topo, del, n, p, c);
      }
    }
  }

  lemma {:induction false} LowestEachGuards(g: Graph, topo: Ranks, del: seq<Id>, n: Id, downs: seq<Id>, i: nat,
                                            p: Id, c: Id)
    requires Acyclic(g, topo) && n in g && i <= |downs| && SoleReader(g, p, c)
    requires forall d :: d in downs ==> d in g[n].dependents
    ensures var w := LowestEach(g, topo, del, n, downs, i);
      w.ok && Guarded(del, p, c) ==> Guarded(w.log, p, c)
    decreases |g| - topo[n], 0, |downs| - i
  {
    OutputsRankAbove(g, topo, n, downs);
    if i < |downs| {
      var w := FindLowest(g, topo, del, downs[i]);
      FindLowestGuards(g, topo, del, downs[i], p, c);
      if w.ok {
        assert LowestEach(g, topo, del, n, downs, i) == LowestEach(g, topo, w.log, n, downs, i + 1);
        LowestEachGuards(g, topo, w.log, n, downs, i + 1, p, c);
      }
    }
  }

  /** The Crop loop below a Shuffle deletes `p` only together with its sole
      reader `c`. */
  lemma {:induction false} RemoveCropsGuards(g: Graph, topo: Ranks, del: seq<Id>, s: Id, p: Id, c: Id)
    requires Acyclic(g, topo) && s in g && SoleReader(g, p, c)
    ensures var w := RemoveCrops(g, topo, del, s);
      w.ok && Guarded(del, p, c) ==> Guarded(w.log, p, c)
  {
    if s !in del {
      CropsEachGuards(g, topo, del, s, Live(del, g[s].dependents), 0, p, c);
    }
  }

  lemma {:induction false} CropsEachGuards(g: Graph, topo: Ranks, del: seq<Id>, s: Id, downs: seq<Id>, i: nat,
                                           p: Id, c: Id)
    requires Acyclic(g, topo) && s in g && i <= |downs| && SoleReader(g, p, c)
    requires forall d :: d in downs ==> d in g[s].dependents
    ensures var w := CropsEach(g, topo, del, s, downs, i);
      w.ok && Guarded(del, p, c) ==> Guarded(w.log, p, c)
    decreases |downs| - i
  {
    OutputsRankAbove(g, topo, s, downs);
    if i < |downs| && downs[i] !in del {
      var d := downs[i];
      var w := if g[d].cls == Crop then FindLowest(g, topo, del, d) else Walk(true, del);
      if g[d].cls == Crop {
        FindLowestGuards(g, topo, del, d, p, c);
      }
      if w.ok {
        assert CropsEach(g, topo, del, s, downs, i) == CropsEach(g, topo, w.log, s, downs, i + 1);
        CropsEachGuards(g, topo, w.log, s, downs, i + 1, p, c);
      }
    }
  }

  // ---------------------------------------------------------------------------
  // Worked examples

  /** For a chain Shuffle `s` -> Crop `c` -> `a` -> `b`, the removal started at
      the Crop descends to `b`, then deletes the Crop, `a` and `b` in that
      order; the Shuffle survives. */
  lemma ChainDeletionOrder(g: Graph, topo: Ranks, s: Id, c: Id, a: Id, b: Id)
    requires Acyclic(g, topo) && s in g && c in g && a in g && b in g
    requires g[s].cls == Shuffle && g[c].cls == Crop && g[a].cls != Shuffle
    requires Dependencies(g[c]) == [s] && g[c].dependents == [a]
    requires Dependencies(g[a]) == [c] && g[a].dependents == [b]
    requires Dependencies(g[b]) == [a] && g[b].dependents == []
    ensures FindLowest(g, topo, [], c) == Walk(true, [c, a, b])
  {
    assert c != a && a != b && c != b;
    UpstreamStep(g, topo, [], c, s, [c]);
    UpstreamStep(g, topo, [], a, c, [c, a]);
    UpstreamStep(g, topo, [], b, a, [c, a, b]);
    LeafStep(g, topo, [], b, [c, a, b]);
    assert Live([], g[a].dependents) == [b];
    LowestEachStep(g, topo, [], a, [b], 0);
    assert Live([], g[c].dependents) == [a];
    LowestEachStep(g, topo, [], c, [a], 0);
  }

  /** For a Shuffle `s` -> Crop `c` whose two leaves `a` and `b` read only from
      the Crop, the first leaf's walk deletes the Crop and `a`; `b` then has no
      live dependency left, so only `b` is deleted after them. */
  lemma ForkDeletionOrder(g: Graph, topo: Ranks, s: Id, c: Id, a: Id, b: Id)
    requires Acyclic(g, topo) && s in g && c in g && a in g && b in g
    requires g[s].cls == Shuffle && g[c].cls == Crop && a != b
    requires Dependencies(g[c]) == [s] && g[c].dependents == [a, b]
    requires Dependencies(g[a]) == [c] && g[a].dependents == []
    requires Dependencies(g[b]) == [c] && g[b].dependents == []
    ensures FindLowest(g, topo, [], c) == Walk(true, [c, a, b])
  {
    assert c != a && c != b;
    CropChildUp(g, topo, s, c, a);
    LeafStep(g, topo, [], a, [c, a]);
    assert Live([c, a], Dependencies(g[b])) == [];
    DeadEndStops(g, topo, [c, a], b);
    LeafStep(g, topo, [c, a], b, [c, a, b]);
    assert Live([], g[c].dependents) == [a, b];
    LowestEachStep(g, topo, [], c, [a, b], 0);
    LowestEachStep(g, topo, [c, a], c, [a, b], 1);
  }

  /** For Shuffle `s` -> Crop `c` -> `a` and `b` -> `m` reading from both, the
      walk from `m` deletes `b` through its second input after deleting the
      Crop through the first; the Crop's loop then asks the deleted `b` for its
      dependents, and the host raises. */
  lemma DiamondRaises(g: Graph, topo: Ranks, s: Id, c: Id, a: Id, b: Id, m: Id)
    requires Acyclic(g, topo) && s in g && c in g && a in g && b in g && m in g
    requires g[s].cls == Shuffle && g[c].cls == Crop && g[a].cls != Shuffle && g[b].cls != Shuffle && a != b
    requires Dependencies(g[c]) == [s] && g[c].dependents == [a, b]
    requires Dependencies(g[a]) == [c] && g[a].dependents == [m]
    requires Dependencies(g[b]) == [c] && g[b].dependents == [m]
    requires Dependencies(g[m]) == [a, b] && g[m].dependents == []
    ensures FindLowest(g, topo, [], c) == Walk(false, [c, a, b, m])
  {
    DiamondFirstBranch(g, topo, s, c, a, b, m);
    assert Live([], g[c].dependents) == [a, b];
    LowestEachStep(g, topo, [], c, [a, b], 0);
  }

  /** In the diamond, the walk into the first branch `a` ends at `m` and
      deletes the Crop, `a`, `b` and `m`. */
  lemma DiamondFirstBranch(g: Graph, topo: Ranks, s: Id, c: Id, a: Id, b: Id, m: Id)
    requires Acyclic(g, topo) && s in g && c in g && a in g && b in g && m in g
    requires g[s].cls == Shuffle && g[c].cls == Crop && g[a].cls != Shuffle && g[b].cls != Shuffle && a != b
    requires Dependencies(g[c]) == [s] && g[c].dependents == [a, b]
    requires Dependencies(g[a]) == [c] && g[a].dependents == [m]
    requires Dependencies(g[b]) == [c] && g[b].dependents == [m]
    requires Dependencies(g[m]) == [a, b] && g[m].dependents == []
    ensures FindLowest(g, topo, [], a) == Walk(true, [c, a, b, m])
  {
    assert c != a && c != b && c != m && a != m && b != m;
    DiamondBottom(g, topo, s, c, a, b, m);
    LeafStep(g, topo, [], m, [c, a, b, m]);
    assert Live([], g[a].dependents) == [m];
    LowestEachStep(g, topo, [], a, [m], 0);
  }

  /** In the diamond, the upward walk from `m` deletes the Crop and `a`
      through the first input, then `b` through the second, then `m`. */
  lemma DiamondBottom(g: Graph, topo: Ranks, s: Id, c: Id, a: Id, b: Id, m: Id)
    requires Acyclic(g, topo) && s in g && c in g && a in g && b in g && m in g
    requires g[s].cls == Shuffle && g[c].cls == Crop && g[a].cls != Shuffle && g[b].cls != Shuffle && a != b
    requires Dependencies(g[c]) == [s]
    requires Dependencies(g[a]) == [c]
    requires Dependencies(g[b]) == [c]
    requires Dependencies(g[m]) == [a, b]
    ensures RemoveUpstream(g, topo, [], m) == Walk(true, [c, a, b, m])
  {
    assert c != a && c != b && c != m && a != m && b != m;
    CropChildUp(g, topo, s, c, a);
    assert Live([], Dependencies(g[m])) == [a, b];
    assert RemoveUpstream(g, topo, [], m) == RemoveEach(g, topo, [], m, [a, b], 0);
    RemoveEachStep(g, topo, [], m, [a, b], 0);
    DiamondSecondInput(g, topo, c, a, b, m);
  }

  /** In the diamond, once the Crop and `a` are deleted, the walk from `m`
      through its second input `b` deletes `b` and then `m`. */
  lemma DiamondSecondInput(g: Graph, topo: Ranks, c: Id, a: Id, b: Id, m: Id)
    requires Acyclic(g, topo) && c in g && a in g && b in g && m in g
    requires g[b].cls != Shuffle && a != b && c != b && c != m && a != m && b != m
    requires Dependencies(g[b]) == [c] && Dependencies(g[m]) == [a, b]
    ensures RemoveEach(g, topo, [c, a], m, [a, b], 1) == Walk(true, [c, a, b, m])
  {
    assert Live([c, a], Dependencies(g[b])) == [];
    DeadEndStops(g, topo, [c, a], b);
    RemoveEachStep(g, topo, [c, a], m, [a, b], 1);
    assert RemoveEach(g, topo, [c, a, b], m, [a, b], 2) == Walk(true, [c, a, b, m]);
  }

  /** The upward walk from a node `a` that reads only from the Crop `c` under
      the Shuffle `s` deletes the Crop, then `a`. */
  lemma CropChildUp(g: Graph, topo: Ranks, s: Id, c: Id, a: Id)
    requires Acyclic(g, topo) && s in g && c in g && a in g
    requires g[s].cls == Shuffle && g[c].cls == Crop
    requires Dependencies(g[c]) == [s] && Dependencies(g[a]) == [c]
    ensures RemoveUpstream(g, topo, [], a) == Walk(true, [c, a])
  {
    assert c != a;
    UpstreamStep(g, topo, [], c, s, [c]);
    UpstreamStep(g, topo, [], a, c, [c, a]);
  }

  /** One iteration of the loop of remove_upstream_nodes_until_shuffle that
      walks up from the non-Shuffle `ups[i]`: it stops if that walk raised and
      otherwise goes on with the next dependency. */
  lemma RemoveEachStep(g: Graph, topo: Ranks, del: seq<Id>, n: Id, ups: seq<Id>, i: nat)
    requires Acyclic(g, topo) && n in g && i < |ups|
    requires forall u :: u in ups ==> u in Dependencies(g[n])
    requires ups[i] in g && ups[i] !in del && g[ups[i]].cls != Shuffle
    ensures var w := RemoveUpstream(g, topo, del, ups[i]);
      RemoveEach(g, topo, del, n, ups, i) ==
        if w.ok then RemoveEach(g, topo, w.log, n, ups, i + 1) else w
  {
    InputsRankBelow(g, topo, n, ups);
  }

  /** One iteration of the Crop loop of convert_psd_to_cards at the Crop `downs[i]`. */
  lemma CropsEachStep(g: Graph, topo: Ranks, del: seq<Id>, s: Id, downs: seq<Id>, i: nat)
    requires Acyclic(g, topo) && s in g && i < |downs|
    requires forall d :: d in downs ==> d in g[s].dependents
    requires downs[i] in g && downs[i] !in del && g[downs[i]].cls == Crop
    ensures var w := FindLowest(g, topo, del, downs[i]);
      CropsEach(g, topo, del, s, downs, i) ==
        if w.ok then CropsEach(g, topo, w.log, s, downs, i + 1) else w
  {
    OutputsRankAbove(g, topo, s, downs);
  }

  /** One iteration of the loop of find_lowest_node_then_remove: it descends
      into `downs[i]` and, if that completes, goes on with the next dependent. */
  lemma LowestEachStep(g: Graph, topo: Ranks, del: seq<Id>, n: Id, downs: seq<Id>, i: nat)
    requires Acyclic(g, topo) && n in g && i < |downs|
    requires forall d :: d in downs ==> d in g[n].dependents
    requires downs[i] in g
    ensures var w := FindLowest(g, topo, del, downs[i]);
      LowestEach(g, topo, del, n, downs, i) ==
        if w.ok then LowestEach(g, topo, w.log, n, downs, i + 1) else w
  {
    OutputsRankAbove(g, topo, n, downs);
  }

  /** One step of a worked example: `n` has the single dependency `u`. */
  lemma UpstreamStep(g: Graph, topo: Ranks, del: seq<Id>, n: Id, u: Id, log: seq<Id>)
    requires Acyclic(g, topo) && n in g && n !in del && u in g && u !in del
    requires Dependencies(g[n]) == [u]
    requires if g[u].cls == Shuffle then log == del + [n]
             else var w := RemoveUpstream(g, topo, del, u); w.ok && n !in w.log && log == w.log + [n]
    ensures RemoveUpstream(g, topo, del, n) == Walk(true, log)
  {
    assert Live(del, [u]) == [u];
    assert RemoveUpstream(g, topo, del, n) == RemoveEach(g, topo, del, n, [u], 0);
    if g[u].cls != Shuffle {
      var w := RemoveUpstream(g, topo, del, u);
      assert RemoveEach(g, topo, del, n, [u], 0) == RemoveEach(g, topo, w.log, n, [u], 1);
    }
  }

  /** One step of a worked example: `n` has no live dependents. */
  lemma LeafStep(g: Graph, topo: Ranks, del: seq<Id>, n: Id, log: seq<Id>)
    requires Acyclic(g, topo) && n in g && n !in del
    requires Live(del, g[n].dependents) == []
    requires RemoveUpstream(g, topo, del, n) == Walk(true, log)
    ensures FindLowest(g, topo, del, n) == Walk(true, log)
  {
  }
}
