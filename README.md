# PSD layers to cards: a verified model

This project models the compositing-application script
`auto_psd_layers_to_cards.py`. The script starts from one selected PSD read
node whose layers the host has already broken out into Shuffle nodes. It
then does the following:

- finds those Shuffles through any Dots (`find_connected_shuffles`);
- under each Shuffle, removes every Crop branch (`find_lowest_node_then_remove`,
  `remove_upstream_nodes_until_shuffle`);
- gives each layer a Premult and a Card2 whose translate and scaling depend
  on the layer's depth rank;
- refits the backdrop around each Shuffle (`find_backdrop`,
  `resize_backdrop_to_fit`);
- wires every card into a Scene, and adds a Camera and a ScanlineRender.

Modules:

- `Nodes` (nodes.dfy): the node graph as a value.
  - A node has a class, input slots, dependents, a position and size, a
    `file_type` knob, and the translate and scaling knobs.
  - A ghost ranking `topo` states that the graph is acyclic: inputs rank
    below a node, dependents rank above it. Every recursive walk uses the
    ranking as its termination measure.
  - `Wired` is `x.setInput(i, y)`. Slot `i` of `x` reads `y`, `x` is added
    to the dependents of `y`, and the node slot `i` read before lists `x`
    once less. A node appears among another's dependents once per input
    slot that reads it.
- `Shuffles` (shuffles.dfy): the Shuffle locator, as a recursive function.
  It is proved to report exactly the Shuffles reachable through Dots.
- `Cleanup` (cleanup.dfy): the two removal walks and the Crop loop, as
  functions of a deletion log.
  - A node the walk deletes stays in the map. It is appended to the log, and
    every host query skips it.
  - Any host call on a node that is already deleted makes the host raise.
    This covers asking its class, its dependents or its dependencies,
    deleting it again, and connecting it. The walk then ends with `ok == false`.
- `Backdrops` (backdrops.dfy): the containment test, `find_backdrop`, and the
  accumulation and padding loop of `resize_backdrop_to_fit`. The loop is the
  method `Fit`, proved against the pure `FitBox`.
- `Cards` (cards.dfy): the selection guard, the depth rank, and the card
  knob values.
- `State` and `Wiring` (state.dfy, wiring.dfy): the consistency invariant of
  the host state, and what a finished conversion has built.
- `Script` (script.dfy): `convert_psd_to_cards` as functions of the host
  state.
  - Each host call and each part of the script is one function giving the
    state after it: `WithNode`, `WithInput`, `WithLayer`, `Refit`, `Step`
    (one iteration of the loop), `Run` (the loop as a fold over the
    shuffles), `WithScene`, `WithRender` and `Conversion` (the whole
    command).
  - The lemmas say what each part builds and when it stops. `StepStops`: a
    step fails exactly when the cleanup calls on a deleted node, or when no
    live backdrop contains the Shuffle. `ConversionCompletes`: the command
    completes exactly when every step completes and no card was deleted.
    `ConversionBuilds`: the nodes a completed command built, and the fresh
    ids it used. `RunGuards`: the cleanup of a later Shuffle never deletes
    an earlier layer's Premult unless it also deletes that layer's Card2.
- The `Script` functions are the reference definition of the command. The
  `Dag` methods are proved to produce exactly the state those functions give.
- `Dag` (dag.dfy): the class `NodeGraph`.
  - Fields: the node map, the host's listing order, the deletion log, the
    next fresh id, and the ghost ranking.
  - Its methods are the host operations the script calls and the script's own
    functions. Each method that changes the graph ensures that the new
    `State()` is the matching `Script` function of the old one. It also
    repeats what the `Script` lemmas prove about that result: the whole new
    node, the ids used, and when the call fails.
  - `ConvertPsdToCards` is the whole of `convert_psd_to_cards` after the PSD
    breakout. It starts from a graph with no deleted node, as every run of
    the command does.

Facts about the code that the proofs make explicit:

- For a chain Shuffle → Crop → A → B, the cleanup deletes the Crop, then A,
  then B (`ChainDeletionOrder`). The downward walk reaches the lowest node B
  without deleting anything. The upward walk from B recurses up to the
  Shuffle first and deletes each node as its call returns, so the node
  nearest the Shuffle goes first.
- With nothing selected, `nuke.selectedNode()` raises before any message is
  shown (`Guard` returns `NothingSelected`). There is no message for an empty
  selection.
- Refitting a backdrop twice is not idempotent in general (`RefitCanGrow`): a
  node just outside the old bounds can fall inside the padded new ones.
  `RefitIsStable` proves the conditional form: a second fit changes nothing
  when the first fit's bounds take in no new node.
- When two branches under a Crop meet again, the cleanup deletes nodes that
  it then still iterates over, and the host raises (`DiamondRaises`).
- The command stops at the first Shuffle with no live backdrop around it,
  because `resize_backdrop_to_fit(None)` raises (`StepStops`).

## Model

| member | source | states |
|---|---|---|
| Nodes.Connected | auto_psd_layers_to_cards/auto_psd_layers_to_cards.py:100 | dependencies() lists exactly the connected input slots, no more of them than there are slots |
| Nodes.Live | auto_psd_layers_to_cards/auto_psd_layers_to_cards.py:86 | a host query returns exactly the listed ids that have not been deleted |
| Nodes.OfClass | auto_psd_layers_to_cards/auto_psd_layers_to_cards.py:121 | allNodes(cls) returns exactly the listed nodes of that class |
| Nodes.Plug | auto_psd_layers_to_cards/auto_psd_layers_to_cards.py:37 | after setInput(i, y) slot i holds y, the slot list grows with empty slots when i is past its end, and no other slot changes |
| Nodes.PlugDependencies | auto_psd_layers_to_cards/auto_psd_layers_to_cards.py:37 | after setInput(i, y) a node depends on y and otherwise only on what it depended on before |
| Nodes.WiredChanges | auto_psd_layers_to_cards/auto_psd_layers_to_cards.py:37 | setInput keeps the node set, changes only the inputs and dependents of any node, and changes the inputs of the reader alone, as `Plug` says |
| Nodes.WiredDependents | auto_psd_layers_to_cards/auto_psd_layers_to_cards.py:37 | setInput appends the reader to the new input's dependents, takes one listing of the reader out of the old input's dependents, and changes no other node's dependents |
| Nodes.UnlistedDropsOne | auto_psd_layers_to_cards/auto_psd_layers_to_cards.py:37 | taking the reader out of a dependents list removes exactly one of its listings and nothing else |
| Nodes.WiredKeepsAcyclic | auto_psd_layers_to_cards/auto_psd_layers_to_cards.py:37 | connecting a lower-ranked node as an input keeps the graph acyclic |
| Nodes.AddedKeepsAcyclic | auto_psd_layers_to_cards/auto_psd_layers_to_cards.py:36 | a new unconnected node, ranked above every other node, keeps the graph acyclic |
| Shuffles.FindConnectedShuffles | auto_psd_layers_to_cards/auto_psd_layers_to_cards.py:67-79 | every node returned is a node of the graph whose class is Shuffle |
| Shuffles.FindConnectedShufflesExact | auto_psd_layers_to_cards/auto_psd_layers_to_cards.py:67-79 | a node is returned if and only if it is a Shuffle reached from the start node through Dots only |
| Shuffles.NoDotsMeansDirectShuffles | auto_psd_layers_to_cards/auto_psd_layers_to_cards.py:73-75 | with no Dot among the dependents, the result is exactly the Shuffle dependents, in dependent order |
| Cleanup.EraseGrows | auto_psd_layers_to_cards/auto_psd_layers_to_cards.py:104 | deleting only extends the log, and a delete that succeeds appends the node as the log's last entry |
| Cleanup.RemoveUpstreamSound | auto_psd_layers_to_cards/auto_psd_layers_to_cards.py:96-109 | the upward walk only appends to the log, never deletes a node twice, and deletes only the start node and nodes above it reached through non-Shuffles, so it never deletes a Shuffle |
| Cleanup.RemoveUpstreamDeletesStartLast | auto_psd_layers_to_cards/auto_psd_layers_to_cards.py:96-109 | when the upward walk completes, the start node is the last node deleted |
| Cleanup.ShuffleParentStops | auto_psd_layers_to_cards/auto_psd_layers_to_cards.py:100-105 | when the walk over a node's dependencies reaches a live Shuffle at any position, it deletes the node and stops; later dependencies are never visited |
| Cleanup.DeadEndStops | auto_psd_layers_to_cards/auto_psd_layers_to_cards.py:100-109 | a node with no live dependency is deleted and the walk stops there |
| Cleanup.FindLowestSound | auto_psd_layers_to_cards/auto_psd_layers_to_cards.py:82-93 | the downward walk only appends distinct nodes to the log, and each one it deletes lies below the start node or is not a Shuffle |
| Cleanup.RemoveCropsSparesShuffle | auto_psd_layers_to_cards/auto_psd_layers_to_cards.py:32-34 | the Crop loop of a Shuffle appends distinct nodes to the log, and never deletes that Shuffle or a Shuffle not strictly below it |
| Cleanup.RemoveUpstreamGuards | auto_psd_layers_to_cards/auto_psd_layers_to_cards.py:96-109 | when a node's only reader is deleted whenever the node is, the upward walk from another node keeps it so |
| Cleanup.FindLowestGuards | auto_psd_layers_to_cards/auto_psd_layers_to_cards.py:82-93 | the downward walk deletes a node with a single reader only when that reader is deleted too |
| Cleanup.RemoveCropsGuards | auto_psd_layers_to_cards/auto_psd_layers_to_cards.py:32-34 | the Crop loop of a Shuffle deletes a node with a single reader only when it also deletes that reader |
| Cleanup.ChainDeletionOrder | auto_psd_layers_to_cards/auto_psd_layers_to_cards.py:82-109 | for Shuffle → Crop → A → B the removal deletes exactly the Crop, A and B, in that order |
| Cleanup.ForkDeletionOrder | auto_psd_layers_to_cards/auto_psd_layers_to_cards.py:82-109 | for a Crop with two leaf dependents the removal deletes the Crop and the first leaf, then the second leaf |
| Cleanup.DiamondRaises | auto_psd_layers_to_cards/auto_psd_layers_to_cards.py:86-90 | when two branches under a Crop meet again, the walk deletes a branch it still iterates over, and the host raises |
| Backdrops.Moved | auto_psd_layers_to_cards/auto_psd_layers_to_cards.py:165-168 | writing a backdrop's bounds sets its position and size and keeps its class, edges and knobs |
| Backdrops.FindBackdrop | auto_psd_layers_to_cards/auto_psd_layers_to_cards.py:112-129 | returns the first backdrop in list order that strictly contains the box, and none exactly when no backdrop contains it |
| Backdrops.FirstAfterMiss | auto_psd_layers_to_cards/auto_psd_layers_to_cards.py:121-129 | skipping a backdrop that misses the box moves the first containing position by one |
| Backdrops.Inside | auto_psd_layers_to_cards/auto_psd_layers_to_cards.py:138-153 | the boxes taken into the fit are at most one per listed node |
| Backdrops.InsideExact | auto_psd_layers_to_cards/auto_psd_layers_to_cards.py:138-153 | the fit takes in exactly the boxes of the nodes other than the backdrop that lie strictly inside it |
| Backdrops.InsideStep | auto_psd_layers_to_cards/auto_psd_layers_to_cards.py:139-153 | each loop iteration adds the node's box exactly when it is not the backdrop and lies strictly inside |
| Backdrops.Hull | auto_psd_layers_to_cards/auto_psd_layers_to_cards.py:154-157 | the accumulated extent covers every box taken in |
| Backdrops.HullAttained | auto_psd_layers_to_cards/auto_psd_layers_to_cards.py:154-157 | each edge of the accumulated extent is the edge of some box taken in |
| Backdrops.HullStep | auto_psd_layers_to_cards/auto_psd_layers_to_cards.py:154-157 | one more box lowers the near edges to min and raises the far edges to max |
| Backdrops.Fitted | auto_psd_layers_to_cards/auto_psd_layers_to_cards.py:159-168 | the written bounds are the extent grown by the padding of 50 on every side |
| Backdrops.Fit | auto_psd_layers_to_cards/auto_psd_layers_to_cards.py:132-168 | the loop's padded bounds equal the padded hull of the boxes strictly inside the backdrop |
| Backdrops.FittedKeepsInside | auto_psd_layers_to_cards/auto_psd_layers_to_cards.py:159-163 | every box used for the fit lies strictly inside the fitted bounds |
| Backdrops.FitKeepsContained | auto_psd_layers_to_cards/auto_psd_layers_to_cards.py:132-168 | a node strictly inside the backdrop before the fit is strictly inside it after |
| Backdrops.FittedIsTight | auto_psd_layers_to_cards/auto_psd_layers_to_cards.py:154-163 | each side of the fitted bounds is exactly the padding away from some box |
| Backdrops.HullOfSameBoxes | auto_psd_layers_to_cards/auto_psd_layers_to_cards.py:138-157 | the fit depends only on which boxes are inside, not on their listing order or repetition |
| Backdrops.InsideIgnoresSkipped | auto_psd_layers_to_cards/auto_psd_layers_to_cards.py:139-140 | moving the backdrop does not change which other nodes lie in a region |
| Backdrops.RefitIsStable | auto_psd_layers_to_cards/auto_psd_layers_to_cards.py:132-168 | fitting again changes nothing when the fitted bounds take in no new node |
| Backdrops.RefitCanGrow | auto_psd_layers_to_cards/auto_psd_layers_to_cards.py:132-168 | a concrete graph where a second fit grows the backdrop: fitting is not idempotent |
| Cards.Guard | auto_psd_layers_to_cards/auto_psd_layers_to_cards.py:10-22 | admits exactly one selected node with file type psd; refuses more than one with the one-at-a-time message, and a single non-PSD node (or one without the knob) with the PSD-only message; nothing selected raises |
| Cards.OrderFromTop | auto_psd_layers_to_cards/auto_psd_layers_to_cards.py:30 | the rank lies in 1..count, and rank plus index is the count |
| Cards.RankEnds | auto_psd_layers_to_cards/auto_psd_layers_to_cards.py:30 | the first layer gets rank count, the last rank 1 |
| Cards.RankStrictlyDecreases | auto_psd_layers_to_cards/auto_psd_layers_to_cards.py:30 | later layers get strictly smaller ranks |
| Cards.RanksCoverAll | auto_psd_layers_to_cards/auto_psd_layers_to_cards.py:29-30 | every rank from 1 to count is given to some layer |
| Cards.CardTranslate | auto_psd_layers_to_cards/auto_psd_layers_to_cards.py:42 | the card is pushed back along z by a tenth of its rank, at x = y = 0 |
| Cards.CardScaling | auto_psd_layers_to_cards/auto_psd_layers_to_cards.py:45-47 | the card is scaled in x and y alike by 1 plus a hundredth of its rank, and not in z |
| Cards.HigherRankFartherAndLarger | auto_psd_layers_to_cards/auto_psd_layers_to_cards.py:29-47 | a higher-ranked layer is strictly farther back and strictly larger; every card is behind z = 0 and scaled up |
| Script.Listed | auto_psd_layers_to_cards/auto_psd_layers_to_cards.py:121 | nuke.allNodes() lists exactly the live nodes in host order |
| Script.BackdropOf | auto_psd_layers_to_cards/auto_psd_layers_to_cards.py:112-129 | the first live backdrop in host order strictly containing the node, and none exactly when no live backdrop contains it |
| Script.Refit | auto_psd_layers_to_cards/auto_psd_layers_to_cards.py:51 | with a backdrop around the node it is refitted around the live nodes and all else keeps its wiring; with none the resize of None fails and the state is unchanged |
| Script.BackdropHoldsOne | auto_psd_layers_to_cards/auto_psd_layers_to_cards.py:51 | a backdrop found around a live node has that node strictly inside, so its fit takes in at least one box |
| Script.Cleaned | auto_psd_layers_to_cards/auto_psd_layers_to_cards.py:31-34 | the Crop cleanup changes only the deletion log, to the cleanup's log, and a cleanup that completes spares the Shuffle |
| Script.CleanupSparesShuffle | auto_psd_layers_to_cards/auto_psd_layers_to_cards.py:31-34 | the deletion log after a Crop cleanup lists only graph nodes, and a completed cleanup never deletes its Shuffle |
| Script.Step | auto_psd_layers_to_cards/auto_psd_layers_to_cards.py:30-51 | one iteration keeps every node's wiring and only adds to the listing |
| Script.Layered | auto_psd_layers_to_cards/auto_psd_layers_to_cards.py:36-51 | building a layer and refitting keeps every node's wiring and only adds to the listing |
| Script.NodeAdded | auto_psd_layers_to_cards/auto_psd_layers_to_cards.py:36 | a created node is new, alive, listed last and ranked above every node; every existing node keeps every field except its dependents, which may only grow |
| Script.InputSet | auto_psd_layers_to_cards/auto_psd_layers_to_cards.py:37 | setInput keeps the state consistent, changes slot i of the reader as `Plug` says, and changes only the dependents of any other node |
| Script.TranslateSet | auto_psd_layers_to_cards/auto_psd_layers_to_cards.py:42 | setting translate changes that knob of that node only |
| Script.ScalingSet | auto_psd_layers_to_cards/auto_psd_layers_to_cards.py:45-47 | setting scaling changes that knob of that node only |
| Script.ReaderAdded | auto_psd_layers_to_cards/auto_psd_layers_to_cards.py:36-37 | a new node reading a live node at input 0 is alive, listed last and has exactly that input |
| Script.CardAdded | auto_psd_layers_to_cards/auto_psd_layers_to_cards.py:40-47 | a new Card2 reading the Premult at input 0, with the translate and scaling for its rank, alive and listed last |
| Script.LayerOf | auto_psd_layers_to_cards/auto_psd_layers_to_cards.py:36-47 | the layer of a live Shuffle is a Premult reading it under the next fresh id and a Card2 reading the Premult under the one after, both alive and listed last |
| Script.BackdropsUnchanged | auto_psd_layers_to_cards/auto_psd_layers_to_cards.py:36-51 | adding a layer changes neither the Shuffle's box nor which live backdrops contain it |
| Script.LayerRefitted | auto_psd_layers_to_cards/auto_psd_layers_to_cards.py:36-51 | after the layer is added the refit finds a backdrop exactly when one contained the Shuffle before, refits it around the live nodes, and the new layer stays built and alive |
| Script.StepLayer | auto_psd_layers_to_cards/auto_psd_layers_to_cards.py:30-51 | a step that completes builds the layer of its Shuffle under the next two fresh ids, both alive |
| Script.StepStops | auto_psd_layers_to_cards/auto_psd_layers_to_cards.py:30-51 | a step's deletion log is the cleanup's; it fails with a deleted node exactly when the cleanup does, with no backdrop exactly when no live backdrop contains the Shuffle, and otherwise the backdrop is refitted |
| Script.ProgressGrows | auto_psd_layers_to_cards/auto_psd_layers_to_cards.py:29-49 | a completed step appends the next layer, with rank count − i, to those already built |
| Script.RunLayers | auto_psd_layers_to_cards/auto_psd_layers_to_cards.py:29-51 | the loop keeps every node's wiring, and when no step fails layer k is a Premult and Card2 under the ids start + 2k and start + 2k + 1 with rank count − k |
| Script.RunNext | auto_psd_layers_to_cards/auto_psd_layers_to_cards.py:29-51 | a completed step hands the loop on to the next Shuffle with its Premult and Card2 appended |
| Script.LayerDependents | auto_psd_layers_to_cards/auto_psd_layers_to_cards.py:36-47 | building a layer adds only the Premult and the Card2, changes the dependents of no node but the Shuffle, and the Premult lists the Card2 alone |
| Script.RefitDependents | auto_psd_layers_to_cards/auto_psd_layers_to_cards.py:51 | the refit adds no node and changes no node's dependents |
| Script.StepDependents | auto_psd_layers_to_cards/auto_psd_layers_to_cards.py:30-51 | a completed step adds only its Premult and Card2, changes the dependents of no node but the Shuffle, and the Premult lists the Card2 alone |
| Script.StepGuards | auto_psd_layers_to_cards/auto_psd_layers_to_cards.py:30-51 | a completed step keeps every earlier Card2 the only reader of its Premult, deletes such a Premult only with its Card2, and adds its own pair |
| Script.RunGuards | auto_psd_layers_to_cards/auto_psd_layers_to_cards.py:29-51 | through the whole loop each Card2 stays the only reader of its Premult, and a Premult is deleted only when its Card2 is |
| Script.PremultsAlive | auto_psd_layers_to_cards/auto_psd_layers_to_cards.py:29-55 | when no Card2 is deleted, no Premult is deleted either |
| Script.InputsKeep | auto_psd_layers_to_cards/auto_psd_layers_to_cards.py:54-55 | connecting the cards keeps the state consistent and changes no node but the Scene |
| Script.InputsWired | auto_psd_layers_to_cards/auto_psd_layers_to_cards.py:54-55 | connecting the cards completes exactly when none is deleted, and then Scene input k reads card k |
| Script.SceneWired | auto_psd_layers_to_cards/auto_psd_layers_to_cards.py:53-55 | a fresh Scene under the next id, alive, reading card k at input k exactly when no card is deleted |
| Script.CameraAdded | auto_psd_layers_to_cards/auto_psd_layers_to_cards.py:57-58 | a fresh live Camera under the next id with translate (0, 0, 2) |
| Script.ScanlineAdded | auto_psd_layers_to_cards/auto_psd_layers_to_cards.py:60-62 | a fresh live ScanlineRender with input 0 empty, the Scene at input 1 and the Camera at input 2 |
| Script.RenderWired | auto_psd_layers_to_cards/auto_psd_layers_to_cards.py:57-62 | the Camera under the next fresh id and the ScanlineRender reading it and the Scene under the one after, both alive |
| Script.ConversionRefuses | auto_psd_layers_to_cards/auto_psd_layers_to_cards.py:10-22 | a refused selection shows its message and leaves the state unchanged; an empty selection raises and leaves it unchanged |
| Script.ConversionCompletes | auto_psd_layers_to_cards/auto_psd_layers_to_cards.py:25-64 | an admitted read completes exactly when every step of the loop completes and no card was deleted; otherwise it reports the step's failure, or a deleted card |
| Script.ConversionBuilds | auto_psd_layers_to_cards/auto_psd_layers_to_cards.py:25-64 | a completed conversion has built one layer per Shuffle found, ranked from the top, the Scene reading every card, the Camera and the ScanlineRender, under exactly 2N + 3 fresh ids, all alive (every Premult, every Card2, the Scene, the Camera and the ScanlineRender) |
| Dag.NodeGraph.AllNodes | auto_psd_layers_to_cards/auto_psd_layers_to_cards.py:121 | allNodes() lists exactly the listed nodes not yet deleted |
| Dag.NodeGraph.Delete | auto_psd_layers_to_cards/auto_psd_layers_to_cards.py:104 | deleting appends to the deletion log, and raises on a deleted node |
| Dag.NodeGraph.RemoveUpstreamNodesUntilShuffle | auto_psd_layers_to_cards/auto_psd_layers_to_cards.py:96-109 | the recursive method changes the deletion log exactly as `Cleanup.RemoveUpstream` does |
| Dag.NodeGraph.FindLowestNodeThenRemove | auto_psd_layers_to_cards/auto_psd_layers_to_cards.py:82-93 | the recursive method changes the deletion log exactly as `Cleanup.FindLowest` does |
| Dag.NodeGraph.RemoveCropBranches | auto_psd_layers_to_cards/auto_psd_layers_to_cards.py:32-34 | the Crop loop changes the deletion log exactly as `Cleanup.RemoveCrops` does |
| Dag.NodeGraph.CreateNode | auto_psd_layers_to_cards/auto_psd_layers_to_cards.py:36 | the new state is `WithNode`: a fresh unconnected node at the given position, listed last and ranked above every other node; nothing else changes |
| Dag.NodeGraph.SetInput | auto_psd_layers_to_cards/auto_psd_layers_to_cards.py:37 | the new state is `WithInput`, or unchanged with a raise when either node is deleted; afterwards the node depends on its new input and otherwise only on its old dependencies |
| Dag.NodeGraph.SetTranslate | auto_psd_layers_to_cards/auto_psd_layers_to_cards.py:42 | the new state is `WithTranslate`: only the translate knob of the node changes |
| Dag.NodeGraph.SetScaling | auto_psd_layers_to_cards/auto_psd_layers_to_cards.py:45-47 | the new state is `WithScaling`: only the scaling knob of the node changes |
| Dag.NodeGraph.FindBackdropOf | auto_psd_layers_to_cards/auto_psd_layers_to_cards.py:112-129 | the first live backdrop in allNodes("BackdropNode") order whose box strictly contains the node's, or none exactly when no live backdrop contains it |
| Dag.NodeGraph.ResizeBackdropToFit | auto_psd_layers_to_cards/auto_psd_layers_to_cards.py:132-168 | only the backdrop's bounds change, to the padded hull of the live nodes strictly inside it |
| Dag.NodeGraph.AddPremult | auto_psd_layers_to_cards/auto_psd_layers_to_cards.py:36-37 | the new state is `WithPremult`: a fresh Premult at its position reading the Shuffle; when the Shuffle was deleted the setInput raises and only the unconnected Premult is added |
| Dag.NodeGraph.AddCard | auto_psd_layers_to_cards/auto_psd_layers_to_cards.py:40-41 | the new state is `WithCard`: a fresh Card2 at its position reading the Premult |
| Dag.NodeGraph.SetCardKnobs | auto_psd_layers_to_cards/auto_psd_layers_to_cards.py:42-47 | the new state is `WithCardKnobs`: only the card's translate and scaling change, to the values for its rank |
| Dag.NodeGraph.AddLayer | auto_psd_layers_to_cards/auto_psd_layers_to_cards.py:36-47 | the new state is `WithLayer`, the Premult and Card2 of the Shuffle under the next two fresh ids, alive, with the knobs for its rank; a deleted Shuffle makes the first setInput raise |
| Dag.NodeGraph.LayerAndFit | auto_psd_layers_to_cards/auto_psd_layers_to_cards.py:36-51 | the new state is `Layered`: the layer under the next two fresh ids, alive, then the refit; the refit finds a backdrop exactly when a live one contains the Shuffle |
| Dag.NodeGraph.FitBackdropAround | auto_psd_layers_to_cards/auto_psd_layers_to_cards.py:51 | the new state is `Refit`: the first backdrop containing the Shuffle is refitted around the live nodes; when none contains it the call raises and nothing changes |
| Dag.NodeGraph.ConvertStep | auto_psd_layers_to_cards/auto_psd_layers_to_cards.py:30-51 | the new state is `Step`; the deletion log is the Crop cleanup's; it raises exactly when the cleanup calls on a deleted node, stops exactly when no live backdrop contains the Shuffle, and otherwise builds the layer under the next two ids and refits the backdrop |
| Dag.NodeGraph.BuildLayers | auto_psd_layers_to_cards/auto_psd_layers_to_cards.py:29-51 | the result is the fold `Run` of the steps over the shuffles; when it completes, layer k is a Premult and Card2 under the ids start + 2k and start + 2k + 1 with rank count − k, and earlier nodes keep their wiring |
| Dag.NodeGraph.ConnectCards | auto_psd_layers_to_cards/auto_psd_layers_to_cards.py:54-55 | the new state is `WithInputs`; it completes exactly when no card is deleted, and then Scene input k holds card k |
| Dag.NodeGraph.WireScene | auto_psd_layers_to_cards/auto_psd_layers_to_cards.py:53-55 | the new state is `WithScene`: a fresh live Scene that reads card k at input k exactly when no card is deleted |
| Dag.NodeGraph.AddCamera | auto_psd_layers_to_cards/auto_psd_layers_to_cards.py:57-58 | the new state is `WithCamera`: a fresh live Camera with translate (0, 0, 2) |
| Dag.NodeGraph.AddScanline | auto_psd_layers_to_cards/auto_psd_layers_to_cards.py:60-62 | the new state is `WithScanline`: a fresh live ScanlineRender with input 0 empty, the Scene at input 1 and the Camera at input 2 |
| Dag.NodeGraph.AddRender | auto_psd_layers_to_cards/auto_psd_layers_to_cards.py:57-62 | the new state is `WithRender`: the Camera under the next fresh id and the ScanlineRender reading it under the one after |
| Dag.NodeGraph.ConvertPsdToCards | auto_psd_layers_to_cards/auto_psd_layers_to_cards.py:4-64 | the result is `Conversion`: a refused selection shows its message and changes nothing; an empty selection raises and changes nothing; an admitted read completes exactly when every step completes and no card was deleted, and then holds one layer per Shuffle found, ranked from the top, wired into the Scene and rendered from the Camera, under exactly 2N + 3 fresh ids, all alive (every Premult, every Card2, the Scene, the Camera and the ScanlineRender) |

## Left out

- `psd.breakoutLayers` (line 23) is a host routine. The model starts from the graph as it stands after the breakout.
- Host I/O is not modelled: the message dialog, the selection query, and node creation as a host call. The selection is a parameter of `ConvertPsdToCards`.
- Dag.NodeGraph.ConvertPsdToCards: the host picks where each new node appears; the `place` parameter gives each new node's final position. This absorbs the `+ 20` ypos shifts (lines 38 and 43). The camera's `setXYpos` (line 64) is layout only and is not modelled, so the camera's position is not tied to the renderer's.
- Dag.NodeGraph.ConvertPsdToCards requires that the host lists every node in `allNodes()`. The script's call of `nuke.allNodes(recurseGroups=True)` (line 138) is modelled on that flat listing; nodes inside groups are not modelled.
- Nodes.Wired: a node reading another through several input slots is listed once per slot among its dependents, while the host's `dependent()` lists it once. The script never connects one node to another through two slots, so the two agree on every edge the script adds.
- Nodes.Connected models `dependencies()` as the connected input slots only. Expression links and hidden inputs are not modelled. Repeated entries are not removed, while the host lists a node once.
- The root node (line 139) is not a node of the modelled graph, so skipping it needs no step.
- Dag.NodeGraph.ResizeBackdropToFit and Backdrops.Fit require at least one node strictly inside the backdrop. With none, the script would write infinite bounds from its `float("inf")` start values; the model does not represent infinities. Inside the conversion this case cannot arise, because the Shuffle that found the backdrop lies inside it.
- When `find_backdrop` finds nothing, `resize_backdrop_to_fit(None)` fails in the script itself: `None["xpos"]` raises a Python TypeError. It is modelled as the `NoBackdrop` failure, and the command stops there.
- Knob values are reals. The model does not capture the rounding of Python floats in `order_from_top / 10` and `/ 100`.
- The graph is assumed acyclic, stated by the ghost ranking. The script has no cycle guard and would not terminate on a cyclic graph.
- The walks read `dependent()` and `dependencies()` once, when each call begins. A node deleted later in the same loop is caught by the "call on a deleted node raises" rule. A live node that gains or loses edges during the loop is not modelled, because the script adds no edges while it removes Crop branches.
