# Interactive layered layout: layers, slots and constraints

This project models the constraint logic of the interactive layered layout in
keith-interactive. When the user drags a node of a layered graph and drops it:

- The sibling nodes are split into vertical *layers*, which are x-ranges.
  Each layer is built from its nodes' shadow coordinates where a node's shadow
  flag is set, which hold the position before the drag, and from the live
  position otherwise.
- The dragged node's centre is hit-tested against those layers.
- The node's slot in its layer is found by y order.
- Both the layer and the slot are corrected for layer and position constraints
  that the user set earlier.
- Exactly one notification is chosen for the layout engine: a static
  (layer + position) constraint, a position constraint, or a layout refresh.

On a node laid out interactively, the mouse-down hook stores the node's
position as its shadow; on any other element it does nothing. After a drag of
a node, the mouse-up hook runs the computation while the shadow is still set,
then clears the shadow; otherwise it does nothing.

Files:

- `classes.dfy` (module `ConstraintClasses`) holds the records:
  - the node, a class whose fields the hooks update;
  - the layer;
  - the model element: a node or anything else;
  - the constraint sent to the layout engine.
- `sort.dfy` (module `StableSort`) holds the in-place sorts by layer id and by
  y. They are specified by a functional stable insertion sort, which is proved
  to be a sorted, stable permutation of its input.
- `constraint_utils.dfy` (module `ConstraintUtils`) holds the layer utilities.
  Each loop of the source is a method proved equal to a specification function,
  and the lemmas state what those functions promise.
- `mouse_listener.dfy` (module `InteractiveMouseListener`) holds the two mouse
  hooks and setProperty.

## Model

| member | source | states |
|---|---|---|
| ConstraintUtils.Max | keith-interactive/src/browser/ConstraintUtils.ts:239-245 | the result is one of the two arguments and at least both |
| ConstraintUtils.Min | keith-interactive/src/browser/ConstraintUtils.ts:252-258 | the result is one of the two arguments and at most both |
| ConstraintClasses.NewLayer | keith-interactive/src/browser/ConstraintUtils.ts:111 | the `Layer` constructor the sweep calls at lines 111 and 130: horizontal bounds and mid as given, vertical bounds set later (ReconcileShared) |
| ConstraintClasses.LeftX | keith-interactive/src/browser/ConstraintUtils.ts:118 | the left edge used for layer geometry: the shadow x while the shadow flag is set, the live x otherwise; RawLayerFromMembers and RawBoundsTo state what the layer bounds are in terms of it |
| ConstraintClasses.TopY | keith-interactive/src/browser/ConstraintUtils.ts:120 | the top edge used for layer geometry: the shadow y while the shadow flag is set, the live y otherwise; VerticalBoundsFromNodes states the shared vertical bounds in terms of it |
| ConstraintClasses.RightX | keith-interactive/src/browser/ConstraintUtils.ts:119 | the left edge plus the width; the right layer bounds of RawLayerFromMembers are stated in terms of it |
| ConstraintClasses.BotY | keith-interactive/src/browser/ConstraintUtils.ts:121 | the top edge plus the height; the bottom bound of VerticalBoundsFromNodes is stated in terms of it |
| StableSort.Key | keith-interactive/src/browser/ConstraintUtils.ts:99 | the key of the two comparators, `a.layerId - b.layerId` at line 99 and `a.position.y - b.position.y` at line 203: the layer id or the live y; SortBySorted states the order by it |
| StableSort.SortBy | keith-interactive/src/browser/ConstraintUtils.ts:99 | the reference stable sort the in-place sorts at lines 99 and 203 are proved equal to (SortInPlace); every node of the result comes from the input, and SortByPermutes, SortBySorted and SortByStable state that it is a sorted, stable permutation |
| StableSort.SortByPermutes | keith-interactive/src/browser/ConstraintUtils.ts:99 | the sort by a comparator key returns a permutation of its input |
| StableSort.SortBySorted | keith-interactive/src/browser/ConstraintUtils.ts:99 | the sorted list is ordered by the key |
| StableSort.SortByStable | keith-interactive/src/browser/ConstraintUtils.ts:203 | nodes that share a key keep their relative order, as the JavaScript sort guarantees |
| StableSort.InsertInPlace | keith-interactive/src/browser/ConstraintUtils.ts:99 | one insertion step moves the next element into the sorted prefix and leaves the rest of the array alone |
| StableSort.SortInPlace | keith-interactive/src/browser/ConstraintUtils.ts:203 | the in-place sort leaves the array equal to the stable sort of its old contents |
| ConstraintUtils.MaxLayerId | keith-interactive/src/browser/ConstraintUtils.ts:101-115 | the value of `layer` after the first i nodes of the sweep; the SweepLayers invariant ties the loop variable to it and MaxLayerIdBounds bounds it |
| ConstraintUtils.LayerCount | keith-interactive/src/browser/ConstraintUtils.ts:101-130 | how many layers the sweep closes, one more than the last value of `layer`; LayerCountOfConsecutive gives it for consecutive ids and SweepLayers is proved to close that many |
| ConstraintUtils.RawLeft | keith-interactive/src/browser/ConstraintUtils.ts:102-124 | the running left bound `leftX` of a layer over the first i nodes, from the MAX_VALUE sentinel; RawBoundsTo and RawLayerFromMembers state what it is |
| ConstraintUtils.RawRight | keith-interactive/src/browser/ConstraintUtils.ts:103-125 | the running right bound `rightX` of a layer over the first i nodes, from the MIN_VALUE sentinel; RawBoundsTo and RawLayerFromMembers state what it is |
| ConstraintUtils.MinTop | keith-interactive/src/browser/ConstraintUtils.ts:104-126 | the running top bound `topY` over the first i nodes; VerticalBoundsTo states what it is |
| ConstraintUtils.MaxBot | keith-interactive/src/browser/ConstraintUtils.ts:105-127 | the running bottom bound `botY` over the first i nodes; VerticalBoundsTo states what it is |
| ConstraintUtils.RawLayer | keith-interactive/src/browser/ConstraintUtils.ts:111-130 | the layer the sweep closes for one id, with its mid halfway between its bounds; RawLayerFromMembers and RawEmptyLayer state its bounds |
| ConstraintUtils.RawLayers | keith-interactive/src/browser/ConstraintUtils.ts:100-130 | the list the sweep builds, one layer per id below the count, which SweepLayers is proved to return; RawLayersAt gives each entry |
| ConstraintUtils.MaxLayerIdBounds | keith-interactive/src/browser/ConstraintUtils.ts:107-114 | the largest layer id the sweep reaches bounds every id it has seen, is the id of some node, and stays below any common bound |
| ConstraintUtils.LayerCountOfConsecutive | keith-interactive/src/browser/ConstraintUtils.ts:98-177 | when the layer ids are exactly 0..k, the sweep closes k + 1 layers and the reconciled layers returned number k + 1 |
| ConstraintUtils.RawLayersAt | keith-interactive/src/browser/ConstraintUtils.ts:111-130 | entry l of the swept layer list is the layer closed for id l |
| ConstraintUtils.RawBoundsTo | keith-interactive/src/browser/ConstraintUtils.ts:117-125 | over any prefix, a layer's left bound is at most every member's left edge and its right bound at least every right edge; both are attained by a member, and a layer with no member keeps the MAX_VALUE/MIN_VALUE sentinels |
| ConstraintUtils.RawLayerFromMembers | keith-interactive/src/browser/ConstraintUtils.ts:117-125 | each layer spans exactly its members, taken from the shadow coordinates while the shadow is set: its bounds enclose every member and are each attained by one |
| ConstraintUtils.RawEmptyLayer | keith-interactive/src/browser/ConstraintUtils.ts:102-113 | a layer id that no node carries leaves the sentinels untouched, whatever the coordinates of the other nodes |
| ConstraintUtils.VerticalBoundsTo | keith-interactive/src/browser/ConstraintUtils.ts:120-127 | over any non-empty prefix, the top bound is the least top edge and the bottom bound the greatest bottom edge, each attained |
| ConstraintUtils.VerticalBoundsFromNodes | keith-interactive/src/browser/ConstraintUtils.ts:120-127 | the shared vertical bounds enclose every node and are attained by one |
| ConstraintUtils.Gap | keith-interactive/src/browser/ConstraintUtils.ts:137 | the midpoint between the right bound of one raw layer and the left bound of the next; ReconcileMeets states that neighbours meet there |
| ConstraintUtils.Reconciled | keith-interactive/src/browser/ConstraintUtils.ts:132-174 | layer i after the second pass, in closed form; ReconcileShared, ReconcileMeets, ReconcilePadding and ReconcileCovers state its properties |
| ConstraintUtils.Reconcile | keith-interactive/src/browser/ConstraintUtils.ts:132-174 | the reconciled layers, one per raw layer; ReconcileLayers, the field-by-field pass, is proved equal to it |
| ConstraintUtils.LayersOf | keith-interactive/src/browser/ConstraintUtils.ts:98-177 | the layers getLayers returns for a list sorted by layer id: the swept layers, reconciled with the overall vertical bounds; GetLayers is proved to return it and LayerCountOfConsecutive counts it |
| ConstraintUtils.ReconcileShared | keith-interactive/src/browser/ConstraintUtils.ts:143-173 | every reconciled layer keeps its mid and gets the overall top and bottom, although line 147 writes the left layer's bottom twice |
| ConstraintUtils.ReconcileMeets | keith-interactive/src/browser/ConstraintUtils.ts:133-167 | neighbouring layers share one boundary, the midpoint between the right extent of the left one and the left extent of the right one |
| ConstraintUtils.ReconcilePadding | keith-interactive/src/browser/ConstraintUtils.ts:150-174 | a single layer is widened by exactly 10 on each side; otherwise the first and the last layer are symmetric about their mid |
| ConstraintUtils.ReconcileCovers | keith-interactive/src/browser/ConstraintUtils.ts:133-174 | when the raw layers are ordered and apart, every reconciled layer still covers its raw extent and the layers tile the x axis from left to right |
| ConstraintUtils.SortByMembers | keith-interactive/src/browser/ConstraintUtils.ts:99 | sorting keeps exactly the nodes of the list |
| ConstraintUtils.NextLayerId | keith-interactive/src/browser/ConstraintUtils.ts:107-115 | with sorted, consecutive ids, the node after a run of layer l is in layer l or l + 1, so the sweep's single increment suffices |
| ConstraintUtils.ConsecutiveSteps | keith-interactive/src/browser/ConstraintUtils.ts:107-115 | a sorted list with consecutive ids starts at layer 0 and climbs by at most one per node |
| ConstraintUtils.RawPrefixStable | keith-interactive/src/browser/ConstraintUtils.ts:124-125 | nodes outside a layer do not move its bounds |
| ConstraintUtils.StepsMonotone | keith-interactive/src/browser/ConstraintUtils.ts:107-115 | along such a list the layer ids never decrease |
| ConstraintUtils.CloseLayer | keith-interactive/src/browser/ConstraintUtils.ts:109-114 | when the sweep meets the next layer id, the closed layer is final and the fresh bounds are the sentinels of a layer with no member yet |
| ConstraintUtils.SweepLayers | keith-interactive/src/browser/ConstraintUtils.ts:100-130 | the sweep returns one layer per id, each spanning that id's members, and the overall vertical bounds |
| ConstraintUtils.ReconcileLayers | keith-interactive/src/browser/ConstraintUtils.ts:132-176 | the field-by-field updates give the reconciled layers |
| ConstraintUtils.SortKeepsConsecutive | keith-interactive/src/browser/ConstraintUtils.ts:99 | sorting keeps the layer ids consecutive |
| ConstraintUtils.SortedSteps | keith-interactive/src/browser/ConstraintUtils.ts:99-115 | after the sort, a list with consecutive ids climbs in steps of one |
| ConstraintUtils.GetLayers | keith-interactive/src/browser/ConstraintUtils.ts:98-177 | sorts the nodes by layer id in place and returns the reconciled layers of the sorted list |
| ConstraintUtils.OfLayer | keith-interactive/src/browser/ConstraintUtils.ts:184-194 | every node kept comes from the input |
| ConstraintUtils.OfLayerMembers | keith-interactive/src/browser/ConstraintUtils.ts:184-194 | exactly the nodes whose layer id is the layer are kept |
| ConstraintUtils.OfLayerConcat | keith-interactive/src/browser/ConstraintUtils.ts:187-192 | the filter keeps input order: filtering a concatenation concatenates the filtered parts |
| ConstraintUtils.OfLayerSorted | keith-interactive/src/browser/ConstraintUtils.ts:184-194 | a layer's nodes taken from the list sorted by layer id are those of the unsorted list, in the same order |
| ConstraintUtils.GetNodesOfLayer | keith-interactive/src/browser/ConstraintUtils.ts:184-194 | the counter loop returns exactly the nodes of the layer, in input order |
| ConstraintUtils.FirstLayerRightOf | keith-interactive/src/browser/ConstraintUtils.ts:15-20 | the least layer whose right bound lies beyond the centre; every earlier layer ends at or before it |
| ConstraintUtils.SoleSelected | keith-interactive/src/browser/ConstraintUtils.ts:24 | the last layer's nodes are exactly one node, which is selected; LocateLayer's ensures state when this keeps the node in the last layer |
| ConstraintUtils.LocateLayer | keith-interactive/src/browser/ConstraintUtils.ts:15-30 | the result is in [0, number of layers]: the first layer reaching past the centre; past all layers, the last layer exactly when its only node is selected, and a new layer after the last otherwise |
| ConstraintUtils.Center | keith-interactive/src/browser/ConstraintUtils.ts:12 | the hit-tested point: the horizontal centre of the node's live position, not of its shadow; GetLayerOfNode is proved to use it |
| ConstraintUtils.LayerOfNode | keith-interactive/src/browser/ConstraintUtils.ts:9-31 | the layer getLayerOfNode returns: LocateLayer on the layers of the list sorted by layer id, at the node's live centre, with the sole-selected test on the last layer's nodes; LocateLayer's ensures give its bounds and cases, and GetLayerOfNode is proved to return it |
| ConstraintUtils.HitLayer | keith-interactive/src/browser/ConstraintUtils.ts:15-20 | the hit-test loop returns the first layer reaching past the centre, or the number of layers |
| ConstraintUtils.GetLayerOfNode | keith-interactive/src/browser/ConstraintUtils.ts:9-31 | sorts the siblings by layer id in place and returns the layer the node's live centre (not its shadow) falls into |
| ConstraintUtils.IndexOf | keith-interactive/src/browser/ConstraintUtils.ts:205-207 | -1 exactly when the node is absent; otherwise the first index holding it |
| ConstraintUtils.FirstBelow | keith-interactive/src/browser/ConstraintUtils.ts:210-215 | the first index whose node lies strictly below, or the length; every node before it lies at or above |
| ConstraintUtils.PosInLayer | keith-interactive/src/browser/ConstraintUtils.ts:201-216 | the slot lies in [0, length] |
| ConstraintUtils.PosInLayerOrdered | keith-interactive/src/browser/ConstraintUtils.ts:201-216 | in a layer sorted by y, every node before the slot lies at or above the target and every node from it on lies at or below |
| ConstraintUtils.GetPosInLayer | keith-interactive/src/browser/ConstraintUtils.ts:201-216 | sorts the layer by y in place, then returns the target's own index when it is there, else the first node below it |
| ConstraintUtils.ActualTargetIndex | keith-interactive/src/browser/ConstraintUtils.ts:75-92 | the corrected slot is never below the raw slot |
| ConstraintUtils.ActualTargetIndexCases | keith-interactive/src/browser/ConstraintUtils.ts:75-92 | the slot is kept without an upper neighbour or when its constraint is not past its index; otherwise it becomes that constraint when the node stays in its layer and the neighbour holds the slot, and one more than it in every other case. This is the decision table of lines 77-89 written out; the property beyond it is ActualTargetIndex's result never being below the raw slot |
| ConstraintUtils.Qualifies | keith-interactive/src/browser/ConstraintUtils.ts:42 | the filter's condition: at or left of the candidate, with a layer constraint beyond the node's own layer id; ConsLeftOfMembers and ActualLayerUnchangedIff state the result in terms of it |
| ConstraintUtils.ConsLeftOf | keith-interactive/src/browser/ConstraintUtils.ts:42 | every node kept qualifies: at or left of the candidate, with a layer constraint beyond its own layer |
| ConstraintUtils.ConsLeftOfMembers | keith-interactive/src/browser/ConstraintUtils.ts:42 | exactly the qualifying nodes are kept |
| ConstraintUtils.MaxSearch | keith-interactive/src/browser/ConstraintUtils.ts:52-59 | a reported node comes from the filtered list |
| ConstraintUtils.MaxSearchFindsFirstMax | keith-interactive/src/browser/ConstraintUtils.ts:52-59 | the search finds the largest constraint (or keeps -1 with no node), and the node it reports is the first one carrying it |
| ConstraintUtils.ActualLayerShift | keith-interactive/src/browser/ConstraintUtils.ts:39-67 | the layer never moves left; it is kept exactly when no qualifying node has a constraint of at least 0; otherwise it is the first largest constraint plus the candidate's distance from that node's layer |
| ConstraintUtils.ActualLayerUnchangedIff | keith-interactive/src/browser/ConstraintUtils.ts:39-67 | with non-negative layer ids, the candidate is returned unchanged exactly when no node qualifies |
| ConstraintUtils.ActualLayer | keith-interactive/src/browser/ConstraintUtils.ts:39-67 | the filter on line 42 followed by the max-search; ActualLayerShift and ActualLayerUnchangedIff state what it returns, and GetActualLayer is proved equal to it |
| ConstraintUtils.GetActualLayer | keith-interactive/src/browser/ConstraintUtils.ts:39-67 | the filter and max-search loop compute the adjusted layer |
| ConstraintUtils.KNodesOf | keith-interactive/src/browser/ConstraintUtils.ts:222-232 | the node elements of a model element list, in order; KNodesOfMembers states which are kept and FilterKNodes is proved to return it |
| ConstraintUtils.KNodesOfMembers | keith-interactive/src/browser/ConstraintUtils.ts:222-232 | exactly the node elements are kept |
| ConstraintUtils.FilterKNodes | keith-interactive/src/browser/ConstraintUtils.ts:222-232 | the counter loop returns the node elements in order |
| ConstraintUtils.IsChildSelected | keith-interactive/src/browser/ConstraintUtils.ts:280-290 | true exactly when the children are defined and one of them is a selected node |
| ConstraintUtils.FirstSelected | keith-interactive/src/browser/ConstraintUtils.ts:267-271 | none exactly when no node is selected; otherwise the first selected node |
| ConstraintUtils.LayerOfSelectedNode | keith-interactive/src/browser/ConstraintUtils.ts:266-273 | -1 exactly when no node is selected, for any layer ids, and then the list is untouched; otherwise the layer of the first selected node, with the list sorted by layer id |
| InteractiveMouseListener.PlacementOf | keith-interactive/src/browser/InteractiveMouseListener.ts:54-61 | the layer, slot, both corrections and the membership test setProperty computes, built from the reference functions of the utilities; PlacementBounds and AlreadyInLayerIff state its properties, and LocateTarget, PlaceInLayer and SetProperty are proved to compute it |
| InteractiveMouseListener.Decide | keith-interactive/src/browser/InteractiveMouseListener.ts:65-93 | the choice among the three notifications; OutcomeCases writes out its decision table, and SetProperty is proved to send exactly the one it picks |
| InteractiveMouseListener.Outcome | keith-interactive/src/browser/InteractiveMouseListener.ts:52-93 | the notification setProperty sends for a target among its siblings: the decision applied to its placement; OutcomeCases states its cases, and SetProperty and MouseUp are proved to send it |
| InteractiveMouseListener.OutcomeCases | keith-interactive/src/browser/InteractiveMouseListener.ts:65-93 | exactly one outcome: a static constraint (id, layer, corrected layer, slot, corrected slot) when the layer changed; a position constraint (id, slot, corrected slot) when only the slot changed; a refresh when neither did. This is the decision table of lines 65-93 written out; SetProperty's ensures is what ties the sent list to it |
| InteractiveMouseListener.PlacementBounds | keith-interactive/src/browser/InteractiveMouseListener.ts:56-61 | the layer is an existing one or the new one after the last; the slot lies within that layer's nodes or just after them; neither correction is below its raw value |
| InteractiveMouseListener.AlreadyInLayerIff | keith-interactive/src/browser/InteractiveMouseListener.ts:57-59 | for a target among its siblings, membership in the nodes of its new layer holds exactly when its layer id is that layer |
| InteractiveMouseListener.LocateTarget | keith-interactive/src/browser/InteractiveMouseListener.ts:54-56 | the nodes are filtered from the siblings, sorted by layer id, and the target's layer is found among them |
| InteractiveMouseListener.PlaceInLayer | keith-interactive/src/browser/InteractiveMouseListener.ts:57-61 | the slot is computed among the target layer's nodes sorted by y. The correction reads the upper neighbour from that same y-sorted array, and the layer is corrected over the list sorted by layer id |
| InteractiveMouseListener.SetProperty | keith-interactive/src/browser/InteractiveMouseListener.ts:52-94 | exactly one notification is sent, the one the outcome decision picks for the placement |
| InteractiveMouseListener.MouseDown | keith-interactive/src/browser/InteractiveMouseListener.ts:23-35 | on a node laid out interactively, the shadow is set to the node's position; no other field changes, and other elements are untouched |
| InteractiveMouseListener.MouseUp | keith-interactive/src/browser/InteractiveMouseListener.ts:37-46 | after a drag of a node, the notification is computed from the state before the release, while the shadow still holds the start position; then the shadow is cleared and nothing else changes. Otherwise nothing is sent |

## Left out

- The notifications are not sent. `sendNotification` through the asynchronous
  language client, the widget's uri and the client lookup are I/O. `SetProperty`
  and `MouseUp` return the list of `Constraint` values that would be sent.
- The superclass behaviour is not modelled. `super.mouseDown`/`super.mouseUp`
  belong to the framework's move listener. Its `hasDragged` flag and the
  target's sibling list (`parent.children`) are parameters.
- The `instanceof SNode` tests become the `SNode` constructor of
  `SModelElement`. A `KNode` is taken to be that element's node.
- Coordinates and sizes are reals, not doubles. Rounding is not modelled.
  `Number.MAX_VALUE` and `Number.MIN_VALUE` are kept as the sentinels the loops
  start from.
- `RawLayerFromMembers`, `RawBoundsTo`, `VerticalBoundsTo` and
  `VerticalBoundsFromNodes`: the source's bounds are attained by a node's
  edge only when its left and top edges are at most `Number.MAX_VALUE` and its
  right and bottom edges at least `Number.MIN_VALUE`, the smallest positive
  double, not minus infinity. These lemmas therefore require coordinates within
  the sentinels' range (`WithinSentinels`). `RawEmptyLayer`, about an id no node
  carries, holds for every list.
- The `Layer` constructor and `KNode` come from ConstraintClasses.ts, and the
  constraint records from Constraint-types.ts; these files are not part of this
  model. The new layer's vertical bounds are 0 until set. Every path of
  getLayers overwrites them, so the placeholder is never observed.
- The source's `Layer` is a mutable object: the second pass of getLayers
  updates it through the aliases `leftL`, `rightL`, `firstL` and `lastL`
  (ConstraintUtils.ts:135-173). The model keeps layers as values in a sequence
  and writes each updated layer back. The layers are fresh objects that
  nothing else refers to, so no behaviour is lost.
- The unused `node` parameter of getActualLayer is dropped.
- `GetLayers` requires the layer ids to be exactly 0..k. With ids that skip or
  do not start at 0, the sweep mislabels layers or leaves sentinel layers.
  `GetLayerOfNode`, `LocateTarget` and `SetProperty` inherit the requirement.
  `MouseUp` inherits it only after a drag of a node. `LayerOfSelectedNode`
  inherits it only when some node is selected, since with none it builds no
  layers and returns -1.
- `ActualTargetIndex` requires the slot to be at most the number of layer nodes.
  Beyond that, the source reads `undefined` and fails.
- `Array.prototype.sort` is modelled as a stable insertion sort. JavaScript's
  sort is stable and the stable result is unique, so the algorithm is not
  observable. `indexOf` and `includes` are modelled as functions on the
  array's contents.
- The array aliasing is modelled as follows:
  - The arrays built by `filter` and by the counter loops are sequences.
  - Each is copied into a fresh array where the source sorts it in place
    (`ToArray`).
  - The sibling array sorted by getLayerOfNode is the one setProperty passes on.
  - The y-sorted `nodesOfLayer` array is the one that getActualTargetIndex reads.
- setProperty's body is split into `LocateTarget` and `PlaceInLayer`, and
  getLayerOfNode's hit-test loop is in `HitLayer`. The order of steps is the
  source's.
- The twostate lemmas `SortByUnchanged`, `InsertUnchanged`, `OfLayerUnchanged`,
  `LayerOfNodeUnchanged`, `SlotUnchanged` and `OutcomeUnchanged` are frame
  facts for the proofs. They state that the utilities only read the nodes.
