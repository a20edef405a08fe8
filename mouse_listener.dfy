/** The mouse listener of interactive layered layout: a node pressed on keeps
    its position as a shadow, and a node released after a drag is given the
    layer and position constraint its new position calls for. */
module InteractiveMouseListener {
  import opened ConstraintClasses
  import opened StableSort
  import opened ConstraintUtils

  /** What setProperty computes for `target` among its sibling nodes `s`: the
      layer it was dropped into (against layers built from the siblings sorted by
      layer id), its slot among that layer's nodes sorted by y, and both values
      corrected for earlier constraints. */
  datatype Placement = Placement(layer: int, layerCons: int, position: int, posCons: int, alreadyInLayer: bool)

  function PlacementOf(target: KNode, s: seq<KNode>): Placement
    reads target, set n | n in s
  {
    var sorted := SortBy(s, ByLayerId);
    var layerOfTarget := LayerOfNode(target, s);
    var nodesOfLayer := SortBy(OfLayer(sorted, layerOfTarget), ByY);
    var positionOfTarget := PosInLayer(nodesOfLayer, target);
    var alreadyInLayer := target in nodesOfLayer;
    Placement(layerOfTarget, ActualLayer(sorted, layerOfTarget), positionOfTarget,
              ActualTargetIndex(positionOfTarget, alreadyInLayer, nodesOfLayer), alreadyInLayer)
  }

  /** The one notification setProperty sends: a static constraint when the layer
      changed, a position constraint when only the position changed, and a
      layout refresh when neither did. */
  function Decide(target: KNode, p: Placement): Constraint
    reads target
  {
    if target.layerId != p.layer then StaticConstraint(target.id, p.layer, p.layerCons, p.position, p.posCons)
    else if target.posId != p.position then PositionConstraint(target.id, p.position, p.posCons)
    else RefreshLayout
  }

  function Outcome(target: KNode, s: seq<KNode>): Constraint
    reads target, set n | n in s
  {
    Decide(target, PlacementOf(target, s))
  }

  /** Exactly one of the three outcomes, each under its own condition. */
  lemma OutcomeCases(target: KNode, s: seq<KNode>)
    ensures var p := PlacementOf(target, s); var c := Outcome(target, s);
      && (c.StaticConstraint? <==> target.layerId != p.layer)
      && (c.PositionConstraint? <==> target.layerId == p.layer && target.posId != p.position)
      && (c.RefreshLayout? <==> target.layerId == p.layer && target.posId == p.position)
      && (c.StaticConstraint? ==> c == StaticConstraint(target.id, p.layer, p.layerCons, p.position, p.posCons))
      && (c.PositionConstraint? ==> c == PositionConstraint(target.id, p.position, p.posCons))
  {
  }

  /** The corrected values never lie before the raw ones, the layer is an
      existing one or the new one after the last, and the slot lies within the
      layer's nodes or just after them. */
  lemma PlacementBounds(target: KNode, s: seq<KNode>)
    ensures var p := PlacementOf(target, s); var sorted := SortBy(s, ByLayerId);
      && 0 <= p.layer <= |LayersOf(sorted)|
      && 0 <= p.position <= |OfLayer(sorted, p.layer)|
      && p.layerCons >= p.layer
      && p.posCons >= p.position
  {
    var p := PlacementOf(target, s);
    var sorted := SortBy(s, ByLayerId);
    ActualLayerShift(sorted, p.layer);
    SortByPermutes(OfLayer(sorted, p.layer), ByY);
    assert |SortBy(OfLayer(sorted, p.layer), ByY)| == |OfLayer(sorted, p.layer)| by {
      assert |multiset(SortBy(OfLayer(sorted, p.layer), ByY))| == |multiset(OfLayer(sorted, p.layer))|;
    }
  }

  /** A target among the siblings already belongs to the layer it is dropped
      into exactly when its layer id is that layer. */
  lemma AlreadyInLayerIff(target: KNode, s: seq<KNode>)
    requires target in s
    ensures PlacementOf(target, s).alreadyInLayer <==> target.layerId == PlacementOf(target, s).layer
  {
    var sorted := SortBy(s, ByLayerId);
    var l := PlacementOf(target, s).layer;
    SortByMembers(s, ByLayerId);
    OfLayerMembers(sorted, l);
    SortByMembers(OfLayer(sorted, l), ByY);
  }

  /** A fresh array holding `s`, as the JavaScript arrays built by `filter` and `push`. */
  method ToArray(s: seq<KNode>) returns (a: array<KNode>)
    ensures fresh(a) && a[..] == s
  {
    a := new KNode[|s|](j requires 0 <= j < |s| => s[j]);
  }

  /** The first half of setProperty: the siblings filtered into a fresh array,
      sorted by layer id, and the layer the target is dropped into. */
  method LocateTarget(target: KNode, siblings: seq<SModelElement>) returns (nodes: array<KNode>, layerOfTarget: int)
    requires ConsecutiveLayers(KNodesOf(siblings))
    ensures fresh(nodes) && nodes[..] == SortBy(KNodesOf(siblings), ByLayerId)
    ensures layerOfTarget == LayerOfNode(target, KNodesOf(siblings))
  {
    ghost var s := KNodesOf(siblings);
    assert ConsecutiveLayers(s);
    var nodeList := FilterKNodes(siblings);
    nodes := ToArray(nodeList);
    assert nodes[..] == s && ConsecutiveLayers(s);
    layerOfTarget := GetLayerOfNode(target, nodes);
  }

  /** The second half of setProperty: the slot of the target among the nodes of
      its new layer (sorted by y in a fresh array), that slot corrected for
      earlier position constraints, and the layer corrected for earlier layer
      constraints. */
  method PlaceInLayer(target: KNode, nodes: array<KNode>, layerOfTarget: int)
      returns (positionOfTarget: int, newPositionCons: int, alreadyInLayer: bool, newLayerCons: int)
    ensures var ys := SortBy(OfLayer(nodes[..], layerOfTarget), ByY);
      && positionOfTarget == PosInLayer(ys, target)
      && alreadyInLayer == (target in ys)
      && newPositionCons == ActualTargetIndex(positionOfTarget, alreadyInLayer, ys)
      && newLayerCons == ActualLayer(nodes[..], layerOfTarget)
  {
    ghost var sorted := nodes[..];
    var layerList := GetNodesOfLayer(layerOfTarget, nodes);
    label listed:
    var nodesOfLayer := ToArray(layerList);
    positionOfTarget := GetPosInLayer(nodesOfLayer, target);
    ghost var ys := nodesOfLayer[..];
    alreadyInLayer := target in nodesOfLayer[..];
    newPositionCons := ActualTargetIndex(positionOfTarget, alreadyInLayer, nodesOfLayer[..]);
    label placed:
    newLayerCons := GetActualLayer(nodes, layerOfTarget);
    assert nodes[..] == sorted;
    OfLayerUnchanged@listed(sorted, layerOfTarget);
    SortByUnchanged@placed(layerList, ByY);
    SlotUnchanged@placed(target, ys, positionOfTarget, alreadyInLayer);
  }

  /** The layer utilities only read the nodes: while none of them changes,
      neither do the slot of a node in a layer and its correction. */
  twostate lemma SlotUnchanged(target: KNode, new ys: seq<KNode>, new position: int, new alreadyInLayer: bool)
    requires old(allocated(ys))
    requires unchanged(target) && unchanged(set n | n in ys)
    ensures PosInLayer(ys, target) == old(PosInLayer(ys, target))
    ensures 0 <= position <= |ys| ==>
      ActualTargetIndex(position, alreadyInLayer, ys) == old(ActualTargetIndex(position, alreadyInLayer, ys))
  {
  }

  /** Nor does the notification setProperty chooses. */
  twostate lemma OutcomeUnchanged(target: KNode, new s: seq<KNode>)
    requires old(allocated(s))
    requires unchanged(target) && unchanged(set n | n in s)
    ensures Outcome(target, s) == old(Outcome(target, s))
  {
  }

  /** setProperty: runs the layout utilities on the siblings of `target` and
      returns the notification it sends. */
  method SetProperty(target: KNode, siblings: seq<SModelElement>) returns (sent: seq<Constraint>)
    requires ConsecutiveLayers(KNodesOf(siblings))
    ensures sent == [Outcome(target, KNodesOf(siblings))]
  {
    // the placement of the target at its live position
    ghost var s := KNodesOf(siblings);
    var nodes, layerOfTarget := LocateTarget(target, siblings);
    label located:
    ghost var sorted := nodes[..];
    var positionOfTarget, newPositionCons, alreadyInLayer, newLayerCons := PlaceInLayer(target, nodes, layerOfTarget);
    var constraintSet := false;
    sent := [];
    // a new layer: static constraint with layer and slot
    if target.layerId != layerOfTarget {
      constraintSet := true;
      sent := sent + [StaticConstraint(target.id, layerOfTarget, newLayerCons, positionOfTarget, newPositionCons)];
    } else {
      // same layer, new slot: position constraint
      if target.posId != positionOfTarget {
        constraintSet := true;
        sent := sent + [PositionConstraint(target.id, positionOfTarget, newPositionCons)];
      }
    }
    // neither changed: refresh, so the node returns to its laid-out position
    if !constraintSet {
      sent := sent + [RefreshLayout];
    }
    ghost var placement := Placement(layerOfTarget, newLayerCons, positionOfTarget, newPositionCons, alreadyInLayer);
    assert sent == [Decide(target, placement)];
    // the placement is the one the layout utilities promise
    assert nodes[..] == sorted;
    SortByUnchanged@located(s, ByLayerId);
    LayerOfNodeUnchanged@located(target, s);
    assert SortBy(s, ByLayerId) == sorted;
    assert LayerOfNode(target, s) == layerOfTarget;
    assert PlacementOf(target, s) == placement;
  }

  /** mouseDown: on a node laid out interactively, remembers its position as the
      shadow, so that the layers are computed from where the drag started. */
  method MouseDown(target: SModelElement)
    modifies if target.SNode? then {target.node} else {}
    ensures target.SNode? && old(target.node.interactiveLayout) ==>
      && target.node.shadow
      && target.node.shadowX == old(target.node.x)
      && target.node.shadowY == old(target.node.y)
    ensures target.SNode? && !old(target.node.interactiveLayout) ==> unchanged(target.node)
    ensures target.SNode? ==> unchanged(target.node`x, target.node`y, target.node`width, target.node`height,
                                        target.node`layerId, target.node`posId, target.node`layerCons,
                                        target.node`posCons, target.node`selected, target.node`interactiveLayout)
  {
    if target.SNode? && target.node.interactiveLayout {
      var node := target.node;
      // set the shadow when a node is clicked
      node.shadow := true;
      node.shadowX := node.x;
      node.shadowY := node.y;
    }
  }

  /** mouseUp: after a drag of a node, sends the notification setProperty
      chooses (computed while the shadow still holds the start position) and
      then drops the shadow; otherwise nothing happens. */
  method MouseUp(target: SModelElement, hasDragged: bool, siblings: seq<SModelElement>) returns (sent: seq<Constraint>)
    requires hasDragged && target.SNode? ==> ConsecutiveLayers(KNodesOf(siblings))
    modifies if hasDragged && target.SNode? then {target.node} else {}
    ensures hasDragged && target.SNode? ==>
      && sent == [old(Outcome(target.node, KNodesOf(siblings)))]
      && !target.node.shadow
      && unchanged(target.node`x, target.node`y, target.node`width, target.node`height,
                   target.node`layerId, target.node`posId, target.node`layerCons,
                   target.node`posCons, target.node`selected, target.node`interactiveLayout,
                   target.node`shadowX, target.node`shadowY)
    ensures !(hasDragged && target.SNode?) ==> sent == []
  {
    sent := [];
    if hasDragged && target.SNode? {
      // the node was dragged: set the constraint and reset the shadow
      sent := SetProperty(target.node, siblings);
      OutcomeUnchanged(target.node, KNodesOf(siblings));
      target.node.shadow := false;
    }
  }
}
