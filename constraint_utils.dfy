/** The layer and position computations behind interactive layered layout:
    the layers of a set of sibling nodes, the layer and the slot a dragged
    node has been dropped into, and the corrections those need because of
    constraints the user set earlier. */
module ConstraintUtils {
  import opened ConstraintClasses
  import opened StableSort

  // ---------------------------------------------------------------------
  // min and max

  function Max(a: real, b: real): (r: real)
    ensures a <= r && b <= r
    ensures r == a || r == b
  {
    if a < b then b else a
  }

  function Min(a: real, b: real): (r: real)
    ensures r <= a && r <= b
    ensures r == a || r == b
  {
    if a < b then a else b
  }

  // ---------------------------------------------------------------------
  // layer ids

  /** Some node of `s` is in layer `l`. */
  ghost predicate HasLayer(s: seq<KNode>, l: int)
    reads s
  {
    exists n :: n in s && n.layerId == l
  }

  /** The layer ids of `s` are 0, 1, ..., k, each of them used. */
  ghost predicate ConsecutiveLayers(s: seq<KNode>)
    reads s
  {
    && (forall n :: n in s ==> 0 <= n.layerId)
    && (forall n, l :: n in s && 0 <= l <= n.layerId ==> HasLayer(s, l))
  }

  /** The largest layer id among the first `i` nodes of `s`; 0 when there are none. */
  function MaxLayerId(s: seq<KNode>, i: nat): (r: nat)
    requires i <= |s|
    reads set n | n in s
  {
    if i == 0 then 0
    else
      var m := MaxLayerId(s, i - 1);
      if m < s[i - 1].layerId then s[i - 1].layerId else m
  }

  /** The number of layers of a node list is one more than its largest layer id. */
  function LayerCount(s: seq<KNode>): nat
    reads set n | n in s
  {
    MaxLayerId(s, |s|) + 1
  }

  lemma {:induction false} MaxLayerIdBounds(s: seq<KNode>, i: nat, k: int)
    requires i <= |s| && 0 <= k
    requires forall j :: 0 <= j < i ==> 0 <= s[j].layerId <= k
    ensures MaxLayerId(s, i) <= k
    ensures forall j :: 0 <= j < i ==> s[j].layerId <= MaxLayerId(s, i)
    ensures i > 0 ==> exists j :: 0 <= j < i && s[j].layerId == MaxLayerId(s, i)
  {
    if i > 0 {
      MaxLayerIdBounds(s, i - 1, k);
    }
  }

  /** With layer ids exactly 0..k, there are k + 1 layers, and the layers of
      the list number k + 1. */
  lemma LayerCountOfConsecutive(s: seq<KNode>, k: int)
    requires 0 <= k
    requires forall n :: n in s ==> 0 <= n.layerId <= k
    requires HasLayer(s, k)
    ensures LayerCount(s) == k + 1
    ensures |LayersOf(s)| == k + 1
  {
    assert forall j :: 0 <= j < |s| ==> s[j] in s;
    MaxLayerIdBounds(s, |s|, k);
    var n :| n in s && n.layerId == k;
    var j :| 0 <= j < |s| && s[j] == n;
  }

  // ---------------------------------------------------------------------
  // layer bounds before reconciliation

  /** The left bound of layer `l` over the first `i` nodes: the least left edge
      of its members, starting from the MAX_VALUE sentinel. */
  function RawLeft(s: seq<KNode>, i: nat, l: int): real
    requires i <= |s|
    reads set n | n in s
  {
    if i == 0 then MaxValue
    else if s[i - 1].layerId == l then Min(LeftX(s[i - 1]), RawLeft(s, i - 1, l))
    else RawLeft(s, i - 1, l)
  }

  /** The right bound of layer `l` over the first `i` nodes: the greatest right
      edge of its members, starting from the MIN_VALUE sentinel. */
  function RawRight(s: seq<KNode>, i: nat, l: int): real
    requires i <= |s|
    reads set n | n in s
  {
    if i == 0 then MinValue
    else if s[i - 1].layerId == l then Max(RightX(s[i - 1]), RawRight(s, i - 1, l))
    else RawRight(s, i - 1, l)
  }

  /** The least top edge of the first `i` nodes. */
  function MinTop(s: seq<KNode>, i: nat): real
    requires i <= |s|
    reads set n | n in s
  {
    if i == 0 then MaxValue else Min(TopY(s[i - 1]), MinTop(s, i - 1))
  }

  /** The greatest bottom edge of the first `i` nodes. */
  function MaxBot(s: seq<KNode>, i: nat): real
    requires i <= |s|
    reads set n | n in s
  {
    if i == 0 then MinValue else Max(BotY(s[i - 1]), MaxBot(s, i - 1))
  }

  /** Layer `l` as the first sweep closes it. */
  function RawLayer(s: seq<KNode>, l: int): Layer
    reads set n | n in s
  {
    var left, right := RawLeft(s, |s|, l), RawRight(s, |s|, l);
    NewLayer(left, right, left + (right - left) / 2.0)
  }

  /** Layers 0 .. count - 1 as the first sweep closes them. */
  function RawLayers(s: seq<KNode>, count: nat): (r: seq<Layer>)
    reads set n | n in s
    ensures |r| == count
  {
    if count == 0 then [] else RawLayers(s, count - 1) + [RawLayer(s, count - 1)]
  }

  lemma {:induction false} RawLayersAt(s: seq<KNode>, count: nat)
    ensures forall l :: 0 <= l < count ==> RawLayers(s, count)[l] == RawLayer(s, l)
  {
    if count > 0 {
      RawLayersAt(s, count - 1);
    }
  }

  /** Nodes within the range of the sentinels, as every finite double is. */
  ghost predicate WithinSentinels(s: seq<KNode>)
    reads s
  {
    forall n :: n in s ==>
      LeftX(n) <= MaxValue && TopY(n) <= MaxValue && MinValue <= RightX(n) && MinValue <= BotY(n)
  }

  lemma {:induction false} RawBoundsTo(s: seq<KNode>, i: nat, l: int)
    requires i <= |s|
    requires WithinSentinels(s)
    ensures forall j :: 0 <= j < i && s[j].layerId == l ==> RawLeft(s, i, l) <= LeftX(s[j]) && RightX(s[j]) <= RawRight(s, i, l)
    ensures (exists j :: 0 <= j < i && s[j].layerId == l) ==>
      && (exists j :: 0 <= j < i && s[j].layerId == l && RawLeft(s, i, l) == LeftX(s[j]))
      && (exists j :: 0 <= j < i && s[j].layerId == l && RawRight(s, i, l) == RightX(s[j]))
    ensures (forall j :: 0 <= j < i ==> s[j].layerId != l) ==> RawLeft(s, i, l) == MaxValue && RawRight(s, i, l) == MinValue
  {
    if i > 0 {
      RawBoundsTo(s, i - 1, l);
      assert s[i - 1] in s;
    }
  }

  /** Each layer is built from its own members (from their shadow coordinates
      while a shadow is active): its left bound is the least left edge of a
      member, and its right bound the greatest right edge. */
  lemma RawLayerFromMembers(s: seq<KNode>, l: int)
    requires WithinSentinels(s)
    requires HasLayer(s, l)
    ensures forall n :: n in s && n.layerId == l ==> RawLayer(s, l).leftX <= LeftX(n) && RightX(n) <= RawLayer(s, l).rightX
    ensures exists n :: n in s && n.layerId == l && RawLayer(s, l).leftX == LeftX(n)
    ensures exists n :: n in s && n.layerId == l && RawLayer(s, l).rightX == RightX(n)
  {
    RawBoundsTo(s, |s|, l);
    var n :| n in s && n.layerId == l;
    var j :| 0 <= j < |s| && s[j] == n;
    forall m | m in s && m.layerId == l
      ensures RawLayer(s, l).leftX <= LeftX(m) && RightX(m) <= RawLayer(s, l).rightX
    {
      var jm :| 0 <= jm < |s| && s[jm] == m;
    }
    var jl :| 0 <= jl < |s| && s[jl].layerId == l && RawLeft(s, |s|, l) == LeftX(s[jl]);
    var jr :| 0 <= jr < |s| && s[jr].layerId == l && RawRight(s, |s|, l) == RightX(s[jr]);
    assert s[jl] in s && s[jr] in s;
  }

  /** A layer id no node has gives the untouched sentinels. */
  lemma RawEmptyLayer(s: seq<KNode>, l: int)
    requires !HasLayer(s, l)
    ensures RawLayer(s, l).leftX == MaxValue && RawLayer(s, l).rightX == MinValue
  {
    assert forall j :: 0 <= j < |s| ==> s[j] in s;
    RawPrefixStable(s, 0, |s|, l);
  }

  lemma {:induction false} VerticalBoundsTo(s: seq<KNode>, i: nat)
    requires 0 < i <= |s|
    requires WithinSentinels(s)
    ensures forall j :: 0 <= j < i ==> MinTop(s, i) <= TopY(s[j]) && BotY(s[j]) <= MaxBot(s, i)
    ensures exists j :: 0 <= j < i && MinTop(s, i) == TopY(s[j])
    ensures exists j :: 0 <= j < i && MaxBot(s, i) == BotY(s[j])
  {
    assert s[i - 1] in s;
    if i > 1 {
      VerticalBoundsTo(s, i - 1);
    }
  }

  /** The vertical bounds shared by all layers: the least top edge and the
      greatest bottom edge of any node. */
  lemma VerticalBoundsFromNodes(s: seq<KNode>)
    requires WithinSentinels(s)
    requires |s| > 0
    ensures forall n :: n in s ==> MinTop(s, |s|) <= TopY(n) && BotY(n) <= MaxBot(s, |s|)
    ensures exists n :: n in s && MinTop(s, |s|) == TopY(n)
    ensures exists n :: n in s && MaxBot(s, |s|) == BotY(n)
  {
    VerticalBoundsTo(s, |s|);
    forall m | m in s
      ensures MinTop(s, |s|) <= TopY(m) && BotY(m) <= MaxBot(s, |s|)
    {
      var jm :| 0 <= jm < |s| && s[jm] == m;
    }
    var jt :| 0 <= jt < |s| && MinTop(s, |s|) == TopY(s[jt]);
    var jb :| 0 <= jb < |s| && MaxBot(s, |s|) == BotY(s[jb]);
    assert s[jt] in s && s[jb] in s;
  }

  // ---------------------------------------------------------------------
  // reconciliation of adjacent layers

  /** The midpoint between the right bound of layer i and the left bound of layer i + 1. */
  function Gap(raw: seq<Layer>, i: int): real
    requires 0 <= i < |raw| - 1
  {
    raw[i].rightX + (raw[i + 1].leftX - raw[i].rightX) / 2.0
  }

  function Reconciled(raw: seq<Layer>, top: real, bot: real, i: int): Layer
    requires 0 <= i < |raw|
  {
    if |raw| == 1 then Layer(raw[0].leftX - 10.0, raw[0].rightX + 10.0, raw[0].mid, top, bot)
    else
      var left := if i == 0 then raw[0].mid - (Gap(raw, 0) - raw[0].mid) else Gap(raw, i - 1);
      var right := if i < |raw| - 1 then Gap(raw, i) else raw[i].mid + (raw[i].mid - Gap(raw, i - 1));
      Layer(left, right, raw[i].mid, top, bot)
  }

  /** The layers after their bounds are reconciled: neighbours meet at the
      midpoint of the gap between them, the outer layers are padded
      symmetrically about their midpoints (by 10 on each side when there is
      only one layer), and all share the overall vertical bounds. */
  function Reconcile(raw: seq<Layer>, top: real, bot: real): (r: seq<Layer>)
    requires |raw| >= 1
    ensures |r| == |raw|
  {
    seq(|raw|, i requires 0 <= i < |raw| => Reconciled(raw, top, bot, i))
  }

  /** Reconciled layers i and i + 1 meet at the midpoint of the gap between the raw ones. */
  ghost predicate MeetAtGap(r: seq<Layer>, raw: seq<Layer>, i: int)
    requires 0 <= i < |raw| - 1 && |r| == |raw|
  {
    r[i].rightX == Gap(raw, i) && r[i + 1].leftX == Gap(raw, i)
  }

  /** Every reconciled layer keeps its midpoint and gets the shared vertical bounds. */
  lemma ReconcileShared(raw: seq<Layer>, top: real, bot: real)
    requires |raw| >= 1
    ensures var r := Reconcile(raw, top, bot);
      forall i :: 0 <= i < |r| ==> r[i].mid == raw[i].mid && r[i].topY == top && r[i].botY == bot
  {
    var r := Reconcile(raw, top, bot);
    forall i | 0 <= i < |r|
      ensures r[i].mid == raw[i].mid && r[i].topY == top && r[i].botY == bot
    {
      assert r[i] == Reconciled(raw, top, bot, i);
    }
  }

  /** Neighbouring reconciled layers share one boundary: the midpoint of the gap. */
  lemma ReconcileMeets(raw: seq<Layer>, top: real, bot: real)
    requires |raw| >= 1
    ensures var r := Reconcile(raw, top, bot);
      forall i :: 0 <= i < |r| - 1 ==> MeetAtGap(r, raw, i)
  {
    var r := Reconcile(raw, top, bot);
    forall i | 0 <= i < |r| - 1
      ensures MeetAtGap(r, raw, i)
    {
      assert r[i] == Reconciled(raw, top, bot, i);
      assert r[i + 1] == Reconciled(raw, top, bot, i + 1);
    }
  }

  /** A single layer is padded by 10 on each side; otherwise the first and the
      last layer extend as far beyond their midpoint as their inner boundary. */
  lemma ReconcilePadding(raw: seq<Layer>, top: real, bot: real)
    requires |raw| >= 1
    ensures var r := Reconcile(raw, top, bot);
      && (|r| == 1 ==> r[0].leftX == raw[0].leftX - 10.0 && r[0].rightX == raw[0].rightX + 10.0)
      && (|r| >= 2 ==> r[0].mid - r[0].leftX == r[0].rightX - r[0].mid)
      && (|r| >= 2 ==> r[|r| - 1].mid - r[|r| - 1].leftX == r[|r| - 1].rightX - r[|r| - 1].mid)
  {
    var r := Reconcile(raw, top, bot);
    assert r[0] == Reconciled(raw, top, bot, 0);
    assert r[|r| - 1] == Reconciled(raw, top, bot, |r| - 1);
  }

  /** Raw layers that are ordered and apart along the x axis. */
  ghost predicate Separated(raw: seq<Layer>)
  {
    && (forall i :: 0 <= i < |raw| ==> raw[i].leftX <= raw[i].rightX && raw[i].mid == raw[i].leftX + (raw[i].rightX - raw[i].leftX) / 2.0)
    && (forall i :: 0 <= i < |raw| - 1 ==> raw[i].rightX <= raw[i + 1].leftX)
  }

  /** When the raw layers are apart, every reconciled layer still covers its
      raw extent, and the reconciled layers tile the x axis from left to right. */
  lemma ReconcileCovers(raw: seq<Layer>, top: real, bot: real)
    requires |raw| >= 1
    requires Separated(raw)
    ensures var r := Reconcile(raw, top, bot);
      && (forall i :: 0 <= i < |r| ==> r[i].leftX <= raw[i].leftX && raw[i].rightX <= r[i].rightX)
      && (forall i :: 0 <= i < |r| - 1 ==> r[i].leftX <= r[i].rightX == r[i + 1].leftX)
  {
    var r := Reconcile(raw, top, bot);
    forall i | 0 <= i < |r|
      ensures r[i].leftX <= raw[i].leftX && raw[i].rightX <= r[i].rightX
    {
      assert r[i] == Reconciled(raw, top, bot, i);
    }
  }

  /** The layers of a node list sorted by layer id. */
  function LayersOf(s: seq<KNode>): (r: seq<Layer>)
    reads set n | n in s
  {
    Reconcile(RawLayers(s, LayerCount(s)), MinTop(s, |s|), MaxBot(s, |s|))
  }

  // ---------------------------------------------------------------------
  // getLayers

  /** Sorting keeps exactly the nodes of the list. */
  lemma SortByMembers(s: seq<KNode>, k: SortKey)
    ensures forall n :: n in SortBy(s, k) <==> n in s
  {
    SortByPermutes(s, k);
    assert forall n :: n in SortBy(s, k) <==> n in multiset(SortBy(s, k));
  }

  /** In a list sorted by layer id whose ids are consecutive, the layer id after
      a run of `layer` is `layer` again or `layer + 1`. */
  lemma NextLayerId(s: seq<KNode>, i: int, layer: int)
    requires SortedBy(s, ByLayerId) && ConsecutiveLayers(s)
    requires 0 <= i < |s| && 0 <= layer
    requires i == 0 ==> layer == 0
    requires i > 0 ==> s[i - 1].layerId == layer
    ensures s[i].layerId == layer || s[i].layerId == layer + 1
  {
    assert s[i] in s;
    if i == 0 {
      assert HasLayer(s, 0);
      var m :| m in s && m.layerId == 0;
      var j :| 0 <= j < |s| && s[j] == m;
      assert s[0].layerId <= s[j].layerId;
    } else if s[i].layerId > layer {
      var v := s[i].layerId;
      assert HasLayer(s, v - 1);
      var m :| m in s && m.layerId == v - 1;
      var j :| 0 <= j < |s| && s[j] == m;
      assert j < i;
      assert s[j].layerId <= s[i - 1].layerId;
    }
  }

  /** Along a list sorted by layer id, the ids start at 0 and grow by at most one. */
  ghost predicate LayerSteps(s: seq<KNode>)
    reads s
  {
    && (|s| > 0 ==> s[0].layerId == 0)
    && (forall i :: 0 < i < |s| ==> StepAt(s, i))
  }

  /** The layer id at `i` is the one before it or the next. */
  ghost predicate StepAt(s: seq<KNode>, i: int)
    requires 0 < i < |s|
    reads s
  {
    s[i - 1].layerId <= s[i].layerId <= s[i - 1].layerId + 1
  }

  lemma ConsecutiveSteps(s: seq<KNode>)
    requires SortedBy(s, ByLayerId) && ConsecutiveLayers(s)
    ensures LayerSteps(s)
  {
    if |s| > 0 {
      assert s[0] in s;
      assert HasLayer(s, 0);
      var m :| m in s && m.layerId == 0;
      var j :| 0 <= j < |s| && s[j] == m;
      assert s[0].layerId <= s[j].layerId;
    }
    forall i | 0 < i < |s|
      ensures StepAt(s, i)
    {
      assert s[i - 1] in s;
      NextLayerId(s, i, s[i - 1].layerId);
    }
  }

  /** Nodes outside layer `l` do not move its raw bounds. */
  lemma {:induction false} RawPrefixStable(s: seq<KNode>, i: nat, j: nat, l: int)
    requires i <= j <= |s|
    requires forall k :: i <= k < j ==> s[k].layerId != l
    ensures RawLeft(s, j, l) == RawLeft(s, i, l) && RawRight(s, j, l) == RawRight(s, i, l)
    decreases j - i
  {
    if i < j {
      RawPrefixStable(s, i, j - 1, l);
    }
  }

  lemma {:induction false} StepsMonotone(s: seq<KNode>, i: int, j: int)
    requires LayerSteps(s) && 0 <= i <= j < |s|
    ensures s[i].layerId <= s[j].layerId
    decreases j - i
  {
    if i < j {
      StepsMonotone(s, i, j - 1);
      assert StepAt(s, j);
    }
  }

  /** When the sweep meets the first node of layer `layer + 1`, layer `layer`
      is complete and the new one has no member yet. */
  lemma CloseLayer(s: seq<KNode>, i: nat, layer: int)
    requires LayerSteps(s)
    requires 0 < i < |s| && s[i - 1].layerId == layer && s[i].layerId == layer + 1
    ensures RawLeft(s, i, layer) == RawLeft(s, |s|, layer) && RawRight(s, i, layer) == RawRight(s, |s|, layer)
    ensures RawLeft(s, i, layer + 1) == MaxValue && RawRight(s, i, layer + 1) == MinValue
  {
    forall k | i <= k < |s|
      ensures s[k].layerId != layer
    {
      StepsMonotone(s, i, k);
    }
    forall k | 0 <= k < i
      ensures s[k].layerId != layer + 1
    {
      StepsMonotone(s, k, i - 1);
    }
    RawPrefixStable(s, i, |s|, layer);
    RawPrefixStable(s, 0, i, layer + 1);
  }

  /** First loop of getLayers: the sweep over the nodes sorted by layer id,
      closing a layer whenever the id changes. */
  method SweepLayers(nodes: array<KNode>) returns (layers: seq<Layer>, topY: real, botY: real)
    requires LayerSteps(nodes[..])
    ensures layers == RawLayers(nodes[..], LayerCount(nodes[..]))
    ensures topY == MinTop(nodes[..], nodes.Length) && botY == MaxBot(nodes[..], nodes.Length)
  {
    ghost var s := nodes[..];
    layers := [];
    var layer := 0;
    var leftX, rightX := MaxValue, MinValue;
    topY, botY := MaxValue, MinValue;
    var i := 0;
    while i < nodes.Length
      invariant 0 <= i <= nodes.Length && 0 <= layer
      invariant layer == MaxLayerId(s, i)
      invariant i == 0 ==> layer == 0
      invariant i > 0 ==> s[i - 1].layerId == layer
      invariant layers == RawLayers(s, layer)
      invariant leftX == RawLeft(s, i, layer) && rightX == RawRight(s, i, layer)
      invariant topY == MinTop(s, i) && botY == MaxBot(s, i)
    {
      var node := nodes[i];
      assert i > 0 ==> StepAt(s, i);
      assert node == s[i] && (node.layerId == layer || node.layerId == layer + 1);
      if node.layerId != layer {
        // a new layer id: layer `layer` is final (CloseLayer)
        CloseLayer(s, i, layer);
        layers := layers + [NewLayer(leftX, rightX, leftX + (rightX - leftX) / 2.0)];
        assert layers == RawLayers(s, layer + 1);
        leftX := MaxValue;
        rightX := MinValue;
        layer := layer + 1;
      }
      var curLX := if node.shadow then node.shadowX else node.x;
      var curRX := curLX + node.width;
      var curTY := if node.shadow then node.shadowY else node.y;
      var curBY := curTY + node.height;
      leftX := Min(curLX, leftX);
      rightX := Max(curRX, rightX);
      topY := Min(curTY, topY);
      botY := Max(curBY, botY);
      i := i + 1;
    }
    assert LayerCount(s) == layer + 1;
    // close the layer of the last id
    layers := layers + [NewLayer(leftX, rightX, leftX + (rightX - leftX) / 2.0)];
    assert layers == RawLayers(s, layer + 1);
  }

  /** Layer `j` once the boundary loop has passed it. */
  function Swept(raw: seq<Layer>, top: real, bot: real, j: int): Layer
    requires 0 <= j < |raw| - 1
  {
    Layer(if j == 0 then raw[0].leftX else Gap(raw, j - 1), Gap(raw, j), raw[j].mid, top, bot)
  }

  /** The second half of getLayers: the shared boundaries between neighbouring
      layers, the vertical bounds and the padding of the outer layers, written
      field by field into the layers. */
  method ReconcileLayers(raw: seq<Layer>, topY: real, botY: real) returns (layers: seq<Layer>)
    requires |raw| >= 1
    ensures layers == Reconcile(raw, topY, botY)
  {
    layers := raw;
    var i := 0;
    while i < |layers| - 1
      invariant 0 <= i <= |raw| - 1 && |layers| == |raw|
      invariant forall j :: 0 <= j < i ==> layers[j] == Swept(raw, topY, botY, j)
      invariant i > 0 ==> layers[i] == raw[i].(leftX := Gap(raw, i - 1), topY := topY)
      invariant forall j :: i < j < |raw| ==> layers[j] == raw[j]
      invariant i == 0 ==> layers[0] == raw[0]
    {
      // the boundary shared by layers i and i + 1 (Gap)
      var leftL := layers[i];
      var rightL := layers[i + 1];
      var mid := leftL.rightX + (rightL.leftX - leftL.rightX) / 2.0;
      assert mid == Gap(raw, i);
      // both neighbours take that boundary
      leftL := leftL.(rightX := mid);
      rightL := rightL.(leftX := mid);
      // vertical bounds; the fourth write repeats the left layer's bottom, so the
      // right layer gets its bottom in the next step or, if last, in the padding
      leftL := leftL.(topY := topY);
      leftL := leftL.(botY := botY);
      rightL := rightL.(topY := topY);
      leftL := leftL.(botY := botY);
      assert leftL == Swept(raw, topY, botY, i);
      assert rightL == raw[i + 1].(leftX := Gap(raw, i), topY := topY);
      layers := layers[i := leftL][i + 1 := rightL];
      i := i + 1;
    }
    assert i == |raw| - 1;
    if |layers| == 1 {
      // only one layer: pad its x bounds
      var firstL := layers[0];
      firstL := firstL.(leftX := firstL.leftX - 10.0);
      firstL := firstL.(rightX := firstL.rightX + 10.0);
      firstL := firstL.(topY := topY, botY := botY);
      layers := layers[0 := firstL];
    } else {
      // pad the first layer symmetrically about its mid
      var firstL := layers[0];
      firstL := firstL.(leftX := firstL.mid - (firstL.rightX - firstL.mid));
      layers := layers[0 := firstL];
      assert layers[|layers| - 2].rightX == Gap(raw, |raw| - 2);
      // the last layer starts at the right bound of the layer left of it
      var lastL := layers[|layers| - 1];
      lastL := lastL.(leftX := layers[|layers| - 2].rightX);
      var dist := lastL.mid - lastL.leftX;
      lastL := lastL.(rightX := lastL.mid + dist);
      lastL := lastL.(topY := topY, botY := botY);
      layers := layers[|layers| - 1 := lastL];
    }
    forall j | 0 <= j < |raw|
      ensures layers[j] == Reconciled(raw, topY, botY, j)
    {
      if |raw| > 1 && j == |raw| - 1 {
        assert layers[j].leftX == Gap(raw, j - 1);
      }
    }
  }

  /** Sorting keeps the layer ids consecutive. */
  lemma SortKeepsConsecutive(s: seq<KNode>)
    requires ConsecutiveLayers(s)
    ensures ConsecutiveLayers(SortBy(s, ByLayerId))
  {
    SortByMembers(s, ByLayerId);
    var t := SortBy(s, ByLayerId);
    forall n, l | n in t && 0 <= l <= n.layerId
      ensures HasLayer(t, l)
    {
      assert HasLayer(s, l);
      var m :| m in s && m.layerId == l;
      assert m in t;
    }
  }

  /** Sorted by layer id, a list with consecutive ids climbs in steps of one. */
  lemma SortedSteps(s: seq<KNode>)
    requires ConsecutiveLayers(s)
    ensures LayerSteps(SortBy(s, ByLayerId))
  {
    SortKeepsConsecutive(s);
    SortBySorted(s, ByLayerId);
    ConsecutiveSteps(SortBy(s, ByLayerId));
  }

  /** getLayers: sorts `nodes` by layer id in place and returns their layers
      with reconciled bounds. */
  method GetLayers(nodes: array<KNode>) returns (layers: seq<Layer>)
    requires ConsecutiveLayers(nodes[..])
    modifies nodes
    ensures nodes[..] == SortBy(old(nodes[..]), ByLayerId)
    ensures layers == LayersOf(nodes[..])
  {
    ghost var input := nodes[..];
    SortInPlace(nodes, ByLayerId);
    ghost var sorted := nodes[..];
    assert sorted == SortBy(input, ByLayerId);
    SortedSteps(input);
    assert LayerSteps(sorted);
    var raw, topY, botY := SweepLayers(nodes);
    layers := ReconcileLayers(raw, topY, botY);
    assert layers == LayersOf(sorted);
  }

  // ---------------------------------------------------------------------
  // getNodesOfLayer

  /** The nodes of `s` in layer `l`, in their order in `s`. */
  function OfLayer(s: seq<KNode>, l: int): (r: seq<KNode>)
    reads s
    ensures forall n :: n in r ==> n in s
  {
    WithKey(s, ByLayerId, l as real)
  }

  /** Exactly the nodes of layer `l` are kept. */
  lemma {:induction false} OfLayerMembers(s: seq<KNode>, l: int)
    ensures forall n :: n in OfLayer(s, l) <==> n in s && n.layerId == l
  {
    if |s| > 0 {
      var p := s[..|s| - 1];
      OfLayerMembers(p, l);
      assert s == p + [s[|s| - 1]];
    }
  }

  /** The filter keeps the order of the input: filtering a concatenation
      concatenates the filtered parts. */
  lemma {:induction false} OfLayerConcat(a: seq<KNode>, b: seq<KNode>, l: int)
    ensures OfLayer(a + b, l) == OfLayer(a, l) + OfLayer(b, l)
  {
    if |b| > 0 {
      var p := b[..|b| - 1];
      OfLayerConcat(a, p, l);
      assert (a + b)[..|a + b| - 1] == a + p;
    } else {
      assert a + b == a;
    }
  }

  /** Sorting by layer id does not change the nodes of a layer nor their order:
      the layer's nodes taken from the sorted list equal those of the input. */
  lemma OfLayerSorted(s: seq<KNode>, l: int)
    ensures OfLayer(SortBy(s, ByLayerId), l) == OfLayer(s, l)
  {
    SortByStable(s, ByLayerId, l as real);
  }

  /** getNodesOfLayer: the nodes whose layer id is `layer`, collected with a
      counter in input order. */
  method GetNodesOfLayer(layer: int, nodes: array<KNode>) returns (nodesOfLayer: seq<KNode>)
    ensures nodesOfLayer == OfLayer(nodes[..], layer)
  {
    nodesOfLayer := [];
    var counter := 0;
    var i := 0;
    while i < nodes.Length
      invariant 0 <= i <= nodes.Length
      invariant nodesOfLayer == OfLayer(nodes[..i], layer) && counter == |nodesOfLayer|
    {
      var node := nodes[i];
      assert nodes[..i + 1] == nodes[..i] + [node];
      if node.layerId == layer {
        nodesOfLayer := nodesOfLayer + [node];
        counter := counter + 1;
      }
      i := i + 1;
    }
    assert nodes[..i] == nodes[..];
  }

  // ---------------------------------------------------------------------
  // getLayerOfNode

  /** The horizontal centre of a node at its live position (not its shadow). */
  function Center(n: KNode): real
    reads n
  {
    n.x + n.width / 2.0
  }

  /** The first layer whose right bound lies beyond `cx`; |layers| if none does. */
  function FirstLayerRightOf(layers: seq<Layer>, cx: real): (r: nat)
    ensures r <= |layers|
    ensures forall j :: 0 <= j < r ==> layers[j].rightX <= cx
    ensures r < |layers| ==> cx < layers[r].rightX
  {
    if |layers| == 0 then 0
    else if cx < layers[0].rightX then 0
    else 1 + FirstLayerRightOf(layers[1..], cx)
  }

  /** A layer holding exactly one node, which is selected. */
  predicate SoleSelected(ns: seq<KNode>)
    reads ns
  {
    |ns| == 1 && ns[0].selected
  }

  /** The layer a node centred at `cx` falls into: the first one reaching past
      `cx`; beyond all of them, the last layer when `soleLast` (the dragged node
      is alone in it) and a new layer after the last otherwise. */
  function LocateLayer(layers: seq<Layer>, cx: real, soleLast: bool): (r: nat)
    requires |layers| >= 1
    ensures r <= |layers|
    ensures r < |layers| && (r < |layers| - 1 || !soleLast) ==> cx < layers[r].rightX
    ensures forall j :: 0 <= j < r && j < |layers| ==> layers[j].rightX <= cx
    ensures r == |layers| <==> !soleLast && forall j :: 0 <= j < |layers| ==> layers[j].rightX <= cx
  {
    var i := FirstLayerRightOf(layers, cx);
    if i < |layers| then i
    else if soleLast then |layers| - 1
    else |layers|
  }

  /** The layer getLayerOfNode computes for `node` among the siblings `s`
      (which it sorts by layer id first). */
  function LayerOfNode(node: KNode, s: seq<KNode>): (r: nat)
    reads node, set n | n in s
  {
    var t := SortBy(s, ByLayerId);
    var layers := LayersOf(t);
    LocateLayer(layers, Center(node), SoleSelected(OfLayer(t, |layers| - 1)))
  }

  /** The hit test of getLayerOfNode: the first layer whose right bound lies
      beyond `curX`, or the number of layers when there is none. */
  method HitLayer(layers: seq<Layer>, curX: real) returns (i: nat)
    ensures i == FirstLayerRightOf(layers, curX)
  {
    i := 0;
    while i < |layers|
      invariant 0 <= i <= |layers|
      invariant forall j :: 0 <= j < i ==> layers[j].rightX <= curX
    {
      var layer := layers[i];
      if curX < layer.rightX {
        return i;
      }
      i := i + 1;
    }
  }

  /** The layer utilities only read the nodes: while none of them changes,
      neither do the nodes of a layer nor the layer a node falls into. */
  twostate lemma OfLayerUnchanged(new s: seq<KNode>, new l: int)
    requires old(allocated(s))
    requires unchanged(set n | n in s)
    ensures OfLayer(s, l) == old(OfLayer(s, l))
  {
  }

  twostate lemma LayerOfNodeUnchanged(node: KNode, new s: seq<KNode>)
    requires old(allocated(s))
    requires unchanged(node) && unchanged(set n | n in s)
    ensures LayerOfNode(node, s) == old(LayerOfNode(node, s))
  {
  }

  /** getLayerOfNode: sorts `nodes` by layer id, computes the layers and
      hit-tests the centre of `node` against them. */
  method GetLayerOfNode(node: KNode, nodes: array<KNode>) returns (r: int)
    requires ConsecutiveLayers(nodes[..])
    modifies nodes
    ensures nodes[..] == SortBy(old(nodes[..]), ByLayerId)
    ensures r == LayerOfNode(node, old(nodes[..]))
  {
    ghost var input := nodes[..];
    var layers := GetLayers(nodes);
    ghost var sorted := nodes[..];
    assert sorted == SortBy(input, ByLayerId);
    ghost var expected := LayerOfNode(node, input);
    ghost var sole := SoleSelected(OfLayer(sorted, |layers| - 1));
    assert expected == LocateLayer(layers, Center(node), sole);
    var curX := node.x + node.width / 2.0;
    assert curX == Center(node);
    label swept:
    var i := HitLayer(layers, curX);
    if i < |layers| {
      LayerOfNodeUnchanged@swept(node, input);
      SortByUnchanged@swept(input, ByLayerId);
      return i;
    }
    // past every layer: stays in the last layer only when it is that layer's sole, selected node
    var lastLNodes := GetNodesOfLayer(|layers| - 1, nodes);
    assert nodes[..] == sorted;
    OfLayerUnchanged@swept(sorted, |layers| - 1);
    LayerOfNodeUnchanged@swept(node, input);
    SortByUnchanged@swept(input, ByLayerId);
    if |lastLNodes| == 1 && lastLNodes[0].selected {
      assert |layers| - 1 == expected;
      return |layers| - 1;
    }
    assert |layers| == expected;
    return |layers|;
  }

  // ---------------------------------------------------------------------
  // getPosInLayer

  /** `Array.prototype.indexOf`: the first index holding `x` (by identity), or -1. */
  function IndexOf(s: seq<KNode>, x: KNode): (r: int)
    ensures -1 <= r < |s|
    ensures r == -1 <==> x !in s
    ensures r >= 0 ==> s[r] == x && forall j :: 0 <= j < r ==> s[j] != x
  {
    if |s| == 0 then -1
    else if s[0] == x then 0
    else
      var k := IndexOf(s[1..], x);
      if k == -1 then -1 else k + 1
  }

  /** The first index whose node lies strictly below `y`; |s| if there is none. */
  function FirstBelow(s: seq<KNode>, y: real): (r: nat)
    reads s
    ensures r <= |s|
    ensures forall j :: 0 <= j < r ==> s[j].y <= y
    ensures r < |s| ==> y < s[r].y
  {
    if |s| == 0 then 0
    else if y < s[0].y then 0
    else 1 + FirstBelow(s[1..], y)
  }

  /** The slot of `target` in the y-sorted layer `s`: its own index when it is
      already there, otherwise the index of the first node below it. */
  function PosInLayer(s: seq<KNode>, target: KNode): (r: nat)
    reads s, target
    ensures r <= |s|
  {
    if target in s then IndexOf(s, target) else FirstBelow(s, target.y)
  }

  /** In a layer sorted by y, everything before the slot lies at or above the
      target and everything from the slot on (other than the target) at or below. */
  lemma PosInLayerOrdered(s: seq<KNode>, target: KNode)
    requires SortedBy(s, ByY)
    ensures forall j :: 0 <= j < PosInLayer(s, target) ==> s[j].y <= target.y
    ensures forall j :: PosInLayer(s, target) <= j < |s| ==> target.y <= s[j].y
  {
    var r := PosInLayer(s, target);
    if target in s {
      assert s[r] == target;
      assert forall j :: 0 <= j < |s| ==> (j <= r ==> s[j].y <= s[r].y) && (r <= j ==> s[r].y <= s[j].y);
    } else if r < |s| {
      assert forall j :: r <= j < |s| ==> s[r].y <= s[j].y;
    }
  }

  /** getPosInLayer: sorts `layerNs` in place by y, then finds the slot of `target`. */
  method GetPosInLayer(layerNs: array<KNode>, target: KNode) returns (r: int)
    modifies layerNs
    ensures layerNs[..] == SortBy(old(layerNs[..]), ByY)
    ensures r == PosInLayer(layerNs[..], target)
  {
    SortInPlace(layerNs, ByY);
    ghost var t := layerNs[..];
    if IndexOf(layerNs[..], target) != -1 {
      // the target's own index (PosInLayer's first case)
      return IndexOf(layerNs[..], target);
    }
    assert PosInLayer(t, target) == FirstBelow(t, target.y);
    var i := 0;
    while i < layerNs.Length
      invariant 0 <= i <= layerNs.Length
      invariant forall j :: 0 <= j < i ==> t[j].y <= target.y
    {
      if target.y < layerNs[i].y {
        assert FirstBelow(t, target.y) == i;
        return i;
      }
      i := i + 1;
    }
    assert FirstBelow(t, target.y) == i;
    return layerNs.Length;
  }

  // ---------------------------------------------------------------------
  // getActualTargetIndex

  /** The slot corrected for a position constraint on the upper neighbour that
      lies beyond the neighbour's own index. */
  function ActualTargetIndex(targetIndex: int, alreadyInLayer: bool, layerNodes: seq<KNode>): (r: int)
    requires targetIndex <= |layerNodes|
    reads layerNodes
    ensures r >= targetIndex
  {
    if targetIndex > 0 then
      var upperIndex := targetIndex - 1;
      var upperNeighbour := layerNodes[upperIndex];
      var posConsOfUpper := upperNeighbour.posCons;
      if posConsOfUpper > upperIndex then
        if alreadyInLayer && upperNeighbour.posId == targetIndex then posConsOfUpper
        else posConsOfUpper + 1
      else targetIndex
    else targetIndex
  }

  /** The slot is kept when there is no upper neighbour or when the
      neighbour's position constraint does not lie past the neighbour's index.
      Otherwise the slot becomes the neighbour's constraint when the node moves
      within its own layer and the neighbour currently holds the slot, and the
      slot right after that constraint in every other case. */
  lemma ActualTargetIndexCases(targetIndex: int, alreadyInLayer: bool, layerNodes: seq<KNode>)
    requires targetIndex <= |layerNodes|
    ensures var r := ActualTargetIndex(targetIndex, alreadyInLayer, layerNodes);
      && (targetIndex <= 0 ==> r == targetIndex)
      && (targetIndex > 0 ==>
            var upper := layerNodes[targetIndex - 1];
            && (upper.posCons <= targetIndex - 1 ==> r == targetIndex)
            && (upper.posCons > targetIndex - 1 && alreadyInLayer && upper.posId == targetIndex ==> r == upper.posCons)
            && (upper.posCons > targetIndex - 1 && !(alreadyInLayer && upper.posId == targetIndex) ==> r == upper.posCons + 1 > targetIndex))
  {
  }

  // ---------------------------------------------------------------------
  // getActualLayer

  /** A node at or left of the candidate layer whose layer constraint lies
      beyond its own layer. */
  predicate Qualifies(n: KNode, layerCandidate: int)
    reads n
  {
    n.layerId <= layerCandidate && n.layerCons > n.layerId
  }

  /** `nodes.filter(...)`: the qualifying nodes, in order. */
  function ConsLeftOf(s: seq<KNode>, layerCandidate: int): (r: seq<KNode>)
    reads s
    ensures forall n :: n in r ==> n in s && Qualifies(n, layerCandidate)
  {
    if |s| == 0 then []
    else if Qualifies(s[|s| - 1], layerCandidate) then ConsLeftOf(s[..|s| - 1], layerCandidate) + [s[|s| - 1]]
    else ConsLeftOf(s[..|s| - 1], layerCandidate)
  }

  lemma {:induction false} ConsLeftOfMembers(s: seq<KNode>, layerCandidate: int)
    ensures forall n :: n in ConsLeftOf(s, layerCandidate) <==> n in s && Qualifies(n, layerCandidate)
  {
    if |s| > 0 {
      var p := s[..|s| - 1];
      ConsLeftOfMembers(p, layerCandidate);
      assert s == p + [s[|s| - 1]];
    }
  }

  /** State of the max-search loop: the node with the largest constraint so far
      and that constraint (-1 before any is found). */
  datatype MaxCons = MaxCons(node: Option<KNode>, cons: int)

  /** The max-search over the first `i` nodes of `q`; only a strictly larger
      constraint replaces the current one. */
  function MaxSearch(q: seq<KNode>, i: nat): (m: MaxCons)
    requires i <= |q|
    reads q
    ensures m.node.Some? ==> m.node.value in q
  {
    if i == 0 then MaxCons(None, -1)
    else
      var m := MaxSearch(q, i - 1);
      if q[i - 1].layerCons > m.cons then MaxCons(Some(q[i - 1]), q[i - 1].layerCons) else m
  }

  /** The search finds the largest constraint (or keeps -1), and the node it
      reports is the first one carrying it. */
  lemma {:induction false} MaxSearchFindsFirstMax(q: seq<KNode>, i: nat)
    requires i <= |q|
    ensures var m := MaxSearch(q, i);
      && m.cons >= -1
      && (forall j :: 0 <= j < i ==> q[j].layerCons <= m.cons)
      && (m.node.None? <==> m.cons == -1)
      && (m.node.Some? ==> exists j :: 0 <= j < i && q[j] == m.node.value && q[j].layerCons == m.cons
                               && forall k :: 0 <= k < j ==> q[k].layerCons < m.cons)
  {
    if i > 0 {
      MaxSearchFindsFirstMax(q, i - 1);
    }
  }

  /** `q[j]` carries the largest layer constraint of `q`, and no node before it does. */
  predicate FirstMaxAt(q: seq<KNode>, j: int)
    requires 0 <= j < |q|
    reads q
  {
    && (forall k :: 0 <= k < |q| ==> q[k].layerCons <= q[j].layerCons)
    && (forall k :: 0 <= k < j ==> q[k].layerCons < q[j].layerCons)
  }

  /** getActualLayer: the candidate shifted by the largest layer constraint on
      a node at or left of it, measured from that node's own layer. */
  function ActualLayer(s: seq<KNode>, layerCandidate: int): int
    reads set n | n in s
  {
    var q := ConsLeftOf(s, layerCandidate);
    if |q| == 0 then layerCandidate
    else
      var m := MaxSearch(q, |q|);
      if m.node.Some? then m.cons + (layerCandidate - m.node.value.layerId) else layerCandidate
  }

  /** The layer is never moved left; it is kept exactly when no qualifying node
      has a constraint of 0 or more, and otherwise moves strictly right to the
      constraint of the first qualifying node with the largest constraint, plus
      the candidate's distance from that node's layer. */
  lemma ActualLayerShift(s: seq<KNode>, layerCandidate: int)
    ensures ActualLayer(s, layerCandidate) >= layerCandidate
    ensures ActualLayer(s, layerCandidate) == layerCandidate <==>
      forall n :: n in s && Qualifies(n, layerCandidate) ==> n.layerCons <= -1
    ensures ActualLayer(s, layerCandidate) > layerCandidate ==>
      exists j :: 0 <= j < |ConsLeftOf(s, layerCandidate)| && FirstMaxAt(ConsLeftOf(s, layerCandidate), j)
        && ActualLayer(s, layerCandidate)
           == ConsLeftOf(s, layerCandidate)[j].layerCons + (layerCandidate - ConsLeftOf(s, layerCandidate)[j].layerId)
  {
    var q := ConsLeftOf(s, layerCandidate);
    ConsLeftOfMembers(s, layerCandidate);
    MaxSearchFindsFirstMax(q, |q|);
    assert forall k :: 0 <= k < |q| ==> q[k] in q;
    var m := MaxSearch(q, |q|);
    if m.node.Some? {
      var j :| 0 <= j < |q| && q[j] == m.node.value && q[j].layerCons == m.cons
               && forall k :: 0 <= k < j ==> q[k].layerCons < m.cons;
      assert FirstMaxAt(q, j);
    } else {
      assert ActualLayer(s, layerCandidate) == layerCandidate;
    }
  }

  /** With nonnegative layer ids the adjustment happens exactly when some node
      qualifies. */
  lemma ActualLayerUnchangedIff(s: seq<KNode>, layerCandidate: int)
    requires forall n :: n in s ==> 0 <= n.layerId
    ensures ActualLayer(s, layerCandidate) == layerCandidate <==>
      forall n :: n in s ==> !Qualifies(n, layerCandidate)
  {
    ActualLayerShift(s, layerCandidate);
  }

  /** The loop of getActualLayer over the filtered nodes. */
  method GetActualLayer(nodes: array<KNode>, layerCandidate: int) returns (r: int)
    ensures r == ActualLayer(nodes[..], layerCandidate)
  {
    var layerConsLeftofCandidate := ConsLeftOf(nodes[..], layerCandidate);
    if |layerConsLeftofCandidate| == 0 {
      return layerCandidate;
    }
    var nodeWithMaxCons: Option<KNode> := None;
    var maxCons := -1;
    var i := 0;
    while i < |layerConsLeftofCandidate|
      invariant 0 <= i <= |layerConsLeftofCandidate|
      invariant MaxCons(nodeWithMaxCons, maxCons) == MaxSearch(layerConsLeftofCandidate, i)
    {
      var n := layerConsLeftofCandidate[i];
      if n.layerCons > maxCons {
        nodeWithMaxCons := Some(n);
        maxCons := n.layerCons;
      }
      i := i + 1;
    }
    if nodeWithMaxCons.Some? {
      var idDiff := layerCandidate - nodeWithMaxCons.value.layerId;
      return maxCons + idDiff;
    }
    return layerCandidate;
  }

  // ---------------------------------------------------------------------
  // filterKNodes and isChildSelected

  /** The nodes among the model elements, in order. */
  function KNodesOf(elems: seq<SModelElement>): (r: seq<KNode>)
  {
    if |elems| == 0 then []
    else if elems[|elems| - 1].SNode? then KNodesOf(elems[..|elems| - 1]) + [elems[|elems| - 1].node]
    else KNodesOf(elems[..|elems| - 1])
  }

  /** Exactly the nodes among the elements are kept. */
  lemma {:induction false} KNodesOfMembers(elems: seq<SModelElement>)
    ensures forall n :: n in KNodesOf(elems) <==> SNode(n) in elems
  {
    if |elems| > 0 {
      var p := elems[..|elems| - 1];
      KNodesOfMembers(p);
      assert elems == p + [elems[|elems| - 1]];
    }
  }

  /** filterKNodes: the node elements, collected with a counter. */
  method FilterKNodes(graphElements: seq<SModelElement>) returns (nodes: seq<KNode>)
    ensures nodes == KNodesOf(graphElements)
  {
    nodes := [];
    var counter := 0;
    var i := 0;
    while i < |graphElements|
      invariant 0 <= i <= |graphElements|
      invariant nodes == KNodesOf(graphElements[..i]) && counter == |nodes|
    {
      var elem := graphElements[i];
      assert graphElements[..i + 1][..i] == graphElements[..i];
      if elem.SNode? {
        nodes := nodes + [elem.node];
        counter := counter + 1;
      }
      i := i + 1;
    }
    assert graphElements[..i] == graphElements;
  }

  /** isChildSelected: whether some node among the children is selected; a root
      without children (`children` undefined) has none. */
  method IsChildSelected(children: Option<seq<SModelElement>>) returns (b: bool)
    ensures b <==> children.Some? && exists i :: 0 <= i < |children.value| && children.value[i].SNode? && children.value[i].node.selected
  {
    if children.Some? {
      var nodes := children.value;
      var i := 0;
      while i < |nodes|
        invariant 0 <= i <= |nodes|
        invariant forall j :: 0 <= j < i ==> !(nodes[j].SNode? && nodes[j].node.selected)
      {
        var node := nodes[i];
        if node.SNode? && node.node.selected {
          return true;
        }
        i := i + 1;
      }
    }
    return false;
  }

  // ---------------------------------------------------------------------
  // layerOfSelectedNode

  /** The first selected node of `s`, if any. */
  function FirstSelected(s: seq<KNode>): (r: Option<KNode>)
    reads s
    ensures r.None? <==> forall n :: n in s ==> !n.selected
    ensures r.Some? ==> exists j :: 0 <= j < |s| && s[j] == r.value && s[j].selected
                                  && forall k :: 0 <= k < j ==> !s[k].selected
  {
    if |s| == 0 then None
    else if s[0].selected then Some(s[0])
    else
      var r := FirstSelected(s[1..]);
      assert forall n :: n in s ==> n == s[0] || n in s[1..];
      if r.Some? then
        var j :| 0 <= j < |s[1..]| && s[1..][j] == r.value && s[1..][j].selected
                 && forall k :: 0 <= k < j ==> !s[1..][k].selected;
        assert s[j + 1] == r.value;
        r
      else r
  }

  /** layerOfSelectedNode: -1 when no node is selected; otherwise the layer of
      the first selected node, which sorts `nodes` by layer id on the way. */
  method LayerOfSelectedNode(nodes: array<KNode>) returns (r: int)
    requires (exists j :: 0 <= j < nodes.Length && nodes[j].selected) ==> ConsecutiveLayers(nodes[..])
    modifies nodes
    ensures r == -1 <==> forall j :: 0 <= j < nodes.Length ==> !old(nodes[j].selected)
    ensures r == -1 ==> nodes[..] == old(nodes[..])
    ensures r != -1 ==> var first := old(FirstSelected(nodes[..]));
      && first.Some? && nodes[..] == SortBy(old(nodes[..]), ByLayerId)
      && r == LayerOfNode(first.value, old(nodes[..]))
  {
    ghost var input := nodes[..];
    ghost var first := FirstSelected(input);
    var i := 0;
    while i < nodes.Length
      invariant 0 <= i <= nodes.Length && nodes[..] == input
      invariant forall j :: 0 <= j < i ==> !nodes[j].selected
    {
      var node := nodes[i];
      if node.selected {
        assert first == Some(node);
        r := GetLayerOfNode(node, nodes);
        return;
      }
      i := i + 1;
    }
    assert forall n :: n in input ==> !n.selected;
    return -1;
  }
}
