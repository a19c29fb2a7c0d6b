/** layoutAll of the schema graph script, the inner half: the boxes of one chain in
    columns by depth, chains on top of each other, single tables in a grid. Positions
    are maps from table keys; no two boxes overlap. */
module GraphLayout {
  import opened GraphComponents
  import GraphLayers
  import Sorting

  const LAYER_W := 260
  const NODE_W := 220
  const NODE_GAP_X := 60
  const NODE_GAP_Y := 36
  const CHAIN_GAP_Y := 60
  const DB_PADDING := 16
  const DB_PADDING_TOP := 32
  const DB_GAP := 28
  const MARGIN := 8

  datatype Node = Node(key: Key, name: string, kind: string, columns: nat, hasRows: bool)

  /** The height layoutAll gives a node before the first render; the width is NODE_W. */
  function EstimateHeight(n: Node, showColumns: bool): (h: nat)
    ensures h > 0
  {
    var colCount := if !showColumns then 0 else if n.columns < 14 then n.columns else 14;
    36 + colCount * 17 + if n.hasRows then 20 else 0
  }

  /** What the height is made of: the box itself, one step for each column shown, the
      first fourteen at most, and a line for the rows. */
  lemma HeightSteps(n: Node)
    ensures EstimateHeight(n.(hasRows := false), false) == 36
    ensures EstimateHeight(n.(columns := 0), true) == EstimateHeight(n, false)
    ensures EstimateHeight(n.(columns := n.columns + 1), true) ==
            EstimateHeight(n, true) + if n.columns < 14 then 17 else 0
    ensures forall show :: EstimateHeight(n.(hasRows := true), show) == EstimateHeight(n.(hasRows := false), show) + 20
  {
  }

  datatype Pos = Pos(x: int, y: int)
  datatype Rect = Rect(x: int, y: int, w: int, h: int)

  type Heights = map<Key, nat>
  type Places = map<Key, Pos>

  predicate Apart(a: Rect, b: Rect) {
    a.x + a.w <= b.x || b.x + b.w <= a.x || a.y + a.h <= b.y || b.y + b.h <= a.y
  }

  predicate Inside(a: Rect, b: Rect) {
    b.x <= a.x && a.x + a.w <= b.x + b.w && b.y <= a.y && a.y + a.h <= b.y + b.h
  }

  function Box(at: Places, h: Heights, k: Key): Rect
    requires k in at && k in h
  {
    Rect(at[k].x, at[k].y, NODE_W, h[k])
  }

  /** No two boxes overlap. */
  ghost predicate AllApart(at: Places, h: Heights) {
    && (forall k :: k in at ==> k in h)
    && forall a, b :: a in at && b in at && a != b ==> Apart(Box(at, h, a), Box(at, h, b))
  }

  ghost predicate AllInside(at: Places, h: Heights, r: Rect) {
    && (forall k :: k in at ==> k in h)
    && forall k :: k in at ==> Inside(Box(at, h, k), r)
  }

  // ----- one chain

  datatype Chain = Chain(comp: seq<Key>, maxDepth: nat, w: int, h: int, at: Places)

  /** Every node stands in one layer, once. */
  ghost predicate OncePerLayer(layers: map<nat, seq<Key>>) {
    && (forall d :: d in layers ==> Distinct(layers[d]))
    && forall d, e, k :: d in layers && e in layers && d != e && k in layers[d] ==> k !in layers[e]
  }

  /** All boxes so far are left of column d, or in it and above y. */
  ghost predicate Before(at: Places, h: Heights, d: nat, y: int) {
    && (forall k :: k in at ==> k in h)
    && forall k :: k in at ==>
         at[k].x + NODE_W <= d * (LAYER_W + NODE_GAP_X) ||
             (at[k].x == d * (LAYER_W + NODE_GAP_X) && at[k].y + h[k] <= y)
  }

  lemma PlaceNext(at: Places, h: Heights, d: nat, y: int, n: Key)
    requires AllApart(at, h) && Before(at, h, d, y) && n in h && n !in at
    ensures var r := at[n := Pos(d * (LAYER_W + NODE_GAP_X), y)];
            AllApart(r, h) && Before(r, h, d, y + h[n] + NODE_GAP_Y)
  {
    var r := at[n := Pos(d * (LAYER_W + NODE_GAP_X), y)];
    forall a, b | a in r && b in r && a != b ensures Apart(Box(r, h, a), Box(r, h, b)) {
      if a != n && b != n {
        assert Apart(Box(at, h, a), Box(at, h, b));
      }
    }
  }

  lemma NextColumn(at: Places, h: Heights, d: nat, y: int)
    requires Before(at, h, d, y)
    ensures Before(at, h, d + 1, 0)
  {
  }

  /** Every box stands in the column of its node's depth. */
  ghost predicate InColumns(at: Places, depth: map<Key, nat>) {
    forall k :: k in at ==> k in depth && at[k].x == depth[k] * (LAYER_W + NODE_GAP_X)
  }

  lemma ColumnNext(at: Places, depth: map<Key, nat>, n: Key, y: int)
    requires InColumns(at, depth) && n in depth
    ensures InColumns(at[n := Pos(depth[n] * (LAYER_W + NODE_GAP_X), y)], depth)
  {
  }

  /** All boxes lie in the first w columns of pixels, ending above one of two heights. */
  ghost predicate Fits(at: Places, h: Heights, w: int, height: int, y: int) {
    forall k :: k in at ==> k in h && 0 <= at[k].x && at[k].x + NODE_W <= w && 0 <= at[k].y
                            && (at[k].y + h[k] <= height || at[k].y + h[k] <= y)
  }

  lemma FitsNext(at: Places, h: Heights, w: int, height: int, y: int, x: int, n: Key)
    requires Fits(at, h, w, height, y) && n in h && 0 <= x && x + NODE_W <= w && 0 <= y
    ensures Fits(at[n := Pos(x, y)], h, w, height, y + h[n] + NODE_GAP_Y)
  {
  }

  /** The layer's boxes stand below each other in its order, a gap between them. */
  ghost predicate Below(at: Places, h: Heights, layer: seq<Key>) {
    && (forall k :: k in layer ==> k in at && k in h)
    && forall i, j :: 0 <= i < j < |layer| ==> at[layer[i]].y + h[layer[i]] + NODE_GAP_Y <= at[layer[j]].y
  }

  /** And all of them end a gap above y. */
  ghost predicate BelowTo(at: Places, h: Heights, layer: seq<Key>, y: int) {
    Below(at, h, layer) && forall i :: 0 <= i < |layer| ==> at[layer[i]].y + h[layer[i]] + NODE_GAP_Y <= y
  }

  lemma BelowNext(at: Places, h: Heights, layer: seq<Key>, i: nat, x: int, y: int)
    requires i < |layer| && BelowTo(at, h, layer[..i], y) && layer[i] !in layer[..i] && layer[i] in h
    ensures BelowTo(at[layer[i] := Pos(x, y)], h, layer[..i + 1], y + h[layer[i]] + NODE_GAP_Y)
  {
    var r, s, n := at[layer[i] := Pos(x, y)], layer[..i], layer[i];
    assert layer[..i + 1] == s + [n];
    forall j | 0 <= j < i ensures r[s[j]] == at[s[j]] {
      assert s[j] in s;
    }
  }

  lemma BelowKept(at: Places, more: Places, h: Heights, layer: seq<Key>)
    requires Below(at, h, layer) && forall k :: k in at ==> k in more && more[k] == at[k]
    ensures Below(more, h, layer)
  {
    forall i | 0 <= i < |layer| ensures more[layer[i]] == at[layer[i]] {
      assert layer[i] in layer;
    }
  }

  lemma NothingBelow(at: Places, h: Heights)
    ensures BelowTo(at, h, [], 0)
  {
  }

  /** One layer from top to bottom in its column; y is where the next box would go. */
  method PlaceLayer(at0: Places, layer: seq<Key>, d: nat, h: Heights, ghost depth: map<Key, nat>, ghost w: int,
                    ghost height: int)
    returns (at: Places, y: int)
    requires AllApart(at0, h) && Before(at0, h, d, 0) && InColumns(at0, depth) && Fits(at0, h, w, height, 0)
    requires Distinct(layer) && d * (LAYER_W + NODE_GAP_X) + NODE_W <= w
    requires forall k :: k in layer ==> k in h && k !in at0 && k in depth && depth[k] == d
    ensures y >= 0 && AllApart(at, h) && Before(at, h, d, y) && InColumns(at, depth) && Fits(at, h, w, height, y)
    ensures forall k :: k in at <==> k in at0 || k in layer
    ensures Below(at, h, layer) && forall k :: k in at0 ==> at[k] == at0[k]
  {
    hide AllApart, Before, InColumns, Fits, BelowTo;
    at, y := at0, 0;
    NothingBelow(at, h);
    assert layer[..0] == [];
    for i := 0 to |layer|
      invariant BelowTo(at, h, layer[..i], y) && forall k :: k in at0 ==> k in at && at[k] == at0[k]
      invariant y >= 0 && AllApart(at, h) && Before(at, h, d, y) && InColumns(at, depth) && Fits(at, h, w, height, y)
      invariant forall k :: k in at <==> k in at0 || k in layer[..i]
    {
      var n := layer[i];
      assert n in layer && layer[..i + 1] == layer[..i] + [n];
      PlaceNext(at, h, d, y, n);
      ColumnNext(at, depth, n, y);
      FitsNext(at, h, w, height, y, d * (LAYER_W + NODE_GAP_X), n);
      NotYet(layer, i);
      BelowNext(at, h, layer, i, d * (LAYER_W + NODE_GAP_X), y);
      at := at[n := Pos(d * (LAYER_W + NODE_GAP_X), y)];
      y := y + h[n] + NODE_GAP_Y;
    }
    assert layer[..|layer|] == layer;
    BelowAll(at, h, layer, y);
  }

  lemma NotYet(layer: seq<Key>, i: nat)
    requires Distinct(layer) && i < |layer|
    ensures layer[i] !in layer[..i]
  {
  }

  lemma BelowAll(at: Places, h: Heights, layer: seq<Key>, y: int)
    requires BelowTo(at, h, layer, y)
    ensures Below(at, h, layer)
  {
  }

  method PlaceChain(layers: map<nat, seq<Key>>, maxDepth: nat, h: Heights, ghost depth: map<Key, nat>)
    returns (at: Places, w: int, height: int)
    requires OncePerLayer(layers)
    requires forall d, k :: d in layers && k in layers[d] ==> k in depth && depth[k] == d
    requires forall d, k :: d in layers && k in layers[d] ==> k in h
    ensures forall k :: k in at <==> exists d :: 0 <= d <= maxDepth && d in layers && k in layers[d]
    ensures AllApart(at, h) && w >= 0 && height >= 0
    ensures AllInside(at, h, Rect(0, 0, w, height)) && InColumns(at, depth)
    ensures forall d :: 0 <= d <= maxDepth ==> Below(at, h, GraphLayers.At(layers, d))
  {
    hide AllApart, Before, OncePerLayer, InColumns, Fits, Distinct, AllInside, Below;
    at := map[];
    height := 0;
    w := (maxDepth + 1) * LAYER_W + maxDepth * NODE_GAP_X;
    EmptyBefore(h, w);
    for d := 0 to maxDepth + 1
      invariant height >= 0 && InColumns(at, depth)
      invariant AllApart(at, h) && Before(at, h, d, 0) && Fits(at, h, w, height, 0)
      invariant forall k :: k in at <==> exists e :: 0 <= e < d && e in layers && k in layers[e]
      invariant forall e :: 0 <= e < d ==> Below(at, h, GraphLayers.At(layers, e))
    {
      ghost var at0 := at;
      var layer := GraphLayers.At(layers, d);
      NotPlaced(layers, d, at, layer);
      ColumnFits(d, maxDepth);
      var y;
      at, y := PlaceLayer(at, layer, d, h, depth, w, height);
      forall e | 0 <= e < d ensures Below(at, h, GraphLayers.At(layers, e)) {
        BelowKept(at0, at, h, GraphLayers.At(layers, e));
      }
      FitsHigher(at, h, w, height, y);
      if y > height {
        height := y;
      }
      NextColumn(at, h, d, y);
    }
    FitsInside(at, h, w, height);
  }

  lemma ColumnFits(d: nat, maxDepth: nat)
    requires d <= maxDepth
    ensures d * (LAYER_W + NODE_GAP_X) + NODE_W <= (maxDepth + 1) * LAYER_W + maxDepth * NODE_GAP_X
  {
    assert d * (LAYER_W + NODE_GAP_X) <= maxDepth * (LAYER_W + NODE_GAP_X);
  }

  lemma FitsHigher(at: Places, h: Heights, w: int, height: int, y: int)
    requires Fits(at, h, w, height, y)
    ensures Fits(at, h, w, if y > height then y else height, 0)
  {
  }

  lemma FitsInside(at: Places, h: Heights, w: int, height: int)
    requires Fits(at, h, w, height, 0) && height >= 0
    ensures AllInside(at, h, Rect(0, 0, w, height))
  {
  }

  lemma EmptyBefore(h: Heights, w: int)
    ensures AllApart(map[], h) && Before(map[], h, 0, 0) && Fits(map[], h, w, 0, 0)
    ensures forall depth :: InColumns(map[], depth)
  {
  }

  lemma NotPlaced(layers: map<nat, seq<Key>>, d: nat, before: Places, layer: seq<Key>)
    requires OncePerLayer(layers) && layer == GraphLayers.At(layers, d)
    requires forall k :: k in before <==> exists e :: 0 <= e < d && e in layers && k in layers[e]
    ensures Distinct(layer) && forall k :: k in layer ==> d in layers && k in layers[d] && k !in before
  {
  }

  // ----- chains on top of each other

  ghost predicate GoodChain(c: Chain, h: Heights) {
    && c.w >= 0 && c.h >= 0
    && (forall k :: k in c.at <==> k in c.comp)
    && AllApart(c.at, h) && AllInside(c.at, h, Rect(0, 0, c.w, c.h))
  }

  /** No node stands in two chains. */
  ghost predicate SeparateChains(cs: seq<Chain>) {
    forall i, j, k :: 0 <= i < j < |cs| && k in cs[i].comp ==> k !in cs[j].comp
  }

  /** All boxes lie between 0 and the given bounds. */
  ghost predicate Packed(at: Places, h: Heights, w: int, bottom: int) {
    AllApart(at, h) && AllInside(at, h, Rect(0, 0, w, bottom))
  }

  /** A group of boxes put below what is there already. */
  lemma StackBelow(at: Places, sub: Places, r: Places, h: Heights, w: int, bottom: int, dy: int, sw: int, sh: int)
    requires Packed(at, h, w, bottom) && bottom <= dy && 0 <= dy
    requires AllApart(sub, h) && AllInside(sub, h, Rect(0, 0, sw, sh)) && sw >= 0 && sh >= 0 && w >= 0
    requires at.Keys !! sub.Keys && r.Keys == at.Keys + sub.Keys
    requires forall k :: k in at ==> r[k] == at[k]
    requires forall k :: k in sub ==> r[k] == Pos(sub[k].x, dy + sub[k].y)
    ensures Packed(r, h, if sw > w then sw else w, dy + sh)
  {
    forall a, b | a in r && b in r && a != b ensures Apart(Box(r, h, a), Box(r, h, b)) {
      if a in at && b in at {
        assert Apart(Box(at, h, a), Box(at, h, b));
      } else if a in sub && b in sub {
        assert Apart(Box(sub, h, a), Box(sub, h, b));
      } else if a in at {
        assert Inside(Box(at, h, a), Rect(0, 0, w, bottom)) && Inside(Box(sub, h, b), Rect(0, 0, sw, sh));
      } else {
        assert Inside(Box(at, h, b), Rect(0, 0, w, bottom)) && Inside(Box(sub, h, a), Rect(0, 0, sw, sh));
      }
    }
    forall k | k in r ensures Inside(Box(r, h, k), Rect(0, 0, if sw > w then sw else w, dy + sh)) {
      if k in at {
        assert Inside(Box(at, h, k), Rect(0, 0, w, bottom));
      } else {
        assert Inside(Box(sub, h, k), Rect(0, 0, sw, sh));
      }
    }
  }

  /** The chain's boxes keep their columns and move up or down together. */
  ghost predicate SameColumns(at: Places, c: Chain) {
    && (forall k :: k in c.at ==> k in at && at[k].x == c.at[k].x)
    && forall k, m :: k in c.at && m in c.at ==> at[k].y - c.at[k].y == at[m].y - c.at[m].y
  }

  lemma ColumnsKept(at: Places, more: Places, c: Chain)
    requires SameColumns(at, c) && forall k :: k in at ==> k in more && more[k] == at[k]
    ensures SameColumns(more, c)
  {
  }

  /** A chain's nodes at their place in the section. */
  method PutChain(at0: Places, cl: Chain, curY: int, ghost h: Heights) returns (at: Places)
    requires GoodChain(cl, h) && forall k :: k in cl.comp ==> k !in at0
    ensures at.Keys == at0.Keys + cl.at.Keys && at0.Keys !! cl.at.Keys
    ensures forall k :: k in at0 ==> at[k] == at0[k]
    ensures forall k :: k in cl.at ==> at[k] == Pos(cl.at[k].x, curY + cl.at[k].y)
    ensures SameColumns(at, cl)
  {
    hide AllApart, AllInside;
    at := at0;
    for j := 0 to |cl.comp|
      invariant at.Keys == at0.Keys + Elems(cl.comp[..j])
      invariant forall k :: k in at0 ==> k in at && at[k] == at0[k]
      invariant forall k :: k in cl.comp[..j] ==> k in at && at[k] == Pos(cl.at[k].x, curY + cl.at[k].y)
    {
      var k := cl.comp[j];
      assert k in cl.comp && cl.comp[..j + 1] == cl.comp[..j] + [k];
      at := at[k := Pos(cl.at[k].x, curY + cl.at[k].y)];
    }
    assert cl.comp[..|cl.comp|] == cl.comp;
    assert Elems(cl.comp) == cl.at.Keys;
  }

  method StackChains(cs: seq<Chain>, h: Heights) returns (at: Places, w: int, blockH: int)
    requires SeparateChains(cs) && forall i :: 0 <= i < |cs| ==> GoodChain(cs[i], h)
    ensures Packed(at, h, w, blockH) && w >= 0 && blockH >= 0
    ensures forall k :: k in at <==> exists i :: 0 <= i < |cs| && k in cs[i].comp
    ensures forall i :: 0 <= i < |cs| ==> SameColumns(at, cs[i])
    ensures Stacked(at, h, cs) && (cs == [] ==> blockH == 0)
  {
    hide Packed, AllApart, AllInside, SameColumns, Stacked;
    at, w := map[], 0;
    var curY := 0;
    NothingPacked(h);
    OneStacked(at, h, []);
    for i := 0 to |cs|
      invariant Stacked(at, h, cs[..i])
      invariant w >= 0 && curY >= 0 && (i == 0 ==> curY == 0) && (i > 0 ==> curY >= CHAIN_GAP_Y)
      invariant Packed(at, h, w, if i == 0 then 0 else curY - CHAIN_GAP_Y)
      invariant forall k :: k in at <==> exists j :: 0 <= j < i && k in cs[j].comp
      invariant forall j :: 0 <= j < i ==> SameColumns(at, cs[j])
    {
      var cl := cs[i];
      assert GoodChain(cl, h);
      var more := PutChain(at, cl, curY, h);
      forall j | 0 <= j < i ensures SameColumns(more, cs[j]) {
        ColumnsKept(at, more, cs[j]);
      }
      if i == 0 {
        OneStacked(more, h, cs[..1]);
      } else {
        PackedInside(at, h, w, curY - CHAIN_GAP_Y);
        StackedNext(at, more, h, cs, i, w, curY);
      }
      StackBelow(at, cl.at, more, h, w, if i == 0 then 0 else curY - CHAIN_GAP_Y, curY, cl.w, cl.h);
      at := more;
      curY := curY + cl.h + CHAIN_GAP_Y;
      if cl.w > w {
        w := cl.w;
      }
    }
    assert cs[..|cs|] == cs;
    blockH := 0;
    if |cs| > 0 && curY - CHAIN_GAP_Y > 0 {
      blockH := curY - CHAIN_GAP_Y;
    }
  }

  lemma PackedInside(at: Places, h: Heights, w: int, bottom: int)
    requires Packed(at, h, w, bottom)
    ensures AllInside(at, h, Rect(0, 0, w, bottom))
  {
  }

  lemma NothingPacked(h: Heights)
    ensures Packed(map[], h, 0, 0)
  {
  }

  // ----- single tables in a grid

  /** Boxes of earlier rows end above gy; those of the current row stand side by
      side left of column col. */
  ghost predicate Gridded(sub: Places, h: Heights, cols: nat, col: nat, gy: int, rowMaxH: int) {
    && (forall k :: k in sub ==> k in h)
    && gy >= 0 && rowMaxH >= 0 && col < cols
    && forall k :: k in sub ==>
         && 0 <= sub[k].x && sub[k].x + NODE_W <= cols * LAYER_W + (cols - 1) * NODE_GAP_X && 0 <= sub[k].y
         && (sub[k].y + h[k] + NODE_GAP_Y <= gy ||
             (sub[k].y == gy && h[k] <= rowMaxH && col > 0 &&
              sub[k].x + LAYER_W + NODE_GAP_X <= col * (LAYER_W + NODE_GAP_X)))
  }

  lemma GridNext(sub: Places, h: Heights, cols: nat, col: nat, gy: int, rowMaxH: int, n: Key)
    requires AllApart(sub, h) && Gridded(sub, h, cols, col, gy, rowMaxH) && n in h && n !in sub
    ensures var r := sub[n := Pos(col * (LAYER_W + NODE_GAP_X), gy)];
            var m := if h[n] > rowMaxH then h[n] else rowMaxH;
            && AllApart(r, h)
            && (col + 1 < cols ==> Gridded(r, h, cols, col + 1, gy, m))
            && (col + 1 == cols ==> Gridded(r, h, cols, 0, gy + m + NODE_GAP_Y, 0))
  {
    var r := sub[n := Pos(col * (LAYER_W + NODE_GAP_X), gy)];
    forall a, b | a in r && b in r && a != b ensures Apart(Box(r, h, a), Box(r, h, b)) {
      if a != n && b != n {
        assert Apart(Box(sub, h, a), Box(sub, h, b));
      }
    }
  }

  lemma GridDone(sub: Places, h: Heights, cols: nat, col: nat, gy: int, rowMaxH: int)
    requires AllApart(sub, h) && Gridded(sub, h, cols, col, gy, rowMaxH)
    ensures AllInside(sub, h, Rect(0, 0, cols * LAYER_W + (cols - 1) * NODE_GAP_X, gy + if col > 0 then rowMaxH else 0))
  {
  }

  /** The tables stand as one reads, row by row. */
  ghost predicate Reading(at: Places, s: seq<Key>) {
    && (forall k :: k in s ==> k in at)
    && forall i, j :: 0 <= i < j < |s| ==>
         at[s[i]].y < at[s[j]].y || (at[s[i]].y == at[s[j]].y && at[s[i]].x < at[s[j]].x)
  }

  lemma ReadingNext(sub: Places, h: Heights, cols: nat, col: nat, gy: int, rowMaxH: int, s: seq<Key>, n: Key)
    requires Gridded(sub, h, cols, col, gy, rowMaxH) && Reading(sub, s) && n !in s
    ensures Reading(sub[n := Pos(col * (LAYER_W + NODE_GAP_X), gy)], s + [n])
  {
    var r, more := sub[n := Pos(col * (LAYER_W + NODE_GAP_X), gy)], s + [n];
    forall i | 0 <= i < |s| ensures more[i] == s[i] && more[i] in s && r[more[i]] == sub[s[i]] {
    }
  }

  lemma ReadingMoved(sub: Places, at: Places, s: seq<Key>, dy: int)
    requires Reading(sub, s) && forall k :: k in sub ==> k in at && at[k] == Pos(sub[k].x, dy + sub[k].y)
    ensures Reading(at, s)
  {
    forall i | 0 <= i < |s| ensures s[i] in sub {
      assert s[i] in s;
    }
  }

  lemma NothingRead(sub: Places)
    ensures Reading(sub, [])
  {
  }

  method GridSingles(at0: Places, w0: int, bottom: int, singles: seq<Key>, h: Heights, cols: nat, startY: int)
    returns (at: Places, w: int, blockH: int)
    requires Packed(at0, h, w0, bottom) && w0 >= 0 && 0 <= bottom <= startY && cols >= 1
    requires Distinct(singles) && forall k :: k in singles ==> k in h && k !in at0
    ensures blockH >= 0 && w >= 0 && Packed(at, h, w, startY + blockH)
    ensures forall k :: k in at <==> k in at0 || k in singles
    ensures Reading(at, singles) && forall k :: k in at0 ==> at[k] == at0[k]
  {
    hide Packed, AllApart, Gridded, AllInside, Reading;
    at := at0;
    var col, gy, rowMaxH := 0, 0, 0;
    ghost var sub: Places := map[];
    EmptyGrid(h, cols);
    NothingRead(sub);
    assert singles[..0] == [];
    for i := 0 to |singles|
      invariant 0 <= col < cols && gy >= 0 && rowMaxH >= 0
      invariant AllApart(sub, h) && Gridded(sub, h, cols, col, gy, rowMaxH) && Reading(sub, singles[..i])
      invariant sub.Keys == Elems(singles[..i]) && at.Keys == at0.Keys + sub.Keys
      invariant forall k :: k in at0 ==> k in at && at[k] == at0[k]
      invariant forall k :: k in sub ==> k in at && at[k] == Pos(sub[k].x, startY + sub[k].y)
    {
      var n := singles[i];
      assert n in singles && singles[..i + 1] == singles[..i] + [n] && n !in singles[..i];
      ReadingNext(sub, h, cols, col, gy, rowMaxH, singles[..i], n);
      GridNext(sub, h, cols, col, gy, rowMaxH, n);
      sub := sub[n := Pos(col * (LAYER_W + NODE_GAP_X), gy)];
      at := at[n := Pos(col * (LAYER_W + NODE_GAP_X), startY + gy)];
      if h[n] > rowMaxH {
        rowMaxH := h[n];
      }
      col := col + 1;
      if col >= cols {
        gy := gy + rowMaxH + NODE_GAP_Y;
        rowMaxH := 0;
        col := 0;
      }
    }
    assert singles[..|singles|] == singles;
    ReadingMoved(sub, at, singles, startY);
    blockH := gy + if col > 0 then rowMaxH else 0;
    var gridW := cols * LAYER_W + (cols - 1) * NODE_GAP_X;
    GridDone(sub, h, cols, col, gy, rowMaxH);
    forall k | k in at0 ensures k !in sub {
    }
    StackBelow(at0, sub, at, h, w0, bottom, startY, gridW, blockH);
    w := if gridW > w0 then gridW else w0;
  }

  lemma EmptyGrid(h: Heights, cols: nat)
    requires cols >= 1
    ensures AllApart(map[], h) && Gridded(map[], h, cols, 0, 0, 0)
  {
  }

  // ----- one database

  datatype Section = Section(db: string, nodes: seq<Key>, w: int, h: int, sortDepth: nat, sortSize: nat, at: Places)

  /** The content of a section fits between its paddings, nothing overlapping. */
  ghost predicate GoodSection(s: Section, h: Heights) {
    && s.w >= 2 * DB_PADDING && s.h >= DB_PADDING_TOP + DB_PADDING
    && (forall k :: k in s.at <==> k in s.nodes)
    && Packed(s.at, h, s.w - 2 * DB_PADDING, s.h - DB_PADDING_TOP - DB_PADDING)
  }

  function KindRank(kind: string): nat {
    if kind == "mt" then 0 else if kind == "view" then 1 else if kind == "mv" then 2 else if kind == "rmv" then 3
    else if kind == "dict" then 4 else if kind == "distributed" then 5 else if kind == "other" then 6 else 99
  }

  /** The three orders of the script; `locale` is localeCompare(a, b) < 0. */
  function ChainBefore(locale: (string, string) -> bool): (Chain, Chain) -> bool {
    (a: Chain, b: Chain) =>
      if a.maxDepth != b.maxDepth then a.maxDepth > b.maxDepth
      else if |a.comp| != |b.comp| then |a.comp| > |b.comp|
      else locale(if a.comp == [] then "" else a.comp[0], if b.comp == [] then "" else b.comp[0])
  }

  function SingleBefore(kinds: map<Key, string>, locale: (string, string) -> bool): (Key, Key) -> bool {
    (a: Key, b: Key) =>
      var ra := if a in kinds then KindRank(kinds[a]) else 99;
      var rb := if b in kinds then KindRank(kinds[b]) else 99;
      if ra != rb then ra < rb else locale(a, b)
  }

  /** The kinds of single tables in the order they are shown; any other kind comes last. */
  const KINDS := ["mt", "view", "mv", "rmv", "dict", "distributed", "other"]

  ghost predicate KindNotAfter(a: string, b: string) {
    && (b in KINDS ==> a in KINDS)
    && forall m, n :: 0 <= m < |KINDS| && 0 <= n < |KINDS| && KINDS[m] == a && KINDS[n] == b ==> m <= n
  }

  function KindOf(kinds: map<Key, string>, k: Key): string {
    if k in kinds then kinds[k] else ""
  }

  /** By kind, and by name within a kind. */
  ghost predicate ByKind(s: seq<Key>, kinds: map<Key, string>, locale: (string, string) -> bool) {
    forall i, j :: 0 <= i < j < |s| ==>
      && KindNotAfter(KindOf(kinds, s[i]), KindOf(kinds, s[j]))
      && (KindNotAfter(KindOf(kinds, s[j]), KindOf(kinds, s[i])) && Sorting.Weak(s, locale) ==> !locale(s[j], s[i]))
  }

  lemma KindPlace(a: string)
    ensures KindRank(a) < 7 <==> a in KINDS
    ensures a in KINDS ==> KINDS[KindRank(a)] == a
    ensures a !in KINDS ==> KindRank(a) == 99
  {
  }

  lemma KindsApart(m: nat, n: nat)
    requires m < n < |KINDS|
    ensures KINDS[m] != KINDS[n]
  {
  }

  lemma KindRanks(a: string, b: string)
    ensures KindNotAfter(a, b) <==> KindRank(a) <= KindRank(b)
  {
    KindPlace(a);
    KindPlace(b);
    hide KindRank;
    forall m, n | 0 <= m < n < |KINDS| ensures KINDS[m] != KINDS[n] {
      KindsApart(m, n);
    }
  }

  lemma KindWeak(s: seq<Key>, kinds: map<Key, string>, locale: (string, string) -> bool)
    requires Sorting.Weak(s, locale)
    ensures Sorting.Weak(s, SingleBefore(kinds, locale))
  {
    hide KindRank;
  }

  lemma SortedByKind(singles: seq<Key>, kinds: map<Key, string>, locale: (string, string) -> bool)
    ensures ByKind(Sorting.Sort(singles, SingleBefore(kinds, locale)), kinds, locale)
  {
    hide KindNotAfter;
    var before := SingleBefore(kinds, locale);
    var s := Sorting.Sort(singles, before);
    var high := (a: Key, b: Key) => KindRank(KindOf(kinds, a)) <= KindRank(KindOf(kinds, b));
    NoKind();
    hide KindRank;
    Sorting.SortRanked(singles, before, high);
    Sorting.SortElements(singles, before);
    if Sorting.Weak(s, locale) {
      GraphLayers.SameWeak(s, singles, locale);
      KindWeak(singles, kinds, locale);
      Sorting.SortOrdered(singles, before);
    }
    forall i, j | 0 <= i < j < |s|
      ensures KindNotAfter(KindOf(kinds, s[i]), KindOf(kinds, s[j]))
      ensures KindNotAfter(KindOf(kinds, s[j]), KindOf(kinds, s[i])) && Sorting.Weak(s, locale) ==> !locale(s[j], s[i])
    {
      assert high(s[i], s[j]);
      KindRanks(KindOf(kinds, s[i]), KindOf(kinds, s[j]));
      KindRanks(KindOf(kinds, s[j]), KindOf(kinds, s[i]));
      if Sorting.Weak(s, locale) {
        assert !before(s[j], s[i]);
      }
    }
  }

  lemma NoKind()
    ensures KindRank("") == 99
  {
  }

  function SectionBefore(locale: (string, string) -> bool): (Section, Section) -> bool {
    (a: Section, b: Section) =>
      if a.sortDepth != b.sortDepth then a.sortDepth > b.sortDepth
      else if a.sortSize != b.sortSize then a.sortSize > b.sortSize
      else locale(a.db, b.db)
  }

  /** A chain without cycles runs right. */
  ghost predicate ChainRight(c: Chain, edges: seq<Edge>) {
    GraphLayers.Acyclic(c.comp, edges) ==> RunsRight(c.at, edges, c.comp)
  }

  lemma ChainIsRight(c: Chain, h: Heights, edges: seq<Edge>, depth: map<Key, nat>)
    requires GoodChain(c, h) && InColumns(c.at, depth) && depth.Keys == Elems(c.comp)
    requires GraphLayers.Acyclic(c.comp, edges) ==> forall k :: k in depth ==>
               GraphLayers.Longest(c.comp, edges, k, depth[k])
    ensures ChainRight(c, edges)
  {
    hide RunsRight, InColumns, AllApart, AllInside, GraphLayers.Longest, GraphLayers.Acyclic;
    if GraphLayers.Acyclic(c.comp, edges) {
      ChainRuns(c.comp, edges, c.at, depth);
    }
  }

  /** Every edge between these nodes leads to a column further right. */
  ghost predicate RunsRight(at: Places, edges: seq<Edge>, nodes: seq<Key>) {
    forall u, v :: GraphLayers.Arc(nodes, edges, u, v) ==>
          u in at && v in at && at[u].x + LAYER_W + NODE_GAP_X <= at[v].x
  }

  lemma ChainRuns(comp: seq<Key>, edges: seq<Edge>, at: Places, depth: map<Key, nat>)
    requires InColumns(at, depth) && depth.Keys == Elems(comp) && forall k :: k in comp ==> k in at
    requires forall k :: k in depth ==> GraphLayers.Longest(comp, edges, k, depth[k])
    ensures RunsRight(at, edges, comp)
  {
    forall u, v | GraphLayers.Arc(comp, edges, u, v) ensures at[u].x + LAYER_W + NODE_GAP_X <= at[v].x {
      GraphLayers.EdgesGoDown(comp, edges, depth, u, v);
      assert depth[v] * (LAYER_W + NODE_GAP_X) >= (depth[u] + 1) * (LAYER_W + NODE_GAP_X);
    }
  }

  /** The chain reaches the column of its depth and none further right. */
  ghost predicate Deep(c: Chain) {
    && (forall k :: k in c.at ==> c.at[k].x <= c.maxDepth * (LAYER_W + NODE_GAP_X))
    && (c.maxDepth == 0 || exists k :: k in c.at && c.at[k].x == c.maxDepth * (LAYER_W + NODE_GAP_X))
  }

  lemma ChainIsDeep(c: Chain, depth: map<Key, nat>)
    requires InColumns(c.at, depth) && depth.Keys == Elems(c.comp) && forall k :: k in c.at <==> k in c.comp
    requires forall k :: k in depth ==> depth[k] <= c.maxDepth
    requires c.maxDepth == 0 || exists k :: k in depth && depth[k] == c.maxDepth
    ensures Deep(c)
  {
    forall k | k in c.at ensures c.at[k].x <= c.maxDepth * (LAYER_W + NODE_GAP_X) {
      assert depth[k] <= c.maxDepth;
    }
    if c.maxDepth > 0 {
      var k :| k in depth && depth[k] == c.maxDepth;
      assert k in c.at;
    }
  }

  /** Deeper, or as deep and with as many tables at least. */
  predicate AsLong(a: Chain, b: Chain) {
    a.maxDepth > b.maxDepth || (a.maxDepth == b.maxDepth && |a.comp| >= |b.comp|)
  }

  ghost predicate LongestFirst(cs: seq<Chain>) {
    forall i, j :: 0 <= i < j < |cs| ==> AsLong(cs[i], cs[j])
  }

  lemma SortedLongest(chains: seq<Chain>, locale: (string, string) -> bool)
    ensures LongestFirst(Sorting.Sort(chains, ChainBefore(locale)))
  {
    var high := (a: Chain, b: Chain) => AsLong(a, b);
    Sorting.SortRanked(chains, ChainBefore(locale), high);
    var s := Sorting.Sort(chains, ChainBefore(locale));
    forall i, j | 0 <= i < j < |s| ensures AsLong(s[i], s[j]) {
      assert high(s[i], s[j]);
    }
  }

  /** The one chain's boxes end a gap above where the other's begin. */
  ghost predicate Above(at: Places, h: Heights, a: Chain, b: Chain) {
    && (forall k :: k in a.comp ==> k in at && k in h)
    && (forall k :: k in b.comp ==> k in at)
    && forall k, m :: k in a.comp && m in b.comp ==> at[k].y + h[k] + CHAIN_GAP_Y <= at[m].y
  }

  /** The chains stand one below the other in this order. */
  ghost predicate Stacked(at: Places, h: Heights, cs: seq<Chain>) {
    forall i, j :: 0 <= i < j < |cs| ==> Above(at, h, cs[i], cs[j])
  }

  lemma AboveKept(at: Places, more: Places, h: Heights, a: Chain, b: Chain)
    requires Above(at, h, a, b) && forall k :: k in at ==> k in more && more[k] == at[k]
    ensures Above(more, h, a, b)
  {
  }

  lemma AboveNew(at: Places, more: Places, h: Heights, a: Chain, b: Chain, w: int, curY: int)
    requires AllInside(at, h, Rect(0, 0, w, curY - CHAIN_GAP_Y)) && GoodChain(b, h)
    requires forall k :: k in at ==> k in more && more[k] == at[k]
    requires forall k :: k in a.comp ==> k in at
    requires forall k :: k in b.at ==> k in more && more[k] == Pos(b.at[k].x, curY + b.at[k].y)
    ensures Above(more, h, a, b)
  {
    hide AllApart, AllInside;
    forall k | k in a.comp ensures k in h && at[k].y + h[k] <= curY - CHAIN_GAP_Y {
      BoxEnds(at, h, w, curY - CHAIN_GAP_Y, k);
    }
    forall m | m in b.comp ensures m in b.at && b.at[m].y >= 0 {
      BoxEnds(b.at, h, b.w, b.h, m);
    }
  }

  lemma BoxEnds(at: Places, h: Heights, w: int, bottom: int, k: Key)
    requires AllInside(at, h, Rect(0, 0, w, bottom)) && k in at
    ensures k in h && 0 <= at[k].y && at[k].y + h[k] <= bottom
  {
    assert Inside(Box(at, h, k), Rect(0, 0, w, bottom));
  }

  lemma {:induction false} StackedNext(at: Places, more: Places, h: Heights, cs: seq<Chain>, i: nat, w: int, curY: int)
    requires i < |cs| && Stacked(at, h, cs[..i]) && AllInside(at, h, Rect(0, 0, w, curY - CHAIN_GAP_Y))
    requires GoodChain(cs[i], h) && forall k :: k in at ==> k in more && more[k] == at[k]
    requires forall k :: k in at <==> exists j :: 0 <= j < i && k in cs[j].comp
    requires forall k :: k in cs[i].at ==> k in more && more[k] == Pos(cs[i].at[k].x, curY + cs[i].at[k].y)
    ensures Stacked(more, h, cs[..i + 1])
  {
    hide AllApart, AllInside, Above, GoodChain;
    forall a, b | 0 <= a < b < i + 1 ensures Above(more, h, cs[a], cs[b]) {
      if b < i {
        assert Above(at, h, cs[..i][a], cs[..i][b]);
        AboveKept(at, more, h, cs[a], cs[b]);
      } else {
        AboveNew(at, more, h, cs[a], cs[b], w, curY);
      }
    }
  }

  lemma OneStacked(at: Places, h: Heights, cs: seq<Chain>)
    requires |cs| <= 1
    ensures Stacked(at, h, cs)
  {
  }

  /** The columns of the chain, from top to bottom, are in the order of least crossings
      the eight rounds arrive at. */
  ghost predicate Faced(c: Chain, edges: seq<Edge>, h: Heights, byName: (Key, Key) -> bool) {
    exists layers: map<nat, seq<Key>> ::
      && GraphLayers.Uncrossed(layers, c.maxDepth, c.comp, edges, byName)
      && forall d :: 0 <= d <= c.maxDepth ==> Column(c, d, h, GraphLayers.At(layers, d))
  }

  ghost predicate Column(c: Chain, d: nat, h: Heights, layer: seq<Key>) {
    && Below(c.at, h, layer)
    && forall k :: k in layer <==> k in c.at && c.at[k].x == d * (LAYER_W + NODE_GAP_X)
  }

  lemma ChainIsFaced(c: Chain, edges: seq<Edge>, h: Heights, byName: (Key, Key) -> bool, layers: map<nat, seq<Key>>,
                     depth: map<Key, nat>)
    requires GraphLayers.Uncrossed(layers, c.maxDepth, c.comp, edges, byName) && InColumns(c.at, depth)
    requires forall d :: 0 <= d <= c.maxDepth ==> Below(c.at, h, GraphLayers.At(layers, d))
    requires forall k :: k in c.at <==> exists d :: 0 <= d <= c.maxDepth && d in layers && k in layers[d]
    requires forall d, k :: d in layers && k in layers[d] ==> k in depth && depth[k] == d
    ensures Faced(c, edges, h, byName)
  {
    hide Below, GraphLayers.Uncrossed;
    forall d | 0 <= d <= c.maxDepth ensures Column(c, d, h, GraphLayers.At(layers, d)) {
      var layer := GraphLayers.At(layers, d);
      forall k | k in c.at && c.at[k].x == d * (LAYER_W + NODE_GAP_X) ensures k in layer {
        var e :| 0 <= e <= c.maxDepth && e in layers && k in layers[e];
        SameColumn(d, e);
      }
    }
  }

  lemma SameColumn(d: nat, e: nat)
    requires d * (LAYER_W + NODE_GAP_X) == e * (LAYER_W + NODE_GAP_X)
    ensures d == e
  {
  }

  /** The layered layout of each chain; without cycles its edges run right. */
  method LayoutChains(groups: seq<seq<Key>>, edges: seq<Edge>, h: Heights, byName: (Key, Key) -> bool)
    returns (chains: seq<Chain>)
    requires forall i :: 0 <= i < |groups| ==> Distinct(groups[i])
    requires forall i, k :: 0 <= i < |groups| && k in groups[i] ==> k in h
    ensures |chains| == |groups|
    ensures forall i :: 0 <= i < |chains| ==> GoodChain(chains[i], h) && chains[i].comp == groups[i]
    ensures forall i :: 0 <= i < |chains| ==> ChainRight(chains[i], edges) && Deep(chains[i])
    ensures forall i :: 0 <= i < |chains| ==> Faced(chains[i], edges, h, byName)
  {
    hide Deep, Faced, Below, GraphLayers.Uncrossed;
    hide GoodChain, ChainRight, InColumns, AllApart, AllInside, OncePerLayer, Distinct, GraphLayers.SameGroups;
    hide GraphLayers.Acyclic, GraphLayers.Longest;
    chains := [];
    for i := 0 to |groups|
      invariant |chains| == i
      invariant forall j :: 0 <= j < i ==> GoodChain(chains[j], h) && chains[j].comp == groups[j]
      invariant forall j :: 0 <= j < i ==> ChainRight(chains[j], edges) && Deep(chains[j])
      invariant forall j :: 0 <= j < i ==> Faced(chains[j], edges, h, byName)
    {
      var layers, maxDepth, depth := GraphLayers.LayoutDatabase(groups[i], edges, byName);
      LayersOnce(groups[i], layers, depth, maxDepth);
      var at, w, height := PlaceChain(layers, maxDepth, h, depth);
      var c := Chain(groups[i], maxDepth, w, height, at);
      NewChain(c, h, edges, layers, depth);
      ChainIsFaced(c, edges, h, byName, layers, depth);
      chains := chains + [c];
    }
  }

  lemma NewChain(c: Chain, h: Heights, edges: seq<Edge>, layers: map<nat, seq<Key>>, depth: map<Key, nat>)
    requires c.w >= 0 && c.h >= 0 && AllApart(c.at, h) && AllInside(c.at, h, Rect(0, 0, c.w, c.h))
    requires forall k :: k in c.at <==> exists d :: 0 <= d <= c.maxDepth && d in layers && k in layers[d]
    requires forall d, k :: d in layers && k in layers[d] ==> k in c.comp
    requires forall k :: k in c.comp ==> exists d :: 0 <= d <= c.maxDepth && d in layers && k in layers[d]
    requires InColumns(c.at, depth) && depth.Keys == Elems(c.comp)
    requires GraphLayers.Acyclic(c.comp, edges) ==>
               forall k :: k in depth ==> GraphLayers.Longest(c.comp, edges, k, depth[k])
    requires forall k :: k in depth ==> depth[k] <= c.maxDepth
    requires c.maxDepth == 0 || exists k :: k in depth && depth[k] == c.maxDepth
    ensures GoodChain(c, h) && ChainRight(c, edges) && Deep(c)
  {
    hide GoodChain, ChainRight, Deep, InColumns, AllApart, AllInside, Elems, GraphLayers.Acyclic, GraphLayers.Longest;
    ChainIsGood(c, h, layers, depth);
    ChainIsRight(c, h, edges, depth);
    ChainKeys(c, h);
    ChainIsDeep(c, depth);
  }

  lemma ChainKeys(c: Chain, h: Heights)
    requires GoodChain(c, h)
    ensures forall k :: k in c.at <==> k in c.comp
  {
  }

  lemma LayersOnce(nodes: seq<Key>, layers: map<nat, seq<Key>>, depth: map<Key, nat>, maxDepth: nat)
    requires Distinct(nodes) && depth.Keys == Elems(nodes) && GraphLayers.SameGroups(layers, nodes, depth)
    requires forall k :: k in depth ==> depth[k] <= maxDepth
    ensures OncePerLayer(layers)
    ensures forall d, k :: d in layers && k in layers[d] ==> k in nodes && k in depth && depth[k] == d
    ensures forall k :: k in nodes ==> exists d :: 0 <= d <= maxDepth && d in layers && k in layers[d]
  {
    forall d | d in layers
      ensures Distinct(layers[d])
      ensures forall k :: k in layers[d] <==> k in nodes && k in depth && depth[k] == d
    {
      var g := GraphLayers.Group(nodes, depth, d);
      GraphLayers.GroupMembers(nodes, depth, d);
      assert forall k :: k in layers[d] <==> k in multiset(layers[d]);
      assert forall k :: k in g <==> k in multiset(g);
      DistinctSame(g, layers[d]);
    }
    forall k | k in nodes ensures exists d :: 0 <= d <= maxDepth && d in layers && k in layers[d] {
      assert k in Elems(nodes);
      assert depth[k] in layers;
    }
  }

  lemma DistinctOnce(s: seq<Key>, k: Key)
    requires Distinct(s)
    ensures multiset(s)[k] <= 1
  {
    if multiset(s)[k] >= 2 {
      var i, j := TwoPlaces(s, k);
    }
  }

  lemma DistinctSame(a: seq<Key>, b: seq<Key>)
    requires Distinct(a) && multiset(a) == multiset(b)
    ensures Distinct(b)
  {
    forall i, j | 0 <= i < j < |b| ensures b[i] != b[j] {
      DistinctOnce(a, b[i]);
      if b[i] == b[j] {
        TwiceCount(b, i, j);
      }
    }
  }

  lemma TwiceCount<T>(s: seq<T>, i: nat, j: nat)
    requires i < j < |s| && s[i] == s[j]
    ensures multiset(s)[s[i]] >= 2
  {
    var a, b := s[..j], s[j..];
    assert s == a + b && a[i] == s[i] && b[0] == s[j];
    assert s[i] in multiset(a) && s[i] in multiset(b);
  }

  lemma {:induction false} TwoPlaces<T>(s: seq<T>, a: T) returns (i: nat, j: nat)
    requires multiset(s)[a] >= 2
    ensures i < j < |s| && s[i] == a && s[j] == a
  {
    var r := s[1..];
    assert s == [s[0]] + r;
    if s[0] == a {
      assert a in multiset(r);
      var y :| 0 <= y < |r| && r[y] == a;
      i, j := 0, y + 1;
    } else {
      assert multiset(r)[a] >= 2;
      i, j := TwoPlaces(r, a);
      i, j := i + 1, j + 1;
    }
  }

  lemma ChainIsGood(c: Chain, h: Heights, layers: map<nat, seq<Key>>, depth: map<Key, nat>)
    requires c.w >= 0 && c.h >= 0 && AllApart(c.at, h) && AllInside(c.at, h, Rect(0, 0, c.w, c.h))
    requires forall k :: k in c.at <==> exists d :: 0 <= d <= c.maxDepth && d in layers && k in layers[d]
    requires forall d, k :: d in layers && k in layers[d] ==> k in c.comp
    requires forall k :: k in c.comp ==> exists d :: 0 <= d <= c.maxDepth && d in layers && k in layers[d]
    ensures GoodChain(c, h)
  {
    hide AllApart, AllInside;
  }

  ghost predicate Foreign(a: seq<Key>, b: seq<Key>) {
    forall k :: k in a ==> k !in b
  }

  lemma ForeignChains(chains: seq<Chain>, i: nat, j: nat)
    requires SeparateChains(chains) && i < j < |chains|
    ensures Foreign(chains[i].comp, chains[j].comp)
  {
  }

  /** Sorting the chains keeps them good and separate. */
  lemma SortedChains(chains: seq<Chain>, before: (Chain, Chain) -> bool, h: Heights)
    requires SeparateChains(chains) && forall i :: 0 <= i < |chains| ==> GoodChain(chains[i], h)
    ensures var sorted := Sorting.Sort(chains, before);
            && SeparateChains(sorted)
            && (forall i :: 0 <= i < |sorted| ==> GoodChain(sorted[i], h))
            && forall c :: c in sorted <==> c in chains
  {
    hide GoodChain;
    var sorted := Sorting.Sort(chains, before);
    Sorting.SortElements(chains, before);
    var apart := (a: Chain, b: Chain) => Foreign(a.comp, b.comp);
    forall i, j | 0 <= i < j < |chains| ensures apart(chains[i], chains[j]) {
      ForeignChains(chains, i, j);
    }
    Sorting.SortPairwise(chains, before, apart);
    forall i | 0 <= i < |sorted| ensures GoodChain(sorted[i], h) {
      assert sorted[i] in chains;
    }
    forall i, j, k | 0 <= i < j < |sorted| && k in sorted[i].comp ensures k !in sorted[j].comp {
      assert apart(sorted[i], sorted[j]);
    }
  }
}
