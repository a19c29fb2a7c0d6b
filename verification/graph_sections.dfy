/** The outer half of layoutAll: one section per database with its chains from top to
    bottom, longest first, and its single tables below; the sections in rows, in the
    same order. */
module GraphSections {
  import opened GraphComponents
  import GraphLayers
  import opened GraphLayout
  import Sorting

  /** A database and the keys of its tables. */
  datatype Database = Database(name: string, tables: seq<Key>)

  // ----- chains and single tables

  function Chained(comps: seq<seq<Key>>): seq<seq<Key>> {
    if comps == [] then []
    else
      var r := Chained(comps[..|comps| - 1]);
      if |comps[|comps| - 1]| == 1 then r else r + [comps[|comps| - 1]]
  }

  function Alone(comps: seq<seq<Key>>): seq<Key> {
    if comps == [] then []
    else
      var r := Alone(comps[..|comps| - 1]);
      if |comps[|comps| - 1]| == 1 then r + [comps[|comps| - 1][0]] else r
  }

  function Flat(groups: seq<seq<Key>>): seq<Key> {
    if groups == [] then [] else Flat(groups[..|groups| - 1]) + groups[|groups| - 1]
  }

  lemma {:induction false} FlatMembers(groups: seq<seq<Key>>)
    ensures forall k :: k in Flat(groups) <==> exists i :: 0 <= i < |groups| && k in groups[i]
  {
    if groups != [] {
      var n := |groups| - 1;
      FlatMembers(groups[..n]);
      forall k ensures k in Flat(groups) <==> exists i :: 0 <= i < |groups| && k in groups[i] {
        if k in Flat(groups[..n]) {
          var i :| 0 <= i < n && k in groups[..n][i];
          assert k in groups[i];
        }
        if exists i :: 0 <= i < |groups| && k in groups[i] {
          var i :| 0 <= i < |groups| && k in groups[i];
          if i < n {
            assert k in groups[..n][i];
          }
        }
      }
    }
  }

  /** Groups of which no two share a node. */
  ghost predicate Separate(groups: seq<seq<Key>>) {
    forall i, j :: 0 <= i < j < |groups| ==> Foreign(groups[i], groups[j])
  }

  ghost predicate EachDistinct(groups: seq<seq<Key>>) {
    forall i :: 0 <= i < |groups| ==> groups[i] != [] && Distinct(groups[i])
  }

  /** The split puts every node in a chain or among the single ones, never both. */
  ghost predicate SplitOf(comps: seq<seq<Key>>, groups: seq<seq<Key>>, singles: seq<Key>) {
    && Separate(groups) && EachDistinct(groups) && Distinct(singles)
    && (forall i :: 0 <= i < |groups| ==> groups[i] in comps && Foreign(groups[i], singles))
    && (forall k :: k in singles ==> [k] in comps)
    && (forall c :: c in comps ==> c in groups || (|c| == 1 && c[0] in singles))
  }

  lemma SplitNext(comps: seq<seq<Key>>, groups: seq<seq<Key>>, singles: seq<Key>, c: seq<Key>)
    requires SplitOf(comps, groups, singles) && c != [] && Distinct(c)
    requires forall d :: d in comps ==> Foreign(d, c)
    ensures |c| == 1 ==> SplitOf(comps + [c], groups, singles + c)
    ensures |c| != 1 ==> SplitOf(comps + [c], groups + [c], singles)
  {
    forall k | k in singles ensures k !in c {
      assert Foreign([k], c);
      assert k in [k];
    }
    if |c| == 1 {
      var s := singles + c;
      assert c == [c[0]];
      forall i, j | 0 <= i < j < |s| ensures s[i] != s[j] {
        if j == |singles| { assert singles[i] in singles; }
      }
      forall i | 0 <= i < |groups| ensures groups[i] in comps + [c] && Foreign(groups[i], s) {
        assert Foreign(groups[i], c);
      }
    } else {
      var g := groups + [c];
      forall i, j | 0 <= i < j < |g| ensures Foreign(g[i], g[j]) {
        if j == |groups| {
          assert groups[i] in comps;
        }
      }
      forall d | d in comps + [c] ensures d in g || (|d| == 1 && d[0] in singles) {
      }
    }
  }

  lemma NothingSplit()
    ensures SplitOf([], [], [])
  {
  }

  lemma LastForeign(comps: seq<seq<Key>>, n: nat)
    requires EachDistinct(comps) && Separate(comps) && |comps| == n + 1
    ensures EachDistinct(comps[..n]) && Separate(comps[..n]) && comps[n] != [] && Distinct(comps[n])
    ensures forall d :: d in comps[..n] ==> Foreign(d, comps[n])
  {
    hide Foreign;
    var r := comps[..n];
    forall i, j | 0 <= i < j < n ensures Foreign(r[i], r[j]) {
      assert Foreign(comps[i], comps[j]);
    }
    forall d | d in r ensures Foreign(d, comps[n]) {
      var i :| 0 <= i < n && r[i] == d;
      assert Foreign(comps[i], comps[n]);
    }
  }

  lemma {:induction false} Splits(comps: seq<seq<Key>>)
    requires EachDistinct(comps) && Separate(comps)
    ensures SplitOf(comps, Chained(comps), Alone(comps))
  {
    hide SplitOf, EachDistinct, Separate, Foreign, Distinct;
    if comps == [] {
      NothingSplit();
    } else {
      var n := |comps| - 1;
      var r, c := comps[..n], comps[n];
      LastForeign(comps, n);
      Splits(r);
      SplitNext(r, Chained(r), Alone(r), c);
      assert comps == r + [c];
      assert |c| == 1 ==> c == [c[0]];
    }
  }

  method SplitGroups(comps: seq<seq<Key>>) returns (groups: seq<seq<Key>>, singles: seq<Key>)
    ensures groups == Chained(comps) && singles == Alone(comps)
  {
    groups, singles := [], [];
    for i := 0 to |comps|
      invariant groups == Chained(comps[..i]) && singles == Alone(comps[..i])
    {
      var comp := comps[i];
      assert comps[..i + 1][..i] == comps[..i];
      if |comp| == 1 {
        singles := singles + [comp[0]];
      } else {
        groups := groups + [comp];
      }
    }
    assert comps[..|comps|] == comps;
  }

  lemma ComponentGroups(nodes: seq<Key>, edges: seq<Edge>, comps: seq<seq<Key>>)
    requires Components(nodes, edges, comps)
    ensures EachDistinct(comps) && Separate(comps)
  {
  }

  /** Chains and single ones together are the database's tables. */
  lemma SplitAll(nodes: seq<Key>, comps: seq<seq<Key>>, groups: seq<seq<Key>>, singles: seq<Key>)
    requires AllOf(comps) == Elems(nodes) && SplitOf(comps, groups, singles)
    ensures forall k :: k in nodes <==> k in Flat(groups) || k in singles
  {
    hide SplitOf, AllOf, Flat;
    forall k ensures k in nodes <==> k in Flat(groups) || k in singles {
      InSplit(comps, groups, singles, k);
      assert k in nodes <==> k in Elems(nodes);
    }
  }

  lemma InSplit(comps: seq<seq<Key>>, groups: seq<seq<Key>>, singles: seq<Key>, k: Key)
    requires SplitOf(comps, groups, singles)
    ensures k in AllOf(comps) <==> k in Flat(groups) || k in singles
  {
    hide Separate, EachDistinct, Distinct, Foreign, Flat;
    FlatMembers(groups);
    if k in AllOf(comps) {
      var c :| c in comps && k in c;
      if c in groups {
        var i :| 0 <= i < |groups| && groups[i] == c;
      }
    }
    if k in Flat(groups) {
      var i :| 0 <= i < |groups| && k in groups[i];
      assert groups[i] in comps;
    }
    if k in singles {
      assert [k] in comps && k in [k];
    }
  }

  // ----- one section

  function MaxCols(viewportW: int): (m: nat)
    requires viewportW >= LAYER_W
    ensures m >= 1
  {
    var m := (viewportW - 2 * DB_PADDING + NODE_GAP_X) / (LAYER_W + NODE_GAP_X);
    if m < 1 then 1 else m
  }

  function GridSectionW(cols: nat): int {
    cols * LAYER_W + (cols - 1) * NODE_GAP_X + 2 * DB_PADDING
  }

  /** The column cap keeps a section of single tables within the viewport, whatever
      column count below the cap is taken, exactly when one column fits at all. */
  lemma GridFits(viewportW: int)
    requires viewportW >= LAYER_W
    ensures (forall cols: nat :: 1 <= cols <= MaxCols(viewportW) ==> GridSectionW(cols) <= viewportW)
            <==> viewportW >= LAYER_W + 2 * DB_PADDING
  {
    assert GridSectionW(1) == LAYER_W + 2 * DB_PADDING;
    forall cols: nat | viewportW >= LAYER_W + 2 * DB_PADDING && 1 <= cols <= MaxCols(viewportW)
      ensures GridSectionW(cols) <= viewportW
    {
      assert GridSectionW(cols) == cols * (LAYER_W + NODE_GAP_X) - NODE_GAP_X + 2 * DB_PADDING;
    }
  }

  /** Nodes whose edges have no cycle stand so that the edges run right. */
  ghost predicate GroupRight(at: Places, edges: seq<Edge>, nodes: seq<Key>) {
    GraphLayers.Acyclic(nodes, edges) ==> RunsRight(at, edges, nodes)
  }

  lemma GroupRuns(at: Places, edges: seq<Edge>, c: Chain, h: Heights)
    requires GoodChain(c, h) && ChainRight(c, edges) && SameColumns(at, c)
    ensures GroupRight(at, edges, c.comp)
  {
    hide AllApart, AllInside, GraphLayers.Acyclic;
    if GraphLayers.Acyclic(c.comp, edges) {
      forall u, v | GraphLayers.Arc(c.comp, edges, u, v)
        ensures u in at && v in at && at[u].x + LAYER_W + NODE_GAP_X <= at[v].x
      {
        assert u in c.at && v in c.at;
      }
    }
  }

  lemma GroupKept(at: Places, more: Places, edges: seq<Edge>, nodes: seq<Key>)
    requires GroupRight(at, edges, nodes) && forall k :: k in at ==> k in more && more[k] == at[k]
    ensures GroupRight(more, edges, nodes)
  {
  }

  lemma WalkWithin(part: seq<Key>, nodes: seq<Key>, edges: seq<Edge>, p: seq<Key>)
    requires GraphLayers.IsWalk(part, edges, p) && forall k :: k in part ==> k in nodes
    ensures GraphLayers.IsWalk(nodes, edges, p)
  {
    forall i | 0 <= i < |p| - 1 ensures GraphLayers.Arc(nodes, edges, p[i], p[i + 1]) {
      assert GraphLayers.Arc(part, edges, p[i], p[i + 1]);
    }
  }

  lemma AcyclicWithin(part: seq<Key>, nodes: seq<Key>, edges: seq<Edge>)
    requires GraphLayers.Acyclic(nodes, edges) && forall k :: k in part ==> k in nodes
    ensures GraphLayers.Acyclic(part, edges)
  {
    forall p | GraphLayers.IsWalk(part, edges, p) && |p| > 1 ensures p[0] != p[|p| - 1] {
      WalkWithin(part, nodes, edges, p);
    }
  }

  /** The two ends of an edge are in one chain. */
  lemma EndsTogether(nodes: seq<Key>, edges: seq<Edge>, comps: seq<seq<Key>>, u: Key, v: Key) returns (i: nat)
    requires Components(nodes, edges, comps) && AllOf(comps) == Elems(nodes) && GraphLayers.Arc(nodes, edges, u, v)
    ensures i < |comps| && u in comps[i] && v in comps[i]
  {
    assert u in Elems(nodes) && u in AllOf(comps);
    var c :| c in comps && u in c;
    i :| 0 <= i < |comps| && comps[i] == c;
    JoinedSelf(nodes, edges, u);
    assert Linked(nodes, edges, u, v);
    JoinedStep(nodes, edges, u, u, v);
    SameGroup(nodes, edges, comps, i, u, v);
  }

  lemma ComponentWithin(nodes: seq<Key>, edges: seq<Edge>, comps: seq<seq<Key>>, i: nat)
    requires Components(nodes, edges, comps) && i < |comps|
    ensures forall k :: k in comps[i] ==> k in nodes
  {
    assert IsComponent(nodes, edges, comps[i][0], comps[i]);
  }

  lemma TwoNodes(comps: seq<seq<Key>>, groups: seq<seq<Key>>, singles: seq<Key>, c: seq<Key>, u: Key, v: Key)
    returns (j: nat)
    requires SplitOf(comps, groups, singles) && c in comps && u in c && v in c && u != v
    ensures j < |groups| && groups[j] == c
  {
    assert c in groups;
    j :| 0 <= j < |groups| && groups[j] == c;
  }

  /** A database without cycles runs right as a whole: its edges stay within its chains. */
  lemma DatabaseRuns(nodes: seq<Key>, edges: seq<Edge>, comps: seq<seq<Key>>, groups: seq<seq<Key>>, singles: seq<Key>,
                     at: Places)
    requires Components(nodes, edges, comps) && AllOf(comps) == Elems(nodes) && SplitOf(comps, groups, singles)
    requires forall j :: 0 <= j < |groups| ==> GroupRight(at, edges, groups[j])
    ensures GroupRight(at, edges, nodes)
  {
    hide Components, AllOf, Elems, SplitOf, GraphLayers.Acyclic;
    if GraphLayers.Acyclic(nodes, edges) {
      forall u, v | GraphLayers.Arc(nodes, edges, u, v)
        ensures u in at && v in at && at[u].x + LAYER_W + NODE_GAP_X <= at[v].x
      {
        var i := EndsTogether(nodes, edges, comps, u, v);
        NoLoop(nodes, edges, u, v);
        var j := TwoNodes(comps, groups, singles, comps[i], u, v);
        ComponentWithin(nodes, edges, comps, i);
        AcyclicWithin(groups[j], nodes, edges);
        assert GraphLayers.Arc(groups[j], edges, u, v);
      }
    }
  }

  lemma NoLoop(nodes: seq<Key>, edges: seq<Edge>, u: Key, v: Key)
    requires GraphLayers.Acyclic(nodes, edges) && GraphLayers.Arc(nodes, edges, u, v)
    ensures u != v
  {
    assert GraphLayers.IsWalk(nodes, edges, [u, v]);
  }

  lemma SameNodesRight(at: Places, edges: seq<Edge>, nodes: seq<Key>, others: seq<Key>)
    requires GroupRight(at, edges, nodes) && forall k :: k in others <==> k in nodes
    ensures GroupRight(at, edges, others)
  {
    hide GraphLayers.Acyclic;
    if GraphLayers.Acyclic(others, edges) {
      AcyclicWithin(nodes, others, edges);
      forall u, v | GraphLayers.Arc(others, edges, u, v)
        ensures u in at && v in at && at[u].x + LAYER_W + NODE_GAP_X <= at[v].x
      {
        assert GraphLayers.Arc(nodes, edges, u, v);
      }
    }
  }

  /** The chains stand one below the other, longest first, each in the columns of
      its depths. */
  ghost predicate InOrder(at: Places, h: Heights, chains: seq<Chain>) {
    && LongestFirst(chains) && Stacked(at, h, chains)
    && forall c :: c in chains ==> Deep(c) && SameColumns(at, c)
  }

  lemma {:induction false} StackedKept(at: Places, more: Places, h: Heights, chains: seq<Chain>)
    requires Stacked(at, h, chains) && forall k :: k in at ==> k in more && more[k] == at[k]
    ensures Stacked(more, h, chains)
  {
    hide Above;
    forall i, j | 0 <= i < j < |chains| ensures Above(more, h, chains[i], chains[j]) {
      AboveKept(at, more, h, chains[i], chains[j]);
    }
  }

  lemma OrderKept(at: Places, more: Places, h: Heights, chains: seq<Chain>)
    requires InOrder(at, h, chains) && forall k :: k in at ==> k in more && more[k] == at[k]
    ensures InOrder(more, h, chains)
  {
    hide Deep, LongestFirst;
    StackedKept(at, more, h, chains);
    forall c | c in chains ensures SameColumns(more, c) {
      ColumnsKept(at, more, c);
    }
  }

  ghost predicate AllFaced(chains: seq<Chain>, edges: seq<Edge>, h: Heights, locale: (string, string) -> bool) {
    forall c :: c in chains ==> Faced(c, edges, h, locale)
  }

  /** The linked tables of a database are in chains. */
  ghost predicate InChains(nodes: seq<Key>, edges: seq<Edge>, chains: seq<Chain>) {
    forall u, v :: GraphLayers.Arc(nodes, edges, u, v) && u != v ==>
          exists c :: c in chains && u in c.comp && v in c.comp
  }

  lemma LinkedInChains(nodes: seq<Key>, edges: seq<Edge>, comps: seq<seq<Key>>, groups: seq<seq<Key>>,
                       singles: seq<Key>, chains: seq<Chain>)
    requires Components(nodes, edges, comps) && AllOf(comps) == Elems(nodes) && SplitOf(comps, groups, singles)
    requires forall i :: 0 <= i < |groups| ==> exists c :: c in chains && c.comp == groups[i]
    ensures InChains(nodes, edges, chains)
  {
    hide Components, AllOf, Elems, SplitOf;
    forall u, v | GraphLayers.Arc(nodes, edges, u, v) && u != v
      ensures exists c :: c in chains && u in c.comp && v in c.comp
    {
      var i := EndsTogether(nodes, edges, comps, u, v);
      var j := TwoNodes(comps, groups, singles, comps[i], u, v);
      var c :| c in chains && c.comp == groups[j];
      assert u in c.comp && v in c.comp;
    }
  }

  function TopDepth(chains: seq<Chain>): nat {
    if chains == [] then 0 else chains[0].maxDepth
  }

  /** The chains of one database, longest first, on top of each other. */
  method PlaceChains(groups: seq<seq<Key>>, edges: seq<Edge>, h: Heights, locale: (string, string) -> bool)
    returns (at: Places, w: int, blockH: int, topDepth: nat, ghost sorted: seq<Chain>)
    requires Separate(groups) && forall i :: 0 <= i < |groups| ==> Distinct(groups[i])
    requires forall i, k :: 0 <= i < |groups| && k in groups[i] ==> k in h
    ensures Packed(at, h, w, blockH) && w >= 0 && blockH >= 0
    ensures forall k :: k in at <==> k in Flat(groups)
    ensures groups == [] ==> blockH == 0 && topDepth == 0
    ensures forall i :: 0 <= i < |groups| ==> GroupRight(at, edges, groups[i])
    ensures InOrder(at, h, sorted) && topDepth == TopDepth(sorted) && |sorted| == |groups|
    ensures AllFaced(sorted, edges, h, locale)
    ensures forall i :: 0 <= i < |groups| ==> exists c :: c in sorted && c.comp == groups[i]
  {
    hide Deep, LongestFirst, Stacked, AsLong, Faced;
    hide GoodChain, SeparateChains, Packed, Distinct, Separate, Flat, ChainRight, SameColumns, GroupRight;
    var chains := LayoutChains(groups, edges, h, locale);
    ChainsApart(groups, chains);
    var byDepth := ChainBefore(locale);
    SortedChains(chains, byDepth, h);
    SortedLongest(chains, locale);
    var stack := Sorting.Sort(chains, byDepth);
    sorted := stack;
    SortedMembers(groups, chains, sorted);
    assert |sorted| == |groups|;
    at, w, blockH := StackChains(stack, h);
    assert groups == [] ==> sorted == [];
    forall c | c in sorted ensures Deep(c) && SameColumns(at, c) && Faced(c, edges, h, locale) {
      var i :| 0 <= i < |sorted| && sorted[i] == c;
      var j :| 0 <= j < |chains| && chains[j] == c;
    }
    forall i | 0 <= i < |groups| ensures GroupRight(at, edges, groups[i]) {
      assert chains[i] in sorted;
      var j :| 0 <= j < |sorted| && sorted[j] == chains[i];
      GroupRuns(at, edges, sorted[j], h);
    }
    topDepth := if |stack| > 0 then stack[0].maxDepth else 0;
  }

  /** The single tables of one database, by kind and name, below its chains. */
  method PlaceSingles(at0: Places, w0: int, bottom: int, singles: seq<Key>, h: Heights, kinds: map<Key, string>,
                      viewportW: int, startY: int, locale: (string, string) -> bool)
    returns (at: Places, w: int, blockH: int, sorted: seq<Key>)
    requires viewportW >= LAYER_W && Packed(at0, h, w0, bottom) && w0 >= 0 && 0 <= bottom <= startY
    requires Distinct(singles) && forall k :: k in singles ==> k in h && k !in at0
    ensures blockH >= 0 && w >= 0 && Packed(at, h, w, startY + blockH)
    ensures forall k :: k in at <==> k in at0 || k in singles
    ensures |sorted| == |singles| && forall k :: k in sorted <==> k in singles
    ensures forall k :: k in at0 ==> at[k] == at0[k]
    ensures ByKind(sorted, kinds, locale) && Reading(at, sorted)
  {
    hide Packed, Distinct, ByKind, Reading;
    SortedByKind(singles, kinds, locale);
    var byKind := SingleBefore(kinds, locale);
    SortedSingles(singles, byKind);
    sorted := Sorting.Sort(singles, byKind);
    var cols: nat :| 1 <= cols <= MaxCols(viewportW);
    at, w, blockH := GridSingles(at0, w0, bottom, sorted, h, cols, startY);
  }

  /** One database's section: its content fits inside, nothing overlaps, and the
      section holds the database's tables. */
  method LayoutSection(db: string, nodes: seq<Key>, edges: seq<Edge>, h: Heights, kinds: map<Key, string>,
                       viewportW: int, locale: (string, string) -> bool)
    returns (s: Section, ghost chains: seq<Chain>, ghost alone: seq<Key>)
    requires viewportW >= LAYER_W && forall k :: k in nodes ==> k in h
    ensures GoodSection(s, h) && s.db == db && s.sortSize == |nodes|
    ensures forall k :: k in s.nodes <==> k in nodes
    ensures GroupRight(s.at, edges, s.nodes)
    ensures InOrder(s.at, h, chains) && s.sortDepth == TopDepth(chains) && InChains(nodes, edges, chains)
    ensures AllFaced(chains, edges, h, locale) && OthersByKind(s, chains, alone, kinds, locale)
  {
    hide InOrder, InChains, AllFaced, OthersByKind, ByKind, Reading;
    hide Packed, Distinct, Components, SplitOf, Separate, EachDistinct, Flat, Elems, AllOf, GroupRight;
    var comps := ConnectedComponentsIn(nodes, edges);
    ComponentGroups(nodes, edges, comps);
    var groups, singles := SplitGroups(comps);
    Splits(comps);
    SplitAll(nodes, comps, groups, singles);
    FlatMembers(groups);
    SplitFacts(comps, groups, singles);
    var at, sectionW, chainsBlockH, topDepth;
    at, sectionW, chainsBlockH, topDepth, chains := PlaceChains(groups, edges, h, locale);
    LinkedInChains(nodes, edges, comps, groups, singles, chains);
    DatabaseRuns(nodes, edges, comps, groups, singles, at);
    var singlesBlockH := 0;
    if |singles| > 0 {
      ghost var chained := at;
      var startY := if |groups| > 0 then chainsBlockH + CHAIN_GAP_Y else 0;
      at, sectionW, singlesBlockH, singles := PlaceSingles(at, sectionW, chainsBlockH, singles, h, kinds, viewportW,
                                                           startY, locale);
      GroupKept(chained, at, edges, nodes);
      OrderKept(chained, at, h, chains);
    }
    var contentH := chainsBlockH + (if |groups| > 0 && |singles| > 0 then CHAIN_GAP_Y else 0) + singlesBlockH;
    s := Section(db, Flat(groups) + singles, sectionW + 2 * DB_PADDING, contentH + DB_PADDING_TOP + DB_PADDING,
                 topDepth, |nodes|, at);
    SameNodesRight(at, edges, nodes, s.nodes);
    alone := singles;
    if alone == [] { NoOthers(at, kinds, locale); }
    OthersShown(s, groups, chains, alone, kinds, locale);
  }

  /** The tables that are in no chain stand in reading order, by kind and name. */
  ghost predicate OthersByKind(s: Section, chains: seq<Chain>, alone: seq<Key>, kinds: map<Key, string>,
                               locale: (string, string) -> bool)
  {
    && ByKind(alone, kinds, locale) && Reading(s.at, alone)
    && forall k :: k in s.nodes ==> k in alone || exists c :: c in chains && k in c.comp
  }

  lemma NoOthers(at: Places, kinds: map<Key, string>, locale: (string, string) -> bool)
    ensures ByKind([], kinds, locale) && Reading(at, [])
  {
  }

  lemma OthersShown(s: Section, groups: seq<seq<Key>>, chains: seq<Chain>, alone: seq<Key>, kinds: map<Key, string>,
                    locale: (string, string) -> bool)
    requires s.nodes == Flat(groups) + alone && ByKind(alone, kinds, locale) && Reading(s.at, alone)
    requires forall i :: 0 <= i < |groups| ==> exists c :: c in chains && c.comp == groups[i]
    ensures OthersByKind(s, chains, alone, kinds, locale)
  {
    hide ByKind, Reading, Flat;
    FlatMembers(groups);
    forall k | k in s.nodes && k !in alone ensures exists c :: c in chains && k in c.comp {
      var i :| 0 <= i < |groups| && k in groups[i];
      var c :| c in chains && c.comp == groups[i];
    }
  }

  lemma SplitFacts(comps: seq<seq<Key>>, groups: seq<seq<Key>>, singles: seq<Key>)
    requires SplitOf(comps, groups, singles)
    ensures forall i :: 0 <= i < |groups| ==> Distinct(groups[i])
    ensures Separate(groups) && Distinct(singles)
    ensures forall k :: k in Flat(groups) ==> k !in singles
  {
    FlatMembers(groups);
  }

  lemma ChainsApart(groups: seq<seq<Key>>, chains: seq<Chain>)
    requires Separate(groups) && |chains| == |groups|
    requires forall i :: 0 <= i < |chains| ==> chains[i].comp == groups[i]
    ensures SeparateChains(chains)
  {
    forall i, j, k | 0 <= i < j < |chains| && k in chains[i].comp ensures k !in chains[j].comp {
      assert Foreign(groups[i], groups[j]);
    }
  }

  lemma SortedMembers(groups: seq<seq<Key>>, chains: seq<Chain>, sorted: seq<Chain>)
    requires |chains| == |groups| == |sorted| && forall i :: 0 <= i < |chains| ==> chains[i].comp == groups[i]
    requires forall c :: c in sorted <==> c in chains
    ensures forall k :: k in Flat(groups) <==> exists i :: 0 <= i < |sorted| && k in sorted[i].comp
  {
    FlatMembers(groups);
    forall k ensures k in Flat(groups) <==> exists i :: 0 <= i < |sorted| && k in sorted[i].comp {
      if k in Flat(groups) {
        var i :| 0 <= i < |groups| && k in groups[i];
        assert chains[i] in sorted;
        var j :| 0 <= j < |sorted| && sorted[j] == chains[i];
      }
      if exists i :: 0 <= i < |sorted| && k in sorted[i].comp {
        var i :| 0 <= i < |sorted| && k in sorted[i].comp;
        assert sorted[i] in chains;
        var j :| 0 <= j < |chains| && sorted[i] == chains[j];
        assert k in groups[j];
      }
    }
  }

  lemma SortedSingles(singles: seq<Key>, before: (Key, Key) -> bool)
    requires Distinct(singles)
    ensures Distinct(Sorting.Sort(singles, before))
    ensures forall k :: k in Sorting.Sort(singles, before) <==> k in singles
  {
    Sorting.SortContents(singles, before);
    Sorting.SortElements(singles, before);
    DistinctSame(singles, Sorting.Sort(singles, before));
  }

  // ----- the rows of sections

  /** Sections of earlier rows end above the current row; those of the current
      row end left of the cursor. */
  ghost predicate Rows(rects: seq<Rect>, cursorX: int, cursorY: int, rowH: int) {
    && cursorX >= MARGIN && cursorY >= MARGIN && rowH >= 0
    && forall i :: 0 <= i < |rects| ==>
         && rects[i].x >= MARGIN && rects[i].y >= MARGIN && rects[i].w >= 0 && rects[i].h >= 0
         && (rects[i].y + rects[i].h + DB_GAP <= cursorY ||
             (rects[i].y == cursorY && rects[i].h <= rowH && rects[i].x + rects[i].w + DB_GAP <= cursorX))
  }

  /** The sections in reading order: each is right of those before it in its row and
      below those of the rows before. */
  ghost predicate InRows(rects: seq<Rect>) {
    forall i, j :: 0 <= i < j < |rects| ==>
      || rects[i].y + rects[i].h + DB_GAP <= rects[j].y
      || (rects[i].y == rects[j].y && rects[i].x + rects[i].w + DB_GAP <= rects[j].x)
  }

  lemma RowsOn(rects: seq<Rect>, cursorX: int, cursorY: int, rowH: int, w: int, h: int)
    requires Rows(rects, cursorX, cursorY, rowH) && InRows(rects)
    ensures InRows(rects + [Rect(cursorX, cursorY, w, h)])
  {
  }

  /** No two section rectangles overlap. */
  ghost predicate RectsApart(rects: seq<Rect>) {
    forall i, j :: 0 <= i < j < |rects| ==> Apart(rects[i], rects[j])
  }

  lemma NewRow(rects: seq<Rect>, cursorX: int, cursorY: int, rowH: int)
    requires Rows(rects, cursorX, cursorY, rowH)
    ensures Rows(rects, MARGIN, cursorY + rowH + DB_GAP, 0)
  {
  }

  lemma NextInRow(rects: seq<Rect>, cursorX: int, cursorY: int, rowH: int, w: int, h: int)
    requires Rows(rects, cursorX, cursorY, rowH) && RectsApart(rects) && w >= 0 && h >= 0
    ensures var r := Rect(cursorX, cursorY, w, h);
            && RectsApart(rects + [r])
            && (forall i :: 0 <= i < |rects| ==> Apart(rects[i], r))
            && Rows(rects + [r], cursorX + w + DB_GAP, cursorY, if h > rowH then h else rowH)
  {
  }

  /** Every placed box lies inside the rectangle of the section it belongs to,
      under the section's heading. */
  ghost predicate Housed(at: Places, h: Heights, sections: seq<Section>, rects: seq<Rect>) {
    && |rects| == |sections|
    && (forall k :: k in at ==> k in h)
    && (forall k :: k in at <==> exists i :: 0 <= i < |sections| && k in sections[i].nodes)
    && forall i, k :: 0 <= i < |sections| && k in sections[i].nodes && k in at ==>
         Inside(Box(at, h, k), Content(rects[i]))
  }

  /** A section's rectangle without its paddings. */
  function Content(r: Rect): Rect {
    Rect(r.x + DB_PADDING, r.y + DB_PADDING_TOP, r.w - 2 * DB_PADDING, r.h - DB_PADDING_TOP - DB_PADDING)
  }

  /** Moving a section's content to its place. */
  ghost predicate Moved(before: Places, after: Places, s: Section, x: int, y: int) {
    && after.Keys == before.Keys + s.at.Keys
    && (forall k :: k in before ==> after[k] == before[k])
    && forall k :: k in s.at ==> after[k] == Pos(x + DB_PADDING + s.at[k].x, y + DB_PADDING_TOP + s.at[k].y)
  }

  lemma HouseNext(before: Places, after: Places, h: Heights, done: seq<Section>, rects: seq<Rect>, s: Section, r: Rect)
    requires Housed(before, h, done, rects) && AllApart(before, h) && GoodSection(s, h)
    requires Moved(before, after, s, r.x, r.y) && r.w == s.w && r.h == s.h
    requires forall k :: k in s.at ==> k !in before
    requires forall i :: 0 <= i < |rects| ==> Apart(rects[i], r)
    ensures Housed(after, h, done + [s], rects + [r]) && AllApart(after, h)
  {
    forall k | k in s.at ensures Inside(Box(after, h, k), Content(r)) {
      assert Inside(Box(s.at, h, k), Rect(0, 0, s.w - 2 * DB_PADDING, s.h - DB_PADDING_TOP - DB_PADDING));
    }
    StillHoused(before, after, h, done, rects, s, r);
    forall a, b | a in after && b in after && a != b ensures Apart(Box(after, h, a), Box(after, h, b)) {
      if a in before && b in before {
        assert Apart(Box(before, h, a), Box(before, h, b));
      } else if a in s.at && b in s.at {
        assert Apart(Box(s.at, h, a), Box(s.at, h, b));
      } else if a in before {
        OutsideApart(before, h, done, rects, r, a, Box(after, h, b));
      } else {
        OutsideApart(before, h, done, rects, r, b, Box(after, h, a));
      }
    }
  }

  lemma OutsideApart(before: Places, h: Heights, done: seq<Section>, rects: seq<Rect>, r: Rect, k: Key, b: Rect)
    requires Housed(before, h, done, rects) && k in before && Inside(b, Content(r))
    requires forall i :: 0 <= i < |rects| ==> Apart(rects[i], r)
    ensures Apart(Box(before, h, k), b) && Apart(b, Box(before, h, k))
  {
    var i :| 0 <= i < |done| && k in done[i].nodes;
    assert Inside(Box(before, h, k), Content(rects[i])) && Apart(rects[i], r);
  }

  lemma StillHoused(before: Places, after: Places, h: Heights, done: seq<Section>, rects: seq<Rect>, s: Section,
                    r: Rect)
    requires Housed(before, h, done, rects) && (forall k :: k in s.at <==> k in s.nodes)
    requires Moved(before, after, s, r.x, r.y) &&
             (forall k :: k in s.at ==> k in h && Inside(Box(after, h, k), Content(r)))
    requires forall k :: k in s.at ==> k !in before
    ensures Housed(after, h, done + [s], rects + [r])
  {
    var all := done + [s];
    forall k | k in after ensures exists i :: 0 <= i < |all| && k in all[i].nodes {
      if k in before {
        var i :| 0 <= i < |done| && k in done[i].nodes;
        assert k in all[i].nodes;
      } else {
        assert k in all[|done|].nodes;
      }
    }
    forall i, k | 0 <= i < |all| && k in all[i].nodes ensures HousedAt(after, h, all, rects + [r], i, k) {
      if i < |done| {
        HousedBefore(before, h, done, rects, i, k);
      }
    }
    AllHoused(after, h, all, rects + [r]);
  }

  ghost predicate HousedAt(at: Places, h: Heights, sections: seq<Section>, rects: seq<Rect>, i: nat, k: Key)
    requires |rects| == |sections| && i < |sections| && k in sections[i].nodes
  {
    k in at && k in h && Inside(Box(at, h, k), Content(rects[i]))
  }

  lemma HousedBefore(at: Places, h: Heights, sections: seq<Section>, rects: seq<Rect>, i: nat, k: Key)
    requires Housed(at, h, sections, rects) && i < |sections| && k in sections[i].nodes
    ensures HousedAt(at, h, sections, rects, i, k)
  {
  }

  lemma AllHoused(at: Places, h: Heights, sections: seq<Section>, rects: seq<Rect>)
    requires |rects| == |sections| && forall k :: k in at ==> exists i :: 0 <= i < |sections| && k in sections[i].nodes
    requires forall i, k :: 0 <= i < |sections| && k in sections[i].nodes ==> HousedAt(at, h, sections, rects, i, k)
    ensures Housed(at, h, sections, rects)
  {
    forall k | k in at ensures k in h {
      var i :| 0 <= i < |sections| && k in sections[i].nodes;
      assert HousedAt(at, h, sections, rects, i, k);
    }
    forall k | exists i :: 0 <= i < |sections| && k in sections[i].nodes ensures k in at {
      var i :| 0 <= i < |sections| && k in sections[i].nodes;
      assert HousedAt(at, h, sections, rects, i, k);
    }
    forall i, k | 0 <= i < |sections| && k in sections[i].nodes && k in at
      ensures Inside(Box(at, h, k), Content(rects[i]))
    {
      assert HousedAt(at, h, sections, rects, i, k);
    }
  }

  /** Every table of a placed section stands where the section's own layout has it,
      counted from the section's corner. */
  ghost predicate AtHome(at: Places, s: Section, r: Rect) {
    forall k :: k in s.at ==> k in at && at[k] == Pos(r.x + DB_PADDING + s.at[k].x, r.y + DB_PADDING_TOP + s.at[k].y)
  }

  lemma HomeKept(before: Places, after: Places, moved: Section, x: int, y: int, s: Section, r: Rect)
    requires AtHome(before, s, r) && Moved(before, after, moved, x, y)
    ensures AtHome(after, s, r)
  {
  }

  lemma HomeNew(before: Places, after: Places, s: Section, r: Rect)
    requires Moved(before, after, s, r.x, r.y)
    ensures AtHome(after, s, r)
  {
  }

  /** Moving a section as a whole keeps its edges running right. */
  lemma HomeRight(at: Places, s: Section, r: Rect, edges: seq<Edge>)
    requires AtHome(at, s, r) && GroupRight(s.at, edges, s.nodes)
    ensures GroupRight(at, edges, s.nodes)
  {
    hide GraphLayers.Acyclic;
  }

  /** No table belongs to two sections. */
  ghost predicate SeparateSections(sections: seq<Section>) {
    forall i, j :: 0 <= i < j < |sections| ==> Foreign(sections[i].nodes, sections[j].nodes)
  }

  /** The sections left to right in rows that wrap at the viewport's width. */
  method PlaceSections(sections: seq<Section>, h: Heights, viewportW: int) returns (rects: seq<Rect>, at: Places)
    requires SeparateSections(sections) && forall i :: 0 <= i < |sections| ==> GoodSection(sections[i], h)
    ensures RectsApart(rects) && AllApart(at, h) && Housed(at, h, sections, rects)
    ensures |rects| == |sections| && InRows(rects) && forall i :: 0 <= i < |rects| ==> AtHome(at, sections[i], rects[i])
    ensures forall i :: 0 <= i < |rects| ==> rects[i].x >= MARGIN && rects[i].y >= MARGIN
    ensures forall i :: 0 <= i < |rects| ==> rects[i].w == sections[i].w && rects[i].h == sections[i].h
    ensures forall i :: 0 <= i < |rects| ==> rects[i].x == MARGIN || rects[i].x + rects[i].w <= viewportW + MARGIN
  {
    hide InRows;
    hide Rows, RectsApart, AllApart, Housed, Moved, GoodSection, SeparateSections, Foreign, AtHome;
    rects, at := [], map[];
    var cursorX, cursorY, rowH := MARGIN, MARGIN, 0;
    NothingHoused(h);
    NoRows();
    for i := 0 to |sections|
      invariant |rects| == i && Rows(rects, cursorX, cursorY, rowH) && RectsApart(rects) && InRows(rects)
      invariant AllApart(at, h) && Housed(at, h, sections[..i], rects)
      invariant forall j :: 0 <= j < i ==> rects[j].w == sections[j].w && rects[j].h == sections[j].h
      invariant forall j :: 0 <= j < i ==> AtHome(at, sections[j], rects[j])
      invariant cursorX >= MARGIN
      invariant forall j :: 0 <= j < i ==> rects[j].x == MARGIN || rects[j].x + rects[j].w <= viewportW + MARGIN
    {
      var s := sections[i];
      if cursorX > MARGIN && cursorX + s.w > viewportW + MARGIN {
        NewRow(rects, cursorX, cursorY, rowH);
        cursorX := MARGIN;
        cursorY := cursorY + rowH + DB_GAP;
        rowH := 0;
      }
      SectionNew(sections, h, at, rects, i);
      var moved := MoveSection(at, s, cursorX, cursorY, h);
      NextInRow(rects, cursorX, cursorY, rowH, s.w, s.h);
      RowsOn(rects, cursorX, cursorY, rowH, s.w, s.h);
      var r := Rect(cursorX, cursorY, s.w, s.h);
      HouseNext(at, moved, h, sections[..i], rects, s, r);
      assert sections[..i + 1] == sections[..i] + [s];
      forall j | 0 <= j < i ensures AtHome(moved, sections[j], rects[j]) {
        HomeKept(at, moved, s, cursorX, cursorY, sections[j], rects[j]);
      }
      HomeNew(at, moved, s, r);
      at := moved;
      cursorX := cursorX + s.w + DB_GAP;
      if s.h > rowH {
        rowH := s.h;
      }
      rects := rects + [r];
    }
    assert sections[..|sections|] == sections;
    InMargins(rects, cursorX, cursorY, rowH);
  }

  lemma NoRows()
    ensures InRows([])
  {
  }

  method MoveSection(at0: Places, s: Section, x: int, y: int, ghost h: Heights) returns (at: Places)
    requires GoodSection(s, h) && forall k :: k in s.nodes ==> k !in at0
    ensures Moved(at0, at, s, x, y)
  {
    hide Packed;
    at := at0;
    for j := 0 to |s.nodes|
      invariant at.Keys == at0.Keys + Elems(s.nodes[..j])
      invariant forall k :: k in at0 ==> k in at && at[k] == at0[k]
      invariant forall k :: k in s.nodes[..j] ==>
                  k in at && at[k] == Pos(x + DB_PADDING + s.at[k].x, y + DB_PADDING_TOP + s.at[k].y)
    {
      var n := s.nodes[j];
      assert n in s.nodes && s.nodes[..j + 1] == s.nodes[..j] + [n];
      at := at[n := Pos(x + DB_PADDING + s.at[n].x, y + DB_PADDING_TOP + s.at[n].y)];
    }
    assert s.nodes[..|s.nodes|] == s.nodes;
    assert Elems(s.nodes) == s.at.Keys;
  }

  lemma SectionNew(sections: seq<Section>, h: Heights, at: Places, rects: seq<Rect>, i: nat)
    requires SeparateSections(sections) && i < |sections| == |sections| && |rects| == i
    requires (forall j :: 0 <= j < |sections| ==> GoodSection(sections[j], h)) && Housed(at, h, sections[..i], rects)
    ensures GoodSection(sections[i], h) && sections[i].w >= 0 && sections[i].h >= 0
    ensures forall k :: k in sections[i].nodes ==> k !in at
    ensures forall k :: k in sections[i].at ==> k !in at
  {
    forall k | k in sections[i].nodes ensures k !in at {
      forall j | 0 <= j < i ensures k !in sections[..i][j].nodes {
        assert Foreign(sections[j].nodes, sections[i].nodes);
      }
    }
  }

  lemma NothingHoused(h: Heights)
    ensures Rows([], MARGIN, MARGIN, 0) && RectsApart([]) && AllApart(map[], h) && Housed(map[], h, [], [])
  {
  }

  lemma InMargins(rects: seq<Rect>, cursorX: int, cursorY: int, rowH: int)
    requires Rows(rects, cursorX, cursorY, rowH)
    ensures forall i :: 0 <= i < |rects| ==> rects[i].x >= MARGIN && rects[i].y >= MARGIN
  {
  }

  // ----- the whole layout

  /** The databases the filter shows; an empty filter shows all. */
  predicate Shown(db: Database, dbFilter: string) {
    dbFilter == "" || dbFilter == db.name
  }

  function Visible(dbs: seq<Database>, dbFilter: string): seq<Database> {
    if dbs == [] then []
    else
      var r := Visible(dbs[..|dbs| - 1], dbFilter);
      if Shown(dbs[|dbs| - 1], dbFilter) then r + [dbs[|dbs| - 1]] else r
  }

  /** No table belongs to two databases. */
  ghost predicate OwnTables(dbs: seq<Database>) {
    forall i, j :: 0 <= i < j < |dbs| ==> Foreign(dbs[i].tables, dbs[j].tables)
  }

  lemma {:induction false} VisibleMembers(dbs: seq<Database>, dbFilter: string)
    ensures forall db :: db in Visible(dbs, dbFilter) <==> db in dbs && Shown(db, dbFilter)
  {
    hide Shown;
    if dbs != [] {
      var n := |dbs| - 1;
      VisibleMembers(dbs[..n], dbFilter);
      assert dbs == dbs[..n] + [dbs[n]];
    }
  }

  lemma {:induction false} VisibleApart(dbs: seq<Database>, dbFilter: string)
    requires OwnTables(dbs)
    ensures OwnTables(Visible(dbs, dbFilter))
  {
    hide Foreign, Shown;
    if dbs != [] {
      var n := |dbs| - 1;
      var r := Visible(dbs[..n], dbFilter);
      FirstOwn(dbs, n);
      VisibleApart(dbs[..n], dbFilter);
      VisibleMembers(dbs[..n], dbFilter);
      forall db | db in r ensures Foreign(db.tables, dbs[n].tables) {
        assert db in dbs[..n];
        var i :| 0 <= i < n && dbs[i] == db;
        assert Foreign(dbs[i].tables, dbs[n].tables);
      }
    }
  }

  lemma FirstOwn(dbs: seq<Database>, n: nat)
    requires OwnTables(dbs) && n <= |dbs|
    ensures OwnTables(dbs[..n])
  {
    forall i, j | 0 <= i < j < n ensures Foreign(dbs[..n][i].tables, dbs[..n][j].tables) {
      assert Foreign(dbs[i].tables, dbs[j].tables);
    }
  }

  /** The shown databases in the script's order. */
  function Ordered(dbs: seq<Database>, dbFilter: string, codeOrder: (string, string) -> bool): seq<Database> {
    Sorting.Sort(Visible(dbs, dbFilter), (a: Database, b: Database) => codeOrder(a.name, b.name))
  }

  lemma OrderedMembers(dbs: seq<Database>, dbFilter: string, codeOrder: (string, string) -> bool)
    requires OwnTables(dbs)
    ensures OwnTables(Ordered(dbs, dbFilter, codeOrder))
    ensures forall db :: db in Ordered(dbs, dbFilter, codeOrder) <==> db in dbs && Shown(db, dbFilter)
  {
    var v := Visible(dbs, dbFilter);
    var before := (a: Database, b: Database) => codeOrder(a.name, b.name);
    VisibleMembers(dbs, dbFilter);
    VisibleApart(dbs, dbFilter);
    Sorting.SortElements(v, before);
    var apart := (a: Database, b: Database) => Foreign(a.tables, b.tables);
    forall i, j | 0 <= i < j < |v| ensures apart(v[i], v[j]) {
      assert Foreign(v[i].tables, v[j].tables);
    }
    Sorting.SortPairwise(v, before, apart);
    var r := Ordered(dbs, dbFilter, codeOrder);
    forall i, j | 0 <= i < j < |r| ensures Foreign(r[i].tables, r[j].tables) {
      assert apart(r[i], r[j]);
    }
  }

  /** The section shows just the tables of the database. */
  ghost predicate SectionOf(s: Section, db: Database) {
    s.db == db.name && s.sortSize == |db.tables| && forall k :: k in s.nodes <==> k in db.tables
  }

  /** The sections belong one by one to the given databases, the empty ones left out. */
  ghost predicate SectionsOf(sections: seq<Section>, dbs: seq<Database>) {
    && SeparateSections(sections)
    && (forall s :: s in sections ==> Owned(s, dbs))
    && (forall db :: db in dbs && db.tables != [] ==> Drawn(db, sections))
  }

  ghost predicate Owned(s: Section, dbs: seq<Database>) {
    exists db :: db in dbs && db.tables != [] && SectionOf(s, db)
  }

  ghost predicate Drawn(db: Database, sections: seq<Section>) {
    exists s :: s in sections && SectionOf(s, db)
  }

  lemma NextSection(sections: seq<Section>, dbs: seq<Database>, db: Database)
    requires SectionsOf(sections, dbs) && OwnTables(dbs + [db])
    ensures db.tables == [] ==> SectionsOf(sections, dbs + [db])
    ensures forall s :: db.tables != [] && SectionOf(s, db) ==> SectionsOf(sections + [s], dbs + [db])
  {
    hide SectionOf, Foreign, SeparateSections, Owned, Drawn;
    var all := dbs + [db];
    forall d | d in dbs ensures Foreign(d.tables, db.tables) {
      var i :| 0 <= i < |dbs| && dbs[i] == d;
      assert Foreign(all[i].tables, all[|dbs|].tables);
    }
    forall s | db.tables != [] && SectionOf(s, db) ensures SectionsOf(sections + [s], all) {
      JoinSection(sections, dbs, db, s);
    }
    forall t | t in sections ensures Owned(t, all) {
      OwnedOn(t, dbs, db);
    }
  }

  lemma OwnedOn(s: Section, dbs: seq<Database>, db: Database)
    ensures Owned(s, dbs) ==> Owned(s, dbs + [db])
    ensures db.tables != [] && SectionOf(s, db) ==> Owned(s, dbs + [db])
  {
    if Owned(s, dbs) {
      var d :| d in dbs && d.tables != [] && SectionOf(s, d);
      assert d in dbs + [db];
    }
    assert db in dbs + [db];
  }

  lemma DrawnOn(db: Database, sections: seq<Section>, s: Section)
    ensures Drawn(db, sections) ==> Drawn(db, sections + [s])
    ensures SectionOf(s, db) ==> Drawn(db, sections + [s])
  {
    if Drawn(db, sections) {
      var t :| t in sections && SectionOf(t, db);
      assert t in sections + [s];
    }
    assert s in sections + [s];
  }

  lemma JoinSection(sections: seq<Section>, dbs: seq<Database>, db: Database, s: Section)
    requires SectionsOf(sections, dbs) && db.tables != [] && SectionOf(s, db)
    requires forall d :: d in dbs ==> Foreign(d.tables, db.tables)
    ensures SectionsOf(sections + [s], dbs + [db])
  {
    hide SectionOf, Foreign, Owned, Drawn;
    var all, more := dbs + [db], sections + [s];
    forall t | t in more ensures Owned(t, all) {
      OwnedOn(t, dbs, db);
    }
    forall d | d in all && d.tables != [] ensures Drawn(d, more) {
      DrawnOn(d, sections, s);
    }
    forall i, j | 0 <= i < j < |more| ensures Foreign(more[i].nodes, more[j].nodes) {
      if j < |sections| {
        assert Foreign(sections[i].nodes, sections[j].nodes);
      } else {
        assert sections[i] in sections;
        OwnedForeign(sections[i], dbs, s, db);
      }
    }
  }

  lemma OwnedForeign(a: Section, dbs: seq<Database>, b: Section, e: Database)
    requires Owned(a, dbs) && SectionOf(b, e) && forall d :: d in dbs ==> Foreign(d.tables, e.tables)
    ensures Foreign(a.nodes, b.nodes)
  {
    var d :| d in dbs && d.tables != [] && SectionOf(a, d);
    ForeignSections(a, d, b, e);
  }

  lemma ForeignSections(a: Section, d: Database, b: Section, e: Database)
    requires SectionOf(a, d) && SectionOf(b, e) && Foreign(d.tables, e.tables)
    ensures Foreign(a.nodes, b.nodes)
  {
  }

  lemma SortedSections(sections: seq<Section>, dbs: seq<Database>, before: (Section, Section) -> bool, h: Heights)
    requires SectionsOf(sections, dbs) && forall s :: s in sections ==> GoodSection(s, h)
    ensures var sorted := Sorting.Sort(sections, before);
            SectionsOf(sorted, dbs) && forall i :: 0 <= i < |sorted| ==> GoodSection(sorted[i], h)
  {
    hide GoodSection, SectionOf, Owned;
    var sorted := Sorting.Sort(sections, before);
    Sorting.SortElements(sections, before);
    var apart := (a: Section, b: Section) => Foreign(a.nodes, b.nodes);
    forall i, j | 0 <= i < j < |sections| ensures apart(sections[i], sections[j]) {
      assert Foreign(sections[i].nodes, sections[j].nodes);
    }
    Sorting.SortPairwise(sections, before, apart);
    forall db | db in dbs && db.tables != [] ensures Drawn(db, sorted) {
      var s :| s in sections && SectionOf(s, db);
      assert s in sorted;
    }
    forall i, j | 0 <= i < j < |sorted| ensures Foreign(sorted[i].nodes, sorted[j].nodes) {
      assert apart(sorted[i], sorted[j]);
    }
  }

  /** The section's chains stand in order, their columns in the order of least
      crossings, its depth is that of the longest, and the other tables go by kind. */
  ghost predicate Ranked(s: Section, edges: seq<Edge>, h: Heights, kinds: map<Key, string>,
                         locale: (string, string) -> bool)
  {
    exists chains, alone ::
      && InOrder(s.at, h, chains) && s.sortDepth == TopDepth(chains) && InChains(s.nodes, edges, chains)
      && AllFaced(chains, edges, h, locale) && OthersByKind(s, chains, alone, kinds, locale)
  }

  lemma IsRanked(s: Section, nodes: seq<Key>, edges: seq<Edge>, h: Heights, chains: seq<Chain>,
                 alone: seq<Key>, kinds: map<Key, string>, locale: (string, string) -> bool)
    requires AllFaced(chains, edges, h, locale) && OthersByKind(s, chains, alone, kinds, locale)
    requires InOrder(s.at, h, chains) && s.sortDepth == TopDepth(chains) && InChains(nodes, edges, chains)
    requires forall k :: k in s.nodes <==> k in nodes
    ensures Ranked(s, edges, h, kinds, locale)
  {
    hide InOrder, AllFaced, OthersByKind;
    forall u, v | GraphLayers.Arc(s.nodes, edges, u, v) && u != v
      ensures exists c :: c in chains && u in c.comp && v in c.comp
    {
      assert GraphLayers.Arc(nodes, edges, u, v);
    }
  }

  /** Longest top chain first, then the most tables. */
  predicate AsTall(a: Section, b: Section) {
    a.sortDepth > b.sortDepth || (a.sortDepth == b.sortDepth && a.sortSize >= b.sortSize)
  }

  ghost predicate TallestFirst(sections: seq<Section>) {
    forall i, j :: 0 <= i < j < |sections| ==> AsTall(sections[i], sections[j])
  }

  lemma SortedTallest(sections: seq<Section>, locale: (string, string) -> bool)
    ensures TallestFirst(Sorting.Sort(sections, SectionBefore(locale)))
  {
    var high := (a: Section, b: Section) => AsTall(a, b);
    Sorting.SortRanked(sections, SectionBefore(locale), high);
    var s := Sorting.Sort(sections, SectionBefore(locale));
    forall i, j | 0 <= i < j < |s| ensures AsTall(s[i], s[j]) {
      assert high(s[i], s[j]);
    }
  }

  function Sizes(nodes: map<Key, Node>, showColumns: bool): Heights {
    map k | k in nodes :: EstimateHeight(nodes[k], showColumns)
  }

  function Kinds(nodes: map<Key, Node>): map<Key, string> {
    map k | k in nodes :: nodes[k].kind
  }

  function ViewportW(clientWidth: int): (w: int)
    ensures w >= LAYER_W
  {
    if clientWidth - MARGIN * 2 < LAYER_W then LAYER_W else clientWidth - MARGIN * 2
  }

  /** The table positions of the whole page. Whatever the tables, edges and window:
      exactly the tables of the shown databases are placed, no two of their boxes
      overlap, each lies inside the rectangle of its database's section, the section
      rectangles do not overlap, and every edge within a database free of cycles
      leads at least one column to the right. */
  method LayoutAll(nodes: map<Key, Node>, dbs: seq<Database>, edges: seq<Edge>, dbFilter: string, showColumns: bool,
                   clientWidth: int, locale: (string, string) -> bool, codeOrder: (string, string) -> bool)
    returns (sections: seq<Section>, rects: seq<Rect>, at: Places)
    requires OwnTables(dbs) && forall db, k :: db in dbs && k in db.tables ==> k in nodes
    ensures SectionsOf(sections, Ordered(dbs, dbFilter, codeOrder))
    ensures forall k :: k in at <==> exists db :: db in dbs && Shown(db, dbFilter) && k in db.tables
    ensures AllApart(at, Sizes(nodes, showColumns))
    ensures Housed(at, Sizes(nodes, showColumns), sections, rects)
    ensures RectsApart(rects)
    ensures forall i :: 0 <= i < |rects| ==>
              rects[i].x == MARGIN || rects[i].x + rects[i].w <= ViewportW(clientWidth) + MARGIN
    ensures forall s :: s in sections ==> GroupRight(at, edges, s.nodes)
    ensures TallestFirst(sections) && InRows(rects)
    ensures forall i :: 0 <= i < |sections| ==> AtHome(at, sections[i], rects[i])
    ensures forall s :: s in sections ==> Ranked(s, edges, Sizes(nodes, showColumns), Kinds(nodes), locale)
  {
    hide Ranked, TallestFirst, InRows, InOrder, InChains, AllFaced, OthersByKind;
    hide GroupRight, AtHome, Visible, OwnTables, SectionsOf, SectionOf, SeparateSections, GoodSection, Housed, AllApart;
    hide RectsApart, Foreign, Shown, EstimateHeight;
    var visible := Ordered(dbs, dbFilter, codeOrder);
    OrderedMembers(dbs, dbFilter, codeOrder);
    var h := Sizes(nodes, showColumns);
    var kinds := Kinds(nodes);
    var viewportW := ViewportW(clientWidth);
    sections := [];
    NoSections();
    for i := 0 to |visible|
      invariant SectionsOf(sections, visible[..i])
      invariant forall s :: s in sections ==>
                  GoodSection(s, h) && GroupRight(s.at, edges, s.nodes) && Ranked(s, edges, h, kinds, locale)
    {
      var db := visible[i];
      assert db in visible && visible[..i + 1] == visible[..i] + [db];
      FirstOwn(visible, i + 1);
      NextSection(sections, visible[..i], db);
      if |db.tables| > 0 {
        var s;
        ghost var chains, alone;
        s, chains, alone := LayoutSection(db.name, db.tables, edges, h, kinds, viewportW, locale);
        IsSectionOf(s, db);
        IsRanked(s, db.tables, edges, h, chains, alone, kinds, locale);
        sections := sections + [s];
      }
    }
    assert visible[..|visible|] == visible;
    SortedSections(sections, visible, SectionBefore(locale), h);
    Sorting.SortElements(sections, SectionBefore(locale));
    SortedTallest(sections, locale);
    sections := Sorting.Sort(sections, SectionBefore(locale));
    AreSeparate(sections, visible);
    rects, at := PlaceSections(sections, h, viewportW);
    ShownTables(sections, visible, at, h, rects);
    forall s | s in sections ensures GroupRight(at, edges, s.nodes) {
      var i :| 0 <= i < |sections| && sections[i] == s;
      HomeRight(at, s, rects[i], edges);
    }
  }

  lemma NoSections()
    ensures SectionsOf([], [])
  {
  }

  lemma IsSectionOf(s: Section, db: Database)
    requires s.db == db.name && s.sortSize == |db.tables| && forall k :: k in s.nodes <==> k in db.tables
    ensures SectionOf(s, db)
  {
  }

  lemma AreSeparate(sections: seq<Section>, dbs: seq<Database>)
    requires SectionsOf(sections, dbs)
    ensures SeparateSections(sections)
  {
  }

  lemma ShownTables(sections: seq<Section>, dbs: seq<Database>, at: Places, h: Heights, rects: seq<Rect>)
    requires SectionsOf(sections, dbs) && Housed(at, h, sections, rects)
    ensures forall k :: k in at <==> exists db :: db in dbs && k in db.tables
  {
    hide Housed, SectionOf, SeparateSections;
    forall k ensures k in at <==> exists i :: 0 <= i < |sections| && k in sections[i].nodes {
      PlacedKeys(at, h, sections, rects, k);
    }
    forall k | k in at ensures exists db :: db in dbs && k in db.tables {
      var i :| 0 <= i < |sections| && k in sections[i].nodes;
      assert sections[i] in sections;
      var db :| db in dbs && db.tables != [] && SectionOf(sections[i], db);
      SameTables(sections[i], db, k);
    }
    forall db, k | db in dbs && k in db.tables ensures k in at {
      var s :| s in sections && SectionOf(s, db);
      var i :| 0 <= i < |sections| && sections[i] == s;
      SameTables(s, db, k);
      assert k in sections[i].nodes;
    }
  }

  lemma PlacedKeys(at: Places, h: Heights, sections: seq<Section>, rects: seq<Rect>, k: Key)
    requires Housed(at, h, sections, rects)
    ensures k in at <==> exists i :: 0 <= i < |sections| && k in sections[i].nodes
  {
  }

  lemma SameTables(s: Section, db: Database, k: Key)
    requires SectionOf(s, db)
    ensures k in s.nodes <==> k in db.tables
  {
  }
}
