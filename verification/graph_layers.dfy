/** The layers of one chain: longest-path layers by a memoised search that tolerates
    cycles, then eight rounds of sorting each layer by the mean position of its
    neighbours, to have fewer edges cross. */
module GraphLayers {
  import opened GraphComponents
  import Sorting

  // ----- walks along edges

  predicate Arc(nodes: seq<Key>, edges: seq<Edge>, u: Key, v: Key) {
    u in nodes && v in nodes && Edge(u, v) in edges
  }

  ghost predicate IsWalk(nodes: seq<Key>, edges: seq<Edge>, p: seq<Key>) {
    && p != []
    && (forall i :: 0 <= i < |p| ==> p[i] in nodes)
    && forall i :: 0 <= i < |p| - 1 ==> Arc(nodes, edges, p[i], p[i + 1])
  }

  ghost predicate Acyclic(nodes: seq<Key>, edges: seq<Edge>) {
    forall p :: IsWalk(nodes, edges, p) && |p| > 1 ==> p[0] != p[|p| - 1]
  }

  /** The longest walk that ends at k has n edges. */
  ghost predicate Longest(nodes: seq<Key>, edges: seq<Edge>, k: Key, n: nat) {
    && (exists p :: IsWalk(nodes, edges, p) && p[|p| - 1] == k && |p| == n + 1)
    && forall p :: IsWalk(nodes, edges, p) && p[|p| - 1] == k ==> |p| <= n + 1
  }

  /** Some walk of at least one edge leads from u to v. */
  ghost predicate Leads(nodes: seq<Key>, edges: seq<Edge>, u: Key, v: Key) {
    exists p :: IsWalk(nodes, edges, p) && |p| > 1 && p[0] == u && p[|p| - 1] == v
  }

  lemma LeadsStep(nodes: seq<Key>, edges: seq<Edge>, u: Key, k: Key, v: Key)
    requires Arc(nodes, edges, u, k) && (k == v || Leads(nodes, edges, k, v))
    ensures Leads(nodes, edges, u, v)
  {
    if k == v {
      assert IsWalk(nodes, edges, [u, k]);
    } else {
      var p :| IsWalk(nodes, edges, p) && |p| > 1 && p[0] == k && p[|p| - 1] == v;
      var q := [u] + p;
      forall i | 0 <= i < |q| - 1 ensures Arc(nodes, edges, q[i], q[i + 1]) {
        if i > 0 { assert Arc(nodes, edges, p[i - 1], p[i]); }
      }
      assert IsWalk(nodes, edges, q);
    }
  }

  lemma WalkInit(nodes: seq<Key>, edges: seq<Edge>, p: seq<Key>)
    requires IsWalk(nodes, edges, p) && |p| > 1
    ensures IsWalk(nodes, edges, p[..|p| - 1]) && Arc(nodes, edges, p[|p| - 2], p[|p| - 1])
  {
    var q := p[..|p| - 1];
    forall i | 0 <= i < |q| - 1 ensures Arc(nodes, edges, q[i], q[i + 1]) {
      assert Arc(nodes, edges, p[i], p[i + 1]);
    }
    assert Arc(nodes, edges, p[|p| - 2], p[|p| - 2 + 1]);
  }

  lemma WalkSnoc(nodes: seq<Key>, edges: seq<Edge>, p: seq<Key>, k: Key)
    requires IsWalk(nodes, edges, p) && Arc(nodes, edges, p[|p| - 1], k)
    ensures IsWalk(nodes, edges, p + [k])
  {
    var q := p + [k];
    forall i | 0 <= i < |q| - 1 ensures Arc(nodes, edges, q[i], q[i + 1]) {
      if i < |p| - 1 { assert Arc(nodes, edges, p[i], p[i + 1]); }
    }
  }

  /** One more than the deepest predecessor is the longest walk. */
  lemma LongestStep(nodes: seq<Key>, edges: seq<Edge>, k: Key, d: nat, depth: map<Key, nat>)
    requires k in nodes
    requires forall u :: Arc(nodes, edges, u, k) ==>
               u in depth && Longest(nodes, edges, u, depth[u]) && depth[u] + 1 <= d
    requires d == 0 || exists u :: Arc(nodes, edges, u, k) && u in depth && d == depth[u] + 1
    ensures Longest(nodes, edges, k, d)
  {
    forall p | IsWalk(nodes, edges, p) && p[|p| - 1] == k ensures |p| <= d + 1 {
      if |p| > 1 {
        WalkInit(nodes, edges, p);
        var q := p[..|p| - 1];
        assert q[|q| - 1] == p[|p| - 2];
        assert Longest(nodes, edges, p[|p| - 2], depth[p[|p| - 2]]);
      }
    }
    if d == 0 {
      assert IsWalk(nodes, edges, [k]);
    } else {
      var u :| Arc(nodes, edges, u, k) && u in depth && d == depth[u] + 1;
      assert Longest(nodes, edges, u, depth[u]);
      var p :| IsWalk(nodes, edges, p) && p[|p| - 1] == u && |p| == depth[u] + 1;
      WalkSnoc(nodes, edges, p, k);
      assert (p + [k])[|p + [k]| - 1] == k;
    }
  }

  // ----- the search

  ghost predicate ListsIn(nodes: seq<Key>, edges: seq<Edge>, adj: map<Key, seq<Key>>) {
    && (forall k :: k in adj <==> k in nodes)
    && forall v, u :: v in adj ==> (u in adj[v] <==> Arc(nodes, edges, u, v))
  }

  ghost predicate ListsOut(nodes: seq<Key>, edges: seq<Edge>, adj: map<Key, seq<Key>>) {
    && (forall k :: k in adj <==> k in nodes)
    && forall u, v :: u in adj ==> (v in adj[u] <==> Arc(nodes, edges, u, v))
  }

  /** Where the edges from n within the nodes lead, edge by edge. */
  function Targets(nodes: seq<Key>, edges: seq<Edge>, n: Key): seq<Key> {
    if edges == [] then []
    else
      var e := edges[|edges| - 1];
      var r := Targets(nodes, edges[..|edges| - 1], n);
      if e.from == n && e.from in nodes && e.to in nodes then r + [e.to] else r
  }

  /** Where the edges to n within the nodes come from, edge by edge. */
  function Sources(nodes: seq<Key>, edges: seq<Edge>, n: Key): seq<Key> {
    if edges == [] then []
    else
      var e := edges[|edges| - 1];
      var r := Sources(nodes, edges[..|edges| - 1], n);
      if e.to == n && e.from in nodes && e.to in nodes then r + [e.from] else r
  }

  /** The neighbour lists, edge by edge. */
  ghost predicate Wired(nodes: seq<Key>, edges: seq<Edge>, adjOut: map<Key, seq<Key>>, adjIn: map<Key, seq<Key>>) {
    && (forall k :: (k in adjOut <==> k in nodes) && (k in adjIn <==> k in nodes))
    && forall k :: k in nodes ==> adjOut[k] == Targets(nodes, edges, k) && adjIn[k] == Sources(nodes, edges, k)
  }

  method Directed(nodes: seq<Key>, edges: seq<Edge>) returns (adjOut: map<Key, seq<Key>>, adjIn: map<Key, seq<Key>>)
    ensures ListsOut(nodes, edges, adjOut) && ListsIn(nodes, edges, adjIn)
    ensures Wired(nodes, edges, adjOut, adjIn)
  {
    adjOut, adjIn := map[], map[];
    for i := 0 to |nodes|
      invariant forall k :: (k in adjOut <==> k in nodes[..i]) && (k in adjIn <==> k in nodes[..i])
      invariant forall k :: k in adjOut ==> adjOut[k] == []
      invariant forall k :: k in adjIn ==> adjIn[k] == []
    {
      adjOut, adjIn := adjOut[nodes[i] := []], adjIn[nodes[i] := []];
    }
    assert nodes[..|nodes|] == nodes;
    for i := 0 to |edges|
      invariant Wired(nodes, edges[..i], adjOut, adjIn)
    {
      hide Wired;
      var e := edges[i];
      WiredNext(nodes, edges, i, adjOut, adjIn);
      if e.from in adjOut && e.to in adjOut {
        adjOut := adjOut[e.from := adjOut[e.from] + [e.to]];
        adjIn := adjIn[e.to := adjIn[e.to] + [e.from]];
      }
    }
    assert edges[..|edges|] == edges;
    WiredLists(nodes, edges, adjOut, adjIn);
  }

  /** Entering one edge on both sides. */
  lemma WiredNext(nodes: seq<Key>, edges: seq<Edge>, i: nat, adjOut: map<Key, seq<Key>>, adjIn: map<Key, seq<Key>>)
    requires i < |edges| && Wired(nodes, edges[..i], adjOut, adjIn)
    ensures var e, more := edges[i], edges[..i + 1];
            if e.from in adjOut && e.to in adjOut then
              && e.to in adjIn
              && Wired(nodes, more, adjOut[e.from := adjOut[e.from] + [e.to]], adjIn[e.to := adjIn[e.to] + [e.from]])
            else Wired(nodes, more, adjOut, adjIn)
  {
    var more := edges[..i + 1];
    assert more[..|more| - 1] == edges[..i] && more[|more| - 1] == edges[i];
  }

  lemma {:induction false} TargetsMembers(nodes: seq<Key>, edges: seq<Edge>, n: Key)
    ensures forall v :: v in Targets(nodes, edges, n) <==> Arc(nodes, edges, n, v)
    ensures forall u :: u in Sources(nodes, edges, n) <==> Arc(nodes, edges, u, n)
  {
    if edges != [] {
      var m := |edges| - 1;
      TargetsMembers(nodes, edges[..m], n);
      OneMoreArc(nodes, edges, m);
      assert edges[..m + 1] == edges;
      hide Arc;
    }
  }

  lemma WiredLists(nodes: seq<Key>, edges: seq<Edge>, adjOut: map<Key, seq<Key>>, adjIn: map<Key, seq<Key>>)
    requires Wired(nodes, edges, adjOut, adjIn)
    ensures ListsOut(nodes, edges, adjOut) && ListsIn(nodes, edges, adjIn)
  {
    hide Arc, Targets, Sources;
    forall k ensures forall v :: v in Targets(nodes, edges, k) <==> Arc(nodes, edges, k, v)
    {
      TargetsMembers(nodes, edges, k);
    }
    forall k ensures forall u :: u in Sources(nodes, edges, k) <==> Arc(nodes, edges, u, k)
    {
      TargetsMembers(nodes, edges, k);
    }
  }

  lemma OneMoreArc(nodes: seq<Key>, edges: seq<Edge>, i: nat)
    requires i < |edges|
    ensures forall u, v :: Arc(nodes, edges[..i + 1], u, v) <==>
              Arc(nodes, edges[..i], u, v) || (edges[i] == Edge(u, v) && u in nodes && v in nodes)
  {
    assert edges[..i + 1] == edges[..i] + [edges[i]];
  }

  /** Every depth is below the number of depths known; without cycles it is the
      longest walk. */
  ghost predicate Known(nodes: seq<Key>, edges: seq<Edge>, depth: map<Key, nat>) {
    && depth.Keys <= Elems(nodes)
    && (forall k :: k in depth ==> depth[k] < |depth|)
    && (Acyclic(nodes, edges) ==> forall k :: k in depth ==> Longest(nodes, edges, k, depth[k]))
  }

  ghost predicate Extends(a: map<Key, nat>, b: map<Key, nat>) {
    forall x :: x in a ==> x in b && b[x] == a[x]
  }

  lemma KnownAdd(nodes: seq<Key>, edges: seq<Edge>, depth: map<Key, nat>, k: Key, d: nat)
    requires Known(nodes, edges, depth) && k in nodes && k !in depth && d <= |depth|
    requires Acyclic(nodes, edges) ==> Longest(nodes, edges, k, d)
    ensures Known(nodes, edges, depth[k := d]) && Extends(depth, depth[k := d])
  {
    hide Acyclic, Longest;
    var more := depth[k := d];
    assert more.Keys == depth.Keys + {k};
    assert |more| == |depth| + 1;
    forall x | x in more ensures more[x] < |more| {
      if x != k { assert depth[x] < |depth|; }
    }
    if Acyclic(nodes, edges) {
      forall x | x in more ensures Longest(nodes, edges, x, more[x]) {
        if x != k { assert more[x] == depth[x]; }
      }
    }
  }

  lemma {:induction false} FewerLeft<T>(a: set<T>, b: set<T>)
    requires a <= b
    ensures |a| <= |b| && (a != b ==> |a| < |b|)
  {
    if a != {} {
      var x :| x in a;
      FewerLeft(a - {x}, b - {x});
    }
  }

  /** The nodes on the way from k to the root. */
  ghost predicate AllLead(nodes: seq<Key>, edges: seq<Edge>, k: Key, way: set<Key>) {
    forall v :: v in way && v != k ==> Leads(nodes, edges, k, v)
  }

  lemma LeadOn(nodes: seq<Key>, edges: seq<Edge>, u: Key, k: Key, way: set<Key>)
    requires AllLead(nodes, edges, k, way) && Arc(nodes, edges, u, k)
    ensures AllLead(nodes, edges, u, way + {k})
    ensures u in way + {k} ==> !Acyclic(nodes, edges)
  {
    hide IsWalk, Arc;
    forall v | v in way + {k} ensures Leads(nodes, edges, u, v) {
      LeadsStep(nodes, edges, u, k, v);
    }
    if u in way + {k} {
      assert Leads(nodes, edges, u, u);
    }
  }

  /** Of the first i predecessors each is on the way or its depth counts for d;
      d is not more than what they ask for, and below the number of depths. */
  ghost predicate Progress(nodes: seq<Key>, edges: seq<Edge>, preds: seq<Key>, i: nat, k: Key, way: set<Key>,
                           depth: map<Key, nat>, d: nat) {
    && i <= |preds| && d <= |depth|
    && (forall j :: 0 <= j < i ==> preds[j] in way || (preds[j] in depth && depth[preds[j]] + 1 <= d))
    && (d == 0 || exists u :: Arc(nodes, edges, u, k) && u in depth && d == depth[u] + 1)
  }

  lemma Starting(nodes: seq<Key>, edges: seq<Edge>, preds: seq<Key>, k: Key, way: set<Key>, depth: map<Key, nat>)
    ensures Progress(nodes, edges, preds, 0, k, way, depth, 0)
  {
  }

  lemma PassedBy(nodes: seq<Key>, edges: seq<Edge>, preds: seq<Key>, i: nat, k: Key, way: set<Key>,
                 depth: map<Key, nat>, d: nat)
    requires Progress(nodes, edges, preds, i, k, way, depth, d) && i < |preds| && preds[i] in way
    ensures Progress(nodes, edges, preds, i + 1, k, way, depth, d)
  {
  }

  /** What was counted stays counted when depths are added, and the new
      predecessor counts. */
  lemma Counting(nodes: seq<Key>, edges: seq<Edge>, preds: seq<Key>, i: nat, k: Key, way: set<Key>,
                 before: map<Key, nat>, known: map<Key, nat>, depth: map<Key, nat>, d: nat, r: nat)
    requires Progress(nodes, edges, preds, i, k, way, known, d) && i < |preds|
    requires Extends(before, known) && Extends(known, depth) && Known(nodes, edges, depth)
    requires preds[i] in depth && depth[preds[i]] == r && Arc(nodes, edges, preds[i], k)
    ensures Extends(before, depth)
    ensures Progress(nodes, edges, preds, i + 1, k, way, depth, if d < r + 1 then r + 1 else d)
  {
    hide Arc, Acyclic, Longest;
    assert known.Keys <= depth.Keys;
    FewerLeft(known.Keys, depth.Keys);
    assert |known| == |known.Keys| && |depth| == |depth.Keys|;
    assert r < |depth|;
  }

  /** All predecessors looked at: k gets depth d. */
  lemma Finish(nodes: seq<Key>, edges: seq<Edge>, adjIn: map<Key, seq<Key>>, k: Key, way: set<Key>,
               depth: map<Key, nat>, d: nat)
    requires ListsIn(nodes, edges, adjIn) && k in nodes && k !in depth
    requires AllLead(nodes, edges, k, way) && Known(nodes, edges, depth)
    requires Progress(nodes, edges, adjIn[k], |adjIn[k]|, k, way + {k}, depth, d)
    ensures Known(nodes, edges, depth[k := d]) && Extends(depth, depth[k := d])
  {
    hide IsWalk, Arc, Longest, Acyclic;
    if Acyclic(nodes, edges) {
      forall u | Arc(nodes, edges, u, k)
        ensures u in depth && Longest(nodes, edges, u, depth[u]) && depth[u] + 1 <= d
      {
        assert u in adjIn[k];
        LeadOn(nodes, edges, u, k, way);
      }
      LongestStep(nodes, edges, k, d, depth);
    }
    KnownAdd(nodes, edges, depth, k, d);
  }

  class DepthSearch {
    const nodes: seq<Key>
    ghost const edges: seq<Edge>
    const adjIn: map<Key, seq<Key>>
    var depth: map<Key, nat>
    var visiting: set<Key>
    var stack: set<Key>

    constructor (nodes: seq<Key>, ghost edges: seq<Edge>, adjIn: map<Key, seq<Key>>)
      requires ListsIn(nodes, edges, adjIn)
      ensures this.nodes == nodes && this.edges == edges && this.adjIn == adjIn
      ensures Valid() && visiting == {} && depth == map[]
    {
      this.nodes, this.edges, this.adjIn := nodes, edges, adjIn;
      depth, visiting, stack := map[], {}, {};
    }

    ghost predicate Valid()
      reads this
    {
      && ListsIn(nodes, edges, adjIn) && Known(nodes, edges, depth)
      && visiting <= Elems(nodes) && depth.Keys !! visiting
    }

    method Dfs(k: Key) returns (d: nat)
      requires Valid() && k in nodes
      requires stack == visiting + {k} && AllLead(nodes, edges, k, visiting)
      modifies this`depth, this`visiting, this`stack
      ensures Valid() && visiting == old(visiting) && stack == old(stack)
      ensures Extends(old(depth), depth)
      ensures if k in old(visiting) && k !in old(depth) then d == 0 && depth == old(depth)
              else k in depth && d == depth[k]
      decreases Elems(nodes) - visiting
    {
      hide ListsIn, Known, AllLead, Arc, Longest, Acyclic, Progress, Extends, Elems;
      ExtendsSelf(depth);
      if k in depth {
        return depth[k];
      }
      if k in visiting {
        return 0;
      }
      ghost var way, before := visiting, depth;
      visiting := visiting + {k};
      d := 0;
      InElems(nodes, k);
      InNodes(nodes, edges, adjIn, k);
      var preds := adjIn[k];
      Starting(nodes, edges, preds, k, way + {k}, depth);
      for i := 0 to |preds|
        invariant visiting == way + {k} && stack == visiting
        invariant Valid() && Extends(before, depth)
        invariant Progress(nodes, edges, preds, i, k, way + {k}, depth, d)
      {
        var u := preds[i];
        IsPred(nodes, edges, adjIn, k, i);
        if u in stack {
          PassedBy(nodes, edges, preds, i, k, way + {k}, depth, d);
          continue;
        }
        stack := stack + {u};
        LeadOn(nodes, edges, u, k, way);
        ghost var known := depth;
        var r := Dfs(u);
        Counting(nodes, edges, preds, i, k, way + {k}, before, known, depth, d, r);
        if d < r + 1 {
          d := r + 1;
        }
        stack := stack - {u};
        assert stack == visiting;
      }
      Finish(nodes, edges, adjIn, k, way, depth, d);
      ExtendsOn(before, depth, depth[k := d]);
      visiting := visiting - {k};
      assert visiting == way;
      depth := depth[k := d];
    }
  }

  lemma ExtendsSelf(a: map<Key, nat>)
    ensures Extends(a, a)
  {
  }

  lemma ExtendsOn(a: map<Key, nat>, b: map<Key, nat>, c: map<Key, nat>)
    requires Extends(a, b) && Extends(b, c)
    ensures Extends(a, c)
  {
  }

  lemma InElems(nodes: seq<Key>, k: Key)
    ensures k in Elems(nodes) <==> k in nodes
  {
  }

  lemma InNodes(nodes: seq<Key>, edges: seq<Edge>, adjIn: map<Key, seq<Key>>, k: Key)
    requires ListsIn(nodes, edges, adjIn) && k in nodes
    ensures k in adjIn
  {
  }

  lemma IsPred(nodes: seq<Key>, edges: seq<Edge>, adjIn: map<Key, seq<Key>>, k: Key, i: nat)
    requires ListsIn(nodes, edges, adjIn) && k in adjIn && i < |adjIn[k]|
    ensures Arc(nodes, edges, adjIn[k][i], k) && adjIn[k][i] in nodes
  {
    assert adjIn[k][i] in adjIn[k];
  }

  /** Each node gets one depth, below the number of nodes; without cycles it is
      the longest walk that ends there. */
  method Depths(nodes: seq<Key>, ghost edges: seq<Edge>, adjIn: map<Key, seq<Key>>) returns (depth: map<Key, nat>)
    requires ListsIn(nodes, edges, adjIn)
    ensures depth.Keys == Elems(nodes)
    ensures forall k :: k in depth ==> depth[k] < |Elems(nodes)|
    ensures Acyclic(nodes, edges) ==> forall k :: k in depth ==> Longest(nodes, edges, k, depth[k])
  {
    hide ListsIn, Longest, Acyclic, Known;
    var search := new DepthSearch(nodes, edges, adjIn);
    for i := 0 to |nodes|
      invariant search.nodes == nodes && search.edges == edges
      invariant search.Valid() && search.visiting == {}
      invariant forall j :: 0 <= j < i ==> nodes[j] in search.depth
    {
      search.stack := {nodes[i]};
      var d := search.Dfs(nodes[i]);
    }
    depth := search.depth;
    AllKnown(nodes, edges, depth);
  }

  lemma AllKnown(nodes: seq<Key>, edges: seq<Edge>, depth: map<Key, nat>)
    requires Known(nodes, edges, depth) && forall j :: 0 <= j < |nodes| ==> nodes[j] in depth
    ensures depth.Keys == Elems(nodes)
    ensures forall k :: k in depth ==> depth[k] < |Elems(nodes)|
    ensures Acyclic(nodes, edges) ==> forall k :: k in depth ==> Longest(nodes, edges, k, depth[k])
  {
    hide Longest, Acyclic;
    assert depth.Keys == Elems(nodes);
  }

  /** Without cycles every edge goes to a strictly later layer. */
  lemma EdgesGoDown(nodes: seq<Key>, edges: seq<Edge>, depth: map<Key, nat>, u: Key, v: Key)
    requires depth.Keys == Elems(nodes)
    requires forall k :: k in depth ==> Longest(nodes, edges, k, depth[k])
    requires Arc(nodes, edges, u, v)
    ensures depth[u] < depth[v]
  {
    assert u in Elems(nodes) && v in Elems(nodes);
    assert Longest(nodes, edges, u, depth[u]) && Longest(nodes, edges, v, depth[v]);
    var p :| IsWalk(nodes, edges, p) && p[|p| - 1] == u && |p| == depth[u] + 1;
    WalkSnoc(nodes, edges, p, v);
    assert (p + [v])[|p + [v]| - 1] == v;
  }

  // ----- layers

  function Group(nodes: seq<Key>, depth: map<Key, nat>, d: nat): seq<Key> {
    if nodes == [] then []
    else
      var n := nodes[|nodes| - 1];
      var r := Group(nodes[..|nodes| - 1], depth, d);
      if n in depth && depth[n] == d then r + [n] else r
  }

  lemma {:induction false} GroupMembers(nodes: seq<Key>, depth: map<Key, nat>, d: nat)
    ensures forall k :: k in Group(nodes, depth, d) <==> k in nodes && k in depth && depth[k] == d
    ensures Distinct(nodes) ==> Distinct(Group(nodes, depth, d))
  {
    if nodes != [] {
      var m := |nodes| - 1;
      GroupMembers(nodes[..m], depth, d);
      assert nodes == nodes[..m] + [nodes[m]];
    }
  }

  /** The layers are the depth groups, each in some order. */
  ghost predicate SameGroups(layers: map<nat, seq<Key>>, nodes: seq<Key>, depth: map<Key, nat>) {
    && (forall d :: d in layers ==> multiset(layers[d]) == multiset(Group(nodes, depth, d)))
    && forall k :: k in nodes && k in depth ==> depth[k] in layers
  }

  /** The position of k in ref, the last one; -1 if it is not there. */
  function Place(ref: seq<Key>, k: Key): (i: int)
    ensures i == -1 ==> k !in ref
    ensures i != -1 ==> 0 <= i < |ref| && ref[i] == k && k !in ref[i + 1..]
  {
    if ref == [] then -1
    else if ref[|ref| - 1] == k then |ref| - 1
    else Place(ref[..|ref| - 1], k)
  }

  /** The neighbours that are in ref, each as often as it is listed. */
  function Within(ns: seq<Key>, ref: seq<Key>): (r: seq<Key>)
    ensures forall k :: k in r <==> k in ns && k in ref
  {
    if ns == [] then []
    else
      var r := Within(ns[..|ns| - 1], ref);
      if ns[|ns| - 1] in ref then r + [ns[|ns| - 1]] else r
  }

  function Places(ns: seq<Key>, ref: seq<Key>): int {
    if ns == [] then 0 else Places(ns[..|ns| - 1], ref) + Place(ref, ns[|ns| - 1])
  }

  /** The mean position in ref of the neighbours there; without any, the middle. */
  function Mean(ns: seq<Key>, ref: seq<Key>): real {
    var there := Within(ns, ref);
    if there == [] then |Elems(ref)| as real / 2.0 else Places(there, ref) as real / |there| as real
  }

  /** The barycenter of each of the layer's nodes between its neighbours in ref. */
  method Barycenters(layer: seq<Key>, ref: seq<Key>, adj: map<Key, seq<Key>>) returns (bary: map<Key, real>)
    ensures forall n :: n in layer ==> n in bary && bary[n] == Mean(if n in adj then adj[n] else [], ref)
  {
    hide Mean;
    var index: map<Key, nat> := map[];
    for i := 0 to |ref|
      invariant forall k :: k in index <==> k in ref[..i]
      invariant forall k :: k in index ==> index[k] == Place(ref[..i], k)
    {
      assert ref[..i + 1][..i] == ref[..i] && ref[..i + 1] == ref[..i] + [ref[i]];
      index := index[ref[i] := i];
    }
    assert ref[..|ref|] == ref;
    assert index.Keys == Elems(ref);
    bary := map[];
    for i := 0 to |layer|
      invariant forall n :: n in layer[..i] ==> n in bary && bary[n] == Mean(if n in adj then adj[n] else [], ref)
    {
      var n := layer[i];
      var b := Barycenter(if n in adj then adj[n] else [], ref, index);
      bary := bary[n := b];
    }
    assert layer[..|layer|] == layer;
  }

  method Barycenter(ns: seq<Key>, ghost ref: seq<Key>, index: map<Key, nat>) returns (b: real)
    requires index.Keys == Elems(ref) && forall k :: k in index ==> index[k] == Place(ref, k)
    ensures b == Mean(ns, ref)
  {
    hide Place;
    var sum, count := 0, 0;
    for j := 0 to |ns|
      invariant count == |Within(ns[..j], ref)| && sum == Places(Within(ns[..j], ref), ref)
    {
      PlacesNext(ns, j, ref);
      assert ns[j] in index <==> ns[j] in Elems(ref);
      if ns[j] in index {
        sum, count := sum + index[ns[j]], count + 1;
      }
    }
    assert ns[..|ns|] == ns;
    b := if count > 0 then sum as real / count as real else |index| as real / 2.0;
    assert |index| == |index.Keys|;
  }

  lemma PlacesNext(ns: seq<Key>, j: nat, ref: seq<Key>)
    requires j < |ns|
    ensures var before, after := Within(ns[..j], ref), Within(ns[..j + 1], ref);
            if ns[j] in ref then
              |after| == |before| + 1 && Places(after, ref) == Places(before, ref) + Place(ref, ns[j])
            else after == before
  {
    hide Place;
    assert ns[..j + 1][..j] == ns[..j];
    var before := Within(ns[..j], ref);
    assert (before + [ns[j]])[..|before|] == before;
  }

  function At(layers: map<nat, seq<Key>>, d: int): seq<Key> {
    if d >= 0 && d in layers then layers[d] else []
  }

  /** The layer ascends by the mean position of its nodes' neighbours in ref, and by
      name where that is the same. */
  ghost predicate Ascends(layer: seq<Key>, ref: seq<Key>, adj: map<Key, seq<Key>>, byName: (Key, Key) -> bool) {
    forall i, j :: 0 <= i < j < |layer| ==> NotBehind(layer[i], layer[j], ref, adj, byName, layer)
  }

  ghost predicate NotBehind(a: Key, b: Key, ref: seq<Key>, adj: map<Key, seq<Key>>, byName: (Key, Key) -> bool,
                            layer: seq<Key>)
  {
    var x := Mean(if a in adj then adj[a] else [], ref);
    var y := Mean(if b in adj then adj[b] else [], ref);
    x < y || (x == y && (Sorting.Weak(layer, byName) ==> !byName(b, a)))
  }

  function Value(bary: map<Key, real>, k: Key): real {
    if k in bary then bary[k] else 0.0
  }

  /** The comparison the script sorts by. */
  function BaryBefore(bary: map<Key, real>, byName: (Key, Key) -> bool): (Key, Key) -> bool {
    (a: Key, b: Key) =>
      var (x, y) := (Value(bary, a), Value(bary, b));
      x < y || (x == y && byName(a, b))
  }

  ghost predicate Climbs(s: seq<Key>, bary: map<Key, real>) {
    forall i, j :: 0 <= i < j < |s| ==> Value(bary, s[i]) <= Value(bary, s[j])
  }

  lemma BaryRanks(layer: seq<Key>, bary: map<Key, real>, byName: (Key, Key) -> bool)
    ensures Climbs(Sorting.Sort(layer, BaryBefore(bary, byName)), bary)
  {
    hide Value;
    var before := BaryBefore(bary, byName);
    var high := (a: Key, b: Key) => Value(bary, a) <= Value(bary, b);
    Sorting.SortRanked(layer, before, high);
    var s := Sorting.Sort(layer, before);
    forall i, j | 0 <= i < j < |s| ensures Value(bary, s[i]) <= Value(bary, s[j]) {
      assert high(s[i], s[j]);
    }
  }

  lemma BaryWeak(layer: seq<Key>, bary: map<Key, real>, byName: (Key, Key) -> bool)
    requires Sorting.Weak(layer, byName)
    ensures Sorting.Weak(layer, BaryBefore(bary, byName))
  {
  }

  lemma SortedAscends(layer: seq<Key>, ref: seq<Key>, adj: map<Key, seq<Key>>, bary: map<Key, real>,
                      byName: (Key, Key) -> bool)
    requires forall n :: n in layer ==> n in bary && bary[n] == Mean(if n in adj then adj[n] else [], ref)
    ensures Ascends(Sorting.Sort(layer, BaryBefore(bary, byName)), ref, adj, byName)
  {
    hide Mean;
    var before := BaryBefore(bary, byName);
    var s := Sorting.Sort(layer, before);
    Sorting.SortElements(layer, before);
    BaryRanks(layer, bary, byName);
    if Sorting.Weak(s, byName) {
      SameWeak(s, layer, byName);
      BaryWeak(layer, bary, byName);
      Sorting.SortOrdered(layer, before);
    }
    hide Sorting.Weak;
    forall i, j | 0 <= i < j < |s| ensures NotBehind(s[i], s[j], ref, adj, byName, s) {
      assert s[i] in layer && s[j] in layer;
      assert Sorting.Weak(s, byName) ==> !before(s[j], s[i]);
      assert Value(bary, s[i]) <= Value(bary, s[j]);
      PairNotBehind(s[i], s[j], bary, byName);
    }
  }

  lemma PairNotBehind(a: Key, b: Key, bary: map<Key, real>, byName: (Key, Key) -> bool)
    requires a in bary && b in bary && bary[a] <= bary[b]
    ensures !BaryBefore(bary, byName)(b, a) ==> bary[a] < bary[b] || (bary[a] == bary[b] && !byName(b, a))
  {
  }

  lemma SameWeak(s: seq<Key>, t: seq<Key>, byName: (Key, Key) -> bool)
    requires Sorting.Weak(s, byName) && forall k :: k in t <==> k in s
    ensures Sorting.Weak(t, byName)
  {
  }

  /** Layer d ascends by the barycenters its nodes had in layer ref; all else is kept. */
  ghost predicate Reordered(layers: map<nat, seq<Key>>, r: map<nat, seq<Key>>, d: nat, ref: int,
                            adj: map<Key, seq<Key>>, byName: (Key, Key) -> bool)
  {
    && r.Keys == layers.Keys
    && (forall e :: e in layers ==> multiset(r[e]) == multiset(layers[e]))
    && (forall e :: e in layers && e != d ==> r[e] == layers[e])
    && Ascends(At(r, d), At(layers, ref), adj, byName)
  }

  /** One layer sorted by barycenter, then by name. */
  method Reorder(layers: map<nat, seq<Key>>, d: nat, ref: int, adj: map<Key, seq<Key>>, byName: (Key, Key) -> bool)
    returns (r: map<nat, seq<Key>>)
    ensures Reordered(layers, r, d, ref, adj, byName)
  {
    hide Ascends, Mean;
    var layer := At(layers, d);
    var bary := Barycenters(layer, At(layers, ref), adj);
    r := layers;
    if d in layers {
      var before := BaryBefore(bary, byName);
      Sorting.SortContents(layer, before);
      SortedAscends(layer, At(layers, ref), adj, bary, byName);
      r := layers[d := Sorting.Sort(layer, before)];
    } else {
      EmptyAscends(At(layers, ref), adj, byName);
    }
  }

  lemma EmptyAscends(ref: seq<Key>, adj: map<Key, seq<Key>>, byName: (Key, Key) -> bool)
    ensures Ascends([], ref, adj, byName)
  {
  }

  /** The layers of one chain: every node in the layer of its depth, whatever the
      crossing reduction does. */
  method LayoutDatabase(nodes: seq<Key>, edges: seq<Edge>, byName: (Key, Key) -> bool)
    returns (layers: map<nat, seq<Key>>, maxDepth: nat, ghost depth: map<Key, nat>)
    ensures depth.Keys == Elems(nodes)
    ensures forall k :: k in depth ==> depth[k] < |Elems(nodes)| && depth[k] <= maxDepth
    ensures maxDepth == 0 || exists k :: k in depth && depth[k] == maxDepth
    ensures Acyclic(nodes, edges) ==> forall k :: k in depth ==> Longest(nodes, edges, k, depth[k])
    ensures SameGroups(layers, nodes, depth)
    ensures Uncrossed(layers, maxDepth, nodes, edges, byName)
  {
    hide Longest, Acyclic, ListsIn, ListsOut, Wired, Uncrossed;
    var adjOut, adjIn := Directed(nodes, edges);
    var depths := Depths(nodes, edges, adjIn);
    depth := depths;
    layers, maxDepth := map[], 0;
    for i := 0 to |nodes|
      invariant forall d :: d in layers ==> layers[d] == Group(nodes[..i], depths, d)
      invariant forall d :: d !in layers ==> Group(nodes[..i], depths, d) == []
      invariant forall k :: k in nodes[..i] ==> k in depths && depths[k] in layers && depths[k] <= maxDepth
      invariant maxDepth == 0 || exists k :: k in depths && depths[k] == maxDepth
    {
      var n := nodes[i];
      assert n in Elems(nodes);
      var d := depths[n];
      assert nodes[..i + 1][..i] == nodes[..i] && nodes[..i + 1] == nodes[..i] + [n];
      if d !in layers {
        layers := layers[d := []];
      }
      layers := layers[d := layers[d] + [n]];
      if d > maxDepth {
        maxDepth := d;
      }
    }
    assert nodes[..|nodes|] == nodes;
    layers := Permuted(layers, maxDepth, adjIn, adjOut, byName, nodes, edges, depths);
    forall k | k in depths ensures depths[k] <= maxDepth {
      assert k in Elems(nodes);
    }
  }

  /** The layer ascends by the mean position in ref of where its nodes' edges lead. */
  ghost predicate FacesBelow(layer: seq<Key>, ref: seq<Key>, nodes: seq<Key>, edges: seq<Edge>,
                             byName: (Key, Key) -> bool)
  {
    forall i, j :: 0 <= i < j < |layer| ==>
      var x, y := Mean(Targets(nodes, edges, layer[i]), ref), Mean(Targets(nodes, edges, layer[j]), ref);
      x < y || (x == y && (Sorting.Weak(layer, byName) ==> !byName(layer[j], layer[i])))
  }

  /** The layer ascends by the mean position in ref of where its nodes' edges come from. */
  ghost predicate FacesAbove(layer: seq<Key>, ref: seq<Key>, nodes: seq<Key>, edges: seq<Edge>,
                             byName: (Key, Key) -> bool)
  {
    forall i, j :: 0 <= i < j < |layer| ==>
      var x, y := Mean(Sources(nodes, edges, layer[i]), ref), Mean(Sources(nodes, edges, layer[j]), ref);
      x < y || (x == y && (Sorting.Weak(layer, byName) ==> !byName(layer[j], layer[i])))
  }

  /** Every layer but the last faces the next one as it is in the end; the last one
      faces some order of the layer before it. A single layer goes by name. */
  ghost predicate Uncrossed(layers: map<nat, seq<Key>>, maxDepth: nat, nodes: seq<Key>, edges: seq<Edge>,
                            byName: (Key, Key) -> bool)
  {
    && (forall d :: 0 <= d < maxDepth ==> FacesBelow(At(layers, d), At(layers, d + 1), nodes, edges, byName))
    && (maxDepth > 0 ==> exists ref ::
          && multiset(ref) == multiset(At(layers, maxDepth - 1))
          && FacesAbove(At(layers, maxDepth), ref, nodes, edges, byName))
    && (maxDepth == 0 && Sorting.Weak(At(layers, 0), byName) ==> Sorting.Ordered(At(layers, 0), byName))
  }

  lemma AscendsFaces(layer: seq<Key>, ref: seq<Key>, nodes: seq<Key>, edges: seq<Edge>, adjOut: map<Key, seq<Key>>,
                     adjIn: map<Key, seq<Key>>, byName: (Key, Key) -> bool)
    requires Wired(nodes, edges, adjOut, adjIn) && forall k :: k in layer ==> k in nodes
    ensures Ascends(layer, ref, adjOut, byName) ==> FacesBelow(layer, ref, nodes, edges, byName)
    ensures Ascends(layer, ref, adjIn, byName) ==> FacesAbove(layer, ref, nodes, edges, byName)
  {
    hide Mean, Targets, Sources, Sorting.Weak;
    forall i, j | 0 <= i < j < |layer| ensures layer[i] in nodes && layer[j] in nodes {
      assert layer[i] in layer && layer[j] in layer;
    }
  }

  lemma LayerNodes(layers: map<nat, seq<Key>>, nodes: seq<Key>, depth: map<Key, nat>, d: nat)
    requires SameGroups(layers, nodes, depth)
    ensures forall k :: k in At(layers, d) ==> k in nodes
  {
    if d in layers {
      GroupMembers(nodes, depth, d);
      assert forall k :: k in layers[d] <==> k in multiset(layers[d]);
      assert forall k :: k in Group(nodes, depth, d) <==> k in multiset(Group(nodes, depth, d));
    }
  }

  ghost predicate NamesIfFlat(layers: map<nat, seq<Key>>, maxDepth: nat, byName: (Key, Key) -> bool) {
    maxDepth == 0 && Sorting.Weak(At(layers, 0), byName) ==> Sorting.Ordered(At(layers, 0), byName)
  }

  ghost predicate FacesLast(layers: map<nat, seq<Key>>, maxDepth: nat, ref: seq<Key>, nodes: seq<Key>, edges: seq<Edge>,
                            byName: (Key, Key) -> bool)
  {
    && multiset(ref) == multiset(At(layers, maxDepth - 1))
    && FacesAbove(At(layers, maxDepth), ref, nodes, edges, byName)
  }

  /** The name sort and the eight rounds of barycenter passes. */
  method Permuted(start: map<nat, seq<Key>>, maxDepth: nat, adjIn: map<Key, seq<Key>>, adjOut: map<Key, seq<Key>>,
                  byName: (Key, Key) -> bool, ghost nodes: seq<Key>, ghost edges: seq<Edge>, ghost depth: map<Key, nat>)
    returns (layers: map<nat, seq<Key>>)
    requires SameGroups(start, nodes, depth) && Wired(nodes, edges, adjOut, adjIn)
    ensures SameGroups(layers, nodes, depth) && Uncrossed(layers, maxDepth, nodes, edges, byName)
  {
    hide FacesBelow, Wired, SameGroups, NamesIfFlat, FacesLast;
    layers := SortNames(start, maxDepth, byName, nodes, depth);
    ghost var ref := [];
    for iter := 0 to 8
      invariant SameGroups(layers, nodes, depth) && NamesIfFlat(layers, maxDepth, byName)
      invariant iter > 0 ==>
                  forall e :: 0 <= e < maxDepth ==> FacesBelow(At(layers, e), At(layers, e + 1), nodes, edges, byName)
      invariant iter > 0 && maxDepth > 0 ==> FacesLast(layers, maxDepth, ref, nodes, edges, byName)
    {
      layers, ref := Downward(layers, maxDepth, adjIn, adjOut, byName, nodes, edges, depth);
      layers := Upward(layers, maxDepth, adjIn, adjOut, byName, nodes, edges, depth, ref);
    }
    Together(layers, maxDepth, ref, nodes, edges, byName);
  }

  lemma Together(layers: map<nat, seq<Key>>, maxDepth: nat, ref: seq<Key>, nodes: seq<Key>, edges: seq<Edge>,
                 byName: (Key, Key) -> bool)
    requires forall e :: 0 <= e < maxDepth ==> FacesBelow(At(layers, e), At(layers, e + 1), nodes, edges, byName)
    requires maxDepth > 0 ==> FacesLast(layers, maxDepth, ref, nodes, edges, byName)
    requires NamesIfFlat(layers, maxDepth, byName)
    ensures Uncrossed(layers, maxDepth, nodes, edges, byName)
  {
    hide FacesBelow, FacesAbove, Sorting.Weak, At;
  }

  method Downward(start: map<nat, seq<Key>>, maxDepth: nat, adjIn: map<Key, seq<Key>>, ghost adjOut: map<Key, seq<Key>>,
                  byName: (Key, Key) -> bool, ghost nodes: seq<Key>, ghost edges: seq<Edge>, ghost depth: map<Key, nat>)
    returns (layers: map<nat, seq<Key>>, ghost ref: seq<Key>)
    requires SameGroups(start, nodes, depth) && Wired(nodes, edges, adjOut, adjIn)
    requires NamesIfFlat(start, maxDepth, byName)
    ensures SameGroups(layers, nodes, depth) && NamesIfFlat(layers, maxDepth, byName)
    ensures maxDepth > 0 ==> FacesLast(layers, maxDepth, ref, nodes, edges, byName)
  {
    hide FacesLast, FacesBelow, Wired, SameGroups, NamesIfFlat, Reordered, At;
    layers, ref := start, [];
    for d := 1 to maxDepth + 1
      invariant SameGroups(layers, nodes, depth) && NamesIfFlat(layers, maxDepth, byName)
      invariant d == maxDepth + 1 && maxDepth > 0 ==> FacesLast(layers, maxDepth, ref, nodes, edges, byName)
    {
      ref := At(layers, d - 1);
      ghost var earlier := layers;
      layers := Reorder(layers, d, d - 1, adjIn, byName);
      DownStep(earlier, layers, d, maxDepth, adjIn, adjOut, byName, nodes, edges, depth);
    }
  }

  lemma DownStep(layers: map<nat, seq<Key>>, more: map<nat, seq<Key>>, d: nat, maxDepth: nat, adjIn: map<Key, seq<Key>>,
                 adjOut: map<Key, seq<Key>>, byName: (Key, Key) -> bool, nodes: seq<Key>, edges: seq<Edge>,
                 depth: map<Key, nat>)
    requires SameGroups(layers, nodes, depth) && Wired(nodes, edges, adjOut, adjIn)
    requires 1 <= d <= maxDepth && Reordered(layers, more, d, d - 1, adjIn, byName)
    ensures SameGroups(more, nodes, depth) && NamesIfFlat(more, maxDepth, byName)
    ensures d == maxDepth ==> FacesLast(more, maxDepth, At(layers, d - 1), nodes, edges, byName)
  {
    hide Ascends, FacesAbove, FacesBelow, Wired, Mean, Sorting.Weak;
    GroupsKept(layers, more, nodes, depth);
    LayerNodes(more, nodes, depth, d);
    hide SameGroups;
    AscendsFaces(At(more, d), At(layers, d - 1), nodes, edges, adjOut, adjIn, byName);
    assert At(more, d - 1) == At(layers, d - 1);
  }

  lemma UpStep(layers: map<nat, seq<Key>>, more: map<nat, seq<Key>>, d: nat, maxDepth: nat, adjIn: map<Key, seq<Key>>,
               adjOut: map<Key, seq<Key>>, byName: (Key, Key) -> bool, nodes: seq<Key>, edges: seq<Edge>,
               depth: map<Key, nat>, ref: seq<Key>)
    requires SameGroups(layers, nodes, depth) && Wired(nodes, edges, adjOut, adjIn)
    requires d < maxDepth && Reordered(layers, more, d, d + 1, adjOut, byName)
    requires FacesLast(layers, maxDepth, ref, nodes, edges, byName)
    ensures SameGroups(more, nodes, depth) && NamesIfFlat(more, maxDepth, byName)
    ensures FacesLast(more, maxDepth, ref, nodes, edges, byName)
    ensures forall e :: d < e ==> At(more, e) == At(layers, e)
    ensures FacesBelow(At(more, d), At(more, d + 1), nodes, edges, byName)
  {
    hide Ascends, FacesAbove, FacesBelow, Wired, Mean, Sorting.Weak;
    GroupsKept(layers, more, nodes, depth);
    LayerNodes(more, nodes, depth, d);
    hide SameGroups;
    AscendsFaces(At(more, d), At(layers, d + 1), nodes, edges, adjOut, adjIn, byName);
    assert forall e: int :: e != d ==> At(more, e) == At(layers, e);
    assert multiset(At(more, maxDepth - 1)) == multiset(At(layers, maxDepth - 1));
  }

  method Upward(start: map<nat, seq<Key>>, maxDepth: nat, ghost adjIn: map<Key, seq<Key>>, adjOut: map<Key, seq<Key>>,
                byName: (Key, Key) -> bool, ghost nodes: seq<Key>, ghost edges: seq<Edge>, ghost depth: map<Key, nat>,
                ghost ref: seq<Key>)
    returns (layers: map<nat, seq<Key>>)
    requires SameGroups(start, nodes, depth) && Wired(nodes, edges, adjOut, adjIn)
    requires NamesIfFlat(start, maxDepth, byName)
    requires maxDepth > 0 ==> FacesLast(start, maxDepth, ref, nodes, edges, byName)
    ensures SameGroups(layers, nodes, depth) && NamesIfFlat(layers, maxDepth, byName)
    ensures maxDepth > 0 ==> FacesLast(layers, maxDepth, ref, nodes, edges, byName)
    ensures forall e :: 0 <= e < maxDepth ==> FacesBelow(At(layers, e), At(layers, e + 1), nodes, edges, byName)
  {
    hide FacesLast, FacesBelow, Wired, SameGroups, NamesIfFlat, Reordered, At;
    layers := start;
    var d: int := maxDepth - 1;
    while d >= 0
      invariant -1 <= d < maxDepth && SameGroups(layers, nodes, depth) && NamesIfFlat(layers, maxDepth, byName)
      invariant forall e :: d < e < maxDepth ==> FacesBelow(At(layers, e), At(layers, e + 1), nodes, edges, byName)
      invariant maxDepth > 0 ==> FacesLast(layers, maxDepth, ref, nodes, edges, byName)
    {
      ghost var before := layers;
      layers := Reorder(layers, d, d + 1, adjOut, byName);
      UpStep(before, layers, d, maxDepth, adjIn, adjOut, byName, nodes, edges, depth, ref);
      d := d - 1;
    }
  }

  lemma GroupsKept(layers: map<nat, seq<Key>>, more: map<nat, seq<Key>>, nodes: seq<Key>, depth: map<Key, nat>)
    requires SameGroups(layers, nodes, depth) && more.Keys == layers.Keys
    requires forall d :: d in layers ==> multiset(more[d]) == multiset(layers[d])
    ensures SameGroups(more, nodes, depth)
  {
  }

  method SortNames(start: map<nat, seq<Key>>, maxDepth: nat, byName: (Key, Key) -> bool, ghost nodes: seq<Key>,
                   ghost depth: map<Key, nat>)
    returns (layers: map<nat, seq<Key>>)
    requires SameGroups(start, nodes, depth)
    ensures SameGroups(layers, nodes, depth)
    ensures NamesIfFlat(layers, maxDepth, byName)
  {
    hide Sorting.Weak, Sorting.Ordered, SameGroups;
    layers := start;
    for d := 0 to maxDepth + 1
      invariant SameGroups(layers, nodes, depth)
      invariant d > 0 && Sorting.Weak(At(layers, 0), byName) ==> Sorting.Ordered(At(layers, 0), byName)
    {
      if d in layers {
        ghost var before := layers;
        NamesSorted(layers[d], byName);
        layers := layers[d := Sorting.Sort(layers[d], byName)];
        GroupsKept(before, layers, nodes, depth);
      } else if d == 0 {
        NothingOrdered(byName);
      }
    }
  }

  lemma NamesSorted(layer: seq<Key>, byName: (Key, Key) -> bool)
    ensures var s := Sorting.Sort(layer, byName);
            multiset(s) == multiset(layer) && (Sorting.Weak(s, byName) ==> Sorting.Ordered(s, byName))
  {
    hide Sorting.Weak, Sorting.Ordered;
    Sorting.SortContents(layer, byName);
    Sorting.SortElements(layer, byName);
    var s := Sorting.Sort(layer, byName);
    if Sorting.Weak(s, byName) {
      SameWeak(s, layer, byName);
      Sorting.SortOrdered(layer, byName);
    }
  }

  lemma NothingOrdered(byName: (Key, Key) -> bool)
    ensures Sorting.Ordered([], byName)
  {
  }
}
