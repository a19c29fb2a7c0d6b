/** connectedComponentsIn: groups of tables by a stack search. */
module GraphComponents {

  type Key = string

  datatype Edge = Edge(from: Key, to: Key)

  predicate Distinct(s: seq<Key>) {
    forall i, j :: 0 <= i < j < |s| ==> s[i] != s[j]
  }

  // ----- being joined

  /** An edge inside the set, in either direction. */
  predicate Linked(nodes: seq<Key>, edges: seq<Edge>, u: Key, v: Key) {
    u in nodes && v in nodes && (Edge(u, v) in edges || Edge(v, u) in edges)
  }

  ghost predicate IsPath(nodes: seq<Key>, edges: seq<Edge>, p: seq<Key>) {
    && p != []
    && (forall i :: 0 <= i < |p| ==> p[i] in nodes)
    && forall i :: 0 <= i < |p| - 1 ==> Linked(nodes, edges, p[i], p[i + 1])
  }

  ghost predicate Joined(nodes: seq<Key>, edges: seq<Edge>, u: Key, v: Key) {
    exists p :: IsPath(nodes, edges, p) && p[0] == u && p[|p| - 1] == v
  }

  lemma JoinedSelf(nodes: seq<Key>, edges: seq<Edge>, u: Key)
    requires u in nodes
    ensures Joined(nodes, edges, u, u)
  {
    assert IsPath(nodes, edges, [u]);
  }

  lemma JoinedStep(nodes: seq<Key>, edges: seq<Edge>, u: Key, v: Key, w: Key)
    requires Joined(nodes, edges, u, v) && Linked(nodes, edges, v, w)
    ensures Joined(nodes, edges, u, w)
  {
    var p :| IsPath(nodes, edges, p) && p[0] == u && p[|p| - 1] == v;
    var q := p + [w];
    assert forall i :: 0 <= i < |q| - 1 ==> q[i] == p[i];
    assert IsPath(nodes, edges, q);
  }

  lemma PathTail(nodes: seq<Key>, edges: seq<Edge>, p: seq<Key>)
    requires IsPath(nodes, edges, p) && |p| > 1
    ensures IsPath(nodes, edges, p[1..]) && Linked(nodes, edges, p[0], p[1])
  {
    var q := p[1..];
    forall i | 0 <= i < |q| - 1 ensures Linked(nodes, edges, q[i], q[i + 1]) {
      assert Linked(nodes, edges, p[i + 1], p[i + 2]);
    }
  }

  lemma {:induction false} PathBack(nodes: seq<Key>, edges: seq<Edge>, p: seq<Key>)
    requires IsPath(nodes, edges, p)
    ensures Joined(nodes, edges, p[|p| - 1], p[0])
    decreases |p|
  {
    if |p| == 1 {
      JoinedSelf(nodes, edges, p[0]);
    } else {
      var q := p[1..];
      PathTail(nodes, edges, p);
      PathBack(nodes, edges, q);
      JoinedStep(nodes, edges, p[|p| - 1], p[1], p[0]);
    }
  }

  lemma {:induction false} PathOn(nodes: seq<Key>, edges: seq<Edge>, u: Key, p: seq<Key>)
    requires IsPath(nodes, edges, p) && Joined(nodes, edges, u, p[0])
    ensures Joined(nodes, edges, u, p[|p| - 1])
    decreases |p|
  {
    if |p| > 1 {
      var q := p[1..];
      PathTail(nodes, edges, p);
      JoinedStep(nodes, edges, u, p[0], p[1]);
      PathOn(nodes, edges, u, q);
    }
  }

  /** Two nodes joined to a third are joined to each other. */
  lemma JoinedVia(nodes: seq<Key>, edges: seq<Edge>, s: Key, u: Key, v: Key)
    requires Joined(nodes, edges, s, u) && Joined(nodes, edges, s, v)
    ensures Joined(nodes, edges, u, v)
  {
    var p :| IsPath(nodes, edges, p) && p[0] == s && p[|p| - 1] == u;
    PathBack(nodes, edges, p);
    var q :| IsPath(nodes, edges, q) && q[0] == s && q[|q| - 1] == v;
    PathOn(nodes, edges, u, q);
  }

  ghost predicate ClosedUnderLinks(nodes: seq<Key>, edges: seq<Edge>, c: set<Key>) {
    forall u, v :: u in c && Linked(nodes, edges, u, v) ==> v in c
  }

  lemma {:induction false} PathStays(nodes: seq<Key>, edges: seq<Edge>, c: set<Key>, p: seq<Key>)
    requires ClosedUnderLinks(nodes, edges, c) && IsPath(nodes, edges, p) && p[0] in c
    ensures p[|p| - 1] in c
    decreases |p|
  {
    if |p| > 1 {
      var q := p[1..];
      PathTail(nodes, edges, p);
      PathStays(nodes, edges, c, q);
    }
  }

  // ----- the adjacency lists

  ghost predicate Lists(nodes: seq<Key>, edges: seq<Edge>, adj: map<Key, seq<Key>>) {
    && (forall k :: k in adj <==> k in nodes)
    && forall v, u :: v in adj ==> (u in adj[v] <==> Linked(nodes, edges, v, u))
  }

  method Adjacency(nodes: seq<Key>, edges: seq<Edge>) returns (adj: map<Key, seq<Key>>)
    ensures Lists(nodes, edges, adj)
  {
    adj := map[];
    for i := 0 to |nodes|
      invariant forall k :: k in adj <==> k in nodes[..i]
      invariant forall k :: k in adj ==> adj[k] == []
    {
      adj := adj[nodes[i] := []];
    }
    assert nodes[..|nodes|] == nodes;
    for i := 0 to |edges|
      invariant Lists(nodes, edges[..i], adj)
    {
      var e := edges[i];
      ghost var before := adj;
      if e.from in adj && e.to in adj {
        adj := adj[e.from := adj[e.from] + [e.to]];
        adj := adj[e.to := adj[e.to] + [e.from]];
      }
      forall v, u | v in adj ensures u in adj[v] <==> Linked(nodes, edges[..i + 1], v, u) {
        assert edges[..i + 1] == edges[..i] + [e];
        assert u in before[v] <==> Linked(nodes, edges[..i], v, u);
      }
    }
    assert edges[..|edges|] == edges;
  }

  // ----- the search

  function Elems(s: seq<Key>): set<Key> {
    set k | k in s
  }

  function AllOf(comps: seq<seq<Key>>): set<Key> {
    set c, k | c in comps && k in c :: k
  }

  /** The group holds exactly the nodes joined to start, each once. */
  ghost predicate IsComponent(nodes: seq<Key>, edges: seq<Edge>, start: Key, comp: seq<Key>) {
    && Distinct(comp) && start in comp
    && forall v :: v in comp <==> v in nodes && Joined(nodes, edges, start, v)
  }

  ghost predicate Components(nodes: seq<Key>, edges: seq<Edge>, comps: seq<seq<Key>>) {
    && (forall i :: 0 <= i < |comps| ==> comps[i] != [] && IsComponent(nodes, edges, comps[i][0], comps[i]))
    && (forall i, j, k :: 0 <= i < j < |comps| && k in comps[i] ==> k !in comps[j])
  }

  /** One search from start; it meets only nodes not seen before. */
  method Search(nodes: seq<Key>, ghost edges: seq<Edge>, adj: map<Key, seq<Key>>, seen0: set<Key>, start: Key)
    returns (seen: set<Key>, comp: seq<Key>)
    requires Lists(nodes, edges, adj)
    requires ClosedUnderLinks(nodes, edges, seen0)
    requires start in nodes && start !in seen0
    ensures comp != [] && comp[0] == start
    ensures IsComponent(nodes, edges, start, comp)
    ensures seen == seen0 + Elems(comp) && seen0 !! Elems(comp)
    ensures ClosedUnderLinks(nodes, edges, seen)
  {
    hide Joined;
    var stack := [start];
    comp := [];
    seen := seen0 + {start};
    ghost var all := Elems(nodes);
    JoinedSelf(nodes, edges, start);
    while |stack| > 0
      invariant Distinct(comp) && Distinct(stack)
      invariant Elems(comp) !! Elems(stack) && seen0 !! Elems(comp) && seen0 !! Elems(stack)
      invariant seen == seen0 + Elems(comp) + Elems(stack)
      invariant forall k :: k in comp || k in stack ==> k in nodes && Joined(nodes, edges, start, k)
      invariant forall u, v :: u in comp && Linked(nodes, edges, u, v) ==> v in seen
      invariant comp == [] ==> stack == [start]
      invariant comp != [] ==> comp[0] == start
      decreases all - Elems(comp)
    {
      ghost var comp0, stack0 := comp, stack;
      var v := stack[|stack| - 1];
      stack := stack[..|stack| - 1];
      comp := comp + [v];
      assert Elems(stack0) == Elems(stack) + {v} && v !in Elems(stack);
      assert Elems(comp) == Elems(comp0) + {v};
      assert v in all && v !in Elems(comp0);
      ghost var base := stack;
      for i := 0 to |adj[v]|
        invariant Distinct(stack)
        invariant Elems(comp) !! Elems(stack) && seen0 !! Elems(stack)
        invariant seen == seen0 + Elems(comp) + Elems(stack)
        invariant forall k :: k in stack ==> k in nodes && Joined(nodes, edges, start, k)
        invariant forall k :: 0 <= k < i ==> adj[v][k] in seen
        invariant Elems(base) <= Elems(stack)
      {
        var u := adj[v][i];
        assert u in adj[v] && Linked(nodes, edges, v, u);
        if u !in seen {
          JoinedStep(nodes, edges, start, v, u);
          seen := seen + {u};
          ghost var s0 := stack;
          stack := stack + [u];
          assert Elems(stack) == Elems(s0) + {u};
        }
      }
      forall w | Linked(nodes, edges, v, w) ensures w in seen {
        assert w in adj[v];
      }
    }
    SearchDone(nodes, edges, seen0, start, comp);
  }

  lemma SearchDone(nodes: seq<Key>, edges: seq<Edge>, seen0: set<Key>, start: Key, comp: seq<Key>)
    requires ClosedUnderLinks(nodes, edges, seen0)
    requires comp != [] && comp[0] == start && Distinct(comp) && seen0 !! Elems(comp)
    requires forall k :: k in comp ==> k in nodes && Joined(nodes, edges, start, k)
    requires forall u, v :: u in comp && Linked(nodes, edges, u, v) ==> v in seen0 + Elems(comp)
    ensures IsComponent(nodes, edges, start, comp)
    ensures ClosedUnderLinks(nodes, edges, seen0 + Elems(comp))
  {
    forall u, v | u in Elems(comp) && Linked(nodes, edges, u, v) ensures v in Elems(comp) {
      if v in seen0 {
        assert Linked(nodes, edges, v, u);
      }
    }
    assert ClosedUnderLinks(nodes, edges, Elems(comp));
    forall v | v in nodes && Joined(nodes, edges, start, v) ensures v in comp {
      var p :| IsPath(nodes, edges, p) && p[0] == start && p[|p| - 1] == v;
      PathStays(nodes, edges, Elems(comp), p);
    }
  }

  lemma OneMore(nodes: seq<Key>, edges: seq<Edge>, comps: seq<seq<Key>>, comp: seq<Key>)
    requires Components(nodes, edges, comps) && comp != [] && IsComponent(nodes, edges, comp[0], comp)
    requires AllOf(comps) !! Elems(comp)
    ensures Components(nodes, edges, comps + [comp])
    ensures AllOf(comps + [comp]) == AllOf(comps) + Elems(comp)
  {
    hide IsComponent;
    var all := comps + [comp];
    assert comp in all && forall c :: c in comps ==> c in all;
    forall j, k | 0 <= j < |comps| && k in comps[j] ensures k !in comp {
      assert comps[j] in comps && k in AllOf(comps);
      assert k in comp ==> k in Elems(comp);
    }
  }

  method ConnectedComponentsIn(nodes: seq<Key>, edges: seq<Edge>) returns (comps: seq<seq<Key>>)
    ensures Components(nodes, edges, comps)
    ensures AllOf(comps) == Elems(nodes)
  {
    hide IsComponent, ClosedUnderLinks, Components, AllOf, Lists;
    var adj := Adjacency(nodes, edges);
    var seen: set<Key> := {};
    comps := [];
    Nothing(nodes, edges);
    for i := 0 to |nodes|
      invariant seen == AllOf(comps)
      invariant forall k :: k in seen ==> k in nodes
      invariant forall k :: k in nodes[..i] ==> k in seen
      invariant ClosedUnderLinks(nodes, edges, seen)
      invariant Components(nodes, edges, comps)
    {
      var start := nodes[i];
      if start in seen {
        continue;
      }
      var comp;
      seen, comp := Search(nodes, edges, adj, seen, start);
      Members(nodes, edges, comp);
      OneMore(nodes, edges, comps, comp);
      comps := comps + [comp];
    }
    assert nodes[..|nodes|] == nodes;
  }

  lemma Nothing(nodes: seq<Key>, edges: seq<Edge>)
    ensures Components(nodes, edges, []) && AllOf([]) == {} && ClosedUnderLinks(nodes, edges, {})
  {
  }

  lemma Members(nodes: seq<Key>, edges: seq<Edge>, comp: seq<Key>)
    requires comp != [] && IsComponent(nodes, edges, comp[0], comp)
    ensures forall k :: k in Elems(comp) ==> k in nodes
    ensures comp[0] in Elems(comp)
  {
  }

  /** Two nodes stand in the same group exactly when a path of links inside the
      set joins them. */
  lemma SameGroup(nodes: seq<Key>, edges: seq<Edge>, comps: seq<seq<Key>>, i: nat, u: Key, v: Key)
    requires Components(nodes, edges, comps) && i < |comps| && u in comps[i] && v in nodes
    ensures v in comps[i] <==> Joined(nodes, edges, u, v)
  {
    var s := comps[i][0];
    assert IsComponent(nodes, edges, s, comps[i]);
    JoinedSelf(nodes, edges, s);
    if v in comps[i] {
      JoinedVia(nodes, edges, s, u, v);
    }
    if Joined(nodes, edges, u, v) {
      var p :| IsPath(nodes, edges, p) && p[0] == u && p[|p| - 1] == v;
      PathOn(nodes, edges, s, p);
    }
  }
}
