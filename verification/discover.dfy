/** One node per machine out of system.clusters, and the printed commands. */
module Discover {
  import opened Wrappers
  import Ordering
  import Sorting

  const LOCAL_KEY := "\0local"

  datatype Row = Row(cluster: string, shardNum: int, replicaNum: int, hostName: string, hostAddress: string,
                     isLocal: int, errorsCount: int)

  datatype Node = Node(host: string, address: string, shard: int, replica: int, local: bool, errors: int,
                       multiShard: bool)

  /** A node with what ranks the row it is labelled from. */
  datatype Ranked = Ranked(node: Node, shards: nat, notDefault: bool)

  /** The machine a row is about; none for a loopback row of another server. */
  function MachineOf(r: Row, loopback: string -> bool): Option<string> {
    if r.isLocal == 1 then Some(LOCAL_KEY)
    else if loopback(r.hostAddress) then None
    else Some(r.hostAddress)
  }

  function ShardsOf(rows: seq<Row>, cluster: string): set<int> {
    set r | r in rows && r.cluster == cluster :: r.shardNum
  }

  function RankedOf(r: Row, all: seq<Row>): Ranked {
    var shards := |ShardsOf(all, r.cluster)|;
    Ranked(Node(r.hostName, r.hostAddress, r.shardNum, r.replicaNum, r.isLocal == 1, r.errorsCount, shards > 1), shards,
           r.cluster != "default")
  }

  predicate Better(a: Ranked, b: Ranked) {
    if a.shards != b.shards then a.shards > b.shards else a.notDefault && !b.notDefault
  }

  function Max(a: int, b: int): int {
    if a > b then a else b
  }

  /** Two rows of one machine: the later one's label only when it ranks higher, the
      larger error count in any case. */
  function Merge(cur: Ranked, cand: Ranked): Ranked {
    var best := if Better(cand, cur) then cand else cur;
    best.(node := best.node.(errors := Max(cur.node.errors, cand.node.errors)))
  }

  /** The node of one machine after these rows. */
  function Folded(rows: seq<Row>, all: seq<Row>, key: string, loopback: string -> bool): Option<Ranked> {
    if rows == [] then None
    else
      var r, cur := rows[|rows| - 1], Folded(rows[..|rows| - 1], all, key, loopback);
      if MachineOf(r, loopback) != Some(key) then cur
      else if cur.None? then Some(RankedOf(r, all))
      else Some(Merge(cur.value, RankedOf(r, all)))
  }

  // ----- what a machine's node is

  predicate Of(rows: seq<Row>, i: int, key: string, loopback: string -> bool) {
    0 <= i < |rows| && MachineOf(rows[i], loopback) == Some(key)
  }

  /** Row i ranks above every earlier row of the machine, and no later one ranks above it. */
  ghost predicate FirstBest(rows: seq<Row>, all: seq<Row>, i: int, key: string, loopback: string -> bool) {
    && Of(rows, i, key, loopback)
    && (forall j :: 0 <= j < i && Of(rows, j, key, loopback) ==> Better(RankedOf(rows[i], all), RankedOf(rows[j], all)))
    && forall j :: i < j < |rows| && Of(rows, j, key, loopback) ==>
         !Better(RankedOf(rows[j], all), RankedOf(rows[i], all))
  }

  function Shards(all: seq<Row>, r: Row): nat {
    |ShardsOf(all, r.cluster)|
  }

  /** Which row that is: one from a cluster with the most shards, not the one called
      default if another has as many, and the first of these. */
  lemma FirstBestMeans(rows: seq<Row>, all: seq<Row>, i: int, key: string, loopback: string -> bool)
    ensures FirstBest(rows, all, i, key, loopback) <==>
            && Of(rows, i, key, loopback)
            && (forall j :: Of(rows, j, key, loopback) ==> Shards(all, rows[j]) <= Shards(all, rows[i]))
            && (forall j :: Of(rows, j, key, loopback) && Shards(all, rows[j]) == Shards(all, rows[i]) ==>
                  && (rows[i].cluster == "default" ==> rows[j].cluster == "default")
                  && (j < i ==> rows[i].cluster != "default" && rows[j].cluster == "default"))
  {
    hide MachineOf, ShardsOf;
  }

  /** The largest error count of the machine's rows. */
  ghost predicate MostErrors(rows: seq<Row>, key: string, loopback: string -> bool, errors: int) {
    && (exists i :: Of(rows, i, key, loopback) && rows[i].errorsCount == errors)
    && forall i :: Of(rows, i, key, loopback) ==> rows[i].errorsCount <= errors
  }

  lemma BetterOrder(a: Ranked, b: Ranked, c: Ranked)
    ensures Better(a, b) && Better(b, c) ==> Better(a, c)
    ensures Better(a, b) && !Better(c, b) ==> Better(a, c)
    ensures Better(b, c) && !Better(b, a) ==> Better(a, c)
    ensures !Better(a, a)
  {
  }

  /** The machine's node is labelled from the first row of maximal rank and carries
      the largest error count; there is none exactly when no row is about it. */
  lemma {:induction false} FoldedMeans(rows: seq<Row>, all: seq<Row>, key: string, loopback: string -> bool)
    returns (i: int)
    ensures Folded(rows, all, key, loopback).None? <==> forall j :: !Of(rows, j, key, loopback)
    ensures Folded(rows, all, key, loopback).Some? ==>
              var f := Folded(rows, all, key, loopback).value;
              && FirstBest(rows, all, i, key, loopback)
              && f == RankedOf(rows[i], all).(node := RankedOf(rows[i], all).node.(errors := f.node.errors))
              && MostErrors(rows, key, loopback, f.node.errors)
  {
    hide MachineOf, RankedOf, Better;
    i := -1;
    if rows != [] {
      var n := |rows| - 1;
      var before := rows[..n];
      var i' := FoldedMeans(before, all, key, loopback);
      assert forall j :: 0 <= j < n ==> before[j] == rows[j];
      assert forall j :: Of(before, j, key, loopback) <==> Of(rows, j, key, loopback) && j < n;
      i := i';
      if MachineOf(rows[n], loopback) == Some(key) {
        assert Of(rows, n, key, loopback);
        var was, cand := Folded(before, all, key, loopback), RankedOf(rows[n], all);
        Rank(rows[n], all);
        if was.None? {
          i := n;
        } else {
          MoreErrors(before, rows, n, key, loopback, was.value.node.errors);
          SameRank(was.value, RankedOf(rows[i'], all), cand);
          if Better(cand, was.value) {
            i := n;
            forall j | 0 <= j < n && Of(rows, j, key, loopback) ensures Better(cand, RankedOf(rows[j], all)) {
              BetterOrder(cand, RankedOf(rows[i'], all), RankedOf(rows[j], all));
              BetterOrder(RankedOf(rows[j], all), RankedOf(rows[j], all), RankedOf(rows[i'], all));
            }
          }
        }
      } else if Folded(before, all, key, loopback).Some? {
        SameErrors(before, rows, n, key, loopback, Folded(before, all, key, loopback).value.node.errors);
      }
    }
  }

  lemma Rank(r: Row, all: seq<Row>)
    ensures RankedOf(r, all).node.errors == r.errorsCount
  {
  }

  lemma SameRank(f: Ranked, r: Ranked, cand: Ranked)
    requires f.shards == r.shards && f.notDefault == r.notDefault
    ensures Better(cand, f) == Better(cand, r)
  {
  }

  lemma MoreErrors(before: seq<Row>, rows: seq<Row>, n: nat, key: string, loopback: string -> bool, errors: int)
    requires |rows| == n + 1 && before == rows[..n] && Of(rows, n, key, loopback) &&
             MostErrors(before, key, loopback, errors)
    ensures MostErrors(rows, key, loopback, Max(errors, rows[n].errorsCount))
  {
    hide MachineOf;
    assert forall j :: 0 <= j < n ==> before[j] == rows[j];
    var k :| Of(before, k, key, loopback) && before[k].errorsCount == errors;
    assert Of(rows, k, key, loopback);
    forall j | Of(rows, j, key, loopback) ensures rows[j].errorsCount <= Max(errors, rows[n].errorsCount) {
      if j < n {
        assert Of(before, j, key, loopback);
      }
    }
  }

  lemma SameErrors(before: seq<Row>, rows: seq<Row>, n: nat, key: string, loopback: string -> bool, errors: int)
    requires |rows| == n + 1 && before == rows[..n] && !Of(rows, n, key, loopback) &&
             MostErrors(before, key, loopback, errors)
    ensures MostErrors(rows, key, loopback, errors)
  {
    hide MachineOf;
    assert forall j :: 0 <= j < n ==> before[j] == rows[j];
    var k :| Of(before, k, key, loopback) && before[k].errorsCount == errors;
    assert Of(rows, k, key, loopback);
    forall j | Of(rows, j, key, loopback) ensures rows[j].errorsCount <= errors {
      assert Of(before, j, key, loopback);
    }
  }

  // ----- the method

  function InCluster(rows: seq<Row>, cluster: string): seq<Row> {
    if rows == [] then []
    else
      var r := rows[|rows| - 1];
      InCluster(rows[..|rows| - 1], cluster) + if r.cluster == cluster then [r] else []
  }

  function Considered(rows: seq<Row>, cluster: string): seq<Row> {
    if cluster == "" then rows else InCluster(rows, cluster)
  }

  function NodeBefore(): (Node, Node) -> bool {
    (a: Node, b: Node) =>
      if a.shard != b.shard then a.shard < b.shard
      else if a.replica != b.replica then a.replica < b.replica
      else Ordering.Less(a.host, b.host)
  }

  /** By shard, then by replica, then by host name. */
  ghost predicate Ascending(nodes: seq<Node>) {
    forall i, j :: 0 <= i < j < |nodes| ==> NotAfter(nodes[i], nodes[j])
  }

  ghost predicate NotAfter(a: Node, b: Node) {
    || a.shard < b.shard
    || (a.shard == b.shard && a.replica < b.replica)
    || (a.shard == b.shard && a.replica == b.replica &&
        (a.host == b.host || exists k :: Ordering.FirstLess(a.host, b.host, k)))
  }

  lemma NodesAscend(nodes: seq<Node>)
    requires Sorting.Ordered(nodes, NodeBefore())
    ensures Ascending(nodes)
  {
    forall i, j | 0 <= i < j < |nodes| ensures NotAfter(nodes[i], nodes[j]) {
      assert !NodeBefore()(nodes[j], nodes[i]);
      Ordering.LessTotal(nodes[i].host, nodes[j].host);
      Ordering.LessFirst(nodes[i].host, nodes[j].host);
    }
  }

  datatype Unknown = Unknown(cluster: string, available: seq<string>)

  /** The machines some row is about. */
  function Machines(rows: seq<Row>, loopback: string -> bool): set<string> {
    set r | r in rows && MachineOf(r, loopback).Some? :: MachineOf(r, loopback).value
  }

  /** The nodes of these machines, in this order. */
  ghost predicate NodesOf(out: seq<Node>, keys: seq<string>, rows: seq<Row>, loopback: string -> bool) {
    && |out| == |keys| && (forall i, j :: 0 <= i < j < |keys| ==> keys[i] != keys[j])
    && forall i :: 0 <= i < |keys| ==>
         var f := Folded(rows, rows, keys[i], loopback);
         f.Some? && out[i] == f.value.node
  }

  lemma {:induction false} InClusterRows(rows: seq<Row>, cluster: string)
    ensures forall r :: r in InCluster(rows, cluster) <==> r in rows && r.cluster == cluster
  {
    if rows != [] {
      var n := |rows| - 1;
      InClusterRows(rows[..n], cluster);
      assert rows == rows[..n] + [rows[n]];
    }
  }

  /** The rows of one cluster, and the names of all of them. */
  method Keep(rows: seq<Row>, cluster: string) returns (kept: seq<Row>, names: set<string>)
    ensures kept == InCluster(rows, cluster)
    ensures forall n :: n in names <==> exists r :: r in rows && r.cluster == n
  {
    kept, names := [], {};
    for i := 0 to |rows|
      invariant kept == InCluster(rows[..i], cluster)
      invariant forall n :: n in names <==> exists r :: r in rows[..i] && r.cluster == n
    {
      var r := rows[i];
      assert rows[..i + 1][..i] == rows[..i] && rows[..i + 1] == rows[..i] + [r];
      names := names + {r.cluster};
      if r.cluster == cluster {
        kept := kept + [r];
      }
    }
    assert rows[..|rows|] == rows;
  }

  method SortedKeys(names: set<string>) returns (keys: seq<string>)
    ensures forall n :: n in keys <==> n in names
    ensures forall i, j :: 0 <= i < j < |keys| ==> Ordering.Less(keys[i], keys[j])
  {
    keys := [];
    var rest := names;
    while rest != {}
      invariant rest <= names
      invariant forall n :: n in keys <==> n in names && n !in rest
      invariant forall i, j :: 0 <= i < j < |keys| ==> keys[i] != keys[j]
    {
      var n :| n in rest;
      assert forall i :: 0 <= i < |keys| ==> keys[i] in keys;
      keys := keys + [n];
      rest := rest - {n};
    }
    SortedStrings(keys);
    keys := Sorting.Sort(keys, Ordering.Less);
  }

  lemma SortedStrings(keys: seq<string>)
    requires forall i, j :: 0 <= i < j < |keys| ==> keys[i] != keys[j]
    ensures var r := Sorting.Sort(keys, Ordering.Less);
            && (forall n :: n in r <==> n in keys)
            && forall i, j :: 0 <= i < j < |r| ==> Ordering.Less(r[i], r[j])
  {
    var r := Sorting.Sort(keys, Ordering.Less);
    forall x, y | x in keys && y in keys && Ordering.Less(x, y) ensures !Ordering.Less(y, x) {
      Ordering.LessAsymmetric(x, y);
    }
    forall x, y, z | x in keys && y in keys && z in keys && !Ordering.Less(y, x) && !Ordering.Less(z, y)
      ensures !Ordering.Less(z, x)
    {
      Ordering.LessWeak(x, y, z);
    }
    Sorting.SortOrdered(keys, Ordering.Less);
    Sorting.SortElements(keys, Ordering.Less);
    var apart := (a: string, b: string) => a != b;
    Sorting.SortPairwise(keys, Ordering.Less, apart);
    forall i, j | 0 <= i < j < |r| ensures Ordering.Less(r[i], r[j]) {
      assert !Ordering.Less(r[j], r[i]) && apart(r[i], r[j]);
      Ordering.LessTotal(r[i], r[j]);
    }
  }

  method CountShards(rows: seq<Row>) returns (shards: map<string, set<int>>)
    ensures forall c :: c in shards <==> exists r :: r in rows && r.cluster == c
    ensures forall c :: c in shards ==> shards[c] == ShardsOf(rows, c)
  {
    shards := map[];
    for i := 0 to |rows|
      invariant forall c :: c in shards <==> exists r :: r in rows[..i] && r.cluster == c
      invariant forall c :: c in shards ==> shards[c] == ShardsOf(rows[..i], c)
    {
      var r := rows[i];
      assert rows[..i + 1] == rows[..i] + [r];
      ShardsNext(rows[..i], r);
      ghost var was := shards;
      if r.cluster !in shards {
        shards := shards[r.cluster := {}];
      }
      shards := shards[r.cluster := shards[r.cluster] + {r.shardNum}];
      assert forall c :: c in was && c != r.cluster ==> c in shards && shards[c] == was[c];
    }
    assert rows[..|rows|] == rows;
  }

  lemma ShardsNext(rows: seq<Row>, r: Row)
    ensures forall c :: ShardsOf(rows + [r], c) ==
                        if c == r.cluster then ShardsOf(rows, c) + {r.shardNum} else ShardsOf(rows, c)
    ensures (forall q :: q in rows ==> q.cluster != r.cluster) ==> ShardsOf(rows, r.cluster) == {}
  {
    forall c
      ensures ShardsOf(rows + [r], c) ==
              if c == r.cluster then ShardsOf(rows, c) + {r.shardNum} else ShardsOf(rows, c)
    {
      assert forall q :: q in rows + [r] <==> q in rows || q == r;
      assert c == r.cluster ==> r.shardNum in ShardsOf(rows + [r], c);
    }
  }

  /** One node for every machine the considered rows are about, ordered by shard,
      replica and host. An unknown cluster is an error naming those there are. */
  method Discover(rows0: seq<Row>, cluster: string, loopback: string -> bool)
    returns (result: Result<seq<Node>, Unknown>, ghost keys: seq<string>, ghost listed: seq<Node>)
    ensures result.Err? <==> cluster != "" && forall r :: r in rows0 ==> r.cluster != cluster
    ensures result.Err? ==>
              && result.error.cluster == cluster
              && (forall n :: n in result.error.available <==> exists r :: r in rows0 && r.cluster == n)
              && forall i, j :: 0 <= i < j < |result.error.available| ==>
                   Ordering.Less(result.error.available[i], result.error.available[j])
    ensures result.Ok? ==>
              var rows := Considered(rows0, cluster);
              && NodesOf(listed, keys, rows, loopback) && (forall k :: k in keys <==> k in Machines(rows, loopback))
              && multiset(result.value) == multiset(listed) && Sorting.Ordered(result.value, NodeBefore())
              && Ascending(result.value)
  {
    hide Better, RankedOf, MachineOf, NodesOf, Machines, Ascending;
    keys, listed := [], [];
    var rows := rows0;
    if cluster != "" {
      var kept, names := Keep(rows0, cluster);
      InClusterRows(rows0, cluster);
      if |kept| == 0 {
        var available := SortedKeys(names);
        forall r | r in rows0 ensures r.cluster != cluster {
          assert r !in kept;
        }
        return Err(Unknown(cluster, available)), [], [];
      }
      assert kept[0] in kept;
      rows := kept;
    }
    var nodes := FoldRows(rows, loopback);
    var out: seq<Node>;
    out, keys := ListNodes(nodes, rows, loopback);
    listed := out;
    NodesSort(out);
    NodesAscend(Sorting.Sort(out, NodeBefore()));
    result := Ok(Sorting.Sort(out, NodeBefore()));
  }

  method FoldRows(rows: seq<Row>, loopback: string -> bool) returns (nodes: map<string, Ranked>)
    ensures forall k :: k in nodes <==> Folded(rows, rows, k, loopback).Some?
    ensures forall k :: k in nodes ==> Folded(rows, rows, k, loopback) == Some(nodes[k])
  {
    hide Better, ShardsOf;
    var shards := CountShards(rows);
    nodes := map[];
    for i := 0 to |rows|
      invariant forall k :: k in nodes <==> Folded(rows[..i], rows, k, loopback).Some?
      invariant forall k :: k in nodes ==> Folded(rows[..i], rows, k, loopback) == Some(nodes[k])
    {
      var r := rows[i];
      assert r in rows && rows[..i + 1][..i] == rows[..i];
      var local := r.isLocal == 1;
      if !local && loopback(r.hostAddress) {
        continue;
      }
      var key := if local then LOCAL_KEY else r.hostAddress;
      var n := |shards[r.cluster]|;
      var cand := Ranked(Node(r.hostName, r.hostAddress, r.shardNum, r.replicaNum, local, r.errorsCount, n > 1), n,
                         r.cluster != "default");
      if key !in nodes {
        nodes := nodes[key := cand];
        continue;
      }
      var cur := nodes[key];
      var errs := Max(cur.node.errors, cand.node.errors);
      if Better(cand, cur) {
        cur := cand;
      }
      nodes := nodes[key := cur.(node := cur.node.(errors := errs))];
    }
    assert rows[..|rows|] == rows;
  }

  method ListNodes(nodes: map<string, Ranked>, ghost rows: seq<Row>, ghost loopback: string -> bool)
    returns (out: seq<Node>, ghost keys: seq<string>)
    requires forall k :: k in nodes <==> Folded(rows, rows, k, loopback).Some?
    requires forall k :: k in nodes ==> Folded(rows, rows, k, loopback) == Some(nodes[k])
    ensures NodesOf(out, keys, rows, loopback) && (forall k :: k in keys <==> k in Machines(rows, loopback))
  {
    hide MachineOf, RankedOf, Better, Folded;
    out, keys := [], [];
    var rest := nodes.Keys;
    while rest != {}
      invariant rest <= nodes.Keys
      invariant forall k :: k in keys <==> k in nodes && k !in rest
      invariant NodesOf(out, keys, rows, loopback)
    {
      var k :| k in rest;
      assert forall i :: 0 <= i < |keys| ==> keys[i] in keys;
      out := out + [nodes[k].node];
      keys := keys + [k];
      rest := rest - {k};
    }
    forall k ensures k in nodes <==> k in Machines(rows, loopback) {
      Known(rows, k, loopback);
    }
  }

  lemma Known(rows: seq<Row>, k: string, loopback: string -> bool)
    ensures Folded(rows, rows, k, loopback).Some? <==> k in Machines(rows, loopback)
  {
    hide MachineOf, RankedOf;
    var i := FoldedMeans(rows, rows, k, loopback);
    if k in Machines(rows, loopback) {
      var r :| r in rows && MachineOf(r, loopback) == Some(k);
      var j :| 0 <= j < |rows| && rows[j] == r;
      assert Of(rows, j, k, loopback);
    }
    if Folded(rows, rows, k, loopback).Some? {
      assert rows[i] in rows && Of(rows, i, k, loopback);
    }
  }

  lemma NodesSort(nodes: seq<Node>)
    ensures multiset(Sorting.Sort(nodes, NodeBefore())) == multiset(nodes)
    ensures Sorting.Ordered(Sorting.Sort(nodes, NodeBefore()), NodeBefore())
  {
    var before := NodeBefore();
    forall x, y | x in nodes && y in nodes && before(x, y) ensures !before(y, x) {
      Ordering.LessAsymmetric(x.host, y.host);
    }
    forall x, y, z | x in nodes && y in nodes && z in nodes && !before(y, x) && !before(z, y) ensures !before(z, x) {
      if x.shard == y.shard == z.shard && x.replica == y.replica == z.replica {
        Ordering.LessWeak(x.host, y.host, z.host);
      }
    }
    Sorting.SortContents(nodes, before);
    Sorting.SortOrdered(nodes, before);
  }
}
