/** What the ring's lookups answer, told from its points and their labels. */
module RingAnswers {
  import opened Basics
  import opened Ring
  import opened RingOrder
  import opened RingRoutes
  import opened ConsistentHash

  /** The points of a well-formed ring are the hashes of the labels of its nodes, as many of
      each as its count, and each belongs to its node. */
  lemma PointsAre(cfg: Config, r: Ring, h: nat)
    requires RingOk(cfg, r)
    ensures h in r.keys <==>
      exists n, i: nat :: n in r.replicas && i < r.replicas[n] && cfg.hash(cfg.pointLabel(n, i)) == h
    ensures forall n, i: nat | n in r.replicas && i < r.replicas[n] && cfg.hash(cfg.pointLabel(n, i)) == h ::
      h in r.owner && r.owner[h] == n
  {
    if h in r.keys {
      var n := r.owner[h];
      var i: nat :| i < r.replicas[n] && Point(cfg, n, i) == h;
      assert cfg.hash(cfg.pointLabel(n, i)) == h;
    }
    forall n, i: nat | n in r.replicas && i < r.replicas[n] && cfg.hash(cfg.pointLabel(n, i)) == h
      ensures h in r.owner && r.owner[h] == n
    {
      assert Point(cfg, n, i) == h;
    }
  }

  /** h is the first point from x on or, if all points are below x, the first of all. */
  predicate Successor(points: seq<nat>, x: nat, h: nat) {
    && h in points
    && if x <= h then forall p | p in points && x <= p :: h <= p else forall p | p in points :: p < x && h <= p
  }

  lemma {:induction false} FromLeast(s: seq<nat>, x: nat)
    requires StrictlySorted(s)
    ensures From(s, x) != [] ==> IsLeast(s, x, From(s, x)[0])
    ensures From(s, x) == [] ==> Below(s, x) == s && forall p | p in s :: p < x
  {
    if s != [] {
      FromLeast(s[1..], x);
      assert s == [s[0]] + s[1..];
      assert forall p | p in s[1..] :: s[0] < p;
    }
  }

  predicate IsLeast(s: seq<nat>, x: nat, h: nat) {
    h in s && x <= h && forall p | p in s && x <= p :: h <= p
  }

  /** The owner of a key is the owner of the first point clockwise from the key's hash. */
  lemma GetIsSuccessor(cfg: Config, r: Ring, key: Key) returns (h: nat)
    requires RingOk(cfg, r) && key != [] && r.keys != []
    ensures Successor(r.keys, cfg.hash(key), h) && h in r.owner && Get(cfg, r, key) == r.owner[h]
  {
    hide Owned, Walk, StrictlySorted, Successor;
    h := FirstFrom(r.keys, cfg.hash(key));
    WalkFirst(r, cfg.hash(key), h);
    assert h in r.keys by { InPoints(r.keys, cfg.hash(key), h); }
  }

  lemma InPoints(points: seq<nat>, x: nat, h: nat)
    requires Successor(points, x, h)
    ensures h in points
  {
  }

  lemma FirstFrom(s: seq<nat>, x: nat) returns (h: nat)
    requires StrictlySorted(s) && s != []
    ensures From(s, x) + Below(s, x) != [] && h == (From(s, x) + Below(s, x))[0] && Successor(s, x, h)
  {
    FromLeast(s, x);
    hide From, Below;
    h := if From(s, x) == [] then s[0] else From(s, x)[0];
    FirstIsLeast(s);
  }

  lemma WalkFirst(r: Ring, x: nat, h: nat)
    requires From(r.keys, x) + Below(r.keys, x) != [] && h == (From(r.keys, x) + Below(r.keys, x))[0]
    ensures Walk(r, x) != [] && Walk(r, x)[0] == OwnerOf(r.owner, h)
  {
    hide From, Below;
  }

  lemma FirstIsLeast(s: seq<nat>)
    requires StrictlySorted(s) && s != []
    ensures forall p | p in s :: s[0] <= p
  {
  }

  /** With a healthy node, GetHealthy returns a healthy one that the walk meets after
      unhealthy ones only; without, the one that it meets after all others. */
  lemma GetHealthyIs(cfg: Config, r: Ring, key: Key)
    requires RingOk(cfg, r) && key != [] && |r.replicas| != 0
    ensures var n, up := GetHealthy(cfg, r, key), r.replicas.Keys - r.unhealthy;
      var ahead := Ahead(Walk(r, cfg.hash(key)), n);
      && n in r.replicas
      && (if up != {} then n in up && ahead <= r.unhealthy else ahead == r.replicas.Keys - {n})
  {
    hide RingOk, Walk, Ahead, GetN, GetNHealthy;
    var w, healthy, up := Walk(r, cfg.hash(key)), GetNHealthy(cfg, r, key, 1), r.replicas.Keys - r.unhealthy;
    var all := GetN(cfg, r, key, |r.replicas|);
    LookupsAre(cfg, r, key, 1);
    LookupsAre(cfg, r, key, |r.replicas|);
    assert NodesOf([]) == {};
    hide NodesOf;
    if up != {} {
      assert |up| != 0 && healthy[0] in healthy && healthy[..0] == [];
      NothingLeft(Ahead(w, healthy[0]), r.unhealthy);
    } else {
      var k := |all| - 1;
      assert all[k] in all;
      assert |r.replicas.Keys| == |r.replicas|;
      AllButLast(all, r.replicas.Keys);
    }
  }

  lemma NothingLeft(a: set<Node>, b: set<Node>)
    requires a - b == {}
    ensures a <= b
  {
    assert forall x | x in a :: x in a - b || x in b;
  }

  lemma AllButLast(all: seq<Node>, nodes: set<Node>)
    requires all != [] && |all| == |nodes| && forall x | x in all :: x in nodes
    requires forall i, j | 0 <= i < j < |all| :: all[i] != all[j]
    ensures NodesOf(all[..|all| - 1]) == nodes - {all[|all| - 1]}
  {
    hide NodesOf;
    var k := |all| - 1;
    NodesCount(all);
    forall x ensures (x in NodesOf(all) <==> x in all) && (x in NodesOf(all[..k]) <==> x in all[..k]) {
      NodesOfIs(all, x);
      NodesOfIs(all[..k], x);
    }
    SameSize(NodesOf(all), nodes);
    LastApart(all);
  }

  lemma LastApart(all: seq<Node>)
    requires all != [] && forall i, j | 0 <= i < j < |all| :: all[i] != all[j]
    ensures forall x :: x in all[..|all| - 1] <==> x in all && x != all[|all| - 1]
  {
    assert all == all[..|all| - 1] + [all[|all| - 1]];
  }

  lemma {:induction false} NodesCount(w: seq<Node>)
    requires forall i, j | 0 <= i < j < |w| :: w[i] != w[j]
    ensures |NodesOf(w)| == |w|
  {
    if w != [] {
      NodesCount(w[1..]);
      NodesOfIs(w[1..], w[0]);
    }
  }

  // ---- Counts ----

  /** The count that a rebalance gives is the one in the configured range that is nearest
      to the wanted one, which is the wanted one itself if that is in the range. */
  lemma ClampIsNearest(cfg: Config, wanted: int, c: nat)
    requires Usable(cfg) && cfg.minReplicas <= c <= cfg.maxReplicas
    ensures var n := Clamp(cfg, wanted);
      && cfg.minReplicas <= n <= cfg.maxReplicas
      && (if wanted <= n then n - wanted else wanted - n) <= (if wanted <= c then c - wanted else wanted - c)
      && (cfg.minReplicas <= wanted <= cfg.maxReplicas ==> n == wanted)
  {
  }

  /** A registered node that is visited once with a wanted count in the range has that
      many points afterwards. */
  lemma WantedCountGiven(cfg: Config, r: Ring, visits: seq<(Node, int)>, i: nat)
    requires Usable(cfg) && RingOk(cfg, r) && Apart(cfg, r.replicas.Keys) && WithinCap(cfg, r.replicas)
    requires i < |visits| && visits[i].0 in r.replicas && cfg.minReplicas <= visits[i].1 <= cfg.maxReplicas
    requires forall j | i < j < |visits| :: visits[j].0 != visits[i].0
    ensures var r' := RebalanceAll(cfg, r, visits);
      && visits[i].0 in r'.replicas && r'.replicas[visits[i].0] == visits[i].1
      && |PointsOf(r', visits[i].0)| == visits[i].1
  {
    hide RebalanceAll, RingOk, Apart;
    var n := visits[i].0;
    RebalanceOk(cfg, r, visits);
    RebalanceIs(cfg, r, visits, n);
    LastVisit(cfg, visits, n, r.replicas[n], i);
    ApartNoCollisions(cfg, r.replicas.Keys, RebalanceAll(cfg, r, visits).replicas);
    PointsCount(cfg, RebalanceAll(cfg, r, visits), n);
  }

  lemma {:induction false} LastVisit(cfg: Config, visits: seq<(Node, int)>, n: Node, count: nat, i: nat)
    requires Usable(cfg) && i < |visits| && visits[i].0 == n
    requires forall j | i < j < |visits| :: visits[j].0 != n
    ensures FinalCount(cfg, visits, n, count) == Clamp(cfg, visits[i].1)
  {
    if i < |visits| - 1 {
      LastVisit(cfg, visits[..|visits| - 1], n, count, i);
    }
  }

  /** Adding nodes registers each that has a name, with the default number of points, and
      leaves the other nodes and all marks as they are. */
  lemma {:induction false} AddAllIs(cfg: Config, r: Ring, nodes: seq<Node>, n: Node)
    ensures var r' := AddAll(cfg, r, nodes);
      && (n in r'.replicas <==> n in r.replicas || (n in nodes && n != []))
      && (n in r'.replicas ==> r'.replicas[n] == if n in nodes && n != [] then cfg.defaultReplicas else r.replicas[n])
      && r'.unhealthy == r.unhealthy
  {
    if nodes != [] {
      hide SortInts, Points, AddOwner;
      AddAllIs(cfg, r, nodes[..|nodes| - 1], n);
      InFrontOrLast(nodes, n);
    }
  }

  lemma InFrontOrLast(nodes: seq<Node>, n: Node)
    requires nodes != []
    ensures n in nodes <==> n in nodes[..|nodes| - 1] || n == nodes[|nodes| - 1]
  {
    assert nodes == nodes[..|nodes| - 1] + [nodes[|nodes| - 1]];
  }
}
