/** Which nodes a key is routed to, and how that follows changes of the ring. */
module RingRoutes {
  import opened Basics
  import opened Ring
  import opened RingChange
  import opened RingOrder

  // ---- Lookups ----

  /** The first n distinct nodes clockwise from a key. */
  function GetN(cfg: Config, r: Ring, key: Key, n: int): seq<Node> {
    if key == [] || n <= 0 then [] else Pick(Walk(r, cfg.hash(key)), {}, n)
  }

  /** The first n distinct healthy nodes clockwise from a key. */
  function GetNHealthy(cfg: Config, r: Ring, key: Key, n: int): seq<Node> {
    if key == [] || n <= 0 then [] else Pick(Walk(r, cfg.hash(key)), r.unhealthy, n)
  }

  /** The owner of a key, empty when there is none. */
  function Get(cfg: Config, r: Ring, key: Key): Node {
    var w := Walk(r, cfg.hash(key));
    if key == [] || w == [] then [] else w[0]
  }

  /** The node a key is served by: the first healthy one, or, when no node is
      healthy, the one that the walk meets last. */
  function GetHealthy(cfg: Config, r: Ring, key: Key): Node {
    var healthy := GetNHealthy(cfg, r, key, 1);
    var all := GetN(cfg, r, key, |r.replicas|);
    if healthy != [] then healthy[0] else if all != [] then all[|all| - 1] else []
  }

  lemma GetIsFirst(cfg: Config, r: Ring, key: Key)
    ensures GetN(cfg, r, key, 1) == if key == [] || r.keys == [] then [] else [Get(cfg, r, key)]
  {
    WalkLength(r, cfg.hash(key));
    var w := Walk(r, cfg.hash(key));
    if w != [] {
      assert Pick(w[1..], {} + {w[0]}, 0) == [];
    }
  }

  lemma {:induction false} CutLength(s: seq<nat>, h: nat)
    ensures |From(s, h)| + |Below(s, h)| == |s|
    ensures forall x :: x in s <==> x in From(s, h) || x in Below(s, h)
  {
    if s != [] {
      CutLength(s[1..], h);
      assert s == [s[0]] + s[1..];
    }
  }

  lemma WalkLength(r: Ring, h: nat)
    ensures |Walk(r, h)| == |r.keys|
  {
    CutLength(r.keys, h);
  }

  lemma {:induction false} OwnersAre(owner: map<nat, Node>, s: seq<nat>, n: Node)
    ensures n in Owners(owner, s) <==> exists h :: h in s && OwnerOf(owner, h) == n
  {
    if s != [] {
      OwnersAre(owner, s[1..], n);
      assert s == [s[0]] + s[1..];
    }
  }

  /** A walk meets every registered node and no other. */
  lemma WalkNodes(cfg: Config, r: Ring, h: nat)
    requires RingOk(cfg, r)
    ensures NodesOf(Walk(r, h)) == r.replicas.Keys
  {
    var s := From(r.keys, h) + Below(r.keys, h);
    CutLength(r.keys, h);
    assert forall p :: p in s <==> p in r.owner;
    forall n ensures n in NodesOf(Walk(r, h)) <==> n in r.replicas {
      NodesOfIs(Walk(r, h), n);
      OwnersAre(r.owner, s, n);
      if n in r.replicas {
        var p := Point(cfg, n, 0);
        assert p in s && OwnerOf(r.owner, p) == n;
      }
    }
  }

  lemma LookupSizes(cfg: Config, r: Ring, key: Key, n: nat)
    requires RingOk(cfg, r) && key != []
    ensures var all, up := GetN(cfg, r, key, n), r.replicas.Keys - r.unhealthy;
      && (forall i, j | 0 <= i < j < |all| :: all[i] != all[j])
      && (forall x | x in all :: x in r.replicas)
      && |all| == if n < |r.replicas| then n else |r.replicas|
    ensures var healthy, up := GetNHealthy(cfg, r, key, n), r.replicas.Keys - r.unhealthy;
      && (forall i, j | 0 <= i < j < |healthy| :: healthy[i] != healthy[j])
      && (forall x | x in healthy :: x in up)
      && |healthy| == if n < |up| then n else |up|
  {
    var w := Walk(r, cfg.hash(key));
    WalkNodes(cfg, r, cfg.hash(key));
    PickSizes(w, {}, n);
    PickSizes(w, r.unhealthy, n);
    assert NodesOf(w) - {} == r.replicas.Keys;
    assert |r.replicas.Keys| == |r.replicas|;
    forall x | x in w ensures x in r.replicas {
      NodesOfIs(w, x);
    }
  }

  lemma LookupOrder(cfg: Config, r: Ring, key: Key, n: nat)
    requires key != []
    ensures var w, all := Walk(r, cfg.hash(key)), GetN(cfg, r, key, n);
      forall i | 0 <= i < |all| :: Ahead(w, all[i]) == NodesOf(all[..i])
    ensures var w, healthy := Walk(r, cfg.hash(key)), GetNHealthy(cfg, r, key, n);
      forall i | 0 <= i < |healthy| :: Ahead(w, healthy[i]) - r.unhealthy == NodesOf(healthy[..i])
  {
    hide Walk, Pick, Ahead, NodesOf;
    var w := Walk(r, cfg.hash(key));
    PickIs(w, {}, n);
    PickIs(w, r.unhealthy, n);
    assert forall x :: Ahead(w, x) - {} == Ahead(w, x);
  }

  /** GetN and GetNHealthy return distinct registered nodes, the healthy ones in the
      second case, in the order in which the walk first meets them, as many as wanted
      and available. */
  lemma LookupsAre(cfg: Config, r: Ring, key: Key, n: nat)
    requires RingOk(cfg, r) && key != []
    ensures var w, all := Walk(r, cfg.hash(key)), GetN(cfg, r, key, n);
      && (forall i, j | 0 <= i < j < |all| :: all[i] != all[j])
      && (forall x | x in all :: x in r.replicas)
      && (forall i | 0 <= i < |all| :: Ahead(w, all[i]) == NodesOf(all[..i]))
      && |all| == if n < |r.replicas| then n else |r.replicas|
    ensures var w, healthy, up := Walk(r, cfg.hash(key)), GetNHealthy(cfg, r, key, n), r.replicas.Keys - r.unhealthy;
      && (forall i, j | 0 <= i < j < |healthy| :: healthy[i] != healthy[j])
      && (forall x | x in healthy :: x in up)
      && (forall i | 0 <= i < |healthy| :: Ahead(w, healthy[i]) - r.unhealthy == NodesOf(healthy[..i]))
      && |healthy| == if n < |up| then n else |up|
  {
    hide RingOk, Walk, Pick, Ahead, NodesOf, GetN, GetNHealthy;
    LookupSizes(cfg, r, key, n);
    LookupOrder(cfg, r, key, n);
  }

  // ---- Removal filters every walk ----

  lemma {:induction false} CutDrop(s: seq<nat>, owner: map<nat, Node>, x: Node, h: nat)
    ensures From(DropOwned(s, owner, x), h) == DropOwned(From(s, h), owner, x)
    ensures Below(DropOwned(s, owner, x), h) == DropOwned(Below(s, h), owner, x)
  {
    if s != [] {
      CutDrop(s[1..], owner, x, h);
      var rest := s[1..];
      assert ([s[0]] + DropOwned(rest, owner, x))[1..] == DropOwned(rest, owner, x);
      assert ([s[0]] + From(rest, h))[1..] == From(rest, h);
      assert ([s[0]] + Below(rest, h))[1..] == Below(rest, h);
    }
  }

  lemma {:induction false} DropConcat(s: seq<nat>, t: seq<nat>, owner: map<nat, Node>, x: Node)
    ensures DropOwned(s + t, owner, x) == DropOwned(s, owner, x) + DropOwned(t, owner, x)
  {
    if s == [] {
      assert s + t == t;
    } else {
      assert (s + t)[1..] == s[1..] + t;
      DropConcat(s[1..], t, owner, x);
    }
  }

  lemma {:induction false} OwnersDrop(s: seq<nat>, owner: map<nat, Node>, owner': map<nat, Node>, x: Node)
    requires forall h | h in s && OwnerOf(owner, h) != x :: OwnerOf(owner', h) == OwnerOf(owner, h)
    ensures Owners(owner', DropOwned(s, owner, x)) == WithoutNode(Owners(owner, s), x)
  {
    if s != [] {
      assert s[0] in s && forall h | h in s[1..] :: h in s;
      OwnersDrop(s[1..], owner, owner', x);
      var rest := DropOwned(s[1..], owner, x);
      assert ([s[0]] + rest)[1..] == rest;
      assert Owners(owner, s)[1..] == Owners(owner, s[1..]);
    }
  }

  /** After the removal of x every walk is the old walk without x. */
  lemma WalkRemoved(r: Ring, x: Node, h: nat)
    requires x != []
    ensures Walk(RemoveNode(r, x), h) == WithoutNode(Walk(r, h), x)
  {
    CutDrop(r.keys, r.owner, x, h);
    DropConcat(From(r.keys, h), Below(r.keys, h), r.owner, x);
    OwnersDrop(From(r.keys, h) + Below(r.keys, h), r.owner, RemoveNode(r, x).owner, x);
  }

  function MarkUnhealthy(r: Ring, x: Node): Ring {
    r.(unhealthy := r.unhealthy + {x})
  }

  function MarkHealthy(r: Ring, x: Node): Ring {
    r.(unhealthy := r.unhealthy - {x})
  }

  /** Marking a node unhealthy routes every key, for every number of nodes, just as
      removing the node does. */
  lemma HealthMarkIsRemoval(cfg: Config, r: Ring, x: Node, key: Key, n: int)
    requires x != []
    ensures GetNHealthy(cfg, MarkUnhealthy(r, x), key, n) == GetNHealthy(cfg, RemoveNode(r, x), key, n)
    ensures x in r.unhealthy ==> GetNHealthy(cfg, r, key, n) == GetNHealthy(cfg, RemoveNode(r, x), key, n)
  {
    if key != [] && 0 < n {
      var w := Walk(r, cfg.hash(key));
      WalkRemoved(r, x, cfg.hash(key));
      PickWithout(w, r.unhealthy, x, n);
      assert x in r.unhealthy ==> r.unhealthy + {x} == r.unhealthy;
      assert Walk(MarkUnhealthy(r, x), cfg.hash(key)) == w;
    }
  }

  /** Removing x leaves the owner of a key alone unless it was x, and then the key
      goes to the node that was second; the list of first nodes loses x and moves up. */
  lemma RemoveHandsOver(cfg: Config, r: Ring, x: Node, key: Key)
    requires RingOk(cfg, r) && x in r.replicas && key != []
    ensures var two, after := GetN(cfg, r, key, 2), Get(cfg, RemoveNode(r, x), key);
      && (Get(cfg, r, key) != x ==> after == Get(cfg, r, key))
      && (Get(cfg, r, key) == x ==> after == if |two| == 2 then two[1] else [])
  {
    var h := cfg.hash(key);
    var w := Walk(r, h);
    WalkRemoved(r, x, h);
    WalkNodes(cfg, r, h);
    NodesOfIs(w, x);
    var rest := WithoutNode(w, x);
    if w[0] == x {
      var more := {} + {x};
      SecondIsFirst(w[1..], x);
      assert Pick(w, {}, 2) == [x] + Pick(w[1..], more, 1);
      assert more == {x};
    }
  }

  lemma {:induction false} SecondIsFirst(w: seq<Node>, x: Node)
    ensures Pick(w, {x}, 1) == if WithoutNode(w, x) == [] then [] else [WithoutNode(w, x)[0]]
  {
    if w != [] {
      if w[0] == x {
        SecondIsFirst(w[1..], x);
      } else {
        assert Pick(w[1..], {x} + {w[0]}, 0) == [];
      }
    }
  }

  /** After adding x the owner of every key is the old one or x. */
  lemma AddDisruptsLittle(cfg: Config, r: Ring, x: Node, count: nat, key: Key)
    requires RingOk(cfg, r) && x !in r.replicas && x != [] && 0 < count
    requires NoCollisions(cfg, r.replicas[x := count])
    ensures var after := Get(cfg, AddNode(cfg, r, x, count), key);
      after == x || after == Get(cfg, r, key)
    ensures WithoutNode(Walk(AddNode(cfg, r, x, count), cfg.hash(key)), x) == Walk(r, cfg.hash(key))
  {
    var h, r' := cfg.hash(key), AddNode(cfg, r, x, count);
    AddThenRemove(cfg, r, x, count);
    WalkRemoved(r', x, h);
    assert Walk(r.(unhealthy := r.unhealthy - {x}), h) == Walk(r, h);
    WalkLength(r', h);
    AddOk(cfg, r, x, count);
    WalkNodes(cfg, r', h);
    NodesOfIs(Walk(r', h), x);
  }

  // ---- Each node holds as many points as it has virtual nodes ----

  ghost function PointsOf(r: Ring, x: Node): set<nat> {
    set h | h in r.owner && r.owner[h] == x
  }

  ghost function PointSet(cfg: Config, x: Node, count: nat): set<nat> {
    set i: nat | i < count :: Point(cfg, x, i)
  }

  lemma {:induction false} PointSetSize(cfg: Config, x: Node, count: nat)
    requires forall i: nat, j: nat | i < j < count :: Point(cfg, x, i) != Point(cfg, x, j)
    ensures |PointSet(cfg, x, count)| == count
  {
    hide Point;
    if count == 0 {
      assert PointSet(cfg, x, count) == {};
    } else {
      PointSetSize(cfg, x, count - 1);
      assert PointSet(cfg, x, count) == PointSet(cfg, x, count - 1) + {Point(cfg, x, count - 1)};
    }
  }

  lemma PointsCount(cfg: Config, r: Ring, x: Node)
    requires RingOk(cfg, r) && NoCollisions(cfg, r.replicas) && x in r.replicas
    ensures |PointsOf(r, x)| == r.replicas[x]
    ensures forall h | h in PointsOf(r, x) :: h in r.keys
  {
    var count := r.replicas[x];
    PointSetSize(cfg, x, count);
    forall h ensures h in PointsOf(r, x) <==> h in PointSet(cfg, x, count) {
      if h in PointsOf(r, x) {
        assert IsPoint(cfg, x, count, h);
      }
    }
    assert PointsOf(r, x) == PointSet(cfg, x, count);
  }
}
