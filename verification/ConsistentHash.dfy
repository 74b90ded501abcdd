/** The consistent-hash map with its fields, proved against the ring as a value. */
module ConsistentHash {
  import opened Basics
  import opened Hashing
  import opened Ring
  import opened RingChange
  import opened RingRoutes

  // ---- Sorting and searching ----

  lemma HeadIsLeast(a: seq<nat>, x: nat)
    requires Sorted(a) && x in multiset(a)
    ensures a != [] && a[0] <= x
  {
    var i :| 0 <= i < |a| && a[i] == x;
    if 0 < i {
      SortedPair(a, 0, i);
    }
  }

  lemma Tail(a: seq<nat>)
    requires Sorted(a) && a != []
    ensures a[0] in multiset(a) && Sorted(a[1..]) && a == [a[0]] + a[1..]
    ensures multiset(a[1..]) == multiset(a) - multiset{a[0]}
  {
    assert a == [a[0]] + a[1..];
  }

  lemma SameHead(a: seq<nat>, b: seq<nat>)
    requires Sorted(a) && Sorted(b) && a != [] && multiset(a) == multiset(b)
    ensures b != [] && a[0] == b[0]
  {
    hide Sorted;
    Tail(a);
    Tail(b);
    HeadIsLeast(a, b[0]);
    HeadIsLeast(b, a[0]);
  }

  lemma {:induction false} SortUnique(a: seq<nat>, b: seq<nat>)
    requires Sorted(a) && Sorted(b) && multiset(a) == multiset(b)
    ensures a == b
  {
    hide Sorted;
    if a != [] {
      SameHead(a, b);
      Tail(a);
      Tail(b);
      SortUnique(a[1..], b[1..]);
    }
  }

  lemma SortOfSorted(s: seq<nat>)
    requires Sorted(s)
    ensures SortInts(s) == s
  {
    SortIntsSorted(s);
    SortUnique(SortInts(s), s);
  }

  /** Sorting once at the end is the same as sorting after every addition. */
  lemma SortLate(s: seq<nat>, pts: seq<nat>)
    ensures SortInts(s + pts) == SortInts(SortInts(s) + pts)
  {
    SortIntsSorted(s + pts);
    SortIntsSorted(SortInts(s) + pts);
    assert multiset(s + pts) == multiset(s) + multiset(pts) == multiset(SortInts(s) + pts);
    SortUnique(SortInts(s + pts), SortInts(SortInts(s) + pts));
  }

  /** s without the first occurrence of h. */
  function RemoveFirst(s: seq<nat>, h: nat): (r: seq<nat>)
    ensures multiset(r) == multiset(s) - multiset{h}
  {
    if s == [] then []
    else
      assert s == [s[0]] + s[1..];
      if s[0] == h then s[1..] else [s[0]] + RemoveFirst(s[1..], h)
  }

  lemma {:induction false} RemoveFirstSorted(s: seq<nat>, h: nat)
    requires Sorted(s)
    ensures Sorted(RemoveFirst(s, h))
  {
    if s != [] && s[0] != h {
      RemoveFirstSorted(s[1..], h);
      assert RemoveFirst(s, h)[1..] == RemoveFirst(s[1..], h);
    }
  }

  lemma SkipOne(s: seq<nat>, j: nat)
    requires 0 < j < |s|
    ensures s[..j] + s[j + 1..] == [s[0]] + (s[1..][..j - 1] + s[1..][j..])
  {
  }

  lemma {:induction false} RemoveFirstAt(s: seq<nat>, h: nat, j: nat)
    requires j < |s| && s[j] == h && forall i | 0 <= i < j :: s[i] != h
    ensures RemoveFirst(s, h) == s[..j] + s[j + 1..]
  {
    if j != 0 {
      SkipOne(s, j);
      RemoveFirstAt(s[1..], h, j - 1);
    }
  }

  lemma {:induction false} RemoveFirstAbsent(s: seq<nat>, h: nat)
    requires forall i | 0 <= i < |s| :: s[i] != h
    ensures RemoveFirst(s, h) == s
  {
    if s != [] {
      RemoveFirstAbsent(s[1..], h);
    }
  }

  /** h splits a sorted sequence at idx. */
  predicate SplitAt(s: seq<nat>, h: nat, idx: nat) {
    idx <= |s| && (forall i | 0 <= i < idx :: s[i] < h) && (forall i | idx <= i < |s| :: h <= s[i])
  }

  lemma {:induction false} CutAt(s: seq<nat>, h: nat, idx: nat)
    requires SplitAt(s, h, idx)
    ensures From(s, h) == s[idx..] && Below(s, h) == s[..idx]
  {
    if s != [] {
      var t := s[1..];
      if idx == 0 {
        CutAt(t, h, 0);
        assert s == [s[0]] + t && t[0..] == t && s[0..] == s;
      } else {
        CutAt(t, h, idx - 1);
        assert s[..idx] == [s[0]] + t[..idx - 1] && s[idx..] == t[idx - 1..];
      }
    }
  }

  lemma {:induction false} OwnersAt(owner: map<nat, Node>, s: seq<nat>, i: nat)
    requires i < |s|
    ensures Owners(owner, s)[i] == OwnerOf(owner, s[i])
  {
    if i != 0 {
      OwnersAt(owner, s[1..], i - 1);
    }
  }

  /** The place i steps after start on a ring of n places. */
  function Place(start: nat, i: nat, n: nat): (j: nat)
    requires 0 < n
    ensures j < n
  {
    (start + i) % n
  }

  lemma WrapAround(start: nat, i: nat, n: nat)
    requires start < n && i < n
    ensures Place(start, i, n) == if start + i < n then start + i else start + i - n
  {
    var x := start + i;
    QuotientUnique(n, x / n, x % n, if x < n then 0 else 1, if x < n then x else x - n);
  }

  /** The i-th step of the walk from hash h reads the ring i places after the
      place that h splits it at, wrapping around. */
  lemma WalkAt(r: Ring, h: nat, idx: nat, i: nat)
    requires SplitAt(r.keys, h, idx) && i < |r.keys|
    ensures |Walk(r, h)| == |r.keys|
    ensures Walk(r, h)[i] == OwnerOf(r.owner, r.keys[Place(if idx == |r.keys| then 0 else idx, i, |r.keys|)])
  {
    CutAt(r.keys, h, idx);
    var t, n := r.keys[idx..] + r.keys[..idx], |r.keys|;
    OwnersAt(r.owner, t, i);
    WrapAround(if idx == n then 0 else idx, i, n);
  }

  // ---- The assumption on the hash function ----

  /** No node ever has more virtual points than this. */
  function Cap(cfg: Config): nat {
    if cfg.defaultReplicas < cfg.maxReplicas then cfg.maxReplicas else cfg.defaultReplicas
  }

  ghost predicate Usable(cfg: Config) {
    0 < cfg.defaultReplicas && 0 < cfg.minReplicas <= cfg.maxReplicas
  }

  /** No two virtual labels that these nodes can use hash to the same point. */
  ghost predicate Apart(cfg: Config, nodes: set<Node>) {
    forall n, i: nat, m, j: nat | n in nodes && m in nodes && i < Cap(cfg) && j < Cap(cfg)
      && Point(cfg, n, i) == Point(cfg, m, j) :: n == m && i == j
  }

  ghost predicate WithinCap(cfg: Config, replicas: map<Node, nat>) {
    forall n | n in replicas :: replicas[n] <= Cap(cfg)
  }

  lemma ApartNoCollisions(cfg: Config, nodes: set<Node>, replicas: map<Node, nat>)
    requires Apart(cfg, nodes) && replicas.Keys <= nodes && WithinCap(cfg, replicas)
    ensures NoCollisions(cfg, replicas)
  {
    forall n, i: nat, m, j: nat | n in replicas && i < replicas[n] && m in replicas && j < replicas[m]
      && Point(cfg, n, i) == Point(cfg, m, j) ensures n == m && i == j
    {
      assert n in nodes && m in nodes;
    }
  }

  // ---- Removing the points of a node one by one ----

  lemma OwnedPoints(cfg: Config, r: Ring, x: Node, h: nat)
    requires RingOk(cfg, r) && x in r.replicas
    ensures h in Points(cfg, x, r.replicas[x]) <==> h in r.owner && r.owner[h] == x
  {
    var pts := Points(cfg, x, r.replicas[x]);
    if h in pts {
      var i :| 0 <= i < |pts| && pts[i] == h;
      assert Point(cfg, x, i) == h;
    }
    if h in r.owner && r.owner[h] == x {
      assert IsPoint(cfg, x, r.replicas[x], h);
      var i: nat :| i < r.replicas[x] && Point(cfg, x, i) == h;
      assert pts[i] == h;
    }
  }

  lemma StrictCount(s: seq<nat>, h: nat)
    requires StrictlySorted(s)
    ensures multiset(s)[h] == if h in s then 1 else 0
  {
    DistinctCount(s, h);
  }

  lemma CountLeft(cfg: Config, r: Ring, x: Node, keys: seq<nat>, h: nat)
    requires RingOk(cfg, r) && x in r.replicas
    requires multiset(keys) == multiset(r.keys) - multiset(Points(cfg, x, r.replicas[x]))
    ensures multiset(keys)[h] == if h in RemoveNode(r, x).keys then 1 else 0
  {
    var pts := Points(cfg, x, r.replicas[x]);
    OwnedPoints(cfg, r, x, h);
    StrictCount(r.keys, h);
    assert h in pts <==> h in multiset(pts);
    DropMembers(r.keys, r.owner, x);
  }

  /** s without one copy of each element of pts. */
  function RemoveAll(s: seq<nat>, pts: seq<nat>): seq<nat> {
    if pts == [] then s else RemoveFirst(RemoveAll(s, pts[..|pts| - 1]), pts[|pts| - 1])
  }

  lemma LastCount(pts: seq<nat>)
    requires pts != []
    ensures multiset(pts) == multiset(pts[..|pts| - 1]) + multiset{pts[|pts| - 1]}
  {
    assert pts == pts[..|pts| - 1] + [pts[|pts| - 1]];
  }

  lemma {:induction false} RemoveAllIs(s: seq<nat>, pts: seq<nat>)
    ensures multiset(RemoveAll(s, pts)) == multiset(s) - multiset(pts)
  {
    if pts != [] {
      var n := |pts| - 1;
      RemoveAllIs(s, pts[..n]);
      LastCount(pts);
    }
  }

  lemma {:induction false} RemoveAllSorted(s: seq<nat>, pts: seq<nat>)
    ensures Sorted(s) ==> Sorted(RemoveAll(s, pts))
  {
    hide Sorted;
    if pts != [] && Sorted(s) {
      var n := |pts| - 1;
      RemoveAllSorted(s, pts[..n]);
      RemoveFirstSorted(RemoveAll(s, pts[..n]), pts[n]);
    }
  }

  function DropPoints(owner: map<nat, Node>, pts: seq<nat>): map<nat, Node> {
    map h | h in owner && h !in pts :: owner[h]
  }

  lemma RemoveStep(s: seq<nat>, owner: map<nat, Node>, pts: seq<nat>, i: nat)
    requires i < |pts|
    ensures RemoveAll(s, pts[..i + 1]) == RemoveFirst(RemoveAll(s, pts[..i]), pts[i])
    ensures DropPoints(owner, pts[..i + 1]) == DropPoints(owner, pts[..i]) - {pts[i]}
  {
    assert pts[..i + 1][..i] == pts[..i];
    assert pts[..i + 1] == pts[..i] + [pts[i]];
  }

  lemma RemoveNone(s: seq<nat>, owner: map<nat, Node>)
    ensures RemoveAll(s, []) == s && DropPoints(owner, []) == owner
  {
  }

  /** A sequence with the elements of a strictly sorted one, each once, sorts to it. */
  lemma SortsTo(s: seq<nat>, t: seq<nat>)
    requires StrictlySorted(t) && forall h :: multiset(s)[h] == if h in t then 1 else 0
    ensures SortInts(s) == t
  {
    SortIntsSorted(s);
    SortedStrictly(SortInts(s));
    forall h ensures h in SortInts(s) <==> h in t {
      assert h in SortInts(s) <==> h in multiset(SortInts(s));
    }
    SortedUnique(SortInts(s), t);
  }

  /** Once one copy of each point of x is gone, the ring is the ring without x. */
  lemma RemoveResult(cfg: Config, r: Ring, x: Node, keys: seq<nat>, owner: map<nat, Node>)
    requires RingOk(cfg, r) && x in r.replicas
    requires multiset(keys) == multiset(r.keys) - multiset(Points(cfg, x, r.replicas[x]))
    requires owner == map h | h in r.owner && h !in Points(cfg, x, r.replicas[x]) :: r.owner[h]
    ensures Ring(SortInts(keys), owner, r.replicas - {x}, r.unhealthy - {x}) == RemoveNode(r, x)
  {
    hide RingOk, Points, DropOwned, StrictlySorted;
    var r' := RemoveNode(r, x);
    forall h ensures multiset(keys)[h] == if h in r'.keys then 1 else 0 {
      CountLeft(cfg, r, x, keys, h);
    }
    RemoveOk(cfg, r, x);
    SortsTo(keys, r'.keys);
    OwnerLeft(cfg, r, x);
  }

  lemma OwnerLeft(cfg: Config, r: Ring, x: Node)
    requires RingOk(cfg, r) && x in r.replicas
    ensures (map h | h in r.owner && h !in Points(cfg, x, r.replicas[x]) :: r.owner[h]) == RemoveNode(r, x).owner
  {
    hide RingOk, Points;
    forall h ensures h in Points(cfg, x, r.replicas[x]) <==> h in r.owner && r.owner[h] == x {
      OwnedPoints(cfg, r, x, h);
    }
  }

  /** Adding a node that is registered already breaks the ring: a removal takes one copy of
      each of its points from the keys, and the owners of all of them. It leaves points
      without an owner if and only if the node was registered before it was added. */
  lemma Orphans(cfg: Config, r: Ring, x: Node, count: nat)
    requires RingOk(cfg, r) && 0 < count && NoCollisions(cfg, r.replicas[x := count])
    ensures var added, pts := AddNode(cfg, r, x, count), Points(cfg, x, count);
      var keys, owner := RemoveAll(added.keys, pts), DropPoints(added.owner, pts);
      (exists h :: h in keys && h !in owner) <==> x in r.replicas
  {
    hide RemoveAll, Points, StrictlySorted;
    var added, pts := AddNode(cfg, r, x, count), Points(cfg, x, count);
    var keys, owner := RemoveAll(added.keys, pts), DropPoints(added.owner, pts);
    RemoveAllIs(added.keys, pts);
    assert multiset(r.keys + pts) == multiset(r.keys) + multiset(pts);
    assert multiset(keys) == multiset(r.keys);
    assert forall h :: h in keys <==> h in multiset(keys);
    assert forall h :: h in r.keys <==> h in multiset(r.keys);
    assert forall h :: h in owner <==> h in r.owner && h !in pts;
    if x in r.replicas {
      var h := Point(cfg, x, 0);
      FirstPoint(cfg, x, count);
      assert h in r.owner && h in keys && h !in owner;
    } else {
      forall h | h in r.owner ensures h !in pts {
        PointsNew(cfg, r, x, count, h);
      }
    }
  }

  lemma FirstPoint(cfg: Config, x: Node, count: nat)
    requires 0 < count
    ensures Point(cfg, x, 0) in Points(cfg, x, count)
  {
    assert Points(cfg, x, count)[0] == Point(cfg, x, 0);
  }

  // ---- The map ----

  /** The nodes are new: none is registered or named twice, empty names aside. */
  predicate AllNew(nodes: seq<Node>, replicas: map<Node, nat>) {
    forall i | 0 <= i < |nodes| && nodes[i] != [] ::
      nodes[i] !in replicas && forall j | 0 <= j < i :: nodes[j] != nodes[i]
  }

  /** Adding the nodes one after the other, skipping empty names. */
  function AddAll(cfg: Config, r: Ring, nodes: seq<Node>): Ring {
    if nodes == [] then r
    else
      var before, node := AddAll(cfg, r, nodes[..|nodes| - 1]), nodes[|nodes| - 1];
      if node == [] then before else AddNode(cfg, before, node, cfg.defaultReplicas)
  }

  lemma AddOwnerStep(owner: map<nat, Node>, pts: seq<nat>, i: nat, x: Node)
    requires i < |pts|
    ensures pts[..i + 1] == pts[..i] + [pts[i]]
    ensures AddOwner(owner, pts[..i + 1], x) == AddOwner(owner, pts[..i], x)[pts[i] := x]
  {
    assert pts[..i + 1] == pts[..i] + [pts[i]];
  }

  lemma AddOwnerNone(owner: map<nat, Node>, x: Node)
    ensures AddOwner(owner, [], x) == owner
  {
  }

  ghost function Named(nodes: seq<Node>): set<Node> {
    set n | n in nodes && n != []
  }

  lemma AddNext(cfg: Config, r: Ring, nodes: seq<Node>, i: nat)
    requires i < |nodes| && AllNew(nodes, r.replicas)
    ensures var node := nodes[i];
      && Named(nodes[..i + 1]) == Named(nodes[..i]) + (if node == [] then {} else {node})
      && (node != [] ==> node !in r.replicas && node !in Named(nodes[..i]) && node in Named(nodes))
  {
    assert nodes[..i + 1] == nodes[..i] + [nodes[i]];
  }

  lemma AddAllNext(cfg: Config, r: Ring, nodes: seq<Node>, i: nat)
    requires i < |nodes|
    ensures AddAll(cfg, r, nodes[..i + 1]) ==
      var before := AddAll(cfg, r, nodes[..i]);
      if nodes[i] == [] then before else AddNode(cfg, before, nodes[i], cfg.defaultReplicas)
  {
    assert nodes[..i + 1][..i] == nodes[..i];
  }

  lemma NothingAdded(cfg: Config, r: Ring)
    ensures AddAll(cfg, r, []) == r && Named([]) == {}
  {
  }

  lemma NamedPrefix(nodes: seq<Node>, i: nat)
    requires i <= |nodes|
    ensures Named(nodes[..i]) <= Named(nodes)
  {
  }

  lemma ApartSubset(cfg: Config, all: set<Node>, some: set<Node>)
    requires Apart(cfg, all) && some <= all
    ensures Apart(cfg, some)
  {
  }

  /** The replica count a rebalance gives a node, clamped to the configured range. */
  function Clamp(cfg: Config, count: int): nat
    requires Usable(cfg)
  {
    if count > cfg.maxReplicas then cfg.maxReplicas
    else if count < cfg.minReplicas then cfg.minReplicas
    else count
  }

  /** What a rebalance makes of the ring: a visited node whose clamped count
      differs from its current one is removed and added with the new count. */
  function RebalanceAll(cfg: Config, r: Ring, visits: seq<(Node, int)>): Ring
    requires Usable(cfg)
  {
    if visits == [] then r
    else
      var before := RebalanceAll(cfg, r, visits[..|visits| - 1]);
      var (node, wanted) := visits[|visits| - 1];
      if node !in before.replicas || before.replicas[node] == Clamp(cfg, wanted) then before
      else AddNode(cfg, RemoveNode(before, node), node, Clamp(cfg, wanted))
  }

  ghost predicate Visited(visits: seq<(Node, int)>, n: Node) {
    exists i :: 0 <= i < |visits| && visits[i].0 == n
  }

  lemma VisitedNone(n: Node)
    ensures !Visited([], n)
  {
  }

  /** Rebalancing keeps the nodes and the well-formedness of the ring. */
  lemma {:induction false} RebalanceOk(cfg: Config, r: Ring, visits: seq<(Node, int)>)
    requires Usable(cfg) && RingOk(cfg, r) && Apart(cfg, r.replicas.Keys) && WithinCap(cfg, r.replicas)
    ensures var r' := RebalanceAll(cfg, r, visits);
      RingOk(cfg, r') && r'.replicas.Keys == r.replicas.Keys && WithinCap(cfg, r'.replicas)
  {
    hide RingOk, Apart, WithinCap;
    if visits != [] {
      var k := |visits| - 1;
      RebalanceOk(cfg, r, visits[..k]);
      var before := RebalanceAll(cfg, r, visits[..k]);
      var (node, wanted) := visits[k];
      if node in before.replicas {
        RebalanceOne(cfg, before, node, Clamp(cfg, wanted));
      }
    }
  }

  /** The count of n after the visits: that of its last visit, if it is visited. */
  function FinalCount(cfg: Config, visits: seq<(Node, int)>, n: Node, count: nat): nat
    requires Usable(cfg)
  {
    if visits == [] then count
    else if visits[|visits| - 1].0 == n then Clamp(cfg, visits[|visits| - 1].1)
    else FinalCount(cfg, visits[..|visits| - 1], n, count)
  }

  /** Every visit of n finds that n should have the count it has. */
  predicate CountKept(cfg: Config, visits: seq<(Node, int)>, n: Node, count: nat)
    requires Usable(cfg)
  {
    forall i | 0 <= i < |visits| && visits[i].0 == n :: Clamp(cfg, visits[i].1) == count
  }

  lemma CountStep(cfg: Config, visits: seq<(Node, int)>, n: Node, count: nat)
    requires Usable(cfg) && visits != []
    ensures var k := |visits| - 1;
      CountKept(cfg, visits, n, count) <==>
        CountKept(cfg, visits[..k], n, count) && (visits[k].0 == n ==> Clamp(cfg, visits[k].1) == count)
  {
    hide Clamp;
    var k := |visits| - 1;
    assert forall i | 0 <= i < k :: visits[..k][i] == visits[i];
  }

  lemma {:induction false} KeptIsFinal(cfg: Config, visits: seq<(Node, int)>, n: Node, count: nat)
    requires Usable(cfg)
    ensures CountKept(cfg, visits, n, count) ==> FinalCount(cfg, visits, n, count) == count
    ensures Visited(visits, n) ==> cfg.minReplicas <= FinalCount(cfg, visits, n, count) <= cfg.maxReplicas
    ensures !Visited(visits, n) ==> FinalCount(cfg, visits, n, count) == count && CountKept(cfg, visits, n, count)
  {
    if visits == [] {
      VisitedNone(n);
    } else {
      KeptIsFinal(cfg, visits[..|visits| - 1], n, count);
      CountStep(cfg, visits, n, count);
    }
  }

  /** Rebalancing gives a node the clamped count of its last visit, within the configured
      range, and leaves nodes that are not visited alone. A health mark survives if and
      only if every visit of its node finds the count unchanged; none is ever set. */
  lemma {:induction false} RebalanceIs(cfg: Config, r: Ring, visits: seq<(Node, int)>, n: Node)
    requires Usable(cfg) && RingOk(cfg, r) && Apart(cfg, r.replicas.Keys) && WithinCap(cfg, r.replicas)
    requires n in r.replicas
    ensures var r' := RebalanceAll(cfg, r, visits);
      && n in r'.replicas
      && r'.replicas[n] == FinalCount(cfg, visits, n, r.replicas[n])
      && (Visited(visits, n) ==> cfg.minReplicas <= r'.replicas[n] <= cfg.maxReplicas)
      && (!Visited(visits, n) ==> r'.replicas[n] == r.replicas[n])
      && (n in r'.unhealthy <==> n in r.unhealthy && CountKept(cfg, visits, n, r.replicas[n]))
  {
    hide RingOk, Apart, WithinCap, Visited, AddNode, RemoveNode, CountKept, Clamp;
    var count := r.replicas[n];
    KeptIsFinal(cfg, visits, n, count);
    if visits == [] {
      VisitedNone(n);
    } else {
      var k := |visits| - 1;
      RebalanceIs(cfg, r, visits[..k], n);
      RebalanceOk(cfg, r, visits[..k]);
      CountStep(cfg, visits, n, count);
      KeptIsFinal(cfg, visits[..k], n, count);
      ClampInCap(cfg, visits[k].1);
      var before := RebalanceAll(cfg, r, visits[..k]);
      var (node, wanted) := visits[k];
      if node in before.replicas {
        RebalanceOne(cfg, before, node, Clamp(cfg, wanted));
      }
    }
  }

  lemma ClampInCap(cfg: Config, wanted: int)
    requires Usable(cfg)
    ensures 0 < Clamp(cfg, wanted) <= Cap(cfg)
  {
  }

  lemma RebalanceOne(cfg: Config, r: Ring, node: Node, count: nat)
    requires Usable(cfg) && RingOk(cfg, r) && Apart(cfg, r.replicas.Keys) && WithinCap(cfg, r.replicas)
    requires node in r.replicas && 0 < count <= Cap(cfg)
    ensures var r' := AddNode(cfg, RemoveNode(r, node), node, count);
      && RingOk(cfg, r') && WithinCap(cfg, r'.replicas)
      && r'.replicas == r.replicas[node := count] && r'.unhealthy == r.unhealthy - {node}
  {
    hide Apart;
    var all := (r.replicas - {node})[node := count];
    assert all == r.replicas[node := count];
    RemoveOk(cfg, r, node);
    ApartNoCollisions(cfg, r.replicas.Keys, all);
    AddOk(cfg, RemoveNode(r, node), node, count);
  }

  lemma RebalanceNone(cfg: Config, r: Ring)
    requires Usable(cfg)
    ensures RebalanceAll(cfg, r, []) == r
  {
  }

  lemma RebalanceNext(cfg: Config, r: Ring, visits: seq<(Node, int)>, i: nat)
    requires Usable(cfg) && i < |visits|
    ensures var before := RebalanceAll(cfg, r, visits[..i]);
      var (node, wanted) := visits[i];
      RebalanceAll(cfg, r, visits[..i + 1]) ==
        if node !in before.replicas || before.replicas[node] == Clamp(cfg, wanted) then before
        else AddNode(cfg, RemoveNode(before, node), node, Clamp(cfg, wanted))
  {
    assert visits[..i + 1][..i] == visits[..i];
  }

  lemma PickHead(w: seq<Node>, i: nat, taken: set<Node>, n: nat)
    requires i < |w| && 0 < n
    ensures Pick(w[i..], taken, n) ==
      if w[i] in taken then Pick(w[i + 1..], taken, n)
      else [w[i]] + Pick(w[i + 1..], taken + {w[i]}, n - 1)
  {
    assert w[i..][0] == w[i] && w[i..][1..] == w[i + 1..];
  }

  /** One step of a walk that has met the nodes of met, in order, and no others. */
  lemma SeenStep(w: seq<Node>, i: nat, seen: set<Node>, met: seq<Node>, n: nat)
    requires i < |w| && |met| < n && met + Pick(w[i..], seen, n - |met|) == Pick(w, {}, n)
    ensures var met' := if w[i] in seen then met else met + [w[i]];
      met' + Pick(w[i + 1..], seen + {w[i]}, n - |met'|) == Pick(w, {}, n)
  {
    hide Pick;
    PickHead(w, i, seen, n - |met|);
    if w[i] in seen {
      assert seen + {w[i]} == seen;
    }
  }

  lemma AddSeen(seen: set<Node>, x: Node)
    ensures |seen + {x}| == |seen| + (if x in seen then 0 else 1)
    ensures x in seen ==> seen + {x} == seen
  {
    assert x in seen ==> seen + {x} == seen;
  }

  lemma SameSize(a: set<Node>, b: set<Node>)
    requires a <= b && |a| >= |b|
    ensures a == b
  {
    assert |b - a| == |b| - |a|;
  }

  lemma PickDone(w: seq<Node>, taken: set<Node>, n: nat)
    requires w == [] || n == 0
    ensures Pick(w, taken, n) == []
  {
  }

  class Map {
    const config: Config
    var keys: seq<nat>
    var hashMap: map<nat, Node>
    var nodeReplicas: map<Node, nat>
    var nodeCounts: map<Node, int>
    var totalRequests: int
    var unhealthyNodes: set<Node>

    /** The ring these fields represent once the keys are sorted. */
    ghost function Tidy(): Ring
      reads this
    {
      Ring(SortInts(keys), hashMap, nodeReplicas, unhealthyNodes)
    }

    ghost function Value(): Ring
      reads this
    {
      Ring(keys, hashMap, nodeReplicas, unhealthyNodes)
    }

    /** What holds while nodes are being added and the keys are not sorted yet. */
    ghost predicate Loose()
      reads this
    {
      && Usable(config) && Apart(config, nodeReplicas.Keys) && WithinCap(config, nodeReplicas)
      && RingOk(config, Tidy())
      && nodeCounts.Keys == nodeReplicas.Keys
    }

    ghost predicate Valid()
      reads this
    {
      Loose() && Sorted(keys)
    }

    lemma TidyIsValue()
      requires Sorted(keys)
      ensures Tidy() == Value()
    {
      SortOfSorted(keys);
    }

    constructor (config: Config)
      requires Usable(config)
      ensures Valid() && this.config == config
      ensures Value() == Ring([], map[], map[], {})
    {
      this.config := config;
      keys, hashMap, nodeReplicas, nodeCounts := [], map[], map[], map[];
      totalRequests, unhealthyNodes := 0, {};
    }

    method AppendPoints(node: Node, replicas: nat)
      modifies this`keys, this`hashMap
      ensures keys == old(keys) + Points(config, node, replicas)
      ensures hashMap == AddOwner(old(hashMap), Points(config, node, replicas), node)
    {
      hide AddOwner;
      ghost var pts := Points(config, node, replicas);
      AddOwnerNone(old(hashMap), node);
      assert pts[..0] == [];
      for i := 0 to replicas
        invariant keys == old(keys) + pts[..i]
        invariant hashMap == AddOwner(old(hashMap), pts[..i], node)
      {
        var hash := config.hash(config.pointLabel(node, i));
        AddOwnerStep(old(hashMap), pts, i, node);
        keys := keys + [hash];
        hashMap := hashMap[hash := node];
      }
      assert pts[..replicas] == pts;
    }

    /** Adds the virtual points of a node without sorting the keys. */
    method AddPoints(node: Node, replicas: nat)
      modifies this`keys, this`hashMap, this`nodeReplicas, this`nodeCounts
      ensures nodeReplicas == old(nodeReplicas)[node := replicas]
      ensures Tidy() == AddNode(config, old(Tidy()), node, replicas)
      ensures nodeCounts == if node in old(nodeCounts) then old(nodeCounts) else old(nodeCounts)[node := 0]
      ensures old(CanAdd(node, replicas)) ==> Loose()
    {
      hide Apart, RingOk, NoCollisions, SortInts, Points, AddOwner, WithinCap;
      ghost var can := CanAdd(node, replicas);
      ghost var all := nodeReplicas[node := replicas];
      SortLate(keys, Points(config, node, replicas));
      if can {
        AddKeepsOk(Tidy(), node, replicas);
      }
      AppendPoints(node, replicas);
      nodeReplicas := nodeReplicas[node := replicas];
      if node !in nodeCounts {
        nodeCounts := nodeCounts[node := 0];
      }
    }

    /** The node is new, and its points collide with no others. */
    ghost predicate CanAdd(node: Node, replicas: nat)
      reads this
    {
      && Loose() && node !in nodeReplicas && node != [] && 0 < replicas <= Cap(config)
      && Apart(config, nodeReplicas.Keys + {node})
    }

    lemma AddKeepsOk(r: Ring, node: Node, replicas: nat)
      requires CanAdd(node, replicas) && r == Tidy()
      ensures RingOk(config, AddNode(config, r, node, replicas))
      ensures var all := nodeReplicas[node := replicas];
        Apart(config, all.Keys) && WithinCap(config, all)
    {
      hide Apart, RingOk, NoCollisions, AddNode;
      var all := nodeReplicas[node := replicas];
      assert all.Keys == nodeReplicas.Keys + {node};
      ApartNoCollisions(config, all.Keys, all);
      AddOk(config, r, node, replicas);
    }

    /** All named nodes are new, and their points collide with no others. */
    ghost predicate CanAddAll(nodes: seq<Node>)
      reads this
    {
      Valid() && AllNew(nodes, nodeReplicas) && Apart(config, nodeReplicas.Keys + Named(nodes))
    }

    /** Adds the nodes, or reports that none were given. The ring stays well-formed if
        the nodes are new. */
    method Add(nodes: seq<Node>) returns (ok: bool)
      modifies this
      ensures ok <==> nodes != []
      ensures ok ==> Value() == AddAll(config, old(Tidy()), nodes) && Sorted(keys)
      ensures !ok ==> Value() == old(Value()) && nodeCounts == old(nodeCounts)
      ensures old(Sorted(keys)) ==> Value() == AddAll(config, old(Value()), nodes) && Sorted(keys)
      ensures old(CanAddAll(nodes)) ==> Valid()
      ensures unhealthyNodes == old(unhealthyNodes) && totalRequests == old(totalRequests)
    {
      hide Apart, RingOk, SortInts, AllNew, Named, AddAll, WithinCap, AddNode, Sorted;
      ghost var r, can, all := Tidy(), CanAddAll(nodes), nodeReplicas.Keys + Named(nodes);
      NothingAdded(config, r);
      SortedIsTidy();
      if |nodes| == 0 {
        assert nodes == [];
        return false;
      }
      assert nodes[..0] == [];
      for i := 0 to |nodes|
        invariant Tidy() == AddAll(config, r, nodes[..i])
        invariant can ==> Loose() && nodeReplicas.Keys == r.replicas.Keys + Named(nodes[..i])
        invariant unhealthyNodes == old(unhealthyNodes) && totalRequests == old(totalRequests)
      {
        AddAllNext(config, r, nodes, i);
        var node := nodes[i];
        if can {
          AddNext(config, r, nodes, i);
          NamedPrefix(nodes, i);
        }
        if node == [] {
          continue;
        }
        if can {
          ApartSubset(config, all, nodeReplicas.Keys + {node});
        }
        AddPoints(node, config.defaultReplicas);
      }
      assert nodes[..|nodes|] == nodes;
      SortKeys();
      return true;
    }

    lemma SortedIsTidy()
      ensures Sorted(keys) ==> Tidy() == Value()
    {
      if Sorted(keys) {
        SortOfSorted(keys);
      }
    }

    method SortKeys()
      modifies this`keys
      ensures Sorted(keys) && Value() == old(Tidy()) && Tidy() == Value()
      ensures old(Loose()) ==> Valid()
    {
      SortIntsSorted(keys);
      keys := SortInts(keys);
      SortOfSorted(keys);
    }

    /** Deletes the first occurrence of hash from the keys. */
    method DeleteKey(hash: nat)
      modifies this`keys
      ensures keys == RemoveFirst(old(keys), hash)
    {
      var j := 0;
      while j < |keys|
        modifies this`keys
        invariant j <= |keys| && keys == old(keys)
        invariant forall i | 0 <= i < j :: keys[i] != hash
      {
        if keys[j] == hash {
          RemoveFirstAt(keys, hash, j);
          keys := keys[..j] + keys[j + 1..];
          return;
        }
        j := j + 1;
      }
      RemoveFirstAbsent(keys, hash);
    }

    /** Deletes one copy of each virtual point of a node. */
    method DeletePoints(node: Node, replicas: nat)
      modifies this`keys, this`hashMap
      ensures keys == RemoveAll(old(keys), Points(config, node, replicas))
      ensures hashMap == DropPoints(old(hashMap), Points(config, node, replicas))
    {
      hide RemoveAll, DropPoints;
      ghost var pts := Points(config, node, replicas);
      RemoveNone(keys, hashMap);
      assert pts[..0] == [];
      for i := 0 to replicas
        invariant keys == RemoveAll(old(keys), pts[..i])
        invariant hashMap == DropPoints(old(hashMap), pts[..i])
      {
        var hash := config.hash(config.pointLabel(node, i));
        RemoveStep(old(keys), old(hashMap), pts, i);
        hashMap := hashMap - {hash};
        DeleteKey(hash);
      }
      assert pts[..replicas] == pts;
    }

    /** Unregisters a node, or reports that it is not registered: one copy of each of
        its points goes. The keys need not be sorted, but stay sorted if they are. */
    method Remove(node: Node) returns (ok: bool)
      modifies this`keys, this`hashMap, this`nodeReplicas, this`nodeCounts, this`unhealthyNodes
      ensures ok <==> node != [] && node in old(nodeReplicas) && old(nodeReplicas)[node] != 0
      ensures ok ==>
        && keys == RemoveAll(old(keys), Points(config, node, old(nodeReplicas)[node]))
        && hashMap == DropPoints(old(hashMap), Points(config, node, old(nodeReplicas)[node]))
        && nodeReplicas == old(nodeReplicas) - {node} && nodeCounts == old(nodeCounts) - {node}
        && unhealthyNodes == old(unhealthyNodes) - {node}
      ensures !ok ==> Value() == old(Value()) && nodeCounts == old(nodeCounts)
      ensures old(Sorted(keys)) ==> Sorted(keys)
      ensures old(Loose()) ==> Loose() && (ok <==> node in old(nodeReplicas))
      ensures old(Loose()) && ok ==> Tidy() == RemoveNode(old(Tidy()), node)
    {
      hide Apart, SortInts, Points, RingOk, RemoveNode, RemoveAll, DropPoints, Sorted, WithinCap;
      ghost var loose := Loose();
      if loose {
        RegisteredNodes();
      }
      if node == [] {
        return false;
      }
      var replicas := if node in nodeReplicas then nodeReplicas[node] else 0;
      if replicas == 0 {
        return false;
      }
      RemoveAllSorted(keys, Points(config, node, replicas));
      if loose {
        RemoveKeepsOk(node);
      }
      DeletePoints(node, replicas);
      nodeReplicas := nodeReplicas - {node};
      nodeCounts := nodeCounts - {node};
      unhealthyNodes := unhealthyNodes - {node};
      return true;
    }

    lemma RemoveKeepsOk(node: Node)
      requires Loose() && node in nodeReplicas
      ensures var pts := Points(config, node, nodeReplicas[node]);
        && RemoveNode(Tidy(), node) ==
           Ring(SortInts(RemoveAll(keys, pts)), DropPoints(hashMap, pts),
                nodeReplicas - {node}, unhealthyNodes - {node})
        && RingOk(config, RemoveNode(Tidy(), node))
        && Apart(config, (nodeReplicas - {node}).Keys) && WithinCap(config, nodeReplicas - {node})
    {
      hide Apart, SortInts, Points, RingOk, RemoveNode, RemoveAll;
      var pts := Points(config, node, nodeReplicas[node]);
      RemoveAllIs(keys, pts);
      RemoveResult(config, Tidy(), node, RemoveAll(keys, pts), DropPoints(hashMap, pts));
      RemoveOk(config, Tidy(), node);
      ApartSubset(config, nodeReplicas.Keys, (nodeReplicas - {node}).Keys);
    }

    lemma RegisteredNodes()
      requires Loose()
      ensures forall n | n in nodeReplicas :: n != [] && 0 < nodeReplicas[n]
    {
    }

    method MarkUnhealthy(node: Node)
      modifies this`unhealthyNodes
      ensures Value() == RingRoutes.MarkUnhealthy(old(Value()), node)
      ensures old(Valid()) ==> Valid()
    {
      hide Apart, WithinCap, Sorted, SortInts, Owned, StrictlySorted;
      unhealthyNodes := unhealthyNodes + {node};
    }

    method MarkHealthy(node: Node)
      modifies this`unhealthyNodes
      ensures Value() == RingRoutes.MarkHealthy(old(Value()), node)
      ensures old(Valid()) ==> Valid()
    {
      hide Apart, WithinCap, Sorted, SortInts, Owned, StrictlySorted;
      unhealthyNodes := unhealthyNodes - {node};
    }

    /** Gives a node another number of virtual points. */
    method Resize(node: Node, count: nat)
      requires Loose() && node in nodeReplicas && 0 < count <= Cap(config)
      modifies this
      ensures Loose() && Tidy() == AddNode(config, RemoveNode(old(Tidy()), node), node, count)
      ensures nodeReplicas.Keys == old(nodeReplicas).Keys
    {
      hide Loose, AddNode, RemoveNode, Tidy, RemoveAll, DropPoints, Points, Sorted;
      var _ := RemoveRegistered(node);
      AddPoints(node, count);
      assert old(nodeReplicas).Keys - {node} + {node} == old(nodeReplicas).Keys;
    }

    method RemoveRegistered(node: Node) returns (ok: bool)
      requires Loose() && node in nodeReplicas
      modifies this`keys, this`hashMap, this`nodeReplicas, this`nodeCounts, this`unhealthyNodes
      ensures Loose() && Tidy() == RemoveNode(old(Tidy()), node)
      ensures nodeReplicas == old(nodeReplicas) - {node}
      ensures forall count: nat | 0 < count <= Cap(config) :: CanAdd(node, count)
    {
      hide RingOk, SortInts, WithinCap, Apart, Sorted, RemoveAll, DropPoints, Points, RemoveNode;
      RegisteredNodes();
      ok := Remove(node);
      assert nodeReplicas.Keys + {node} == old(nodeReplicas).Keys;
    }

    /** Changes the numbers of virtual points. The nodes are visited in any order,
        any number of times, with any wanted count. */
    method Rebalance(visits: seq<(Node, int)>)
      requires Valid() && forall i | 0 <= i < |visits| :: visits[i].0 in nodeReplicas
      modifies this
      ensures Valid()
      ensures Value() == RebalanceAll(config, old(Value()), visits)
      ensures totalRequests == 0 && forall n | n in nodeCounts :: nodeCounts[n] == 0
    {
      hide Apart, RingOk, RebalanceAll, AddNode, RemoveNode, WithinCap, SortInts;
      TidyIsValue();
      ghost var r := Value();
      RebalanceNone(config, r);
      assert visits[..0] == [];
      for i := 0 to |visits|
        invariant Loose()
        invariant nodeReplicas.Keys == r.replicas.Keys
        invariant Tidy() == RebalanceAll(config, r, visits[..i])
      {
        RebalanceNext(config, r, visits, i);
        var (node, wanted) := visits[i];
        var count := if wanted > config.maxReplicas then config.maxReplicas else wanted;
        count := if count < config.minReplicas then config.minReplicas else count;
        if count != nodeReplicas[node] {
          Resize(node, count);
        }
      }
      assert visits[..|visits|] == visits;
      nodeCounts := map n | n in nodeCounts :: 0;
      totalRequests := 0;
      SortKeys();
    }

    /** The library's binary search: the first position whose key is at least hash. */
    method Search(hash: nat) returns (idx: nat)
      requires Sorted(keys)
      ensures SplitAt(keys, hash, idx)
    {
      var i, j := 0, |keys|;
      while i < j
        invariant 0 <= i <= j <= |keys|
        invariant forall k | 0 <= k < i :: keys[k] < hash
        invariant forall k | j <= k < |keys| :: hash <= keys[k]
      {
        var mid := (i + j) / 2;
        if keys[mid] < hash {
          forall k | 0 <= k < mid ensures keys[k] <= keys[mid] {
            SortedPair(keys, k, mid);
          }
          i := mid + 1;
        } else {
          forall k | mid < k < |keys| ensures keys[mid] <= keys[k] {
            SortedPair(keys, mid, k);
          }
          j := mid;
        }
      }
      return i;
    }

    /** The walk of hash reads the keys from idx on, wrapping around. */
    ghost predicate WalksFrom(hash: nat, idx: nat)
      reads this
    {
      && keys != [] && idx < |keys| == |Walk(Value(), hash)|
      && forall i | 0 <= i < |keys| :: Walk(Value(), hash)[i] == OwnerOf(hashMap, keys[Place(idx, i, |keys|)])
    }

    lemma WalkKeys(hash: nat, idx: nat)
      requires WalksFrom(hash, idx)
      ensures keys != [] && idx < |keys| == |Walk(Value(), hash)|
    {
    }

    lemma WalkStep(hash: nat, idx: nat, i: nat)
      requires WalksFrom(hash, idx) && i < |keys|
      ensures idx < |keys| == |Walk(Value(), hash)|
      ensures Walk(Value(), hash)[i] == OwnerOf(hashMap, keys[Place(idx, i, |keys|)])
    {
    }

    /** The position a walk starts at: that of the search, or 0 past the end. */
    method Start(hash: nat) returns (idx: nat)
      requires Sorted(keys) && keys != []
      ensures WalksFrom(hash, idx)
    {
      ghost var r := Value();
      idx := Search(hash);
      ghost var split := idx;
      if idx == |keys| {
        idx := 0;
      }
      WalkLength(r, hash);
      hide Walk, Sorted, Place, OwnerOf;
      forall i | 0 <= i < |keys| ensures Walk(r, hash)[i] == OwnerOf(hashMap, keys[Place(idx, i, |keys|)]) {
        WalkAt(r, hash, split, i);
      }
    }

    /** The owner of a key; counts the request. */
    method Get(key: Key) returns (node: Node)
      requires Valid()
      modifies this`nodeCounts, this`totalRequests
      ensures Valid() && node == RingRoutes.Get(config, Value(), key)
      ensures totalRequests == old(totalRequests) + if node == [] then 0 else 1
      ensures node == [] ==> nodeCounts == old(nodeCounts)
      ensures node != [] ==> node in old(nodeCounts) && nodeCounts == old(nodeCounts)[node := old(nodeCounts)[node] + 1]
    {
      hide RingOk, Apart, WithinCap, Sorted, Walk, Place, OwnerOf, WalksFrom;
      WalkLength(Value(), config.hash(key));
      if key == [] || |keys| == 0 {
        return [];
      }
      var idx := Start(config.hash(key));
      WalkKeys(config.hash(key), idx);
      WalkStep(config.hash(key), idx, 0);
      node := OwnerOf(hashMap, keys[idx]);
      WrapAround(idx, 0, |keys|);
      KeyOwner(idx);
      Count(node);
    }

    lemma KeyOwner(idx: nat)
      requires Valid() && idx < |keys|
      ensures OwnerOf(hashMap, keys[idx]) in nodeReplicas && OwnerOf(hashMap, keys[idx]) != []
    {
      TidyIsValue();
      assert keys[idx] in keys;
    }

    method Count(node: Node)
      requires Valid() && node in nodeReplicas
      modifies this`nodeCounts, this`totalRequests
      ensures Valid()
      ensures nodeCounts == old(nodeCounts)[node := old(nodeCounts)[node] + 1]
      ensures totalRequests == old(totalRequests) + 1
    {
      hide RingOk, Apart, WithinCap, Sorted;
      if node in nodeCounts {
        nodeCounts := nodeCounts[node := nodeCounts[node] + 1];
      }
      totalRequests := totalRequests + 1;
    }

    /** The first n distinct nodes, walking from idx, that are not to be skipped. */
    method CollectFrom(hash: nat, idx: nat, n: nat, skip: set<Node>) returns (result: seq<Node>)
      requires WalksFrom(hash, idx)
      ensures result == Pick(Walk(Value(), hash), skip, n)
    {
      hide Walk, Place, OwnerOf, Pick, WalksFrom;
      ghost var w := Walk(Value(), hash);
      WalkKeys(hash, idx);
      result := [];
      var seen: set<Node> := {};
      var i := 0;
      assert w[0..] == w && {} + skip == skip;
      while i < |keys| && |result| < n
        invariant i <= |w| && |result| <= n
        invariant result + Pick(w[i..], seen + skip, n - |result|) == Pick(w, skip, n)
      {
        var node := OwnerOf(hashMap, keys[Place(idx, i, |keys|)]);
        WalkStep(hash, idx, i);
        PickHead(w, i, seen + skip, n - |result|);
        if node !in seen && node !in skip {
          assert seen + skip + {node} == seen + {node} + skip;
          seen := seen + {node};
          result := result + [node];
        }
        i := i + 1;
      }
      PickDone(w[i..], seen + skip, n - |result|);
    }

    method GetN(key: Key, n: int) returns (result: seq<Node>)
      requires Sorted(keys)
      ensures result == RingRoutes.GetN(config, Value(), key, n)
    {
      result := Collect(key, n, {});
    }

    method GetNHealthy(key: Key, n: int) returns (result: seq<Node>)
      requires Sorted(keys)
      ensures result == RingRoutes.GetNHealthy(config, Value(), key, n)
    {
      result := Collect(key, n, unhealthyNodes);
    }

    /** The common part of the two lookups of several nodes. */
    method Collect(key: Key, n: int, skip: set<Node>) returns (result: seq<Node>)
      requires Sorted(keys)
      ensures result == if key == [] || n <= 0 then [] else Pick(Walk(Value(), config.hash(key)), skip, n)
    {
      hide Sorted, Walk, Place, OwnerOf, Pick;
      WalkLength(Value(), config.hash(key));
      if key == [] || n <= 0 {
        return [];
      }
      if |keys| == 0 {
        PickDone(Walk(Value(), config.hash(key)), skip, n);
        return [];
      }
      var idx := Start(config.hash(key));
      result := CollectFrom(config.hash(key), idx, n, skip);
    }

    lemma SomeNode()
      requires Valid() && keys != []
      ensures 0 < |nodeReplicas|
    {
      KeyOwner(0);
      assert nodeReplicas.Keys != {};
    }

    /** If every registered node is unhealthy, no walk meets a healthy one. */
    lemma NoneHealthy(h: nat, seen: set<Node>)
      requires Valid() && seen <= nodeReplicas.Keys && |seen| >= |nodeReplicas| && seen <= unhealthyNodes
      ensures Pick(Walk(Value(), h), unhealthyNodes, 1) == []
    {
      hide Walk, Pick;
      var w := Walk(Value(), h);
      TidyIsValue();
      WalkNodes(config, Value(), h);
      PickSizes(w, unhealthyNodes, 1);
      SameSize(seen, nodeReplicas.Keys);
      assert NodesOf(w) - unhealthyNodes == {};
    }

    /** A walk meets all registered nodes. */
    lemma AllMet(h: nat)
      requires Valid()
      ensures |Pick(Walk(Value(), h), {}, |nodeReplicas|)| == |nodeReplicas|
    {
      hide Walk, Pick;
      var w := Walk(Value(), h);
      TidyIsValue();
      WalkNodes(config, Value(), h);
      PickSizes(w, {}, |nodeReplicas|);
      assert NodesOf(w) - {} == nodeReplicas.Keys;
      assert |nodeReplicas.Keys| == |nodeReplicas|;
    }

    /** The walk from idx up to the first healthy node, or up to the node that
        completes the set of all nodes when none is healthy. */
    method FirstHealthy(hash: nat, idx: nat) returns (node: Node)
      requires Valid() && WalksFrom(hash, idx)
      ensures node in nodeReplicas && node != []
      ensures var w := Walk(Value(), hash);
        var healthy, all := Pick(w, unhealthyNodes, 1), Pick(w, {}, |nodeReplicas|);
        && (healthy != [] ==> node == healthy[0] && node !in unhealthyNodes)
        && (healthy == [] ==> all != [] && node == all[|all| - 1] && node in unhealthyNodes)
    {
      hide Valid, Walk, Place, OwnerOf, Pick, WalksFrom;
      ghost var w, all := Walk(Value(), hash), |nodeReplicas|;
      WalkKeys(hash, idx);
      SomeNode();
      var seen: set<Node> := {};
      ghost var met: seq<Node> := [];
      assert w[0..] == w;
      for i := 0 to |keys|
        invariant seen <= nodeReplicas.Keys && |seen| == |met| < all && seen <= unhealthyNodes
        invariant met + Pick(w[i..], seen, all - |met|) == Pick(w, {}, all)
        invariant Pick(w[i..], unhealthyNodes, 1) == Pick(w, unhealthyNodes, 1)
      {
        node := OwnerOf(hashMap, keys[Place(idx, i, |keys|)]);
        WalkStep(hash, idx, i);
        PickHead(w, i, unhealthyNodes, 1);
        KeyOwner(Place(idx, i, |keys|));
        if node !in unhealthyNodes {
          PickDone(w[i + 1..], unhealthyNodes + {node}, 0);
          return;
        }
        SeenStep(w, i, seen, met, all);
        AddSeen(seen, node);
        met := if node in seen then met else met + [node];
        seen := seen + {node};
        if |seen| >= |nodeReplicas| {
          PickDone(w[i + 1..], seen, all - |met|);
          NoneHealthy(hash, seen);
          return;
        }
      }
      PickDone(w[|keys|..], seen, all - |met|);
      AllMet(hash);
      assert false;
    }

    /** The node a key is served by, skipping unhealthy ones; counts the request if
        the node is healthy. When none is healthy it is the node met last. */
    method GetHealthy(key: Key) returns (node: Node)
      requires Valid()
      modifies this`nodeCounts, this`totalRequests
      ensures Valid() && node == RingRoutes.GetHealthy(config, Value(), key)
      ensures var counted := node != [] && node !in unhealthyNodes;
        && totalRequests == old(totalRequests) + (if counted then 1 else 0)
        && (!counted ==> nodeCounts == old(nodeCounts))
        && (counted ==> node in old(nodeCounts) && nodeCounts == old(nodeCounts)[node := old(nodeCounts)[node] + 1])
    {
      hide RingOk, Apart, WithinCap, Sorted, Walk, Place, OwnerOf, Pick;
      ghost var w := Walk(Value(), config.hash(key));
      WalkLength(Value(), config.hash(key));
      if key == [] {
        return [];
      }
      if |keys| == 0 {
        PickDone(w, unhealthyNodes, 1);
        PickDone(w, {}, |nodeReplicas|);
        return [];
      }
      SomeNode();
      var idx := Start(config.hash(key));
      node := FirstHealthy(config.hash(key), idx);
      if node !in unhealthyNodes {
        Count(node);
      }
    }
  }
}
