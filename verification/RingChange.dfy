/** What adding, removing and marking nodes changes on the ring. */
module RingChange {
  import opened Ring

  // ---- The ring is determined by its nodes ----

  /** Two strictly sorted sequences with the same elements are the same. */
  lemma {:induction false} SortedUnique(a: seq<nat>, b: seq<nat>)
    requires StrictlySorted(a) && StrictlySorted(b)
    requires forall h :: h in a <==> h in b
    ensures a == b
  {
    var least := if b == [] then 0 else b[0];
    assert b != [] ==> least in b;
    if a != [] {
      assert a[0] in b && b != [] && b[0] in a;
      assert a[0] == b[0];
      forall h ensures h in a[1..] <==> h in b[1..] {
        if h in a[1..] {
          assert h in a && h != a[0];
        }
        if h in b[1..] {
          assert h in b && h != b[0];
        }
        assert a == [a[0]] + a[1..] && b == [b[0]] + b[1..];
      }
      SortedUnique(a[1..], b[1..]);
      assert a == [a[0]] + a[1..] && b == [b[0]] + b[1..];
    }
  }

  /** However a ring came about, its points and owners follow from the nodes and
      their numbers of virtual points. */
  lemma RingUnique(cfg: Config, r: Ring, r': Ring)
    requires RingOk(cfg, r) && RingOk(cfg, r') && r.replicas == r'.replicas
    ensures r.keys == r'.keys && r.owner == r'.owner
  {
    SortedUnique(r.keys, r'.keys);
  }

  // ---- Removing and adding keep the ring well-formed ----

  lemma {:induction false} DropMembers(s: seq<nat>, owner: map<nat, Node>, x: Node)
    ensures forall h :: h in DropOwned(s, owner, x) <==> h in s && OwnerOf(owner, h) != x
  {
    if s != [] {
      DropMembers(s[1..], owner, x);
      assert s == [s[0]] + s[1..];
    }
  }

  lemma StrictCons(x: nat, s: seq<nat>)
    requires StrictlySorted(s) && forall h | h in s :: x < h
    ensures StrictlySorted([x] + s)
  {
    assert forall i | 0 <= i < |s| :: s[i] in s;
  }

  lemma {:induction false} DropSorted(s: seq<nat>, owner: map<nat, Node>, x: Node)
    requires StrictlySorted(s)
    ensures StrictlySorted(DropOwned(s, owner, x))
  {
    if s != [] {
      DropSorted(s[1..], owner, x);
      DropMembers(s[1..], owner, x);
      assert forall h | h in s[1..] :: s[0] < h;
      StrictCons(s[0], DropOwned(s[1..], owner, x));
    }
  }

  lemma RemoveOk(cfg: Config, r: Ring, x: Node)
    requires RingOk(cfg, r)
    ensures RingOk(cfg, RemoveNode(r, x))
  {
    DropMembers(r.keys, r.owner, x);
    DropSorted(r.keys, r.owner, x);
    var r' := RemoveNode(r, x);
    forall h | h in r'.owner
      ensures r'.owner[h] in r'.replicas && IsPoint(cfg, r'.owner[h], r'.replicas[r'.owner[h]], h)
    {
      assert IsPoint(cfg, r.owner[h], r.replicas[r.owner[h]], h);
    }
  }

  lemma DistinctCount(s: seq<nat>, h: nat)
    requires forall i, j | 0 <= i < j < |s| :: s[i] != s[j]
    ensures multiset(s)[h] <= 1
  {
    if s != [] {
      DistinctCount(s[1..], h);
      assert s == [s[0]] + s[1..];
      assert s[0] !in s[1..];
    }
  }

  lemma CountDistinct(s: seq<nat>, i: nat, j: nat)
    requires i < j < |s| && s[i] == s[j]
    ensures multiset(s)[s[i]] >= 2
  {
    assert s == s[..j] + s[j..];
    assert s[i] in s[..j] && s[i] in s[j..] by {
      assert s[..j][i] == s[i] && s[j..][0] == s[j];
    }
    assert multiset(s) == multiset(s[..j]) + multiset(s[j..]);
  }

  lemma SortedStrictly(s: seq<nat>)
    requires Sorted(s) && forall h :: multiset(s)[h] <= 1
    ensures StrictlySorted(s)
  {
    forall i, j | 0 <= i < j < |s| ensures s[i] < s[j] {
      SortedPair(s, i, j);
      if s[i] == s[j] {
        CountDistinct(s, i, j);
      }
    }
  }

  lemma PointsDistinct(cfg: Config, replicas: map<Node, nat>, x: Node)
    requires NoCollisions(cfg, replicas) && x in replicas
    ensures var pts := Points(cfg, x, replicas[x]);
      forall i, j | 0 <= i < j < |pts| :: pts[i] != pts[j]
  {
    var pts := Points(cfg, x, replicas[x]);
    forall i, j | 0 <= i < j < |pts| ensures pts[i] != pts[j] {
      assert pts[i] == Point(cfg, x, i) && pts[j] == Point(cfg, x, j);
    }
  }

  /** No point on the ring is a point of a new node. */
  lemma PointsNew(cfg: Config, r: Ring, x: Node, count: nat, h: nat)
    requires RingOk(cfg, r) && x !in r.replicas && NoCollisions(cfg, r.replicas[x := count])
    requires h in r.owner
    ensures h !in Points(cfg, x, count)
  {
    var n, all := r.owner[h], r.replicas[x := count];
    assert IsPoint(cfg, n, r.replicas[n], h);
    var j: nat :| j < r.replicas[n] && Point(cfg, n, j) == h;
    forall i | 0 <= i < count ensures Points(cfg, x, count)[i] != h {
      assert n in all && x in all && j < all[n] && i < all[x];
    }
  }

  lemma AddOwnedPoints(cfg: Config, r: Ring, x: Node, count: nat, n: Node, i: nat)
    requires RingOk(cfg, r) && x !in r.replicas
    requires NoCollisions(cfg, r.replicas[x := count])
    requires if n == x then i < count else n in r.replicas && i < r.replicas[n]
    ensures var owner := AddNode(cfg, r, x, count).owner;
      Point(cfg, n, i) in owner && owner[Point(cfg, n, i)] == n
  {
    var h := Point(cfg, n, i);
    if n == x {
      assert Points(cfg, x, count)[i] == h;
    } else {
      PointsNew(cfg, r, x, count, h);
    }
  }

  lemma AddOwnedBy(cfg: Config, r: Ring, x: Node, count: nat, h: nat)
    requires RingOk(cfg, r) && x !in r.replicas
    requires h in AddNode(cfg, r, x, count).owner
    ensures var n, all := AddNode(cfg, r, x, count).owner[h], r.replicas[x := count];
      n in all && IsPoint(cfg, n, all[n], h)
  {
    var pts := Points(cfg, x, count);
    if h in pts {
      var i :| 0 <= i < count && pts[i] == h;
      assert Point(cfg, x, i) == h;
    }
  }

  lemma AddOwned(cfg: Config, r: Ring, x: Node, count: nat)
    requires RingOk(cfg, r) && x !in r.replicas && x != [] && 0 < count
    requires NoCollisions(cfg, r.replicas[x := count])
    ensures Owned(cfg, AddNode(cfg, r, x, count).owner, r.replicas[x := count])
  {
    hide AddNode, NoCollisions, IsPoint, StrictlySorted;
    var owner, all := AddNode(cfg, r, x, count).owner, r.replicas[x := count];
    forall h | h in owner ensures owner[h] in all && IsPoint(cfg, owner[h], all[owner[h]], h) {
      AddOwnedBy(cfg, r, x, count, h);
    }
    forall n, i: nat | n in all && i < all[n]
      ensures Point(cfg, n, i) in owner && owner[Point(cfg, n, i)] == n
    {
      AddOwnedPoints(cfg, r, x, count, n, i);
    }
  }

  lemma AddSorted(cfg: Config, r: Ring, x: Node, count: nat)
    requires RingOk(cfg, r) && x !in r.replicas
    requires NoCollisions(cfg, r.replicas[x := count])
    ensures var r' := AddNode(cfg, r, x, count);
      StrictlySorted(r'.keys) && forall h :: h in r'.keys <==> h in r'.owner
  {
    var pts := Points(cfg, x, count);
    var s := r.keys + pts;
    PointsDistinct(cfg, r.replicas[x := count], x);
    forall h ensures multiset(s)[h] <= 1 {
      DistinctCount(r.keys, h);
      DistinctCount(pts, h);
      if h in r.keys {
        PointsNew(cfg, r, x, count, h);
      }
      assert multiset(s) == multiset(r.keys) + multiset(pts);
    }
    SortIntsSorted(s);
    SortedStrictly(SortInts(s));
    forall h ensures h in SortInts(s) <==> h in r.keys || h in pts {
      assert h in SortInts(s) <==> h in multiset(SortInts(s));
      assert h in s <==> h in multiset(s);
    }
  }

  lemma AddOk(cfg: Config, r: Ring, x: Node, count: nat)
    requires RingOk(cfg, r) && x !in r.replicas && x != [] && 0 < count
    requires NoCollisions(cfg, r.replicas[x := count])
    ensures RingOk(cfg, AddNode(cfg, r, x, count))
  {
    hide Owned, StrictlySorted;
    AddOwned(cfg, r, x, count);
    AddSorted(cfg, r, x, count);
  }

  /** Adding an absent node and removing it again restores the ring exactly. */
  lemma AddThenRemove(cfg: Config, r: Ring, x: Node, count: nat)
    requires RingOk(cfg, r) && x !in r.replicas && x != [] && 0 < count
    requires NoCollisions(cfg, r.replicas[x := count])
    ensures RemoveNode(AddNode(cfg, r, x, count), x) == r.(unhealthy := r.unhealthy - {x})
  {
    hide RingOk, NoCollisions, DropOwned, SortInts;
    AddOk(cfg, r, x, count);
    var r' := AddNode(cfg, r, x, count);
    RemoveOk(cfg, r', x);
    assert r'.replicas - {x} == r.replicas;
    RingUnique(cfg, RemoveNode(r', x), r);
  }

  /** Removing a node and adding it with the same number of points restores its
      points. */
  lemma RemoveThenAdd(cfg: Config, r: Ring, x: Node)
    requires RingOk(cfg, r) && x in r.replicas && NoCollisions(cfg, r.replicas)
    ensures AddNode(cfg, RemoveNode(r, x), x, r.replicas[x]) == r.(unhealthy := r.unhealthy - {x})
  {
    var r' := RemoveNode(r, x);
    RemoveOk(cfg, r, x);
    assert r'.replicas[x := r.replicas[x]] == r.replicas;
    AddOk(cfg, r', x, r.replicas[x]);
    RingUnique(cfg, AddNode(cfg, r', x, r.replicas[x]), r);
  }
}
