/** Small rings that show which tempting claims about routing are false. */
module RingExamples {
  import opened Basics
  import opened Ring
  import opened ConsistentHash

  function SmallHash(k: Key): nat {
    if k == [] then 0 else k[0] as nat + 256 * (|k| - 1)
  }

  function SmallLabel(n: Node, i: nat): Key {
    n + seq(i, _ => 0)
  }

  /** A node of one byte has its first point at that byte and every further point 256
      above the one before. */
  function Small(): Config {
    Config(1, 1, 2, SmallHash, SmallLabel)
  }

  lemma SmallPoint(b: byte, i: nat)
    ensures Point(Small(), [b], i) == b as nat + 256 * i
  {
    var k := SmallLabel([b], i);
    assert k[0] == b && |k| == 1 + i;
  }

  lemma SmallIs()
    ensures Usable(Small()) && Cap(Small()) == 2 && Small().defaultReplicas == 1
    ensures Small().minReplicas == 1 && Small().maxReplicas == 2
  {
  }

  /** Nodes of one byte never collide. */
  lemma SmallApart(nodes: set<Node>)
    requires forall n | n in nodes :: |n| == 1
    ensures Apart(Small(), nodes)
  {
    hide Small, Point;
    forall n, i: nat, m, j: nat | n in nodes && m in nodes && i < Cap(Small()) && j < Cap(Small())
      && Point(Small(), n, i) == Point(Small(), m, j) ensures n == m && i == j
    {
      SmallPoint(n[0], i);
      SmallPoint(m[0], j);
      assert n == [n[0]] && m == [m[0]];
    }
  }

  /** The ring of these nodes, with one point each. */
  lemma SmallRingOk(r: Ring)
    requires StrictlySorted(r.keys)
    requires forall h :: h in r.keys <==> h in r.owner
    requires forall h | h in r.owner :: h < 256 && r.owner[h] == [h as byte] && r.owner[h] in r.replicas
    requires forall n | n in r.replicas :: r.replicas[n] == 1 && |n| == 1 && n[0] as nat in r.owner
    ensures RingOk(Small(), r) && WithinCap(Small(), r.replicas)
  {
    hide Small, Point, StrictlySorted;
    SmallIs();
    forall h | h in r.owner ensures r.owner[h] in r.replicas && IsPoint(Small(), r.owner[h], 1, h) {
      SmallPoint(h as byte, 0);
      assert Point(Small(), r.owner[h], 0) == h;
    }
    forall n, i: nat | n in r.replicas && i < r.replicas[n]
      ensures Point(Small(), n, i) in r.owner && r.owner[Point(Small(), n, i)] == n
    {
      SmallPoint(n[0], 0);
      assert n == [n[0]];
    }
  }

  const X: Node := [1]
  const Y: Node := [2]
  const Z: Node := [3]

  /** A ring of one unhealthy node and a visit that gives the node a second point: the
      node stays, and its mark is lost. */
  lemma MarkLost()
    ensures var r := Ring([1], map[1 := X], map[X := 1], {X});
      && Usable(Small()) && RingOk(Small(), r) && Apart(Small(), {X}) && WithinCap(Small(), r.replicas)
      && X in RebalanceAll(Small(), r, [(X, 2)]).replicas
      && X !in RebalanceAll(Small(), r, [(X, 2)]).unhealthy
  {
    hide Small, RebalanceAll, RingOk, Apart, WithinCap;
    var r := Ring([1], map[1 := X], map[X := 1], {X});
    SmallIs();
    SmallRingOk(r);
    SmallApart({X});
    assert r.replicas.Keys == {X};
    RebalanceIs(Small(), r, [(X, 2)], X);
    assert [(X, 2)][0].0 == X && Clamp(Small(), [(X, 2)][0].1) == 2;
  }
}
