/** Picking keeps the order of the clockwise walk. */
module RingOrder {
  import opened Ring

  /** The nodes that a walk meets before x. */
  function Ahead(w: seq<Node>, x: Node): set<Node> {
    if w == [] || w[0] == x then {} else {w[0]} + Ahead(w[1..], x)
  }

  lemma AheadStep(w: seq<Node>, skip: set<Node>, x: Node)
    requires w != [] && w[0] != x
    ensures w[0] in skip ==> Ahead(w, x) - skip == Ahead(w[1..], x) - skip
    ensures w[0] !in skip ==> Ahead(w, x) - skip == {w[0]} + (Ahead(w[1..], x) - (skip + {w[0]}))
    ensures w[0] !in skip ==> |Ahead(w, x) - skip| == 1 + |Ahead(w[1..], x) - (skip + {w[0]})|
  {
    assert Ahead(w, x) == {w[0]} + Ahead(w[1..], x);
    hide Ahead;
    var others := Ahead(w[1..], x) - (skip + {w[0]});
    if w[0] !in skip {
      assert Ahead(w, x) - skip == {w[0]} + others && |{w[0]} + others| == 1 + |others|;
    }
  }

  lemma PickStep(w: seq<Node>, skip: set<Node>, n: nat)
    requires w != [] && n != 0
    ensures Pick(w, skip, n) ==
      if w[0] in skip then Pick(w[1..], skip, n) else [w[0]] + Pick(w[1..], skip + {w[0]}, n - 1)
  {
  }

  /** A node outside skip is picked exactly if the walk meets it, and fewer than n other
      nodes outside skip before it. */
  lemma {:induction false} PickContains(w: seq<Node>, skip: set<Node>, n: nat, x: Node)
    requires x !in skip
    ensures x in Pick(w, skip, n) <==> x in w && |Ahead(w, x) - skip| < n
  {
    if w != [] && n != 0 && w[0] != x {
      hide Pick, Ahead;
      PickStep(w, skip, n);
      AheadStep(w, skip, x);
      assert x in w <==> x in w[1..];
      if w[0] in skip {
        PickContains(w[1..], skip, n, x);
      } else {
        PickContains(w[1..], skip + {w[0]}, n - 1, x);
      }
    }
  }

  /** The picked nodes are in the order of the walk: those outside skip that it meets
      before the i-th are the i picked before it. */
  lemma {:induction false} PickOrder(w: seq<Node>, skip: set<Node>, n: nat, i: nat)
    requires i < |Pick(w, skip, n)|
    ensures Ahead(w, Pick(w, skip, n)[i]) - skip == NodesOf(Pick(w, skip, n)[..i])
  {
    PickStep(w, skip, n);
    if w[0] in skip {
      hide Pick, Ahead, NodesOf;
      PickOrder(w[1..], skip, n, i);
      PickedOutside(w, skip, n, i);
      AheadStep(w, skip, Pick(w, skip, n)[i]);
    } else if i != 0 {
      hide Pick, Ahead, NodesOf;
      var rest, more := w[1..], skip + {w[0]};
      PickOrder(rest, more, n - 1, i - 1);
      PickedOutside(rest, more, n - 1, i - 1);
      OrderNext(w, skip, Pick(rest, more, n - 1), i);
    }
  }

  lemma OrderNext(w: seq<Node>, skip: set<Node>, p: seq<Node>, i: nat)
    requires w != [] && w[0] !in skip && 0 < i <= |p| && p[i - 1] != w[0]
    requires Ahead(w[1..], p[i - 1]) - (skip + {w[0]}) == NodesOf(p[..i - 1])
    ensures Ahead(w, ([w[0]] + p)[i]) - skip == NodesOf(([w[0]] + p)[..i])
  {
    hide Ahead, NodesOf;
    ConsPrefix(w[0], p, i);
    NodesOfFront(w[0], p[..i - 1]);
    AheadStep(w, skip, p[i - 1]);
  }

  lemma ConsPrefix(x: Node, p: seq<Node>, i: nat)
    requires 0 < i <= |p|
    ensures ([x] + p)[i] == p[i - 1] && ([x] + p)[..i] == [x] + p[..i - 1]
  {
  }

  lemma NodesOfFront(x: Node, w: seq<Node>)
    ensures NodesOf([x] + w) == {x} + NodesOf(w)
  {
    assert ([x] + w)[1..] == w;
  }

  lemma PickedOutside(w: seq<Node>, skip: set<Node>, n: nat, i: nat)
    requires i < |Pick(w, skip, n)|
    ensures Pick(w, skip, n)[i] !in skip
  {
    PickMembers(w, skip, n);
    assert Pick(w, skip, n)[i] in Pick(w, skip, n);
  }

  /** Pick returns distinct nodes of the walk outside skip, in the order in which the walk
      first meets them, as many as wanted and available. */
  lemma PickIs(w: seq<Node>, skip: set<Node>, n: nat)
    ensures var p := Pick(w, skip, n);
      && (forall x | x in p :: x in w && x !in skip)
      && (forall i, j | 0 <= i < j < |p| :: p[i] != p[j])
      && (forall i | 0 <= i < |p| :: Ahead(w, p[i]) - skip == NodesOf(p[..i]))
      && |p| == if n < |NodesOf(w) - skip| then n else |NodesOf(w) - skip|
  {
    hide Pick, Ahead, NodesOf;
    PickSizes(w, skip, n);
    forall i | 0 <= i < |Pick(w, skip, n)|
      ensures Ahead(w, Pick(w, skip, n)[i]) - skip == NodesOf(Pick(w, skip, n)[..i])
    {
      PickOrder(w, skip, n, i);
    }
  }
}
