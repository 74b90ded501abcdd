/** The hash ring as a value: where its virtual points are, which nodes a key
    meets walking clockwise, and how adding and removing nodes changes that. */
module Ring {
  import opened Basics

  type Node = Key

  // The hash function and the format of the virtual labels are arbitrary.
  datatype Config = Config(
    defaultReplicas: nat, minReplicas: nat, maxReplicas: nat,
    hash: Key -> nat, pointLabel: (Node, nat) -> Key)

  function Point(cfg: Config, node: Node, i: nat): nat {
    cfg.hash(cfg.pointLabel(node, i))
  }

  datatype Ring = Ring(keys: seq<nat>, owner: map<nat, Node>, replicas: map<Node, nat>, unhealthy: set<Node>)

  /** Looking up a Go map: an absent point has the empty owner. */
  function OwnerOf(owner: map<nat, Node>, h: nat): Node {
    if h in owner then owner[h] else []
  }

  predicate StrictlySorted(s: seq<nat>) {
    forall i, j | 0 <= i < j < |s| :: s[i] < s[j]
  }

  /** Different virtual labels in use hash to different points. */
  ghost predicate NoCollisions(cfg: Config, replicas: map<Node, nat>) {
    forall n, i: nat, m, j: nat | n in replicas && i < replicas[n] && m in replicas && j < replicas[m]
      && Point(cfg, n, i) == Point(cfg, m, j) :: n == m && i == j
  }

  /** h is one of the points of node n. */
  ghost predicate IsPoint(cfg: Config, n: Node, count: nat, h: nat) {
    exists i: nat :: i < count && Point(cfg, n, i) == h
  }

  /** The points on the ring are exactly those of the registered nodes. */
  ghost predicate Owned(cfg: Config, owner: map<nat, Node>, replicas: map<Node, nat>) {
    && (forall h | h in owner :: owner[h] in replicas && IsPoint(cfg, owner[h], replicas[owner[h]], h))
    && (forall n, i: nat | n in replicas && i < replicas[n] ::
          Point(cfg, n, i) in owner && owner[Point(cfg, n, i)] == n)
    && (forall n | n in replicas :: n != [] && 0 < replicas[n])
  }

  ghost predicate RingOk(cfg: Config, r: Ring) {
    && StrictlySorted(r.keys)
    && (forall h :: h in r.keys <==> h in r.owner)
    && Owned(cfg, r.owner, r.replicas)
  }

  // ---- The clockwise walk ----

  /** The elements of s that are at least h. */
  function From(s: seq<nat>, h: nat): seq<nat> {
    if s == [] then [] else if s[0] >= h then [s[0]] + From(s[1..], h) else From(s[1..], h)
  }

  /** The elements of s that are below h. */
  function Below(s: seq<nat>, h: nat): seq<nat> {
    if s == [] then [] else if s[0] < h then [s[0]] + Below(s[1..], h) else Below(s[1..], h)
  }

  function Owners(owner: map<nat, Node>, s: seq<nat>): (w: seq<Node>)
    ensures |w| == |s|
  {
    if s == [] then [] else [OwnerOf(owner, s[0])] + Owners(owner, s[1..])
  }

  /** The owners that a key of hash h meets: first at the points from h on, then,
      wrapping around, at the points below h. */
  function Walk(r: Ring, h: nat): seq<Node> {
    Owners(r.owner, From(r.keys, h) + Below(r.keys, h))
  }

  /** The first n distinct nodes of a walk that are not in skip. */
  function Pick(w: seq<Node>, skip: set<Node>, n: nat): seq<Node> {
    if w == [] || n == 0 then []
    else if w[0] in skip then Pick(w[1..], skip, n)
    else [w[0]] + Pick(w[1..], skip + {w[0]}, n - 1)
  }

  function NodesOf(w: seq<Node>): set<Node> {
    if w == [] then {} else {w[0]} + NodesOf(w[1..])
  }

  lemma {:induction false} NodesOfIs(w: seq<Node>, x: Node)
    ensures x in NodesOf(w) <==> x in w
  {
    if w != [] {
      NodesOfIs(w[1..], x);
      assert w == [w[0]] + w[1..];
    }
  }

  lemma {:induction false} PickMembers(w: seq<Node>, skip: set<Node>, n: nat)
    ensures var p := Pick(w, skip, n);
      && (forall x | x in p :: x in w && x !in skip)
      && (forall i, j | 0 <= i < j < |p| :: p[i] != p[j])
  {
    if w != [] && n != 0 {
      if w[0] in skip {
        PickMembers(w[1..], skip, n);
      } else {
        PickMembers(w[1..], skip + {w[0]}, n - 1);
      }
    }
  }

  lemma {:induction false} PickLength(w: seq<Node>, skip: set<Node>, n: nat)
    ensures |Pick(w, skip, n)| == if n < |NodesOf(w) - skip| then n else |NodesOf(w) - skip|
  {
    if w == [] {
      assert NodesOf(w) - skip == {};
    } else if n != 0 {
      var rest, more := w[1..], skip + {w[0]};
      if w[0] in skip {
        PickLength(rest, skip, n);
        assert NodesOf(w) - skip == NodesOf(rest) - skip;
      } else {
        PickLength(rest, more, n - 1);
        var left := NodesOf(rest) - more;
        assert NodesOf(w) - skip == left + {w[0]};
        assert |left + {w[0]}| == |left| + 1;
      }
    }
  }

  /** Pick returns distinct nodes of the walk outside skip, as many as wanted and
      available. */
  lemma PickSizes(w: seq<Node>, skip: set<Node>, n: nat)
    ensures var p := Pick(w, skip, n);
      && (forall x | x in p :: x in w && x !in skip)
      && (forall i, j | 0 <= i < j < |p| :: p[i] != p[j])
      && |p| == if n < |NodesOf(w) - skip| then n else |NodesOf(w) - skip|
  {
    PickMembers(w, skip, n);
    PickLength(w, skip, n);
  }

  /** Picks of growing length extend each other. */
  lemma {:induction false} PickPrefix(w: seq<Node>, skip: set<Node>, n: nat)
    ensures Pick(w, skip, n) <= Pick(w, skip, n + 1)
  {
    if w != [] && n != 0 {
      if w[0] in skip {
        PickPrefix(w[1..], skip, n);
      } else {
        PickPrefix(w[1..], skip + {w[0]}, n - 1);
      }
    }
  }

  /** Skipping x is the same as walking a ring without x. */
  function WithoutNode(w: seq<Node>, x: Node): seq<Node> {
    if w == [] then [] else if w[0] == x then WithoutNode(w[1..], x) else [w[0]] + WithoutNode(w[1..], x)
  }

  lemma {:induction false} PickWithout(w: seq<Node>, skip: set<Node>, x: Node, n: nat)
    ensures Pick(w, skip + {x}, n) == Pick(WithoutNode(w, x), skip - {x}, n)
  {
    if w != [] && n != 0 {
      if w[0] == x || w[0] in skip {
        PickWithout(w[1..], skip, x, n);
        if w[0] != x {
          assert WithoutNode(w, x)[1..] == WithoutNode(w[1..], x);
        }
      } else {
        PickWithout(w[1..], skip + {w[0]}, x, n - 1);
        assert WithoutNode(w, x)[1..] == WithoutNode(w[1..], x);
        assert skip + {x} + {w[0]} == skip + {w[0]} + {x};
        assert skip + {w[0]} - {x} == skip - {x} + {w[0]};
      }
    }
  }

  /** What is in skip but not on the walk makes no difference. */
  lemma {:induction false} PickSkip(w: seq<Node>, skip: set<Node>, skip': set<Node>, n: nat)
    requires forall x | x in w :: x in skip <==> x in skip'
    ensures Pick(w, skip, n) == Pick(w, skip', n)
  {
    if w != [] && n != 0 {
      assert w[0] in w && forall x | x in w[1..] :: x in w;
      if w[0] in skip {
        PickSkip(w[1..], skip, skip', n);
      } else {
        PickSkip(w[1..], skip + {w[0]}, skip' + {w[0]}, n - 1);
      }
    }
  }

  // ---- Adding and removing nodes ----

  function Points(cfg: Config, node: Node, count: nat): (pts: seq<nat>)
    ensures |pts| == count
  {
    seq(count, i requires 0 <= i < count => Point(cfg, node, i))
  }

  /** The points of s that x does not own. */
  function DropOwned(s: seq<nat>, owner: map<nat, Node>, x: Node): seq<nat> {
    if s == [] then []
    else if OwnerOf(owner, s[0]) == x then DropOwned(s[1..], owner, x)
    else [s[0]] + DropOwned(s[1..], owner, x)
  }

  function RemoveNode(r: Ring, x: Node): Ring {
    Ring(DropOwned(r.keys, r.owner, x), map h | h in r.owner && r.owner[h] != x :: r.owner[h],
         r.replicas - {x}, r.unhealthy - {x})
  }

  function Insert(s: seq<nat>, x: nat): (r: seq<nat>)
    ensures multiset(r) == multiset(s) + multiset{x}
  {
    if s == [] then [x]
    else if x <= s[0] then [x] + s
    else
      assert s == [s[0]] + s[1..];
      [s[0]] + Insert(s[1..], x)
  }

  /** The sorted rearrangement of s, as the library's sort returns it. */
  function SortInts(s: seq<nat>): (r: seq<nat>)
    ensures multiset(r) == multiset(s)
  {
    if s == [] then []
    else
      assert s == [s[0]] + s[1..];
      Insert(SortInts(s[1..]), s[0])
  }

  predicate Sorted(s: seq<nat>) {
    |s| < 2 || (s[0] <= s[1] && Sorted(s[1..]))
  }

  lemma {:induction false} SortedPair(s: seq<nat>, i: nat, j: nat)
    requires Sorted(s) && i < j < |s|
    ensures s[i] <= s[j]
  {
    if j != 1 {
      SortedPair(s[1..], if i == 0 then 0 else i - 1, j - 1);
    }
  }

  lemma {:induction false} InsertSorted(s: seq<nat>, x: nat)
    requires Sorted(s)
    ensures Sorted(Insert(s, x))
  {
    if s != [] && s[0] < x {
      InsertSorted(s[1..], x);
      assert Insert(s, x)[1..] == Insert(s[1..], x);
    }
  }

  lemma {:induction false} SortIntsSorted(s: seq<nat>)
    ensures Sorted(SortInts(s))
  {
    if s != [] {
      SortIntsSorted(s[1..]);
      InsertSorted(SortInts(s[1..]), s[0]);
    }
  }

  function AddOwner(owner: map<nat, Node>, pts: seq<nat>, x: Node): map<nat, Node> {
    owner + map h | h in pts :: x
  }

  /** Adding node x with count virtual points. */
  function AddNode(cfg: Config, r: Ring, x: Node, count: nat): Ring {
    var pts := Points(cfg, x, count);
    Ring(SortInts(r.keys + pts), AddOwner(r.owner, pts, x), r.replicas[x := count], r.unhealthy)
  }
}
