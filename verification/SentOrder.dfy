/** In which order the keys of a migration are sent, and how many of them arrive. */
module SentOrder {
  import opened Basics
  import opened Ring
  import opened RingRoutes
  import opened Migration
  import opened Shutdown

  /** Positions of a list of n elements, in order. */
  predicate Positions(at: seq<nat>, n: nat) {
    && (forall j | 0 <= j < |at| :: at[j] < n)
    && (forall i, j | 0 <= i < j < |at| :: at[i] < at[j])
  }

  lemma PositionsSnoc(at: seq<nat>, k: nat, more: bool) returns (at': seq<nat>)
    requires Positions(at, k)
    ensures at' == (if more then at + [k] else at) && Positions(at', k + 1)
    ensures forall i: nat | i <= k :: i in at' <==> i in at || (more && i == k)
    ensures k !in at
  {
    at' := if more then at + [k] else at;
  }

  /** The migration to a new node attempts exactly the listed keys that belong on it and are
      held when it comes to them, in the order of the list, with the values held then. */
  lemma {:induction false} WantedInOrder(cfg: Config, to: Node, group: Key, keys: seq<Key>, views: seq<View>)
      returns (at: seq<nat>)
    requires |views| == |keys|
    ensures Positions(at, |keys|) && |at| == |Wanted(cfg, to, group, keys, views)|
    ensures forall i: nat | i < |keys| ::
      i in at <==> to in GetN(cfg, views[i].ring, keys[i], 2) && keys[i] in views[i].local
    ensures forall j | 0 <= j < |at| ::
      && keys[at[j]] in views[at[j]].local
      && Wanted(cfg, to, group, keys, views)[j] == Attempt(to, group, keys[at[j]], views[at[j]].local[keys[at[j]]])
  {
    hide GetN;
    if keys == [] {
      at := [];
    } else {
      var k: nat := |keys| - 1;
      var before := WantedInOrder(cfg, to, group, keys[..k], views[..k]);
      var more := to in GetN(cfg, views[k].ring, keys[k], 2) && keys[k] in views[k].local;
      var w, w' := Wanted(cfg, to, group, keys[..k], views[..k]), Wanted(cfg, to, group, keys, views);
      assert w' == w + if more then [Attempt(to, group, keys[k], views[k].local[keys[k]])] else [];
      hide Wanted;
      at := PositionsSnoc(before, k, more);
      forall j | 0 <= j < |at|
        ensures keys[at[j]] in views[at[j]].local
        ensures w'[j] == Attempt(to, group, keys[at[j]], views[at[j]].local[keys[at[j]]])
      {
        assert j < |before| ==> keys[..k][before[j]] == keys[at[j]] && views[..k][before[j]] == views[at[j]];
      }
    }
  }

  /** The keys for another node before a shutdown, in the order of the list. */
  lemma {:induction false} DestinedInOrder(cfg: Config, r: Ring, keys: seq<Key>, dest: Node) returns (at: seq<nat>)
    ensures Positions(at, |keys|) && |at| == |Destined(cfg, r, keys, dest)|
    ensures forall i: nat | i < |keys| :: i in at <==> dest in GetN(cfg, r, keys[i], 2)
    ensures forall j | 0 <= j < |at| :: Destined(cfg, r, keys, dest)[j] == keys[at[j]]
  {
    hide GetN;
    if keys == [] {
      at := [];
    } else {
      var k: nat := |keys| - 1;
      var before := DestinedInOrder(cfg, r, keys[..k], dest);
      var more := dest in GetN(cfg, r, keys[k], 2);
      assert Destined(cfg, r, keys, dest) == Destined(cfg, r, keys[..k], dest) + if more then [keys[k]] else [];
      hide Destined;
      at := PositionsSnoc(before, k, more);
    }
  }

  /** Of these the ones still held are sent, in the same order. */
  lemma {:induction false} HeldInOrder(to: Node, group: Key, keys: seq<Key>, held: (Node, nat) -> Option<seq<byte>>)
      returns (at: seq<nat>)
    ensures Positions(at, |keys|) && |at| == |Held(to, group, keys, held)|
    ensures forall i: nat | i < |keys| :: i in at <==> held(to, i).Some?
    ensures forall j | 0 <= j < |at| ::
      held(to, at[j]).Some? && Held(to, group, keys, held)[j] == Attempt(to, group, keys[at[j]], held(to, at[j]).value)
  {
    if keys == [] {
      at := [];
    } else {
      var k: nat := |keys| - 1;
      var before := HeldInOrder(to, group, keys[..k], held);
      var more := held(to, k).Some?;
      var w, w' := Held(to, group, keys[..k], held), Held(to, group, keys, held);
      assert w' == w + if more then [Attempt(to, group, keys[k], held(to, k).value)] else [];
      hide Held;
      at := PositionsSnoc(before, k, more);
      forall j | 0 <= j < |at|
        ensures held(to, at[j]).Some? && w'[j] == Attempt(to, group, keys[at[j]], held(to, at[j]).value)
      {
        assert j < |before| ==> keys[..k][before[j]] == keys[at[j]];
      }
    }
  }

  /** The count of successes is the number of requests that the network accepted. */
  lemma {:induction false} AcceptedCount(accepts: nat -> bool, from: nat, count: nat)
    ensures Accepted(accepts, from, count) == |set i: nat | from <= i < from + count && accepts(i)|
  {
    if count == 0 {
      assert (set i: nat | from <= i < from + count && accepts(i)) == {};
    } else {
      var last := from + count - 1;
      AcceptedCount(accepts, from, count - 1);
      hide Accepted;
      AcceptedLast(accepts, from, count);
      var before := set i: nat | from <= i < from + (count - 1) && accepts(i);
      var all := set i: nat | from <= i < from + count && accepts(i);
      assert all == before + if accepts(last) then {last} else {};
    }
  }

  lemma AcceptedLast(accepts: nat -> bool, from: nat, count: nat)
    requires 0 < count
    ensures Accepted(accepts, from, count) ==
      Accepted(accepts, from, count - 1) + if accepts(from + count - 1) then 1 else 0
  {
  }

  /** A batch is sent as it was collected. */
  lemma BatchesInOrder(a: seq<seq<Attempt>>, b: seq<seq<Attempt>>, batch: seq<Attempt>)
    ensures Flatten([batch]) == batch && Flatten(a + b) == Flatten(a) + Flatten(b)
  {
    assert [batch][..0] == [];
    FlattenConcat(a, b);
  }

  lemma {:induction false} FlattenConcat(a: seq<seq<Attempt>>, b: seq<seq<Attempt>>)
    ensures Flatten(a + b) == Flatten(a) + Flatten(b)
  {
    if b == [] {
      assert a + b == a;
    } else {
      var k := |b| - 1;
      FlattenConcat(a, b[..k]);
      assert (a + b)[..|a + b| - 1] == a + b[..k] && (a + b)[|a + b| - 1] == b[k];
      assert Flatten(a + b) == Flatten(a + b[..k]) + b[k] && Flatten(b) == Flatten(b[..k]) + b[k];
      hide Flatten;
    }
  }
}
