/** Moving cached data between nodes: to a node that joins, and away from a node
    that shuts down. */
module Migration {
  import opened Basics
  import opened ConsistentHash
  import opened Ring
  import opened RingExamples
  import opened RingOrder
  import opened RingRoutes

  const MIGRATE_BATCH_SIZE := 100

  // ---- What is sent ----

  /** A set request to a node that carries the migration flag. */
  datatype Attempt = Attempt(to: Node, group: Key, key: Key, value: seq<byte>)

  /** The nodes at the other end. Whether the n-th request succeeds is arbitrary. */
  class Network {
    const accepts: nat -> bool
    var log: seq<Attempt>

    method Set(attempt: Attempt) returns (ok: bool)
      modifies this
      ensures log == old(log) + [attempt] && ok == accepts(|old(log)|)
    {
      ok := accepts(|log|);
      log := log + [attempt];
    }
  }

  /** How many of count requests from the given one on succeed. */
  function Accepted(accepts: nat -> bool, from: nat, count: nat): (n: nat)
    ensures n <= count
  {
    if count == 0 then 0
    else Accepted(accepts, from, count - 1) + if accepts(from + count - 1) then 1 else 0
  }

  lemma {:induction false} AcceptedSum(accepts: nat -> bool, from: nat, a: nat, b: nat)
    ensures Accepted(accepts, from, a + b) == Accepted(accepts, from, a) + Accepted(accepts, from + a, b)
  {
    if b != 0 {
      AcceptedSum(accepts, from, a, b - 1);
    }
  }

  // ---- What should be sent to a new node ----

  /** What the migration sees when it comes to a key: the ring and the values held
      locally may have changed since the key was listed. */
  datatype View = View(ring: Ring, local: map<Key, seq<byte>>)

  predicate ShouldBeOn(cfg: Config, r: Ring, key: Key, node: Node) {
    node in GetN(cfg, r, key, 2)
  }

  /** The keys that belong on the node and are still held, in order, with their values. */
  function Wanted(cfg: Config, to: Node, group: Key, keys: seq<Key>, views: seq<View>): seq<Attempt>
    requires |views| == |keys|
  {
    if keys == [] then []
    else
      var k := |keys| - 1;
      Wanted(cfg, to, group, keys[..k], views[..k]) +
      if ShouldBeOn(cfg, views[k].ring, keys[k], to) && keys[k] in views[k].local
      then [Attempt(to, group, keys[k], views[k].local[keys[k]])] else []
  }

  lemma WantedNext(cfg: Config, to: Node, group: Key, keys: seq<Key>, views: seq<View>, i: nat)
    requires |views| == |keys| && i < |keys|
    ensures Wanted(cfg, to, group, keys[..i + 1], views[..i + 1]) ==
      Wanted(cfg, to, group, keys[..i], views[..i]) +
      if ShouldBeOn(cfg, views[i].ring, keys[i], to) && keys[i] in views[i].local
      then [Attempt(to, group, keys[i], views[i].local[keys[i]])] else []
  {
    assert keys[..i + 1][..i] == keys[..i] && views[..i + 1][..i] == views[..i];
  }

  /** An attempt is wanted exactly if its key is listed, belongs on the node and is
      held with that value when the migration comes to it. */
  lemma {:induction false} WantedIs(cfg: Config, to: Node, group: Key, keys: seq<Key>, views: seq<View>, a: Attempt)
    requires |views| == |keys|
    ensures a in Wanted(cfg, to, group, keys, views) <==>
      && a.to == to && a.group == group
      && exists i :: (0 <= i < |keys| && keys[i] == a.key && ShouldBeOn(cfg, views[i].ring, a.key, to)
                      && a.key in views[i].local && views[i].local[a.key] == a.value)
  {
    hide ShouldBeOn;
    if keys != [] {
      var k := |keys| - 1;
      WantedIs(cfg, to, group, keys[..k], views[..k], a);
    }
  }

  /** If no key is listed twice, none is sent twice. */
  lemma {:induction false} WantedOnce(cfg: Config, to: Node, group: Key, keys: seq<Key>, views: seq<View>)
    requires |views| == |keys| && Unrepeated(keys)
    ensures var w := Wanted(cfg, to, group, keys, views);
      forall i, j | 0 <= i < j < |w| :: w[i].key != w[j].key
  {
    hide ShouldBeOn;
    if keys != [] {
      var k := |keys| - 1;
      WantedOnce(cfg, to, group, keys[..k], views[..k]);
      var before := Wanted(cfg, to, group, keys[..k], views[..k]);
      forall i | 0 <= i < |before| ensures before[i].key != keys[k] {
        WantedIs(cfg, to, group, keys[..k], views[..k], before[i]);
      }
    }
  }

  // ---- Sending in batches ----

  function Attempts(to: Node, group: Key, keys: seq<Key>, values: seq<seq<byte>>): (s: seq<Attempt>)
    requires |values| == |keys|
    ensures |s| == |keys|
  {
    seq(|keys|, i requires 0 <= i < |keys| => Attempt(to, group, keys[i], values[i]))
  }

  function Flatten(batches: seq<seq<Attempt>>): seq<Attempt> {
    if batches == [] then [] else Flatten(batches[..|batches| - 1]) + batches[|batches| - 1]
  }

  lemma FlattenSnoc(batches: seq<seq<Attempt>>, batch: seq<Attempt>)
    ensures Flatten(batches + [batch]) == Flatten(batches) + batch
  {
    assert (batches + [batch])[..|batches|] == batches;
  }

  lemma AttemptsSnoc(to: Node, group: Key, keys: seq<Key>, values: seq<seq<byte>>, key: Key, value: seq<byte>)
    requires |values| == |keys|
    ensures Attempts(to, group, keys + [key], values + [value]) ==
      Attempts(to, group, keys, values) + [Attempt(to, group, key, value)]
  {
  }

  /** Sends one batch and counts the requests that succeed. */
  method SendMigrateBatch(net: Network, to: Node, group: Key, keys: seq<Key>, values: seq<seq<byte>>)
      returns (successCount: nat)
    requires |values| == |keys|
    modifies net
    ensures net.log == old(net.log) + Attempts(to, group, keys, values)
    ensures successCount == Accepted(net.accepts, |old(net.log)|, |keys|)
  {
    successCount := 0;
    ghost var all := Attempts(to, group, keys, values);
    for i := 0 to |keys|
      invariant net.log == old(net.log) + all[..i]
      invariant successCount == Accepted(net.accepts, |old(net.log)|, i)
    {
      var ok := net.Set(Attempt(to, group, keys[i], values[i]));
      assert all[..i + 1] == all[..i] + [all[i]];
      if ok {
        successCount := successCount + 1;
      }
    }
    assert all[..|keys|] == all;
  }

  /** The migration of one group. The batches that it sends, full ones and a last
      one that may be smaller, make up what is wanted, in order, each once. */
  method MigrateGroup(cfg: Config, net: Network, to: Node, group: Key, keys: seq<Key>, views: seq<View>)
      returns (totalMigrated: nat, totalSuccess: nat, ghost batches: seq<seq<Attempt>>)
    requires |views| == |keys|
    modifies net
    ensures net.log == old(net.log) + Wanted(cfg, to, group, keys, views)
    ensures Flatten(batches) == Wanted(cfg, to, group, keys, views)
    ensures forall b | b in batches :: 0 < |b| <= MIGRATE_BATCH_SIZE
    ensures forall i | 0 <= i < |batches| - 1 :: |batches[i]| == MIGRATE_BATCH_SIZE
    ensures totalMigrated == |Wanted(cfg, to, group, keys, views)|
    ensures totalSuccess == Accepted(net.accepts, |old(net.log)|, totalMigrated)
  {
    hide ShouldBeOn, Wanted, Flatten, Accepted, Attempts;
    ghost var n := |old(net.log)|;
    var batchKeys: seq<Key>, batchValues: seq<seq<byte>> := [], [];
    totalMigrated, totalSuccess, batches := 0, 0, [];
    MigrationStart(cfg, net.accepts, to, group, n);
    for i := 0 to |keys|
      invariant |batchKeys| == |batchValues| < MIGRATE_BATCH_SIZE
      invariant net.log == old(net.log) + Flatten(batches) && |Flatten(batches)| == totalMigrated
      invariant Flatten(batches) + Attempts(to, group, batchKeys, batchValues) ==
        Wanted(cfg, to, group, keys[..i], views[..i])
      invariant forall b | b in batches :: |b| == MIGRATE_BATCH_SIZE
      invariant totalSuccess == Accepted(net.accepts, n, totalMigrated)
    {
      WantedNext(cfg, to, group, keys, views, i);
      var key := keys[i];
      if !ShouldBeOn(cfg, views[i].ring, key, to) {
        continue;
      }
      if key !in views[i].local {
        continue;
      }
      var val := views[i].local[key];
      AttemptsSnoc(to, group, batchKeys, batchValues, key, val);
      batchKeys := batchKeys + [key];
      batchValues := batchValues + [val];
      if |batchKeys| >= MIGRATE_BATCH_SIZE {
        var success := SendMigrateBatch(net, to, group, batchKeys, batchValues);
        AcceptedSum(net.accepts, n, totalMigrated, |batchKeys|);
        FlattenSnoc(batches, Attempts(to, group, batchKeys, batchValues));
        batches := batches + [Attempts(to, group, batchKeys, batchValues)];
        totalMigrated := totalMigrated + |batchKeys|;
        totalSuccess := totalSuccess + success;
        batchKeys, batchValues := [], [];
      }
    }
    assert keys[..|keys|] == keys && views[..|keys|] == views;
    if |batchKeys| > 0 {
      var success := SendMigrateBatch(net, to, group, batchKeys, batchValues);
      AcceptedSum(net.accepts, n, totalMigrated, |batchKeys|);
      FlattenSnoc(batches, Attempts(to, group, batchKeys, batchValues));
      batches := batches + [Attempts(to, group, batchKeys, batchValues)];
      totalMigrated := totalMigrated + |batchKeys|;
      totalSuccess := totalSuccess + success;
    } else {
      assert batchKeys == [] && batchValues == [];
    }
  }

  lemma MigrationStart(cfg: Config, accepts: nat -> bool, to: Node, group: Key, n: nat)
    ensures Flatten([]) == [] && Wanted(cfg, to, group, [], []) == []
    ensures Accepted(accepts, n, 0) == 0 && Attempts(to, group, [], []) == []
  {
  }

  // ---- Coverage ----

  lemma {:induction false} NotAheadOfItself(w: seq<Node>, x: Node)
    ensures x !in Ahead(w, x)
  {
    if w != [] {
      NotAheadOfItself(w[1..], x);
    }
  }

  /** A key is sent to x if the walk from it meets x and at most one node before; it is
      routed to x, once x is healthy, if it meets at most one healthy node before. */
  lemma SentAndRouted(cfg: Config, r: Ring, key: Key, x: Node)
    ensures var w := Walk(r, cfg.hash(key));
      && (ShouldBeOn(cfg, r, key, x) <==> key != [] && x in w && |Ahead(w, x)| <= 1)
      && (x in GetNHealthy(cfg, MarkHealthy(r, x), key, 2) <==>
            key != [] && x in w && |Ahead(w, x) - r.unhealthy| <= 1)
  {
    hide Pick, Walk, Ahead;
    var w, bad := Walk(r, cfg.hash(key)), r.unhealthy - {x};
    WalkOfMarked(r, x, cfg.hash(key));
    NotAheadOfItself(w, x);
    PickContains(w, {}, 2, x);
    PickContains(w, bad, 2, x);
    assert Ahead(w, x) - {} == Ahead(w, x);
    assert Ahead(w, x) - bad == Ahead(w, x) - r.unhealthy;
  }

  lemma WalkOfMarked(r: Ring, x: Node, h: nat)
    ensures Walk(MarkHealthy(r, x), h) == Walk(r, h)
  {
  }

  /** Every key that is sent to x is routed to x, as primary or replica, once x is healthy.
      A key is routed to x without having been sent if and only if two nodes or more lie
      before x, and all of them but at most one are unhealthy. */
  lemma SentIsRouted(cfg: Config, r: Ring, key: Key, x: Node)
    ensures var w, routed := Walk(r, cfg.hash(key)), x in GetNHealthy(cfg, MarkHealthy(r, x), key, 2);
      && (ShouldBeOn(cfg, r, key, x) ==> routed)
      && (routed && !ShouldBeOn(cfg, r, key, x) <==>
            key != [] && x in w && |Ahead(w, x)| >= 2 && |Ahead(w, x) - r.unhealthy| <= 1)
  {
    hide Pick, Walk, Ahead, ShouldBeOn, GetNHealthy;
    SentAndRouted(cfg, r, key, x);
  }

  /** If the ring stays the same but for health marks, then a key that is still held when
      the migration comes to it, and that is routed to x once x is healthy, has been sent
      to x before if at most one node lies before x on its walk, healthy or not; and only
      then, if keys are listed once. With all other nodes healthy that is every such key. */
  lemma MigrationCovers(cfg: Config, x: Node, group: Key, keys: seq<Key>, views: seq<View>, after: Ring, i: nat)
    requires |views| == |keys| && i < |keys|
    requires keys[i] in views[i].local && views[i].ring.(unhealthy := after.unhealthy) == after
    requires x in GetNHealthy(cfg, MarkHealthy(after, x), keys[i], 2)
    ensures var ahead := Ahead(Walk(after, cfg.hash(keys[i])), x);
      var a := Attempt(x, group, keys[i], views[i].local[keys[i]]);
      && (|ahead| <= 1 ==> a in Wanted(cfg, x, group, keys, views))
      && (a in Wanted(cfg, x, group, keys, views) && Unrepeated(keys) ==> |ahead| <= 1)
      && (ahead !! after.unhealthy ==> |ahead| <= 1)
  {
    hide Walk, Ahead, ShouldBeOn, Wanted, GetNHealthy;
    var ahead := Ahead(Walk(after, cfg.hash(keys[i])), x);
    SentAndRouted(cfg, after, keys[i], x);
    SameWalk(views[i].ring, after, cfg.hash(keys[i]));
    SentAndRouted(cfg, views[i].ring, keys[i], x);
    WantedIs(cfg, x, group, keys, views, Attempt(x, group, keys[i], views[i].local[keys[i]]));
    assert ahead !! after.unhealthy ==> ahead - after.unhealthy == ahead;
  }

  lemma SameWalk(r: Ring, r': Ring, h: nat)
    requires SamePoints(r, r')
    ensures Walk(r, h) == Walk(r', h)
  {
  }

  /** Three nodes, of which Z is joining and X, the first, is unhealthy. */
  function JoiningRing(): Ring {
    Ring([1, 2, 3], map[1 := X, 2 := Y, 3 := Z], map[X := 1, Y := 1, Z := 1], {X, Z})
  }

  /** The key [1] comes before X on that ring. It is routed to Z once Z is healthy, and
      Z is never sent it, whatever is listed and held while the ring keeps its points. */
  lemma MigrationMisses(group: Key, keys: seq<Key>, views: seq<View>, a: Attempt)
    requires |views| == |keys|
    requires forall i | 0 <= i < |views| :: SamePoints(views[i].ring, JoiningRing())
    ensures RingOk(Small(), JoiningRing()) && Apart(Small(), {X, Y, Z})
    ensures Z in GetNHealthy(Small(), MarkHealthy(JoiningRing(), Z), [1], 2)
    ensures a in Wanted(Small(), Z, group, keys, views) ==> a.key != [1]
  {
    JoiningRouted();
    hide ShouldBeOn, SamePoints;
    WantedIs(Small(), Z, group, keys, views, a);
    forall i | 0 <= i < |keys| ensures !ShouldBeOn(Small(), views[i].ring, [1], Z) {
      SameBelongs(Small(), views[i].ring, JoiningRing(), [1], Z);
    }
  }

  predicate SamePoints(r: Ring, r': Ring) {
    r.keys == r'.keys && r.owner == r'.owner
  }

  lemma SameBelongs(cfg: Config, r: Ring, r': Ring, key: Key, x: Node)
    requires SamePoints(r, r')
    ensures ShouldBeOn(cfg, r, key, x) <==> ShouldBeOn(cfg, r', key, x)
  {
    SameWalk(r, r', cfg.hash(key));
    hide Walk, Pick;
  }

  lemma JoiningRouted()
    ensures RingOk(Small(), JoiningRing()) && Apart(Small(), {X, Y, Z})
    ensures Z in GetNHealthy(Small(), MarkHealthy(JoiningRing(), Z), [1], 2)
    ensures !ShouldBeOn(Small(), JoiningRing(), [1], Z)
  {
    hide Small, RingOk, Apart, Pick, GetNHealthy, ShouldBeOn;
    var r := JoiningRing();
    SmallRingOk(r);
    SmallApart({X, Y, Z});
    SmallHashIs([1]);
    ThreeNodes(r);
    TwoAhead();
    SentIsRouted(Small(), r, [1], Z);
  }

  lemma SmallHashIs(k: Key)
    ensures Small().hash(k) == SmallHash(k)
  {
  }

  lemma ThreeNodes(r: Ring)
    requires r.keys == [1, 2, 3] && r.owner == map[1 := X, 2 := Y, 3 := Z]
    ensures Walk(r, 1) == [X, Y, Z]
  {
    hide Ahead;
    var s: seq<nat> := [1, 2, 3];
    assert s[1..] == [2, 3] && s[1..][1..] == [3] && s[1..][1..][1..] == [];
    assert From([3], 1) == [3] && From([2, 3], 1) == [2, 3] && From(s, 1) == s;
    assert Below([3], 1) == [] && Below([2, 3], 1) == [] && Below(s, 1) == [];
    assert Owners(r.owner, [3]) == [Z] && Owners(r.owner, [2, 3]) == [Y, Z] && Owners(r.owner, s) == [X, Y, Z];
    assert s + [] == s;
  }

  lemma TwoAhead()
    ensures Ahead([X, Y, Z], Z) == {X, Y} && |{X, Y}| == 2 && |{X, Y} - {X, Z}| == 1
  {
    var w := [X, Y, Z];
    assert w[1..] == [Y, Z] && [Y, Z][1..] == [Z];
    assert Ahead([Z], Z) == {} && Ahead([Y, Z], Z) == {Y};
    assert {X, Y} - {X, Z} == {Y};
  }
}
