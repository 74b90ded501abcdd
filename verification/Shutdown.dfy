/** Moving all cached data away before a node shuts down. */
module Shutdown {
  import opened Basics
  import opened Ring
  import opened RingRoutes
  import opened Migration

  // ---- Which keys go where ----

  /** The keys that belong on a node, in order. */
  function Destined(cfg: Config, r: Ring, keys: seq<Key>, dest: Node): seq<Key> {
    if keys == [] then []
    else
      var k := |keys| - 1;
      Destined(cfg, r, keys[..k], dest) + if ShouldBeOn(cfg, r, keys[k], dest) then [keys[k]] else []
  }

  lemma DestinedNext(cfg: Config, r: Ring, keys: seq<Key>, dest: Node, i: nat)
    requires i < |keys|
    ensures Destined(cfg, r, keys[..i + 1], dest) ==
      Destined(cfg, r, keys[..i], dest) + if ShouldBeOn(cfg, r, keys[i], dest) then [keys[i]] else []
  {
    assert keys[..i + 1][..i] == keys[..i];
  }

  /** A key is destined for a node exactly if it is listed and belongs on it. */
  lemma {:induction false} DestinedIs(cfg: Config, r: Ring, keys: seq<Key>, dest: Node, key: Key)
    ensures key in Destined(cfg, r, keys, dest) <==> key in keys && ShouldBeOn(cfg, r, key, dest)
  {
    hide ShouldBeOn;
    if keys != [] {
      var k := |keys| - 1;
      DestinedIs(cfg, r, keys[..k], dest, key);
      assert keys == keys[..k] + [keys[k]];
    }
  }

  function KeysFor(destKeys: map<Node, seq<Key>>, dest: Node): seq<Key> {
    if dest in destKeys then destKeys[dest] else []
  }

  predicate NoneEmpty(destKeys: map<Node, seq<Key>>) {
    forall d | d in destKeys :: destKeys[d] != []
  }

  function AddKey(destKeys: map<Node, seq<Key>>, dest: Node, key: Key): map<Node, seq<Key>> {
    destKeys[dest := KeysFor(destKeys, dest) + [key]]
  }

  lemma AddKeyIs(destKeys: map<Node, seq<Key>>, dest: Node, key: Key)
    requires NoneEmpty(destKeys)
    ensures NoneEmpty(AddKey(destKeys, dest, key))
    ensures forall d ::
      KeysFor(AddKey(destKeys, dest, key), d) == KeysFor(destKeys, d) + (if d == dest then [key] else [])
  {
  }

  /** Adds a key to the lists of the nodes it belongs on. */
  method AddDestinations(self: Node, key: Key, nodes: seq<Node>, before: map<Node, seq<Key>>)
      returns (destKeys: map<Node, seq<Key>>)
    requires NoneEmpty(before) && forall i, j | 0 <= i < j < |nodes| :: nodes[i] != nodes[j]
    ensures NoneEmpty(destKeys)
    ensures forall d ::
      KeysFor(destKeys, d) == KeysFor(before, d) + (if d in nodes && d != [] && d != self then [key] else [])
  {
    hide KeysFor, AddKey, NoneEmpty;
    destKeys := before;
    for i := 0 to |nodes|
      invariant NoneEmpty(destKeys)
      invariant forall d ::
        KeysFor(destKeys, d) == KeysFor(before, d) + (if d in nodes[..i] && d != [] && d != self then [key] else [])
    {
      var dest := nodes[i];
      assert dest !in nodes[..i] && nodes[..i + 1] == nodes[..i] + [dest];
      if dest != [] && dest != self {
        AddKeyIs(destKeys, dest, key);
        destKeys := AddKey(destKeys, dest, key);
      }
    }
    assert nodes[..|nodes|] == nodes;
  }

  /** The keys of each node that is to get any: those that belong on it, in order. */
  method Destinations(cfg: Config, self: Node, r: Ring, keys: seq<Key>) returns (destKeys: map<Node, seq<Key>>)
    ensures NoneEmpty(destKeys)
    ensures forall d :: KeysFor(destKeys, d) == if d == [] || d == self then [] else Destined(cfg, r, keys, d)
  {
    hide KeysFor, NoneEmpty, Destined, GetN;
    destKeys := map[];
    NothingDestined(cfg, r);
    for i := 0 to |keys|
      invariant NoneEmpty(destKeys)
      invariant forall d :: KeysFor(destKeys, d) == if d == [] || d == self then [] else Destined(cfg, r, keys[..i], d)
    {
      var nodes := GetN(cfg, r, keys[i], 2);
      GetNDistinct(cfg, r, keys[i]);
      forall d: Node ensures Destined(cfg, r, keys[..i + 1], d) ==
        Destined(cfg, r, keys[..i], d) + if d in nodes then [keys[i]] else []
      {
        DestinedNext(cfg, r, keys, d, i);
      }
      destKeys := AddDestinations(self, keys[i], nodes, destKeys);
    }
    assert keys[..|keys|] == keys;
  }

  lemma NothingDestined(cfg: Config, r: Ring)
    ensures NoneEmpty(map[])
    ensures forall d :: KeysFor(map[], d) == []
    ensures forall d: Node :: Destined(cfg, r, [], d) == []
  {
  }

  lemma GetNDistinct(cfg: Config, r: Ring, key: Key)
    ensures var nodes := GetN(cfg, r, key, 2); forall i, j | 0 <= i < j < |nodes| :: nodes[i] != nodes[j]
  {
    PickMembers(Walk(r, cfg.hash(key)), {}, 2);
    assert key != [] ==> GetN(cfg, r, key, 2) == Pick(Walk(r, cfg.hash(key)), {}, 2);
  }

  /** The keys that are still held when their turn comes, with their values. */
  function Held(to: Node, group: Key, keys: seq<Key>, held: (Node, nat) -> Option<seq<byte>>): seq<Attempt> {
    if keys == [] then []
    else
      var k := |keys| - 1;
      Held(to, group, keys[..k], held) +
      if held(to, k).Some? then [Attempt(to, group, keys[k], held(to, k).value)] else []
  }

  function SentTo(log: seq<Attempt>, to: Node): seq<Attempt> {
    if log == [] then []
    else SentTo(log[..|log| - 1], to) + if log[|log| - 1].to == to then [log[|log| - 1]] else []
  }

  lemma {:induction false} SentConcat(a: seq<Attempt>, b: seq<Attempt>, to: Node)
    ensures SentTo(a + b, to) == SentTo(a, to) + SentTo(b, to)
  {
    if b == [] {
      assert a + b == a;
    } else {
      assert (a + b)[..|a + b| - 1] == a + b[..|b| - 1];
      SentConcat(a, b[..|b| - 1], to);
    }
  }

  lemma SentOne(a: Attempt, to: Node)
    ensures SentTo([a], to) == if a.to == to then [a] else []
  {
    assert [a][..0] == [] && SentTo([], to) == [];
  }

  lemma SentNone(to: Node)
    ensures SentTo([], to) == []
  {
  }

  lemma {:induction false} HeldSent(to: Node, group: Key, keys: seq<Key>,
                                    held: (Node, nat) -> Option<seq<byte>>, d: Node)
    ensures SentTo(Held(to, group, keys, held), d) == if d == to then Held(to, group, keys, held) else []
  {
    hide SentTo;
    if keys == [] {
      SentNone(d);
    } else {
      var k := |keys| - 1;
      HeldSent(to, group, keys[..k], held, d);
      if held(to, k).None? {
        assert Held(to, group, keys, held) == Held(to, group, keys[..k], held);
      } else {
        var a := Attempt(to, group, keys[k], held(to, k).value);
        SentConcat(Held(to, group, keys[..k], held), [a], d);
        SentOne(a, d);
      }
    }
  }

  lemma SentMore(before: seq<Attempt>, to: Node, group: Key, keys: seq<Key>,
                 held: (Node, nat) -> Option<seq<byte>>, d: Node)
    ensures SentTo(before + Held(to, group, keys, held), d) ==
      SentTo(before, d) + if d == to then Held(to, group, keys, held) else []
  {
    hide SentTo, Held;
    SentConcat(before, Held(to, group, keys, held), d);
    HeldSent(to, group, keys, held, d);
  }

  // ---- Sending ----

  /** Sends one node its keys. */
  method MoveTo(net: Network, to: Node, group: Key, keys: seq<Key>, held: (Node, nat) -> Option<seq<byte>>)
    modifies net
    ensures net.log == old(net.log) + Held(to, group, keys, held)
  {
    assert keys[..0] == [];
    for i := 0 to |keys|
      invariant net.log == old(net.log) + Held(to, group, keys[..i], held)
    {
      assert keys[..i + 1][..i] == keys[..i];
      var val := held(to, i);
      if val.None? {
        continue;
      }
      var _ := net.Set(Attempt(to, group, keys[i], val.value));
    }
    assert keys[..|keys|] == keys;
  }

  /** What a node is sent: nothing without a client for it, else its keys that are held. */
  function Sent(cfg: Config, self: Node, r: Ring, group: Key, keys: seq<Key>, clients: Node -> bool,
                held: (Node, nat) -> Option<seq<byte>>, d: Node): seq<Attempt> {
    if d == [] || d == self || !clients(d) then [] else Held(d, group, Destined(cfg, r, keys, d), held)
  }

  /** What a node has been sent while the nodes in todo are still to come. */
  function SentSoFar(cfg: Config, self: Node, r: Ring, group: Key, keys: seq<Key>, clients: Node -> bool,
                     held: (Node, nat) -> Option<seq<byte>>, todo: set<Node>, d: Node): seq<Attempt> {
    if d in todo then [] else Sent(cfg, self, r, group, keys, clients, held, d)
  }

  lemma SentNothing(cfg: Config, self: Node, r: Ring, group: Key, keys: seq<Key>, clients: Node -> bool,
                    held: (Node, nat) -> Option<seq<byte>>, d: Node, destKeys: map<Node, seq<Key>>)
    requires KeysFor(destKeys, d) == if d == [] || d == self then [] else Destined(cfg, r, keys, d)
    ensures SentTo([], d) == SentSoFar(cfg, self, r, group, keys, clients, held, destKeys.Keys, d)
  {
    hide Destined;
  }

  lemma SentNext(cfg: Config, self: Node, r: Ring, group: Key, keys: seq<Key>, clients: Node -> bool,
                 held: (Node, nat) -> Option<seq<byte>>, d: Node, destKeys: map<Node, seq<Key>>,
                 todo: set<Node>, dest: Node, sent: seq<Attempt>)
    requires dest in todo && todo <= destKeys.Keys && NoneEmpty(destKeys)
    requires KeysFor(destKeys, dest) == if dest == [] || dest == self then [] else Destined(cfg, r, keys, dest)
    requires SentTo(sent, d) == SentSoFar(cfg, self, r, group, keys, clients, held, todo, d)
    ensures var more := if clients(dest) then Held(dest, group, destKeys[dest], held) else [];
      SentTo(sent + more, d) == SentSoFar(cfg, self, r, group, keys, clients, held, todo - {dest}, d)
  {
    hide Destined, Held, SentTo;
    SentMore(sent, dest, group, destKeys[dest], held, d);
    assert sent + [] == sent;
  }

  ghost predicate SentWhile(cfg: Config, self: Node, r: Ring, group: Key, keys: seq<Key>, clients: Node -> bool,
                            held: (Node, nat) -> Option<seq<byte>>, todo: set<Node>, sent: seq<Attempt>) {
    forall d :: SentTo(sent, d) == SentSoFar(cfg, self, r, group, keys, clients, held, todo, d)
  }

  /** The keys of each node that is to get any. */
  ghost predicate DestinationsOk(cfg: Config, self: Node, r: Ring, keys: seq<Key>, destKeys: map<Node, seq<Key>>) {
    && NoneEmpty(destKeys)
    && forall d :: KeysFor(destKeys, d) == if d == [] || d == self then [] else Destined(cfg, r, keys, d)
  }

  lemma SentStart(cfg: Config, self: Node, r: Ring, group: Key, keys: seq<Key>, clients: Node -> bool,
                  held: (Node, nat) -> Option<seq<byte>>, destKeys: map<Node, seq<Key>>)
    requires DestinationsOk(cfg, self, r, keys, destKeys)
    ensures SentWhile(cfg, self, r, group, keys, clients, held, destKeys.Keys, [])
  {
    hide SentTo, SentSoFar, KeysFor, Destined, NoneEmpty;
    forall d: Node ensures SentTo([], d) == SentSoFar(cfg, self, r, group, keys, clients, held, destKeys.Keys, d) {
      SentNothing(cfg, self, r, group, keys, clients, held, d, destKeys);
    }
  }

  lemma SentStep(cfg: Config, self: Node, r: Ring, group: Key, keys: seq<Key>, clients: Node -> bool,
                 held: (Node, nat) -> Option<seq<byte>>, destKeys: map<Node, seq<Key>>,
                 todo: set<Node>, dest: Node, sent: seq<Attempt>)
    requires DestinationsOk(cfg, self, r, keys, destKeys)
    requires dest in todo && todo <= destKeys.Keys
    requires SentWhile(cfg, self, r, group, keys, clients, held, todo, sent)
    ensures var more := if clients(dest) then Held(dest, group, destKeys[dest], held) else [];
      SentWhile(cfg, self, r, group, keys, clients, held, todo - {dest}, sent + more)
  {
    hide SentTo, SentSoFar, KeysFor, Destined, NoneEmpty, Held;
    var more := if clients(dest) then Held(dest, group, destKeys[dest], held) else [];
    forall d: Node ensures SentTo(sent + more, d) ==
      SentSoFar(cfg, self, r, group, keys, clients, held, todo - {dest}, d)
    {
      SentNext(cfg, self, r, group, keys, clients, held, d, destKeys, todo, dest, sent);
    }
  }

  lemma SentEnd(cfg: Config, self: Node, r: Ring, group: Key, keys: seq<Key>, clients: Node -> bool,
                held: (Node, nat) -> Option<seq<byte>>, sent: seq<Attempt>)
    requires SentWhile(cfg, self, r, group, keys, clients, held, {}, sent)
    ensures forall d :: SentTo(sent, d) == Sent(cfg, self, r, group, keys, clients, held, d)
  {
    hide Sent, SentTo;
  }

  /** Moves one group away. The nodes get their keys one node after the other, in any
      order. */
  method MigrateGroupAway(cfg: Config, net: Network, self: Node, r: Ring, group: Key, keys: seq<Key>,
                          clients: Node -> bool, held: (Node, nat) -> Option<seq<byte>>)
      returns (ghost sent: seq<Attempt>)
    modifies net
    ensures net.log == old(net.log) + sent
    ensures forall d :: SentTo(sent, d) == Sent(cfg, self, r, group, keys, clients, held, d)
  {
    hide Held, SentWhile, DestinationsOk;
    var destKeys := Grouped(cfg, self, r, keys);
    sent := [];
    var todo := destKeys.Keys;
    SentStart(cfg, self, r, group, keys, clients, held, destKeys);
    while todo != {}
      invariant todo <= destKeys.Keys && net.log == old(net.log) + sent
      invariant SentWhile(cfg, self, r, group, keys, clients, held, todo, sent)
      decreases |todo|
    {
      var dest :| dest in todo;
      SentStep(cfg, self, r, group, keys, clients, held, destKeys, todo, dest, sent);
      todo := todo - {dest};
      if clients(dest) {
        MoveTo(net, dest, group, destKeys[dest], held);
        sent := sent + Held(dest, group, destKeys[dest], held);
      } else {
        assert sent + [] == sent;
      }
    }
    SentEnd(cfg, self, r, group, keys, clients, held, sent);
  }

  method Grouped(cfg: Config, self: Node, r: Ring, keys: seq<Key>) returns (destKeys: map<Node, seq<Key>>)
    ensures DestinationsOk(cfg, self, r, keys, destKeys)
  {
    hide KeysFor, NoneEmpty, Destined;
    destKeys := Destinations(cfg, self, r, keys);
  }

  lemma {:induction false} HeldHas(to: Node, group: Key, keys: seq<Key>, held: (Node, nat) -> Option<seq<byte>>, i: nat)
    requires i < |keys| && held(to, i).Some?
    ensures Attempt(to, group, keys[i], held(to, i).value) in Held(to, group, keys, held)
  {
    if i != |keys| - 1 {
      HeldHas(to, group, keys[..|keys| - 1], held, i);
    }
  }

  /** Both nodes that a key belongs on, healthy or not, are sent it before the shutdown
      with the value it has, as long as it stays in the cache and they have clients. */
  lemma AwayCovers(cfg: Config, self: Node, r: Ring, group: Key, keys: seq<Key>, clients: Node -> bool,
                   local: map<Key, seq<byte>>, key: Key, d: Node)
    requires key in keys && key in local && d in GetN(cfg, r, key, 2) && d != [] && d != self && clients(d)
    ensures var held := HeldFrom(cfg, r, keys, local);
      Attempt(d, group, key, local[key]) in Sent(cfg, self, r, group, keys, clients, held, d)
  {
    hide Held, Destined;
    DestinedIs(cfg, r, keys, d, key);
    var mine := Destined(cfg, r, keys, d);
    var i :| 0 <= i < |mine| && mine[i] == key;
    HeldHas(d, group, mine, HeldFrom(cfg, r, keys, local), i);
  }

  /** With a local cache that does not change, a node gets exactly the values of the listed
      keys that belong on it, and this node gets none. */
  lemma AwayIs(cfg: Config, self: Node, r: Ring, group: Key, keys: seq<Key>, clients: Node -> bool,
               local: map<Key, seq<byte>>, d: Node, a: Attempt)
    ensures a in Sent(cfg, self, r, group, keys, clients, HeldFrom(cfg, r, keys, local), d) <==>
      && d != [] && d != self && clients(d) && a.to == d && a.group == group
      && a.key in keys && d in GetN(cfg, r, a.key, 2) && a.key in local && local[a.key] == a.value
  {
    hide Held, Destined;
    var held, mine := HeldFrom(cfg, r, keys, local), Destined(cfg, r, keys, d);
    DestinedIs(cfg, r, keys, d, a.key);
    HeldIs(d, group, mine, held, a);
    if a.key in mine {
      var i :| 0 <= i < |mine| && mine[i] == a.key;
      assert a.key in local ==> held(d, i) == Some(local[a.key]);
    }
  }

  lemma {:induction false} HeldIs(to: Node, group: Key, keys: seq<Key>, held: (Node, nat) -> Option<seq<byte>>,
                                  a: Attempt)
    ensures a in Held(to, group, keys, held) <==>
      && a.to == to && a.group == group
      && exists i: nat :: i < |keys| && keys[i] == a.key && held(to, i) == Some(a.value)
  {
    if keys != [] {
      HeldIs(to, group, keys[..|keys| - 1], held, a);
    }
  }

  /** A local cache that does not change. */
  function HeldFrom(cfg: Config, r: Ring, keys: seq<Key>, local: map<Key, seq<byte>>):
      (Node, nat) -> Option<seq<byte>> {
    (d: Node, i: nat) =>
      var mine := Destined(cfg, r, keys, d);
      if i < |mine| && mine[i] in local then Some(local[mine[i]]) else None
  }
}
