/** The peer picker with its fields, proved against the protocol of Membership. */
module ClientPicker {
  import opened Basics
  import opened Ring
  import opened RingRoutes
  import opened ConsistentHash
  import opened Membership

  // ---- One batch of watch events ----

  /** The events of a batch, one after the other. */
  function WatchAll(cfg: Config, c: Core, events: seq<Event>): Core {
    if events == [] then c else Watch(cfg, WatchAll(cfg, c, events[..|events| - 1]), events[|events| - 1])
  }

  /** The nodes that a batch finds to be new, in order. */
  function NewNodes(cfg: Config, c: Core, events: seq<Event>): seq<Node> {
    if events == [] then []
    else
      var k := |events| - 1;
      NewNodes(cfg, c, events[..k]) +
      if IsNew(WatchAll(cfg, c, events[..k]), events[k]) then [events[k].addr] else []
  }

  /** The nodes that a batch finds to be leaving, in order. */
  function LeavingNodes(cfg: Config, c: Core, events: seq<Event>): seq<Node> {
    if events == [] then []
    else
      var k := |events| - 1;
      LeavingNodes(cfg, c, events[..k]) +
      if IsLeaving(WatchAll(cfg, c, events[..k]), events[k]) then [events[k].addr] else []
  }

  lemma BatchNext(cfg: Config, c: Core, events: seq<Event>, i: nat)
    requires i < |events|
    ensures var before, e := WatchAll(cfg, c, events[..i]), events[i];
      && WatchAll(cfg, c, events[..i + 1]) == Watch(cfg, before, e)
      && NewNodes(cfg, c, events[..i + 1]) ==
         NewNodes(cfg, c, events[..i]) + (if IsNew(before, e) then [e.addr] else [])
      && LeavingNodes(cfg, c, events[..i + 1]) ==
         LeavingNodes(cfg, c, events[..i]) + (if IsLeaving(before, e) then [e.addr] else [])
  {
    assert events[..i + 1][..i] == events[..i];
  }

  lemma BatchEnds(cfg: Config, c: Core, events: seq<Event>)
    ensures WatchAll(cfg, c, events[..0]) == c
    ensures NewNodes(cfg, c, events[..0]) == [] && LeavingNodes(cfg, c, events[..0]) == []
    ensures events[..|events|] == events
  {
  }

  function Observes(events: seq<Event>): (steps: seq<Step>)
    ensures |steps| == |events|
  {
    if events == [] then [] else Observes(events[..|events| - 1]) + [Observe(events[|events| - 1])]
  }

  /** The migrations to new nodes: each is that of one join more than the node has had. */
  function JobsFor(p: Picker, nodes: seq<Node>): seq<Job> {
    if nodes == [] then []
    else
      var k := |nodes| - 1;
      JobsFor(p, nodes[..k]) + [Job(nodes[k], Joins(p, nodes[k]) + multiset(nodes[..k])[nodes[k]] + 1)]
  }

  lemma JobsSnoc(p: Picker, nodes: seq<Node>, n: Node)
    ensures JobsFor(p, nodes + [n]) == JobsFor(p, nodes) + [Job(n, Joins(p, n) + multiset(nodes)[n] + 1)]
  {
    assert (nodes + [n])[..|nodes|] == nodes;
  }

  lemma OneObserved(cfg: Config, p: Picker, e: Event)
    ensures var p' := Apply(cfg, p, Observe(e));
      && p'.core == Watch(cfg, p.core, e)
      && p'.timers == (if IsLeaving(p.core, e) then p.timers + multiset{e.addr} else p.timers)
      && p'.launched ==
         (if IsNew(p.core, e) then p.launched + multiset{Job(e.addr, Joins(p, e.addr) + 1)} else p.launched)
      && p'.running == p.running && p'.finished == p.finished
  {
    hide Watch, Joins;
  }

  lemma ObservesNext(cfg: Config, p: Picker, events: seq<Event>)
    requires events != []
    ensures var k := |events| - 1;
      RunOf(cfg, p, Observes(events)) == Apply(cfg, RunOf(cfg, p, Observes(events[..k])), Observe(events[k]))
  {
    hide Apply;
    assert Observes(events)[..|events| - 1] == Observes(events[..|events| - 1]);
  }

  lemma {:induction false} BatchCore(cfg: Config, p: Picker, events: seq<Event>)
    ensures var p' := RunOf(cfg, p, Observes(events));
      p'.core == WatchAll(cfg, p.core, events) && p'.running == p.running && p'.finished == p.finished
  {
    hide Watch, Apply, RunOf, Observes;
    if events == [] {
      NothingObserved(cfg, p);
    } else {
      BatchCore(cfg, p, events[..|events| - 1]);
      ObservesNext(cfg, p, events);
      OneObserved(cfg, RunOf(cfg, p, Observes(events[..|events| - 1])), events[|events| - 1]);
    }
  }

  lemma NothingObserved(cfg: Config, p: Picker)
    ensures RunOf(cfg, p, Observes([])) == p && JobsFor(p, []) == []
  {
  }

  lemma {:induction false} BatchTimers(cfg: Config, p: Picker, events: seq<Event>)
    ensures RunOf(cfg, p, Observes(events)).timers == p.timers + multiset(LeavingNodes(cfg, p.core, events))
  {
    hide Watch, Apply, RunOf, Observes, IsLeaving;
    if events == [] {
      NothingObserved(cfg, p);
    } else {
      var before, e := events[..|events| - 1], events[|events| - 1];
      BatchTimers(cfg, p, before);
      BatchCore(cfg, p, before);
      ObservesNext(cfg, p, events);
      OneObserved(cfg, RunOf(cfg, p, Observes(before)), e);
      assert LeavingNodes(cfg, p.core, before) + [] == LeavingNodes(cfg, p.core, before);
    }
  }

  lemma {:induction false} BatchJoins(cfg: Config, p: Picker, events: seq<Event>, n: Node)
    ensures Joins(RunOf(cfg, p, Observes(events)), n) == Joins(p, n) + multiset(NewNodes(cfg, p.core, events))[n]
  {
    hide Watch, Apply, RunOf, Observes, IsNew, Joins;
    if events == [] {
      NothingObserved(cfg, p);
    } else {
      var before, e := events[..|events| - 1], events[|events| - 1];
      BatchJoins(cfg, p, before, n);
      BatchCore(cfg, p, before);
      ObservesNext(cfg, p, events);
      JoinsStep(cfg, RunOf(cfg, p, Observes(before)), Observe(e), n);
      assert NewNodes(cfg, p.core, before) + [] == NewNodes(cfg, p.core, before);
    }
  }

  lemma NewNodesNext(cfg: Config, c: Core, events: seq<Event>)
    requires events != []
    ensures var before, e := events[..|events| - 1], events[|events| - 1];
      NewNodes(cfg, c, events) ==
        if IsNew(WatchAll(cfg, c, before), e) then NewNodes(cfg, c, before) + [e.addr] else NewNodes(cfg, c, before)
  {
    hide WatchAll, IsNew;
    var nodes := NewNodes(cfg, c, events[..|events| - 1]);
    assert nodes + [] == nodes;
  }

  lemma {:induction false} BatchJobs(cfg: Config, p: Picker, events: seq<Event>)
    ensures RunOf(cfg, p, Observes(events)).launched == p.launched + multiset(JobsFor(p, NewNodes(cfg, p.core, events)))
  {
    hide Watch, WatchAll, Apply, RunOf, Observes, IsNew, Joins, JobsFor, NewNodes;
    NothingObserved(cfg, p);
    if events == [] {
      NothingNew(cfg, p.core);
    } else {
      var before, e := events[..|events| - 1], events[|events| - 1];
      var nodes, q := NewNodes(cfg, p.core, before), RunOf(cfg, p, Observes(before));
      BatchJobs(cfg, p, before);
      BatchCore(cfg, p, before);
      ObservesNext(cfg, p, events);
      OneObserved(cfg, q, e);
      NewNodesNext(cfg, p.core, events);
      if IsNew(q.core, e) {
        BatchJoins(cfg, p, before, e.addr);
        JobsSnoc(p, nodes, e.addr);
      }
    }
  }

  lemma NothingNew(cfg: Config, c: Core)
    ensures NewNodes(cfg, c, []) == []
  {
  }

  /** A batch handled under one lock is a run of the protocol that observes its
      events: it launches the migration of the next join for each new node and starts
      one timer for each leaving node. */
  lemma BatchIsRun(cfg: Config, p: Picker, events: seq<Event>)
    ensures var p', nodes := RunOf(cfg, p, Observes(events)), NewNodes(cfg, p.core, events);
      && p'.core == WatchAll(cfg, p.core, events)
      && p'.timers == p.timers + multiset(LeavingNodes(cfg, p.core, events))
      && p'.launched == p.launched + multiset(JobsFor(p, nodes))
      && (forall n :: Joins(p', n) == Joins(p, n) + multiset(nodes)[n])
      && p'.running == p.running && p'.finished == p.finished
  {
    hide RunOf, Observes, WatchAll, NewNodes, LeavingNodes, JobsFor, Joins;
    BatchCore(cfg, p, events);
    BatchTimers(cfg, p, events);
    BatchJobs(cfg, p, events);
    forall n ensures Joins(RunOf(cfg, p, Observes(events)), n) ==
      Joins(p, n) + multiset(NewNodes(cfg, p.core, events))[n]
    {
      BatchJoins(cfg, p, events, n);
    }
  }

  // ---- The picker ----

  class ClientPicker {
    const selfAddr: Node
    const consHash: Map
    var clients: set<Node>
    ghost const apart: set<Node>

    ghost function State(): Core
      reads this, consHash
    {
      Core(selfAddr, clients, consHash.Value())
    }

    ghost predicate Valid()
      reads this, consHash
    {
      consHash.Valid() && CoreOk(consHash.config, apart, State())
    }

    /** A picker that knows no peers, for addresses whose points do not collide. */
    constructor (addr: Node, consHash: Map, ghost apart: set<Node>)
      requires consHash.Valid() && consHash.Value() == Ring([], map[], map[], {})
      requires Apart(consHash.config, apart)
      ensures Valid() && State() == Core(addr, {}, consHash.Value())
      ensures this.consHash == consHash && this.apart == apart
    {
      this.selfAddr, this.consHash, this.apart := addr, consHash, apart;
      clients := {};
    }

    /** Registers a node, if a client for it can be created. */
    method SetPeer(addr: Node, connected: bool)
      requires Sorted(consHash.keys)
      modifies this`clients, consHash
      ensures Sorted(consHash.keys) && State() == SetNode(consHash.config, old(State()), addr, connected)
      ensures old(CanJoin(addr)) || (old(Valid()) && !connected) ==> Valid()
    {
      hide RingOk, Apart, AddAll, SetNode, NoCollisions, Sorted, AllNew, Named, WithinCap;
      SetParts(consHash.config, State(), addr, connected);
      ghost var can := CanJoin(addr);
      if can {
        SetKeepsOk(consHash.config, apart, State(), addr, connected);
      }
      if connected {
        if can {
          NewNode(addr);
        }
        var _ := consHash.Add([addr]);
        clients := clients + {addr};
      }
    }

    /** The node is another one and not registered yet. */
    ghost predicate CanJoin(addr: Node)
      reads this, consHash
    {
      Valid() && addr !in clients && addr != selfAddr && addr != [] && addr in apart
    }

    lemma NewNode(addr: Node)
      requires CanJoin(addr)
      ensures consHash.CanAddAll([addr])
    {
      hide RingOk, Apart;
      ApartSubset(consHash.config, apart, consHash.nodeReplicas.Keys + Named([addr]));
    }

    /** Handles a batch of watch events; returns the nodes to migrate data to and
        the nodes to remove later. */
    method HandleWatchEvents(events: seq<Event>) returns (newNodes: seq<Node>, leavingNodes: seq<Node>)
      requires Valid() && forall e | e in events :: e.addr != [] && e.addr in apart
      modifies this`clients, consHash
      ensures Valid() && State() == WatchAll(consHash.config, old(State()), events)
      ensures newNodes == NewNodes(consHash.config, old(State()), events)
      ensures leavingNodes == LeavingNodes(consHash.config, old(State()), events)
    {
      hide Valid, WatchAll, NewNodes, LeavingNodes, IsNew, IsLeaving, Watch;
      ghost var cfg, c := consHash.config, State();
      newNodes, leavingNodes := [], [];
      BatchEnds(cfg, c, events);
      for i := 0 to |events|
        invariant Valid() && State() == WatchAll(cfg, c, events[..i])
        invariant newNodes == NewNodes(cfg, c, events[..i])
        invariant leavingNodes == LeavingNodes(cfg, c, events[..i])
      {
        BatchNext(cfg, c, events, i);
        assert events[i] in events;
        var isNew, isLeaving := HandleEvent(events[i]);
        if isNew {
          newNodes := newNodes + [events[i].addr];
        }
        if isLeaving {
          leavingNodes := leavingNodes + [events[i].addr];
        }
      }
    }

    method HandleEvent(e: Event) returns (isNew: bool, isLeaving: bool)
      requires Valid() && e.addr != [] && e.addr in apart
      modifies this`clients, consHash
      ensures Valid() && State() == Watch(consHash.config, old(State()), e)
      ensures isNew == IsNew(old(State()), e) && isLeaving == IsLeaving(old(State()), e)
    {
      hide Map.Valid, Map.Value, CoreOk, SetNode;
      WatchKeepsOk(consHash.config, apart, State(), e);
      ValidIsSorted();
      isNew, isLeaving := false, false;
      if e.addr == selfAddr {
        return;
      }
      match e
      case Put(addr, connected) =>
        if addr !in clients {
          SetPeer(addr, connected);
          consHash.MarkUnhealthy(addr);
          isNew := true;
        }
      case Gone(addr) =>
        if addr in clients {
          consHash.MarkUnhealthy(addr);
          isLeaving := true;
        }
    }

    /** Registers the nodes that discovery finds. A picker that knew no peers is well-formed
        afterwards if and only if no address is registered twice. */
    method FetchAllServices(found: seq<(Node, bool)>)
      requires Sorted(consHash.keys)
      modifies this`clients, consHash
      ensures Sorted(consHash.keys) && State() == Fetch(consHash.config, old(State()), found)
      ensures old(Valid() && clients == {}) && (forall i | 0 <= i < |found| :: found[i].0 in apart) ==>
        (Valid() <==> Unrepeated(Registered(selfAddr, found)))
    {
      hide Valid, Fetch, Unrepeated, CoreOk, SetNode, Sorted, Registered;
      ghost var cfg, c := consHash.config, State();
      ghost var known := Valid() && clients == {} && forall i | 0 <= i < |found| :: found[i].0 in apart;
      ValidParts();
      FetchEnds(cfg, c, found);
      for i := 0 to |found|
        invariant Sorted(consHash.keys) && State() == Fetch(cfg, c, found[..i])
        invariant known && Unrepeated(Registered(selfAddr, found)) ==> Valid()
      {
        FetchNext(cfg, c, found, i);
        if known && Unrepeated(Registered(selfAddr, found)) {
          FetchNew(cfg, c, found, i);
        }
        var (addr, connected) := found[i];
        if addr != [] && addr != selfAddr {
          AddFound(addr, connected);
        }
      }
      ValidParts();
      if known {
        FetchOk(cfg, apart, c, found);
      }
    }

    lemma ValidIsSorted()
      requires consHash.Valid()
      ensures Sorted(consHash.keys)
    {
    }

    lemma ValidParts()
      ensures Valid() ==> CoreOk(consHash.config, apart, State())
    {
    }

    method AddFound(addr: Node, connected: bool)
      requires Sorted(consHash.keys)
      modifies this`clients, consHash
      ensures Sorted(consHash.keys)
      ensures var c := SetNode(consHash.config, old(State()), addr, connected);
        State() == c.(ring := RingRoutes.MarkHealthy(c.ring, addr))
      ensures old(CanJoin(addr)) || (old(Valid()) && !connected) ==> Valid()
    {
      hide Valid, SetNode, CoreOk, Sorted;
      if !connected {
        NotSet(consHash.config, State(), addr);
      }
      SetPeer(addr, connected);
      Healthy(addr);
    }

    method Healthy(addr: Node)
      modifies consHash
      ensures State() == old(State()).(ring := RingRoutes.MarkHealthy(old(State()).ring, addr))
      ensures consHash.keys == old(consHash.keys)
      ensures old(Valid()) ==> Valid()
    {
      hide RingOk, Apart, NoCollisions, Sorted;
      if Valid() {
        MarkOk(consHash.config, consHash.Value(), consHash.unhealthyNodes - {addr});
      }
      consHash.MarkHealthy(addr);
    }

    /** The last step of a migration. */
    method MigrationFinished(newAddr: Node)
      requires Valid()
      modifies consHash
      ensures Valid() && State() == Migrated(old(State()), newAddr)
    {
      hide RingOk, Apart, NoCollisions;
      MigratedKeepsOk(consHash.config, apart, State(), newAddr);
      if newAddr in clients {
        consHash.MarkHealthy(newAddr);
      }
    }

    /** What happens when the removal timer of a node fires. */
    method RemovePeer(leavingAddr: Node)
      requires Valid()
      modifies this`clients, consHash
      ensures Valid() && State() == Expire(old(State()), leavingAddr)
    {
      hide Map.Valid, CoreOk, RemoveNode;
      ExpireKeepsOk(consHash.config, apart, State(), leavingAddr);
      RegisteredClients(leavingAddr);
      if leavingAddr in clients {
        RemoveFromRing(leavingAddr);
        clients := clients - {leavingAddr};
      }
    }

    method RemoveFromRing(addr: Node)
      requires consHash.Valid() && addr in consHash.nodeReplicas
      modifies consHash
      ensures consHash.Valid() && consHash.Value() == RemoveNode(old(consHash.Value()), addr)
    {
      hide Map.Loose, Sorted, RemoveNode, RemoveAll, DropPoints, Points;
      consHash.TidyIsValue();
      var _ := consHash.Remove(addr);
      consHash.TidyIsValue();
    }

    /** The peers, in the order in which the map of clients is iterated. */
    method GetAllPeers() returns (peers: seq<Node>)
      requires Valid()
      ensures ArePeers(State(), peers)
    {
      hide Valid;
      peers := [];
      var todo := clients;
      while todo != {}
        invariant todo <= clients
        invariant forall n :: multiset(peers)[n] == if n in clients - todo && n != selfAddr then 1 else 0
        decreases |todo|
      {
        var addr :| addr in todo;
        todo := todo - {addr};
        if addr != selfAddr {
          assert multiset(peers + [addr]) == multiset(peers) + multiset{addr};
          peers := peers + [addr];
        }
      }
    }

    lemma RegisteredClients(addr: Node)
      requires Valid()
      ensures addr in clients <==> addr in consHash.nodeReplicas
    {
    }

    method PickPeerWithFallback(key: Key) returns (primary: Option<Node>, replica: Option<Node>, ok: bool, isSelf: bool)
      requires Sorted(consHash.keys)
      ensures Peers(primary, replica, ok, isSelf) == PickPeers(consHash.config, State(), key)
    {
      hide RingOk, Apart, CoreOk, GetNHealthy;
      var nodes := consHash.GetNHealthy(key, 2);
      if |nodes| == 0 {
        return None, None, false, false;
      }
      var primaryAddr := nodes[0];
      if primaryAddr == selfAddr {
        if |nodes| >= 2 {
          if nodes[1] in clients {
            return None, Some(nodes[1]), true, true;
          }
        }
        return None, None, true, true;
      }
      primary, replica, ok := None, None, false;
      if primaryAddr in clients {
        primary := Some(primaryAddr);
        ok := true;
      }
      if |nodes| >= 2 {
        var replicaAddr := nodes[1];
        if replicaAddr != selfAddr {
          if replicaAddr in clients {
            replica := Some(replicaAddr);
          }
        }
      }
      return primary, replica, ok, false;
    }
  }

  lemma FetchNext(cfg: Config, c: Core, found: seq<(Node, bool)>, i: nat)
    requires i < |found|
    ensures var (addr, connected), before := found[i], Fetch(cfg, c, found[..i]);
      && Fetch(cfg, c, found[..i + 1]) ==
         (if addr == [] || addr == c.self then before
          else var c' := SetNode(cfg, before, addr, connected); c'.(ring := RingRoutes.MarkHealthy(c'.ring, addr)))
      && before.self == c.self
  {
    hide SetNode;
    assert found[..i + 1][..i] == found[..i];
    FetchSelf(cfg, c, found[..i]);
  }

  lemma {:induction false} RegisteredPrefix(self: Node, found: seq<(Node, bool)>, i: nat)
    requires i <= |found|
    ensures Registered(self, found[..i]) <= Registered(self, found)
  {
    if i == |found| {
      assert found[..i] == found;
    } else {
      assert found[..|found| - 1][..i] == found[..i];
      RegisteredPrefix(self, found[..|found| - 1], i);
    }
  }

  lemma UnrepeatedPrefix(a: seq<Node>, b: seq<Node>)
    requires a <= b && Unrepeated(b)
    ensures Unrepeated(a)
  {
  }

  /** If nothing is registered twice, a node that is to be registered is not known yet. */
  lemma FetchNew(cfg: Config, c: Core, found: seq<(Node, bool)>, i: nat)
    requires i < |found| && c.clients == {} && Unrepeated(Registered(c.self, found))
    ensures var (addr, connected) := found[i];
      addr != [] && addr != c.self && connected ==> addr !in Fetch(cfg, c, found[..i]).clients
  {
    hide Unrepeated, Fetch;
    var (addr, connected) := found[i];
    if addr != [] && addr != c.self && connected {
      RegisteredPrefix(c.self, found, i + 1);
      assert found[..i + 1][..i] == found[..i];
      UnrepeatedPrefix(Registered(c.self, found[..i + 1]), Registered(c.self, found));
      UnrepeatedSnoc(Registered(c.self, found[..i]), addr);
      FetchAbsent(cfg, c, found[..i], addr);
    }
  }

  lemma FetchEnds(cfg: Config, c: Core, found: seq<(Node, bool)>)
    ensures Fetch(cfg, c, found[..0]) == c && found[..|found|] == found
  {
  }

  lemma SetParts(cfg: Config, c: Core, addr: Node, connected: bool)
    ensures SetNode(cfg, c, addr, connected) ==
      if connected then Core(c.self, c.clients + {addr}, AddAll(cfg, c.ring, [addr])) else c
  {
  }
}
