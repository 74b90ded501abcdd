/** The membership protocol: watch events, migrations that end, and removal timers
    that fire, in any order, and what every run of them keeps. */
module Membership {
  import opened Basics
  import opened Ring
  import opened RingChange
  import opened RingRoutes
  import opened ConsistentHash

  // ---- The part of the state behind the lock ----

  datatype Core = Core(self: Node, clients: set<Node>, ring: Ring)

  /** A watch event. For a put, connected says whether a client can be created. */
  datatype Event = Put(addr: Node, connected: bool) | Gone(addr: Node)

  /** Registers a node, if a client for it can be created. */
  function SetNode(cfg: Config, c: Core, addr: Node, connected: bool): Core {
    if connected
    then c.(clients := c.clients + {addr}, ring := AddAll(cfg, c.ring, [addr]))
    else c
  }

  predicate IsNew(c: Core, e: Event) {
    e.Put? && e.addr != c.self && e.addr !in c.clients
  }

  predicate IsLeaving(c: Core, e: Event) {
    e.Gone? && e.addr != c.self && e.addr in c.clients
  }

  /** One event: a new node joins unhealthy, a leaving node is marked unhealthy. */
  function Watch(cfg: Config, c: Core, e: Event): Core {
    if IsNew(c, e) then
      var c' := SetNode(cfg, c, e.addr, e.connected);
      c'.(ring := MarkUnhealthy(c'.ring, e.addr))
    else if IsLeaving(c, e) then c.(ring := MarkUnhealthy(c.ring, e.addr))
    else c
  }

  /** The end of a migration makes the node healthy if it is still a client. */
  function Migrated(c: Core, addr: Node): Core {
    if addr in c.clients then c.(ring := MarkHealthy(c.ring, addr)) else c
  }

  /** The removal timer of a node that has been leaving. */
  function Expire(c: Core, addr: Node): Core {
    if addr in c.clients then c.(clients := c.clients - {addr}, ring := RemoveNode(c.ring, addr)) else c
  }

  /** The nodes a key is sent to, as clients: a primary and a replica. */
  datatype Peers = Peers(primary: Option<Node>, replica: Option<Node>, ok: bool, isSelf: bool)

  function ClientOf(c: Core, addr: Node): Option<Node> {
    if addr in c.clients then Some(addr) else None
  }

  function PickPeers(cfg: Config, c: Core, key: Key): Peers {
    var nodes := GetNHealthy(cfg, c.ring, key, 2);
    if nodes == [] then Peers(None, None, false, false)
    else if nodes[0] == c.self then
      if |nodes| >= 2 && nodes[1] in c.clients then Peers(None, Some(nodes[1]), true, true)
      else Peers(None, None, true, true)
    else
      Peers(ClientOf(c, nodes[0]),
            if |nodes| >= 2 && nodes[1] != c.self then ClientOf(c, nodes[1]) else None,
            nodes[0] in c.clients, false)
  }

  // ---- What holds whenever the lock is free ----

  /** Clients and ring nodes are the same, and this node is neither. apart is a set
      of addresses whose virtual points do not collide. */
  ghost predicate CoreOk(cfg: Config, apart: set<Node>, c: Core) {
    && Usable(cfg) && Apart(cfg, apart)
    && RingOk(cfg, c.ring) && WithinCap(cfg, c.ring.replicas)
    && c.clients == c.ring.replicas.Keys <= apart
    && c.self !in c.clients
  }

  lemma AddOne(cfg: Config, r: Ring, x: Node)
    requires x != []
    ensures AddAll(cfg, r, [x]) == AddNode(cfg, r, x, cfg.defaultReplicas)
  {
    assert [x][..0] == [];
  }

  lemma SetKeepsOk(cfg: Config, apart: set<Node>, c: Core, addr: Node, connected: bool)
    requires CoreOk(cfg, apart, c) && addr !in c.clients && addr != c.self && addr != [] && addr in apart
    ensures CoreOk(cfg, apart, SetNode(cfg, c, addr, connected))
  {
    hide RingOk, Apart;
    if connected {
      var all := c.ring.replicas[addr := cfg.defaultReplicas];
      AddOne(cfg, c.ring, addr);
      ApartNoCollisions(cfg, apart, all);
      AddOk(cfg, c.ring, addr, cfg.defaultReplicas);
      assert all.Keys == c.ring.replicas.Keys + {addr};
    }
  }

  lemma MarkOk(cfg: Config, r: Ring, marks: set<Node>)
    requires RingOk(cfg, r)
    ensures RingOk(cfg, r.(unhealthy := marks))
  {
  }

  lemma WatchKeepsOk(cfg: Config, apart: set<Node>, c: Core, e: Event)
    requires CoreOk(cfg, apart, c) && e.addr != [] && e.addr in apart
    ensures CoreOk(cfg, apart, Watch(cfg, c, e))
  {
    hide RingOk, Apart;
    var c' := if IsNew(c, e) then SetNode(cfg, c, e.addr, e.connected) else c;
    if IsNew(c, e) {
      SetKeepsOk(cfg, apart, c, e.addr, e.connected);
    }
    MarkOk(cfg, c'.ring, c'.ring.unhealthy + {e.addr});
  }

  lemma MigratedKeepsOk(cfg: Config, apart: set<Node>, c: Core, addr: Node)
    requires CoreOk(cfg, apart, c)
    ensures CoreOk(cfg, apart, Migrated(c, addr))
  {
    hide RingOk, Apart;
    MarkOk(cfg, c.ring, c.ring.unhealthy - {addr});
  }

  lemma ExpireKeepsOk(cfg: Config, apart: set<Node>, c: Core, addr: Node)
    requires CoreOk(cfg, apart, c)
    ensures CoreOk(cfg, apart, Expire(c, addr))
  {
    hide RingOk, Apart;
    RemoveOk(cfg, c.ring, addr);
  }

  lemma NoKey(cfg: Config, r: Ring)
    ensures GetNHealthy(cfg, r, [], 2) == []
  {
  }

  /** Whenever the lock is free: a key is served exactly when some node is healthy,
      primary and replica are different healthy clients, there is a replica when
      there are two healthy nodes, and this node never is the primary. */
  lemma PickIsSound(cfg: Config, apart: set<Node>, c: Core, key: Key)
    requires CoreOk(cfg, apart, c)
    ensures var p, up := PickPeers(cfg, c, key), c.clients - c.ring.unhealthy;
      && (p.ok <==> key != [] && up != {})
      && (p.ok <==> p.primary.Some?) && !p.isSelf
      && (p.primary.Some? ==> p.primary.value in up)
      && (p.replica.Some? ==> p.replica.value in up && p.primary.Some? && p.primary != p.replica)
      && (p.replica.Some? <==> key != [] && |up| >= 2)
  {
    hide RingOk, Apart, GetNHealthy, GetN;
    NoKey(cfg, c.ring);
    if key != [] {
      LookupSizes(cfg, c.ring, key, 2);
      var up, nodes := c.clients - c.ring.unhealthy, GetNHealthy(cfg, c.ring, key, 2);
      assert up == {} <==> |up| == 0;
      assert forall i | 0 <= i < |nodes| :: nodes[i] in nodes;
    }
  }

  /** The peers in any order: all clients but this node, each once. */
  ghost predicate ArePeers(c: Core, peers: seq<Node>) {
    forall n :: multiset(peers)[n] == if n in c.clients && n != c.self then 1 else 0
  }

  predicate Picks(cfg: Config, c: Core, key: Key, n: Node) {
    PickPeers(cfg, c, key).primary == Some(n) || PickPeers(cfg, c, key).replica == Some(n)
  }

  lemma {:induction false} FromPoint(s: seq<nat>, h: nat)
    requires StrictlySorted(s) && h in s
    ensures From(s, h) != [] && From(s, h)[0] == h
  {
    if s[0] != h {
      assert s == [s[0]] + s[1..];
      var i :| 0 <= i < |s| && s[i] == h;
      FromPoint(s[1..], h);
    }
  }

  /** Whatever the ring holds: only clients are returned; a key has a primary or is this
      node's exactly if it is served; the replica is the second node, if that is another
      client. */
  lemma PickReturnsClients(cfg: Config, c: Core, key: Key)
    ensures var p, nodes := PickPeers(cfg, c, key), GetNHealthy(cfg, c.ring, key, 2);
      && (p.isSelf <==> nodes != [] && nodes[0] == c.self)
      && (p.ok <==> p.isSelf || p.primary.Some?)
      && (p.primary.Some? <==> nodes != [] && nodes[0] != c.self && nodes[0] in c.clients)
      && (p.primary.Some? ==> p.primary.value == nodes[0])
      && (p.replica.Some? <==> |nodes| >= 2 && nodes[1] in c.clients && (p.isSelf || nodes[1] != c.self))
      && (p.replica.Some? ==> p.replica.value == nodes[1])
  {
    hide GetNHealthy;
  }

  /** A healthy client is the primary of the key that is the label of its first point. */
  lemma OwnKey(cfg: Config, apart: set<Node>, c: Core, n: Node)
    requires CoreOk(cfg, apart, c) && n in c.clients && n !in c.ring.unhealthy && cfg.pointLabel(n, 0) != []
    ensures PickPeers(cfg, c, cfg.pointLabel(n, 0)).primary == Some(n)
  {
    hide Apart, WithinCap;
    var key, h := cfg.pointLabel(n, 0), Point(cfg, n, 0);
    assert h in c.ring.owner && c.ring.owner[h] == n;
    FromPoint(c.ring.keys, h);
    assert Walk(c.ring, h)[0] == n;
    assert GetNHealthy(cfg, c.ring, key, 2)[0] == n;
  }

  /** Some key is sent to a client if and only if the client is healthy. */
  lemma PickedIff(cfg: Config, apart: set<Node>, c: Core, n: Node)
    requires CoreOk(cfg, apart, c) && n in c.clients && cfg.pointLabel(n, 0) != []
    ensures (exists key :: Picks(cfg, c, key, n)) <==> n !in c.ring.unhealthy
  {
    hide CoreOk, PickPeers;
    if n !in c.ring.unhealthy {
      OwnKey(cfg, apart, c, n);
      assert Picks(cfg, c, cfg.pointLabel(n, 0), n);
    }
    if key :| Picks(cfg, c, key, n) {
      PickIsSound(cfg, apart, c, key);
    }
  }

  /** The timer of a node that is unhealthy when it fires changes no choice of peers. */
  lemma ExpireReroutesNothing(cfg: Config, c: Core, addr: Node, key: Key)
    requires addr in c.ring.unhealthy && addr != []
    ensures PickPeers(cfg, Expire(c, addr), key) == PickPeers(cfg, c, key)
  {
    hide PickPeers, RemoveNode, Walk, Pick;
    HealthMarkIsRemoval(cfg, c.ring, addr, key, 2);
    var nodes := GetNHealthy(cfg, c.ring, key, 2);
    if key != [] {
      PickMembers(Walk(c.ring, cfg.hash(key)), c.ring.unhealthy, 2);
      assert forall i | 0 <= i < |nodes| :: nodes[i] in nodes && nodes[i] != addr;
    }
    PickSame(cfg, c, Expire(c, addr), key);
  }

  lemma PickSame(cfg: Config, c: Core, c': Core, key: Key)
    requires c'.self == c.self && GetNHealthy(cfg, c'.ring, key, 2) == GetNHealthy(cfg, c.ring, key, 2)
    requires var nodes := GetNHealthy(cfg, c.ring, key, 2);
      forall i | 0 <= i < |nodes| :: nodes[i] in c'.clients <==> nodes[i] in c.clients
    ensures PickPeers(cfg, c', key) == PickPeers(cfg, c, key)
  {
    hide GetNHealthy;
  }

  /** The timer of a client changes some choice of peers if and only if the client is
      healthy when it fires. */
  lemma ExpireReroutesIff(cfg: Config, apart: set<Node>, c: Core, addr: Node)
    requires CoreOk(cfg, apart, c) && addr in c.clients && cfg.pointLabel(addr, 0) != []
    ensures (exists key :: PickPeers(cfg, Expire(c, addr), key) != PickPeers(cfg, c, key)) <==>
      addr !in c.ring.unhealthy
  {
    assert addr != [];
    hide CoreOk, PickPeers;
    if addr in c.ring.unhealthy {
      forall key ensures PickPeers(cfg, Expire(c, addr), key) == PickPeers(cfg, c, key) {
        ExpireReroutesNothing(cfg, c, addr, key);
      }
    } else {
      var key := cfg.pointLabel(addr, 0);
      OwnKey(cfg, apart, c, addr);
      ExpireKeepsOk(cfg, apart, c, addr);
      PickIsSound(cfg, apart, Expire(c, addr), key);
      assert PickPeers(cfg, Expire(c, addr), key) != PickPeers(cfg, c, key);
    }
  }

  // ---- The protocol ----

  // A migration, named by its node and by how many times that node had joined
  // when the migration was launched.
  datatype Job = Job(addr: Node, join: nat)

  // The state and the goroutines that are under way.
  datatype Picker = Picker(
    core: Core,
    joins: map<Node, nat>,               // how many times a watch put added each node
    launched: multiset<Job>,     // migrations that have not looked for their client yet
    running: multiset<Job>,      // migrations that found their client
    finished: set<Job>,          // migrations that ran to their end
    timers: multiset<Node>)              // removal timers

  datatype Step =
    | Observe(event: Event)
    | Begin(addr: Node, join: nat)
    | End(addr: Node, join: nat)
    | Fire(addr: Node)

  function Joins(p: Picker, addr: Node): nat {
    if addr in p.joins then p.joins[addr] else 0
  }

  predicate Enabled(p: Picker, s: Step) {
    match s
    case Observe(e) => e.addr != []
    case Begin(addr, join) => Job(addr, join) in p.launched
    case End(addr, join) => Job(addr, join) in p.running
    case Fire(addr) => addr in p.timers
  }

  function Apply(cfg: Config, p: Picker, s: Step): Picker {
    match s
    case Observe(e) =>
      var p' := p.(core := Watch(cfg, p.core, e));
      if IsNew(p.core, e) then
        var join := Joins(p, e.addr) + 1;
        p'.(joins := p.joins[e.addr := join], launched := p.launched + multiset{Job(e.addr, join)})
      else if IsLeaving(p.core, e) then p'.(timers := p.timers + multiset{e.addr})
      else p'
    case Begin(addr, join) =>
      var p' := p.(launched := p.launched - multiset{Job(addr, join)});
      if addr in p.core.clients then p'.(running := p.running + multiset{Job(addr, join)}) else p'
    case End(addr, join) =>
      p.(core := Migrated(p.core, addr), running := p.running - multiset{Job(addr, join)},
         finished := p.finished + {Job(addr, join)})
    case Fire(addr) =>
      p.(core := Expire(p.core, addr), timers := p.timers - multiset{addr})
  }

  /** The initial nodes: each is registered if a client for it can be created. */
  function Fetch(cfg: Config, c: Core, found: seq<(Node, bool)>): Core {
    if found == [] then c
    else
      var before := Fetch(cfg, c, found[..|found| - 1]);
      var (addr, connected) := found[|found| - 1];
      if addr == [] || addr == c.self then before
      else
        var c' := SetNode(cfg, before, addr, connected);
        c'.(ring := MarkHealthy(c'.ring, addr))
  }

  /** The addresses that discovery registers, in order. */
  function Registered(self: Node, found: seq<(Node, bool)>): seq<Node> {
    if found == [] then []
    else
      var (addr, connected) := found[|found| - 1];
      Registered(self, found[..|found| - 1]) + if addr != [] && addr != self && connected then [addr] else []
  }

  /** Discovery makes clients of exactly the addresses that it finds and can connect to,
      this node aside, and leaves them healthy. */
  lemma {:induction false} FetchIs(cfg: Config, c: Core, found: seq<(Node, bool)>, n: Node)
    ensures var c', added := Fetch(cfg, c, found), n != [] && n != c.self && (n, true) in found;
      && (n in c'.clients <==> n in c.clients || added)
      && (n in Registered(c.self, found) <==> added)
      && (n in c'.ring.unhealthy <==> n in c.ring.unhealthy && (n == [] || n == c.self || !Found(found, n)))
  {
    hide AddNode;
    if found != [] {
      var k := |found| - 1;
      FetchSelf(cfg, c, found[..k]);
      FetchIs(cfg, c, found[..k], n);
      FoundNext(found, n);
      AddMarks(cfg, Fetch(cfg, c, found[..k]).ring, found[k].0);
    }
  }

  predicate Found(found: seq<(Node, bool)>, n: Node) {
    exists i :: 0 <= i < |found| && found[i].0 == n
  }

  lemma FoundNext(found: seq<(Node, bool)>, n: Node)
    requires found != []
    ensures var k := |found| - 1;
      && (Found(found, n) <==> Found(found[..k], n) || found[k].0 == n)
      && ((n, true) in found <==> (n, true) in found[..k] || found[k] == (n, true))
  {
    var k := |found| - 1;
    assert found == found[..k] + [found[k]];
  }

  lemma AddMarks(cfg: Config, r: Ring, x: Node)
    ensures AddAll(cfg, r, [x]).unhealthy == r.unhealthy
  {
    assert [x][..0] == [];
  }

  lemma {:induction false} FetchAbsent(cfg: Config, c: Core, found: seq<(Node, bool)>, n: Node)
    requires n !in c.clients && n !in Registered(c.self, found)
    ensures n !in Fetch(cfg, c, found).clients
  {
    hide AddAll;
    if found != [] {
      FetchSelf(cfg, c, found[..|found| - 1]);
      FetchAbsent(cfg, c, found[..|found| - 1], n);
    }
  }

  lemma {:induction false} FetchSelf(cfg: Config, c: Core, found: seq<(Node, bool)>)
    ensures Fetch(cfg, c, found).self == c.self
  {
    hide AddAll;
    if found != [] {
      FetchSelf(cfg, c, found[..|found| - 1]);
    }
  }

  lemma {:induction false} FetchKeepsOk(cfg: Config, apart: set<Node>, c: Core, found: seq<(Node, bool)>)
    requires CoreOk(cfg, apart, c) && c.clients == {} && Unrepeated(Registered(c.self, found))
    requires forall i | 0 <= i < |found| :: found[i].0 in apart
    ensures CoreOk(cfg, apart, Fetch(cfg, c, found))
  {
    hide RingOk, Apart, SetNode, Unrepeated;
    if found != [] {
      var k := |found| - 1;
      var (addr, connected) := found[k];
      var before := Fetch(cfg, c, found[..k]);
      FetchSelf(cfg, c, found[..k]);
      UnrepeatedSnoc(Registered(c.self, found[..k]), addr);
      assert Registered(c.self, found[..k]) + [] == Registered(c.self, found[..k]);
      FetchKeepsOk(cfg, apart, c, found[..k]);
      if addr != [] && addr != c.self {
        if connected {
          FetchAbsent(cfg, c, found[..k], addr);
          FetchOneOk(cfg, apart, before, addr, connected);
        } else {
          NotSet(cfg, before, addr);
          MarkOk(cfg, before.ring, before.ring.unhealthy - {addr});
        }
      }
    }
  }

  lemma NotSet(cfg: Config, c: Core, addr: Node)
    ensures SetNode(cfg, c, addr, false) == c
  {
  }

  /** How often an address is registered, its first point is on the ring. */
  lemma {:induction false} PointsCounted(cfg: Config, c: Core, found: seq<(Node, bool)>, n: Node)
    requires 0 < cfg.defaultReplicas
    ensures multiset(Registered(c.self, found))[n] <= multiset(Fetch(cfg, c, found).ring.keys)[Point(cfg, n, 0)]
  {
    hide Point, AddAll;
    if found != [] {
      var k := |found| - 1;
      var (addr, connected) := found[k];
      PointsCounted(cfg, c, found[..k], n);
      FetchSelf(cfg, c, found[..k]);
      if addr != [] && addr != c.self && connected {
        OnePointMore(cfg, Fetch(cfg, c, found[..k]).ring, addr, n);
        assert multiset(Registered(c.self, found)) == multiset(Registered(c.self, found[..k])) + multiset{addr};
      }
    }
  }

  lemma OnePointMore(cfg: Config, r: Ring, addr: Node, n: Node)
    requires 0 < cfg.defaultReplicas && addr != []
    ensures var h := Point(cfg, n, 0);
      multiset(r.keys)[h] + (if n == addr then 1 else 0) <= multiset(AddAll(cfg, r, [addr]).keys)[h]
  {
    hide Point;
    AddOne(cfg, r, addr);
    var pts := Points(cfg, addr, cfg.defaultReplicas);
    FirstPoint(cfg, addr, cfg.defaultReplicas);
    assert multiset(r.keys + pts) == multiset(r.keys) + multiset(pts);
    assert Point(cfg, addr, 0) in multiset(pts);
  }

  /** Discovery leaves the clients equal to the ring's nodes, and the ring well-formed, if
      and only if it registers no address twice. */
  lemma FetchOk(cfg: Config, apart: set<Node>, c: Core, found: seq<(Node, bool)>)
    requires CoreOk(cfg, apart, c) && c.clients == {}
    requires forall i | 0 <= i < |found| :: found[i].0 in apart
    ensures CoreOk(cfg, apart, Fetch(cfg, c, found)) <==> Unrepeated(Registered(c.self, found))
  {
    hide Apart, Fetch, Point, Registered;
    if Unrepeated(Registered(c.self, found)) {
      FetchKeepsOk(cfg, apart, c, found);
    } else {
      var n := RepeatedTwice(Registered(c.self, found));
      PointsCounted(cfg, c, found, n);
      if StrictlySorted(Fetch(cfg, c, found).ring.keys) {
        DistinctCount(Fetch(cfg, c, found).ring.keys, Point(cfg, n, 0));
      }
    }
  }

  lemma FetchOneOk(cfg: Config, apart: set<Node>, c: Core, addr: Node, connected: bool)
    requires CoreOk(cfg, apart, c) && addr !in c.clients && addr != [] && addr in apart
    ensures var c' := SetNode(cfg, c, addr, connected);
      addr != c.self ==> CoreOk(cfg, apart, c'.(ring := MarkHealthy(c'.ring, addr)))
  {
    hide RingOk, Apart;
    if addr != c.self {
      SetKeepsOk(cfg, apart, c, addr, connected);
      var c' := SetNode(cfg, c, addr, connected);
      MarkOk(cfg, c'.ring, c'.ring.unhealthy - {addr});
    }
  }

  function RunOf(cfg: Config, p: Picker, steps: seq<Step>): Picker {
    if steps == [] then p else Apply(cfg, RunOf(cfg, p, steps[..|steps| - 1]), steps[|steps| - 1])
  }

  /** What a step does to the clients, the marks and the timers of a node: a put of a new
      node makes it a client, if one can be created, and marks it; the end of a client's
      migration takes its mark; a delete event of a client marks it and starts a timer;
      and a timer that fires removes the client with its mark. */
  lemma StepIs(cfg: Config, p: Picker, s: Step, n: Node)
    requires Enabled(p, s) && p.core.self !in p.core.clients
    ensures var c, c' := p.core, Apply(cfg, p, s).core;
      var joins := s.Observe? && s.event.Put? && s.event.addr == n != c.self && n !in c.clients;
      var leaves := s == Observe(Gone(n)) && n in c.clients;
      && (n in c'.clients <==> (n in c.clients && s != Fire(n)) || (joins && s.event.connected))
      && (n in c'.ring.unhealthy <==>
            joins || leaves ||
            (n in c.ring.unhealthy && !(n in c.clients && (s == Fire(n) || (s.End? && s.addr == n)))))
      && Apply(cfg, p, s).timers[n] == p.timers[n] + (if leaves then 1 else 0) - (if s == Fire(n) then 1 else 0)
  {
    hide AddAll, DropOwned, Watch, IsNew;
    match s
    case Observe(e) => WatchIs(cfg, p.core, e, n);
    case Begin(_, _) =>
    case End(_, _) =>
    case Fire(_) =>
  }

  lemma WatchIs(cfg: Config, c: Core, e: Event, n: Node)
    requires c.self !in c.clients
    ensures var c' := Watch(cfg, c, e);
      var joins := e.Put? && e.addr == n != c.self && n !in c.clients;
      && (n in c'.clients <==> n in c.clients || (joins && e.connected))
      && (n in c'.ring.unhealthy <==> joins || (e == Gone(n) && n in c.clients) || n in c.ring.unhealthy)
      && (IsLeaving(c, e) ==> !IsNew(c, e))
  {
    hide AddAll;
    AddMarks(cfg, c.ring, e.addr);
  }

  /** A migration runs exactly if its node is a client when it begins, and is finished when
      it ends. */
  lemma JobsAre(cfg: Config, p: Picker, s: Step, j: Job)
    requires Enabled(p, s)
    ensures var p' := Apply(cfg, p, s);
      var begins, ends := s == Begin(j.addr, j.join), s == End(j.addr, j.join);
      && p'.running[j] == p.running[j] + (if begins && j.addr in p.core.clients then 1 else 0) - (if ends then 1 else 0)
      && (begins ==> p'.launched[j] == p.launched[j] - 1)
      && (j in p'.finished <==> j in p.finished || ends)
  {
    hide Watch, Migrated, Expire, IsLeaving, IsNew;
    match s
    case Observe(_) =>
    case Begin(_, _) =>
    case End(_, _) =>
    case Fire(_) =>
  }

  /** Every step is possible when it is taken. */
  predicate Possible(cfg: Config, p: Picker, steps: seq<Step>) {
    steps == [] ||
    (Possible(cfg, p, steps[..|steps| - 1]) && Enabled(RunOf(cfg, p, steps[..|steps| - 1]), steps[|steps| - 1]))
  }

  predicate AddressesIn(steps: seq<Step>, apart: set<Node>) {
    forall i | 0 <= i < |steps| :: steps[i].Observe? ==> steps[i].event.addr in apart
  }

  /** The picker as discovery leaves it: no watch event seen, nothing under way. */
  function Fresh(core: Core): Picker {
    Picker(core, map[], multiset{}, multiset{}, {}, multiset{})
  }

  lemma ApplyKeepsOk(cfg: Config, apart: set<Node>, p: Picker, s: Step)
    requires CoreOk(cfg, apart, p.core) && Enabled(p, s)
    requires s.Observe? ==> s.event.addr in apart
    ensures CoreOk(cfg, apart, Apply(cfg, p, s).core)
  {
    hide CoreOk, Watch, Migrated, Expire;
    match s
    case Observe(e) => WatchKeepsOk(cfg, apart, p.core, e);
    case Begin(_, _) =>
    case End(addr, _) => MigratedKeepsOk(cfg, apart, p.core, addr);
    case Fire(addr) => ExpireKeepsOk(cfg, apart, p.core, addr);
  }

  /** In every run, at every release of the lock, the clients are the ring's nodes
      and this node is not among them. */
  lemma {:induction false} RunKeepsOk(cfg: Config, apart: set<Node>, p: Picker, steps: seq<Step>)
    requires CoreOk(cfg, apart, p.core) && Possible(cfg, p, steps) && AddressesIn(steps, apart)
    ensures CoreOk(cfg, apart, RunOf(cfg, p, steps).core)
  {
    hide CoreOk, Apply, Enabled;
    if steps != [] {
      var k := |steps| - 1;
      RunKeepsOk(cfg, apart, p, steps[..k]);
      ApplyKeepsOk(cfg, apart, RunOf(cfg, p, steps[..k]), steps[k]);
    }
  }

  // ---- A new node is not used before its migration has ended ----

  /** A registered node that a watch put added last is unhealthy until the migration
      of that join has ended. */
  predicate Guarded(p: Picker, addr: Node) {
    (addr in p.core.clients && 0 < Joins(p, addr) && Job(addr, Joins(p, addr)) !in p.finished)
    ==> addr in p.core.ring.unhealthy
  }

  /** A migration of an earlier join of a node ends during a later one. */
  predicate EndsLate(p: Picker, s: Step, addr: Node) {
    s.End? && s.addr == addr && s.join != Joins(p, addr)
  }

  /** A step that serves a node before the migration of its last join has ended. */
  predicate ServesEarly(p: Picker, s: Step, addr: Node) {
    && EndsLate(p, s, addr) && addr in p.core.clients
    && 0 < Joins(p, addr) && Job(addr, Joins(p, addr)) !in p.finished
  }

  /** The guard is kept by every step but one: the end of a migration of an
      earlier join, and that one breaks it whenever it matters. */
  lemma GuardKept(cfg: Config, p: Picker, s: Step, addr: Node)
    requires Enabled(p, s) && Guarded(p, addr)
    ensures Guarded(Apply(cfg, p, s), addr) <==> !ServesEarly(p, s, addr)
  {
    hide Watch, IsLeaving, IsNew, DropOwned;
    match s
    case Observe(e) => ObserveGuards(cfg, p, e, addr);
    case Begin(_, _) =>
    case End(_, _) =>
    case Fire(_) =>
  }

  lemma ObserveGuards(cfg: Config, p: Picker, e: Event, addr: Node)
    requires e.addr != [] && Guarded(p, addr)
    ensures Guarded(Apply(cfg, p, Observe(e)), addr)
  {
    JoinUnhealthy(cfg, p.core, e);
    JoinsStep(cfg, p, Observe(e), addr);
    ObserveParts(cfg, p, e);
    hide Apply, Watch, Joins;
  }

  lemma ObserveParts(cfg: Config, p: Picker, e: Event)
    ensures var p' := Apply(cfg, p, Observe(e)); p'.finished == p.finished && p'.core == Watch(cfg, p.core, e)
  {
    hide Watch, IsLeaving, IsNew;
  }

  /** The guard holds after the run and after each part of it. */
  predicate GuardedThroughout(cfg: Config, p: Picker, steps: seq<Step>, addr: Node) {
    Guarded(RunOf(cfg, p, steps), addr) &&
    (steps == [] || GuardedThroughout(cfg, p, steps[..|steps| - 1], addr))
  }

  predicate NeverEarly(cfg: Config, p: Picker, steps: seq<Step>, addr: Node) {
    steps == [] ||
    (NeverEarly(cfg, p, steps[..|steps| - 1], addr)
      && !ServesEarly(RunOf(cfg, p, steps[..|steps| - 1]), steps[|steps| - 1], addr))
  }

  /** In every run a joining node is unhealthy until the migration of its last join has
      ended, if and only if no migration of an earlier join ends before that one. */
  lemma {:induction false} GuardedIff(cfg: Config, p: Picker, steps: seq<Step>, addr: Node)
    requires Possible(cfg, p, steps) && Guarded(p, addr)
    ensures GuardedThroughout(cfg, p, steps, addr) <==> NeverEarly(cfg, p, steps, addr)
  {
    hide Guarded, ServesEarly, Apply, Enabled;
    if steps != [] {
      var k := |steps| - 1;
      GuardedIff(cfg, p, steps[..k], addr);
      if GuardedThroughout(cfg, p, steps[..k], addr) {
        GuardKept(cfg, RunOf(cfg, p, steps[..k]), steps[k], addr);
      }
    }
  }

  /** A watch event adds health marks to the ring, never removes them, and a node
      that it adds is marked. */
  lemma JoinUnhealthy(cfg: Config, c: Core, e: Event)
    requires e.addr != []
    ensures var c' := Watch(cfg, c, e);
      && c.ring.unhealthy <= c'.ring.unhealthy
      && (forall n | n in c'.clients && n !in c.clients :: n == e.addr && n in c'.ring.unhealthy)
  {
    AddOne(cfg, c.ring, e.addr);
  }

  predicate UnderWayOrDone(p: Picker, m: Job) {
    m in p.launched || m in p.running || m in p.finished
  }

  /** Every migration belongs to a join that took place. */
  ghost predicate MigrationsJoined(p: Picker) {
    forall m | UnderWayOrDone(p, m) :: 0 < m.join <= Joins(p, m.addr)
  }

  predicate JoinsNow(p: Picker, s: Step, n: Node) {
    s.Observe? && IsNew(p.core, s.event) && s.event.addr == n
  }

  lemma JoinsStep(cfg: Config, p: Picker, s: Step, n: Node)
    ensures Joins(Apply(cfg, p, s), n) == Joins(p, n) + if JoinsNow(p, s, n) then 1 else 0
  {
    hide Watch, Migrated, Expire, IsLeaving, IsNew;
  }

  lemma MigrationStep(cfg: Config, p: Picker, s: Step, m: Job)
    requires Enabled(p, s)
    ensures UnderWayOrDone(Apply(cfg, p, s), m) ==>
      UnderWayOrDone(p, m) || (JoinsNow(p, s, m.addr) && m.join == Joins(p, m.addr) + 1)
  {
    hide Watch, Migrated, Expire, IsLeaving, IsNew, Joins;
    match s
    case Observe(e) =>
    case Begin(addr, join) =>
    case End(addr, join) =>
    case Fire(_) =>
  }

  lemma JoinedKept(cfg: Config, p: Picker, s: Step)
    requires MigrationsJoined(p) && Enabled(p, s)
    ensures MigrationsJoined(Apply(cfg, p, s))
  {
    hide Apply, UnderWayOrDone, JoinsNow, Joins, Enabled;
    forall m | UnderWayOrDone(Apply(cfg, p, s), m) ensures 0 < m.join <= Joins(Apply(cfg, p, s), m.addr) {
      MigrationStep(cfg, p, s, m);
      JoinsStep(cfg, p, s, m.addr);
    }
  }

  /** A node that joined once through a watch put is unhealthy until its migration
      has ended, whatever else happens. */
  lemma {:induction false} GuardedOnce(cfg: Config, core: Core, steps: seq<Step>, addr: Node)
    requires Possible(cfg, Fresh(core), steps)
    requires Joins(RunOf(cfg, Fresh(core), steps), addr) <= 1
    ensures Guarded(RunOf(cfg, Fresh(core), steps), addr) && MigrationsJoined(RunOf(cfg, Fresh(core), steps))
  {
    hide Apply, Guarded, MigrationsJoined;
    FreshIsGuarded(core, addr);
    if steps != [] {
      var k := |steps| - 1;
      var p := RunOf(cfg, Fresh(core), steps[..k]);
      RunJoined(cfg, core, steps[..k]);
      JoinedKept(cfg, p, steps[k]);
      JoinsStep(cfg, p, steps[k], addr);
      GuardedOnce(cfg, core, steps[..k], addr);
      NotLate(p, steps[k], addr);
      GuardKept(cfg, p, steps[k], addr);
    }
  }

  lemma {:induction false} RunJoined(cfg: Config, core: Core, steps: seq<Step>)
    requires Possible(cfg, Fresh(core), steps)
    ensures MigrationsJoined(RunOf(cfg, Fresh(core), steps))
  {
    hide Apply, Enabled, MigrationsJoined;
    if steps == [] {
      FreshIsGuarded(core, []);
    } else {
      var k := |steps| - 1;
      RunJoined(cfg, core, steps[..k]);
      JoinedKept(cfg, RunOf(cfg, Fresh(core), steps[..k]), steps[k]);
    }
  }

  lemma FreshIsGuarded(core: Core, addr: Node)
    ensures Guarded(Fresh(core), addr) && MigrationsJoined(Fresh(core))
  {
  }

  lemma NotLate(p: Picker, s: Step, addr: Node)
    requires MigrationsJoined(p) && Enabled(p, s) && Joins(p, addr) <= 1
    ensures !EndsLate(p, s, addr)
  {
  }

  /** In every run: a node that joined once through a watch put is the primary or
      the replica of no key before its migration has ended. */
  lemma NotServedEarly(cfg: Config, apart: set<Node>, core: Core, steps: seq<Step>, addr: Node, key: Key)
    requires CoreOk(cfg, apart, core) && Possible(cfg, Fresh(core), steps) && AddressesIn(steps, apart)
    requires Joins(RunOf(cfg, Fresh(core), steps), addr) == 1
    requires Job(addr, 1) !in RunOf(cfg, Fresh(core), steps).finished
    ensures var p := PickPeers(cfg, RunOf(cfg, Fresh(core), steps).core, key);
      p.primary != Some(addr) && p.replica != Some(addr)
  {
    hide CoreOk, PickPeers, MigrationsJoined;
    GuardedOnce(cfg, core, steps, addr);
    RunKeepsOk(cfg, apart, Fresh(core), steps);
    PickIsSound(cfg, apart, RunOf(cfg, Fresh(core), steps).core, key);
  }

  // ---- Runs that show where the guarantee ends ----

  lemma RunNext(cfg: Config, p: Picker, steps: seq<Step>, i: nat)
    requires i < |steps|
    ensures RunOf(cfg, p, steps[..i + 1]) == Apply(cfg, RunOf(cfg, p, steps[..i]), steps[i])
    ensures Possible(cfg, p, steps[..i + 1]) <==>
      Possible(cfg, p, steps[..i]) && Enabled(RunOf(cfg, p, steps[..i]), steps[i])
  {
    assert steps[..i + 1][..i] == steps[..i];
  }

  lemma RunEnds(cfg: Config, p: Picker, steps: seq<Step>)
    ensures RunOf(cfg, p, steps[..0]) == p && Possible(cfg, p, steps[..0])
    ensures steps[..|steps|] == steps
  {
  }

  lemma JoinEffect(cfg: Config, p: Picker, x: Node)
    requires x !in p.core.clients && x != p.core.self
    ensures var p', join := Apply(cfg, p, Observe(Put(x, true))), Joins(p, x) + 1;
      && x in p'.core.clients && Joins(p', x) == join && Job(x, join) in p'.launched
      && p'.running == p.running && p'.finished == p.finished && p'.core.self == p.core.self
  {
    hide AddAll;
  }

  lemma BeginEffect(cfg: Config, p: Picker, job: Job)
    requires job in p.launched && job.addr in p.core.clients
    ensures var p' := Apply(cfg, p, Begin(job.addr, job.join));
      p'.core == p.core && job in p'.running && p'.joins == p.joins && p'.finished == p.finished
  {
    hide Watch;
  }

  lemma LeaveEffect(cfg: Config, p: Picker, x: Node)
    requires x in p.core.clients && x != p.core.self
    ensures var p' := Apply(cfg, p, Observe(Gone(x)));
      && p'.core.clients == p.core.clients && p'.core.self == p.core.self && x in p'.timers
      && p'.joins == p.joins && p'.running == p.running && p'.finished == p.finished
  {
    hide SetNode;
  }

  lemma FireEffect(cfg: Config, p: Picker, x: Node)
    requires x in p.timers
    ensures var p' := Apply(cfg, p, Fire(x));
      && x !in p'.core.clients && p'.core.self == p.core.self
      && p'.joins == p.joins && p'.running == p.running && p'.finished == p.finished
  {
    hide RemoveNode, Watch;
  }

  lemma EndEffect(cfg: Config, p: Picker, job: Job)
    requires job in p.running && job.addr in p.core.clients
    ensures var p' := Apply(cfg, p, End(job.addr, job.join));
      && p'.core.clients == p.core.clients && job.addr !in p'.core.ring.unhealthy
      && p'.joins == p.joins && p'.launched == p.launched && p'.timers == p.timers
      && p'.finished == p.finished + {job}
  {
    hide Watch;
  }

  /** With a second join the claim fails: the migration of the first join ends late
      and makes the node healthy while the migration of the second has not begun. */
  lemma RejoinServedEarly(cfg: Config, apart: set<Node>, core: Core, x: Node)
    requires CoreOk(cfg, apart, core) && x !in core.clients && x != core.self && x != [] && x in apart
    requires cfg.pointLabel(x, 0) != []
    ensures var put := Observe(Put(x, true));
      var steps := [put, Begin(x, 1), Observe(Gone(x)), Fire(x), put, End(x, 1)];
      var p := RunOf(cfg, Fresh(core), steps);
      && Possible(cfg, Fresh(core), steps) && !Guarded(p, x) && Job(x, 2) in p.launched
      && PickPeers(cfg, p.core, cfg.pointLabel(x, 0)).primary == Some(x)
  {
    hide CoreOk, PickPeers, RunOf, Possible, Guarded, Apply;
    var put := Observe(Put(x, true));
    var steps := [put, Begin(x, 1), Observe(Gone(x)), Fire(x), put, End(x, 1)];
    RejoinRun(cfg, core, x);
    RunKeepsOk(cfg, apart, Fresh(core), steps);
    OwnKey(cfg, apart, RunOf(cfg, Fresh(core), steps).core, x);
  }

  lemma RejoinRun(cfg: Config, core: Core, x: Node)
    requires x !in core.clients && x != core.self && x != []
    ensures var put := Observe(Put(x, true));
      var steps := [put, Begin(x, 1), Observe(Gone(x)), Fire(x), put, End(x, 1)];
      var p := RunOf(cfg, Fresh(core), steps);
      && Possible(cfg, Fresh(core), steps) && !Guarded(p, x)
      && x in p.core.clients && x !in p.core.ring.unhealthy && Job(x, 2) in p.launched
  {
    hide Apply, RunOf, Possible;
    var put, p := Observe(Put(x, true)), Fresh(core);
    var steps := [put, Begin(x, 1), Observe(Gone(x)), Fire(x), put, End(x, 1)];
    RunEnds(cfg, p, steps);
    RunNext(cfg, p, steps, 0);
    JoinEffect(cfg, p, x);
    RunNext(cfg, p, steps, 1);
    BeginEffect(cfg, RunOf(cfg, p, steps[..1]), Job(x, 1));
    RunNext(cfg, p, steps, 2);
    LeaveEffect(cfg, RunOf(cfg, p, steps[..2]), x);
    RunNext(cfg, p, steps, 3);
    FireEffect(cfg, RunOf(cfg, p, steps[..3]), x);
    RunNext(cfg, p, steps, 4);
    JoinEffect(cfg, RunOf(cfg, p, steps[..4]), x);
    RunNext(cfg, p, steps, 5);
    EndEffect(cfg, RunOf(cfg, p, steps[..5]), Job(x, 1));
  }

  predicate NoFire(steps: seq<Step>, addr: Node) {
    forall i | 0 <= i < |steps| :: steps[i] != Fire(addr)
  }

  lemma WatchClients(cfg: Config, c: Core, e: Event)
    ensures c.clients <= Watch(cfg, c, e).clients
  {
    hide AddAll;
  }

  lemma LeavingStays(cfg: Config, p: Picker, s: Step, addr: Node)
    requires addr in p.core.clients && s != Fire(addr)
    ensures addr in Apply(cfg, p, s).core.clients && !JoinsNow(p, s, addr)
  {
    hide Watch, RemoveNode, IsLeaving, Joins;
    if s.Observe? {
      WatchClients(cfg, p.core, s.event);
    }
  }

  lemma TimerStays(cfg: Config, p: Picker, s: Step, addr: Node)
    requires addr in p.timers && s != Fire(addr)
    ensures addr in Apply(cfg, p, s).timers
  {
    hide Watch, Migrated, Expire, IsNew, IsLeaving, Joins;
  }

  /** Once a node is leaving, nothing that happens before its timer fires keeps it:
      puts of its address are ignored, and the timer then removes it. */
  lemma {:induction false} LeavingIsFinal(cfg: Config, p: Picker, steps: seq<Step>, addr: Node)
    requires addr in p.core.clients && addr in p.timers && NoFire(steps, addr)
    ensures var p' := RunOf(cfg, p, steps);
      && addr in p'.core.clients && addr in p'.timers && Joins(p', addr) == Joins(p, addr)
      && addr !in Apply(cfg, p', Fire(addr)).core.clients
  {
    hide Apply, Joins, JoinsNow;
    if steps != [] {
      var k := |steps| - 1;
      LeavingIsFinal(cfg, p, steps[..k], addr);
      LeavingStays(cfg, RunOf(cfg, p, steps[..k]), steps[k], addr);
      TimerStays(cfg, RunOf(cfg, p, steps[..k]), steps[k], addr);
      JoinsStep(cfg, RunOf(cfg, p, steps[..k]), steps[k], addr);
    }
    FireEffect(cfg, RunOf(cfg, p, steps), addr);
  }

  /** Of all steps, exactly the end of a migration of a leaving node makes it healthy
      again; it is still to be removed then. */
  lemma LeavingStep(cfg: Config, p: Picker, s: Step, addr: Node)
    requires Enabled(p, s) && addr in p.core.clients && addr in p.core.ring.unhealthy
    ensures var c := Apply(cfg, p, s).core;
      && (addr in c.clients <==> s != Fire(addr))
      && (addr in c.clients && addr !in c.ring.unhealthy <==> s.End? && s.addr == addr)
  {
    hide DropOwned;
    match s
    case Observe(e) =>
      WatchClients(cfg, p.core, e);
      JoinUnhealthy(cfg, p.core, e);
      hide Watch, IsLeaving, IsNew;
    case Begin(_, _) =>
    case End(_, _) =>
    case Fire(_) =>
  }

  predicate NoEnd(steps: seq<Step>, addr: Node) {
    forall i | 0 <= i < |steps| :: !(steps[i].End? && steps[i].addr == addr)
  }

  /** After the run and after each part of it, no key is sent to the node. */
  ghost predicate NeverPicked(cfg: Config, p: Picker, steps: seq<Step>, addr: Node) {
    && (forall key :: !Picks(cfg, RunOf(cfg, p, steps).core, key, addr))
    && (steps == [] || NeverPicked(cfg, p, steps[..|steps| - 1], addr))
  }

  lemma NoStepSnoc(steps: seq<Step>, addr: Node)
    requires steps != []
    ensures var k := |steps| - 1;
      && (NoEnd(steps, addr) <==> NoEnd(steps[..k], addr) && !(steps[k].End? && steps[k].addr == addr))
      && (NoFire(steps, addr) <==> NoFire(steps[..k], addr) && steps[k] != Fire(addr))
  {
    var k := |steps| - 1;
    assert forall i | 0 <= i < k :: steps[..k][i] == steps[i];
  }

  lemma {:induction false} LeavingIsClient(cfg: Config, p: Picker, steps: seq<Step>, addr: Node)
    requires addr in p.core.clients && NoFire(steps, addr)
    ensures addr in RunOf(cfg, p, steps).core.clients
  {
    hide Apply, JoinsNow;
    if steps != [] {
      var k := |steps| - 1;
      LeavingIsClient(cfg, p, steps[..k], addr);
      LeavingStays(cfg, RunOf(cfg, p, steps[..k]), steps[k], addr);
    }
  }

  /** In every run up to its removal, a leaving node is primary or replica of no key, all
      the time, if and only if no migration to it ends in between. */
  lemma {:induction false} LeavingUnserved(cfg: Config, apart: set<Node>, p: Picker, steps: seq<Step>, addr: Node)
    requires CoreOk(cfg, apart, p.core) && Possible(cfg, p, steps) && AddressesIn(steps, apart)
    requires addr in p.core.clients && addr in p.core.ring.unhealthy && NoFire(steps, addr)
    requires cfg.pointLabel(addr, 0) != []
    ensures NeverPicked(cfg, p, steps, addr) <==> NoEnd(steps, addr)
  {
    hide CoreOk, Picks, Apply, Enabled, NoEnd, NoFire;
    RunKeepsOk(cfg, apart, p, steps);
    LeavingIsClient(cfg, p, steps, addr);
    PickedIff(cfg, apart, RunOf(cfg, p, steps).core, addr);
    if steps == [] {
      NoStepsAt(addr);
    } else {
      var k := |steps| - 1;
      var before := RunOf(cfg, p, steps[..k]);
      NoStepSnoc(steps, addr);
      LeavingUnserved(cfg, apart, p, steps[..k], addr);
      RunKeepsOk(cfg, apart, p, steps[..k]);
      LeavingIsClient(cfg, p, steps[..k], addr);
      PickedIff(cfg, apart, before.core, addr);
      if NeverPicked(cfg, p, steps[..k], addr) {
        LeavingStep(cfg, before, steps[k], addr);
      }
    }
  }

  lemma NoStepsAt(addr: Node)
    ensures NoEnd([], addr)
  {
  }

  /** And such runs exist: whenever a migration of a client is running, the node can leave,
      be served again when the migration ends, and still be waiting for its removal. */
  lemma LeavingServedAgain(cfg: Config, apart: set<Node>, p: Picker, addr: Node, join: nat)
    requires CoreOk(cfg, apart, p.core) && Job(addr, join) in p.running && addr in p.core.clients
    requires addr != [] && addr in apart && cfg.pointLabel(addr, 0) != []
    ensures var steps := [Observe(Gone(addr)), End(addr, join)];
      var p' := RunOf(cfg, p, steps);
      && Possible(cfg, p, steps) && addr in p'.timers
      && PickPeers(cfg, p'.core, cfg.pointLabel(addr, 0)).primary == Some(addr)
  {
    var steps := [Observe(Gone(addr)), End(addr, join)];
    RunEnds(cfg, p, steps);
    RunNext(cfg, p, steps, 0);
    hide CoreOk, PickPeers, Apply, RunOf, Possible;
    LeaveEffect(cfg, p, addr);
    RunNext(cfg, p, steps, 1);
    EndEffect(cfg, RunOf(cfg, p, steps[..1]), Job(addr, join));
    RunKeepsOk(cfg, apart, p, steps);
    OwnKey(cfg, apart, RunOf(cfg, p, steps).core, addr);
  }
}
