/** What a write causes at other nodes: which requests a task sends, how they are
    marked, and why they cause no further ones. */
module Propagation {
  import opened Basics
  import opened Ring
  import opened RingRoutes
  import opened ConsistentHash
  import opened Membership
  import opened SyncPool

  // ---- The marks travel with a request ----

  // The metadata of a call: names with values, in order.
  type Metadata = seq<(string, string)>

  /** What the client attaches to a call for the marks of its context. */
  function Propagate(ctx: Context): Metadata {
    (if ctx.fromPeer then [("from-peer", "true")] else []) +
    (if ctx.fromMigration then [("from-migration", "true")] else [])
  }

  function Values(md: Metadata, name: string): seq<string> {
    if md == [] then []
    else (if md[0].0 == name then [md[0].1] else []) + Values(md[1..], name)
  }

  predicate Marked(md: Metadata, name: string) {
    var vals := Values(md, name);
    |vals| > 0 && vals[0] == "true"
  }

  /** The context that the server makes of the metadata of a call. */
  function Decorate(md: Metadata): Context {
    Context(Marked(md, "from-peer"), Marked(md, "from-migration"))
  }

  /** A request arrives with exactly the marks it was sent with. */
  lemma MarksArrive(ctx: Context)
    ensures Decorate(Propagate(ctx)) == ctx
  {
    var peer, migration := ("from-peer", "true"), ("from-migration", "true");
    assert "from-peer"[5] != "from-migration"[5];
    assert [peer, migration][1..] == [migration];
    assert [migration][1..] == [] && [peer][1..] == [];
    assert Values([], "from-peer") == [] && Values([], "from-migration") == [];
    assert Values([migration], "from-peer") == [] && Values([migration], "from-migration") == ["true"];
    assert Values([peer], "from-migration") == [] && Values([peer], "from-peer") == ["true"];
    assert Values([peer, migration], "from-peer") == ["true"];
    assert Values([peer, migration], "from-migration") == ["true"];
    var none: Metadata := [];
    assert Propagate(ctx) ==
      if ctx.fromPeer then (if ctx.fromMigration then [peer, migration] else [peer])
      else (if ctx.fromMigration then [migration] else none);
  }

  /** The names under which the marks travel. */
  lemma MarksWritten(ctx: Context)
    ensures ("from-peer", "true") in Propagate(ctx) <==> ctx.fromPeer
    ensures ("from-migration", "true") in Propagate(ctx) <==> ctx.fromMigration
    ensures |Propagate(ctx)| == (if ctx.fromPeer then 1 else 0) + if ctx.fromMigration then 1 else 0
  {
    assert "from-peer"[5] != "from-migration"[5];
  }

  /** Any metadata is read in the same way: a mark is there if the first value under its name
      is "true". */
  lemma MarksRead(md: Metadata)
    ensures Decorate(md).fromPeer <==> FirstIsTrue(md, "from-peer")
    ensures Decorate(md).fromMigration <==> FirstIsTrue(md, "from-migration")
  {
    FirstValue(md, "from-peer");
    FirstValue(md, "from-migration");
  }

  predicate FirstIsTrue(md: Metadata, name: string) {
    exists i :: 0 <= i < |md| && md[i] == (name, "true") && forall j | 0 <= j < i :: md[j].0 != name
  }

  lemma {:induction false} FirstValue(md: Metadata, name: string)
    ensures Marked(md, name) <==> FirstIsTrue(md, name)
  {
    if md != [] {
      var rest := md[1..];
      FirstValue(rest, name);
      if md[0].0 == name {
        assert FirstIsTrue(md, name) <==> md[0] == (name, "true");
      } else {
        if i :| 0 <= i < |rest| && rest[i] == (name, "true") && forall j | 0 <= j < i :: rest[j].0 != name {
          assert md[i + 1] == rest[i] && forall j | 0 < j < i + 1 :: md[j] == rest[j - 1];
        }
        if i :| 0 <= i < |md| && md[i] == (name, "true") && forall j | 0 <= j < i :: md[j].0 != name {
          assert rest[i - 1] == md[i] && forall j | 0 <= j < i - 1 :: rest[j] == md[j + 1];
        }
      }
    }
  }

  // ---- The requests of a task ----

  datatype Picked = Picked(peer: Node, ok: bool, isSelf: bool)

  /** The peers of a group: which of the optional interfaces they have, and what
      these return. */
  datatype Peering = Peering(
    replicaAware: bool,
    broadcasts: bool,
    pick: Key -> Picked,
    pickWithFallback: Key -> Peers,
    all: seq<Node>)

  datatype Op = OpSet(value: seq<byte>) | OpDelete

  /** A request as it arrives at a node. */
  datatype Delivery = Delivery(to: Node, request: Request)

  const SYNC_CONTEXT := Context(true, false)

  function Deliver(to: Node, op: Op, key: Key): Delivery {
    var ctx := Decorate(Propagate(SYNC_CONTEXT));
    Delivery(to, match op
                 case OpSet(value) => SetRequest(ctx, key, value)
                 case OpDelete => DeleteRequest(ctx, key))
  }

  function SyncToPeers(pp: Peering, op: Op, key: Key): seq<Delivery> {
    var p := pp.pick(key);
    if !p.ok || p.isSelf then [] else [Deliver(p.peer, op, key)]
  }

  /** Sends to the primary, unless it is this node, and to a replica other than it. */
  function SyncWithReplica(pp: Peering, op: Op, key: Key): seq<Delivery> {
    if !pp.replicaAware then SyncToPeers(pp, op, key)
    else
      var p := pp.pickWithFallback(key);
      if !p.ok then []
      else
        (if !p.isSelf && p.primary.Some? then [Deliver(p.primary.value, op, key)] else []) +
        (if p.replica.Some? && p.replica != p.primary then [Deliver(p.replica.value, op, key)] else [])
  }

  function DeliverAll(nodes: seq<Node>, op: Op, key: Key): (d: seq<Delivery>)
    ensures |d| == |nodes|
  {
    seq(|nodes|, i requires 0 <= i < |nodes| => Deliver(nodes[i], op, key))
  }

  function BroadcastDelete(pp: Peering, key: Key): seq<Delivery> {
    if pp.broadcasts then DeliverAll(pp.all, OpDelete, key) else SyncWithReplica(pp, OpDelete, key)
  }

  function ProcessTask(pp: Peering, task: Task): seq<Delivery> {
    match task
    case SetTask(key, value) => SyncWithReplica(pp, OpSet(value), key)
    case BroadcastDelete(key) => BroadcastDelete(pp, key)
  }

  /** What a request of a task is: the task's operation on its key, marked. */
  function MarkedRequest(task: Task): Request {
    match task
    case SetTask(key, value) => SetRequest(SYNC_CONTEXT, key, value)
    case BroadcastDelete(key) => DeleteRequest(SYNC_CONTEXT, key)
  }

  /** Every request of a task carries its operation and the mark of a peer, and leads
      to no task where it arrives. */
  lemma NoCascade(pp: Peering, task: Task, hasPeers: bool)
    ensures forall d | d in ProcessTask(pp, task) ::
      d.request == MarkedRequest(task) && TaskFor(hasPeers, d.request) == None
  {
    MarksArrive(SYNC_CONTEXT);
  }

  /** With replica-aware peers a set is sent to at most two nodes, and not twice to one. */
  lemma SetSendsTwice(pp: Peering, key: Key, value: seq<byte>)
    ensures |ProcessTask(pp, SetTask(key, value))| <= 2
    ensures var ds := ProcessTask(pp, SetTask(key, value));
      pp.replicaAware && |ds| == 2 ==> ds[0].to != ds[1].to
  {
  }

  function Recipients(ds: seq<Delivery>): (nodes: seq<Node>)
    ensures |nodes| == |ds|
  {
    seq(|ds|, i requires 0 <= i < |ds| => ds[i].to)
  }

  /** The client picker as a peering: it has both optional interfaces. */
  function PeeringOf(cfg: Config, c: Core, pick: Key -> Picked, all: seq<Node>): Peering {
    Peering(true, true, pick, key => PickPeers(cfg, c, key), all)
  }

  lemma SetRecipients(cfg: Config, apart: set<Node>, c: Core, pp: Peering, key: Key, value: seq<byte>)
    requires CoreOk(cfg, apart, c) && key != []
    requires pp.replicaAware && pp.pickWithFallback(key) == PickPeers(cfg, c, key)
    ensures Recipients(ProcessTask(pp, SetTask(key, value))) == GetNHealthy(cfg, c.ring, key, 2)
  {
    hide RingOk, Apart, GetNHealthy, GetN, Propagate, Decorate;
    var nodes := GetNHealthy(cfg, c.ring, key, 2);
    LookupSizes(cfg, c.ring, key, 2);
    assert forall i | 0 <= i < |nodes| :: nodes[i] in nodes;
  }

  lemma DeleteRecipients(pp: Peering, key: Key)
    requires pp.broadcasts
    ensures Recipients(ProcessTask(pp, SyncPool.BroadcastDelete(key))) == pp.all
  {
    hide Propagate, Decorate;
  }

  /** With the client picker a set goes exactly to the two nodes that the ring routes
      the key to, in order, and a delete to every client once and never to this node. */
  lemma RecipientsAre(cfg: Config, apart: set<Node>, c: Core, pick: Key -> Picked, peers: seq<Node>,
                      key: Key, value: seq<byte>)
    requires CoreOk(cfg, apart, c) && key != [] && ArePeers(c, peers)
    ensures var pp := PeeringOf(cfg, c, pick, peers);
      var deletes := Recipients(ProcessTask(pp, SyncPool.BroadcastDelete(key)));
      && Recipients(ProcessTask(pp, SetTask(key, value))) == GetNHealthy(cfg, c.ring, key, 2)
      && (forall n :: multiset(deletes)[n] == if n in c.clients then 1 else 0)
      && c.self !in deletes
  {
    hide RingOk, Apart, GetNHealthy, ProcessTask, Recipients, PickPeers;
    var pp := PeeringOf(cfg, c, pick, peers);
    SetRecipients(cfg, apart, c, pp, key, value);
    DeleteRecipients(pp, key);
    assert c.self in peers <==> c.self in multiset(peers);
  }

  // ---- Everything that one request causes ----

  /** What is still to be done somewhere in the cluster. */
  datatype Item = Asked(request: Request) | Queued(task: Task)

  function AskAll(ds: seq<Delivery>): (items: seq<Item>)
    ensures |items| == |ds|
  {
    seq(|ds|, i requires 0 <= i < |ds| => Asked(ds[i].request))
  }

  /** What an item leads to, at a node with these peers. */
  function Next(pp: Peering, hasPeers: bool, item: Item): seq<Item> {
    match item
    case Asked(r) => if TaskFor(hasPeers, r).Some? then [Queued(TaskFor(hasPeers, r).value)] else []
    case Queued(task) => AskAll(ProcessTask(pp, task))
  }

  // One step anywhere in the cluster: item i is dealt with at a node with these
  // peers, or lost: refused, dropped for lack of room, or not delivered.
  datatype Move = Move(i: nat, pp: Peering, hasPeers: bool, lost: bool)

  function Do(items: seq<Item>, m: Move): seq<Item>
    requires m.i < |items|
  {
    Without(items, m.i) + if m.lost then [] else Next(m.pp, m.hasPeers, items[m.i])
  }

  predicate Possible(items: seq<Item>, moves: seq<Move>, n: nat)
    decreases |moves|
  {
    moves == [] ||
    (moves[0].i < |items| && |moves[0].pp.all| <= n && Possible(Do(items, moves[0]), moves[1..], n))
  }

  function RunOf(items: seq<Item>, moves: seq<Move>, n: nat): seq<Item>
    requires Possible(items, moves, n)
    decreases |moves|
  {
    if moves == [] then items else RunOf(Do(items, moves[0]), moves[1..], n)
  }

  /** How many steps an item can still cause, itself included, if no node has more
      than n peers. */
  function Weight(n: nat, item: Item): nat {
    match item
    case Asked(r) =>
      if r.ctx.fromPeer || r.ctx.fromMigration then 1
      else if r.SetRequest? then 4
      else if n < 2 then 4 else n + 2
    case Queued(task) => if task.SetTask? || n < 2 then 3 else n + 1
  }

  function Total(n: nat, items: seq<Item>): nat {
    if items == [] then 0 else Weight(n, items[0]) + Total(n, items[1..])
  }

  lemma {:induction false} TotalConcat(n: nat, a: seq<Item>, b: seq<Item>)
    ensures Total(n, a + b) == Total(n, a) + Total(n, b)
  {
    if a == [] {
      assert a + b == b;
    } else {
      TotalConcat(n, a[1..], b);
      assert (a + b)[1..] == a[1..] + b;
    }
  }

  lemma TotalWithout(n: nat, items: seq<Item>, i: nat)
    requires i < |items|
    ensures Total(n, items) == Total(n, Without(items, i)) + Weight(n, items[i])
  {
    hide Weight;
    assert items == items[..i] + [items[i]] + items[i + 1..];
    TotalConcat(n, items[..i] + [items[i]], items[i + 1..]);
    TotalConcat(n, items[..i], [items[i]]);
    TotalConcat(n, items[..i], items[i + 1..]);
  }

  lemma {:induction false} AllMarked(n: nat, items: seq<Item>)
    requires forall item | item in items :: Weight(n, item) == 1
    ensures Total(n, items) == |items|
  {
    if items != [] {
      assert items[0] in items && forall item | item in items[1..] :: item in items;
      AllMarked(n, items[1..]);
    }
  }

  lemma TaskCount(pp: Peering, task: Task, n: nat)
    requires |pp.all| <= n
    ensures |ProcessTask(pp, task)| < Weight(n, Queued(task))
  {
  }

  lemma NextIsLess(pp: Peering, hasPeers: bool, item: Item, n: nat)
    requires |pp.all| <= n
    ensures Total(n, Next(pp, hasPeers, item)) < Weight(n, item)
  {
    hide ProcessTask;
    match item
    case Asked(r) =>
      if TaskFor(hasPeers, r).Some? {
        var q := Queued(TaskFor(hasPeers, r).value);
        assert Total(n, [q]) == Weight(n, q) + Total(n, [q][1..]);
      }
    case Queued(task) =>
      var ds := ProcessTask(pp, task);
      NoCascade(pp, task, hasPeers);
      TaskCount(pp, task, n);
      forall x | x in AskAll(ds) ensures Weight(n, x) == 1 {
        var i :| 0 <= i < |ds| && x == Asked(ds[i].request);
        assert ds[i] in ds;
      }
      AllMarked(n, AskAll(ds));
  }

  /** Every step brings the end closer, so what is to be done anywhere ends after a
      number of steps that was bounded from the start. */
  lemma {:induction false} PropagationEnds(items: seq<Item>, moves: seq<Move>, n: nat)
    requires Possible(items, moves, n)
    ensures |moves| + Total(n, RunOf(items, moves, n)) <= Total(n, items)
    decreases |moves|
  {
    hide Weight, Next, Total;
    if moves != [] {
      var m := moves[0];
      TotalWithout(n, items, m.i);
      NextIsLess(m.pp, m.hasPeers, items[m.i], n);
      NothingTotal(n);
      TotalConcat(n, Without(items, m.i), if m.lost then [] else Next(m.pp, m.hasPeers, items[m.i]));
      PropagationEnds(Do(items, m), moves[1..], n);
    }
  }

  lemma NothingTotal(n: nat)
    ensures Total(n, []) == 0
  {
  }

  /** One set by a client causes at most four steps in the whole cluster: the set, its
      task and two requests to peers. A set by a peer or a migration causes only itself,
      and a delete by a client at most two more than there are peers. */
  lemma OneRequest(r: Request, moves: seq<Move>, n: nat)
    requires 2 <= n && Possible([Asked(r)], moves, n)
    ensures |moves| <= if r.ctx.fromPeer || r.ctx.fromMigration then 1 else if r.SetRequest? then 4 else n + 2
  {
    PropagationEnds([Asked(r)], moves, n);
    assert Total(n, [Asked(r)]) == Weight(n, Asked(r)) + Total(n, [Asked(r)][1..]);
  }
}
