/** From a client's write to the peers it is sent to: the write leads to its task, the task
    is carried out, and every node that it concerns gets a marked request. */
module WriteArrives {
  import opened Basics
  import opened Ring
  import opened RingRoutes
  import opened ConsistentHash
  import opened Membership
  import opened SyncPool
  import opened Propagation
  import opened GroupSync

  const FROM_PEER := Context(true, false)

  /** What a write asks of the peers. */
  function Wanted(r: Request): Task {
    if r.SetRequest? then SetTask(r.key, r.value) else SyncPool.Task.BroadcastDelete(r.key)
  }

  /** An open group with peers takes a client's write with a key, and with a value if it is
      a set, and will offer its task; any other request leads to no task. */
  lemma ClientWriteAdmitted(hasPeers: bool, p: Pool, r: Request)
    ensures var p' := SyncPool.Apply(hasPeers, p, Admit(r));
      var client := !r.ctx.fromPeer && !r.ctx.fromMigration && hasPeers;
      var accepted := !p.closed && r.key != [] && (r.SetRequest? ==> r.value != []);
      p' == if client && accepted then p.(producers := p.producers + multiset{Wanted(r)}) else p
  {
  }

  /** A task that the queue has room for, offered before all workers have returned, has been
      carried out at every point of every run that follows at which they have. */
  lemma OfferedIsProcessed(hasPeers: bool, p: Pool, task: Task, steps: seq<SyncPool.Step>)
    requires Conserved(p) && Drained(p) && Settled(p) && task in p.producers && |p.queue| < 1024
    requires !AllReturned(p)
    requires SyncPool.Possible(hasPeers, SyncPool.Apply(hasPeers, p, Offer(task)), steps)
    requires AllReturned(SyncPool.RunOf(hasPeers, SyncPool.Apply(hasPeers, p, Offer(task)), steps))
    ensures task in SyncPool.RunOf(hasPeers, SyncPool.Apply(hasPeers, p, Offer(task)), steps).processed
  {
    hide Conserved, Drained, Settled, AllReturned, SyncPool.Apply;
    CarriedOutIff(hasPeers, p, task, steps);
    var p' := SyncPool.RunOf(hasPeers, SyncPool.Apply(hasPeers, p, Offer(task)), steps);
    var base := p.accepted + [task];
    assert base[|p.accepted|] == task && task in p'.taken;
    assert task in multiset(p'.taken);
  }

  /** A delete that is carried out asks every peer that the group knows to delete the key,
      marked as a request of a peer; and it asks nothing else. */
  lemma DeleteAsksAll(pp: Peering, key: Key, d: Delivery)
    requires pp.broadcasts
    ensures d in ProcessTask(pp, SyncPool.Task.BroadcastDelete(key)) <==>
      d.to in pp.all && d.request == DeleteRequest(FROM_PEER, key)
  {
    MarksArrive(FROM_PEER);
    var ds := DeliverAll(pp.all, OpDelete, key);
    if d.to in pp.all && d.request == DeleteRequest(FROM_PEER, key) {
      var i :| 0 <= i < |pp.all| && pp.all[i] == d.to;
      assert ds[i] == d;
    }
  }

  /** A group whose peers cannot list all others sends a delete where it would send a set. */
  lemma DeleteAsksPeers(pp: Peering, key: Key, value: seq<byte>, to: Node)
    requires !pp.broadcasts
    ensures Delivery(to, DeleteRequest(FROM_PEER, key)) in ProcessTask(pp, SyncPool.Task.BroadcastDelete(key)) <==>
      Delivery(to, SetRequest(FROM_PEER, key, value)) in ProcessTask(pp, SetTask(key, value))
  {
    MarksArrive(FROM_PEER);
  }

  /** The bound on what one delete causes is reached: if nothing is lost, then after the
      request and its task every one of the n peers has a request to delete the key. */
  lemma DeleteCauses(pp: Peering, key: Key)
    requires pp.broadcasts
    ensures var items := [Asked(DeleteRequest(Context(false, false), key))];
      var moves := [Move(0, pp, true, false), Move(0, pp, true, false)];
      && Propagation.Possible(items, moves, |pp.all|)
      && |Propagation.RunOf(items, moves, |pp.all|)| == |pp.all|
      && forall i | 0 <= i < |pp.all| ::
          Propagation.RunOf(items, moves, |pp.all|)[i] == Asked(DeleteRequest(FROM_PEER, key))
  {
    MarksArrive(FROM_PEER);
    var r, task := DeleteRequest(Context(false, false), key), SyncPool.Task.BroadcastDelete(key);
    var m := Move(0, pp, true, false);
    assert [m, m][1..] == [m] && [m][1..] == [];
    assert Do([Asked(r)], m) == [Queued(task)];
    var asked := AskAll(ProcessTask(pp, task));
    assert Do([Queued(task)], m) == asked;
    assert Propagation.RunOf([Queued(task)], [m], |pp.all|) == Propagation.RunOf(asked, [], |pp.all|) == asked;
  }

  /** A set that is carried out asks the primary, unless it is this node, and the replica,
      unless it is the primary, if the key has peers; without replicas it asks the one peer
      that is picked, unless that is this node. */
  lemma SetAsks(pp: Peering, key: Key, value: seq<byte>, d: Delivery)
    ensures var p, one := pp.pickWithFallback(key), pp.pick(key);
      var isPrimary := p.primary == Some(d.to) && !p.isSelf;
      var isReplica := p.replica == Some(d.to) && p.primary != Some(d.to);
      d in ProcessTask(pp, SetTask(key, value)) <==>
        && d.request == SetRequest(FROM_PEER, key, value)
        && if pp.replicaAware then p.ok && (isPrimary || isReplica) else one.ok && !one.isSelf && d.to == one.peer
  {
    MarksArrive(FROM_PEER);
  }

  /** A delete that a client asks of a group whose peers are those of the client picker, once
      it is carried out, has been sent to every client, and to no other node. */
  lemma DeleteReachesClients(cfg: Config, c: Core, pick: Key -> Picked, peers: seq<Node>, key: Key, n: Node)
    requires ArePeers(c, peers)
    ensures var ds := ProcessTask(PeeringOf(cfg, c, pick, peers), SyncPool.Task.BroadcastDelete(key));
      Delivery(n, DeleteRequest(FROM_PEER, key)) in ds <==> n in c.clients && n != c.self
  {
    DeleteAsksAll(PeeringOf(cfg, c, pick, peers), key, Delivery(n, DeleteRequest(FROM_PEER, key)));
    assert n in peers <==> n in multiset(peers);
  }

  /** From the client's delete to the peers: in every run of a pool that is open when it
      comes, and that has room when its task is offered, all clients have been asked to
      delete the key where all workers have returned. */
  lemma ClientDeleteArrives(cfg: Config, c: Core, pick: Key -> Picked, peers: seq<Node>,
                            p: Pool, key: Key, before: seq<SyncPool.Step>, after: seq<SyncPool.Step>)
    requires ArePeers(c, peers) && key != []
    requires Conserved(p) && Drained(p) && Settled(p) && !p.closed
    requires var p1 := SyncPool.Apply(true, p, Admit(DeleteRequest(Context(false, false), key)));
      && SyncPool.Possible(true, p1, before)
      && var p2 := SyncPool.RunOf(true, p1, before); var task := SyncPool.Task.BroadcastDelete(key);
      && task in p2.producers && |p2.queue| < 1024 && !AllReturned(p2)
      && SyncPool.Possible(true, SyncPool.Apply(true, p2, Offer(task)), after)
      && AllReturned(SyncPool.RunOf(true, SyncPool.Apply(true, p2, Offer(task)), after))
    ensures var task := SyncPool.Task.BroadcastDelete(key);
      var p1 := SyncPool.Apply(true, p, Admit(DeleteRequest(Context(false, false), key)));
      var p2 := SyncPool.RunOf(true, p1, before);
      && task in p1.producers
      && task in SyncPool.RunOf(true, SyncPool.Apply(true, p2, Offer(task)), after).processed
      && forall n | n in c.clients && n != c.self ::
          Delivery(n, DeleteRequest(FROM_PEER, key)) in ProcessTask(PeeringOf(cfg, c, pick, peers), task)
  {
    hide Conserved, Drained, Settled, AllReturned, ArePeers, ProcessTask, PeeringOf, SyncPool.Apply;
    var r, task := DeleteRequest(Context(false, false), key), SyncPool.Task.BroadcastDelete(key);
    var p1 := SyncPool.Apply(true, p, Admit(r));
    ClientWriteAdmitted(true, p, r);
    StepConserves(true, p, Admit(r));
    StepDrains(true, p, Admit(r));
    StepSettles(true, p, Admit(r));
    RunKeeps(true, p1, before);
    OfferedIsProcessed(true, SyncPool.RunOf(true, p1, before), task, after);
    forall n | n in c.clients && n != c.self
      ensures Delivery(n, DeleteRequest(FROM_PEER, key)) in ProcessTask(PeeringOf(cfg, c, pick, peers), task)
    {
      DeleteReachesClients(cfg, c, pick, peers, key, n);
    }
  }

  // ---- Draining the queue ----

  /** Draining sends the requests of every task of the queue, and no others. */
  lemma {:induction false} DrainSends(pp: Peering, tasks: seq<Task>, d: Delivery)
    ensures d in ProcessAll(pp, tasks) <==> exists task :: task in tasks && d in ProcessTask(pp, task)
  {
    hide ProcessTask;
    if tasks != [] {
      DrainSends(pp, tasks[1..], d);
      assert tasks == [tasks[0]] + tasks[1..];
    }
  }

  /** It carries the tasks out in the order of the queue, each once. */
  lemma {:induction false} DrainInOrder(pp: Peering, a: seq<Task>, task: Task, b: seq<Task>)
    ensures ProcessAll(pp, a + [task] + b) == ProcessAll(pp, a) + ProcessTask(pp, task) + ProcessAll(pp, b)
  {
    hide ProcessTask;
    if a == [] {
      assert a + [task] + b == [task] + b && ([task] + b)[1..] == b;
    } else {
      DrainInOrder(pp, a[1..], task, b);
      assert (a + [task] + b)[1..] == a[1..] + [task] + b;
    }
  }
}
