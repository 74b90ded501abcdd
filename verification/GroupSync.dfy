/** The parts of a cache group that hand writes on to other nodes, with their fields,
    proved against SyncPool and Propagation. */
module GroupSync {
  import opened Basics
  import opened Ring
  import opened SyncPool
  import opened Propagation

  /** A call of the group's local cache. */
  datatype CacheCall = Store(key: Key, value: seq<byte>) | Remove(key: Key)

  /** The requests of several tasks, in order. */
  function ProcessAll(pp: Peering, tasks: seq<Task>): seq<Delivery> {
    if tasks == [] then [] else ProcessTask(pp, tasks[0]) + ProcessAll(pp, tasks[1..])
  }

  class Group {
    const hasPeers: bool
    const peering: Peering
    const bloomFilter: bool
    var closed: bool
    var done: bool
    var syncTasks: seq<Task>
    var cacheCalls: seq<CacheCall>     // what was asked of the local cache
    var filterAdds: seq<Key>           // the keys added to the Bloom filter
    var sent: seq<Delivery>            // the requests sent to peers

    constructor (hasPeers: bool, peering: Peering, bloomFilter: bool)
      ensures !closed && !done && syncTasks == [] && cacheCalls == [] && filterAdds == [] && sent == []
      ensures this.hasPeers == hasPeers && this.peering == peering && this.bloomFilter == bloomFilter
    {
      this.hasPeers, this.peering, this.bloomFilter := hasPeers, peering, bloomFilter;
      closed, done, syncTasks, cacheCalls, filterAdds, sent := false, false, [], [], [], [];
    }

    /** The pool that these fields show; its workers and history are ghosts. */
    ghost function Shown(p: Pool): Pool
      reads this
    {
      p.(closed := closed, done := done, queue := syncTasks)
    }

    /** The send that drops its task if the channel is full. */
    method Offer(task: Task)
      modifies this`syncTasks
      ensures syncTasks == if |old(syncTasks)| < SYNC_CHANNEL_BUFFER then old(syncTasks) + [task] else old(syncTasks)
    {
      if |syncTasks| < SYNC_CHANNEL_BUFFER {
        syncTasks := syncTasks + [task];
      }
    }

    /** A refused set changes nothing. An accepted one is stored, and leads to a task
        just as in the pool: admitted and, with nobody in between, offered. */
    method Set(ctx: Context, key: Key, value: seq<byte>) returns (err: Option<Error>)
      modifies this`syncTasks, this`cacheCalls, this`filterAdds
      ensures err == Refusal(closed, SetRequest(ctx, key, value))
      ensures (err == Some(GroupClosed) <==> closed) && (err == Some(KeyRequired) <==> !closed && key == [])
      ensures err.None? <==> !closed && key != [] && value != []
      ensures err.Some? ==>
        cacheCalls == old(cacheCalls) && filterAdds == old(filterAdds) && syncTasks == old(syncTasks)
      ensures err.None? ==>
        && cacheCalls == old(cacheCalls) + [Store(key, value)]
        && filterAdds == old(filterAdds) + (if bloomFilter then [key] else [])
        && syncTasks == (
             if !ctx.fromPeer && !ctx.fromMigration && hasPeers && |old(syncTasks)| < 1024
             then old(syncTasks) + [SetTask(key, value)] else old(syncTasks))
        && forall p :: Shown(p).queue == Requested(hasPeers, old(Shown(p)), SetRequest(ctx, key, value)).queue
    {
      if closed {
        return Some(GroupClosed);
      }
      if key == [] {
        return Some(KeyRequired);
      }
      if |value| == 0 {
        return Some(ValueRequired);
      }
      cacheCalls := cacheCalls + [Store(key, value)];
      if bloomFilter {
        filterAdds := filterAdds + [key];
      }
      if !ctx.fromPeer && !ctx.fromMigration && hasPeers {
        Offer(SetTask(key, value));
      }
      return None;
    }

    method Delete(ctx: Context, key: Key) returns (err: Option<Error>)
      modifies this`syncTasks, this`cacheCalls
      ensures err == Refusal(closed, DeleteRequest(ctx, key))
      ensures (err == Some(GroupClosed) <==> closed) && (err == Some(KeyRequired) <==> !closed && key == [])
      ensures err.None? <==> !closed && key != []
      ensures err.Some? ==> cacheCalls == old(cacheCalls) && syncTasks == old(syncTasks)
      ensures err.None? ==>
        && cacheCalls == old(cacheCalls) + [Remove(key)]
        && syncTasks == (
             if !ctx.fromPeer && !ctx.fromMigration && hasPeers && |old(syncTasks)| < 1024
             then old(syncTasks) + [SyncPool.Task.BroadcastDelete(key)] else old(syncTasks))
        && forall p :: Shown(p).queue == Requested(hasPeers, old(Shown(p)), DeleteRequest(ctx, key)).queue
    {
      if closed {
        return Some(GroupClosed);
      }
      if key == [] {
        return Some(KeyRequired);
      }
      cacheCalls := cacheCalls + [Remove(key)];
      if !ctx.fromPeer && !ctx.fromMigration && hasPeers {
        Offer(SyncPool.Task.BroadcastDelete(key));
      }
      return None;
    }

    /** Closing a group a second time does nothing. */
    method Close()
      modifies this`closed, this`done
      ensures closed && (done <==> old(done) || !old(closed))
    {
      if closed {
        return;
      }
      closed := true;
      done := true;
    }

    method Send(to: Node, op: Op, key: Key)
      modifies this`sent
      ensures sent == old(sent) + [Deliver(to, op, key)]
    {
      sent := sent + [Deliver(to, op, key)];
    }

    method SyncToPeers(op: Op, key: Key)
      modifies this`sent
      ensures sent == old(sent) + Propagation.SyncToPeers(peering, op, key)
    {
      var p := peering.pick(key);
      if !p.ok || p.isSelf {
        return;
      }
      Send(p.peer, op, key);
    }

    method SyncToPeersWithReplica(op: Op, key: Key)
      modifies this`sent
      ensures sent == old(sent) + SyncWithReplica(peering, op, key)
    {
      if !peering.replicaAware {
        SyncToPeers(op, key);
        return;
      }
      var Peers(primary, replica, peerOK, isSelf) := peering.pickWithFallback(key);
      if !peerOK {
        return;
      }
      if !isSelf && primary.Some? {
        Send(primary.value, op, key);
      }
      if replica.Some? && replica != primary {
        Send(replica.value, op, key);
      }
    }

    method BroadcastDelete(key: Key)
      modifies this`sent
      ensures sent == old(sent) + Propagation.BroadcastDelete(peering, key)
    {
      if !peering.broadcasts {
        SyncToPeersWithReplica(OpDelete, key);
        return;
      }
      var peers := peering.all;
      ghost var ds := DeliverAll(peers, OpDelete, key);
      for i := 0 to |peers|
        invariant sent == old(sent) + ds[..i]
      {
        Send(peers[i], OpDelete, key);
        assert ds[..i + 1] == ds[..i] + [ds[i]];
      }
      assert ds[..|peers|] == ds;
    }

    method ProcessSyncTask(task: Task)
      modifies this`sent
      ensures sent == old(sent) + ProcessTask(peering, task)
    {
      match task
      case SetTask(key, value) => SyncToPeersWithReplica(OpSet(value), key);
      case BroadcastDelete(key) => BroadcastDelete(key);
    }

    /** What a worker does after done, with nobody in between: it carries out all
        tasks that are left, first in, first out. */
    method Drain()
      modifies this`syncTasks, this`sent
      ensures syncTasks == []
      ensures sent == old(sent) + ProcessAll(peering, old(syncTasks))
    {
      hide ProcessTask;
      while |syncTasks| > 0
        invariant sent + ProcessAll(peering, syncTasks) == old(sent) + ProcessAll(peering, old(syncTasks))
        decreases |syncTasks|
      {
        var task := syncTasks[0];
        syncTasks := syncTasks[1..];
        ProcessSyncTask(task);
      }
    }
  }

  /** The pool after a request that is offered as soon as it is admitted. */
  function Requested(hasPeers: bool, p: Pool, r: Request): Pool {
    var p' := SyncPool.Apply(hasPeers, p, SyncPool.Admit(r));
    if Refusal(p.closed, r).None? && TaskFor(hasPeers, r).Some?
    then SyncPool.Apply(hasPeers, p', SyncPool.Offer(TaskFor(hasPeers, r).value)) else p'
  }
}
