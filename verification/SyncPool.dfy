/** The queue of synchronisation tasks and the workers that empty it: requests,
    workers and the closing of the group taking their steps in any order. */
module SyncPool {
  import opened Basics

  const SYNC_CHANNEL_BUFFER := 1024
  const SYNC_WORKER_COUNT := 4

  // ---- Requests and tasks ----

  /** The marks a request carries: whether another node, or a migration, sent it. */
  datatype Context = Context(fromPeer: bool, fromMigration: bool)

  datatype Request =
    | SetRequest(ctx: Context, key: Key, value: seq<byte>)
    | DeleteRequest(ctx: Context, key: Key)

  datatype Task = SetTask(key: Key, value: seq<byte>) | BroadcastDelete(key: Key)

  datatype Error = GroupClosed | KeyRequired | ValueRequired

  /** Why a request is refused, if it is. */
  function Refusal(closed: bool, r: Request): Option<Error> {
    if closed then Some(GroupClosed)
    else if r.key == [] then Some(KeyRequired)
    else if r.SetRequest? && r.value == [] then Some(ValueRequired)
    else None
  }

  /** The task that an accepted request leads to: none if another node or a migration
      sent it, or if the group has no peers. */
  function TaskFor(hasPeers: bool, r: Request): Option<Task> {
    if r.ctx.fromPeer || r.ctx.fromMigration || !hasPeers then None
    else Some(match r
              case SetRequest(_, key, value) => SetTask(key, value)
              case DeleteRequest(_, key) => BroadcastDelete(key))
  }

  // ---- The pool ----

  /** A worker waits, carries out a task, empties the queue after done, or has returned. */
  datatype Worker = Waiting | Busy(task: Task, draining: bool) | Draining | Returned

  // The last seven fields record the history: the tasks offered, those the queue took,
  // those dropped, those workers took and those carried out, each in order; whether a
  // task was offered after done was closed; and the tasks that the queue took after all
  // workers had returned.
  datatype Pool = Pool(
    closed: bool, done: bool,
    queue: seq<Task>,
    workers: seq<Worker>,
    producers: multiset<Task>,      // requests past their checks, about to offer a task
    offered: seq<Task>, accepted: seq<Task>, dropped: seq<Task>, taken: seq<Task>, processed: seq<Task>,
    late: bool, stranded: seq<Task>)

  datatype Step =
    | Admit(request: Request)
    | Offer(task: Task)
    | Close
    | CloseDone
    | Take(w: nat)
    | Process(w: nat)
    | SeeDone(w: nat)
    | Exit(w: nat)

  predicate At(p: Pool, w: nat, state: Worker) {
    w < |p.workers| && p.workers[w] == state
  }

  predicate Enabled(p: Pool, t: Step) {
    match t
    case Admit(_) => true
    case Offer(task) => task in p.producers
    case Close => true
    case CloseDone => p.closed && !p.done
    case Take(w) => (At(p, w, Waiting) || At(p, w, Draining)) && p.queue != []
    case Process(w) => w < |p.workers| && p.workers[w].Busy?
    case SeeDone(w) => At(p, w, Waiting) && p.done
    case Exit(w) => At(p, w, Draining) && p.queue == []
  }

  function AfterProcess(w: Worker): Worker
    requires w.Busy?
  {
    if w.draining then Draining else Waiting
  }

  predicate AllReturned(p: Pool) {
    forall w | 0 <= w < |p.workers| :: p.workers[w] == Returned
  }

  /** A task goes to the queue if there is room, and is dropped if there is none. */
  function OfferTask(p: Pool, task: Task): Pool {
    var p' := p.(offered := p.offered + [task], late := p.late || p.done);
    if |p.queue| < SYNC_CHANNEL_BUFFER
    then p'.(queue := p.queue + [task], accepted := p.accepted + [task],
             stranded := if AllReturned(p) then p.stranded + [task] else p.stranded)
    else p'.(dropped := p.dropped + [task])
  }

  function Apply(hasPeers: bool, p: Pool, t: Step): Pool
    requires Enabled(p, t)
  {
    match t
    case Admit(r) =>
      if Refusal(p.closed, r).None? && TaskFor(hasPeers, r).Some?
      then p.(producers := p.producers + multiset{TaskFor(hasPeers, r).value}) else p
    case Offer(task) => OfferTask(p, task).(producers := p.producers - multiset{task})
    case Close => p.(closed := true)
    case CloseDone => p.(done := true)
    case Take(w) =>
      p.(workers := p.workers[w := Busy(p.queue[0], p.workers[w].Draining?)],
         queue := p.queue[1..], taken := p.taken + [p.queue[0]])
    case Process(w) =>
      p.(workers := p.workers[w := AfterProcess(p.workers[w])], processed := p.processed + [p.workers[w].task])
    case SeeDone(w) => p.(workers := p.workers[w := Draining])
    case Exit(w) => p.(workers := p.workers[w := Returned])
  }

  // ---- No task is lost or made up ----

  function InProgress(ws: seq<Worker>): multiset<Task> {
    if ws == [] then multiset{}
    else InProgress(ws[..|ws| - 1]) + TaskOf(ws[|ws| - 1])
  }

  function TaskOf(w: Worker): multiset<Task> {
    if w.Busy? then multiset{w.task} else multiset{}
  }

  lemma Swap(a: multiset<Task>, b: multiset<Task>, c: multiset<Task>)
    ensures a + b + c == a + c + b
  {
  }

  lemma {:induction false} InProgressUpdate(ws: seq<Worker>, i: nat, w: Worker)
    requires i < |ws|
    ensures InProgress(ws[i := w]) + TaskOf(ws[i]) == InProgress(ws) + TaskOf(w)
  {
    hide TaskOf;
    var n := |ws| - 1;
    var last, rest := ws[n], InProgress(ws[..n]);
    if i == n {
      assert ws[i := w][..n] == ws[..n] && ws[i := w][n] == w;
      Swap(rest, TaskOf(w), TaskOf(last));
    } else {
      InProgressUpdate(ws[..n], i, w);
      assert ws[i := w][..n] == ws[..n][i := w] && ws[i := w][n] == last;
      Swap(InProgress(ws[..n][i := w]), TaskOf(last), TaskOf(ws[i]));
      Swap(rest, TaskOf(w), TaskOf(last));
    }
  }

  lemma WorkerChanges(ws: seq<Worker>, i: nat, w: Worker)
    requires i < |ws|
    ensures !ws[i].Busy? && w.Busy? ==> InProgress(ws[i := w]) == InProgress(ws) + multiset{w.task}
    ensures ws[i].Busy? && !w.Busy? ==> InProgress(ws) == InProgress(ws[i := w]) + multiset{ws[i].task}
    ensures !ws[i].Busy? && !w.Busy? ==> InProgress(ws[i := w]) == InProgress(ws)
  {
    hide InProgress;
    InProgressUpdate(ws, i, w);
    assert InProgress(ws) + multiset{} == InProgress(ws);
    assert InProgress(ws[i := w]) + multiset{} == InProgress(ws[i := w]);
  }

  /** Every task that was offered was dropped, is queued, is being carried out or has
      been carried out, once; the queue is first in, first out, and bounded. */
  ghost predicate Conserved(p: Pool) {
    && AddUp(multiset(p.offered), multiset(p.dropped), multiset(p.queue), InProgress(p.workers), multiset(p.processed))
    && p.accepted == p.taken + p.queue
    && |p.queue| <= SYNC_CHANNEL_BUFFER
  }

  predicate SomeReturned(p: Pool) {
    exists w :: 0 <= w < |p.workers| && p.workers[w] == Returned
  }

  /** The number of workers is fixed. They leave their waiting only after done, and once
      one has returned, the queue stays empty unless a task is offered after done. */
  predicate Drained(p: Pool) {
    && |p.workers| == SYNC_WORKER_COUNT
    && (p.done ==> p.closed)
    && (forall w | 0 <= w < |p.workers| :: LeftOnlyAfterDone(p.workers[w], p.done))
    && (SomeReturned(p) && !p.late ==> p.queue == [])
  }

  predicate LeftOnlyAfterDone(w: Worker, done: bool) {
    w == Returned || w == Draining || (w.Busy? && w.draining) ==> done
  }

  lemma HeadTail(s: seq<Task>)
    requires s != []
    ensures multiset(s) == multiset(s[1..]) + multiset{s[0]}
  {
    assert s == [s[0]] + s[1..];
  }

  /** How the four kinds of tasks add up. */
  ghost predicate AddUp(offered: multiset<Task>, dropped: multiset<Task>, queue: multiset<Task>,
                        busy: multiset<Task>, processed: multiset<Task>) {
    offered == dropped + queue + busy + processed
  }

  lemma OneMore(o: multiset<Task>, d: multiset<Task>, q: multiset<Task>, b: multiset<Task>,
                r: multiset<Task>, t: multiset<Task>)
    requires AddUp(o, d, q, b, r)
    ensures AddUp(o + t, d + t, q, b, r) && AddUp(o + t, d, q + t, b, r)
  {
  }

  lemma OneMoves(o: multiset<Task>, d: multiset<Task>, q: multiset<Task>, b: multiset<Task>,
                 r: multiset<Task>, t: multiset<Task>)
    ensures AddUp(o, d, q + t, b, r) ==> AddUp(o, d, q, b + t, r)
    ensures AddUp(o, d, q, b + t, r) ==> AddUp(o, d, q, b, r + t)
  {
  }

  lemma OfferConserves(p: Pool, task: Task)
    requires Conserved(p)
    ensures Conserved(OfferTask(p, task))
  {
    hide InProgress, AddUp;
    OneMore(multiset(p.offered), multiset(p.dropped), multiset(p.queue), InProgress(p.workers),
            multiset(p.processed), multiset{task});
    assert p.taken + (p.queue + [task]) == (p.taken + p.queue) + [task];
  }

  lemma TakeConserves(p: Pool, w: nat)
    requires Conserved(p) && Enabled(p, Take(w))
    ensures Conserved(Apply(true, p, Take(w)))
  {
    hide InProgress, AddUp;
    HeadTail(p.queue);
    WorkerChanges(p.workers, w, Busy(p.queue[0], p.workers[w].Draining?));
    OneMoves(multiset(p.offered), multiset(p.dropped), multiset(p.queue[1..]), InProgress(p.workers),
             multiset(p.processed), multiset{p.queue[0]});
    assert p.taken + [p.queue[0]] + p.queue[1..] == p.taken + p.queue;
  }

  lemma ProcessConserves(p: Pool, w: nat)
    requires Conserved(p) && Enabled(p, Process(w))
    ensures Conserved(Apply(true, p, Process(w)))
  {
    hide InProgress, AddUp;
    var task := p.workers[w].task;
    var ws := p.workers[w := AfterProcess(p.workers[w])];
    WorkerChanges(p.workers, w, AfterProcess(p.workers[w]));
    OneMoves(multiset(p.offered), multiset(p.dropped), multiset(p.queue), InProgress(ws),
             multiset(p.processed), multiset{task});
  }

  lemma StepConserves(hasPeers: bool, p: Pool, t: Step)
    requires Conserved(p) && Enabled(p, t)
    ensures Conserved(Apply(hasPeers, p, t))
  {
    hide InProgress, AddUp;
    match t
    case Admit(_) =>
    case Offer(task) => OfferConserves(p, task);
    case Close =>
    case CloseDone =>
    case Take(w) => TakeConserves(p, w);
    case Process(w) => ProcessConserves(p, w);
    case SeeDone(w) => WorkerChanges(p.workers, w, Draining);
    case Exit(w) => WorkerChanges(p.workers, w, Returned);
  }

  lemma StepDrains(hasPeers: bool, p: Pool, t: Step)
    requires Drained(p) && Enabled(p, t)
    ensures Drained(Apply(hasPeers, p, t))
  {
    hide Apply, Enabled;
    if ByWorker(t) {
      WorkerStep(hasPeers, p, t);
    } else {
      OtherStep(hasPeers, p, t);
    }
    var p' := Apply(hasPeers, p, t);
    forall w | 0 <= w < |p'.workers| ensures LeftOnlyAfterDone(p'.workers[w], p'.done) {
      assert LeftOnlyAfterDone(p.workers[w], p.done);
    }
    if SomeReturned(p') && !p'.late {
      var w :| 0 <= w < |p'.workers| && p'.workers[w] == Returned;
      assert LeftOnlyAfterDone(p.workers[w], p.done);
      assert p.workers[w] == Returned ==> SomeReturned(p);
    }
  }

  predicate ByWorker(t: Step) {
    t.Take? || t.Process? || t.SeeDone? || t.Exit?
  }

  /** A worker turns to emptying the queue only after done, and returns only when the
      queue is empty. */
  lemma WorkerStep(hasPeers: bool, p: Pool, t: Step)
    requires Enabled(p, t) && ByWorker(t)
    ensures var p' := Apply(hasPeers, p, t);
      && p'.done == p.done && p'.closed == p.closed && p'.late == p.late && p'.accepted == p.accepted
      && t.w < |p.workers| && p.workers[t.w] != Returned
      && p'.workers == p.workers[t.w := p'.workers[t.w]] && (p'.workers[t.w] == Returned <==> t.Exit?)
      && (LeftOnlyAfterDone(p.workers[t.w], p.done) ==> LeftOnlyAfterDone(p'.workers[t.w], p.done))
      && (p.queue == [] ==> p'.queue == [])
      && (t.Exit? ==> p.queue == [] && p.workers[t.w] == Draining && p'.taken == p.taken)
  {
  }

  /** No other step changes a worker. */
  lemma OtherStep(hasPeers: bool, p: Pool, t: Step)
    requires Enabled(p, t) && !ByWorker(t)
    ensures var p' := Apply(hasPeers, p, t);
      && p'.workers == p.workers && p'.taken == p.taken && p'.processed == p.processed
      && (p.done ==> p'.done) && (p.closed ==> p'.closed) && (p'.done ==> p.done || p.closed)
      && (t.Offer? ==> p.accepted <= p'.accepted && p'.late == (p.late || p.done) && p'.done == p.done)
      && (!t.Offer? ==> p'.accepted == p.accepted && p'.late == p.late && p'.queue == p.queue)
  {
    hide Refusal, TaskFor;
  }

  // ---- What is left when all workers have returned ----

  /** Tasks taken are being carried out or have been; once all workers have returned, the
      queue holds what it took after that. */
  ghost predicate Settled(p: Pool) {
    && multiset(p.taken) == InProgress(p.workers) + multiset(p.processed)
    && (if AllReturned(p) then p.queue == p.stranded else p.stranded == [])
  }

  lemma AllReturnedStep(hasPeers: bool, p: Pool, t: Step)
    requires Enabled(p, t)
    ensures AllReturned(p) ==> AllReturned(Apply(hasPeers, p, t)) && !ByWorker(t)
    ensures !AllReturned(p) && AllReturned(Apply(hasPeers, p, t)) ==> t.Exit?
  {
    hide Apply, Enabled;
    if ByWorker(t) {
      WorkerStep(hasPeers, p, t);
    } else {
      OtherStep(hasPeers, p, t);
    }
    var p' := Apply(hasPeers, p, t);
    if !AllReturned(p) && AllReturned(p') {
      var w :| 0 <= w < |p.workers| && p.workers[w] != Returned;
      assert p'.workers[w] == Returned;
    }
  }

  lemma TakenSettles(p: Pool, t: Step)
    requires Enabled(p, t) && (t.Take? || t.Process? || t.SeeDone? || t.Exit?)
    requires multiset(p.taken) == InProgress(p.workers) + multiset(p.processed)
    ensures var p' := Apply(true, p, t); multiset(p'.taken) == InProgress(p'.workers) + multiset(p'.processed)
  {
    hide InProgress;
    match t
    case Take(w) =>
      WorkerChanges(p.workers, w, Busy(p.queue[0], p.workers[w].Draining?));
    case Process(w) =>
      WorkerChanges(p.workers, w, AfterProcess(p.workers[w]));
    case SeeDone(w) => WorkerChanges(p.workers, w, Draining);
    case Exit(w) => WorkerChanges(p.workers, w, Returned);
  }

  lemma StepSettles(hasPeers: bool, p: Pool, t: Step)
    requires Settled(p) && Enabled(p, t)
    ensures Settled(Apply(hasPeers, p, t))
  {
    hide InProgress, AllReturned, Refusal, TaskFor;
    AllReturnedStep(hasPeers, p, t);
    if t.Take? || t.Process? || t.SeeDone? || t.Exit? {
      TakenSettles(p, t);
    }
  }

  /** A step after the queue took the tasks of base keeps them, and once all workers have
      returned they have all been taken, if that holds before. */
  lemma BaseKept(hasPeers: bool, p: Pool, t: Step, base: seq<Task>)
    requires Conserved(p) && Enabled(p, t) && base <= p.accepted && (AllReturned(p) ==> base <= p.taken)
    ensures var p' := Apply(hasPeers, p, t);
      base <= p'.accepted && (AllReturned(p') ==> base <= p'.taken)
  {
    hide AddUp, AllReturned, Apply, Enabled;
    AllReturnedStep(hasPeers, p, t);
    if ByWorker(t) {
      WorkerStep(hasPeers, p, t);
    } else {
      OtherStep(hasPeers, p, t);
    }
  }

  // ---- Runs ----

  predicate Possible(hasPeers: bool, p: Pool, steps: seq<Step>)
    decreases |steps|
  {
    steps == [] || (Enabled(p, steps[0]) && Possible(hasPeers, Apply(hasPeers, p, steps[0]), steps[1..]))
  }

  function RunOf(hasPeers: bool, p: Pool, steps: seq<Step>): Pool
    requires Possible(hasPeers, p, steps)
    decreases |steps|
  {
    if steps == [] then p else RunOf(hasPeers, Apply(hasPeers, p, steps[0]), steps[1..])
  }

  const INITIAL := Pool(false, false, [], [Waiting, Waiting, Waiting, Waiting], multiset{},
                       [], [], [], [], [], false, [])

  lemma InitialOk()
    ensures Conserved(INITIAL) && Drained(INITIAL) && Settled(INITIAL)
  {
    NothingInProgress(INITIAL.workers);
    assert INITIAL.workers[0] != Returned;
  }

  lemma {:induction false} RunKeeps(hasPeers: bool, p: Pool, steps: seq<Step>)
    requires Conserved(p) && Drained(p) && Possible(hasPeers, p, steps)
    ensures var p' := RunOf(hasPeers, p, steps); Conserved(p') && Drained(p') && (Settled(p) ==> Settled(p'))
    decreases |steps|
  {
    hide Conserved, Drained, Settled, Apply, Enabled;
    if steps != [] {
      StepConserves(hasPeers, p, steps[0]);
      StepDrains(hasPeers, p, steps[0]);
      if Settled(p) {
        StepSettles(hasPeers, p, steps[0]);
      }
      RunKeeps(hasPeers, Apply(hasPeers, p, steps[0]), steps[1..]);
    }
  }

  lemma {:induction false} NothingInProgress(ws: seq<Worker>)
    requires forall w | 0 <= w < |ws| :: !ws[w].Busy?
    ensures InProgress(ws) == multiset{}
  {
    if ws != [] {
      NothingInProgress(ws[..|ws| - 1]);
    }
  }

  lemma AllDone(p: Pool)
    requires Conserved(p) && Drained(p) && Settled(p) && AllReturned(p)
    ensures p.queue == p.stranded && multiset(p.processed) == multiset(p.taken)
    ensures multiset(p.offered) == multiset(p.dropped) + multiset(p.stranded) + multiset(p.processed)
    ensures !p.late ==> p.stranded == []
  {
    NothingInProgress(p.workers);
    assert multiset{} + multiset(p.processed) == multiset(p.processed);
    assert p.workers[0] == Returned;
  }

  /** In every run: no task is lost or made up. When all workers have returned, the tasks
      left in the queue are exactly those it took after that moment, and all others that
      were offered and not dropped have been carried out. If nothing is offered after
      done, none is left. */
  lemma NothingLost(hasPeers: bool, steps: seq<Step>)
    requires Possible(hasPeers, INITIAL, steps)
    ensures var p := RunOf(hasPeers, INITIAL, steps);
      && Conserved(p)
      && (AllReturned(p) ==>
            && p.queue == p.stranded && multiset(p.processed) == multiset(p.taken)
            && multiset(p.offered) == multiset(p.dropped) + multiset(p.stranded) + multiset(p.processed))
      && (AllReturned(p) && !p.late ==>
            p.queue == [] && multiset(p.offered) == multiset(p.dropped) + multiset(p.processed))
  {
    hide Conserved, Drained, Settled, Apply, Enabled, AllReturned;
    InitialOk();
    RunKeeps(hasPeers, INITIAL, steps);
    var p := RunOf(hasPeers, INITIAL, steps);
    if AllReturned(p) {
      AllDone(p);
      if !p.late {
        assert multiset(p.dropped) + multiset(p.stranded) == multiset(p.dropped);
      }
    }
  }

  // ---- The workers return ----

  function Rank(w: Worker): nat {
    match w
    case Busy(_, draining) => if draining then 2 else 3
    case Waiting => 2
    case Draining => 1
    case Returned => 0
  }

  function Ranks(ws: seq<Worker>): nat {
    if ws == [] then 0 else Ranks(ws[..|ws| - 1]) + Rank(ws[|ws| - 1])
  }

  lemma {:induction false} RanksUpdate(ws: seq<Worker>, i: nat, w: Worker)
    requires i < |ws|
    ensures Ranks(ws[i := w]) == Ranks(ws) - Rank(ws[i]) + Rank(w)
  {
    var n := |ws| - 1;
    if i == n {
      assert ws[i := w][..n] == ws[..n];
    } else {
      RanksUpdate(ws[..n], i, w);
      assert ws[i := w][..n] == ws[..n][i := w];
    }
  }

  function Measure(p: Pool): nat {
    2 * |p.queue| + Ranks(p.workers)
  }

  /** The steps that are left to the workers and to the requests that are about to offer. */
  predicate Advances(t: Step) {
    ByWorker(t) || t.Offer?
  }

  function Advancing(steps: seq<Step>): nat {
    if steps == [] then 0 else (if Advances(steps[0]) then 1 else 0) + Advancing(steps[1..])
  }

  /** How many steps are left at most. */
  function Left(p: Pool): nat {
    Measure(p) + 3 * |p.producers|
  }

  lemma WorkerProgress(hasPeers: bool, p: Pool, t: Step)
    requires Enabled(p, t) && ByWorker(t)
    ensures Measure(Apply(hasPeers, p, t)) < Measure(p) && Apply(hasPeers, p, t).producers == p.producers
  {
    hide Ranks;
    RanksUpdate(p.workers, t.w, Apply(hasPeers, p, t).workers[t.w]);
  }

  /** After the close, a request that was admitted before it may still offer its task, but
      no other request will, and every step brings the end closer. */
  lemma ClosedProgress(hasPeers: bool, p: Pool, t: Step)
    requires p.closed && p.done && Enabled(p, t)
    ensures var p' := Apply(hasPeers, p, t);
      p'.closed && p'.done && Left(p') + (if Advances(t) then 1 else 0) <= Left(p)
  {
    hide Ranks, TaskFor;
    if ByWorker(t) {
      WorkerProgress(hasPeers, p, t);
    }
  }

  lemma SomeWorkerStep(p: Pool, w: nat) returns (t: Step)
    requires p.done && w < |p.workers| && p.workers[w] != Returned
    ensures Enabled(p, t) && ByWorker(t)
  {
    t := match p.workers[w]
      case Waiting => SeeDone(w)
      case Busy(_, _) => Process(w)
      case Draining => if p.queue == [] then Exit(w) else Take(w);
  }

  /** After done, no step advances exactly if all workers have returned and no request is
      about to offer a task. */
  lemma NothingAdvances(p: Pool)
    requires p.done
    ensures (forall t | Advances(t) :: !Enabled(p, t)) <==> AllReturned(p) && p.producers == multiset{}
  {
    if forall t | Advances(t) :: !Enabled(p, t) {
      forall w | 0 <= w < |p.workers| ensures p.workers[w] == Returned {
        if p.workers[w] != Returned {
          var t := SomeWorkerStep(p, w);
        }
      }
      if task :| task in p.producers {
        assert Enabled(p, Offer(task));
      }
    }
  }

  /** After done, the workers and the requests that were admitted before the close take at
      most as many steps as the measure tells, whatever other requests come in between;
      where none of them can take a step, all workers have returned and nothing is offered
      any more, and only there. */
  lemma {:induction false} WorkersReturn(hasPeers: bool, p: Pool, steps: seq<Step>)
    requires p.closed && p.done && Possible(hasPeers, p, steps)
    ensures var p' := RunOf(hasPeers, p, steps);
      && Advancing(steps) + Left(p') <= Left(p)
      && ((forall t | Advances(t) :: !Enabled(p', t)) <==> AllReturned(p') && p'.producers == multiset{})
    decreases |steps|
  {
    hide Apply, Enabled, AllReturned, Left, Advances;
    if steps == [] {
      NothingAdvances(p);
    } else {
      ClosedProgress(hasPeers, p, steps[0]);
      WorkersReturn(hasPeers, Apply(hasPeers, p, steps[0]), steps[1..]);
    }
  }

  lemma {:induction false} BaseCarriedOut(hasPeers: bool, p: Pool, base: seq<Task>, steps: seq<Step>)
    requires Conserved(p) && Drained(p) && Possible(hasPeers, p, steps)
    requires base <= p.accepted && (AllReturned(p) ==> base <= p.taken)
    ensures var p' := RunOf(hasPeers, p, steps); AllReturned(p') ==> base <= p'.taken
    decreases |steps|
  {
    hide Conserved, Drained, Apply, Enabled, AllReturned;
    if steps != [] {
      BaseKept(hasPeers, p, steps[0], base);
      StepConserves(hasPeers, p, steps[0]);
      StepDrains(hasPeers, p, steps[0]);
      BaseCarriedOut(hasPeers, Apply(hasPeers, p, steps[0]), base, steps[1..]);
    }
  }

  lemma StrandedStep(hasPeers: bool, p: Pool, t: Step, task: Task)
    requires AllReturned(p) && Enabled(p, t) && task in p.queue
    ensures var p' := Apply(hasPeers, p, t);
      AllReturned(p') && p'.taken == p.taken && p'.processed == p.processed && task in p'.queue
  {
    hide Refusal, TaskFor;
    AllReturnedStep(hasPeers, p, t);
  }

  lemma {:induction false} StaysStranded(hasPeers: bool, p: Pool, task: Task, steps: seq<Step>)
    requires AllReturned(p) && task in p.queue && Possible(hasPeers, p, steps)
    ensures var p' := RunOf(hasPeers, p, steps);
      task in p'.queue && p'.taken == p.taken && p'.processed == p.processed
    decreases |steps|
  {
    hide AllReturned, Apply, Enabled;
    if steps != [] {
      StrandedStep(hasPeers, p, steps[0], task);
      StaysStranded(hasPeers, Apply(hasPeers, p, steps[0]), task, steps[1..]);
    }
  }

  /** When is a task carried out that the queue takes? If and only if some worker has not
      returned when it is offered. In every run that follows, and at every point of it
      where all workers have returned, the task and all before it have then been taken
      and what was taken has been carried out; otherwise the task is still queued, and
      nothing was taken or carried out since. */
  lemma CarriedOutIff(hasPeers: bool, p: Pool, task: Task, steps: seq<Step>)
    requires Conserved(p) && Drained(p) && Settled(p) && task in p.producers && |p.queue| < SYNC_CHANNEL_BUFFER
    requires Possible(hasPeers, Apply(hasPeers, p, Offer(task)), steps)
    ensures var p' := RunOf(hasPeers, Apply(hasPeers, p, Offer(task)), steps);
      && (AllReturned(p') ==> (p.accepted + [task] <= p'.taken <==> !AllReturned(p)))
      && (AllReturned(p') ==> multiset(p'.processed) == multiset(p'.taken))
      && (AllReturned(p) ==> task in p'.queue && p'.taken == p.taken && p'.processed == p.processed)
  {
    hide Conserved, Drained, Settled, Apply, Enabled, AllReturned;
    OfferedHere(hasPeers, p, task);
    var p1 := Apply(hasPeers, p, Offer(task));
    var p' := RunOf(hasPeers, p1, steps);
    StepConserves(hasPeers, p, Offer(task));
    StepDrains(hasPeers, p, Offer(task));
    StepSettles(hasPeers, p, Offer(task));
    RunKeeps(hasPeers, p1, steps);
    if AllReturned(p') {
      AllDone(p');
    }
    if AllReturned(p) {
      StaysStranded(hasPeers, p1, task, steps);
      NotAll(p, task);
    } else {
      BaseCarriedOut(hasPeers, p1, p.accepted + [task], steps);
    }
  }

  lemma OfferedHere(hasPeers: bool, p: Pool, task: Task)
    requires task in p.producers && |p.queue| < SYNC_CHANNEL_BUFFER
    ensures var p1 := Apply(hasPeers, p, Offer(task));
      && Enabled(p, Offer(task)) && p1.accepted == p.accepted + [task] && p1.queue == p.queue + [task]
      && p1.taken == p.taken && p1.processed == p.processed && (AllReturned(p1) <==> AllReturned(p))
  {
  }

  lemma NotAll(p: Pool, task: Task)
    requires Conserved(p)
    ensures !(p.accepted + [task] <= p.taken)
  {
    hide AddUp;
  }

  lemma {:induction false} RunConcat(hasPeers: bool, p: Pool, a: seq<Step>, b: seq<Step>)
    requires Possible(hasPeers, p, a) && Possible(hasPeers, RunOf(hasPeers, p, a), b)
    ensures Possible(hasPeers, p, a + b) && RunOf(hasPeers, p, a + b) == RunOf(hasPeers, RunOf(hasPeers, p, a), b)
    decreases |a|
  {
    hide Apply, Enabled;
    if a == [] {
      assert a + b == b;
    } else {
      assert (a + b)[1..] == a[1..] + b;
      RunConcat(hasPeers, Apply(hasPeers, p, a[0]), a[1..], b);
    }
  }

  lemma OneStep(hasPeers: bool, p: Pool, t: Step)
    requires Enabled(p, t)
    ensures Possible(hasPeers, p, [t]) && RunOf(hasPeers, p, [t]) == Apply(hasPeers, p, t)
  {
    hide Apply, Enabled;
    assert [t][1..] == [];
  }

  /** A run of one more step than a run that is known. */
  lemma RunSnoc(hasPeers: bool, p: Pool, steps: seq<Step>, t: Step)
    requires Possible(hasPeers, p, steps) && Enabled(RunOf(hasPeers, p, steps), t)
    ensures Possible(hasPeers, p, steps + [t])
    ensures RunOf(hasPeers, p, steps + [t]) == Apply(hasPeers, RunOf(hasPeers, p, steps), t)
  {
    hide Apply, Enabled;
    OneStep(hasPeers, RunOf(hasPeers, p, steps), t);
    RunConcat(hasPeers, p, steps, [t]);
  }

  /** Worker w sees done, finds the queue empty and returns. */
  lemma WorkerLeaves(p: Pool, steps: seq<Step>, w: nat)
    requires Possible(true, p, steps)
    requires var q := RunOf(true, p, steps); q.done && q.queue == [] && At(q, w, Waiting)
    ensures var more, q := steps + [SeeDone(w)] + [Exit(w)], RunOf(true, p, steps);
      Possible(true, p, more) && RunOf(true, p, more) == q.(workers := q.workers[w := Returned])
  {
    hide Possible, RunOf;
    RunSnoc(true, p, steps, SeeDone(w));
    RunSnoc(true, p, steps + [SeeDone(w)], Exit(w));
  }

  /** A run that strands a task exists for every task of a client: its request passes the checks, the
      group is closed, all workers return, and only then is the task offered. */
  lemma LateOffer(r: Request) returns (steps: seq<Step>)
    requires Refusal(false, r) == None && TaskFor(true, r).Some?
    ensures Possible(true, INITIAL, steps)
    ensures var p := RunOf(true, INITIAL, steps); AllReturned(p) && p.queue == [TaskFor(true, r).value]
  {
    hide Possible, RunOf, Refusal, TaskFor;
    var task := TaskFor(true, r).value;
    OneStep(true, INITIAL, Admit(r));
    RunSnoc(true, INITIAL, [Admit(r)], Close);
    RunSnoc(true, INITIAL, [Admit(r)] + [Close], CloseDone);
    steps := [Admit(r)] + [Close] + [CloseDone];
    var p := RunOf(true, INITIAL, steps);
    assert p.workers == [Waiting, Waiting, Waiting, Waiting];
    WorkerLeaves(INITIAL, steps, 0);
    steps := steps + [SeeDone(0)] + [Exit(0)];
    WorkerLeaves(INITIAL, steps, 1);
    steps := steps + [SeeDone(1)] + [Exit(1)];
    WorkerLeaves(INITIAL, steps, 2);
    steps := steps + [SeeDone(2)] + [Exit(2)];
    WorkerLeaves(INITIAL, steps, 3);
    steps := steps + [SeeDone(3)] + [Exit(3)];
    RunSnoc(true, INITIAL, steps, Offer(task));
    steps := steps + [Offer(task)];
  }
}
