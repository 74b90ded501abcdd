/** Where the dead entries of a level are, and what expiry removes. */
module StoreShape {
  import opened Basics
  import opened RecencyList
  import opened Hashing
  import opened TwoLevel
  import opened StoreRuns

  /** The live entries come first and the dead ones last. */
  predicate LivePrefix(l: Level) {
    forall i, j | 0 <= i < j < |l| :: l[j].Live() ==> l[i].Live()
  }

  predicate AllPositive(ops: seq<Op>) {
    forall i | 0 <= i < |ops| :: ops[i].Set? ==> ops[i].expireAt > 0
  }

  lemma PutPrefix(l: Level, cap: nat, k: Key, v: Value, expireAt: int)
    requires LivePrefix(l) && 0 < cap && expireAt > 0
    ensures LivePrefix(Put(l, cap, k, v, expireAt))
  {
    var i, e := Find(l, k), Entry(k, v, expireAt);
    if i < |l| {
      var r := l[i := e];
      FrontAt(r, i);
      assert forall j | 0 < j < |l| :: ToFront(r, i)[j] == l[if j <= i then j - 1 else j];
    }
  }

  lemma KillPrefix(l: Level, k: Key)
    requires LivePrefix(l)
    ensures LivePrefix(Kill(l, k))
  {
    var i := Find(l, k);
    if i < |l| && l[i].Live() {
      var r := l[i := l[i].(expireAt := 0)];
      BackAt(r, i);
      assert forall j | 0 <= j < |l| - 1 :: ToBack(r, i)[j] == l[if j < i then j else j + 1];
    }
  }

  lemma {:induction false} DeleteAllPrefix(b: Bucket, ks: seq<Key>)
    requires LivePrefix(b.l0)
    ensures LivePrefix(DeleteAll(b, ks).l0)
    decreases |ks|
  {
    hide LivePrefix, Kill;
    if ks != [] {
      KillPrefix(b.l0, ks[0]);
      DeleteAllPrefix(DeleteIn(b, ks[0]), ks[1..]);
    }
  }

  lemma BucketPrefix(b: Bucket, op: Op)
    requires 0 < b.cap0 && 0 < b.cap1 && LivePrefix(b.l0)
    requires op.Set? ==> op.expireAt > 0
    ensures LivePrefix(BucketAfter(b, op).l0)
  {
    hide LivePrefix, Kill, Put, Touch, DeleteAll, LiveCopy, ExpiredKeys;
    match op
    case Set(k, v, expireAt) => PutPrefix(b.l0, b.cap0, k, v, expireAt);
    case Get(k, now, _) =>
      KillPrefix(b.l0, k);
      KillPrefix(Kill(b.l0, k), k);
    case Delete(k) => KillPrefix(b.l0, k);
    case Cleanup(_, now) => DeleteAllPrefix(b, ExpiredKeys(b.l1, now, ExpiredKeys(b.l0, now, [])));
  }

  ghost predicate StorePrefix(s: Store) {
    forall i | 0 <= i < |s.buckets| :: LivePrefix(s.buckets[i].l0)
  }

  /** Over every run whose sets have a positive expiry, level 0 keeps its live
      entries before its dead ones. */
  lemma {:induction false} Level0Ordered(s: Store, ops: seq<Op>)
    requires StoreOk(s) && EmptyStore(s) && AllPositive(ops)
    ensures StorePrefix(Run(s, ops))
  {
    if ops != [] {
      var before, op := ops[..|ops| - 1], ops[|ops| - 1];
      Level0Ordered(s, before);
      var r := Run(s, before);
      hide LivePrefix, BucketAfter, Step;
      StepIs(r, op);
      if Target(r, op).Some? {
        BucketPrefix(r.buckets[Target(r, op).value], op);
      }
    }
  }

  lemma HomePrefix(s: Store, k: Key)
    requires StoreOk(s) && StorePrefix(s)
    ensures LivePrefix(HomeOf(s, k).l0) && 0 < HomeOf(s, k).cap0
  {
  }

  /** So when a set pushes a live entry out of level 0, all slots of that level
      are taken by live entries. */
  lemma EvictionNeedsFullLevel(s: Store, ops: seq<Op>, k: Key, q: Key)
    requires StoreOk(s) && EmptyStore(s) && AllPositive(ops)
    ensures var b := HomeOf(Run(s, ops), k);
      PushesOut(b.l0, b.cap0, k, q) && Dropped(b.l0, b.cap0, k).value.Live() ==>
        |b.l0| == b.cap0 && forall i | 0 <= i < |b.l0| :: b.l0[i].Live()
  {
    hide LivePrefix, StorePrefix, HomeOf, Run, EmptyStore, AllPositive;
    Level0Ordered(s, ops);
    HomePrefix(Run(s, ops), k);
  }

  // ---- Level 1 loses its order by exactly one kind of operation ----

  predicate SomeLive(l: Level) {
    exists i :: 0 <= i < |l| && l[i].Live()
  }

  /** The entry of k is dead while another entry is live. */
  predicate DeadAmongLive(l: Level, k: Key) {
    Find(l, k) < |l| && !l[Find(l, k)].Live() && SomeLive(l)
  }

  lemma TouchPrefix(l: Level, k: Key)
    requires LivePrefix(l)
    ensures LivePrefix(Touch(l, k)) <==> !DeadAmongLive(l, k)
  {
    var i := Find(l, k);
    if i < |l| {
      var r := ToFront(l, i);
      FrontAt(l, i);
      assert forall j | 0 < j < |l| :: r[j] == l[if j <= i then j - 1 else j];
      if DeadAmongLive(l, k) {
        var j :| 0 <= j < |l| && l[j].Live();
        assert r[if j < i then j + 1 else j] == l[j];
      } else if l[i].Live() {
        assert LivePrefix(r);
      } else {
        assert forall j | 0 <= j < |l| :: !l[j].Live();
        assert LivePrefix(r);
      }
    }
  }

  lemma {:induction false} DeleteAllPrefix1(b: Bucket, ks: seq<Key>)
    requires LivePrefix(b.l1)
    ensures LivePrefix(DeleteAll(b, ks).l1)
    decreases |ks|
  {
    hide LivePrefix, Kill;
    if ks != [] {
      KillPrefix(b.l1, ks[0]);
      DeleteAllPrefix1(DeleteIn(b, ks[0]), ks[1..]);
    }
  }

  /** A get that misses in level 0 and meets a dead entry in level 1, where another
      entry is live. */
  predicate TouchesDead(b: Bucket, op: Op) {
    op.Get? && LiveCopy(b.l0, op.k).None? && DeadAmongLive(b.l1, op.k)
  }

  lemma DeadIsNoCopy(l: Level, k: Key)
    ensures DeadAmongLive(l, k) ==> LiveCopy(l, k).None?
  {
  }

  lemma BucketOrder1(b: Bucket, op: Op)
    requires BucketOk(b) && LivePrefix(b.l1)
    ensures LivePrefix(BucketAfter(b, op).l1) <==> !TouchesDead(b, op)
  {
    hide LivePrefix, Kill, Put, Touch, DeleteAll, LiveCopy, ExpiredKeys, DeadAmongLive;
    match op
    case Set(_, _, _) =>
    case Get(k, now, _) =>
      LiveCopyIs(b.l0, k);
      var e0 := LiveCopy(b.l0, k);
      if e0.Some? {
        PutPrefix(b.l1, b.cap1, k, e0.value.v, if e0.value.expireAt > 0 then e0.value.expireAt else 1);
        KillPrefix(b.l1, k);
      } else {
        TouchPrefix(b.l1, k);
        DeadIsNoCopy(b.l1, k);
        if LivePrefix(Touch(b.l1, k)) {
          KillPrefix(Touch(b.l1, k), k);
        }
      }
    case Delete(k) => KillPrefix(b.l1, k);
    case Cleanup(_, now) => DeleteAllPrefix1(b, ExpiredKeys(b.l1, now, ExpiredKeys(b.l0, now, [])));
  }

  ghost predicate StorePrefix1(s: Store) {
    forall i | 0 <= i < |s.buckets| :: LivePrefix(s.buckets[i].l1)
  }

  predicate BreaksOrder(s: Store, op: Op)
    requires StoreOk(s)
  {
    op.Get? && TouchesDead(HomeOf(s, op.k), op)
  }

  /** Sets, deletes, cleanups and all other gets keep the live entries of level 1 before
      its dead ones; a get that meets a dead entry there among live ones does not. */
  lemma Level1Step(s: Store, op: Op)
    requires StoreOk(s) && StorePrefix1(s)
    ensures StorePrefix1(Step(s, op).0) <==> !BreaksOrder(s, op)
  {
    hide LivePrefix, BucketAfter, Step, Homed, TouchesDead;
    StepIs(s, op);
    NoGetTouches(s, op);
    if Target(s, op).Some? {
      var i := Target(s, op).value;
      BucketOrder1(s.buckets[i], op);
      assert Step(s, op).0.buckets[i] == BucketAfter(s.buckets[i], op);
    }
  }

  lemma NoGetTouches(s: Store, op: Op)
    requires StoreOk(s)
    ensures !op.Get? ==> forall b :: !TouchesDead(b, op)
    ensures op.Get? ==> Target(s, op) == Some(BucketOf(op.k, s.mask))
  {
  }

  /** Level 1 is in order after the run and after each part of it. */
  ghost predicate OrderedThroughout(s: Store, ops: seq<Op>)
    requires StoreOk(s)
  {
    StorePrefix1(Run(s, ops)) && (ops == [] || OrderedThroughout(s, ops[..|ops| - 1]))
  }

  /** No operation of the run meets a dead entry among live ones. */
  predicate NeverBreaks(s: Store, ops: seq<Op>)
    requires StoreOk(s)
  {
    ops == [] ||
    (NeverBreaks(s, ops[..|ops| - 1]) && !BreaksOrder(Run(s, ops[..|ops| - 1]), ops[|ops| - 1]))
  }

  /** Over every run from the empty store, level 1 is in order all the time if and only
      if no get ever meets a dead entry there among live ones. */
  lemma {:induction false} Level1Ordered(s: Store, ops: seq<Op>)
    requires StoreOk(s) && EmptyStore(s)
    ensures OrderedThroughout(s, ops) <==> NeverBreaks(s, ops)
  {
    if ops != [] {
      var before, op := ops[..|ops| - 1], ops[|ops| - 1];
      Level1Ordered(s, before);
      hide StorePrefix1, BreaksOrder, Step;
      if OrderedThroughout(s, before) {
        Level1Step(Run(s, before), op);
      }
    }
  }

  // ---- What expiry removes ----

  predicate Fresh(e: Option<Entry>, now: int) {
    e.Some? && !Expired(e.value, now)
  }

  predicate OutOfDate(e: Option<Entry>, now: int) {
    e.Some? && Expired(e.value, now)
  }

  /** Cleanup can drop an unexpired value: an unexpired copy, in either level, is lost to
      the pass over its bucket if and only if the copy in the other level has expired.
      The value that a peek sees is lost in exactly these two cases. */
  lemma CleanupDropsFresh(s: Store, k: Key, now: int)
    requires StoreOk(s)
    ensures StoreOk(Step(s, Cleanup(BucketOf(k, s.mask), now)).0)
    ensures var w, r := ViewIn(s, k), Step(s, Cleanup(BucketOf(k, s.mask), now)).0;
      && (Fresh(w.a, now) ==> (ViewIn(r, k).a.None? <==> OutOfDate(w.b, now)))
      && (Fresh(w.b, now) ==> (ViewIn(r, k).b.None? <==> OutOfDate(w.a, now)))
      && (PeekIn(HomeOf(s, k), k, now).Some? && PeekIn(HomeOf(r, k), k, now).None? <==>
            (Fresh(w.a, now) && OutOfDate(w.b, now)) || (OutOfDate(w.a, now) && Fresh(w.b, now)))
      && (ViewIn(r, k) == w || ViewIn(r, k) == View(None, None))
  {
    hide Step, LiveCopy, StoreOk;
    StepRefines(s, Cleanup(BucketOf(k, s.mask), now), k);
  }

  /** What a get of k does to an expired level-1 copy of k: if an expired level-0 copy
      lies over it, both go; if an unexpired one does, that one replaces it; and with
      no level-0 copy it stays, because the lookup hides it before the branch that
      would delete it is reached. */
  lemma ExpiredCopyInGet(s: Store, k: Key, now: int, later: int)
    requires StoreOk(s) && now <= later && OutOfDate(ViewIn(s, k).b, now)
    ensures StoreOk(Step(s, Get(k, now, later)).0)
    ensures var w, w' := ViewIn(s, k), ViewIn(Step(s, Get(k, now, later)).0, k);
      && (w'.b == None <==> OutOfDate(w.a, now))
      && (w'.b == w.a && w.a.Some? <==> Fresh(w.a, now))
      && (w' == w <==> w.a == None)
  {
    hide Step, LiveCopy;
    StepRefines(s, Get(k, now, later), k);
  }
}
