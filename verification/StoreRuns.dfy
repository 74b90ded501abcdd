/** What runs of store operations do to one key: freshness, no resurrection and
    the order of dead and live entries. */
module StoreRuns {
  import opened Basics
  import opened RecencyList
  import opened Hashing
  import opened TwoLevel

  // ---- The store refines a machine with two live copies per key ----

  function Answer(w: View, now: int, later: int): Option<Value> {
    if w.a.Some? then if Expired(w.a.value, now) then None else Some(w.a.value.v)
    else if w.b.Some? && !Expired(w.b.value, later) && !Expired(w.b.value, now) then Some(w.b.value.v)
    else None
  }

  function ViewGet(w: View, now: int, later: int): View {
    if w.a.Some? then if Expired(w.a.value, now) then View(None, None) else View(None, w.a)
    else if w.b.Some? && !Expired(w.b.value, later) && Expired(w.b.value, now) then View(None, None)
    else w
  }

  /** One operation seen from key k, whose bucket is home. lost0 and lost1 say
      whether the operation pushed out the copy of k in that level. */
  function ViewStep(w: View, op: Op, k: Key, home: nat, lost0: bool, lost1: bool): View {
    match op
    case Set(q, v, expireAt) =>
      if q == k then w.(a := if expireAt > 0 then Some(Entry(k, v, expireAt)) else None)
      else if lost0 then w.(a := None) else w
    case Get(q, now, later) =>
      if q == k then ViewGet(w, now, later)
      else if lost1 then w.(b := None) else w
    case Delete(q) => if q == k then View(None, None) else w
    case Cleanup(i, now) =>
      if i == home && ((w.a.Some? && Expired(w.a.value, now)) || (w.b.Some? && Expired(w.b.value, now)))
      then View(None, None) else w
  }

  function HomeOf(s: Store, k: Key): Bucket
    requires StoreOk(s)
  {
    s.buckets[BucketOf(k, s.mask)]
  }

  function ViewIn(s: Store, k: Key): View
    requires StoreOk(s)
  {
    ViewOf(HomeOf(s, k), k)
  }

  /** A set of another key pushes the copy of k out of level 0. */
  predicate Lost0(s: Store, op: Op, k: Key)
    requires StoreOk(s)
  {
    && op.Set? && op.k != k && BucketOf(op.k, s.mask) == BucketOf(k, s.mask)
    && PushesOut(HomeOf(s, k).l0, HomeOf(s, k).cap0, op.k, k)
  }

  /** A get of another key promotes that key and pushes k out of level 1. */
  predicate Lost1(s: Store, op: Op, k: Key)
    requires StoreOk(s)
  {
    && op.Get? && op.k != k && BucketOf(op.k, s.mask) == BucketOf(k, s.mask)
    && var e0 := LiveCopy(HomeOf(s, k).l0, op.k);
    && e0.Some? && !Expired(e0.value, op.now)
    && PushesOut(HomeOf(s, k).l1, HomeOf(s, k).cap1, op.k, k)
  }

  lemma {:induction false} ExpiredKeysAre(l: Level, now: int, found: seq<Key>, k: Key)
    requires DistinctKeys(l)
    ensures k in ExpiredKeys(l, now, found) <==>
      k in found || (LiveCopy(l, k).Some? && Expired(LiveCopy(l, k).value, now))
    decreases |l|
  {
    if l != [] {
      var more := if Expired(l[0], now) && l[0].k !in found then found + [l[0].k] else found;
      ExpiredKeysAre(l[1..], now, more, k);
      if l[0].k == k {
        assert Find(l[1..], k) == |l[1..]|;
      }
    }
  }

  lemma SetEffect(b: Bucket, q: Key, v: Value, expireAt: int, k: Key)
    requires BucketOk(b)
    ensures BucketOk(SetIn(b, q, v, expireAt))
    ensures ViewOf(SetIn(b, q, v, expireAt), k) ==
      ViewStep(ViewOf(b, k), Set(q, v, expireAt), k, 0, PushesOut(b.l0, b.cap0, q, k), false)
  {
    hide Put, LiveCopy, PushesOut;
    PutEffect(b.l0, b.cap0, q, v, expireAt);
    LiveAfterPut(b.l0, b.cap0, q, v, expireAt, k);
  }

  lemma GetEffect(b: Bucket, q: Key, now: int, later: int, k: Key)
    requires BucketOk(b)
    ensures BucketOk(GetIn(b, q, now, later).0)
    ensures GetIn(b, q, now, later).1 == Answer(ViewOf(b, q), now, later)
    ensures ViewOf(GetIn(b, q, now, later).0, k) ==
      var e0 := LiveCopy(b.l0, q);
      ViewStep(ViewOf(b, k), Get(q, now, later), k, 0, false,
               e0.Some? && !Expired(e0.value, now) && PushesOut(b.l1, b.cap1, q, k))
  {
    hide Put, Kill, Touch, LiveCopy, PushesOut;
    var e0, e1 := LiveCopy(b.l0, q), LiveCopy(b.l1, q);
    if e0.Some? {
      assert e0.value.expireAt > 0 && e0.value.k == q by { LiveCopyIs(b.l0, q); }
      var b' := b.(l0 := Kill(b.l0, q));
      KillEffect(b.l0, q);
      LiveAfterKill(b.l0, q, k);
      if Expired(e0.value, now) {
        DeleteEffect(b', q, k);
      } else {
        PutEffect(b.l1, b.cap1, q, e0.value.v, e0.value.expireAt);
        LiveAfterPut(b.l1, b.cap1, q, e0.value.v, e0.value.expireAt, k);
      }
    } else {
      var b' := b.(l1 := Touch(b.l1, q));
      TouchEffect(b.l1, q);
      LiveAfterTouch(b.l1, q, k);
      DeleteEffect(b', q, k);
    }
  }

  lemma LiveCopyIs(l: Level, k: Key)
    ensures LiveCopy(l, k).Some? ==> LiveCopy(l, k).value.Live() && LiveCopy(l, k).value.k == k
  {
  }

  lemma CleanupEffect(b: Bucket, now: int, k: Key)
    requires BucketOk(b)
    ensures BucketOk(CleanupIn(b, now))
    ensures ViewOf(CleanupIn(b, now), k) == ViewStep(ViewOf(b, k), Cleanup(0, now), k, 0, false, false)
  {
    hide LiveCopy, DeleteAll, ExpiredKeys;
    var ks0 := ExpiredKeys(b.l0, now, []);
    ExpiredKeysAre(b.l0, now, [], k);
    ExpiredKeysAre(b.l1, now, ks0, k);
    DeleteAllEffect(b, ExpiredKeys(b.l1, now, ks0), k);
  }

  // ---- Every key stays in its own bucket ----

  lemma PutHomed(l: Level, cap: nat, k: Key, v: Value, expireAt: int, mask: nat)
    requires 0 < cap && Homed(l, BucketOf(k, mask), mask)
    ensures Homed(Put(l, cap, k, v, expireAt), BucketOf(k, mask), mask)
  {
    var i := Find(l, k);
    if i < |l| {
      FrontAt(l[i := Entry(k, v, expireAt)], i);
    }
  }

  lemma TouchHomed(l: Level, k: Key, i: nat, mask: nat)
    requires Homed(l, i, mask)
    ensures Homed(Touch(l, k), i, mask)
  {
    if Holds(l, k) {
      FrontAt(l, Find(l, k));
    }
  }

  lemma KillHomed(l: Level, k: Key, i: nat, mask: nat)
    requires Homed(l, i, mask)
    ensures Homed(Kill(l, k), i, mask)
  {
    var j := Find(l, k);
    if j < |l| {
      BackAt(l[j := l[j].(expireAt := 0)], j);
    }
  }

  ghost predicate BucketHomed(b: Bucket, i: nat, mask: nat) {
    Homed(b.l0, i, mask) && Homed(b.l1, i, mask)
  }

  lemma DeleteHomed(b: Bucket, k: Key, i: nat, mask: nat)
    requires BucketHomed(b, i, mask)
    ensures BucketHomed(DeleteIn(b, k), i, mask)
  {
    hide Homed, Kill;
    KillHomed(b.l0, k, i, mask);
    KillHomed(b.l1, k, i, mask);
  }

  lemma {:induction false} DeleteAllHomed(b: Bucket, ks: seq<Key>, i: nat, mask: nat)
    requires BucketHomed(b, i, mask)
    ensures BucketHomed(DeleteAll(b, ks), i, mask)
    decreases |ks|
  {
    hide BucketHomed, DeleteIn;
    if ks != [] {
      DeleteHomed(b, ks[0], i, mask);
      DeleteAllHomed(DeleteIn(b, ks[0]), ks[1..], i, mask);
    }
  }

  lemma GetHomed(b: Bucket, k: Key, now: int, later: int, mask: nat)
    requires 0 < b.cap1 && BucketHomed(b, BucketOf(k, mask), mask)
    ensures BucketHomed(GetIn(b, k, now, later).0, BucketOf(k, mask), mask)
  {
    hide Homed, Kill, Put, Touch, LiveCopy;
    var i := BucketOf(k, mask);
    KillHomed(b.l0, k, i, mask);
    TouchHomed(b.l1, k, i, mask);
    DeleteHomed(b.(l0 := Kill(b.l0, k)), k, i, mask);
    DeleteHomed(b.(l1 := Touch(b.l1, k)), k, i, mask);
    var e0 := LiveCopy(b.l0, k);
    if e0.Some? {
      PutHomed(b.l1, b.cap1, k, e0.value.v, e0.value.expireAt, mask);
    }
  }

  /** The bucket an operation works on, if any, and that bucket afterwards. */
  function Target(s: Store, op: Op): Option<nat> {
    if op.Cleanup? then if op.bucket < |s.buckets| then Some(op.bucket) else None
    else Some(BucketOf(op.k, s.mask))
  }

  function BucketAfter(b: Bucket, op: Op): Bucket
    requires 0 < b.cap0 && 0 < b.cap1
  {
    match op
    case Set(k, v, expireAt) => SetIn(b, k, v, expireAt)
    case Get(k, now, later) => GetIn(b, k, now, later).0
    case Delete(k) => DeleteIn(b, k)
    case Cleanup(_, now) => CleanupIn(b, now)
  }

  lemma StepIs(s: Store, op: Op)
    requires StoreOk(s)
    ensures Target(s, op) == None ==> Step(s, op).0 == s
    ensures Target(s, op).Some? ==> Target(s, op).value < |s.buckets|
    ensures Target(s, op).Some? ==>
      var i := Target(s, op).value;
      Step(s, op).0 == s.(buckets := s.buckets[i := BucketAfter(s.buckets[i], op)])
  {
  }

  lemma BucketStep(b: Bucket, op: Op, i: nat, mask: nat)
    requires BucketOk(b) && BucketHomed(b, i, mask)
    requires op.Cleanup? || i == BucketOf(op.k, mask)
    ensures BucketOk(BucketAfter(b, op)) && BucketHomed(BucketAfter(b, op), i, mask)
  {
    hide BucketHomed, SetIn, GetIn, DeleteIn, CleanupIn;
    match op
    case Set(k, v, expireAt) =>
      SetEffect(b, k, v, expireAt, k);
      SetHomed(b, k, v, expireAt, mask);
    case Get(k, now, later) =>
      GetEffect(b, k, now, later, k);
      GetHomed(b, k, now, later, mask);
    case Delete(k) =>
      DeleteEffect(b, k, k);
      DeleteHomed(b, k, i, mask);
    case Cleanup(_, now) =>
      CleanupEffect(b, now, []);
      CleanupHomed(b, now, i, mask);
  }

  lemma SetHomed(b: Bucket, k: Key, v: Value, expireAt: int, mask: nat)
    requires 0 < b.cap0 && BucketHomed(b, BucketOf(k, mask), mask)
    ensures BucketHomed(SetIn(b, k, v, expireAt), BucketOf(k, mask), mask)
  {
    hide Homed, Put;
    PutHomed(b.l0, b.cap0, k, v, expireAt, mask);
  }

  lemma CleanupHomed(b: Bucket, now: int, i: nat, mask: nat)
    requires BucketHomed(b, i, mask)
    ensures BucketHomed(CleanupIn(b, now), i, mask)
  {
    hide BucketHomed, DeleteAll, ExpiredKeys;
    DeleteAllHomed(b, ExpiredKeys(b.l1, now, ExpiredKeys(b.l0, now, [])), i, mask);
  }

  lemma StepKeepsOk(s: Store, op: Op)
    requires StoreOk(s)
    ensures StoreOk(Step(s, op).0)
    ensures Step(s, op).0.mask == s.mask
  {
    hide BucketOk, Homed, Step, BucketAfter;
    StepIs(s, op);
    if Target(s, op).Some? {
      var i := Target(s, op).value;
      BucketStep(s.buckets[i], op, i, s.mask);
    }
  }

  /** The store refines the machine: an operation changes the live copies of a
      key as ViewStep says, and a get answers from the live copies alone. */
  lemma StepRefines(s: Store, op: Op, k: Key)
    requires StoreOk(s)
    ensures StoreOk(Step(s, op).0)
    ensures ViewIn(Step(s, op).0, k) ==
      ViewStep(ViewIn(s, k), op, k, BucketOf(k, s.mask), Lost0(s, op, k), Lost1(s, op, k))
    ensures op.Get? ==> Step(s, op).1 == Answer(ViewIn(s, op.k), op.now, op.later)
    ensures !op.Get? ==> Step(s, op).1 == None
  {
    hide BucketOk, Homed, SetIn, GetIn, DeleteIn, CleanupIn, PushesOut;
    StepKeepsOk(s, op);
    StepIs(s, op);
    var home := BucketOf(k, s.mask);
    var b := s.buckets[home];
    match op
    case Set(q, v, expireAt) => SetEffect(b, q, v, expireAt, k);
    case Get(q, now, later) =>
      GetEffect(b, q, now, later, k);
      GetEffect(HomeOf(s, q), q, now, later, k);
    case Delete(q) => DeleteEffect(b, q, k);
    case Cleanup(i, now) => CleanupEffect(b, now, k);
  }

  // ---- Runs ----

  function Run(s: Store, ops: seq<Op>): (r: Store)
    requires StoreOk(s)
    ensures StoreOk(r) && r.mask == s.mask
  {
    if ops == [] then s
    else
      var before := Run(s, ops[..|ops| - 1]);
      StepKeepsOk(before, ops[|ops| - 1]);
      Step(before, ops[|ops| - 1]).0
  }

  /** What the history of a run says of key k. */
  datatype Track = Track(
    latest: Option<Value>,      // the value of the latest set since the last delete
    since: set<(Value, int)>,   // all sets since the last delete, with their expiry
    promoted: Option<Value>,    // the latest value when a get last moved k to level 1
    stale: bool)                // since the latest set, level 0 lost its copy while level 1 held one

  /** The history of k after one more operation, which meets the store in state s. */
  function Record(t: Track, s: Store, op: Op, k: Key): Track
    requires StoreOk(s)
  {
    var w := ViewIn(s, k);
    match op
    case Set(q, v, expireAt) =>
      if q == k then Track(Some(v), t.since + {(v, expireAt)}, t.promoted, expireAt <= 0 && w.b.Some?)
      else if Lost0(s, op, k) && w.a.Some? then t.(stale := w.b.Some?)
      else t
    case Get(q, now, _) =>
      if q == k && w.a.Some? && !Expired(w.a.value, now) then t.(promoted := t.latest) else t
    case Delete(q) => if q == k then Track(None, {}, None, false) else t
    case Cleanup(_, _) => t
  }

  function History(s: Store, ops: seq<Op>, k: Key): Track
    requires StoreOk(s)
  {
    if ops == [] then Track(None, {}, None, false)
    else Record(History(s, ops[..|ops| - 1], k), Run(s, ops[..|ops| - 1]), ops[|ops| - 1], k)
  }

  predicate SetPair(t: Track, e: Entry) {
    (e.v, e.expireAt) in t.since
  }

  /** How the live copies of a key follow from its history. */
  predicate Follows(w: View, t: Track) {
    && (w.a.Some? ==> w.a.value.Live() && SetPair(t, w.a.value) && t.latest == Some(w.a.value.v) && !t.stale)
    && (w.b.Some? ==> w.b.value.Live() && SetPair(t, w.b.value) && t.promoted == Some(w.b.value.v))
    && (w.b.Some? && w.a.None? && !t.stale ==> t.latest == t.promoted)
    && (t.latest.None? <==> t.since == {})
  }

  lemma RecordFollows(s: Store, op: Op, k: Key, t: Track)
    requires StoreOk(s) && Follows(ViewIn(s, k), t)
    ensures StoreOk(Step(s, op).0)
    ensures Follows(ViewIn(Step(s, op).0, k), Record(t, s, op, k))
  {
    hide StoreOk, ViewIn, Step, Lost0, Lost1;
    StepRefines(s, op, k);
  }

  predicate EmptyStore(s: Store) {
    forall i | 0 <= i < |s.buckets| :: s.buckets[i].l0 == [] && s.buckets[i].l1 == []
  }

  lemma {:induction false} HistoryFollows(s: Store, ops: seq<Op>, k: Key)
    requires StoreOk(s) && EmptyStore(s)
    ensures Follows(ViewIn(Run(s, ops), k), History(s, ops, k))
  {
    hide StoreOk, Follows, Record, Step;
    if ops == [] {
      EmptyView(s, k);
    } else {
      var before := ops[..|ops| - 1];
      HistoryFollows(s, before, k);
      RecordFollows(Run(s, before), ops[|ops| - 1], k, History(s, before, k));
    }
  }

  lemma EmptyView(s: Store, k: Key)
    requires StoreOk(s) && EmptyStore(s)
    ensures ViewIn(s, k) == View(None, None)
    ensures Follows(ViewIn(s, k), Track(None, {}, None, false))
  {
  }

  /** Freshness with its exact exception: over every run, a get that hits
      returns the value of the latest set, unless since that set level 0 lost
      its copy while level 1 held one; then it returns the value that was the
      latest when the key last moved to level 1. */
  lemma Freshness(s: Store, ops: seq<Op>, k: Key, now: int, later: int)
    requires StoreOk(s) && EmptyStore(s)
    ensures var answer, t := Step(Run(s, ops), Get(k, now, later)).1, History(s, ops, k);
      answer.Some? ==>
        && answer == (if t.stale then t.promoted else t.latest)
        && (answer == t.latest <==> !t.stale || t.promoted == t.latest)
  {
    hide StoreOk, ViewIn, Step, Run, History;
    HistoryFollows(s, ops, k);
    StepRefines(Run(s, ops), Get(k, now, later), k);
  }

  /** No resurrection: a get or a peek returns only a value that some set gave
      the key after its last delete and that has not expired, so it misses
      between a delete and the next set. */
  lemma NoResurrection(s: Store, ops: seq<Op>, k: Key, now: int, later: int)
    requires StoreOk(s) && EmptyStore(s)
    ensures var r, t := Run(s, ops), History(s, ops, k);
      && (Step(r, Get(k, now, later)).1.Some? ==>
        exists e: int :: (Step(r, Get(k, now, later)).1.value, e) in t.since && 0 < e && now < e)
      && (PeekIn(HomeOf(r, k), k, now).Some? ==>
        exists e: int :: (PeekIn(HomeOf(r, k), k, now).value, e) in t.since && now < e)
      && (t.since == {} ==> Step(r, Get(k, now, later)).1 == None && PeekIn(HomeOf(r, k), k, now) == None)
  {
    hide StoreOk, Step, Run, History, LiveCopy;
    var r := Run(s, ops);
    HistoryFollows(s, ops, k);
    StepRefines(r, Get(k, now, later), k);
    var w, t := ViewIn(r, k), History(s, ops, k);
    assert w.a.Some? ==> (w.a.value.v, w.a.value.expireAt) in t.since;
    assert w.b.Some? ==> (w.b.value.v, w.b.value.expireAt) in t.since;
  }

  /** A peek agrees with a get at the same clock, unless an expired level-0 copy
      hides an unexpired level-1 copy. */
  lemma PeekAgrees(s: Store, k: Key, now: int)
    requires StoreOk(s)
    ensures var w := ViewIn(s, k);
      PeekIn(HomeOf(s, k), k, now) == Step(s, Get(k, now, now)).1 <==>
      !(w.a.Some? && Expired(w.a.value, now) && w.b.Some? && !Expired(w.b.value, now))
  {
    hide StoreOk, Step, LiveCopy;
    StepRefines(s, Get(k, now, now), k);
  }
}
