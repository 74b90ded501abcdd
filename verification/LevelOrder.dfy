/** Least recently used: the order in which a level keeps its entries, and which entry
    makes room for a new one, over every run of the store. */
module LevelOrder {
  import opened Basics
  import opened Hashing
  import opened RecencyList
  import opened TwoLevel
  import opened StoreRuns

  // ---- One operation on a level ----

  /** The entries of the other keys, in order. */
  function Others(l: Level, k: Key): Level {
    if l == [] then []
    else if l[0].k == k then Others(l[1..], k)
    else [l[0]] + Others(l[1..], k)
  }

  lemma {:induction false} OthersConcat(a: Level, b: Level, k: Key)
    ensures Others(a + b, k) == Others(a, k) + Others(b, k)
  {
    if a == [] {
      assert a + b == b;
    } else {
      OthersConcat(a[1..], b, k);
      assert (a + b)[1..] == a[1..] + b && (a + b)[0] == a[0];
    }
  }

  lemma OthersOne(e: Entry)
    ensures Others([e], e.k) == []
  {
    assert [e][1..] == [];
  }

  lemma {:induction false} OthersAll(l: Level, k: Key)
    requires !Holds(l, k)
    ensures Others(l, k) == l
  {
    if l != [] {
      OthersAll(l[1..], k);
    }
  }

  /** Taking out the entry of k leaves those of the other keys. */
  lemma {:induction false} OthersWithout(l: Level, i: nat)
    requires i < |l|
    ensures Others(l, l[i].k) == Others(Without(l, i), l[i].k)
  {
    var r := Without(l, i);
    if i == 0 {
      assert r == l[1..];
    } else {
      OthersWithout(l[1..], i - 1);
      assert r[0] == l[0] && r[1..] == Without(l[1..], i - 1);
    }
  }

  lemma OthersUpdate(l: Level, i: nat, e: Entry)
    requires i < |l| && e.k == l[i].k
    ensures Others(l[i := e], e.k) == Others(l, e.k)
  {
    assert Without(l[i := e], i) == Without(l, i);
    OthersWithout(l, i);
    OthersWithout(l[i := e], i);
  }

  lemma OthersFront(l: Level, i: nat)
    requires i < |l|
    ensures ToFront(l, i)[0] == l[i] && Others(ToFront(l, i), l[i].k) == Others(l, l[i].k)
  {
    OthersWithout(l, i);
    OthersConcat([l[i]], Without(l, i), l[i].k);
    OthersOne(l[i]);
  }

  lemma OthersBack(l: Level, i: nat)
    requires i < |l|
    ensures ToBack(l, i)[|l| - 1] == l[i] && Others(ToBack(l, i), l[i].k) == Others(l, l[i].k)
  {
    OthersWithout(l, i);
    OthersConcat(Without(l, i), [l[i]], l[i].k);
    OthersOne(l[i]);
  }

  /** A read of a key that has an entry, dead or alive, brings it to the front, and the
      other entries keep their order. */
  lemma TouchMoves(l: Level, k: Key)
    ensures Others(Touch(l, k), k) == Others(l, k)
    ensures Holds(l, k) ==> Touch(l, k)[0] == l[Find(l, k)]
  {
    hide Others;
    if Holds(l, k) {
      OthersFront(l, Find(l, k));
    }
  }

  /** A write of a key brings it to the front. The other entries keep their order; only the
      last of a full level goes, for a key that has no entry. */
  lemma PutMoves(l: Level, cap: nat, k: Key, v: Value, expireAt: int)
    requires 0 < cap && |l| <= cap
    ensures var r := Put(l, cap, k, v, expireAt);
      && r != [] && r[0] == Entry(k, v, expireAt)
      && Others(r, k) ==
        if Holds(l, k) then Others(l, k) else if |l| == cap then l[..cap - 1] else l
  {
    var i, e := Find(l, k), Entry(k, v, expireAt);
    hide Others;
    OthersOne(e);
    if i < |l| {
      OthersUpdate(l, i, e);
      OthersFront(l[i := e], i);
    } else {
      var rest := if |l| == cap then l[..cap - 1] else l;
      assert !Holds(rest, k) by {
        assert forall j | 0 <= j < |rest| :: rest[j] == l[j];
      }
      OthersAll(rest, k);
      OthersConcat([e], rest, k);
    }
  }

  /** A deletion sends a live entry to the back, and the other entries keep their order. */
  lemma KillMoves(l: Level, k: Key)
    ensures Others(Kill(l, k), k) == Others(l, k)
    ensures Holds(l, k) && l[Find(l, k)].Live() ==>
      Kill(l, k)[|l| - 1] == l[Find(l, k)].(expireAt := 0)
  {
    hide Others;
    var i := Find(l, k);
    if i < |l| && l[i].Live() {
      var e := l[i].(expireAt := 0);
      OthersUpdate(l, i, e);
      OthersBack(l[i := e], i);
    }
  }

  // ---- Live entries in the order of a rank ----

  /** Live entries of higher rank come first. */
  ghost predicate Ranked(l: Level, rank: Key -> nat) {
    forall i, j | 0 <= i < j < |l| && l[i].Live() && l[j].Live() :: rank(l[i].k) > rank(l[j].k)
  }

  lemma RankedSame(l: Level, rank: Key -> nat, rank': Key -> nat)
    requires Ranked(l, rank) && forall e | e in l && e.Live() :: rank'(e.k) == rank(e.k)
    ensures Ranked(l, rank')
  {
    assert forall i | 0 <= i < |l| :: l[i] in l;
  }

  /** The rank of a key that is not live, or that is in front, may grow. */
  lemma RankedFront(l: Level, k: Key, rank: Key -> nat, rank': Key -> nat)
    requires DistinctKeys(l) && l != [] && l[0].k == k && Ranked(l[1..], rank)
    requires forall q | q != k :: rank'(q) == rank(q) && rank(q) < rank'(k)
    ensures Ranked(l, rank')
  {
    forall i, j | 0 <= i < j < |l| && l[i].Live() && l[j].Live() ensures rank'(l[i].k) > rank'(l[j].k) {
      assert l[j] == l[1..][j - 1] && l[j].k != k;
      if 0 < i {
        assert l[i] == l[1..][i - 1] && l[i].k != k;
      }
    }
  }

  lemma RankedWithout(l: Level, i: nat, rank: Key -> nat)
    requires i < |l| && Ranked(l, rank)
    ensures Ranked(Without(l, i), rank)
  {
    var r := Without(l, i);
    assert forall j | 0 <= j < |r| :: r[j] == l[if j < i then j else j + 1];
  }

  lemma RankedUpdate(l: Level, i: nat, e: Entry, rank: Key -> nat)
    requires i < |l| && Ranked(l, rank)
    ensures Without(l[i := e], i) == Without(l, i) && Ranked(Without(l[i := e], i), rank)
  {
    assert Without(l[i := e], i) == Without(l, i);
    RankedWithout(l, i, rank);
  }

  lemma RankedTouch(l: Level, k: Key, rank: Key -> nat, rank': Key -> nat)
    requires DistinctKeys(l) && Ranked(l, rank)
    requires forall q | q != k :: rank'(q) == rank(q) && rank(q) < rank'(k)
    ensures Ranked(Touch(l, k), rank')
  {
    TouchEffect(l, k);
    hide Ranked, DistinctKeys;
    var i := Find(l, k);
    if i < |l| {
      RankedWithout(l, i, rank);
      assert Touch(l, k)[1..] == Without(l, i);
      RankedFront(Touch(l, k), k, rank, rank');
    } else {
      NotFound(l, k);
      RankedSame(l, rank, rank');
    }
  }

  lemma NotFound(l: Level, k: Key)
    requires !Holds(l, k)
    ensures forall e | e in l :: e.k != k
  {
  }

  lemma RankedPut(l: Level, cap: nat, k: Key, v: Value, expireAt: int, rank: Key -> nat, rank': Key -> nat)
    requires DistinctKeys(l) && |l| <= cap && 0 < cap && Ranked(l, rank)
    requires forall q | q != k :: rank'(q) == rank(q) && rank(q) < rank'(k)
    ensures Ranked(Put(l, cap, k, v, expireAt), rank')
  {
    var i, e, r := Find(l, k), Entry(k, v, expireAt), Put(l, cap, k, v, expireAt);
    PutEffect(l, cap, k, v, expireAt);
    if i < |l| {
      RankedUpdate(l, i, e, rank);
      assert r[1..] == Without(l[i := e], i);
    } else if |l| == cap {
      assert r[1..] == l[..cap - 1];
    } else {
      assert r[1..] == l;
    }
    RankedFront(r, k, rank, rank');
  }

  lemma RankedKill(l: Level, k: Key, rank: Key -> nat, rank': Key -> nat)
    requires DistinctKeys(l) && Ranked(l, rank)
    requires forall q | q != k :: rank'(q) == rank(q)
    ensures Ranked(Kill(l, k), rank')
  {
    var i, r := Find(l, k), Kill(l, k);
    KillEffect(l, k);
    if i < |l| && l[i].Live() {
      var e := l[i].(expireAt := 0);
      RankedUpdate(l, i, e, rank);
      assert r == Without(l[i := e], i) + [e];
      assert r[..|l| - 1] == Without(l[i := e], i);
      RankedSnoc(r, rank);
    }
    DeadHere(r, k);
    RankedSame(r, rank, rank');
  }

  lemma RankedSnoc(l: Level, rank: Key -> nat)
    requires l != [] && Ranked(l[..|l| - 1], rank) && !l[|l| - 1].Live()
    ensures Ranked(l, rank)
  {
    var r := l[..|l| - 1];
    assert forall i | 0 <= i < |r| :: r[i] == l[i];
  }

  // ---- Every run of the store ----

  /** After how many operations the key was last set. */
  function LastSet(ops: seq<Op>, k: Key): (n: nat)
    ensures n <= |ops|
  {
    if ops == [] then 0
    else if ops[|ops| - 1].Set? && ops[|ops| - 1].k == k then |ops|
    else LastSet(ops[..|ops| - 1], k)
  }

  /** After how many operations a get last asked for the key. */
  function LastGet(ops: seq<Op>, k: Key): (n: nat)
    ensures n <= |ops|
  {
    if ops == [] then 0
    else if ops[|ops| - 1].Get? && ops[|ops| - 1].k == k then |ops|
    else LastGet(ops[..|ops| - 1], k)
  }

  function Sets(ops: seq<Op>): Key -> nat {
    k => LastSet(ops, k)
  }

  function Gets(ops: seq<Op>): Key -> nat {
    k => LastGet(ops, k)
  }

  lemma RanksNext(ops: seq<Op>, op: Op)
    ensures forall k :: Sets(ops + [op])(k) == if op.Set? && op.k == k then |ops| + 1 else Sets(ops)(k)
    ensures forall k :: Gets(ops + [op])(k) == if op.Get? && op.k == k then |ops| + 1 else Gets(ops)(k)
    ensures forall k :: Sets(ops)(k) <= |ops| && Gets(ops)(k) <= |ops|
  {
    assert (ops + [op])[..|ops|] == ops;
  }

  ghost predicate BucketRanked(b: Bucket, ops: seq<Op>) {
    Ranked(b.l0, Sets(ops)) && Ranked(b.l1, Gets(ops))
  }

  lemma DeleteRanked(b: Bucket, k: Key, sets: Key -> nat, gets: Key -> nat)
    requires BucketOk(b) && Ranked(b.l0, sets) && Ranked(b.l1, gets)
    ensures BucketOk(DeleteIn(b, k)) && Ranked(DeleteIn(b, k).l0, sets) && Ranked(DeleteIn(b, k).l1, gets)
  {
    hide Ranked, Kill;
    DeleteEffect(b, k, k);
    RankedKill(b.l0, k, sets, sets);
    RankedKill(b.l1, k, gets, gets);
  }

  lemma {:induction false} DeleteAllRanked(b: Bucket, ks: seq<Key>, sets: Key -> nat, gets: Key -> nat)
    requires BucketOk(b) && Ranked(b.l0, sets) && Ranked(b.l1, gets)
    ensures Ranked(DeleteAll(b, ks).l0, sets) && Ranked(DeleteAll(b, ks).l1, gets)
    decreases |ks|
  {
    hide Ranked, DeleteIn, BucketOk;
    if ks != [] {
      DeleteRanked(b, ks[0], sets, gets);
      DeleteAllRanked(DeleteIn(b, ks[0]), ks[1..], sets, gets);
    }
  }

  lemma GetRanked(b: Bucket, k: Key, now: int, later: int, sets: Key -> nat, gets: Key -> nat, gets': Key -> nat)
    requires BucketOk(b) && Ranked(b.l0, sets) && Ranked(b.l1, gets)
    requires forall q | q != k :: gets'(q) == gets(q) && gets(q) < gets'(k)
    ensures var r := GetIn(b, k, now, later).0; Ranked(r.l0, sets) && Ranked(r.l1, gets')
  {
    hide Ranked, Kill, Put, Touch, DistinctKeys;
    var e0, e1 := LiveCopy(b.l0, k), LiveCopy(b.l1, k);
    if e0.Some? {
      var b' := b.(l0 := Kill(b.l0, k));
      KillEffect(b.l0, k);
      RankedKill(b.l0, k, sets, sets);
      if Expired(e0.value, now) {
        RankedKill(b'.l0, k, sets, sets);
        RankedKill(b'.l1, k, gets, gets');
      } else {
        RankedPut(b.l1, b.cap1, k, e0.value.v, e0.value.expireAt, gets, gets');
      }
    } else {
      TouchEffect(b.l1, k);
      RankedTouch(b.l1, k, gets, gets');
      RankedKill(b.l0, k, sets, sets);
      RankedKill(Touch(b.l1, k), k, gets', gets');
    }
  }

  lemma AfterRanked(b: Bucket, op: Op, ops: seq<Op>)
    requires BucketOk(b) && BucketRanked(b, ops)
    ensures BucketRanked(BucketAfter(b, op), ops + [op])
  {
    hide Ranked, DeleteIn, GetIn, Put, Sets, Gets, DeleteAll, ExpiredKeys;
    RanksNext(ops, op);
    var sets, gets, sets', gets' := Sets(ops), Gets(ops), Sets(ops + [op]), Gets(ops + [op]);
    match op
    case Set(k, v, expireAt) =>
      RankedPut(b.l0, b.cap0, k, v, expireAt, sets, sets');
      RankedSame(b.l1, gets, gets');
    case Get(k, now, later) =>
      GetRanked(b, k, now, later, sets, gets, gets');
      RankedSame(GetIn(b, k, now, later).0.l0, sets, sets');
    case Delete(k) =>
      RankedSame(b.l0, sets, sets');
      RankedSame(b.l1, gets, gets');
      DeleteRanked(b, k, sets', gets');
    case Cleanup(_, now) =>
      RankedSame(b.l0, sets, sets');
      RankedSame(b.l1, gets, gets');
      DeleteAllRanked(b, ExpiredKeys(b.l1, now, ExpiredKeys(b.l0, now, [])), sets', gets');
  }

  lemma OtherRanked(b: Bucket, i: nat, mask: nat, op: Op, ops: seq<Op>)
    requires BucketHomed(b, i, mask) && BucketRanked(b, ops) && (op.Cleanup? || BucketOf(op.k, mask) != i)
    ensures BucketRanked(b, ops + [op])
  {
    hide Ranked, Sets, Gets, BucketOf;
    RanksNext(ops, op);
    RankedSame(b.l0, Sets(ops), Sets(ops + [op]));
    RankedSame(b.l1, Gets(ops), Gets(ops + [op]));
  }

  ghost predicate StoreRanked(s: Store, ops: seq<Op>) {
    forall i | 0 <= i < |s.buckets| :: BucketRanked(s.buckets[i], ops)
  }

  /** Over every run from the empty store: in level 0 the live entries are in the order of
      the last sets of their keys, in level 1 in the order of the last gets. */
  lemma {:induction false} RecencyOrder(s: Store, ops: seq<Op>)
    requires StoreOk(s) && EmptyStore(s)
    ensures StoreRanked(Run(s, ops), ops)
  {
    hide BucketRanked, BucketOk, BucketAfter, Step;
    if ops == [] {
      forall i | 0 <= i < |s.buckets| ensures BucketRanked(s.buckets[i], ops) {
        EmptyRanked(s.buckets[i], ops);
      }
    } else {
      var before, op := ops[..|ops| - 1], ops[|ops| - 1];
      var r := Run(s, before);
      RecencyOrder(s, before);
      StepIs(r, op);
      assert before + [op] == ops;
      forall i | 0 <= i < |r.buckets| ensures BucketRanked(Run(s, ops).buckets[i], ops) {
        if Target(r, op) == Some(i) {
          AfterRanked(r.buckets[i], op, before);
        } else {
          OtherRanked(r.buckets[i], i, r.mask, op, before);
        }
      }
    }
  }

  lemma EmptyRanked(b: Bucket, ops: seq<Op>)
    requires b.l0 == [] && b.l1 == []
    ensures BucketRanked(b, ops)
  {
  }

  // ---- Which entry makes room ----

  /** A put makes room only in a full level, and only by its last entry; if that is live,
      its rank is below that of all other live entries. */
  lemma PutEvicts(l: Level, cap: nat, k: Key, v: Value, expireAt: int, q: Key, rank: Key -> nat)
    requires DistinctKeys(l) && |l| <= cap && 0 < cap && Ranked(l, rank)
    requires q != k && LiveKey(l, q) && !LiveKey(Put(l, cap, k, v, expireAt), q)
    ensures |l| == cap && !Holds(l, k)
    ensures forall x | x != q && LiveKey(l, x) :: rank(q) < rank(x)
  {
    hide Put, DistinctKeys;
    PutEffect(l, cap, k, v, expireAt);
    LiveKeyIs(l, q);
    LiveKeyIs(Put(l, cap, k, v, expireAt), q);
    LiveAfterPut(l, cap, k, v, expireAt, q);
    var last := cap - 1;
    assert l[last].k == q;
    LastIsLive(l, last, q);
    forall x | x != q && LiveKey(l, x) ensures rank(q) < rank(x) {
      var e :| e in l && e.k == x && e.Live();
      var i :| 0 <= i < |l| && l[i] == e;
      assert i != last;
    }
  }

  lemma LastIsLive(l: Level, i: nat, q: Key)
    requires DistinctKeys(l) && i < |l| && l[i].k == q && LiveKey(l, q)
    ensures l[i].Live()
  {
    var e :| e in l && e.k == q && e.Live();
    var j :| 0 <= j < |l| && l[j] == e;
  }

  /** Over every run from the empty store: a set that pushes the live entry of another key
      out of level 0 takes, from a full level, the key whose last set is the oldest; and a
      get that pushes one out of level 1 takes the key whose last get is the oldest. */
  lemma EvictsOldest(s: Store, ops: seq<Op>, op: Op, q: Key)
    requires StoreOk(s) && EmptyStore(s) && (op.Set? || op.Get?) && op.k != q
    ensures var b, b' := HomeOf(Run(s, ops), q), HomeOf(Run(s, ops + [op]), q);
      && (LiveKey(b.l0, q) && !LiveKey(b'.l0, q) ==>
            && op.Set? && |b.l0| == b.cap0
            && forall x | x != q && LiveKey(b.l0, x) :: LastSet(ops, q) < LastSet(ops, x))
      && (LiveKey(b.l1, q) && !LiveKey(b'.l1, q) ==>
            && op.Get? && |b.l1| == b.cap1
            && forall x | x != q && LiveKey(b.l1, x) :: LastGet(ops, q) < LastGet(ops, x))
  {
    hide Step, BucketAfter, LiveKey, Ranked;
    var r, home := Run(s, ops), BucketOf(q, s.mask);
    var b := r.buckets[home];
    RecencyOrder(s, ops);
    assert (ops + [op])[..|ops|] == ops;
    StepIs(r, op);
    assert BucketRanked(b, ops);
    if BucketOf(op.k, s.mask) == home {
      BucketEvicts(b, op, q, Sets(ops), Gets(ops));
    }
  }

  lemma BucketEvicts(b: Bucket, op: Op, q: Key, sets: Key -> nat, gets: Key -> nat)
    requires BucketOk(b) && Ranked(b.l0, sets) && Ranked(b.l1, gets) && (op.Set? || op.Get?) && op.k != q
    ensures LiveKey(b.l0, q) && !LiveKey(BucketAfter(b, op).l0, q) ==>
      op.Set? && |b.l0| == b.cap0 && forall x | x != q && LiveKey(b.l0, x) :: sets(q) < sets(x)
    ensures LiveKey(b.l1, q) && !LiveKey(BucketAfter(b, op).l1, q) ==>
      op.Get? && |b.l1| == b.cap1 && forall x | x != q && LiveKey(b.l1, x) :: gets(q) < gets(x)
  {
    hide LiveKey, Ranked, Put, Kill, Touch, DistinctKeys;
    match op
    case Set(k, v, expireAt) =>
      if LiveKey(b.l0, q) && !LiveKey(SetIn(b, k, v, expireAt).l0, q) {
        PutEvicts(b.l0, b.cap0, k, v, expireAt, q, sets);
      }
    case Get(k, now, later) => GetEvicts(b, k, now, later, q, gets);
  }

  lemma GetEvicts(b: Bucket, k: Key, now: int, later: int, q: Key, gets: Key -> nat)
    requires BucketOk(b) && Ranked(b.l1, gets) && k != q
    ensures var b' := GetIn(b, k, now, later).0;
      && (LiveKey(b.l0, q) ==> LiveKey(b'.l0, q))
      && (LiveKey(b.l1, q) && !LiveKey(b'.l1, q) ==>
            |b.l1| == b.cap1 && forall x | x != q && LiveKey(b.l1, x) :: gets(q) < gets(x))
  {
    hide LiveKey, Ranked, Put, Kill, Touch, DistinctKeys, PushesOut;
    var b' := GetIn(b, k, now, later).0;
    GetEffect(b, k, now, later, q);
    LiveKeyIs(b.l0, q);
    LiveKeyIs(b'.l0, q);
    LiveKeyIs(b.l1, q);
    LiveKeyIs(b'.l1, q);
    if LiveKey(b.l1, q) && !LiveKey(b'.l1, q) {
      var e0 := LiveCopy(b.l0, k);
      PutEvicts(b.l1, b.cap1, k, e0.value.v, e0.value.expireAt, q, gets);
    }
  }
}
