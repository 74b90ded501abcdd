/** Runs from the empty store that show which tempting claims are false. They are
    runs of a store of one bucket. */
module StoreWitness {
  import opened Basics
  import opened RecencyList
  import opened TwoLevel
  import opened StoreRuns
  import opened StoreShape

  function At(l0: Level, l1: Level, cap0: nat, cap1: nat): Store {
    Store(0, [Bucket(l0, l1, cap0, cap1)])
  }

  const A: Key := [1]
  const B: Key := [2]
  const C: Key := [3]
  const V1 := Bytes([1])
  const V2 := Bytes([2])

  /** A run of one more step than a run that is known. */
  lemma RunNext(s: Store, ops: seq<Op>, last: Op, all: seq<Op>)
    requires StoreOk(s) && all == ops + [last]
    ensures Run(s, all) == Step(Run(s, ops), last).0
    ensures Run(s, []) == s
  {
    assert all[..|all| - 1] == ops;
  }

  lemma SetStep(l0: Level, l1: Level, cap0: nat, cap1: nat, k: Key, v: Value, e: int, r: Level)
    requires 0 < cap0 && 0 < cap1 && StoreOk(At(l0, l1, cap0, cap1)) && r == Put(l0, cap0, k, v, e)
    ensures Step(At(l0, l1, cap0, cap1), Set(k, v, e)).0 == At(r, l1, cap0, cap1)
  {
    StepIs(At(l0, l1, cap0, cap1), Set(k, v, e));
  }

  lemma PromoteStep(l0: Level, l1: Level, cap0: nat, cap1: nat, k: Key, now: int, e: Entry, r0: Level, r1: Level)
    requires 0 < cap0 && 0 < cap1 && StoreOk(At(l0, l1, cap0, cap1)) && LiveCopy(l0, k) == Some(e) && now < e.expireAt
    requires r0 == Kill(l0, k) && r1 == Put(l1, cap1, k, e.v, e.expireAt)
    ensures Step(At(l0, l1, cap0, cap1), Get(k, now, now)) == (At(r0, r1, cap0, cap1), Some(e.v))
  {
    hide Put, Kill;
    LiveCopyIs(l0, k);
    StepIs(At(l0, l1, cap0, cap1), Get(k, now, now));
    var b := Bucket(l0, l1, cap0, cap1);
    assert [b][0 := Bucket(r0, r1, cap0, cap1)] == [Bucket(r0, r1, cap0, cap1)];
    assert b.(l0 := r0).(l1 := r1) == Bucket(r0, r1, cap0, cap1);
  }

  /** Levels of one slot. */
  lemma Singles(e: Entry, f: Entry)
    ensures Put([], 1, e.k, e.v, e.expireAt) == [e]
    ensures Put([e], 1, f.k, f.v, f.expireAt) == [f]
    ensures e.Live() ==> Kill([e], e.k) == [e.(expireAt := 0)]
    ensures LiveCopy([e], f.k) == if f.k == e.k && e.Live() then Some(e) else None
  {
    if f.k == e.k {
      assert ToFront([e][0 := f], 0) == [f];
    }
    assert ToBack([e][0 := e.(expireAt := 0)], 0) == [e.(expireAt := 0)];
  }

  /** The exception to freshness is real: the older value comes back after the
      level-0 copy of the newer one made room. */
  lemma StaleRead()
    ensures StoreOk(At([], [], 1, 1)) && EmptyStore(At([], [], 1, 1))
    ensures var ops := [Set(A, V1, 100), Get(A, 1, 1), Set(A, V2, 100), Set(B, V1, 100)];
      Step(Run(At([], [], 1, 1), ops), Get(A, 1, 1)).1 == Some(V1)
  {
    hide Put, Kill, Find, Run, Step;
    var s := At([], [], 1, 1);
    var o1, o2, o3, o4 := Set(A, V1, 100), Get(A, 1, 1), Set(A, V2, 100), Set(B, V1, 100);
    var a1, a1', a2, b1 := Entry(A, V1, 100), Entry(A, V1, 0), Entry(A, V2, 100), Entry(B, V1, 100);
    Singles(a1, a2);
    Singles(a1', a2);
    Singles(a2, b1);
    Singles(b1, a1);
    SetStep([], [], 1, 1, A, V1, 100, [a1]);
    RunNext(s, [], o1, [o1]);
    PromoteStep([a1], [], 1, 1, A, 1, a1, [a1'], [a1]);
    RunNext(s, [o1], o2, [o1, o2]);
    SetStep([a1'], [a1], 1, 1, A, V2, 100, [a2]);
    RunNext(s, [o1, o2], o3, [o1, o2, o3]);
    SetStep([a2], [a1], 1, 1, B, V1, 100, [b1]);
    RunNext(s, [o1, o2, o3], o4, [o1, o2, o3, o4]);
    StepRefines(At([b1], [a1], 1, 1), Get(A, 1, 1), A);
  }

  lemma Kept(e: Entry, f: Entry)
    requires e.k != f.k && e.Live()
    ensures Put([], 2, e.k, e.v, e.expireAt) == [e]
    ensures Put([e], 2, f.k, f.v, f.expireAt) == [f, e]
    ensures Kill([f, e], e.k) == [f, e.(expireAt := 0)]
    ensures Kill([f.(expireAt := 0)], e.k) == [f.(expireAt := 0)]
    ensures DeadAmongLive([f, e.(expireAt := 0)], e.k) <==> f.Live()
    ensures LiveCopy([f.(expireAt := 0)], e.k) == None
  {
    assert [f, e][1..] == [e];
    assert Find([f, e], e.k) == 1;
    assert ToBack([f, e][1 := e.(expireAt := 0)], 1) == [f, e.(expireAt := 0)];
    var l := [f, e.(expireAt := 0)];
    assert l[1..] == [e.(expireAt := 0)] && Find(l, e.k) == 1;
    assert f.Live() ==> l[0].Live();
  }

  /** A run after which a dead entry of level 1 lies in front of a live one: two keys are
      set and read, one is deleted, and the deleted one is read. */
  lemma DeadInFront()
    ensures StoreOk(At([], [], 1, 2)) && EmptyStore(At([], [], 1, 2))
    ensures var ops := [Set(A, V1, 100), Get(A, 1, 1), Set(B, V1, 100), Get(B, 1, 1), Delete(A)];
      StorePrefix1(Run(At([], [], 1, 2), ops)) && !StorePrefix1(Run(At([], [], 1, 2), ops + [Get(A, 1, 1)]))
  {
    hide Put, Kill, Find, Run, Step, StorePrefix1, DeadAmongLive, LiveCopy;
    var s := At([], [], 1, 2);
    var o1, o2, o3, o4, o5, o6 := Set(A, V1, 100), Get(A, 1, 1), Set(B, V1, 100), Get(B, 1, 1), Delete(A), Get(A, 1, 1);
    var a, a', b, b' := Entry(A, V1, 100), Entry(A, V1, 0), Entry(B, V1, 100), Entry(B, V1, 0);
    Singles(a, a);
    Singles(a', b);
    Singles(b, b);
    Kept(a, b);
    SetStep([], [], 1, 2, A, V1, 100, [a]);
    RunNext(s, [], o1, [o1]);
    PromoteStep([a], [], 1, 2, A, 1, a, [a'], [a]);
    RunNext(s, [o1], o2, [o1, o2]);
    SetStep([a'], [a], 1, 2, B, V1, 100, [b]);
    RunNext(s, [o1, o2], o3, [o1, o2, o3]);
    PromoteStep([b], [a], 1, 2, B, 1, b, [b'], [b, a]);
    RunNext(s, [o1, o2, o3], o4, [o1, o2, o3, o4]);
    DeleteStep([b'], [b, a], 1, 2, A, [b'], [b, a']);
    RunNext(s, [o1, o2, o3, o4], o5, [o1, o2, o3, o4, o5]);
    var ops := [o1, o2, o3, o4, o5];
    RunNext(s, ops, o6, ops + [o6]);
    Ordered([b'], [b, a'], 1, 2);
    Level1Step(Run(s, ops), o6);
  }

  lemma Ordered(l0: Level, l1: Level, cap0: nat, cap1: nat)
    requires LivePrefix(l1)
    ensures StorePrefix1(At(l0, l1, cap0, cap1))
  {
  }

  lemma DeleteStep(l0: Level, l1: Level, cap0: nat, cap1: nat, k: Key, r0: Level, r1: Level)
    requires 0 < cap0 && 0 < cap1 && StoreOk(At(l0, l1, cap0, cap1)) && r0 == Kill(l0, k) && r1 == Kill(l1, k)
    ensures Step(At(l0, l1, cap0, cap1), Delete(k)).0 == At(r0, r1, cap0, cap1)
  {
    hide Kill;
    StepIs(At(l0, l1, cap0, cap1), Delete(k));
  }

  /** A run that loses an unexpired value to cleanup: the value set last outlives the pass,
      the copy of the value before it, which a get had moved to level 1, does not. */
  lemma FreshDropped()
    ensures StoreOk(At([], [], 1, 1)) && EmptyStore(At([], [], 1, 1))
    ensures var ops := [Set(A, V1, 10), Get(A, 1, 1), Set(A, V2, 100)];
      && PeekIn(HomeOf(Run(At([], [], 1, 1), ops), A), A, 50) == Some(V2)
      && PeekIn(HomeOf(Run(At([], [], 1, 1), ops + [Cleanup(0, 50)]), A), A, 50) == None
  {
    hide Put, Kill, Find, Run, Step;
    var s := At([], [], 1, 1);
    var o1, o2, o3 := Set(A, V1, 10), Get(A, 1, 1), Set(A, V2, 100);
    var a1, a1', a2 := Entry(A, V1, 10), Entry(A, V1, 0), Entry(A, V2, 100);
    Singles(a1, a2);
    Singles(a1', a2);
    Singles(a2, a2);
    Singles(a1, a1);
    SetStep([], [], 1, 1, A, V1, 10, [a1]);
    RunNext(s, [], o1, [o1]);
    PromoteStep([a1], [], 1, 1, A, 1, a1, [a1'], [a1]);
    RunNext(s, [o1], o2, [o1, o2]);
    SetStep([a1'], [a1], 1, 1, A, V2, 100, [a2]);
    RunNext(s, [o1, o2], o3, [o1, o2, o3]);
    var ops := [o1, o2, o3];
    RunNext(s, ops, Cleanup(0, 50), ops + [Cleanup(0, 50)]);
    CleanupDropsFresh(At([a2], [a1], 1, 1), A, 50);
  }
}
