/** What Keys, Len and Clear say of the whole store. */
module StoreViews {
  import opened Basics
  import opened RecencyList
  import opened Hashing
  import opened TwoLevel
  import opened StoreRuns

  /** The keys of the live entries of a level. */
  ghost function KeySet(l: Level): set<Key> {
    if l == [] then {} else (if l[0].Live() then {l[0].k} else {}) + KeySet(l[1..])
  }

  lemma {:induction false} KeySetIs(l: Level, k: Key)
    requires DistinctKeys(l)
    ensures k in KeySet(l) <==> LiveCopy(l, k).Some?
  {
    if l != [] {
      KeySetIs(l[1..], k);
      if l[0].k == k {
        assert Find(l[1..], k) == |l[1..]|;
      }
    }
  }

  lemma {:induction false} KeySetSize(l: Level)
    requires DistinctKeys(l)
    ensures |KeySet(l)| == |LiveEntries(l)|
  {
    if l != [] {
      KeySetSize(l[1..]);
      KeySetIs(l[1..], l[0].k);
      assert Find(l[1..], l[0].k) == |l[1..]|;
    }
  }

  lemma {:induction false} KeySetHomed(l: Level, i: nat, mask: nat, k: Key)
    requires Homed(l, i, mask) && k in KeySet(l)
    ensures BucketOf(k, mask) == i
  {
    if l[0].k != k || !l[0].Live() {
      KeySetHomed(l[1..], i, mask, k);
    }
  }

  ghost function BucketKeys(b: Bucket): set<Key> {
    KeySet(b.l0) + KeySet(b.l1)
  }

  ghost function BucketBoth(b: Bucket): set<Key> {
    KeySet(b.l0) * KeySet(b.l1)
  }

  /** The keys of the live entries of the buckets bs. */
  ghost function AllKeys(bs: seq<Bucket>): set<Key> {
    if bs == [] then {} else AllKeys(bs[..|bs| - 1]) + BucketKeys(bs[|bs| - 1])
  }

  /** The keys that have a live entry in both levels. */
  ghost function BothKeys(bs: seq<Bucket>): set<Key> {
    if bs == [] then {} else BothKeys(bs[..|bs| - 1]) + BucketBoth(bs[|bs| - 1])
  }

  /** The number of live entries. */
  function LiveCount(bs: seq<Bucket>): nat {
    if bs == [] then 0
    else LiveCount(bs[..|bs| - 1]) + |LiveEntries(bs[|bs| - 1].l0)| + |LiveEntries(bs[|bs| - 1].l1)|
  }

  ghost predicate AllHomed(bs: seq<Bucket>, mask: nat) {
    forall i | 0 <= i < |bs| :: BucketOk(bs[i]) && BucketHomed(bs[i], i, mask)
  }

  lemma KeysHome(b: Bucket, i: nat, mask: nat, k: Key)
    requires BucketHomed(b, i, mask) && k in BucketKeys(b)
    ensures BucketOf(k, mask) == i
  {
    if k in KeySet(b.l0) {
      KeySetHomed(b.l0, i, mask, k);
    } else {
      KeySetHomed(b.l1, i, mask, k);
    }
  }

  lemma {:induction false} AllKeysHome(bs: seq<Bucket>, mask: nat, k: Key)
    requires AllHomed(bs, mask)
    ensures BothKeys(bs) <= AllKeys(bs)
    ensures k in AllKeys(bs) <==> BucketOf(k, mask) < |bs| && k in BucketKeys(bs[BucketOf(k, mask)])
    ensures k in BothKeys(bs) <==> BucketOf(k, mask) < |bs| && k in BucketBoth(bs[BucketOf(k, mask)])
  {
    hide KeySet;
    if bs != [] {
      var n := |bs| - 1;
      AllKeysHome(bs[..n], mask, k);
      if k in BucketKeys(bs[n]) {
        KeysHome(bs[n], n, mask, k);
      }
    }
  }

  /** Every live entry is counted once per level: the count is the number of
      keys plus the number of keys that are live in both levels. */
  lemma {:induction false} CountIs(bs: seq<Bucket>, mask: nat)
    requires AllHomed(bs, mask)
    ensures LiveCount(bs) == |AllKeys(bs)| + |BothKeys(bs)|
  {
    if bs != [] {
      var n := |bs| - 1;
      var b, rest := bs[n], bs[..n];
      CountIs(rest, mask);
      KeySetSize(b.l0);
      KeySetSize(b.l1);
      forall k | k in AllKeys(rest) ensures k !in BucketKeys(b) {
        AllKeysHome(rest, mask, k);
        if k in BucketKeys(b) {
          KeysHome(b, n, mask, k);
        }
      }
      AllKeysHome(rest, mask, []);
      hide KeySet, LiveEntries, AllHomed;
    }
  }

  /** The keys of the store, as the live copies tell. */
  lemma KeysAre(s: Store, k: Key)
    requires StoreOk(s)
    ensures AllHomed(s.buckets, s.mask)
    ensures k in AllKeys(s.buckets) <==> ViewIn(s, k) != View(None, None)
    ensures k in BothKeys(s.buckets) <==> ViewIn(s, k).a.Some? && ViewIn(s, k).b.Some?
  {
    AllKeysHome(s.buckets, s.mask, k);
    KeySetIs(HomeOf(s, k).l0, k);
    KeySetIs(HomeOf(s, k).l1, k);
  }

  function Deletes(ks: seq<Key>): seq<Op> {
    seq(|ks|, i requires 0 <= i < |ks| => Delete(ks[i]))
  }

  lemma {:induction false} DeletesEffect(s: Store, ks: seq<Key>, k: Key)
    requires StoreOk(s)
    ensures ViewIn(Run(s, Deletes(ks)), k) == if k in ks then View(None, None) else ViewIn(s, k)
  {
    hide StoreOk, ViewIn, Step;
    if ks != [] {
      var n := |ks| - 1;
      DeletesEffect(s, ks[..n], k);
      assert Deletes(ks)[..n] == Deletes(ks[..n]);
      assert ks == ks[..n] + [ks[n]];
      StepRefines(Run(s, Deletes(ks[..n])), Delete(ks[n]), k);
    }
  }

  /** Deleting all keys leaves no live entry. */
  lemma ClearLeavesNone(s: Store, ks: seq<Key>)
    requires StoreOk(s) && forall k | k in AllKeys(s.buckets) :: k in ks
    ensures var r := Run(s, Deletes(ks));
      AllKeys(r.buckets) == {} && LiveCount(r.buckets) == 0
  {
    hide StoreOk, AllKeys, BothKeys, LiveCount;
    var r := Run(s, Deletes(ks));
    forall k ensures k !in AllKeys(r.buckets) && k !in BothKeys(r.buckets) {
      KeysAre(s, k);
      KeysAre(r, k);
      DeletesEffect(s, ks, k);
    }
    KeysAre(r, []);
    CountIs(r.buckets, r.mask);
    assert AllKeys(r.buckets) == {} && BothKeys(r.buckets) == {};
  }

  predicate NoSetOf(ops: seq<Op>, k: Key) {
    forall i | 0 <= i < |ops| :: !(ops[i].Set? && ops[i].k == k)
  }

  /** Clear against other operations: s is the store when the bucket of k is listed, and
      ops is everything done to the store from then on, by Clear and by others. If Clear
      deletes k in case it listed it, then only a set of k in between can leave k live. */
  lemma {:induction false} ClearWithOthers(s: Store, ops: seq<Op>, k: Key)
    requires StoreOk(s) && (ViewIn(s, k) != View(None, None) ==> Delete(k) in ops)
    requires NoSetOf(ops, k)
    ensures ViewIn(Run(s, ops), k) == View(None, None)
  {
    hide StoreOk, ViewIn, Step;
    if ops != [] {
      var before, op := ops[..|ops| - 1], ops[|ops| - 1];
      assert ops == before + [op];
      if op != Delete(k) {
        ClearWithOthers(s, before, k);
      }
      StepRefines(Run(s, before), op, k);
    }
  }

  /** The keys a walk passes over. */
  ghost function KeysOf(live: seq<Entry>): set<Key> {
    if live == [] then {} else {live[0].k} + KeysOf(live[1..])
  }

  lemma {:induction false} KeysOfWalk(l: Level)
    ensures KeysOf(LiveEntries(l)) == KeySet(l)
  {
    if l != [] {
      KeysOfWalk(l[1..]);
      assert l[0].Live() ==> LiveEntries(l)[1..] == LiveEntries(l[1..]);
    }
  }

  lemma AllKeysNext(bs: seq<Bucket>, i: nat)
    requires i < |bs|
    ensures AllKeys(bs[..i + 1]) == AllKeys(bs[..i]) + BucketKeys(bs[i])
    ensures LiveCount(bs[..i + 1]) == LiveCount(bs[..i]) + |LiveEntries(bs[i].l0)| + |LiveEntries(bs[i].l1)|
  {
    assert bs[..i + 1][..i] == bs[..i];
  }

  lemma NoKeys()
    ensures AllKeys([]) == {}
  {
  }
}
