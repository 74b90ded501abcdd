/** The two-level store as a value, its operations, and what a run of them does
    to one key. */
module TwoLevel {
  import opened Basics
  import opened RecencyList
  import opened Hashing

  datatype Bucket = Bucket(l0: Level, l1: Level, cap0: nat, cap1: nat)

  ghost predicate BucketOk(b: Bucket) {
    && 0 < b.cap0 && 0 < b.cap1
    && |b.l0| <= b.cap0 && |b.l1| <= b.cap1
    && DistinctKeys(b.l0) && DistinctKeys(b.l1)
  }

  // Cleanup is the pass over one bucket. The clock reads of an operation are
  // parameters. Get reads the clock twice when it reaches level 1: now on entry and
  // later in the lookup.
  datatype Op =
    | Set(k: Key, v: Value, expireAt: int)
    | Get(k: Key, now: int, later: int)
    | Delete(k: Key)
    | Cleanup(bucket: nat, now: int)

  predicate Expired(e: Entry, now: int) {
    e.Live() && e.expireAt <= now
  }

  function LiveCopy(l: Level, k: Key): Option<Entry> {
    var e := Lookup(l, k);
    if e.Some? && e.value.Live() then e else None
  }

  function DeleteIn(b: Bucket, k: Key): Bucket {
    b.(l0 := Kill(b.l0, k), l1 := Kill(b.l1, k))
  }

  /** A get: a live level-0 entry moves to level 1, a level-1 entry is touched,
      and an expired copy met on the way deletes the key from both levels. */
  function GetIn(b: Bucket, k: Key, now: int, later: int): (Bucket, Option<Value>)
    requires 0 < b.cap1
  {
    var e0 := LiveCopy(b.l0, k);
    if e0.Some? then
      var b' := b.(l0 := Kill(b.l0, k));
      if Expired(e0.value, now) then (DeleteIn(b', k), None)
      else (b'.(l1 := Put(b.l1, b.cap1, k, e0.value.v, e0.value.expireAt)), Some(e0.value.v))
    else
      var e1 := LiveCopy(b.l1, k);
      var b' := b.(l1 := Touch(b.l1, k));
      if e1.None? || Expired(e1.value, later) then (b', None)
      else if Expired(e1.value, now) then (DeleteIn(b', k), None)
      else (b', Some(e1.value.v))
  }

  function SetIn(b: Bucket, k: Key, v: Value, expireAt: int): Bucket
    requires 0 < b.cap0
  {
    b.(l0 := Put(b.l0, b.cap0, k, v, expireAt))
  }

  /** A look at a value that leaves the levels alone. */
  function PeekIn(b: Bucket, k: Key, now: int): Option<Value> {
    var e0, e1 := LiveCopy(b.l0, k), LiveCopy(b.l1, k);
    if e0.Some? && !Expired(e0.value, now) then Some(e0.value.v)
    else if e1.Some? && !Expired(e1.value, now) then Some(e1.value.v)
    else None
  }

  /** The keys whose copy in one of the levels has expired, each once. */
  function ExpiredKeys(l: Level, now: int, found: seq<Key>): (r: seq<Key>)
    ensures found <= r
  {
    if l == [] then found
    else if Expired(l[0], now) && l[0].k !in found then ExpiredKeys(l[1..], now, found + [l[0].k])
    else ExpiredKeys(l[1..], now, found)
  }

  function DeleteAll(b: Bucket, ks: seq<Key>): Bucket
    decreases |ks|
  {
    if ks == [] then b else DeleteAll(DeleteIn(b, ks[0]), ks[1..])
  }

  function CleanupIn(b: Bucket, now: int): Bucket {
    DeleteAll(b, ExpiredKeys(b.l1, now, ExpiredKeys(b.l0, now, [])))
  }

  datatype Store = Store(mask: nat, buckets: seq<Bucket>)

  /** Every entry of a key is in the bucket that its hash selects. */
  ghost predicate Homed(l: Level, i: nat, mask: nat) {
    forall j | 0 <= j < |l| :: BucketOf(l[j].k, mask) == i
  }

  ghost predicate StoreOk(s: Store) {
    && |s.buckets| == s.mask + 1
    && forall i | 0 <= i < |s.buckets| ::
        BucketOk(s.buckets[i]) && Homed(s.buckets[i].l0, i, s.mask) && Homed(s.buckets[i].l1, i, s.mask)
  }

  function Step(s: Store, op: Op): (Store, Option<Value>)
    requires StoreOk(s)
  {
    match op
    case Set(k, v, expireAt) =>
      var i := BucketOf(k, s.mask);
      (s.(buckets := s.buckets[i := SetIn(s.buckets[i], k, v, expireAt)]), None)
    case Get(k, now, later) =>
      var i := BucketOf(k, s.mask);
      var (b, answer) := GetIn(s.buckets[i], k, now, later);
      (s.(buckets := s.buckets[i := b]), answer)
    case Delete(k) =>
      var i := BucketOf(k, s.mask);
      (s.(buckets := s.buckets[i := DeleteIn(s.buckets[i], k)]), None)
    case Cleanup(i, now) =>
      if i < |s.buckets| then (s.(buckets := s.buckets[i := CleanupIn(s.buckets[i], now)]), None) else (s, None)
  }

  // ---- What the operations on a level do to the live copy of a key ----

  lemma LiveAfterPut(l: Level, cap: nat, k: Key, v: Value, expireAt: int, q: Key)
    requires DistinctKeys(l) && |l| <= cap && 0 < cap
    ensures LiveCopy(Put(l, cap, k, v, expireAt), q) ==
      if q == k then (if expireAt > 0 then Some(Entry(k, v, expireAt)) else None)
      else if PushesOut(l, cap, k, q) then None
      else LiveCopy(l, q)
  {
    hide Put;
    PutEffect(l, cap, k, v, expireAt);
  }

  lemma LiveAfterKill(l: Level, k: Key, q: Key)
    requires DistinctKeys(l)
    ensures LiveCopy(Kill(l, k), q) == if q == k then None else LiveCopy(l, q)
  {
    hide Kill;
    KillEffect(l, k);
  }

  lemma LiveAfterTouch(l: Level, k: Key, q: Key)
    requires DistinctKeys(l)
    ensures LiveCopy(Touch(l, k), q) == LiveCopy(l, q)
  {
    hide Touch;
    TouchEffect(l, k);
  }

  lemma {:induction false} DeleteAllEffect(b: Bucket, ks: seq<Key>, q: Key)
    requires BucketOk(b)
    ensures BucketOk(DeleteAll(b, ks))
    ensures ViewOf(DeleteAll(b, ks), q) == if q in ks then View(None, None) else ViewOf(b, q)
    decreases |ks|
  {
    if ks != [] {
      DeleteEffect(b, ks[0], q);
      DeleteAllEffect(DeleteIn(b, ks[0]), ks[1..], q);
      assert ks == [ks[0]] + ks[1..];
    }
  }

  lemma DeleteEffect(b: Bucket, k: Key, q: Key)
    requires BucketOk(b)
    ensures BucketOk(DeleteIn(b, k))
    ensures ViewOf(DeleteIn(b, k), q) == if q == k then View(None, None) else ViewOf(b, q)
  {
    hide Kill, LiveCopy;
    KillEffect(b.l0, k);
    KillEffect(b.l1, k);
    LiveAfterKill(b.l0, k, q);
    LiveAfterKill(b.l1, k, q);
  }

  // ---- Live entries, by membership ----

  /** Some entry of the level is live and has the key. */
  predicate LiveKey(l: Level, k: Key) {
    exists e :: e in l && e.k == k && e.Live()
  }

  lemma LiveKeyIs(l: Level, k: Key)
    requires DistinctKeys(l)
    ensures LiveKey(l, k) <==> LiveCopy(l, k).Some?
  {
    if LiveCopy(l, k).None? {
      DeadHere(l, k);
    } else {
      assert l[Find(l, k)] in l;
    }
  }

  lemma DeadHere(l: Level, k: Key)
    requires DistinctKeys(l) && LiveCopy(l, k).None?
    ensures forall e | e in l && e.Live() :: e.k != k
  {
    forall e | e in l && e.Live() ensures e.k != k {
      var i :| 0 <= i < |l| && l[i] == e;
      LookupAt(l, i);
    }
  }

  /** A live entry is the live copy of its key. */
  lemma LiveEntryIs(l: Level, e: Entry)
    requires DistinctKeys(l)
    ensures e in l && e.Live() <==> LiveCopy(l, e.k) == Some(e)
  {
    if e in l {
      var i :| 0 <= i < |l| && l[i] == e;
      LookupAt(l, i);
    }
  }

  // ---- One key of the store as a small machine ----

  // The live copies of a key in the two levels.
  datatype View = View(a: Option<Entry>, b: Option<Entry>)

  function ViewOf(b: Bucket, k: Key): View {
    View(LiveCopy(b.l0, k), LiveCopy(b.l1, k))
  }
}
