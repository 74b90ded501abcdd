/** The two-level store itself: an array of pairs of linked caches, proved
    against the operations on values in module TwoLevel. */
module TwoLevelStore {
  import opened Basics
  import opened Hashing
  import opened LinkedCache
  import opened RecencyList
  import opened StoreAnswers
  import opened StoreReports
  import opened StoreRuns
  import opened StoreViews
  import opened TwoLevel
  import opened Walking

  datatype Levels = Levels(l0: Cache, l1: Cache)

  ghost function Footprint(c: Levels): set<object> {
    {c.l0, c.l0.dlnk, c.l0.m, c.l1, c.l1.dlnk, c.l1.m}
  }

  ghost predicate LevelsOk(c: Levels)
    reads Footprint(c)
  {
    && c.l0 != c.l1 && c.l0.dlnk != c.l1.dlnk && c.l0.m != c.l1.m
    && c.l0.Valid() && c.l1.Valid()
  }

  ghost function BucketIn(c: Levels): Bucket
    reads Footprint(c)
    requires LevelsOk(c)
  {
    Bucket(c.l0.Contents(), c.l1.Contents(), c.l0.m.Length, c.l1.m.Length)
  }

  lemma LevelsBucketOk(c: Levels)
    requires LevelsOk(c)
    ensures BucketOk(BucketIn(c))
  {
    c.l0.KeysDistinct();
    c.l1.KeysDistinct();
    ghost var _ := c.l0.Located([]);
    ghost var _ := c.l1.Located([]);
  }

  method SetInto(c: Levels, key: Key, value: Value, expireAt: int) returns (reported: Report)
    requires LevelsOk(c)
    modifies Footprint(c)
    ensures LevelsOk(c) && old(BucketIn(c)).cap0 > 0
    ensures BucketIn(c) == SetIn(old(BucketIn(c)), key, value, expireAt)
    ensures reported == SetReport(old(BucketIn(c)), key)
  {
    hide LinkedCache.Chain, LinkedCache.Indexed, LinkedCache.Enumerates, LinkedCache.EntriesOf, RecencyList.Put;
    var status;
    status, reported := c.l0.Put(key, value, expireAt);
  }

  method DeleteFrom(c: Levels, key: Key) returns (deleted: bool, reported: Report)
    requires LevelsOk(c)
    modifies Footprint(c)
    ensures LevelsOk(c)
    ensures BucketIn(c) == DeleteIn(old(BucketIn(c)), key)
    ensures deleted <==> ViewOf(old(BucketIn(c)), key) != View(None, None)
    ensures reported == DeleteReport(old(BucketIn(c)), key)
  {
    hide Chain, Indexed, Enumerates, EntriesOf, Kill, Lookup;
    var n1, s1, _ := c.l0.Del(key);
    var n2, s2, _ := c.l1.Del(key);
    deleted := s1 > 0 || s2 > 0;
    reported := None;
    if deleted {
      if n1.Some? && n1.value.v != Nil {
        reported := Some((key, n1.value.v));
      } else if n2.Some? && n2.value.v != Nil {
        reported := Some((key, n2.value.v));
      }
    }
  }

  /** A lookup in level 1: the entry moves to the front whether it is live or not. */
  method Lookup1(c: Levels, key: Key, later: int) returns (n: Option<Entry>)
    requires LevelsOk(c)
    modifies Footprint(c)
    ensures LevelsOk(c)
    ensures BucketIn(c) == old(BucketIn(c)).(l1 := Touch(old(BucketIn(c)).l1, key))
    ensures var e1 := LiveCopy(old(BucketIn(c)).l1, key);
      n == if e1.Some? && !Expired(e1.value, later) then e1 else None
  {
    hide Chain, Indexed, Enumerates, EntriesOf, Touch, Lookup;
    var st;
    n, st := c.l1.Get(key);
    if st > 0 && (n.value.expireAt <= 0 || later >= n.value.expireAt) {
      n := None;
    }
  }

  lemma KillNone(l: Level, k: Key)
    requires LiveCopy(l, k).None?
    ensures Kill(l, k) == l
  {
  }

  method GetFrom(c: Levels, key: Key, now: int, later: int) returns (v: Option<Value>, reported: Report)
    requires LevelsOk(c)
    modifies Footprint(c)
    ensures LevelsOk(c) && 0 < old(BucketIn(c)).cap1
    ensures (BucketIn(c), v) == GetIn(old(BucketIn(c)), key, now, later)
    ensures reported == GetReport(old(BucketIn(c)), key, now, later)
  {
    hide Chain, Indexed, Enumerates, EntriesOf, Kill, Touch, RecencyList.Put, Lookup;
    var n1, status1, expireAt := c.l0.Del(key);
    if status1 > 0 {
      if expireAt > 0 && now >= expireAt {
        var _, r := DeleteFrom(c, key);
        return None, r;
      }
      var _, r := c.l1.Put(key, n1.value.v, expireAt);
      return Some(n1.value.v), r;
    }
    KillNone(old(BucketIn(c)).l0, key);
    var n2 := Lookup1(c, key, later);
    if n2.Some? {
      if n2.value.expireAt > 0 && now >= n2.value.expireAt {
        var _, r := DeleteFrom(c, key);
        return None, r;
      }
      return Some(n2.value.v), None;
    }
    return None, None;
  }

  method PeekFrom(c: Levels, key: Key, now: int) returns (v: Option<Value>)
    requires LevelsOk(c)
    ensures v == PeekIn(BucketIn(c), key, now)
  {
    hide Chain, Indexed, Enumerates, EntriesOf, Lookup;
    var e0 := c.l0.Peek(key);
    if e0.Some? && e0.value.expireAt > 0 && now < e0.value.expireAt {
      return Some(e0.value.v);
    }
    var e1 := c.l1.Peek(key);
    if e1.Some? && e1.value.expireAt > 0 && now < e1.value.expireAt {
      return Some(e1.value.v);
    }
    return None;
  }

  lemma {:induction false} ExpiredOfLive(l: Level, now: int, found: seq<Key>)
    ensures ExpiredKeys(LiveEntries(l), now, found) == ExpiredKeys(l, now, found)
  {
    if l != [] {
      var more := if Expired(l[0], now) && l[0].k !in found then found + [l[0].k] else found;
      ExpiredOfLive(l[1..], now, more);
      assert l[0].Live() ==> LiveEntries(l)[1..] == LiveEntries(l[1..]);
    }
  }

  lemma {:induction false} LiveDistinct(l: Level)
    requires DistinctKeys(l)
    ensures DistinctKeys(LiveEntries(l))
    ensures forall e :: e in LiveEntries(l) ==> e in l
  {
    if l != [] {
      hide DistinctKeys;
      DistinctTail(l);
      LiveDistinct(l[1..]);
      DistinctPush(LiveEntries(l[1..]), l[0]);
    }
  }

  lemma DistinctTail(l: Level)
    requires DistinctKeys(l) && l != []
    ensures DistinctKeys(l[1..]) && forall e | e in l[1..] :: e in l && e.k != l[0].k
  {
  }

  lemma DistinctPush(l: Level, e: Entry)
    requires DistinctKeys(l) && forall x | x in l :: x.k != e.k
    ensures DistinctKeys([e] + l)
  {
    assert forall i | 0 <= i < |l| :: l[i] in l;
  }

  /** The keys to clean in level 0, whose keys are distinct. */
  method CollectFirst(live: Level, now: int) returns (expired: seq<Key>)
    requires DistinctKeys(live) && forall i | 0 <= i < |live| :: live[i].Live()
    ensures expired == ExpiredKeys(live, now, [])
  {
    expired := [];
    for i := 0 to |live|
      invariant ExpiredKeys(live[i..], now, expired) == ExpiredKeys(live, now, [])
      invariant forall k | k in expired :: exists j :: 0 <= j < i && live[j].k == k
    {
      assert live[i..][0] == live[i] && live[i..][1..] == live[i + 1..];
      if live[i].expireAt > 0 && now >= live[i].expireAt {
        assert live[i].k !in expired;
        expired := expired + [live[i].k];
      }
    }
  }

  /** The keys to clean in level 1, added to those found in level 0. */
  method CollectSecond(live: Level, now: int, found: seq<Key>) returns (expired: seq<Key>)
    ensures expired == ExpiredKeys(live, now, found)
  {
    expired := found;
    for i := 0 to |live|
      invariant ExpiredKeys(live[i..], now, expired) == ExpiredKeys(live, now, found)
    {
      assert live[i..][0] == live[i] && live[i..][1..] == live[i + 1..];
      if live[i].expireAt > 0 && now >= live[i].expireAt {
        if live[i].k !in expired {
          expired := expired + [live[i].k];
        }
      }
    }
  }

  lemma {:induction false} LiveEntriesAllLive(l: Level)
    ensures forall i | 0 <= i < |LiveEntries(l)| :: LiveEntries(l)[i].Live()
  {
    if l != [] {
      LiveEntriesAllLive(l[1..]);
    }
  }

  /** A walk whose callback always goes on. */
  method WalkAll(c: Cache) returns (live: seq<Entry>)
    requires c.Valid()
    ensures live == LiveEntries(c.Contents())
  {
    hide Chain, Indexed, Enumerates, EntriesOf, LiveEntries;
    var goOn := (_: Entry) => true;
    live := c.Walk(goOn);
    PassedAll(goOn, LiveEntries(c.Contents()));
  }

  /** One cleanup pass over a bucket. */
  method CleanupFrom(c: Levels, now: int) returns (reported: seq<(Key, Value)>)
    requires LevelsOk(c)
    modifies Footprint(c)
    ensures LevelsOk(c)
    ensures BucketIn(c) == CleanupIn(old(BucketIn(c)), now)
    ensures reported == CleanupReports(old(BucketIn(c)), now)
  {
    hide Chain, Indexed, Enumerates, EntriesOf, LiveEntries, DistinctKeys, ExpiredKeys, DeleteIn, DeleteReport;
    var live0 := WalkAll(c.l0);
    var live1 := WalkAll(c.l1);
    ghost var b := BucketIn(c);
    LevelsBucketOk(c);
    LiveDistinct(b.l0);
    LiveEntriesAllLive(b.l0);
    var expired := CollectFirst(live0, now);
    ExpiredOfLive(b.l0, now, []);
    ExpiredOfLive(b.l1, now, expired);
    expired := CollectSecond(live1, now, expired);
    reported := DeleteEach(c, expired);
  }

  /** Deletes the given keys in turn. */
  method DeleteEach(c: Levels, keys: seq<Key>) returns (reported: seq<(Key, Value)>)
    requires LevelsOk(c)
    modifies Footprint(c)
    ensures LevelsOk(c)
    ensures BucketIn(c) == DeleteAll(old(BucketIn(c)), keys)
    ensures reported == DeleteReports(old(BucketIn(c)), keys)
  {
    hide Chain, Indexed, Enumerates, EntriesOf, DeleteIn, DeleteReport;
    ghost var b := BucketIn(c);
    reported := [];
    for i := 0 to |keys|
      invariant LevelsOk(c)
      invariant DeleteAll(BucketIn(c), keys[i..]) == DeleteAll(b, keys)
      invariant reported + DeleteReports(BucketIn(c), keys[i..]) == DeleteReports(b, keys)
    {
      assert keys[i..][0] == keys[i] && keys[i..][1..] == keys[i + 1..];
      var _, r := DeleteFrom(c, keys[i]);
      reported := reported + AsSeq(r);
    }
  }

  ghost predicate Separate(caches: seq<Levels>) {
    forall i, j | 0 <= i < j < |caches| :: Footprint(caches[i]) !! Footprint(caches[j])
  }

  /** The number of buckets is that of the least mask of ones with room for the wanted,
      or 16 if none are wanted. */
  ghost predicate BucketsFor(n: nat, wanted: bv16) {
    if wanted == 0 then n == 16 else exists bits: bv16 :: LeastMask(bits, wanted) && n == bits as nat + 1
  }

  method MaskFor(bucketCount: bv16) returns (m: nat)
    requires bucketCount <= 0x8000
    ensures PowerOf2(m + 1) && BucketsFor(m + 1, bucketCount)
  {
    var bits := MaskOfNextPowOf2(if bucketCount == 0 then 16 else bucketCount);
    LowBitsPower(bits);
    m := bits as nat;
    if bucketCount == 0 {
      SixteenBuckets(bits);
    }
  }

  lemma SixteenBuckets(bits: bv16)
    requires LeastMask(bits, 16)
    ensures bits == 15
  {
  }

  ghost predicate EmptyLevels(c: Levels, cap0: uint16, cap1: uint16)
    reads Footprint(c)
  {
    LevelsOk(c) && BucketIn(c) == Bucket([], [], cap0 as nat, cap1 as nat)
  }

  method NewPair(cap0: uint16, cap1: uint16) returns (c: Levels)
    requires 1 <= cap0 <= 65534 && 1 <= cap1 <= 65534
    ensures EmptyLevels(c, cap0, cap1) && fresh(Footprint(c))
  {
    hide Chain, Indexed, Enumerates, EntriesOf;
    var a := new Cache(cap0);
    var b := new Cache(cap1);
    c := Levels(a, b);
  }

  method NewLevels(n: nat, cap0: uint16, cap1: uint16) returns (cs: seq<Levels>, ghost objects: set<object>)
    requires 1 <= cap0 <= 65534 && 1 <= cap1 <= 65534
    ensures |cs| == n && Separate(cs)
    ensures fresh(objects)
    ensures forall j | 0 <= j < n :: Footprint(cs[j]) <= objects && EmptyLevels(cs[j], cap0, cap1)
  {
    hide EmptyLevels;
    cs, objects := [], {};
    for i := 0 to n
      invariant |cs| == i && Separate(cs)
      invariant fresh(objects)
      invariant forall j | 0 <= j < i :: Footprint(cs[j]) <= objects && EmptyLevels(cs[j], cap0, cap1)
    {
      var c := NewPair(cap0, cap1);
      cs, objects := cs + [c], objects + Footprint(c);
    }
  }

  /** Walks the two levels of a bucket. */
  method WalkBoth(c: Levels) returns (live0: seq<Entry>, live1: seq<Entry>)
    requires LevelsOk(c)
    ensures live0 == LiveEntries(BucketIn(c).l0) && live1 == LiveEntries(BucketIn(c).l1)
    ensures KeysOf(live0) + KeysOf(live1) == BucketKeys(BucketIn(c))
  {
    hide Chain, Indexed, Enumerates, EntriesOf, LiveEntries, KeysOf, KeySet;
    live0 := WalkAll(c.l0);
    live1 := WalkAll(c.l1);
    KeysOfWalk(BucketIn(c).l0);
    KeysOfWalk(BucketIn(c).l1);
  }

  /** Adds the keys that have not been seen yet. */
  method AddKeys(keys: seq<Key>, live: seq<Entry>) returns (r: seq<Key>)
    requires Unrepeated(keys)
    ensures Unrepeated(r)
    ensures forall k :: k in r <==> k in keys || k in KeysOf(live)
  {
    r := keys;
    for i := 0 to |live|
      invariant Unrepeated(r)
      invariant forall k :: k in r || k in KeysOf(live[i..]) <==> k in keys || k in KeysOf(live)
    {
      assert live[i..][0] == live[i] && live[i..][1..] == live[i + 1..];
      if live[i].k !in r {
        r := r + [live[i].k];
      }
    }
  }

  class Lru2Store {
    const mask: nat
    const caches: seq<Levels>

    ghost const repr: set<object>

    ghost predicate BucketsOk()
      reads repr
    {
      forall i | 0 <= i < |caches| ::
        Footprint(caches[i]) <= repr && LevelsOk(caches[i]) && BucketHomed(BucketIn(caches[i]), i, mask)
    }

    ghost predicate Valid()
      reads repr
    {
      |caches| == mask + 1 && PowerOf2(mask + 1) && Separate(caches) && BucketsOk()
    }

    /** The store this object represents. */
    ghost function State(): (s: Store)
      reads repr
      requires Valid()
      ensures s.mask == mask && |s.buckets| == |caches|
    {
      Store(mask, seq(|caches|, i requires 0 <= i < |caches| reads repr requires Valid() => BucketIn(caches[i])))
    }

    lemma StateOk()
      requires Valid()
      ensures StoreOk(State())
      ensures forall i | 0 <= i < |caches| :: State().buckets[i] == BucketIn(caches[i])
    {
      forall i | 0 <= i < |caches| ensures BucketOk(BucketIn(caches[i])) {
        LevelsBucketOk(caches[i]);
      }
    }

    /** Zero sizes stand for the defaults. Larger sizes than the ones admitted
        here make the 16-bit size computations wrap. */
    constructor (bucketCount: bv16, capPerBucket: uint16, level2Cap: uint16)
      requires bucketCount <= 0x8000 && capPerBucket <= 65534 && level2Cap <= 65534
      ensures Valid() && fresh(repr)
      ensures EmptyStore(State())
      ensures BucketsFor(|State().buckets|, bucketCount)
      ensures forall i | 0 <= i < |State().buckets| ::
        && State().buckets[i].cap0 == (if capPerBucket == 0 then 1024 else capPerBucket as nat)
        && State().buckets[i].cap1 == (if level2Cap == 0 then 1024 else level2Cap as nat)
    {
      hide Valid, State, EmptyLevels, LevelsOk, BucketsFor, PowerOf2;
      var m := MaskFor(bucketCount);
      ghost var objects;
      var cs;
      var cap0 := if capPerBucket == 0 then 1024 else capPerBucket;
      var cap1 := if level2Cap == 0 then 1024 else level2Cap;
      cs, objects := NewLevels(m + 1, cap0, cap1);
      mask := m;
      caches := cs;
      repr := objects;
      new;
      FreshState(cap0, cap1);
    }

    lemma FreshState(cap0: uint16, cap1: uint16)
      requires |caches| == mask + 1 && PowerOf2(mask + 1) && Separate(caches)
      requires forall i | 0 <= i < |caches| :: Footprint(caches[i]) <= repr && EmptyLevels(caches[i], cap0, cap1)
      ensures Valid() && |State().buckets| == mask + 1
      ensures forall i | 0 <= i < |State().buckets| ::
        State().buckets[i] == Bucket([], [], cap0 as nat, cap1 as nat)
    {
      hide LevelsOk, PowerOf2;
    }

    ghost predicate Untouched(i: nat, s: Store)
      reads repr
    {
      && i < |caches| && i < |s.buckets| && Footprint(caches[i]) <= repr
      && LevelsOk(caches[i]) && BucketIn(caches[i]) == s.buckets[i] && BucketHomed(s.buckets[i], i, mask)
    }

    /** One bucket has changed since the state was s; the others have not. */
    lemma Framed(idx: nat, s: Store)
      requires |caches| == mask + 1 && PowerOf2(mask + 1) && Separate(caches)
      requires s.mask == mask && |s.buckets| == |caches| && idx < |caches| && Footprint(caches[idx]) <= repr
      requires forall i | 0 <= i < |caches| && i != idx :: Untouched(i, s)
      requires LevelsOk(caches[idx]) && BucketHomed(BucketIn(caches[idx]), idx, mask)
      ensures Valid() && State() == s.(buckets := s.buckets[idx := BucketIn(caches[idx])])
    {
      forall i | 0 <= i < |caches|
        ensures Footprint(caches[i]) <= repr && LevelsOk(caches[i]) && BucketHomed(BucketIn(caches[i]), i, mask)
      {
        assert i != idx ==> Untouched(i, s);
      }
      hide LevelsOk, BucketHomed;
      forall i | 0 <= i < |caches|
        ensures State().buckets[i] == s.buckets[idx := BucketIn(caches[idx])][i]
      {
        assert i != idx ==> Untouched(i, s);
      }
    }

    lemma BucketAt(i: nat)
      requires Valid() && i < |caches|
      ensures StoreOk(State()) && State().buckets[i] == BucketIn(caches[i])
      ensures LevelsOk(caches[i]) && BucketHomed(BucketIn(caches[i]), i, mask)
      ensures Footprint(caches[i]) <= repr
      ensures forall j | 0 <= j < |caches| :: Untouched(j, State())
    {
      StateOk();
    }

    method GetAt(idx: nat, key: Key, now: int, later: int) returns (v: Option<Value>, reported: Report)
      requires Valid() && idx < |caches| && idx == BucketOf(key, mask)
      modifies repr
      ensures Valid()
      ensures StoreOk(old(State()))
      ensures State() == old(State()).(buckets := old(State()).buckets[idx := BucketIn(caches[idx])])
      ensures 0 < old(State()).buckets[idx].cap1
      ensures (BucketIn(caches[idx]), v) == GetIn(old(State()).buckets[idx], key, now, later)
      ensures reported == GetReport(old(State()).buckets[idx], key, now, later)
    {
      hide LevelsOk, BucketsOk, GetIn, GetReport, BucketHomed, StoreOk, PowerOf2;
      ghost var s := State();
      BucketAt(idx);
      ghost var b := BucketIn(caches[idx]);
      v, reported := GetFrom(caches[idx], key, now, later);
      GetHomed(b, key, now, later, mask);
      forall j | 0 <= j < |caches| && j != idx ensures Untouched(j, s) {
        assert old(Untouched(j, s)) && Footprint(caches[j]) !! Footprint(caches[idx]);
      }
      Framed(idx, s);
    }

    method Get(key: Key, now: int, later: int) returns (v: Option<Value>, reported: Report)
      requires Valid()
      modifies repr
      ensures Valid()
      ensures StoreOk(old(State()))
      ensures (State(), v) == Step(old(State()), Op.Get(key, now, later))
      ensures 0 < HomeOf(old(State()), key).cap1
      ensures reported == GetReport(HomeOf(old(State()), key), key, now, later)
    {
      hide LevelsOk, BucketsOk, GetIn, GetReport, BucketHomed, StoreOk, And;
      var hash := HashBkdr(key);
      v, reported := GetAt(And(hash, mask), key, now, later);
    }

    method SetAt(idx: nat, key: Key, value: Value, expireAt: int) returns (reported: Report)
      requires Valid() && idx < |caches| && idx == BucketOf(key, mask)
      modifies repr
      ensures Valid()
      ensures StoreOk(old(State()))
      ensures State() == Step(old(State()), Op.Set(key, value, expireAt)).0
      ensures 0 < old(State()).buckets[idx].cap0 && reported == SetReport(old(State()).buckets[idx], key)
    {
      hide LevelsOk, BucketsOk, SetIn, SetReport, BucketHomed, StoreOk, PowerOf2;
      ghost var s := State();
      BucketAt(idx);
      ghost var b := BucketIn(caches[idx]);
      reported := SetInto(caches[idx], key, value, expireAt);
      SetHomed(b, key, value, expireAt, mask);
      forall j | 0 <= j < |caches| && j != idx ensures Untouched(j, s) {
        assert old(Untouched(j, s)) && Footprint(caches[j]) !! Footprint(caches[idx]);
      }
      Framed(idx, s);
    }

    /** expiration is relative and in nanoseconds; one that is not positive
        stores an entry that is dead from the start. */
    method SetWithExpiration(key: Key, value: Value, expiration: int, now: int) returns (reported: Report)
      requires Valid()
      modifies repr
      ensures Valid()
      ensures StoreOk(old(State()))
      ensures State() == Step(old(State()), Op.Set(key, value, if expiration > 0 then Add64(now, expiration) else 0)).0
      ensures 0 < HomeOf(old(State()), key).cap0 && reported == SetReport(HomeOf(old(State()), key), key)
      ensures 0 < expiration && 0 <= now && Is64(now + expiration) ==>
        && StoreOk(State()) && Entry(key, value, now + expiration) in HomeOf(State(), key).l0
        && forall t, later ::
            Step(State(), Op.Get(key, t, later)).1 == if t < now + expiration then Some(value) else None
    {
      hide LevelsOk, BucketsOk, SetIn, SetReport, BucketHomed, StoreOk, And, Add64, Step;
      var expireAt := 0;
      if expiration > 0 {
        expireAt := Add64(now, expiration);
      }
      var hash := HashBkdr(key);
      reported := SetAt(And(hash, mask), key, value, expireAt);
      if 0 < expiration && 0 <= now && Is64(now + expiration) {
        NoWrap(now, expiration);
        SetThenGet(old(State()), key, value, now + expiration, now, now);
        forall t, later
          ensures Step(State(), Op.Get(key, t, later)).1 == if t < now + expiration then Some(value) else None
        {
          SetThenGet(old(State()), key, value, now + expiration, t, later);
        }
      }
    }

    /** A set without an expiry of its own: the entry lasts for about 116 days. */
    method Set(key: Key, value: Value, now: int) returns (reported: Report)
      requires Valid()
      modifies repr
      ensures Valid()
      ensures StoreOk(old(State()))
      ensures State() == Step(old(State()), Op.Set(key, value, Add64(now, 9999999999999999))).0
      ensures 0 < HomeOf(old(State()), key).cap0 && reported == SetReport(HomeOf(old(State()), key), key)
    {
      hide LevelsOk, BucketsOk, SetIn, SetReport, BucketHomed, StoreOk, And, Add64, Step;
      reported := SetWithExpiration(key, value, 9999999999999999, now);
    }

    method DeleteAt(idx: nat, key: Key) returns (deleted: bool, reported: Report)
      requires Valid() && idx < |caches| && idx == BucketOf(key, mask)
      modifies repr
      ensures Valid()
      ensures StoreOk(old(State()))
      ensures State() == Step(old(State()), Op.Delete(key)).0
      ensures deleted <==> ViewOf(old(State()).buckets[idx], key) != View(None, None)
      ensures reported == DeleteReport(old(State()).buckets[idx], key)
    {
      hide LevelsOk, BucketsOk, DeleteIn, DeleteReport, LiveCopy, BucketHomed, StoreOk, PowerOf2;
      ghost var s := State();
      BucketAt(idx);
      ghost var b := BucketIn(caches[idx]);
      deleted, reported := DeleteFrom(caches[idx], key);
      DeleteHomed(b, key, idx, mask);
      forall j | 0 <= j < |caches| && j != idx ensures Untouched(j, s) {
        assert old(Untouched(j, s)) && Footprint(caches[j]) !! Footprint(caches[idx]);
      }
      Framed(idx, s);
    }

    method Delete(key: Key) returns (deleted: bool, reported: Report)
      requires Valid()
      modifies repr
      ensures Valid()
      ensures StoreOk(old(State()))
      ensures State() == Step(old(State()), Op.Delete(key)).0
      ensures deleted <==> ViewIn(old(State()), key) != View(None, None)
      ensures reported == DeleteReport(HomeOf(old(State()), key), key)
    {
      hide LevelsOk, BucketsOk, DeleteIn, DeleteReport, BucketHomed, StoreOk, LiveCopy, And;
      var hash := HashBkdr(key);
      deleted, reported := DeleteAt(And(hash, mask), key);
    }

    /** The cleanup pass over one bucket. */
    method Cleanup(idx: nat, now: int) returns (reported: seq<(Key, Value)>)
      requires Valid() && idx < |caches|
      modifies repr
      ensures Valid()
      ensures StoreOk(old(State()))
      ensures State() == Step(old(State()), Op.Cleanup(idx, now)).0
      ensures reported == CleanupReports(old(State()).buckets[idx], now)
    {
      hide LevelsOk, BucketsOk, CleanupIn, CleanupReports, BucketHomed, StoreOk, PowerOf2;
      ghost var s := State();
      BucketAt(idx);
      ghost var b := BucketIn(caches[idx]);
      reported := CleanupFrom(caches[idx], now);
      CleanupHomed(b, now, idx, mask);
      forall j | 0 <= j < |caches| && j != idx ensures Untouched(j, s) {
        assert old(Untouched(j, s)) && Footprint(caches[j]) !! Footprint(caches[idx]);
      }
      Framed(idx, s);
    }

    method GetValue(key: Key, now: int) returns (v: Option<Value>)
      requires Valid()
      ensures StoreOk(State())
      ensures v == PeekIn(HomeOf(State(), key), key, now)
    {
      hide LevelsOk, BucketsOk, BucketHomed, PeekIn, StoreOk, And;
      var hash := HashBkdr(key);
      var idx := And(hash, mask);
      BucketAt(idx);
      v := PeekFrom(caches[idx], key, now);
    }

    /** The keys of all live entries, each once. */
    method Keys() returns (keys: seq<Key>)
      requires Valid()
      ensures Unrepeated(keys)
      ensures forall k :: k in keys <==> k in AllKeys(State().buckets)
    {
      hide LevelsOk, BucketsOk, BucketHomed, StoreOk, KeySet, KeysOf, AllKeys, Unrepeated;
      NoKeys();
      ghost var bs := State().buckets;
      keys := [];
      assert Unrepeated<Key>([]) by { NothingRepeated<Key>(); }
      for i := 0 to |caches|
        invariant Unrepeated(keys)
        invariant Valid() && State().buckets == bs
        invariant forall k :: k in keys <==> k in AllKeys(bs[..i])
      {
        BucketAt(i);
        var live0, live1 := WalkBoth(caches[i]);
        AllKeysNext(bs, i);
        keys := AddKeys(keys, live0);
        keys := AddKeys(keys, live1);
      }
      assert bs[..|caches|] == bs;
    }

    /** The number of live entries in both levels of all buckets. */
    method Len() returns (count: nat)
      requires Valid()
      ensures count == LiveCount(State().buckets)
    {
      hide LevelsOk, BucketsOk, BucketHomed, StoreOk, KeySet, KeysOf;
      ghost var bs := State().buckets;
      count := 0;
      for i := 0 to |caches|
        invariant Valid() && State().buckets == bs
        invariant count == LiveCount(bs[..i])
      {
        BucketAt(i);
        var live0, live1 := WalkBoth(caches[i]);
        AllKeysNext(bs, i);
        count := count + |live0| + |live1|;
      }
      assert bs[..|caches|] == bs;
    }

    /** Clear deletes the keys it has collected one after the other. */
    method Clear()
      requires Valid()
      modifies repr
      ensures Valid()
      ensures AllKeys(State().buckets) == {} && LiveCount(State().buckets) == 0
    {
      var keys := Keys();
      ghost var s := State();
      StateOk();
      for i := 0 to |keys|
        invariant Valid() && State() == Run(s, Deletes(keys[..i]))
      {
        assert Deletes(keys[..i + 1])[..i] == Deletes(keys[..i]);
        var _, _ := Delete(keys[i]);
      }
      assert keys[..|keys|] == keys;
      ClearLeavesNone(s, keys);
    }
  }
}
