/** What a get and a look at a value answer, told from the entries of the levels. */
module StoreAnswers {
  import opened Basics
  import opened Hashing
  import opened RecencyList
  import opened TwoLevel
  import opened StoreRuns

  // The clock readings and expiry times are 64-bit numbers.
  predicate Is64(x: int) {
    -0x8000_0000_0000_0000 <= x < 0x8000_0000_0000_0000
  }

  /** A signed 64-bit sum. */
  function Add64(x: int, y: int): (r: int)
    ensures Is64(r) && (r - (x + y)) % 0x1_0000_0000_0000_0000 == 0
  {
    (x + y + 0x8000_0000_0000_0000) % 0x1_0000_0000_0000_0000 - 0x8000_0000_0000_0000
  }

  /** A sum that has 64 bits does not wrap. */
  lemma NoWrap(x: int, y: int)
    requires Is64(x + y)
    ensures Add64(x, y) == x + y
  {
  }

  /** A get hits a live entry of level 0 up to its expiry and then misses, whatever level 1
      holds. Without one it hits a live entry of level 1 up to its expiry by both readings
      of the clock, and without that it misses. */
  lemma GetAnswers(s: Store, k: Key, now: int, later: int)
    requires StoreOk(s)
    ensures var b, answer := HomeOf(s, k), Step(s, Get(k, now, later)).1;
      && (forall e | e in b.l0 && e.k == k && 0 < e.expireAt ::
            answer == if now < e.expireAt then Some(e.v) else None)
      && (!LiveKey(b.l0, k) ==> forall e | e in b.l1 && e.k == k && 0 < e.expireAt ::
            answer == if now < e.expireAt && later < e.expireAt then Some(e.v) else None)
      && (!LiveKey(b.l0, k) && !LiveKey(b.l1, k) ==> answer == None)
  {
    hide Step, LiveCopy, LiveKey, StoreOk, DistinctKeys;
    StepRefines(s, Get(k, now, later), k);
    var b := HomeOf(s, k);
    HomeIsOk(s, k);
    LiveKeyIs(b.l0, k);
    LiveKeyIs(b.l1, k);
    forall e | e in b.l0 || e in b.l1
      ensures e in b.l0 && e.Live() <==> LiveCopy(b.l0, e.k) == Some(e)
      ensures e in b.l1 && e.Live() <==> LiveCopy(b.l1, e.k) == Some(e)
    {
      LiveEntryIs(b.l0, e);
      LiveEntryIs(b.l1, e);
    }
  }

  lemma HomeIsOk(s: Store, k: Key)
    requires StoreOk(s)
    ensures BucketOk(HomeOf(s, k))
  {
  }

  /** A look at a value finds a live entry of level 0 up to its expiry, otherwise one of
      level 1 up to its expiry, and otherwise nothing. */
  lemma PeekAnswers(s: Store, k: Key, now: int)
    requires StoreOk(s)
    ensures var b, answer := HomeOf(s, k), PeekIn(HomeOf(s, k), k, now);
      && (forall e | e in b.l0 && e.k == k && 0 < e.expireAt && now < e.expireAt :: answer == Some(e.v))
      && (forall e | e in b.l1 && e.k == k && 0 < e.expireAt && now < e.expireAt ::
            && answer.Some?
            && ((forall x | x in b.l0 && x.k == k && 0 < x.expireAt :: x.expireAt <= now) ==> answer == Some(e.v)))
      && (answer.Some? ==> exists e :: (e in b.l0 || e in b.l1) && e.k == k && 0 < e.expireAt && now < e.expireAt
                                       && answer == Some(e.v))
  {
    hide LiveCopy, StoreOk, DistinctKeys;
    var b := HomeOf(s, k);
    HomeIsOk(s, k);
    forall e ensures e in b.l0 && e.Live() <==> LiveCopy(b.l0, e.k) == Some(e)
      ensures e in b.l1 && e.Live() <==> LiveCopy(b.l1, e.k) == Some(e)
    {
      LiveEntryIs(b.l0, e);
      LiveEntryIs(b.l1, e);
    }
    LiveCopyIs(b.l0, k);
    LiveCopyIs(b.l1, k);
  }

  /** A set with a positive expiry puts its value into level 0, where a get and a look find
      it up to that expiry and not afterwards. */
  lemma SetThenGet(s: Store, k: Key, v: Value, expireAt: int, now: int, later: int)
    requires StoreOk(s) && 0 < expireAt
    ensures var s' := Step(s, Set(k, v, expireAt)).0;
      && StoreOk(s') && Entry(k, v, expireAt) in HomeOf(s', k).l0
      && Step(s', Get(k, now, later)).1 == (if now < expireAt then Some(v) else None)
      && (now < expireAt ==> PeekIn(HomeOf(s', k), k, now) == Some(v))
  {
    hide Step, LiveCopy, StoreOk, DistinctKeys;
    var s' := Step(s, Set(k, v, expireAt)).0;
    StepRefines(s, Set(k, v, expireAt), k);
    HomeIsOk(s', k);
    LiveEntryIs(HomeOf(s', k).l0, Entry(k, v, expireAt));
    GetAnswers(s', k, now, later);
    PeekAnswers(s', k, now);
  }
}
