/** What the eviction callback hears of the two-level store's operations. */
module StoreReports {
  import opened Basics
  import opened LinkedCache
  import opened RecencyList
  import opened StoreRuns
  import opened TwoLevel

  type Report = Option<(Key, Value)>

  /** A set reports the live entry that it pushes out of level 0. */
  function SetReport(b: Bucket, k: Key): Report
    requires 0 < b.cap0
  {
    Reported(Dropped(b.l0, b.cap0, k))
  }

  /** The value that the callback hears of when a key is deleted: that of level 0 if
      it is live there and not nil, otherwise that of level 1. */
  function DeleteReport(b: Bucket, k: Key): Report {
    var e0, e1 := LiveCopy(b.l0, k), LiveCopy(b.l1, k);
    if e0.Some? && e0.value.v != Nil then Some((k, e0.value.v))
    else if e1.Some? && e1.value.v != Nil then Some((k, e1.value.v))
    else None
  }

  /** A get reports what its promotion pushes out of level 1, or what its deletion of
      an expired key reports. */
  function GetReport(b: Bucket, k: Key, now: int, later: int): Report
    requires 0 < b.cap1
  {
    var e0, e1 := LiveCopy(b.l0, k), LiveCopy(b.l1, k);
    if e0.Some? then
      if Expired(e0.value, now) then DeleteReport(b.(l0 := Kill(b.l0, k)), k)
      else Reported(Dropped(b.l1, b.cap1, k))
    else if e1.Some? && !Expired(e1.value, later) && Expired(e1.value, now)
    then DeleteReport(b.(l1 := Touch(b.l1, k)), k)
    else None
  }

  function AsSeq(r: Report): seq<(Key, Value)> {
    if r.Some? then [r.value] else []
  }

  /** The reports of deleting several keys one after the other. */
  function DeleteReports(b: Bucket, ks: seq<Key>): seq<(Key, Value)>
    decreases |ks|
  {
    if ks == [] then []
    else AsSeq(DeleteReport(b, ks[0])) + DeleteReports(DeleteIn(b, ks[0]), ks[1..])
  }

  function CleanupReports(b: Bucket, now: int): seq<(Key, Value)> {
    DeleteReports(b, ExpiredKeys(b.l1, now, ExpiredKeys(b.l0, now, [])))
  }

  // ---- What the reports say ----

  /** A live entry that a set or a promotion pushes out is reported with its value. */
  lemma PushedOutReported(l: Level, cap: nat, k: Key, q: Key)
    requires DistinctKeys(l) && 0 < cap && PushesOut(l, cap, k, q)
    ensures Reported(Dropped(l, cap, k)) ==
      if LiveCopy(l, q).Some? then Some((q, LiveCopy(l, q).value.v)) else None
  {
    LookupAt(l, cap - 1);
  }

  /** A deletion is silent exactly if no live copy has a value; otherwise it reports the
      value of one live copy, and only one, though both levels may hold one. */
  lemma DeleteReportIs(b: Bucket, k: Key)
    ensures var r, e0, e1 := DeleteReport(b, k), LiveCopy(b.l0, k), LiveCopy(b.l1, k);
      && (r == None <==> (e0.Some? ==> e0.value.v == Nil) && (e1.Some? ==> e1.value.v == Nil))
      && (r.Some? ==> r.value.0 == k && r.value.1 != Nil
                      && ((e0.Some? && r.value.1 == e0.value.v) || (e1.Some? && r.value.1 == e1.value.v)))
  {
  }

  /** A get that finds an expired copy in level 0 deletes it without reporting it: the
      report is that of the copy in level 1 alone. */
  lemma ExpiredGetIsSilent(b: Bucket, k: Key, now: int, later: int)
    requires BucketOk(b) && LiveCopy(b.l0, k).Some? && Expired(LiveCopy(b.l0, k).value, now)
    ensures var e1 := LiveCopy(b.l1, k);
      GetReport(b, k, now, later) == if e1.Some? && e1.value.v != Nil then Some((k, e1.value.v)) else None
  {
    hide Kill, LiveCopy;
    LiveAfterKill(b.l0, k, k);
  }

  lemma ReportedIs(l: Level, cap: nat, k: Key, v: Value, expireAt: int, q: Key, w: Value)
    requires DistinctKeys(l) && |l| <= cap && 0 < cap
    ensures Reported(Dropped(l, cap, k)) == Some((q, w)) <==>
      q != k && LiveValue(l, q, w) && !LiveKey(Put(l, cap, k, v, expireAt), q)
  {
    hide Put, DistinctKeys, LiveKey;
    PutEffect(l, cap, k, v, expireAt);
    LiveAfterPut(l, cap, k, v, expireAt, q);
    LiveValueIs(l, q, w);
    LiveKeyIs(Put(l, cap, k, v, expireAt), q);
    if PushesOut(l, cap, k, q) {
      PushedOutReported(l, cap, k, q);
      assert Find(l, q) < |l| by { LookupAt(l, cap - 1); }
    }
  }

  /** Some live entry of the level has the key and the value. */
  predicate LiveValue(l: Level, q: Key, w: Value) {
    exists e :: e in l && e.k == q && e.v == w && e.Live()
  }

  lemma LiveValueIs(l: Level, q: Key, w: Value)
    requires DistinctKeys(l)
    ensures LiveValue(l, q, w) <==> LiveCopy(l, q).Some? && LiveCopy(l, q).value.v == w
  {
    if e :| e in l && e.k == q && e.v == w && e.Live() {
      LiveEntryIs(l, e);
    }
    if LiveCopy(l, q).Some? {
      assert l[Find(l, q)] in l;
    }
  }

  /** A set reports exactly the live entry of another key that level 0 loses by it. */
  lemma SetReportIs(b: Bucket, k: Key, v: Value, expireAt: int, q: Key, w: Value)
    requires BucketOk(b)
    ensures SetReport(b, k) == Some((q, w)) <==>
      q != k && LiveValue(b.l0, q, w) && !LiveKey(SetIn(b, k, v, expireAt).l0, q)
  {
    ReportedIs(b.l0, b.cap0, k, v, expireAt, q, w);
  }

  /** A get reports exactly the live entry of another key that level 1 loses by it, and
      that of its own key if it has a value and the get leaves the key in no level. */
  lemma GetReportIs(b: Bucket, k: Key, now: int, later: int, q: Key, w: Value)
    requires BucketOk(b)
    ensures var b' := GetIn(b, k, now, later).0;
      GetReport(b, k, now, later) == Some((q, w)) <==>
        LiveValue(b.l1, q, w) && !LiveKey(b'.l1, q) && (q == k ==> w != Nil && !LiveKey(b'.l0, k))
  {
    hide Put, Kill, Touch, LiveCopy, PushesOut, LiveValue, LiveKey, DistinctKeys;
    var b', e0, e1 := GetIn(b, k, now, later).0, LiveCopy(b.l0, k), LiveCopy(b.l1, k);
    GetEffect(b, k, now, later, q);
    LiveValueIs(b.l1, q, w);
    LiveKeyIs(b'.l1, q);
    LiveKeyIs(b'.l0, q);
    if e0.Some? {
      if Expired(e0.value, now) {
        ExpiredGetIsSilent(b, k, now, later);
      } else {
        ReportedIs(b.l1, b.cap1, k, e0.value.v, e0.value.expireAt, q, w);
        LiveKeyIs(Put(b.l1, b.cap1, k, e0.value.v, e0.value.expireAt), q);
        assert e0.value.expireAt > 0 by { LiveCopyIs(b.l0, k); }
      }
    } else {
      TouchEffect(b.l1, k);
      LiveAfterTouch(b.l1, k, k);
    }
  }

  function EachReport(b: Bucket, ks: seq<Key>): seq<(Key, Value)> {
    if ks == [] then [] else AsSeq(DeleteReport(b, ks[0])) + EachReport(b, ks[1..])
  }

  lemma {:induction false} EachSame(b: Bucket, b': Bucket, ks: seq<Key>)
    requires forall k | k in ks :: DeleteReport(b, k) == DeleteReport(b', k)
    ensures EachReport(b, ks) == EachReport(b', ks)
  {
    hide DeleteReport;
    if ks != [] {
      assert ks == [ks[0]] + ks[1..];
      EachSame(b, b', ks[1..]);
    }
  }

  /** Deleting different keys reports each of them as deleting it alone would. */
  lemma {:induction false} DeleteReportsAre(b: Bucket, ks: seq<Key>)
    requires BucketOk(b) && Unrepeated(ks)
    ensures DeleteReports(b, ks) == EachReport(b, ks)
    decreases |ks|
  {
    hide DeleteIn, LiveCopy;
    if ks != [] {
      var b', rest := DeleteIn(b, ks[0]), ks[1..];
      DeleteEffect(b, ks[0], ks[0]);
      DeleteReportsAre(b', rest);
      forall k | k in rest ensures DeleteReport(b, k) == DeleteReport(b', k) {
        DeleteEffect(b, ks[0], k);
      }
      EachSame(b, b', rest);
    }
  }

  lemma {:induction false} ExpiredUnrepeated(l: Level, now: int, found: seq<Key>)
    requires Unrepeated(found)
    ensures Unrepeated(ExpiredKeys(l, now, found))
    decreases |l|
  {
    if l != [] {
      if Expired(l[0], now) && l[0].k !in found {
        UnrepeatedSnoc(found, l[0].k);
        ExpiredUnrepeated(l[1..], now, found + [l[0].k]);
      } else {
        ExpiredUnrepeated(l[1..], now, found);
      }
    }
  }

  /** A cleanup pass reports every key with an expired copy at most once, with the value
      that deleting it alone would report. */
  lemma CleanupReportsAre(b: Bucket, now: int)
    requires BucketOk(b)
    ensures var ks := ExpiredKeys(b.l1, now, ExpiredKeys(b.l0, now, []));
      Unrepeated(ks) && CleanupReports(b, now) == EachReport(b, ks)
  {
    var ks0 := ExpiredKeys(b.l0, now, []);
    ExpiredUnrepeated(b.l0, now, []);
    ExpiredUnrepeated(b.l1, now, ks0);
    DeleteReportsAre(b, ExpiredKeys(b.l1, now, ks0));
  }

  /** A deletion reports the value of level 0 if the key is live there with one, otherwise
      that of level 1. */
  lemma DeleteReportHas(b: Bucket, k: Key, w: Value)
    requires BucketOk(b)
    ensures DeleteReport(b, k) == Some((k, w)) <==>
      && w != Nil
      && (LiveValue(b.l0, k, w) || (LiveValue(b.l1, k, w) && forall x | LiveValue(b.l0, k, x) :: x == Nil))
  {
    hide LiveCopy, LiveValue, DistinctKeys;
    forall x ensures LiveValue(b.l0, k, x) <==> LiveCopy(b.l0, k).Some? && LiveCopy(b.l0, k).value.v == x {
      LiveValueIs(b.l0, k, x);
    }
    LiveValueIs(b.l1, k, w);
    var e0 := LiveCopy(b.l0, k);
    assert e0.Some? ==> LiveValue(b.l0, k, e0.value.v);
  }

  /** Some live entry of the level has the key and has expired. */
  predicate HasExpired(l: Level, k: Key, now: int) {
    exists e :: e in l && e.k == k && 0 < e.expireAt <= now
  }

  lemma HasExpiredIs(l: Level, k: Key, now: int)
    requires DistinctKeys(l)
    ensures HasExpired(l, k, now) <==> LiveCopy(l, k).Some? && Expired(LiveCopy(l, k).value, now)
  {
    if e :| e in l && e.k == k && 0 < e.expireAt <= now {
      LiveEntryIs(l, e);
    }
    if LiveCopy(l, k).Some? {
      assert l[Find(l, k)] in l;
    }
  }

  /** A cleanup pass reports exactly the keys that have an expired entry in one of the levels
      and a value to report, no key twice. */
  lemma CleanupReportsHas(b: Bucket, now: int, k: Key, w: Value)
    requires BucketOk(b)
    ensures (k, w) in CleanupReports(b, now) <==>
      (HasExpired(b.l0, k, now) || HasExpired(b.l1, k, now)) && DeleteReport(b, k) == Some((k, w))
    ensures var rs := CleanupReports(b, now); forall i, j | 0 <= i < j < |rs| :: rs[i].0 != rs[j].0
  {
    hide LiveCopy, DeleteReport, ExpiredKeys, CleanupReports, EachReport, DistinctKeys, HasExpired;
    var ks0 := ExpiredKeys(b.l0, now, []);
    CleanupReportsAre(b, now);
    ExpiredKeysAre(b.l0, now, [], k);
    ExpiredKeysAre(b.l1, now, ks0, k);
    HasExpiredIs(b.l0, k, now);
    HasExpiredIs(b.l1, k, now);
    EachReportHas(b, ExpiredKeys(b.l1, now, ks0), k, w);
  }

  lemma {:induction false} EachReportHas(b: Bucket, ks: seq<Key>, k: Key, w: Value)
    requires Unrepeated(ks)
    ensures (k, w) in EachReport(b, ks) <==> k in ks && DeleteReport(b, k) == Some((k, w))
    ensures var rs := EachReport(b, ks); forall i, j | 0 <= i < j < |rs| :: rs[i].0 != rs[j].0
    ensures forall r | r in EachReport(b, ks) :: r.0 in ks
  {
    if ks != [] {
      EachReportHas(b, ks[1..], k, w);
      ReportsItsKey(b, ks[0]);
      hide DeleteReport;
      assert ks == [ks[0]] + ks[1..];
      var rest := EachReport(b, ks[1..]);
      assert forall i | 0 <= i < |rest| :: rest[i] in rest;
    }
  }

  lemma ReportsItsKey(b: Bucket, k: Key)
    ensures DeleteReport(b, k).Some? ==> DeleteReport(b, k).value.0 == k
  {
  }
}
