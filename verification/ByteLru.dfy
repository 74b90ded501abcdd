/** The byte-bounded LRU cache as a value, what eviction leaves, and what every
    interleaving of its operations keeps. */
module ByteLru {
  import opened Basics

  // ---- Entries and their bytes ----

  /** An element of the recency list. The handle is the element's identity. */
  datatype Entry = Entry(handle: nat, key: Key, value: seq<byte>)

  function Size(e: Entry): nat {
    |e.key| + |e.value|
  }

  function Sum(es: seq<Entry>): nat {
    if es == [] then 0 else Size(es[0]) + Sum(es[1..])
  }

  lemma {:induction false} SumConcat(a: seq<Entry>, b: seq<Entry>)
    ensures Sum(a + b) == Sum(a) + Sum(b)
  {
    if a == [] {
      assert a + b == b;
    } else {
      SumConcat(a[1..], b);
      assert (a + b)[1..] == a[1..] + b;
    }
  }

  lemma SumNone()
    ensures Sum([]) == 0
  {
  }

  lemma SumOne(e: Entry)
    ensures Sum([e]) == Size(e)
  {
    assert [e][1..] == [];
  }

  lemma {:induction false} SumWithout(es: seq<Entry>, i: nat)
    requires i < |es|
    ensures Sum(es) == Sum(Without(es, i)) + Size(es[i])
  {
    var r := Without(es, i);
    if i == 0 {
      assert r == es[1..];
    } else {
      SumWithout(es[1..], i - 1);
      assert r[0] == es[0] && r[1..] == Without(es[1..], i - 1);
    }
  }

  /** The position of a key, or the length if it is absent. */
  function Find(es: seq<Entry>, key: Key): (i: nat)
    ensures i <= |es| && (i < |es| ==> es[i].key == key)
  {
    if es == [] || es[0].key == key then 0 else 1 + Find(es[1..], key)
  }

  /** The position of a handle, or the length if it is absent. */
  function Seek(es: seq<Entry>, handle: nat): (i: nat)
    ensures i <= |es| && (i < |es| ==> es[i].handle == handle)
  {
    if es == [] || es[0].handle == handle then 0 else 1 + Seek(es[1..], handle)
  }

  lemma {:induction false} FindFirst(es: seq<Entry>, key: Key, j: nat)
    requires j < Find(es, key)
    ensures j < |es| && es[j].key != key
  {
    if j != 0 {
      FindFirst(es[1..], key, j - 1);
    }
  }

  lemma {:induction false} SeekFirst(es: seq<Entry>, handle: nat, j: nat)
    requires j < Seek(es, handle)
    ensures j < |es| && es[j].handle != handle
  {
    if j != 0 {
      SeekFirst(es[1..], handle, j - 1);
    }
  }

  predicate HasKey(es: seq<Entry>, key: Key) {
    Find(es, key) < |es|
  }

  /** No handle and no key occurs twice. */
  predicate Distinct(es: seq<Entry>) {
    forall i, j | 0 <= i < j < |es| :: es[i].handle != es[j].handle && es[i].key != es[j].key
  }

  lemma FindAt(es: seq<Entry>, i: nat)
    requires Distinct(es) && i < |es|
    ensures Find(es, es[i].key) == i && Seek(es, es[i].handle) == i
  {
    if i < Find(es, es[i].key) {
      FindFirst(es, es[i].key, i);
    }
    if i < Seek(es, es[i].handle) {
      SeekFirst(es, es[i].handle, i);
    }
  }

  lemma HasKeyIs(es: seq<Entry>, key: Key)
    ensures HasKey(es, key) <==> exists i :: 0 <= i < |es| && es[i].key == key
  {
    if i :| 0 <= i < |es| && es[i].key == key {
      if i < Find(es, key) {
        FindFirst(es, key, i);
      }
    }
  }

  // ---- The cache ----

  // reported lists the calls of the eviction callback. cleared holds the elements
  // that a clear dropped: the list package still takes them for elements of the list.
  datatype Lru = Lru(
    entries: seq<Entry>,          // least recently used first
    expires: map<Key, int>,
    used: int,
    next: nat,                    // the next handle
    reported: seq<(Key, seq<byte>)>,
    cleared: set<nat>)

  /** What holds whenever the lock is free. */
  ghost predicate Ok(s: Lru) {
    && Distinct(s.entries)
    && s.used == Sum(s.entries)
    && (forall k | k in s.expires :: HasKey(s.entries, k))
    && (forall i | 0 <= i < |s.entries| :: s.entries[i].handle < s.next && s.entries[i].handle !in s.cleared)
    && (forall h | h in s.cleared :: h < s.next)
  }

  predicate Expired(s: Lru, key: Key, now: int) {
    key in s.expires && now > s.expires[key]
  }

  /** Removes the element at a position and reports it. */
  function RemoveAt(s: Lru, i: nat): Lru
    requires i < |s.entries|
  {
    var e := s.entries[i];
    s.(entries := Without(s.entries, i), expires := s.expires - {e.key}, used := s.used - Size(e),
       reported := s.reported + [(e.key, e.value)])
  }

  function Delete(s: Lru, key: Key): Lru {
    if HasKey(s.entries, key) then RemoveAt(s, Find(s.entries, key)) else s
  }

  /** The first half of an eviction: the expired keys go, in the order in which the
      map of expiry times is iterated. */
  function ExpireAll(s: Lru, now: int, order: seq<Key>): Lru {
    if order == [] then s
    else
      var before, key := ExpireAll(s, now, order[..|order| - 1]), order[|order| - 1];
      if Expired(s, key, now) then Delete(before, key) else before
  }

  /** The second half: the least recently used elements go until the rest fits. */
  function Trim(s: Lru, max: int): Lru
    decreases |s.entries|
  {
    if max > 0 && s.used > max && s.entries != [] then Trim(RemoveAt(s, 0), max) else s
  }

  function Evict(s: Lru, max: int, now: int, order: seq<Key>): Lru {
    Trim(ExpireAll(s, now, order), max)
  }

  /** The keys that have an expiry time, in any order. */
  ghost predicate IsOrder(order: seq<Key>, expires: map<Key, int>) {
    forall k :: k in order <==> k in expires
  }

  function WithExpiry(s: Lru, key: Key, expiration: int, now: int): Lru {
    s.(expires := if expiration > 0 then s.expires[key := now + expiration] else s.expires - {key})
  }

  function Update(s: Lru, i: nat, value: seq<byte>): Lru
    requires i < |s.entries|
  {
    var e := s.entries[i];
    s.(entries := ToBack(s.entries[i := e.(value := value)], i), used := s.used + |value| - |e.value|)
  }

  function Push(s: Lru, key: Key, value: seq<byte>): Lru {
    s.(entries := s.entries + [Entry(s.next, key, value)], next := s.next + 1, used := s.used + |key| + |value|)
  }

  /** Sets a key. A nil value deletes it, the value of a present key is replaced
      without evicting, and a new key is added before evicting. The clock is read
      once for the expiry time and once more, later, for the eviction. */
  function Set(s: Lru, max: int, key: Key, value: Value, expiration: int, now: int, later: int, order: seq<Key>): Lru {
    if value.Nil? then Delete(s, key)
    else
      var timed := WithExpiry(s, key, expiration, now);
      if HasKey(s.entries, key) then Update(timed, Find(s.entries, key), value.data)
      else Evict(Push(timed, key, value.data), max, later, order)
  }

  /** Drops everything, after reporting it in the order in which the map of elements
      is iterated. */
  function Clear(s: Lru, calls: seq<(Key, seq<byte>)>): Lru {
    s.(entries := [], expires := map[], used := 0,
       reported := s.reported + calls, cleared := s.cleared + Handles(s.entries))
  }

  function Pairs(es: seq<Entry>): (p: seq<(Key, seq<byte>)>)
    ensures |p| == |es|
  {
    seq(|es|, i requires 0 <= i < |es| => (es[i].key, es[i].value))
  }

  function Handles(es: seq<Entry>): set<nat> {
    set i | 0 <= i < |es| :: es[i].handle
  }

  datatype Found = Miss | Stale | Hit(handle: nat, value: seq<byte>)

  /** The first phase of a get, under the read lock. */
  function Lookup(s: Lru, key: Key, now: int): Found {
    if !HasKey(s.entries, key) then Miss
    else if Expired(s, key, now) then Stale
    else var e := s.entries[Find(s.entries, key)]; Hit(e.handle, e.value)
  }

  /** The second phase, under the write lock: if the key is present, the element found
      before moves to the back, unless it is no longer an element of the list. */
  function Move(s: Lru, key: Key, handle: nat): Lru {
    var i := Seek(s.entries, handle);
    if HasKey(s.entries, key) && i < |s.entries| then s.(entries := ToBack(s.entries, i)) else s
  }

  // ---- What each operation keeps ----

  lemma DistinctWithout(es: seq<Entry>, i: nat)
    requires Distinct(es) && i < |es|
    ensures Distinct(Without(es, i))
    ensures forall k :: HasKey(Without(es, i), k) <==> HasKey(es, k) && k != es[i].key
  {
    var r := Without(es, i);
    assert forall j | 0 <= j < |r| :: r[j] == es[if j < i then j else j + 1];
    forall k ensures HasKey(r, k) <==> HasKey(es, k) && k != es[i].key {
      HasKeyIs(r, k);
      HasKeyIs(es, k);
      if HasKey(es, k) && k != es[i].key {
        var j :| 0 <= j < |es| && es[j].key == k;
        assert r[if j < i then j else j - 1].key == k;
      }
    }
  }

  lemma RemoveKeepsOk(s: Lru, i: nat)
    requires Ok(s) && i < |s.entries|
    ensures Ok(RemoveAt(s, i))
    ensures forall k :: HasKey(RemoveAt(s, i).entries, k) <==> HasKey(s.entries, k) && k != s.entries[i].key
  {
    hide Distinct, HasKey;
    SumWithout(s.entries, i);
    DistinctWithout(s.entries, i);
  }

  lemma DistinctBack(es: seq<Entry>, i: nat)
    requires Distinct(es) && i < |es|
    ensures Distinct(ToBack(es, i)) && Sum(ToBack(es, i)) == Sum(es)
    ensures forall k :: HasKey(ToBack(es, i), k) <==> HasKey(es, k)
  {
    hide Sum, HasKey, Distinct;
    SumOne(es[i]);
    SumWithout(es, i);
    SumConcat(Without(es, i), [es[i]]);
    BackDistinct(es, i);
    BackKeys(es, i);
  }

  lemma BackDistinct(es: seq<Entry>, i: nat)
    requires Distinct(es) && i < |es|
    ensures Distinct(ToBack(es, i))
  {
    var r := ToBack(es, i);
    BackAt(es, i);
    hide ToBack;
    assert forall j | 0 <= j < |es| :: r[j] == es[if j == |es| - 1 then i else if j < i then j else j + 1];
  }

  lemma BackKeys(es: seq<Entry>, i: nat)
    requires i < |es|
    ensures forall k :: HasKey(ToBack(es, i), k) <==> HasKey(es, k)
  {
    hide HasKey;
    BackMembers(es, i);
    forall k ensures HasKey(ToBack(es, i), k) <==> HasKey(es, k) {
      KeyMembers(ToBack(es, i), k);
      KeyMembers(es, k);
    }
  }

  lemma KeyMembers(es: seq<Entry>, key: Key)
    ensures HasKey(es, key) <==> exists e :: e in es && e.key == key
  {
    HasKeyIs(es, key);
  }

  lemma MoveKeepsOk(s: Lru, key: Key, handle: nat)
    requires Ok(s)
    ensures Ok(Move(s, key, handle))
  {
    hide Distinct, HasKey, ToBack;
    var i := Seek(s.entries, handle);
    if i < |s.entries| {
      DistinctBack(s.entries, i);
      BackMembers(s.entries, i);
      BackHandles(s, i);
    }
  }

  lemma BackHandles(s: Lru, i: nat)
    requires Ok(s) && i < |s.entries|
    ensures var r := ToBack(s.entries, i);
      forall j | 0 <= j < |r| :: r[j].handle < s.next && r[j].handle !in s.cleared
  {
    hide Distinct, HasKey;
    BackAt(s.entries, i);
  }

  lemma DeleteKeepsOk(s: Lru, key: Key)
    requires Ok(s)
    ensures Ok(Delete(s, key))
    ensures forall k :: HasKey(Delete(s, key).entries, k) <==> HasKey(s.entries, k) && k != key
  {
    hide Ok, RemoveAt;
    if HasKey(s.entries, key) {
      RemoveKeepsOk(s, Find(s.entries, key));
    }
  }

  lemma UpdateKeepsOk(s: Lru, i: nat, value: seq<byte>)
    requires Ok(s) && i < |s.entries|
    ensures Ok(Update(s, i, value))
    ensures forall k :: HasKey(Update(s, i, value).entries, k) <==> HasKey(s.entries, k)
  {
    hide HasKey, Distinct, ToBack;
    var e := s.entries[i];
    var es := s.entries[i := e.(value := value)];
    Replaced(s.entries, i, value);
    DistinctBack(es, i);
    BackHandles(s.(entries := es, used := Sum(es)), i);
  }

  lemma Replaced(es: seq<Entry>, i: nat, value: seq<byte>)
    requires Distinct(es) && i < |es|
    ensures var es' := es[i := es[i].(value := value)];
      && Distinct(es') && Sum(es') == Sum(es) + |value| - |es[i].value|
      && forall k :: HasKey(es', k) <==> HasKey(es, k)
  {
    var es' := es[i := es[i].(value := value)];
    SumWithout(es, i);
    SumWithout(es', i);
    assert Without(es', i) == Without(es, i);
    forall k ensures HasKey(es', k) <==> HasKey(es, k) {
      HasKeyIs(es', k);
      HasKeyIs(es, k);
      assert forall j | 0 <= j < |es| :: es'[j].key == es[j].key;
    }
  }

  lemma PushKeepsOk(s: Lru, key: Key, value: seq<byte>, expires: map<Key, int>)
    requires Ok(s) && !HasKey(s.entries, key)
    requires forall k | k in expires :: k in s.expires || k == key
    ensures Ok(Push(s.(expires := expires), key, value))
  {
    var e := Entry(s.next, key, value);
    var es := s.entries + [e];
    SumConcat(s.entries, [e]);
    HasKeyIs(s.entries, key);
    forall k ensures HasKey(es, k) <==> HasKey(s.entries, k) || k == key {
      HasKeyIs(es, k);
      HasKeyIs(s.entries, k);
      assert es[|s.entries|] == e;
      assert forall i | 0 <= i < |s.entries| :: es[i] == s.entries[i];
    }
  }

  // ---- What an eviction leaves ----

  /** The entries whose keys are not in gone. */
  function Keep(es: seq<Entry>, gone: set<Key>): seq<Entry> {
    if es == [] then []
    else if es[0].key in gone then Keep(es[1..], gone)
    else [es[0]] + Keep(es[1..], gone)
  }

  ghost function Gone(s: Lru, now: int, order: seq<Key>): set<Key> {
    set k | k in order && Expired(s, k, now)
  }

  lemma {:induction false} KeepTwice(es: seq<Entry>, a: set<Key>, b: set<Key>)
    ensures Keep(Keep(es, a), b) == Keep(es, a + b)
  {
    if es != [] {
      KeepTwice(es[1..], a, b);
      assert ([es[0]] + Keep(es[1..], a))[1..] == Keep(es[1..], a);
    }
  }

  lemma {:induction false} KeepAll(es: seq<Entry>, gone: set<Key>)
    requires forall k | k in gone :: !HasKey(es, k)
    ensures Keep(es, gone) == es
  {
    if es != [] {
      forall k | k in gone ensures !HasKey(es[1..], k) {
        assert !HasKey(es, k);
      }
      KeepAll(es[1..], gone);
    }
  }

  lemma {:induction false} KeepOthers(es: seq<Entry>, key: Key)
    requires Distinct(es)
    ensures Keep(es, {key}) == if HasKey(es, key) then Without(es, Find(es, key)) else es
  {
    if es != [] {
      var rest := es[1..];
      DistinctTail(es);
      assert Keep(es, {key}) == if es[0].key == key then Keep(rest, {key}) else [es[0]] + Keep(rest, {key});
      hide Keep, Distinct, HasKey;
      if es[0].key == key {
        KeepAll(rest, {key});
        assert Find(es, key) == 0 && Without(es, 0) == rest;
      } else {
        KeepOthers(rest, key);
        assert Find(es, key) == 1 + Find(rest, key);
        if HasKey(rest, key) {
          WithoutNext(es, Find(rest, key));
        }
      }
    }
  }

  lemma DistinctTail(es: seq<Entry>)
    requires Distinct(es) && es != []
    ensures Distinct(es[1..]) && !HasKey(es[1..], es[0].key) && HasKey(es, es[0].key)
    ensures forall key | key != es[0].key :: HasKey(es, key) <==> HasKey(es[1..], key)
  {
    assert es == [es[0]] + es[1..];
  }

  lemma WithoutNext(es: seq<Entry>, i: nat)
    requires i + 1 < |es|
    ensures Without(es, i + 1) == [es[0]] + Without(es[1..], i)
  {
  }

  /** Whatever the order, exactly the expired entries go, and their expiry times. */
  lemma {:induction false} ExpireAllIs(s: Lru, now: int, order: seq<Key>)
    requires Ok(s)
    ensures var r := ExpireAll(s, now, order);
      && Ok(r) && r.entries == Keep(s.entries, Gone(s, now, order)) && r.expires == s.expires - Gone(s, now, order)
      && r.next == s.next && r.cleared == s.cleared
  {
    hide Ok, HasKey, Expired, Delete;
    if order == [] {
      assert Gone(s, now, order) == {};
      KeepAll(s.entries, {});
    } else {
      var k := |order| - 1;
      ExpireAllIs(s, now, order[..k]);
      var before, key := ExpireAll(s, now, order[..k]), order[k];
      assert order == order[..k] + [key];
      if Expired(s, key, now) {
        assert Gone(s, now, order) == Gone(s, now, order[..k]) + {key};
        DeleteIs(before, key);
        KeepTwice(s.entries, Gone(s, now, order[..k]), {key});
      } else {
        assert Gone(s, now, order) == Gone(s, now, order[..k]);
      }
    }
  }

  lemma DeleteIs(s: Lru, key: Key)
    requires Ok(s)
    ensures var r := Delete(s, key);
      && Ok(r) && r.entries == Keep(s.entries, {key}) && r.expires == s.expires - {key}
      && r.next == s.next && r.cleared == s.cleared
  {
    DeleteKeepsOk(s, key);
    KeepOthers(s.entries, key);
    assert !HasKey(s.entries, key) ==> s.expires - {key} == s.expires;
  }

  lemma {:induction false} TrimIs(s: Lru, max: int)
    requires Ok(s)
    ensures var es, r := s.entries, Trim(s, max);
      && Ok(r) && |r.entries| <= |es| && r.entries == es[|es| - |r.entries|..]
      && (max <= 0 ==> r.entries == es)
      && (max > 0 ==> r.used <= max)
      && (|r.entries| < |es| ==> Sum(es[|es| - |r.entries| - 1..]) > max)
    decreases |s.entries|
  {
    hide Ok, HasKey, Sum;
    UsedIsSum(s);
    if max > 0 && s.used > max {
      if s.entries == [] {
        SumNone();
      } else {
        RemoveKeepsOk(s, 0);
        TrimIs(RemoveAt(s, 0), max);
        assert Without(s.entries, 0) == s.entries[1..];
      }
    }
  }

  lemma ExpiryKeepsOk(s: Lru, key: Key, expiration: int, now: int)
    requires Ok(s) && HasKey(s.entries, key)
    ensures Ok(WithExpiry(s, key, expiration, now))
  {
    hide Distinct, HasKey;
  }

  lemma OkDistinct(s: Lru)
    requires Ok(s)
    ensures Distinct(s.entries)
  {
  }

  lemma UsedIsSum(s: Lru)
    requires Ok(s)
    ensures s.used == Sum(s.entries)
  {
  }

  lemma SumSuffix(es: seq<Entry>, i: nat, j: nat)
    requires i <= j <= |es|
    ensures Sum(es[j..]) <= Sum(es[i..])
  {
    hide Sum;
    assert es[i..] == es[i..j] + es[j..];
    SumConcat(es[i..j], es[j..]);
  }

  /** The entries that have not expired, in recency order. */
  ghost function Live(s: Lru, now: int): seq<Entry> {
    Keep(s.entries, set k | k in s.expires && Expired(s, k, now))
  }

  lemma LiveIs(s: Lru, now: int, order: seq<Key>)
    requires IsOrder(order, s.expires)
    ensures Keep(s.entries, Gone(s, now, order)) == Live(s, now)
  {
    assert Gone(s, now, order) == set k | k in s.expires && Expired(s, k, now);
  }

  /** The last n entries are the longest suffix that fits. */
  ghost predicate LongestFitting(es: seq<Entry>, n: nat, max: int) {
    n <= |es| && forall i | 0 <= i <= |es| :: Sum(es[i..]) <= max <==> |es| - n <= i
  }

  lemma Longest(es: seq<Entry>, n: nat, max: int)
    requires n <= |es| && Sum(es[|es| - n..]) <= max
    requires n < |es| ==> Sum(es[|es| - n - 1..]) > max
    ensures LongestFitting(es, n, max)
  {
    hide Sum;
    var cut := |es| - n;
    forall i | 0 <= i <= |es| ensures Sum(es[i..]) <= max <==> cut <= i {
      if cut <= i {
        SumSuffix(es, cut, i);
      } else {
        SumSuffix(es, i, cut - 1);
      }
    }
  }

  /** In whatever order the expiry times are iterated, an eviction leaves exactly the
      longest suffix of the live entries that fits, or all of them without a limit. */
  lemma EvictIs(s: Lru, max: int, now: int, order: seq<Key>)
    requires Ok(s) && IsOrder(order, s.expires)
    ensures var live, r := Live(s, now), Evict(s, max, now, order);
      && Ok(r) && r.next == s.next && r.cleared == s.cleared
      && |r.entries| <= |live| && r.entries == live[|live| - |r.entries|..]
      && (max <= 0 ==> r.entries == live)
      && (max > 0 ==> LongestFitting(live, |r.entries|, max) && r.used <= max)
  {
    hide Ok, Trim, ExpireAll, Sum, Live, Gone, IsOrder, LongestFitting;
    ExpireAllIs(s, now, order);
    LiveIs(s, now, order);
    var e := ExpireAll(s, now, order);
    TrimIs(e, max);
    TrimFrame(e, max);
    UsedIsSum(Trim(e, max));
    if max > 0 {
      Longest(e.entries, |Trim(e, max).entries|, max);
    }
  }

  lemma {:induction false} TrimFrame(s: Lru, max: int)
    ensures Trim(s, max).next == s.next && Trim(s, max).cleared == s.cleared
    decreases |s.entries|
  {
    if max > 0 && s.used > max && s.entries != [] {
      TrimFrame(RemoveAt(s, 0), max);
    }
  }

  // ---- Every entry that goes is reported once ----

  /** What the cache holds and what it has reported, each as often as it occurs. */
  function Account(s: Lru): multiset<(Key, seq<byte>)> {
    multiset(Pairs(s.entries)) + multiset(s.reported)
  }

  lemma PairsWithout(es: seq<Entry>, i: nat)
    requires i < |es|
    ensures multiset(Pairs(es)) == multiset(Pairs(Without(es, i))) + multiset{(es[i].key, es[i].value)}
  {
    var p := (es[i].key, es[i].value);
    assert Pairs(es) == Pairs(es[..i]) + [p] + Pairs(es[i + 1..]);
    assert Pairs(Without(es, i)) == Pairs(es[..i]) + Pairs(es[i + 1..]);
  }

  lemma RemoveReports(s: Lru, i: nat)
    requires i < |s.entries|
    ensures Account(RemoveAt(s, i)) == Account(s)
  {
    hide Pairs, Without;
    PairsWithout(s.entries, i);
  }

  lemma {:induction false} ExpireReports(s: Lru, now: int, order: seq<Key>)
    ensures Account(ExpireAll(s, now, order)) == Account(s)
  {
    hide Account, RemoveAt;
    if order != [] {
      var k := |order| - 1;
      ExpireReports(s, now, order[..k]);
      var before := ExpireAll(s, now, order[..k]);
      if HasKey(before.entries, order[k]) {
        RemoveReports(before, Find(before.entries, order[k]));
      }
    }
  }

  lemma {:induction false} TrimReports(s: Lru, max: int)
    ensures Account(Trim(s, max)) == Account(s)
    decreases |s.entries|
  {
    hide Account;
    if max > 0 && s.used > max && s.entries != [] {
      RemoveReports(s, 0);
      TrimReports(RemoveAt(s, 0), max);
    }
  }

  /** An eviction reports every entry that it removes once, and nothing else. */
  lemma EvictReports(s: Lru, max: int, now: int, order: seq<Key>)
    ensures Account(Evict(s, max, now, order)) == Account(s)
  {
    hide Account;
    ExpireReports(s, now, order);
    TrimReports(ExpireAll(s, now, order), max);
  }
}
