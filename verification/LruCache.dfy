/** The byte-bounded LRU cache with its fields, proved against ByteLru. */
module LruCache {
  import opened Basics
  import opened ByteLru

  // What a list element carries.
  datatype LruEntry = LruEntry(key: Key, value: seq<byte>)

  /** The position of a handle in the list, or the length if it is not in it. */
  function Position(list: seq<nat>, handle: nat): (i: nat)
    ensures i <= |list| && (i < |list| ==> list[i] == handle)
  {
    if list == [] || list[0] == handle then 0 else 1 + Position(list[1..], handle)
  }

  ghost predicate Allocated(list: seq<nat>, elems: map<nat, LruEntry>) {
    forall h | h in list :: h in elems
  }

  ghost function EntryOf(elems: map<nat, LruEntry>, handle: nat): Entry {
    var e := if handle in elems then elems[handle] else LruEntry([], []);
    Entry(handle, e.key, e.value)
  }

  /** The elements of the list with what they carry. */
  ghost function EntriesOf(list: seq<nat>, elems: map<nat, LruEntry>): (es: seq<Entry>)
    ensures |es| == |list|
  {
    seq(|list|, i requires 0 <= i < |list| => EntryOf(elems, list[i]))
  }

  /** The map of elements holds exactly the elements of the list, each under its key. */
  ghost predicate Indexed(items: map<Key, nat>, es: seq<Entry>) {
    && (forall e | e in es :: e.key in items && items[e.key] == e.handle)
    && (forall k | k in items :: HasKey(es, k))
  }

  // ---- Changes of the list ----

  lemma {:induction false} SeekIsPosition(list: seq<nat>, elems: map<nat, LruEntry>, handle: nat)
    requires Allocated(list, elems)
    ensures Seek(EntriesOf(list, elems), handle) == Position(list, handle)
  {
    if list != [] {
      assert list == [list[0]] + list[1..];
      SeekIsPosition(list[1..], elems, handle);
      assert EntriesOf(list, elems)[1..] == EntriesOf(list[1..], elems);
    }
  }

  lemma ListWithout(list: seq<nat>, elems: map<nat, LruEntry>, i: nat)
    requires Allocated(list, elems) && i < |list|
    ensures Allocated(Without(list, i), elems)
    ensures EntriesOf(Without(list, i), elems) == Without(EntriesOf(list, elems), i)
  {
    forall h | h in Without(list, i) ensures h in list {
    }
  }

  lemma ListBack(list: seq<nat>, elems: map<nat, LruEntry>, i: nat)
    requires Allocated(list, elems) && i < |list|
    ensures Allocated(ToBack(list, i), elems)
    ensures EntriesOf(ToBack(list, i), elems) == ToBack(EntriesOf(list, elems), i)
  {
    BackMembers(list, i);
    BackAt(list, i);
    BackAt(EntriesOf(list, elems), i);
  }

  lemma ListUpdate(list: seq<nat>, elems: map<nat, LruEntry>, i: nat, value: seq<byte>)
    requires Allocated(list, elems) && i < |list| && Distinct(EntriesOf(list, elems))
    ensures var elems' := elems[list[i] := elems[list[i]].(value := value)];
      && Allocated(list, elems')
      && EntriesOf(list, elems') == EntriesOf(list, elems)[i := EntriesOf(list, elems)[i].(value := value)]
  {
    var es := EntriesOf(list, elems);
    assert forall j | 0 <= j < |list| && j != i :: es[j].handle != es[i].handle;
  }

  lemma ListPush(list: seq<nat>, elems: map<nat, LruEntry>, handle: nat, entry: LruEntry)
    requires Allocated(list, elems) && handle !in list
    ensures Allocated(list + [handle], elems[handle := entry])
    ensures EntriesOf(list + [handle], elems[handle := entry]) ==
      EntriesOf(list, elems) + [Entry(handle, entry.key, entry.value)]
  {
  }

  // ---- Changes of the map of elements ----

  lemma IndexedWithout(items: map<Key, nat>, es: seq<Entry>, i: nat)
    requires Indexed(items, es) && Distinct(es) && i < |es|
    ensures Indexed(items - {es[i].key}, Without(es, i))
  {
    hide HasKey;
    var r := Without(es, i);
    DistinctWithout(es, i);
    forall e | e in r ensures e in es && e.key != es[i].key {
      var j :| 0 <= j < |r| && r[j] == e;
      assert e == es[if j < i then j else j + 1];
    }
  }

  lemma IndexedBack(items: map<Key, nat>, es: seq<Entry>, i: nat)
    requires Indexed(items, es) && i < |es|
    ensures Indexed(items, ToBack(es, i))
  {
    hide HasKey, ToBack;
    BackMembers(es, i);
    BackKeys(es, i);
  }

  lemma IndexedUpdate(items: map<Key, nat>, es: seq<Entry>, i: nat, value: seq<byte>)
    requires Indexed(items, es) && Distinct(es) && i < |es|
    ensures Indexed(items, es[i := es[i].(value := value)])
  {
    hide HasKey;
    Replaced(es, i, value);
    var es' := es[i := es[i].(value := value)];
    forall e | e in es' ensures e.key in items && items[e.key] == e.handle {
      var j :| 0 <= j < |es'| && es'[j] == e;
      assert es[j] in es;
    }
  }

  lemma IndexedPush(items: map<Key, nat>, es: seq<Entry>, e: Entry)
    requires Indexed(items, es) && !HasKey(es, e.key)
    ensures Indexed(items[e.key := e.handle], es + [e])
  {
    forall d | d in es ensures d.key != e.key {
      KeyMembers(es, e.key);
    }
    forall k | k in items || k == e.key ensures HasKey(es + [e], k) {
      KeyMembers(es, k);
      KeyMembers(es + [e], k);
      assert e in es + [e];
    }
  }

  lemma IndexedFind(items: map<Key, nat>, es: seq<Entry>, key: Key)
    requires Indexed(items, es) && Distinct(es)
    ensures key in items <==> HasKey(es, key)
    ensures key in items ==>
      Find(es, key) < |es| && es[Find(es, key)].handle == items[key] && Seek(es, items[key]) == Find(es, key)
  {
    if HasKey(es, key) {
      assert es[Find(es, key)] in es;
      FindAt(es, Find(es, key));
    }
  }

  // ---- The cache ----

  class LruCache {
    const maxBytes: int
    var list: seq<nat>
    var elems: map<nat, LruEntry>          // the elements ever created
    var items: map<Key, nat>
    var expires: map<Key, int>
    var usedBytes: int
    var next: nat
    var reported: seq<(Key, seq<byte>)>    // the calls of the eviction callback
    ghost var cleared: set<nat>

    ghost function State(): Lru
      reads this
    {
      Lru(EntriesOf(list, elems), expires, usedBytes, next, reported, cleared)
    }

    ghost predicate Valid()
      reads this
    {
      Allocated(list, elems) && Ok(State()) && Indexed(items, State().entries)
    }

    constructor (maxBytes: int)
      ensures Valid() && this.maxBytes == maxBytes
      ensures State() == Lru([], map[], 0, 0, [], {})
    {
      this.maxBytes := maxBytes;
      list, elems, items, expires, usedBytes := [], map[], map[], map[], 0;
      next, reported, cleared := 0, [], {};
    }

    lemma ItemsAre(key: Key)
      requires Valid()
      ensures key in items <==> HasKey(State().entries, key)
      ensures key in items ==>
        && items[key] in elems && Position(list, items[key]) < |list|
        && Position(list, items[key]) == Find(State().entries, key) == Seek(State().entries, items[key])
        && State().entries[Find(State().entries, key)] == Entry(items[key], key, elems[items[key]].value)
        && elems[items[key]].key == key
    {
      hide HasKey, Indexed;
      IndexedFind(items, State().entries, key);
      if key in items {
        SeekIsPosition(list, elems, items[key]);
      }
    }

    method RemoveElement(elem: nat)
      requires Valid() && elem in list
      modifies this`list, this`items, this`expires, this`usedBytes, this`reported
      ensures Valid() && Seek(old(State()).entries, elem) < |old(State()).entries|
      ensures State() == RemoveAt(old(State()), Seek(old(State()).entries, elem))
    {
      hide Ok, Indexed, Without, Distinct;
      ghost var s, i := State(), Position(list, elem);
      PositionIn(list, elem);
      SeekIsPosition(list, elems, elem);
      ListWithout(list, elems, i);
      OkDistinct(s);
      IndexedWithout(items, s.entries, i);
      RemoveKeepsOk(s, i);
      var entry := elems[elem];
      list := Without(list, Position(list, elem));
      items := items - {entry.key};
      expires := expires - {entry.key};
      usedBytes := usedBytes - (|entry.key| + |entry.value|);
      reported := reported + [(entry.key, entry.value)];
    }

    method Delete(key: Key) returns (found: bool)
      requires Valid()
      modifies this`list, this`items, this`expires, this`usedBytes, this`reported
      ensures Valid() && State() == ByteLru.Delete(old(State()), key)
      ensures found <==> HasKey(old(State()).entries, key)
    {
      hide Ok, Indexed, RemoveAt, HasKey;
      ItemsAre(key);
      found := key in items;
      if found {
        RemoveElement(items[key]);
      }
    }

    /** Removes the expired elements, meeting the expiry times in any order, and then
        the least recently used ones until the rest fits. */
    method Evict(now: int) returns (ghost order: seq<Key>)
      requires Valid()
      modifies this`list, this`items, this`expires, this`usedBytes, this`reported
      ensures Valid() && IsOrder(order, old(expires))
      ensures State() == ByteLru.Evict(old(State()), maxBytes, now, order)
    {
      hide Valid, Ok, Trim, ExpireAll, Seek, EntriesOf;
      ghost var s := State();
      order := EvictExpired(now);
      ghost var e := State();
      while maxBytes > 0 && usedBytes > maxBytes && |list| > 0
        invariant Valid() && Trim(State(), maxBytes) == Trim(e, maxBytes)
        decreases |list|
      {
        FrontElement();
        RemoveElement(list[0]);
      }
      TrimDone(State(), maxBytes);
    }

    lemma FrontElement()
      requires Valid() && |list| > 0
      ensures Seek(State().entries, list[0]) == 0
      ensures maxBytes > 0 && usedBytes > maxBytes ==>
        Trim(State(), maxBytes) == Trim(RemoveAt(State(), 0), maxBytes)
    {
    }

    method EvictExpired(now: int) returns (ghost order: seq<Key>)
      requires Valid()
      modifies this`list, this`items, this`expires, this`usedBytes, this`reported
      ensures Valid() && IsOrder(order, old(expires))
      ensures State() == ExpireAll(old(State()), now, order)
    {
      hide Ok, Valid, ExpireAll, RemoveAt, HasKey, Keep, EntriesOf;
      ghost var s := State();
      var todo := expires.Keys;
      order := [];
      ExpireNone(s, now);
      ValidParts();
      while todo != {}
        invariant Valid() && State() == ExpireAll(s, now, order)
        invariant forall k :: k in s.expires <==> k in todo || k in order
        invariant todo !! (set k | k in order)
        decreases |todo|
      {
        var key :| key in todo;
        todo := todo - {key};
        ExpireNext(s, now, order, key);
        order := order + [key];
        if now > expires[key] {
          ItemsAre(key);
          if key in items {
            RemoveElement(items[key]);
          }
        }
      }
    }

    lemma ValidParts()
      requires Valid()
      ensures Allocated(list, elems) && Ok(State()) && Indexed(items, State().entries)
      ensures Distinct(State().entries)
    {
    }

    /** The list package's move: nothing happens to an element that is in no list. */
    method MoveToBack(elem: nat)
      requires Valid()
      modifies this`list
      ensures Valid()
      ensures var s, i := old(State()), Seek(old(State()).entries, elem);
        State() == if i < |s.entries| then s.(entries := ToBack(s.entries, i)) else s
    {
      hide Ok, Indexed, Distinct, ToBack, HasKey;
      ValidParts();
      SeekIsPosition(list, elems, elem);
      var i := Position(list, elem);
      if i < |list| {
        ListBack(list, elems, i);
        IndexedBack(items, State().entries, i);
        BackKeepsOk(State(), i);
        list := ToBack(list, i);
      }
    }

    /** The first phase of a get. */
    method LookUp(key: Key, now: int) returns (found: Found)
      requires Valid()
      ensures found == Lookup(State(), key, now)
    {
      hide Valid, Ok, HasKey, EntriesOf;
      ItemsAre(key);
      if key !in items {
        return Miss;
      }
      if key in expires && now > expires[key] {
        return Stale;
      }
      return Hit(items[key], elems[items[key]].value);
    }

    /** The second phase of a get. No clear may come between the phases: it leaves the
        element attached to a list that no longer holds it. */
    method MoveUp(key: Key, elem: nat)
      requires Valid() && elem !in cleared
      modifies this`list
      ensures Valid() && State() == Move(old(State()), key, elem)
    {
      hide Valid, Ok, HasKey, EntriesOf, ToBack;
      ItemsAre(key);
      if key in items {
        MoveToBack(elem);
      }
    }

    method SetExpiry(key: Key, expiration: int, now: int)
      modifies this`expires
      ensures State() == WithExpiry(old(State()), key, expiration, now)
    {
      hide EntriesOf;
      if expiration > 0 {
        expires := expires[key := now + expiration];
      } else {
        expires := expires - {key};
      }
    }

    /** Replaces the value of a present element and moves it to the back. */
    method Replace(elem: nat, value: seq<byte>)
      requires Valid() && elem in list
      modifies this`list, this`elems, this`usedBytes
      ensures Valid() && Seek(old(State()).entries, elem) < |old(State()).entries|
      ensures State() == Update(old(State()), Seek(old(State()).entries, elem), value)
    {
      hide Ok, Indexed, Distinct, ToBack, HasKey;
      ghost var s := State();
      var i := Position(list, elem);
      ValidParts();
      PositionIn(list, elem);
      SeekIsPosition(list, elems, elem);
      UpdateKeepsOk(s, i, value);
      ListUpdate(list, elems, i, value);
      IndexedUpdate(items, s.entries, i, value);
      usedBytes := usedBytes + |value| - |elems[elem].value|;
      elems := elems[elem := elems[elem].(value := value)];
      IndexedBack(items, EntriesOf(list, elems), i);
      ListBack(list, elems, i);
      list := ToBack(list, i);
    }

    /** Adds an element for an absent key at the back. */
    method PushBack(key: Key, value: seq<byte>, ghost before: map<Key, int>)
      requires Allocated(list, elems) && Indexed(items, State().entries)
      requires Ok(State().(expires := before)) && !HasKey(State().entries, key)
      requires forall k | k in expires :: k in before || k == key
      modifies this`list, this`elems, this`items, this`usedBytes, this`next
      ensures Valid() && State() == Push(old(State()), key, value)
    {
      hide Ok, Indexed, Distinct, HasKey;
      ghost var s := State().(expires := before);
      FreshHandle(s);
      PushKeepsOk(s, key, value, expires);
      ListPush(list, elems, next, LruEntry(key, value));
      IndexedPush(items, s.entries, Entry(next, key, value));
      list := list + [next];
      elems := elems[next := LruEntry(key, value)];
      items := items[key := next];
      usedBytes := usedBytes + (|key| + |value|);
      next := next + 1;
    }

    lemma FreshHandle(s: Lru)
      requires Ok(s) && s.entries == State().entries && s.next == next
      ensures next !in list
    {
      assert forall i | 0 <= i < |list| :: s.entries[i].handle == list[i];
    }

    method SetWithExpiration(key: Key, value: Value, expiration: int, now: int, later: int)
        returns (ghost order: seq<Key>)
      requires Valid()
      modifies this
      ensures Valid() && IsOrder(order, WithExpiry(old(State()), key, expiration, now).expires)
      ensures State() == Set(old(State()), maxBytes, key, value, expiration, now, later, order)
    {
      hide Ok, Indexed, HasKey, EntriesOf, ByteLru.Delete, ByteLru.Evict, Update, Push, Allocated;
      ghost var s := State();
      ghost var timed := WithExpiry(s, key, expiration, now);
      order := KeysOf(timed.expires);
      ItemsAre(key);
      if value == Nil {
        var _ := Delete(key);
        return;
      }
      SetExpiry(key, expiration, now);
      if key in items {
        PositionIn(list, items[key]);
        ExpiryKeepsOk(s, key, expiration, now);
        Replace(items[key], value.data);
        return;
      }
      PushBack(key, value.data, s.expires);
      order := Evict(later);
    }

    /** Drops everything, after reporting the elements in the order in which the map
        of elements is iterated. */
    method Clear() returns (ghost calls: seq<(Key, seq<byte>)>)
      requires Valid()
      modifies this
      ensures Valid() && multiset(calls) == multiset(Pairs(old(State()).entries))
      ensures State() == ByteLru.Clear(old(State()), calls)
    {
      hide Pairs, Ok, Indexed, HasKey;
      calls := ReportAll();
      ghost var s := old(State());
      ClearedOk(s, calls);
      cleared := cleared + Handles(s.entries);
      list, items, expires, usedBytes := [], map[], map[], 0;
    }

    method Report(entry: LruEntry)
      requires Valid()
      modifies this`reported
      ensures Valid() && reported == old(reported) + [(entry.key, entry.value)]
      ensures State() == old(State()).(reported := reported)
    {
      hide HasKey, EntriesOf, Distinct, Indexed;
      reported := reported + [(entry.key, entry.value)];
    }

    /** Calls the eviction callback with the entry of one key. */
    method ReportKey(key: Key, ghost es: seq<Entry>, ghost done: set<Key>) returns (ghost call: (Key, seq<byte>))
      requires Valid() && key in items && key !in done && es == State().entries
      modifies this`reported
      ensures Valid() && State().(reported := []) == old(State()).(reported := [])
      ensures reported == old(reported) + [call]
      ensures multiset(Pairs(Keep(es, done))) == multiset(Pairs(Keep(es, done + {key}))) + multiset{call}
    {
      hide Valid, Pairs, HasKey, EntriesOf, Keep;
      ItemsAre(key);
      ValidParts();
      ReportOne(es, done, key);
      var entry := elems[items[key]];
      call := (entry.key, entry.value);
      Report(entry);
    }

    /** Calls the eviction callback with every entry, in the order in which the map of
        elements is iterated. */
    method ReportAll() returns (ghost calls: seq<(Key, seq<byte>)>)
      requires Valid()
      modifies this`reported
      ensures Valid() && reported == old(reported) + calls
      ensures multiset(calls) == multiset(Pairs(State().entries))
    {
      hide Valid, Pairs, HasKey, EntriesOf, Keep;
      ghost var es := State().entries;
      var todo := items.Keys;
      calls := [];
      ghost var done: set<Key> := {};
      KeepNone(es);
      while todo != {}
        modifies this`reported
        invariant State().(reported := []) == old(State()).(reported := []) && Valid()
        invariant reported == old(reported) + calls
        invariant todo + done == items.Keys && todo !! done
        invariant multiset(calls) + multiset(Pairs(Keep(es, done))) == multiset(Pairs(es))
        decreases |todo|
      {
        var key :| key in todo;
        todo := todo - {key};
        ghost var call := ReportKey(key, es, done);
        done := done + {key};
        calls := calls + [call];
      }
      AllReported(done);
    }

    lemma AllReported(done: set<Key>)
      requires Valid() && done == items.Keys
      ensures Pairs(Keep(State().entries, done)) == []
    {
      hide Ok;
      var es := State().entries;
      forall e | e in es ensures e.key in done {
      }
      KeepNothing(es, done);
    }
  }

  ghost function KeysOf(m: map<Key, int>): (order: seq<Key>)
    ensures IsOrder(order, m)
    decreases |m|
  {
    if m == map[] then []
    else
      var k :| k in m;
      [k] + KeysOf(m - {k})
  }

  lemma BackKeepsOk(s: Lru, i: nat)
    requires Ok(s) && i < |s.entries|
    ensures Ok(s.(entries := ToBack(s.entries, i)))
  {
    hide Distinct, HasKey, ToBack;
    DistinctBack(s.entries, i);
    BackHandles(s, i);
  }

  lemma ClearedOk(s: Lru, calls: seq<(Key, seq<byte>)>)
    requires Ok(s)
    ensures Ok(ByteLru.Clear(s, calls)) && Indexed(map[], [])
  {
  }

  lemma KeepNone(es: seq<Entry>)
    ensures Keep(es, {}) == es
  {
    KeepAll(es, {});
  }

  lemma {:induction false} KeepNothing(es: seq<Entry>, gone: set<Key>)
    requires forall e | e in es :: e.key in gone
    ensures Keep(es, gone) == []
  {
    if es != [] {
      assert es[0] in es && forall e | e in es[1..] :: e in es;
      KeepNothing(es[1..], gone);
    }
  }

  lemma {:induction false} KeepDistinct(es: seq<Entry>, gone: set<Key>)
    requires Distinct(es)
    ensures Distinct(Keep(es, gone))
    ensures forall e :: e in Keep(es, gone) <==> e in es && e.key !in gone
  {
    if es != [] {
      var rest := es[1..];
      assert es == [es[0]] + rest;
      KeepDistinct(rest, gone);
      forall i | 0 <= i < |Keep(rest, gone)|
        ensures Keep(rest, gone)[i].handle != es[0].handle && Keep(rest, gone)[i].key != es[0].key
      {
        assert Keep(rest, gone)[i] in rest;
      }
    }
  }

  lemma ReportOne(es: seq<Entry>, done: set<Key>, key: Key)
    requires Distinct(es) && HasKey(es, key) && key !in done
    ensures Find(es, key) < |es|
    ensures multiset(Pairs(Keep(es, done))) ==
      multiset(Pairs(Keep(es, done + {key}))) + multiset{(key, es[Find(es, key)].value)}
  {
    hide Pairs, Keep;
    var kept, e := Keep(es, done), es[Find(es, key)];
    KeepDistinct(es, done);
    KeepTwice(es, done, {key});
    KeepOthers(kept, key);
    assert e in es && e in kept;
    var i :| 0 <= i < |kept| && kept[i] == e;
    FindAt(kept, i);
    PairsWithout(kept, i);
  }

  lemma PositionIn(list: seq<nat>, handle: nat)
    ensures Position(list, handle) < |list| <==> handle in list
  {
    if list != [] {
      PositionIn(list[1..], handle);
      assert list == [list[0]] + list[1..];
    }
  }

  lemma TrimDone(s: Lru, max: int)
    requires max <= 0 || s.used <= max || s.entries == []
    ensures Trim(s, max) == s
  {
  }

  lemma ExpireNone(s: Lru, now: int)
    ensures ExpireAll(s, now, []) == s
  {
  }

  lemma ExpireNext(s: Lru, now: int, order: seq<Key>, key: Key)
    requires Ok(s) && key in s.expires && key !in order
    ensures var r := ExpireAll(s, now, order);
      && key in r.expires && r.expires[key] == s.expires[key]
      && ExpireAll(s, now, order + [key]) == if now > r.expires[key] then Delete(r, key) else r
  {
    hide Ok, Delete, Keep;
    ExpireAllIs(s, now, order);
    assert (order + [key])[..|order|] == order;
  }
}
