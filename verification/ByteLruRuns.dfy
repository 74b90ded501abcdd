/** Every interleaving of the operations of the byte-bounded LRU cache, in which a
    get takes two steps and finds expired keys that are deleted later. */
module ByteLruRuns {
  import opened Basics
  import opened ByteLru

  // A get that has looked its key up and has not moved the element yet.
  datatype Pending = Pending(key: Key, handle: nat)

  datatype State = State(lru: Lru, moves: multiset<Pending>, deletes: multiset<Key>)

  datatype Step =
    | LookUp(key: Key, now: int)
    | MoveUp(pending: Pending)
    | SetKey(key: Key, value: Value, expiration: int, now: int, later: int, order: seq<Key>)
    | DeleteKey(key: Key)
    | DeleteStale(key: Key)
    | CleanUp(now: int, order: seq<Key>)
    | ClearAll(calls: seq<(Key, seq<byte>)>)

  /** A clear waits for the gets: the wrapping cache holds its lock during each. */
  ghost predicate Enabled(s: State, t: Step) {
    match t
    case LookUp(_, _) => true
    case MoveUp(pending) => pending in s.moves
    case SetKey(key, _, expiration, now, _, order) => IsOrder(order, WithExpiry(s.lru, key, expiration, now).expires)
    case DeleteKey(_) => true
    case DeleteStale(key) => key in s.deletes
    case CleanUp(_, order) => IsOrder(order, s.lru.expires)
    case ClearAll(calls) => s.moves == multiset{} && multiset(calls) == multiset(Pairs(s.lru.entries))
  }

  function Apply(max: int, s: State, t: Step): State {
    match t
    case LookUp(key, now) =>
      (match Lookup(s.lru, key, now)
       case Miss => s
       case Stale => s.(deletes := s.deletes + multiset{key})
       case Hit(handle, _) => s.(moves := s.moves + multiset{Pending(key, handle)}))
    case MoveUp(pending) =>
      s.(lru := Move(s.lru, pending.key, pending.handle), moves := s.moves - multiset{pending})
    case SetKey(key, value, expiration, now, later, order) =>
      s.(lru := Set(s.lru, max, key, value, expiration, now, later, order))
    case DeleteKey(key) => s.(lru := Delete(s.lru, key))
    case DeleteStale(key) => s.(lru := Delete(s.lru, key), deletes := s.deletes - multiset{key})
    case CleanUp(now, order) => s.(lru := Evict(s.lru, max, now, order))
    case ClearAll(calls) => s.(lru := Clear(s.lru, calls))
  }

  // ---- The invariant ----

  /** If the element is in the list, it is the one of the pending get's key. */
  predicate OwnKey(es: seq<Entry>, p: Pending) {
    forall i | 0 <= i < |es| && es[i].handle == p.handle :: es[i].key == p.key
  }

  ghost predicate Safe(s: Lru, p: Pending) {
    p.handle < s.next && p.handle !in s.cleared && OwnKey(s.entries, p)
  }

  /** The list has no duplicates and its bytes are counted exactly; every pending get
      holds an element that no clear dropped, of its own key if it is in the list. */
  ghost predicate Good(s: State) {
    Ok(s.lru) && forall p | p in s.moves :: Safe(s.lru, p)
  }

  /** An element of es with this handle and key. */
  predicate HasId(es: seq<Entry>, handle: nat, key: Key) {
    exists e :: e in es && e.handle == handle && e.key == key
  }

  /** s' has the elements of s and new ones, and nothing was cleared. */
  ghost predicate Grown(s: Lru, s': Lru) {
    && s.next <= s'.next && s'.cleared == s.cleared
    && forall e | e in s'.entries :: s.next <= e.handle || HasId(s.entries, e.handle, e.key)
  }

  lemma SafeKept(s: Lru, s': Lru, p: Pending)
    requires Safe(s, p) && Grown(s, s')
    ensures Safe(s', p)
  {
    forall i | 0 <= i < |s'.entries| && s'.entries[i].handle == p.handle ensures s'.entries[i].key == p.key {
      assert s'.entries[i] in s'.entries;
    }
  }

  lemma {:induction false} KeepMembers(es: seq<Entry>, gone: set<Key>, e: Entry)
    ensures e in Keep(es, gone) ==> e in es
  {
    if es != [] {
      KeepMembers(es[1..], gone, e);
      assert es == [es[0]] + es[1..];
    }
  }

  lemma DeleteGrows(s: Lru, key: Key)
    requires Ok(s)
    ensures Ok(Delete(s, key)) && Grown(s, Delete(s, key))
  {
    hide Ok, Delete, Keep;
    DeleteIs(s, key);
    forall e | e in Delete(s, key).entries ensures e in s.entries {
      KeepMembers(s.entries, {key}, e);
    }
  }

  lemma EvictGrows(s: Lru, max: int, now: int, order: seq<Key>)
    requires Ok(s) && IsOrder(order, s.expires)
    ensures Ok(Evict(s, max, now, order)) && Grown(s, Evict(s, max, now, order))
  {
    hide Ok, Evict, Keep, LongestFitting, IsOrder;
    EvictIs(s, max, now, order);
    var live, r := Live(s, now), Evict(s, max, now, order);
    var gone := set k | k in s.expires && Expired(s, k, now);
    forall e | e in r.entries ensures e in s.entries {
      assert e in live;
      KeepMembers(s.entries, gone, e);
    }
  }

  lemma MoveGrows(s: Lru, key: Key, handle: nat)
    requires Ok(s)
    ensures Ok(Move(s, key, handle)) && Grown(s, Move(s, key, handle))
  {
    hide Ok, HasKey, ToBack;
    MoveKeepsOk(s, key, handle);
    var i := Seek(s.entries, handle);
    if i < |s.entries| {
      BackMembers(s.entries, i);
    }
  }

  lemma UpdateGrows(s: Lru, i: nat, value: seq<byte>)
    requires Ok(s) && i < |s.entries|
    ensures Ok(Update(s, i, value)) && Grown(s, Update(s, i, value))
  {
    hide Ok, ToBack;
    UpdateKeepsOk(s, i, value);
    var es := s.entries[i := s.entries[i].(value := value)];
    BackMembers(es, i);
    forall e | e in Update(s, i, value).entries ensures HasId(s.entries, e.handle, e.key) {
      var j :| 0 <= j < |es| && es[j] == e;
      assert s.entries[j] in s.entries;
    }
  }

  lemma PushGrows(s: Lru, key: Key, value: seq<byte>, expires: map<Key, int>)
    ensures Grown(s, Push(s.(expires := expires), key, value))
  {
    forall e | e in s.entries ensures HasId(s.entries, e.handle, e.key) {
    }
  }

  lemma GrownTwice(a: Lru, b: Lru, c: Lru)
    requires Grown(a, b) && Grown(b, c)
    ensures Grown(a, c)
  {
    forall e | e in c.entries ensures a.next <= e.handle || HasId(a.entries, e.handle, e.key) {
      if HasId(b.entries, e.handle, e.key) {
        var d :| d in b.entries && d.handle == e.handle && d.key == e.key;
      }
    }
  }

  lemma SetGrows(s: Lru, max: int, key: Key, value: Value, expiration: int, now: int, later: int, order: seq<Key>)
    requires Ok(s) && IsOrder(order, WithExpiry(s, key, expiration, now).expires)
    ensures var r := Set(s, max, key, value, expiration, now, later, order); Ok(r) && Grown(s, r)
  {
    hide Ok, Grown, Evict, Update, Delete, IsOrder, HasKey;
    if value.Nil? {
      DeleteGrows(s, key);
    } else {
      var timed := WithExpiry(s, key, expiration, now);
      if HasKey(s.entries, key) {
        ExpiryKeepsOk(s, key, expiration, now);
        FindsKey(s.entries, key);
        UpdateGrows(timed, Find(s.entries, key), value.data);
        GrownFrame(s, timed.expires, Update(timed, Find(s.entries, key), value.data));
      } else {
        PushKeepsOk(s, key, value.data, timed.expires);
        PushGrows(s, key, value.data, timed.expires);
        var pushed := Push(timed, key, value.data);
        EvictGrows(pushed, max, later, order);
        GrownTwice(s, pushed, Evict(pushed, max, later, order));
      }
    }
  }

  lemma FindsKey(es: seq<Entry>, key: Key)
    ensures HasKey(es, key) <==> Find(es, key) < |es|
  {
  }

  lemma GrownFrame(s: Lru, expires: map<Key, int>, s': Lru)
    requires Grown(s.(expires := expires), s')
    ensures Grown(s, s')
  {
  }

  lemma ClearKeepsOk(s: Lru, calls: seq<(Key, seq<byte>)>)
    requires Ok(s)
    ensures Ok(Clear(s, calls))
  {
  }

  /** The list part of a step other than a clear. */
  lemma StepGrows(max: int, s: State, t: Step)
    requires Ok(s.lru) && Enabled(s, t) && !t.ClearAll?
    ensures Ok(Apply(max, s, t).lru) && Grown(s.lru, Apply(max, s, t).lru)
  {
    hide Ok, Grown, Evict, Delete, Set, Move, Lookup, IsOrder;
    match t
    case LookUp(_, _) => Same(s.lru);
    case MoveUp(p) => MoveGrows(s.lru, p.key, p.handle);
    case SetKey(key, value, expiration, now, later, order) =>
      SetGrows(s.lru, max, key, value, expiration, now, later, order);
    case DeleteKey(key) => DeleteGrows(s.lru, key);
    case DeleteStale(key) => DeleteGrows(s.lru, key);
    case CleanUp(now, order) => EvictGrows(s.lru, max, now, order);
  }

  lemma Same(s: Lru)
    ensures Grown(s, s)
  {
  }

  lemma HitIsSafe(s: Lru, key: Key, now: int)
    requires Ok(s) && Lookup(s, key, now).Hit?
    ensures Safe(s, Pending(key, Lookup(s, key, now).handle))
  {
    var i := Find(s.entries, key);
    FindAt(s.entries, i);
    forall j | 0 <= j < |s.entries| && s.entries[j].handle == s.entries[i].handle ensures s.entries[j].key == key {
      FindAt(s.entries, j);
    }
  }

  lemma StepKeepsGood(max: int, s: State, t: Step)
    requires Good(s) && Enabled(s, t)
    ensures Good(Apply(max, s, t))
  {
    hide Ok, Safe, Grown, Evict, Delete, Set, Move, Lookup, IsOrder, Clear;
    if t.ClearAll? {
      ClearKeepsOk(s.lru, t.calls);
    } else {
      StepGrows(max, s, t);
      forall p | p in Apply(max, s, t).moves ensures Safe(Apply(max, s, t).lru, p) {
        if p !in s.moves {
          HitIsSafe(s.lru, t.key, t.now);
        }
        SafeKept(s.lru, Apply(max, s, t).lru, p);
      }
    }
  }

  function RunOf(max: int, s: State, steps: seq<Step>): State {
    if steps == [] then s else Apply(max, RunOf(max, s, steps[..|steps| - 1]), steps[|steps| - 1])
  }

  ghost predicate Possible(max: int, s: State, steps: seq<Step>) {
    steps == [] ||
    (Possible(max, s, steps[..|steps| - 1]) && Enabled(RunOf(max, s, steps[..|steps| - 1]), steps[|steps| - 1]))
  }

  /** Every interleaving keeps the list free of duplicates and the bytes exact. */
  lemma {:induction false} RunKeepsGood(max: int, s: State, steps: seq<Step>)
    requires Good(s) && Possible(max, s, steps)
    ensures Good(RunOf(max, s, steps))
  {
    hide Good, Apply, Enabled;
    if steps != [] {
      var k := |steps| - 1;
      RunKeepsGood(max, s, steps[..k]);
      StepKeepsGood(max, RunOf(max, s, steps[..k]), steps[k]);
    }
  }

  /** The second phase of a get, whenever it comes, changes what no key holds: it
      does nothing if its element is gone, even if its key is back in the cache, and
      otherwise makes the element of its key the most recently used. */
  lemma MoveIs(s: State, p: Pending)
    requires Good(s) && p in s.moves
    ensures var before, after := s.lru, Move(s.lru, p.key, p.handle);
      && p.handle !in before.cleared
      && (Seek(before.entries, p.handle) == |before.entries| ==> after == before)
      && (Seek(before.entries, p.handle) < |before.entries| ==>
            var i := Find(before.entries, p.key);
            i < |before.entries| && before.entries[i].handle == p.handle
            && after == before.(entries := ToBack(before.entries, i)))
  {
    hide Ok;
    var es := s.lru.entries;
    assert Safe(s.lru, p);
    var i := Seek(es, p.handle);
    if i < |es| {
      OkDistinct(s.lru);
      FindAt(es, i);
    }
  }

  // ---- Reports ----

  lemma DeleteReports(s: Lru, key: Key)
    ensures Account(Delete(s, key)) == Account(s)
  {
    hide Account, RemoveAt;
    if HasKey(s.entries, key) {
      RemoveReports(s, Find(s.entries, key));
    }
  }

  lemma BackReports(es: seq<Entry>, i: nat)
    requires i < |es|
    ensures multiset(Pairs(ToBack(es, i))) == multiset(Pairs(es))
  {
    hide Without;
    PairsWithout(es, i);
    assert Pairs(ToBack(es, i)) == Pairs(Without(es, i)) + [(es[i].key, es[i].value)];
  }

  /** The pair that a step puts into the cache. */
  function Stored(t: Step): multiset<(Key, seq<byte>)> {
    if t.SetKey? && t.value.Bytes? then multiset{(t.key, t.value.data)} else multiset{}
  }

  /** The pair that a step overwrites, without reporting it. */
  function Overwritten(s: Lru, t: Step): multiset<(Key, seq<byte>)> {
    if t.SetKey? && t.value.Bytes? && HasKey(s.entries, t.key)
    then multiset{(t.key, s.entries[Find(s.entries, t.key)].value)} else multiset{}
  }

  lemma ReplacedReports(es: seq<Entry>, i: nat, value: seq<byte>)
    requires i < |es|
    ensures var es' := es[i := es[i].(value := value)];
      multiset(Pairs(es')) + multiset{(es[i].key, es[i].value)} == multiset(Pairs(es)) + multiset{(es[i].key, value)}
  {
    hide Pairs, Without;
    var es' := es[i := es[i].(value := value)];
    PairsWithout(es, i);
    PairsWithout(es', i);
    SameWithout(es, es', i);
  }

  lemma SameWithout(es: seq<Entry>, es': seq<Entry>, i: nat)
    requires i < |es| == |es'| && es' == es[i := es'[i]]
    ensures Without(es, i) == Without(es', i)
  {
  }

  lemma UpdateReports(s: Lru, i: nat, value: seq<byte>)
    requires i < |s.entries|
    ensures Account(Update(s, i, value)) + multiset{(s.entries[i].key, s.entries[i].value)} ==
      Account(s) + multiset{(s.entries[i].key, value)}
  {
    hide Pairs, ToBack;
    var es := s.entries[i := s.entries[i].(value := value)];
    ReplacedReports(s.entries, i, value);
    BackReports(es, i);
    Rearrange(multiset(Pairs(es)), multiset(Pairs(s.entries)), multiset(s.reported),
              multiset{(s.entries[i].key, s.entries[i].value)}, multiset{(s.entries[i].key, value)});
  }

  lemma Rearrange<T>(a: multiset<T>, b: multiset<T>, r: multiset<T>, x: multiset<T>, y: multiset<T>)
    requires a + x == b + y
    ensures a + r + x == b + r + y
  {
    assert a + r + x == a + x + r;
    assert b + r + y == b + y + r;
  }

  lemma PushReports(s: Lru, key: Key, value: seq<byte>)
    ensures Account(Push(s, key, value)) == Account(s) + multiset{(key, value)}
  {
    assert Pairs(s.entries + [Entry(s.next, key, value)]) == Pairs(s.entries) + [(key, value)];
  }

  lemma SetReports(s: Lru, max: int, t: Step)
    requires t.SetKey?
    ensures var r := Set(s, max, t.key, t.value, t.expiration, t.now, t.later, t.order);
      Account(r) + Overwritten(s, t) == Account(s) + Stored(t)
  {
    hide Evict, Update, Push, Delete, HasKey, Account;
    var timed := WithExpiry(s, t.key, t.expiration, t.now);
    SameAccount(s, timed);
    if t.value.Nil? {
      DeleteReports(s, t.key);
    } else if HasKey(s.entries, t.key) {
      FindsKey(s.entries, t.key);
      UpdateReports(timed, Find(s.entries, t.key), t.value.data);
    } else {
      PushReports(timed, t.key, t.value.data);
      EvictReports(Push(timed, t.key, t.value.data), max, t.later, t.order);
      assert Account(s) + Stored(t) + multiset{} == Account(s) + Stored(t);
    }
  }

  lemma SameAccount(s: Lru, s': Lru)
    requires s'.entries == s.entries && s'.reported == s.reported
    ensures Account(s') == Account(s)
  {
  }

  /** Every step accounts for each entry: it stays, or it is reported once, except that a
      set adds its pair, and the pair that it overwrites goes without a report. */
  lemma StepReports(max: int, s: State, t: Step)
    requires Enabled(s, t)
    ensures Account(Apply(max, s, t).lru) + Overwritten(s.lru, t) == Account(s.lru) + Stored(t)
  {
    hide Evict, Delete, Lookup, IsOrder, ToBack, Pairs, Seek, HasKey, Set;
    if t.SetKey? {
      SetReports(s.lru, max, t);
    } else {
      OtherReports(max, s, t);
    }
  }

  lemma OtherReports(max: int, s: State, t: Step)
    requires Enabled(s, t) && !t.SetKey?
    ensures Account(Apply(max, s, t).lru) == Account(s.lru)
  {
    hide Evict, Delete, Lookup, IsOrder, ToBack, Pairs, Seek, HasKey;
    match t
    case LookUp(_, _) =>
    case MoveUp(p) =>
      var i := Seek(s.lru.entries, p.handle);
      if HasKey(s.lru.entries, p.key) && i < |s.lru.entries| {
        BackReports(s.lru.entries, i);
      }
    case DeleteKey(key) => DeleteReports(s.lru, key);
    case DeleteStale(key) => DeleteReports(s.lru, key);
    case CleanUp(now, order) => EvictReports(s.lru, max, now, order);
    case ClearAll(calls) => assert Pairs([]) == [];
  }

  // ---- The late delete of an expired key ----

  function ExpiryOf(s: Lru, key: Key): Option<int> {
    if key in s.expires then Some(s.expires[key]) else None
  }

  predicate Past(expiry: Option<int>, now: int) {
    expiry.Some? && now > expiry.value
  }

  /** If s' still has the key, then s had it, with the same expiry. */
  predicate Stays(s: Lru, s': Lru, key: Key) {
    HasKey(s'.entries, key) ==> HasKey(s.entries, key) && ExpiryOf(s', key) == ExpiryOf(s, key)
  }

  lemma RemoveStays(s: Lru, i: nat, key: Key)
    requires Ok(s) && i < |s.entries|
    ensures Stays(s, RemoveAt(s, i), key)
  {
    hide HasKey, Ok;
    RemoveKeepsOk(s, i);
  }

  lemma DeleteStays(s: Lru, gone: Key, key: Key)
    requires Ok(s)
    ensures Stays(s, Delete(s, gone), key)
  {
    hide HasKey, Ok, Delete, Keep;
    DeleteIs(s, gone);
    DeleteKeepsOk(s, gone);
  }

  lemma {:induction false} ExpireStays(s: Lru, now: int, order: seq<Key>, key: Key)
    requires Ok(s)
    ensures Stays(s, ExpireAll(s, now, order), key)
  {
    hide HasKey, Ok, Delete, Keep;
    if order != [] {
      var k := |order| - 1;
      ExpireStays(s, now, order[..k], key);
      ExpireAllIs(s, now, order[..k]);
      DeleteStays(ExpireAll(s, now, order[..k]), order[k], key);
    }
  }

  lemma {:induction false} TrimStays(s: Lru, max: int, key: Key)
    requires Ok(s)
    ensures Stays(s, Trim(s, max), key)
    decreases |s.entries|
  {
    hide HasKey, Ok;
    if max > 0 && s.used > max && s.entries != [] {
      RemoveKeepsOk(s, 0);
      RemoveStays(s, 0, key);
      TrimStays(RemoveAt(s, 0), max, key);
    }
  }

  lemma EvictStays(s: Lru, max: int, now: int, order: seq<Key>, key: Key)
    requires Ok(s)
    ensures Stays(s, Evict(s, max, now, order), key)
  {
    hide HasKey, Ok, ExpireAll, Trim, Keep;
    ExpireStays(s, now, order, key);
    ExpireAllIs(s, now, order);
    TrimStays(ExpireAll(s, now, order), max, key);
  }

  predicate SetsKey(t: Step, key: Key) {
    t.SetKey? && t.value.Bytes? && t.key == key
  }

  function NewExpiry(t: Step): Option<int>
    requires t.SetKey?
  {
    if t.expiration > 0 then Some(t.now + t.expiration) else None
  }

  lemma SetExpiry(s: Lru, max: int, t: Step, key: Key)
    requires Ok(s) && t.SetKey?
    ensures var r := Set(s, max, t.key, t.value, t.expiration, t.now, t.later, t.order);
      HasKey(r.entries, key) ==>
        if SetsKey(t, key) then ExpiryOf(r, key) == NewExpiry(t)
        else HasKey(s.entries, key) && ExpiryOf(r, key) == ExpiryOf(s, key)
  {
    hide Ok, Evict, Update, Push, Delete, HasKey;
    var timed := WithExpiry(s, t.key, t.expiration, t.now);
    if t.value.Nil? {
      DeleteStays(s, t.key, key);
    } else if HasKey(s.entries, t.key) {
      FindsKey(s.entries, t.key);
      ExpiryKeepsOk(s, t.key, t.expiration, t.now);
      UpdateHas(timed, Find(s.entries, t.key), t.value.data, key);
    } else {
      var pushed := Push(timed, t.key, t.value.data);
      PushKeepsOk(s, t.key, t.value.data, timed.expires);
      PushHas(timed, t.key, t.value.data, key);
      EvictStays(pushed, max, t.later, t.order, key);
    }
  }

  lemma UpdateHas(s: Lru, i: nat, value: seq<byte>, key: Key)
    requires Ok(s) && i < |s.entries|
    ensures HasKey(Update(s, i, value).entries, key) <==> HasKey(s.entries, key)
    ensures Update(s, i, value).expires == s.expires
  {
    hide HasKey, Ok, ToBack;
    UpdateKeepsOk(s, i, value);
  }

  lemma PushHas(s: Lru, k: Key, value: seq<byte>, key: Key)
    ensures HasKey(Push(s, k, value).entries, key) <==> HasKey(s.entries, key) || key == k
    ensures Push(s, k, value).expires == s.expires
  {
    hide HasKey;
    var e := Entry(s.next, k, value);
    KeyMembers(s.entries, key);
    KeyMembers(s.entries + [e], key);
    assert e in s.entries + [e];
  }

  lemma MoveStays(s: Lru, k: Key, handle: nat, key: Key)
    ensures Stays(s, Move(s, k, handle), key)
  {
    hide HasKey, ToBack;
    var i := Seek(s.entries, handle);
    if i < |s.entries| {
      BackKeys(s.entries, i);
    }
  }

  lemma StepExpiry(max: int, s: State, t: Step, key: Key)
    requires Ok(s.lru) && Enabled(s, t)
    ensures var r := Apply(max, s, t).lru;
      HasKey(r.entries, key) ==>
        if SetsKey(t, key) then ExpiryOf(r, key) == NewExpiry(t)
        else HasKey(s.lru.entries, key) && ExpiryOf(r, key) == ExpiryOf(s.lru, key)
  {
    hide Ok, Evict, Delete, Set, Move, Lookup, IsOrder, HasKey;
    match t
    case LookUp(_, _) =>
    case MoveUp(p) => MoveStays(s.lru, p.key, p.handle, key);
    case SetKey(_, _, _, _, _, _) => SetExpiry(s.lru, max, t, key);
    case DeleteKey(k) => DeleteStays(s.lru, k, key);
    case DeleteStale(k) => DeleteStays(s.lru, k, key);
    case CleanUp(now, order) => EvictStays(s.lru, max, now, order, key);
    case ClearAll(_) => NoKeyLeft(key);
  }

  lemma NoKeyLeft(key: Key)
    ensures !HasKey([], key)
  {
  }

  predicate SetAgain(steps: seq<Step>, key: Key) {
    exists i :: 0 <= i < |steps| && SetsKey(steps[i], key)
  }

  /** The expiry that the last set of the key among the steps gave it. */
  function LastExpiry(steps: seq<Step>, key: Key, before: Option<int>): Option<int> {
    if steps == [] then before
    else if SetsKey(steps[|steps| - 1], key) then NewExpiry(steps[|steps| - 1])
    else LastExpiry(steps[..|steps| - 1], key, before)
  }

  lemma {:induction false} RunExpiry(max: int, s: State, steps: seq<Step>, key: Key)
    requires Good(s) && Possible(max, s, steps)
    ensures var r := RunOf(max, s, steps).lru;
      HasKey(r.entries, key) ==> ExpiryOf(r, key) == LastExpiry(steps, key, ExpiryOf(s.lru, key))
  {
    hide Good, Apply, Enabled, HasKey, ExpiryOf, SetsKey;
    if steps != [] {
      var k := |steps| - 1;
      RunExpiry(max, s, steps[..k], key);
      RunKeepsGood(max, s, steps[..k]);
      GoodIsOk(RunOf(max, s, steps[..k]));
      StepExpiry(max, RunOf(max, s, steps[..k]), steps[k], key);
    }
  }

  lemma GoodIsOk(s: State)
    requires Good(s)
    ensures Ok(s.lru)
  {
  }

  lemma {:induction false} NotSetAgain(steps: seq<Step>, key: Key, before: Option<int>)
    requires !SetAgain(steps, key)
    ensures LastExpiry(steps, key, before) == before
  {
    if steps != [] {
      assert forall i | 0 <= i < |steps| - 1 :: steps[..|steps| - 1][i] == steps[i];
      NotSetAgain(steps[..|steps| - 1], key, before);
    }
  }

  /** A get finds its key expired and leaves the deletion for later. When the deletion comes
      it removes an entry that has not expired if and only if the key is in the cache, was
      set again in between, and the last of these sets gave it an expiry not yet past. */
  lemma LateDeleteIs(max: int, s: State, key: Key, now: int, steps: seq<Step>, t: int)
    requires Good(s) && Lookup(s.lru, key, now) == Stale && now <= t
    requires Possible(max, Apply(max, s, LookUp(key, now)), steps)
    ensures var r := RunOf(max, Apply(max, s, LookUp(key, now)), steps).lru;
      && !HasKey(Delete(r, key).entries, key)
      && (HasKey(r.entries, key) && !Expired(r, key, t) <==>
            HasKey(r.entries, key) && SetAgain(steps, key) && !Past(LastExpiry(steps, key, None), t))
  {
    hide Good, HasKey, Delete, SetAgain;
    var s1 := Apply(max, s, LookUp(key, now));
    StepKeepsGood(max, s, LookUp(key, now));
    RunExpiry(max, s1, steps, key);
    RunKeepsGood(max, s1, steps);
    GoodIsOk(RunOf(max, s1, steps));
    DeleteKeepsOk(RunOf(max, s1, steps).lru, key);
    if SetAgain(steps, key) {
      LastIsASet(steps, key, ExpiryOf(s.lru, key));
    } else {
      NotSetAgain(steps, key, ExpiryOf(s.lru, key));
    }
  }

  lemma {:induction false} LastIsASet(steps: seq<Step>, key: Key, before: Option<int>)
    requires SetAgain(steps, key)
    ensures LastExpiry(steps, key, before) == LastExpiry(steps, key, None)
  {
    var k := |steps| - 1;
    if !SetsKey(steps[k], key) {
      var i :| 0 <= i < |steps| && SetsKey(steps[i], key);
      assert steps[..k][i] == steps[i];
      LastIsASet(steps[..k], key, before);
    }
  }

  /** A run of one more step than a run that is known. */
  lemma RunSnoc(max: int, s: State, steps: seq<Step>, t: Step)
    ensures Possible(max, s, []) && RunOf(max, s, []) == s
    ensures Possible(max, s, steps + [t]) <==> Possible(max, s, steps) && Enabled(RunOf(max, s, steps), t)
    ensures RunOf(max, s, steps + [t]) == Apply(max, RunOf(max, s, steps), t)
  {
    hide Apply, Enabled;
    assert (steps + [t])[..|steps|] == steps;
  }

  const EMPTY := Lru([], map[], 0, 0, [], {})

  lemma ExpiringSet(a: byte)
    ensures var one := Lru([Entry(0, [a], [a])], map[[a] := 1], 2, 1, [], {});
      && IsOrder([[a]], WithExpiry(EMPTY, [a], 1, 0).expires)
      && Set(EMPTY, 0, [a], Bytes([a]), 1, 0, 0, [[a]]) == one
      && Lookup(one, [a], 5) == Stale
  {
    var one := Lru([Entry(0, [a], [a])], map[[a] := 1], 2, 1, [], {});
    assert map[][[a] := 1] == map[[a] := 1];
    assert [] + [Entry(0, [a], [a])] == [Entry(0, [a], [a])];
    assert Push(WithExpiry(EMPTY, [a], 1, 0), [a], [a]) == one;
    assert [[a]][..0] == [];
    assert ExpireAll(one, 0, []) == one;
    assert ExpireAll(one, 0, [[a]]) == one;
  }

  lemma PermanentSet(a: byte)
    ensures var e := Entry(0, [a], [a]);
      var one, two := Lru([e], map[[a] := 1], 2, 1, [], {}), Lru([e], map[], 2, 1, [], {});
      && IsOrder([], WithExpiry(one, [a], 0, 5).expires)
      && Set(one, 0, [a], Bytes([a]), 0, 5, 5, []) == two
      && Lookup(two, [a], 5).Hit? && Lookup(Delete(two, [a]), [a], 5) == Miss
  {
    var e := Entry(0, [a], [a]);
    assert map[[a] := 1] - {[a]} == map[];
    assert ToBack([e][0 := e], 0) == [e];
    assert Without([e], 0) == [];
  }

  /** A run that loses a value in this way: it is set anew, without an expiry, after a get
      has found the old one expired. */
  lemma FreshDeleted(a: byte)
    ensures var s0 := State(EMPTY, multiset{}, multiset{});
      var older, newer := SetKey([a], Bytes([a]), 1, 0, 0, [[a]]), SetKey([a], Bytes([a]), 0, 5, 5, []);
      var steps := [] + [older] + [LookUp([a], 5)] + [newer];
      && Good(s0) && Possible(0, s0, steps + [DeleteStale([a])])
      && Lookup(RunOf(0, s0, steps).lru, [a], 5).Hit?
      && Lookup(RunOf(0, s0, steps + [DeleteStale([a])]).lru, [a], 5) == Miss
  {
    hide RunOf, Possible, Set, Lookup, Delete, WithExpiry, IsOrder;
    var s0 := State(EMPTY, multiset{}, multiset{});
    var older, newer := SetKey([a], Bytes([a]), 1, 0, 0, [[a]]), SetKey([a], Bytes([a]), 0, 5, 5, []);
    ExpiringSet(a);
    PermanentSet(a);
    RunSnoc(0, s0, [], older);
    RunSnoc(0, s0, [] + [older], LookUp([a], 5));
    RunSnoc(0, s0, [] + [older] + [LookUp([a], 5)], newer);
    RunSnoc(0, s0, [] + [older] + [LookUp([a], 5)] + [newer], DeleteStale([a]));
  }

  // ---- The byte limit ----

  predicate Within(max: int, s: Lru) {
    max <= 0 || s.used <= max
  }

  /** A step that replaces the value of a present key by one too long. */
  predicate Overfills(max: int, s: Lru, t: Step) {
    && t.SetKey? && t.value.Bytes? && HasKey(s.entries, t.key) && max > 0
    && s.used - |s.entries[Find(s.entries, t.key)].value| + |t.value.data| > max
  }

  lemma EvictWithin(max: int, s: Lru, now: int, order: seq<Key>)
    requires Ok(s) && IsOrder(order, s.expires)
    ensures Within(max, Evict(s, max, now, order))
  {
    hide Ok, LongestFitting;
    EvictIs(s, max, now, order);
  }

  lemma SetWithin(max: int, s: Lru, t: Step)
    requires Ok(s) && Within(max, s) && t.SetKey?
    requires IsOrder(t.order, WithExpiry(s, t.key, t.expiration, t.now).expires)
    ensures Within(max, Set(s, max, t.key, t.value, t.expiration, t.now, t.later, t.order)) <==> !Overfills(max, s, t)
  {
    hide Ok, Evict, HasKey, IsOrder;
    var timed := WithExpiry(s, t.key, t.expiration, t.now);
    FindsKey(s.entries, t.key);
    if t.value.Bytes? && !HasKey(s.entries, t.key) {
      PushKeepsOk(s, t.key, t.value.data, timed.expires);
      EvictWithin(max, Push(timed, t.key, t.value.data), t.later, t.order);
    }
  }

  /** The bytes in use stay within the limit except by one kind of step: replacing a
      value, which does not evict, by one too long; and that kind always exceeds it. */
  lemma LimitKept(max: int, s: State, t: Step)
    requires Good(s) && Enabled(s, t) && Within(max, s.lru)
    ensures Within(max, Apply(max, s, t).lru) <==> !Overfills(max, s.lru, t)
  {
    hide Ok, Evict, HasKey, IsOrder, Set, ToBack, Without, Lookup, Safe;
    match t
    case LookUp(_, _) =>
    case MoveUp(_) =>
    case SetKey(_, _, _, _, _, _) => SetWithin(max, s.lru, t);
    case DeleteKey(_) =>
    case DeleteStale(_) =>
    case CleanUp(now, order) => EvictWithin(max, s.lru, now, order);
    case ClearAll(_) =>
  }

  /** The bytes are within the limit after the run and after each part of it. */
  predicate WithinThroughout(max: int, s: State, steps: seq<Step>) {
    Within(max, RunOf(max, s, steps).lru) &&
    (steps == [] || WithinThroughout(max, s, steps[..|steps| - 1]))
  }

  /** No step of the run replaces a value by one too long. */
  predicate NeverOverfills(max: int, s: State, steps: seq<Step>) {
    steps == [] ||
    (NeverOverfills(max, s, steps[..|steps| - 1])
      && !Overfills(max, RunOf(max, s, steps[..|steps| - 1]).lru, steps[|steps| - 1]))
  }

  /** A run that begins within the limit stays within it all the time, if and only if no
      step of it replaces a value by one too long. */
  lemma {:induction false} LimitKeptIff(max: int, s: State, steps: seq<Step>)
    requires Good(s) && Possible(max, s, steps) && Within(max, s.lru)
    ensures WithinThroughout(max, s, steps) <==> NeverOverfills(max, s, steps)
  {
    hide Good, Apply, Enabled, Within, Overfills;
    if steps != [] {
      var k := |steps| - 1;
      LimitKeptIff(max, s, steps[..k]);
      RunKeepsGood(max, s, steps[..k]);
      if WithinThroughout(max, s, steps[..k]) {
        LimitKept(max, RunOf(max, s, steps[..k]), steps[k]);
      }
    }
  }

  /** A limit of three bytes, and four in use after two sets of one key. */
  lemma LimitExceeded(a: byte)
    ensures var s0 := State(Lru([], map[], 0, 0, [], {}), multiset{}, multiset{});
      var t1, t2 := SetKey([a], Bytes([a]), 0, 0, 0, []), SetKey([a], Bytes([a, a, a]), 0, 0, 0, []);
      && Good(s0) && Possible(3, s0, [t1, t2]) && RunOf(3, s0, [t1, t2]).lru.used == 4
  {
    var s0 := State(Lru([], map[], 0, 0, [], {}), multiset{}, multiset{});
    var t1, t2 := SetKey([a], Bytes([a]), 0, 0, 0, []), SetKey([a], Bytes([a, a, a]), 0, 0, 0, []);
    var steps := [t1, t2];
    assert steps[..1] == [t1] && [t1][..0] == [];
    var one := Lru([Entry(0, [a], [a])], map[], 2, 1, [], {});
    assert Apply(3, s0, t1).lru == one;
    assert Find(one.entries, [a]) == 0;
    assert RunOf(3, s0, [t1]) == Apply(3, s0, t1);
  }
}
