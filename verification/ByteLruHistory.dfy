/** What the history of a byte-bounded LRU cache says of its entries: which value a get
    returns, when it hits, and in which order the entries are evicted. */
module ByteLruHistory {
  import opened Basics
  import opened ByteLru
  import opened ByteLruRuns

  // ---- The history of a key ----

  predicate Drops(t: Step, key: Key) {
    match t
    case SetKey(k, value, _, _, _, _) => k == key && value.Nil?
    case DeleteKey(k) => k == key
    case DeleteStale(k) => k == key
    case ClearAll(_) => true
    case _ => false
  }

  /** The value that the last set gave the key, if it was not dropped since. */
  function Given(steps: seq<Step>, key: Key): Option<seq<byte>> {
    if steps == [] then None
    else
      var t := steps[|steps| - 1];
      if SetsKey(t, key) then Some(t.value.data)
      else if Drops(t, key) then None
      else Given(steps[..|steps| - 1], key)
  }

  /** A set of the key, or the second phase of a get of it whose element is still there. */
  predicate UsesKey(es: seq<Entry>, t: Step, key: Key) {
    SetsKey(t, key) ||
    (t.MoveUp? && t.pending.key == key && exists e :: e in es && e.handle == t.pending.handle)
  }

  /** How many steps the run had taken when it last used the key. */
  function LastUse(max: int, s: State, steps: seq<Step>, key: Key): (n: nat)
    ensures n <= |steps|
  {
    if steps == [] then 0
    else
      var k := |steps| - 1;
      if UsesKey(RunOf(max, s, steps[..k]).lru.entries, steps[k], key) then |steps|
      else LastUse(max, s, steps[..k], key)
  }

  // ---- Entries that fit a history ----

  /** Every entry has the value given to its key, and entries used earlier come first. */
  ghost predicate Fits(es: seq<Entry>, given: Key -> Option<seq<byte>>, rank: Key -> nat) {
    && (forall i | 0 <= i < |es| :: given(es[i].key) == Some(es[i].value))
    && (forall i, j | 0 <= i < j < |es| :: rank(es[i].key) < rank(es[j].key))
  }

  lemma {:induction false} FitsKeep(es: seq<Entry>, gone: set<Key>, given: Key -> Option<seq<byte>>, rank: Key -> nat)
    requires Fits(es, given, rank)
    ensures Fits(Keep(es, gone), given, rank)
  {
    if es != [] {
      FitsKeep(es[1..], gone, given, rank);
      var kept := Keep(es[1..], gone);
      forall j | 0 <= j < |kept| ensures rank(es[0].key) < rank(kept[j].key) {
        KeepMembers(es[1..], gone, kept[j]);
        var i :| 0 <= i < |es[1..]| && es[1..][i] == kept[j];
        assert es[i + 1] == kept[j];
      }
    }
  }

  lemma {:induction false} KeepIs(es: seq<Entry>, gone: set<Key>, e: Entry)
    ensures e in Keep(es, gone) <==> e in es && e.key !in gone
  {
    if es != [] {
      KeepIs(es[1..], gone, e);
      assert es == [es[0]] + es[1..];
    }
  }

  /** The history may change for keys that have no entry. */
  lemma FitsSame(es: seq<Entry>, given: Key -> Option<seq<byte>>, rank: Key -> nat,
                 given': Key -> Option<seq<byte>>, rank': Key -> nat)
    requires Fits(es, given, rank)
    requires forall e | e in es :: given'(e.key) == given(e.key) && rank'(e.key) == rank(e.key)
    ensures Fits(es, given', rank')
  {
    assert forall i | 0 <= i < |es| :: es[i] in es;
  }

  /** An entry that is used last comes to the back. */
  lemma FitsBack(es: seq<Entry>, i: nat, value: seq<byte>, given: Key -> Option<seq<byte>>, rank: Key -> nat,
                 given': Key -> Option<seq<byte>>, rank': Key -> nat)
    requires Fits(es, given, rank) && Distinct(es) && i < |es|
    requires forall k | k != es[i].key :: given'(k) == given(k) && rank'(k) == rank(k)
    requires given'(es[i].key) == Some(value) && forall k :: rank(k) < rank'(es[i].key)
    ensures Fits(ToBack(es[i := es[i].(value := value)], i), given', rank')
  {
    var r := ToBack(es[i := es[i].(value := value)], i);
    BackAt(es[i := es[i].(value := value)], i);
    hide ToBack;
    assert forall j | 0 <= j < |es| - 1 :: r[j] == es[if j < i then j else j + 1] && r[j].key != es[i].key;
  }

  lemma FitsPush(es: seq<Entry>, e: Entry, given: Key -> Option<seq<byte>>, rank: Key -> nat,
                 given': Key -> Option<seq<byte>>, rank': Key -> nat)
    requires Fits(es, given, rank) && forall x | x in es :: x.key != e.key
    requires forall k | k != e.key :: given'(k) == given(k) && rank'(k) == rank(k)
    requires given'(e.key) == Some(e.value) && forall k :: rank(k) < rank'(e.key)
    ensures Fits(es + [e], given', rank')
  {
    assert forall i | 0 <= i < |es| :: es[i] in es && (es + [e])[i] == es[i];
  }

  // ---- Every run fits its history ----

  function Values(steps: seq<Step>): Key -> Option<seq<byte>> {
    key => Given(steps, key)
  }

  function Uses(max: int, s: State, steps: seq<Step>): Key -> nat {
    key => LastUse(max, s, steps, key)
  }

  /** What one more step adds to the history. */
  lemma HistoryNext(max: int, s: State, steps: seq<Step>, t: Step, key: Key)
    ensures RunOf(max, s, steps + [t]) == Apply(max, RunOf(max, s, steps), t)
    ensures Values(steps + [t])(key) ==
      if SetsKey(t, key) then Some(t.value.data) else if Drops(t, key) then None else Values(steps)(key)
    ensures Uses(max, s, steps + [t])(key) ==
      if UsesKey(RunOf(max, s, steps).lru.entries, t, key) then |steps| + 1 else Uses(max, s, steps)(key)
    ensures Uses(max, s, steps)(key) <= |steps|
  {
    hide Apply, UsesKey, SetsKey, Drops;
    assert (steps + [t])[..|steps|] == steps;
  }

  lemma DeleteFits(max: int, s: State, steps: seq<Step>, t: Step, key: Key)
    requires var c := RunOf(max, s, steps); Ok(c.lru) && Fits(c.lru.entries, Values(steps), Uses(max, s, steps))
    requires forall k :: !SetsKey(t, k) && !t.MoveUp? && (Drops(t, k) <==> k == key)
    ensures Fits(Delete(RunOf(max, s, steps).lru, key).entries, Values(steps + [t]), Uses(max, s, steps + [t]))
  {
    hide Ok, Fits, Values, Uses, Delete, RunOf, SetsKey, Drops;
    var es := RunOf(max, s, steps).lru.entries;
    DeleteIs(RunOf(max, s, steps).lru, key);
    FitsKeep(es, {key}, Values(steps), Uses(max, s, steps));
    forall e | e in Keep(es, {key})
      ensures Values(steps + [t])(e.key) == Values(steps)(e.key)
      ensures Uses(max, s, steps + [t])(e.key) == Uses(max, s, steps)(e.key)
    {
      KeepIs(es, {key}, e);
      HistoryNext(max, s, steps, t, e.key);
    }
    FitsSame(Keep(es, {key}), Values(steps), Uses(max, s, steps), Values(steps + [t]), Uses(max, s, steps + [t]));
  }

  lemma EvictFits(s: Lru, max: int, now: int, order: seq<Key>, given: Key -> Option<seq<byte>>, rank: Key -> nat)
    requires Ok(s) && IsOrder(order, s.expires) && Fits(s.entries, given, rank)
    ensures Fits(Evict(s, max, now, order).entries, given, rank)
  {
    hide Ok, Evict, Keep, LongestFitting, IsOrder;
    EvictIs(s, max, now, order);
    var gone := set k | k in s.expires && Expired(s, k, now);
    FitsKeep(s.entries, gone, given, rank);
  }

  lemma SetFits(max: int, s: State, steps: seq<Step>, t: Step)
    requires var c := RunOf(max, s, steps); Ok(c.lru) && Fits(c.lru.entries, Values(steps), Uses(max, s, steps))
    requires t.SetKey? && Enabled(RunOf(max, s, steps), t)
    ensures Fits(Apply(max, RunOf(max, s, steps), t).lru.entries, Values(steps + [t]), Uses(max, s, steps + [t]))
  {
    hide Ok, Fits, Values, Uses, Delete, Evict, RunOf, HasKey, ToBack, IsOrder;
    var c := RunOf(max, s, steps).lru;
    if t.value.Nil? {
      DeleteFits(max, s, steps, t, t.key);
    } else {
      var timed := WithExpiry(c, t.key, t.expiration, t.now);
      forall k
        ensures Values(steps + [t])(k) == if k == t.key then Some(t.value.data) else Values(steps)(k)
        ensures Uses(max, s, steps + [t])(k) == if k == t.key then |steps| + 1 else Uses(max, s, steps)(k)
        ensures Uses(max, s, steps)(k) <= |steps|
      {
        HistoryNext(max, s, steps, t, k);
      }
      FindsKey(c.entries, t.key);
      if HasKey(c.entries, t.key) {
        OkDistinct(c);
        FitsBack(c.entries, Find(c.entries, t.key), t.value.data,
                 Values(steps), Uses(max, s, steps), Values(steps + [t]), Uses(max, s, steps + [t]));
      } else {
        var pushed := Push(timed, t.key, t.value.data);
        PushKeepsOk(c, t.key, t.value.data, timed.expires);
        KeyMembers(c.entries, t.key);
        FitsPush(c.entries, Entry(c.next, t.key, t.value.data),
                 Values(steps), Uses(max, s, steps), Values(steps + [t]), Uses(max, s, steps + [t]));
        EvictFits(pushed, max, t.later, t.order, Values(steps + [t]), Uses(max, s, steps + [t]));
      }
    }
  }

  lemma MoveFits(max: int, s: State, steps: seq<Step>, t: Step)
    requires var c := RunOf(max, s, steps); Good(c) && Fits(c.lru.entries, Values(steps), Uses(max, s, steps))
    requires t.MoveUp? && Enabled(RunOf(max, s, steps), t)
    ensures Fits(Apply(max, RunOf(max, s, steps), t).lru.entries, Values(steps + [t]), Uses(max, s, steps + [t]))
  {
    hide Fits, Values, Uses, RunOf, HasKey, ToBack, Ok, UsesKey, Safe, Seek, Find;
    var c := RunOf(max, s, steps);
    var es, p := c.lru.entries, t.pending;
    forall k
      ensures Values(steps + [t])(k) == Values(steps)(k)
      ensures Uses(max, s, steps + [t])(k) == if UsesKey(es, t, k) then |steps| + 1 else Uses(max, s, steps)(k)
      ensures Uses(max, s, steps)(k) <= |steps|
    {
      HistoryNext(max, s, steps, t, k);
    }
    MoveIs(c, p);
    UsedIfThere(es, t);
    var i := Seek(es, p.handle);
    if i < |es| {
      OkDistinct(c.lru);
      SeekThere(c.lru, p);
      assert es[i := es[i].(value := es[i].value)] == es;
      GivenThere(es, i, Values(steps), Uses(max, s, steps));
      FitsBack(es, i, es[i].value, Values(steps), Uses(max, s, steps),
               Values(steps + [t]), Uses(max, s, steps + [t]));
    } else {
      FitsSame(es, Values(steps), Uses(max, s, steps), Values(steps + [t]), Uses(max, s, steps + [t]));
    }
  }

  lemma GivenThere(es: seq<Entry>, i: nat, given: Key -> Option<seq<byte>>, rank: Key -> nat)
    requires Fits(es, given, rank) && i < |es|
    ensures given(es[i].key) == Some(es[i].value)
  {
  }

  lemma UsedIfThere(es: seq<Entry>, t: Step)
    requires t.MoveUp?
    ensures forall k :: UsesKey(es, t, k) <==> k == t.pending.key && Seek(es, t.pending.handle) < |es|
  {
    var i := Seek(es, t.pending.handle);
    if e :| e in es && e.handle == t.pending.handle {
      var j :| 0 <= j < |es| && es[j] == e;
      if j < i {
        SeekFirst(es, t.pending.handle, j);
      }
    }
    assert i < |es| ==> es[i] in es;
  }

  lemma SeekThere(s: Lru, p: Pending)
    requires Ok(s) && Seek(s.entries, p.handle) < |s.entries|
    requires var i := Find(s.entries, p.key); i < |s.entries| && s.entries[i].handle == p.handle
    ensures Seek(s.entries, p.handle) == Find(s.entries, p.key)
  {
    FindAt(s.entries, Find(s.entries, p.key));
  }

  lemma StepFits(max: int, s: State, steps: seq<Step>, t: Step)
    requires var c := RunOf(max, s, steps); Good(c) && Fits(c.lru.entries, Values(steps), Uses(max, s, steps))
    requires Enabled(RunOf(max, s, steps), t)
    ensures Fits(Apply(max, RunOf(max, s, steps), t).lru.entries, Values(steps + [t]), Uses(max, s, steps + [t]))
  {
    hide Fits, Values, Uses, RunOf, Ok, Set, Move, Delete, Evict, IsOrder;
    var c := RunOf(max, s, steps);
    match t
    case MoveUp(_) => MoveFits(max, s, steps, t);
    case SetKey(_, _, _, _, _, _) => SetFits(max, s, steps, t);
    case DeleteKey(key) => DeleteFits(max, s, steps, t, key);
    case DeleteStale(key) => DeleteFits(max, s, steps, t, key);
    case LookUp(_, _) => UnusedFits(max, s, steps, t);
    case CleanUp(now, order) =>
      UnusedFits(max, s, steps, t);
      EvictFits(c.lru, max, now, order, Values(steps + [t]), Uses(max, s, steps + [t]));
    case ClearAll(_) => NothingFits(Values(steps + [t]), Uses(max, s, steps + [t]));
  }

  lemma UnusedFits(max: int, s: State, steps: seq<Step>, t: Step)
    requires t.LookUp? || t.CleanUp?
    requires Fits(RunOf(max, s, steps).lru.entries, Values(steps), Uses(max, s, steps))
    ensures Fits(RunOf(max, s, steps).lru.entries, Values(steps + [t]), Uses(max, s, steps + [t]))
  {
    hide Fits, Values, Uses, RunOf;
    forall k
      ensures Values(steps + [t])(k) == Values(steps)(k) && Uses(max, s, steps + [t])(k) == Uses(max, s, steps)(k)
    {
      HistoryNext(max, s, steps, t, k);
    }
    FitsSame(RunOf(max, s, steps).lru.entries, Values(steps), Uses(max, s, steps),
             Values(steps + [t]), Uses(max, s, steps + [t]));
  }

  lemma NothingFits(given: Key -> Option<seq<byte>>, rank: Key -> nat)
    ensures Fits([], given, rank)
  {
  }

  const FRESH := State(EMPTY, multiset{}, multiset{})

  lemma FreshIsGood()
    ensures Good(FRESH)
  {
  }

  /** Over every interleaving from the empty cache: every entry has the value that the last
      set gave its key, which was not dropped since, and the entries are in the order in
      which their keys were last set or read. */
  lemma {:induction false} RunFits(max: int, steps: seq<Step>)
    requires Possible(max, FRESH, steps)
    ensures Good(RunOf(max, FRESH, steps))
    ensures var es := RunOf(max, FRESH, steps).lru.entries;
      && (forall i | 0 <= i < |es| :: Given(steps, es[i].key) == Some(es[i].value))
      && (forall i, j | 0 <= i < j < |es| ::
            LastUse(max, FRESH, steps, es[i].key) < LastUse(max, FRESH, steps, es[j].key))
  {
    FreshIsGood();
    FitsAll(max, steps);
    RunKeepsGood(max, FRESH, steps);
  }

  lemma FitsAtFirst(max: int)
    ensures Fits(RunOf(max, FRESH, []).lru.entries, Values([]), Uses(max, FRESH, []))
  {
    hide Values, Uses;
  }

  lemma {:induction false} FitsAll(max: int, steps: seq<Step>)
    requires Possible(max, FRESH, steps)
    ensures Fits(RunOf(max, FRESH, steps).lru.entries, Values(steps), Uses(max, FRESH, steps))
  {
    hide Fits, Values, Uses, Apply, Enabled, Good;
    if steps == [] {
      FitsAtFirst(max);
    } else {
      var k := |steps| - 1;
      FitsAll(max, steps[..k]);
      FreshIsGood();
      RunKeepsGood(max, FRESH, steps[..k]);
      StepFits(max, FRESH, steps[..k], steps[k]);
      assert steps[..k] + [steps[k]] == steps;
    }
  }

  // ---- What a get returns ----

  predicate Present(s: Lru, key: Key) {
    exists e :: e in s.entries && e.key == key
  }

  /** Over every interleaving from the empty cache: a get hits if and only if the key is in
      the cache and the expiry of its last set is not past, and then it returns the value
      of that set; it misses from a delete, a nil set or a clear up to the next set. */
  lemma HitIs(max: int, steps: seq<Step>, key: Key, now: int)
    requires Possible(max, FRESH, steps)
    ensures var s, past := RunOf(max, FRESH, steps).lru, Past(LastExpiry(steps, key, None), now);
      var found := Lookup(s, key, now);
      && (found.Hit? <==> Present(s, key) && !past)
      && (found.Stale? <==> Present(s, key) && past)
      && (found.Hit? ==> Given(steps, key) == Some(found.value) && Entry(found.handle, key, found.value) in s.entries)
      && (Given(steps, key) == None ==> found == Miss)
  {
    hide RunOf, Possible, Given, LastExpiry, LastUse, HasKey;
    RunFits(max, steps);
    FreshIsGood();
    RunExpiry(max, FRESH, steps, key);
    var s := RunOf(max, FRESH, steps).lru;
    FindsKey(s.entries, key);
    KeyMembers(s.entries, key);
    assert HasKey(s.entries, key) ==> s.entries[Find(s.entries, key)] in s.entries;
  }

  /** Each get that finds its key expired leads to one late deletion of it, and each hit to
      one second phase; nothing else does. */
  lemma PendingAre(max: int, s: State, t: Step, key: Key, p: Pending)
    requires Enabled(s, t)
    ensures var s' := Apply(max, s, t);
      var stale := t.LookUp? && t.key == key && Lookup(s.lru, key, t.now).Stale?;
      var hit := t.LookUp? && t.key == p.key && Lookup(s.lru, p.key, t.now).Hit?
                 && Lookup(s.lru, p.key, t.now).handle == p.handle;
      && s'.deletes[key] == s.deletes[key] + (if stale then 1 else 0) - (if t == DeleteStale(key) then 1 else 0)
      && s'.moves[p] == s.moves[p] + (if hit then 1 else 0) - (if t == MoveUp(p) then 1 else 0)
  {
    PendingParts(max, s, t);
    hide Apply;
    match t
    case LookUp(_, _) =>
    case MoveUp(_) =>
    case DeleteStale(_) =>
    case _ =>
  }

  lemma PendingParts(max: int, s: State, t: Step)
    ensures var s' := Apply(max, s, t);
      && s'.deletes == (
           if t.LookUp? && Lookup(s.lru, t.key, t.now).Stale? then s.deletes + multiset{t.key}
           else if t.DeleteStale? then s.deletes - multiset{t.key} else s.deletes)
      && s'.moves == (
           if t.LookUp? && Lookup(s.lru, t.key, t.now).Hit?
           then s.moves + multiset{Pending(t.key, Lookup(s.lru, t.key, t.now).handle)}
           else if t.MoveUp? then s.moves - multiset{t.pending} else s.moves)
  {
    hide Lookup, Set, Move, Delete, Evict, Clear;
  }

  /** A clear drops every element that is in the list. */
  lemma ClearedAre(s: Lru, calls: seq<(Key, seq<byte>)>, h: nat)
    ensures h in Clear(s, calls).cleared <==> h in s.cleared || exists e :: e in s.entries && e.handle == h
  {
    forall e | e in s.entries ensures e.handle in Handles(s.entries) {
      var i :| 0 <= i < |s.entries| && s.entries[i] == e;
    }
    forall i | 0 <= i < |s.entries| ensures s.entries[i] in s.entries {
    }
  }

  // ---- What takes a key out of the cache ----

  ghost function PastKeys(s: Lru, now: int): set<Key> {
    set k | k in s.expires && now > s.expires[k]
  }

  lemma {:induction false} KeepConcat(a: seq<Entry>, b: seq<Entry>, gone: set<Key>)
    ensures Keep(a + b, gone) == Keep(a, gone) + Keep(b, gone)
  {
    if a == [] {
      assert a + b == b;
    } else {
      KeepConcat(a[1..], b, gone);
      assert (a + b)[1..] == a[1..] + b;
    }
  }

  lemma LiveDistinct(s: Lru, now: int, order: seq<Key>)
    requires Ok(s) && IsOrder(order, s.expires)
    ensures Live(s, now) == Keep(s.entries, PastKeys(s, now)) && Distinct(Live(s, now))
  {
    hide Ok, Keep, IsOrder;
    ExpireAllIs(s, now, order);
    LiveIs(s, now, order);
    OkDistinct(ExpireAll(s, now, order));
    assert PastKeys(s, now) == set k | k in s.expires && Expired(s, k, now);
  }

  /** An eviction keeps an entry if and only if its key has not expired and it fits together
      with all unexpired entries that were used later; and it adds none. */
  lemma EvictKeeps(s: Lru, max: int, now: int, order: seq<Key>, i: nat)
    requires Ok(s) && IsOrder(order, s.expires) && i < |s.entries|
    ensures var e, r := s.entries[i], Evict(s, max, now, order);
      && (e in r.entries <==>
            !Past(ExpiryOf(s, e.key), now) && (max <= 0 || Sum(Keep(s.entries[i..], PastKeys(s, now))) <= max))
      && forall x | x in r.entries :: x in s.entries
  {
    hide Ok, Keep, Evict, Sum, Live, IsOrder, Distinct;
    EvictIs(s, max, now, order);
    LiveDistinct(s, now, order);
    var es, gone, live, r := s.entries, PastKeys(s, now), Live(s, now), Evict(s, max, now, order).entries;
    forall x | x in r ensures x in es {
      assert x in live;
      KeepIs(es, gone, x);
    }
    KeepIs(es, gone, es[i]);
    assert es[..i] + es[i..] == es;
    KeepConcat(es[..i], es[i..], gone);
    var j := |Keep(es[..i], gone)|;
    assert live[j..] == Keep(es[i..], gone);
    if es[i].key !in gone {
      HeadKept(es, i, gone);
      assert live[j] == es[i];
      SuffixHolds(live, |r|, j);
    }
  }

  lemma HeadKept(es: seq<Entry>, i: nat, gone: set<Key>)
    requires i < |es| && es[i].key !in gone
    ensures Keep(es[i..], gone) != [] && Keep(es[i..], gone)[0] == es[i]
  {
  }

  lemma SuffixHolds(live: seq<Entry>, n: nat, j: nat)
    requires Distinct(live) && n <= |live| && j < |live|
    ensures live[j] in live[|live| - n..] <==> |live| - n <= j
  {
    var r := live[|live| - n..];
    if |live| - n <= j {
      assert r[j - (|live| - n)] == live[j];
    } else {
      assert forall k | 0 <= k < n :: r[k] == live[|live| - n + k];
    }
  }

  /** A set that replaces a value or deletes, and every other step that does not evict,
      keeps a key present unless it drops it. */
  lemma StepPresent(max: int, s: State, t: Step, key: Key)
    requires Good(s) && Enabled(s, t)
    requires !t.CleanUp? && (t.SetKey? ==> t.value.Nil? || Present(s.lru, t.key))
    ensures Present(Apply(max, s, t).lru, key) <==> Present(s.lru, key) && !Drops(t, key)
  {
    hide Ok, Delete, Update, Move, HasKey, IsOrder, Evict, Safe, Push;
    KeyMembers(s.lru.entries, key);
    KeyMembers(Apply(max, s, t).lru.entries, key);
    match t
    case LookUp(_, _) =>
    case MoveUp(p) => MoveHas(s.lru, p.key, p.handle, key);
    case SetKey(k, value, expiration, now, _, _) =>
      KeyMembers(s.lru.entries, k);
      if value.Nil? {
        DeleteKeepsOk(s.lru, k);
      } else {
        FindsKey(s.lru.entries, k);
        ExpiryKeepsOk(s.lru, k, expiration, now);
        UpdateHas(WithExpiry(s.lru, k, expiration, now), Find(s.lru.entries, k), value.data, key);
      }
    case DeleteKey(k) => DeleteKeepsOk(s.lru, k);
    case DeleteStale(k) => DeleteKeepsOk(s.lru, k);
    case ClearAll(_) =>
  }

  lemma MoveHas(s: Lru, k: Key, handle: nat, key: Key)
    ensures HasKey(Move(s, k, handle).entries, key) <==> HasKey(s.entries, key)
  {
    hide HasKey, ToBack;
    var i := Seek(s.entries, handle);
    if i < |s.entries| {
      BackKeys(s.entries, i);
    }
  }

  /** A set of a new key evicts with the new entry in place, as the one used last. */
  lemma NewKeyEvicts(max: int, s: State, t: Step)
    requires Good(s) && Enabled(s, t) && t.SetKey? && t.value.Bytes? && !Present(s.lru, t.key)
    ensures exists pushed: Lru ::
      && pushed.entries == s.lru.entries + [Entry(s.lru.next, t.key, t.value.data)]
      && (forall k :: ExpiryOf(pushed, k) == if k == t.key then NewExpiry(t) else ExpiryOf(s.lru, k))
      && Ok(pushed) && IsOrder(t.order, pushed.expires)
      && Apply(max, s, t).lru == Evict(pushed, max, t.later, t.order)
  {
    hide Ok, HasKey, IsOrder, Evict, Safe;
    KeyMembers(s.lru.entries, t.key);
    var timed := WithExpiry(s.lru, t.key, t.expiration, t.now);
    var pushed := Push(timed, t.key, t.value.data);
    PushKeepsOk(s.lru, t.key, t.value.data, timed.expires);
    assert forall k :: ExpiryOf(pushed, k) == if k == t.key then NewExpiry(t) else ExpiryOf(s.lru, k);
  }
}
