/** One cache level as a value: its entries from the most to the least recent.
    An entry whose expireAt is not positive is dead, but still holds its place. */
module RecencyList {
  import opened Basics

  datatype Entry = Entry(k: Key, v: Value, expireAt: int) {
    predicate Live() {
      expireAt > 0
    }
  }

  type Level = seq<Entry>

  predicate DistinctKeys(l: Level) {
    forall i, j | 0 <= i < j < |l| :: l[i].k != l[j].k
  }

  /** The position of key k, or the length of the level when k has no entry. */
  function Find(l: Level, k: Key): (i: nat)
    ensures i <= |l|
    ensures i < |l| ==> l[i].k == k
    ensures forall j | 0 <= j < i :: l[j].k != k
  {
    if l == [] || l[0].k == k then 0 else 1 + Find(l[1..], k)
  }

  function Lookup(l: Level, k: Key): Option<Entry> {
    var i := Find(l, k);
    if i < |l| then Some(l[i]) else None
  }

  predicate Holds(l: Level, k: Key) {
    Find(l, k) < |l|
  }

  /** Writing k: its old entry moves to the front with the new value, or a new
      entry is pushed in front, dropping the last entry of a full level. */
  function Put(l: Level, cap: nat, k: Key, v: Value, expireAt: int): Level
    requires 0 < cap
  {
    var i := Find(l, k);
    if i < |l| then ToFront(l[i := Entry(k, v, expireAt)], i)
    else if |l| == cap then [Entry(k, v, expireAt)] + l[..cap - 1]
    else [Entry(k, v, expireAt)] + l
  }

  /** The entry that writing k pushes out, dead or alive. */
  function Dropped(l: Level, cap: nat, k: Key): Option<Entry>
    requires 0 < cap
  {
    if Find(l, k) == |l| == cap then Some(l[cap - 1]) else None
  }

  predicate PushesOut(l: Level, cap: nat, k: Key, q: Key)
    requires 0 < cap
  {
    Dropped(l, cap, k).Some? && Dropped(l, cap, k).value.k == q
  }

  /** Reading k moves its entry to the front, even a dead one. */
  function Touch(l: Level, k: Key): Level {
    var i := Find(l, k);
    if i < |l| then ToFront(l, i) else l
  }

  /** Deleting k marks its live entry dead and moves it to the back. */
  function Kill(l: Level, k: Key): Level {
    var i := Find(l, k);
    if i < |l| && l[i].Live() then ToBack(l[i := l[i].(expireAt := 0)], i) else l
  }

  /** An entry as deletion leaves it. */
  function DeadCopy(e: Option<Entry>): Option<Entry> {
    if e.Some? && e.value.Live() then Some(e.value.(expireAt := 0)) else e
  }

  /** With distinct keys, the entry found is the only one that can be. */
  lemma LookupAt(l: Level, i: nat)
    requires DistinctKeys(l) && i < |l|
    ensures Find(l, l[i].k) == i && Lookup(l, l[i].k) == Some(l[i])
  {
  }

  /** A level with the same entries answers every lookup in the same way. */
  lemma LookupSame(l: Level, l': Level, q: Key)
    requires DistinctKeys(l) && DistinctKeys(l')
    requires forall e :: e in l <==> e in l'
    ensures Lookup(l, q) == Lookup(l', q)
  {
    var i, i' := Find(l, q), Find(l', q);
    if i < |l| {
      assert l[i] in l';
    }
    if i' < |l'| {
      assert l'[i'] in l;
    }
  }

  lemma FrontEffect(l: Level, i: nat)
    requires DistinctKeys(l) && i < |l|
    ensures DistinctKeys(ToFront(l, i))
    ensures forall q :: Lookup(ToFront(l, i), q) == Lookup(l, q)
  {
    var r := ToFront(l, i);
    FrontMembers(l, i);
    forall q ensures Lookup(r, q) == Lookup(l, q) {
      LookupSame(l, r, q);
    }
  }

  lemma BackEffect(l: Level, i: nat)
    requires DistinctKeys(l) && i < |l|
    ensures DistinctKeys(ToBack(l, i))
    ensures forall q :: Lookup(ToBack(l, i), q) == Lookup(l, q)
  {
    var r := ToBack(l, i);
    BackMembers(l, i);
    forall q ensures Lookup(r, q) == Lookup(l, q) {
      LookupSame(l, r, q);
    }
  }

  /** Overwriting the entry of a key changes the lookup of that key only. */
  lemma UpdateEffect(l: Level, i: nat, e: Entry)
    requires DistinctKeys(l) && i < |l| && e.k == l[i].k
    ensures DistinctKeys(l[i := e])
    ensures forall q :: Lookup(l[i := e], q) == if q == e.k then Some(e) else Lookup(l, q)
  {
    var r := l[i := e];
    forall q ensures Lookup(r, q) == if q == e.k then Some(e) else Lookup(l, q) {
      if q == e.k {
        LookupAt(r, i);
      } else if Find(l, q) < |l| {
        LookupAt(r, Find(l, q));
      }
    }
  }

  /** A new entry in front hides nothing but its own key. */
  lemma PushEffect(l: Level, e: Entry)
    requires DistinctKeys(l) && !Holds(l, e.k)
    ensures DistinctKeys([e] + l)
    ensures forall q :: Lookup([e] + l, q) == if q == e.k then Some(e) else Lookup(l, q)
  {
    var r := [e] + l;
    assert r[1..] == l;
  }

  /** Dropping the last entry loses that entry's key only. */
  lemma DropEffect(l: Level)
    requires DistinctKeys(l) && l != []
    ensures DistinctKeys(l[..|l| - 1])
    ensures forall q :: Lookup(l[..|l| - 1], q) == if q == l[|l| - 1].k then None else Lookup(l, q)
  {
    var r := l[..|l| - 1];
    forall q ensures Lookup(r, q) == if q == l[|l| - 1].k then None else Lookup(l, q) {
      var i := Find(l, q);
      if i < |l| {
        LookupAt(l, i);
        if i < |r| {
          LookupAt(r, i);
        }
      }
    }
  }

  /** What Put does to every key: k gets the new entry, the key pushed out loses
      its entry, and no other key is affected. */
  lemma PutEffect(l: Level, cap: nat, k: Key, v: Value, expireAt: int)
    requires DistinctKeys(l) && |l| <= cap && 0 < cap
    ensures var r := Put(l, cap, k, v, expireAt);
      && DistinctKeys(r) && |r| <= cap
      && r[0] == Entry(k, v, expireAt)
      && Lookup(r, k) == Some(Entry(k, v, expireAt))
      && forall q | q != k :: Lookup(r, q) == if PushesOut(l, cap, k, q) then None else Lookup(l, q)
  {
    var i, e := Find(l, k), Entry(k, v, expireAt);
    if i < |l| {
      UpdateEffect(l, i, e);
      FrontEffect(l[i := e], i);
    } else if |l| == cap {
      DropEffect(l);
      PushEffect(l[..cap - 1], e);
    } else {
      PushEffect(l, e);
    }
  }

  lemma TouchEffect(l: Level, k: Key)
    requires DistinctKeys(l)
    ensures DistinctKeys(Touch(l, k)) && |Touch(l, k)| == |l|
    ensures forall q :: Lookup(Touch(l, k), q) == Lookup(l, q)
  {
    if Holds(l, k) {
      FrontEffect(l, Find(l, k));
    }
  }

  /** Deleting k leaves k without a live entry and every other key as it was. */
  lemma KillEffect(l: Level, k: Key)
    requires DistinctKeys(l)
    ensures DistinctKeys(Kill(l, k)) && |Kill(l, k)| == |l|
    ensures forall q | q != k :: Lookup(Kill(l, k), q) == Lookup(l, q)
    ensures Lookup(Kill(l, k), k) == DeadCopy(Lookup(l, k))
  {
    var i := Find(l, k);
    if i < |l| && l[i].Live() {
      UpdateEffect(l, i, l[i].(expireAt := 0));
      BackEffect(l[i := l[i].(expireAt := 0)], i);
    }
  }

  /** The live entries, most recent first. */
  function LiveEntries(l: Level): (r: Level)
  {
    if l == [] then []
    else if l[0].Live() then [l[0]] + LiveEntries(l[1..])
    else LiveEntries(l[1..])
  }

  lemma {:induction false} LiveEntriesSnoc(l: Level, e: Entry)
    ensures LiveEntries(l + [e]) == if e.Live() then LiveEntries(l) + [e] else LiveEntries(l)
  {
    if l == [] {
      assert l + [e] == [e];
    } else {
      LiveEntriesSnoc(l[1..], e);
      assert (l + [e])[1..] == l[1..] + [e] && (l + [e])[0] == l[0];
    }
  }
}
