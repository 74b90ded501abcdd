/** The cache of one level: a doubly linked recency list threaded through an
    array of slots, with a map from keys to slots. */
module LinkedCache {
  import opened Basics
  import opened RecencyList
  import opened Walking

  // Directions of a link: towards the head and towards the tail.
  const P: uint16 := 0
  const N: uint16 := 1

  function First(s: seq<uint16>): uint16 {
    if s == [] then 0 else s[0]
  }

  function Last(s: seq<uint16>): uint16 {
    if s == [] then 0 else s[|s| - 1]
  }

  predicate Slots(d: seq<seq<uint16>>, s: seq<uint16>) {
    && 0 < |d| <= 0x1_0000
    && (forall i | 0 <= i < |d| :: |d[i]| == 2)
    && (forall i | 0 <= i < |s| :: 0 < s[i] as int < |d|)
    && (forall i, j | 0 <= i < j < |s| :: s[i] != s[j])
  }

  /** Following t from the sentinel slot 0 visits s in order and returns to 0;
      following f visits it in the opposite order. */
  predicate Chain(d: seq<seq<uint16>>, f: uint16, t: uint16, s: seq<uint16>)
    requires f < 2 && t < 2
  {
    && Slots(d, s)
    && d[0][t] == First(s)
    && d[0][f] == Last(s)
    && (forall i {:trigger d[s[i]]} | 0 <= i < |s| ::
      && d[s[i]][t] == (if i + 1 < |s| then s[i + 1] else 0)
      && d[s[i]][f] == (if 0 < i then s[i - 1] else 0))
  }

  lemma ChainReverse(d: seq<seq<uint16>>, f: uint16, t: uint16, s: seq<uint16>)
    requires f < 2 && t < 2 && Chain(d, f, t, s)
    ensures Chain(d, t, f, Reverse(s))
  {
  }

  /** The slot reached from the sentinel by i steps in direction dir. */
  function Follow(d: seq<seq<uint16>>, dir: uint16, i: nat): uint16
    requires dir < 2
  {
    if i == 0 then 0
    else
      var slot := Follow(d, dir, i - 1);
      if slot as int < |d| && |d[slot]| == 2 then d[slot][dir] else 0
  }

  /** Following t lists the chain from its head, following f lists it from its
      tail, and both are back at the sentinel after the last slot. */
  lemma {:induction false} FollowChain(d: seq<seq<uint16>>, f: uint16, t: uint16, s: seq<uint16>, i: nat)
    requires f < 2 && t < 2 && Chain(d, f, t, s) && i <= |s|
    ensures Follow(d, t, i + 1) == if i < |s| then s[i] else 0
    ensures Follow(d, f, i + 1) == if i < |s| then s[|s| - 1 - i] else 0
  {
    if i == 0 {
      assert Follow(d, t, 0) == 0 && Follow(d, f, 0) == 0;
    } else {
      FollowChain(d, f, t, s, i - 1);
    }
  }

  /** d with the link of slot i in direction dir pointing to slot x. */
  function Link(d: seq<seq<uint16>>, i: uint16, dir: uint16, x: uint16): seq<seq<uint16>>
    requires i as int < |d| && dir < 2 && |d[i]| == 2
  {
    d[i as int := d[i][dir as int := x]]
  }

  /** d2 is d with the f link of slot a set to x and the t link of slot b set to y. */
  predicate Relinked(d: seq<seq<uint16>>, d2: seq<seq<uint16>>,
                     f: uint16, a: uint16, x: uint16, t: uint16, b: uint16, y: uint16)
    requires f < 2 && t < 2 && forall i | 0 <= i < |d| :: |d[i]| == 2
  {
    && |d2| == |d|
    && (forall i | 0 <= i < |d2| :: |d2[i]| == 2)
    && forall q: uint16 {:trigger d2[q]} | q as int < |d| ::
        && d2[q][f] == (if q == a then x else d[q][f])
        && d2[q][t] == (if q == b then y else d[q][t])
  }

  lemma LinkTwice(d: seq<seq<uint16>>, f: uint16, a: uint16, x: uint16, t: uint16, b: uint16, y: uint16)
    requires f < 2 && t < 2 && f != t && forall i | 0 <= i < |d| :: |d[i]| == 2
    requires a as int < |d| && b as int < |d|
    ensures Relinked(d, Link(Link(d, a, f, x), b, t, y), f, a, x, t, b, y)
  {
  }

  /** Taking the slot at position j out of the chain. */
  lemma Unlink(d: seq<seq<uint16>>, d2: seq<seq<uint16>>, f: uint16, t: uint16, s: seq<uint16>, j: nat)
    requires f < 2 && t < 2 && f != t
    requires Chain(d, f, t, s) && j < |s|
    requires Relinked(d, d2, f, d[s[j]][t], d[s[j]][f], t, d[s[j]][f], d[s[j]][t])
    ensures Chain(d2, f, t, Without(s, j))
  {
    var r := Without(s, j);
    WithoutSlots(d, d2, s, j);
    UnlinkEnds(d, d2, f, t, s, j);
    hide Slots, First, Last;
    forall i | 0 <= i < |r|
      ensures d2[r[i]][t] == (if i + 1 < |r| then r[i + 1] else 0)
      ensures d2[r[i]][f] == (if 0 < i then r[i - 1] else 0)
    {
      var i' := if i < j then i else i + 1;
      assert r[i] == s[i'];
      UnlinkAt(d, d2, f, t, s, j, i');
    }
  }

  lemma WithoutSlots(d: seq<seq<uint16>>, d2: seq<seq<uint16>>, s: seq<uint16>, j: nat)
    requires Slots(d, s) && j < |s| && |d2| == |d|
    requires forall i | 0 <= i < |d2| :: |d2[i]| == 2
    ensures Slots(d2, Without(s, j))
  {
    var r := Without(s, j);
    forall i | 0 <= i < |r| ensures 0 < r[i] as int < |d2| {
      assert r[i] == s[if i < j then i else i + 1];
    }
  }

  lemma UnlinkEnds(d: seq<seq<uint16>>, d2: seq<seq<uint16>>, f: uint16, t: uint16, s: seq<uint16>, j: nat)
    requires f < 2 && t < 2 && f != t
    requires Chain(d, f, t, s) && j < |s|
    requires Relinked(d, d2, f, d[s[j]][t], d[s[j]][f], t, d[s[j]][f], d[s[j]][t])
    ensures d2[0][t] == First(Without(s, j)) && d2[0][f] == Last(Without(s, j))
  {
  }

  lemma UnlinkAt(d: seq<seq<uint16>>, d2: seq<seq<uint16>>, f: uint16, t: uint16, s: seq<uint16>, j: nat, i: nat)
    requires f < 2 && t < 2 && f != t
    requires Chain(d, f, t, s) && j < |s| && i < |s| && i != j
    requires |d2| == |d| && |d2[s[i]]| == 2
    requires d2[s[i]][f] == if s[i] == d[s[j]][t] then d[s[j]][f] else d[s[i]][f]
    requires d2[s[i]][t] == if s[i] == d[s[j]][f] then d[s[j]][t] else d[s[i]][t]
    ensures var r, i' := Without(s, j), if i < j then i else i - 1;
      && r[i'] == s[i]
      && d2[s[i]][t] == (if i' + 1 < |r| then r[i' + 1] else 0)
      && d2[s[i]][f] == (if 0 < i' then r[i' - 1] else 0)
  {
  }

  /** Putting a slot that is not in the chain in front of it. */
  lemma PushFront(d: seq<seq<uint16>>, f: uint16, t: uint16, s: seq<uint16>, x: uint16)
    requires f < 2 && t < 2 && f != t
    requires Chain(d, f, t, s) && 0 < x as int < |d| && x !in s
    ensures var d1 := Link(Link(d, x, f, 0), x, t, d[0][t]);
      Chain(Link(Link(d1, d[0][t], f, x), 0, t, x), f, t, [x] + s)
  {
    var d1 := Link(Link(d, x, f, 0), x, t, d[0][t]);
    LinkTwice(d1, f, d[0][t], x, t, 0, x);
    PushRelinked(d, d1, Link(Link(d1, d[0][t], f, x), 0, t, x), f, t, s, x);
  }

  lemma PushRelinked(d: seq<seq<uint16>>, d1: seq<seq<uint16>>, d2: seq<seq<uint16>>,
                     f: uint16, t: uint16, s: seq<uint16>, x: uint16)
    requires f < 2 && t < 2 && f != t
    requires Chain(d, f, t, s) && 0 < x as int < |d| && x !in s
    requires d1 == Link(Link(d, x, f, 0), x, t, d[0][t])
    requires Relinked(d1, d2, f, d[0][t], x, t, 0, x)
    ensures Chain(d2, f, t, [x] + s)
  {
    var r := [x] + s;
    assert Slots(d2, r);
    forall i | 0 <= i < |r|
      ensures d2[r[i]][t] == (if i + 1 < |r| then r[i + 1] else 0)
      ensures d2[r[i]][f] == (if 0 < i then r[i - 1] else 0)
    {
      if 0 < i {
        assert r[i] == s[i - 1] && s[i - 1] in s;
      }
    }
  }

  /** s lists each of the slots 1..last exactly once. */
  predicate Enumerates(s: seq<uint16>, last: uint16) {
    && |s| == last as int
    && (forall i | 0 <= i < |s| :: 0 < s[i] <= last)
    && (forall i, j | 0 <= i < j < |s| :: s[i] != s[j])
    && (forall slot: uint16 | 0 < slot <= last :: slot in s)
  }

  lemma {:induction false} EnumeratesFront(s: seq<uint16>, last: uint16, j: nat)
    requires Enumerates(s, last) && j < |s|
    ensures Enumerates(ToFront(s, j), last)
  {
    FrontMembers(s, j);
  }

  lemma {:induction false} EnumeratesBack(s: seq<uint16>, last: uint16, j: nat)
    requires Enumerates(s, last) && j < |s|
    ensures Enumerates(ToBack(s, j), last)
  {
    BackMembers(s, j);
  }

  /** hmap is a bijection from the keys onto the slots 1..last. */
  predicate Indexed(m: seq<Entry>, hmap: map<Key, uint16>, last: uint16) {
    && last as int <= |m|
    && (forall k | k in hmap :: 0 < hmap[k] <= last && m[hmap[k] - 1].k == k)
    && (forall i | 0 <= i < last as int :: m[i].k in hmap && hmap[m[i].k] as int == i + 1)
  }

  /** The entries of the slots in s, in the order of s. */
  function EntriesOf(m: seq<Entry>, s: seq<uint16>): (l: Level)
    requires forall i | 0 <= i < |s| :: 0 < s[i] as int <= |m|
    ensures |l| == |s|
  {
    seq(|s|, i requires 0 <= i < |s| => m[s[i] - 1])
  }

  lemma {:induction false} EntriesFront(m: seq<Entry>, s: seq<uint16>, j: nat)
    requires j < |s| && forall i | 0 <= i < |s| :: 0 < s[i] as int <= |m|
    ensures forall i | 0 <= i < |s| :: 0 < ToFront(s, j)[i] as int <= |m|
    ensures EntriesOf(m, ToFront(s, j)) == ToFront(EntriesOf(m, s), j)
  {
  }

  lemma {:induction false} EntriesBack(m: seq<Entry>, s: seq<uint16>, j: nat)
    requires j < |s| && forall i | 0 <= i < |s| :: 0 < s[i] as int <= |m|
    ensures forall i | 0 <= i < |s| :: 0 < ToBack(s, j)[i] as int <= |m|
    ensures EntriesOf(m, ToBack(s, j)) == ToBack(EntriesOf(m, s), j)
  {
  }

  /** A key has a slot just when it has an entry, and the slot is at the
      position of that entry. */
  lemma {:induction false} SlotOf(m: seq<Entry>, hmap: map<Key, uint16>, last: uint16, s: seq<uint16>, k: Key)
    requires Indexed(m, hmap, last) && Enumerates(s, last)
    ensures DistinctKeys(EntriesOf(m, s))
    ensures k in hmap <==> Holds(EntriesOf(m, s), k)
    ensures k in hmap ==> s[Find(EntriesOf(m, s), k)] == hmap[k]
  {
    var l := EntriesOf(m, s);
    forall i, j | 0 <= i < j < |l| ensures l[i].k != l[j].k {
      assert m[s[i] - 1].k in hmap && m[s[j] - 1].k in hmap;
    }
    if k in hmap {
      assert hmap[k] in s;
      var j :| 0 <= j < |s| && s[j] == hmap[k];
      LookupAt(l, j);
    }
  }

  lemma {:induction false} EntriesUpdate(m: seq<Entry>, s: seq<uint16>, last: uint16, j: nat, e: Entry)
    requires Enumerates(s, last) && last as int <= |m| && j < |s|
    ensures EntriesOf(m[s[j] - 1 := e], s) == EntriesOf(m, s)[j := e]
  {
  }

  /** Slot last + 1 joins at the head. */
  lemma {:induction false} EnumeratesPush(s: seq<uint16>, last: uint16)
    requires Enumerates(s, last) && last < 65534
    ensures Enumerates([last + 1] + s, last + 1)
    ensures last + 1 !in s && (s == [] <==> last == 0)
  {
    assert forall slot: uint16 | slot in s :: slot in [last + 1] + s;
  }

  lemma {:induction false} EntriesPush(m: seq<Entry>, s: seq<uint16>, last: uint16, e: Entry)
    requires Enumerates(s, last) && last as int < |m| <= 65534
    requires Enumerates([last + 1] + s, last + 1)
    ensures EntriesOf(m[last := e], [last + 1] + s) == [e] + EntriesOf(m, s)
  {
  }

  lemma {:induction false} IndexedPush(m: seq<Entry>, hmap: map<Key, uint16>, last: uint16, e: Entry)
    requires last as int < |m| <= 65534
    requires Indexed(m, hmap, last) && e.k !in hmap
    ensures Indexed(m[last := e], hmap[e.k := last + 1], last + 1)
    ensures |hmap| == 0 <==> last == 0
  {
    assert last > 0 ==> m[0].k in hmap;
    if |hmap| > 0 {
      assert hmap.Keys != {};
    }
  }

  /** Giving slot idx to a key that has no slot. */
  lemma {:induction false} IndexedReplace(m: seq<Entry>, hmap: map<Key, uint16>, last: uint16, idx: uint16, e: Entry)
    requires Indexed(m, hmap, last) && 0 < idx <= last && e.k !in hmap
    ensures Indexed(m[idx - 1 := e], (hmap - {m[idx - 1].k})[e.k := idx], last)
  {
    var m', h' := m[idx - 1 := e], (hmap - {m[idx - 1].k})[e.k := idx];
    forall k | k in h' ensures 0 < h'[k] <= last && m'[h'[k] - 1].k == k {
      if k != e.k {
        assert hmap[k] != idx;
      }
    }
    forall i | 0 <= i < last as int ensures m'[i].k in h' && h'[m'[i].k] as int == i + 1 {
      assert m[i].k in hmap && hmap[m[i].k] as int == i + 1;
      assert m[idx - 1].k in hmap;
    }
  }

  /** What the eviction callback hears of a dropped entry. */
  function Reported(e: Option<Entry>): Option<(Key, Value)> {
    if e.Some? && e.value.Live() then Some((e.value.k, e.value.v)) else None
  }

  class Cache {
    const dlnk: array<seq<uint16>>  // links of each slot: [P] and [N]; slot 0 is the sentinel
    const m: array<Entry>           // the entry of slot i is m[i - 1]
    var hmap: map<Key, uint16>      // the slot of each key
    var last: uint16                // slots 1..last are in use
    ghost var order: seq<uint16>    // the slots in use, from head to tail

    /** Following N from slot 0 visits each of 1..last exactly once, P is the
        exact reverse, and hmap is a bijection from the keys onto 1..last. */
    ghost predicate Valid()
      reads this, dlnk, m
    {
      && m as object != dlnk
      && 1 <= m.Length <= 65534
      && dlnk.Length == m.Length + 1
      && last as int <= m.Length
      && Enumerates(order, last)
      && Chain(dlnk[..], P, N, order)
      && Indexed(m[..], hmap, last)
    }

    /** The level this cache represents. */
    ghost function Contents(): (l: Level)
      reads this, dlnk, m
      requires Valid()
    {
      EntriesOf(m[..], order)
    }

    lemma KeysDistinct()
      requires Valid()
      ensures DistinctKeys(Contents())
    {
      SlotOf(m[..], hmap, last, order, []);
    }

    /** The position of the entry of a key, found through its slot. */
    lemma Located(key: Key) returns (j: nat)
      requires Valid()
      ensures j == Find(Contents(), key)
      ensures |Contents()| == |order| == last as int
      ensures key in hmap <==> j < |order|
      ensures key in hmap ==> order[j] == hmap[key] && 0 < hmap[key] <= last && Contents()[j] == m[hmap[key] - 1]
    {
      SlotOf(m[..], hmap, last, order, key);
      j := Find(Contents(), key);
    }

    constructor (cap: uint16)
      requires 1 <= cap <= 65534
      ensures Valid() && fresh(dlnk) && fresh(m)
      ensures m.Length == cap as int
      ensures Contents() == []
    {
      dlnk := new seq<uint16>[cap as int + 1](_ => [0, 0]);
      m := new Entry[cap as int](_ => Entry([], Nil, 0));
      hmap := map[];
      last := 0;
      order := [];
    }

    /** Moves slot idx to the end of the chain that t leads to from the sentinel.
        With (P, N) this is the head, with (N, P) the tail. */
    method Adjust(idx: uint16, f: uint16, t: uint16, ghost s: seq<uint16>, ghost j: nat)
      requires f < 2 && t < 2 && f != t
      requires Chain(dlnk[..], f, t, s) && j < |s| && s[j] == idx
      modifies dlnk
      ensures Chain(dlnk[..], f, t, ToFront(s, j))
    {
      if dlnk[idx][f] != 0 {
        ghost var d0 := dlnk[..];
        dlnk[dlnk[idx][t]] := dlnk[dlnk[idx][t]][f as int := dlnk[idx][f]];
        dlnk[dlnk[idx][f]] := dlnk[dlnk[idx][f]][t as int := dlnk[idx][t]];
        ghost var d1 := dlnk[..];
        LinkTwice(d0, f, d0[idx][t], d0[idx][f], t, d0[idx][f], d0[idx][t]);
        assert d1 == Link(Link(d0, d0[idx][t], f, d0[idx][f]), d0[idx][f], t, d0[idx][t]);
        Unlink(d0, d1, f, t, s, j);
        assert idx !in Without(s, j);
        PushFront(d1, f, t, Without(s, j), idx);
        dlnk[idx] := dlnk[idx][f as int := 0];
        dlnk[idx] := dlnk[idx][t as int := dlnk[0][t]];
        dlnk[dlnk[0][t]] := dlnk[dlnk[0][t]][f as int := idx];
        dlnk[0] := dlnk[0][t as int := idx];
        assert dlnk[..] == Link(Link(Link(Link(d1, idx, f, 0), idx, t, d1[0][t]), d1[0][t], f, idx), 0, t, idx);
      } else {
        assert ToFront(s, j) == s;
      }
    }

    method AdjustFront(idx: uint16, ghost s: seq<uint16>, ghost j: nat)
      requires Chain(dlnk[..], P, N, s) && j < |s| && s[j] == idx
      modifies dlnk
      ensures Chain(dlnk[..], P, N, ToFront(s, j))
    {
      Adjust(idx, P, N, s, j);
    }

    /** The mirror image of the chain that Adjust moves a slot in. */
    method AdjustBack(idx: uint16, ghost s: seq<uint16>, ghost j: nat)
      requires Chain(dlnk[..], P, N, s) && j < |s| && s[j] == idx
      modifies dlnk
      ensures Chain(dlnk[..], P, N, ToBack(s, j))
    {
      ghost var r, i := Reverse(s), |s| - 1 - j;
      ChainReverse(dlnk[..], P, N, s);
      Adjust(idx, N, P, r, i);
      ChainReverse(dlnk[..], N, P, ToFront(r, i));
      ReverseToFront(s, j);
    }

    method MoveToHead(idx: uint16, ghost j: nat)
      requires Valid() && j < |order| && order[j] == idx
      modifies this`order, dlnk
      ensures Valid()
      ensures Contents() == ToFront(old(Contents()), j)
    {
      hide Chain, Indexed;
      AdjustFront(idx, order, j);
      EnumeratesFront(order, last, j);
      EntriesFront(m[..], order, j);
      order := ToFront(order, j);
    }

    method MoveToTail(idx: uint16, ghost j: nat)
      requires Valid() && j < |order| && order[j] == idx
      modifies this`order, dlnk
      ensures Valid()
      ensures Contents() == ToBack(old(Contents()), j)
    {
      hide Chain, Indexed;
      AdjustBack(idx, order, j);
      EnumeratesBack(order, last, j);
      EntriesBack(m[..], order, j);
      order := ToBack(order, j);
    }

    method Store(slot: uint16, e: Entry)
      requires 0 < slot as int <= m.Length
      modifies m
      ensures m[..] == old(m[..])[slot - 1 := e]
    {
      m[slot - 1] := e;
    }

    /** Overwrites the value and the expiry of a slot. */
    method Overwrite(idx: uint16, v: Value, expireAt: int, ghost j: nat)
      requires Valid() && j < |order| && order[j] == idx && 0 < idx <= last
      modifies m
      ensures Valid()
      ensures Contents() == old(Contents())[j := old(m[idx - 1]).(v := v, expireAt := expireAt)]
      ensures m[idx - 1] == old(m[idx - 1]).(v := v, expireAt := expireAt)
    {
      hide Chain;
      ghost var e := m[idx - 1].(v := v, expireAt := expireAt);
      EntriesUpdate(m[..], order, last, j, e);
      Store(idx, m[idx - 1].(v := v, expireAt := expireAt));
    }

    /** Takes a slot from its key and gives it to a key without a slot. */
    method Recycle(idx: uint16, e: Entry, ghost j: nat)
      requires Valid() && j < |order| && order[j] == idx && 0 < idx <= last && e.k !in hmap
      modifies this`hmap, m
      ensures Valid()
      ensures Contents() == old(Contents())[j := e]
    {
      hide Chain;
      EntriesUpdate(m[..], order, last, j, e);
      IndexedReplace(m[..], hmap, last, idx, e);
      hmap := hmap - {m[idx - 1].k};
      hmap := hmap[e.k := idx];
      Store(idx, e);
    }

    /** The three writes that link the unused slot x in at the head. */
    method LinkFirst(x: uint16, empty: bool, ghost s: seq<uint16>)
      requires Chain(dlnk[..], P, N, s) && 0 < x as int < dlnk.Length && x !in s
      requires empty <==> s == []
      modifies dlnk
      ensures Chain(dlnk[..], P, N, [x] + s)
    {
      ghost var d := dlnk[..];
      PushFront(d, P, N, s, x);
      if empty {
        dlnk[0] := dlnk[0][P as int := x];
      } else {
        dlnk[dlnk[0][N]] := dlnk[dlnk[0][N]][P as int := x];
      }
      dlnk[x] := [0, dlnk[0][N]];
      assert dlnk[x] == d[x][P as int := 0][N as int := d[0][N]];
      dlnk[0] := dlnk[0][N as int := x];
      assert dlnk[..] == Link(Link(Link(Link(d, x, P, 0), x, N, d[0][N]), d[0][N], P, x), 0, N, x);
    }

    /** Takes the next unused slot and links it in at the head. */
    method Append(e: Entry)
      requires Valid() && e.k !in hmap && last as int < m.Length
      modifies this, dlnk, m
      ensures Valid()
      ensures Contents() == [e] + old(Contents())
    {
      EnumeratesPush(order, last);
      EntriesPush(m[..], order, last, e);
      IndexedPush(m[..], hmap, last, e);
      assert last + 1 !in order;
      hide Chain, Indexed, Enumerates, EntriesOf, Find, ToFront, ToBack;
      last := last + 1;
      LinkFirst(last, |hmap| == 0, order);
      Store(last, e);
      hmap := hmap[e.k := last];
      order := [last] + order;
    }

    /** Gives the tail slot of a full level to a new key and moves it to the head. */
    method RecycleTail(tail: uint16, e: Entry)
      requires Valid() && 0 < tail <= last && last as int == m.Length == |order|
      requires tail == order[last - 1] && e.k !in hmap
      modifies this, dlnk, m
      ensures Valid()
      ensures |old(Contents())| == m.Length
      ensures Contents() == [e] + old(Contents())[..m.Length - 1]
    {
      hide Chain, Indexed, Enumerates, EntriesOf;
      ghost var l, j := Contents(), m.Length - 1;
      Recycle(tail, e, j);
      MoveToHead(tail, j);
      assert ToFront(l[j := e], j) == [e] + l[..j];
    }

    method Tail() returns (tail: uint16)
      requires Valid() && 0 < last
      ensures |order| == |Contents()| == last as int && 0 < tail <= last
      ensures tail == order[last - 1] && m[tail - 1] == Contents()[last - 1]
    {
      tail := dlnk[0][P];
    }

    /** Writes the key of a slot in use and moves the slot to the head. */
    method Update(idx: uint16, val: Value, expireAt: int, ghost j: nat)
      requires Valid() && j < |order| && order[j] == idx && 0 < idx <= last
      modifies this`order, dlnk, m
      ensures Valid()
      ensures Contents() == ToFront(old(Contents())[j := old(m[idx - 1]).(v := val, expireAt := expireAt)], j)
    {
      hide Chain, Indexed, Enumerates, EntriesOf, Find, ToFront, ToBack;
      Overwrite(idx, val, expireAt, j);
      MoveToHead(idx, j);
    }

    /** reported is the entry that the eviction callback is called with. */
    method Put(key: Key, val: Value, expireAt: int) returns (status: int, reported: Option<(Key, Value)>)
      requires Valid()
      modifies this, dlnk, m
      ensures Valid()
      ensures Contents() == RecencyList.Put(old(Contents()), m.Length, key, val, expireAt)
      ensures status == if Holds(old(Contents()), key) then 0 else 1
      ensures reported == Reported(Dropped(old(Contents()), m.Length, key))
    {
      hide Chain, Indexed, Enumerates, EntriesOf, Find, ToFront, ToBack;
      ghost var j := Located(key);
      if key in hmap {
        Update(hmap[key], val, expireAt, j);
        return 0, None;
      }
      if last as int == m.Length {
        var tail := Tail();
        var t := m[tail - 1];
        reported := if t.expireAt > 0 then Some((t.k, t.v)) else None;
        RecycleTail(tail, Entry(key, val, expireAt));
        return 1, reported;
      }
      Append(Entry(key, val, expireAt));
      return 1, None;
    }

    method Get(key: Key) returns (e: Option<Entry>, status: int)
      requires Valid()
      modifies this`order, dlnk
      ensures Valid()
      ensures Contents() == Touch(old(Contents()), key)
      ensures e == Lookup(old(Contents()), key)
      ensures status == if e.Some? then 1 else 0
    {
      hide Chain, Indexed, Enumerates, EntriesOf, Find, ToFront, ToBack;
      ghost var j := Located(key);
      if key in hmap {
        var idx := hmap[key];
        e := Some(m[idx - 1]);
        MoveToHead(idx, j);
        return e, 1;
      }
      return None, 0;
    }

    /** e is the entry after its deletion, expireAt the expiry it had before. */
    method Del(key: Key) returns (e: Option<Entry>, status: int, expireAt: int)
      requires Valid()
      modifies this`order, dlnk, m
      ensures Valid()
      ensures Contents() == Kill(old(Contents()), key)
      ensures var was := Lookup(old(Contents()), key);
        if was.Some? && was.value.Live()
        then e == DeadCopy(was) && status == 1 && expireAt == was.value.expireAt
        else e == None && status == 0 && expireAt == 0
    {
      hide Chain, Indexed, Enumerates, EntriesOf, Find, ToFront, ToBack;
      ghost var j := Located(key);
      if key in hmap {
        var idx := hmap[key];
        if m[idx - 1].expireAt > 0 {
          expireAt := m[idx - 1].expireAt;
          Overwrite(idx, m[idx - 1].v, 0, j);
          e, status := Some(m[idx - 1]), 1;
          MoveToTail(idx, j);
          return e, 1, expireAt;
        }
      }
      return None, 0, 0;
    }

    /** The entry the hash index leads to; nothing moves. */
    method Peek(key: Key) returns (e: Option<Entry>)
      requires Valid()
      ensures e == Lookup(Contents(), key)
    {
      ghost var j := Located(key);
      if key in hmap {
        return Some(m[hmap[key] - 1]);
      }
      return None;
    }

    /** What a step of a walk along N sees. */
    lemma SlotAt(i: nat)
      requires Valid() && i <= |order|
      ensures |order| == |Contents()| && last as int <= m.Length < dlnk.Length
      ensures i < |order| ==>
        && 0 < order[i] <= last && m[order[i] - 1] == Contents()[i] && |dlnk[order[i]]| == 2
        && dlnk[order[i]][N] == if i + 1 < |order| then order[i + 1] else 0
      ensures i + 1 < |order| ==> 0 < order[i + 1]
    {
    }

    /** The live entries that a walk along N from the sentinel passes to its callback. */
    method Walk(goOn: Entry -> bool) returns (passed: seq<Entry>)
      requires Valid()
      ensures passed == PassedTo(goOn, LiveEntries(Contents()))
    {
      hide Valid, Contents, LiveEntries, PassedTo;
      StartOfWalk();
      passed := [];
      var idx := dlnk[0][N];
      ghost var i := 0;
      while idx != 0
        invariant 0 <= i <= |order| == |Contents()|
        invariant idx == if i < |order| then order[i] else 0
        invariant i < |order| ==> idx != 0
        invariant passed == LiveEntries(Contents()[..i])
        invariant forall e | e in passed :: goOn(e)
        decreases |order| - i
      {
        SlotAt(i);
        WalkNext(goOn, Contents(), i);
        if m[idx - 1].expireAt > 0 {
          passed := passed + [m[idx - 1]];
          if !goOn(m[idx - 1]) {
            return;
          }
        }
        idx := dlnk[idx][N];
        i := i + 1;
      }
      assert Contents()[..i] == Contents();
      PassedOn(goOn, passed, []);
      PassedNone(goOn);
      assert passed + [] == passed;
    }

    lemma StartOfWalk()
      requires Valid()
      ensures |order| == |Contents()| && dlnk.Length > 0 && |dlnk[0]| == 2
      ensures dlnk[0][N] == if order == [] then 0 else order[0]
      ensures order != [] ==> order[0] != 0
      ensures LiveEntries(Contents()[..0]) == []
    {
    }
  }

  lemma PassedNone(goOn: Entry -> bool)
    ensures PassedTo(goOn, []) == []
  {
  }
}
