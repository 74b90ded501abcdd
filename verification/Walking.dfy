/** What walking a level passes to a callback that can end the walk. */
module Walking {
  import opened RecencyList

  lemma {:induction false} LiveEntriesConcat(a: Level, b: Level)
    ensures LiveEntries(a + b) == LiveEntries(a) + LiveEntries(b)
  {
    if a == [] {
      assert a + b == b;
    } else {
      LiveEntriesConcat(a[1..], b);
      assert (a + b)[1..] == a[1..] + b && (a + b)[0] == a[0];
    }
  }

  /** The entries that a callback is called with, the last being the first one for
      which it does not want to go on. */
  function PassedTo(goOn: Entry -> bool, l: Level): Level {
    if l == [] then [] else if goOn(l[0]) then [l[0]] + PassedTo(goOn, l[1..]) else [l[0]]
  }

  lemma {:induction false} PassedOn(goOn: Entry -> bool, a: Level, b: Level)
    requires forall e | e in a :: goOn(e)
    ensures PassedTo(goOn, a + b) == a + PassedTo(goOn, b)
  {
    if a == [] {
      assert a + b == b;
    } else {
      assert a[0] in a && forall e | e in a[1..] :: e in a;
      PassedOn(goOn, a[1..], b);
      assert (a + b)[1..] == a[1..] + b && (a + b)[0] == a[0];
    }
  }

  /** A callback that goes on with every entry is called with all of them. */
  lemma PassedAll(goOn: Entry -> bool, l: Level)
    requires forall e | e in l :: goOn(e)
    ensures PassedTo(goOn, l) == l
  {
    PassedOn(goOn, l, []);
    assert l + [] == l;
  }

  /** One step of a walk: what the entry at i adds to what has been passed on. */
  lemma WalkNext(goOn: Entry -> bool, l: Level, i: nat)
    requires i < |l| && forall e | e in LiveEntries(l[..i]) :: goOn(e)
    ensures !l[i].Live() ==> LiveEntries(l[..i + 1]) == LiveEntries(l[..i])
    ensures l[i].Live() ==> LiveEntries(l[..i + 1]) == LiveEntries(l[..i]) + [l[i]]
    ensures l[i].Live() && !goOn(l[i]) ==> PassedTo(goOn, LiveEntries(l)) == LiveEntries(l[..i]) + [l[i]]
  {
    hide LiveEntries, PassedTo;
    assert l[..i + 1] == l[..i] + [l[i]];
    LiveEntriesSnoc(l[..i], l[i]);
    if l[i].Live() && !goOn(l[i]) {
      assert l == l[..i] + ([l[i]] + l[i + 1..]);
      WalkStops(goOn, l[..i], l[i], l[i + 1..]);
    }
  }

  /** A walk ends at the first live entry for which the callback does not want to go on. */
  lemma WalkStops(goOn: Entry -> bool, a: Level, e: Entry, b: Level)
    requires (forall x | x in LiveEntries(a) :: goOn(x)) && e.Live() && !goOn(e)
    ensures PassedTo(goOn, LiveEntries(a + ([e] + b))) == LiveEntries(a) + [e]
  {
    var rest := [e] + LiveEntries(b);
    assert ([e] + b)[1..] == b && LiveEntries([e] + b) == rest;
    assert PassedTo(goOn, rest) == [e];
    hide LiveEntries, PassedTo;
    LiveEntriesConcat(a, [e] + b);
    PassedOn(goOn, LiveEntries(a), rest);
  }
}
