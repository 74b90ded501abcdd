/** Concurrent loads of one key share a single call: any number of callers, taking
    their steps in any order. */
module Singleflight {
  import opened Basics

  /** What a load returns: a value and an error. */
  datatype Result = Result(val: Value, err: Option<Key>)

  // Where a caller is. A leader stores its call, runs fn, stores the result, signals
  // the waiting group, deletes the map's entry and returns; a caller that finds a
  // call in the map waits for it. A returned caller remembers whose call it shared.
  datatype Pc =
    | Start
    | Leading
    | Running
    | Stored
    | Signalled
    | Deleted
    | Waiting(leader: nat)
    | Returned(leader: nat, result: Option<Result>)

  /** A caller of Do with the call it allocates: its result, unset at first, and
      whether its waiting group has been signalled. */
  datatype Caller = Caller(key: Key, pc: Pc, result: Option<Result>, signalled: bool)

  datatype State = State(callers: seq<Caller>, m: map<Key, nat>)

  datatype Step =
    | Arrive(key: Key)
    | LoadOrStore(i: nat)
    | Begin(i: nat)
    | Finish(i: nat, result: Result)
    | Signal(i: nat)
    | Delete(i: nat)
    | Return(i: nat)
    | Wake(i: nat)

  predicate At(s: State, i: nat, pc: Pc) {
    i < |s.callers| && s.callers[i].pc == pc
  }

  predicate HasSignalled(s: State, i: nat) {
    i < |s.callers| && s.callers[i].signalled
  }

  predicate Enabled(s: State, t: Step) {
    match t
    case Arrive(_) => true
    case LoadOrStore(i) => At(s, i, Start)
    case Begin(i) => At(s, i, Leading)
    case Finish(i, _) => At(s, i, Running)
    case Signal(i) => At(s, i, Stored)
    case Delete(i) => At(s, i, Signalled)
    case Return(i) => At(s, i, Deleted)
    case Wake(i) => i < |s.callers| && s.callers[i].pc.Waiting? && HasSignalled(s, s.callers[i].pc.leader)
  }

  function Apply(s: State, t: Step): State
    requires Enabled(s, t)
  {
    match t
    case Arrive(key) => s.(callers := s.callers + [Caller(key, Start, None, false)])
    case LoadOrStore(i) =>
      var c := s.callers[i];
      if c.key in s.m then s.(callers := s.callers[i := c.(pc := Waiting(s.m[c.key]))])
      else State(s.callers[i := c.(pc := Leading)], s.m[c.key := i])
    case Begin(i) => s.(callers := s.callers[i := s.callers[i].(pc := Running)])
    case Finish(i, result) => s.(callers := s.callers[i := s.callers[i].(pc := Stored, result := Some(result))])
    case Signal(i) => s.(callers := s.callers[i := s.callers[i].(pc := Signalled, signalled := true)])
    case Delete(i) =>
      State(s.callers[i := s.callers[i].(pc := Deleted)], s.m - {s.callers[i].key})
    case Return(i) => s.(callers := s.callers[i := s.callers[i].(pc := Returned(i, s.callers[i].result))])
    case Wake(i) =>
      var j := s.callers[i].pc.leader;
      s.(callers := s.callers[i := s.callers[i].(pc := Returned(j, s.callers[j].result))])
  }

  // ---- The invariant ----

  /** Between LoadOrStore and Delete. */
  predicate Active(pc: Pc) {
    pc.Leading? || pc.Running? || pc.Stored? || pc.Signalled?
  }

  /** Caller i led a call that ran its fn to the end. */
  predicate Ended(s: State, i: nat) {
    && i < |s.callers| && s.callers[i].result.Some?
    && match s.callers[i].pc
       case Stored => true
       case Signalled => true
       case Deleted => true
       case Returned(j, _) => j == i
       case _ => false
  }

  /** Caller i led a call, which may still be under way. */
  predicate Leads(s: State, i: nat) {
    i < |s.callers| && (Active(s.callers[i].pc) || Ended(s, i))
  }

  /** What holds of caller i. */
  predicate CallerOk(s: State, i: nat)
    requires i < |s.callers|
  {
    var c := s.callers[i];
    && (c.signalled ==> Ended(s, i) && !c.pc.Stored?)
    && (Active(c.pc) ==> c.key in s.m && s.m[c.key] == i)
    && match c.pc
       case Start => c.result == None && !c.signalled
       case Leading => c.result == None && !c.signalled
       case Running => c.result == None && !c.signalled
       case Stored => c.result.Some? && !c.signalled
       case Signalled => c.result.Some? && c.signalled
       case Deleted => c.result.Some? && c.signalled
       case Waiting(j) => Leads(s, j) && s.callers[j].key == c.key && c.result == None && !c.signalled
       case Returned(j, r) =>
         Ended(s, j) && s.callers[j].signalled && s.callers[j].key == c.key && r == s.callers[j].result
         && (i != j ==> c.result == None && !c.signalled)
  }

  /** The map's entry for a key is the call of a leader between LoadOrStore and Delete. */
  predicate EntryOk(s: State, key: Key)
    requires key in s.m
  {
    s.m[key] < |s.callers| && s.callers[s.m[key]].key == key && Active(s.callers[s.m[key]].pc)
  }

  ghost predicate Ok(s: State) {
    && (forall i | 0 <= i < |s.callers| :: CallerOk(s, i))
    && (forall key | key in s.m :: EntryOk(s, key))
  }

  /** A step leaves who leads a call, the results and the signals of the others, and
      these of its own caller once they are set. */
  lemma StepFrame(s: State, t: Step, j: nat)
    requires Enabled(s, t) && j < |s.callers| && CallerOk(s, j)
    ensures var c, c' := s.callers[j], Apply(s, t).callers[j];
      && c'.key == c.key && (c.signalled ==> c'.signalled)
      && (c.result.Some? ==> c'.result == c.result)
      && (Ended(s, j) ==> Ended(Apply(s, t), j))
      && (Leads(s, j) ==> Leads(Apply(s, t), j))
  {
  }

  lemma OtherKept(s: State, t: Step, j: nat)
    requires Ok(s) && Enabled(s, t) && j < |s.callers| && (t.Arrive? || t.i != j)
    ensures CallerOk(Apply(s, t), j)
  {
    hide Leads, Ended;
    assert CallerOk(s, j);
    var c := s.callers[j];
    StepFrame(s, t, j);
    assert !t.Arrive? ==> CallerOk(s, t.i);
    if c.pc.Waiting? {
      LeadsIn(s, c.pc.leader);
      StepFrame(s, t, c.pc.leader);
    }
    if c.pc.Returned? {
      EndedIn(s, c.pc.leader);
      StepFrame(s, t, c.pc.leader);
    }
  }

  lemma LeadsIn(s: State, i: nat)
    requires Leads(s, i)
    ensures i < |s.callers|
  {
  }

  lemma EndedIn(s: State, i: nat)
    requires Ended(s, i)
    ensures i < |s.callers| && s.callers[i].result.Some?
  {
  }

  lemma OwnKept(s: State, t: Step)
    requires Ok(s) && Enabled(s, t) && !t.Arrive?
    ensures t.i < |s.callers| && CallerOk(Apply(s, t), t.i)
  {
    var i := t.i;
    assert CallerOk(s, i);
    var c := s.callers[i];
    if t.LoadOrStore? && c.key in s.m {
      assert EntryOk(s, c.key);
    }
    if t.Wake? {
      assert CallerOk(s, c.pc.leader);
    }
  }

  lemma EntryKept(s: State, t: Step, key: Key)
    requires Ok(s) && Enabled(s, t) && key in Apply(s, t).m
    ensures EntryOk(Apply(s, t), key)
  {
    if key in s.m {
      assert EntryOk(s, key);
      assert CallerOk(s, s.m[key]);
    }
    if !t.Arrive? {
      assert CallerOk(s, t.i);
    }
  }

  lemma StepKeepsOk(s: State, t: Step)
    requires Ok(s) && Enabled(s, t)
    ensures Ok(Apply(s, t))
  {
    hide CallerOk, EntryOk, Enabled;
    var s' := Apply(s, t);
    forall i | 0 <= i < |s'.callers| ensures CallerOk(s', i) {
      if i < |s.callers| && (t.Arrive? || t.i != i) {
        OtherKept(s, t, i);
      } else if t.Arrive? {
        ArrivedOk(s, t);
      } else {
        OwnKept(s, t);
        StepCount(s, t);
      }
    }
    forall key | key in s'.m ensures EntryOk(s', key) {
      EntryKept(s, t, key);
    }
  }

  lemma StepCount(s: State, t: Step)
    requires Enabled(s, t)
    ensures |Apply(s, t).callers| == |s.callers| + if t.Arrive? then 1 else 0
  {
  }

  lemma ArrivedOk(s: State, t: Step)
    requires t.Arrive?
    ensures |Apply(s, t).callers| == |s.callers| + 1 && CallerOk(Apply(s, t), |s.callers|)
  {
  }

  // ---- Runs ----

  predicate Possible(s: State, steps: seq<Step>)
    decreases |steps|
  {
    steps == [] || (Enabled(s, steps[0]) && Possible(Apply(s, steps[0]), steps[1..]))
  }

  function RunOf(s: State, steps: seq<Step>): State
    requires Possible(s, steps)
    decreases |steps|
  {
    if steps == [] then s else RunOf(Apply(s, steps[0]), steps[1..])
  }

  lemma {:induction false} RunKeepsOk(s: State, steps: seq<Step>)
    requires Ok(s) && Possible(s, steps)
    ensures Ok(RunOf(s, steps))
    decreases |steps|
  {
    hide Ok, Apply, Enabled;
    if steps != [] {
      StepKeepsOk(s, steps[0]);
      RunKeepsOk(Apply(s, steps[0]), steps[1..]);
    }
  }

  const INITIAL := State([], map[])

  /** In every state that can be reached: at most one call per key is between its
      LoadOrStore and its Delete, so at most one fn runs per key; the entry of a key
      is exactly that call, so that deleting the entry of its key is deleting its own. */
  lemma OneFlight(steps: seq<Step>, i: nat, j: nat)
    requires Possible(INITIAL, steps)
    ensures var s := RunOf(INITIAL, steps);
      && (i < |s.callers| && Active(s.callers[i].pc) ==>
            s.callers[i].key in s.m && s.m[s.callers[i].key] == i)
      && (i < |s.callers| && j < |s.callers| && s.callers[i].key == s.callers[j].key ==>
            (Active(s.callers[i].pc) && Active(s.callers[j].pc) ==> i == j))
      && (forall key | key in s.m :: EntryOk(s, key))
  {
    hide CallerOk, EntryOk;
    RunKeepsOk(INITIAL, steps);
    var s := RunOf(INITIAL, steps);
    if i < |s.callers| {
      ActiveEntry(s, i);
    }
    if j < |s.callers| {
      ActiveEntry(s, j);
    }
  }

  lemma ActiveEntry(s: State, i: nat)
    requires Ok(s) && i < |s.callers|
    ensures Active(s.callers[i].pc) ==> s.callers[i].key in s.m && s.m[s.callers[i].key] == i
  {
    assert CallerOk(s, i);
  }

  // ---- Where results come from ----

  /** The result of a call changes only when its fn ends, and only once. */
  lemma ResultStep(s: State, t: Step, j: nat)
    requires Ok(s) && Enabled(s, t) && j < |s.callers|
    ensures var r, r' := s.callers[j].result, Apply(s, t).callers[j].result;
      && (r.Some? ==> r' == r && !(t.Finish? && t.i == j))
      && (r == None && r'.Some? ==> t == Finish(j, r'.value))
  {
    assert CallerOk(s, j);
  }

  predicate Produced(steps: seq<Step>, j: nat, r: Result) {
    exists n :: 0 <= n < |steps| && steps[n] == Finish(j, r)
  }

  /** A result that is set was produced by a fn that ended in the run. */
  lemma {:induction false} ResultProduced(s: State, steps: seq<Step>, j: nat)
    requires Ok(s) && Possible(s, steps)
    ensures var s' := RunOf(s, steps);
      j < |s'.callers| && s'.callers[j].result.Some? && (j < |s.callers| ==> s.callers[j].result == None) ==>
        Produced(steps, j, s'.callers[j].result.value)
    decreases |steps|
  {
    hide CallerOk, EntryOk, Enabled;
    if steps != [] {
      var t := steps[0];
      StepKeepsOk(s, t);
      StepCount(s, t);
      var s1 := Apply(s, t);
      ResultProduced(s1, steps[1..], j);
      if j < |s1.callers| && s1.callers[j].result.Some? {
        ResultStays(s1, steps[1..], j);
      }
      if j < |s.callers| {
        ResultStep(s, t, j);
      }
    }
  }

  lemma {:induction false} ResultStays(s: State, steps: seq<Step>, j: nat)
    requires Ok(s) && Possible(s, steps) && j < |s.callers| && s.callers[j].result.Some?
    ensures var s' := RunOf(s, steps); j < |s'.callers| && s'.callers[j].result == s.callers[j].result
    decreases |steps|
  {
    hide CallerOk, EntryOk, Enabled;
    if steps != [] {
      StepKeepsOk(s, steps[0]);
      StepCount(s, steps[0]);
      ResultStep(s, steps[0], j);
      ResultStays(Apply(s, steps[0]), steps[1..], j);
    }
  }

  lemma {:induction false} ProducedIs(s: State, steps: seq<Step>, j: nat, r: Result)
    requires Ok(s) && Possible(s, steps) && Produced(steps, j, r)
    ensures var s' := RunOf(s, steps); j < |s'.callers| && s'.callers[j].result == Some(r)
    decreases |steps|
  {
    hide CallerOk, EntryOk;
    var n :| 0 <= n < |steps| && steps[n] == Finish(j, r);
    StepKeepsOk(s, steps[0]);
    if n == 0 {
      ResultStays(Apply(s, steps[0]), steps[1..], j);
    } else {
      assert steps[1..][n - 1] == Finish(j, r);
      ProducedIs(Apply(s, steps[0]), steps[1..], j, r);
    }
  }

  /** In every run: a caller that has returned got exactly what the fn of one leader,
      who wanted the same key, produced; so all callers that share a call get the same
      result, and nobody gets the unset one. */
  lemma SharedResult(steps: seq<Step>, i: nat)
    requires Possible(INITIAL, steps)
    requires i < |RunOf(INITIAL, steps).callers| && RunOf(INITIAL, steps).callers[i].pc.Returned?
    ensures var s := RunOf(INITIAL, steps);
      var Returned(j, result) := s.callers[i].pc;
      && j < |s.callers| && s.callers[j].key == s.callers[i].key && result.Some?
      && forall r :: Produced(steps, j, r) <==> result == Some(r)
  {
    hide EntryOk, Produced;
    RunKeepsOk(INITIAL, steps);
    var s := RunOf(INITIAL, steps);
    assert CallerOk(s, i);
    var j := s.callers[i].pc.leader;
    ResultProduced(INITIAL, steps, j);
    forall r | Produced(steps, j, r) ensures s.callers[j].result == Some(r) {
      ProducedIs(INITIAL, steps, j, r);
    }
  }

  /** A caller that arrives after fn has ended, but before the leader has deleted the
      entry, gets the result that was produced before it arrived. */
  lemma LateCallerServed(s: State, key: Key)
    requires Ok(s) && key in s.m && EntryOk(s, key) && s.callers[s.m[key]].signalled
    ensures var n, j := |s.callers|, s.m[key];
      var steps := [Arrive(key), LoadOrStore(n), Wake(n)];
      && Possible(s, steps) && s.callers[j].result.Some?
      && n < |RunOf(s, steps).callers| && RunOf(s, steps).callers[n].pc == Returned(j, s.callers[j].result)
  {
    var n, j := |s.callers|, s.m[key];
    assert CallerOk(s, j);
    var s1 := Apply(s, Arrive(key));
    var s2 := Apply(s1, LoadOrStore(n));
    assert s2.callers[n].pc == Waiting(j) && s2.callers[j] == s.callers[j];
    RunCons(s2, Wake(n), []);
    RunCons(s1, LoadOrStore(n), [Wake(n)]);
    RunCons(s, Arrive(key), [LoadOrStore(n)] + [Wake(n)]);
    assert [Arrive(key)] + ([LoadOrStore(n)] + [Wake(n)]) == [Arrive(key), LoadOrStore(n), Wake(n)];
  }

  lemma RunCons(s: State, t: Step, rest: seq<Step>)
    requires Enabled(s, t) && Possible(Apply(s, t), rest)
    ensures Possible(s, [t] + rest) && RunOf(s, [t] + rest) == RunOf(Apply(s, t), rest)
  {
    hide Apply, Enabled;
    assert ([t] + rest)[1..] == rest;
  }

  // ---- Everybody returns ----

  function Rank(pc: Pc): nat {
    match pc
    case Start => 6
    case Leading => 5
    case Running => 4
    case Stored => 3
    case Signalled => 2
    case Deleted => 1
    case Waiting(_) => 1
    case Returned(_, _) => 0
  }

  function Measure(cs: seq<Caller>): nat {
    if cs == [] then 0 else Rank(cs[|cs| - 1].pc) + Measure(cs[..|cs| - 1])
  }

  lemma {:induction false} MeasureUpdate(cs: seq<Caller>, i: nat, c: Caller)
    requires i < |cs|
    ensures Measure(cs[i := c]) == Measure(cs) - Rank(cs[i].pc) + Rank(c.pc)
  {
    var n := |cs| - 1;
    if i == n {
      assert cs[i := c][..n] == cs[..n];
    } else {
      MeasureUpdate(cs[..n], i, c);
      assert cs[i := c][..n] == cs[..n][i := c];
    }
  }

  /** Every step of a caller that has arrived brings the end closer. */
  lemma StepDecreases(s: State, t: Step)
    requires Enabled(s, t) && !t.Arrive?
    ensures Measure(Apply(s, t).callers) < Measure(s.callers)
  {
    hide Measure;
    MeasureUpdate(s.callers, t.i, Apply(s, t).callers[t.i]);
  }

  /** As long as someone has not returned, some step other than an arrival is possible;
      a running fn is assumed to end, with any result. */
  lemma SomeStep(s: State, i: nat, r: Result) returns (t: Step)
    requires Ok(s) && i < |s.callers| && !s.callers[i].pc.Returned?
    ensures Enabled(s, t) && !t.Arrive?
  {
    assert CallerOk(s, i);
    match s.callers[i].pc
    case Start => t := LoadOrStore(i);
    case Leading => t := Begin(i);
    case Running => t := Finish(i, r);
    case Stored => t := Signal(i);
    case Signalled => t := Delete(i);
    case Deleted => t := Return(i);
    case Waiting(j) =>
      assert CallerOk(s, j);
      t := match s.callers[j].pc
        case Leading => Begin(j)
        case Running => Finish(j, r)
        case Stored => Signal(j)
        case _ => Wake(i);
  }

  predicate NoArrivals(steps: seq<Step>) {
    forall n | 0 <= n < |steps| :: !steps[n].Arrive?
  }

  /** Once nobody arrives any more, a run takes at most as many steps as the measure,
      and where no further step is possible, everybody has returned. */
  lemma {:induction false} EveryoneReturns(s: State, steps: seq<Step>, r: Result)
    requires Ok(s) && Possible(s, steps) && NoArrivals(steps)
    ensures |steps| + Measure(RunOf(s, steps).callers) <= Measure(s.callers)
    ensures (forall t :: Enabled(RunOf(s, steps), t) ==> t.Arrive?) ==>
      forall i | 0 <= i < |RunOf(s, steps).callers| :: RunOf(s, steps).callers[i].pc.Returned?
    decreases |steps|
  {
    hide Ok, Enabled;
    if steps == [] {
      forall i | 0 <= i < |s.callers| && !s.callers[i].pc.Returned? ensures exists t :: Enabled(s, t) && !t.Arrive? {
        var t := SomeStep(s, i, r);
      }
    } else {
      StepKeepsOk(s, steps[0]);
      StepDecreases(s, steps[0]);
      EveryoneReturns(Apply(s, steps[0]), steps[1..], r);
    }
  }
}
