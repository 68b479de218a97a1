/** The histogram of a pool shared by goroutines: its atomic operations, in any order. */
module PoolRaces {
  import opened Sums
  import opened Calibration

  /**
   * Where a goroutine is: with calls still to count, by class; about to try for the calibration; with the counters
   * it has swapped so far; before the first, before the second store; before it gives the calibration up.
   */
  datatype Stage =
    | Counting
    | Trying
    | Swapping(taken: seq<nat>)
    | Storing(taken: seq<nat>, newDefault: nat, newMax: nat)
    | StoringMax(taken: seq<nat>, newDefault: nat, newMax: nat)
    | Releasing(taken: seq<nat>, newDefault: nat, newMax: nat)

  datatype Thread = Thread(todo: seq<nat>, stage: Stage)

  /** `done` has the histograms of the calibrations that are over. */
  datatype State = State(calls: seq<nat>, calibrating: bool, defaultSize: nat, maxSize: nat, threads: seq<Thread>,
                         done: seq<seq<nat>>)

  predicate ValidTodos(todos: seq<seq<nat>>) {
    forall j, k :: 0 <= j < |todos| && 0 <= k < |todos[j]| ==> todos[j][k] < STEPS
  }

  function Start(todos: seq<seq<nat>>): State {
    State(seq(STEPS, i => 0), false, 0, 0,
          seq(|todos|, j requires 0 <= j < |todos| => Thread(todos[j], Counting)), [])
  }

  // --------------------------------------------------------------------------------------- steps

  /** A step of a goroutine; the sizes are those that its scan comes to, which depend on how ties are sorted. */
  datatype Label = Run(j: nat, newDefault: nat, newMax: nat)

  ghost predicate Enabled(s: State, a: Label) {
    && a.j < |s.threads|
    && var t := s.threads[a.j];
       match t.stage
       case Counting => t.todo != [] && t.todo[0] < |s.calls|
       case Swapping(taken) =>
         if |taken| < STEPS then |taken| < |s.calls| else Calibrated(taken, a.newDefault, a.newMax)
       case _ => true
  }

  ghost function Next(s: State, a: Label): State
    requires Enabled(s, a)
  {
    var t := s.threads[a.j];
    match t.stage
    case Counting =>
      var i := t.todo[0];
      var stage := if s.calls[i] + 1 > THRESHOLD then Trying else Counting;
      s.(calls := s.calls[i := s.calls[i] + 1], threads := s.threads[a.j := Thread(t.todo[1..], stage)])
    case Trying =>
      if s.calibrating then s.(threads := s.threads[a.j := t.(stage := Counting)])
      else s.(calibrating := true, threads := s.threads[a.j := t.(stage := Swapping([]))])
    case Swapping(taken) =>
      if |taken| < STEPS then
        s.(calls := s.calls[|taken| := 0],
           threads := s.threads[a.j := t.(stage := Swapping(taken + [s.calls[|taken|]]))])
      else s.(threads := s.threads[a.j := t.(stage := Storing(taken, a.newDefault, a.newMax))])
    case Storing(taken, newDefault, newMax) =>
      s.(defaultSize := newDefault, threads := s.threads[a.j := t.(stage := StoringMax(taken, newDefault, newMax))])
    case StoringMax(taken, newDefault, newMax) =>
      s.(maxSize := newMax, threads := s.threads[a.j := t.(stage := Releasing(taken, newDefault, newMax))])
    case Releasing(taken, newDefault, newMax) =>
      s.(calibrating := false, done := s.done + [taken], threads := s.threads[a.j := t.(stage := Counting)])
  }

  ghost predicate Runs(s: State, run: seq<Label>, s': State)
    decreases |run|
  {
    if run == [] then s' == s else Enabled(s, run[0]) && Runs(Next(s, run[0]), run[1..], s')
  }

  // ----------------------------------------------------------------------------------- invariant

  predicate Calibrates(t: Thread) {
    !t.stage.Counting? && !t.stage.Trying?
  }

  function IsCalibrating(t: Thread): nat {
    if Calibrates(t) then 1 else 0
  }

  function At(counts: seq<nat>, i: nat): nat {
    if i < |counts| then counts[i] else 0
  }

  /** The calls of a class that a goroutine has still to count, or has taken out of the histogram. */
  function HeldOf(t: Thread, i: nat): nat {
    multiset(t.todo)[i] + if Calibrates(t) then At(t.stage.taken, i) else 0
  }

  ghost function Held(i: nat): Thread -> nat {
    (t: Thread) => HeldOf(t, i)
  }

  ghost function Harvested(i: nat): seq<nat> -> nat {
    (counts: seq<nat>) => At(counts, i)
  }

  /** All calls of a class: still to come, in the histogram, or taken by a calibration. */
  ghost function AllCalls(s: State, i: nat): nat {
    Sum(Held(i), s.threads) + At(s.calls, i) + Sum(Harvested(i), s.done)
  }

  predicate ValidThread(t: Thread) {
    && (forall k :: 0 <= k < |t.todo| ==> t.todo[k] < STEPS)
    && (Calibrates(t) ==> if t.stage.Swapping? then |t.stage.taken| <= STEPS else |t.stage.taken| == STEPS)
  }

  /** The pair is that of the last calibration that is over, or zero if there is none. */
  ghost predicate PublishedBy(s: State) {
    if s.done == [] then s.defaultSize == 0 && s.maxSize == 0
    else Calibrated(s.done[|s.done| - 1], s.defaultSize, s.maxSize)
  }

  /** What the goroutine that calibrates has published, and what it is going to. */
  ghost predicate StoresRight(s: State, t: Thread) {
    match t.stage
    case Counting => true
    case Trying => true
    case Swapping(_) => PublishedBy(s)
    case Storing(taken, newDefault, newMax) => PublishedBy(s) && Calibrated(taken, newDefault, newMax)
    case StoringMax(taken, newDefault, newMax) =>
      s.defaultSize == newDefault && Calibrated(taken, newDefault, newMax)
    case Releasing(taken, newDefault, newMax) =>
      s.defaultSize == newDefault && s.maxSize == newMax && Calibrated(taken, newDefault, newMax)
  }

  ghost predicate Inv(s: State) {
    && |s.calls| == STEPS
    && Sum(IsCalibrating, s.threads) == (if s.calibrating then 1 else 0)
    && (!s.calibrating ==> PublishedBy(s))
    && (forall j :: 0 <= j < |s.threads| ==> ValidThread(s.threads[j]) && StoresRight(s, s.threads[j]))
  }

  lemma StartInv(todos: seq<seq<nat>>)
    requires ValidTodos(todos)
    ensures Inv(Start(todos))
  {
    SumOfNone(IsCalibrating, Start(todos).threads);
  }

  /** At most one goroutine calibrates. */
  lemma {:induction false} OneCalibrates(threads: seq<Thread>, i: nat, j: nat)
    requires i < j < |threads| && Calibrates(threads[i]) && Calibrates(threads[j])
    ensures Sum(IsCalibrating, threads) >= 2
    decreases |threads|
  {
    var n := |threads| - 1;
    if j == n {
      SumCovers(IsCalibrating, threads[..n], i);
    } else {
      OneCalibrates(threads[..n], i, j);
    }
  }

  /** A goroutine that calibrates does so alone. */
  lemma Alone(s: State, i: nat, j: nat)
    requires Inv(s) && i < |s.threads| && j < |s.threads| && Calibrates(s.threads[i]) && i != j
    ensures s.calibrating && !Calibrates(s.threads[j])
  {
    SumCovers(IsCalibrating, s.threads, i);
    if Calibrates(s.threads[j]) {
      OneCalibrates(s.threads, if i < j then i else j, if i < j then j else i);
    }
  }

  lemma StepKeepsInv(s: State, a: Label)
    requires Inv(s) && Enabled(s, a)
    ensures Inv(Next(s, a))
  {
    hide Sum, Calibrated;
    var s', t := Next(s, a), s.threads[a.j];
    SumUpdate(IsCalibrating, s.threads, a.j, s'.threads[a.j]);
    SumCovers(IsCalibrating, s.threads, a.j);
    forall j | 0 <= j < |s'.threads| && j != a.j ensures StoresRight(s', s'.threads[j]) {
      if Calibrates(t) {
        Alone(s, a.j, j);
      }
    }
  }

  /** No step loses or invents a call, of any class. */
  lemma StepKeepsCalls(s: State, a: Label, i: nat)
    requires Inv(s) && Enabled(s, a) && i < STEPS
    ensures AllCalls(Next(s, a), i) == AllCalls(s, i)
  {
    hide Sum, Calibrated;
    var s', t := Next(s, a), s.threads[a.j];
    SumUpdate(Held(i), s.threads, a.j, s'.threads[a.j]);
    if t.stage.Counting? {
      assert t.todo == [t.todo[0]] + t.todo[1..];
    } else if t.stage.Releasing? {
      SumConcat(Harvested(i), s.done, [t.stage.taken]);
      SumOfOne(Harvested(i), t.stage.taken);
    }
  }

  lemma {:induction false} RunKeeps(s: State, run: seq<Label>, s': State)
    requires Inv(s) && Runs(s, run, s')
    ensures Inv(s') && forall i :: 0 <= i < STEPS ==> AllCalls(s', i) == AllCalls(s, i)
    decreases |run|
  {
    hide AllCalls, Inv, Enabled, Next;
    if run != [] {
      var mid := Next(s, run[0]);
      StepKeepsInv(s, run[0]);
      forall i | 0 <= i < STEPS ensures AllCalls(mid, i) == AllCalls(s, i) {
        StepKeepsCalls(s, run[0], i);
      }
      RunKeeps(mid, run[1..], s');
    }
  }

  // ------------------------------------------------------------------------------------- results

  /** The calls of a class that some goroutines make. */
  function Demand(todos: seq<seq<nat>>, i: nat): nat {
    if todos == [] then 0 else Demand(todos[..|todos| - 1], i) + multiset(todos[|todos| - 1])[i]
  }

  lemma {:induction false} StartDemand(todos: seq<seq<nat>>, i: nat)
    ensures Sum(Held(i), Start(todos).threads) == Demand(todos, i)
  {
    if todos != [] {
      var n := |todos| - 1;
      StartDemand(todos[..n], i);
      assert Start(todos).threads[..n] == Start(todos[..n]).threads;
    }
  }

  /**
   * Over all interleavings: no call is lost or counted twice, at most one goroutine calibrates, and while none does
   * the published sizes are both zero or those of one and the same calibration, the last.
   */
  lemma CalibrationIsAtomic(todos: seq<seq<nat>>, run: seq<Label>, s: State)
    requires ValidTodos(todos) && Runs(Start(todos), run, s)
    ensures forall i :: 0 <= i < STEPS ==>
      Sum(Held(i), s.threads) + At(s.calls, i) + Sum(Harvested(i), s.done) == Demand(todos, i)
    ensures Sum(IsCalibrating, s.threads) == if s.calibrating then 1 else 0
    ensures !s.calibrating ==> PublishedBy(s)
  {
    StartInv(todos);
    RunKeeps(Start(todos), run, s);
    forall i | 0 <= i < STEPS
      ensures Sum(Held(i), s.threads) + At(s.calls, i) + Sum(Harvested(i), s.done) == Demand(todos, i)
    {
      StartDemand(todos, i);
      assert AllCalls(s, i) == AllCalls(Start(todos), i);
    }
  }

  /** When all is counted and nobody calibrates, every call is in the histogram or in one of the calibrations. */
  lemma AllIsCounted(todos: seq<seq<nat>>, run: seq<Label>, s: State, i: nat)
    requires ValidTodos(todos) && Runs(Start(todos), run, s) && i < STEPS
    requires forall j :: 0 <= j < |s.threads| ==> s.threads[j].todo == [] && !Calibrates(s.threads[j])
    ensures At(s.calls, i) + Sum(Harvested(i), s.done) == Demand(todos, i)
    ensures PublishedBy(s)
  {
    CalibrationIsAtomic(todos, run, s);
    SumOfNone(Held(i), s.threads);
    SumOfNone(IsCalibrating, s.threads);
  }

  // ------------------------------------------------------------------------- one goroutine by itself

  lemma {:induction false} RunsCompose(s: State, run: seq<Label>, mid: State, more: seq<Label>, s': State)
    requires Runs(s, run, mid) && Runs(mid, more, s')
    ensures Runs(s, run + more, s')
    decreases |run|
  {
    if run == [] {
      assert run + more == more;
    } else {
      RunsCompose(Next(s, run[0]), run[1..], mid, more, s');
      assert (run + more)[1..] == run[1..] + more;
    }
  }

  lemma OneStep(s: State, a: Label)
    requires Enabled(s, a)
    ensures Runs(s, [a], Next(s, a))
  {
    assert [a][1..] == [];
  }

  function Zeros(n: nat): seq<nat> {
    seq(n, i => 0)
  }

  /** The swaps that are still to do. */
  lemma {:induction false} SwapRest(s: State, j: nat, counts: seq<nat>, k: nat) returns (run: seq<Label>, s': State)
    requires j < |s.threads| && k <= 20 && |counts| == 20
    requires s.calls == Zeros(k) + counts[k..] && s.threads[j].stage == Swapping(counts[..k])
    ensures Runs(s, run, s') && forall i :: 0 <= i < |run| ==> run[i].j == j
    ensures s' == s.(calls := Zeros(20), threads := s.threads[j := s.threads[j].(stage := Swapping(counts))])
    decreases 20 - k
  {
    hide Calibrated;
    if k == 20 {
      run, s' := [], s;
      assert counts[..20] == counts && s.calls == Zeros(20);
      assert s.threads[j := s.threads[j]] == s.threads;
    } else {
      var a := Run(j, 0, 0);
      var mid := Next(s, a);
      assert mid.calls == Zeros(k + 1) + counts[k + 1..];
      assert counts[..k] + [counts[k]] == counts[..k + 1];
      var rest;
      rest, s' := SwapRest(mid, j, counts, k + 1);
      OneStep(s, a);
      RunsCompose(s, [a], mid, rest, s');
      run := [a] + rest;
    }
  }

  /** The histogram with one call more, and what a goroutine leaves that makes this call by itself. */
  ghost predicate CallDone(s: State, j: nat, newDefault: nat, newMax: nat, s': State)
    requires j < |s.threads| && s.threads[j].todo != [] && s.threads[j].todo[0] < |s.calls|
  {
    var i := s.threads[j].todo[0];
    var counted := s.calls[i := s.calls[i] + 1];
    && s'.threads == s.threads[j := Thread(s.threads[j].todo[1..], Counting)] && s'.calibrating == s.calibrating
    && if counted[i] <= 42000 || s.calibrating then
         s'.calls == counted && s'.defaultSize == s.defaultSize && s'.maxSize == s.maxSize && s'.done == s.done
       else
         s'.calls == Zeros(20) && s'.defaultSize == newDefault && s'.maxSize == newMax && s'.done == s.done + [counted]
  }

  /**
   * A goroutine that is not interrupted counts its call; and if that makes more than 42000 of the class, and
   * nobody else calibrates, it harvests the whole histogram and publishes a pair for it.
   */
  lemma OneCall(s: State, j: nat, newDefault: nat, newMax: nat) returns (run: seq<Label>, s': State)
    requires |s.calls| == 20 && j < |s.threads| && s.threads[j].stage.Counting?
    requires s.threads[j].todo != [] && s.threads[j].todo[0] < 20
    requires var i := s.threads[j].todo[0]; Calibrated(s.calls[i := s.calls[i] + 1], newDefault, newMax)
    ensures Runs(s, run, s') && forall k :: 0 <= k < |run| ==> run[k].j == j
    ensures CallDone(s, j, newDefault, newMax, s')
  {
    hide Calibrated;
    var a := Run(j, newDefault, newMax);
    var s1 := Next(s, a);
    run, s' := [a], s1;
    OneStep(s, a);
    if s1.threads[j].stage.Trying? {
      var s2 := Next(s1, a);
      OneStep(s1, a);
      RunsCompose(s, [a], s1, [a], s2);
      run, s' := [a] + [a], s2;
      if !s.calibrating {
        var more;
        more, s' := HarvestAndPublish(s2, j, newDefault, newMax, s1.calls);
        RunsCompose(s, run, s2, more, s');
        run := run + more;
      }
    }
  }

  /** The scan, the two stores, and the end of a calibration. */
  lemma Publish(s: State, j: nat, newDefault: nat, newMax: nat) returns (run: seq<Label>, s': State)
    requires j < |s.threads| && s.threads[j].stage.Swapping? && |s.threads[j].stage.taken| == 20
    requires Calibrated(s.threads[j].stage.taken, newDefault, newMax)
    ensures Runs(s, run, s') && forall k :: 0 <= k < |run| ==> run[k].j == j
    ensures s' == State(s.calls, false, newDefault, newMax, s.threads[j := Thread(s.threads[j].todo, Counting)],
                        s.done + [s.threads[j].stage.taken])
  {
    hide Calibrated;
    var a := Run(j, newDefault, newMax);
    var s1 := Next(s, a);
    var s2 := Next(s1, a);
    var s3 := Next(s2, a);
    s' := Next(s3, a);
    run := [a, a, a, a];
    assert run[1..] == [a, a, a] && run[1..][1..] == [a, a] && run[1..][1..][1..] == [a];
    OneStep(s3, a);
    assert Runs(s2, [a, a], s') && Runs(s1, [a, a, a], s');
  }

  /** All of a calibration but its first step. */
  lemma HarvestAndPublish(s: State, j: nat, newDefault: nat, newMax: nat, counts: seq<nat>)
    returns (run: seq<Label>, s': State)
    requires |counts| == 20 && s.calls == counts && j < |s.threads| && s.threads[j].stage == Swapping([])
    requires Calibrated(counts, newDefault, newMax)
    ensures Runs(s, run, s') && forall k :: 0 <= k < |run| ==> run[k].j == j
    ensures s' == State(Zeros(20), false, newDefault, newMax, s.threads[j := Thread(s.threads[j].todo, Counting)],
                        s.done + [counts])
  {
    hide Calibrated, Runs, Next, Enabled;
    assert counts == Zeros(0) + counts[0..] && counts[..0] == [];
    var swaps, mid := SwapRest(s, j, counts, 0);
    var stores;
    stores, s' := Publish(mid, j, newDefault, newMax);
    RunsCompose(s, swaps, mid, stores, s');
    run := swaps + stores;
    assert mid.threads[j := Thread(s.threads[j].todo, Counting)] == s.threads[j := Thread(s.threads[j].todo, Counting)];
  }
}
