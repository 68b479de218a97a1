/** The wait group that limits concurrency with a check before an add, without a lock around the two. */
module WaitGroups {
  import opened Sums
  import opened Wrappers

  const COUNT_SIZE := 65536

  /** `Count`: the counter, cut to 16 bits. */
  function Count(counter: nat): nat {
    counter % COUNT_SIZE
  }

  /** `check` lets a caller pass without waiting. */
  predicate Admits(counter: nat, concurrent: nat) {
    Count(counter) < concurrent
  }

  // ------------------------------------------------------------------------------------- callers

  /**
   * A goroutine that calls `Inc` again and again: outside, about to call `Wait`, in it, or past the check and
   * about to add.
   */
  datatype Caller = Outside | Entering | Waiting | Passed

  datatype State = State(counter: nat, callers: seq<Caller>)

  datatype Label = Check(i: nat) | Enter(i: nat) | Increment(i: nat) | Finish

  function Start(callers: nat): State {
    State(0, seq(callers, i => Outside))
  }

  predicate Enabled(s: State, a: Label) {
    match a
    case Check(i) => i < |s.callers| && s.callers[i].Outside?
    case Enter(i) => i < |s.callers| && s.callers[i].Entering?
    case Increment(i) => i < |s.callers| && s.callers[i].Passed?
    case Finish => s.counter > 0
  }

  function Released(callers: seq<Caller>): (r: seq<Caller>)
    ensures |r| == |callers|
    ensures forall i :: 0 <= i < |r| ==> r[i] == if callers[i].Waiting? then Passed else callers[i]
  {
    seq(|callers|, i requires 0 <= i < |callers| => if callers[i].Waiting? then Passed else callers[i])
  }

  /** `Finish` is a `Done`: the one that makes the counter zero releases all that wait. */
  function Next(s: State, concurrent: nat, a: Label): State
    requires Enabled(s, a)
  {
    match a
    case Check(i) => s.(callers := s.callers[i := if Admits(s.counter, concurrent) then Passed else Entering])
    case Enter(i) => s.(callers := s.callers[i := if s.counter == 0 then Passed else Waiting])
    case Increment(i) => State(s.counter + 1, s.callers[i := Outside])
    case Finish => State(s.counter - 1, if s.counter == 1 then Released(s.callers) else s.callers)
  }

  predicate Runs(s: State, concurrent: nat, run: seq<Label>, s': State)
    decreases |run|
  {
    if run == [] then s' == s else Enabled(s, run[0]) && Runs(Next(s, concurrent, run[0]), concurrent, run[1..], s')
  }

  // --------------------------------------------------------------------------------- the methods

  /**
   * The fields of the wait group. Its methods take the steps of the callers: what they do to the counter, and what
   * they tell their caller, is what `Next` says, whatever the other callers do.
   */
  class WaitGroup {
    const cpus: nat
    var check: bool
    var concurrent: nat
    var counter: nat

    ghost predicate Valid()
      reads this
    {
      concurrent < COUNT_SIZE
    }

    /** `New`: without a limit, twice the number of CPUs, as a 16-bit number. */
    constructor (cpus: nat, check: bool, limit: Option<nat>)
      requires limit.Some? ==> limit.value < COUNT_SIZE
      ensures Valid() && this.cpus == cpus && this.check == check && counter == 0
      ensures concurrent == if limit.Some? then limit.value else (2 * cpus) % 65536
    {
      this.cpus, this.check, this.counter := cpus, check, 0;
      concurrent := 2 * cpus % COUNT_SIZE;
      if limit.Some? {
        concurrent := limit.value;
      }
    }

    /** The counter of the steps is that of the object. */
    ghost predicate At(s: State)
      reads this
    {
      Valid() && counter == s.counter
    }

    /** `check` up to the call of `Wait`, if it comes to that. A limit of zero becomes the default one. */
    method Check(ghost s: State, ghost i: nat) returns (waits: bool)
      requires At(s) && Enabled(s, Label.Check(i))
      modifies this`concurrent
      ensures concurrent == if check && old(concurrent) == 0 then (2 * cpus) % 65536 else old(concurrent)
      ensures !check ==> !waits
      ensures check ==> Next(s, concurrent, Label.Check(i)).callers[i] == if waits then Entering else Passed
      ensures check ==> At(Next(s, concurrent, Label.Check(i)))
    {
      if !check {
        return false;
      }
      if concurrent == 0 {
        concurrent := 2 * cpus % COUNT_SIZE;
      }
      waits := counter % COUNT_SIZE >= concurrent;
    }

    /** The start of the inner `Wait`: it returns at once if the counter is zero. */
    method Wait(ghost s: State, ghost i: nat) returns (blocks: bool)
      requires At(s) && Enabled(s, Enter(i))
      ensures At(Next(s, concurrent, Enter(i)))
      ensures Next(s, concurrent, Enter(i)).callers[i] == if blocks then Waiting else Passed
    {
      blocks := counter > 0;
    }

    /** The addition of the inner wait group, past the check. */
    method Increment(ghost s: State, ghost i: nat)
      requires At(s) && Enabled(s, Label.Increment(i))
      modifies this`counter
      ensures At(Next(s, concurrent, Label.Increment(i)))
    {
      counter := counter + 1;
    }

    /** `Done`: says whether it releases the callers that wait. */
    method Done(ghost s: State) returns (releases: bool)
      requires At(s) && Enabled(s, Finish)
      modifies this`counter
      ensures At(Next(s, concurrent, Finish))
      ensures Next(s, concurrent, Finish).callers == if releases then Released(s.callers) else s.callers
    {
      counter := counter - 1;
      releases := counter == 0;
    }

    /**
     * `Inc`, and `Add(1)`, as far as it comes without another goroutine: to its end, or into the inner `Wait`,
     * after which `Increment` is all that is left to do.
     */
    method Inc(ghost s: State, ghost i: nat) returns (blocks: bool, ghost s': State)
      requires At(s) && Enabled(s, Label.Check(i))
      modifies this`concurrent, this`counter
      ensures concurrent == if check && old(concurrent) == 0 then (2 * cpus) % 65536 else old(concurrent)
      ensures At(s') && |s'.callers| == |s.callers|
      ensures forall k :: 0 <= k < |s.callers| && k != i ==> s'.callers[k] == s.callers[k]
      ensures blocks ==>
        check && Runs(s, concurrent, [Label.Check(i), Enter(i)], s') && s'.callers[i].Waiting? && counter == old(counter)
      ensures !blocks ==> s'.callers[i].Outside? && counter == old(counter) + 1
      ensures check && !blocks && Admits(old(counter), concurrent) ==>
        Runs(s, concurrent, [Label.Check(i), Label.Increment(i)], s')
      ensures check && !blocks && !Admits(old(counter), concurrent) ==>
        Runs(s, concurrent, [Label.Check(i), Enter(i), Label.Increment(i)], s')
    {
      var waits := Check(s, i);
      if !check {
        counter := counter + 1;
        return false, State(s.counter + 1, s.callers);
      }
      ghost var run := [Label.Check(i)];
      s' := Next(s, concurrent, Label.Check(i));
      RunOne(s, concurrent, Label.Check(i));
      blocks := false;
      if waits {
        ghost var mid := s';
        blocks := Wait(mid, i);
        s' := Next(mid, concurrent, Enter(i));
        RunOne(mid, concurrent, Enter(i));
        RunsCompose(s, concurrent, run, mid, [Enter(i)], s');
        run := run + [Enter(i)];
      }
      if !blocks {
        ghost var mid := s';
        Increment(mid, i);
        s' := Next(mid, concurrent, Label.Increment(i));
        RunOne(mid, concurrent, Label.Increment(i));
        RunsCompose(s, concurrent, run, mid, [Label.Increment(i)], s');
      }
    }
  }

  lemma RunOne(s: State, concurrent: nat, a: Label)
    requires Enabled(s, a)
    ensures Runs(s, concurrent, [a], Next(s, concurrent, a))
  {
    assert [a][1..] == [];
    assert Runs(Next(s, concurrent, a), concurrent, [], Next(s, concurrent, a));
  }

  // ----------------------------------------------------------------------------------- the bound

  function IsPassed(c: Caller): nat {
    if c.Passed? then 1 else 0
  }

  /** The tasks that are counted, and those about to be. */
  function Load(s: State): nat {
    s.counter + Sum(IsPassed, s.callers)
  }

  lemma {:induction false} PassedAtMost(callers: seq<Caller>)
    ensures Sum(IsPassed, callers) <= |callers|
  {
    if callers != [] {
      PassedAtMost(callers[..|callers| - 1]);
    }
  }

  lemma StepKeepsBound(s: State, concurrent: nat, a: Label)
    requires 0 < concurrent && concurrent - 1 + |s.callers| < COUNT_SIZE
    requires Load(s) <= concurrent - 1 + |s.callers| && Enabled(s, a)
    ensures var s' := Next(s, concurrent, a);
            |s'.callers| == |s.callers| && Load(s') <= concurrent - 1 + |s.callers|
  {
    hide Sum;
    PassedAtMost(Next(s, concurrent, a).callers);
    match a
    case Check(i) => SumUpdate(IsPassed, s.callers, i, if Admits(s.counter, concurrent) then Passed else Entering);
    case Enter(i) => SumUpdate(IsPassed, s.callers, i, if s.counter == 0 then Passed else Waiting);
    case Increment(i) => SumUpdate(IsPassed, s.callers, i, Outside);
    case Finish =>
  }

  lemma {:induction false} RunKeepsBound(s: State, concurrent: nat, run: seq<Label>, s': State)
    requires 0 < concurrent && concurrent - 1 + |s.callers| < COUNT_SIZE
    requires Load(s) <= concurrent - 1 + |s.callers| && Runs(s, concurrent, run, s')
    ensures |s'.callers| == |s.callers| && Load(s') <= concurrent - 1 + |s.callers|
    decreases |run|
  {
    if run != [] {
      StepKeepsBound(s, concurrent, run[0]);
      RunKeepsBound(Next(s, concurrent, run[0]), concurrent, run[1..], s');
    }
  }

  /** Whoever waits waits for somebody. */
  predicate NobodyForgotten(s: State) {
    s.counter == 0 ==> forall i :: 0 <= i < |s.callers| ==> !s.callers[i].Waiting?
  }

  lemma {:induction false} RunForgetsNobody(s: State, concurrent: nat, run: seq<Label>, s': State)
    requires NobodyForgotten(s) && Runs(s, concurrent, run, s')
    ensures NobodyForgotten(s')
    decreases |run|
  {
    if run != [] {
      RunForgetsNobody(Next(s, concurrent, run[0]), concurrent, run[1..], s');
    }
  }

  /** No wakeup is lost: a caller only waits while tasks are counted, and their `Done` calls release it. */
  lemma {:induction false} WaitersAreReleased(concurrent: nat, callers: nat, run: seq<Label>, s: State)
    returns (more: seq<Label>, s': State)
    requires Runs(Start(callers), concurrent, run, s)
    ensures Runs(s, concurrent, more, s') && |more| == s.counter && forall k :: 0 <= k < |more| ==> more[k] == Finish
    ensures forall i :: 0 <= i < |s'.callers| ==> !s'.callers[i].Waiting?
  {
    RunForgetsNobody(Start(callers), concurrent, run, s);
    more, s' := FinishAll(s, concurrent);
    RunForgetsNobody(s, concurrent, more, s');
  }

  lemma {:induction false} FinishAll(s: State, concurrent: nat) returns (run: seq<Label>, s': State)
    ensures Runs(s, concurrent, run, s') && s'.counter == 0
    ensures |run| == s.counter && forall k :: 0 <= k < |run| ==> run[k] == Finish
    decreases s.counter
  {
    run, s' := [], s;
    if s.counter > 0 {
      var next := Next(s, concurrent, Finish);
      run, s' := FinishAll(next, concurrent);
      var rest := run;
      run := [Finish] + rest;
      assert run[1..] == rest;
    }
  }

  /** No run goes over the bound, and in none is the counter cut. */
  ghost predicate Limited(concurrent: nat, callers: nat) {
    forall run, s :: Runs(Start(callers), concurrent, run, s) ==>
      Load(s) <= concurrent - 1 + callers && Count(s.counter) == s.counter
  }

  // ------------------------------------------------------------- runs that go over a bound too high

  lemma {:induction false} RunsCompose(s: State, concurrent: nat, run: seq<Label>, mid: State, more: seq<Label>, s': State)
    requires Runs(s, concurrent, run, mid) && Runs(mid, concurrent, more, s')
    ensures Runs(s, concurrent, run + more, s')
    decreases |run|
  {
    if run == [] {
      assert run + more == more;
    } else {
      RunsCompose(Next(s, concurrent, run[0]), concurrent, run[1..], mid, more, s');
      assert (run + more)[1..] == run[1..] + more;
    }
  }

  function All(callers: nat, c: Caller): seq<Caller> {
    seq(callers, i => c)
  }

  /** One caller increments the counter while the check admits it. */
  lemma {:induction false} OneClimbs(counter: nat, callers: nat, concurrent: nat, steps: nat) returns (run: seq<Label>)
    requires 0 < callers && Count(counter) + steps <= concurrent && Count(counter) + steps <= COUNT_SIZE
    ensures Runs(State(counter, All(callers, Outside)), concurrent, run, State(counter + steps, All(callers, Outside)))
    decreases steps
  {
    run := [];
    if steps > 0 {
      var s := State(counter, All(callers, Outside));
      var mid := Next(s, concurrent, Check(0));
      assert Next(mid, concurrent, Increment(0)).callers == s.callers;
      var two := [Check(0), Increment(0)];
      assert two[1..] == [Increment(0)] && two[1..][1..] == [];
      assert Runs(s, concurrent, two, State(counter + 1, s.callers));
      if steps > 1 {
        assert Count(counter + 1) == Count(counter) + 1;
        var more := OneClimbs(counter + 1, callers, concurrent, steps - 1);
        RunsCompose(s, concurrent, two, State(counter + 1, s.callers), more, State(counter + steps, s.callers));
        run := two + more;
      } else {
        run := two;
      }
    }
  }

  function Mixed(callers: nat, n: nat, c: Caller, d: Caller): seq<Caller>
    requires n <= callers
  {
    seq(callers, i => if i < n then c else d)
  }

  /** All callers pass the check before any of them adds. */
  lemma {:induction false} AllPass(counter: nat, callers: nat, concurrent: nat, n: nat) returns (run: seq<Label>)
    requires n <= callers && Admits(counter, concurrent)
    ensures Runs(State(counter, All(callers, Outside)), concurrent, run,
                 State(counter, Mixed(callers, n, Passed, Outside)))
  {
    run := [];
    if n == 0 {
      assert Mixed(callers, 0, Passed, Outside) == All(callers, Outside);
    } else {
      var before := AllPass(counter, callers, concurrent, n - 1);
      var mid := State(counter, Mixed(callers, n - 1, Passed, Outside));
      var s' := State(counter, Mixed(callers, n, Passed, Outside));
      assert Next(mid, concurrent, Check(n - 1)).callers == s'.callers;
      assert Runs(s', concurrent, [], s');
      assert Runs(mid, concurrent, [Check(n - 1)], s');
      RunsCompose(State(counter, All(callers, Outside)), concurrent, before, mid, [Check(n - 1)], s');
      run := before + [Check(n - 1)];
    }
  }

  lemma {:induction false} AllAdd(counter: nat, callers: nat, concurrent: nat, n: nat) returns (run: seq<Label>)
    requires n <= callers
    ensures Runs(State(counter, All(callers, Passed)), concurrent, run,
                 State(counter + n, Mixed(callers, n, Outside, Passed)))
  {
    run := [];
    if n == 0 {
      assert Mixed(callers, 0, Outside, Passed) == All(callers, Passed);
    } else {
      var before := AllAdd(counter, callers, concurrent, n - 1);
      var mid := State(counter + n - 1, Mixed(callers, n - 1, Outside, Passed));
      var s' := State(counter + n, Mixed(callers, n, Outside, Passed));
      assert Next(mid, concurrent, Increment(n - 1)).callers == s'.callers;
      assert Runs(s', concurrent, [], s');
      assert Runs(mid, concurrent, [Increment(n - 1)], s');
      RunsCompose(State(counter, All(callers, Passed)), concurrent, before, mid, [Increment(n - 1)], s');
      run := before + [Increment(n - 1)];
    }
  }

  lemma {:induction false} FinishSome(counter: nat, callers: nat, concurrent: nat, n: nat) returns (run: seq<Label>)
    requires n < counter
    ensures Runs(State(counter, All(callers, Outside)), concurrent, run, State(counter - n, All(callers, Outside)))
  {
    run := [];
    if n > 0 {
      var s := State(counter, All(callers, Outside));
      run := FinishSome(counter - 1, callers, concurrent, n - 1);
      var rest := run;
      run := [Finish] + rest;
      assert run[1..] == rest;
    }
  }

  /** From a counter that `Count` shows as zero, one climb and one common passage come to the full bound. */
  lemma ClimbAndPass(counter: nat, callers: nat, concurrent: nat) returns (run: seq<Label>)
    requires 0 < callers && 0 < concurrent <= COUNT_SIZE && Count(counter) == 0
    ensures Runs(State(counter, All(callers, Outside)), concurrent, run,
                 State(counter + concurrent - 1, All(callers, Passed)))
  {
    var s := State(counter, All(callers, Outside));
    var top := State(counter + concurrent - 1, All(callers, Outside));
    var s' := State(counter + concurrent - 1, All(callers, Passed));
    var climb := OneClimbs(counter, callers, concurrent, concurrent - 1);
    assert Admits(top.counter, concurrent);
    var pass := AllPass(top.counter, callers, concurrent, callers);
    assert Mixed(callers, callers, Passed, Outside) == All(callers, Passed);
    RunsCompose(s, concurrent, climb, top, pass, s');
    run := climb + pass;
  }

  lemma {:induction false} AllPassed(callers: nat)
    ensures Sum(IsPassed, All(callers, Passed)) == callers
  {
    if callers > 0 {
      AllPassed(callers - 1);
      assert All(callers, Passed)[..callers - 1] == All(callers - 1, Passed);
    }
  }

  /** With too many callers, the counter can come to 65536, which `Count` shows as zero. */
  lemma OverTheLimit(concurrent: nat, callers: nat) returns (run: seq<Label>, s: State)
    requires 0 < callers && 0 < concurrent < 65536 <= concurrent - 1 + callers
    ensures Runs(Start(callers), concurrent, run, s) && Load(s) > concurrent - 1 + callers
  {
    var start, top := Start(callers), concurrent - 1 + callers;
    assert start == State(0, All(callers, Outside));
    var passed := State(concurrent - 1, All(callers, Passed));
    var full, cut := State(top, All(callers, Outside)), State(COUNT_SIZE, All(callers, Outside));
    s := State(COUNT_SIZE + concurrent - 1, All(callers, Passed));

    run := ClimbAndPass(0, callers, concurrent);
    var more := AllAdd(concurrent - 1, callers, concurrent, callers);
    assert Mixed(callers, callers, Outside, Passed) == All(callers, Outside);
    RunsCompose(start, concurrent, run, passed, more, full);
    run := run + more;
    more := FinishSome(top, callers, concurrent, top - COUNT_SIZE);
    RunsCompose(start, concurrent, run, full, more, cut);
    run := run + more;
    more := ClimbAndPass(COUNT_SIZE, callers, concurrent);
    RunsCompose(start, concurrent, run, cut, more, s);
    run := run + more;
    AllPassed(callers);
  }

  /**
   * Concurrency is limited to one less than the limit plus the number of callers, and `Count` is exact, if and
   * only if that bound fits in 16 bits.
   */
  lemma LimitedIff(concurrent: nat, callers: nat)
    requires 0 < callers && 0 < concurrent < 65536
    ensures Limited(concurrent, callers) <==> concurrent - 1 + callers < 65536
  {
    if concurrent - 1 + callers < 65536 {
      forall run, s | Runs(Start(callers), concurrent, run, s)
        ensures Load(s) <= concurrent - 1 + callers && Count(s.counter) == s.counter
      {
        PassedAtMost(Start(callers).callers);
        RunKeepsBound(Start(callers), concurrent, run, s);
      }
    } else {
      var run, s := OverTheLimit(concurrent, callers);
    }
  }

  /** One caller alone never has more tasks than the limit, whatever the limit. */
  lemma OneCallerKeepsLimit(concurrent: nat, run: seq<Label>, s: State)
    requires 0 < concurrent < 65536 && Runs(Start(1), concurrent, run, s)
    ensures s.counter <= concurrent && Count(s.counter) == s.counter
  {
    LimitedIff(concurrent, 1);
  }
}
