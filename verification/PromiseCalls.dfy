/** When a promise completes in every run: a condition on the scripts and on the calls of `Await` and `Map`. */
module PromiseCalls {
  import opened Sums
  import opened Promise
  import opened PromiseRuns

  /** Some value is yielded before the body it is in panics. */
  predicate Yields<T>(script: seq<Stmt<T>>) {
    script != [] &&
    match script[0]
    case Yield(_) => true
    case YieldFn(_) => true
    case Spawn(body) => Yields(body) || Yields(script[1..])
    case Panic => false
  }

  /** Without panics these are the scripts that have values. */
  lemma {:induction false} PanicFreeYields<T>(script: seq<Stmt<T>>)
    requires PanicFree(script)
    ensures Yields(script) <==> Items(script) != multiset{}
  {
    if script != [] {
      PanicFreeYields(script[1..]);
      Unfold(script);
      if script[0].Spawn? {
        PanicFreeYields(script[0].body);
      } else {
        assert script[0].item in Items(script);
      }
    }
  }

  ghost predicate AlwaysCompletes<T(!new)>(script: seq<Stmt<T>>, calls: seq<Call>) {
    forall run, s :: Runs(Start(script, calls), run, s) && Stuck(s) ==> Complete(s)
  }

  // ------------------------------------------------------------------------------ all outputs drained

  /** Every output that there will be is drained. */
  predicate NoneUndrained(calls: seq<Call>) {
    forall i :: 0 <= i < |calls| ==> !calls[i].Undrained?
  }

  predicate AllDrained<T>(s: State<T>) {
    && NoneUndrained(s.calls)
    && forall i :: 0 <= i < |s.threads| ==> s.threads[i].Consumer? ==> s.threads[i].drained
  }

  lemma StepKeepsDrained<T>(s: State<T>, a: Label)
    requires Inv(s) && AllDrained(s) && Enabled(s, a)
    ensures AllDrained(Next(s, a))
  {
    hide Advance, CounterRight, NothingLost, CloserRight;
    if a.RunBody? {
      AdvanceBalance(s.threads[a.i], s.cancelled);
    }
  }

  lemma {:induction false} RunKeepsDrained<T>(s: State<T>, run: seq<Label>, s': State<T>)
    requires Inv(s) && AllDrained(s) && Runs(s, run, s')
    ensures AllDrained(s')
    decreases |run|
  {
    hide Inv, AllDrained;
    if run != [] {
      StepKeepsInv(s, run[0]);
      StepKeepsDrained(s, run[0]);
      RunKeepsDrained(Next(s, run[0]), run[1..], s');
    }
  }

  /** If every output is drained, and there is one, every run ends complete, whatever the bodies do. */
  lemma DrainedCompletes<T>(script: seq<Stmt<T>>, calls: seq<Call>, run: seq<Label>, s: State<T>)
    requires SomeConsume(calls) && NoneUndrained(calls)
    requires Runs(Start(script, calls), run, s) && Stuck(s)
    ensures Complete(s)
  {
    StartInv(script, calls);
    RunKeepsDrained(Start(script, calls), run, s);
    PromiseCompletes(script, calls, run, s);
  }

  // --------------------------------------------------------------------------------- nothing yielded

  /** A goroutine that has no value and will not have one. */
  predicate Silent<T>(t: Thread<T>) {
    match t
    case Body(_, script) => !Yields(script)
    case Sender(_) => false
    case Sent => true
    case Consumer(stage, _, _) => !stage.Holding?
  }

  predicate AllSilent<T>(s: State<T>) {
    forall i :: 0 <= i < |s.threads| ==> Silent(s.threads[i])
  }

  lemma AdvanceStaysSilent<T>(t: Thread<T>, cancelled: bool)
    requires ValidBody(t) && !t.phase.Ended? && Silent(t)
    ensures var e := Advance(t, cancelled);
            Silent(e.body) && forall i :: 0 <= i < |e.started| ==> Silent(e.started[i])
  {}

  lemma StepStaysSilent<T>(s: State<T>, a: Label)
    requires AllSilent(s) && Enabled(s, a)
    ensures AllSilent(Next(s, a))
  {
    hide Advance, Yields;
    if a.RunBody? {
      AdvanceStaysSilent(s.threads[a.i], s.cancelled);
    }
  }

  lemma {:induction false} RunStaysSilent<T>(s: State<T>, run: seq<Label>, s': State<T>)
    requires AllSilent(s) && Runs(s, run, s')
    ensures AllSilent(s')
    decreases |run|
  {
    if run != [] {
      StepStaysSilent(s, run[0]);
      RunStaysSilent(Next(s, run[0]), run[1..], s');
    }
  }

  /** If nothing is ever yielded, it is enough that `Await` or `Map` is called, even as `Map(nil)`. */
  lemma SilentCompletes<T>(script: seq<Stmt<T>>, calls: seq<Call>, run: seq<Label>, s: State<T>)
    requires calls != [] && !Yields(script)
    requires Runs(Start(script, calls), run, s) && Stuck(s)
    ensures Complete(s)
  {
    RunStaysSilent(Start(script, calls), run, s);
    forall i | 0 <= i < |s.threads| ensures !HoldsUp(s.threads[i]) && !s.threads[i].Sender? {
      assert Silent(s.threads[i]);
    }
    PromiseCompletes(script, calls, run, s);
  }

  // ------------------------------------------------------------------------------------ making runs

  lemma {:induction false} RunsCompose<T>(s: State<T>, run: seq<Label>, mid: State<T>, more: seq<Label>, s': State<T>)
    requires Runs(s, run, mid) && Runs(mid, more, s')
    ensures Runs(s, run + more, s')
    decreases |run|
  {
    if run == [] {
      assert run + more == more;
    } else {
      RunsCompose(Next(s, run[0]), run[1..], mid, more, s');
      assert (run + more)[1..] == run[1..] + more;
    }
  }

  lemma OneStep<T>(s: State<T>, a: Label)
    requires Enabled(s, a)
    ensures Runs(s, [a], Next(s, a))
  {
    assert Runs(Next(s, a), [], Next(s, a));
    assert [a][1..] == [];
  }

  /** Every state has a run to one where nothing can happen any more. */
  lemma {:induction false} RunOn<T>(s: State<T>) returns (run: seq<Label>, s': State<T>)
    ensures Runs(s, run, s') && Stuck(s')
    decreases Measure(s)
  {
    run, s' := [], s;
    if a :| Enabled(s, a) {
      StepFalls(s, a);
      var more;
      more, s' := RunOn(Next(s, a));
      OneStep(s, a);
      RunsCompose(s, [a], Next(s, a), more, s');
      run := [a] + more;
    }
  }

  /** What starts with the first statement of a body. */
  function Launched<T>(stmt: Stmt<T>): Thread<T>
    requires stmt.Yield? || stmt.Spawn?
  {
    if stmt.Yield? then Sender(stmt.item) else Body(Running, stmt.body)
  }

  /** Three steps of a body start the goroutine of its first statement. */
  lemma Launch<T>(s: State<T>, i: nat) returns (s': State<T>)
    requires i < |s.threads| && s.threads[i].Body? && s.threads[i].phase.Running? && !s.cancelled
    requires s.threads[i].script != [] && (s.threads[i].script[0].Yield? || s.threads[i].script[0].Spawn?)
    ensures Runs(s, [RunBody(i), RunBody(i), RunBody(i)], s')
    ensures s'.calls == s.calls && !s'.cancelled
    ensures var script := s.threads[i].script;
            s'.threads == s.threads[i := Body(Running, script[1..])] + [Launched(script[0])]
  {
    var script := s.threads[i].script;
    var a := RunBody(i);
    var s1 := Next(s, a);
    assert s1.threads == s.threads[i := Body(Checked, script)];
    var s2 := Next(s1, a);
    assert s2.threads == s.threads[i := Body(Counted, script)];
    s' := Next(s2, a);
    assert s2.threads[i := Body(Running, script[1..])] == s.threads[i := Body(Running, script[1..])];
    OneStep(s, a);
    OneStep(s1, a);
    OneStep(s2, a);
    RunsCompose(s, [a], s1, [a], s2);
    RunsCompose(s, [a] + [a], s2, [a], s');
    assert [a] + [a] + [a] == [a, a, a];
  }

  /** A body that yields before it panics, run alone, comes to a sender. */
  lemma {:induction false} ReachSender<T>(s: State<T>, i: nat) returns (run: seq<Label>, s': State<T>, j: nat)
    requires i < |s.threads| && s.threads[i].Body? && s.threads[i].phase.Running? && !s.cancelled
    requires Yields(s.threads[i].script)
    ensures Runs(s, run, s') && s'.calls == s.calls
    ensures j < |s'.threads| && s'.threads[j].Sender?
    decreases Cost(s.threads[i].script)
  {
    var script := s.threads[i].script;
    if script[0].YieldFn? {
      var a := RunBody(i);
      var s1 := Next(s, a);
      var rest := [Yield(script[0].item)] + script[1..];
      assert s1.threads[i] == Body(Running, rest) && rest[1..] == script[1..];
      OneStep(s, a);
      s' := Launch(s1, i);
      RunsCompose(s, [a], s1, [a, a, a], s');
      run, j := [a] + [a, a, a], |s.threads|;
    } else {
      var s1 := Launch(s, i);
      run, s', j := [RunBody(i), RunBody(i), RunBody(i)], s1, |s.threads|;
      if script[0].Spawn? {
        assert Cost(script) == CostOf(script[0]) + Cost(script[1..]);
        var more;
        if Yields(script[0].body) {
          more, s', j := ReachSender(s1, |s.threads|);
        } else {
          more, s', j := ReachSender(s1, i);
        }
        RunsCompose(s, run, s1, more, s');
        run := run + more;
      }
    }
  }

  /** The first calls of `Await`, one after the other. */
  lemma {:induction false} CallSome<T>(s: State<T>, n: nat) returns (run: seq<Label>, s': State<T>)
    requires n <= |s.calls|
    ensures Runs(s, run, s') && s'.calls == s.calls[n..]
    ensures |s'.threads| >= |s.threads| && s'.threads[..|s.threads|] == s.threads
  {
    if n == 0 {
      run, s' := [], s;
    } else {
      var before, mid := CallSome(s, n - 1);
      s' := Next(mid, CallAwait);
      OneStep(mid, CallAwait);
      RunsCompose(s, before, mid, [CallAwait], s');
      run := before + [CallAwait];
    }
  }

  /** If a value is yielded and some output is not drained, that output can get the value and keep it. */
  lemma UndrainedIsReachable<T>(script: seq<Stmt<T>>, calls: seq<Call>, p: nat)
    returns (run: seq<Label>, s: State<T>, k: nat)
    requires Yields(script) && p < |calls| && calls[p].Undrained?
    ensures Runs(Start(script, calls), run, s) && k < |s.threads| && HoldsUp(s.threads[k])
  {
    hide Advance;
    var start := Start(script, calls);
    var r1, s1, j := ReachSender(start, 0);
    var r2, s2 := CallSome(s1, p);
    k := |s2.threads|;
    assert s2.threads[..|s1.threads|][j] == s2.threads[j];
    var s3 := Next(s2, CallAwait);
    var a := Receive(j, k);
    s := Next(s3, a);
    OneStep(s2, CallAwait);
    OneStep(s3, a);
    RunsCompose(start, r1, s1, r2, s2);
    RunsCompose(start, r1 + r2, s2, [CallAwait], s3);
    RunsCompose(start, r1 + r2 + [CallAwait], s3, [a], s);
    run := r1 + r2 + [CallAwait] + [a];
  }

  /** The shortest such run: one yield, one output that is not drained. */
  lemma UndrainedExample<T>(x: T) returns (s: State<T>)
    ensures Runs(Start([Yield(x)], [Call.Undrained]), [RunBody(0), RunBody(0), RunBody(0), CallAwait, Receive(1, 2)], s)
    ensures s.threads == [Body(Running, []), Sent, Consumer(Holding(x), [], false)] && HoldsUp(s.threads[2])
  {
    var start := Start([Yield(x)], [Call.Undrained]);
    var a := RunBody(0);
    var s1 := Launch(start, 0);
    assert [Yield(x)][1..] == [];
    assert s1.threads == [Body(Running, []), Sender(x)];
    var s2 := Next(s1, CallAwait);
    assert s2.threads == [Body(Running, []), Sender(x), Consumer(Idle, [], false)];
    s := Next(s2, Receive(1, 2));
    OneStep(s1, CallAwait);
    OneStep(s2, Receive(1, 2));
    RunsCompose(start, [a, a, a], s1, [CallAwait], s2);
    RunsCompose(start, [a, a, a] + [CallAwait], s2, [Receive(1, 2)], s);
    assert [a, a, a] + [CallAwait] + [Receive(1, 2)] == [a, a, a, CallAwait, Receive(1, 2)];
  }

  // ----------------------------------------------------------------------------- nobody receives

  /** There is no consumer, and there will be none. */
  predicate NobodyReceives<T>(s: State<T>) {
    !SomeConsume(s.calls) && forall i :: 0 <= i < |s.threads| ==> !s.threads[i].Consumer?
  }

  /** Those who wait to send to nobody. */
  predicate SendersStay<T>(s: State<T>, s': State<T>) {
    forall j :: 0 <= j < |s.threads| && s.threads[j].Sender? ==> j < |s'.threads| && s'.threads[j].Sender?
  }

  lemma StepKeepsSenders<T>(s: State<T>, a: Label)
    requires NobodyReceives(s) && Enabled(s, a)
    ensures NobodyReceives(Next(s, a)) && SendersStay(s, Next(s, a))
  {
    hide Advance, Sum, Union, Held, Carried, Turn;
    if a.RunBody? {
      AdvanceBalance(s.threads[a.i], s.cancelled);
    }
  }

  /** Without a consumer every sender waits for ever. */
  lemma {:induction false} SendersWait<T>(s: State<T>, run: seq<Label>, s': State<T>)
    requires NobodyReceives(s) && Runs(s, run, s')
    ensures NobodyReceives(s') && SendersStay(s, s')
    decreases |run|
  {
    hide NobodyReceives;
    if run != [] {
      StepKeepsSenders(s, run[0]);
      SendersWait(Next(s, run[0]), run[1..], s');
    }
  }

  // ------------------------------------------------------------------------------------- results

  lemma YieldsNeedConsumers<T(!new)>(script: seq<Stmt<T>>, calls: seq<Call>)
    requires Yields(script) && !SomeConsume(calls)
    ensures !AlwaysCompletes(script, calls)
  {
    var start := Start(script, calls);
    var run, s, j := ReachSender(start, 0);
    var more, s' := RunOn(s);
    SendersWait(start, run, s);
    SendersWait(s, more, s');
    RunsCompose(start, run, s, more, s');
    assert !Over(s'.threads[j]);
  }

  /**
   A promise completes in every run if and only if `Await` or `Map` is called, and nothing is yielded or there is
   an output and every output is drained. That of `Map` is drained exactly when all futures it is handed resolve:
   it stops at the first that does not (`PromiseMap.Map`).
   */
  lemma AlwaysCompletesIff<T(!new)>(script: seq<Stmt<T>>, calls: seq<Call>)
    ensures AlwaysCompletes(script, calls) <==>
            calls != [] && (!Yields(script) || (SomeConsume(calls) && NoneUndrained(calls)))
  {
    var start := Start(script, calls);
    if calls == [] {
      var run, s := RunOn(start);
      PromiseCompletes(script, calls, run, s);
    } else if Yields(script) && !SomeConsume(calls) {
      YieldsNeedConsumers(script, calls);
    } else if Yields(script) && !NoneUndrained(calls) {
      var p: nat :| p < |calls| && calls[p].Undrained?;
      var run, s, k := UndrainedIsReachable(script, calls, p);
      var more, s' := RunOn(s);
      UndrainedBlocks(s, k, more, s');
      RunsCompose(start, run, s, more, s');
    } else {
      forall run, s | Runs(start, run, s) && Stuck(s) ensures Complete(s) {
        if Yields(script) {
          DrainedCompletes(script, calls, run, s);
        } else {
          SilentCompletes(script, calls, run, s);
        }
      }
    }
  }

  /** The same for bodies that do not panic: all their values count. */
  lemma PanicFreeCompletesIff<T(!new)>(script: seq<Stmt<T>>, calls: seq<Call>)
    requires PanicFree(script)
    ensures AlwaysCompletes(script, calls) <==>
            calls != [] && (Items(script) == multiset{} || (SomeConsume(calls) && NoneUndrained(calls)))
  {
    PanicFreeYields(script);
    AlwaysCompletesIff(script, calls);
  }
}
