/** Whole runs of a promise: they end, they do not get stuck, and they deliver every accepted value once. */
module PromiseRuns {
  import opened Sums
  import opened Promise

  // ---------------------------------------------------------------------------- runs are finite

  function Cost<T>(script: seq<Stmt<T>>): nat {
    if script == [] then 0 else CostOf(script[0]) + Cost(script[1..])
  }

  function CostOf<T>(stmt: Stmt<T>): nat {
    match stmt
    case Yield(_) => 6
    case YieldFn(_) => 7
    case Spawn(body) => Cost(body) + 8
    case Panic => 1
  }

  function Size<T>(t: Thread<T>): nat {
    match t
    case Body(phase, script) =>
      Cost(script) +
      (match phase case Running => 5 case Checked => 4 case Counted => 3 case Panicked => 4 case Failed => 3
                   case Ending => 2 case Ended => 0)
    case Sender(_) => 3
    case Sent => 0
    case Consumer(stage, _, _) =>
      match stage case Idle => 2 case Holding(_) => 4 case Handed => 3 case Exiting => 1 case Exited => 0
  }

  function CloserSize(c: Closer): nat {
    match c case Waiting => 2 case Released => 1 case Finished => 0
  }

  /** Bounds the number of steps still to come. */
  function Measure<T>(s: State<T>): nat {
    Sum(Size, s.threads) + 3 * |s.calls| + Sum(CloserSize, s.closers) + (if s.once then 0 else 2)
  }

  lemma AdvanceFalls<T>(t: Thread<T>, cancelled: bool)
    requires ValidBody(t) && !t.phase.Ended?
    ensures var e := Advance(t, cancelled); Size(e.body) + Sum(Size, e.started) < Size(t)
  {
    hide Sum;
    if t.phase.Counted? {
      var u := Advance(t, cancelled).started[0];
      SumOfOne(Size, u);
      assert Cost(t.script) == CostOf(t.script[0]) + Cost(t.script[1..]);
    } else {
      SumOfNone<Thread<T>>(Size, []);
    }
    if t.phase.Running? && t.script != [] && t.script[0].YieldFn? {
      var script := [Yield(t.script[0].item)] + t.script[1..];
      assert script[1..] == t.script[1..];
      assert Cost(script) == CostOf(script[0]) + Cost(script[1..]);
    }
  }

  lemma StepFalls<T>(s: State<T>, a: Label)
    requires Enabled(s, a)
    ensures Measure(Next(s, a)) < Measure(s)
  {
    hide Sum, Size, Advance;
    match a
    case RunBody(i) =>
      var e := Advance(s.threads[i], s.cancelled);
      AdvanceFalls(s.threads[i], s.cancelled);
      SumUpdate(Size, s.threads, i, e.body);
      SumConcat(Size, s.threads[i := e.body], e.started);
    case Receive(i, j) => ReceiveFalls(s, i, j);
    case Consume(j) => ConsumeFalls(s, j);
    case CallAwait => AwaitFalls(s);
    case RunCloser(k) =>
      SumUpdate(CloserSize, s.closers, k, if s.closers[k].Waiting? then Released else Finished);
  }

  lemma ReceiveFalls<T>(s: State<T>, i: nat, j: nat)
    requires Enabled(s, Receive(i, j))
    ensures Measure(Next(s, Receive(i, j))) < Measure(s)
  {
    hide Sum;
    SumUpdate(Size, s.threads, i, Sent);
    SumUpdate(Size, s.threads[i := Sent], j, s.threads[j].(stage := Holding(s.threads[i].item)));
  }

  lemma ConsumeFalls<T>(s: State<T>, j: nat)
    requires Enabled(s, Consume(j))
    ensures Measure(Next(s, Consume(j))) < Measure(s)
  {
    hide Sum;
    SumUpdate(Size, s.threads, j, Turn(s.threads[j]));
  }

  lemma AwaitFalls<T>(s: State<T>)
    requires Enabled(s, CallAwait)
    ensures Measure(Next(s, CallAwait)) < Measure(s)
  {
    hide Sum;
    var us: seq<Thread<T>> := Consumers(s.calls[0]);
    if us == [] {
      SumOfNone(Size, us);
    } else {
      SumOfOne(Size, us[0]);
    }
    SumConcat(Size, s.threads, us);
    SumOfOne(CloserSize, Waiting);
    SumConcat(CloserSize, s.closers, [Waiting]);
  }

  /** A run has no more steps than the measure of its first state. */
  lemma {:induction false} RunsEnd<T>(s: State<T>, run: seq<Label>, s': State<T>)
    requires Runs(s, run, s')
    ensures |run| + Measure(s') <= Measure(s)
    decreases |run|
  {
    if run != [] {
      StepFalls(s, run[0]);
      RunsEnd(Next(s, run[0]), run[1..], s');
    }
  }

  // ------------------------------------------------------------------------- runs do not get stuck

  /** Every goroutine has returned and the channel is closed. */
  predicate Complete<T>(s: State<T>) {
    && s.calls == [] && Closed(s)
    && (forall k :: 0 <= k < |s.closers| ==> s.closers[k].Finished?)
    && forall i :: 0 <= i < |s.threads| ==> Over(s.threads[i])
  }

  predicate Over<T>(t: Thread<T>) {
    t.Sent? || (t.Body? && t.phase.Ended?) || (t.Consumer? && t.stage.Exited?)
  }

  ghost predicate Stuck<T>(s: State<T>) {
    forall a :: !Enabled(s, a)
  }

  /** A consumer that has a value nobody takes from its output channel. */
  predicate HoldsUp<T>(t: Thread<T>) {
    t.Consumer? && t.stage.Holding? && !t.drained
  }

  /** Where a thread rests when nothing can happen, unless an undrained consumer is in the way. */
  lemma StuckThread<T>(s: State<T>, i: nat)
    requires Inv(s) && Stuck(s) && i < |s.threads|
    ensures Over(s.threads[i]) || s.threads[i].Sender? || HoldsUp(s.threads[i]) ||
      (s.threads[i].Consumer? && s.threads[i].stage.Idle? && !Closed(s))
  {
    assert !Enabled(s, RunBody(i)) && !Enabled(s, Consume(i));
    assert ValidThread(s.threads[i], Closed(s));
  }

  /** No sender waits when no consumer holds a value and there is one to receive. */
  lemma StuckSender<T>(s: State<T>, i: nat, j: nat)
    requires Inv(s) && Stuck(s) && i < |s.threads| && j < |s.threads| && s.threads[j].Consumer?
    requires !HoldsUp(s.threads[j])
    ensures !s.threads[i].Sender?
  {
    InvSafe(s);
    StuckThread(s, j);
    assert !Enabled(s, Receive(i, j));
  }

  /** Nothing counts any more when nothing is sent or held up. */
  lemma StuckIsQuiet<T>(s: State<T>)
    requires Inv(s) && Stuck(s)
    requires forall i :: 0 <= i < |s.threads| ==> !HoldsUp(s.threads[i]) && !s.threads[i].Sender?
    ensures s.counter == 0
  {
    forall i | 0 <= i < |s.threads| ensures Held(s.threads[i]) == 0 {
      StuckThread(s, i);
    }
    SumOfNone(Held, s.threads);
  }

  /**
   * A run that can go no further is complete, unless somebody does not drain an output channel, a sender has
   * nobody to send to, or nobody ever called `Await` or `Map`.
   */
  lemma StuckMeansComplete<T>(s: State<T>)
    requires Inv(s) && Stuck(s) && s.once
    requires forall i :: 0 <= i < |s.threads| ==> !HoldsUp(s.threads[i]) && !s.threads[i].Sender?
    ensures Complete(s)
  {
    StuckIsQuiet(s);
    assert !Enabled(s, CallAwait) && !Enabled(s, RunCloser(0));
    forall i | 0 <= i < |s.threads| ensures Over(s.threads[i]) {
      StuckThread(s, i);
    }
  }

  // --------------------------------------------------------------------- every value is delivered

  /** The values a thread has still to yield. */
  ghost function Remaining<T>(t: Thread<T>): multiset<T> {
    if !t.Body? then multiset{}
    else if t.phase.Counted? && t.script != [] && t.script[0].Yield? then Items(t.script[1..])
    else Items(t.script)
  }

  /** What a consumer has sent to its output channel. */
  ghost function Output<T>(t: Thread<T>): multiset<T> {
    if t.Consumer? then multiset(t.output) else multiset{}
  }

  lemma StartedRemaining<T>(t: Thread<T>, cancelled: bool)
    requires ValidBody(t) && !t.phase.Ended?
    ensures Union(Remaining, Advance(t, cancelled).started) ==
            if t.phase.Counted? && t.script[0].Spawn? then Items(t.script[0].body) else multiset{}
  {
    hide Union;
    if t.phase.Counted? {
      UnionOfOne(Remaining, Advance(t, cancelled).started[0]);
    } else {
      UnionOfNone<Thread<T>, T>(Remaining, []);
    }
  }

  /** A body has its script as long as it is running. */
  predicate Stopped<T>(t: Thread<T>) {
    t.Body? && (t.phase.Panicked? || t.phase.Failed? || t.phase.Ending? || t.phase.Ended?) ==> t.script == []
  }

  /** The step neither loses nor invents a value. */
  ghost predicate Accounts<T>(e: Effect<T>, before: multiset<T>) {
    Remaining(e.body) + Union(Remaining, e.started) + (e.accepted + e.dropped) == before
  }

  lemma RunningAccounts<T>(t: Thread<T>, cancelled: bool)
    requires ValidBody(t) && t.phase.Running?
    ensures Accounts(Advance(t, cancelled), Items(t.script))
  {
    hide Union, Items, ItemsOf;
    StartedRemaining(t, cancelled);
    Unfold<T>([]);
    if t.script != [] && !t.script[0].Panic? {
      Unfold(t.script);
      if t.script[0].YieldFn? && !cancelled {
        var script := [Yield(t.script[0].item)] + t.script[1..];
        assert script[1..] == t.script[1..];
        Unfold(script);
      }
    }
  }

  lemma OthersAccount<T>(t: Thread<T>, cancelled: bool)
    requires ValidBody(t) && !t.phase.Running? && !t.phase.Ended? && Stopped(t)
    ensures Accounts(Advance(t, cancelled), Remaining(t))
  {
    StartedRemaining(t, cancelled);
    Unfold(t.script);
    hide Union, Items, ItemsOf;
  }

  lemma AdvanceAccounts<T>(t: Thread<T>, cancelled: bool)
    requires ValidBody(t) && !t.phase.Ended? && Stopped(t)
    ensures Accounts(Advance(t, cancelled), Remaining(t))
  {
    hide Accounts, Advance;
    if t.phase.Running? {
      RunningAccounts(t, cancelled);
    } else {
      OthersAccount(t, cancelled);
    }
  }

  lemma Unfold<T>(script: seq<Stmt<T>>)
    ensures script == [] ==> Items(script) == multiset{}
    ensures script != [] ==> Items(script) == ItemsOf(script[0]) + Items(script[1..])
    ensures script != [] && script[0].Yield? ==> ItemsOf(script[0]) == multiset{script[0].item}
    ensures script != [] && script[0].YieldFn? ==> ItemsOf(script[0]) == multiset{script[0].item}
    ensures script != [] && script[0].Spawn? ==> ItemsOf(script[0]) == Items(script[0].body)
  {}

  /** Every value of the scripts is still to be yielded, accepted or dropped. */
  ghost predicate Accounted<T>(s: State<T>, all: multiset<T>) {
    && s.accepted + s.dropped + Union(Remaining, s.threads) == all
    && forall i :: 0 <= i < |s.threads| ==> Stopped(s.threads[i])
  }

  lemma Settle<U>(done: multiset<U>, was: multiset<U>, now: multiset<U>, t: multiset<U>, body: multiset<U>,
                  started: multiset<U>, more: multiset<U>, all: multiset<U>)
    requires done + was == all && now + t == was + body && body + started + more == t
    ensures (done + more) + (now + started) == all
  {
    forall x: U ensures ((done + more) + (now + started))[x] == all[x] {
      assert (done + was)[x] == all[x] && (now + t)[x] == (was + body)[x] && (body + started + more)[x] == t[x];
    }
  }

  lemma Regroup<U>(a: multiset<U>, b: multiset<U>, c: multiset<U>, d: multiset<U>)
    ensures (a + c) + (b + d) == (a + b) + (c + d)
  {}

  lemma AdvanceStops<T>(t: Thread<T>, cancelled: bool)
    requires ValidBody(t) && !t.phase.Ended? && Stopped(t)
    ensures var e := Advance(t, cancelled);
            Stopped(e.body) && forall i :: 0 <= i < |e.started| ==> Stopped(e.started[i])
  {}

  lemma RunBodyAccounts<T>(s: State<T>, i: nat, all: multiset<T>)
    requires Accounted(s, all) && Enabled(s, RunBody(i))
    ensures Accounted(Next(s, RunBody(i)), all)
  {
    hide Advance, Remaining, Union;
    var t, e := s.threads[i], Advance(s.threads[i], s.cancelled);
    AdvanceStops(t, s.cancelled);
    UnionUpdate(Remaining, s.threads, i, e.body);
    UnionConcat(Remaining, s.threads[i := e.body], e.started);
    var s' := Next(s, RunBody(i));
    AdvanceAccounts(t, s.cancelled);
    Settle(s.accepted + s.dropped, Union(Remaining, s.threads), Union(Remaining, s.threads[i := e.body]), Remaining(t),
           Remaining(e.body), Union(Remaining, e.started), e.accepted + e.dropped, all);
    Regroup(s.accepted, s.dropped, e.accepted, e.dropped);
    forall j | 0 <= j < |s'.threads| ensures Stopped(s'.threads[j]) {
      assert j >= |s.threads| ==> s'.threads[j] == e.started[j - |s.threads|];
    }
  }

  lemma StepAccounts<T>(s: State<T>, a: Label, all: multiset<T>)
    requires Accounted(s, all) && Enabled(s, a)
    ensures Accounted(Next(s, a), all)
  {
    hide Union, Advance;
    match a
    case RunBody(i) => RunBodyAccounts(s, i, all);
    case Receive(i, j) =>
      var u := s.threads[j].(stage := Holding(s.threads[i].item));
      SameRemaining(s.threads, i, Sent);
      SameRemaining(s.threads[i := Sent], j, u);
    case Consume(j) =>
      SameRemaining(s.threads, j, Turn(s.threads[j]));
    case CallAwait =>
      UnionOfNone(Remaining<T>, Consumers(s.calls[0]));
      UnionConcat(Remaining, s.threads, Consumers(s.calls[0]));
    case RunCloser(_) =>
  }

  lemma SameRemaining<T>(ts: seq<Thread<T>>, i: nat, u: Thread<T>)
    requires i < |ts| && !ts[i].Body? && !u.Body?
    ensures Union(Remaining, ts[i := u]) == Union(Remaining, ts)
  {
    hide Union;
    UnionUpdate(Remaining, ts, i, u);
    CancelSame(Union(Remaining, ts[i := u]), Union(Remaining, ts), multiset{});
  }

  lemma {:induction false} RunAccounts<T>(s: State<T>, run: seq<Label>, s': State<T>, all: multiset<T>)
    requires Accounted(s, all) && Runs(s, run, s')
    ensures Accounted(s', all)
    decreases |run|
  {
    if run != [] {
      StepAccounts(s, run[0], all);
      RunAccounts(Next(s, run[0]), run[1..], s', all);
    }
  }

  lemma OverCarriesOutput<T>(t: Thread<T>)
    requires Over(t)
    ensures Carried(t) == Output(t) && Held(t) == 0
  {}

  /** The accepted values are under way or in the outputs; in the end, they are all in the outputs. */
  lemma {:induction false} CompleteOutputs<T>(ts: seq<Thread<T>>)
    requires forall i :: 0 <= i < |ts| ==> Over(ts[i])
    ensures Union(Carried, ts) == Union(Output, ts)
    ensures Sum(Held, ts) == 0
  {
    hide Carried, Held, Output, Over;
    if ts != [] {
      CompleteOutputs(ts[..|ts| - 1]);
      OverCarriesOutput(ts[|ts| - 1]);
    }
  }

  lemma {:induction false} NothingRemains<T>(ts: seq<Thread<T>>)
    requires forall i :: 0 <= i < |ts| ==> Over(ts[i]) && Stopped(ts[i])
    ensures Union(Remaining, ts) == multiset{}
  {
    forall i | 0 <= i < |ts| ensures Remaining(ts[i]) == multiset{} {
      assert Over(ts[i]) && Stopped(ts[i]);
    }
    UnionOfNone(Remaining, ts);
  }

  /** The scripts of bodies that do not panic. */
  predicate PanicFree<T>(script: seq<Stmt<T>>) {
    script != [] ==>
      && PanicFree(script[1..])
      && match script[0] {
           case Spawn(body) => PanicFree(body)
           case Panic => false
           case _ => true
         }
  }

  predicate CalmThread<T>(t: Thread<T>) {
    t.Body? ==> PanicFree(t.script) && !t.phase.Panicked? && !t.phase.Failed?
  }

  ghost predicate Calm<T>(s: State<T>) {
    && !s.cancelled && s.dropped == multiset{}
    && forall i :: 0 <= i < |s.threads| ==> CalmThread(s.threads[i])
  }

  lemma AdvanceStaysCalm<T>(t: Thread<T>)
    requires ValidBody(t) && !t.phase.Ended? && CalmThread(t)
    ensures var e := Advance(t, false);
            && !e.cancels && e.dropped == multiset{} && CalmThread(e.body)
            && forall i :: 0 <= i < |e.started| ==> CalmThread(e.started[i])
  {
    if t.phase.Running? && t.script != [] && t.script[0].YieldFn? {
      var script := [Yield(t.script[0].item)] + t.script[1..];
      assert script[1..] == t.script[1..];
    }
  }

  lemma StepStaysCalm<T>(s: State<T>, a: Label)
    requires Calm(s) && Enabled(s, a)
    ensures Calm(Next(s, a))
  {
    hide Advance, PanicFree;
    if a.RunBody? {
      AdvanceStaysCalm(s.threads[a.i]);
    }
  }

  lemma {:induction false} RunStaysCalm<T>(s: State<T>, run: seq<Label>, s': State<T>)
    requires Calm(s) && Runs(s, run, s')
    ensures Calm(s')
    decreases |run|
  {
    if run != [] {
      StepStaysCalm(s, run[0]);
      RunStaysCalm(Next(s, run[0]), run[1..], s');
    }
  }

  // ------------------------------------------------------------------------------------- results

  /** In every reachable state: no panic of the protocol is possible, and the counter and the values add up. */
  lemma PromiseIsSafe<T>(script: seq<Stmt<T>>, calls: seq<Call>, run: seq<Label>, s: State<T>)
    requires Runs(Start(script, calls), run, s)
    ensures !Fault(s) && s.closes <= 1 && |s.closers| <= 1
    ensures s.counter == Sum(Held, s.threads)
    ensures s.accepted == Union(Carried, s.threads)
    ensures forall k :: 0 <= k < |s.closers| && !s.closers[k].Waiting? ==> s.counter == 0
  {
    StartInv(script, calls);
    RunKeepsInv(Start(script, calls), run, s);
    InvSafe(s);
  }

  /** Once the counter is zero it stays zero, whatever happens. */
  lemma ZeroStays<T>(s: State<T>, a: Label)
    requires Inv(s) && s.counter == 0 && Enabled(s, a)
    ensures Next(s, a).counter == 0
  {
    if a.RunBody? {
      RunBodyCounts(s, a.i);
    } else if a.Consume? {
      SumCovers(Held, s.threads, a.j);
    }
  }

  /** Exactly once: in the end the outputs have the accepted values, and those are all but the dropped ones. */
  lemma PromiseDelivers<T>(script: seq<Stmt<T>>, calls: seq<Call>, run: seq<Label>, s: State<T>)
    requires Runs(Start(script, calls), run, s) && Complete(s)
    ensures Union(Output, s.threads) == s.accepted
    ensures s.accepted + s.dropped == Items(script)
    ensures PanicFree(script) ==> Union(Output, s.threads) == Items(script)
  {
    var start := Start(script, calls);
    PromiseIsSafe(script, calls, run, s);
    CompleteOutputs(s.threads);
    UnionOfOne(Remaining, Body(Running, script));
    RunAccounts(start, run, s, Items(script));
    NothingRemains(s.threads);
    if PanicFree(script) {
      RunStaysCalm(start, run, s);
    }
  }

  /** There was a call, or there will be one. */
  predicate Awaited<T>(s: State<T>) {
    s.once || s.calls != []
  }

  /** Some call makes a consumer. */
  predicate SomeConsume(calls: seq<Call>) {
    exists i :: 0 <= i < |calls| && !calls[i].NilMap?
  }

  /** There is a consumer, or there will be one. */
  ghost predicate Consumed<T>(s: State<T>) {
    SomeConsume(s.calls) || exists j :: 0 <= j < |s.threads| && s.threads[j].Consumer?
  }

  /** A step leaves a consumer a consumer. */
  lemma StaysConsumer<T>(s: State<T>, a: Label, j: nat)
    requires Enabled(s, a) && j < |s.threads| && s.threads[j].Consumer?
    ensures j < |Next(s, a).threads| && Next(s, a).threads[j].Consumer?
    ensures s.once ==> Next(s, a).once
    ensures HoldsUp(s.threads[j]) ==> Next(s, a).threads[j] == s.threads[j]
  {
    hide Advance;
  }

  lemma StepKeepsConsumed<T>(s: State<T>, a: Label)
    requires Consumed(s) && Enabled(s, a)
    ensures Consumed(Next(s, a))
  {
    hide Advance;
    var s' := Next(s, a);
    if j :| 0 <= j < |s.threads| && s.threads[j].Consumer? {
      StaysConsumer(s, a, j);
    } else {
      var i :| 0 <= i < |s.calls| && !s.calls[i].NilMap?;
      if !a.CallAwait? {
        assert s'.calls == s.calls;
      } else if i == 0 {
        assert s'.threads[|s.threads|].Consumer?;
      } else {
        assert s'.calls[i - 1] == s.calls[i];
      }
    }
  }

  lemma {:induction false} RunKeepsAwaited<T>(s: State<T>, run: seq<Label>, s': State<T>)
    requires Awaited(s) && Runs(s, run, s')
    ensures Awaited(s')
    ensures Consumed(s) ==> Consumed(s')
    decreases |run|
  {
    hide Advance, Consumed;
    if run != [] {
      if Consumed(s) {
        StepKeepsConsumed(s, run[0]);
      }
      RunKeepsAwaited(Next(s, run[0]), run[1..], s');
    }
  }

  lemma {:induction false} NeverAwaited<T>(s: State<T>, run: seq<Label>, s': State<T>)
    requires s.calls == [] && s.closes == 0 && s.closers == [] && Runs(s, run, s')
    ensures s'.closes == 0
    decreases |run|
  {
    hide Advance;
    if run != [] {
      NeverAwaited(Next(s, run[0]), run[1..], s');
    }
  }

  /** A value that nobody takes from an output channel is never handed out, and the promise never completes. */
  lemma {:induction false} UndrainedBlocks<T>(s: State<T>, j: nat, run: seq<Label>, s': State<T>)
    requires j < |s.threads| && HoldsUp(s.threads[j]) && Runs(s, run, s')
    ensures j < |s'.threads| && s'.threads[j] == s.threads[j] && !Complete(s')
    decreases |run|
  {
    if run == [] {
      assert !Over(s.threads[j]);
    } else {
      StaysConsumer(s, run[0], j);
      UndrainedBlocks(Next(s, run[0]), j, run[1..], s');
    }
  }

  /**
   * Every run ends. When nothing can happen any more, the promise is complete, with all accepted values handed
   * out, if and only if `Await` or `Map` was called, no output channel holds up a value and no sender still waits,
   * which none does if some call makes a consumer.
   */
  lemma PromiseCompletes<T>(script: seq<Stmt<T>>, calls: seq<Call>, run: seq<Label>, s: State<T>)
    requires Runs(Start(script, calls), run, s)
    ensures |run| <= Measure(Start(script, calls))
    ensures Complete(s) ==> Stuck(s) && Union(Output, s.threads) == s.accepted && s.counter == 0
    ensures Stuck(s) ==>
      (Complete(s) <==>
       calls != [] && forall i :: 0 <= i < |s.threads| ==> !HoldsUp(s.threads[i]) && !s.threads[i].Sender?)
    ensures Stuck(s) && SomeConsume(calls) ==>
      (Complete(s) <==> forall i :: 0 <= i < |s.threads| ==> !HoldsUp(s.threads[i]))
  {
    var start := Start(script, calls);
    StartInv(script, calls);
    RunsEnd(start, run, s);
    RunKeepsInv(start, run, s);
    if calls == [] {
      NeverAwaited(start, run, s);
    } else {
      RunKeepsAwaited(start, run, s);
    }
    if Complete(s) {
      CompleteIsStuck(s);
      CompleteOutputs(s.threads);
      forall i | 0 <= i < |s.threads| ensures !HoldsUp(s.threads[i]) && !s.threads[i].Sender? {
        assert Over(s.threads[i]);
      }
    } else if Stuck(s) && calls != [] && forall i :: 0 <= i < |s.threads| ==> !HoldsUp(s.threads[i]) {
      assert !Enabled(s, CallAwait);
      if SomeConsume(calls) {
        var j :| 0 <= j < |s.threads| && s.threads[j].Consumer?;
        forall i | 0 <= i < |s.threads| ensures !s.threads[i].Sender? {
          StuckSender(s, i, j);
        }
      }
      if forall i :: 0 <= i < |s.threads| ==> !s.threads[i].Sender? {
        StuckMeansComplete(s);
      }
    }
  }

  lemma CompleteIsStuck<T>(s: State<T>)
    requires Complete(s)
    ensures Stuck(s)
  {
    forall a ensures !Enabled(s, a) {
      CompleteDisables(s, a);
    }
  }

  lemma CompleteDisables<T>(s: State<T>, a: Label)
    requires Complete(s)
    ensures !Enabled(s, a)
  {
    var i := match a case RunBody(i) => i case Receive(i, _) => i case Consume(j) => j case _ => 0;
    if i < |s.threads| {
      assert Over(s.threads[i]);
    }
  }
}
