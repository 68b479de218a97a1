/** What a panic does to a promise: the promise is cancelled, and what was not accepted by then never is. */
module PromisePanics {
  import opened Sums
  import opened Promise
  import opened PromiseRuns

  // ------------------------------------------------------------------------- a panic sets the flag

  predicate HasPanicked<T>(t: Thread<T>) {
    t.Body? && t.phase.Panicked?
  }

  predicate HasFailed<T>(t: Thread<T>) {
    t.Body? && t.phase.Failed?
  }

  /** The body is about to set the flag, or its script still has a panic, or one that it starts does. */
  predicate WillPanic<T>(t: Thread<T>) {
    t.Body? && (t.phase.Panicked? || !PanicFree(t.script))
  }

  /** The error is stored by a body that has set the flag, and no panic of the scripts is forgotten. */
  ghost predicate Flagged<T>(s: State<T>, script: seq<Stmt<T>>) {
    && (forall i :: 0 <= i < |s.threads| && HasFailed(s.threads[i]) ==> s.cancelled)
    && (s.failed ==> s.cancelled)
    && (s.cancelled ==> s.failed || exists i :: 0 <= i < |s.threads| && HasFailed(s.threads[i]))
    && (!s.cancelled && !PanicFree(script) ==> exists i :: 0 <= i < |s.threads| && WillPanic(s.threads[i]))
    && forall i :: 0 <= i < |s.threads| ==> Stopped(s.threads[i])
  }

  lemma AdvancePanics<T>(t: Thread<T>, cancelled: bool)
    requires ValidBody(t) && !t.phase.Ended? && Stopped(t)
    ensures var e := Advance(t, cancelled);
            && (HasFailed(e.body) ==> e.cancels)
            && (e.cancels ==> HasFailed(e.body))
            && (e.fails <==> HasFailed(t))
            && (forall i :: 0 <= i < |e.started| ==> !HasFailed(e.started[i]))
            && (WillPanic(t) && !e.cancels && !cancelled ==>
                  WillPanic(e.body) || exists i :: 0 <= i < |e.started| && WillPanic(e.started[i]))
  {
    if t.phase.Running? && t.script != [] && t.script[0].YieldFn? {
      var script := [Yield(t.script[0].item)] + t.script[1..];
      assert script[1..] == t.script[1..];
    } else if t.phase.Counted? {
      assert WillPanic(t) ==> WillPanic(Advance(t, cancelled).body) || WillPanic(Advance(t, cancelled).started[0]);
    }
  }

  lemma RunBodyKeepsFlag<T>(s: State<T>, i: nat, script: seq<Stmt<T>>)
    requires Flagged(s, script) && Enabled(s, RunBody(i))
    ensures Flagged(Next(s, RunBody(i)), script)
  {
    hide Advance, PanicFree, Stopped, WillPanic, HasFailed, Held, Carried;
    var e, s' := Advance(s.threads[i], s.cancelled), Next(s, RunBody(i));
    AdvancePanics(s.threads[i], s.cancelled);
    AdvanceStops(s.threads[i], s.cancelled);
    AdvanceBalance(s.threads[i], s.cancelled);
    assert s'.threads[i] == e.body;
    assert forall k :: 0 <= k < |e.started| ==> s'.threads[|s.threads| + k] == e.started[k];
    if !s'.cancelled && !PanicFree(script) {
      var k :| 0 <= k < |s.threads| && WillPanic(s.threads[k]);
      assert k != i ==> s'.threads[k] == s.threads[k];
    }
    if s.cancelled && !s.failed {
      var k :| 0 <= k < |s.threads| && HasFailed(s.threads[k]);
      assert k != i ==> s'.threads[k] == s.threads[k];
    }
  }

  lemma StepKeepsFlag<T>(s: State<T>, a: Label, script: seq<Stmt<T>>)
    requires Flagged(s, script) && Enabled(s, a)
    ensures Flagged(Next(s, a), script)
  {
    hide Advance, PanicFree;
    if a.RunBody? {
      RunBodyKeepsFlag(s, a.i, script);
    } else {
      var s' := Next(s, a);
      forall k | 0 <= k < |s.threads| && s.threads[k].Body? ensures k < |s'.threads| && s'.threads[k] == s.threads[k] {}
      assert forall k :: 0 <= k < |s'.threads| && s'.threads[k].Body? ==> k < |s.threads| && s.threads[k] == s'.threads[k];
    }
  }

  lemma {:induction false} RunKeepsFlag<T>(s: State<T>, run: seq<Label>, s': State<T>, script: seq<Stmt<T>>)
    requires Flagged(s, script) && Runs(s, run, s')
    ensures Flagged(s', script)
    decreases |run|
  {
    hide Flagged;
    if run != [] {
      StepKeepsFlag(s, run[0], script);
      RunKeepsFlag(Next(s, run[0]), run[1..], s', script);
    }
  }

  /**
   In every reachable state a body that is done with its panic has cancelled the promise, and an error is stored
   only by such a body. In the end the promise is cancelled, and has an error, if and only if the scripts panic.
   */
  lemma PanicCancels<T>(script: seq<Stmt<T>>, calls: seq<Call>, run: seq<Label>, s: State<T>)
    requires Runs(Start(script, calls), run, s)
    ensures forall i :: 0 <= i < |s.threads| && HasFailed(s.threads[i]) ==> s.cancelled
    ensures s.failed ==> s.cancelled
    ensures s.cancelled ==> !PanicFree(script)
    ensures Complete(s) ==> (s.cancelled <==> !PanicFree(script)) && (s.failed <==> s.cancelled)
  {
    var start := Start(script, calls);
    assert PanicFree(script) || WillPanic(start.threads[0]);
    RunKeepsFlag(start, run, s, script);
    if PanicFree(script) {
      RunStaysCalm(start, run, s);
    }
    if Complete(s) {
      forall i | 0 <= i < |s.threads| ensures !HasFailed(s.threads[i]) && !WillPanic(s.threads[i]) {
        assert Over(s.threads[i]) && Stopped(s.threads[i]);
      }
    }
  }

  // ------------------------------------------------------------------------- the flag stops what is to come

  /** A value that a body yields after its check, whatever happens. */
  ghost function Accepting<T>(t: Thread<T>): multiset<T> {
    if t.Body? && t.phase.Checked? && t.script != [] && t.script[0].Yield? then multiset{t.script[0].item} else multiset{}
  }

  /** A goroutine that a body starts after its check, whatever happens. */
  function Starting<T>(t: Thread<T>): nat {
    if t.Body? && (t.phase.Checked? || t.phase.Counted?) then 1 else 0
  }

  /** Bodies and senders. */
  function Producer<T>(t: Thread<T>): nat {
    if t.Consumer? then 0 else 1
  }

  lemma AdvanceCancelled<T>(t: Thread<T>)
    requires ValidBody(t) && !t.phase.Ended?
    ensures var e := Advance(t, true);
            && Accepting(e.body) + Union(Accepting, e.started) + e.accepted == Accepting(t)
            && Starting(e.body) + Sum(Starting, e.started) + |e.started| == Starting(t)
            && Sum(Producer, e.started) == |e.started| && e.body.Body?
  {
    hide Sum, Union, Items, ItemsOf;
    var started := Advance(t, true).started;
    if t.phase.Counted? {
      FreshBody(started[0]);
      assert started == [started[0]];
    } else {
      NoBodies<T>();
      assert started == [];
    }
  }

  lemma NoBodies<T>()
    ensures Union(Accepting<T>, []) == multiset{} && Sum(Starting<T>, []) == 0 && Sum(Producer<T>, []) == 0
  {}

  lemma FreshBody<T>(u: Thread<T>)
    requires !u.Consumer? && (u.Body? ==> u.phase.Running?)
    ensures Union(Accepting, [u]) == multiset{} && Sum(Starting, [u]) == 0 && Sum(Producer, [u]) == 1
  {
    UnionOfOne(Accepting, u);
    SumOfOne(Starting, u);
    SumOfOne(Producer, u);
  }

  lemma BodyCancelledAccepts<T>(s: State<T>, i: nat)
    requires s.cancelled && Enabled(s, RunBody(i))
    ensures var s' := Next(s, RunBody(i));
            s'.accepted + Union(Accepting, s'.threads) == s.accepted + Union(Accepting, s.threads)
  {
    hide Advance, Accepting, Union;
    var t, e := s.threads[i], Advance(s.threads[i], true);
    AdvanceCancelled(t);
    UnionUpdate(Accepting, s.threads, i, e.body);
    UnionConcat(Accepting, s.threads[i := e.body], e.started);
    Settle(s.accepted, Union(Accepting, s.threads), Union(Accepting, s.threads[i := e.body]), Accepting(t),
           Accepting(e.body), Union(Accepting, e.started), e.accepted, s.accepted + Union(Accepting, s.threads));
  }

  lemma BodyCancelledStarts<T>(s: State<T>, i: nat)
    requires s.cancelled && Enabled(s, RunBody(i))
    ensures var s' := Next(s, RunBody(i));
            Sum(Producer, s'.threads) + Sum(Starting, s'.threads) == Sum(Producer, s.threads) + Sum(Starting, s.threads)
  {
    hide Advance, Starting, Sum;
    var t, e := s.threads[i], Advance(s.threads[i], true);
    AdvanceCancelled(t);
    SumUpdate(Starting, s.threads, i, e.body);
    SumConcat(Starting, s.threads[i := e.body], e.started);
    SumUpdate(Producer, s.threads, i, e.body);
    SumConcat(Producer, s.threads[i := e.body], e.started);
  }

  lemma SameAccepting<T>(ts: seq<Thread<T>>, i: nat, u: Thread<T>)
    requires i < |ts| && !ts[i].Body? && !u.Body? && (ts[i].Consumer? <==> u.Consumer?)
    ensures Union(Accepting, ts[i := u]) == Union(Accepting, ts)
    ensures Sum(Starting, ts[i := u]) == Sum(Starting, ts) && Sum(Producer, ts[i := u]) == Sum(Producer, ts)
  {
    hide Union, Sum;
    UnionUpdate(Accepting, ts, i, u);
    CancelSame(Union(Accepting, ts[i := u]), Union(Accepting, ts), multiset{});
    SumUpdate(Starting, ts, i, u);
    SumUpdate(Producer, ts, i, u);
  }

  lemma StepCancelled<T>(s: State<T>, a: Label)
    requires s.cancelled && Enabled(s, a)
    ensures var s' := Next(s, a);
            && s'.cancelled
            && s'.accepted + Union(Accepting, s'.threads) == s.accepted + Union(Accepting, s.threads)
            && Sum(Producer, s'.threads) + Sum(Starting, s'.threads) == Sum(Producer, s.threads) + Sum(Starting, s.threads)
  {
    hide Union, Sum, Advance;
    match a
    case RunBody(i) =>
      BodyCancelledAccepts(s, i);
      BodyCancelledStarts(s, i);
    case Receive(i, j) =>
      SameAccepting(s.threads, i, Sent);
      SameAccepting(s.threads[i := Sent], j, s.threads[j].(stage := Holding(s.threads[i].item)));
    case Consume(j) => SameAccepting(s.threads, j, Turn(s.threads[j]));
    case CallAwait =>
      UnionOfNone(Accepting<T>, Consumers(s.calls[0]));
      UnionConcat(Accepting, s.threads, Consumers(s.calls[0]));
      SumOfNone(Starting<T>, Consumers(s.calls[0]));
      SumConcat(Starting, s.threads, Consumers(s.calls[0]));
      SumOfNone(Producer<T>, Consumers(s.calls[0]));
      SumConcat(Producer, s.threads, Consumers(s.calls[0]));
    case RunCloser(_) =>
  }

  lemma {:induction false} RunCancelled<T>(s: State<T>, run: seq<Label>, s': State<T>)
    requires s.cancelled && Runs(s, run, s')
    ensures s'.cancelled
    ensures s'.accepted + Union(Accepting, s'.threads) == s.accepted + Union(Accepting, s.threads)
    ensures Sum(Producer, s'.threads) + Sum(Starting, s'.threads) == Sum(Producer, s.threads) + Sum(Starting, s.threads)
    decreases |run|
  {
    hide Enabled, Next, Union, Sum;
    if run != [] {
      StepCancelled(s, run[0]);
      RunCancelled(Next(s, run[0]), run[1..], s');
    }
  }

  /** A cancelled body goes on: it drops what it would yield or start, one after the other, and may still panic. */
  lemma CancelledGoesOn<T>(s: State<T>, i: nat, s': State<T>)
    requires s.cancelled && i < |s.threads| && s.threads[i].Body? && s.threads[i].phase.Running?
    requires s.threads[i].script != [] && Runs(s, [RunBody(i)], s')
    ensures i < |s'.threads|
    ensures var script := s.threads[i].script;
            if script[0].Panic? then HasPanicked(s'.threads[i])
            else s'.threads[i] == Body(Running, script[1..]) && s'.dropped == s.dropped + ItemsOf(script[0])
  {
    assert [RunBody(i)][1..] == [];
  }

  /**
   Once the promise is cancelled it stays so: from then on at most the values are accepted, and the goroutines
   started, whose bodies were past the check already.
   */
  lemma CancelStops<T>(s: State<T>, run: seq<Label>, s': State<T>)
    requires s.cancelled && Runs(s, run, s')
    ensures s'.cancelled
    ensures s'.accepted <= s.accepted + Union(Accepting, s.threads)
    ensures Sum(Producer, s'.threads) <= Sum(Producer, s.threads) + Sum(Starting, s.threads)
    ensures Complete(s') ==> s'.accepted == s.accepted + Union(Accepting, s.threads)
  {
    RunCancelled(s, run, s');
    if Complete(s') {
      forall i | 0 <= i < |s'.threads| ensures Accepting(s'.threads[i]) == multiset{} {
        assert Over(s'.threads[i]);
      }
      UnionOfNone(Accepting, s'.threads);
    }
  }

  // ------------------------------------------------------------------------- what a panic cuts off

  /** The values of a script that no panic of their bodies comes before. */
  ghost function Reach<T>(script: seq<Stmt<T>>): multiset<T> {
    if script == [] then multiset{}
    else
      match script[0]
      case Yield(item) => multiset{item} + Reach(script[1..])
      case YieldFn(item) => multiset{item} + Reach(script[1..])
      case Spawn(body) => Reach(body) + Reach(script[1..])
      case Panic => multiset{}
  }

  /** Those that a goroutine has still to yield. */
  ghost function Left<T>(t: Thread<T>): multiset<T> {
    if !t.Body? then multiset{}
    else if t.phase.Counted? && t.script != [] && t.script[0].Yield? then Reach(t.script[1..])
    else Reach(t.script)
  }

  lemma StartedLeft<T>(t: Thread<T>, cancelled: bool)
    requires ValidBody(t) && !t.phase.Ended?
    ensures Union(Left, Advance(t, cancelled).started) ==
            if t.phase.Counted? && t.script[0].Spawn? then Reach(t.script[0].body) else multiset{}
  {
    hide Union;
    if t.phase.Counted? {
      UnionOfOne(Left, Advance(t, cancelled).started[0]);
    } else {
      UnionOfNone<Thread<T>, T>(Left, []);
    }
  }

  lemma AdvanceLeft<T>(t: Thread<T>, cancelled: bool)
    requires ValidBody(t) && !t.phase.Ended? && Stopped(t)
    ensures var e := Advance(t, cancelled);
            && Left(e.body) + Union(Left, e.started) + e.accepted <= Left(t)
            && (!cancelled ==> Left(e.body) + Union(Left, e.started) + e.accepted == Left(t))
  {
    hide Union;
    StartedLeft(t, cancelled);
    if t.phase.Running? && t.script != [] && t.script[0].YieldFn? {
      var script := [Yield(t.script[0].item)] + t.script[1..];
      assert script[1..] == t.script[1..];
    }
  }

  lemma SettleLess<U>(done: multiset<U>, was: multiset<U>, now: multiset<U>, t: multiset<U>, body: multiset<U>,
                      started: multiset<U>, more: multiset<U>, all: multiset<U>)
    requires done + was <= all && now + t == was + body && body + started + more <= t
    ensures (done + more) + (now + started) <= all
  {
    forall x: U ensures ((done + more) + (now + started))[x] <= all[x] {
      assert (done + was)[x] <= all[x] && (now + t)[x] == (was + body)[x] && (body + started + more)[x] <= t[x];
    }
  }

  /** What is accepted, and what can be, is never behind a panic; without a panic so far it is all there is. */
  ghost predicate Within<T>(s: State<T>, all: multiset<T>) {
    && s.accepted + Union(Left, s.threads) <= all
    && (!s.cancelled ==> s.accepted + Union(Left, s.threads) == all)
    && forall i :: 0 <= i < |s.threads| ==> Stopped(s.threads[i])
  }

  lemma RunBodyStaysWithin<T>(s: State<T>, i: nat, all: multiset<T>)
    requires Within(s, all) && Enabled(s, RunBody(i))
    ensures Within(Next(s, RunBody(i)), all)
  {
    hide Advance, Left, Union;
    var t, e := s.threads[i], Advance(s.threads[i], s.cancelled);
    AdvanceStops(t, s.cancelled);
    AdvanceLeft(t, s.cancelled);
    UnionUpdate(Left, s.threads, i, e.body);
    UnionConcat(Left, s.threads[i := e.body], e.started);
    var was, now := Union(Left, s.threads), Union(Left, s.threads[i := e.body]);
    SettleLess(s.accepted, was, now, Left(t), Left(e.body), Union(Left, e.started), e.accepted, all);
    if !s.cancelled {
      Settle(s.accepted, was, now, Left(t), Left(e.body), Union(Left, e.started), e.accepted, all);
    }
    var s' := Next(s, RunBody(i));
    forall j | 0 <= j < |s'.threads| ensures Stopped(s'.threads[j]) {
      assert j >= |s.threads| ==> s'.threads[j] == e.started[j - |s.threads|];
    }
  }

  lemma SameLeft<T>(ts: seq<Thread<T>>, i: nat, u: Thread<T>)
    requires i < |ts| && !ts[i].Body? && !u.Body?
    ensures Union(Left, ts[i := u]) == Union(Left, ts)
  {
    hide Union;
    UnionUpdate(Left, ts, i, u);
    CancelSame(Union(Left, ts[i := u]), Union(Left, ts), multiset{});
  }

  lemma StepStaysWithin<T>(s: State<T>, a: Label, all: multiset<T>)
    requires Within(s, all) && Enabled(s, a)
    ensures Within(Next(s, a), all)
  {
    hide Union, Advance, Left;
    match a
    case RunBody(i) => RunBodyStaysWithin(s, i, all);
    case Receive(i, j) =>
      SameLeft(s.threads, i, Sent);
      SameLeft(s.threads[i := Sent], j, s.threads[j].(stage := Holding(s.threads[i].item)));
    case Consume(j) => SameLeft(s.threads, j, Turn(s.threads[j]));
    case CallAwait =>
      ConsumersHaveNothing<T>(s.calls[0]);
      UnionConcat(Left, s.threads, Consumers(s.calls[0]));
    case RunCloser(_) =>
  }

  lemma ConsumersHaveNothing<T>(call: Call)
    ensures Union(Left<T>, Consumers(call)) == multiset{}
  {
    UnionOfNone(Left<T>, Consumers(call));
  }

  lemma {:induction false} RunStaysWithin<T>(s: State<T>, run: seq<Label>, s': State<T>, all: multiset<T>)
    requires Within(s, all) && Runs(s, run, s')
    ensures Within(s', all)
    decreases |run|
  {
    hide Within;
    if run != [] {
      StepStaysWithin(s, run[0], all);
      RunStaysWithin(Next(s, run[0]), run[1..], s', all);
    }
  }

  /**
   No value behind a panic of its body is ever accepted, and until the promise is cancelled every other one is
   accepted or still to come.
   */
  lemma PanicCutsOff<T>(script: seq<Stmt<T>>, calls: seq<Call>, run: seq<Label>, s: State<T>)
    requires Runs(Start(script, calls), run, s)
    ensures s.accepted <= Reach(script)
    ensures !s.cancelled ==> s.accepted + Union(Left, s.threads) == Reach(script)
  {
    UnionOfOne(Left, Body(Running, script));
    RunStaysWithin(Start(script, calls), run, s, Reach(script));
  }

  // ------------------------------------------------------------------------- outputs

  lemma StepGrows<T>(s: State<T>, a: Label, j: nat)
    requires j < |s.threads| && s.threads[j].Consumer? && Enabled(s, a)
    ensures var u := s.threads[j];
            && j < |Next(s, a).threads|
            && var u' := Next(s, a).threads[j];
               && u'.Consumer? && (u'.output == u.output || (u.stage.Holding? && u'.output == u.output + [u.stage.item]))
               && (u.stage.Holding? && u'.output == u.output ==> u'.stage == u.stage)
  {
    hide Advance;
  }

  /** What a consumer has sent to its output stays there: later values come behind it, one at a time. */
  lemma {:induction false} OutputsGrow<T>(s: State<T>, run: seq<Label>, s': State<T>, j: nat)
    requires j < |s.threads| && s.threads[j].Consumer? && Runs(s, run, s')
    ensures j < |s'.threads| && s'.threads[j].Consumer? && s.threads[j].output <= s'.threads[j].output
    ensures s.threads[j].stage.Holding? && s.threads[j].output < s'.threads[j].output ==>
      s'.threads[j].output[|s.threads[j].output|] == s.threads[j].stage.item
    decreases |run|
  {
    hide Advance;
    if run != [] {
      StepGrows(s, run[0], j);
      OutputsGrow(Next(s, run[0]), run[1..], s', j);
    }
  }
}
