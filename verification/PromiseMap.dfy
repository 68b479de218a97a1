/** `Map`: drains a promise and calls a function on each value. */
module PromiseMap {
  import opened Wrappers
  import opened Sums
  import opened Futures
  import FutureRuns
  import Permutations
  import Promise
  import PromiseRuns

  /** What the futures of a promise resolve to; `None` is an invalid value. */
  type Future<V, E> = Outcome<Option<V>, E>

  /**
   * What `Map` is given. The number of outputs is part of the type of a function; a nil value of a function type
   * is not the nil that `Map` looks for.
   */
  datatype Function<!V, E> =
    | Nil
    | NoFunction
    | NilFunc(outputs: nat)
    | Func(outputs: nat, zero: V, call: seq<Option<V>> -> Call<Option<V>, E>)

  /** Calls that return have the outputs the type of the function says. */
  ghost predicate WellTyped<V(!new), E>(fn: Function<V, E>) {
    fn.Func? ==> forall args :: fn.call(args).Returned? ==> |fn.call(args).values| == fn.outputs
  }

  /**
   * What `Map` returns: nil, an error (given by cause), a `value` without and one with a list. `Hangs` is that it
   * does not return: it reads a future that blocks for ever.
   */
  datatype Mapped<V, E> = NilValue | Failure(cause: Cause<E>) | NoList | List(values: seq<V>) | Hangs

  /** `IndexPanic` is the panic of `Raw()[0]` on a future whose function failed: the own error is not reported. */
  datatype Cause<E> = NilFunction | Errors(errs: seq<E>) | TypePanic | IndexPanic

  /** The errors of the futures, in the order of arrival. */
  function ErrorsOf<V, E>(futures: seq<Future<V, E>>): seq<E> {
    if futures == [] then []
    else
      ErrorsOf(futures[..|futures| - 1]) +
      (match futures[|futures| - 1].err case None => [] case Some(err) => [err])
  }

  /** One error per failed future, in the order of arrival. */
  lemma ErrorsInOrder<V, E>(futures: seq<Future<V, E>>, future: Future<V, E>)
    ensures ErrorsOf<V, E>([]) == []
    ensures future.err.None? ==> ErrorsOf(futures + [future]) == ErrorsOf(futures)
    ensures future.err.Some? ==> ErrorsOf(futures + [future]) == ErrorsOf(futures) + [future.err.value]
  {
    assert (futures + [future])[..|futures|] == futures;
  }

  lemma {:induction false} NoErrors<V, E>(futures: seq<Future<V, E>>)
    ensures ErrorsOf(futures) == [] <==> AllSucceed(futures)
  {
    if futures != [] {
      assert futures == futures[..|futures| - 1] + [futures[|futures| - 1]];
      NoErrors(futures[..|futures| - 1]);
    }
  }

  /**
   * The first output of the function on the values of a future, with the zero value for an invalid one; none if
   * the future has an error, the function panics or it returns nothing.
   */
  function First<V, E>(fn: Function<V, E>, future: Future<V, E>): Option<V>
    requires fn.Func?
  {
    var call := fn.call(future.values);
    if future.err.Some? || call.Panicked? || call.values == [] then None
    else if call.values[0].None? then Some(fn.zero)
    else call.values[0]
  }

  predicate AllSucceed<V, E>(futures: seq<Future<V, E>>) {
    forall i :: 0 <= i < |futures| ==> futures[i].err.None?
  }

  ghost predicate SomePanics<V, E>(fn: Function<V, E>, futures: seq<Future<V, E>>)
    requires fn.Func?
  {
    exists i :: 0 <= i < |futures| && fn.call(futures[i].values).Panicked?
  }

  /** The futures that resolve; `None` is one whose readers block for ever. */
  predicate AllResolve<V, E>(received: seq<Option<Future<V, E>>>) {
    forall i :: 0 <= i < |received| ==> received[i].Some?
  }

  function Values<T>(received: seq<Option<T>>): (r: seq<T>)
    requires forall i :: 0 <= i < |received| ==> received[i].Some?
    ensures |r| == |received| && forall i :: 0 <= i < |r| ==> received[i] == Some(r[i])
  {
    seq(|received|, i requires 0 <= i < |received| => received[i].value)
  }

  /** All futures resolve, and without an error. */
  predicate Sound<V, E>(received: seq<Option<Future<V, E>>>) {
    AllResolve(received) && AllSucceed(Values(received))
  }

  /**
   The list has, in the order of the futures, the first output of every call of the function on the values of a
   future, with the zero value for an invalid one.
   */
  predicate IsListOf<V(==), E>(fn: Function<V, E>, futures: seq<Future<V, E>>, values: seq<V>)
    requires fn.Func?
  {
    && |values| == |futures|
    && forall i :: 0 <= i < |futures| ==>
         var call := fn.call(futures[i].values);
         call.Returned? && call.values != [] && values[i] == if call.values[0].Some? then call.values[0].value else fn.zero
  }

  /** The second loop of `Map`, over the futures of its function. */
  method FirstOutputs<V(!new), E>(fn: Function<V, E>, futures: seq<Future<V, E>>) returns (r: Mapped<V, E>)
    requires WellTyped(fn) && fn.Func? && fn.outputs > 0 && AllSucceed(futures)
    ensures if SomePanics(fn, futures) then r == Failure(IndexPanic)
            else r.List? && IsListOf(fn, futures, r.values)
  {
    var values: seq<V> := [];
    var k := 0;
    while k < |futures|
      invariant k <= |futures| && |values| == k
      invariant forall i :: 0 <= i < k ==>
        var call := fn.call(futures[i].values);
        call.Returned? && call.values != [] && values[i] == if call.values[0].Some? then call.values[0].value else fn.zero
    {
      var raw := Chained(futures[k], fn.call).values;
      if raw == [] {
        return Failure(IndexPanic);
      }
      values := values + [match raw[0] case None => fn.zero case Some(v) => v];
      k := k + 1;
    }
    r := List(values);
  }

  /**
   * The loops of `Map` over the futures that its `Await` hands out, and how many of them it takes from there: all,
   * unless it hangs on one that does not resolve.
   */
  method Map<V(!new), E>(received: seq<Option<Future<V, E>>>, fn: Function<V, E>)
    returns (r: Mapped<V, E>, taken: nat)
    requires WellTyped(fn)
    ensures fn.Nil? ==> r == Failure(NilFunction) && taken == 0
    ensures !fn.Nil? ==>
      && taken <= |received| && (forall i :: 0 <= i < taken - 1 ==> received[i].Some?)
      && (if AllResolve(received) then taken == |received| else taken > 0 && received[taken - 1].None?)
    ensures r == Hangs <==>
            && !fn.Nil?
            && (!AllResolve(received) || (fn.NilFunc? && fn.outputs > 0 && received != [] && Sound(received)))
    ensures !fn.Nil? && AllResolve(received) && !Sound(received) ==> r == Failure(Errors(ErrorsOf(Values(received))))
    ensures !fn.Nil? && received == [] ==> r == NilValue
    ensures fn.NoFunction? && Sound(received) && received != [] ==> r == Failure(TypePanic)
    ensures (fn.Func? || fn.NilFunc?) && Sound(received) && received != [] ==> (r == NoList <==> fn.outputs == 0)
    ensures fn.Func? && Sound(received) && received != [] ==>
      (r == Failure(IndexPanic) <==> fn.outputs > 0 && SomePanics(fn, Values(received)))
    ensures fn.Func? && Sound(received) && received != [] && fn.outputs > 0 && !SomePanics(fn, Values(received)) ==>
      r.List? && IsListOf(fn, Values(received), r.values)
  {
    taken := 0;
    if fn.Nil? {
      return Failure(NilFunction), taken;
    }
    var errs: seq<E> := [];
    var futures: seq<Future<V, E>> := [];
    while taken < |received|
      invariant taken <= |received| && |futures| == taken
      invariant forall i :: 0 <= i < taken ==> received[i] == Some(futures[i])
      invariant errs == ErrorsOf(futures)
    {
      var data := received[taken];
      taken := taken + 1;
      if data.None? {
        return Hangs, taken;
      }
      assert (futures + [data.value])[..|futures|] == futures;
      if data.value.err.Some? {
        errs := errs + [data.value.err.value];
      }
      futures := futures + [data.value];
    }
    assert futures == Values(received);
    NoErrors(futures);
    if errs != [] {
      return Failure(Errors(errs)), taken;
    }
    if futures == [] {
      return NilValue, taken;
    }
    if fn.NoFunction? {
      return Failure(TypePanic), taken;
    }
    if fn.outputs == 0 {
      return NoList, taken;
    }
    if fn.NilFunc? {
      return Hangs, taken;
    }
    r := FirstOutputs(fn, futures);
  }

  /** The future that `Map` makes of a received one, as a future made of futures. */
  function MappedNode<V, E>(fn: Function<V, E>, src: nat, error: E): Node<Option<V>, E> {
    if fn.Func? then Await(src, fn.call) else if fn.Nil? then Given(Outcome([], Some(error))) else Misused(error)
  }

  /**
   * Reading what `Map` makes of a received future blocks for ever if and only if it was given no real function.
   * With a function, it has what the function returns on the values of the future, or the error of the future.
   */
  lemma MappedBlocksIff<V, E>(fn: Function<V, E>, future: Future<V, E>, error: E)
    ensures var g := [Given(future), MappedNode(fn, 0, error)];
            && ValidGraph(g) && (Eval(g, 1).None? <==> fn.NoFunction? || fn.NilFunc?)
            && (fn.Nil? ==> Eval(g, 1) == Some(Outcome([], Some(error))))
            && (fn.Func? && future.err.None? ==> FutureRuns.HoldsCall(Eval(g, 1).value, fn.call(future.values)))
            && (fn.Func? && future.err.Some? ==> Eval(g, 1) == Some(Outcome([], future.err)))
  {
    var g := [Given(future), MappedNode(fn, 0, error)];
    FutureRuns.FutureHolds(g, 0);
    FutureRuns.FutureHolds(g, 1);
  }

  // ------------------------------------------------------- a promise with one consumer, that of Map

  function IsConsumer<T>(t: Promise.Thread<T>): nat {
    if t.Consumer? then 1 else 0
  }

  function MakesConsumer(c: Promise.Call): nat {
    if c.NilMap? then 0 else 1
  }

  /** The consumers there are and will be. */
  function ConsumerCount<T>(s: Promise.State<T>): nat {
    Sum(MakesConsumer, s.calls) + Sum(IsConsumer, s.threads)
  }

  /** Each call makes its consumer, and nothing else does. */
  lemma StepKeepsConsumers<T>(s: Promise.State<T>, a: Promise.Label)
    requires Promise.Inv(s) && Promise.Enabled(s, a)
    ensures ConsumerCount(Promise.Next(s, a)) == ConsumerCount(s)
  {
    hide Promise.Advance, Sum;
    match a
    case RunBody(i) =>
      var e := Promise.Advance(s.threads[i], s.cancelled);
      Promise.AdvanceBalance(s.threads[i], s.cancelled);
      SumUpdate(IsConsumer, s.threads, i, e.body);
      SumConcat(IsConsumer, s.threads[i := e.body], e.started);
      SumOfNone(IsConsumer, e.started);
    case Receive(i, j) =>
      SumUpdate(IsConsumer, s.threads, i, Promise.Sent);
      SumUpdate(IsConsumer, s.threads[i := Promise.Sent], j, s.threads[j].(stage := Promise.Holding(s.threads[i].item)));
    case Consume(j) => SumUpdate(IsConsumer, s.threads, j, Promise.Turn(s.threads[j]));
    case CallAwait =>
      var us: seq<Promise.Thread<T>> := Promise.Consumers(s.calls[0]);
      if us == [] {
        SumOfNone(IsConsumer, us);
      } else {
        SumOfOne(IsConsumer, us[0]);
      }
      SumConcat(IsConsumer, s.threads, us);
      SumOfOne(MakesConsumer, s.calls[0]);
      SumConcat(MakesConsumer, [s.calls[0]], s.calls[1..]);
      assert s.calls == [s.calls[0]] + s.calls[1..];
    case RunCloser(_) =>
  }

  lemma {:induction false} RunKeepsConsumers<T>(s: Promise.State<T>, run: seq<Promise.Label>, s': Promise.State<T>)
    requires Promise.Inv(s) && Promise.Runs(s, run, s')
    ensures ConsumerCount(s') == ConsumerCount(s)
    decreases |run|
  {
    if run != [] {
      StepKeepsConsumers(s, run[0]);
      Promise.StepKeepsInv(s, run[0]);
      RunKeepsConsumers(Promise.Next(s, run[0]), run[1..], s');
    }
  }

  lemma {:induction false} NoOutput<T>(ts: seq<Promise.Thread<T>>)
    requires Sum(IsConsumer, ts) == 0
    ensures Union(PromiseRuns.Output, ts) == multiset{}
  {
    forall i | 0 <= i < |ts| ensures PromiseRuns.Output(ts[i]) == multiset{} {
      SumCovers(IsConsumer, ts, i);
    }
    UnionOfNone(PromiseRuns.Output, ts);
  }

  /** The output of the only consumer. */
  lemma {:induction false} OnlyOutput<T>(ts: seq<Promise.Thread<T>>) returns (output: seq<T>)
    requires Sum(IsConsumer, ts) == 1
    ensures exists i :: 0 <= i < |ts| && ts[i].Consumer? && ts[i].output == output
    ensures Union(PromiseRuns.Output, ts) == multiset(output)
  {
    var last := |ts| - 1;
    if ts[last].Consumer? {
      NoOutput(ts[..last]);
      output := ts[last].output;
    } else {
      output := OnlyOutput(ts[..last]);
    }
  }

  /**
   * `Map` as the only consumer of a promise receives every accepted future once, so the values of its function
   * are those of the accepted futures, in the order of arrival.
   */
  lemma MapDeliversAll<V, E>(script: seq<Promise.Stmt<Future<V, E>>>, run: seq<Promise.Label>,
                             s: Promise.State<Future<V, E>>, accepted: seq<Future<V, E>>, fn: Function<V, E>)
    returns (received: seq<Future<V, E>>)
    requires Promise.Runs(Promise.Start(script, [Promise.Drained]), run, s) && PromiseRuns.Complete(s)
    requires multiset(accepted) == s.accepted && fn.Func?
    ensures exists i :: 0 <= i < |s.threads| && s.threads[i].Consumer? && s.threads[i].output == received
    ensures multiset(received) == s.accepted
    ensures multiset(Firsts(fn, received)) == multiset(Firsts(fn, accepted))
    ensures forall values: seq<V> :: AllSucceed(received) && IsListOf(fn, received, values) ==>
              multiset(Permutations.Map(v => Some(v), values)) == multiset(Firsts(fn, accepted))
  {
    var start := Promise.Start(script, [Promise.Drained]);
    Promise.StartInv(script, [Promise.Drained]);
    SumOfOne(IsConsumer, start.threads[0]);
    SumOfOne(MakesConsumer, Promise.Drained);
    SumOfNone(MakesConsumer, []);
    RunKeepsConsumers(start, run, s);
    PromiseRuns.PromiseDelivers(script, [Promise.Drained], run, s);
    received := OnlyOutput(s.threads);
    Permutations.MapReordered(f => First(fn, f), received, accepted);
    forall values: seq<V> | AllSucceed(received) && IsListOf(fn, received, values)
      ensures Permutations.Map(v => Some(v), values) == Firsts(fn, received)
    {
      ListIsFirsts(fn, received, values);
    }
  }

  lemma ListIsFirsts<V, E>(fn: Function<V, E>, futures: seq<Future<V, E>>, values: seq<V>)
    requires fn.Func? && AllSucceed(futures) && IsListOf(fn, futures, values)
    ensures Permutations.Map(v => Some(v), values) == Firsts(fn, futures)
  {
    forall i | 0 <= i < |futures| ensures First(fn, futures[i]) == Some(values[i]) {
      assert futures[i].err.None?;
    }
  }

  ghost function Firsts<V, E>(fn: Function<V, E>, futures: seq<Future<V, E>>): seq<Option<V>>
    requires fn.Func?
  {
    Permutations.Map(f => First(fn, f), futures)
  }
}
