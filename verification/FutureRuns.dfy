/** Whole runs of a graph of futures: they end, and all end with the same results. */
module FutureRuns {
  import opened Wrappers
  import opened Sums
  import opened Futures

  // ---------------------------------------------------------------------------- runs are finite

  function Size<V, E>(stage: Stage<V, E>): nat {
    match stage
    case Wanting => 6
    case Owning => 5
    case Past => 4
    case Seen(_) => 3
    case Erring(_) => 2
    case Sending(_) => 1
    case Over => 0
  }

  function Measure<V, E>(s: State<V, E>): nat {
    Sum(Size, s.workers) + Sum(Size, s.readers)
  }

  lemma StepFalls<V, E>(g: Graph<V, E>, ts: Targets, s: State<V, E>, who: Who)
    requires Sized(g, ts, s) && Enabled(g, ts, s, who)
    ensures Measure(Next(g, ts, s, who)) < Measure(s)
  {
    hide Sum;
    var stage := StageOf(Next(g, ts, s, who), who);
    match who
    case Worker(i) => SumUpdate(Size, s.workers, i, stage);
    case Reader(j) => SumUpdate(Size, s.readers, j, stage);
  }

  /** A run has no more steps than the measure of its first state. */
  lemma {:induction false} RunsEnd<V, E>(g: Graph<V, E>, ts: Targets, s: State<V, E>, run: seq<Who>, s': State<V, E>)
    requires Sized(g, ts, s) && Runs(g, ts, s, run, s')
    ensures |run| + Measure(s') <= Measure(s)
    decreases |run|
  {
    if run != [] {
      StepFalls(g, ts, s, run[0]);
      RunsEnd(g, ts, Next(g, ts, s, run[0]), run[1..], s');
    }
  }

  // --------------------------------------------------------------------------- runs end with Eval

  ghost predicate Stuck<V, E>(g: Graph<V, E>, ts: Targets, s: State<V, E>)
    requires Sized(g, ts, s)
  {
    forall who :: !Enabled(g, ts, s, who)
  }

  /** The goroutine that fills a future has ended. */
  predicate Resolved<V, E>(s: State<V, E>, i: nat)
    requires i < |s.workers|
  {
    s.workers[i].Over?
  }

  lemma OwnerCanRead<V, E>(g: Graph<V, E>, ts: Targets, s: State<V, E>, i: nat)
    requires Inv(g, ts, s) && i < |g| && s.cells[i].once.InProgress? && Resolved(s, i) && Eval(g, i).Some?
    ensures Enabled(g, ts, s, s.cells[i].once.who)
  {
    assert CellRight(g, i, s.cells[i], s.workers[i]) && OwnerRight(g, ts, s, i);
  }

  /** Nobody is left waiting for a future that is filled. */
  lemma NobodyWaits<V, E>(g: Graph<V, E>, ts: Targets, s: State<V, E>, who: Who)
    requires Inv(g, ts, s) && Stuck(g, ts, s) && Exists(s, who) && Reads(g, ts, who)
    requires var i := Target(g, ts, who); Resolved(s, i) && Eval(g, i).Some?
    ensures !Reading(StageOf(s, who))
  {
    var i := Target(g, ts, who);
    assert CellRight(g, i, s.cells[i], s.workers[i]) && OwnerRight(g, ts, s, i);
    assert ReaderRight(g, i, s.cells[i], StageOf(s, who), who);
    assert !Enabled(g, ts, s, who);
    if s.cells[i].once.InProgress? {
      OwnerCanRead(g, ts, s, i);
    }
  }

  /** A future whose chain resolves is filled. */
  lemma {:induction false} ChainResolves<V, E>(g: Graph<V, E>, ts: Targets, s: State<V, E>, i: nat)
    requires Inv(g, ts, s) && Stuck(g, ts, s) && i < |g| && Eval(g, i).Some?
    ensures Resolved(s, i)
    decreases i
  {
    assert CellRight(g, i, s.cells[i], s.workers[i]);
    assert !Enabled(g, ts, s, Worker(i));
    if g[i].Await? {
      ChainResolves(g, ts, s, g[i].src);
      NobodyWaits(g, ts, s, Worker(i));
    }
  }

  /** The future has a goroutine that fills it. */
  predicate IsLaunched<V, E>(node: Node<V, E>) {
    node.Async? || node.Await?
  }

  /**
   * Every reader has the meaning of its future, or waits for ever if it has none; the right functions ran; every
   * launched future with a meaning was filled by exactly one send, with its final error.
   */
  ghost predicate Settled<V, E>(g: Graph<V, E>, ts: Targets, s: State<V, E>)
    requires ValidGraph(g) && Sized(g, ts, s)
  {
    && (forall j :: 0 <= j < |ts| ==>
          if Eval(g, ts[j]).Some? then s.readers[j] == Seen(Eval(g, ts[j]).value) else Reading(s.readers[j]))
    && (forall i :: 0 <= i < |g| ==> s.cells[i].calls == if CallsFn(g, i) then 1 else 0)
    && (forall i :: 0 <= i < |g| ==> s.cells[i].sends == if IsLaunched(g[i]) && Eval(g, i).Some? then 1 else 0)
    && (forall i :: 0 <= i < |g| && Eval(g, i).Some? ==> s.cells[i].err == Eval(g, i).value.err)
  }

  lemma EndsWithEval<V, E>(g: Graph<V, E>, ts: Targets, s: State<V, E>)
    requires Inv(g, ts, s) && Stuck(g, ts, s)
    ensures Settled(g, ts, s)
  {
    forall j | 0 <= j < |ts|
      ensures if Eval(g, ts[j]).Some? then s.readers[j] == Seen(Eval(g, ts[j]).value) else Reading(s.readers[j])
    {
      assert ReaderRight(g, ts[j], s.cells[ts[j]], StageOf(s, Reader(j)), Reader(j));
      if Eval(g, ts[j]).Some? {
        ChainResolves(g, ts, s, ts[j]);
        NobodyWaits(g, ts, s, Reader(j));
      }
    }
    forall i | 0 <= i < |g|
      ensures s.cells[i].calls == if CallsFn(g, i) then 1 else 0
      ensures s.cells[i].sends == if IsLaunched(g[i]) && Eval(g, i).Some? then 1 else 0
      ensures Eval(g, i).Some? ==> s.cells[i].err == Eval(g, i).value.err
    {
      assert CellRight(g, i, s.cells[i], s.workers[i]);
      if Eval(g, i).Some? {
        ChainResolves(g, ts, s, i);
      }
    }
  }

  // ------------------------------------------------------------------------- what a future holds

  /** A future holds what its function returned, whole and in order, or nothing and the error of its panic. */
  predicate HoldsCall<V(==), E(==)>(outcome: Outcome<V, E>, call: Call<V, E>) {
    match call
    case Returned(values) => outcome.values == values && outcome.err == None
    case Panicked(error) => outcome.values == [] && outcome.err == Some(error)
  }

  /**
   * The sequential meaning, by the way the future was made: a given one is what it is; `Async` holds the call of
   * its function; `Await` holds the call of its function on the values of the future before, or the error of that
   * future and no values.
   */
  lemma FutureHolds<V, E>(g: Graph<V, E>, i: nat)
    requires ValidGraph(g) && i < |g|
    ensures g[i].Given? ==> Eval(g, i) == Some(g[i].outcome)
    ensures g[i].Async? ==> Eval(g, i).Some? && HoldsCall(Eval(g, i).value, g[i].call)
    ensures g[i].Misused? ==> Eval(g, i).None?
    ensures g[i].Await? && Eval(g, g[i].src).None? ==> Eval(g, i).None?
    ensures g[i].Await? && Eval(g, g[i].src).Some? && Eval(g, g[i].src).value.err.None? ==>
              Eval(g, i).Some? && HoldsCall(Eval(g, i).value, g[i].fn(Eval(g, g[i].src).value.values))
    ensures g[i].Await? && Eval(g, g[i].src).Some? && Eval(g, g[i].src).value.err.Some? ==>
              Eval(g, i) == Some(Outcome([], Eval(g, g[i].src).value.err))
  {}

  /** Whoever has read a future of `Async` has what its function returned, or the error of its panic. */
  lemma AsyncIsRead<V, E>(g: Graph<V, E>, ts: Targets, run: seq<Who>, s: State<V, E>, j: nat)
    requires ValidTargets(g, ts) && Runs(g, ts, Start(g, ts), run, s) && j < |ts| && g[ts[j]].Async?
    ensures Sized(g, ts, s)
    ensures s.readers[j].Seen? ==> HoldsCall(s.readers[j].seen, g[ts[j]].call)
  {
    ReadersAgree(g, ts, run, s, j);
    FutureHolds(g, ts[j]);
  }

  // ------------------------------------------------------------------------------------- results

  ghost predicate ValidTargets<V, E>(g: Graph<V, E>, ts: Targets) {
    ValidGraph(g) && forall j :: 0 <= j < |ts| ==> ts[j] < |g|
  }

  lemma InvSized<V, E>(g: Graph<V, E>, ts: Targets, s: State<V, E>)
    requires Inv(g, ts, s)
    ensures Sized(g, ts, s)
  {}

  /** A future is sent and received at most once, and its function is called at most once. */
  lemma SingleAssignment<V, E>(g: Graph<V, E>, ts: Targets, run: seq<Who>, s: State<V, E>, i: nat)
    requires ValidTargets(g, ts) && Runs(g, ts, Start(g, ts), run, s) && i < |g|
    ensures Sized(g, ts, s)
    ensures s.cells[i].receives <= s.cells[i].sends <= 1 && s.cells[i].calls <= 1
    ensures s.cells[i].sends == 1 ==> Eval(g, i).Some? && s.cells[i].err == Eval(g, i).value.err
    ensures s.cells[i].receives == 1 ==> Outcome(s.cells[i].values, s.cells[i].err) == Eval(g, i).value
  {
    StartInv(g, ts);
    RunKeepsInv(g, ts, Start(g, ts), run, s);
    assert CellRight(g, i, s.cells[i], s.workers[i]);
  }

  /** Whatever a goroutine has read of a future is the sequential meaning of that future. */
  lemma ReadersAgree<V, E>(g: Graph<V, E>, ts: Targets, run: seq<Who>, s: State<V, E>, j: nat)
    requires ValidTargets(g, ts) && Runs(g, ts, Start(g, ts), run, s) && j < |ts|
    ensures Sized(g, ts, s)
    ensures s.readers[j].Seen? ==> Eval(g, ts[j]) == Some(s.readers[j].seen)
  {
    StartInv(g, ts);
    RunKeepsInv(g, ts, Start(g, ts), run, s);
    assert ReaderRight(g, ts[j], s.cells[ts[j]], StageOf(s, Reader(j)), Reader(j));
  }

  /**
   * Confluence: every interleaving ends, and in the end every reader has the sequential meaning of its future,
   * or waits for ever if it has none; a function was called if and only if nothing failed before it.
   */
  lemma Confluent<V, E>(g: Graph<V, E>, ts: Targets, run: seq<Who>, s: State<V, E>)
    requires ValidTargets(g, ts) && Runs(g, ts, Start(g, ts), run, s)
    ensures |run| <= Measure(Start(g, ts))
    ensures Sized(g, ts, s)
    ensures Stuck(g, ts, s) ==> Settled(g, ts, s)
  {
    hide Start, Inv, Stuck, Measure, Settled, Runs;
    StartInv(g, ts);
    InvSized(g, ts, Start(g, ts));
    RunsEnd(g, ts, Start(g, ts), run, s);
    RunKeepsInv(g, ts, Start(g, ts), run, s);
    InvSized(g, ts, s);
    if Stuck(g, ts, s) {
      EndsWithEval(g, ts, s);
    }
  }

  /** `i` depends on `k`: a chain of `Await` leads from `k` to `i`. */
  predicate Follows<V, E>(g: Graph<V, E>, i: nat, k: nat)
    decreases i
  {
    i == k || (i < |g| && g[i].Await? && g[i].src < i && Follows(g, g[i].src, k))
  }

  /** The error of a stage reaches every later stage, and none of the functions in between is called. */
  lemma {:induction false} FirstErrorWins<V, E>(g: Graph<V, E>, i: nat, k: nat)
    requires ValidGraph(g) && i < |g| && k < |g| && Follows(g, i, k)
    requires Eval(g, k).Some? && Eval(g, k).value.err.Some?
    ensures Eval(g, i).Some? && Eval(g, i).value.err == Eval(g, k).value.err
    ensures i != k ==> !CallsFn(g, i) && Eval(g, i).value.values == []
    decreases i
  {
    if i != k {
      FirstErrorWins(g, g[i].src, k);
    }
  }

  /** A future has a result if and only if no `Await` in its chain was given something that is no function. */
  lemma {:induction false} ResolvesIffChainIsSound<V, E>(g: Graph<V, E>, i: nat)
    requires ValidGraph(g) && i < |g|
    ensures Eval(g, i).Some? <==> forall k :: 0 <= k < |g| && Follows(g, i, k) ==> !g[k].Misused?
    decreases i
  {
    assert Follows(g, i, i);
    if g[i].Await? {
      var src := g[i].src;
      ResolvesIffChainIsSound(g, src);
      forall k | 0 <= k < |g| ensures Follows(g, i, k) <==> k == i || Follows(g, src, k) {}
    }
  }
}
