/**
 * Futures: cells that `Async` and `Await` fill from goroutines of their own, chained into graphs, and read by any
 * number of goroutines, all interleaved one step at a time.
 */
module Futures {
  import opened Wrappers
  import opened Sums

  /** What calling a function makes: it returns or it panics. */
  datatype Call<V, E> = Returned(values: seq<V>) | Panicked(error: E)

  /** What reading a future makes: `Raw` and `Err`. */
  datatype Outcome<V, E> = Outcome(values: seq<V>, err: Option<E>)

  /**
   * A future by the way it was made. `Given` has no `valFn`: a value that was yielded as it is, or a call of
   * `Async` or `Await` that fails at once. `Misused` is a call of `Await` with something that is no function, which
   * fails after it has installed `valFn`. An `Await` can only be made of a future that is there already.
   */
  datatype Node<!V, E> =
    | Given(outcome: Outcome<V, E>)
    | Async(call: Call<V, E>)
    | Await(src: nat, fn: seq<V> -> Call<V, E>)
    | Misused(error: E)

  type Graph<!V, E> = seq<Node<V, E>>

  ghost predicate ValidGraph<V, E>(g: Graph<V, E>) {
    forall i :: 0 <= i < |g| && g[i].Await? ==> g[i].src < i
  }

  function FromCall<V, E>(call: Call<V, E>): Outcome<V, E> {
    match call
    case Returned(values) => Outcome(values, None)
    case Panicked(error) => Outcome([], Some(error))
  }

  /** What one stage of a chain makes of the outcome of the stage before. */
  function Chained<V, E>(before: Outcome<V, E>, fn: seq<V> -> Call<V, E>): Outcome<V, E> {
    if before.err.Some? then Outcome([], before.err) else FromCall(fn(before.values))
  }

  /** The meaning of a future: its chain, folded sequentially; `None` if reading it blocks for ever. */
  ghost function Eval<V, E>(g: Graph<V, E>, i: nat): Option<Outcome<V, E>>
    requires ValidGraph(g) && i < |g|
    decreases i
  {
    match g[i]
    case Given(outcome) => Some(outcome)
    case Async(call) => Some(FromCall(call))
    case Await(src, fn) =>
      (match Eval(g, src) case None => None case Some(before) => Some(Chained(before, fn)))
    case Misused(_) => None
  }

  // --------------------------------------------------------------------------------------- state

  /** A goroutine that reads futures: the one of an `Await`, or one outside. */
  datatype Who = Worker(i: nat) | Reader(j: nat)

  datatype Once = NotStarted | InProgress(who: Who) | Done

  /** A `futureValue` and its channel of capacity one, with a count of sends, receives and calls of its function. */
  datatype Cell<V, E> = Cell(once: Once, channel: Option<seq<V>>, values: seq<V>, err: Option<E>,
                             sends: nat, receives: nat, calls: nat)

  /**
   * Where a goroutine is: before `done.Do`, in it, after it; with what it has read; about to set the error, about
   * to send, at its end.
   */
  datatype Stage<V, E> =
    | Wanting | Owning | Past | Seen(seen: Outcome<V, E>) | Erring(error: E) | Sending(values: seq<V>) | Over

  datatype State<V, E> = State(cells: seq<Cell<V, E>>, workers: seq<Stage<V, E>>, readers: seq<Stage<V, E>>)

  /** The futures that the goroutines outside read. */
  type Targets = seq<nat>

  predicate Sized<V, E>(g: Graph<V, E>, ts: Targets, s: State<V, E>) {
    && |s.cells| == |s.workers| == |g| && |s.readers| == |ts|
    && forall j :: 0 <= j < |ts| ==> ts[j] < |g|
  }

  predicate Exists<V, E>(s: State<V, E>, who: Who) {
    match who case Worker(i) => i < |s.workers| case Reader(j) => j < |s.readers|
  }

  function StageOf<V, E>(s: State<V, E>, who: Who): Stage<V, E>
    requires Exists(s, who)
  {
    match who case Worker(i) => s.workers[i] case Reader(j) => s.readers[j]
  }

  function SetStage<V, E>(s: State<V, E>, who: Who, stage: Stage<V, E>): State<V, E>
    requires Exists(s, who)
  {
    match who
    case Worker(i) => s.(workers := s.workers[i := stage])
    case Reader(j) => s.(readers := s.readers[j := stage])
  }

  /** The future a goroutine reads. */
  predicate Reads<V, E>(g: Graph<V, E>, ts: Targets, who: Who) {
    match who case Worker(i) => i < |g| && g[i].Await? && g[i].src < |g| case Reader(j) => j < |ts| && ts[j] < |g|
  }

  function Target<V, E>(g: Graph<V, E>, ts: Targets, who: Who): (i: nat)
    requires Reads(g, ts, who)
    ensures i < |g|
  {
    match who case Worker(i) => g[i].src case Reader(j) => ts[j]
  }

  function StartCell<V, E>(node: Node<V, E>): Cell<V, E> {
    var (values, err) :=
      if node.Given? then (node.outcome.values, node.outcome.err)
      else ([], if node.Misused? then Some(node.error) else None);
    Cell(NotStarted, None, values, err, 0, 0, 0)
  }

  function StartWorker<V, E>(node: Node<V, E>): Stage<V, E> {
    match node
    case Async(_) => Seen(Outcome([], None))
    case Await(_, _) => Wanting
    case _ => Over
  }

  function Start<V, E>(g: Graph<V, E>, ts: Targets): State<V, E> {
    State(seq(|g|, i requires 0 <= i < |g| => StartCell(g[i])),
          seq(|g|, i requires 0 <= i < |g| => StartWorker(g[i])),
          seq(|ts|, i => Wanting))
  }

  // --------------------------------------------------------------------------------------- steps

  predicate Reading<V, E>(stage: Stage<V, E>) {
    stage.Wanting? || stage.Owning? || stage.Past?
  }

  /** `getVal` and the reading of `err`: blocked while another goroutine is in `done.Do`, or nothing was sent. */
  predicate CanRead<V, E>(node: Node<V, E>, cell: Cell<V, E>, stage: Stage<V, E>) {
    match stage
    case Wanting => !cell.once.InProgress?
    case Owning => node.Given? || cell.channel.Some?
    case Past => true
    case _ => false
  }

  function ReadCell<V, E>(node: Node<V, E>, cell: Cell<V, E>, stage: Stage<V, E>, who: Who): (Cell<V, E>, Stage<V, E>)
    requires CanRead(node, cell, stage)
  {
    match stage
    case Wanting => if cell.once.Done? then (cell, Past) else (cell.(once := InProgress(who)), Owning)
    case Owning =>
      if node.Given? then (cell.(once := Done), Past)
      else (cell.(once := Done, values := cell.channel.value, channel := None, receives := cell.receives + 1), Past)
    case Past => (cell, Seen(Outcome(cell.values, cell.err)))
  }

  /** What a goroutine of `Async` or `Await` does once it has its arguments. */
  function Work<V, E>(node: Node<V, E>, cell: Cell<V, E>, stage: Stage<V, E>): (Cell<V, E>, Stage<V, E>)
    requires node.Async? || node.Await?
    requires !Reading(stage) && !stage.Over?
  {
    match stage
    case Seen(before) =>
      if before.err.Some? then (cell, Erring(before.err.value))
      else
        (match (if node.Async? then node.call else node.fn(before.values))
         case Returned(values) => (cell.(calls := cell.calls + 1), Sending(values))
         case Panicked(error) => (cell.(calls := cell.calls + 1), Erring(error)))
    case Erring(error) => (cell.(err := Some(error)), Sending([]))
    case Sending(values) => (cell.(channel := Some(values), sends := cell.sends + 1), Over)
  }

  predicate Enabled<V, E>(g: Graph<V, E>, ts: Targets, s: State<V, E>, who: Who)
    requires Sized(g, ts, s)
  {
    && Exists(s, who)
    && var stage := StageOf(s, who);
       if Reading(stage) then
         Reads(g, ts, who) && var i := Target(g, ts, who); CanRead(g[i], s.cells[i], stage)
       else
         && who.Worker? && !stage.Over? && (g[who.i].Async? || g[who.i].Await?)
         && (stage.Sending? ==> s.cells[who.i].channel.None?)
  }

  function Next<V, E>(g: Graph<V, E>, ts: Targets, s: State<V, E>, who: Who): State<V, E>
    requires Sized(g, ts, s) && Enabled(g, ts, s, who)
  {
    var stage := StageOf(s, who);
    var i := if Reading(stage) then Target(g, ts, who) else who.i;
    var (cell, stage') :=
      if Reading(stage) then ReadCell(g[i], s.cells[i], stage, who) else Work(g[i], s.cells[i], stage);
    SetStage(s.(cells := s.cells[i := cell]), who, stage')
  }

  ghost predicate Runs<V, E>(g: Graph<V, E>, ts: Targets, s: State<V, E>, run: seq<Who>, s': State<V, E>)
    requires Sized(g, ts, s)
    decreases |run|
  {
    if run == [] then s' == s
    else Enabled(g, ts, s, run[0]) && Runs(g, ts, Next(g, ts, s, run[0]), run[1..], s')
  }

  // ----------------------------------------------------------------------------------- invariant

  /** The function of the future is called: nothing fails before it. */
  ghost predicate CallsFn<V, E>(g: Graph<V, E>, i: nat)
    requires ValidGraph(g) && i < |g|
  {
    g[i].Async? || (g[i].Await? && Eval(g, g[i].src).Some? && Eval(g, g[i].src).value.err.None?)
  }

  /** A future and the goroutine that fills it. */
  ghost predicate CellRight<V, E>(g: Graph<V, E>, i: nat, cell: Cell<V, E>, stage: Stage<V, E>)
    requires ValidGraph(g) && i < |g|
  {
    var launched := g[i].Async? || g[i].Await?;
    var result := Eval(g, i);
    && cell.sends == (if launched && stage.Over? then 1 else 0)
    && cell.receives <= cell.sends
    && (cell.channel.Some? <==> cell.receives < cell.sends)
    && (!g[i].Given? ==> (cell.once.Done? <==> cell.receives == 1))
    && (launched && (stage.Sending? || stage.Over?) ==> result.Some? && cell.err == result.value.err)
    && (launched && !stage.Sending? && !stage.Over? ==> cell.err == None)
    && (!launched ==> stage.Over? && cell.err == StartCell(g[i]).err)
    && (cell.channel.Some? ==> cell.channel.value == result.value.values)
    && cell.values == (if cell.receives == 1 then result.value.values else StartCell(g[i]).values)
    && (stage.Sending? ==> result.value.values == stage.values)
    && (stage.Erring? ==> result == Some(Outcome([], Some(stage.error))))
    && cell.calls == (if CallsFn(g, i) && (stage.Erring? || stage.Sending? || stage.Over?) then 1 else 0)
    && (g[i].Async? && !stage.Erring? && !stage.Sending? && !stage.Over? ==> stage == Seen(Outcome([], None)))
  }

  /** A goroutine and the future it reads. */
  ghost predicate ReaderRight<V, E>(g: Graph<V, E>, i: nat, cell: Cell<V, E>, stage: Stage<V, E>, who: Who)
    requires ValidGraph(g) && i < |g|
  {
    && (stage.Owning? ==> cell.once == InProgress(who))
    && (stage.Past? ==> cell.once.Done?)
    && (stage.Seen? ==> Eval(g, i) == Some(stage.seen))
    && (who.Reader? ==> Reading(stage) || stage.Seen?)
  }

  ghost predicate OwnerRight<V, E>(g: Graph<V, E>, ts: Targets, s: State<V, E>, i: nat)
    requires Sized(g, ts, s) && i < |g|
  {
    s.cells[i].once.InProgress? ==>
      var who := s.cells[i].once.who;
      Exists(s, who) && Reads(g, ts, who) && Target(g, ts, who) == i && StageOf(s, who).Owning?
  }

  ghost predicate Inv<V, E>(g: Graph<V, E>, ts: Targets, s: State<V, E>) {
    && ValidGraph(g) && Sized(g, ts, s)
    && (forall i :: 0 <= i < |g| ==> CellRight(g, i, s.cells[i], s.workers[i]) && OwnerRight(g, ts, s, i))
    && (forall who :: Exists(s, who) && Reads(g, ts, who) ==>
          ReaderRight(g, Target(g, ts, who), s.cells[Target(g, ts, who)], StageOf(s, who), who))
  }

  lemma StartInv<V, E>(g: Graph<V, E>, ts: Targets)
    requires ValidGraph(g) && forall j :: 0 <= j < |ts| ==> ts[j] < |g|
    ensures Inv(g, ts, Start(g, ts))
  {}

  /** Reading a cell keeps it right, and the reader with it. */
  lemma ReadKeepsCell<V, E>(g: Graph<V, E>, i: nat, cell: Cell<V, E>, worker: Stage<V, E>, stage: Stage<V, E>, who: Who)
    requires ValidGraph(g) && i < |g| && CellRight(g, i, cell, worker) && ReaderRight(g, i, cell, stage, who)
    requires Reading(stage) && CanRead(g[i], cell, stage)
    ensures var (cell', stage') := ReadCell(g[i], cell, stage, who);
            && CellRight(g, i, cell', worker) && ReaderRight(g, i, cell', stage', who)
            && (cell.once.Done? ==> cell'.once.Done?)
            && (cell'.once.InProgress? ==> cell'.once.who == who && stage'.Owning?)
            && cell'.err == cell.err && cell'.calls == cell.calls
  {}

  /** A reading goroutine of an `Await` does not change what holds of its own future. */
  lemma ReadKeepsOwnCell<V, E>(g: Graph<V, E>, i: nat, cell: Cell<V, E>, stage: Stage<V, E>, stage': Stage<V, E>)
    requires ValidGraph(g) && i < |g| && g[i].Await? && CellRight(g, i, cell, stage)
    requires Reading(stage) && (Reading(stage') || stage'.Seen?)
    ensures CellRight(g, i, cell, stage')
  {}

  lemma ReadKeepsCells<V, E>(g: Graph<V, E>, ts: Targets, s: State<V, E>, who: Who, i: nat)
    requires Inv(g, ts, s) && Enabled(g, ts, s, who) && Reading(StageOf(s, who)) && i < |g|
    ensures var s' := Next(g, ts, s, who); CellRight(g, i, s'.cells[i], s'.workers[i])
  {
    hide CellRight, ReadCell, ReaderRight;
    var t, stage := Target(g, ts, who), StageOf(s, who);
    ReadKeepsCell(g, t, s.cells[t], s.workers[t], stage, who);
    var (cell, stage') := ReadCell(g[t], s.cells[t], stage, who);
    ReadResult(g[t], s.cells[t], stage, who);
    if who.Worker? && i == who.i {
      ReadKeepsOwnCell(g, i, s.cells[i], stage, stage');
    }
  }

  lemma ReadResult<V, E>(node: Node<V, E>, cell: Cell<V, E>, stage: Stage<V, E>, who: Who)
    requires CanRead(node, cell, stage)
    ensures var (_, stage') := ReadCell(node, cell, stage, who);
            Reading(stage') || stage'.Seen?
  {}

  lemma ReadKeepsReaders<V, E>(g: Graph<V, E>, ts: Targets, s: State<V, E>, who: Who, who': Who)
    requires Inv(g, ts, s) && Enabled(g, ts, s, who) && Reading(StageOf(s, who))
    requires Exists(s, who') && Reads(g, ts, who')
    ensures var s', i := Next(g, ts, s, who), Target(g, ts, who');
            Exists(s', who') && ReaderRight(g, i, s'.cells[i], StageOf(s', who'), who')
  {
    hide CellRight, ReadCell;
    var t, stage := Target(g, ts, who), StageOf(s, who);
    ReadKeepsCell(g, t, s.cells[t], s.workers[t], stage, who);
    ReadTurns(g[t], s.cells[t], stage, who);
    var i := Target(g, ts, who');
    assert ReaderRight(g, i, s.cells[i], StageOf(s, who'), who');
  }

  /** Only the owner of the `Once` changes it when it is taken. */
  lemma ReadTurns<V, E>(node: Node<V, E>, cell: Cell<V, E>, stage: Stage<V, E>, who: Who)
    requires CanRead(node, cell, stage)
    ensures var (cell', _) := ReadCell(node, cell, stage, who);
            cell.once.InProgress? && !stage.Owning? ==> cell'.once == cell.once
  {}

  lemma ReadKeepsOwners<V, E>(g: Graph<V, E>, ts: Targets, s: State<V, E>, who: Who, i: nat)
    requires Inv(g, ts, s) && Enabled(g, ts, s, who) && Reading(StageOf(s, who)) && i < |g|
    ensures Sized(g, ts, Next(g, ts, s, who)) && OwnerRight(g, ts, Next(g, ts, s, who), i)
  {
    hide CellRight, ReadCell;
    var t, stage := Target(g, ts, who), StageOf(s, who);
    ReadKeepsCell(g, t, s.cells[t], s.workers[t], stage, who);
    assert OwnerRight(g, ts, s, i);
    assert ReaderRight(g, t, s.cells[t], stage, who);
  }

  lemma WorkKeepsCell<V, E>(g: Graph<V, E>, i: nat, cell: Cell<V, E>, stage: Stage<V, E>)
    requires ValidGraph(g) && i < |g| && CellRight(g, i, cell, stage) && (g[i].Async? || g[i].Await?)
    requires !Reading(stage) && !stage.Over? && (stage.Sending? ==> cell.channel.None?)
    requires g[i].Await? && stage.Seen? ==> Eval(g, g[i].src) == Some(stage.seen)
    ensures var (cell', stage') := Work(g[i], cell, stage);
            && CellRight(g, i, cell', stage') && cell'.once == cell.once
            && (stage'.Erring? || stage'.Sending? || stage'.Over?)
  {}

  lemma WorkKeepsInv<V, E>(g: Graph<V, E>, ts: Targets, s: State<V, E>, who: Who)
    requires Inv(g, ts, s) && Enabled(g, ts, s, who) && !Reading(StageOf(s, who))
    ensures Inv(g, ts, Next(g, ts, s, who))
  {
    hide CellRight, Work;
    var i, s' := who.i, Next(g, ts, s, who);
    var stage := s.workers[i];
    if g[i].Await? {
      assert ReaderRight(g, g[i].src, s.cells[g[i].src], StageOf(s, who), who);
    }
    WorkKeepsCell(g, i, s.cells[i], stage);
    forall k | 0 <= k < |g| ensures OwnerRight(g, ts, s', k) {
      assert OwnerRight(g, ts, s, k);
    }
    forall w | Exists(s', w) && Reads(g, ts, w)
      ensures ReaderRight(g, Target(g, ts, w), s'.cells[Target(g, ts, w)], StageOf(s', w), w)
    {
      assert Exists(s, w);
      assert ReaderRight(g, Target(g, ts, w), s.cells[Target(g, ts, w)], StageOf(s, w), w);
    }
  }

  lemma StepKeepsInv<V, E>(g: Graph<V, E>, ts: Targets, s: State<V, E>, who: Who)
    requires Inv(g, ts, s) && Enabled(g, ts, s, who)
    ensures Inv(g, ts, Next(g, ts, s, who))
  {
    if Reading(StageOf(s, who)) {
      var s' := Next(g, ts, s, who);
      forall i | 0 <= i < |g| ensures CellRight(g, i, s'.cells[i], s'.workers[i]) && OwnerRight(g, ts, s', i) {
        ReadKeepsCells(g, ts, s, who, i);
        ReadKeepsOwners(g, ts, s, who, i);
      }
      forall w | Exists(s', w) && Reads(g, ts, w)
        ensures ReaderRight(g, Target(g, ts, w), s'.cells[Target(g, ts, w)], StageOf(s', w), w)
      {
        ReadKeepsReaders(g, ts, s, who, w);
      }
    } else {
      WorkKeepsInv(g, ts, s, who);
    }
  }

  lemma {:induction false} RunKeepsInv<V, E>(g: Graph<V, E>, ts: Targets, s: State<V, E>, run: seq<Who>, s': State<V, E>)
    requires Inv(g, ts, s) && Runs(g, ts, s, run, s')
    ensures Inv(g, ts, s')
    decreases |run|
  {
    if run != [] {
      StepKeepsInv(g, ts, s, run[0]);
      RunKeepsInv(g, ts, Next(g, ts, s, run[0]), run[1..], s');
    }
  }
}
