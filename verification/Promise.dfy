/**
 * The promise protocol: producer bodies, one sender per accepted yield, any number of consumers, and the
 * goroutine that closes the channel, all interleaved one step at a time.
 */
module Promise {
  import opened Sums

  /** What a body does next. `YieldFn` looks at the cancelled flag twice: in `await` and again in `yield`. */
  datatype Stmt<T> = Yield(item: T) | YieldFn(item: T) | Spawn(body: seq<Stmt<T>>) | Panic

  /** The values a script would yield. */
  ghost function Items<T>(script: seq<Stmt<T>>): multiset<T> {
    if script == [] then multiset{} else ItemsOf(script[0]) + Items(script[1..])
  }

  ghost function ItemsOf<T>(stmt: Stmt<T>): multiset<T> {
    match stmt
    case Yield(item) => multiset{item}
    case YieldFn(item) => multiset{item}
    case Spawn(body) => Items(body)
    case Panic => multiset{}
  }

  /**
   * Where a body is with the first statement of its script. `Checked` has seen the promise not cancelled,
   * `Counted` has called `Inc` but not started the goroutine yet; `Panicked` has not set the flag yet, `Failed`
   * has not stored the error yet; `Ending` is about to call `Done`.
   */
  datatype Phase = Running | Checked | Counted | Panicked | Failed | Ending | Ended

  /** A consumer goroutine: in the receive, in the send to its output, before `Done`, before and after `close`. */
  datatype Stage<T> = Idle | Holding(item: T) | Handed | Exiting | Exited

  /** `drained` says whether somebody receives from the output channel of the consumer. */
  datatype Thread<T> =
    | Body(phase: Phase, script: seq<Stmt<T>>)
    | Sender(item: T)
    | Sent
    | Consumer(stage: Stage<T>, output: seq<T>, drained: bool)

  datatype Closer = Waiting | Released | Finished

  /**
   * A call of `Await` or `Map`, whose output is drained or not, or one of `Map(nil)`, which starts the closer and
   * fails before it makes a consumer.
   */
  datatype Call = Drained | Undrained | NilMap

  /**
   * `calls` are the calls still to come; `closes` counts the calls of `close` on the shared
   * channel; `accepted` has the values of all yields that passed the check, `dropped` those of all that did not or
   * were never reached.
   */
  datatype State<T> = State(threads: seq<Thread<T>>, counter: int, cancelled: bool, failed: bool, once: bool,
                            closers: seq<Closer>, closes: nat, calls: seq<Call>, accepted: multiset<T>,
                            dropped: multiset<T>)

  predicate Closed<T>(s: State<T>) {
    s.closes > 0
  }

  /** `Promise(fn)`: one body, already counted. */
  function Start<T>(script: seq<Stmt<T>>, calls: seq<Call>): State<T> {
    State([Body(Running, script)], 1, false, false, false, [], 0, calls, multiset{}, multiset{})
  }

  // --------------------------------------------------------------------------------------- steps

  datatype Label = RunBody(i: nat) | Receive(i: nat, j: nat) | Consume(j: nat) | CallAwait | RunCloser(k: nat)

  /** The effect of one step of a body: its new form, new goroutines, and the changes of the shared fields. */
  datatype Effect<T> = Effect(body: Thread<T>, started: seq<Thread<T>>, delta: int, accepted: multiset<T>,
                              dropped: multiset<T>, cancels: bool, fails: bool)

  function Quiet<T>(body: Thread<T>): Effect<T> {
    Effect(body, [], 0, multiset{}, multiset{}, false, false)
  }

  predicate ValidBody<T>(t: Thread<T>) {
    t.Body? && (t.phase.Checked? || t.phase.Counted? ==>
      t.script != [] && (t.script[0].Yield? || t.script[0].Spawn?))
  }

  ghost function Advance<T>(t: Thread<T>, cancelled: bool): Effect<T>
    requires ValidBody(t) && !t.phase.Ended?
  {
    match t.phase
    case Running =>
      if t.script == [] then Quiet(Body(Ending, []))
      else if t.script[0].Panic? then Quiet(Body(Panicked, [])).(dropped := Items(t.script))
      else if cancelled then Quiet(Body(Running, t.script[1..])).(dropped := ItemsOf(t.script[0]))
      else if t.script[0].YieldFn? then Quiet(Body(Running, [Yield(t.script[0].item)] + t.script[1..]))
      else Quiet(Body(Checked, t.script))
    case Checked =>
      Quiet(Body(Counted, t.script)).(delta := 1,
        accepted := if t.script[0].Yield? then multiset{t.script[0].item} else multiset{})
    case Counted =>
      Quiet(Body(Running, t.script[1..])).(started :=
        [if t.script[0].Yield? then Sender(t.script[0].item) else Body(Running, t.script[0].body)])
    case Panicked => Quiet(Body(Failed, [])).(cancels := true)
    case Failed => Quiet(Body(Ending, [])).(fails := true)
    case Ending => Quiet(Body(Ended, [])).(delta := -1)
  }

  predicate Enabled<T>(s: State<T>, a: Label) {
    match a
    case RunBody(i) => i < |s.threads| && ValidBody(s.threads[i]) && !s.threads[i].phase.Ended?
    case Receive(i, j) =>
      && i < |s.threads| && s.threads[i].Sender?
      && j < |s.threads| && s.threads[j].Consumer? && s.threads[j].stage.Idle?
    case Consume(j) =>
      && j < |s.threads| && s.threads[j].Consumer?
      && match s.threads[j].stage {
           case Idle => Closed(s)
           case Holding(_) => s.threads[j].drained
           case Handed => true
           case Exiting => true
           case Exited => false
         }
    case CallAwait => s.calls != []
    case RunCloser(k) => k < |s.closers| && (s.closers[k].Released? || (s.closers[k].Waiting? && s.counter == 0))
  }

  /** The consumer that a call makes. */
  function Consumers<T>(call: Call): seq<Thread<T>> {
    if call.NilMap? then [] else [Consumer(Idle, [], call.Drained?)]
  }

  /** One turn of the loop of a consumer. */
  function Turn<T>(t: Thread<T>): Thread<T>
    requires t.Consumer? && !t.stage.Exited?
  {
    match t.stage
    case Idle => t.(stage := Exiting)
    case Holding(item) => t.(stage := Handed, output := t.output + [item])
    case Handed => t.(stage := Idle)
    case Exiting => t.(stage := Exited)
  }

  ghost function Next<T>(s: State<T>, a: Label): State<T>
    requires Enabled(s, a)
  {
    match a
    case RunBody(i) =>
      var e := Advance(s.threads[i], s.cancelled);
      s.(threads := s.threads[i := e.body] + e.started, counter := s.counter + e.delta,
         accepted := s.accepted + e.accepted, dropped := s.dropped + e.dropped,
         cancelled := s.cancelled || e.cancels, failed := s.failed || e.fails)
    case Receive(i, j) =>
      s.(threads := s.threads[i := Sent][j := s.threads[j].(stage := Holding(s.threads[i].item))])
    case Consume(j) =>
      s.(threads := s.threads[j := Turn(s.threads[j])],
         counter := if s.threads[j].stage.Handed? then s.counter - 1 else s.counter)
    case CallAwait =>
      s.(calls := s.calls[1..], once := true, closers := if s.once then s.closers else s.closers + [Waiting],
         threads := s.threads + Consumers(s.calls[0]))
    case RunCloser(k) =>
      if s.closers[k].Waiting? then s.(closers := s.closers[k := Released])
      else s.(closers := s.closers[k := Finished], closes := s.closes + 1)
  }

  /** The state after a run, if every step of it was enabled. */
  ghost predicate Runs<T>(s: State<T>, run: seq<Label>, s': State<T>)
    decreases |run|
  {
    if run == [] then s' == s else Enabled(s, run[0]) && Runs(Next(s, run[0]), run[1..], s')
  }

  // ----------------------------------------------------------------------------------- invariant

  /** How much of the counter a goroutine accounts for. */
  function Held<T>(t: Thread<T>): nat {
    match t
    case Body(phase, _) => if phase.Ended? then 0 else if phase.Counted? then 2 else 1
    case Sender(_) => 1
    case Sent => 0
    case Consumer(stage, _, _) => if stage.Holding? || stage.Handed? then 1 else 0
  }

  /** The accepted values a goroutine has: under way, or handed out. */
  ghost function Carried<T>(t: Thread<T>): multiset<T> {
    match t
    case Body(phase, script) =>
      if phase.Counted? && script != [] && script[0].Yield? then multiset{script[0].item} else multiset{}
    case Sender(item) => multiset{item}
    case Sent => multiset{}
    case Consumer(stage, output, _) =>
      multiset(output) + if stage.Holding? then multiset{stage.item} else multiset{}
  }

  predicate ValidThread<T>(t: Thread<T>, closed: bool) {
    match t
    case Body(_, _) => ValidBody(t)
    case Consumer(stage, _, _) => stage.Exiting? || stage.Exited? ==> closed
    case _ => true
  }

  predicate CounterRight<T>(s: State<T>) {
    s.counter == Sum(Held, s.threads)
  }

  ghost predicate NothingLost<T>(s: State<T>) {
    s.accepted == Union(Carried, s.threads)
  }

  predicate ThreadsRight<T>(s: State<T>) {
    forall i :: 0 <= i < |s.threads| ==>
      ValidThread(s.threads[i], Closed(s)) && (s.threads[i].Consumer? ==> s.once)
  }

  predicate CloserRight<T>(s: State<T>) {
    && |s.closers| == (if s.once then 1 else 0)
    && (s.closers != [] && !s.closers[0].Waiting? ==> s.counter == 0)
    && s.closes == (if s.closers != [] && s.closers[0].Finished? then 1 else 0)
  }

  ghost predicate Inv<T>(s: State<T>) {
    CounterRight(s) && NothingLost(s) && ThreadsRight(s) && CloserRight(s)
  }

  lemma StartInv<T>(script: seq<Stmt<T>>, calls: seq<Call>)
    ensures Inv(Start(script, calls))
  {
    SumOfOne(Held, Body(Running, script));
    UnionOfOne(Carried, Body(Running, script));
  }

  /** What one step of a body does to its share of the counter and of the values. */
  lemma AdvanceBalance<T>(t: Thread<T>, cancelled: bool)
    requires ValidBody(t) && !t.phase.Ended?
    ensures var e := Advance(t, cancelled);
            && Held(e.body) + Sum(Held, e.started) == Held(t) + e.delta
            && Carried(e.body) + Union(Carried, e.started) == Carried(t) + e.accepted
            && ValidBody(e.body) && |e.started| <= 1
            && forall i :: 0 <= i < |e.started| ==> ValidThread(e.started[i], false) && !e.started[i].Consumer?
  {
    hide Sum, Union;
    if t.phase.Counted? {
      var u := Advance(t, cancelled).started[0];
      SumOfOne(Held, u);
      UnionOfOne(Carried, u);
    } else {
      SumOfNone<Thread<T>>(Held, []);
      UnionOfNone<Thread<T>, T>(Carried, []);
    }
  }

  lemma HeldByBody<T>(t: Thread<T>)
    requires t.Body? && !t.phase.Ended?
    ensures Held(t) > 0
  {}

  /** A step of a body keeps the counter right, and is not taken when the counter is zero. */
  lemma RunBodyCounts<T>(s: State<T>, i: nat)
    requires CounterRight(s) && Enabled(s, RunBody(i))
    ensures CounterRight(Next(s, RunBody(i))) && s.counter > 0
  {
    hide Advance, Held, Carried, Sum;
    var t, e := s.threads[i], Advance(s.threads[i], s.cancelled);
    AdvanceBalance(t, s.cancelled);
    HeldByBody(t);
    SumUpdate(Held, s.threads, i, e.body);
    SumConcat(Held, s.threads[i := e.body], e.started);
    SumCovers(Held, s.threads, i);
  }

  lemma RunBodyKeepsValues<T>(s: State<T>, i: nat)
    requires NothingLost(s) && Enabled(s, RunBody(i))
    ensures NothingLost(Next(s, RunBody(i)))
  {
    hide Advance, Held, Carried, Union;
    var t, e := s.threads[i], Advance(s.threads[i], s.cancelled);
    AdvanceBalance(t, s.cancelled);
    UnionUpdate(Carried, s.threads, i, e.body);
    UnionConcat(Carried, s.threads[i := e.body], e.started);
    Cancel(Union(Carried, s.threads[i := e.body]), s.accepted, Carried(e.body), Union(Carried, e.started),
           e.accepted, Carried(t));
  }

  lemma RunBodyKeepsThreads<T>(s: State<T>, i: nat)
    requires ThreadsRight(s) && Enabled(s, RunBody(i))
    ensures ThreadsRight(Next(s, RunBody(i)))
  {
    hide Advance, Held, Carried;
    AdvanceBalance(s.threads[i], s.cancelled);
  }

  lemma RunBodyKeepsInv<T>(s: State<T>, i: nat)
    requires Inv(s) && Enabled(s, RunBody(i))
    ensures Inv(Next(s, RunBody(i)))
  {
    hide CounterRight, NothingLost, ThreadsRight;
    RunBodyCounts(s, i);
    RunBodyKeepsValues(s, i);
    RunBodyKeepsThreads(s, i);
  }

  lemma ReceiveBalance<T>(t: Thread<T>, u: Thread<T>)
    requires t.Sender? && u.Consumer? && u.stage.Idle?
    ensures var u' := u.(stage := Holding(t.item));
            && Held<T>(Sent) == 0 && Held(u') + Held<T>(Sent) == Held(t) + Held(u)
            && Carried<T>(Sent) == multiset{} && Carried(u') == Carried(t) + Carried(u)
  {}

  lemma MovedAlong<U>(after: multiset<U>, mid: multiset<U>, before: multiset<U>, t: multiset<U>, u: multiset<U>)
    requires mid + t == before + multiset{} && after + u == mid + (t + u)
    ensures after == before
  {
    assert mid + (t + u) == (mid + t) + u;
    assert before + multiset{} == before;
    CancelSame(after, before, u);
  }

  lemma ReceiveKeepsInv<T>(s: State<T>, i: nat, j: nat)
    requires Inv(s) && Enabled(s, Receive(i, j))
    ensures Inv(Next(s, Receive(i, j)))
  {
    hide Held, Carried, Sum, Union;
    var t, u := s.threads[i], s.threads[j];
    var u' := u.(stage := Holding(t.item));
    var mid := s.threads[i := Sent];
    ReceiveBalance(t, u);
    SumUpdate(Held, s.threads, i, Sent);
    SumUpdate(Held, mid, j, u');
    UnionUpdate(Carried, s.threads, i, Sent);
    UnionUpdate(Carried, mid, j, u');
    MovedAlong(Union(Carried, mid[j := u']), Union(Carried, mid), s.accepted, Carried(t), Carried(u));
  }

  lemma TurnBalance<T>(u: Thread<T>)
    requires u.Consumer? && !u.stage.Exited?
    ensures Carried(Turn(u)) == Carried(u)
    ensures Held(Turn(u)) == Held(u) - if u.stage.Handed? then 1 else 0
  {}

  lemma ConsumeKeepsInv<T>(s: State<T>, j: nat)
    requires Inv(s) && Enabled(s, Consume(j))
    ensures Inv(Next(s, Consume(j)))
  {
    hide Held, Carried, Sum, Union;
    var u, u' := s.threads[j], Turn(s.threads[j]);
    TurnBalance(u);
    SumUpdate(Held, s.threads, j, u');
    SumCovers(Held, s.threads, j);
    UnionUpdate(Carried, s.threads, j, u');
    CancelSame(Union(Carried, s.threads[j := u']), s.accepted, Carried(u));
  }

  lemma NewConsumer<T>(call: Call)
    ensures Sum(Held<T>, Consumers(call)) == 0 && Union(Carried<T>, Consumers(call)) == multiset{}
  {
    SumOfNone(Held<T>, Consumers(call));
    UnionOfNone(Carried<T>, Consumers(call));
  }

  lemma AwaitKeepsInv<T>(s: State<T>)
    requires Inv(s) && Enabled(s, CallAwait)
    ensures Inv(Next(s, CallAwait))
  {
    hide Held, Carried, Sum, Union;
    NewConsumer<T>(s.calls[0]);
    SumConcat(Held, s.threads, Consumers(s.calls[0]));
    UnionConcat(Carried, s.threads, Consumers(s.calls[0]));
  }

  /** Every step keeps the invariant. */
  lemma StepKeepsInv<T>(s: State<T>, a: Label)
    requires Inv(s) && Enabled(s, a)
    ensures Inv(Next(s, a))
  {
    match a
    case RunBody(i) => RunBodyKeepsInv(s, i);
    case Receive(i, j) => ReceiveKeepsInv(s, i, j);
    case Consume(j) => ConsumeKeepsInv(s, j);
    case CallAwait => AwaitKeepsInv(s);
    case RunCloser(k) =>
  }

  predicate CallsDone<T>(t: Thread<T>) {
    (t.Body? && t.phase.Ending?) || (t.Consumer? && t.stage.Handed?)
  }

  /** What would panic: a send on, or a close of, the closed channel, or `Done` with the counter at zero. */
  predicate Fault<T>(s: State<T>) {
    || (Closed(s) && exists i :: 0 <= i < |s.threads| && s.threads[i].Sender?)
    || (Closed(s) && exists k :: 0 <= k < |s.closers| && s.closers[k].Released?)
    || (s.counter <= 0 && exists i :: 0 <= i < |s.threads| && CallsDone(s.threads[i]))
  }

  lemma InvSafe<T>(s: State<T>)
    requires Inv(s)
    ensures !Fault(s) && s.closes <= 1 && |s.closers| <= 1
    ensures forall k :: 0 <= k < |s.closers| && !s.closers[k].Waiting? ==> s.counter == 0
  {
    forall i | 0 <= i < |s.threads| ensures Held(s.threads[i]) <= s.counter {
      SumCovers(Held, s.threads, i);
    }
  }

  lemma {:induction false} RunKeepsInv<T>(s: State<T>, run: seq<Label>, s': State<T>)
    requires Inv(s) && Runs(s, run, s')
    ensures Inv(s')
    decreases |run|
  {
    if run != [] {
      StepKeepsInv(s, run[0]);
      RunKeepsInv(Next(s, run[0]), run[1..], s');
    }
  }
}
