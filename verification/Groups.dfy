/** A group: one producer that starts tasks under the limit of a wait group, and then waits for them. */
module Groups {
  import opened Sums
  import WaitGroups

  /** What a task does: look at its context, cancel the group, or something else. A panic ends it like a return. */
  datatype Op = Look | CancelGroup | Other | Panic

  type Work = seq<Op>

  /** What the producer does before it calls `Wait`. */
  datatype Act = Go(work: Work) | Cancel

  /**
   * A started task: the work it was given, what is left of it, and what it saw of its context. `Ending` is about
   * to call `Done`.
   */
  datatype Stage = Running | Ending | Ended

  datatype Task = Task(work: Work, left: Work, stage: Stage, saw: seq<bool>)

  /**
   * Where the producer is: between calls; in `Inc`, about to wait for the tasks or past the check; about to start
   * the goroutine; in `Wait`, with the context of the group not yet cancelled; at its end.
   */
  datatype Phase = Ready | Blocked | Passed | Counted | Joined | Returned

  datatype State = State(todo: seq<Act>, phase: Phase, counter: nat, tasks: seq<Task>, cancelled: bool)

  function Start(acts: seq<Act>): State {
    State(acts, Ready, 0, [], false)
  }

  // --------------------------------------------------------------------------------------- steps

  datatype Label = Produce | RunTask(i: nat)

  predicate Enabled(s: State, a: Label) {
    match a
    case Produce =>
      (match s.phase
       case Ready => s.todo != [] || s.counter == 0
       case Blocked => s.counter == 0
       case Passed => s.todo != []
       case Counted => s.todo != [] && s.todo[0].Go?
       case Joined => true
       case Returned => false)
    case RunTask(i) => i < |s.tasks| && !s.tasks[i].stage.Ended? && (s.tasks[i].stage.Ending? ==> s.counter > 0)
  }

  function Step(t: Task, cancelled: bool): Task
    requires !t.stage.Ended?
  {
    if t.stage.Ending? then t.(stage := Ended)
    else if t.left == [] || t.left[0].Panic? then t.(stage := Ending)
    else t.(left := t.left[1..], saw := if t.left[0].Look? then t.saw + [cancelled] else t.saw)
  }

  predicate Cancels(t: Task) {
    t.stage.Running? && t.left != [] && t.left[0].CancelGroup?
  }

  function Next(s: State, limit: nat, a: Label): State
    requires Enabled(s, a)
  {
    match a
    case Produce =>
      (match s.phase
       case Ready =>
         if s.todo == [] then s.(phase := Joined)
         else if s.todo[0].Cancel? then s.(todo := s.todo[1..], cancelled := true)
         else s.(phase := if WaitGroups.Admits(s.counter, limit) then Passed else Blocked)
       case Blocked => s.(phase := Passed)
       case Passed => s.(phase := Counted, counter := s.counter + 1)
       case Counted =>
         var work := s.todo[0].work;
         s.(phase := Ready, todo := s.todo[1..], tasks := s.tasks + [Task(work, work, Running, [])])
       case Joined => s.(phase := Returned, cancelled := true))
    case RunTask(i) =>
      var t := s.tasks[i];
      s.(tasks := s.tasks[i := Step(t, s.cancelled)], counter := if t.stage.Ending? then s.counter - 1 else s.counter,
         cancelled := s.cancelled || Cancels(t))
  }

  predicate Runs(s: State, limit: nat, run: seq<Label>, s': State)
    decreases |run|
  {
    if run == [] then s' == s else Enabled(s, run[0]) && Runs(Next(s, limit, run[0]), limit, run[1..], s')
  }

  // ----------------------------------------------------------------------------------- invariant

  function Live(t: Task): nat {
    if t.stage.Ended? then 0 else 1
  }

  /** The tasks that the producer starts, in order. */
  function Submitted(acts: seq<Act>): seq<Work> {
    if acts == [] then [] else (if acts[0].Go? then [acts[0].work] else []) + Submitted(acts[1..])
  }

  function Started(tasks: seq<Task>): (r: seq<Work>)
    ensures |r| == |tasks|
    ensures forall i :: 0 <= i < |tasks| ==> r[i] == tasks[i].work
  {
    seq(|tasks|, i requires 0 <= i < |tasks| => tasks[i].work)
  }

  /** The part of its work that a task does: up to the first panic. */
  function Prefix(work: Work): Work {
    if work == [] || work[0].Panic? then [] else [work[0]] + Prefix(work[1..])
  }

  /** How often a part of a task looks at the context. */
  function Looks(work: Work): nat {
    if work == [] then 0 else (if work[0].Look? then 1 else 0) + Looks(work[1..])
  }

  /** The task has done, in order, what is gone of its work; when it stops, that is all up to the first panic. */
  predicate TaskRight(t: Task) {
    && |t.left| <= |t.work| && t.left == t.work[|t.work| - |t.left|..]
    && Prefix(t.work) == t.work[..|t.work| - |t.left|] + Prefix(t.left)
    && |t.saw| + Looks(Prefix(t.left)) == Looks(Prefix(t.work))
    && (!t.stage.Running? ==> Prefix(t.left) == [])
  }

  /** The part of its work that a task has done. */
  function DoneWork(t: Task): Work
    requires |t.left| <= |t.work|
  {
    t.work[..|t.work| - |t.left|]
  }

  /** A task is past a call of `Cancel`. */
  predicate HasCancelled(t: Task) {
    |t.left| <= |t.work| && CancelGroup in DoneWork(t)
  }

  /** What the producer has done. */
  function DoneActs(s: State, acts: seq<Act>): seq<Act>
    requires |s.todo| <= |acts|
  {
    acts[..|acts| - |s.todo|]
  }

  /** `Cancel` was called, by the producer or by a task. */
  predicate CancelCalled(s: State, acts: seq<Act>) {
    || (|s.todo| <= |acts| && Cancel in DoneActs(s, acts))
    || exists i :: 0 <= i < |s.tasks| && HasCancelled(s.tasks[i])
  }

  predicate Inv(s: State, limit: nat, acts: seq<Act>) {
    && s.counter == Sum(Live, s.tasks) + (if s.phase.Counted? then 1 else 0)
    && s.counter + (if s.phase.Passed? then 1 else 0) <= limit
    && (s.phase.Joined? || s.phase.Returned? ==> s.counter == 0 && s.todo == [])
    && (s.phase.Blocked? || s.phase.Passed? || s.phase.Counted? ==> s.todo != [] && s.todo[0].Go?)
    && Started(s.tasks) + Submitted(s.todo) == Submitted(acts)
    && forall i :: 0 <= i < |s.tasks| ==> TaskRight(s.tasks[i])
  }

  /** The context is done when `Cancel` was called, or at the end; and no task has seen it done otherwise. */
  predicate FlagRight(s: State, acts: seq<Act>) {
    && |s.todo| <= |acts| && s.todo == acts[|acts| - |s.todo|..]
    && (s.cancelled <==> CancelCalled(s, acts) || s.phase.Returned?)
    && forall i :: 0 <= i < |s.tasks| && true in s.tasks[i].saw ==> CancelCalled(s, acts)
  }

  lemma StepKeepsTask(t: Task, cancelled: bool)
    requires TaskRight(t) && !t.stage.Ended?
    ensures TaskRight(Step(t, cancelled)) && Step(t, cancelled).work == t.work
  {
    if t.stage.Running? && t.left != [] && !t.left[0].Panic? {
      var n := |t.work| - |t.left|;
      assert t.work[..n + 1] == t.work[..n] + [t.left[0]];
      assert Prefix(t.left)[1..] == Prefix(t.left[1..]);
    }
  }

  lemma RunTaskKeepsInv(s: State, limit: nat, acts: seq<Act>, i: nat)
    requires Inv(s, limit, acts) && Enabled(s, RunTask(i))
    ensures Inv(Next(s, limit, RunTask(i)), limit, acts)
  {
    hide Sum, TaskRight, Submitted;
    var t := Step(s.tasks[i], s.cancelled);
    StepKeepsTask(s.tasks[i], s.cancelled);
    SumUpdate(Live, s.tasks, i, t);
    SumCovers(Live, s.tasks, i);
    assert Started(s.tasks[i := t]) == Started(s.tasks);
  }

  lemma GoKeepsInv(s: State, limit: nat, acts: seq<Act>)
    requires Inv(s, limit, acts) && s.phase.Counted?
    ensures Inv(Next(s, limit, Produce), limit, acts)
  {
    hide Sum, TaskRight, Submitted, Started;
    var t := Task(s.todo[0].work, s.todo[0].work, Running, []);
    SumOfOne(Live, t);
    SumConcat(Live, s.tasks, [t]);
    StartedRight(t.work);
    OneMoreStarted(s.tasks, t, s.todo);
  }

  lemma StartedRight(work: Work)
    ensures TaskRight(Task(work, work, Running, []))
  {
    hide Prefix, Looks;
  }

  /** The task that is started is the next one that was submitted. */
  lemma OneMoreStarted(tasks: seq<Task>, t: Task, todo: seq<Act>)
    requires todo != [] && todo[0] == Go(t.work)
    ensures Started(tasks + [t]) + Submitted(todo[1..]) == Started(tasks) + Submitted(todo)
  {
    assert Started(tasks + [t]) == Started(tasks) + [t.work];
    assert Submitted(todo) == [t.work] + Submitted(todo[1..]);
  }

  lemma CancelSubmitsNothing(acts: seq<Act>)
    requires acts != [] && acts[0].Cancel?
    ensures Submitted(acts) == Submitted(acts[1..])
  {}

  lemma OtherKeepsInv(s: State, limit: nat, acts: seq<Act>)
    requires 0 < limit < 65536 && Inv(s, limit, acts) && Enabled(s, Produce) && !s.phase.Counted?
    ensures Inv(Next(s, limit, Produce), limit, acts)
  {
    hide Sum, TaskRight, Submitted, Started;
    if s.phase.Ready? && s.todo != [] && s.todo[0].Cancel? {
      CancelSubmitsNothing(s.todo);
    }
  }

  lemma StepKeepsInv(s: State, limit: nat, acts: seq<Act>, a: Label)
    requires 0 < limit < 65536 && Inv(s, limit, acts) && Enabled(s, a)
    ensures Inv(Next(s, limit, a), limit, acts)
  {
    hide Inv;
    match a
    case Produce =>
      if s.phase.Counted? {
        GoKeepsInv(s, limit, acts);
      } else {
        OtherKeepsInv(s, limit, acts);
      }
    case RunTask(i) => RunTaskKeepsInv(s, limit, acts, i);
  }

  lemma {:induction false} RunKeepsInv(s: State, limit: nat, acts: seq<Act>, run: seq<Label>, s': State)
    requires 0 < limit < 65536 && Inv(s, limit, acts) && Runs(s, limit, run, s')
    ensures Inv(s', limit, acts)
    decreases |run|
  {
    hide Inv;
    if run != [] {
      StepKeepsInv(s, limit, acts, run[0]);
      RunKeepsInv(Next(s, limit, run[0]), limit, acts, run[1..], s');
    }
  }

  lemma StepCancels(t: Task, cancelled: bool)
    requires TaskRight(t) && !t.stage.Ended?
    ensures var t' := Step(t, cancelled);
            && (HasCancelled(t') <==> HasCancelled(t) || Cancels(t))
            && (true in t'.saw ==> true in t.saw || (t.stage.Running? && cancelled))
  {
    hide Prefix, Looks;
    if t.stage.Running? && t.left != [] && !t.left[0].Panic? {
      var n := |t.work| - |t.left|;
      assert t.work[..n + 1] == t.work[..n] + [t.left[0]];
    }
  }

  lemma RunTaskCalls(s: State, limit: nat, acts: seq<Act>, i: nat)
    requires Inv(s, limit, acts) && Enabled(s, RunTask(i))
    ensures var s' := Next(s, limit, RunTask(i));
            CancelCalled(s', acts) <==> CancelCalled(s, acts) || Cancels(s.tasks[i])
  {
    hide Sum, TaskRight, Submitted, HasCancelled, Step, Cancels;
    var s' := Next(s, limit, RunTask(i));
    forall k | 0 <= k < |s.tasks|
      ensures HasCancelled(s'.tasks[k]) <==> HasCancelled(s.tasks[k]) || (k == i && Cancels(s.tasks[i]))
    {
      StepCancels(s.tasks[i], s.cancelled);
    }
    if k :| 0 <= k < |s.tasks| && (HasCancelled(s.tasks[k]) || (k == i && Cancels(s.tasks[i]))) {
      assert HasCancelled(s'.tasks[k]);
    }
  }

  lemma RunTaskKeepsFlag(s: State, limit: nat, acts: seq<Act>, i: nat)
    requires Inv(s, limit, acts) && FlagRight(s, acts) && Enabled(s, RunTask(i))
    ensures FlagRight(Next(s, limit, RunTask(i)), acts)
  {
    hide TaskRight, Submitted, Started, CancelCalled, Cancels, HasCancelled, Step;
    StepCancels(s.tasks[i], s.cancelled);
    RunTaskCalls(s, limit, acts, i);
    SumCovers(Live, s.tasks, i);
  }

  /** The call that the producer makes, added to those it has made. */
  lemma OneMoreAct(s: State, acts: seq<Act>)
    requires s.todo != [] && |s.todo| <= |acts| && s.todo == acts[|acts| - |s.todo|..]
    ensures s.todo[1..] == acts[|acts| - |s.todo[1..]|..]
    ensures acts[..|acts| - |s.todo[1..]|] == DoneActs(s, acts) + [s.todo[0]]
  {}

  lemma ProduceKeepsFlag(s: State, limit: nat, acts: seq<Act>)
    requires FlagRight(s, acts) && Enabled(s, Produce)
    ensures FlagRight(Next(s, limit, Produce), acts)
  {
    hide HasCancelled;
    var s' := Next(s, limit, Produce);
    if s.todo != [] {
      OneMoreAct(s, acts);
    }
    if s.phase.Counted? {
      NewTask(s.todo[0].work);
    }
    assert forall k :: 0 <= k < |s.tasks| ==> s'.tasks[k] == s.tasks[k];
  }

  lemma NewTask(work: Work)
    ensures !HasCancelled(Task(work, work, Running, []))
  {}

  lemma {:induction false} RunKeepsFlag(s: State, limit: nat, acts: seq<Act>, run: seq<Label>, s': State)
    requires 0 < limit < 65536 && Inv(s, limit, acts) && FlagRight(s, acts) && Runs(s, limit, run, s')
    ensures FlagRight(s', acts)
    decreases |run|
  {
    hide Inv, FlagRight;
    if run != [] {
      match run[0] {
        case Produce => ProduceKeepsFlag(s, limit, acts);
        case RunTask(i) => RunTaskKeepsFlag(s, limit, acts, i);
      }
      StepKeepsInv(s, limit, acts, run[0]);
      RunKeepsFlag(Next(s, limit, run[0]), limit, acts, run[1..], s');
    }
  }

  lemma StartInv(limit: nat, acts: seq<Act>)
    ensures Inv(Start(acts), limit, acts)
  {
    assert Started([]) + Submitted(acts) == Submitted(acts);
  }

  lemma StartFlag(acts: seq<Act>)
    ensures FlagRight(Start(acts), acts)
  {}

  // ------------------------------------------------------------------------------------ progress

  ghost predicate Stuck(s: State) {
    forall a :: !Enabled(s, a)
  }

  predicate Complete(s: State) {
    s.phase.Returned? && forall i :: 0 <= i < |s.tasks| ==> s.tasks[i].stage.Ended?
  }

  lemma StuckIsComplete(s: State, limit: nat, acts: seq<Act>)
    requires Inv(s, limit, acts) && Stuck(s)
    ensures Complete(s)
  {
    forall i | 0 <= i < |s.tasks| ensures s.tasks[i].stage.Ended? {
      assert !Enabled(s, RunTask(i));
      SumCovers(Live, s.tasks, i);
    }
    SumOfNone(Live, s.tasks);
    assert !Enabled(s, Produce);
  }

  lemma CompleteIsStuck(s: State)
    requires Complete(s)
    ensures Stuck(s)
  {}

  function TaskSize(t: Task): nat {
    match t.stage case Running => |t.left| + 2 case Ending => 1 case Ended => 0
  }

  function ActSize(a: Act): nat {
    match a case Go(work) => |work| + 6 case Cancel => 1
  }

  function PhaseSize(p: Phase): nat {
    match p case Ready => 5 case Blocked => 4 case Passed => 3 case Counted => 2 case Joined => 1 case Returned => 0
  }

  function Measure(s: State): nat {
    Sum(TaskSize, s.tasks) + Sum(ActSize, s.todo) + PhaseSize(s.phase)
  }

  lemma DropFirst(acts: seq<Act>)
    requires acts != []
    ensures Sum(ActSize, acts) == ActSize(acts[0]) + Sum(ActSize, acts[1..])
  {
    assert acts == [acts[0]] + acts[1..];
    SumConcat(ActSize, [acts[0]], acts[1..]);
    SumOfOne(ActSize, acts[0]);
  }

  lemma StepFalls(s: State, limit: nat, a: Label)
    requires Enabled(s, a)
    ensures Measure(Next(s, limit, a)) < Measure(s)
  {
    hide Sum;
    match a
    case Produce =>
      if s.phase.Counted? {
        var t := Task(s.todo[0].work, s.todo[0].work, Running, []);
        SumOfOne(TaskSize, t);
        SumConcat(TaskSize, s.tasks, [t]);
      }
      if s.todo != [] {
        DropFirst(s.todo);
      }
    case RunTask(i) => SumUpdate(TaskSize, s.tasks, i, Step(s.tasks[i], s.cancelled));
  }

  lemma {:induction false} RunsEnd(s: State, limit: nat, run: seq<Label>, s': State)
    requires Runs(s, limit, run, s')
    ensures |run| + Measure(s') <= Measure(s)
    decreases |run|
  {
    if run != [] {
      StepFalls(s, limit, run[0]);
      RunsEnd(Next(s, limit, run[0]), limit, run[1..], s');
    }
  }

  // ------------------------------------------------------------------------------------- results

  /**
   * At every point: never more tasks than the limit. The context is done if and only if `Cancel` was called or
   * `Wait` is over, and no task sees it done unless `Cancel` was called.
   */
  lemma GroupIsSafe(limit: nat, acts: seq<Act>, run: seq<Label>, s: State)
    requires 0 < limit < 65536 && Runs(Start(acts), limit, run, s)
    ensures Sum(Live, s.tasks) <= s.counter <= limit
    ensures s.cancelled <==> CancelCalled(s, acts) || s.phase.Returned?
    ensures forall i :: 0 <= i < |s.tasks| && true in s.tasks[i].saw ==> CancelCalled(s, acts)
    ensures Started(s.tasks) <= Submitted(acts)
  {
    hide CancelCalled, Submitted;
    StartInv(limit, acts);
    StartFlag(acts);
    RunKeepsInv(Start(acts), limit, acts, run, s);
    RunKeepsFlag(Start(acts), limit, acts, run, s);
  }

  /** Below the limit nothing holds the producer up: its next task starts with three steps of its own. */
  lemma GoesOn(s: State, limit: nat) returns (s': State)
    requires s.phase.Ready? && s.todo != [] && s.todo[0].Go? && s.counter < limit < 65536
    ensures Runs(s, limit, [Produce, Produce, Produce], s')
    ensures s'.tasks == s.tasks + [Task(s.todo[0].work, s.todo[0].work, Running, [])] && s'.todo == s.todo[1..]
  {
    var mid := Next(s, limit, Produce);
    var late := Next(mid, limit, Produce);
    s' := Next(late, limit, Produce);
    assert Runs(s', limit, [], s') && [Produce][1..] == [];
    assert Runs(late, limit, [Produce], s') && [Produce, Produce][1..] == [Produce];
    assert Runs(mid, limit, [Produce, Produce], s') && [Produce, Produce, Produce][1..] == [Produce, Produce];
  }

  /** A call of `Cancel` does not wait for anybody, and neither does a task. */
  lemma NobodyIsHeldUp(limit: nat, acts: seq<Act>, run: seq<Label>, s: State)
    requires 0 < limit < 65536 && Runs(Start(acts), limit, run, s)
    ensures s.phase.Ready? && s.todo != [] && s.todo[0].Cancel? ==> Enabled(s, Produce) && Next(s, limit, Produce).cancelled
    ensures forall i :: 0 <= i < |s.tasks| && !s.tasks[i].stage.Ended? ==> Enabled(s, RunTask(i))
  {
    StartInv(limit, acts);
    RunKeepsInv(Start(acts), limit, acts, run, s);
    forall i | 0 <= i < |s.tasks| && !s.tasks[i].stage.Ended? ensures Enabled(s, RunTask(i)) {
      SumCovers(Live, s.tasks, i);
    }
  }

  /** At the limit it starts the next task only when all tasks so far have ended. */
  lemma BlockedWaits(limit: nat, acts: seq<Act>, run: seq<Label>, s: State, s': State)
    requires 0 < limit < 65536 && Runs(Start(acts), limit, run, s)
    requires s.phase.Ready? && s.todo != [] && s.todo[0].Go? && s.counter == limit
    ensures !Runs(s, limit, [Produce, Produce], s')
    ensures s.phase.Ready? && Runs(s, limit, [Produce], s') ==> s'.phase.Blocked?
  {
    StartInv(limit, acts);
    RunKeepsInv(Start(acts), limit, acts, run, s);
    assert [Produce, Produce][1..] == [Produce];
  }

  /** `Wait` returns only when every submitted task was started once, in order, and has ended. */
  lemma WaitMeansDone(limit: nat, acts: seq<Act>, run: seq<Label>, s: State)
    requires 0 < limit < 65536 && Runs(Start(acts), limit, run, s)
    requires s.phase.Joined? || s.phase.Returned?
    ensures Started(s.tasks) == Submitted(acts)
    ensures forall i :: 0 <= i < |s.tasks| ==>
      s.tasks[i].stage.Ended? && |s.tasks[i].saw| == Looks(Prefix(s.tasks[i].work))
  {
    hide Looks, Prefix, Started, TaskRight, Submitted, Sum;
    StartInv(limit, acts);
    RunKeepsInv(Start(acts), limit, acts, run, s);
    NothingSubmitted(s.tasks);
    forall i | 0 <= i < |s.tasks|
      ensures s.tasks[i].stage.Ended? && |s.tasks[i].saw| == Looks(Prefix(s.tasks[i].work))
    {
      SumCovers(Live, s.tasks, i);
      EndedHasLooked(s.tasks[i]);
    }
  }

  lemma NothingSubmitted(tasks: seq<Task>)
    ensures Started(tasks) + Submitted([]) == Started(tasks)
  {}

  lemma EndedHasLooked(t: Task)
    requires TaskRight(t) && !t.stage.Running?
    ensures |t.saw| == Looks(Prefix(t.work))
  {
    assert Looks([]) == 0;
  }

  /** Every run ends, and it ends with everything done. */
  lemma GroupCompletes(limit: nat, acts: seq<Act>, run: seq<Label>, s: State)
    requires 0 < limit < 65536 && Runs(Start(acts), limit, run, s)
    ensures |run| <= Measure(Start(acts))
    ensures Stuck(s) <==> Complete(s)
    ensures Stuck(s) ==> Started(s.tasks) == Submitted(acts)
  {
    StartInv(limit, acts);
    RunKeepsInv(Start(acts), limit, acts, run, s);
    RunsEnd(Start(acts), limit, run, s);
    hide Inv, Runs, Measure;
    if Stuck(s) {
      StuckIsComplete(s, limit, acts);
    }
    if Complete(s) {
      CompleteIsStuck(s);
      WaitMeansDone(limit, acts, run, s);
    }
  }

  /** What is new in a task's record of its context is all `true`. */
  predicate SawOnlyCancelled(before: Task, after: Task) {
    && |before.saw| <= |after.saw| && after.saw[..|before.saw|] == before.saw
    && forall k :: |before.saw| <= k < |after.saw| ==> after.saw[k]
  }

  lemma {:induction false} RunSeesCancel(s: State, limit: nat, run: seq<Label>, s': State)
    requires s.cancelled && Runs(s, limit, run, s')
    ensures s'.cancelled && |s.tasks| <= |s'.tasks|
    ensures forall i :: 0 <= i < |s.tasks| ==> SawOnlyCancelled(s.tasks[i], s'.tasks[i])
    ensures forall i :: |s.tasks| <= i < |s'.tasks| ==> false !in s'.tasks[i].saw
    decreases |run|
  {
    if run != [] {
      var mid := Next(s, limit, run[0]);
      RunSeesCancel(mid, limit, run[1..], s');
      forall i | 0 <= i < |s.tasks| ensures SawOnlyCancelled(s.tasks[i], s'.tasks[i]) {
        assert SawOnlyCancelled(s.tasks[i], mid.tasks[i]) && SawOnlyCancelled(mid.tasks[i], s'.tasks[i]);
      }
    }
  }

  /** Once `Cancel` is called, every task that looks at its context from then on sees it done. */
  lemma CancelIsSeen(limit: nat, acts: seq<Act>, before: seq<Label>, s: State, run: seq<Label>, s': State)
    requires 0 < limit < 65536 && Runs(Start(acts), limit, before, s) && Runs(s, limit, run, s')
    requires CancelCalled(s, acts)
    ensures |s.tasks| <= |s'.tasks|
    ensures forall i :: 0 <= i < |s.tasks| ==> SawOnlyCancelled(s.tasks[i], s'.tasks[i])
    ensures forall i :: |s.tasks| <= i < |s'.tasks| ==> false !in s'.tasks[i].saw
  {
    GroupIsSafe(limit, acts, before, s);
    RunSeesCancel(s, limit, run, s');
  }
}
