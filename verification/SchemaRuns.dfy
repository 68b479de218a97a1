/**
 Many edits: what a run of them leaves, when it panics, and when its order can be seen.
 */
module SchemaRuns {
  import opened SchemaTypes
  import opened SchemaTarget
  import opened SchemaOrder
  import opened SchemaOverlap
  import Permutations

  /** What one source key does: nothing, a panic, or an edit. */
  datatype Effect = Unknown | Crashes | Change(loc: seq<Step>, act: Act)

  predicate EffectFits(t: Type, e: Effect) {
    e.Change? ==> Typed(t, e.loc) && ActFits(TypeAt(t, e.loc), e.act)
  }

  /** The effect never follows a nil embedded pointer. */
  predicate EffectSafe(t: Type, e: Effect) {
    EffectFits(t, e) && (e.Change? ==> Safe(t, e.loc, false))
  }

  predicate Apart(a: Effect, b: Effect) {
    a.Change? && b.Change? ==> Diverge(a.loc, b.loc)
  }

  /** The two effects leave the same in both orders; that does not depend on the target. */
  predicate Agree(t: Type, a: Effect, b: Effect)
    requires EffectFits(t, a) && EffectFits(t, b)
  {
    a.Change? && b.Change? ==>
      || Diverge(a.loc, b.loc)
      || (Covers(a.loc, b.loc) && Yields(t, a.loc, a.act, b.loc, b.act))
      || (Covers(b.loc, a.loc) && Yields(t, b.loc, b.act, a.loc, a.act))
  }

  lemma ApartAgree(t: Type, a: Effect, b: Effect)
    requires EffectFits(t, a) && EffectFits(t, b) && Apart(a, b)
    ensures Agree(t, a, b)
  {}

  function Apply(t: Type, v: Value, e: Effect): (r: Outcome)
    requires HasType(v, t) && EffectFits(t, e)
    ensures r.Done? ==> HasType(r.v, t)
  {
    match e
    case Unknown => Done(v)
    case Crashes => Panic
    case Change(loc, act) =>
      var r := Put(t, v, loc, act);
      if r.Panic? then Panic else PutHasType(t, v, loc, act); r
  }

  predicate AllFit(t: Type, es: seq<Effect>) {
    forall i :: 0 <= i < |es| ==> EffectFits(t, es[i])
  }

  /** The target after the effects in this order; a panic ends the run. */
  function Run(t: Type, v: Value, es: seq<Effect>): (r: Outcome)
    requires HasType(v, t) && AllFit(t, es)
    ensures r.Done? ==> HasType(r.v, t)
    decreases |es|
  {
    if es == [] then Done(v)
    else match Apply(t, v, es[0]) {
      case Panic => Panic
      case Done(w) => Run(t, w, es[1..])
    }
  }

  lemma {:induction false} RunLast(t: Type, v: Value, es: seq<Effect>, e: Effect)
    requires HasType(v, t) && AllFit(t, es) && EffectFits(t, e)
    ensures AllFit(t, es + [e])
    ensures Run(t, v, es + [e]) ==
            match Run(t, v, es)
            case Panic => Panic
            case Done(w) => Apply(t, w, e)
    decreases |es|
  {
    hide HasType, EffectFits, Apply;
    if es == [] {
      assert es + [e] == [e] && [e][1..] == [];
    } else {
      assert (es + [e])[1..] == es[1..] + [e];
      match Apply(t, v, es[0])
      case Panic =>
      case Done(w) => RunLast(t, w, es[1..], e);
    }
  }

  predicate AllSafe(t: Type, es: seq<Effect>) {
    forall i :: 0 <= i < |es| ==> EffectSafe(t, es[i])
  }

  predicate PairwiseAgree(t: Type, es: seq<Effect>)
    requires AllFit(t, es)
  {
    forall i, j :: 0 <= i < j < |es| ==> Agree(t, es[i], es[j])
  }

  /** An effect panics on some target if and only if it is a panic by itself or its walk is not safe. */
  lemma ApplyPanicsIff(t: Type, e: Effect)
    requires EffectFits(t, e)
    ensures HasType(Zero(t), t)
    ensures Apply(t, Zero(t), e).Panic? <==> e.Crashes? || !EffectSafe(t, e)
    ensures (exists v :: HasType(v, t) && Apply(t, v, e).Panic?) <==> e.Crashes? || !EffectSafe(t, e)
  {
    ZeroHasType(t);
    if e.Change? {
      assert Unset(t, false) == Zero(t);
      UnsafePutPanics(t, e.loc, e.act, false);
    }
    forall v | HasType(v, t) && EffectSafe(t, e) ensures Apply(t, v, e).Panic? <==> e.Crashes? {
      ApplyIsDone(t, v, e);
    }
  }

  lemma ApplyIsDone(t: Type, v: Value, e: Effect)
    requires HasType(v, t) && EffectSafe(t, e)
    ensures Apply(t, v, e).Panic? <==> e.Crashes?
  {
    if e.Change? {
      SafePutIsDone(t, v, e.loc, e.act, false);
    }
  }

  /** A run of safe effects panics exactly when one of them is a panic by itself. */
  lemma {:induction false} RunPanics(t: Type, v: Value, es: seq<Effect>)
    requires HasType(v, t) && AllSafe(t, es)
    ensures Run(t, v, es).Panic? <==> Crashes in es
    decreases |es|
  {
    if es != [] {
      ApplyIsDone(t, v, es[0]);
      if !es[0].Crashes? {
        RunPanics(t, Apply(t, v, es[0]).v, es[1..]);
      }
    }
  }

  lemma {:induction false} TouchYieldsNot(t: Type, l1: seq<Step>, l2: seq<Step>, w: Value)
    requires Typed(t, l1) && ActFits(TypeAt(t, l1), Touch) && Typed(t, l2) && ActFits(TypeAt(t, l2), Assign(w))
    requires Covers(l1, l2) && |l1| == |l2|
    ensures !Yields(t, l1, Touch, l2, Assign(w))
    decreases |l1|
  {
    hide Put;
    if l1 != [] {
      TouchYieldsNot(ChildType(t, l1[0]), l1[1..], l2[1..], w);
    }
  }

  lemma {:induction false} CoversShorter(l1: seq<Step>, l2: seq<Step>)
    requires Covers(l1, l2)
    ensures |l1| <= |l2|
    ensures |l1| == |l2| ==> Covers(l2, l1)
    decreases |l1|
  {
    if l1 != [] {
      CoversShorter(l1[1..], l2[1..]);
    }
  }

  /** An edit at or above another: if it yields the order is unseen, and it yields if it is, but for a touch. */
  lemma CoverOrder(t: Type, v: Value, a: Effect, b: Effect)
    requires HasType(v, t) && EffectSafe(t, a) && EffectSafe(t, b) && a.Change? && b.Change?
    requires Covers(a.loc, b.loc)
    ensures Edits(t, v, a.loc, a.act, false) && Edits(t, v, b.loc, b.act, false)
    ensures Yields(t, a.loc, a.act, b.loc, b.act) ==>
              SameBothWays(t, v, a.loc, a.act, false, b.loc, b.act, false)
    ensures SameBothWays(t, v, a.loc, a.act, false, b.loc, b.act, false) ==>
              Yields(t, a.loc, a.act, b.loc, b.act) || (a.act.Touch? && b.act.Assign? && |a.loc| == |b.loc|)
  {
    hide SameBothWays, Yields, HasType, Put;
    CoversShorter(a.loc, b.loc);
    if a.act.Touch? && b.act.Assign? && |a.loc| == |b.loc| {
      TouchYieldsNot(t, a.loc, b.loc, b.act.w);
    } else {
      OrderUnseenIff(t, v, a.loc, a.act, false, b.loc, b.act, false);
    }
  }

  /** On every target, two safe effects leave the same in both orders if and only if they agree. */
  lemma EffectsCommuteIff(t: Type, v: Value, a: Effect, b: Effect)
    requires HasType(v, t) && EffectSafe(t, a) && EffectSafe(t, b) && !a.Crashes? && !b.Crashes?
    ensures Apply(t, v, a).Done? && Apply(t, v, b).Done?
    ensures Apply(t, Apply(t, v, a).v, b) == Apply(t, Apply(t, v, b).v, a) <==> Agree(t, a, b)
  {
    hide HasType, Put, ActFits, TypeAt, Typed, Diverge, Safe, Yields, Covers;
    ApplyIsDone(t, v, a);
    ApplyIsDone(t, v, b);
    if a.Change? && b.Change? {
      CoversOrDiverges(a.loc, b.loc);
      if Diverge(a.loc, b.loc) {
        EditsCommute(t, v, a.loc, a.act, false, b.loc, b.act, false);
      } else {
        if Covers(a.loc, b.loc) {
          CoverOrder(t, v, a, b);
          CoversShorter(a.loc, b.loc);
        }
        if Covers(b.loc, a.loc) {
          CoverOrder(t, v, b, a);
          CoversShorter(b.loc, a.loc);
        }
      }
    }
  }

  /** The last two effects of a run can change places exactly when they agree. */
  lemma LastTwo(t: Type, v: Value, es: seq<Effect>, a: Effect, b: Effect)
    requires HasType(v, t) && AllSafe(t, es) && EffectSafe(t, a) && EffectSafe(t, b)
    requires Crashes !in es && !a.Crashes? && !b.Crashes?
    ensures AllFit(t, es + [a] + [b]) && AllFit(t, es + [b] + [a])
    ensures Run(t, v, es + [a] + [b]) == Run(t, v, es + [b] + [a]) <==> Agree(t, a, b)
  {
    hide HasType, Agree, EffectFits, Apply;
    RunPanics(t, v, es);
    EffectsCommuteIff(t, Run(t, v, es).v, a, b);
    RunLast(t, v, es, a);
    RunLast(t, v, es + [a], b);
    RunLast(t, v, es, b);
    RunLast(t, v, es + [b], a);
  }

  /** An effect can be moved to the front of effects it agrees with. */
  lemma {:induction false} MoveToFront(t: Type, v: Value, front: seq<Effect>, e: Effect, back: seq<Effect>)
    requires HasType(v, t) && AllSafe(t, front) && EffectSafe(t, e) && AllSafe(t, back)
    requires Crashes !in front && !e.Crashes?
    requires forall i :: 0 <= i < |front| ==> Agree(t, front[i], e)
    ensures AllSafe(t, front + [e] + back) && AllSafe(t, [e] + (front + back))
    ensures Run(t, v, front + [e] + back) == Run(t, v, [e] + (front + back))
    decreases |front|
  {
    var es := front + [e] + back;
    if front == [] {
      assert es == [e] + (front + back);
    } else {
      var f, rest := front[0], front[1..];
      assert es[1..] == rest + [e] + back;
      assert (front + back)[1..] == rest + back;
      EffectsCommuteIff(t, v, f, e);
      MoveToFront(t, Apply(t, v, f).v, rest, e, back);
      assert ([e] + (rest + back))[1..] == rest + back;
      assert ([e] + (front + back))[1..] == front + back;
    }
  }

  lemma RunHead(t: Type, v: Value, e: Effect, rest: seq<Effect>)
    requires HasType(v, t) && EffectFits(t, e) && AllFit(t, rest)
    ensures AllFit(t, [e] + rest)
    ensures Run(t, v, [e] + rest) ==
            match Apply(t, v, e)
            case Panic => Panic
            case Done(w) => Run(t, w, rest)
  {
    assert ([e] + rest)[1..] == rest;
  }

  lemma SafeFits(t: Type, es: seq<Effect>)
    requires AllSafe(t, es)
    ensures AllFit(t, es)
  {}

  /** Any of the effects can come first. */
  lemma PullOut(t: Type, v: Value, es: seq<Effect>, i: nat) returns (rest: seq<Effect>)
    requires HasType(v, t) && AllSafe(t, es) && PairwiseAgree(t, es) && Crashes !in es && i < |es|
    ensures rest == es[..i] + es[i + 1..]
    ensures AllSafe(t, rest) && PairwiseAgree(t, rest) && Crashes !in rest
    ensures AllFit(t, es) && AllFit(t, [es[i]] + rest)
    ensures Run(t, v, es) == Run(t, v, [es[i]] + rest)
  {
    hide HasType, EffectFits, EffectSafe, Agree, Apply, Run;
    rest := es[..i] + es[i + 1..];
    SafeFits(t, es);
    assert es == es[..i] + [es[i]] + es[i + 1..];
    MoveToFront(t, v, es[..i], es[i], es[i + 1..]);
  }

  /** Safe effects that agree pairwise have one result in any order. */
  lemma {:induction false} RunIgnoresOrder(t: Type, v: Value, a: seq<Effect>, b: seq<Effect>)
    requires HasType(v, t) && AllSafe(t, a) && AllSafe(t, b)
    requires multiset(a) == multiset(b) && PairwiseAgree(t, b)
    ensures Run(t, v, a) == Run(t, v, b)
    decreases |a|
  {
    hide HasType, EffectFits, EffectSafe, Agree, Apply, PairwiseAgree;
    if Crashes in multiset(a) {
      RunPanics(t, v, a);
      RunPanics(t, v, b);
    } else if a == [] {
      assert |multiset(b)| == 0;
    } else {
      var i := Permutations.Removal(a, b);
      assert Crashes !in multiset(b);
      var rest := PullOut(t, v, b, i);
      var e := a[0];
      SafeFits(t, a);
      ApplyIsDone(t, v, e);
      RunHead(t, v, e, rest);
      RunIgnoresOrder(t, Apply(t, v, e).v, a[1..], rest);
    }
  }
}
