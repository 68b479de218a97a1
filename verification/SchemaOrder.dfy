/**
 Two edits: when the walk to a location can panic, and when the order of two edits can be seen.
 */
module SchemaOrder {
  import opened SchemaTypes
  import opened SchemaTarget

  /** Where a move goes, whichever lookup it belongs to. */
  datatype Spot = FieldSpot(i: nat) | ElemSpot(k: nat)

  function SpotOf(s: Step): Spot {
    if s.Elem? then ElemSpot(s.k) else FieldSpot(Index(s))
  }

  /** Neither location is a prefix of the other. */
  predicate Diverge(a: seq<Step>, b: seq<Step>)
    decreases |a|
  {
    a != [] && b != [] && (SpotOf(a[0]) != SpotOf(b[0]) || Diverge(a[1..], b[1..]))
  }

  /**
   The walk never follows a nil embedded pointer, whatever the tree holds: the only embedded
   pointers it follows are fields of the struct where the lookup by name started, which
   `decode` has just allocated. `alloced` says so for the pointer entered first.
   */
  predicate Safe(t: Type, loc: seq<Step>, alloced: bool)
    requires Typed(t, loc)
    decreases |loc|
  {
    loc == [] ||
    ((loc[0].Promoted? && t.Ptr? ==> alloced) &&
     Safe(ChildType(t, loc[0]), loc[1..],
          loc[0].Named? && Base(t).fields[Index(loc[0])].anonymous))
  }

  predicate Ready(t: Type, v: Value, alloced: bool) {
    alloced && t.Ptr? ==> v.PtrV?
  }

  lemma {:induction false} SafePutIsDone(t: Type, v: Value, loc: seq<Step>, act: Act, alloced: bool)
    requires HasType(v, t) && Typed(t, loc) && ActFits(TypeAt(t, loc), act)
    requires Safe(t, loc, alloced) && Ready(t, v, alloced)
    ensures Put(t, v, loc, act).Done?
    decreases |loc|
  {
    if loc != [] {
      SafePutIsDone(ChildType(t, loc[0]), Open(t, v, loc[0])[Index(loc[0])], loc[1..], act,
                    loc[0].Named? && Base(t).fields[Index(loc[0])].anonymous);
    }
  }

  /** A zero value, or what the decoder allocates for an embedded pointer. */
  function Unset(t: Type, alloced: bool): (r: Value)
    ensures HasType(r, t) && Ready(t, r, alloced)
  {
    ZeroHasType(t);
    if alloced && t.Ptr? then ZeroHasType(t.elem); PtrV(Zero(t.elem)) else Zero(t)
  }

  lemma UnsetChild(t: Type, s: Step, alloced: bool)
    requires Fits(t, s)
    ensures Open(t, Unset(t, alloced), s)[Index(s)] ==
            Unset(ChildType(t, s), s.Named? && Base(t).fields[Index(s)].anonymous)
  {
    assert Pointee(t, Unset(t, alloced)) == Zero(Base(t));
    if !s.Elem? {
      assert Zero(Base(t)).fields[Index(s)] == Zero(ChildType(t, s));
    }
  }

  /** The condition is exact: on a target with nothing set, every walk that is not safe panics. */
  lemma {:induction false} UnsafePutPanics(t: Type, loc: seq<Step>, act: Act, alloced: bool)
    requires Typed(t, loc) && ActFits(TypeAt(t, loc), act)
    ensures Put(t, Unset(t, alloced), loc, act).Panic? <==> !Safe(t, loc, alloced)
    decreases |loc|
  {
    if loc != [] {
      var s := loc[0];
      if !Blocked(t, Unset(t, alloced), s) {
        var entered := s.Named? && Base(t).fields[Index(s)].anonymous;
        UnsetChild(t, s, alloced);
        UnsafePutPanics(ChildType(t, s), loc[1..], act, entered);
      }
    }
  }

  /** A safe edit that can be applied to `v`. */
  predicate Edits(t: Type, v: Value, loc: seq<Step>, act: Act, alloced: bool) {
    && HasType(v, t) && Typed(t, loc) && ActFits(TypeAt(t, loc), act)
    && Safe(t, loc, alloced) && Ready(t, v, alloced)
  }

  /** The result of a safe edit. */
  function After(t: Type, v: Value, loc: seq<Step>, act: Act, alloced: bool): (r: Value)
    requires Edits(t, v, loc, act, alloced)
    ensures HasType(r, t) && (t.Ptr? ==> r.PtrV?)
    ensures Put(t, v, loc, act) == Done(r)
  {
    SafePutIsDone(t, v, loc, act, alloced);
    PutHasType(t, v, loc, act);
    Put(t, v, loc, act).v
  }

  /** An edit that does not rely on its pointer having been allocated cannot tell whether it was. */
  lemma AllocUnseen(t: Type, v: Value, loc: seq<Step>, act: Act)
    requires t.Ptr? && HasType(v, t) && Typed(t, loc) && ActFits(TypeAt(t, loc), act)
    requires Safe(t, loc, false) && v.Nil?
    ensures HasType(PtrV(Zero(t.elem)), t)
    ensures Put(t, v, loc, act) == Put(t, PtrV(Zero(t.elem)), loc, act)
  {
    ZeroHasType(t.elem);
  }

  /** Opening a value that was closed after another move of the same kind. */
  lemma Reopen(t: Type, vs: seq<Value>, s: Step)
    requires Fits(t, s) && Children(t, vs) && HasType(Close(t, vs), t)
    ensures !Blocked(t, Close(t, vs), s)
    ensures Open(t, Close(t, vs), s) ==
            match s
            case Elem(k) => Grow(Base(t).elem, vs, k)
            case Named(_) => AllocEmbedded(Base(t).fields, vs)
            case Promoted(_) => vs
  {}

  /** Growing a slice twice, with an edit in between. */
  lemma GrowTwice(e: Type, vs: seq<Value>, j: nat, x: Value, k: nat)
    ensures Grow(e, Grow(e, vs, j)[j := x], k) == Grow(e, vs, if j < k then k else j)[j := x]
  {}

  /** Whether the child entered by the move has just been allocated if it is an embedded pointer. */
  predicate EntersAlloced(t: Type, s: Step)
    requires Fits(t, s)
  {
    s.Named? && Base(t).fields[Index(s)].anonymous
  }

  /** An edited field is never left as a nil pointer. */
  predicate Settled(t: Type, s: Step, x: Value)
    requires Fits(t, s)
  {
    HasType(x, ChildType(t, s)) && (ChildType(t, s).Ptr? ==> x.PtrV?)
  }

  /** The children once both moves have opened the value. */
  function BothOpen(t: Type, v: Value, s1: Step, s2: Step): (vs: seq<Value>)
    requires HasType(v, t) && Fits(t, s1) && Fits(t, s2)
    ensures Children(t, vs) && Index(s1) < |vs| && Index(s2) < |vs|
  {
    if s1.Elem? && s1.k < Index(s2) then Open(t, v, s2)
    else if s1.Promoted? then Open(t, v, s2)
    else Open(t, v, s1)
  }

  lemma FirstMove(t: Type, v: Value, s1: Step, s2: Step, rest: seq<Step>, act: Act)
    requires HasType(v, t) && Fits(t, s1) && Fits(t, s2)
    requires Typed(ChildType(t, s1), rest) && ActFits(TypeAt(ChildType(t, s1), rest), act)
    requires Safe(ChildType(t, s1), rest, EntersAlloced(t, s1))
    ensures Put(ChildType(t, s1), Open(t, v, s1)[Index(s1)], rest, act)
         == Put(ChildType(t, s1), BothOpen(t, v, s1, s2)[Index(s1)], rest, act)
  {
    var x := Open(t, v, s1)[Index(s1)];
    if BothOpen(t, v, s1, s2)[Index(s1)] != x {
      AllocUnseen(ChildType(t, s1), x, rest, act);
    }
  }

  lemma ClosedHasType(t: Type, vs: seq<Value>, s: Step, x: Value)
    requires Fits(t, s) && Children(t, vs) && Index(s) < |vs| && HasType(x, ChildType(t, s))
    ensures Children(t, vs[Index(s) := x]) && HasType(Close(t, vs[Index(s) := x]), t)
  {
    var ws := vs[Index(s) := x];
    var inner := if Base(t).Slice? then SliceV(ws) else StructV(ws);
    assert HasType(inner, Base(t));
  }

  /** Opening for the second move a value that the first move has edited shows the joint children. */
  predicate Joins(t: Type, v: Value, s1: Step, x1: Value, s2: Step)
    requires HasType(v, t) && Fits(t, s1) && Fits(t, s2) && Settled(t, s1, x1)
  {
    var w := Close(t, Open(t, v, s1)[Index(s1) := x1]);
    var joint := BothOpen(t, v, s1, s2)[Index(s1) := x1];
    && HasType(w, t) && Children(t, joint) && !Blocked(t, w, s2)
    && |Open(t, w, s2)| == |joint|
    && (forall j :: 0 <= j < |joint| && j != Index(s2) ==> Open(t, w, s2)[j] == joint[j])
    && (Open(t, w, s2)[Index(s2)] == joint[Index(s2)]
        || (ChildType(t, s2).Ptr? && !EntersAlloced(t, s2) && Open(t, w, s2)[Index(s2)].Nil?
            && joint[Index(s2)] == PtrV(Zero(ChildType(t, s2).elem))))
  }

  lemma SliceBehind(t: Type, v: Value)
    requires HasType(v, t) && Base(t).Slice?
    ensures Pointee(t, v).Nil? || Pointee(t, v).SliceV?
  {}

  lemma JoinsElem(t: Type, v: Value, s1: Step, x1: Value, s2: Step)
    requires HasType(v, t) && Fits(t, s1) && Fits(t, s2) && Settled(t, s1, x1) && s1.Elem?
    ensures Joins(t, v, s1, x1, s2)
  {
    hide HasType, Grow, Close;
    SliceBehind(t, v);
    GrowTwice(Base(t).elem, Elements(Pointee(t, v)), s1.k, x1, s2.k);
    var first, joint := Open(t, v, s1), BothOpen(t, v, s1, s2);
    ClosedHasType(t, first, s1, x1);
    ClosedHasType(t, joint, s1, x1);
    Reopen(t, first[s1.k := x1], s2);
    assert Open(t, Close(t, first[s1.k := x1]), s2) == joint[s1.k := x1];
  }

  lemma JoinsField(t: Type, v: Value, s1: Step, x1: Value, s2: Step)
    requires HasType(v, t) && Fits(t, s1) && Fits(t, s2) && Settled(t, s1, x1) && !s1.Elem?
    ensures Joins(t, v, s1, x1, s2)
  {
    hide HasType;
    var first := Open(t, v, s1);
    ClosedHasType(t, first, s1, x1);
    ClosedHasType(t, BothOpen(t, v, s1, s2), s1, x1);
    Reopen(t, first[Index(s1) := x1], s2);
  }

  lemma EditTail(t: Type, v: Value, loc: seq<Step>, act: Act, alloced: bool)
    requires Edits(t, v, loc, act, alloced) && loc != []
    ensures Fits(t, loc[0])
    ensures var c := ChildType(t, loc[0]);
            Typed(c, loc[1..]) && ActFits(TypeAt(c, loc[1..]), act)
            && Safe(c, loc[1..], EntersAlloced(t, loc[0]))
  {}

  lemma Joined(t: Type, v: Value, s1: Step, x1: Value, s2: Step)
    requires HasType(v, t) && Fits(t, s1) && Fits(t, s2) && Settled(t, s1, x1)
    ensures Joins(t, v, s1, x1, s2)
  {
    if s1.Elem? {
      JoinsElem(t, v, s1, x1, s2);
    } else {
      JoinsField(t, v, s1, x1, s2);
    }
  }

  /** The edit continued in one of the children. */
  function PutChild(t: Type, vs: seq<Value>, s: Step, rest: seq<Step>, act: Act): Outcome
    requires Fits(t, s) && Index(s) < |vs| && HasType(vs[Index(s)], ChildType(t, s))
    requires Typed(ChildType(t, s), rest) && ActFits(TypeAt(ChildType(t, s), rest), act)
  {
    match Put(ChildType(t, s), vs[Index(s)], rest, act)
    case Done(x) => Done(Close(t, vs[Index(s) := x]))
    case Panic => Panic
  }

  lemma PutHead(t: Type, v: Value, loc: seq<Step>, act: Act)
    requires HasType(v, t) && Typed(t, loc) && ActFits(TypeAt(t, loc), act)
    requires loc != [] && !Blocked(t, v, loc[0])
    ensures Put(t, v, loc, act) == PutChild(t, Open(t, v, loc[0]), loc[0], loc[1..], act)
  {}

  lemma PutChildAlike(t: Type, ys: seq<Value>, zs: seq<Value>, s: Step, rest: seq<Step>, act: Act)
    requires Fits(t, s) && |ys| == |zs| && Index(s) < |ys|
    requires HasType(ys[Index(s)], ChildType(t, s)) && HasType(zs[Index(s)], ChildType(t, s))
    requires Typed(ChildType(t, s), rest) && ActFits(TypeAt(ChildType(t, s), rest), act)
    requires forall j :: 0 <= j < |ys| && j != Index(s) ==> ys[j] == zs[j]
    requires ys[Index(s)] == zs[Index(s)]
             || (ChildType(t, s).Ptr? && Safe(ChildType(t, s), rest, false) && ys[Index(s)].Nil?
                 && zs[Index(s)] == PtrV(Zero(ChildType(t, s).elem)))
    ensures PutChild(t, ys, s, rest, act) == PutChild(t, zs, s, rest, act)
  {
    hide Put, HasType, Safe, Typed, TypeAt, ActFits, Close;
    if ys[Index(s)] != zs[Index(s)] {
      AllocUnseen(ChildType(t, s), ys[Index(s)], rest, act);
    }
    var r := Put(ChildType(t, s), zs[Index(s)], rest, act);
    assert r.Done? ==> ys[Index(s) := r.v] == zs[Index(s) := r.v];
  }

  lemma SecondMove(t: Type, v: Value, s1: Step, x1: Value, l2: seq<Step>, a2: Act, e2: bool)
    requires Edits(t, v, l2, a2, e2) && l2 != [] && Fits(t, s1) && Settled(t, s1, x1)
    ensures var s2, w := l2[0], Close(t, Open(t, v, s1)[Index(s1) := x1]);
            var joint: seq<Value> := BothOpen(t, v, s1, s2)[Index(s1) := x1];
            && HasType(w, t) && (t.Ptr? ==> w.PtrV?)
            && Children(t, joint) && HasType(joint[Index(s2)], ChildType(t, s2))
            && Typed(ChildType(t, s2), l2[1..]) && ActFits(TypeAt(ChildType(t, s2), l2[1..]), a2)
            && Put(t, w, l2, a2) == PutChild(t, joint, s2, l2[1..], a2)
  {
    hide HasType, Open, BothOpen, Put, PutChild, Safe, Typed, TypeAt, ActFits;
    var s2 := l2[0];
    EditTail(t, v, l2, a2, e2);
    Joined(t, v, s1, x1, s2);
    var w := Close(t, Open(t, v, s1)[Index(s1) := x1]);
    var joint: seq<Value> := BothOpen(t, v, s1, s2)[Index(s1) := x1];
    PutHead(t, w, l2, a2);
    PutChildAlike(t, Open(t, w, s2), joint, s2, l2[1..], a2);
  }

  /** A child entered by a move is ready for an edit that relies on its allocation. */
  lemma EnteredReady(t: Type, v: Value, s1: Step, s2: Step)
    requires HasType(v, t) && Fits(t, s1) && Fits(t, s2)
    ensures var x := BothOpen(t, v, s1, s2)[Index(s1)];
            HasType(x, ChildType(t, s1)) && Ready(ChildType(t, s1), x, EntersAlloced(t, s1))
  {}

  lemma EnteredSecond(t: Type, v: Value, s1: Step, x1: Value, s2: Step)
    requires HasType(v, t) && Fits(t, s1) && Fits(t, s2) && Settled(t, s1, x1)
    ensures var x: Value := BothOpen(t, v, s1, s2)[Index(s1) := x1][Index(s2)];
            HasType(x, ChildType(t, s2)) && Ready(ChildType(t, s2), x, EntersAlloced(t, s2))
  {}

  /** The first of two edits, seen one level down. */
  lemma FirstEdit(t: Type, v: Value, l1: seq<Step>, a1: Act, e1: bool, s2: Step) returns (x1: Value)
    requires Edits(t, v, l1, a1, e1) && l1 != [] && Fits(t, s2)
    ensures Settled(t, l1[0], x1)
    ensures var s1, joint := l1[0], BothOpen(t, v, l1[0], s2);
            && Edits(ChildType(t, s1), joint[Index(s1)], l1[1..], a1, EntersAlloced(t, s1))
            && x1 == After(ChildType(t, s1), joint[Index(s1)], l1[1..], a1, EntersAlloced(t, s1))
            && After(t, v, l1, a1, e1) == Close(t, Open(t, v, s1)[Index(s1) := x1])
  {
    hide HasType, Open, BothOpen, Put;
    var s1, joint := l1[0], BothOpen(t, v, l1[0], s2);
    FirstMove(t, v, s1, s2, l1[1..], a1);
    EnteredReady(t, v, s1, s2);
    PutHead(t, v, l1, a1);
    x1 := After(ChildType(t, s1), joint[Index(s1)], l1[1..], a1, EntersAlloced(t, s1));
  }

  /** The second of two edits, seen one level down. */
  lemma SecondEdit(t: Type, v: Value, s1: Step, x1: Value, l2: seq<Step>, a2: Act, e2: bool) returns (x2: Value)
    requires Edits(t, v, l2, a2, e2) && l2 != [] && Fits(t, s1) && Settled(t, s1, x1)
    ensures var s2, w := l2[0], Close(t, Open(t, v, s1)[Index(s1) := x1]);
            var mid: seq<Value> := BothOpen(t, v, s1, s2)[Index(s1) := x1];
            && Edits(ChildType(t, s2), mid[Index(s2)], l2[1..], a2, EntersAlloced(t, s2))
            && x2 == After(ChildType(t, s2), mid[Index(s2)], l2[1..], a2, EntersAlloced(t, s2))
            && Edits(t, w, l2, a2, e2)
            && After(t, w, l2, a2, e2) == Close(t, mid[Index(s2) := x2])
  {
    hide HasType, Put, Open, BothOpen, Children, Safe, Typed, TypeAt, ActFits, Close;
    EditTail(t, v, l2, a2, e2);
    var s2, w := l2[0], Close(t, Open(t, v, s1)[Index(s1) := x1]);
    var mid: seq<Value> := BothOpen(t, v, s1, s2)[Index(s1) := x1];
    SecondMove(t, v, s1, x1, l2, a2, e2);
    EnteredSecond(t, v, s1, x1, s2);
    x2 := After(ChildType(t, s2), mid[Index(s2)], l2[1..], a2, EntersAlloced(t, s2));
  }

  /** Two safe edits whose locations part ways can be made in either order. */
  lemma {:induction false} EditsCommute(t: Type, v: Value, l1: seq<Step>, a1: Act, e1: bool,
                                        l2: seq<Step>, a2: Act, e2: bool)
    requires Edits(t, v, l1, a1, e1) && Edits(t, v, l2, a2, e2) && Diverge(l1, l2)
    ensures var v1, v2 := After(t, v, l1, a1, e1), After(t, v, l2, a2, e2);
            && Edits(t, v1, l2, a2, e2) && Edits(t, v2, l1, a1, e1)
            && After(t, v1, l2, a2, e2) == After(t, v2, l1, a1, e1)
    decreases |l1|
  {
    hide HasType, Put, Open, BothOpen, Close, Children, TypeAt, ActFits, Safe, Ready;
    var s1, s2 := l1[0], l2[0];
    var i1, i2 := Index(s1), Index(s2);
    BothOpenSymmetric(t, v, s1, s2);
    var joint := BothOpen(t, v, s1, s2);
    var x1 := FirstEdit(t, v, l1, a1, e1, s2);
    var x2 := FirstEdit(t, v, l2, a2, e2, s1);
    var y2 := SecondEdit(t, v, s1, x1, l2, a2, e2);
    var y1 := SecondEdit(t, v, s2, x2, l1, a1, e1);
    if SpotOf(s1) == SpotOf(s2) {
      EditsCommute(ChildType(t, s1), joint[i1], l1[1..], a1, EntersAlloced(t, s1),
                   l2[1..], a2, EntersAlloced(t, s2));
    }
    var one: seq<Value> := joint[i1 := x1];
    var two: seq<Value> := joint[i2 := x2];
    assert one[i2 := y2] == two[i1 := y1];
  }

  lemma BothOpenSymmetric(t: Type, v: Value, s1: Step, s2: Step)
    requires HasType(v, t) && Fits(t, s1) && Fits(t, s2)
    ensures BothOpen(t, v, s1, s2) == BothOpen(t, v, s2, s1)
  {}
}
