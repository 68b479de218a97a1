/**
 Two edits one of whose locations is a prefix of the other: when their order can be seen. The
 answer does not depend on the target.
 */
module SchemaOverlap {
  import opened SchemaTypes
  import opened SchemaTarget
  import opened SchemaOrder

  /** The first location is a prefix of the second. */
  predicate Covers(l1: seq<Step>, l2: seq<Step>)
    decreases |l1|
  {
    l1 == [] || (l2 != [] && SpotOf(l1[0]) == SpotOf(l2[0]) && Covers(l1[1..], l2[1..]))
  }

  lemma {:induction false} CoversOrDiverges(l1: seq<Step>, l2: seq<Step>)
    ensures Diverge(l1, l2) <==> !Covers(l1, l2) && !Covers(l2, l1)
    decreases |l1|
  {
    if l1 != [] && l2 != [] {
      CoversOrDiverges(l1[1..], l2[1..]);
    }
  }

  /** A slot set to a value: behind its pointer, if it has one. */
  function Filled(t: Type, w: Value): (r: Value)
    requires HasType(w, Base(t))
    ensures HasType(r, t)
  {
    if t.Ptr? then PtrV(w) else w
  }

  /**
   An edit and another one at or below its location leave the same in both orders: if the first
   sets a value, exactly when the other one leaves that value as it is.
   */
  predicate Yields(t: Type, l1: seq<Step>, a1: Act, l2: seq<Step>, a2: Act)
    requires Typed(t, l1) && ActFits(TypeAt(t, l1), a1) && Typed(t, l2) && ActFits(TypeAt(t, l2), a2)
    requires Covers(l1, l2)
    decreases |l1|
  {
    if l1 != [] then Yields(ChildType(t, l1[0]), l1[1..], a1, l2[1..], a2)
    else match a1
      case Keep => true
      case Touch => l2 != [] || !a2.Assign?
      case Assign(w) => Put(t, Filled(t, w), l2, a2) == Done(Filled(t, w))
  }

  /** The two orders of two edits. */
  predicate SameBothWays(t: Type, v: Value, l1: seq<Step>, a1: Act, e1: bool, l2: seq<Step>, a2: Act, e2: bool)
    requires Edits(t, v, l1, a1, e1) && Edits(t, v, l2, a2, e2)
  {
    && Edits(t, After(t, v, l1, a1, e1), l2, a2, e2) && Edits(t, After(t, v, l2, a2, e2), l1, a1, e1)
    && After(t, After(t, v, l1, a1, e1), l2, a2, e2) == After(t, After(t, v, l2, a2, e2), l1, a1, e1)
  }

  lemma StillEdits(t: Type, v: Value, l1: seq<Step>, a1: Act, e1: bool, l2: seq<Step>, a2: Act, e2: bool)
    requires Edits(t, v, l1, a1, e1) && Edits(t, v, l2, a2, e2)
    ensures Edits(t, After(t, v, l1, a1, e1), l2, a2, e2)
  {}

  /** Nothing at the end of the walk but the pointer there. */
  lemma KeepHere(t: Type, v: Value, e1: bool, l2: seq<Step>, a2: Act, e2: bool)
    requires Edits(t, v, [], Keep, e1) && Edits(t, v, l2, a2, e2)
    ensures SameBothWays(t, v, [], Keep, e1, l2, a2, e2)
  {
    hide Safe, Typed, TypeAt, Open;
    StillEdits(t, v, [], Keep, e1, l2, a2, e2);
    StillEdits(t, v, l2, a2, e2, [], Keep, e1);
    if t.Ptr? && v.Nil? {
      AllocUnseen(t, v, l2, a2);
    }
  }

  lemma AssignHere(t: Type, v: Value, w: Value, e1: bool, l2: seq<Step>, a2: Act, e2: bool)
    requires Edits(t, v, [], Assign(w), e1) && Edits(t, v, l2, a2, e2)
    ensures SameBothWays(t, v, [], Assign(w), e1, l2, a2, e2) <==> Yields(t, [], Assign(w), l2, a2)
  {
    hide Safe, Typed, TypeAt, Open;
    StillEdits(t, v, [], Assign(w), e1, l2, a2, e2);
    StillEdits(t, v, l2, a2, e2, [], Assign(w), e1);
    assert After(t, v, [], Assign(w), e1) == Filled(t, w);
    assert After(t, After(t, v, l2, a2, e2), [], Assign(w), e1) == Filled(t, w);
  }

  lemma AllocTwice(fs: seq<Field>, vs: seq<Value>)
    requires |fs| == |vs|
    ensures AllocEmbedded(fs, AllocEmbedded(fs, vs)) == AllocEmbedded(fs, vs)
  {}

  lemma Touched(t: Type, v: Value, e1: bool)
    requires Edits(t, v, [], Touch, e1)
    ensures Base(t).Struct? && HasType(Pointee(t, v), Base(t))
    ensures After(t, v, [], Touch, e1) == Close(t, AllocEmbedded(Base(t).fields, Pointee(t, v).fields))
  {
    PointeeHasType(t, v);
  }

  /** Touching a struct twice, or keeping what was touched. */
  lemma TouchThere(t: Type, v: Value, e1: bool, a2: Act, e2: bool)
    requires Edits(t, v, [], Touch, e1) && Edits(t, v, [], a2, e2) && !a2.Assign?
    ensures SameBothWays(t, v, [], Touch, e1, [], a2, e2)
  {
    Touched(t, v, e1);
    AllocTwice(Base(t).fields, Pointee(t, v).fields);
  }

  /** The child that an edit continues in, with or without the allocations of a lookup. */
  lemma ChildUnseen(t: Type, v: Value, l2: seq<Step>, a2: Act, e2: bool)
    requires Edits(t, v, l2, a2, e2) && l2 != [] && !l2[0].Elem?
    ensures HasType(Pointee(t, v), Base(t)) && Fits(t, l2[0])
    ensures var s, c := l2[0], ChildType(t, l2[0]);
            var all := AllocEmbedded(Base(t).fields, Pointee(t, v).fields);
            && Typed(c, l2[1..]) && ActFits(TypeAt(c, l2[1..]), a2)
            && HasType(all[Index(s)], c)
            && Put(c, Open(t, v, s)[Index(s)], l2[1..], a2) == Put(c, all[Index(s)], l2[1..], a2)
  {
    PointeeHasType(t, v);
    var s, c := l2[0], ChildType(t, l2[0]);
    AllocHasType(Base(t).fields, Pointee(t, v).fields);
    if s.Promoted? && AllocField(Base(t).fields[s.i], Pointee(t, v).fields[s.i]) != Pointee(t, v).fields[s.i] {
      AllocUnseen(c, Pointee(t, v).fields[s.i], l2[1..], a2);
    }
  }

  lemma NotBlocked(t: Type, v: Value, l2: seq<Step>, a2: Act, e2: bool)
    requires Edits(t, v, l2, a2, e2) && l2 != []
    ensures !Blocked(t, v, l2[0])
  {}

  /** An edit below a struct, seen at the struct once all its embedded pointers are allocated. */
  lemma EditBelow(t: Type, v: Value, l2: seq<Step>, a2: Act, e2: bool) returns (x: Value)
    requires Edits(t, v, l2, a2, e2) && l2 != [] && !l2[0].Elem?
    ensures HasType(Pointee(t, v), Base(t)) && Fits(t, l2[0])
    ensures var s, c := l2[0], ChildType(t, l2[0]);
            var all := AllocEmbedded(Base(t).fields, Pointee(t, v).fields);
            && Typed(c, l2[1..]) && ActFits(TypeAt(c, l2[1..]), a2) && HasType(all[Index(s)], c)
            && Put(c, all[Index(s)], l2[1..], a2) == Done(x) && HasType(x, c) && (c.Ptr? ==> x.PtrV?)
            && After(t, v, l2, a2, e2) == Close(t, Open(t, v, s)[Index(s) := x])
  {
    hide Safe, TypeAt, HasType, Put, Open;
    ChildUnseen(t, v, l2, a2, e2);
    NotBlocked(t, v, l2, a2, e2);
    PutHead(t, v, l2, a2);
    var s, c := l2[0], ChildType(t, l2[0]);
    var all := AllocEmbedded(Base(t).fields, Pointee(t, v).fields);
    assert Put(t, v, l2, a2) == Done(After(t, v, l2, a2, e2));
    x := Put(c, all[Index(s)], l2[1..], a2).v;
    PutHasType(c, all[Index(s)], l2[1..], a2);
  }

  lemma AllocEdited(fs: seq<Field>, vs: seq<Value>, i: nat, x: Value)
    requires |fs| == |vs| && i < |vs| && (fs[i].typ.Ptr? ==> x.PtrV?)
    ensures AllocEmbedded(fs, vs[i := x]) == AllocEmbedded(fs, vs)[i := x]
  {}

  /** What a lookup that finds nothing allocates makes no difference to an edit further down. */
  lemma TouchAbove(t: Type, v: Value, e1: bool, l2: seq<Step>, a2: Act, e2: bool)
    requires Edits(t, v, [], Touch, e1) && Edits(t, v, l2, a2, e2) && l2 != []
    ensures SameBothWays(t, v, [], Touch, e1, l2, a2, e2)
  {
    hide Safe, TypeAt, HasType, Put;
    StillEdits(t, v, [], Touch, e1, l2, a2, e2);
    StillEdits(t, v, l2, a2, e2, [], Touch, e1);
    Touched(t, v, e1);
    var touched, edited := After(t, v, [], Touch, e1), After(t, v, l2, a2, e2);
    Touched(t, edited, e1);
    var x := EditBelow(t, v, l2, a2, e2);
    var y := EditBelow(t, touched, l2, a2, e2);
    var s, fs, vs := l2[0], Base(t).fields, Pointee(t, v).fields;
    AllocTwice(fs, vs);
    AllocEdited(fs, Open(t, v, s), Index(s), x);
  }

  lemma Here(t: Type, v: Value, a1: Act, e1: bool, l2: seq<Step>, a2: Act, e2: bool)
    requires Edits(t, v, [], a1, e1) && Edits(t, v, l2, a2, e2)
    requires a1.Touch? ==> l2 != [] || !a2.Assign?
    ensures SameBothWays(t, v, [], a1, e1, l2, a2, e2) <==> Yields(t, [], a1, l2, a2)
  {
    hide SameBothWays, Edits, Typed, TypeAt;
    match a1
    case Keep => KeepHere(t, v, e1, l2, a2, e2);
    case Assign(w) => AssignHere(t, v, w, e1, l2, a2, e2);
    case Touch =>
      if l2 == [] {
        TouchThere(t, v, e1, a2, e2);
      } else {
        TouchAbove(t, v, e1, l2, a2, e2);
      }
  }

  lemma OneChildDiffers(t: Type, vs: seq<Value>, i: nat, y: Value, z: Value)
    requires i < |vs|
    ensures Close(t, vs[i := y]) == Close(t, vs[i := z]) <==> y == z
  {
    var one, two := vs[i := y], vs[i := z];
    assert one[i] == y && two[i] == z;
  }

  /** Two edits at or below one child, one after the other, seen at that child. */
  lemma OneLevelDown(t: Type, v: Value, l1: seq<Step>, a1: Act, e1: bool, l2: seq<Step>, a2: Act, e2: bool)
    returns (y: Value)
    requires Edits(t, v, l1, a1, e1) && Edits(t, v, l2, a2, e2)
    requires l1 != [] && l2 != [] && SpotOf(l1[0]) == SpotOf(l2[0])
    ensures HasType(v, t) && Fits(t, l1[0]) && Fits(t, l2[0])
    ensures BothOpen(t, v, l1[0], l2[0]) == BothOpen(t, v, l2[0], l1[0])
    ensures ChildType(t, l1[0]) == ChildType(t, l2[0])
    ensures var c, i := ChildType(t, l1[0]), Index(l1[0]);
            var joint := BothOpen(t, v, l1[0], l2[0]);
            && Edits(c, joint[i], l1[1..], a1, EntersAlloced(t, l1[0]))
            && Edits(c, joint[i], l2[1..], a2, EntersAlloced(t, l2[0]))
            && Edits(c, After(c, joint[i], l1[1..], a1, EntersAlloced(t, l1[0])), l2[1..], a2, EntersAlloced(t, l2[0]))
            && y == After(c, After(c, joint[i], l1[1..], a1, EntersAlloced(t, l1[0])), l2[1..], a2,
                          EntersAlloced(t, l2[0]))
            && Edits(t, After(t, v, l1, a1, e1), l2, a2, e2)
            && After(t, After(t, v, l1, a1, e1), l2, a2, e2) == Close(t, joint[i := y])
  {
    hide HasType, Put, Open, BothOpen, Close, Children, TypeAt, ActFits, Safe, Ready;
    var s1, s2, i := l1[0], l2[0], Index(l1[0]);
    BothOpenSymmetric(t, v, s1, s2);
    var joint := BothOpen(t, v, s1, s2);
    var x1 := FirstEdit(t, v, l1, a1, e1, s2);
    var x2 := FirstEdit(t, v, l2, a2, e2, s1);
    y := SecondEdit(t, v, s1, x1, l2, a2, e2);
    var mid: seq<Value> := joint[i := x1];
    assert mid[i := y] == joint[i := y];
  }

  lemma SameOneLevelDown(t: Type, v: Value, l1: seq<Step>, a1: Act, e1: bool, l2: seq<Step>, a2: Act, e2: bool)
    returns (x: Value)
    requires Edits(t, v, l1, a1, e1) && Edits(t, v, l2, a2, e2)
    requires l1 != [] && l2 != [] && SpotOf(l1[0]) == SpotOf(l2[0])
    ensures Fits(t, l1[0]) && Fits(t, l2[0]) && ChildType(t, l1[0]) == ChildType(t, l2[0])
    ensures var c := ChildType(t, l1[0]);
            && Edits(c, x, l1[1..], a1, EntersAlloced(t, l1[0])) && Edits(c, x, l2[1..], a2, EntersAlloced(t, l2[0]))
            && (SameBothWays(t, v, l1, a1, e1, l2, a2, e2) <==>
                SameBothWays(c, x, l1[1..], a1, EntersAlloced(t, l1[0]), l2[1..], a2, EntersAlloced(t, l2[0])))
  {
    hide Edits, BothOpen, Close, Open, Put, ChildType, EntersAlloced, HasType;
    var y := OneLevelDown(t, v, l1, a1, e1, l2, a2, e2);
    var z := OneLevelDown(t, v, l2, a2, e2, l1, a1, e1);
    var joint := BothOpen(t, v, l1[0], l2[0]);
    x := joint[Index(l1[0])];
    OneChildDiffers(t, joint, Index(l1[0]), y, z);
  }

  /** Whether the order of two edits, one at or below the other, can be seen. */
  lemma {:induction false} OrderUnseenIff(t: Type, v: Value, l1: seq<Step>, a1: Act, e1: bool,
                                          l2: seq<Step>, a2: Act, e2: bool)
    requires Edits(t, v, l1, a1, e1) && Edits(t, v, l2, a2, e2) && Covers(l1, l2)
    requires a1.Touch? ==> |l1| < |l2| || !a2.Assign?
    ensures SameBothWays(t, v, l1, a1, e1, l2, a2, e2) <==> Yields(t, l1, a1, l2, a2)
    decreases |l1|
  {
    hide SameBothWays, Put, EntersAlloced;
    if l1 == [] {
      Here(t, v, a1, e1, l2, a2, e2);
    } else {
      var x := SameOneLevelDown(t, v, l1, a1, e1, l2, a2, e2);
      OrderUnseenIff(ChildType(t, l1[0]), x, l1[1..], a1, EntersAlloced(t, l1[0]),
                     l2[1..], a2, EntersAlloced(t, l2[0]));
    }
  }
}
