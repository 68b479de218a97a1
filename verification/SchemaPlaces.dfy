/**
 What an edit leaves at its own location and at every other one, read through nil pointers and
 missing elements as zero values.
 */
module SchemaPlaces {
  import opened SchemaTypes
  import opened SchemaTarget
  import opened SchemaOrder

  /** The child a move leads to; behind a nil pointer, or outside a slice, it is a zero value. */
  function Child(t: Type, v: Value, s: Step): (r: Value)
    requires HasType(v, t) && Fits(t, s)
    ensures HasType(r, ChildType(t, s))
  {
    PointeeHasType(t, v);
    ZeroHasType(ChildType(t, s));
    var inner := Pointee(t, v);
    if s.Elem? then
      if s.k < |Elements(inner)| then Elements(inner)[s.k] else Zero(ChildType(t, s))
    else inner.fields[Index(s)]
  }

  function Read(t: Type, v: Value, loc: seq<Step>): (r: Value)
    requires HasType(v, t) && Typed(t, loc)
    ensures HasType(r, TypeAt(t, loc))
    decreases |loc|
  {
    if loc == [] then v else Read(ChildType(t, loc[0]), Child(t, v, loc[0]), loc[1..])
  }

  /** The value behind the pointer of the location, if it has one. */
  function Peek(t: Type, v: Value, loc: seq<Step>): (r: Value)
    requires HasType(v, t) && Typed(t, loc)
    ensures HasType(r, Base(TypeAt(t, loc)))
  {
    PointeeHasType(TypeAt(t, loc), Read(t, v, loc));
    Pointee(TypeAt(t, loc), Read(t, v, loc))
  }

  /** The child the walk goes on with is the child that is read, allocated if it is an embedded pointer. */
  lemma OpenChild(t: Type, v: Value, s: Step)
    requires HasType(v, t) && Fits(t, s)
    ensures var c, o := Child(t, v, s), Open(t, v, s)[Index(s)];
            HasType(o, ChildType(t, s)) && Pointee(ChildType(t, s), o) == Pointee(ChildType(t, s), c)
  {
    PointeeHasType(t, v);
    ZeroHasType(ChildType(t, s));
  }

  /** An edit of a child is seen there. */
  lemma CloseChild(t: Type, v: Value, s: Step, x: Value)
    requires HasType(v, t) && Fits(t, s) && HasType(x, ChildType(t, s))
    ensures var w := Close(t, Open(t, v, s)[Index(s) := x]); HasType(w, t) && Child(t, w, s) == x
  {}

  /** Reading depends only on what is behind the pointer at the top. */
  lemma ReadBehind(t: Type, v: Value, w: Value, loc: seq<Step>)
    requires HasType(v, t) && HasType(w, t) && Typed(t, loc) && loc != [] && Pointee(t, v) == Pointee(t, w)
    ensures Read(t, v, loc) == Read(t, w, loc)
  {}

  lemma PeekBehind(t: Type, v: Value, w: Value, loc: seq<Step>)
    requires HasType(v, t) && HasType(w, t) && Typed(t, loc) && Pointee(t, v) == Pointee(t, w)
    ensures Peek(t, v, loc) == Peek(t, w, loc)
  {
    if loc != [] {
      ReadBehind(t, v, w, loc);
    }
  }

  /** The slot of an edit holds what the action makes of what it held; its pointer is not nil. */
  lemma {:induction false} EditedHere(t: Type, v: Value, loc: seq<Step>, act: Act)
    requires HasType(v, t) && Typed(t, loc) && ActFits(TypeAt(t, loc), act) && Put(t, v, loc, act).Done?
    ensures HasType(Put(t, v, loc, act).v, t)
    ensures Peek(t, Put(t, v, loc, act).v, loc) == ActOn(TypeAt(t, loc), Peek(t, v, loc), act)
    ensures TypeAt(t, loc).Ptr? ==> Read(t, Put(t, v, loc, act).v, loc).PtrV?
    decreases |loc|
  {
    PutHasType(t, v, loc, act);
    if loc != [] {
      var s, u := loc[0], ChildType(t, loc[0]);
      var o := Open(t, v, s)[Index(s)];
      OpenChild(t, v, s);
      EditedHere(u, o, loc[1..], act);
      CloseChild(t, v, s, Put(u, o, loc[1..], act).v);
      PeekBehind(u, o, Child(t, v, s), loc[1..]);
    } else {
      PointeeHasType(t, v);
      ActOnHasType(t, Pointee(t, v), act);
    }
  }

  /**
   The location is a nil embedded pointer of a struct where a lookup of the edit starts, and so
   is allocated on the way.
   */
  predicate AllocatedOnTheWay(t: Type, loc: seq<Step>, other: seq<Step>)
    requires Typed(t, loc) && Typed(t, other)
    decreases |loc|
  {
    loc != [] && other != [] &&
    if SpotOf(loc[0]) == SpotOf(other[0]) then
      SameChild(t, loc[0], other[0]);
      AllocatedOnTheWay(ChildType(t, loc[0]), loc[1..], other[1..])
    else
      |other| == 1 && loc[0].Named? && !other[0].Elem? && Base(t).fields[Index(other[0])].anonymous &&
      ChildType(t, other[0]).Ptr?
  }

  lemma SameChild(t: Type, s: Step, s': Step)
    requires Fits(t, s) && Fits(t, s') && SpotOf(s) == SpotOf(s')
    ensures ChildType(t, s) == ChildType(t, s') && Index(s) == Index(s')
    ensures forall v :: HasType(v, t) ==> Child(t, v, s) == Child(t, v, s')
  {}

  /** A sibling of the edited child: an embedded pointer may be allocated, nothing else changes. */
  lemma Sibling(t: Type, v: Value, s: Step, x: Value, other: Step)
    requires HasType(v, t) && Fits(t, s) && Fits(t, other) && SpotOf(s) != SpotOf(other) && HasType(x, ChildType(t, s))
    ensures var w := Close(t, Open(t, v, s)[Index(s) := x]);
            && HasType(w, t)
            && var was := Child(t, v, other);
               Child(t, w, other) ==
               if s.Named? && Base(t).fields[Index(other)].anonymous && ChildType(t, other).Ptr? && was.Nil?
               then PtrV(Zero(ChildType(t, other).elem)) else was
  {
    PointeeHasType(t, v);
    CloseChild(t, v, s, x);
  }

  /** The same for what is below the sibling. */
  lemma BelowSibling(t: Type, v: Value, s: Step, x: Value, other: seq<Step>)
    requires HasType(v, t) && Fits(t, s) && Typed(t, other) && other != [] && SpotOf(s) != SpotOf(other[0])
    requires HasType(x, ChildType(t, s))
    ensures var w := Close(t, Open(t, v, s)[Index(s) := x]);
            && HasType(w, t)
            && Read(t, w, other) ==
               if |other| == 1 && s.Named? && !other[0].Elem? && Base(t).fields[Index(other[0])].anonymous &&
                  ChildType(t, other[0]).Ptr? && Read(t, v, other).Nil?
               then PtrV(Zero(TypeAt(t, other).elem)) else Read(t, v, other)
  {
    hide HasType, Open, Close;
    Sibling(t, v, s, x, other[0]);
    var w := Close(t, Open(t, v, s)[Index(s) := x]);
    if |other| > 1 {
      ReadBehind(ChildType(t, other[0]), Child(t, v, other[0]), Child(t, w, other[0]), other[1..]);
    } else {
      assert other[1..] == [];
    }
  }

  /**
   At every location apart from that of the edit, what is read stays as it was, but for the
   nil embedded pointers beside its way, which now point to zero values.
   */
  lemma {:induction false} EditedElsewhere(t: Type, v: Value, loc: seq<Step>, act: Act, other: seq<Step>)
    requires HasType(v, t) && Typed(t, loc) && ActFits(TypeAt(t, loc), act) && Put(t, v, loc, act).Done?
    requires Typed(t, other) && Diverge(loc, other)
    ensures HasType(Put(t, v, loc, act).v, t)
    ensures var was := Read(t, v, other);
            Read(t, Put(t, v, loc, act).v, other) ==
            if AllocatedOnTheWay(t, loc, other) && was.Nil? then PtrV(Zero(TypeAt(t, other).elem)) else was
    ensures Peek(t, Put(t, v, loc, act).v, other) == Peek(t, v, other)
    decreases |loc|
  {
    hide HasType, Open, Close, ActFits, ActOn, Blocked;
    PutHasType(t, v, loc, act);
    var s, u := loc[0], ChildType(t, loc[0]);
    var o := Open(t, v, s)[Index(s)];
    OpenChild(t, v, s);
    PutHasType(u, o, loc[1..], act);
    var x := Put(u, o, loc[1..], act).v;
    if SpotOf(s) == SpotOf(other[0]) {
      SameChild(t, s, other[0]);
      EditedElsewhere(u, o, loc[1..], act, other[1..]);
      CloseChild(t, v, s, x);
      ReadBehind(u, o, Child(t, v, s), other[1..]);
    } else {
      BelowSibling(t, v, s, x, other);
    }
  }

  /** A slice on the way grows just enough for the element that the edit goes on with. */
  lemma {:induction false} SliceGrown(t: Type, v: Value, loc: seq<Step>, act: Act, n: nat)
    requires HasType(v, t) && Typed(t, loc) && ActFits(TypeAt(t, loc), act) && Put(t, v, loc, act).Done?
    requires n < |loc| && loc[n].Elem?
    ensures HasType(Put(t, v, loc, act).v, t) && Typed(t, loc[..n]) && Base(TypeAt(t, loc[..n])).Slice?
    ensures var was, now := Elements(Peek(t, v, loc[..n])), Elements(Peek(t, Put(t, v, loc, act).v, loc[..n]));
            |now| == if |was| <= loc[n].k then loc[n].k + 1 else |was|
    decreases |loc|
  {
    hide HasType;
    PutHasType(t, v, loc, act);
    var s, u := loc[0], ChildType(t, loc[0]);
    var o := Open(t, v, s)[Index(s)];
    OpenChild(t, v, s);
    PutHasType(u, o, loc[1..], act);
    var x := Put(u, o, loc[1..], act).v;
    if n > 0 {
      assert loc[..n][0] == s && loc[..n][1..] == loc[1..][..n - 1];
      SliceGrown(u, o, loc[1..], act, n - 1);
      CloseChild(t, v, s, x);
      PeekBehind(u, o, Child(t, v, s), loc[1..][..n - 1]);
    }
  }
}
