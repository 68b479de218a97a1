/**
 The target as one mutable value tree, and addresses into it: what a settable
 `reflect.Value` denotes during `decode`.
 */
module SchemaCursor {
  import opened SchemaTypes
  import opened SchemaTarget
  import opened SchemaOrder

  datatype Move = Deref | Child(i: nat)

  function Components(v: Value): seq<Value> {
    match v
    case StructV(fs) => fs
    case SliceV(es) => es
    case _ => []
  }

  function WithComponents(v: Value, vs: seq<Value>): Value {
    match v
    case StructV(_) => StructV(vs)
    case SliceV(_) => SliceV(vs)
    case _ => v
  }

  predicate Valid(v: Value, addr: seq<Move>)
    decreases |addr|
  {
    addr == [] ||
    match addr[0]
    case Deref => v.PtrV? && Valid(v.target, addr[1..])
    case Child(i) => i < |Components(v)| && Valid(Components(v)[i], addr[1..])
  }

  function At(v: Value, addr: seq<Move>): Value
    requires Valid(v, addr)
    decreases |addr|
  {
    if addr == [] then v
    else match addr[0]
      case Deref => At(v.target, addr[1..])
      case Child(i) => At(Components(v)[i], addr[1..])
  }

  function SetAt(v: Value, addr: seq<Move>, x: Value): Value
    requires Valid(v, addr)
    decreases |addr|
  {
    if addr == [] then x
    else match addr[0]
      case Deref => PtrV(SetAt(v.target, addr[1..], x))
      case Child(i) => WithComponents(v, Components(v)[i := SetAt(Components(v)[i], addr[1..], x)])
  }

  /** What is stored is what is read. */
  lemma {:induction false} ReadBack(v: Value, addr: seq<Move>, x: Value)
    requires Valid(v, addr)
    ensures Valid(SetAt(v, addr, x), addr) && At(SetAt(v, addr, x), addr) == x
    decreases |addr|
  {
    if addr != [] {
      match addr[0]
      case Deref => ReadBack(v.target, addr[1..], x);
      case Child(i) => ReadBack(Components(v)[i], addr[1..], x);
    }
  }

  /** The last store counts. */
  lemma {:induction false} StoreTwice(v: Value, addr: seq<Move>, x: Value, y: Value)
    requires Valid(v, addr)
    ensures Valid(SetAt(v, addr, x), addr)
    ensures SetAt(SetAt(v, addr, x), addr, y) == SetAt(v, addr, y)
    decreases |addr|
  {
    if addr != [] {
      match addr[0]
      case Deref => StoreTwice(v.target, addr[1..], x, y);
      case Child(i) => StoreTwice(Components(v)[i], addr[1..], x, y);
    }
  }

  lemma {:induction false} StoreSame(v: Value, addr: seq<Move>)
    requires Valid(v, addr)
    ensures SetAt(v, addr, At(v, addr)) == v
    decreases |addr|
  {
    if addr != [] {
      match addr[0]
      case Deref => StoreSame(v.target, addr[1..]);
      case Child(i) => StoreSame(Components(v)[i], addr[1..]);
    }
  }

  /** Following an address in two parts. */
  lemma {:induction false} Further(v: Value, addr: seq<Move>, more: seq<Move>)
    requires Valid(v, addr) && Valid(At(v, addr), more)
    ensures Valid(v, addr + more)
    ensures At(v, addr + more) == At(At(v, addr), more)
    ensures forall x :: SetAt(v, addr + more, x) == SetAt(v, addr, SetAt(At(v, addr), more, x))
    decreases |addr|
  {
    if addr == [] {
      assert addr + more == more;
    } else {
      assert (addr + more)[1..] == addr[1..] + more;
      match addr[0]
      case Deref => Further(v.target, addr[1..], more);
      case Child(i) => Further(Components(v)[i], addr[1..], more);
    }
  }

  // ------------------------------------------------------------------------- moves of the walk

  /** The moves of one step of the walk. */
  function Moves(t: Type, s: Step): seq<Move> {
    if t.Ptr? then [Deref, Child(Index(s))] else [Child(Index(s))]
  }

  /** The tree when the value at an address becomes the outcome of an edit. */
  function Land(root: Value, addr: seq<Move>, r: Outcome): Outcome
    requires Valid(root, addr)
  {
    match r
    case Done(w) => Done(SetAt(root, addr, w))
    case Panic => Panic
  }

  lemma MovesReach(t: Type, vs: seq<Value>, s: Step)
    requires Fits(t, s) && Index(s) < |vs|
    ensures Valid(Close(t, vs), Moves(t, s)) && At(Close(t, vs), Moves(t, s)) == vs[Index(s)]
    ensures forall x :: SetAt(Close(t, vs), Moves(t, s), x) == Close(t, vs[Index(s) := x])
  {
    var inner := if t.Ptr? then Close(t, vs).target else Close(t, vs);
    assert Components(inner) == vs;
    var last := [Child(Index(s))];
    assert last[1..] == [];
    assert last[0].Child? && last[0].i == Index(s);
    assert Valid(vs[Index(s)], last[1..]) && At(vs[Index(s)], last[1..]) == vs[Index(s)];
    assert Valid(inner, last);
    assert At(inner, last) == At(Components(inner)[Index(s)], last[1..]);
    assert Valid(inner, last) && At(inner, last) == vs[Index(s)];
    forall x ensures SetAt(Close(t, vs), Moves(t, s), x) == Close(t, vs[Index(s) := x]) {
      assert SetAt(inner, last, x) == WithComponents(inner, vs[Index(s) := x]);
      assert t.Ptr? ==> Moves(t, s)[1..] == last;
    }
  }

  /**
   Storing the opened value and moving to the child leaves the rest of the edit with the same
   final tree.
   */
  lemma EnterKeepsOutcome(root: Value, addr: seq<Move>, t: Type, s: Step, rest: seq<Step>, act: Act)
    requires Valid(root, addr) && HasType(At(root, addr), t)
    requires Typed(t, [s] + rest) && ActFits(TypeAt(t, [s] + rest), act)
    requires !Blocked(t, At(root, addr), s)
    ensures var vs := Open(t, At(root, addr), s);
            var after := SetAt(root, addr, Close(t, vs));
            && Typed(ChildType(t, s), rest) && ActFits(TypeAt(ChildType(t, s), rest), act)
            && HasType(vs[Index(s)], ChildType(t, s))
            && Valid(after, addr + Moves(t, s)) && At(after, addr + Moves(t, s)) == vs[Index(s)]
            && Land(root, addr, Put(t, At(root, addr), [s] + rest, act)) ==
               Land(after, addr + Moves(t, s), Put(ChildType(t, s), vs[Index(s)], rest, act))
  {
    hide Open, Close, Put, HasType;
    assert ([s] + rest)[1..] == rest;
    var vs := Open(t, At(root, addr), s);
    var after := SetAt(root, addr, Close(t, vs));
    ReadBack(root, addr, Close(t, vs));
    MovesReach(t, vs, s);
    Further(after, addr, Moves(t, s));
    PutHead(t, At(root, addr), [s] + rest, act);
    var r := Put(ChildType(t, s), vs[Index(s)], rest, act);
    if r.Done? {
      StoreTwice(root, addr, Close(t, vs), Close(t, vs[Index(s) := r.v]));
    }
  }
}
