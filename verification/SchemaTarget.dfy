/**
 The decoder's target as a value tree, and the one edit a decoded key makes on it.
 A location is the list of moves `decode` makes from the root; pointers are followed on the
 way, as `decode` does.
 */
module SchemaTarget {
  import opened SchemaTypes

  datatype Step =
    | Named(i: nat)     // the field at which a lookup by name starts
    | Promoted(i: nat)  // a further field on the way through embedded structs
    | Elem(k: nat)      // an element of a slice of structs

  /** What happens at the end of the walk. `Touch` is a lookup that finds no field. */
  datatype Act = Keep | Assign(w: Value) | Touch

  datatype Outcome = Done(v: Value) | Panic

  /** A nil embedded pointer gets a fresh struct. */
  function AllocField(f: Field, v: Value): Value {
    if f.anonymous && f.typ.Ptr? && v.Nil? then PtrV(Zero(f.typ.elem)) else v
  }

  function AllocEmbedded(fs: seq<Field>, vs: seq<Value>): (r: seq<Value>)
    requires |fs| == |vs|
    ensures |r| == |vs|
  {
    seq(|vs|, i requires 0 <= i < |vs| => AllocField(fs[i], vs[i]))
  }

  /** The value behind at most one pointer, allocated when nil. */
  function Pointee(t: Type, v: Value): Value
    requires HasType(v, t)
  {
    if !t.Ptr? then v else if v.Nil? then Zero(t.elem) else v.target
  }

  function Elements(v: Value): seq<Value>
    requires v.Nil? || v.SliceV?
  {
    if v.Nil? then [] else v.elems
  }

  /** The slice grown, with zero values, until index `k` exists. */
  function Grow(e: Type, cur: seq<Value>, k: nat): (r: seq<Value>)
    ensures |r| == if |cur| < k + 1 then k + 1 else |cur|
  {
    if |cur| < k + 1 then cur + seq(k + 1 - |cur|, _ => Zero(e)) else cur
  }

  function Index(s: Step): nat {
    match s
    case Named(i) => i
    case Promoted(i) => i
    case Elem(k) => k
  }

  /** Whether the move makes sense at a value of this type, behind at most one pointer. */
  predicate Fits(t: Type, s: Step) {
    if s.Elem? then Base(t).Slice?
    else Base(t).Struct? && Index(s) < |Base(t).fields|
  }

  function ChildType(t: Type, s: Step): Type
    requires Fits(t, s)
  {
    if s.Elem? then Base(t).elem else Base(t).fields[Index(s)].typ
  }

  predicate Typed(t: Type, loc: seq<Step>)
    decreases |loc|
  {
    loc == [] || (Fits(t, loc[0]) && Typed(ChildType(t, loc[0]), loc[1..]))
  }

  function TypeAt(t: Type, loc: seq<Step>): Type
    requires Typed(t, loc)
    decreases |loc|
  {
    if loc == [] then t else TypeAt(ChildType(t, loc[0]), loc[1..])
  }

  /** Following a nil pointer to an embedded struct: `FieldByName` panics. */
  predicate Blocked(t: Type, v: Value, s: Step) {
    s.Promoted? && t.Ptr? && v.Nil?
  }

  predicate Children(t: Type, vs: seq<Value>) {
    match Base(t)
    case Slice(e) => forall i :: 0 <= i < |vs| ==> HasType(vs[i], e)
    case Struct(fs) => |vs| == |fs| && forall i :: 0 <= i < |fs| ==> HasType(vs[i], fs[i].typ)
    case _ => false
  }

  /** The value with these children, behind its pointer if the type has one. */
  function Close(t: Type, vs: seq<Value>): Value {
    var inner := if Base(t).Slice? then SliceV(vs) else StructV(vs);
    if t.Ptr? then PtrV(inner) else inner
  }

  /** The children the move chooses from, after the allocations `decode` makes for it. */
  function Open(t: Type, v: Value, s: Step): (vs: seq<Value>)
    requires HasType(v, t) && Fits(t, s)
    ensures Index(s) < |vs|
    ensures Children(t, vs)
  {
    PointeeHasType(t, v);
    var inner := Pointee(t, v);
    match s
    case Elem(k) =>
      ZeroHasType(Base(t).elem);
      Grow(Base(t).elem, Elements(inner), k)
    case Named(_) =>
      AllocHasType(Base(t).fields, inner.fields);
      AllocEmbedded(Base(t).fields, inner.fields)
    case Promoted(_) => inner.fields
  }

  predicate ActFits(t: Type, act: Act) {
    match act
    case Keep => true
    case Assign(w) => HasType(w, Base(t))
    case Touch => Base(t).Struct?
  }

  function ActOn(t: Type, v: Value, act: Act): (r: Value)
    requires ActFits(t, act) && HasType(v, Base(t))
  {
    match act
    case Keep => v
    case Assign(w) => w
    case Touch => StructV(AllocEmbedded(Base(t).fields, v.fields))
  }

  /**
   The tree after the walk to `loc` and the final action: pointers on the way are allocated,
   so are the nil embedded pointers of every struct at which a name lookup starts, and
   slices are grown. Following a nil embedded pointer that was not allocated panics.
   */
  function Put(t: Type, v: Value, loc: seq<Step>, act: Act): Outcome
    requires HasType(v, t) && Typed(t, loc) && ActFits(TypeAt(t, loc), act)
    decreases |loc|
  {
    if loc == [] then
      PointeeHasType(t, v);
      var w := ActOn(t, Pointee(t, v), act);
      Done(if t.Ptr? then PtrV(w) else w)
    else if Blocked(t, v, loc[0]) then Panic
    else
      var vs, i := Open(t, v, loc[0]), Index(loc[0]);
      match Put(ChildType(t, loc[0]), vs[i], loc[1..], act)
      case Done(x) => Done(Close(t, vs[i := x]))
      case Panic => Panic
  }

  // -------------------------------------------------------------------------------- typing

  lemma PointeeHasType(t: Type, v: Value)
    requires HasType(v, t)
    ensures HasType(Pointee(t, v), Base(t))
  {
    ZeroHasType(Base(t));
  }

  lemma AllocFieldHasType(f: Field, v: Value)
    requires HasType(v, f.typ)
    ensures HasType(AllocField(f, v), f.typ)
  {
    if f.typ.Ptr? { ZeroHasType(f.typ.elem); }
  }

  lemma AllocHasType(fs: seq<Field>, vs: seq<Value>)
    requires HasType(StructV(vs), Struct(fs))
    ensures HasType(StructV(AllocEmbedded(fs, vs)), Struct(fs))
  {
    forall i | 0 <= i < |fs| ensures HasType(AllocField(fs[i], vs[i]), fs[i].typ) {
      AllocFieldHasType(fs[i], vs[i]);
    }
  }

  lemma ActOnHasType(t: Type, v: Value, act: Act)
    requires ActFits(t, act) && HasType(v, Base(t))
    ensures HasType(ActOn(t, v, act), Base(t))
  {
    if act.Touch? { AllocHasType(Base(t).fields, v.fields); }
  }

  /** Every edit keeps the tree well typed, and never turns an allocated pointer back to nil. */
  lemma {:induction false} PutHasType(t: Type, v: Value, loc: seq<Step>, act: Act)
    requires HasType(v, t) && Typed(t, loc) && ActFits(TypeAt(t, loc), act)
    requires Put(t, v, loc, act).Done?
    ensures HasType(Put(t, v, loc, act).v, t)
    ensures t.Ptr? ==> Put(t, v, loc, act).v.PtrV?
    decreases |loc|
  {
    PointeeHasType(t, v);
    if loc == [] {
      ActOnHasType(t, Pointee(t, v), act);
    } else {
      PutHasType(ChildType(t, loc[0]), Open(t, v, loc[0])[Index(loc[0])], loc[1..], act);
    }
  }
}
