/** `decode` and `Decode` as they run: they update the target in place. */
module SchemaDecode {
  import opened Wrappers
  import opened SchemaTypes
  import opened SchemaTarget
  import opened SchemaOrder
  import opened SchemaRuns
  import opened SchemaCursor
  import opened SchemaPath
  import opened SchemaEffects
  import Text

  /** The struct a decoder fills. */
  class Target {
    var val: Value

    constructor (v: Value)
      ensures val == v
    {
      val := v;
    }
  }

  datatype Result = Returned(err: Option<Error>) | Panicked

  // ------------------------------------------------------------------------- slices of basic values

  /** The inner loop: the pieces of one value split at commas. */
  method ConvertPieces(e: ElemKind, zeroEmpty: bool, parts: seq<string>) returns (r: Option<seq<Value>>)
    ensures r == Pieces(e, zeroEmpty, parts)
  {
    var items: seq<Value> := [];
    for j := 0 to |parts|
      invariant Pieces(e, zeroEmpty, parts[..j]) == Some(items)
    {
      assert parts[..j + 1][..j] == parts[..j];
      ghost var before := items;
      if parts[j] == "" {
        if zeroEmpty {
          items := items + [ZeroBasic(e.kind)];
        }
      } else {
        var item := Convert(e.kind, parts[j]);
        if item.None? {
          PiecesFail(e, zeroEmpty, parts, j);
          return None;
        }
        items := items + [if e.isPtr then PtrV(item.value) else item.value];
      }
      assert items == before + Piece(e, zeroEmpty, parts[j]).value;
    }
    assert parts[..|parts|] == parts;
    return Some(items);
  }

  lemma FlatStep(e: ElemKind, zeroEmpty: bool, values: seq<string>, key: nat)
    requires key < |values| && Converts(e, zeroEmpty, values[..key]) && ValueItems(e, zeroEmpty, values[key]).Some?
    ensures Converts(e, zeroEmpty, values[..key + 1])
    ensures FlatItems(e, zeroEmpty, values[..key + 1]) ==
            FlatItems(e, zeroEmpty, values[..key]) + ValueItems(e, zeroEmpty, values[key]).value
  {
    assert values[..key + 1][..key] == values[..key];
  }

  /** The conversion loop of a slice of basic values. */
  method ConvertItems(e: ElemKind, zeroEmpty: bool, values: seq<string>)
    returns (items: seq<Value>, failed: Option<nat>)
    ensures failed.None? <==> Converts(e, zeroEmpty, values)
    ensures failed.None? ==> items == FlatItems(e, zeroEmpty, values)
    ensures failed.Some? ==> failed.value == FirstFailure(e, zeroEmpty, values)
  {
    hide FlatItems, FirstFailure, Pieces, Convert;
    items, failed := [], None;
    FlatNone(e, zeroEmpty);
    for key := 0 to |values|
      invariant Converts(e, zeroEmpty, values[..key])
      invariant items == FlatItems(e, zeroEmpty, values[..key])
    {
      var value := values[key];
      var before := items;
      if value == "" {
        if zeroEmpty {
          items := items + [ZeroBasic(e.kind)];
        }
      } else {
        var item := Convert(e.kind, value);
        if item.Some? {
          items := items + [if e.isPtr then PtrV(item.value) else item.value];
        } else {
          var more: Option<seq<Value>> := None;
          if ',' in value {
            more := ConvertPieces(e, zeroEmpty, Text.Split(value, ','));
          }
          if more.None? {
            FirstFailureIs(e, zeroEmpty, values, key);
            return items, Some(key);
          }
          items := items + more.value;
        }
      }
      assert items == before + ValueItems(e, zeroEmpty, value).value;
      FlatStep(e, zeroEmpty, values, key);
    }
    assert values[..|values|] == values;
  }

  lemma FlatNone(e: ElemKind, zeroEmpty: bool)
    ensures FlatItems(e, zeroEmpty, []) == []
  {}

  lemma {:induction false} PiecesFail(e: ElemKind, zeroEmpty: bool, ss: seq<string>, j: nat)
    requires j < |ss| && Piece(e, zeroEmpty, ss[j]).None?
    ensures Pieces(e, zeroEmpty, ss).None?
  {
    if j < |ss| - 1 {
      PiecesFail(e, zeroEmpty, ss[..|ss| - 1], j);
    }
  }

  lemma FirstFailureIs(e: ElemKind, zeroEmpty: bool, values: seq<string>, i: nat)
    requires i < |values| && Converts(e, zeroEmpty, values[..i]) && ValueItems(e, zeroEmpty, values[i]).None?
    ensures !Converts(e, zeroEmpty, values) && FirstFailure(e, zeroEmpty, values) == i
  {
    hide ValueItems;
  }

  // ------------------------------------------------------------------------- moves

  /** The first `n` embedded pointers allocated. */
  function AllocFirst(fs: seq<Field>, vs: seq<Value>, n: nat): seq<Value>
    requires |fs| == |vs| && n <= |vs|
  {
    AllocEmbedded(fs, vs)[..n] + vs[n..]
  }

  lemma AllocNext(fs: seq<Field>, vs: seq<Value>, i: nat)
    requires |fs| == |vs| && i < |vs|
    ensures AllocFirst(fs, vs, i)[i] == vs[i]
    ensures AllocFirst(fs, vs, i + 1) == AllocFirst(fs, vs, i)[i := AllocField(fs[i], vs[i])]
    ensures AllocField(fs[i], vs[i]) == vs[i] ==> AllocFirst(fs, vs, i + 1) == AllocFirst(fs, vs, i)
  {}

  /** A pointer to a struct, or a struct, taken apart and put together again. */
  lemma StructBehind(t: Type, v: Value)
    requires HasType(v, t) && Base(t).Struct?
    ensures Pointee(t, v).StructV? && |Pointee(t, v).fields| == |Base(t).fields|
    ensures Close(t, Pointee(t, v).fields) == if t.Ptr? && v.Nil? then PtrV(Zero(t.elem)) else v
  {
    PointeeHasType(t, v);
  }

  /** The start of a lookup by name: follows a pointer and allocates embedded pointers. */
  method StartLookup(dst: Target, addr: seq<Move>, t: Type) returns (a: seq<Move>)
    requires Valid(dst.val, addr) && HasType(At(dst.val, addr), t) && Base(t).Struct?
    modifies dst
    ensures HasType(Pointee(t, old(At(dst.val, addr))), Base(t))
    ensures dst.val == SetAt(old(dst.val), addr,
              Close(t, AllocEmbedded(Base(t).fields, Pointee(t, old(At(dst.val, addr))).fields)))
    ensures a == addr + if t.Ptr? then [Deref] else []
  {
    hide HasType, Close, SetAt, Zero;
    ghost var root, v := dst.val, At(dst.val, addr);
    PointeeHasType(t, v);
    var fs := Base(t).fields;
    ghost var vs := Pointee(t, v).fields;
    StructBehind(t, v);
    a := addr;
    StoreSame(root, addr);
    if t.Ptr? {
      if At(dst.val, a).Nil? {
        dst.val := SetAt(dst.val, a, PtrV(Zero(t.elem)));
      }
      a := a + [Deref];
    }
    assert AllocFirst(fs, vs, 0) == vs;
    for i := 0 to |fs|
      invariant dst.val == SetAt(root, addr, Close(t, AllocFirst(fs, vs, i)))
    {
      StructReached(root, addr, t, AllocFirst(fs, vs, i), i);
      assert a + [Child(i)] == addr + Moves(t, Named(i));
      if fs[i].typ.Ptr? && At(dst.val, a + [Child(i)]).Nil? && fs[i].anonymous {
        dst.val := SetAt(dst.val, a + [Child(i)], PtrV(Zero(fs[i].typ.elem)));
      }
      AllocNext(fs, vs, i);
    }
    assert AllocFirst(fs, vs, |fs|) == AllocEmbedded(fs, vs);
  }

  /** A field of a struct stored at an address. */
  lemma StructReached(root: Value, addr: seq<Move>, t: Type, vs: seq<Value>, i: nat)
    requires Valid(root, addr) && Base(t).Struct? && |vs| == |Base(t).fields| && i < |vs|
    ensures var now := SetAt(root, addr, Close(t, vs));
            && Valid(now, addr + Moves(t, Named(i))) && At(now, addr + Moves(t, Named(i))) == vs[i]
            && forall x :: SetAt(now, addr + Moves(t, Named(i)), x) == SetAt(root, addr, Close(t, vs[i := x]))
  {
    hide Close;
    var now := SetAt(root, addr, Close(t, vs));
    ReadBack(root, addr, Close(t, vs));
    MovesReach(t, vs, Named(i));
    Further(now, addr, Moves(t, Named(i)));
    forall x ensures SetAt(now, addr + Moves(t, Named(i)), x) == SetAt(root, addr, Close(t, vs[i := x])) {
      StoreTwice(root, addr, Close(t, vs), Close(t, vs[i := x]));
    }
  }

  /** The rest of `FieldByName`: on through embedded structs, without allocating. */
  method FollowPromoted(dst: Target, addr: seq<Move>, t: Type, ix: seq<nat>, ghost rest: seq<Step>, ghost act: Act)
    returns (ok: bool, a: seq<Move>, u: Type)
    requires Valid(dst.val, addr) && HasType(At(dst.val, addr), t)
    requires Base(t).Struct? && IsSelector(Base(t).fields, ix)
    requires Typed(Selected(Base(t).fields, ix).typ, rest) && ActFits(TypeAt(Selected(Base(t).fields, ix).typ, rest), act)
    ensures Typed(t, PromotedSteps(ix) + rest) && ActFits(TypeAt(t, PromotedSteps(ix) + rest), act)
    ensures ok ==>
      && u == Selected(Base(t).fields, ix).typ && Valid(dst.val, a) && HasType(At(dst.val, a), u)
      && Land(dst.val, addr, Put(t, At(dst.val, addr), PromotedSteps(ix) + rest, act))
         == Land(dst.val, a, Put(u, At(dst.val, a), rest, act))
    ensures !ok ==> Put(t, At(dst.val, addr), PromotedSteps(ix) + rest, act).Panic?
  {
    hide HasType, Open, Close, Put;
    PromotedStepsFit(t, ix, rest);
    a, u := addr, t;
    var j := 0;
    while j < |ix|
      invariant 0 <= j <= |ix|
      invariant Valid(dst.val, a) && HasType(At(dst.val, a), u)
      invariant if j < |ix| then Base(u).Struct? && IsSelector(Base(u).fields, ix[j..])
                  && Selected(Base(u).fields, ix[j..]) == Selected(Base(t).fields, ix)
                else u == Selected(Base(t).fields, ix).typ
      invariant Typed(u, PromotedSteps(ix[j..]) + rest) && ActFits(TypeAt(u, PromotedSteps(ix[j..]) + rest), act)
      invariant Land(dst.val, addr, Put(t, At(dst.val, addr), PromotedSteps(ix) + rest, act))
             == Land(dst.val, a, Put(u, At(dst.val, a), PromotedSteps(ix[j..]) + rest, act))
    {
      ghost var before, tail := a, PromotedSteps(ix[j + 1..]) + rest;
      assert PromotedSteps(ix[j..]) + rest == [Promoted(ix[j])] + tail;
      if u.Ptr? && At(dst.val, a).Nil? {
        BlockedPanics(u, At(dst.val, a), Promoted(ix[j]), tail, act);
        return false, a, u;
      }
      PromotedOpen(dst.val, a, u, ix[j]);
      EnterKeepsOutcome(dst.val, a, u, Promoted(ix[j]), tail, act);
      a := a + if u.Ptr? then [Deref, Child(ix[j])] else [Child(ix[j])];
      assert ix[j..][1..] == ix[j + 1..] && (|ix[j..]| == 1 <==> j + 1 == |ix|);
      u := Base(u).fields[ix[j]].typ;
      j := j + 1;
    }
    assert PromotedSteps(ix[j..]) + rest == rest;
    return true, a, u;
  }

  /** Moving on to a promoted field stores nothing. */
  lemma PromotedOpen(root: Value, addr: seq<Move>, t: Type, i: nat)
    requires Valid(root, addr) && HasType(At(root, addr), t) && Base(t).Struct? && i < |Base(t).fields|
    requires !Blocked(t, At(root, addr), Promoted(i))
    ensures SetAt(root, addr, Close(t, Open(t, At(root, addr), Promoted(i)))) == root
  {
    StructBehind(t, At(root, addr));
    StoreSame(root, addr);
  }

  lemma BlockedPanics(t: Type, v: Value, s: Step, rest: seq<Step>, act: Act)
    requires HasType(v, t) && Typed(t, [s] + rest) && ActFits(TypeAt(t, [s] + rest), act) && Blocked(t, v, s)
    ensures Put(t, v, [s] + rest, act).Panic?
  {}

  // ------------------------------------------------------------------------- decode

  /** The tree once an effect has been applied to the value at an address. */
  function Final(root: Value, addr: seq<Move>, t: Type, e: Effect): Outcome
    requires Valid(root, addr) && HasType(At(root, addr), t) && EffectFits(t, e)
  {
    Land(root, addr, Apply(t, At(root, addr), e))
  }

  /** What one lookup by name leaves of the effect. */
  lemma NameEffect(t: Type, names: seq<string>, parts: seq<PathPart>, key: string, values: seq<string>, zeroEmpty: bool)
    requires parts != [] && names != []
    ensures var ke := PartsEffect(t, names, parts, key, values, zeroEmpty);
            if !Base(t).Struct? then ke == KeyEffect(Crashes, None)
            else match FieldByName(Base(t).fields, names[0])
              case None =>
                ke == if |names| == 1 then KeyEffect(Change([], Touch), None) else KeyEffect(Crashes, None)
              case Some(ix) =>
                && IsSelector(Base(t).fields, ix)
                && var next := PartsEffect(Selected(Base(t).fields, ix).typ, names[1..], parts, key, values, zeroEmpty);
                ke.err == next.err &&
                ke.effect == if next.effect.Change? then Change(Steps(ix) + next.effect.loc, next.effect.act)
                             else next.effect
  {
    if Base(t).Struct? && FieldByName(Base(t).fields, names[0]).Some? {
      var ix := FieldByName(Base(t).fields, names[0]).value;
      FoundSelector(Base(t).fields, names[0], ix);
      var u := Selected(Base(t).fields, ix).typ;
      var l := Locate(u, names[1..], parts);
      LocateTyped(u, names[1..], parts);
      if !l.Crash? {
        StepsFit(t, ix, LocOf(l));
      }
    }
  }

  lemma SelectorTail(fs: seq<Field>, ix: seq<nat>)
    requires IsSelector(fs, ix)
    ensures ix != [] && ix[0] < |fs|
    ensures if |ix| == 1 then Selected(fs, ix) == fs[ix[0]]
            else Base(fs[ix[0]].typ).Struct? && IsSelector(Base(fs[ix[0]].typ).fields, ix[1..])
                 && Selected(fs, ix) == Selected(Base(fs[ix[0]].typ).fields, ix[1..])
  {}

  lemma StepsSplit(ix: seq<nat>, rest: seq<Step>)
    requires ix != []
    ensures Steps(ix) + rest == [Named(ix[0])] + (PromotedSteps(ix[1..]) + rest)
  {}

  lemma OpenNamed(t: Type, v: Value, i: nat)
    requires HasType(v, t) && Base(t).Struct? && i < |Base(t).fields|
    ensures HasType(Pointee(t, v), Base(t))
    ensures Open(t, v, Named(i)) == AllocEmbedded(Base(t).fields, Pointee(t, v).fields)
  {
    PointeeHasType(t, v);
  }

  lemma PutTouch(t: Type, v: Value)
    requires HasType(v, t) && Base(t).Struct?
    ensures HasType(Pointee(t, v), Base(t))
    ensures Put(t, v, [], Touch) == Done(Close(t, AllocEmbedded(Base(t).fields, Pointee(t, v).fields)))
  {
    PointeeHasType(t, v);
  }

  /** The field found by a lookup, once the lookup has made its allocations. */
  method FollowSelector(dst: Target, ghost root: Value, ghost addr: seq<Move>, inner: seq<Move>, t: Type, ix: seq<nat>,
                        ghost rest: seq<Step>, ghost act: Act)
    returns (ok: bool, a: seq<Move>, u: Type)
    requires Valid(root, addr) && HasType(At(root, addr), t) && HasType(Pointee(t, At(root, addr)), Base(t))
    requires Base(t).Struct? && IsSelector(Base(t).fields, ix)
    requires Typed(Selected(Base(t).fields, ix).typ, rest) && ActFits(TypeAt(Selected(Base(t).fields, ix).typ, rest), act)
    requires dst.val == SetAt(root, addr, Close(t, AllocEmbedded(Base(t).fields, Pointee(t, At(root, addr)).fields)))
    requires inner == addr + if t.Ptr? then [Deref] else []
    ensures Typed(t, Steps(ix) + rest) && ActFits(TypeAt(t, Steps(ix) + rest), act)
    ensures ok ==>
      && u == Selected(Base(t).fields, ix).typ && Valid(dst.val, a) && HasType(At(dst.val, a), u)
      && Land(root, addr, Put(t, At(root, addr), Steps(ix) + rest, act)) == Land(dst.val, a, Put(u, At(dst.val, a), rest, act))
    ensures !ok ==> Put(t, At(root, addr), Steps(ix) + rest, act).Panic?
  {
    hide HasType, Put, Open, Close, Selected, IsSelector, SetAt;
    ghost var v := At(root, addr);
    SelectorTail(Base(t).fields, ix);
    StepsFit(t, ix, rest);
    StepsSplit(ix, rest);
    ghost var tail := PromotedSteps(ix[1..]) + rest;
    OpenNamed(t, v, ix[0]);
    EnterKeepsOutcome(root, addr, t, Named(ix[0]), tail, act);
    a, u := inner + [Child(ix[0])], Base(t).fields[ix[0]].typ;
    assert a == addr + Moves(t, Named(ix[0]));
    ok := true;
    if |ix| > 1 {
      ok, a, u := FollowPromoted(dst, a, u, ix[1..], rest, act);
    } else {
      assert tail == rest;
    }
  }

  /** One turn of the loop over names: a lookup in the struct at the address. */
  method StepName(dst: Target, addr: seq<Move>, t: Type, names: seq<string>, parts: seq<PathPart>,
                  key: string, values: seq<string>, zeroEmpty: bool)
    returns (r: Option<Result>, a: seq<Move>, u: Type)
    requires parts != [] && names != []
    requires Valid(dst.val, addr) && HasType(At(dst.val, addr), t)
    modifies dst
    ensures var ke := PartsEffect(t, names, parts, key, values, zeroEmpty);
            var final := Final(old(dst.val), addr, t, ke.effect);
            match r
            case Some(Panicked) => final == Panic
            case Some(Returned(err)) => final == Done(dst.val) && err == ke.err
            case None =>
              && Valid(dst.val, a) && HasType(At(dst.val, a), u)
              && var next := PartsEffect(u, names[1..], parts, key, values, zeroEmpty);
              ke.err == next.err && final == Final(dst.val, a, u, next.effect)
  {
    hide HasType, Put, Open, Close, PartsEffect, Selected, IsSelector, FieldByName, SetAt;
    ghost var root, v := dst.val, At(dst.val, addr);
    NameEffect(t, names, parts, key, values, zeroEmpty);
    a, u := addr, t;
    if !Base(t).Struct? {
      return Some(Panicked), a, u;
    }
    a := StartLookup(dst, addr, t);
    match FieldByName(Base(t).fields, names[0]) {
      case None =>
        if |names| == 1 {
          PutTouch(t, v);
          return Some(Returned(None)), a, u;
        }
        return Some(Panicked), a, u;
      case Some(ix) =>
        var f := Selected(Base(t).fields, ix);
        ghost var next := PartsEffect(f.typ, names[1..], parts, key, values, zeroEmpty);
        ghost var rest := if next.effect.Change? then next.effect.loc else [];
        ghost var act := if next.effect.Change? then next.effect.act else Keep;
        var ok;
        ok, a, u := FollowSelector(dst, root, addr, a, t, ix, rest, act);
        if !ok {
          return Some(Panicked), a, u;
        }
        return None, a, u;
    }
  }

  /** Follows a pointer, allocating it when nil. */
  method FollowPointer(dst: Target, addr: seq<Move>, t: Type) returns (a: seq<Move>)
    requires Valid(dst.val, addr) && HasType(At(dst.val, addr), t)
    modifies dst
    ensures HasType(Pointee(t, old(At(dst.val, addr))), Base(t))
    ensures Valid(dst.val, a) && At(dst.val, a) == Pointee(t, old(At(dst.val, addr)))
    ensures a == addr + if t.Ptr? then [Deref] else []
    ensures forall x :: SetAt(dst.val, a, x) == SetAt(old(dst.val), addr, if t.Ptr? then PtrV(x) else x)
    ensures dst.val == SetAt(old(dst.val), addr,
              if t.Ptr? then PtrV(Pointee(t, old(At(dst.val, addr)))) else old(At(dst.val, addr)))
  {
    hide HasType, SetAt, Zero;
    ghost var root, v := dst.val, At(dst.val, addr);
    PointeeHasType(t, v);
    StoreSame(root, addr);
    a := addr;
    if t.Ptr? {
      if At(dst.val, a).Nil? {
        dst.val := SetAt(dst.val, a, PtrV(Zero(t.elem)));
      }
      PointerReached(root, addr, t, v);
      a := a + [Deref];
    }
  }

  lemma PointerReached(root: Value, addr: seq<Move>, t: Type, v: Value)
    requires Valid(root, addr) && v == At(root, addr) && HasType(v, t) && t.Ptr?
    ensures var now := SetAt(root, addr, PtrV(Pointee(t, v)));
            && now == (if v.Nil? then SetAt(root, addr, PtrV(Zero(t.elem))) else root)
            && Valid(now, addr + [Deref]) && At(now, addr + [Deref]) == Pointee(t, v)
            && forall x :: SetAt(now, addr + [Deref], x) == SetAt(root, addr, PtrV(x))
  {
    var p := PtrV(Pointee(t, v));
    var now := SetAt(root, addr, p);
    StoreSame(root, addr);
    ReadBack(root, addr, p);
    var last := [Deref];
    assert last[1..] == [];
    assert Valid(p.target, last[1..]);
    assert Valid(p, last) && At(p, last) == At(p.target, last[1..]) == p.target;
    Further(now, addr, last);
    forall x ensures SetAt(now, addr + [Deref], x) == SetAt(root, addr, PtrV(x)) {
      assert SetAt(p, last, x) == PtrV(SetAt(p.target, last[1..], x)) == PtrV(x);
      StoreTwice(root, addr, p, PtrV(x));
    }
  }

  /** The end of `decode`: converts the values and sets the slot. */
  method SetSlot(dst: Target, addr: seq<Move>, t: Type, key: string, values: seq<string>, zeroEmpty: bool)
    returns (r: Result)
    requires Valid(dst.val, addr) && HasType(At(dst.val, addr), t)
    modifies dst
    ensures match LeafOf(t, key, values, zeroEmpty)
            case LeafCrash => r == Panicked
            case Leaf(act, err) =>
              r == Returned(err) && Land(old(dst.val), addr, Put(t, old(At(dst.val, addr)), [], act)) == Done(dst.val)
  {
    hide HasType, SetAt, Zero, Convert, FlatItems, FirstFailure, Converts;
    ghost var root, v := dst.val, At(dst.val, addr);
    var a := FollowPointer(dst, addr, t);
    var b := Base(t);
    if b.Slice? {
      var elem := Base(b.elem);
      if !elem.Basic? {
        return Returned(Some(NoConverter(elem)));
      }
      var items, failed := ConvertItems(ElemKind(elem.kind, b.elem.Ptr?), zeroEmpty, values);
      if failed.Some? {
        return Returned(Some(ConversionError(key, elem, failed.value)));
      }
      if exists i :: 0 <= i < |items| && !HasType(items[i], b.elem) {
        return Panicked;
      }
      dst.val := SetAt(dst.val, a, SliceV(items));
    } else {
      var val := "";
      if |values| > 0 {
        val := values[|values| - 1];
      }
      if val == "" {
        if zeroEmpty {
          dst.val := SetAt(dst.val, a, Zero(b));
        }
      } else if b.Basic? {
        var x := Convert(b.kind, val);
        if x.None? {
          return Returned(Some(ConversionError(key, b, -1)));
        }
        dst.val := SetAt(dst.val, a, x.value);
      } else {
        return Returned(Some(NoConverter(b)));
      }
    }
    return Returned(None);
  }

  /** Grows the slice at an address until an element exists, and moves to the element. */
  method EnterElement(dst: Target, addr: seq<Move>, t: Type, idx: nat, ghost rest: seq<Step>, ghost act: Act)
    returns (a: seq<Move>)
    requires Valid(dst.val, addr) && HasType(At(dst.val, addr), t) && Base(t).Slice?
    requires Typed(Base(t).elem, rest) && ActFits(TypeAt(Base(t).elem, rest), act)
    modifies dst
    ensures Typed(t, [Elem(idx)] + rest) && ActFits(TypeAt(t, [Elem(idx)] + rest), act)
    ensures Valid(dst.val, a) && HasType(At(dst.val, a), Base(t).elem)
    ensures Land(old(dst.val), addr, Put(t, old(At(dst.val, addr)), [Elem(idx)] + rest, act))
         == Land(dst.val, a, Put(Base(t).elem, At(dst.val, a), rest, act))
  {
    hide HasType, SetAt, Zero, Put;
    ghost var root, v := dst.val, At(dst.val, addr);
    assert ([Elem(idx)] + rest)[1..] == rest;
    SliceBehind(t, v);
    a := FollowPointer(dst, addr, t);
    var cur := At(dst.val, a);
    if cur.Nil? || |cur.elems| < idx + 1 {
      var value := seq(idx + 1, _ => Zero(Base(t).elem));
      if |Elements(cur)| < idx + 1 {
        value := Elements(cur) + value[|Elements(cur)|..];
      }
      assert value == Grow(Base(t).elem, Elements(cur), idx);
      dst.val := SetAt(dst.val, a, SliceV(value));
    }
    assert dst.val == SetAt(root, addr, Close(t, Open(t, v, Elem(idx))));
    EnterKeepsOutcome(root, addr, t, Elem(idx), rest, act);
    a := a + [Child(idx)];
    assert a == addr + Moves(t, Elem(idx));
  }

  /** What a slice index leaves of the effect, once the names of a part are walked. */
  lemma IndexEffect(t: Type, parts: seq<PathPart>, key: string, values: seq<string>, zeroEmpty: bool)
    requires |parts| > 1
    ensures var ke := PartsEffect(t, [], parts, key, values, zeroEmpty);
            if !Base(t).Slice? || parts[0].index < 0 then ke == KeyEffect(Crashes, None)
            else
              var next := PartsEffect(Base(t).elem, parts[1].path, parts[1..], key, values, zeroEmpty);
              ke.err == next.err &&
              ke.effect == if next.effect.Change?
                           then Change([Elem(parts[0].index)] + next.effect.loc, next.effect.act)
                           else next.effect
  {
    if Base(t).Slice? && parts[0].index >= 0 {
      var l := Locate(Base(t).elem, parts[1].path, parts[1..]);
      LocateTyped(Base(t).elem, parts[1].path, parts[1..]);
      if !l.Crash? {
        assert ([Elem(parts[0].index)] + LocOf(l))[1..] == LocOf(l);
      }
    }
  }

  lemma SlotEffect(t: Type, parts: seq<PathPart>, key: string, values: seq<string>, zeroEmpty: bool)
    requires |parts| == 1
    ensures PartsEffect(t, [], parts, key, values, zeroEmpty) ==
            match LeafOf(t, key, values, zeroEmpty)
            case LeafCrash => KeyEffect(Crashes, None)
            case Leaf(act, err) => KeyEffect(Change([], act), err)
  {}

  /** `decode`: fills the slot that the parts lead to, from the value at an address. */
  method Decode(dst: Target, addr: seq<Move>, t: Type, parts: seq<PathPart>,
                key: string, values: seq<string>, zeroEmpty: bool)
    returns (r: Result)
    requires parts != [] && Valid(dst.val, addr) && HasType(At(dst.val, addr), t)
    modifies dst
    ensures var ke := PartsEffect(t, parts[0].path, parts, key, values, zeroEmpty);
            match Final(old(dst.val), addr, t, ke.effect)
            case Panic => r == Panicked
            case Done(w) => r == Returned(ke.err) && dst.val == w
    decreases |parts|
  {
    hide HasType, Put, PartsEffect, SetAt, LeafOf;
    var names := parts[0].path;
    var a, u, n := addr, t, 0;
    ghost var ke := PartsEffect(t, names, parts, key, values, zeroEmpty);
    ghost var final := Final(dst.val, addr, t, ke.effect);
    assert names[0..] == names;
    while n < |names|
      invariant 0 <= n <= |names| && Valid(dst.val, a) && HasType(At(dst.val, a), u)
      invariant ke.err == PartsEffect(u, names[n..], parts, key, values, zeroEmpty).err
      invariant final == Final(dst.val, a, u, PartsEffect(u, names[n..], parts, key, values, zeroEmpty).effect)
    {
      var stop;
      assert names[n..][1..] == names[n + 1..];
      stop, a, u := StepName(dst, a, u, names[n..], parts, key, values, zeroEmpty);
      if stop.Some? {
        return stop.value;
      }
      n := n + 1;
    }
    assert names[n..] == [];
    if |parts| > 1 {
      IndexEffect(u, parts, key, values, zeroEmpty);
      if !Base(u).Slice? || parts[0].index < 0 {
        return Panicked;
      }
      var elem := Base(u).elem;
      ghost var next := PartsEffect(elem, parts[1].path, parts[1..], key, values, zeroEmpty);
      ghost var rest := if next.effect.Change? then next.effect.loc else [];
      ghost var act := if next.effect.Change? then next.effect.act else Keep;
      a := EnterElement(dst, a, u, parts[0].index, rest, act);
      r := Decode(dst, a, elem, parts[1..], key, values, zeroEmpty);
    } else {
      SlotEffect(u, parts, key, values, zeroEmpty);
      r := SetSlot(dst, a, u, key, values, zeroEmpty);
    }
  }
}
