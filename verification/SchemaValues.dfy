/**
 What the texts of a key leave in the target, told by the texts, the settings and the type of the
 slot: single values, slices, and everything beside the slot.
 */
module SchemaValues {
  import opened Wrappers
  import opened SchemaTypes
  import opened SchemaTarget
  import opened SchemaOrder
  import opened SchemaRuns
  import opened SchemaEffects
  import opened SchemaPath
  import opened SchemaPlaces
  import opened SchemaRoutes
  import Converter
  import Text

  // ------------------------------------------------------------------------- which texts convert

  /** The values of the basic kinds, and the texts they are converted from. */
  lemma ConvertIff(k: Kind, s: string, x: Value)
    ensures k.BoolKind? ==> (Convert(k, s) == Some(x) <==> x.BoolV? && Converter.ParseBool(s) == Some(x.b))
    ensures k.StringKind? ==> (Convert(k, s) == Some(x) <==> x == StringV(s))
    ensures k.IntKind? ==>
              (Convert(k, s) == Some(x) <==> HasBasicType(x, k) && IsSigned(s, x.i))
    ensures k.UintKind? ==>
              (Convert(k, s) == Some(x) <==> HasBasicType(x, k) && Converter.IsNumeral(s, x.i))
  {
    hide Converter.IsNumeral, Converter.ParseInt, Converter.ParseUint, Converter.Pow2;
    if k.IntKind? && x.IntV? {
      Converter.ParseIntIff(s, Bits(k.width), x.i);
    } else if k.UintKind? && x.IntV? && x.i >= 0 {
      Converter.ParseUintIff(s, Bits(k.width), x.i);
    }
  }

  /** A decimal number, with or without a sign in front. */
  ghost predicate IsSigned(s: string, i: int) {
    || (i >= 0 && Converter.IsNumeral(s, i))
    || (i >= 0 && s != "" && s[0] == '+' && Converter.IsNumeral(s[1..], i))
    || (i <= 0 && s != "" && s[0] == '-' && Converter.IsNumeral(s[1..], -i))
  }

  // ------------------------------------------------------------------------- slices

  /** The texts of one value: itself if it is empty or converts, and else its parts between commas. */
  function Texts(k: Kind, s: string): seq<string> {
    if s == "" || Convert(k, s).Some? then [s] else Text.Split(s, ',')
  }

  function AllTexts(k: Kind, values: seq<string>): seq<string> {
    if values == [] then [] else AllTexts(k, values[..|values| - 1]) + Texts(k, values[|values| - 1])
  }

  /** Without zeroEmpty, empty texts are skipped. */
  function Kept(zeroEmpty: bool, texts: seq<string>): seq<string> {
    if texts == [] then []
    else
      var last := texts[|texts| - 1];
      Kept(zeroEmpty, texts[..|texts| - 1]) + if last == "" && !zeroEmpty then [] else [last]
  }

  /** The item of a text; with zeroEmpty, that of an empty text is a zero value, in a slice of pointers too. */
  predicate IsItem(e: ElemKind, s: string, x: Value) {
    if s == "" then x == ZeroBasic(e.kind)
    else Convert(e.kind, s).Some? && x == if e.isPtr then PtrV(Convert(e.kind, s).value) else Convert(e.kind, s).value
  }

  predicate AreItems(e: ElemKind, texts: seq<string>, items: seq<Value>) {
    |items| == |texts| && forall i :: 0 <= i < |texts| ==> IsItem(e, texts[i], items[i])
  }

  predicate AllConvert(k: Kind, texts: seq<string>) {
    forall i :: 0 <= i < |texts| ==> texts[i] == "" || Convert(k, texts[i]).Some?
  }

  lemma {:induction false} KeptConcat(zeroEmpty: bool, a: seq<string>, b: seq<string>)
    ensures Kept(zeroEmpty, a + b) == Kept(zeroEmpty, a) + Kept(zeroEmpty, b)
  {
    if b == [] {
      assert a + b == a;
    } else {
      var n := |b| - 1;
      KeptConcat(zeroEmpty, a, b[..n]);
      assert (a + b)[..|a| + n] == a + b[..n];
      Regroup(Kept(zeroEmpty, a), Kept(zeroEmpty, b[..n]), if b[n] == "" && !zeroEmpty then [] else [b[n]]);
    }
  }

  lemma Regroup(a: seq<string>, b: seq<string>, c: seq<string>)
    ensures (a + b) + c == a + (b + c)
  {}

  lemma KeptOne(zeroEmpty: bool, s: string)
    ensures Kept(zeroEmpty, [s]) == if s == "" && !zeroEmpty then [] else [s]
  {
    assert [s][..0] == [];
  }

  lemma ConvertConcat(k: Kind, a: seq<string>, b: seq<string>)
    ensures AllConvert(k, a + b) <==> AllConvert(k, a) && AllConvert(k, b)
  {
    hide Convert;
    assert forall i :: 0 <= i < |b| ==> (a + b)[|a| + i] == b[i];
    assert forall i :: 0 <= i < |a| ==> (a + b)[i] == a[i];
  }

  lemma ItemsConcat(e: ElemKind, a: seq<string>, xs: seq<Value>, b: seq<string>, ys: seq<Value>)
    requires AreItems(e, a, xs) && AreItems(e, b, ys)
    ensures AreItems(e, a + b, xs + ys)
  {
    hide IsItem;
  }

  lemma PieceItems(e: ElemKind, zeroEmpty: bool, s: string)
    ensures Piece(e, zeroEmpty, s).Some? <==> s == "" || Convert(e.kind, s).Some?
    ensures Piece(e, zeroEmpty, s).Some? ==> AreItems(e, Kept(zeroEmpty, [s]), Piece(e, zeroEmpty, s).value)
  {
    hide Convert;
    KeptOne(zeroEmpty, s);
  }

  lemma {:induction false} PiecesItems(e: ElemKind, zeroEmpty: bool, ss: seq<string>)
    ensures Pieces(e, zeroEmpty, ss).Some? <==> AllConvert(e.kind, ss)
    ensures Pieces(e, zeroEmpty, ss).Some? ==> AreItems(e, Kept(zeroEmpty, ss), Pieces(e, zeroEmpty, ss).value)
  {
    hide Convert, Piece, IsItem;
    if ss != [] {
      var front, last := ss[..|ss| - 1], ss[|ss| - 1];
      PiecesItems(e, zeroEmpty, front);
      PieceItems(e, zeroEmpty, last);
      KeptConcat(zeroEmpty, front, [last]);
      assert ss == front + [last];
      assert AllConvert(e.kind, ss) <==> AllConvert(e.kind, front) && (last == "" || Convert(e.kind, last).Some?);
      if Pieces(e, zeroEmpty, ss).Some? {
        ItemsConcat(e, Kept(zeroEmpty, front), Pieces(e, zeroEmpty, front).value,
                    Kept(zeroEmpty, [last]), Piece(e, zeroEmpty, last).value);
      }
    }
  }

  /** One value: it converts if all its texts do, and then has one item for each text that is kept, in order. */
  lemma ValueHasItems(e: ElemKind, zeroEmpty: bool, s: string)
    ensures ValueItems(e, zeroEmpty, s).Some? <==> AllConvert(e.kind, Texts(e.kind, s))
    ensures ValueItems(e, zeroEmpty, s).Some? ==>
              AreItems(e, Kept(zeroEmpty, Texts(e.kind, s)), ValueItems(e, zeroEmpty, s).value)
  {
    hide Convert, Piece, Pieces, AreItems, Kept, Text.Split;
    PieceItems(e, zeroEmpty, s);
    if s != "" && Convert(e.kind, s).None? {
      PiecesItems(e, zeroEmpty, Text.Split(s, ','));
      if ',' !in s {
        Text.SplitPlain(s, ',');
        assert Text.Split(s, ',')[0] == s;
      }
    }
  }

  lemma NoItems(e: ElemKind, zeroEmpty: bool)
    ensures AllConvert(e.kind, []) && AreItems(e, Kept(zeroEmpty, []), [])
  {}

  /**
   The items of all values: one for each text that is kept, in order, unless some text does not
   convert.
   */
  lemma {:induction false} SliceHasItems(e: ElemKind, zeroEmpty: bool, values: seq<string>)
    ensures Converts(e, zeroEmpty, values) <==> AllConvert(e.kind, AllTexts(e.kind, values))
    ensures Converts(e, zeroEmpty, values) ==>
              AreItems(e, Kept(zeroEmpty, AllTexts(e.kind, values)), FlatItems(e, zeroEmpty, values))
  {
    hide Convert, ValueItems, IsItem, Texts, AllConvert, AreItems, Kept;
    NoItems(e, zeroEmpty);
    if values != [] {
      var front, last := values[..|values| - 1], values[|values| - 1];
      var a, b := AllTexts(e.kind, front), Texts(e.kind, last);
      SliceHasItems(e, zeroEmpty, front);
      ValueHasItems(e, zeroEmpty, last);
      KeptConcat(zeroEmpty, a, b);
      ConvertConcat(e.kind, a, b);
      assert values == front + [last];
      assert Converts(e, zeroEmpty, values) <==> Converts(e, zeroEmpty, front) && ValueItems(e, zeroEmpty, last).Some?;
      if Converts(e, zeroEmpty, values) {
        ItemsConcat(e, Kept(zeroEmpty, a), FlatItems(e, zeroEmpty, front),
                    Kept(zeroEmpty, b), ValueItems(e, zeroEmpty, last).value);
      }
    }
  }

  // ------------------------------------------------------------------------- what is left in the target

  /** A key of a route that does not walk through an embedded pointer that may be nil. */
  ghost predicate Reaches(t: Type, v: Value, route: seq<Hop>) {
    && t.Struct? && HasType(v, t) && IsRoute(t, route)
    && (PlaceFits(t, route); Safe(t, Place(route), false))
  }

  /** The text that a single value is decoded from. */
  function LastText(values: seq<string>): string {
    if values == [] then "" else values[|values| - 1]
  }

  /** Decoding a key leaves this value in its slot, behind a pointer if that is its type, and reports this error. */
  ghost predicate Leaves(t: Type, v: Value, route: seq<Hop>, values: seq<string>, cfg: Config,
                         x: Value, err: Option<Error>)
    requires Reaches(t, v, route)
  {
    var ke := EffectOf(t, Key(route), values, cfg);
    var r := Apply(t, v, ke.effect);
    PlaceFits(t, route);
    && ke.err == err && r.Done? && HasType(r.v, t)
    && Read(t, r.v, Place(route)) == if SlotOf(t, route).Ptr? then PtrV(x) else x
  }

  /** What was behind the pointer of the slot. */
  ghost function Before(t: Type, v: Value, route: seq<Hop>): Value
    requires Reaches(t, v, route)
  {
    PlaceFits(t, route);
    Peek(t, v, Place(route))
  }

  lemma LeafLeaves(t: Type, v: Value, route: seq<Hop>, values: seq<string>, cfg: Config, act: Act, err: Option<Error>)
    requires Reaches(t, v, route) && !act.Touch?
    requires LeafOf(SlotOf(t, route), Key(route), values, cfg.zeroEmpty) == Leaf(act, err)
    ensures Leaves(t, v, route, values, cfg, if act.Assign? then act.w else Before(t, v, route), err)
  {
    hide IsRoute, Place, Key, LeafOf, EffectOf, Safe, HasType, Put;
    RouteIsFound(t, route, values, cfg);
    PlaceFits(t, route);
    var loc := Place(route);
    SafePutIsDone(t, v, loc, act, false);
    EditedHere(t, v, loc, act);
  }

  /**
   A slot that is no slice, behind its pointer: the last text decides. An empty one, or none, sets
   the zero value if zeroEmpty is on and else changes nothing; one that converts sets what it
   converts to; one that does not changes nothing, and is reported without an index.
   */
  lemma SingleValueLeaves(t: Type, v: Value, route: seq<Hop>, values: seq<string>, cfg: Config)
    requires Reaches(t, v, route) && !Base(SlotOf(t, route)).Slice?
    ensures var b, text, was := Base(SlotOf(t, route)), LastText(values), Before(t, v, route);
            && (text == "" ==> Leaves(t, v, route, values, cfg, if cfg.zeroEmpty then Zero(b) else was, None))
            && (text != "" && !b.Basic? ==> Leaves(t, v, route, values, cfg, was, Some(NoConverter(b))))
            && (text != "" && b.Basic? ==>
                  match Convert(b.kind, text)
                  case Some(x) => Leaves(t, v, route, values, cfg, x, None)
                  case None => Leaves(t, v, route, values, cfg, was, Some(ConversionError(Key(route), b, -1))))
  {
    hide IsRoute, Place, Key, EffectOf, Safe, HasType, Peek, Leaves, Convert, Before;
    var slot, key := SlotOf(t, route), Key(route);
    var l := LeafOf(slot, key, values, cfg.zeroEmpty);
    SingleLeaf(slot, key, values, cfg.zeroEmpty);
    LeafLeaves(t, v, route, values, cfg, l.act, l.err);
  }

  lemma SingleLeaf(slot: Type, key: string, values: seq<string>, zeroEmpty: bool)
    requires !Base(slot).Slice?
    ensures var b, text, l := Base(slot), LastText(values), LeafOf(slot, key, values, zeroEmpty);
            && l.Leaf? && !l.act.Touch?
            && (text == "" ==> l == Leaf(if zeroEmpty then Assign(Zero(b)) else Keep, None))
            && (text != "" && !b.Basic? ==> l == Leaf(Keep, Some(NoConverter(b))))
            && (text != "" && b.Basic? ==>
                  l == match Convert(b.kind, text)
                       case Some(x) => Leaf(Assign(x), None)
                       case None => Leaf(Keep, Some(ConversionError(key, b, -1))))
  {
    hide Convert;
  }

  lemma {:induction false} EmptyText(k: Kind, values: seq<string>)
    ensures "" in AllTexts(k, values) <==> exists i :: 0 <= i < |values| && HasEmptyPiece(ElemKind(k, true), values[i])
  {
    hide Convert, Text.Split;
    if values != [] {
      var n := |values| - 1;
      EmptyText(k, values[..n]);
      assert "" in Texts(k, values[n]) <==> HasEmptyPiece(ElemKind(k, true), values[n]);
      if i :| 0 <= i < |values| && HasEmptyPiece(ElemKind(k, true), values[i]) {
        assert i < n ==> values[..n][i] == values[i];
      }
    }
  }

  /** The first value one of whose texts does not convert. */
  predicate FailsFirst(k: Kind, values: seq<string>, i: nat) {
    && i < |values| && !AllConvert(k, Texts(k, values[i]))
    && forall j :: 0 <= j < i ==> AllConvert(k, Texts(k, values[j]))
  }

  lemma FailureIsFirst(e: ElemKind, zeroEmpty: bool, values: seq<string>)
    requires !Converts(e, zeroEmpty, values)
    ensures FailsFirst(e.kind, values, FirstFailure(e, zeroEmpty, values))
  {
    hide AllConvert, Texts, ValueItems;
    var i := FirstFailure(e, zeroEmpty, values);
    ValueHasItems(e, zeroEmpty, values[i]);
    forall j | 0 <= j < i ensures AllConvert(e.kind, Texts(e.kind, values[j])) {
      assert values[..i][j] == values[j];
      ValueHasItems(e, zeroEmpty, values[j]);
    }
  }

  /** The panic of a slice of pointers with an empty text. */
  predicate ZeroIsNoPointer(elem: Type, cfg: Config, texts: seq<string>) {
    elem.Ptr? && cfg.zeroEmpty && "" in texts
  }

  lemma SliceLeaf(slot: Type, key: string, values: seq<string>, cfg: Config)
    requires Base(slot).Slice? && Base(Base(slot).elem).Basic?
    ensures var elem := Base(slot).elem;
            var e, l := ElemKind(Base(elem).kind, elem.Ptr?), LeafOf(slot, key, values, cfg.zeroEmpty);
            var texts := AllTexts(e.kind, values);
            && (l.LeafCrash? <==> AllConvert(e.kind, texts) && ZeroIsNoPointer(elem, cfg, texts))
            && (l.Leaf? && AllConvert(e.kind, texts) ==>
                  l.err.None? && l.act.Assign? && l.act.w.SliceV? && AreItems(e, Kept(cfg.zeroEmpty, texts), l.act.w.elems))
            && (!AllConvert(e.kind, texts) ==>
                  exists i: nat :: FailsFirst(e.kind, values, i) && l == Leaf(Keep, Some(ConversionError(key, Base(elem), i))))
  {
    hide Convert, AllConvert, AllTexts, Kept, AreItems, FlatItems, HasEmptyPiece, ValueItems, FailsFirst;
    var elem := Base(slot).elem;
    var e := ElemKind(Base(elem).kind, elem.Ptr?);
    SliceHasItems(e, cfg.zeroEmpty, values);
    LeafCrashIff(slot, key, values, cfg.zeroEmpty);
    EmptyText(e.kind, values);
    if !Converts(e, cfg.zeroEmpty, values) {
      FailureIsFirst(e, cfg.zeroEmpty, values);
    }
  }

  /**
   A slice, behind its pointer: it becomes the items of all texts, in order, whatever it held; or,
   if a text does not convert, it is kept and the first value with such a text is reported. With
   zeroEmpty an empty text is a zero item, without it is skipped.
   */
  lemma SliceLeaves(t: Type, v: Value, route: seq<Hop>, values: seq<string>, cfg: Config)
    requires Reaches(t, v, route) && Base(SlotOf(t, route)).Slice?
    ensures var elem, was := Base(SlotOf(t, route)).elem, Before(t, v, route);
            if !Base(elem).Basic? then Leaves(t, v, route, values, cfg, was, Some(NoConverter(Base(elem))))
            else
              var e := ElemKind(Base(elem).kind, elem.Ptr?);
              var texts := AllTexts(e.kind, values);
              if !AllConvert(e.kind, texts) then
                exists i: nat :: FailsFirst(e.kind, values, i) &&
                  Leaves(t, v, route, values, cfg, was, Some(ConversionError(Key(route), Base(elem), i)))
              else if ZeroIsNoPointer(elem, cfg, texts) then EffectOf(t, Key(route), values, cfg).effect.Crashes?
              else
                exists items :: AreItems(e, Kept(cfg.zeroEmpty, texts), items) &&
                  Leaves(t, v, route, values, cfg, SliceV(items), None)
  {
    hide IsRoute, Place, Key, Safe, HasType, Peek, Leaves, Convert, Before, EffectOf;
    hide AllConvert, AllTexts, Kept, AreItems, FailsFirst, FlatItems, Converts, FirstFailure;
    var slot, key := SlotOf(t, route), Key(route);
    var l := LeafOf(slot, key, values, cfg.zeroEmpty);
    if Base(Base(slot).elem).Basic? {
      SliceLeaf(slot, key, values, cfg);
    }
    if l.Leaf? {
      LeafLeaves(t, v, route, values, cfg, l.act, l.err);
    } else {
      RouteIsFound(t, route, values, cfg);
    }
  }

  /** Nothing changed at the location, but a nil embedded pointer on the way may have been allocated. */
  predicate KeptBeside(t: Type, v: Value, w: Value, loc: seq<Step>, other: seq<Step>)
    requires HasType(v, t) && HasType(w, t) && Typed(t, loc) && Typed(t, other)
  {
    && Peek(t, w, other) == Peek(t, v, other)
    && Read(t, w, other) ==
       if AllocatedOnTheWay(t, loc, other) && Read(t, v, other).Nil? then PtrV(Zero(TypeAt(t, other).elem))
       else Read(t, v, other)
  }

  /**
   Beside its slot a key changes nothing, but for the nil embedded pointers on its way, which it
   allocates.
   */
  lemma KeyElsewhere(t: Type, v: Value, route: seq<Hop>, values: seq<string>, cfg: Config, other: seq<Step>)
    requires Reaches(t, v, route) && Typed(t, other) && Diverge(Place(route), other)
    requires !EffectOf(t, Key(route), values, cfg).effect.Crashes?
    ensures var r := Apply(t, v, EffectOf(t, Key(route), values, cfg).effect);
            r.Done? && HasType(r.v, t) && Typed(t, Place(route)) && KeptBeside(t, v, r.v, Place(route), other)
  {
    hide IsRoute, Place, Key, LeafOf, EffectOf, Safe, HasType, Peek, Read, Put, AllocatedOnTheWay;
    RouteIsFound(t, route, values, cfg);
    PlaceFits(t, route);
    var loc, act := Place(route), EffectOf(t, Key(route), values, cfg).effect.act;
    SafePutIsDone(t, v, loc, act, false);
    EditedElsewhere(t, v, loc, act, other);
  }

  /**
   A key that is parsed, but whose last Go name is not found in the value, as it can be when names
   are ambiguous: nothing is set and nothing is reported. All fields of the struct where the name
   was looked up read as before.
   */
  lemma MissingNameSetsNothing(t: Type, v: Value, key: string, values: seq<string>, cfg: Config, i: nat)
    requires HasType(v, t) && ParsePath(key, t).Some?
    requires var parts := ParsePath(key, t).value;
             var l := Locate(t, parts[0].path, parts);
             l.Missing? && Typed(t, l.loc) && Safe(t, l.loc, false) && Base(TypeAt(t, l.loc)).Struct?
             && i < |Base(TypeAt(t, l.loc)).fields|
    ensures var ke := EffectOf(t, key, values, cfg);
            var loc := Locate(t, ParsePath(key, t).value[0].path, ParsePath(key, t).value).loc;
            && ke.err == None && Apply(t, v, ke.effect).Done? && HasType(Apply(t, v, ke.effect).v, t)
            && FieldAsBefore(t, v, Apply(t, v, ke.effect).v, loc, i)
  {
    hide ParsePath, Locate, Safe, Typed, HasType, Peek, Put, FieldAsBefore;
    var parts := ParsePath(key, t).value;
    var loc := Locate(t, parts[0].path, parts).loc;
    SafePutIsDone(t, v, loc, Touch, false);
    EditedHere(t, v, loc, Touch);
    TouchedField(t, v, Put(t, v, loc, Touch).v, loc, i);
  }

  /** In the struct itself: a name that is embedded twice, or not at all, is not found. */
  lemma NameNotFound(t: Type, v: Value, key: string, values: seq<string>, cfg: Config, i: nat)
    requires t.Struct? && HasType(v, t) && ParsePath(key, t).Some? && i < |t.fields|
    requires var path := ParsePath(key, t).value[0].path;
             |path| == 1 && forall ix :: !FirstHit(t.fields, path[0], ix)
    ensures var ke := EffectOf(t, key, values, cfg);
            && ke.err == None && Apply(t, v, ke.effect).Done?
            && var w := Apply(t, v, ke.effect).v;
               HasType(w, t) && Pointee(t.fields[i].typ, w.fields[i]) == Pointee(t.fields[i].typ, v.fields[i])
  {
    hide ParsePath, FirstHit, SearchName, HasType, Put;
    var parts := ParsePath(key, t).value;
    var name := parts[0].path[0];
    if FieldByName(t.fields, name).Some? {
      FieldByNameIff(t.fields, name, FieldByName(t.fields, name).value);
    }
    assert Locate(t, parts[0].path, parts) == Missing([]);
    MissingNameSetsNothing(t, v, key, values, cfg, i);
  }

  /** A field of the struct at a location, read through its pointer. */
  predicate FieldAsBefore(t: Type, v: Value, w: Value, loc: seq<Step>, i: nat)
    requires HasType(v, t) && HasType(w, t) && Typed(t, loc)
    requires Base(TypeAt(t, loc)).Struct? && i < |Base(TypeAt(t, loc)).fields|
  {
    var u := Base(TypeAt(t, loc)).fields[i].typ;
    Pointee(u, Peek(t, w, loc).fields[i]) == Pointee(u, Peek(t, v, loc).fields[i])
  }

  lemma TouchedField(t: Type, v: Value, w: Value, loc: seq<Step>, i: nat)
    requires HasType(v, t) && HasType(w, t) && Typed(t, loc)
    requires Base(TypeAt(t, loc)).Struct? && i < |Base(TypeAt(t, loc)).fields|
    requires Peek(t, w, loc) == ActOn(TypeAt(t, loc), Peek(t, v, loc), Touch)
    ensures FieldAsBefore(t, v, w, loc, i)
  {
    hide Peek, Typed, TypeAt;
    ZeroHasType(Base(TypeAt(t, loc)).fields[i].typ);
  }
}
