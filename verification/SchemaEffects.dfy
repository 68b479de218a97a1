/**
 What a source key does to the target: conversion of its values, the edit it makes, the error
 it reports. Decoding a map makes the edits of its keys in whatever order Go ranges over it.
 */
module SchemaEffects {
  import opened Wrappers
  import opened SchemaTypes
  import opened SchemaTarget
  import opened SchemaOrder
  import opened SchemaRuns
  import opened SchemaPath
  import Converter
  import Permutations
  import Text

  type Source = map<string, seq<string>>

  datatype Config = Config(zeroEmpty: bool, ignoreUnknownKeys: bool)

  datatype Error =
    | UnknownKeyError(key: string)
    | ConversionError(key: string, typ: Type, index: int)
    | NoConverter(typ: Type)
    | EmptyFieldError(key: string)

  // ------------------------------------------------------------------------- conversion

  /** `builtinConverters`. */
  function Convert(k: Kind, s: string): (r: Option<Value>)
    ensures r.Some? ==> HasBasicType(r.value, k)
  {
    match k
    case BoolKind => (match Converter.ParseBool(s) case Some(b) => Some(BoolV(b)) case None => None)
    case StringKind => Some(StringV(s))
    case IntKind(w) => (match Converter.ParseInt(s, Bits(w)) case Some(i) => Some(IntV(i)) case None => None)
    case UintKind(w) => (match Converter.ParseUint(s, Bits(w)) case Some(i) => Some(IntV(i)) case None => None)
  }

  /** The element type of a slice of basic values or of pointers to them. */
  datatype ElemKind = ElemKind(kind: Kind, isPtr: bool)

  /** One piece of text: nothing, a zero or a converted item; `None` if it does not convert. */
  function Piece(e: ElemKind, zeroEmpty: bool, s: string): Option<seq<Value>> {
    if s == "" then Some(if zeroEmpty then [ZeroBasic(e.kind)] else [])
    else match Convert(e.kind, s)
      case Some(x) => Some([if e.isPtr then PtrV(x) else x])
      case None => None
  }

  /** The items of pieces in a row, unless one does not convert. */
  function Pieces(e: ElemKind, zeroEmpty: bool, ss: seq<string>): Option<seq<Value>> {
    if ss == [] then Some([])
    else
      match (Pieces(e, zeroEmpty, ss[..|ss| - 1]), Piece(e, zeroEmpty, ss[|ss| - 1]))
      case (Some(front), Some(last)) => Some(front + last)
      case _ => None
  }

  /** The items of one value: whole, or else split at commas. */
  function ValueItems(e: ElemKind, zeroEmpty: bool, s: string): Option<seq<Value>> {
    if Piece(e, zeroEmpty, s).Some? then Piece(e, zeroEmpty, s)
    else if ',' in s then Pieces(e, zeroEmpty, Text.Split(s, ','))
    else None
  }

  predicate Converts(e: ElemKind, zeroEmpty: bool, values: seq<string>) {
    forall i :: 0 <= i < |values| ==> ValueItems(e, zeroEmpty, values[i]).Some?
  }

  /** The concatenation of the items of all values. */
  function FlatItems(e: ElemKind, zeroEmpty: bool, values: seq<string>): seq<Value>
    requires Converts(e, zeroEmpty, values)
  {
    if values == [] then []
    else
      FlatItems(e, zeroEmpty, values[..|values| - 1]) + ValueItems(e, zeroEmpty, values[|values| - 1]).value
  }

  /** The first value that does not convert. */
  function FirstFailure(e: ElemKind, zeroEmpty: bool, values: seq<string>): (i: nat)
    requires !Converts(e, zeroEmpty, values)
    ensures i < |values| && ValueItems(e, zeroEmpty, values[i]).None?
    ensures Converts(e, zeroEmpty, values[..i])
  {
    if Converts(e, zeroEmpty, values[..|values| - 1]) then |values| - 1
    else
      var i := FirstFailure(e, zeroEmpty, values[..|values| - 1]);
      assert values[..|values| - 1][..i] == values[..i];
      i
  }

  // ------------------------------------------------------------------------- one key

  /** The end of `decode`: what is set in a slot of type `t`, and the error returned. */
  datatype Leaf = Leaf(act: Act, err: Option<Error>) | LeafCrash

  function LeafOf(t: Type, key: string, values: seq<string>, zeroEmpty: bool): (r: Leaf)
    ensures r.Leaf? ==> ActFits(t, r.act)
  {
    var b := Base(t);
    if b.Slice? then
      if !Base(b.elem).Basic? then Leaf(Keep, Some(NoConverter(Base(b.elem))))
      else
        var e := ElemKind(Base(b.elem).kind, b.elem.Ptr?);
        if !Converts(e, zeroEmpty, values) then
          Leaf(Keep, Some(ConversionError(key, Base(b.elem), FirstFailure(e, zeroEmpty, values))))
        else
          var items := FlatItems(e, zeroEmpty, values);
          if forall i :: 0 <= i < |items| ==> HasType(items[i], b.elem) then Leaf(Assign(SliceV(items)), None)
          else LeafCrash
    else
      var val := if values == [] then "" else values[|values| - 1];
      ZeroHasType(b);
      if val == "" then Leaf(if zeroEmpty then Assign(Zero(b)) else Keep, None)
      else if b.Basic? then
        match Convert(b.kind, val)
        case Some(x) => Leaf(Assign(x), None)
        case None => Leaf(Keep, Some(ConversionError(key, b, -1)))
      else Leaf(Keep, Some(NoConverter(b)))
  }

  // ------------------------------------------------------------------------- pointers to basic values

  /** Among the pieces of the value there is an empty one. */
  predicate HasEmptyPiece(e: ElemKind, s: string) {
    s == "" || (Convert(e.kind, s).None? && "" in Text.Split(s, ','))
  }

  predicate AllPointers(items: seq<Value>) {
    forall i :: 0 <= i < |items| ==> items[i].PtrV?
  }

  lemma PointersConcat(a: seq<Value>, b: seq<Value>)
    ensures AllPointers(a + b) <==> AllPointers(a) && AllPointers(b)
  {
    assert forall i :: 0 <= i < |b| ==> (a + b)[|a| + i] == b[i];
    assert forall i :: 0 <= i < |a| ==> (a + b)[i] == a[i];
  }

  lemma PiecePointers(k: Kind, zeroEmpty: bool, s: string)
    requires Piece(ElemKind(k, true), zeroEmpty, s).Some?
    ensures AllPointers(Piece(ElemKind(k, true), zeroEmpty, s).value) <==> !zeroEmpty || s != ""
  {
    assert !ZeroBasic(k).PtrV?;
    if s == "" && zeroEmpty {
      assert !Piece(ElemKind(k, true), zeroEmpty, s).value[0].PtrV?;
    }
  }

  lemma {:induction false} PiecesPointers(k: Kind, zeroEmpty: bool, ss: seq<string>)
    requires Pieces(ElemKind(k, true), zeroEmpty, ss).Some?
    ensures var items := Pieces(ElemKind(k, true), zeroEmpty, ss).value;
            && (AllPointers(items) <==> !zeroEmpty || "" !in ss)
            && forall i :: 0 <= i < |items| ==>
                 HasType(items[i], Basic(k)) || (items[i].PtrV? && HasType(items[i].target, Basic(k)))
  {
    if ss != [] {
      var n := |ss| - 1;
      PiecesPointers(k, zeroEmpty, ss[..n]);
      ZeroHasType(Basic(k));
      assert ss == ss[..n] + [ss[n]];
      var front := Pieces(ElemKind(k, true), zeroEmpty, ss[..n]).value;
      var last := Piece(ElemKind(k, true), zeroEmpty, ss[n]).value;
      PointersConcat(front, last);
      PiecePointers(k, zeroEmpty, ss[n]);
      assert "" in ss <==> "" in ss[..n] || ss[n] == "";
    }
  }

  lemma {:induction false} FlatPointers(k: Kind, zeroEmpty: bool, values: seq<string>)
    requires Converts(ElemKind(k, true), zeroEmpty, values)
    ensures var items := FlatItems(ElemKind(k, true), zeroEmpty, values);
            && (AllPointers(items) <==>
                !zeroEmpty || forall i :: 0 <= i < |values| ==> !HasEmptyPiece(ElemKind(k, true), values[i]))
            && forall i :: 0 <= i < |items| ==>
                 HasType(items[i], Basic(k)) || (items[i].PtrV? && HasType(items[i].target, Basic(k)))
  {
    hide Convert, Text.Split, Pieces;
    if values != [] {
      var e, n := ElemKind(k, true), |values| - 1;
      FlatPointers(k, zeroEmpty, values[..n]);
      ZeroHasType(Basic(k));
      assert values == values[..n] + [values[n]];
      var front, last := FlatItems(e, zeroEmpty, values[..n]), ValueItems(e, zeroEmpty, values[n]).value;
      if Piece(e, zeroEmpty, values[n]).None? {
        PiecesPointers(k, zeroEmpty, Text.Split(values[n], ','));
      } else {
        PiecePointers(k, zeroEmpty, values[n]);
      }
      PointersConcat(front, last);
      assert AllPointers(last) <==> !zeroEmpty || !HasEmptyPiece(e, values[n]);
    }
  }

  /**
   Decoding into a slice of pointers to basic values panics in one case exactly: zeroEmpty is
   on, every value converts, and some piece is empty. Its zero item is not a pointer.
   */
  lemma PointerSlicePanics(k: Kind, key: string, values: seq<string>, zeroEmpty: bool)
    ensures LeafOf(Slice(Ptr(Basic(k))), key, values, zeroEmpty).LeafCrash? <==>
            && zeroEmpty && Converts(ElemKind(k, true), zeroEmpty, values)
            && exists i :: 0 <= i < |values| && HasEmptyPiece(ElemKind(k, true), values[i])
  {
    hide Convert, FlatItems, Text.Split, ValueItems, FirstFailure;
    if Converts(ElemKind(k, true), zeroEmpty, values) {
      FlatPointers(k, zeroEmpty, values);
      var items := FlatItems(ElemKind(k, true), zeroEmpty, values);
      forall i | 0 <= i < |items| ensures HasType(items[i], Ptr(Basic(k))) <==> items[i].PtrV? {}
    }
  }

  lemma {:induction false} FlatBasics(k: Kind, zeroEmpty: bool, values: seq<string>)
    requires Converts(ElemKind(k, false), zeroEmpty, values)
    ensures forall i :: 0 <= i < |FlatItems(ElemKind(k, false), zeroEmpty, values)| ==>
              HasType(FlatItems(ElemKind(k, false), zeroEmpty, values)[i], Basic(k))
  {
    hide Convert, Text.Split, Pieces;
    if values != [] {
      var e, n := ElemKind(k, false), |values| - 1;
      FlatBasics(k, zeroEmpty, values[..n]);
      ZeroHasType(Basic(k));
      if Piece(e, zeroEmpty, values[n]).None? {
        PiecesBasic(k, zeroEmpty, Text.Split(values[n], ','));
      }
    }
  }

  lemma {:induction false} PiecesBasic(k: Kind, zeroEmpty: bool, ss: seq<string>)
    requires Pieces(ElemKind(k, false), zeroEmpty, ss).Some?
    ensures forall i :: 0 <= i < |Pieces(ElemKind(k, false), zeroEmpty, ss).value| ==>
              HasType(Pieces(ElemKind(k, false), zeroEmpty, ss).value[i], Basic(k))
  {
    if ss != [] {
      PiecesBasic(k, zeroEmpty, ss[..|ss| - 1]);
      ZeroHasType(Basic(k));
    }
  }

  /**
   Decoding into a slice of basic values is all or nothing: the slice becomes the
   concatenation of what the values convert to, or it is kept and the error names the first
   value that does not convert.
   */
  lemma BasicSliceAllOrNothing(k: Kind, key: string, values: seq<string>, zeroEmpty: bool)
    ensures var e, r := ElemKind(k, false), LeafOf(Slice(Basic(k)), key, values, zeroEmpty);
            if Converts(e, zeroEmpty, values) then r == Leaf(Assign(SliceV(FlatItems(e, zeroEmpty, values))), None)
            else
              exists i :: 0 <= i < |values| && ValueItems(e, zeroEmpty, values[i]).None?
                && (forall j :: 0 <= j < i ==> ValueItems(e, zeroEmpty, values[j]).Some?)
                && r == Leaf(Keep, Some(ConversionError(key, Basic(k), i)))
  {
    hide Convert, Text.Split, Pieces, FlatItems, ValueItems;
    var e := ElemKind(k, false);
    if Converts(e, zeroEmpty, values) {
      FlatBasics(k, zeroEmpty, values);
    } else {
      var i := FirstFailure(e, zeroEmpty, values);
      assert forall j :: 0 <= j < i ==> values[..i][j] == values[j];
    }
  }

  /**
   What makes the end of `decode` panic: the slot, or what its pointer points to, is a slice of
   pointers to basic values, zeroEmpty is on, every value converts, and some piece is empty.
   */
  predicate SlotPanics(t: Type, values: seq<string>, zeroEmpty: bool) {
    var b := Base(t);
    && b.Slice? && b.elem.Ptr? && b.elem.elem.Basic? && zeroEmpty
    && Converts(ElemKind(b.elem.elem.kind, true), zeroEmpty, values)
    && exists i :: 0 <= i < |values| && HasEmptyPiece(ElemKind(b.elem.elem.kind, true), values[i])
  }

  lemma LeafCrashIff(t: Type, key: string, values: seq<string>, zeroEmpty: bool)
    ensures LeafOf(t, key, values, zeroEmpty).LeafCrash? <==> SlotPanics(t, values, zeroEmpty)
  {
    hide Convert, FlatItems, HasEmptyPiece, Text.Split, ValueItems, FirstFailure;
    var b := Base(t);
    if b.Slice? && Base(b.elem).Basic? {
      assert LeafOf(t, key, values, zeroEmpty) == LeafOf(b, key, values, zeroEmpty);
      if b.elem.Ptr? {
        PointerSlicePanics(b.elem.elem.kind, key, values, zeroEmpty);
      } else {
        BasicSliceAllOrNothing(b.elem.kind, key, values, zeroEmpty);
      }
    }
  }

  /** What one key does to a target of type `t`, and the error it reports; neither depends on the target. */
  datatype KeyEffect = KeyEffect(effect: Effect, err: Option<Error>)

  function PartsEffect(t: Type, path: seq<string>, parts: seq<PathPart>, key: string, values: seq<string>,
                       zeroEmpty: bool): (r: KeyEffect)
    requires parts != []
    ensures EffectFits(t, r.effect) && !r.effect.Unknown?
  {
    LocateTyped(t, path, parts);
    match Locate(t, path, parts)
    case Crash => KeyEffect(Crashes, None)
    case Missing(loc) => KeyEffect(Change(loc, Touch), None)
    case Found(loc) =>
      match LeafOf(TypeAt(t, loc), key, values, zeroEmpty)
      case LeafCrash => KeyEffect(Crashes, None)
      case Leaf(act, err) => KeyEffect(Change(loc, act), err)
  }

  function EffectOf(t: Type, key: string, values: seq<string>, cfg: Config): (r: KeyEffect)
    ensures EffectFits(t, r.effect)
  {
    match ParsePath(key, t)
    case None => KeyEffect(Unknown, if cfg.ignoreUnknownKeys then None else Some(UnknownKeyError(key)))
    case Some(parts) => PartsEffect(t, parts[0].path, parts, key, values, cfg.zeroEmpty)
  }

  /** The key has a negative index, or its values are such that its slot panics. */
  ghost predicate KeyCrashes(t: Type, key: string, values: seq<string>, cfg: Config)
    requires t.Struct? && WellNamed(t)
  {
    match ParsePath(key, t)
    case None => false
    case Some(parts) =>
      ParsedPathLocates(t, key);
      !IndicesExist(parts) || SlotPanics(SlotType(parts), values, cfg.zeroEmpty)
  }

  /** The walk of the key follows no embedded pointer that may be nil. */
  ghost predicate WalkSafe(t: Type, key: string)
    requires t.Struct? && WellNamed(t)
  {
    match ParsePath(key, t)
    case None => true
    case Some(parts) =>
      ParsedPathLocates(t, key);
      IndicesExist(parts) ==> Safe(t, Locate(t, parts[0].path, parts).loc, false)
  }

  /** The panics of a key that do not depend on the target are those its text and its values show. */
  lemma CrashesIff(t: Type, key: string, values: seq<string>, cfg: Config)
    requires t.Struct? && WellNamed(t)
    ensures var e := EffectOf(t, key, values, cfg).effect;
            && (e.Crashes? <==> KeyCrashes(t, key, values, cfg))
            && (!e.Crashes? ==> (EffectSafe(t, e) <==> WalkSafe(t, key)))
  {
    hide ParsePath, LeafOf, Locate, SlotPanics, Safe;
    if parts :| ParsePath(key, t) == Some(parts) {
      ParsedPathLocates(t, key);
      LeafCrashIff(SlotType(parts), key, values, cfg.zeroEmpty);
    }
  }

  /**
   A key panics on some target if and only if it panics whatever the target is, or its walk is
   not safe; a target with nothing set is one.
   */
  lemma KeyPanicsIff(t: Type, key: string, values: seq<string>, cfg: Config)
    ensures HasType(Zero(t), t)
    ensures var e := EffectOf(t, key, values, cfg).effect;
            && (Apply(t, Zero(t), e).Panic? <==> e.Crashes? || !EffectSafe(t, e))
            && ((exists v :: HasType(v, t) && Apply(t, v, e).Panic?) <==> e.Crashes? || !EffectSafe(t, e))
            && (t.Struct? && WellNamed(t) ==>
                  (Apply(t, Zero(t), e).Panic? <==> KeyCrashes(t, key, values, cfg) || !WalkSafe(t, key)))
  {
    hide EffectOf, KeyCrashes, WalkSafe, EffectSafe;
    if t.Struct? && WellNamed(t) {
      CrashesIff(t, key, values, cfg);
    }
    ApplyPanicsIff(t, EffectOf(t, key, values, cfg).effect);
  }

  lemma EffectOfSafe(t: Type, key: string, values: seq<string>, cfg: Config)
    requires ShallowEmbedding(t)
    ensures EffectSafe(t, EffectOf(t, key, values, cfg).effect)
  {
    match ParsePath(key, t)
    case None =>
    case Some(parts) => LocateTyped(t, parts[0].path, parts);
  }

  // ------------------------------------------------------------------------- all keys

  function Effects(t: Type, src: Source, cfg: Config, order: seq<string>): (es: seq<Effect>)
    requires forall k :: k in order ==> k in src
    ensures |es| == |order| && AllFit(t, es)
    ensures forall i :: 0 <= i < |es| ==> es[i] == EffectOf(t, order[i], src[order[i]], cfg).effect
  {
    seq(|order|, i requires 0 <= i < |order| => EffectOf(t, order[i], src[order[i]], cfg).effect)
  }

  /** The order visits every key of the source once. */
  ghost predicate Visits(order: seq<string>, src: Source) {
    (forall k :: k in order <==> k in src) && Permutations.Distinct(order)
  }

  /** No key's location is a prefix of another's. */
  predicate Independent(t: Type, src: Source, cfg: Config) {
    forall j, k :: j in src && k in src && j != k ==>
      Apart(EffectOf(t, j, src[j], cfg).effect, EffectOf(t, k, src[k], cfg).effect)
  }

  /** Any two keys leave the same in both orders. */
  predicate Compatible(t: Type, src: Source, cfg: Config) {
    forall j, k :: j in src && k in src && j != k ==>
      Agree(t, EffectOf(t, j, src[j], cfg).effect, EffectOf(t, k, src[k], cfg).effect)
  }

  lemma IndependentIsCompatible(t: Type, src: Source, cfg: Config)
    requires Independent(t, src, cfg)
    ensures Compatible(t, src, cfg)
  {
    hide EffectOf, Apart, Agree;
    forall j, k | j in src && k in src && j != k
      ensures Agree(t, EffectOf(t, j, src[j], cfg).effect, EffectOf(t, k, src[k], cfg).effect)
    {
      ApartAgree(t, EffectOf(t, j, src[j], cfg).effect, EffectOf(t, k, src[k], cfg).effect);
    }
  }

  /** No key walks through an embedded pointer that may be nil. */
  predicate KeysSafe(t: Type, src: Source, cfg: Config) {
    forall k :: k in src ==> EffectSafe(t, EffectOf(t, k, src[k], cfg).effect)
  }

  lemma ShallowKeysAreSafe(t: Type, src: Source, cfg: Config)
    requires ShallowEmbedding(t)
    ensures KeysSafe(t, src, cfg)
  {
    forall k | k in src ensures EffectSafe(t, EffectOf(t, k, src[k], cfg).effect) {
      EffectOfSafe(t, k, src[k], cfg);
    }
  }

  predicate SomeKeyPanics(t: Type, src: Source, cfg: Config) {
    exists k :: k in src && EffectOf(t, k, src[k], cfg).effect.Crashes?
  }

  /** The errors of the keys by themselves. */
  function KeyErrors(t: Type, src: Source, cfg: Config): map<string, Error> {
    map k | k in src && EffectOf(t, k, src[k], cfg).err.Some? :: EffectOf(t, k, src[k], cfg).err.value
  }

  /**
   Decoding panics exactly when some key does so by itself, which is when it has a negative index
   or decodes an empty piece into a slice of pointers.
   */
  lemma DecodePanics(t: Type, v: Value, src: Source, cfg: Config, order: seq<string>)
    requires HasType(v, t) && KeysSafe(t, src, cfg) && Visits(order, src)
    ensures Run(t, v, Effects(t, src, cfg, order)).Panic? <==> SomeKeyPanics(t, src, cfg)
    ensures t.Struct? && WellNamed(t) ==>
              (SomeKeyPanics(t, src, cfg) <==> exists k :: k in src && KeyCrashes(t, k, src[k], cfg))
  {
    hide EffectOf, HasType, EffectSafe, KeyCrashes, WalkSafe;
    if t.Struct? && WellNamed(t) {
      forall k | k in src
        ensures EffectOf(t, k, src[k], cfg).effect.Crashes? <==> KeyCrashes(t, k, src[k], cfg)
      {
        CrashesIff(t, k, src[k], cfg);
      }
    }
    var es := Effects(t, src, cfg, order);
    RunPanics(t, v, es);
    if k :| k in src && EffectOf(t, k, src[k], cfg).effect.Crashes? {
      var i :| 0 <= i < |order| && order[i] == k;
      assert es[i] == Crashes;
    }
    if Crashes in es {
      var i :| 0 <= i < |es| && es[i] == Crashes;
      assert order[i] in src;
    }
  }

  /** Keys that agree pairwise have one result in every order. */
  lemma AgreeingKeysCommute(t: Type, v: Value, src: Source, cfg: Config, a: seq<string>, b: seq<string>)
    requires HasType(v, t) && KeysSafe(t, src, cfg) && Compatible(t, src, cfg)
    requires Visits(a, src) && Visits(b, src)
    ensures Run(t, v, Effects(t, src, cfg, a)) == Run(t, v, Effects(t, src, cfg, b))
  {
    hide EffectOf, HasType, Agree, EffectSafe, EffectFits;
    var ea, eb := Effects(t, src, cfg, a), Effects(t, src, cfg, b);
    var f := k => if k in src then EffectOf(t, k, src[k], cfg).effect else Unknown;
    Permutations.DistinctReordered(a, b);
    Permutations.MapReordered(f, a, b);
    assert ea == Permutations.Map(f, a) && eb == Permutations.Map(f, b);
    RunIgnoresOrder(t, v, ea, eb);
  }

  /** Two keys that do not agree, last in the order. */
  lemma LastTwoDiffer(t: Type, v: Value, src: Source, cfg: Config, j: string, k: string)
    returns (a: seq<string>, b: seq<string>)
    requires HasType(v, t) && KeysSafe(t, src, cfg) && !SomeKeyPanics(t, src, cfg)
    requires j in src && k in src && j != k
    requires !Agree(t, EffectOf(t, j, src[j], cfg).effect, EffectOf(t, k, src[k], cfg).effect)
    ensures Visits(a, src) && Visits(b, src)
    ensures Run(t, v, Effects(t, src, cfg, a)) != Run(t, v, Effects(t, src, cfg, b))
  {
    hide EffectOf, HasType, Agree, EffectSafe, EffectFits, Run;
    var rest := Permutations.Enumerate(src.Keys - {j, k});
    a, b := rest + [j] + [k], rest + [k] + [j];
    var ej, ek := EffectOf(t, j, src[j], cfg).effect, EffectOf(t, k, src[k], cfg).effect;
    var es := Effects(t, src, cfg, rest);
    LastTwo(t, v, es, ej, ek);
    assert Effects(t, src, cfg, a) == es + [ej] + [ek];
    assert Effects(t, src, cfg, b) == es + [ek] + [ej];
  }

  ghost predicate OrderUnseen(t: Type, v: Value, src: Source, cfg: Config)
    requires HasType(v, t)
  {
    forall a, b :: Visits(a, src) && Visits(b, src) ==>
      Run(t, v, Effects(t, src, cfg, a)) == Run(t, v, Effects(t, src, cfg, b))
  }

  lemma PanicsInEveryOrder(t: Type, v: Value, src: Source, cfg: Config)
    requires HasType(v, t) && KeysSafe(t, src, cfg) && SomeKeyPanics(t, src, cfg)
    ensures OrderUnseen(t, v, src, cfg)
  {
    hide EffectOf, HasType, KeysSafe, SomeKeyPanics, Run;
    forall a | Visits(a, src) ensures Run(t, v, Effects(t, src, cfg, a)) == Panic {
      DecodePanics(t, v, src, cfg, a);
    }
  }

  /**
   The order in which Go ranges over the source makes no difference, allocations, slice growth
   and the traces of failed conversions included, if and only if the keys agree pairwise, or one
   of them makes every order panic. Neither depends on the target.
   */
  lemma DecodeIgnoresOrder(t: Type, v: Value, src: Source, cfg: Config)
    requires HasType(v, t) && KeysSafe(t, src, cfg)
    ensures OrderUnseen(t, v, src, cfg) <==> SomeKeyPanics(t, src, cfg) || Compatible(t, src, cfg)
  {
    hide EffectOf, HasType, Agree, EffectSafe, EffectFits, KeysSafe, SomeKeyPanics, Run;
    if SomeKeyPanics(t, src, cfg) {
      PanicsInEveryOrder(t, v, src, cfg);
    } else if Compatible(t, src, cfg) {
      forall a, b | Visits(a, src) && Visits(b, src)
        ensures Run(t, v, Effects(t, src, cfg, a)) == Run(t, v, Effects(t, src, cfg, b))
      {
        AgreeingKeysCommute(t, v, src, cfg, a, b);
      }
    } else {
      var j, k :| j in src && k in src && j != k &&
        !Agree(t, EffectOf(t, j, src[j], cfg).effect, EffectOf(t, k, src[k], cfg).effect);
      var a, b := LastTwoDiffer(t, v, src, cfg, j, k);
    }
  }
}
