/**
 Paths in dotted notation: how a key is parsed against the alias tables, and how the parsed
 parts lead, by Go field names, to a location in the target.
 */
module SchemaPath {
  import opened Wrappers
  import opened SchemaTypes
  import opened SchemaTarget
  import opened SchemaCache
  import opened SchemaOrder
  import Converter
  import Text

  // ------------------------------------------------------------------------- selectors

  /** An index path to a field, through embedded structs. */
  predicate IsSelector(fs: seq<Field>, ix: seq<nat>)
    decreases |ix|
  {
    ix != [] && ix[0] < |fs| &&
    (|ix| > 1 ==> Embedded(fs[ix[0]]) && IsSelector(Base(fs[ix[0]].typ).fields, ix[1..]))
  }

  function Selected(fs: seq<Field>, ix: seq<nat>): Field
    requires IsSelector(fs, ix)
    decreases |ix|
  {
    if |ix| == 1 then fs[ix[0]] else Selected(Base(fs[ix[0]].typ).fields, ix[1..])
  }

  /** The fields of a given name at embedding depth `depth`. */
  function NamedAt(fs: seq<Field>, name: string, depth: nat): set<seq<nat>>
    decreases depth
  {
    if depth == 0 then set i | 0 <= i < |fs| && fs[i].name == name :: [i]
    else
      set i, jx | 0 <= i < |fs| && Embedded(fs[i]) && jx in NamedAt(Base(fs[i].typ).fields, name, depth - 1)
        :: [i] + jx
  }

  /**
   `reflect.Value.FieldByName`: the embedding depths are searched outwards in; the first
   depth with the name decides, and finds nothing if the name occurs there more than once.
   */
  function SearchName(fs: seq<Field>, name: string, depth: nat): Option<seq<nat>>
    decreases FieldsSize(fs) - depth
  {
    if depth >= FieldsSize(fs) then None
    else
      var hits := NamedAt(fs, name, depth);
      if |hits| == 1 then
        OneMember(hits);
        var ix :| ix in hits; Some(ix)
      else if hits != {} then None
      else SearchName(fs, name, depth + 1)
  }

  function FieldByName(fs: seq<Field>, name: string): Option<seq<nat>> {
    SearchName(fs, name, 0)
  }

  lemma OneMember<T>(s: set<T>)
    requires |s| == 1
    ensures forall a, b :: a in s && b in s ==> a == b
  {
    forall a, b | a in s && b in s ensures a == b {
      assert |s - {a}| == 0;
    }
  }

  lemma {:induction false} NamedAtRule(fs: seq<Field>, name: string, depth: nat, ix: seq<nat>)
    ensures ix in NamedAt(fs, name, depth) <==>
            |ix| == depth + 1 && IsSelector(fs, ix) && Selected(fs, ix).name == name
    decreases depth
  {
    if depth == 0 {
      if |ix| == 1 { assert ix == [ix[0]]; }
    } else if |ix| == depth + 1 {
      assert ix == [ix[0]] + ix[1..];
      if ix[0] < |fs| && Embedded(fs[ix[0]]) {
        NamedAtRule(Base(fs[ix[0]].typ).fields, name, depth - 1, ix[1..]);
      }
      if ix in NamedAt(fs, name, depth) {
        var i, jx :| 0 <= i < |fs| && Embedded(fs[i]) && jx in NamedAt(Base(fs[i].typ).fields, name, depth - 1)
          && ix == [i] + jx;
        assert jx == ix[1..];
      }
    } else if ix in NamedAt(fs, name, depth) {
      var i, jx :| 0 <= i < |fs| && Embedded(fs[i]) && jx in NamedAt(Base(fs[i].typ).fields, name, depth - 1)
        && ix == [i] + jx;
      NamedAtRule(Base(fs[i].typ).fields, name, depth - 1, jx);
    }
  }

  lemma {:induction false} SelectorIsShort(fs: seq<Field>, ix: seq<nat>)
    requires IsSelector(fs, ix)
    ensures |ix| <= FieldsSize(fs)
    decreases |ix|
  {
    FieldIsSmaller(fs, fs[ix[0]]);
    if |ix| > 1 {
      SelectorIsShort(Base(fs[ix[0]].typ).fields, ix[1..]);
    }
  }

  /** No Go field name occurs twice in the struct and all it embeds. */
  ghost predicate NamesUnique(fs: seq<Field>) {
    forall ix, jx ::
      (IsSelector(fs, ix) && IsSelector(fs, jx) && Selected(fs, ix).name == Selected(fs, jx).name) ==> ix == jx
  }

  lemma {:induction false} SearchFinds(fs: seq<Field>, ix: seq<nat>, depth: nat)
    requires NamesUnique(fs) && IsSelector(fs, ix) && depth < |ix|
    ensures SearchName(fs, Selected(fs, ix).name, depth) == Some(ix)
    decreases |ix| - depth
  {
    var name := Selected(fs, ix).name;
    SelectorIsShort(fs, ix);
    var hits := NamedAt(fs, name, depth);
    forall jx ensures jx in hits <==> jx == ix && |ix| == depth + 1 {
      NamedAtRule(fs, name, depth, jx);
    }
    if |ix| == depth + 1 {
      assert hits == {ix};
    } else {
      assert hits == {};
      SearchFinds(fs, ix, depth + 1);
    }
  }

  lemma {:induction false} DepthOfSearch(fs: seq<Field>, name: string, depth: nat, ix: seq<nat>)
    requires forall jx :: Hit(fs, name, jx) ==> |jx| > depth
    ensures SearchName(fs, name, depth) == Some(ix) <==> FirstHit(fs, name, ix)
    decreases FieldsSize(fs) - depth
  {
    var hits := NamedAt(fs, name, depth);
    forall jx ensures jx in hits <==> Hit(fs, name, jx) && |jx| == depth + 1 {
      NamedAtRule(fs, name, depth, jx);
    }
    if Hit(fs, name, ix) {
      SelectorIsShort(fs, ix);
    }
    if depth < FieldsSize(fs) {
      if hits == {} {
        DepthOfSearch(fs, name, depth + 1, ix);
      } else {
        var jx :| jx in hits;
        if |hits| == 1 {
          OneMember(hits);
        } else {
          assert hits != {jx};
          var kx :| kx in hits && kx != jx;
        }
      }
    }
  }

  predicate Hit(fs: seq<Field>, name: string, ix: seq<nat>) {
    IsSelector(fs, ix) && Selected(fs, ix).name == name
  }

  /** The field of that name, if all others of the name are embedded deeper. */
  ghost predicate FirstHit(fs: seq<Field>, name: string, ix: seq<nat>) {
    Hit(fs, name, ix) && forall jx :: Hit(fs, name, jx) && jx != ix ==> |ix| < |jx|
  }

  /** `FieldByName` finds the field of a name that is embedded least deep, and nothing if there are two such. */
  lemma FieldByNameIff(fs: seq<Field>, name: string, ix: seq<nat>)
    ensures FieldByName(fs, name) == Some(ix) <==> FirstHit(fs, name, ix)
  {
    DepthOfSearch(fs, name, 0, ix);
  }

  // ------------------------------------------------------------------------- table entries

  /** The aliases on the way to a field, its own last. */
  function AliasPath(fs: seq<Field>, ix: seq<nat>): (path: seq<string>)
    requires IsSelector(fs, ix)
    ensures |path| == |ix|
    decreases |ix|
  {
    [Alias(fs[ix[0]])] + if |ix| == 1 then [] else AliasPath(Base(fs[ix[0]].typ).fields, ix[1..])
  }

  /** Aliases, under that of a parent if there is one, joined by dots. */
  function Dotted(parentAlias: string, path: seq<string>): string {
    Text.Join(if parentAlias == "" then path else [parentAlias] + path, '.')
  }

  lemma JoinLonger(s: string, path: seq<string>)
    requires path != []
    ensures Text.Join([s] + path, '.') == s + "." + Text.Join(path, '.')
  {
    assert ([s] + path)[1..] == path;
  }

  lemma DottedUnder(parentAlias: string, alias: string, path: seq<string>)
    requires alias != "" && path != []
    ensures Dotted(Dotted(parentAlias, [alias]), path) == Dotted(parentAlias, [alias] + path)
  {
    var p := Dotted(parentAlias, [alias]);
    JoinLonger(p, path);
    JoinLonger(alias, path);
    if parentAlias != "" {
      JoinLonger(parentAlias, [alias]);
      JoinLonger(parentAlias, [alias] + path);
      assert (parentAlias + "." + alias) + "." + Text.Join(path, '.') ==
             parentAlias + "." + (alias + "." + Text.Join(path, '.'));
    }
  }

  /** The entry describes the field. */
  predicate Describes(g: FieldInfo, f: Field) {
    && g.name == f.name && g.typ == f.typ && g.alias == Alias(f) && g.isAnonymous == f.anonymous
    && g.isSliceOfStructs == (Base(g.typ).Slice? && Innermost(g.typ).Struct?)
    && g.isRequired == ("required" in Options(f))
  }

  lemma DirectOrigin(fs: seq<Field>, parentAlias: string, g: FieldInfo) returns (i: nat)
    requires g in Direct(fs, parentAlias)
    ensures i < |fs| && CreateField(fs[i], parentAlias) == Some(g) && Describes(g, fs[i])
  {
    var f :| f in fs && CreateField(f, parentAlias) == Some(g);
    i :| 0 <= i < |fs| && fs[i] == f;
  }

  lemma {:induction false} PromoteOrigin(info: seq<FieldInfo>, tables: seq<seq<FieldInfo>>, g: FieldInfo)
    requires g in Promote(info, tables, 0) && g !in info
    ensures exists k :: 0 <= k < |tables| && g in tables[k]
  {}

  /** Every entry of a flattened table comes from a field of the struct or of what it embeds. */
  lemma {:induction false} EntryOrigin(t: Type, parentAlias: string, g: FieldInfo) returns (ix: seq<nat>)
    requires t.Struct? && g in Create(t, parentAlias)
    ensures IsSelector(t.fields, ix) && Describes(g, Selected(t.fields, ix))
    ensures "" !in AliasPath(t.fields, ix) ==> g.canonicalAlias == Dotted(parentAlias, AliasPath(t.fields, ix))
    decreases TypeSize(t)
  {
    hide AliasPath, Dotted, Alias, Options;
    var direct := Direct(t.fields, parentAlias);
    if g in direct {
      var i := DirectOrigin(t.fields, parentAlias, g);
      ix := [i];
      CanonicalOfDirect(t.fields, i, parentAlias);
    } else {
      DirectIsSmaller(t.fields, parentAlias);
      var es := EmbeddedOnly(direct);
      var tables := CreateAll(es, TypeSize(t));
      PromoteOrigin(direct, tables, g);
      var k :| 0 <= k < |tables| && g in tables[k];
      assert es[k] in es;
      var i := DirectOrigin(t.fields, parentAlias, es[k]);
      var jx := EntryOrigin(Base(es[k].typ), es[k].canonicalAlias, g);
      ix := [i] + jx;
      assert ix[1..] == jx;
      CanonicalOfDirect(t.fields, i, parentAlias);
      CanonicalUnder(t.fields, i, jx, parentAlias, es[k].canonicalAlias, g.canonicalAlias);
    }
  }

  lemma CanonicalUnder(fs: seq<Field>, i: nat, jx: seq<nat>, parentAlias: string, p: string, canonical: string)
    requires i < |fs| && Embedded(fs[i]) && IsSelector(Base(fs[i].typ).fields, jx)
    requires p == Dotted(parentAlias, [Alias(fs[i])])
    requires var inner := AliasPath(Base(fs[i].typ).fields, jx); "" !in inner ==> canonical == Dotted(p, inner)
    ensures ([i] + jx)[1..] == jx && IsSelector(fs, [i] + jx)
    ensures "" !in AliasPath(fs, [i] + jx) ==> canonical == Dotted(parentAlias, AliasPath(fs, [i] + jx))
  {
    hide Dotted;
    assert ([i] + jx)[1..] == jx;
    var inner := AliasPath(Base(fs[i].typ).fields, jx);
    var path := AliasPath(fs, [i] + jx);
    assert path == [Alias(fs[i])] + inner;
    if "" !in path {
      assert path[0] != "" && forall a :: a in inner ==> a in path;
      DottedUnder(parentAlias, Alias(fs[i]), inner);
    }
  }

  lemma CanonicalOfDirect(fs: seq<Field>, i: nat, parentAlias: string)
    requires i < |fs| && CreateField(fs[i], parentAlias).Some?
    ensures CreateField(fs[i], parentAlias).value.canonicalAlias == Dotted(parentAlias, [Alias(fs[i])])
    ensures AliasPath(fs, [i]) == [Alias(fs[i])]
  {
    var f := fs[i];
    JoinLonger(parentAlias, [Alias(f)]);
  }

  // ------------------------------------------------------------------------- parsing a key

  /** `field` is a pointer in the source, hence the option; `index` is -1 in the last part. */
  datatype PathPart = PathPart(field: Option<FieldInfo>, path: seq<string>, index: int)

  /** The loop of `parsePath` from some segment on: `path` and `field` are its variables. */
  function ParseKeys(t: Type, keys: seq<string>, path: seq<string>, field: Option<FieldInfo>)
    : (r: Option<seq<PathPart>>)
    ensures r.Some? ==> r.value != []
    decreases |keys|
  {
    if keys == [] then Some([PathPart(field, path, -1)])
    else if !t.Struct? then None
    else match Lookup(Create(t, ""), keys[0]) {
      case None => None
      case Some(g) =>
        if g.isSliceOfStructs then
          if |keys| < 2 then None
          else match Converter.ParseInt(keys[1], 64) {
            case None => None
            case Some(k) =>
              (match ParseKeys(NextType(g), keys[2..], [], Some(g))
               case None => None
               case Some(rest) => Some([PathPart(Some(g), path + [g.name], k)] + rest))
          }
        else ParseKeys(NextType(g), keys[1..], path + [g.name], Some(g))
    }
  }

  /** The type the next segment is looked up in. */
  function NextType(g: FieldInfo): Type {
    if g.isSliceOfStructs && Base(g.typ).Slice? then Base(Base(g.typ).elem) else Base(g.typ)
  }

  function ParsePath(key: string, t: Type): (r: Option<seq<PathPart>>)
    ensures r.Some? ==> r.value != []
  {
    ParseKeys(t, Text.Split(key, '.'), [], None)
  }

  // ------------------------------------------------------------------------- walking the parts

  /** Where the walk of `decode` over the parts ends; it does not depend on the values. */
  datatype Located =
    | Found(loc: seq<Step>)
    | Missing(loc: seq<Step>)  // the last name finds no field: nothing is set
    | Crash                    // a lookup in a non-struct, or an index a slice cannot have

  function Steps(ix: seq<nat>): seq<Step> {
    if ix == [] then [] else [Named(ix[0])] + seq(|ix| - 1, j requires 0 <= j < |ix| - 1 => Promoted(ix[j + 1]))
  }

  function Behind(front: seq<Step>, l: Located): Located {
    match l
    case Found(loc) => Found(front + loc)
    case Missing(loc) => Missing(front + loc)
    case Crash => Crash
  }

  /** The walk from a value of type `t`, with `path` still to go in the first of `parts`. */
  function Locate(t: Type, path: seq<string>, parts: seq<PathPart>): Located
    requires parts != []
    decreases |parts|, |path|
  {
    if path != [] then
      if !Base(t).Struct? then Crash
      else match FieldByName(Base(t).fields, path[0]) {
        case None => if |path| == 1 then Missing([]) else Crash
        case Some(ix) =>
          FoundSelector(Base(t).fields, path[0], ix);
          Behind(Steps(ix), Locate(Selected(Base(t).fields, ix).typ, path[1..], parts))
      }
    else if |parts| == 1 then Found([])
    else if !Base(t).Slice? || parts[0].index < 0 then Crash
    else Behind([Elem(parts[0].index)], Locate(Base(t).elem, parts[1].path, parts[1..]))
  }

  lemma {:induction false} FoundSelectorFrom(fs: seq<Field>, name: string, depth: nat, ix: seq<nat>)
    requires SearchName(fs, name, depth) == Some(ix)
    ensures IsSelector(fs, ix) && Selected(fs, ix).name == name
    decreases FieldsSize(fs) - depth
  {
    if |NamedAt(fs, name, depth)| == 1 {
      NamedAtRule(fs, name, depth, ix);
    } else {
      FoundSelectorFrom(fs, name, depth + 1, ix);
    }
  }

  lemma FoundSelector(fs: seq<Field>, name: string, ix: seq<nat>)
    requires FieldByName(fs, name) == Some(ix)
    ensures IsSelector(fs, ix) && Selected(fs, ix).name == name
  {
    FoundSelectorFrom(fs, name, 0, ix);
  }

  // ------------------------------------------------------------------------- conditions on types

  /** Go names are unambiguous in every struct type reachable from `t`. */
  ghost predicate WellNamed(t: Type)
    decreases t
  {
    match t
    case Ptr(e) => WellNamed(e)
    case Slice(e) => WellNamed(e)
    case Struct(fs) => NamesUnique(fs) && forall i :: 0 <= i < |fs| ==> WellNamed(fs[i].typ)
    case _ => true
  }

  /** Embedded structs at any depth are embedded by value. */
  predicate EmbedsByValue(t: Type)
    decreases t
  {
    t.Struct? ==>
      forall i :: 0 <= i < |t.fields| && Embedded(t.fields[i]) ==>
        t.fields[i].typ.Struct? && EmbedsByValue(t.fields[i].typ)
  }

  /** Embedding is by value or one pointer deep, in every struct type reachable from `t`. */
  predicate ShallowEmbedding(t: Type)
    decreases t
  {
    match t
    case Ptr(e) => ShallowEmbedding(e)
    case Slice(e) => ShallowEmbedding(e)
    case Struct(fs) =>
      forall i :: 0 <= i < |fs| ==>
        (Embedded(fs[i]) ==> EmbedsByValue(Base(fs[i].typ))) && ShallowEmbedding(fs[i].typ)
    case _ => true
  }

  lemma {:induction false} SelectedWellNamed(t: Type, ix: seq<nat>)
    requires Base(t).Struct? && WellNamed(t) && IsSelector(Base(t).fields, ix)
    ensures WellNamed(Selected(Base(t).fields, ix).typ)
    decreases |ix|
  {
    if |ix| > 1 {
      SelectedWellNamed(Base(t).fields[ix[0]].typ, ix[1..]);
    }
  }

  // ------------------------------------------------------------------------- selectors as steps

  function PromotedSteps(ix: seq<nat>): seq<Step> {
    seq(|ix|, j requires 0 <= j < |ix| => Promoted(ix[j]))
  }

  lemma {:induction false} PromotedStepsFit(t: Type, ix: seq<nat>, rest: seq<Step>)
    requires Base(t).Struct? && IsSelector(Base(t).fields, ix)
    requires Typed(Selected(Base(t).fields, ix).typ, rest)
    ensures Typed(t, PromotedSteps(ix) + rest)
    ensures TypeAt(t, PromotedSteps(ix) + rest) == TypeAt(Selected(Base(t).fields, ix).typ, rest)
    decreases |ix|
  {
    var loc := PromotedSteps(ix) + rest;
    assert loc[1..] == PromotedSteps(ix[1..]) + rest;
    if |ix| == 1 {
      assert loc[1..] == rest;
    } else {
      PromotedStepsFit(Base(t).fields[ix[0]].typ, ix[1..], rest);
    }
  }

  /** A selector's steps lead from the struct to the selected field. */
  lemma StepsFit(t: Type, ix: seq<nat>, rest: seq<Step>)
    requires Base(t).Struct? && IsSelector(Base(t).fields, ix)
    requires Typed(Selected(Base(t).fields, ix).typ, rest)
    ensures Typed(t, Steps(ix) + rest)
    ensures TypeAt(t, Steps(ix) + rest) == TypeAt(Selected(Base(t).fields, ix).typ, rest)
  {
    var loc := Steps(ix) + rest;
    if |ix| == 1 {
      assert loc[1..] == rest;
    } else {
      assert loc[1..] == PromotedSteps(ix[1..]) + rest;
      PromotedStepsFit(Base(t).fields[ix[0]].typ, ix[1..], rest);
    }
  }

  /** A location that does not start in the middle of a lookup. */
  predicate StartsLookup(loc: seq<Step>) {
    loc == [] || !loc[0].Promoted?
  }

  lemma {:induction false} PromotedStepsSafe(t: Type, ix: seq<nat>, rest: seq<Step>, alloced: bool)
    requires Base(t).Struct? && IsSelector(Base(t).fields, ix) && (t.Ptr? ==> alloced)
    requires EmbedsByValue(Base(t))
    requires Typed(Selected(Base(t).fields, ix).typ, rest) && Safe(Selected(Base(t).fields, ix).typ, rest, false)
    ensures Typed(t, PromotedSteps(ix) + rest) && Safe(t, PromotedSteps(ix) + rest, alloced)
    decreases |ix|
  {
    PromotedStepsFit(t, ix, rest);
    var loc := PromotedSteps(ix) + rest;
    assert loc[1..] == PromotedSteps(ix[1..]) + rest;
    if |ix| == 1 {
      assert loc[1..] == rest;
    } else {
      PromotedStepsSafe(Base(t).fields[ix[0]].typ, ix[1..], rest, false);
    }
  }

  lemma SafeAnyway(t: Type, loc: seq<Step>, alloced: bool)
    requires Typed(t, loc) && Safe(t, loc, false)
    ensures Safe(t, loc, alloced)
  {}

  lemma StepsSafe(t: Type, ix: seq<nat>, rest: seq<Step>)
    requires Base(t).Struct? && IsSelector(Base(t).fields, ix) && ShallowEmbedding(t)
    requires Typed(Selected(Base(t).fields, ix).typ, rest) && Safe(Selected(Base(t).fields, ix).typ, rest, false)
    requires StartsLookup(rest)
    ensures Typed(t, Steps(ix) + rest) && Safe(t, Steps(ix) + rest, false)
  {
    StepsFit(t, ix, rest);
    assert ShallowEmbedding(Base(t));
    var loc := Steps(ix) + rest;
    var child := Base(t).fields[ix[0]];
    if |ix| == 1 {
      assert loc[1..] == rest;
      SafeAnyway(child.typ, rest, child.anonymous);
    } else {
      assert loc[1..] == PromotedSteps(ix[1..]) + rest;
      PromotedStepsSafe(child.typ, ix[1..], rest, child.anonymous);
    }
  }

  lemma {:induction false} SelectedShallow(t: Type, ix: seq<nat>)
    requires Base(t).Struct? && ShallowEmbedding(t) && IsSelector(Base(t).fields, ix)
    ensures ShallowEmbedding(Selected(Base(t).fields, ix).typ)
    decreases |ix|
  {
    if |ix| > 1 {
      SelectedShallow(Base(t).fields[ix[0]].typ, ix[1..]);
    }
  }

  function LocOf(l: Located): seq<Step>
    requires !l.Crash?
  {
    l.loc
  }

  /**
   Wherever the walk ends, it is at a value the target's type has; a name that finds nothing
   is looked up in a struct. With shallow embedding the walk itself cannot panic.
   */
  lemma {:induction false} LocateTyped(t: Type, path: seq<string>, parts: seq<PathPart>)
    requires parts != []
    ensures var l := Locate(t, path, parts);
            !l.Crash? ==>
              && Typed(t, LocOf(l)) && StartsLookup(LocOf(l))
              && (l.Missing? ==> Base(TypeAt(t, LocOf(l))).Struct?)
              && (ShallowEmbedding(t) ==> Safe(t, LocOf(l), false))
    decreases |parts|, |path|
  {
    var l := Locate(t, path, parts);
    if path != [] {
      if Base(t).Struct? && FieldByName(Base(t).fields, path[0]).Some? {
        var ix := FieldByName(Base(t).fields, path[0]).value;
        FoundSelector(Base(t).fields, path[0], ix);
        var u := Selected(Base(t).fields, ix).typ;
        LocateTyped(u, path[1..], parts);
        if !l.Crash? {
          var rest := LocOf(Locate(u, path[1..], parts));
          StepsFit(t, ix, rest);
          if ShallowEmbedding(t) {
            SelectedShallow(t, ix);
            StepsSafe(t, ix, rest);
          }
        }
      }
    } else if |parts| > 1 && !l.Crash? {
      LocateTyped(Base(t).elem, parts[1].path, parts[1..]);
      assert ShallowEmbedding(t) ==> ShallowEmbedding(Base(t));
      var rest := LocOf(Locate(Base(t).elem, parts[1].path, parts[1..]));
      assert ([Elem(parts[0].index)] + rest)[1..] == rest;
    }
  }

  // ------------------------------------------------------------------------- parsing is sound

  function PathNames(parts: seq<PathPart>): nat {
    if parts == [] then 0 else |parts[0].path| + PathNames(parts[1..])
  }

  /** The part indices that are slice indices: all but the last. */
  predicate IndicesExist(parts: seq<PathPart>) {
    forall i :: 0 <= i < |parts| - 1 ==> parts[i].index >= 0
  }

  /** The type of the slot a parsed path denotes. */
  function SlotType(parts: seq<PathPart>): Type
    requires parts != [] && parts[|parts| - 1].field.Some?
  {
    var last := parts[|parts| - 1];
    var t := last.field.value.typ;
    if last.path == [] && Base(t).Slice? then Base(t).elem else t
  }

  /** What `parsePath` knows in the middle of its loop about the walk done so far. */
  predicate Walked(t: Type, path: seq<string>, field: Option<FieldInfo>) {
    field.Some? &&
    if path != [] then t == field.value.typ
    else Base(field.value.typ).Slice? && t == Base(field.value.typ).elem
  }

  /** A table entry is found again, by its Go name, in the value. */
  lemma NameStep(t: Type, key: string) returns (ix: seq<nat>)
    requires WellNamed(t) && Base(t).Struct? && Lookup(Create(Base(t), ""), key).Some?
    ensures var g := Lookup(Create(Base(t), ""), key).value;
            && IsSelector(Base(t).fields, ix) && Selected(Base(t).fields, ix).typ == g.typ
            && FieldByName(Base(t).fields, g.name) == Some(ix)
            && WellNamed(g.typ)
            && g.isSliceOfStructs == (Base(g.typ).Slice? && Innermost(g.typ).Struct?)
  {
    var g := Lookup(Create(Base(t), ""), key).value;
    ix := EntryOrigin(Base(t), "", g);
    assert WellNamed(Base(t));
    SearchFinds(Base(t).fields, ix, 0);
    SelectedWellNamed(t, ix);
  }

  /** The claim of `ParsedWalk`: `names` are the names still to walk in the first part. */
  predicate WalkEnds(t: Type, names: seq<string>, parts: seq<PathPart>)
    requires parts != []
  {
    var l := Locate(t, names, parts);
    && parts[|parts| - 1].field.Some?
    && (IndicesExist(parts) ==> l.Found? && Typed(t, l.loc) && TypeAt(t, l.loc) == SlotType(parts))
    && (!IndicesExist(parts) ==> l.Crash?)
  }

  /** A name lookup in front of the walk. */
  lemma WalkName(t: Type, ix: seq<nat>, name: string, names: seq<string>, parts: seq<PathPart>)
    requires Base(t).Struct? && FieldByName(Base(t).fields, name) == Some(ix) && parts != []
    requires IsSelector(Base(t).fields, ix) && WalkEnds(Selected(Base(t).fields, ix).typ, names, parts)
    ensures WalkEnds(t, [name] + names, parts)
  {
    var u := Selected(Base(t).fields, ix).typ;
    assert ([name] + names)[1..] == names;
    var inner := Locate(u, names, parts);
    if inner.Found? {
      StepsFit(t, ix, inner.loc);
    }
  }

  /** A slice index in front of the walk. */
  lemma WalkIndex(t: Type, part: PathPart, rest: seq<PathPart>)
    requires Base(t).Slice? && rest != [] && WalkEnds(Base(t).elem, rest[0].path, rest)
    ensures WalkEnds(t, [], [part] + rest)
  {
    var parts := [part] + rest;
    assert parts[1..] == rest;
    assert IndicesExist(parts) <==> part.index >= 0 && IndicesExist(rest) by {
      assert forall i :: 1 <= i < |parts| ==> parts[i] == rest[i - 1];
      assert forall i :: 0 <= i < |rest| ==> rest[i] == parts[i + 1];
    }
    if part.index >= 0 {
      var inner := Locate(Base(t).elem, rest[0].path, rest);
      if inner.Found? {
        assert ([Elem(part.index)] + inner.loc)[1..] == inner.loc;
      }
    }
  }

  /** The parts of a key whose last `segments` segments are parsed after walking `path`. */
  predicate Sound(t: Type, path: seq<string>, segments: nat, parts: seq<PathPart>) {
    && parts != [] && path <= parts[0].path
    && PathNames(parts) + |parts| - 1 == |path| + segments
    && parts[|parts| - 1].index == -1
    && WalkEnds(t, parts[0].path[|path|..], parts)
  }

  lemma SoundIndex(t: Type, path: seq<string>, segments: nat, g: FieldInfo, ix: seq<nat>, k: int, rest: seq<PathPart>)
    requires Base(t).Struct? && FieldByName(Base(t).fields, g.name) == Some(ix) && Base(g.typ).Slice?
    requires IsSelector(Base(t).fields, ix) && Selected(Base(t).fields, ix).typ == g.typ
    requires Sound(Base(g.typ).elem, [], segments, rest)
    ensures Sound(t, path, segments + 2, [PathPart(Some(g), path + [g.name], k)] + rest)
  {
    var parts := [PathPart(Some(g), path + [g.name], k)] + rest;
    assert rest[0].path[0..] == rest[0].path;
    assert parts[1..] == rest;
    WalkIndex(g.typ, parts[0], rest);
    WalkName(t, ix, g.name, [], parts);
    assert parts[0].path[|path|..] == [g.name] + [];
  }

  lemma SoundName(t: Type, path: seq<string>, segments: nat, g: FieldInfo, ix: seq<nat>, parts: seq<PathPart>)
    requires Base(t).Struct? && FieldByName(Base(t).fields, g.name) == Some(ix)
    requires IsSelector(Base(t).fields, ix) && Selected(Base(t).fields, ix).typ == g.typ
    requires Sound(g.typ, path + [g.name], segments, parts)
    ensures Sound(t, path, segments + 1, parts)
  {
    var names, longer := parts[0].path, path + [g.name];
    assert names[|path|] == longer[|path|];
    assert names[|path|..] == [g.name] + names[|longer|..];
    assert names[..|path|] == longer[..|path|];
    WalkName(t, ix, g.name, names[|longer|..], parts);
  }

  lemma SoundEnd(t: Type, path: seq<string>, field: Option<FieldInfo>)
    requires Walked(t, path, field)
    ensures Sound(t, path, 0, [PathPart(field, path, -1)])
  {
    assert path[|path|..] == [];
  }

  lemma {:induction false} ParsedWalk(t: Type, keys: seq<string>, path: seq<string>, field: Option<FieldInfo>)
    requires WellNamed(t)
    requires keys == [] ==> Walked(t, path, field)
    requires ParseKeys(Base(t), keys, path, field).Some?
    ensures Sound(t, path, |keys|, ParseKeys(Base(t), keys, path, field).value)
    decreases |keys|
  {
    if keys == [] {
      SoundEnd(t, path, field);
    } else {
      var g := Lookup(Create(Base(t), ""), keys[0]).value;
      var ix := NameStep(t, keys[0]);
      assert WellNamed(Base(g.typ));
      if g.isSliceOfStructs {
        ParsedWalk(Base(g.typ).elem, keys[2..], [], Some(g));
        SoundIndex(t, path, |keys| - 2, g, ix, Converter.ParseInt(keys[1], 64).value,
                   ParseKeys(NextType(g), keys[2..], [], Some(g)).value);
      } else {
        ParsedWalk(g.typ, keys[1..], path + [g.name], Some(g));
        SoundName(t, path, |keys| - 1, g, ix, ParseKeys(Base(t), keys, path, field).value);
      }
    }
  }

  /**
   A parsed key is sound for decoding: each segment became one field name or one slice
   index; only the last part carries no index; and unless a slice index is negative the walk
   over the parts finds every field and ends at a slot of the last field's type, or of its
   element type when the key ends with an index. A negative index makes `decode` panic.
   */
  lemma ParsedPathLocates(t: Type, key: string)
    requires t.Struct? && WellNamed(t) && ParsePath(key, t).Some?
    ensures var parts := ParsePath(key, t).value;
            && PathNames(parts) + |parts| - 1 == |Text.Split(key, '.')|
            && parts[|parts| - 1].index == -1 && parts[|parts| - 1].field.Some?
            && var l := Locate(t, parts[0].path, parts);
            && (IndicesExist(parts) ==>
                  l.Found? && Typed(t, l.loc) && TypeAt(t, l.loc) == SlotType(parts))
            && (!IndicesExist(parts) ==> l.Crash?)
            && (ShallowEmbedding(t) && l.Found? ==> Safe(t, l.loc, false))
  {
    var parts := ParsePath(key, t).value;
    ParsedWalk(t, Text.Split(key, '.'), [], None);
    assert parts[0].path[0..] == parts[0].path;
    LocateTyped(t, parts[0].path, parts);
  }
}
