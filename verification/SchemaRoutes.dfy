/**
 Keys by the way they are made: names and indices along a route through the type. Such a key is
 parsed, and leads to the place where the route ends.
 */
module SchemaRoutes {
  import opened Wrappers
  import opened SchemaTypes
  import opened SchemaTarget
  import opened SchemaOrder
  import opened SchemaRuns
  import opened SchemaCache
  import opened SchemaPath
  import opened SchemaAliases
  import opened SchemaEffects
  import opened SchemaPlaces
  import Converter
  import Text

  /** A field, by its path through embedded structs and by some spelling of its alias, and an element of it. */
  datatype Hop = Hop(ix: seq<nat>, name: string, elem: Option<nat>)

  /** Fields of this type are followed by an index. */
  predicate IsListOfStructs(t: Type) {
    Base(t).Slice? && Base(Base(t).elem).Struct?
  }

  /** Aliases and Go names are unambiguous, and no field is left out. */
  ghost predicate Addressable(fs: seq<Field>) {
    FlatAliases(fs) && NamesUnique(fs) && Listed(fs)
  }

  ghost predicate IsHop(t: Type, hop: Hop) {
    && Base(t).Struct? && Addressable(Base(t).fields) && IsSelector(Base(t).fields, hop.ix)
    && var f := Selected(Base(t).fields, hop.ix);
       && Text.EqualFold(Alias(f), hop.name) && '.' !in hop.name
       && (hop.elem.Some? <==> IsListOfStructs(f.typ))
       && (hop.elem.Some? ==> hop.elem.value < Converter.Pow2(63))
  }

  ghost function After(t: Type, hop: Hop): Type
    requires IsHop(t, hop)
  {
    var u := Selected(Base(t).fields, hop.ix).typ;
    if hop.elem.Some? then Base(u).elem else u
  }

  ghost predicate IsRoute(t: Type, route: seq<Hop>)
    decreases |route|
  {
    route != [] && IsHop(t, route[0]) && (|route| > 1 ==> IsRoute(After(t, route[0]), route[1..]))
  }

  /** The segments of the key. */
  function Segments(route: seq<Hop>): seq<string> {
    if route == [] then []
    else
      [route[0].name] + (if route[0].elem.Some? then [Converter.FormatInt(route[0].elem.value)] else []) +
      Segments(route[1..])
  }

  function Key(route: seq<Hop>): string {
    Text.Join(Segments(route), '.')
  }

  function StepsOf(hop: Hop): seq<Step> {
    Steps(hop.ix) + if hop.elem.Some? then [Elem(hop.elem.value)] else []
  }

  /** Where the route ends. */
  function Place(route: seq<Hop>): seq<Step> {
    if route == [] then [] else StepsOf(route[0]) + Place(route[1..])
  }

  /** The type there. */
  ghost function SlotOf(t: Type, route: seq<Hop>): Type
    requires IsRoute(t, route)
    decreases |route|
  {
    if |route| == 1 then After(t, route[0]) else SlotOf(After(t, route[0]), route[1..])
  }

  lemma HopFits(t: Type, hop: Hop, rest: seq<Step>)
    requires IsHop(t, hop) && Typed(After(t, hop), rest)
    ensures Typed(t, StepsOf(hop) + rest) && TypeAt(t, StepsOf(hop) + rest) == TypeAt(After(t, hop), rest)
  {
    var tail := (if hop.elem.Some? then [Elem(hop.elem.value)] else []) + rest;
    assert StepsOf(hop) + rest == Steps(hop.ix) + tail;
    if hop.elem.Some? {
      assert tail[1..] == rest;
    } else {
      assert tail == rest;
    }
    StepsFit(t, hop.ix, tail);
  }

  lemma {:induction false} PlaceFits(t: Type, route: seq<Hop>)
    requires IsRoute(t, route)
    ensures Typed(t, Place(route)) && TypeAt(t, Place(route)) == SlotOf(t, route)
    decreases |route|
  {
    if |route| > 1 {
      PlaceFits(After(t, route[0]), route[1..]);
    } else {
      assert Place(route[1..]) == [];
    }
    HopFits(t, route[0], Place(route[1..]));
  }

  lemma NumberHasNoDot(k: nat)
    ensures '.' !in Converter.FormatInt(k)
  {
    Converter.FormatUintReadsBack(k);
  }

  lemma {:induction false} SegmentsHaveNoDots(t: Type, route: seq<Hop>)
    requires IsRoute(t, route)
    ensures Segments(route) != [] && forall i :: 0 <= i < |Segments(route)| ==> '.' !in Segments(route)[i]
    decreases |route|
  {
    hide Converter.FormatInt;
    if route[0].elem.Some? {
      NumberHasNoDot(route[0].elem.value);
    }
    if |route| > 1 {
      SegmentsHaveNoDots(After(t, route[0]), route[1..]);
    }
  }

  // ------------------------------------------------------------------------- the key is parsed

  /** The entry of the field of a hop, and the field that the entry names. */
  lemma HopEntry(t: Type, hop: Hop) returns (g: FieldInfo)
    requires IsHop(t, hop)
    ensures Lookup(Create(Base(t), ""), hop.name) == Some(g)
    ensures FieldByName(Base(t).fields, g.name) == Some(hop.ix)
    ensures g.isSliceOfStructs == hop.elem.Some? && NextType(g) == Base(After(t, hop))
  {
    hide Create, Lookup, SearchName, Addressable, Converter.Pow2;
    assert FlatAliases(Base(t).fields) && NamesUnique(Base(t).fields) && Listed(Base(t).fields) by {
      IsAddressable(t, hop);
    }
    g := EntryUnderAlias(Base(t), hop.ix);
    LookupFolded(Create(Base(t), ""), Alias(Selected(Base(t).fields, hop.ix)), hop.name);
    SearchFinds(Base(t).fields, hop.ix, 0);
  }

  lemma IsAddressable(t: Type, hop: Hop)
    requires IsHop(t, hop)
    ensures FlatAliases(Base(t).fields) && NamesUnique(Base(t).fields) && Listed(Base(t).fields)
  {}

  /** From where `names` of the first part are still to walk, the parts lead to a place. */
  predicate LeadsTo(t: Type, path: seq<string>, parts: seq<PathPart>, loc: seq<Step>) {
    && parts != [] && path <= parts[0].path
    && Locate(t, parts[0].path[|path|..], parts) == Found(loc)
  }

  lemma LeadsName(t: Type, hop: Hop, g: FieldInfo, path: seq<string>, parts: seq<PathPart>, loc: seq<Step>)
    requires IsHop(t, hop) && hop.elem.None? && FieldByName(Base(t).fields, g.name) == Some(hop.ix)
    requires LeadsTo(After(t, hop), path + [g.name], parts, loc)
    ensures LeadsTo(t, path, parts, StepsOf(hop) + loc)
  {
    hide Addressable, SearchName, Steps;
    var names := parts[0].path;
    NameInFront(names, path, g.name);
    assert Locate(Selected(Base(t).fields, hop.ix).typ, names[|path|..][1..], parts) == Found(loc);
    assert StepsOf(hop) + loc == Steps(hop.ix) + loc;
  }

  lemma NameInFront(names: seq<string>, path: seq<string>, name: string)
    requires path + [name] <= names
    ensures path <= names && names[|path|..] != [] && names[|path|..][0] == name
    ensures names[|path|..][1..] == names[|path + [name]|..]
  {
    var longer := path + [name];
    assert names[..|longer|] == longer;
    assert names[|path|] == longer[|path|];
    assert names[..|path|] == longer[..|path|];
  }

  lemma LeadsElem(t: Type, hop: Hop, g: FieldInfo, path: seq<string>, parts: seq<PathPart>, loc: seq<Step>)
    requires IsHop(t, hop) && hop.elem.Some? && FieldByName(Base(t).fields, g.name) == Some(hop.ix)
    requires LeadsTo(After(t, hop), [], parts, loc)
    ensures LeadsTo(t, path, [PathPart(Some(g), path + [g.name], hop.elem.value)] + parts, StepsOf(hop) + loc)
  {
    hide Addressable, SearchName;
    var k, all := hop.elem.value, [PathPart(Some(g), path + [g.name], hop.elem.value)] + parts;
    assert all[1..] == parts && parts[0].path[0..] == parts[0].path;
    assert all[0].path[|path|..] == [g.name] && [g.name][1..] == [];
    var u := Selected(Base(t).fields, hop.ix).typ;
    assert Locate(u, [], all) == Found([Elem(k)] + loc);
    assert StepsOf(hop) + loc == Steps(hop.ix) + ([Elem(k)] + loc);
  }

  lemma LeadsNowhere(t: Type, field: Option<FieldInfo>, path: seq<string>)
    ensures LeadsTo(t, path, [PathPart(field, path, -1)], [])
  {
    assert path[|path|..] == [];
  }

  /** From every state of the loop of `parsePath`, the segments of a route are parsed, and lead along the route. */
  lemma {:induction false} RouteParses(t: Type, route: seq<Hop>, path: seq<string>, field: Option<FieldInfo>)
    requires IsRoute(t, route)
    ensures var r := ParseKeys(Base(t), Segments(route), path, field);
            r.Some? && LeadsTo(t, path, r.value, Place(route))
    decreases |route|
  {
    hide IsHop, LeadsTo, ParseKeys, Converter.FormatInt, Create, Lookup, FieldByName, After, NextType, StepsOf;
    var hop, rest := route[0], route[1..];
    var g := HopEntry(t, hop);
    var p := if hop.elem.Some? then [] else path + [g.name];
    var u := After(t, hop);
    ParseHop(t, hop, g, Segments(rest), path, field);
    if rest == [] {
      LeadsNowhere(u, Some(g), p);
      ParseEnd(u, p, Some(g));
    } else {
      RouteParses(u, rest, p, Some(g));
    }
    var tail := ParseKeys(Base(u), Segments(rest), p, Some(g)).value;
    if hop.elem.Some? {
      assert Segments(route) == [hop.name, Converter.FormatInt(hop.elem.value)] + Segments(rest);
      LeadsElem(t, hop, g, path, tail, Place(rest));
    } else {
      assert Segments(route) == [hop.name] + Segments(rest);
      LeadsName(t, hop, g, path, tail, Place(rest));
    }
  }

  lemma ParseEnd(t: Type, path: seq<string>, field: Option<FieldInfo>)
    ensures ParseKeys(Base(t), [], path, field) == Some([PathPart(field, path, -1)])
  {}

  /** What the loop of `parsePath` does with the segments of one hop. */
  lemma ParseHop(t: Type, hop: Hop, g: FieldInfo, rest: seq<string>, path: seq<string>, field: Option<FieldInfo>)
    requires IsHop(t, hop) && Lookup(Create(Base(t), ""), hop.name) == Some(g)
    requires g.isSliceOfStructs == hop.elem.Some? && NextType(g) == Base(After(t, hop))
    ensures hop.elem.None? ==>
              ParseKeys(Base(t), [hop.name] + rest, path, field) ==
              ParseKeys(Base(After(t, hop)), rest, path + [g.name], Some(g))
    ensures hop.elem.Some? ==>
              ParseKeys(Base(t), [hop.name, Converter.FormatInt(hop.elem.value)] + rest, path, field) ==
              match ParseKeys(Base(After(t, hop)), rest, [], Some(g))
              case None => None
              case Some(parts) => Some([PathPart(Some(g), path + [g.name], hop.elem.value)] + parts)
  {
    hide Create, Lookup, Addressable, Converter.FormatInt, Converter.ParseInt, Converter.Pow2;
    HopIndex(t, hop);
    assert ([hop.name] + rest)[1..] == rest;
    if hop.elem.Some? {
      var keys := [hop.name, Converter.FormatInt(hop.elem.value)] + rest;
      assert keys[2..] == rest;
    }
  }

  /** The index of a hop is parsed as it is printed. */
  lemma HopIndex(t: Type, hop: Hop)
    requires IsHop(t, hop)
    ensures Base(t).Struct?
    ensures hop.elem.Some? ==>
              Converter.ParseInt(Converter.FormatInt(hop.elem.value), 64) == Some(hop.elem.value)
  {
    hide Addressable, Converter.FormatInt, Converter.ParseInt;
    if hop.elem.Some? {
      Converter.ParseFormatInt(hop.elem.value, 64);
    }
  }

  /**
   The key of a route, in any spelling of its aliases, acts on the place where the route ends, and
   on what the values make of a slot of the type there.
   */
  lemma RouteIsFound(t: Type, route: seq<Hop>, values: seq<string>, cfg: Config)
    requires t.Struct? && IsRoute(t, route)
    ensures Typed(t, Place(route)) && TypeAt(t, Place(route)) == SlotOf(t, route)
    ensures EffectOf(t, Key(route), values, cfg) ==
            match LeafOf(SlotOf(t, route), Key(route), values, cfg.zeroEmpty)
            case LeafCrash => KeyEffect(Crashes, None)
            case Leaf(act, err) => KeyEffect(Change(Place(route), act), err)
  {
    hide LeafOf, IsRoute, Segments, Locate, ParseKeys;
    PlaceFits(t, route);
    SegmentsHaveNoDots(t, route);
    Text.JoinThenSplit(Segments(route), '.');
    RouteParses(t, route, [], None);
    var parts := ParsePath(Key(route), t).value;
    assert parts[0].path[0..] == parts[0].path;
  }
}
