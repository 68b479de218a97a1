/**
 Small struct types: one basic field meets every condition of the schema package at once, and a
 few more show what happens outside the conditions.
 */
module SchemaSmall {
  import opened Wrappers
  import opened SchemaTypes
  import opened SchemaCache
  import opened SchemaPath
  import opened SchemaTarget
  import opened SchemaOrder
  import opened SchemaRuns
  import opened SchemaEffects
  import Converter
  import SchemaAliases
  import SchemaForms
  import SchemaRequired
  import SchemaRoundTrip
  import SchemaRoutes
  import SchemaValues
  import Text

  /** Basic values, slices of them, and pointers to either. */
  predicate IsSingle(f: Field) {
    Innermost(f.typ).Basic? && Alias(f) != "-" && '.' !in Alias(f)
  }

  predicate IsSmall(f: Field) {
    f.typ.Basic? && IsSingle(f)
  }

  function Small(f: Field): Type {
    Struct([f])
  }

  function Info(f: Field): FieldInfo {
    FieldInfo(f.typ, f.name, Alias(f), Alias(f), false, f.anonymous, "required" in Options(f))
  }

  lemma SmallTable(f: Field)
    requires IsSingle(f)
    ensures Create(Small(f), "") == [Info(f)]
  {
    hide Alias, Options;
    assert [f][1..] == [];
    assert CreateField(f, "") == Some(Info(f));
    assert Direct([f], "") == [Info(f)] + Direct([f][1..], "");
    assert EmbeddedOnly([Info(f)][1..]) == [];
    assert EmbeddedOnly([Info(f)]) == [];
  }

  lemma SmallSelectors(f: Field, ix: seq<nat>)
    requires IsSingle(f)
    ensures IsSelector([f], ix) <==> ix == [0]
  {
    assert IsSelector([f], [0]);
  }

  lemma SmallMeetsConditions(f: Field)
    requires IsSmall(f)
    ensures AliasesUnique(Small(f)) && WellNamed(Small(f)) && ShallowEmbedding(Small(f))
    ensures SchemaRoundTrip.Plain(Small(f)) && SchemaAliases.FlatAliases([f])
  {
    forall ix ensures IsSelector([f], ix) <==> ix == [0] {
      SmallSelectors(f, ix);
    }
    assert SchemaRoundTrip.PlainField(f);
  }

  /** The alias is parsed into one part that names the field. */
  lemma SmallPath(f: Field)
    requires IsSingle(f)
    ensures ParsePath(Alias(f), Small(f)) == Some([PathPart(Some(Info(f)), [f.name], -1)])
    ensures SchemaRequired.WalksTo(Small(f), [Alias(f)], Info(f))
  {
    hide Alias, Create;
    SmallTable(f);
    Text.SplitPlain(Alias(f), '.');
    assert [Alias(f)][1..] == [] && [] + [f.name] == [f.name];
    assert ParseKeys(NextType(Info(f)), [], [] + [f.name], Some(Info(f))).Some?;
  }

  lemma SmallSpelled(f: Field)
    requires IsSmall(f) && "required" in Options(f)
    ensures SchemaRequired.Spells(Small(f), "", "", Alias(f), Alias(f), Info(f))
  {
    hide Alias, Create, Options;
    SmallTable(f);
    SmallPath(f);
    var links := SchemaRequired.WalkSpells(Small(f), [Alias(f)], Info(f));
    assert SchemaRequired.Spelled(Small(f), links, [Alias(f)], "", "", Alias(f), Alias(f), Info(f));
  }

  lemma SmallGiven(f: Field, text: string)
    requires IsSmall(f) && f.typ == Basic(StringKind) && text != ""
    ensures Alias(f) !in SchemaRequired.RequiredErrors(Small(f), map[Alias(f) := [text]])
  {
    hide Alias, Create, Options, SchemaRequired.RequiredErrors, SchemaRequired.Spells;
    var src := map[Alias(f) := [text]];
    SchemaRequired.RequiredReported(Small(f), src, Alias(f));
    if "required" in Options(f) {
      SmallPath(f);
      assert Text.Join([Alias(f)], '.') == Alias(f);
      SchemaRequired.GivenFieldNotReported(Small(f), src, Alias(f), [Alias(f)], Info(f));
    } else if path, h :| SchemaRequired.Spells(Small(f), "", "", Alias(f), path, h) {
      SmallSpells(f, path, h);
      SpelledIsRequired(f, path, h);
    }
  }

  lemma SpelledIsRequired(f: Field, path: string, h: FieldInfo)
    requires SchemaRequired.Spells(Small(f), "", "", Alias(f), path, h)
    ensures h.isRequired
  {
    hide Create, Alias;
    var links, spelling :| SchemaRequired.Spelled(Small(f), links, spelling, "", "", Alias(f), path, h);
    LastIsRequired(Small(f), links, spelling);
  }

  lemma {:induction false} LastIsRequired(t: Type, links: seq<FieldInfo>, spelling: seq<string>)
    requires SchemaRequired.Chain(t, links, spelling)
    ensures links[|links| - 1].isRequired
    decreases |links|
  {
    if |links| > 1 {
      LastIsRequired(links[0].typ, links[1..], spelling[1..]);
    }
  }

  /** With nothing in the source the field is reported if and only if it is required; given a text, it never is. */
  lemma SmallRequired(f: Field, text: string)
    requires IsSmall(f) && f.typ == Basic(StringKind) && text != ""
    ensures Alias(f) in SchemaRequired.RequiredErrors(Small(f), map[]) <==> "required" in Options(f)
    ensures Alias(f) !in SchemaRequired.RequiredErrors(Small(f), map[Alias(f) := [text]])
  {
    hide Alias, Create, Options, SchemaRequired.RequiredErrors, SchemaRequired.Spells;
    SmallGiven(f, text);
    SchemaRequired.RequiredReported(Small(f), map[], Alias(f));
    if "required" in Options(f) {
      SmallSpelled(f);
    } else if path, h :| SchemaRequired.Spells(Small(f), "", "", Alias(f), path, h) {
      SmallSpells(f, path, h);
      SpelledIsRequired(f, path, h);
    }
  }

  /** Given an empty text, a required field is reported but for two kinds of numbers. */
  lemma SmallEmptyText(f: Field)
    requires IsSmall(f) && "required" in Options(f)
    ensures Alias(f) in SchemaRequired.RequiredErrors(Small(f), map[Alias(f) := [""]]) <==>
            f.typ.kind != IntKind(W16) && f.typ.kind != UintKind(Native)
  {
    hide Alias, Create, Options, SchemaRequired.RequiredErrors;
    var src := map[Alias(f) := [""]];
    SmallTable(f);
    SmallPath(f);
    SchemaRequired.RequiredReported(Small(f), src, Alias(f));
    var g := Info(f);
    assert Text.Join([Alias(f)], '.') == Alias(f);
    if SchemaRequired.IsEmpty(f.typ, [""]) {
      var links := SchemaRequired.WalkSpells(Small(f), [Alias(f)], g);
      assert SchemaRequired.Spelled(Small(f), links, [Alias(f)], "", "", Alias(f), Alias(f), g);
      assert SchemaRequired.Spells(Small(f), "", "", Alias(f), Alias(f), g);
      forall path, h | SchemaRequired.Spells(Small(f), "", "", Alias(f), path, h) ensures h == g {
        SmallSpells(f, path, h);
      }
    } else {
      SchemaRequired.GivenFieldNotReported(Small(f), src, Alias(f), [Alias(f)], g);
    }
  }

  lemma SmallSpells(f: Field, path: string, h: FieldInfo)
    requires IsSmall(f) && SchemaRequired.Spells(Small(f), "", "", Alias(f), path, h)
    ensures h == Info(f)
  {
    hide Create, Alias, Options;
    SmallTable(f);
    var links, spelling :| SchemaRequired.Spelled(Small(f), links, spelling, "", "", Alias(f), path, h);
    assert links[0] in [Info(f)];
  }

  // ------------------------------------------------------------------------- what a form can hold

  function Refs(k: Kind, viaPtr: bool): Field {
    Field("Refs", "", if viaPtr then Ptr(Slice(Ptr(Basic(k)))) else Slice(Ptr(Basic(k))), false)
  }

  lemma RefsAreWellNamed(k: Kind, viaPtr: bool)
    ensures WellNamed(Small(Refs(k, viaPtr)))
  {
    var f := Refs(k, viaPtr);
    forall ix ensures IsSelector([f], ix) <==> ix == [0] {
      SmallSelectors(f, ix);
    }
    assert NamesUnique([f]);
    assert WellNamed(Ptr(Basic(k)));
    assert WellNamed(Slice(Ptr(Basic(k))));
    assert WellNamed(f.typ);
  }

  lemma RefsPath(k: Kind, viaPtr: bool)
    ensures ParsePath("Refs", Small(Refs(k, viaPtr))) == Some([PathPart(Some(Info(Refs(k, viaPtr))), ["Refs"], -1)])
  {
    hide ParsePath;
    SmallPath(Refs(k, viaPtr));
  }

  lemma EmptySlot(k: Kind, viaPtr: bool, zeroEmpty: bool)
    ensures SlotPanics(Refs(k, viaPtr).typ, [""], zeroEmpty) <==> zeroEmpty
  {
    hide Convert, Text.Split;
    assert HasEmptyPiece(ElemKind(k, true), [""][0]);
  }

  /**
   An empty text for a slice of pointers to basic values, or for a pointer to such a slice, makes
   `decode` panic if and only if zeroEmpty is on.
   */
  lemma EmptyPiecePanics(k: Kind, viaPtr: bool, cfg: Config)
    ensures EffectOf(Small(Refs(k, viaPtr)), "Refs", [""], cfg).effect.Crashes? <==> cfg.zeroEmpty
  {
    hide ParsePath, EffectOf, SlotPanics, WellNamed, Alias, Options, Locate;
    RefsPath(k, viaPtr);
    RefsAreWellNamed(k, viaPtr);
    CrashesIff(Small(Refs(k, viaPtr)), "Refs", [""], cfg);
    EmptySlot(k, viaPtr, cfg.zeroEmpty);
  }

  function NameField(): Field {
    Field("Name", "", Basic(StringKind), false)
  }

  lemma NameLeaf(key: string, text: string, zeroEmpty: bool)
    requires text != ""
    ensures LeafOf(NameField().typ, key, [text], zeroEmpty) == Leaf(Assign(StringV(text)), None)
    ensures Text.EqualFold(Alias(NameField()), "Name") && Text.EqualFold(Alias(NameField()), "name")
  {
    assert Text.Fold("Name") == Text.Fold("name");
  }

  /** Two spellings of one key, with different values: the order of the keys shows. */
  lemma TwoSpellings(v: Value, cfg: Config)
    requires HasType(v, Small(NameField()))
    ensures var src := map["Name" := ["a"], "name" := ["b"]];
            KeysSafe(Small(NameField()), src, cfg) && !OrderUnseen(Small(NameField()), v, src, cfg)
  {
    hide EffectOf, Run, HasType, KeysSafe, LeafOf, Text.EqualFold, NamesUnique;
    var t, src := Small(NameField()), map["Name" := ["a"], "name" := ["b"]];
    assert IsSmall(NameField());
    SmallMeetsConditions(NameField());
    SmallSelectors(NameField(), [0]);
    ShallowKeysAreSafe(t, src, cfg);
    NameLeaf("Name", "a", cfg.zeroEmpty);
    NameLeaf("name", "b", cfg.zeroEmpty);
    SchemaRoundTrip.LastSpellingWins(t, v, [0], src, cfg, "Name", "name", StringV("a"), StringV("b"));
    BothOrders("Name", "name", ["a"], ["b"]);
  }

  lemma BothOrders(j: string, k: string, xs: seq<string>, ys: seq<string>)
    requires j != k
    ensures Visits([j, k], map[j := xs, k := ys]) && Visits([k, j], map[j := xs, k := ys])
  {}

  /** An omitted field leaves the form as it was. */
  lemma OmittedEncoding(f: Field, v: Value, form: SchemaForms.Form)
    requires f.typ.Basic? && HasType(v, f.typ) && v == Zero(f.typ) && "omitempty" in Options(f)
    ensures SchemaForms.EncodeFields([f], [v], form) == SchemaForms.Encoded(form, {})
  {
    hide Alias, Options, Converter.FormatInt, Converter.FormatUint;
    assert SchemaForms.EncodeField(f, v, form) == SchemaForms.Encoded(form, {});
    assert SchemaForms.EncodeUpTo([f], [v], 0, form) == SchemaForms.Encoded(form, {});
  }

  /** A string field that `omitempty` leaves out comes back as the text that the form held before. */
  lemma StaleEntry(f: Field, text: string, order: seq<string>, ignoreUnknown: bool)
    requires IsSmall(f) && f.typ == Basic(StringKind) && "omitempty" in Options(f) && text != ""
    requires Visits(order, map[Alias(f) := [text]])
    ensures SchemaForms.EncodeFields([f], [StringV("")], map[Alias(f) := [text]]) ==
            SchemaForms.Encoded(map[Alias(f) := [text]], {})
    ensures SchemaRoundTrip.Plain(Small(f)) && HasType(StructV([StringV("")]), Small(f))
    ensures !SchemaRoundTrip.NoStaleEntries(Small(f), StructV([StringV("")]), map[Alias(f) := [text]])
    ensures Zero(Small(f)) == StructV([StringV("")])
    ensures var es := Effects(Small(f), map[Alias(f) := [text]], Config(true, ignoreUnknown), order);
            Run(Small(f), StructV([StringV("")]), es) == Done(StructV([StringV(text)]))
  {
    hide EffectOf, Run, Alias, Options, SchemaForms.EncodeFields;
    var t, v, form := Small(f), StructV([StringV("")]), map[Alias(f) := [text]];
    OmittedEncoding(f, StringV(""), form);
    SmallMeetsConditions(f);
    SmallSelectors(f, [0]);
    assert SchemaRoundTrip.KeyOf(t, Alias(f), [0]);
    assert !SchemaRoundTrip.FreshEntry(t, v, form, [0]);
    SchemaRoundTrip.StaleKeyWins(t, v, form, [0], ignoreUnknown, order);
  }

  /** One such field. */
  lemma OmitExample()
    ensures var f := Field("Name", "Name,omitempty", Basic(StringKind), false);
            IsSmall(f) && "omitempty" in Options(f) && Alias(f) == "Name"
  {
    hide Text.Split;
    var parts := ["Name", "omitempty"];
    Text.JoinThenSplit(parts, ',');
    assert parts[1..] == ["omitempty"];
    assert Text.Join(parts, ',') == "Name,omitempty";
    assert parts[1..][0] == "omitempty";
  }

  // ------------------------------------------------------------------------- a negative index

  function Listing(f: Field): Field {
    Field("Items", "", Slice(Small(f)), false)
  }

  function ListingInfo(f: Field): FieldInfo {
    FieldInfo(Slice(Small(f)), "Items", "Items", "Items", true, false, false)
  }

  lemma ListingTable(f: Field)
    ensures Create(Struct([Listing(f)]), "") == [ListingInfo(f)]
  {
    var l := Listing(f);
    assert [l][1..] == [];
    assert CreateField(l, "") == Some(ListingInfo(f));
    assert Direct([l], "") == [ListingInfo(f)] + Direct([l][1..], "");
    assert EmbeddedOnly([ListingInfo(f)][1..]) == [];
    assert EmbeddedOnly([ListingInfo(f)]) == [];
  }

  lemma NumberHasNoDot(k: int)
    ensures '.' !in Converter.FormatInt(k)
  {
    Converter.FormatUintReadsBack(if k < 0 then -k else k);
  }

  function ListingParts(f: Field, k: int): seq<PathPart> {
    [PathPart(Some(ListingInfo(f)), ["Items"], k), PathPart(Some(ListingInfo(f)), [], -1)]
  }

  lemma ListingKey(k: int)
    ensures Text.Split("Items." + Converter.FormatInt(k), '.') == ["Items", Converter.FormatInt(k)]
  {
    hide Converter.FormatInt, Text.Split;
    var keys := ["Items", Converter.FormatInt(k)];
    NumberHasNoDot(k);
    Text.JoinThenSplit(keys, '.');
    assert keys[1..] == [Converter.FormatInt(k)];
    assert Text.Join(keys, '.') == "Items." + Converter.FormatInt(k);
  }

  lemma ListingFound(f: Field)
    ensures Lookup([ListingInfo(f)], "Items") == Some(ListingInfo(f))
  {}

  lemma IndexPath(f: Field, k: int)
    requires 0 - Converter.Pow2(63) <= k < Converter.Pow2(63)
    ensures ParsePath("Items." + Converter.FormatInt(k), Struct([Listing(f)])) == Some(ListingParts(f, k))
  {
    hide Create, Lookup, Converter.FormatInt, Converter.ParseInt, Text.Split;
    ListingKey(k);
    Converter.ParseFormatInt(k, 64);
    ListingTable(f);
    ListingFound(f);
    var t, g, keys := Struct([Listing(f)]), ListingInfo(f), ["Items", Converter.FormatInt(k)];
    assert keys[2..] == [] && [] + [g.name] == ["Items"];
    var last := PathPart(Some(g), [], -1);
    assert ParseKeys(NextType(g), keys[2..], [], Some(g)) == Some([last]);
    assert ParseKeys(t, keys, [], None) == Some([PathPart(Some(g), [] + [g.name], k)] + [last]);
    assert [PathPart(Some(g), [] + [g.name], k)] + [last] == ListingParts(f, k);
  }

  lemma ListingLocates(f: Field, k: int)
    ensures Locate(Struct([Listing(f)]), ["Items"], ListingParts(f, k)) ==
            if k < 0 then Crash else Found([Named(0), Elem(k)])
  {
    hide SearchName;
    OnlyName(Listing(f), [0]);
    var t, parts := Struct([Listing(f)]), ListingParts(f, k);
    assert ["Items"][1..] == [] && parts[1..] == [PathPart(Some(ListingInfo(f)), [], -1)];
    assert Locate(Slice(Small(f)), [], parts) ==
           if k < 0 then Crash else Behind([Elem(k)], Locate(Small(f), [], parts[1..]));
    assert Locate(t, ["Items"], parts) == Behind(Steps([0]), Locate(Slice(Small(f)), [], parts));
    if k >= 0 {
      assert Steps([0]) + ([Elem(k)] + []) == [Named(0), Elem(k)];
    }
  }

  lemma ListingElement(f: Field, k: nat)
    ensures Typed(Struct([Listing(f)]), [Named(0), Elem(k)])
    ensures TypeAt(Struct([Listing(f)]), [Named(0), Elem(k)]) == Small(f)
  {
    var t, loc := Struct([Listing(f)]), [Named(0), Elem(k)];
    assert loc[1..] == [Elem(k)] && [Elem(k)][1..] == [];
    assert ChildType(t, Named(0)) == Slice(Small(f)) && ChildType(Slice(Small(f)), Elem(k)) == Small(f);
    assert TypeAt(Slice(Small(f)), [Elem(k)]) == TypeAt(Small(f), []);
  }

  /** An index is parsed with its sign, and `decode` panics if and only if it is negative. */
  lemma NegativeIndexPanics(f: Field, k: int, values: seq<string>, cfg: Config)
    requires 0 - Converter.Pow2(63) <= k < Converter.Pow2(63)
    ensures EffectOf(Struct([Listing(f)]), "Items." + Converter.FormatInt(k), values, cfg).effect.Crashes? <==> k < 0
  {
    hide ParsePath, Locate, Converter.FormatInt, TypeAt;
    IndexPath(f, k);
    ListingLocates(f, k);
    if k >= 0 {
      ListingElement(f, k);
    }
  }

  function ListingRoute(f: Field, k: nat): seq<SchemaRoutes.Hop> {
    [SchemaRoutes.Hop([0], "items", Some(k)), SchemaRoutes.Hop([0], Alias(f), None)]
  }

  lemma ListingHops(f: Field, k: nat)
    requires IsSmall(f) && k < Converter.Pow2(63)
    ensures SchemaRoutes.IsRoute(Struct([Listing(f)]), ListingRoute(f, k))
    ensures SchemaRoutes.SlotOf(Struct([Listing(f)]), ListingRoute(f, k)) == f.typ
  {
    hide Alias, Converter.Pow2;
    var t, route := Struct([Listing(f)]), ListingRoute(f, k);
    ItemsAlias(f);
    OneIsAddressable(f);
    OneIsAddressable(Listing(f));
    assert SchemaRoutes.IsHop(t, route[0]);
    assert SchemaRoutes.IsHop(Small(f), route[1]);
    assert route[1..] == [route[1]];
  }

  lemma ItemsAlias(f: Field)
    ensures Alias(Listing(f)) == "Items" && Text.Fold("Items") == Text.Fold("items")
  {}

  lemma OneIsAddressable(f: Field)
    requires !Embedded(f) && SchemaAliases.IsListed(f) && '.' !in Alias(f)
    ensures SchemaRoutes.Addressable([f]) && IsSelector([f], [0]) && Selected([f], [0]) == f
  {
    hide Alias, Supported;
    assert IsSelector([f], [0]);
    forall ix ensures IsSelector([f], ix) <==> ix == [0] {}
  }

  /** A key into an element of a slice of structs, with a spelling of its own, sets the field of that element. */
  lemma RouteExample(f: Field, k: nat, text: string, cfg: Config)
    requires IsSmall(f) && f.typ == Basic(StringKind) && k < Converter.Pow2(63) && text != ""
    ensures var t, route := Struct([Listing(f)]), ListingRoute(f, k);
            && SchemaRoutes.Key(route) == "items." + Converter.FormatInt(k) + "." + Alias(f)
            && SchemaRoutes.Place(route) == [Named(0), Elem(k), Named(0)]
            && SchemaValues.Reaches(t, Zero(t), route)
            && SchemaValues.Leaves(t, Zero(t), route, [text], cfg, StringV(text), None)
  {
    hide Alias, Converter.Pow2, Converter.FormatInt, SchemaRoutes.IsRoute, SchemaValues.Leaves, SchemaRoutes.SlotOf;
    var t, route := Struct([Listing(f)]), ListingRoute(f, k);
    ListingHops(f, k);
    ListingPlace(f, k);
    ZeroHasType(t);
    SchemaRoutes.PlaceFits(t, route);
    ListingSafe(f, k);
    SchemaValues.SingleValueLeaves(t, Zero(t), route, [text], cfg);
  }

  lemma ListingPlace(f: Field, k: nat)
    ensures SchemaRoutes.Key(ListingRoute(f, k)) == "items." + Converter.FormatInt(k) + "." + Alias(f)
    ensures SchemaRoutes.Place(ListingRoute(f, k)) == [Named(0), Elem(k), Named(0)]
  {
    hide Alias, Converter.FormatInt;
    var route := ListingRoute(f, k);
    assert route[1..] == [route[1]] && [route[1]][1..] == [];
    var segments := ["items", Converter.FormatInt(k), Alias(f)];
    assert SchemaRoutes.Segments([route[1]]) == [Alias(f)];
    assert SchemaRoutes.Segments(route) == segments;
    assert segments[1..] == [Converter.FormatInt(k), Alias(f)] && segments[1..][1..] == [Alias(f)];
    assert Text.Join(segments[1..], '.') == Converter.FormatInt(k) + "." + Alias(f);
    assert SchemaRoutes.Place([route[1]]) == [Named(0)];
  }

  lemma ListingSafe(f: Field, k: nat)
    requires Typed(Struct([Listing(f)]), [Named(0), Elem(k), Named(0)])
    ensures Safe(Struct([Listing(f)]), [Named(0), Elem(k), Named(0)], false)
  {
    var loc := [Named(0), Elem(k), Named(0)];
    assert loc[1..] == [Elem(k), Named(0)] && loc[1..][1..] == [Named(0)] && loc[1..][1..][1..] == [];
    assert Typed(Slice(Small(f)), loc[1..]) && Typed(Small(f), [Named(0)]);
    assert Safe(Small(f), [Named(0)], false);
    assert Safe(Slice(Small(f)), loc[1..], false);
  }

  lemma OnlyName(f: Field, ix: seq<nat>)
    requires !Embedded(f) && ix == [0]
    ensures FieldByName([f], f.name) == Some(ix)
  {
    forall jx ensures IsSelector([f], jx) <==> jx == [0] {
      assert IsSelector([f], [0]);
    }
    assert NamesUnique([f]);
    SearchFinds([f], ix, 0);
  }

  // ------------------------------------------------------------- embedded pointers, two levels deep

  function Deep(f: Field): Type {
    Struct([Outer(f)])
  }

  function Outer(f: Field): Field {
    Field("Outer", "", Ptr(Struct([Inner(f)])), true)
  }

  function Inner(f: Field): Field {
    Field("Inner", "", Ptr(Small(f)), true)
  }

  /** A basic field whose alias and name are not those of the structs around it. */
  predicate IsDeep(f: Field) {
    && IsSmall(f) && f.name != "Outer" && f.name != "Inner"
    && !Text.EqualFold("Outer", Alias(f)) && !Text.EqualFold("Inner", Alias(f))
  }

  lemma {:induction false} DeepSelectors(f: Field, ix: seq<nat>)
    requires IsDeep(f)
    ensures IsSelector([Outer(f)], ix) <==> ix == [0] || ix == [0, 0] || ix == [0, 0, 0]
  {
    var fs, gs := [Outer(f)], [Inner(f)];
    assert [0, 0][1..] == [0] && [0, 0, 0][1..] == [0, 0];
    SmallSelectors(f, [0]);
    assert IsSelector(gs, [0]) && IsSelector(gs, [0, 0]);
    assert IsSelector(fs, [0]) && IsSelector(fs, [0, 0]) && IsSelector(fs, [0, 0, 0]);
    if IsSelector(fs, ix) && |ix| > 1 {
      assert IsSelector(gs, ix[1..]);
      if |ix| > 2 {
        SmallSelectors(f, ix[1..][1..]);
      }
    }
  }

  lemma DeepName(f: Field)
    requires IsDeep(f)
    ensures FieldByName([Outer(f)], f.name) == Some([0, 0, 0])
    ensures IsSelector([Outer(f)], [0, 0, 0]) && Selected([Outer(f)], [0, 0, 0]) == f
  {
    var fs := [Outer(f)];
    forall ix ensures IsSelector(fs, ix) <==> ix == [0] || ix == [0, 0] || ix == [0, 0, 0] {
      DeepSelectors(f, ix);
    }
    assert [0, 0][1..] == [0] && [0, 0, 0][1..] == [0, 0];
    assert Selected(fs, [0]) == Outer(f) && Selected(fs, [0, 0]) == Inner(f) && Selected(fs, [0, 0, 0]) == f;
    assert NamesUnique(fs);
    SearchFinds(fs, [0, 0, 0], 0);
  }

  lemma DirectOfOne(e: Field, parentAlias: string)
    requires CreateField(e, parentAlias).Some?
    ensures Direct([e], parentAlias) == [CreateField(e, parentAlias).value]
  {
    assert [e][1..] == [];
    assert Direct([e], parentAlias) == [CreateField(e, parentAlias).value] + Direct([e][1..], parentAlias);
  }

  /** An alias that only the embedded struct offers. */
  lemma EmbeddedAlias(e: Field, parentAlias: string, alias: string)
    requires Embedded(e) && CreateField(e, parentAlias).Some? && AliasesUnique(Struct([e]))
    requires !Text.EqualFold(Alias(e), alias)
    requires Lookup(Create(Base(e.typ), CreateField(e, parentAlias).value.canonicalAlias), alias).Some?
    ensures Lookup(Create(Struct([e]), parentAlias), alias) ==
            Lookup(Create(Base(e.typ), CreateField(e, parentAlias).value.canonicalAlias), alias)
  {
    hide Create, CreateField, Alias, Text.EqualFold;
    var t, g := Struct([e]), CreateField(e, parentAlias).value;
    DirectOfOne(e, parentAlias);
    CreatedAlias(e, parentAlias);
    AliasRule(t, parentAlias, alias);
    assert Lookup([g], alias).None?;
    assert Provides(t, parentAlias, g, alias);
    assert OnlyProvider(t, parentAlias, g, alias);
  }

  lemma CreatedAlias(e: Field, parentAlias: string)
    requires CreateField(e, parentAlias).Some?
    ensures var g := CreateField(e, parentAlias).value;
            g.alias == Alias(e) && g.typ == e.typ && g.isAnonymous == e.anonymous && g.name == e.name
  {}

  lemma SmallTableUnder(f: Field, parentAlias: string) returns (g: FieldInfo)
    requires IsSmall(f)
    ensures Create(Small(f), parentAlias) == [g] && Describes(g, f)
  {
    hide Alias, Options;
    g := CreateField(f, parentAlias).value;
    DirectOfOne(f, parentAlias);
    assert EmbeddedOnly([g][1..]) == [];
    assert EmbeddedOnly([g]) == [];
  }

  lemma DeepAliasesUnique(f: Field)
    requires IsSmall(f)
    ensures AliasesUnique(Struct([Inner(f)])) && AliasesUnique(Deep(f))
  {
    SmallMeetsConditions(f);
    assert AliasesUniqueBelow(Struct([Inner(f)]), Inner(f));
    assert AliasesUniqueBelow(Deep(f), Outer(f));
  }

  lemma DeepEntry(f: Field) returns (g: FieldInfo)
    requires IsDeep(f)
    ensures Lookup(Create(Deep(f), ""), Alias(f)) == Some(g) && Describes(g, f)
  {
    hide Create;
    DeepAliasesUnique(f);
    var outer := CreateField(Outer(f), "").value;
    var inner := CreateField(Inner(f), outer.canonicalAlias).value;
    g := SmallTableUnder(f, inner.canonicalAlias);
    assert Lookup([g], Alias(f)) == Some(g);
    EmbeddedAlias(Inner(f), outer.canonicalAlias, Alias(f));
    EmbeddedAlias(Outer(f), "", Alias(f));
  }

  lemma DeepLocation(f: Field) returns (part: PathPart)
    requires IsDeep(f)
    ensures part.path == [f.name]
    ensures ParsePath(Alias(f), Deep(f)) == Some([part])
    ensures Locate(Deep(f), part.path, [part]) == Found(Steps([0, 0, 0]))
  {
    hide Create, Lookup, SearchName, Alias;
    var g := DeepEntry(f);
    DeepName(f);
    Text.SplitPlain(Alias(f), '.');
    part := PathPart(Some(g), [g.name], -1);
    assert [Alias(f)][1..] == [] && [] + [g.name] == [g.name] && [g.name][1..] == [];
    assert ParseKeys(NextType(g), [], [g.name], Some(g)) == Some([part]);
    assert Steps([0, 0, 0]) + [] == Steps([0, 0, 0]);
  }

  /**
   With an embedded pointer inside an embedded pointer, the key of the innermost field makes
   `decode` panic on a target with nothing set, whatever its values.
   */
  lemma DeepEmbeddingPanics(f: Field, values: seq<string>, cfg: Config)
    requires IsDeep(f)
    ensures !ShallowEmbedding(Deep(f)) && HasType(Zero(Deep(f)), Deep(f))
    ensures !EffectSafe(Deep(f), EffectOf(Deep(f), Alias(f), values, cfg).effect)
    ensures Apply(Deep(f), Zero(Deep(f)), EffectOf(Deep(f), Alias(f), values, cfg).effect).Panic?
  {
    hide ParsePath, Locate, Alias;
    var t := Deep(f);
    var part := DeepLocation(f);
    var loc := Steps([0, 0, 0]);
    assert loc == [Named(0), Promoted(0), Promoted(0)];
    KeyPanicsIff(t, Alias(f), values, cfg);
    assert !EmbedsByValue(Base(Outer(f).typ)) by {
      assert Embedded(Inner(f));
    }
    var e := EffectOf(t, Alias(f), values, cfg).effect;
    assert e.Change? ==> e.loc == loc;
    assert loc[1..] == [Promoted(0), Promoted(0)] && loc[1..][1..] == [Promoted(0)];
  }

  /** One such type, and its key. */
  lemma DeepExample(values: seq<string>, cfg: Config)
    ensures var f := Field("X", "", Basic(StringKind), false);
            HasType(Zero(Deep(f)), Deep(f)) && Apply(Deep(f), Zero(Deep(f)), EffectOf(Deep(f), "X", values, cfg).effect).Panic?
  {
    var f := Field("X", "", Basic(StringKind), false);
    assert |Text.Fold("Outer")| == 5 && |Text.Fold("Inner")| == 5 && |Text.Fold("X")| == 1;
    DeepEmbeddingPanics(f, values, cfg);
  }
}
