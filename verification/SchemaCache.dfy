/**
 The metadata cache: a struct type is flattened into a table of aliases, with the fields of
 embedded structs promoted.
 */
module SchemaCache {
  import opened Wrappers
  import opened SchemaTypes
  import opened Text

  datatype FieldInfo = FieldInfo(
    typ: Type, name: string, alias: string, canonicalAlias: string,
    isSliceOfStructs: bool, isAnonymous: bool, isRequired: bool)

  // ------------------------------------------------------------------------- type sizes

  function TypeSize(t: Type): (n: nat)
    ensures n > 0
    decreases t
  {
    match t
    case Ptr(e) => 1 + TypeSize(e)
    case Slice(e) => 1 + TypeSize(e)
    case Struct(fs) => 1 + FieldsSize(fs)
    case _ => 1
  }

  function FieldsSize(fs: seq<Field>): nat
    decreases fs
  {
    if fs == [] then 0 else TypeSize(fs[0].typ) + FieldsSize(fs[1..])
  }

  lemma {:induction false} FieldIsSmaller(fs: seq<Field>, f: Field)
    requires f in fs
    ensures TypeSize(f.typ) < TypeSize(Struct(fs))
    decreases fs
  {
    if f != fs[0] {
      FieldIsSmaller(fs[1..], f);
    }
  }

  // ------------------------------------------------------------------------- one field

  /** `fieldAlias`: the first part of the tag, or the field name. */
  function Alias(f: Field): string {
    var alias := if f.tag == "" then "" else Split(f.tag, ',')[0];
    if alias == "" then f.name else alias
  }

  function Options(f: Field): seq<string> {
    if f.tag == "" then [] else Split(f.tag, ',')[1..]
  }

  /** The type left after dropping a pointer, a slice and a pointer again. */
  function Innermost(t: Type): Type {
    if Base(t).Slice? then Base(Base(t).elem) else Base(t)
  }

  /** `createField`: `None` for an ignored field and for an unsupported type. */
  function CreateField(f: Field, parentAlias: string): Option<FieldInfo> {
    var alias := Alias(f);
    var inner := Innermost(f.typ);
    if alias == "-" then None
    else if !inner.Struct? && !inner.Basic? then None
    else
      Some(FieldInfo(f.typ, f.name, alias,
                     if parentAlias != "" then parentAlias + "." + alias else alias,
                     Base(f.typ).Slice? && inner.Struct?, f.anonymous, "required" in Options(f)))
  }

  /** A basic or struct type, through at most one pointer, one slice and one pointer more. */
  predicate Supported(t: Type) {
    match t
    case Basic(_) => true
    case Struct(_) => true
    case Slice(e) => SupportedElem(e)
    case Ptr(e) => e.Basic? || e.Struct? || (e.Slice? && SupportedElem(e.elem))
    case Unsupported => false
  }

  predicate SupportedElem(t: Type) {
    t.Basic? || t.Struct? || (t.Ptr? && (t.elem.Basic? || t.elem.Struct?))
  }

  /** A tag is an alias and options, separated by commas; an empty alias stands for the field name. */
  lemma TagParts(f: Field, alias: string, options: seq<string>)
    requires f.tag == Join([alias] + options, ',') && ',' !in alias && forall o :: o in options ==> ',' !in o
    ensures Alias(f) == if alias == "" then f.name else alias
    ensures f.tag != "" ==> Options(f) == options
  {
    var parts := [alias] + options;
    forall i | 0 <= i < |parts| ensures ',' !in parts[i] {
      assert i > 0 ==> parts[i] in options;
    }
    JoinThenSplit(parts, ',');
    assert parts[1..] == options;
  }

  /** A field is in the table unless its alias is "-" or its type is not supported. */
  lemma CreateFieldIff(f: Field, parentAlias: string)
    ensures CreateField(f, parentAlias).Some? <==> Alias(f) != "-" && Supported(f.typ)
    ensures CreateField(f, parentAlias).Some? ==>
              var g := CreateField(f, parentAlias).value;
              && g.typ == f.typ && g.name == f.name && g.alias == Alias(f) && g.isAnonymous == f.anonymous
              && (g.isRequired <==> "required" in Options(f))
              && (g.isSliceOfStructs <==>
                    Base(f.typ).Slice? && (Base(f.typ).elem.Struct? || (Base(f.typ).elem.Ptr? && Base(f.typ).elem.elem.Struct?)))
  {}

  /** The infos of the fields declared in the struct itself. */
  function Direct(fs: seq<Field>, parentAlias: string): (infos: seq<FieldInfo>)
    ensures forall g :: g in infos ==> exists f :: f in fs && CreateField(f, parentAlias) == Some(g)
  {
    if fs == [] then []
    else
      var rest := Direct(fs[1..], parentAlias);
      match CreateField(fs[0], parentAlias)
      case Some(g) => [g] + rest
      case None => rest
  }

  predicate IsEmbedded(g: FieldInfo) {
    g.isAnonymous && Base(g.typ).Struct?
  }

  function EmbeddedOnly(infos: seq<FieldInfo>): (es: seq<FieldInfo>)
    ensures forall g :: g in es <==> g in infos && IsEmbedded(g)
  {
    if infos == [] then []
    else
      var rest := EmbeddedOnly(infos[1..]);
      if IsEmbedded(infos[0]) then [infos[0]] + rest else rest
  }

  // ------------------------------------------------------------------------- lookup

  /** `structInfo.get`: the first field whose alias equals the key up to case. */
  function Lookup(infos: seq<FieldInfo>, alias: string): (r: Option<FieldInfo>)
    ensures r.Some? ==> r.value in infos && EqualFold(r.value.alias, alias)
    ensures r.None? ==> forall g :: g in infos ==> !EqualFold(g.alias, alias)
  {
    if infos == [] then None
    else if EqualFold(infos[0].alias, alias) then Some(infos[0])
    else Lookup(infos[1..], alias)
  }

  /** Of several fields with the alias, the first is found. */
  lemma {:induction false} LookupIsFirst(infos: seq<FieldInfo>, alias: string, i: nat)
    requires i < |infos| && EqualFold(infos[i].alias, alias)
    requires forall j :: 0 <= j < i ==> !EqualFold(infos[j].alias, alias)
    ensures Lookup(infos, alias) == Some(infos[i])
  {
    if i > 0 {
      LookupIsFirst(infos[1..], alias, i - 1);
    }
  }

  predicate ContainsAlias(tables: seq<seq<FieldInfo>>, alias: string) {
    exists i :: 0 <= i < |tables| && Lookup(tables[i], alias).Some?
  }

  /** Aliases that differ even when case is ignored. */
  predicate UniqueAliases(infos: seq<FieldInfo>) {
    forall i, j :: 0 <= i < j < |infos| ==> !EqualFold(infos[i].alias, infos[j].alias)
  }

  // ------------------------------------------------------------------------- promotion

  /** The inner loop of `create`: promotes from one embedded struct. */
  function PromoteFrom(info: seq<FieldInfo>, others: seq<seq<FieldInfo>>, a: seq<FieldInfo>): (r: seq<FieldInfo>)
    ensures forall g :: g in r ==> g in info || g in a
    decreases |a|
  {
    if a == [] then info
    else if ContainsAlias([info] + others, a[0].alias) then PromoteFrom(info, others, a[1..])
    else PromoteFrom(info + [a[0]], others, a[1..])
  }

  function Others(tables: seq<seq<FieldInfo>>, i: nat): seq<seq<FieldInfo>>
    requires i < |tables|
  {
    tables[..i] + tables[i + 1..]
  }

  /** The outer loop of `create`, from embedded struct `i` on. */
  function Promote(info: seq<FieldInfo>, tables: seq<seq<FieldInfo>>, i: nat): (r: seq<FieldInfo>)
    requires i <= |tables|
    ensures forall g :: g in r ==> g in info || exists k :: 0 <= k < |tables| && g in tables[k]
    decreases |tables| - i
  {
    if i == |tables| then info
    else Promote(PromoteFrom(info, Others(tables, i), tables[i]), tables, i + 1)
  }

  lemma DirectIsSmaller(fs: seq<Field>, parentAlias: string)
    ensures forall g :: g in Direct(fs, parentAlias) ==>
              TypeSize(Base(g.typ)) <= TypeSize(g.typ) < TypeSize(Struct(fs))
  {
    forall g | g in Direct(fs, parentAlias)
      ensures TypeSize(Base(g.typ)) <= TypeSize(g.typ) < TypeSize(Struct(fs))
    {
      var f :| f in fs && CreateField(f, parentAlias) == Some(g);
      FieldIsSmaller(fs, f);
    }
  }

  /** `create`: the flattened table of a struct type. */
  function Create(t: Type, parentAlias: string): (infos: seq<FieldInfo>)
    requires t.Struct?
    ensures forall g :: g in infos ==> TypeSize(g.typ) < TypeSize(t)
    decreases TypeSize(t), 1
  {
    var direct := Direct(t.fields, parentAlias);
    DirectIsSmaller(t.fields, parentAlias);
    Promote(direct, CreateAll(EmbeddedOnly(direct), TypeSize(t)), 0)
  }

  /** The tables of embedded structs, each under the canonical alias of its field. */
  function CreateAll(es: seq<FieldInfo>, bound: nat): (tables: seq<seq<FieldInfo>>)
    requires forall e :: e in es ==> Base(e.typ).Struct? && TypeSize(Base(e.typ)) < bound
    ensures |tables| == |es|
    ensures forall k :: 0 <= k < |es| ==> tables[k] == Create(Base(es[k].typ), es[k].canonicalAlias)
    ensures forall k, g :: 0 <= k < |es| && g in tables[k] ==> TypeSize(g.typ) < bound
    decreases bound, 0, |es|
  {
    if es == [] then []
    else [Create(Base(es[0].typ), es[0].canonicalAlias)] + CreateAll(es[1..], bound)
  }

  // ------------------------------------------------------------------------- what lookups find

  lemma {:induction false} LookupFolded(infos: seq<FieldInfo>, a: string, b: string)
    requires EqualFold(a, b)
    ensures Lookup(infos, a) == Lookup(infos, b)
  {
    if infos != [] {
      LookupFolded(infos[1..], a, b);
    }
  }

  lemma {:induction false} LookupAppend(infos: seq<FieldInfo>, more: seq<FieldInfo>, alias: string)
    ensures Lookup(infos + more, alias) ==
            if Lookup(infos, alias).Some? then Lookup(infos, alias) else Lookup(more, alias)
  {
    if infos == [] {
      assert infos + more == more;
    } else {
      assert (infos + more)[1..] == infos[1..] + more;
      LookupAppend(infos[1..], more, alias);
    }
  }

  lemma {:induction false} LookupMember(infos: seq<FieldInfo>, g: FieldInfo, alias: string)
    requires UniqueAliases(infos) && g in infos && EqualFold(g.alias, alias)
    ensures Lookup(infos, alias) == Some(g)
  {}

  lemma {:induction false} PromoteFromRule(info: seq<FieldInfo>, others: seq<seq<FieldInfo>>,
                                           a: seq<FieldInfo>, alias: string)
    requires UniqueAliases(info) && UniqueAliases(a)
    ensures UniqueAliases(PromoteFrom(info, others, a))
    ensures Lookup(PromoteFrom(info, others, a), alias) ==
            if Lookup(info, alias).Some? then Lookup(info, alias)
            else if ContainsAlias(others, alias) then None
            else Lookup(a, alias)
    decreases |a|
  {
    if a != [] {
      var g := a[0];
      var tables := [info] + others;
      assert forall x :: ContainsAlias(tables, x) <==> Lookup(info, x).Some? || ContainsAlias(others, x) by {
        forall x ensures ContainsAlias(tables, x) <==> Lookup(info, x).Some? || ContainsAlias(others, x) {
          assert tables[0] == info;
          assert forall i :: 0 <= i < |others| ==> tables[i + 1] == others[i];
        }
      }
      if EqualFold(g.alias, alias) {
        LookupFolded(info, g.alias, alias);
        forall i | 0 <= i < |others| ensures Lookup(others[i], g.alias) == Lookup(others[i], alias) {
          LookupFolded(others[i], g.alias, alias);
        }
        assert Lookup(a[1..], alias).None?;
      }
      if ContainsAlias(tables, g.alias) {
        PromoteFromRule(info, others, a[1..], alias);
      } else {
        assert UniqueAliases(info + [g]);
        LookupAppend(info, [g], alias);
        PromoteFromRule(info + [g], others, a[1..], alias);
      }
    }
  }

  /** `k` is the only embedded struct that offers the alias. */
  predicate OnlyHolder(tables: seq<seq<FieldInfo>>, k: nat, alias: string) {
    k < |tables| && Lookup(tables[k], alias).Some? &&
    forall j :: 0 <= j < |tables| && j != k ==> Lookup(tables[j], alias).None?
  }

  lemma OthersHold(tables: seq<seq<FieldInfo>>, i: nat, alias: string)
    requires i < |tables|
    ensures ContainsAlias(Others(tables, i), alias) <==>
            exists j :: 0 <= j < |tables| && j != i && Lookup(tables[j], alias).Some?
  {
    var others := Others(tables, i);
    if j :| 0 <= j < |tables| && j != i && Lookup(tables[j], alias).Some? {
      assert others[if j < i then j else j - 1] == tables[j];
    }
    if k :| 0 <= k < |others| && Lookup(others[k], alias).Some? {
      assert others[k] == tables[if k < i then k else k + 1];
    }
  }

  lemma {:induction false} PromoteRule(info: seq<FieldInfo>, tables: seq<seq<FieldInfo>>, i: nat, alias: string)
    requires i <= |tables| && UniqueAliases(info)
    requires forall k :: 0 <= k < |tables| ==> UniqueAliases(tables[k])
    ensures UniqueAliases(Promote(info, tables, i))
    ensures Lookup(info, alias).Some? ==> Lookup(Promote(info, tables, i), alias) == Lookup(info, alias)
    ensures forall k :: Lookup(info, alias).None? && i <= k && OnlyHolder(tables, k, alias) ==>
              Lookup(Promote(info, tables, i), alias) == Lookup(tables[k], alias)
    ensures Lookup(info, alias).None? && (forall k :: i <= k ==> !OnlyHolder(tables, k, alias)) ==>
              Lookup(Promote(info, tables, i), alias).None?
    decreases |tables| - i
  {
    if i < |tables| {
      PromoteFromRule(info, Others(tables, i), tables[i], alias);
      OthersHold(tables, i, alias);
      var next := PromoteFrom(info, Others(tables, i), tables[i]);
      PromoteRule(next, tables, i + 1, alias);
      if Lookup(info, alias).None? && Lookup(next, alias).Some? {
        assert OnlyHolder(tables, i, alias);
      }
    }
  }

  /** The aliases a struct declares differ up to case, those of ignored fields aside. */
  predicate DirectAliasesUnique(fs: seq<Field>) {
    forall i, j :: 0 <= i < j < |fs| && CreateField(fs[i], "").Some? && CreateField(fs[j], "").Some? ==>
      !EqualFold(Alias(fs[i]), Alias(fs[j]))
  }

  /** The same, in the struct and in everything it embeds. */
  predicate AliasesUnique(t: Type)
    requires t.Struct?
    decreases TypeSize(t)
  {
    DirectAliasesUnique(t.fields) &&
    forall f :: f in t.fields && Embedded(f) ==> AliasesUniqueBelow(t, f)
  }

  predicate AliasesUniqueBelow(t: Type, f: Field)
    requires t.Struct? && f in t.fields && Embedded(f)
    decreases TypeSize(t), 0
  {
    FieldIsSmaller(t.fields, f);
    AliasesUnique(Base(f.typ))
  }

  lemma CreateFieldIgnoresParent(f: Field, p: string, q: string)
    ensures CreateField(f, p).Some? <==> CreateField(f, q).Some?
  {}

  lemma {:induction false} DirectUnique(fs: seq<Field>, parentAlias: string)
    requires DirectAliasesUnique(fs)
    ensures UniqueAliases(Direct(fs, parentAlias))
  {
    if fs != [] {
      DirectUnique(fs[1..], parentAlias);
      forall g | CreateField(fs[0], parentAlias).Some? && g in Direct(fs[1..], parentAlias)
        ensures !EqualFold(Alias(fs[0]), g.alias)
      {
        var f :| f in fs[1..] && CreateField(f, parentAlias) == Some(g);
        CreateFieldIgnoresParent(fs[0], parentAlias, "");
        CreateFieldIgnoresParent(f, parentAlias, "");
      }
    }
  }

  /**
   The embedded struct `g` is the only one, among the fields declared in `t`, that offers
   the alias.
   */
  predicate OnlyProvider(t: Type, parentAlias: string, g: FieldInfo, alias: string)
    requires t.Struct?
  {
    && Provides(t, parentAlias, g, alias)
    && forall h :: h in Direct(t.fields, parentAlias) && h != g ==> !Provides(t, parentAlias, h, alias)
  }

  predicate Provides(t: Type, parentAlias: string, g: FieldInfo, alias: string)
    requires t.Struct?
  {
    g in Direct(t.fields, parentAlias) && IsEmbedded(g) &&
    Lookup(Create(Base(g.typ), g.canonicalAlias), alias).Some?
  }

  lemma {:induction false} EmbeddedOnlyUnique(infos: seq<FieldInfo>)
    requires UniqueAliases(infos)
    ensures UniqueAliases(EmbeddedOnly(infos))
  {
    if infos != [] {
      assert UniqueAliases(infos[1..]);
      EmbeddedOnlyUnique(infos[1..]);
      assert forall g :: g in EmbeddedOnly(infos[1..]) ==> !EqualFold(infos[0].alias, g.alias);
    }
  }

  lemma EmbeddedInfo(t: Type, parentAlias: string, g: FieldInfo)
    requires t.Struct? && AliasesUnique(t) && g in EmbeddedOnly(Direct(t.fields, parentAlias))
    ensures AliasesUnique(Base(g.typ)) && TypeSize(Base(g.typ)) < TypeSize(t)
  {
    var f :| f in t.fields && CreateField(f, parentAlias) == Some(g);
    FieldIsSmaller(t.fields, f);
    assert AliasesUniqueBelow(t, f);
  }

  /** The flattened table has one field per alias, whatever the case. */
  lemma {:induction false} FlattenedAliasesUnique(t: Type, parentAlias: string)
    requires t.Struct? && AliasesUnique(t)
    ensures UniqueAliases(Create(t, parentAlias))
    decreases TypeSize(t)
  {
    var direct := Direct(t.fields, parentAlias);
    DirectUnique(t.fields, parentAlias);
    DirectIsSmaller(t.fields, parentAlias);
    var es := EmbeddedOnly(direct);
    var tables := CreateAll(es, TypeSize(t));
    forall k | 0 <= k < |tables| ensures UniqueAliases(tables[k]) {
      EmbeddedInfo(t, parentAlias, es[k]);
      FlattenedAliasesUnique(Base(es[k].typ), es[k].canonicalAlias);
    }
    PromoteRule(direct, tables, 0, "");
  }

  lemma HolderIsProvider(t: Type, parentAlias: string, es: seq<FieldInfo>, tables: seq<seq<FieldInfo>>,
                         k: nat, alias: string)
    requires t.Struct? && es == EmbeddedOnly(Direct(t.fields, parentAlias)) && UniqueAliases(es)
    requires |tables| == |es| && k < |es|
    requires forall j :: 0 <= j < |es| ==>
      Base(es[j].typ).Struct? && tables[j] == Create(Base(es[j].typ), es[j].canonicalAlias)
    ensures OnlyHolder(tables, k, alias) <==> OnlyProvider(t, parentAlias, es[k], alias)
  {
    hide Create, Direct, EmbeddedOnly;
    assert es[k] in es;
    forall j | 0 <= j < |es| ensures Provides(t, parentAlias, es[j], alias) <==> Lookup(tables[j], alias).Some? {
      assert es[j] in es;
    }
    forall j | 0 <= j < |es| && j != k ensures es[j] != es[k] {
      assert !EqualFold(es[if j < k then j else k].alias, es[if j < k then k else j].alias);
    }
    forall h | h in Direct(t.fields, parentAlias) && Provides(t, parentAlias, h, alias)
      ensures exists j :: 0 <= j < |es| && es[j] == h
    {
      assert h in es;
    }
  }

  /** The embedded fields of a struct and their tables. */
  lemma EmbeddedTables(t: Type, parentAlias: string) returns (es: seq<FieldInfo>, tables: seq<seq<FieldInfo>>)
    requires t.Struct? && AliasesUnique(t)
    ensures es == EmbeddedOnly(Direct(t.fields, parentAlias)) && UniqueAliases(es) && |tables| == |es|
    ensures forall j :: 0 <= j < |es| ==>
      Base(es[j].typ).Struct? && tables[j] == Create(Base(es[j].typ), es[j].canonicalAlias)
    ensures forall j :: 0 <= j < |es| ==> UniqueAliases(tables[j])
    ensures Create(t, parentAlias) == Promote(Direct(t.fields, parentAlias), tables, 0)
  {
    var direct := Direct(t.fields, parentAlias);
    DirectUnique(t.fields, parentAlias);
    DirectIsSmaller(t.fields, parentAlias);
    EmbeddedOnlyUnique(direct);
    es := EmbeddedOnly(direct);
    tables := CreateAll(es, TypeSize(t));
    forall k | 0 <= k < |tables| ensures UniqueAliases(tables[k]) {
      EmbeddedInfo(t, parentAlias, es[k]);
      FlattenedAliasesUnique(Base(es[k].typ), es[k].canonicalAlias);
    }
  }

  /**
   Which field an alias finds: the one declared in the struct itself if there is one;
   otherwise the one found in the only embedded struct that offers the alias; and nothing
   when no embedded struct, or more than one, offers it.
   */
  lemma AliasRule(t: Type, parentAlias: string, alias: string)
    requires t.Struct? && AliasesUnique(t)
    ensures var direct, found := Lookup(Direct(t.fields, parentAlias), alias), Lookup(Create(t, parentAlias), alias);
            && (direct.Some? ==> found == direct)
            && (direct.None? ==> forall g :: OnlyProvider(t, parentAlias, g, alias) ==>
                  found == Lookup(Create(Base(g.typ), g.canonicalAlias), alias))
            && (direct.None? && (forall g :: !OnlyProvider(t, parentAlias, g, alias)) ==> found.None?)
  {
    var direct := Direct(t.fields, parentAlias);
    var es, tables := EmbeddedTables(t, parentAlias);
    DirectUnique(t.fields, parentAlias);
    PromoteRule(direct, tables, 0, alias);
    if Lookup(direct, alias).None? {
      forall k | 0 <= k < |tables|
        ensures OnlyHolder(tables, k, alias) <==> OnlyProvider(t, parentAlias, es[k], alias)
      {
        HolderIsProvider(t, parentAlias, es, tables, k, alias);
      }
      forall g | OnlyProvider(t, parentAlias, g, alias)
        ensures Lookup(Create(t, parentAlias), alias) == Lookup(Create(Base(g.typ), g.canonicalAlias), alias)
      {
        assert g in es;
        var k :| 0 <= k < |es| && es[k] == g;
        assert OnlyHolder(tables, k, alias);
      }
    }
  }

  lemma {:induction false} DirectMembers(fs: seq<Field>, parentAlias: string)
    ensures forall f :: f in fs && CreateField(f, parentAlias).Some? ==>
              CreateField(f, parentAlias).value in Direct(fs, parentAlias)
  {
    if fs != [] {
      DirectMembers(fs[1..], parentAlias);
    }
  }

  lemma {:induction false} DirectFirst(fs: seq<Field>, parentAlias: string, alias: string, i: nat)
    requires i < |fs| && CreateField(fs[i], parentAlias).Some? && EqualFold(Alias(fs[i]), alias)
    requires forall j :: 0 <= j < i && CreateField(fs[j], parentAlias).Some? ==> !EqualFold(Alias(fs[j]), alias)
    ensures Lookup(Direct(fs, parentAlias), alias) == CreateField(fs[i], parentAlias)
    decreases i
  {
    hide CreateField, Alias, Options, EqualFold, Supported;
    var found := CreateField(fs[0], parentAlias);
    CreateFieldIff(fs[0], parentAlias);
    if i > 0 {
      assert forall j :: 0 <= j < i - 1 ==> fs[1..][j] == fs[j + 1];
      DirectFirst(fs[1..], parentAlias, alias, i - 1);
    }
    if found.Some? {
      assert Direct(fs, parentAlias) == [found.value] + Direct(fs[1..], parentAlias);
      LookupAppend([found.value], Direct(fs[1..], parentAlias), alias);
      LookupOne(found.value, alias);
    }
  }

  lemma LookupOne(g: FieldInfo, alias: string)
    ensures Lookup([g], alias) == if EqualFold(g.alias, alias) then Some(g) else None
  {
    assert [g][1..] == [];
  }

  lemma {:induction false} PromoteFromKeeps(info: seq<FieldInfo>, others: seq<seq<FieldInfo>>, a: seq<FieldInfo>,
                                            alias: string)
    requires Lookup(info, alias).Some?
    ensures Lookup(PromoteFrom(info, others, a), alias) == Lookup(info, alias)
    decreases |a|
  {
    if a != [] {
      if ContainsAlias([info] + others, a[0].alias) {
        PromoteFromKeeps(info, others, a[1..], alias);
      } else {
        LookupAppend(info, [a[0]], alias);
        PromoteFromKeeps(info + [a[0]], others, a[1..], alias);
      }
    }
  }

  lemma {:induction false} PromoteKeeps(info: seq<FieldInfo>, tables: seq<seq<FieldInfo>>, i: nat, alias: string)
    requires i <= |tables| && Lookup(info, alias).Some?
    ensures Lookup(Promote(info, tables, i), alias) == Lookup(info, alias)
    decreases |tables| - i
  {
    if i < |tables| {
      PromoteFromKeeps(info, Others(tables, i), tables[i], alias);
      PromoteKeeps(PromoteFrom(info, Others(tables, i), tables[i]), tables, i + 1, alias);
    }
  }

  /** Whatever aliases there are, the first field that declares an alias in the struct itself is found under it. */
  lemma FirstFieldWins(t: Type, parentAlias: string, alias: string, i: nat)
    requires t.Struct? && i < |t.fields| && CreateField(t.fields[i], parentAlias).Some?
    requires EqualFold(Alias(t.fields[i]), alias)
    requires forall j :: 0 <= j < i && CreateField(t.fields[j], parentAlias).Some? ==>
      !EqualFold(Alias(t.fields[j]), alias)
    ensures Lookup(Create(t, parentAlias), alias) == CreateField(t.fields[i], parentAlias)
  {
    hide Lookup, CreateField, EqualFold;
    DirectFirst(t.fields, parentAlias, alias, i);
    DirectIsSmaller(t.fields, parentAlias);
    var direct := Direct(t.fields, parentAlias);
    PromoteKeeps(direct, CreateAll(EmbeddedOnly(direct), TypeSize(t)), 0, alias);
  }

  lemma SameProviders(t: Type, u: Type, parentAlias: string, g: FieldInfo, alias: string)
    requires t.Struct? && u.Struct?
    requires forall h :: h in Direct(t.fields, parentAlias) <==> h in Direct(u.fields, parentAlias)
    ensures OnlyProvider(t, parentAlias, g, alias) <==> OnlyProvider(u, parentAlias, g, alias)
  {
    assert forall h :: Provides(t, parentAlias, h, alias) <==> Provides(u, parentAlias, h, alias);
  }

  /** Reordering the fields of a struct, embedded structs included, changes no lookup. */
  lemma LookupIgnoresFieldOrder(t: Type, u: Type, parentAlias: string, alias: string)
    requires t.Struct? && u.Struct? && multiset(t.fields) == multiset(u.fields)
    requires AliasesUnique(t) && AliasesUnique(u)
    ensures Lookup(Create(t, parentAlias), alias) == Lookup(Create(u, parentAlias), alias)
  {
    var dt, du := Direct(t.fields, parentAlias), Direct(u.fields, parentAlias);
    forall g ensures g in dt <==> g in du {
      assert forall f :: f in t.fields <==> f in multiset(t.fields);
      assert forall f :: f in u.fields <==> f in multiset(u.fields);
      DirectMembers(t.fields, parentAlias);
      DirectMembers(u.fields, parentAlias);
    }
    DirectUnique(t.fields, parentAlias);
    DirectUnique(u.fields, parentAlias);
    AliasRule(t, parentAlias, alias);
    AliasRule(u, parentAlias, alias);
    if Lookup(dt, alias).Some? {
      LookupMember(du, Lookup(dt, alias).value, alias);
    } else {
      forall g ensures OnlyProvider(t, parentAlias, g, alias) <==> OnlyProvider(u, parentAlias, g, alias) {
        SameProviders(t, u, parentAlias, g, alias);
      }
    }
  }
}
