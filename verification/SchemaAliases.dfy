/** When aliases are unambiguous: every field of a flattened struct is in its table and found there. */
module SchemaAliases {
  import opened Wrappers
  import opened SchemaTypes
  import opened SchemaCache
  import opened SchemaPath
  import Text

  /** The aliases of all fields, embedded structs and theirs included, differ up to case and have no dot. */
  ghost predicate FlatAliases(fs: seq<Field>) {
    (forall ix, jx ::
      (IsSelector(fs, ix) && IsSelector(fs, jx) && Text.EqualFold(Alias(Selected(fs, ix)), Alias(Selected(fs, jx))))
      ==> ix == jx) &&
    forall ix :: IsSelector(fs, ix) ==> '.' !in Alias(Selected(fs, ix))
  }

  /** The field is not ignored, and of a type that tables have. */
  predicate IsListed(f: Field) {
    Alias(f) != "-" && Supported(f.typ)
  }

  ghost predicate Listed(fs: seq<Field>) {
    forall ix :: IsSelector(fs, ix) ==> IsListed(Selected(fs, ix))
  }

  lemma InnerSelector(fs: seq<Field>, i: nat, jx: seq<nat>)
    requires i < |fs| && Embedded(fs[i]) && IsSelector(Base(fs[i].typ).fields, jx)
    ensures IsSelector(fs, [i] + jx) && Selected(fs, [i] + jx) == Selected(Base(fs[i].typ).fields, jx)
  {
    assert ([i] + jx)[1..] == jx;
  }

  lemma {:induction false} InnerFlat(fs: seq<Field>, i: nat)
    requires i < |fs| && Embedded(fs[i]) && FlatAliases(fs)
    ensures FlatAliases(Base(fs[i].typ).fields)
  {
    var gs := Base(fs[i].typ).fields;
    forall ix | IsSelector(gs, ix)
      ensures IsSelector(fs, [i] + ix) && Selected(fs, [i] + ix) == Selected(gs, ix)
    {
      assert ([i] + ix)[1..] == ix;
    }
    forall ix, jx | IsSelector(gs, ix) && IsSelector(gs, jx) &&
      Text.EqualFold(Alias(Selected(gs, ix)), Alias(Selected(gs, jx)))
      ensures ix == jx
    {
      assert ([i] + ix)[1..] == ix && ([i] + jx)[1..] == jx;
      assert [i] + ix == [i] + jx;
    }
  }

  lemma InnerListed(fs: seq<Field>, i: nat)
    requires i < |fs| && Embedded(fs[i]) && Listed(fs)
    ensures Listed(Base(fs[i].typ).fields)
  {
    forall jx | IsSelector(Base(fs[i].typ).fields, jx) ensures IsListed(Selected(Base(fs[i].typ).fields, jx)) {
      InnerSelector(fs, i, jx);
    }
  }

  lemma {:induction false} FlatIsUnique(t: Type)
    requires t.Struct? && FlatAliases(t.fields)
    ensures AliasesUnique(t)
    decreases TypeSize(t)
  {
    forall i, j | 0 <= i < j < |t.fields| ensures !Text.EqualFold(Alias(t.fields[i]), Alias(t.fields[j])) {
      assert IsSelector(t.fields, [i]) && IsSelector(t.fields, [j]);
      assert Selected(t.fields, [i]) == t.fields[i] && Selected(t.fields, [j]) == t.fields[j];
    }
    forall f | f in t.fields && Embedded(f) ensures AliasesUniqueBelow(t, f) {
      FieldIsSmaller(t.fields, f);
      var i :| 0 <= i < |t.fields| && t.fields[i] == f;
      InnerFlat(t.fields, i);
      FlatIsUnique(Base(f.typ));
    }
  }

  /** Every alias of the flattened struct is in its table. */
  lemma {:induction false} AliasIsFound(t: Type, parentAlias: string, ix: seq<nat>)
    requires t.Struct? && Listed(t.fields) && FlatAliases(t.fields) && IsSelector(t.fields, ix)
    ensures Lookup(Create(t, parentAlias), Alias(Selected(t.fields, ix))).Some?
    decreases |ix|
  {
    hide Create, Lookup, CreateField, FlatAliases, Supported, Alias, Options;
    var alias := Alias(Selected(t.fields, ix));
    var f := t.fields[ix[0]];
    FlatIsUnique(t);
    AliasRule(t, parentAlias, alias);
    DirectMembers(t.fields, parentAlias);
    assert IsSelector(t.fields, [ix[0]]) && Selected(t.fields, [ix[0]]) == f;
    assert IsListed(Selected(t.fields, [ix[0]]));
    CreateFieldIff(f, parentAlias);
    var g := CreateField(f, parentAlias).value;
    if |ix| == 1 {
      LookupComplete(Direct(t.fields, parentAlias), g, alias);
    } else if Lookup(Direct(t.fields, parentAlias), alias).None? {
      InnerFlat(t.fields, ix[0]);
      InnerListed(t.fields, ix[0]);
      AliasIsFound(Base(f.typ), g.canonicalAlias, ix[1..]);
      assert Provides(t, parentAlias, g, alias);
      forall h | h in Direct(t.fields, parentAlias) && Provides(t, parentAlias, h, alias) ensures h == g {
        OnlyOneProvider(t, parentAlias, ix, h);
      }
      assert OnlyProvider(t, parentAlias, g, alias);
    }
  }

  lemma LookupComplete(infos: seq<FieldInfo>, g: FieldInfo, alias: string)
    requires g in infos && Text.EqualFold(g.alias, alias)
    ensures Lookup(infos, alias).Some?
  {}

  lemma LookupSound(infos: seq<FieldInfo>, alias: string)
    ensures var r := Lookup(infos, alias); r.Some? ==> r.value in infos && Text.EqualFold(r.value.alias, alias)
  {}

  /** Only the embedded struct on the way to a field offers its alias. */
  lemma OnlyOneProvider(t: Type, parentAlias: string, ix: seq<nat>, h: FieldInfo)
    requires t.Struct? && Listed(t.fields) && FlatAliases(t.fields) && IsSelector(t.fields, ix)
    requires Provides(t, parentAlias, h, Alias(Selected(t.fields, ix)))
    ensures CreateField(t.fields[ix[0]], parentAlias) == Some(h)
  {
    hide Create, CreateField, Lookup;
    var alias := Alias(Selected(t.fields, ix));
    var j := DirectOrigin(t.fields, parentAlias, h);
    var inner := Create(Base(h.typ), h.canonicalAlias);
    LookupSound(inner, alias);
    var e := Lookup(inner, alias).value;
    var jx := EntryOrigin(Base(h.typ), h.canonicalAlias, e);
    InnerSelector(t.fields, j, jx);
    assert ([j] + jx) == ix;
  }

  /** The table entry of a field is found under its alias. */
  lemma EntryUnderAlias(t: Type, ix: seq<nat>) returns (g: FieldInfo)
    requires t.Struct? && Listed(t.fields) && FlatAliases(t.fields) && IsSelector(t.fields, ix)
    ensures Lookup(Create(t, ""), Alias(Selected(t.fields, ix))) == Some(g)
    ensures Describes(g, Selected(t.fields, ix))
  {
    hide Create, Lookup;
    var alias := Alias(Selected(t.fields, ix));
    AliasIsFound(t, "", ix);
    LookupSound(Create(t, ""), alias);
    g := Lookup(Create(t, ""), alias).value;
    var jx := EntryOrigin(t, "", g);
    assert jx == ix;
  }
}
