/** The cache as it runs: tables are computed once per type, and keys parsed against them. */
module SchemaStore {
  import opened Wrappers
  import opened SchemaTypes
  import opened SchemaCache
  import SchemaPath
  import Converter
  import Text

  lemma {:induction false} DirectAppend(fs: seq<Field>, f: Field, parentAlias: string)
    ensures Direct(fs + [f], parentAlias) ==
            match CreateField(f, parentAlias)
            case Some(g) => Direct(fs, parentAlias) + [g]
            case None => Direct(fs, parentAlias)
  {
    hide CreateField;
    if fs == [] {
      assert fs + [f] == [f] && [f][1..] == [];
    } else {
      assert (fs + [f])[1..] == fs[1..] + [f];
      DirectAppend(fs[1..], f, parentAlias);
    }
  }

  lemma {:induction false} EmbeddedAppend(infos: seq<FieldInfo>, g: FieldInfo)
    ensures EmbeddedOnly(infos + [g]) == EmbeddedOnly(infos) + if IsEmbedded(g) then [g] else []
  {
    if infos == [] {
      assert infos + [g] == [g] && [g][1..] == [];
    } else {
      assert (infos + [g])[1..] == infos[1..] + [g];
      EmbeddedAppend(infos[1..], g);
    }
  }

  /** `tables` are the tables of the embedded fields. */
  predicate TablesOf(es: seq<FieldInfo>, tables: seq<seq<FieldInfo>>) {
    |es| == |tables| &&
    forall k :: 0 <= k < |es| ==> Base(es[k].typ).Struct? && tables[k] == Create(Base(es[k].typ), es[k].canonicalAlias)
  }

  /** The first loop of `create`: the declared fields, and the tables of the embedded ones. */
  method Collect(t: Type, parentAlias: string) returns (info: seq<FieldInfo>, anonymousInfos: seq<seq<FieldInfo>>)
    requires t.Struct?
    ensures info == Direct(t.fields, parentAlias) && TablesOf(EmbeddedOnly(info), anonymousInfos)
    decreases TypeSize(t), 0
  {
    hide Create, CreateField, Direct, EmbeddedOnly;
    info, anonymousInfos := [], [];
    NothingCollected(parentAlias);
    for i := 0 to |t.fields|
      invariant info == Direct(t.fields[..i], parentAlias)
      invariant TablesOf(EmbeddedOnly(info), anonymousInfos)
    {
      assert t.fields[..i + 1] == t.fields[..i] + [t.fields[i]];
      DirectAppend(t.fields[..i], t.fields[i], parentAlias);
      var f := CreateField(t.fields[i], parentAlias);
      if f.Some? {
        EmbeddedAppend(info, f.value);
        ghost var es := EmbeddedOnly(info);
        info := info + [f.value];
        if f.value.isAnonymous && Base(f.value.typ).Struct? {
          FieldIsSmaller(t.fields, t.fields[i]);
          SameType(t.fields[i], parentAlias);
          var a := CreateInfo(Base(f.value.typ), f.value.canonicalAlias);
          anonymousInfos := anonymousInfos + [a];
          assert EmbeddedOnly(info) == es + [f.value];
        } else {
          assert EmbeddedOnly(info) == es;
        }
      }
    }
    assert t.fields[..|t.fields|] == t.fields;
  }

  lemma NothingCollected(parentAlias: string)
    ensures Direct([], parentAlias) == [] && EmbeddedOnly([]) == []
  {}

  /** `create`. */
  method CreateInfo(t: Type, parentAlias: string) returns (info: seq<FieldInfo>)
    requires t.Struct?
    ensures info == Create(t, parentAlias)
    decreases TypeSize(t), 1
  {
    hide Create, CreateField, Direct, EmbeddedOnly;
    var anonymousInfos;
    info, anonymousInfos := Collect(t, parentAlias);
    ghost var direct := info;
    TablesAreAll(t, parentAlias, anonymousInfos);
    for i := 0 to |anonymousInfos|
      invariant Promote(info, anonymousInfos, i) == Promote(direct, anonymousInfos, 0)
    {
      var a, others := anonymousInfos[i], Others(anonymousInfos, i);
      ghost var before := info;
      for j := 0 to |a|
        invariant PromoteFrom(info, others, a[j..]) == PromoteFrom(before, others, a)
      {
        assert a[j..][1..] == a[j + 1..];
        if !ContainsAlias([info] + others, a[j].alias) {
          info := info + [a[j]];
        }
      }
      assert a[|a|..] == [];
    }
  }

  lemma SameType(f: Field, parentAlias: string)
    ensures var g := CreateField(f, parentAlias);
            g.Some? ==> g.value.typ == f.typ && TypeSize(Base(f.typ)) <= TypeSize(f.typ)
  {}

  lemma TablesAreAll(t: Type, parentAlias: string, tables: seq<seq<FieldInfo>>)
    requires t.Struct? && TablesOf(EmbeddedOnly(Direct(t.fields, parentAlias)), tables)
    ensures Create(t, parentAlias) == Promote(Direct(t.fields, parentAlias), tables, 0)
  {
    DirectIsSmaller(t.fields, parentAlias);
    assert tables == CreateAll(EmbeddedOnly(Direct(t.fields, parentAlias)), TypeSize(t));
  }

  /** The outcome with earlier parts in front. */
  function After(parts: seq<SchemaPath.PathPart>, r: Option<seq<SchemaPath.PathPart>>): Option<seq<SchemaPath.PathPart>> {
    match r
    case None => None
    case Some(rest) => Some(parts + rest)
  }

  /** The parts are added one by one. */
  lemma IndexTurn(parts: seq<SchemaPath.PathPart>, t: Type, keys: seq<string>, path: seq<string>,
                  field: Option<FieldInfo>, g: FieldInfo)
    requires keys != [] && t.Struct? && Lookup(Create(t, ""), keys[0]) == Some(g) && g.isSliceOfStructs
    ensures After(parts, SchemaPath.ParseKeys(t, keys, path, field)) ==
            if |keys| < 2 || Converter.ParseInt(keys[1], 64).None? then None
            else
              var part := SchemaPath.PathPart(Some(g), path + [g.name], Converter.ParseInt(keys[1], 64).value);
              After(parts + [part], SchemaPath.ParseKeys(SchemaPath.NextType(g), keys[2..], [], Some(g)))
  {
    hide Create, Converter.ParseInt, SchemaPath.NextType;
    if |keys| >= 2 && Converter.ParseInt(keys[1], 64).Some? {
      var part := SchemaPath.PathPart(Some(g), path + [g.name], Converter.ParseInt(keys[1], 64).value);
      var r := SchemaPath.ParseKeys(SchemaPath.NextType(g), keys[2..], [], Some(g));
      assert r.Some? ==> parts + ([part] + r.value) == (parts + [part]) + r.value;
    }
  }

  class Cache {
    var m: map<Type, seq<FieldInfo>>

    /** Every cached table is the one `create` would compute. */
    ghost predicate Valid()
      reads this
    {
      forall t :: t in m ==> t.Struct? && m[t] == Create(t, "")
    }

    constructor ()
      ensures Valid() && m == map[]
    {
      m := map[];
    }

    /** `cache.get`. */
    method Get(t: Type) returns (info: seq<FieldInfo>)
      requires Valid() && t.Struct?
      modifies this
      ensures Valid() && info == Create(t, "") && m == old(m)[t := info]
    {
      hide Create;
      if t in m {
        info := m[t];
      } else {
        info := CreateInfo(t, "");
        m := m[t := info];
      }
    }

    /** `parsePath`: the answer does not depend on what is cached. */
    method ParsePath(p: string, target: Type) returns (r: Option<seq<SchemaPath.PathPart>>)
      requires Valid()
      modifies this
      ensures Valid() && r == SchemaPath.ParsePath(p, target)
      ensures old(m).Keys <= m.Keys
    {
      hide Create, Converter.ParseInt, SchemaPath.NextType, Lookup, Text.Split;
      var parts: seq<SchemaPath.PathPart>, path: seq<string> := [], [];
      var field: Option<FieldInfo> := None;
      var t, keys, i := target, Text.Split(p, '.'), 0;
      ghost var whole := SchemaPath.ParseKeys(target, keys, [], None);
      assert keys[0..] == keys;
      assert whole.Some? ==> parts + whole.value == whole.value;
      while i < |keys|
        invariant 0 <= i <= |keys| && Valid() && old(m).Keys <= m.Keys
        invariant whole == After(parts, SchemaPath.ParseKeys(t, keys[i..], path, field))
        decreases |keys| - i
      {
        assert keys[i..][1..] == keys[i + 1..];
        if !t.Struct? {
          return None;
        }
        var struc := Get(t);
        field := Lookup(struc, keys[i]);
        if field.None? {
          return None;
        }
        if field.value.isSliceOfStructs {
          IndexTurn(parts, t, keys[i..], path, field, field.value);
        }
        path := path + [field.value.name];
        t := SchemaPath.NextType(field.value);
        if field.value.isSliceOfStructs {
          i := i + 1;
          if i + 1 > |keys| {
            return None;
          }
          assert keys[i - 1..][2..] == keys[i + 1..];
          assert keys[i - 1..][1] == keys[i];
          var index := Converter.ParseInt(keys[i], 64);
          if index.None? {
            return None;
          }
          var part := SchemaPath.PathPart(field, path, index.value);
          parts := parts + [part];
          path := [];
        }
        i := i + 1;
      }
      assert keys[i..] == [];
      parts := parts + [SchemaPath.PathPart(field, path, -1)];
      return Some(parts);
    }
  }
}
