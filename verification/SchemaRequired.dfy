/**
 Required fields: a recursion of its own, beside the path parser, lists the spellings under
 which each required field may be given.
 */
module SchemaRequired {
  import opened Wrappers
  import opened SchemaTypes
  import opened SchemaCache
  import opened SchemaPath
  import opened SchemaEffects
  import Text

  datatype Entry = Entry(info: FieldInfo, prefix: string)

  type Found = map<string, seq<Entry>>

  /** `fieldInfo.paths`. */
  function Paths(g: FieldInfo, prefix: string): seq<string> {
    if g.alias == g.canonicalAlias then [prefix + g.alias]
    else [prefix + g.alias, prefix + g.canonicalAlias]
  }

  function At(m: Found, key: string): seq<Entry> {
    if key in m then m[key] else []
  }

  /** Appends the entries of `more` to those of `m`, key by key. */
  function Merge(m: Found, more: Found): Found {
    map key | key in m.Keys + more.Keys :: At(m, key) + At(more, key)
  }

  /** `findRequiredFields`. */
  function FindRequired(t: Type, canonicalPrefix: string, searchPrefix: string): (m: Found)
    requires t.Struct?
    ensures forall k :: k in m ==> m[k] != []
    decreases TypeSize(t), 2, 0
  {
    FindIn(t, Create(t, ""), canonicalPrefix, searchPrefix)
  }

  /** The same for the last of the fields; the earlier ones come first. */
  function FindIn(t: Type, infos: seq<FieldInfo>, canonicalPrefix: string, searchPrefix: string): (m: Found)
    requires t.Struct? && forall g :: g in infos ==> TypeSize(g.typ) < TypeSize(t)
    ensures forall k :: k in m ==> m[k] != []
    decreases TypeSize(t), 1, |infos|
  {
    if infos == [] then map[]
    else
      var g := infos[|infos| - 1];
      var earlier := FindIn(t, infos[..|infos| - 1], canonicalPrefix, searchPrefix);
      var key := canonicalPrefix + g.canonicalAlias;
      var nested := if g.typ.Struct? then Merge(earlier, FindUnder(g, key + ".", Paths(g, searchPrefix))) else earlier;
      if g.isRequired then nested[key := At(nested, key) + [Entry(g, searchPrefix)]] else nested
  }

  /** The search in a struct-valued field, once for each of its paths. */
  function FindUnder(g: FieldInfo, canonicalPrefix: string, paths: seq<string>): (m: Found)
    requires g.typ.Struct?
    ensures forall k :: k in m ==> m[k] != []
    decreases TypeSize(g.typ), 3, |paths|
  {
    if paths == [] then map[]
    else
      Merge(FindUnder(g, canonicalPrefix, paths[..|paths| - 1]),
            FindRequired(g.typ, canonicalPrefix, paths[|paths| - 1] + "."))
  }

  /** `isEmpty`: the list of kinds it names lacks `int16` and `uint`. */
  predicate IsEmpty(t: Type, value: seq<string>) {
    value == [] ||
    (t.Basic? && t.kind != IntKind(W16) && t.kind != UintKind(Native) && value[0] == "")
  }

  /**
   When the values of a field count as not given: there are none, or the first is empty and the
   field is a boolean, a string or a number other than `int16` and `uint`.
   */
  lemma EmptyIff(t: Type, value: seq<string>)
    ensures value == [] ==> IsEmpty(t, value)
    ensures value != [] && value[0] != "" ==> !IsEmpty(t, value)
    ensures value != [] && value[0] == "" ==>
              (IsEmpty(t, value) <==> t.Basic? && t != Basic(IntKind(W16)) && t != Basic(UintKind(Native)))
  {}

  /** The two tests `isEmptyFields` makes for one path of a field. */
  predicate PathEmpty(g: FieldInfo, path: string, src: Source) {
    && (path in src ==> IsEmpty(g.typ, src[path]))
    && forall key :: key in src && path <= key ==> IsEmpty(g.typ, src[key])
  }

  /** `isEmptyFields`. */
  predicate IsEmptyFields(entries: seq<Entry>, src: Source) {
    forall e, path :: e in entries && path in Paths(e.info, e.prefix) ==> PathEmpty(e.info, path, src)
  }

  /** `checkRequired`. */
  function RequiredErrors(t: Type, src: Source): map<string, Error>
    requires t.Struct?
  {
    var m := FindRequired(t, "", "");
    map key | key in m && IsEmptyFields(m[key], src) :: EmptyFieldError(key)
  }

  // ------------------------------------------------------------------------- spellings

  /** A field is given by its alias or by its canonical alias. */
  predicate IsSpelling(g: FieldInfo, s: string) {
    s == g.alias || s == g.canonicalAlias
  }

  /**
   A way to spell a required field: a chain of table entries through struct-valued fields,
   each given by its alias or by its canonical alias.
   */
  ghost predicate Chain(t: Type, links: seq<FieldInfo>, spelling: seq<string>)
    decreases |links|
  {
    && t.Struct? && links != [] && |spelling| == |links|
    && links[0] in Create(t, "") && IsSpelling(links[0], spelling[0])
    && if |links| == 1 then links[0].isRequired
       else links[0].typ.Struct? && Chain(links[0].typ, links[1..], spelling[1..])
  }

  function CanonicalPath(links: seq<FieldInfo>): string {
    if links == [] then ""
    else if |links| == 1 then links[0].canonicalAlias
    else links[0].canonicalAlias + "." + CanonicalPath(links[1..])
  }

  /** The required field `g`, canonically `key`, may be spelled `path`. */
  ghost predicate Spells(t: Type, canonicalPrefix: string, searchPrefix: string, key: string, path: string, g: FieldInfo) {
    exists links, spelling :: Spelled(t, links, spelling, canonicalPrefix, searchPrefix, key, path, g)
  }

  ghost predicate Spelled(t: Type, links: seq<FieldInfo>, spelling: seq<string>, canonicalPrefix: string,
                          searchPrefix: string, key: string, path: string, g: FieldInfo)
  {
    && Chain(t, links, spelling) && links[|links| - 1] == g
    && key == canonicalPrefix + CanonicalPath(links)
    && path == searchPrefix + Text.Join(spelling, '.')
  }

  /** The search result lists the spelling. */
  ghost predicate Lists(m: Found, key: string, path: string, g: FieldInfo) {
    exists e :: e in At(m, key) && e.info == g && path in Paths(g, e.prefix)
  }

  lemma MergeLists(m: Found, more: Found, key: string, path: string, g: FieldInfo)
    ensures Lists(Merge(m, more), key, path, g) <==> Lists(m, key, path, g) || Lists(more, key, path, g)
  {
    assert At(Merge(m, more), key) == At(m, key) + At(more, key);
  }

  lemma PathsPrefixed(g: FieldInfo, prefix: string, path: string)
    ensures path in Paths(g, prefix) <==> exists s :: IsSpelling(g, s) && path == prefix + s
  {
    assert IsSpelling(g, g.alias) && IsSpelling(g, g.canonicalAlias);
  }

  /** A spelling whose chain starts with a given entry. */
  ghost predicate SpellsFrom(t: Type, first: FieldInfo, canonicalPrefix: string, searchPrefix: string,
                             key: string, path: string, g: FieldInfo)
  {
    exists links, spelling ::
      Spelled(t, links, spelling, canonicalPrefix, searchPrefix, key, path, g) && links[0] == first
  }

  /** The entry itself is the required field. */
  ghost predicate SpellsHere(first: FieldInfo, canonicalPrefix: string, searchPrefix: string,
                             key: string, path: string, g: FieldInfo)
  {
    first.isRequired && g == first && key == canonicalPrefix + first.canonicalAlias &&
    path in Paths(first, searchPrefix)
  }

  /** The required field is further down, under one of the entry's paths. */
  ghost predicate SpellsBelow(first: FieldInfo, canonicalPrefix: string, paths: seq<string>,
                              key: string, path: string, g: FieldInfo)
  {
    exists p :: p in paths && Spells(first.typ, canonicalPrefix, p + ".", key, path, g)
  }

  lemma Regroup(a: string, b: string, c: string)
    ensures a + (b + "." + c) == (a + b) + "." + c
    ensures (a + b) + "." + c == ((a + b) + ".") + c
  {}

  /** A chain with one more entry in front. */
  lemma SpelledLonger(t: Type, first: FieldInfo, s: string, links: seq<FieldInfo>, spelling: seq<string>,
                      canonicalPrefix: string, searchPrefix: string, key: string, path: string, g: FieldInfo)
    requires first.typ.Struct? && links != [] && spelling != []
    ensures Spelled(t, [first] + links, [s] + spelling, canonicalPrefix, searchPrefix, key, path, g) <==>
            && t.Struct? && first in Create(t, "") && IsSpelling(first, s)
            && Spelled(first.typ, links, spelling, canonicalPrefix + first.canonicalAlias + ".",
                       (searchPrefix + s) + ".", key, path, g)
  {
    var ls, ss := [first] + links, [s] + spelling;
    assert ls[1..] == links && ss[1..] == spelling;
    Regroup(canonicalPrefix, first.canonicalAlias, CanonicalPath(links));
    Regroup(searchPrefix, s, Text.Join(spelling, '.'));
    assert Text.Join(ss, '.') == s + "." + Text.Join(spelling, '.');
    assert CanonicalPath(ls) == first.canonicalAlias + "." + CanonicalPath(links);
  }

  lemma SpellsFromSplits(t: Type, first: FieldInfo, canonicalPrefix: string, searchPrefix: string,
                         key: string, path: string, g: FieldInfo)
    requires SpellsFrom(t, first, canonicalPrefix, searchPrefix, key, path, g)
    ensures SpellsHere(first, canonicalPrefix, searchPrefix, key, path, g) ||
            (first.typ.Struct? &&
             SpellsBelow(first, canonicalPrefix + first.canonicalAlias + ".", Paths(first, searchPrefix), key, path, g))
  {
    hide Create;
    var links, spelling :|
      Spelled(t, links, spelling, canonicalPrefix, searchPrefix, key, path, g) && links[0] == first;
    PathsPrefixed(first, searchPrefix, searchPrefix + spelling[0]);
    if |links| > 1 {
      assert links == [first] + links[1..] && spelling == [spelling[0]] + spelling[1..];
      SpelledLonger(t, first, spelling[0], links[1..], spelling[1..], canonicalPrefix, searchPrefix, key, path, g);
    }
  }

  lemma SpellsFromJoins(t: Type, first: FieldInfo, canonicalPrefix: string, searchPrefix: string,
                        key: string, path: string, g: FieldInfo)
    requires t.Struct? && first in Create(t, "")
    requires SpellsHere(first, canonicalPrefix, searchPrefix, key, path, g) ||
             (first.typ.Struct? &&
              SpellsBelow(first, canonicalPrefix + first.canonicalAlias + ".", Paths(first, searchPrefix), key, path, g))
    ensures SpellsFrom(t, first, canonicalPrefix, searchPrefix, key, path, g)
  {
    hide Create;
    if SpellsHere(first, canonicalPrefix, searchPrefix, key, path, g) {
      PathsPrefixed(first, searchPrefix, path);
      var s :| IsSpelling(first, s) && path == searchPrefix + s;
      assert Spelled(t, [first], [s], canonicalPrefix, searchPrefix, key, path, g);
    } else {
      var p :| p in Paths(first, searchPrefix) &&
        Spells(first.typ, canonicalPrefix + first.canonicalAlias + ".", p + ".", key, path, g);
      PathsPrefixed(first, searchPrefix, p);
      var s :| IsSpelling(first, s) && p == searchPrefix + s;
      var links, spelling :|
        Spelled(first.typ, links, spelling, canonicalPrefix + first.canonicalAlias + ".", p + ".", key, path, g);
      SpelledLonger(t, first, s, links, spelling, canonicalPrefix, searchPrefix, key, path, g);
    }
  }

  lemma {:induction false} FindInLists(t: Type, infos: seq<FieldInfo>, canonicalPrefix: string, searchPrefix: string,
                                       key: string, path: string, g: FieldInfo)
    requires t.Struct? && forall h :: h in infos ==> h in Create(t, "") && TypeSize(h.typ) < TypeSize(t)
    ensures Lists(FindIn(t, infos, canonicalPrefix, searchPrefix), key, path, g) <==>
            exists h :: h in infos && SpellsFrom(t, h, canonicalPrefix, searchPrefix, key, path, g)
    decreases TypeSize(t), 1, |infos|
  {
    hide Create, FindUnder, Spells, SpellsFrom, Paths;
    if infos != [] {
      var front, h := infos[..|infos| - 1], infos[|infos| - 1];
      var m := FindIn(t, front, canonicalPrefix, searchPrefix);
      FindInLists(t, front, canonicalPrefix, searchPrefix, key, path, g);
      assert forall x :: x in infos <==> x in front || x == h;
      var hkey := canonicalPrefix + h.canonicalAlias;
      var nested := if h.typ.Struct? then Merge(m, FindUnder(h, hkey + ".", Paths(h, searchPrefix))) else m;
      if h.typ.Struct? {
        MergeLists(m, FindUnder(h, hkey + ".", Paths(h, searchPrefix)), key, path, g);
        FindUnderLists(h, hkey + ".", Paths(h, searchPrefix), key, path, g);
      }
      var all := FindIn(t, infos, canonicalPrefix, searchPrefix);
      if h.isRequired {
        assert At(all, hkey) == At(nested, hkey) + [Entry(h, searchPrefix)];
        assert forall k :: k != hkey ==> At(all, k) == At(nested, k);
        assert Entry(h, searchPrefix) in At(all, hkey);
      }
      assert Lists(all, key, path, g) <==>
             Lists(nested, key, path, g) || SpellsHere(h, canonicalPrefix, searchPrefix, key, path, g);
      if SpellsFrom(t, h, canonicalPrefix, searchPrefix, key, path, g) {
        SpellsFromSplits(t, h, canonicalPrefix, searchPrefix, key, path, g);
      } else if Lists(all, key, path, g) && !Lists(m, key, path, g) {
        SpellsFromJoins(t, h, canonicalPrefix, searchPrefix, key, path, g);
      }
    }
  }

  lemma {:induction false} FindUnderLists(h: FieldInfo, canonicalPrefix: string, paths: seq<string>,
                                          key: string, path: string, g: FieldInfo)
    requires h.typ.Struct?
    ensures Lists(FindUnder(h, canonicalPrefix, paths), key, path, g) <==>
            SpellsBelow(h, canonicalPrefix, paths, key, path, g)
    decreases TypeSize(h.typ), 3, |paths|
  {
    if paths != [] {
      var front, p := paths[..|paths| - 1], paths[|paths| - 1];
      assert forall x :: x in paths <==> x in front || x == p;
      FindUnderLists(h, canonicalPrefix, front, key, path, g);
      FindRequiredLists(h.typ, canonicalPrefix, p + ".", key, path, g);
      MergeLists(FindUnder(h, canonicalPrefix, front), FindRequired(h.typ, canonicalPrefix, p + "."), key, path, g);
    }
  }

  /** The recursion lists exactly the spellings of the required fields. */
  lemma {:induction false} FindRequiredLists(t: Type, canonicalPrefix: string, searchPrefix: string,
                                             key: string, path: string, g: FieldInfo)
    requires t.Struct?
    ensures Lists(FindRequired(t, canonicalPrefix, searchPrefix), key, path, g) <==>
            Spells(t, canonicalPrefix, searchPrefix, key, path, g)
    decreases TypeSize(t), 2, 0
  {
    FindInLists(t, Create(t, ""), canonicalPrefix, searchPrefix, key, path, g);
    if Spells(t, canonicalPrefix, searchPrefix, key, path, g) {
      var links, spelling :| Spelled(t, links, spelling, canonicalPrefix, searchPrefix, key, path, g);
      assert SpellsFrom(t, links[0], canonicalPrefix, searchPrefix, key, path, g);
    }
  }

  /**
   When the empty-field error is reported: the key is that of a required field, and every
   source key that starts with one of the field's spellings has an empty value.
   */
  lemma RequiredReported(t: Type, src: Source, key: string)
    requires t.Struct?
    ensures key in RequiredErrors(t, src) <==>
            && (exists path, g :: Spells(t, "", "", key, path, g))
            && (forall path, g, k :: Spells(t, "", "", key, path, g) && k in src && path <= k ==>
                  IsEmpty(g.typ, src[k]))
  {
    hide FindRequired, Spells;
    var m := FindRequired(t, "", "");
    forall path, g ensures Lists(m, key, path, g) <==> Spells(t, "", "", key, path, g) {
      FindRequiredLists(t, "", "", key, path, g);
    }
    if key in m {
      var e := m[key][0];
      assert Lists(m, key, Paths(e.info, e.prefix)[0], e.info);
      if IsEmptyFields(m[key], src) {
        forall path, g, k | Spells(t, "", "", key, path, g) && k in src && path <= k
          ensures IsEmpty(g.typ, src[k])
        {
          assert Lists(m, key, path, g);
        }
      } else {
        var e: Entry, path :| e in m[key] && path in Paths(e.info, e.prefix) && !PathEmpty(e.info, path, src);
        assert Lists(m, key, path, e.info);
      }
    }
  }

  // ------------------------------------------------------------------------- agreement with the parser

  /** The segments name, in their exact case, fields from struct value to struct value down to `g`. */
  predicate WalksTo(t: Type, segments: seq<string>, g: FieldInfo)
    decreases |segments|
  {
    && t.Struct? && segments != []
    && match Lookup(Create(t, ""), segments[0])
       case None => false
       case Some(f) =>
         && f.alias == segments[0]
         && if |segments| == 1 then f == g else f.typ.Struct? && WalksTo(f.typ, segments[1..], g)
  }

  /** The canonical path of the field the segments walk to. */
  function CanonicalOf(t: Type, segments: seq<string>, g: FieldInfo): string
    requires WalksTo(t, segments, g)
    decreases |segments|
  {
    var f := Lookup(Create(t, ""), segments[0]).value;
    if |segments| == 1 then f.canonicalAlias
    else f.canonicalAlias + "." + CanonicalOf(f.typ, segments[1..], g)
  }

  lemma {:induction false} WalkSpells(t: Type, segments: seq<string>, g: FieldInfo) returns (links: seq<FieldInfo>)
    requires WalksTo(t, segments, g) && g.isRequired
    ensures Chain(t, links, segments) && links[|links| - 1] == g
    ensures CanonicalPath(links) == CanonicalOf(t, segments, g)
    decreases |segments|
  {
    hide Create;
    var f := Lookup(Create(t, ""), segments[0]).value;
    assert f.alias == "" + f.alias;
    if |segments| == 1 {
      links := [f];
    } else {
      var rest := WalkSpells(f.typ, segments[1..], g);
      links := [f] + rest;
      assert links[1..] == rest;
    }
  }

  /**
   The search agrees with the parser: a source key that leads, in exact case and through
   struct-valued fields, to a required field, or to something inside it, and whose value is
   not empty for that field, keeps the field's canonical path from being reported.
   */
  lemma GivenFieldNotReported(t: Type, src: Source, key: string, segments: seq<string>, g: FieldInfo)
    requires t.Struct? && WalksTo(t, segments, g) && g.isRequired
    requires key in src && Text.Join(segments, '.') <= key && !IsEmpty(g.typ, src[key])
    ensures CanonicalOf(t, segments, g) !in RequiredErrors(t, src)
  {
    hide Create, RequiredErrors;
    var links := WalkSpells(t, segments, g);
    var canonical := CanonicalOf(t, segments, g);
    assert "" + canonical == canonical && "" + Text.Join(segments, '.') == Text.Join(segments, '.');
    assert Spelled(t, links, segments, "", "", canonical, Text.Join(segments, '.'), g);
    assert Spells(t, "", "", canonical, Text.Join(segments, '.'), g);
    RequiredReported(t, src, canonical);
  }

  /** The field such a walk ends at is the one `parsePath` finds. */
  lemma {:induction false} ParserWalksTo(t: Type, segments: seq<string>, path: seq<string>,
                                         field: Option<FieldInfo>, g: FieldInfo)
    requires WalksTo(t, segments, g) && !g.isSliceOfStructs
    ensures var r := ParseKeys(t, segments, path, field);
            r.Some? && |r.value| == 1 && r.value[0].field == Some(g)
    decreases |segments|
  {
    hide Create;
    var f := Lookup(Create(t, ""), segments[0]).value;
    if |segments| == 1 {
      assert segments[1..] == [];
    } else {
      var ix := EntryOrigin(t, "", f);
      ParserWalksTo(f.typ, segments[1..], path + [f.name], Some(f), g);
    }
  }
}
