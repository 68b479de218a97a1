/**
 Decoding undoes encoding, for structs of basic values, slices of them and structs embedded
 by value.
 */
module SchemaRoundTrip {
  import opened Wrappers
  import opened SchemaTypes
  import opened SchemaTarget
  import opened SchemaOrder
  import opened SchemaRuns
  import opened SchemaCache
  import opened SchemaPath
  import opened SchemaAliases
  import opened SchemaEffects
  import opened SchemaForms
  import opened SchemaRoutes
  import opened SchemaValues
  import SchemaFill
  import SchemaRequired
  import Converter
  import Text

  // ------------------------------------------------------------------------- the types concerned

  predicate PlainField(f: Field)
    decreases f
  {
    Alias(f) != "-" &&
    match f.typ
    case Basic(_) => true
    case Slice(e) => e.Basic?
    case Struct(fs) => f.anonymous && forall i :: 0 <= i < |fs| ==> PlainField(fs[i])
    case _ => false
  }

  predicate Plain(t: Type) {
    t.Struct? && forall i :: 0 <= i < |t.fields| ==> PlainField(t.fields[i])
  }

  ghost predicate NoneRequired(fs: seq<Field>) {
    forall ix :: IsSelector(fs, ix) ==> "required" !in Options(Selected(fs, ix))
  }

  lemma {:induction false} SelectedIsPlain(fs: seq<Field>, ix: seq<nat>)
    requires Plain(Struct(fs)) && IsSelector(fs, ix)
    ensures PlainField(Selected(fs, ix))
    decreases |ix|
  {
    if |ix| > 1 {
      SelectedIsPlain(Base(fs[ix[0]].typ).fields, ix[1..]);
    }
  }

  /** A leaf: a field that is not an embedded struct. */
  predicate IsLeaf(fs: seq<Field>, ix: seq<nat>) {
    IsSelector(fs, ix) && !Selected(fs, ix).typ.Struct?
  }

  function Read(t: Type, v: Value, ix: seq<nat>): (r: Value)
    requires Plain(t) && HasType(v, t) && IsSelector(t.fields, ix)
    ensures HasType(r, Selected(t.fields, ix).typ)
    decreases |ix|
  {
    if |ix| == 1 then v.fields[ix[0]] else Read(t.fields[ix[0]].typ, v.fields[ix[0]], ix[1..])
  }

  /** Equal but for nil slices, which count as empty. */
  predicate Same(t: Type, v: Value, w: Value)
    requires HasType(v, t) && HasType(w, t)
    decreases t
  {
    match t
    case Slice(_) => Elements(v) == Elements(w)
    case Struct(fs) => forall i :: 0 <= i < |fs| ==> Same(fs[i].typ, v.fields[i], w.fields[i])
    case _ => v == w
  }

  /** Two values whose leaves are the same. */
  lemma {:induction false} SameLeaves(t: Type, v: Value, w: Value)
    requires Plain(t) && HasType(v, t) && HasType(w, t)
    requires forall ix :: IsLeaf(t.fields, ix) ==>
      Same(Selected(t.fields, ix).typ, Read(t, v, ix), Read(t, w, ix))
    ensures Same(t, v, w)
    decreases t
  {
    forall i | 0 <= i < |t.fields| ensures Same(t.fields[i].typ, v.fields[i], w.fields[i]) {
      var f := t.fields[i];
      assert PlainField(f);
      if f.typ.Struct? {
        forall jx | IsLeaf(f.typ.fields, jx)
          ensures Same(Selected(f.typ.fields, jx).typ, Read(f.typ, v.fields[i], jx), Read(f.typ, w.fields[i], jx))
        {
          var ix := [i] + jx;
          assert ix[1..] == jx;
          assert IsLeaf(t.fields, ix);
        }
        SameLeaves(f.typ, v.fields[i], w.fields[i]);
      } else {
        assert IsLeaf(t.fields, [i]);
      }
    }
  }

  // ------------------------------------------------------------------------- what encoding writes

  function Texts(t: Type, v: Value): seq<string>
    requires HasType(v, t) && (t.Basic? || (t.Slice? && t.elem.Basic?))
  {
    if t.Basic? then [PrintBasic(t.kind, v)]
    else
      assert forall i :: 0 <= i < |Elements(v)| ==> HasType(Elements(v)[i], t.elem);
      seq(|Elements(v)|, i requires 0 <= i < |Elements(v)| => PrintBasic(t.elem.kind, Elements(v)[i]))
  }

  predicate Omitted(f: Field, v: Value) {
    "omitempty" in Options(f) && if f.typ.Slice? then v == Nil || v == SliceV([]) else v == Zero(f.typ)
  }

  /** The entry of a leaf after encoding, given the entry before. */
  function NewEntry(f: Field, v: Value, before: seq<string>): seq<string>
    requires PlainField(f) && !f.typ.Struct? && HasType(v, f.typ)
  {
    if f.typ.Slice? then Texts(f.typ, v) else before + Texts(f.typ, v)
  }

  lemma {:induction false} PrintAllTexts(k: Kind, vs: seq<Value>)
    requires forall i :: 0 <= i < |vs| ==> HasBasicType(vs[i], k)
    ensures PrintAll(Basic(k), vs) == Some(Texts(Slice(Basic(k)), SliceV(vs)))
  {
    if vs != [] {
      var front := vs[..|vs| - 1];
      PrintAllTexts(k, front);
      assert Texts(Slice(Basic(k)), SliceV(vs)) ==
             Texts(Slice(Basic(k)), SliceV(front)) + [PrintBasic(k, vs[|vs| - 1])];
    }
  }

  lemma LeafField(f: Field, v: Value, form: Form)
    requires PlainField(f) && !f.typ.Struct? && HasType(v, f.typ)
    ensures EncodeField(f, v, form) ==
            Encoded(if Omitted(f, v) then form else form[Alias(f) := NewEntry(f, v, Entry(form, Alias(f)))], {})
  {
    if f.typ.Slice? {
      PrintAllTexts(f.typ.elem.kind, Elements(v));
      assert Texts(f.typ, v) == Texts(f.typ, SliceV(Elements(v)));
    }
  }

  /** The entry under a key is as before. */
  predicate Untouched(form: Form, form': Form, key: string) {
    (key in form' <==> key in form) && Entry(form', key) == Entry(form, key)
  }

  /** No leaf of the struct has this alias. */
  ghost predicate NotAnAlias(fs: seq<Field>, key: string) {
    forall ix :: IsLeaf(fs, ix) ==> Alias(Selected(fs, ix)) != key
  }

  /** Encoding a field none of whose leaves has the alias leaves the key alone. */
  lemma {:induction false} FieldElsewhere(f: Field, v: Value, form: Form, key: string)
    requires PlainField(f) && HasType(v, f.typ)
    requires if f.typ.Struct? then NotAnAlias(f.typ.fields, key) else Alias(f) != key
    ensures var r := EncodeField(f, v, form);
            r.Encoded? && r.unsupported == {} && Untouched(form, r.form, key)
    decreases f, 0
  {
    if f.typ.Struct? {
      FieldsElsewhere(f.typ, v, |f.typ.fields|, form, key);
    } else {
      LeafField(f, v, form);
    }
  }

  lemma {:induction false} FieldsElsewhere(t: Type, v: Value, n: nat, form: Form, key: string)
    requires Plain(t) && HasType(v, t) && n <= |t.fields| && NotAnAlias(t.fields, key)
    ensures var r := EncodeUpTo(t.fields, v.fields, n, form);
            r.Encoded? && r.unsupported == {} && Untouched(form, r.form, key)
    decreases t, n
  {
    hide EncodeField, Entry;
    if n > 0 {
      var f, x := t.fields[n - 1], v.fields[n - 1];
      FieldsElsewhere(t, v, n - 1, form, key);
      if f.typ.Struct? {
        forall jx | IsLeaf(f.typ.fields, jx) ensures Alias(Selected(f.typ.fields, jx)) != key {
          assert PlainField(f);
          InnerSelector(t.fields, n - 1, jx);
        }
      } else {
        assert IsLeaf(t.fields, [n - 1]);
      }
      FieldElsewhere(f, x, EncodeUpTo(t.fields, v.fields, n - 1, form).form, key);
    }
  }

  /** The other fields of a struct have no leaf with the alias of a leaf. */
  lemma OtherField(t: Type, ix: seq<nat>, i: nat)
    requires Plain(t) && FlatAliases(t.fields) && IsLeaf(t.fields, ix) && i < |t.fields| && i != ix[0]
    ensures var f, key := t.fields[i], Alias(Selected(t.fields, ix));
            if f.typ.Struct? then NotAnAlias(f.typ.fields, key) else Alias(f) != key
  {
    var f := t.fields[i];
    assert PlainField(f);
    if f.typ.Struct? {
      forall jx | IsLeaf(f.typ.fields, jx)
        ensures Alias(Selected(f.typ.fields, jx)) != Alias(Selected(t.fields, ix))
      {
        InnerSelector(t.fields, i, jx);
        assert ([i] + jx)[0] == i;
      }
    } else {
      assert IsSelector(t.fields, [i]) && Selected(t.fields, [i]) == f;
    }
  }

  lemma EncodeEmbedded(f: Field, x: Value, form: Form)
    requires PlainField(f) && f.typ.Struct? && HasType(x, f.typ) && EncodeFields(f.typ.fields, x.fields, form).Encoded?
    ensures EncodeField(f, x, form) == Encoded(EncodeUpTo(f.typ.fields, x.fields, |f.typ.fields|, form).form, {})
  {}

  lemma NothingTouched(form: Form, key: string)
    ensures Untouched(form, form, key)
  {}

  lemma UntouchedLater(before: Form, mid: Form, after: Form, key: string)
    requires Untouched(before, mid, key) && Untouched(mid, after, key)
    ensures Untouched(before, after, key)
  {}

  /** The entry of a leaf after encoding: a new one, unless the leaf is omitted. */
  predicate Entered(f: Field, x: Value, form: Form, form': Form)
    requires PlainField(f) && !f.typ.Struct? && HasType(x, f.typ)
  {
    if Omitted(f, x) then Untouched(form, form', Alias(f))
    else Alias(f) in form' && form'[Alias(f)] == NewEntry(f, x, Entry(form, Alias(f)))
  }

  lemma EnteredLater(f: Field, x: Value, form: Form, mid: Form, form': Form)
    requires PlainField(f) && !f.typ.Struct? && HasType(x, f.typ)
    requires (Untouched(form, mid, Alias(f)) && Entered(f, x, mid, form'))
             || (Entered(f, x, form, mid) && Untouched(mid, form', Alias(f)))
    ensures Entered(f, x, form, form')
  {
    hide NewEntry, Omitted;
  }

  /** Encoding the field that is, or embeds, a leaf adds the entry of the leaf, unless it omits it. */
  lemma {:induction false} EncodeHolder(t: Type, v: Value, form: Form, ix: seq<nat>)
    requires Plain(t) && HasType(v, t) && FlatAliases(t.fields) && IsLeaf(t.fields, ix)
    ensures PlainField(Selected(t.fields, ix))
    ensures var r := EncodeField(t.fields[ix[0]], v.fields[ix[0]], form);
            r.Encoded? && r.unsupported == {} && Entered(Selected(t.fields, ix), Read(t, v, ix), form, r.form)
    decreases t, 0, 0
  {
    hide NewEntry, Omitted, EncodeField, FlatAliases, Entered;
    SelectedIsPlain(t.fields, ix);
    var f, x := t.fields[ix[0]], v.fields[ix[0]];
    assert PlainField(f);
    if |ix| == 1 {
      LeafField(f, x, form);
      EnteredNow(f, x, form);
    } else {
      InnerFlat(t.fields, ix[0]);
      EncodeLeaf(f.typ, x, |f.typ.fields|, form, ix[1..]);
      EncodeEmbedded(f, x, form);
    }
  }

  lemma EnteredNow(f: Field, x: Value, form: Form)
    requires PlainField(f) && !f.typ.Struct? && HasType(x, f.typ)
    ensures Entered(f, x, form,
                    if Omitted(f, x) then form else form[Alias(f) := NewEntry(f, x, Entry(form, Alias(f)))])
  {
    hide NewEntry, Omitted;
  }

  /** Encoding the fields up to some point adds the entry of a leaf among them, unless it omits it. */
  lemma {:induction false} EncodeLeaf(t: Type, v: Value, n: nat, form: Form, ix: seq<nat>)
    requires Plain(t) && HasType(v, t) && FlatAliases(t.fields) && n <= |t.fields| && IsLeaf(t.fields, ix)
    ensures PlainField(Selected(t.fields, ix))
    ensures var r := EncodeUpTo(t.fields, v.fields, n, form);
            var f, x := Selected(t.fields, ix), Read(t, v, ix);
            && r.Encoded? && r.unsupported == {}
            && if ix[0] < n then Entered(f, x, form, r.form) else Untouched(form, r.form, Alias(f))
    decreases t, 1, n
  {
    hide Entered, EncodeField, FlatAliases, Alias, Untouched;
    SelectedIsPlain(t.fields, ix);
    if n > 0 {
      var f := Selected(t.fields, ix);
      EncodeLeaf(t, v, n - 1, form, ix);
      var mid := EncodeUpTo(t.fields, v.fields, n - 1, form).form;
      EncodeNext(t, v, n - 1, mid, ix);
      if ix[0] < n {
        EnteredLater(f, Read(t, v, ix), form, mid, EncodeUpTo(t.fields, v.fields, n, form).form);
      } else {
        UntouchedLater(form, mid, EncodeUpTo(t.fields, v.fields, n, form).form, Alias(f));
      }
    } else {
      NothingTouched(form, Alias(Selected(t.fields, ix)));
    }
  }

  /** One more field: the one that has the leaf, or another one. */
  lemma {:induction false} EncodeNext(t: Type, v: Value, i: nat, mid: Form, ix: seq<nat>)
    requires Plain(t) && HasType(v, t) && FlatAliases(t.fields) && i < |t.fields| && IsLeaf(t.fields, ix)
    ensures PlainField(Selected(t.fields, ix))
    ensures var r := EncodeField(t.fields[i], v.fields[i], mid);
            var f, x := Selected(t.fields, ix), Read(t, v, ix);
            && r.Encoded? && r.unsupported == {}
            && if ix[0] == i then Entered(f, x, mid, r.form) else Untouched(mid, r.form, Alias(f))
    decreases t, 0, 1
  {
    hide Entered, EncodeField, FlatAliases;
    SelectedIsPlain(t.fields, ix);
    if ix[0] == i {
      EncodeHolder(t, v, mid, ix);
    } else {
      OtherField(t, ix, i);
      assert PlainField(t.fields[i]);
      FieldElsewhere(t.fields[i], v.fields[i], mid, Alias(Selected(t.fields, ix)));
    }
  }

  // ------------------------------------------------------------------------- what decoding finds

  lemma PlainIsListed(fs: seq<Field>)
    requires Plain(Struct(fs))
    ensures Listed(fs)
  {
    forall ix | IsSelector(fs, ix) ensures IsListed(Selected(fs, ix)) {
      SelectedIsPlain(fs, ix);
    }
  }

  lemma BehindSteps(t: Type, name: string, ix: seq<nat>, part: PathPart)
    requires t.Struct? && FieldByName(t.fields, name) == Some(ix) && part.path == [name]
    ensures IsSelector(t.fields, ix) && Locate(t, [name], [part]) == Found(Steps(ix))
  {
    FoundSelector(t.fields, name, ix);
    assert [name][1..] == [];
    assert Steps(ix) + [] == Steps(ix);
  }

  /** The alias of a leaf, as a key and in any case, acts on that leaf. */
  lemma LeafEffect(t: Type, ix: seq<nat>, key: string, values: seq<string>, cfg: Config, act: Act, err: Option<Error>)
    requires Plain(t) && FlatAliases(t.fields) && NamesUnique(t.fields) && IsLeaf(t.fields, ix)
    requires Text.EqualFold(Alias(Selected(t.fields, ix)), key) && '.' !in key
    requires LeafOf(Selected(t.fields, ix).typ, key, values, cfg.zeroEmpty) == Leaf(act, err)
    ensures EffectOf(t, key, values, cfg) == KeyEffect(Change(Steps(ix), act), err)
  {
    hide Create, Lookup, LeafOf, SearchName;
    Text.SplitPlain(key, '.');
    SelectedIsPlain(t.fields, ix);
    PlainIsListed(t.fields);
    var g := EntryUnderAlias(t, ix);
    LookupFolded(Create(t, ""), Alias(Selected(t.fields, ix)), key);
    SearchFinds(t.fields, ix, 0);
    var part := PathPart(Some(g), [g.name], -1);
    assert [key][1..] == [] && [] + [g.name] == [g.name];
    assert ParseKeys(NextType(g), [], [g.name], Some(g)) == Some([part]);
    assert ParsePath(key, t) == Some([part]);
    BehindSteps(t, g.name, ix, part);
    StepsFit(t, ix, []);
    assert Steps(ix) + [] == Steps(ix);
  }

  // ------------------------------------------------------------------------- scalars back

  lemma BasicBack(k: Kind, v: Value)
    requires HasBasicType(v, k) && PrintBasic(k, v) != ""
    ensures Convert(k, PrintBasic(k, v)) == Some(v)
  {
    match k
    case BoolKind => Converter.ParseFormatBool(v.b);
    case StringKind =>
    case IntKind(w) => Converter.ParseFormatInt(v.i, Bits(w));
    case UintKind(w) => Converter.ParseFormatUint(v.i, Bits(w));
  }

  lemma EmptyText(k: Kind, v: Value)
    requires HasBasicType(v, k) && PrintBasic(k, v) == ""
    ensures v == ZeroBasic(k)
  {
    match k
    case BoolKind => Converter.ParseFormatBool(v.b);
    case StringKind =>
    case IntKind(w) => Converter.FormatIntNonEmpty(v.i);
    case UintKind(w) => Converter.FormatUintReadsBack(v.i);
  }

  /**
   Outside of plain structs as well: what is printed for a basic value, or for a pointer to one,
   comes back as that value, or as a pointer to it, wherever its key leads, and behind whatever
   the form held before. An empty string comes back with zeroEmpty on.
   */
  lemma PrintedComesBack(t: Type, v: Value, route: seq<Hop>, k: Kind, x: Value, before: seq<string>, cfg: Config)
    requires Reaches(t, v, route) && (SlotOf(t, route) == Basic(k) || SlotOf(t, route) == Ptr(Basic(k)))
    requires HasBasicType(x, k) && (PrintBasic(k, x) != "" || cfg.zeroEmpty)
    ensures Leaves(t, v, route, before + [PrintBasic(k, x)], cfg, x, None)
  {
    hide Reaches, Leaves, IsRoute, Place, Key, PrintBasic, Convert;
    SingleValueLeaves(t, v, route, before + [PrintBasic(k, x)], cfg);
    if PrintBasic(k, x) == "" {
      EmptyText(k, x);
    } else {
      BasicBack(k, x);
    }
  }

  lemma PieceBack(k: Kind, v: Value)
    requires HasBasicType(v, k)
    ensures Piece(ElemKind(k, false), true, PrintBasic(k, v)) == Some([v])
  {
    if PrintBasic(k, v) == "" {
      EmptyText(k, v);
    } else {
      BasicBack(k, v);
    }
  }

  lemma {:induction false} SliceBack(k: Kind, vs: seq<Value>)
    requires forall i :: 0 <= i < |vs| ==> HasBasicType(vs[i], k)
    ensures var texts := Texts(Slice(Basic(k)), SliceV(vs));
            Converts(ElemKind(k, false), true, texts) && FlatItems(ElemKind(k, false), true, texts) == vs
  {
    hide Piece, Pieces, PrintBasic, Convert, Text.Split;
    if vs != [] {
      var n := |vs| - 1;
      var texts := Texts(Slice(Basic(k)), SliceV(vs));
      SliceBack(k, vs[..n]);
      PieceBack(k, vs[n]);
      assert texts[..n] == Texts(Slice(Basic(k)), SliceV(vs[..n]));
      assert vs == vs[..n] + [vs[n]];
      forall i | 0 <= i < |texts| ensures ValueItems(ElemKind(k, false), true, texts[i]).Some? {
        PieceBack(k, vs[i]);
      }
    }
  }

  /** The values under the key of an encoded leaf, converted: the leaf again, nil slices as empty ones. */
  function Restored(t: Type, v: Value): Value
    requires HasType(v, t)
  {
    if t.Slice? then SliceV(Elements(v)) else v
  }

  lemma LeafBack(f: Field, v: Value, before: seq<string>, key: string)
    requires PlainField(f) && !f.typ.Struct? && HasType(v, f.typ)
    ensures LeafOf(f.typ, key, NewEntry(f, v, before), true) == Leaf(Assign(Restored(f.typ, v)), None)
  {
    if f.typ.Slice? {
      SliceBack(f.typ.elem.kind, Elements(v));
      assert Texts(f.typ, v) == Texts(f.typ, SliceV(Elements(v)));
    } else {
      var text := PrintBasic(f.typ.kind, v);
      if text == "" {
        EmptyText(f.typ.kind, v);
      } else {
        BasicBack(f.typ.kind, v);
      }
    }
  }

  // ------------------------------------------------------------------------- one leaf set

  lemma PlainNeedsNoAlloc(t: Type, v: Value)
    requires Plain(t) && HasType(v, t)
    ensures AllocEmbedded(t.fields, v.fields) == v.fields
  {
    forall i | 0 <= i < |t.fields| ensures AllocField(t.fields[i], v.fields[i]) == v.fields[i] {
      assert PlainField(t.fields[i]);
    }
  }

  /** The value with one leaf replaced. */
  function Write(t: Type, v: Value, ix: seq<nat>, w: Value): (r: Value)
    requires Plain(t) && HasType(v, t) && IsSelector(t.fields, ix) && HasType(w, Selected(t.fields, ix).typ)
    ensures HasType(r, t)
    decreases |ix|
  {
    var i := ix[0];
    var child := if |ix| == 1 then w else Write(t.fields[i].typ, v.fields[i], ix[1..], w);
    StructV(v.fields[i := child])
  }

  lemma {:induction false} ReadWrite(t: Type, v: Value, ix: seq<nat>, w: Value, jx: seq<nat>)
    requires Plain(t) && HasType(v, t) && IsLeaf(t.fields, ix) && HasType(w, Selected(t.fields, ix).typ)
    requires IsLeaf(t.fields, jx)
    ensures Read(t, Write(t, v, ix, w), jx) == if ix == jx then w else Read(t, v, jx)
    decreases |ix|
  {
    assert PlainField(t.fields[ix[0]]);
    assert ix == [ix[0]] + ix[1..] && jx == [jx[0]] + jx[1..];
    if ix[0] == jx[0] && |ix| > 1 {
      ReadWrite(t.fields[ix[0]].typ, v.fields[ix[0]], ix[1..], w, jx[1..]);
    }
  }

  /** What an action leaves in a leaf. */
  function Acted(t: Type, v: Value, ix: seq<nat>, act: Act): (r: Value)
    requires Plain(t) && HasType(v, t) && IsLeaf(t.fields, ix) && ActFits(Selected(t.fields, ix).typ, act)
    ensures HasType(r, Selected(t.fields, ix).typ)
    ensures act.Assign? ==> r == act.w
    ensures act.Keep? ==> r == Read(t, v, ix)
  {
    SelectedIsPlain(t.fields, ix);
    ActOn(Selected(t.fields, ix).typ, Read(t, v, ix), act)
  }

  lemma {:induction false} PutPromoted(t: Type, v: Value, ix: seq<nat>, act: Act)
    requires Plain(t) && HasType(v, t) && IsLeaf(t.fields, ix) && ActFits(Selected(t.fields, ix).typ, act)
    ensures Typed(t, PromotedSteps(ix)) && TypeAt(t, PromotedSteps(ix)) == Selected(t.fields, ix).typ
    ensures Put(t, v, PromotedSteps(ix), act) == Done(Write(t, v, ix, Acted(t, v, ix, act)))
    decreases |ix|
  {
    PromotedStepsFit(t, ix, []);
    assert PromotedSteps(ix) + [] == PromotedSteps(ix);
    assert PromotedSteps(ix)[1..] == PromotedSteps(ix[1..]);
    SelectedIsPlain(t.fields, ix);
    assert PlainField(t.fields[ix[0]]);
    if |ix| > 1 {
      PutPromoted(t.fields[ix[0]].typ, v.fields[ix[0]], ix[1..], act);
    }
  }

  lemma LeafIsTyped(t: Type, ix: seq<nat>)
    requires Plain(t) && IsLeaf(t.fields, ix)
    ensures Typed(t, Steps(ix)) && TypeAt(t, Steps(ix)) == Selected(t.fields, ix).typ
  {
    StepsFit(t, ix, []);
    assert Steps(ix) + [] == Steps(ix);
    SelectedIsPlain(t.fields, ix);
  }

  lemma PutOwnLeaf(t: Type, v: Value, i: nat, act: Act)
    requires Plain(t) && HasType(v, t) && IsLeaf(t.fields, [i]) && ActFits(t.fields[i].typ, act)
    requires Typed(t, Steps([i])) && TypeAt(t, Steps([i])) == t.fields[i].typ
    ensures Put(t, v, Steps([i]), act) == Done(Write(t, v, [i], Acted(t, v, [i], act)))
  {
    PlainNeedsNoAlloc(t, v);
    assert Steps([i]) == [Named(i)];
    assert PlainField(t.fields[i]);
  }

  lemma PutInnerLeaf(t: Type, v: Value, ix: seq<nat>, act: Act)
    requires Plain(t) && HasType(v, t) && |ix| > 1 && IsLeaf(t.fields, ix) && ActFits(Selected(t.fields, ix).typ, act)
    requires Typed(t, Steps(ix)) && TypeAt(t, Steps(ix)) == Selected(t.fields, ix).typ
    ensures Put(t, v, Steps(ix), act) == Done(Write(t, v, ix, Acted(t, v, ix, act)))
  {
    assert Steps(ix)[1..] == PromotedSteps(ix[1..]);
    PlainNeedsNoAlloc(t, v);
    assert PlainField(t.fields[ix[0]]);
    PutPromoted(t.fields[ix[0]].typ, v.fields[ix[0]], ix[1..], act);
  }

  lemma PutLeaf(t: Type, v: Value, ix: seq<nat>, act: Act)
    requires Plain(t) && HasType(v, t) && IsLeaf(t.fields, ix) && ActFits(Selected(t.fields, ix).typ, act)
    ensures Typed(t, Steps(ix)) && TypeAt(t, Steps(ix)) == Selected(t.fields, ix).typ
    ensures Put(t, v, Steps(ix), act) == Done(Write(t, v, ix, Acted(t, v, ix, act)))
  {
    LeafIsTyped(t, ix);
    if |ix| == 1 {
      assert ix == [ix[0]];
      PutOwnLeaf(t, v, ix[0], act);
    } else {
      PutInnerLeaf(t, v, ix, act);
    }
  }

  // ------------------------------------------------------------------------- all keys decoded

  /** Every key of the form is the alias of a leaf. */
  ghost predicate LeafKeys(t: Type, form: Form)
    requires Plain(t)
  {
    forall k :: k in form ==> exists ix :: KeyOf(t, k, ix)
  }

  predicate KeyOf(t: Type, k: string, ix: seq<nat>)
    requires Plain(t)
  {
    IsLeaf(t.fields, ix) && Alias(Selected(t.fields, ix)) == k
  }

  /** With zeroEmpty on, the values under the alias of a leaf set it, or keep it and give an error. */
  lemma LeafDecodes(t: Type, ix: seq<nat>, values: seq<string>)
    requires Plain(t) && IsLeaf(t.fields, ix)
    ensures var f := Selected(t.fields, ix);
            var l := LeafOf(f.typ, Alias(f), values, true);
            && l.Leaf? && (l.act.Assign? || l.act.Keep?) && (l.err.None? <==> l.act.Assign?)
  {
    hide Convert, Converts, FlatItems, FirstFailure;
    SelectedIsPlain(t.fields, ix);
    var f := Selected(t.fields, ix);
    if f.typ.Slice? {
      BasicSliceAllOrNothing(f.typ.elem.kind, Alias(f), values, true);
    }
  }

  function LeafAct(t: Type, ix: seq<nat>, values: seq<string>): (act: Act)
    requires Plain(t) && IsLeaf(t.fields, ix)
    ensures ActFits(Selected(t.fields, ix).typ, act)
  {
    LeafDecodes(t, ix, values);
    LeafOf(Selected(t.fields, ix).typ, Alias(Selected(t.fields, ix)), values, true).act
  }

  /** Decoding the key of a leaf acts on the leaf, and fails when the leaf is kept. */
  lemma KeyActs(t: Type, values: seq<string>, ignoreUnknown: bool, ix: seq<nat>, w: Value)
    requires Plain(t) && HasType(w, t) && FlatAliases(t.fields) && NamesUnique(t.fields) && IsLeaf(t.fields, ix)
    ensures var ke := EffectOf(t, Alias(Selected(t.fields, ix)), values, Config(true, ignoreUnknown));
            var act := LeafAct(t, ix, values);
            && (ke.err.None? <==> act.Assign?)
            && Apply(t, w, ke.effect) == Done(Write(t, w, ix, Acted(t, w, ix, act)))
  {
    hide EffectOf, LeafOf;
    var f := Selected(t.fields, ix);
    LeafDecodes(t, ix, values);
    var l := LeafOf(f.typ, Alias(f), values, true);
    LeafEffect(t, ix, Alias(f), values, Config(true, ignoreUnknown), l.act, l.err);
    PutLeaf(t, w, ix, l.act);
  }

  /** The leaf is as its key says if the key has been decoded, and as before otherwise. */
  predicate LeafAfter(t: Type, src: Form, w: Value, order: seq<string>, r: Value, ix: seq<nat>)
    requires Plain(t) && HasType(w, t) && HasType(r, t) && IsLeaf(t.fields, ix)
    requires forall k :: k in order ==> k in src
  {
    var k := Alias(Selected(t.fields, ix));
    Read(t, r, ix) == if k in order then Acted(t, w, ix, LeafAct(t, ix, src[k])) else Read(t, w, ix)
  }

  lemma OneKey(t: Type, src: Form, ignoreUnknown: bool, k: string, w: Value, ix: seq<nat>) returns (next: Value)
    requires Plain(t) && HasType(w, t) && FlatAliases(t.fields) && NamesUnique(t.fields)
    requires LeafKeys(t, src) && k in src && IsLeaf(t.fields, ix)
    ensures HasType(next, t)
    ensures Apply(t, w, EffectOf(t, k, src[k], Config(true, ignoreUnknown)).effect) == Done(next)
    ensures LeafAfter(t, src, w, [k], next, ix)
  {
    hide EffectOf, HasType, Apply, LeafAct, Acted;
    var kx :| KeyOf(t, k, kx);
    KeyActs(t, src[k], ignoreUnknown, kx, w);
    var x := Acted(t, w, kx, LeafAct(t, kx, src[k]));
    next := Write(t, w, kx, x);
    ReadWrite(t, w, kx, x, ix);
  }

  /** Decoding some keys acts on their leaves. */
  lemma {:induction false} RunActs(t: Type, src: Form, ignoreUnknown: bool, order: seq<string>, w: Value, ix: seq<nat>)
    requires Plain(t) && HasType(w, t) && FlatAliases(t.fields) && NamesUnique(t.fields)
    requires LeafKeys(t, src) && IsLeaf(t.fields, ix)
    requires forall k :: k in order ==> k in src
    ensures var r := Run(t, w, Effects(t, src, Config(true, ignoreUnknown), order));
            r.Done? && LeafAfter(t, src, w, order, r.v, ix)
    decreases |order|
  {
    hide EffectOf, HasType, Apply, LeafKeys, EffectFits;
    var es := Effects(t, src, Config(true, ignoreUnknown), order);
    if order != [] {
      var next := OneKey(t, src, ignoreUnknown, order[0], w, ix);
      RunActs(t, src, ignoreUnknown, order[1..], next, ix);
      assert es[1..] == Effects(t, src, Config(true, ignoreUnknown), order[1..]);
      LeafDecodes(t, ix, Entry(src, Alias(Selected(t.fields, ix))));
    }
  }

  lemma {:induction false} RunIsDone(t: Type, src: Form, ignoreUnknown: bool, order: seq<string>, w: Value)
    requires Plain(t) && HasType(w, t) && FlatAliases(t.fields) && NamesUnique(t.fields)
    requires LeafKeys(t, src) && forall k :: k in order ==> k in src
    ensures Run(t, w, Effects(t, src, Config(true, ignoreUnknown), order)).Done?
  {
    hide EffectOf, HasType, LeafKeys;
    if order == [] {
      assert Effects(t, src, Config(true, ignoreUnknown), order) == [];
    } else {
      var ix := SomeLeaf(t, src, order[0]);
      RunActs(t, src, ignoreUnknown, order, w, ix);
    }
  }

  lemma SomeLeaf(t: Type, src: Form, k: string) returns (ix: seq<nat>)
    requires Plain(t) && LeafKeys(t, src) && k in src
    ensures KeyOf(t, k, ix)
  {
    ix :| KeyOf(t, k, ix);
  }

  // ------------------------------------------------------------------------- the round trip

  lemma {:induction false} ZeroRead(t: Type, ix: seq<nat>)
    requires Plain(t) && IsLeaf(t.fields, ix)
    ensures HasType(Zero(t), t) && Read(t, Zero(t), ix) == Zero(Selected(t.fields, ix).typ)
    decreases |ix|
  {
    ZeroHasType(t);
    if |ix| > 1 {
      assert PlainField(t.fields[ix[0]]);
      ZeroRead(t.fields[ix[0]].typ, ix[1..]);
    }
  }

  lemma LeafIsEncoded(t: Type, v: Value, form: Form, src: Form, ix: seq<nat>)
    requires Plain(t) && HasType(v, t) && FlatAliases(t.fields) && IsLeaf(t.fields, ix)
    requires EncodeFields(t.fields, v.fields, form) == Encoded(src, {})
    ensures PlainField(Selected(t.fields, ix)) && Entered(Selected(t.fields, ix), Read(t, v, ix), form, src)
  {
    hide Entered, EncodeUpTo;
    EncodeLeaf(t, v, |t.fields|, form, ix);
  }

  /** Encoding adds no other keys than those of leaves. */
  lemma EncodedLeafKeys(t: Type, v: Value, form: Form, src: Form)
    requires Plain(t) && HasType(v, t) && LeafKeys(t, form)
    requires EncodeFields(t.fields, v.fields, form) == Encoded(src, {})
    ensures LeafKeys(t, src)
  {
    hide HasType, EncodeUpTo;
    forall k | k in src ensures exists ix :: KeyOf(t, k, ix) {
      if NotAnAlias(t.fields, k) {
        FieldsElsewhere(t, v, |t.fields|, form, k);
      } else {
        var ix :| IsLeaf(t.fields, ix) && Alias(Selected(t.fields, ix)) == k;
        assert KeyOf(t, k, ix);
      }
    }
  }

  lemma EncodeSucceeds(t: Type, v: Value, form: Form)
    requires Plain(t) && HasType(v, t)
    ensures var r := EncodeFields(t.fields, v.fields, form); r.Encoded? && r.unsupported == {}
  {
    AllFieldsEncode(t, v, |t.fields|, form);
  }

  lemma {:induction false} AllFieldsEncode(t: Type, v: Value, n: nat, form: Form)
    requires Plain(t) && HasType(v, t) && n <= |t.fields|
    ensures var r := EncodeUpTo(t.fields, v.fields, n, form); r.Encoded? && r.unsupported == {}
    decreases t, n
  {
    if n > 0 {
      var f, x := t.fields[n - 1], v.fields[n - 1];
      AllFieldsEncode(t, v, n - 1, form);
      var mid := EncodeUpTo(t.fields, v.fields, n - 1, form).form;
      assert PlainField(f);
      if f.typ.Struct? {
        AllFieldsEncode(f.typ, x, |f.typ.fields|, mid);
        assert EncodeField(f, x, mid) == Encoded(EncodeFields(f.typ.fields, x.fields, mid).form, {});
      } else {
        LeafField(f, x, mid);
      }
    }
  }

  lemma {:induction false} ConcatSelector(fs: seq<Field>, ix: seq<nat>, jx: seq<nat>)
    requires IsSelector(fs, ix) && Embedded(Selected(fs, ix)) && IsSelector(Base(Selected(fs, ix).typ).fields, jx)
    ensures IsSelector(fs, ix + jx) && Selected(fs, ix + jx) == Selected(Base(Selected(fs, ix).typ).fields, jx)
    decreases |ix|
  {
    assert (ix + jx)[1..] == ix[1..] + jx;
    if |ix| > 1 {
      ConcatSelector(Base(fs[ix[0]].typ).fields, ix[1..], jx);
    } else {
      assert ix[1..] + jx == jx;
    }
  }

  lemma {:induction false} NoRequiredChain(t: Type, links: seq<FieldInfo>, spelling: seq<string>)
    requires Plain(t) && NoneRequired(t.fields)
    ensures !SchemaRequired.Chain(t, links, spelling)
    decreases |links|
  {
    hide Create;
    if SchemaRequired.Chain(t, links, spelling) {
      var ix := EntryOrigin(t, "", links[0]);
      var f := Selected(t.fields, ix);
      SelectedIsPlain(t.fields, ix);
      if |links| > 1 {
        forall jx | IsSelector(f.typ.fields, jx) ensures "required" !in Options(Selected(f.typ.fields, jx)) {
          ConcatSelector(t.fields, ix, jx);
        }
        NoRequiredChain(f.typ, links[1..], spelling[1..]);
      }
    }
  }

  lemma NothingRequired(t: Type, src: Source)
    requires Plain(t) && NoneRequired(t.fields)
    ensures SchemaRequired.RequiredErrors(t, src) == map[]
  {
    hide SchemaRequired.RequiredErrors;
    forall key ensures key !in SchemaRequired.RequiredErrors(t, src) {
      SchemaRequired.RequiredReported(t, src, key);
      if path, g :| SchemaRequired.Spells(t, "", "", key, path, g) {
        var links, spelling :| SchemaRequired.Spelled(t, links, spelling, "", "", key, path, g);
        NoRequiredChain(t, links, spelling);
      }
    }
  }

  lemma {:induction false} SameRead(t: Type, v: Value, w: Value, ix: seq<nat>)
    requires Plain(t) && HasType(v, t) && HasType(w, t) && Same(t, v, w) && IsSelector(t.fields, ix)
    ensures Same(Selected(t.fields, ix).typ, Read(t, v, ix), Read(t, w, ix))
    decreases |ix|
  {
    assert PlainField(t.fields[ix[0]]);
    if |ix| > 1 {
      SameRead(t.fields[ix[0]].typ, v.fields[ix[0]], w.fields[ix[0]], ix[1..]);
    }
  }

  /** The texts under the alias of a leaf convert, and convert to its value. */
  predicate DecodesTo(f: Field, x: Value, values: seq<string>)
    requires HasType(x, f.typ)
  {
    var l := LeafOf(f.typ, Alias(f), values, true);
    l.Leaf? && l.err.None? && l.act.Assign? && HasType(l.act.w, f.typ) && Same(f.typ, x, l.act.w)
  }

  /**
   What a form holds under the aliases of omitted fields decodes to their values: a caller can
   see that before encoding.
   */
  ghost predicate NoStaleEntries(t: Type, v: Value, form: Form)
    requires Plain(t) && HasType(v, t)
  {
    forall ix :: IsLeaf(t.fields, ix) ==> FreshEntry(t, v, form, ix)
  }

  predicate FreshEntry(t: Type, v: Value, form: Form, ix: seq<nat>)
    requires Plain(t) && HasType(v, t) && IsLeaf(t.fields, ix)
  {
    var f, x := Selected(t.fields, ix), Read(t, v, ix);
    Omitted(f, x) && Alias(f) in form ==> DecodesTo(f, x, form[Alias(f)])
  }

  /** An omitted value is the zero value, but for nil slices. */
  lemma OmittedIsZero(t: Type, v: Value, ix: seq<nat>)
    requires Plain(t) && HasType(v, t) && IsLeaf(t.fields, ix) && Omitted(Selected(t.fields, ix), Read(t, v, ix))
    ensures var f := Selected(t.fields, ix); HasType(Zero(f.typ), f.typ) && Same(f.typ, Read(t, v, ix), Zero(f.typ))
  {
    SelectedIsPlain(t.fields, ix);
    ZeroHasType(Selected(t.fields, ix).typ);
  }

  lemma RestoredIsSame(t: Type, v: Value, ix: seq<nat>)
    requires Plain(t) && HasType(v, t) && IsLeaf(t.fields, ix)
    ensures var f, x := Selected(t.fields, ix), Read(t, v, ix);
            HasType(Restored(f.typ, x), f.typ) && Same(f.typ, x, Restored(f.typ, x))
  {
    SelectedIsPlain(t.fields, ix);
  }

  /** One leaf comes back, without an error, if and only if its old entry is not stale. */
  lemma LeafComesBack(t: Type, v: Value, form: Form, src: Form, ix: seq<nat>, r: Value, order: seq<string>)
    requires Plain(t) && HasType(v, t) && FlatAliases(t.fields) && IsLeaf(t.fields, ix)
    requires HasType(r, t) && HasType(Zero(t), t) && Visits(order, src)
    requires EncodeFields(t.fields, v.fields, form) == Encoded(src, {})
    requires LeafAfter(t, src, Zero(t), order, r, ix)
    ensures var f, x := Selected(t.fields, ix), Read(t, v, ix);
            FreshEntry(t, v, form, ix) <==>
              Same(f.typ, x, Read(t, r, ix)) && (Alias(f) in src ==> LeafAct(t, ix, src[Alias(f)]).Assign?)
  {
    hide EncodeUpTo, LeafOf, Same, NewEntry, Omitted;
    var f, x := Selected(t.fields, ix), Read(t, v, ix);
    LeafIsEncoded(t, v, form, src, ix);
    ZeroRead(t, ix);
    if Alias(f) in src {
      LeafDecodes(t, ix, src[Alias(f)]);
    }
    if Omitted(f, x) {
      OmittedIsZero(t, v, ix);
    } else {
      LeafBack(f, x, Entry(form, Alias(f)), Alias(f));
      RestoredIsSame(t, v, ix);
    }
  }

  /** No key gives an error if and only if every leaf with a key is set. */
  lemma NoErrorsIff(t: Type, src: Form, ignoreUnknown: bool)
    requires Plain(t) && FlatAliases(t.fields) && NamesUnique(t.fields) && LeafKeys(t, src)
    ensures KeyErrors(t, src, Config(true, ignoreUnknown)) == map[] <==>
            forall ix :: IsLeaf(t.fields, ix) && Alias(Selected(t.fields, ix)) in src ==>
              LeafAct(t, ix, src[Alias(Selected(t.fields, ix))]).Assign?
  {
    hide EffectOf, HasType, LeafAct;
    ZeroHasType(t);
    var cfg := Config(true, ignoreUnknown);
    var errors := KeyErrors(t, src, cfg);
    forall ix | IsLeaf(t.fields, ix) && Alias(Selected(t.fields, ix)) in src
      ensures Alias(Selected(t.fields, ix)) !in errors <==> LeafAct(t, ix, src[Alias(Selected(t.fields, ix))]).Assign?
    {
      KeyActs(t, src[Alias(Selected(t.fields, ix))], ignoreUnknown, ix, Zero(t));
    }
    if k :| k in errors {
      var ix := SomeLeaf(t, src, k);
    }
  }

  /**
   Decoding undoes encoding. A struct of basic values, slices of them and structs embedded by
   value, with unambiguous aliases and Go names and no required field, is encoded into a form
   that may already hold values under its aliases. Decoding the result, in any order of its keys,
   into a zero struct, with zeroEmpty on, reports no error and gives the struct back, nil slices
   counting as empty, if and only if no field that encoding omits had an entry that decodes to
   something else.
   */
  lemma DecodeUndoesEncode(t: Type, v: Value, form: Form, ignoreUnknown: bool, order: seq<string>)
    requires Plain(t) && HasType(v, t) && LeafKeys(t, form)
    requires FlatAliases(t.fields) && NamesUnique(t.fields) && NoneRequired(t.fields)
    requires var r := EncodeFields(t.fields, v.fields, form); r.Encoded? ==> Visits(order, r.form)
    ensures EncodeFields(t.fields, v.fields, form).Encoded?
    ensures EncodeFields(t.fields, v.fields, form).unsupported == {}
    ensures HasType(Zero(t), t)
    ensures var src, cfg := EncodeFields(t.fields, v.fields, form).form, Config(true, ignoreUnknown);
            var r := Run(t, Zero(t), Effects(t, src, cfg, order));
            && r.Done? && SchemaRequired.RequiredErrors(t, src) == map[]
            && (Same(t, v, r.v) && KeyErrors(t, src, cfg) == map[] <==> NoStaleEntries(t, v, form))
  {
    hide EffectOf, EncodeUpTo, SchemaRequired.RequiredErrors, LeafKeys, LeafAfter, FreshEntry, LeafAct, Same, KeyErrors;
    EncodeSucceeds(t, v, form);
    ZeroHasType(t);
    var src := EncodeFields(t.fields, v.fields, form).form;
    EncodedLeafKeys(t, v, form, src);
    NothingRequired(t, src);
    NoErrorsIff(t, src, ignoreUnknown);
    RunIsDone(t, src, ignoreUnknown, order, Zero(t));
    var r := Run(t, Zero(t), Effects(t, src, Config(true, ignoreUnknown), order)).v;
    forall ix | IsLeaf(t.fields, ix)
      ensures FreshEntry(t, v, form, ix) <==>
                Same(Selected(t.fields, ix).typ, Read(t, v, ix), Read(t, r, ix)) &&
                (Alias(Selected(t.fields, ix)) in src ==>
                   LeafAct(t, ix, src[Alias(Selected(t.fields, ix))]).Assign?)
    {
      RunActs(t, src, ignoreUnknown, order, Zero(t), ix);
      LeafComesBack(t, v, form, src, ix, r, order);
    }
    if Same(t, v, r) {
      forall ix | IsLeaf(t.fields, ix)
        ensures Same(Selected(t.fields, ix).typ, Read(t, v, ix), Read(t, r, ix))
      {
        SameRead(t, v, r, ix);
      }
    }
    if forall ix :: IsLeaf(t.fields, ix) ==> Same(Selected(t.fields, ix).typ, Read(t, v, ix), Read(t, r, ix)) {
      SameLeaves(t, v, r);
    }
  }

  /** The same of the methods: what `Decode` reports and leaves after `Encode`. */
  lemma MethodsRoundTrip(t: Type, v: Value, form: Form, ignoreUnknown: bool, order: seq<string>,
                         after: Value, report: SchemaFill.Report)
    requires Plain(t) && HasType(v, t) && LeafKeys(t, form) && HasType(Zero(t), t)
    requires FlatAliases(t.fields) && NamesUnique(t.fields) && NoneRequired(t.fields)
    requires var r := EncodeFields(t.fields, v.fields, form);
             r.Encoded? ==>
               SchemaFill.Decodes(t, Zero(t), r.form, Config(true, ignoreUnknown), order, after, report)
    ensures HasType(after, t)
    ensures report == SchemaFill.Errors(map[]) && Same(t, v, after) <==> NoStaleEntries(t, v, form)
  {
    hide EffectOf, EncodeUpTo, SchemaRequired.RequiredErrors, NoStaleEntries, Same, KeyErrors, LeafKeys;
    EncodeSucceeds(t, v, form);
    DecodeUndoesEncode(t, v, form, ignoreUnknown, order);
  }

  /** In particular, it does so if the form only has keys that are written. */
  lemma WrittenKeysAreNotStale(t: Type, v: Value, form: Form)
    requires Plain(t) && HasType(v, t) && FlatAliases(t.fields)
    requires forall k :: k in form ==> exists ix :: KeyOf(t, k, ix) && !Omitted(Selected(t.fields, ix), Read(t, v, ix))
    ensures LeafKeys(t, form) && NoStaleEntries(t, v, form)
  {
    hide HasType, Omitted, DecodesTo;
    forall ix | IsLeaf(t.fields, ix) ensures FreshEntry(t, v, form, ix) {
      var k := Alias(Selected(t.fields, ix));
      if k in form {
        var jx :| KeyOf(t, k, jx) && !Omitted(Selected(t.fields, jx), Read(t, v, jx));
        assert ix == jx;
      }
    }
  }

  /** What the form held under the alias of an omitted field comes back instead of the field's value. */
  lemma StaleKeyWins(t: Type, v: Value, form: Form, ix: seq<nat>, ignoreUnknown: bool, order: seq<string>)
    requires Plain(t) && HasType(v, t) && LeafKeys(t, form) && IsLeaf(t.fields, ix)
    requires FlatAliases(t.fields) && NamesUnique(t.fields)
    requires Omitted(Selected(t.fields, ix), Read(t, v, ix)) && Alias(Selected(t.fields, ix)) in form
    requires var r := EncodeFields(t.fields, v.fields, form); r.Encoded? ==> Visits(order, r.form)
    ensures EncodeFields(t.fields, v.fields, form).Encoded? && HasType(Zero(t), t)
    ensures var act := LeafAct(t, ix, form[Alias(Selected(t.fields, ix))]);
            var src := EncodeFields(t.fields, v.fields, form).form;
            var r := Run(t, Zero(t), Effects(t, src, Config(true, ignoreUnknown), order));
            r.Done? && Read(t, r.v, ix) == if act.Assign? then act.w else Zero(Selected(t.fields, ix).typ)
  {
    hide EffectOf, EncodeUpTo, LeafKeys, LeafAct, Omitted;
    EncodeSucceeds(t, v, form);
    ZeroHasType(t);
    ZeroRead(t, ix);
    var src := EncodeFields(t.fields, v.fields, form).form;
    EncodedLeafKeys(t, v, form, src);
    LeafIsEncoded(t, v, form, src, ix);
    LeafDecodes(t, ix, form[Alias(Selected(t.fields, ix))]);
    RunActs(t, src, ignoreUnknown, order, Zero(t), ix);
  }

  // ------------------------------------------------------------------------- two spellings

  /**
   Two keys that spell one field in different cases both set it, the one that comes last wins,
   and the order makes no difference exactly when they set it to the same value.
   */
  lemma LastSpellingWins(t: Type, v: Value, ix: seq<nat>, src: Source, cfg: Config, j: string, k: string,
                         x: Value, y: Value)
    requires Plain(t) && HasType(v, t) && FlatAliases(t.fields) && NamesUnique(t.fields) && IsLeaf(t.fields, ix)
    requires j in src && k in src && '.' !in j && '.' !in k
    requires Text.EqualFold(Alias(Selected(t.fields, ix)), j) && Text.EqualFold(Alias(Selected(t.fields, ix)), k)
    requires LeafOf(Selected(t.fields, ix).typ, j, src[j], cfg.zeroEmpty) == Leaf(Assign(x), None)
    requires LeafOf(Selected(t.fields, ix).typ, k, src[k], cfg.zeroEmpty) == Leaf(Assign(y), None)
    ensures var jk, kj := Run(t, v, Effects(t, src, cfg, [j, k])), Run(t, v, Effects(t, src, cfg, [k, j]));
            && jk.Done? && Read(t, jk.v, ix) == y && kj.Done? && Read(t, kj.v, ix) == x
            && (jk == kj <==> x == y)
    ensures !Apart(EffectOf(t, j, src[j], cfg).effect, EffectOf(t, k, src[k], cfg).effect)
  {
    hide EffectOf, LeafOf, Typed, TypeAt, Run, Write, Read, FlatAliases, NamesUnique, HasType, PlainField;
    LeafEffect(t, ix, j, src[j], cfg, Assign(x), None);
    LeafEffect(t, ix, k, src[k], cfg, Assign(y), None);
    LeafIsTyped(t, ix);
    LeafFits(t, ix, j, src[j], cfg, x);
    LeafFits(t, ix, k, src[k], cfg, y);
    assert Effects(t, src, cfg, [j, k]) == [Change(Steps(ix), Assign(x)), Change(Steps(ix), Assign(y))];
    assert Effects(t, src, cfg, [k, j]) == [Change(Steps(ix), Assign(y)), Change(Steps(ix), Assign(x))];
    LastWriteWins(t, v, ix, x, y);
    LastWriteWins(t, v, ix, y, x);
    SelfOverlap(Steps(ix));
  }

  lemma LastWriteWins(t: Type, v: Value, ix: seq<nat>, x: Value, y: Value)
    requires Plain(t) && HasType(v, t) && IsLeaf(t.fields, ix)
    requires ActFits(Selected(t.fields, ix).typ, Assign(x)) && ActFits(Selected(t.fields, ix).typ, Assign(y))
    requires Typed(t, Steps(ix)) && TypeAt(t, Steps(ix)) == Selected(t.fields, ix).typ
    ensures var r := Run(t, v, [Change(Steps(ix), Assign(x)), Change(Steps(ix), Assign(y))]);
            r.Done? && HasType(r.v, t) && Read(t, r.v, ix) == y
  {
    hide Typed, TypeAt, HasType, PlainField;
    SelectedIsPlain(t.fields, ix);
    PutLeaf(t, v, ix, Assign(x));
    var w := Write(t, v, ix, Acted(t, v, ix, Assign(x)));
    PutLeaf(t, w, ix, Assign(y));
    ReadWrite(t, w, ix, Acted(t, w, ix, Assign(y)), ix);
    var ej, ek := Change(Steps(ix), Assign(x)), Change(Steps(ix), Assign(y));
    assert [ej, ek] == [ej] + [ek] && [ek] == [ek] + [];
    RunHead(t, v, ej, [ek]);
    RunHead(t, w, ek, []);
  }

  lemma LeafFits(t: Type, ix: seq<nat>, key: string, values: seq<string>, cfg: Config, x: Value)
    requires Plain(t) && IsLeaf(t.fields, ix)
    requires LeafOf(Selected(t.fields, ix).typ, key, values, cfg.zeroEmpty) == Leaf(Assign(x), None)
    ensures ActFits(Selected(t.fields, ix).typ, Assign(x))
  {}

  lemma {:induction false} SelfOverlap(loc: seq<Step>)
    ensures !Diverge(loc, loc)
    decreases |loc|
  {
    if loc != [] {
      SelfOverlap(loc[1..]);
    }
  }
}
