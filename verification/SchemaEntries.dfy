/** What the encoder writes, field by field, told by types and values: pointers, slices of them, nested structs. */
module SchemaEntries {
  import opened Wrappers
  import opened SchemaTypes
  import opened SchemaCache
  import opened SchemaForms
  import Converter

  // ------------------------------------------------------------------------- texts

  /** Booleans and strings are printed as they are, numbers in decimal notation. */
  lemma PrintedText(k: Kind, v: Value)
    requires HasBasicType(v, k)
    ensures k.StringKind? ==> PrintBasic(k, v) == v.s
    ensures k.BoolKind? ==> PrintBasic(k, v) == if v.b then "true" else "false"
    ensures (k.IntKind? || k.UintKind?) && v.i >= 0 ==> PrintBasic(k, v) == Converter.FormatUint(v.i)
    ensures (k.IntKind? || k.UintKind?) && v.i < 0 ==> PrintBasic(k, v) == "-" + Converter.FormatUint(-v.i)
  {}

  /** Non-nil pointers lead from the value to `x`, which has the type `u`. */
  predicate PointsTo(t: Type, v: Value, u: Type, x: Value)
    decreases t
  {
    (t == u && v == x) || (t.Ptr? && v.PtrV? && PointsTo(t.elem, v.target, u, x))
  }

  /** A pointer is printed as what it leads to, and a nil pointer as "null"; anything else crashes. */
  lemma {:induction false} PointerText(t: Type, v: Value, u: Type, x: Value)
    requires HasEncoder(t) && HasType(v, t) && PointsTo(t, v, u, x)
    ensures HasType(x, u)
    ensures u.Basic? ==> Print(t, v) == Printed(PrintBasic(u.kind, x))
    ensures u.Ptr? && x.Nil? ==> Print(t, v) == Printed("null")
    ensures !u.Basic? && !u.Ptr? ==> Print(t, v).Crash?
    decreases t
  {
    if !(t == u && v == x) {
      if HasEncoder(t.elem) {
        PointerText(t.elem, v.target, u, x);
      } else {
        assert !PointsTo(t.elem, v.target, u, x) || (t.elem == u && v.target == x);
      }
    }
  }

  // ------------------------------------------------------------------------- one field

  /** The same field with another type and no options. */
  function Bare(f: Field, t: Type): Field {
    Field(Alias(f), "", t, f.anonymous)
  }

  /** A text added to the entry of a field. */
  function WithText(form: Form, f: Field, text: string): Encoded {
    Encoded(form[Alias(f) := (if Alias(f) in form then form[Alias(f)] else []) + [text]], {})
  }

  lemma IgnoredField(f: Field, v: Value, form: Form)
    requires HasType(v, f.typ) && Alias(f) == "-"
    ensures EncodeField(f, v, form) == Encoded(form, {})
  {}

  /**
   A pointer to a basic value is written like that value, and is never left out; a nil pointer is
   written as "null", unless it is left out.
   */
  lemma PointerField(f: Field, v: Value, form: Form)
    requires f.typ.Ptr? && f.typ.elem.Basic? && HasType(v, f.typ) && Alias(f) != "-"
    ensures v.PtrV? ==>
              && HasType(v.target, f.typ.elem)
              && EncodeField(f, v, form) == WithText(form, f, PrintBasic(f.typ.elem.kind, v.target))
              && EncodeField(f, v, form) == EncodeField(Bare(f, f.typ.elem), v.target, form)
    ensures v.Nil? && "omitempty" in Options(f) ==> EncodeField(f, v, form) == Encoded(form, {})
    ensures v.Nil? && "omitempty" !in Options(f) ==> EncodeField(f, v, form) == WithText(form, f, "null")
  {
    hide PrintBasic;
    assert Alias(Bare(f, f.typ.elem)) == Alias(f) && Options(Bare(f, f.typ.elem)) == [];
  }

  /** Basic values are added to their entry, unless they are zero and left out. */
  lemma BasicField(f: Field, v: Value, form: Form)
    requires f.typ.Basic? && HasType(v, f.typ) && Alias(f) != "-"
    ensures EncodeField(f, v, form) ==
            if "omitempty" in Options(f) && v == Zero(f.typ) then Encoded(form, {})
            else WithText(form, f, PrintBasic(f.typ.kind, v))
  {}

  /** A pointer to a struct is written like the struct; a nil one, unless it is left out, as "null". */
  lemma StructPointerField(f: Field, v: Value, form: Form)
    requires f.typ.Ptr? && f.typ.elem.Struct? && HasType(v, f.typ) && Alias(f) != "-"
    ensures v.PtrV? ==> EncodeField(f, v, form) == EncodeField(Bare(f, f.typ.elem), v.target, form)
    ensures v.Nil? && "omitempty" in Options(f) ==> EncodeField(f, v, form) == Encoded(form, {})
    ensures v.Nil? && "omitempty" !in Options(f) ==> EncodeField(f, v, form) == WithText(form, f, "null")
  {
    assert Alias(Bare(f, f.typ.elem)) == Alias(f);
    if v.PtrV? {
      assert HasType(v.target, f.typ.elem);
    }
  }

  /** The texts of the elements, in order. */
  predicate AreTexts(e: Type, vs: seq<Value>, texts: seq<string>)
    requires HasEncoder(e) && forall i :: 0 <= i < |vs| ==> HasType(vs[i], e)
  {
    |texts| == |vs| && forall i :: 0 <= i < |vs| ==> Print(e, vs[i]) == Printed(texts[i])
  }

  lemma {:induction false} AllTexts(e: Type, vs: seq<Value>)
    requires HasEncoder(e) && forall i :: 0 <= i < |vs| ==> HasType(vs[i], e)
    ensures PrintAll(e, vs).Some? <==> forall i :: 0 <= i < |vs| ==> Print(e, vs[i]).Printed?
    ensures PrintAll(e, vs).Some? ==> AreTexts(e, vs, PrintAll(e, vs).value)
  {
    hide Print;
    if vs != [] {
      AllTexts(e, vs[..|vs| - 1]);
      assert forall i :: 0 <= i < |vs| - 1 ==> vs[..|vs| - 1][i] == vs[i];
    }
  }

  /** A slice replaces its entry by the texts of its elements, unless it is empty and left out. */
  lemma SliceField(f: Field, v: Value, form: Form)
    requires f.typ.Slice? && HasEncoder(f.typ.elem) && HasType(v, f.typ) && Alias(f) != "-"
    ensures var vs, r := if v.Nil? then [] else v.elems, EncodeField(f, v, form);
            if vs == [] && "omitempty" in Options(f) then r == Encoded(form, {})
            else if exists i :: 0 <= i < |vs| && Print(f.typ.elem, vs[i]).Crash? then r.Crashed?
            else exists texts :: AreTexts(f.typ.elem, vs, texts) && r == Encoded(form[Alias(f) := texts], {})
  {
    hide Print;
    var vs := if v.Nil? then [] else v.elems;
    AllTexts(f.typ.elem, vs);
  }

  /** Types that the encoder reports: no encoding function, no struct, no slice of something with one. */
  predicate IsUnsupported(t: Type) {
    t.Unsupported? || (t.Slice? && !t.elem.Basic? && !t.elem.Ptr?)
  }

  lemma UnsupportedField(f: Field, v: Value, form: Form)
    requires HasType(v, f.typ) && Alias(f) != "-" && IsUnsupported(f.typ)
    ensures EncodeField(f, v, form) == Encoded(form, {f.typ})
  {}

  lemma FieldReports(f: Field, v: Value, form: Form)
    requires HasType(v, f.typ) && EncodeField(f, v, form).Encoded?
    ensures EncodeField(f, v, form).unsupported == if Alias(f) != "-" && IsUnsupported(f.typ) then {f.typ} else {}
  {
    hide Print, EncodeFields;
  }

  /** `encode` reports exactly the unsupported types of the fields that are declared in the struct itself. */
  lemma {:induction false} UnsupportedIff(fs: seq<Field>, vs: seq<Value>, n: nat, form: Form, t: Type)
    requires |fs| == |vs| && n <= |fs| && forall i :: 0 <= i < |fs| ==> HasType(vs[i], fs[i].typ)
    requires EncodeUpTo(fs, vs, n, form).Encoded?
    ensures t in EncodeUpTo(fs, vs, n, form).unsupported <==>
            IsUnsupported(t) && exists i :: 0 <= i < n && fs[i].typ == t && Alias(fs[i]) != "-"
    decreases n
  {
    hide EncodeField;
    if n > 0 {
      UnsupportedIff(fs, vs, n - 1, form, t);
      FieldReports(fs[n - 1], vs[n - 1], EncodeUpTo(fs, vs, n - 1, form).form);
    }
  }

  // ------------------------------------------------------------------------- nested structs

  /** The fields that get an entry, in order: those of nested structs stand where the struct is declared. */
  function Leaves(fs: seq<Field>, vs: seq<Value>, n: nat): (r: seq<(Field, Value)>)
    requires |fs| == |vs| && n <= |fs| && forall i :: 0 <= i < |fs| ==> HasType(vs[i], fs[i].typ)
    ensures forall i :: 0 <= i < |r| ==> HasType(r[i].1, r[i].0.typ)
    decreases FieldsSize(fs), 1, n
  {
    if n == 0 then []
    else
      FieldIsSmaller(fs, fs[n - 1]);
      Leaves(fs, vs, n - 1) + FieldLeaves(fs[n - 1], vs[n - 1])
  }

  function FieldLeaves(f: Field, v: Value): (r: seq<(Field, Value)>)
    requires HasType(v, f.typ)
    ensures forall i :: 0 <= i < |r| ==> HasType(r[i].1, r[i].0.typ)
    decreases TypeSize(f.typ), 0
  {
    if Alias(f) == "-" then []
    else if f.typ.Struct? then Leaves(f.typ.fields, v.fields, |f.typ.fields|)
    else if f.typ.Ptr? && f.typ.elem.Struct? && v.PtrV? then
      assert HasType(v.target, f.typ.elem);
      assert TypeSize(f.typ) == 1 + TypeSize(f.typ.elem);
      Leaves(f.typ.elem.fields, v.target.fields, |f.typ.elem.fields|)
    else [(f, v)]
  }

  /** Fields encoded one after the other. */
  function EncodeAll(items: seq<(Field, Value)>, form: Form): Encoded
    requires forall i :: 0 <= i < |items| ==> HasType(items[i].1, items[i].0.typ)
  {
    if items == [] then Encoded(form, {})
    else
      match EncodeAll(items[..|items| - 1], form)
      case Crashed => Crashed
      case Encoded(form', errs) =>
        var last := items[|items| - 1];
        match EncodeField(last.0, last.1, form')
        case Crashed => Crashed
        case Encoded(form'', more) => Encoded(form'', errs + more)
  }

  /** The forms are the same, or both crash. */
  predicate SameForm(a: Encoded, b: Encoded) {
    (a.Crashed? && b.Crashed?) || (a.Encoded? && b.Encoded? && a.form == b.form)
  }

  lemma {:induction false} EncodeAllConcat(a: seq<(Field, Value)>, b: seq<(Field, Value)>, form: Form)
    requires forall i :: 0 <= i < |a| ==> HasType(a[i].1, a[i].0.typ)
    requires forall i :: 0 <= i < |b| ==> HasType(b[i].1, b[i].0.typ)
    ensures forall i :: 0 <= i < |a + b| ==> HasType((a + b)[i].1, (a + b)[i].0.typ)
    ensures var front := EncodeAll(a, form);
            SameForm(EncodeAll(a + b, form), if front.Crashed? then Crashed else EncodeAll(b, front.form))
    decreases |b|
  {
    hide EncodeField, HasType;
    if b == [] {
      assert a + b == a;
    } else {
      var n := |b| - 1;
      EncodeAllConcat(a, b[..n], form);
      assert (a + b)[..|a| + n] == a + b[..n];
    }
  }

  lemma EncodeAllOne(f: Field, v: Value, form: Form)
    requires HasType(v, f.typ)
    ensures SameForm(EncodeAll([(f, v)], form), EncodeField(f, v, form))
  {
    hide EncodeField;
    assert [(f, v)][..0] == [];
    assert EncodeAll([(f, v)][..0], form) == Encoded(form, {});
  }

  /** Nested structs, by value or behind non-nil pointers, are written as if their fields were declared in place. */
  lemma {:induction false} NestedInPlace(fs: seq<Field>, vs: seq<Value>, n: nat, form: Form)
    requires |fs| == |vs| && n <= |fs| && forall i :: 0 <= i < |fs| ==> HasType(vs[i], fs[i].typ)
    ensures SameForm(EncodeUpTo(fs, vs, n, form), EncodeAll(Leaves(fs, vs, n), form))
    decreases FieldsSize(fs), 1, n
  {
    hide EncodeField, HasType, FieldLeaves;
    if n > 0 {
      FieldIsSmaller(fs, fs[n - 1]);
      NestedInPlace(fs, vs, n - 1, form);
      EncodeAllConcat(Leaves(fs, vs, n - 1), FieldLeaves(fs[n - 1], vs[n - 1]), form);
      var front := EncodeUpTo(fs, vs, n - 1, form);
      if front.Encoded? {
        FieldInPlace(fs[n - 1], vs[n - 1], front.form);
      }
    }
  }

  lemma {:induction false} FieldInPlace(f: Field, v: Value, form: Form)
    requires HasType(v, f.typ)
    ensures SameForm(EncodeField(f, v, form), EncodeAll(FieldLeaves(f, v), form))
    decreases TypeSize(f.typ), 0
  {
    hide Print, EncodeUpTo, Leaves;
    if Alias(f) == "-" {
      assert EncodeAll([], form) == Encoded(form, {});
    } else if f.typ.Struct? {
      NestedInPlace(f.typ.fields, v.fields, |f.typ.fields|, form);
    } else if f.typ.Ptr? && f.typ.elem.Struct? && v.PtrV? {
      assert HasType(v.target, f.typ.elem);
      assert TypeSize(f.typ) == 1 + TypeSize(f.typ.elem);
      NestedInPlace(f.typ.elem.fields, v.target.fields, |f.typ.elem.fields|, form);
    } else {
      EncodeAllOne(f, v, form);
    }
  }
}
