/** `encode` as it runs: it adds to the form in place. */
module SchemaEncode {
  import opened Wrappers
  import opened SchemaTypes
  import opened SchemaCache
  import opened SchemaForms

  /** The `map[string][]string` that is filled. */
  class FormMap {
    var m: Form

    constructor (form: Form)
      ensures m == form
    {
      m := form;
    }
  }

  /** `encode`. A crash is the call of a missing encoding function. */
  method Encode(fs: seq<Field>, vs: seq<Value>, dst: FormMap) returns (crashed: bool, errors: set<Type>)
    requires |fs| == |vs| && forall i :: 0 <= i < |fs| ==> HasType(vs[i], fs[i].typ)
    modifies dst
    ensures match EncodeFields(fs, vs, old(dst.m))
            case Crashed => crashed
            case Encoded(form, unsupported) => !crashed && dst.m == form && errors == unsupported
    decreases FieldsSize(fs), 1
  {
    errors := {};
    for i := 0 to |fs|
      invariant EncodeUpTo(fs, vs, i, old(dst.m)) == Encoded(dst.m, errors)
    {
      FieldIsSmaller(fs, fs[i]);
      var more;
      crashed, more := EncodeOne(fs[i], vs[i], dst);
      if crashed {
        CrashStays(fs, vs, i + 1, |fs|, old(dst.m));
        return true, errors;
      }
      errors := errors + more;
    }
    return false, errors;
  }

  lemma {:induction false} CrashStays(fs: seq<Field>, vs: seq<Value>, m: nat, n: nat, form: Form)
    requires |fs| == |vs| && m <= n <= |fs| && forall i :: 0 <= i < |fs| ==> HasType(vs[i], fs[i].typ)
    requires EncodeUpTo(fs, vs, m, form).Crashed?
    ensures EncodeUpTo(fs, vs, n, form).Crashed?
    decreases n - m
  {
    if m < n {
      CrashStays(fs, vs, m + 1, n, form);
    }
  }

  /** One turn of the loop. */
  method EncodeOne(f: Field, v: Value, dst: FormMap) returns (crashed: bool, errors: set<Type>)
    requires HasType(v, f.typ)
    modifies dst
    ensures match EncodeField(f, v, old(dst.m))
            case Crashed => crashed
            case Encoded(form, unsupported) => !crashed && dst.m == form && errors == unsupported
    decreases TypeSize(f.typ), 0
  {
    hide HasType;
    crashed, errors := false, {};
    var name, opts := Alias(f), Options(f);
    if name == "-" {
      return;
    }
    if f.typ.Ptr? && f.typ.elem.Struct? && v.PtrV? {
      StructInside(f, v);
      var ignored;
      crashed, ignored := Encode(f.typ.elem.fields, v.target.fields, dst);
      return;
    }
    if HasEncoder(f.typ) {
      var value := Print(f.typ, v);
      if value.Crash? {
        return true, {};
      }
      if "omitempty" in opts && IsZero(f.typ, v) {
        return;
      }
      dst.m := dst.m[name := Entry(dst.m, name) + [value.text]];
      return;
    }
    if f.typ.Struct? {
      StructInside(f, v);
      var ignored;
      crashed, ignored := Encode(f.typ.fields, v.fields, dst);
      return;
    }
    if !f.typ.Slice? || !HasEncoder(f.typ.elem) {
      return false, {f.typ};
    }
    SliceInside(f, v);
    var elems := if v.Nil? then [] else v.elems;
    if |elems| == 0 && "omitempty" in opts {
      return;
    }
    ghost var before := dst.m;
    dst.m := dst.m[name := []];
    for j := 0 to |elems|
      invariant name in dst.m && dst.m == before[name := dst.m[name]]
      invariant PrintAll(f.typ.elem, elems[..j]) == Some(dst.m[name])
    {
      assert elems[..j + 1][..j] == elems[..j];
      var value := Print(f.typ.elem, elems[j]);
      if value.Crash? {
        CrashInside(f.typ.elem, elems, j + 1);
        return true, {};
      }
      dst.m := dst.m[name := dst.m[name] + [value.text]];
    }
    assert elems[..|elems|] == elems;
  }

  predicate FieldsFit(fs: seq<Field>, v: Value) {
    v.StructV? && |v.fields| == |fs| && forall i :: 0 <= i < |fs| ==> HasType(v.fields[i], fs[i].typ)
  }

  lemma StructInside(f: Field, v: Value)
    requires HasType(v, f.typ)
    ensures f.typ.Struct? ==> FieldsFit(f.typ.fields, v) && FieldsSize(f.typ.fields) < TypeSize(f.typ)
    ensures f.typ.Ptr? && f.typ.elem.Struct? && v.PtrV? ==>
      FieldsFit(f.typ.elem.fields, v.target) && FieldsSize(f.typ.elem.fields) < TypeSize(f.typ)
  {
    if f.typ.Ptr? && f.typ.elem.Struct? && v.PtrV? {
      assert HasType(v.target, f.typ.elem);
      assert TypeSize(f.typ) == 1 + TypeSize(f.typ.elem);
    }
  }

  lemma SliceInside(f: Field, v: Value)
    requires HasType(v, f.typ) && f.typ.Slice?
    ensures v.Nil? || (v.SliceV? && forall i :: 0 <= i < |v.elems| ==> HasType(v.elems[i], f.typ.elem))
  {}

  lemma {:induction false} CrashInside(t: Type, vs: seq<Value>, n: nat)
    requires HasEncoder(t) && n <= |vs| && forall i :: 0 <= i < |vs| ==> HasType(vs[i], t)
    requires PrintAll(t, vs[..n]).None?
    ensures PrintAll(t, vs).None?
    decreases |vs| - n
  {
    if n < |vs| {
      assert vs[..n + 1][..n] == vs[..n];
      CrashInside(t, vs, n + 1);
    } else {
      assert vs[..n] == vs;
    }
  }
}
