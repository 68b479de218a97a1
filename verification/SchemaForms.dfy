/** The encoder, as a function of the form it adds to. */
module SchemaForms {
  import opened Wrappers
  import opened SchemaTypes
  import opened SchemaCache
  import Converter

  type Form = map<string, seq<string>>

  /** What an encoding function makes of a value. `Crash` is the call of a missing function. */
  datatype Printed = Printed(text: string) | Crash

  function PrintBasic(k: Kind, v: Value): string
    requires HasBasicType(v, k)
  {
    match k
    case BoolKind => Converter.FormatBool(v.b)
    case StringKind => v.s
    case IntKind(_) => Converter.FormatInt(v.i)
    case UintKind(_) => Converter.FormatUint(v.i)
  }

  /** `typeEncoder` finds a function; for a pointer it does so whatever it points to. */
  predicate HasEncoder(t: Type) {
    t.Basic? || t.Ptr?
  }

  function Print(t: Type, v: Value): Printed
    requires HasEncoder(t) && HasType(v, t)
    decreases t
  {
    match t
    case Basic(k) => Printed(PrintBasic(k, v))
    case Ptr(e) => if v.Nil? then Printed("null") else if HasEncoder(e) then Print(e, v.target) else Crash
  }

  /** `isZero`, for the values that have an encoding function. */
  predicate IsZero(t: Type, v: Value)
    requires HasEncoder(t) && HasType(v, t)
  {
    v == Zero(t)
  }

  function Entry(form: Form, name: string): seq<string> {
    if name in form then form[name] else []
  }

  /** The texts of the elements of a slice. */
  function PrintAll(t: Type, vs: seq<Value>): Option<seq<string>>
    requires HasEncoder(t) && forall i :: 0 <= i < |vs| ==> HasType(vs[i], t)
  {
    if vs == [] then Some([])
    else match (PrintAll(t, vs[..|vs| - 1]), Print(t, vs[|vs| - 1]))
      case (Some(front), Printed(text)) => Some(front + [text])
      case _ => None
  }

  /** `encode` returns an error for types without encoding function, but goes on. */
  datatype Encoded = Encoded(form: Form, unsupported: set<Type>) | Crashed

  /** One turn of the loop of `encode`. */
  function EncodeField(f: Field, v: Value, form: Form): Encoded
    requires HasType(v, f.typ)
    decreases TypeSize(f.typ), 0
  {
    var name := Alias(f);
    var omit := "omitempty" in Options(f);
    if name == "-" then Encoded(form, {})
    else if f.typ.Ptr? && f.typ.elem.Struct? && v.PtrV? then
      assert HasType(v.target, f.typ.elem);
      assert TypeSize(f.typ) == 1 + TypeSize(f.typ.elem);
      match EncodeFields(f.typ.elem.fields, v.target.fields, form)
      case Crashed => Crashed
      case Encoded(form', _) => Encoded(form', {})
    else if HasEncoder(f.typ) then
      match Print(f.typ, v)
      case Crash => Crashed
      case Printed(text) =>
        if omit && IsZero(f.typ, v) then Encoded(form, {})
        else Encoded(form[name := Entry(form, name) + [text]], {})
    else if f.typ.Struct? then
      match EncodeFields(f.typ.fields, v.fields, form)
      case Crashed => Crashed
      case Encoded(form', _) => Encoded(form', {})
    else if !f.typ.Slice? || !HasEncoder(f.typ.elem) then Encoded(form, {f.typ})
    else
      var elems := if v.Nil? then [] else v.elems;
      if elems == [] && omit then Encoded(form, {})
      else match PrintAll(f.typ.elem, elems)
        case None => Crashed
        case Some(texts) => Encoded(form[name := texts], {})
  }

  /** The loop of `encode`, up to some field. */
  function EncodeUpTo(fs: seq<Field>, vs: seq<Value>, n: nat, form: Form): Encoded
    requires |fs| == |vs| && n <= |fs| && forall i :: 0 <= i < |fs| ==> HasType(vs[i], fs[i].typ)
    decreases FieldsSize(fs), 1, n
  {
    if n == 0 then Encoded(form, {})
    else
      FieldIsSmaller(fs, fs[n - 1]);
      match EncodeUpTo(fs, vs, n - 1, form)
      case Crashed => Crashed
      case Encoded(form', errs) =>
        match EncodeField(fs[n - 1], vs[n - 1], form')
        case Crashed => Crashed
        case Encoded(form'', more) => Encoded(form'', errs + more)
  }

  /** `encode`: all fields. */
  function EncodeFields(fs: seq<Field>, vs: seq<Value>, form: Form): Encoded
    requires |fs| == |vs| && forall i :: 0 <= i < |fs| ==> HasType(vs[i], fs[i].typ)
    decreases FieldsSize(fs), 2
  {
    EncodeUpTo(fs, vs, |fs|, form)
  }
}
