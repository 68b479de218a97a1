/**
 Go types and values as the schema package sees them through `reflect`: finite type trees,
 and value trees typed by them.
 */
module SchemaTypes {
  import opened Wrappers
  import Converter

  datatype Width = Native | W8 | W16 | W32 | W64

  /** The basic kinds with a built-in converter, floats left out. */
  datatype Kind = BoolKind | IntKind(width: Width) | UintKind(width: Width) | StringKind

  datatype Type =
    | Basic(kind: Kind)
    | Ptr(elem: Type)
    | Slice(elem: Type)
    | Struct(fields: seq<Field>)
    | Unsupported

  /** A `reflect.StructField`: `tag` is the tag value under the configured tag name. */
  datatype Field = Field(name: string, tag: string, typ: Type, anonymous: bool)

  datatype Value =
    | BoolV(b: bool)
    | IntV(i: int)
    | StringV(s: string)
    | Nil
    | PtrV(target: Value)
    | SliceV(elems: seq<Value>)
    | StructV(fields: seq<Value>)
    | OpaqueV

  function Bits(w: Width): (n: nat)
    ensures n > 0
  {
    match w
    case W8 => 8
    case W16 => 16
    case W32 => 32
    case W64 => 64
    case Native => 64
  }

  predicate InRange(kind: Kind, i: int)
    requires kind.IntKind? || kind.UintKind?
  {
    if kind.IntKind? then
      0 - Converter.Pow2(Bits(kind.width) - 1) <= i < Converter.Pow2(Bits(kind.width) - 1)
    else
      0 <= i < Converter.Pow2(Bits(kind.width))
  }

  /** `indirectType`: drops one pointer. */
  function Base(t: Type): Type {
    if t.Ptr? then t.elem else t
  }

  function ZeroBasic(k: Kind): Value {
    match k
    case BoolKind => BoolV(false)
    case StringKind => StringV("")
    case _ => IntV(0)
  }

  /** `reflect.Zero`. */
  function Zero(t: Type): Value {
    match t
    case Basic(k) => ZeroBasic(k)
    case Struct(fs) => StructV(seq(|fs|, i requires 0 <= i < |fs| => Zero(fs[i].typ)))
    case Unsupported => OpaqueV
    case _ => Nil
  }

  predicate HasBasicType(v: Value, k: Kind) {
    match k
    case BoolKind => v.BoolV?
    case StringKind => v.StringV?
    case _ => v.IntV? && InRange(k, v.i)
  }

  predicate HasType(v: Value, t: Type)
    decreases t
  {
    match t
    case Basic(k) => HasBasicType(v, k)
    case Ptr(e) => v.Nil? || (v.PtrV? && HasType(v.target, e))
    case Slice(e) => v.Nil? || (v.SliceV? && forall i :: 0 <= i < |v.elems| ==> HasType(v.elems[i], e))
    case Struct(fs) =>
      v.StructV? && |v.fields| == |fs| &&
      forall i :: 0 <= i < |fs| ==> HasType(v.fields[i], fs[i].typ)
    case Unsupported => v.OpaqueV?
  }

  /** The zero values, kind by kind. */
  lemma ZeroValues(t: Type)
    ensures t == Basic(BoolKind) ==> Zero(t) == BoolV(false)
    ensures t == Basic(StringKind) ==> Zero(t) == StringV("")
    ensures t.Basic? && (t.kind.IntKind? || t.kind.UintKind?) ==> Zero(t) == IntV(0)
    ensures t.Ptr? || t.Slice? ==> Zero(t) == Nil
    ensures t.Struct? ==>
              Zero(t).StructV? && |Zero(t).fields| == |t.fields| &&
              forall i :: 0 <= i < |t.fields| ==> Zero(t).fields[i] == Zero(t.fields[i].typ)
  {}

  lemma {:induction false} ZeroHasType(t: Type)
    ensures HasType(Zero(t), t)
  {
    match t
    case Struct(fs) =>
      forall i | 0 <= i < |fs| ensures HasType(Zero(t).fields[i], fs[i].typ) {
        ZeroHasType(fs[i].typ);
      }
    case _ =>
  }

  /** An embedded struct, by value or through one pointer: its fields are promoted. */
  predicate Embedded(f: Field) {
    f.anonymous && Base(f.typ).Struct?
  }

  /** The ranges of the integer kinds. */
  lemma RangesInNumbers(i: int)
    ensures HasBasicType(IntV(i), IntKind(W8)) <==> -128 <= i <= 127
    ensures HasBasicType(IntV(i), UintKind(W8)) <==> 0 <= i <= 255
    ensures HasBasicType(IntV(i), IntKind(W16)) <==> -32768 <= i <= 32767
    ensures HasBasicType(IntV(i), UintKind(W16)) <==> 0 <= i <= 65535
    ensures HasBasicType(IntV(i), IntKind(W32)) <==> -2147483648 <= i <= 2147483647
    ensures HasBasicType(IntV(i), UintKind(W32)) <==> 0 <= i <= 4294967295
    ensures HasBasicType(IntV(i), IntKind(W64)) <==> -9223372036854775808 <= i <= 9223372036854775807
    ensures HasBasicType(IntV(i), UintKind(W64)) <==> 0 <= i <= 18446744073709551615
    ensures HasBasicType(IntV(i), IntKind(Native)) <==> HasBasicType(IntV(i), IntKind(W64))
    ensures HasBasicType(IntV(i), UintKind(Native)) <==> HasBasicType(IntV(i), UintKind(W64))
  {
    Converter.Pow2Numbers();
  }
}
