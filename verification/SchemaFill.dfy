/** `Decoder.Decode`: every key of the source, in some order, then the required fields. */
module SchemaFill {
  import opened Wrappers
  import opened SchemaTypes
  import opened SchemaTarget
  import opened SchemaOrder
  import opened SchemaRuns
  import opened SchemaEffects
  import SchemaCursor
  import SchemaDecode
  import SchemaPath
  import SchemaRequired
  import SchemaStore
  import Permutations

  datatype Report = NotAStruct | Errors(errors: map<string, Error>) | Panicked

  /** `MultiError.merge`: an error already there stays. */
  function MergeErrors(errors: map<string, Error>, more: map<string, Error>): map<string, Error> {
    more + errors
  }

  /** Everything a call of `Decode` reports: the keys' own errors, then those of required fields. */
  function AllErrors(t: Type, src: Source, cfg: Config): map<string, Error>
    requires t.Struct?
  {
    MergeErrors(KeyErrors(t, src, cfg), SchemaRequired.RequiredErrors(t, src))
  }

  /** The outcome of decoding with the keys in this order. */
  ghost predicate Decodes(t: Type, before: Value, src: Source, cfg: Config, order: seq<string>,
                          after: Value, report: Report)
    requires t.Struct? && HasType(before, t)
  {
    Visits(order, src) &&
    match Run(t, before, Effects(t, src, cfg, order))
    case Panic => report == Panicked
    case Done(w) => after == w && report == Errors(AllErrors(t, src, cfg))
  }

  lemma EffectsLast(t: Type, src: Source, cfg: Config, order: seq<string>, k: string)
    requires (forall j :: j in order ==> j in src) && k in src
    ensures forall j :: j in order + [k] ==> j in src
    ensures Effects(t, src, cfg, order + [k]) == Effects(t, src, cfg, order) + [EffectOf(t, k, src[k], cfg).effect]
  {}

  lemma {:induction false} PanicStays(t: Type, v: Value, es: seq<Effect>, more: seq<Effect>)
    requires HasType(v, t) && AllFit(t, es) && AllFit(t, more) && Run(t, v, es).Panic?
    ensures AllFit(t, es + more) && Run(t, v, es + more).Panic?
    decreases |more|
  {
    if more == [] {
      assert es + more == es;
    } else {
      RunLast(t, v, es, more[0]);
      assert es + more == (es + [more[0]]) + more[1..];
      PanicStays(t, v, es + [more[0]], more[1..]);
    }
  }

  /** The visited keys and, after them, all others. */
  lemma Complete(src: Source, visited: seq<string>) returns (rest: seq<string>)
    requires Permutations.Distinct(visited) && forall k :: k in visited ==> k in src
    ensures Visits(visited + rest, src) && forall k :: k in rest ==> k in src
  {
    rest := Permutations.Enumerate(src.Keys - set k | k in visited);
    assert forall k :: k in visited + rest <==> k in visited || k in rest;
    assert forall k :: k in rest ==> k !in visited;
    Permutations.DistinctConcat(visited, rest);
  }

  /** A panic on the way is a panic in some order of all keys. */
  lemma PanicOrder(t: Type, v: Value, src: Source, cfg: Config, visited: seq<string>) returns (order: seq<string>)
    requires HasType(v, t) && Permutations.Distinct(visited) && forall k :: k in visited ==> k in src
    requires Run(t, v, Effects(t, src, cfg, visited)).Panic?
    ensures Visits(order, src) && Run(t, v, Effects(t, src, cfg, order)).Panic?
  {
    hide HasType, Run, EffectOf, EffectFits, Permutations.Distinct;
    var rest := Complete(src, visited);
    order := visited + rest;
    PanicStays(t, v, Effects(t, src, cfg, visited), Effects(t, src, cfg, rest));
    assert Effects(t, src, cfg, order) == Effects(t, src, cfg, visited) + Effects(t, src, cfg, rest);
  }

  /** The errors of some of the keys. */
  function ErrorsOf(t: Type, src: Source, cfg: Config, keys: set<string>): map<string, Error>
    requires keys <= src.Keys
  {
    map k | k in keys && EffectOf(t, k, src[k], cfg).err.Some? :: EffectOf(t, k, src[k], cfg).err.value
  }

  lemma OneMoreError(t: Type, src: Source, cfg: Config, keys: set<string>, k: string)
    requires keys <= src.Keys && k in src && k !in keys
    ensures var err := EffectOf(t, k, src[k], cfg).err;
            ErrorsOf(t, src, cfg, keys + {k}) ==
            if err.Some? then ErrorsOf(t, src, cfg, keys)[k := err.value] else ErrorsOf(t, src, cfg, keys)
  {
    hide EffectOf;
  }

  class Decoder {
    const cache: SchemaStore.Cache
    var zeroEmpty: bool
    var ignoreUnknownKeys: bool

    constructor ()
      ensures cache.Valid() && fresh(cache) && !zeroEmpty && !ignoreUnknownKeys
    {
      cache := new SchemaStore.Cache();
      zeroEmpty, ignoreUnknownKeys := false, false;
    }

    function Settings(): Config
      reads this
    {
      Config(zeroEmpty, ignoreUnknownKeys)
    }

    /** One turn of the loop over the source: parses the key and decodes its values. */
    method DecodeKey(dst: SchemaDecode.Target, t: Type, path: string, values: seq<string>)
      returns (r: SchemaDecode.Result)
      requires cache.Valid() && HasType(dst.val, t)
      modifies dst, cache
      ensures cache.Valid()
      ensures var ke := EffectOf(t, path, values, Settings());
              match Apply(t, old(dst.val), ke.effect)
              case Panic => r == SchemaDecode.Panicked
              case Done(w) => r == SchemaDecode.Returned(ke.err) && dst.val == w
    {
      hide HasType, Apply, PartsEffect, SchemaPath.ParsePath;
      var parts := cache.ParsePath(path, t);
      if parts.Some? {
        WholeTree(dst.val);
        r := SchemaDecode.Decode(dst, [], t, parts.value, path, values, zeroEmpty);
      } else {
        UnknownKey(t, dst.val);
        r := SchemaDecode.Returned(if ignoreUnknownKeys then None else Some(UnknownKeyError(path)));
      }
    }

    /** `Decode`. Go does not say in which order `range` visits the keys; any order may happen. */
    method Decode(dst: SchemaDecode.Target, t: Type, src: Source) returns (report: Report)
      requires cache.Valid() && HasType(dst.val, t)
      modifies dst, cache
      ensures cache.Valid()
      ensures !t.Struct? ==> report == NotAStruct && dst.val == old(dst.val)
      ensures t.Struct? ==> exists order :: Decodes(t, old(dst.val), src, Settings(), order, dst.val, report)
    {
      hide HasType, EffectOf, Run, Apply, EffectFits, ErrorsOf, KeyErrors, Effects, SchemaRequired.RequiredErrors;
      if !t.Struct? {
        return NotAStruct;
      }
      ghost var v, cfg := dst.val, Settings();
      var errors: map<string, Error> := map[];
      var remaining := src.Keys;
      ghost var visited: seq<string> := [];
      RunNone(t, v, src, cfg);
      while remaining != {}
        invariant cache.Valid() && remaining <= src.Keys
        invariant Permutations.Distinct(visited)
        invariant forall k :: k in visited <==> k in src && k !in remaining
        invariant HasType(dst.val, t) && Run(t, v, Effects(t, src, cfg, visited)) == Done(dst.val)
        invariant errors == ErrorsOf(t, src, cfg, src.Keys - remaining)
        decreases |remaining|
      {
        var path :| path in remaining;
        OneMoreError(t, src, cfg, src.Keys - remaining, path);
        EffectsLast(t, src, cfg, visited, path);
        RunLast(t, v, Effects(t, src, cfg, visited), EffectOf(t, path, src[path], cfg).effect);
        var r := DecodeKey(dst, t, path, src[path]);
        visited := visited + [path];
        if r.Panicked? {
          ghost var order := PanicOrder(t, v, src, cfg, visited);
          assert Settings() == cfg;
          assert Decodes(t, v, src, cfg, order, dst.val, Panicked);
          return Panicked;
        }
        if r.err.Some? {
          errors := errors[path := r.err.value];
        }
        assert (src.Keys - remaining) + {path} == src.Keys - (remaining - {path});
        remaining := remaining - {path};
      }
      assert src.Keys - {} == src.Keys;
      AllKeyErrors(t, src, cfg);
      report := Errors(MergeErrors(errors, SchemaRequired.RequiredErrors(t, src)));
      assert Settings() == cfg;
      assert Decodes(t, v, src, cfg, visited, dst.val, report);
    }
  }

  lemma WholeTree(v: Value)
    ensures SchemaCursor.Valid(v, []) && SchemaCursor.At(v, []) == v
    ensures forall x :: SchemaCursor.SetAt(v, [], x) == x
  {}

  lemma UnknownKey(t: Type, v: Value)
    requires HasType(v, t)
    ensures Apply(t, v, Unknown) == Done(v)
  {}

  lemma RunNone(t: Type, v: Value, src: Source, cfg: Config)
    requires HasType(v, t)
    ensures Effects(t, src, cfg, []) == [] && Run(t, v, []) == Done(v)
    ensures ErrorsOf(t, src, cfg, src.Keys - src.Keys) == map[]
  {}

  lemma AllKeyErrors(t: Type, src: Source, cfg: Config)
    ensures ErrorsOf(t, src, cfg, src.Keys) == KeyErrors(t, src, cfg)
  {
    hide EffectOf;
  }

  /**
   What a call that does not panic reports: one error per key, its own if it has one, and else
   that of a required field. A key is unknown if and only if it is not parsed and unknown keys are
   not ignored; every other error is of a key that is parsed, or of a required field.
   */
  lemma ReportSays(t: Type, before: Value, src: Source, cfg: Config, order: seq<string>, after: Value, report: Report,
                   key: string)
    requires t.Struct? && HasType(before, t) && Decodes(t, before, src, cfg, order, after, report) && report.Errors?
    ensures var unknown := key in src && SchemaPath.ParsePath(key, t).None?;
            && (key in report.errors && report.errors[key].UnknownKeyError? <==> unknown && !cfg.ignoreUnknownKeys)
            && (unknown && !cfg.ignoreUnknownKeys ==> report.errors[key] == UnknownKeyError(key))
            && (key in src && !unknown && EffectOf(t, key, src[key], cfg).err.Some? ==>
                  key in report.errors && Some(report.errors[key]) == EffectOf(t, key, src[key], cfg).err)
            && (key in report.errors && report.errors[key].EmptyFieldError? ==>
                  key in SchemaRequired.RequiredErrors(t, src) && report.errors[key] == EmptyFieldError(key))
            && (key in SchemaRequired.RequiredErrors(t, src) ==> key in report.errors)
            && (key in report.errors && key !in src ==> key in SchemaRequired.RequiredErrors(t, src))
  {
    hide HasType, Run, SchemaPath.ParsePath, SchemaRequired.FindRequired, SchemaRequired.IsEmptyFields;
    if key in src {
      OwnError(t, key, src[key], cfg);
    }
  }

  /** No key by itself reports an empty field, and only one that is not parsed is unknown. */
  lemma OwnError(t: Type, key: string, values: seq<string>, cfg: Config)
    ensures var err := EffectOf(t, key, values, cfg).err;
            && (err.Some? ==> !err.value.EmptyFieldError?)
            && (err.Some? && err.value.UnknownKeyError? <==>
                  SchemaPath.ParsePath(key, t).None? && !cfg.ignoreUnknownKeys)
            && (SchemaPath.ParsePath(key, t).None? ==>
                  err == if cfg.ignoreUnknownKeys then None else Some(UnknownKeyError(key)))
  {
    hide SchemaPath.ParsePath, SchemaPath.Locate, Convert, Converts, FlatItems;
  }

  /**
   What `Decode` does, when the keys agree pairwise or one panics, is decided by the target, the
   source and the settings: any two calls end alike.
   */
  lemma DecodeIsDetermined(t: Type, before: Value, src: Source, cfg: Config,
                           a: seq<string>, after: Value, report: Report,
                           b: seq<string>, after': Value, report': Report)
    requires t.Struct? && HasType(before, t) && KeysSafe(t, src, cfg)
    requires Compatible(t, src, cfg) || SomeKeyPanics(t, src, cfg)
    requires Decodes(t, before, src, cfg, a, after, report)
    requires Decodes(t, before, src, cfg, b, after', report')
    ensures report == report' && (report.Errors? ==> after == after')
  {
    DecodeIgnoresOrder(t, before, src, cfg);
  }
}
