/**
 `extract_json_schema` as one thread runs it: the mutually recursive methods that fill the
 properties and the required list in loops and keep the shared cache up to date on the way.
 */
module SchemaExtractor {
  import opened Wrappers
  import opened Types
  import opened Schema
  import opened FifoCache
  import opened TypeSchemaCache

  lemma {:induction false} CompileFieldsStep(fields: seq<FieldDef>, i: nat)
    requires i < |fields|
    ensures CompileFields(fields[..i + 1]) == CompileFields(fields[..i]) +
              if Private(fields[i].name) then [] else [Property(fields[i].name, Compile(fields[i].ty))]
    decreases i
  {
    hide Compile, Private;
    if i == 0 {
      assert fields[..1] == [fields[0]] && [fields[0]][1..] == [];
    } else {
      assert fields[..i + 1][1..] == fields[1..][..i] && fields[..i][1..] == fields[1..][..i - 1];
      CompileFieldsStep(fields[1..], i - 1);
    }
  }

  lemma {:induction false} RequiredNamesStep(kind: Kind, fields: seq<FieldDef>, i: nat)
    requires i < |fields|
    ensures RequiredNames(kind, fields[..i + 1]) == RequiredNames(kind, fields[..i]) +
              if Listed(kind, fields[i]) then [fields[i].name] else []
    decreases i
  {
    hide Listed;
    if i == 0 {
      assert fields[..1] == [fields[0]] && [fields[0]][1..] == [];
    } else {
      assert fields[..i + 1][1..] == fields[1..][..i] && fields[..i][1..] == fields[1..][..i - 1];
      RequiredNamesStep(kind, fields[1..], i - 1);
    }
  }

  lemma {:induction false} CompileAltsStep(alts: seq<Ty>, i: nat)
    requires i < |alts|
    ensures CompileAlts(alts[..i + 1]) == CompileAlts(alts[..i]) + [Compile(alts[i])]
    decreases i
  {
    if i == 0 {
      assert alts[..1] == [alts[0]] && [alts[0]][1..] == [];
    } else {
      assert alts[..i + 1][1..] == alts[1..][..i] && alts[..i][1..] == alts[1..][..i - 1];
      CompileAltsStep(alts[1..], i - 1);
    }
  }

  class Extractor {
    var cache: seq<Cached<Ty, Schema>>
    ghost var inserted: seq<Ty>

    ghost predicate Valid()
      reads this
    {
      ContentsOk(Uncached(), MAX_TYPE_SCHEMA_CACHE_SIZE, cache, inserted)
    }

    constructor ()
      ensures Valid() && cache == []
    {
      cache, inserted := [], [];
    }

    method ExtractJsonSchema(ty: Ty) returns (schema: Schema)
      requires Valid()
      modifies this
      ensures Valid() && old(inserted) <= inserted
      ensures schema == Compile(ty)
      ensures !ty.UnionTy? && !ty.ListTy? && !ty.DictTy? && !ty.AnnotatedTy? ==> Cached(ty, schema) in cache
      decreases ty, 2
    {
      hide Compile, Put, Evict, Keys;
      if Cacheable(ty) {
        var hit := Get(cache, ty);
        if hit.Some? {
          assert Uncached()(ty) == Some(hit.value);
          return hit.value;
        }
      }
      schema := ExtractUncached(ty);
      if Cacheable(ty) {
        var present := Get(cache, ty);
        if present.None? {
          EvictKeeps(Uncached(), MAX_TYPE_SCHEMA_CACHE_SIZE, cache, inserted);
          cache := Evict(cache, MAX_TYPE_SCHEMA_CACHE_SIZE);
          PutKeeps(Uncached(), MAX_TYPE_SCHEMA_CACHE_SIZE, cache, inserted, ty, schema);
          cache, inserted := Put(cache, ty, schema), inserted + [ty];
        } else {
          assert Uncached()(ty) == Some(present.value);
        }
      }
    }

    method ExtractUncached(ty: Ty) returns (schema: Schema)
      requires Valid()
      modifies this
      ensures Valid() && old(inserted) <= inserted
      ensures schema == Compile(ty)
      decreases ty, 1
    {
      if !ty.RecordTy? {
        schema := PythonType(ty);
        return;
      }
      var properties: seq<Property> := [];
      var required: seq<string> := [];
      for i := 0 to |ty.fields|
        invariant Valid() && old(inserted) <= inserted
        invariant properties == CompileFields(ty.fields[..i])
        invariant required == RequiredNames(ty.kind, ty.fields[..i])
      {
        hide ContentsOk, CompileFields, RequiredNames, Listed;
        var f := ty.fields[i];
        CompileFieldsStep(ty.fields, i);
        RequiredNamesStep(ty.kind, ty.fields, i);
        if !Private(f.name) {
          var schema := PythonType(f.ty);
          properties := properties + [Property(f.name, schema)];
        }
        if Listed(ty.kind, f) {
          required := required + [f.name];
        }
      }
      assert ty.fields[..|ty.fields|] == ty.fields;
      schema := RecordSchema(properties, required);
    }

    method PythonType(ty: Ty) returns (schema: Schema)
      requires Valid()
      modifies this
      ensures Valid() && old(inserted) <= inserted
      ensures schema == Compile(ty)
      decreases ty, if ty.RecordTy? then 3 else 0
    {
      match ty
      case RecordTy(_, _, _) =>
        schema := ExtractJsonSchema(ty);
      case UnionTy(alts) =>
        var schemas: seq<Schema> := [];
        for i := 0 to |alts|
          invariant Valid() && old(inserted) <= inserted
          invariant schemas == CompileAlts(alts[..i])
        {
          hide ContentsOk, CompileAlts;
          CompileAltsStep(alts, i);
          var schema := PythonType(alts[i]);
          schemas := schemas + [schema];
        }
        assert alts[..|alts|] == alts;
        schema := ANYTHING.(anyOf := Alternatives(schemas));
      case ListTy(item) =>
        var items := PythonType(item);
        schema := OfType(TArray).(items := Some(items));
      case AnnotatedTy(inner) =>
        schema := PythonType(inner);
      case AnyTy => schema := ANYTHING;
      case StrTy => schema := OfType(TString);
      case IntTy => schema := OfType(TInteger);
      case FloatTy => schema := OfType(TNumber);
      case BoolTy => schema := OfType(TBoolean);
      case NoneTy => schema := OfType(TNull);
      case UuidTy => schema := OfType(TString);
      case EnumTy(members) => schema := OfType(TString).(enum := Some(members));
      case DictTy(_) => schema := OfType(TObject);
    }
  }
}
