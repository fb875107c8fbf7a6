/**
 The JSON Schema keywords the compiler emits, with the meaning JSON Schema Validation draft-07
 gives them, and the compiler from types to schemas.
 */
module Schema {
  import opened Wrappers
  import opened Json
  import opened Types

  datatype TypeName = TString | TInteger | TNumber | TBoolean | TNull | TArray | TObject

  datatype Schema = Schema(
    typ: Option<TypeName>,
    enum: Option<seq<string>>,
    items: Option<Schema>,
    properties: Properties,
    required: Option<seq<string>>,
    closed: bool,
    anyOf: Alternatives)

  datatype Properties = NoProperties | Properties(list: seq<Property>)
  datatype Alternatives = NoAlternatives | Alternatives(list: seq<Schema>)

  datatype Property = Property(name: string, schema: Schema)

  // ----- validation

  // Section 6.1.1: an integral float is an integer, and a bool is not a number.
  predicate HasType(t: TypeName, j: Json) {
    match t
    case TString => j.Str?
    case TInteger => j.Int? || Integral(j)
    case TNumber => j.Int? || j.Real?
    case TBoolean => j.Bool?
    case TNull => j.Null?
    case TArray => j.Arr?
    case TObject => j.Obj?
  }

  predicate HasKey(fields: seq<Field>, key: string) {
    exists f | f in fields :: f.key == key
  }

  // Each keyword constrains only the instances it applies to: sections 6.1.1, 6.1.2, 6.4.1, 6.5.4,
  // 6.5.3, 6.5.6 and 6.7.2, in this order.
  predicate Accepts(s: Schema, j: Json)
    decreases s
  {
    && (s.typ.Some? ==> HasType(s.typ.value, j))
    && (s.enum.Some? ==> j.Str? && j.s in s.enum.value)
    && (s.items.Some? && j.Arr? ==> forall x | x in j.items :: Accepts(s.items.value, x))
    && (s.properties.Properties? && j.Obj? ==>
          forall p | p in s.properties.list :: forall f | f in j.fields :: f.key == p.name ==> Accepts(p.schema, f.value))
    && (s.required.Some? && j.Obj? ==> forall k | k in s.required.value :: HasKey(j.fields, k))
    && (s.closed && s.properties.Properties? && j.Obj? ==>
          forall f | f in j.fields :: exists p | p in s.properties.list :: p.name == f.key)
    && (s.anyOf.Alternatives? ==> exists a | a in s.anyOf.list :: Accepts(a, j))
  }

  // ----- the compiler

  const ANYTHING := Schema(None, None, None, NoProperties, None, false, NoAlternatives)

  function OfType(t: TypeName): Schema {
    ANYTHING.(typ := Some(t))
  }

  // Does the type, without its annotations, put None into an enclosing union?
  predicate HintsNone(ty: Ty) {
    match ty
    case NoneTy => true
    case AnnotatedTy(inner) => HintsNone(inner)
    case UnionTy(alts) => exists a | a in alts :: HintsNone(a)
    case _ => false
  }

  function Peel(ty: Ty): Ty {
    if ty.AnnotatedTy? then Peel(ty.inner) else ty
  }

  // For a dataclass the type hints are resolved first, which removes annotations.
  predicate IsOptional(kind: Kind, ty: Ty) {
    match kind
    case Struct => ty.UnionTy? && NoneTy in ty.alts
    case Dataclass => Peel(ty).UnionTy? && HintsNone(Peel(ty))
  }

  // Is the field put into `required`?  A default factory counts as a default for dataclasses only.
  predicate Listed(kind: Kind, f: FieldDef) {
    && !Private(f.name)
    && (f.default.Required? || (kind.Struct? && f.default.IsFactory()))
    && !IsOptional(kind, f.ty)
  }

  function Compile(ty: Ty): Schema
    decreases ty, 1
  {
    match ty
    case AnyTy => ANYTHING
    case StrTy => OfType(TString)
    case IntTy => OfType(TInteger)
    case FloatTy => OfType(TNumber)
    case BoolTy => OfType(TBoolean)
    case NoneTy => OfType(TNull)
    case UuidTy => OfType(TString)
    case EnumTy(members) => OfType(TString).(enum := Some(members))
    case UnionTy(alts) => ANYTHING.(anyOf := Alternatives(CompileAlts(alts)))
    case ListTy(item) => OfType(TArray).(items := Some(Compile(item)))
    case DictTy(_) => OfType(TObject)
    case AnnotatedTy(inner) => Compile(inner)
    case RecordTy(kind, _, fields) => RecordSchema(CompileFields(fields), RequiredNames(kind, fields))
  }

  function RecordSchema(properties: seq<Property>, required: seq<string>): Schema {
    OfType(TObject).(properties := Properties(properties), required := Some(required), closed := true)
  }

  function CompileAlts(alts: seq<Ty>): (r: seq<Schema>)
    ensures |r| == |alts|
    decreases alts, 0
  {
    if alts == [] then [] else [Compile(alts[0])] + CompileAlts(alts[1..])
  }

  function CompileFields(fields: seq<FieldDef>): seq<Property>
    decreases fields, 0
  {
    if fields == [] then []
    else (if Private(fields[0].name) then [] else [Property(fields[0].name, Compile(fields[0].ty))]) +
         CompileFields(fields[1..])
  }

  function RequiredNames(kind: Kind, fields: seq<FieldDef>): seq<string> {
    if fields == [] then []
    else (if Listed(kind, fields[0]) then [fields[0].name] else []) + RequiredNames(kind, fields[1..])
  }

  // ----- what the compiled schemas accept

  lemma PlainSchema(t: Option<TypeName>, enum: Option<seq<string>>, j: Json)
    ensures Accepts(ANYTHING.(typ := t, enum := enum), j) <==>
            (t.Some? ==> HasType(t.value, j)) && (enum.Some? ==> j.Str? && j.s in enum.value)
  {
    hide HasType;
  }

  // The types that are neither records nor composed of others.
  lemma ScalarAccepts(members: seq<string>, j: Json)
    ensures Accepts(Compile(StrTy), j) <==> j.Str?
    ensures Accepts(Compile(IntTy), j) <==> j.Int? || (j.Real? && j.f.frac == "")
    ensures Accepts(Compile(FloatTy), j) <==> j.Int? || j.Real?
    ensures Accepts(Compile(BoolTy), j) <==> j.Bool?
    ensures Accepts(Compile(NoneTy), j) <==> j.Null?
    ensures Accepts(Compile(EnumTy(members)), j) <==> j.Str? && j.s in members
  {
    hide Accepts;
    PlainSchema(Some(TString), None, j);
    PlainSchema(Some(TString), Some(members), j);
    PlainSchema(Some(TInteger), None, j);
    PlainSchema(Some(TNumber), None, j);
    PlainSchema(Some(TBoolean), None, j);
    PlainSchema(Some(TNull), None, j);
  }

  lemma LooseAccepts(value: Ty, j: Json)
    ensures Accepts(Compile(AnyTy), j)
    ensures Accepts(Compile(UuidTy), j) <==> j.Str?
    ensures Accepts(Compile(DictTy(value)), j) <==> j.Obj?
  {
    hide Accepts;
    PlainSchema(None, None, j);
    PlainSchema(Some(TString), None, j);
    PlainSchema(Some(TObject), None, j);
  }

  // Peeling removes annotations and nothing else.
  lemma {:induction false} PeelMeaning(ty: Ty)
    ensures !Peel(ty).AnnotatedTy?
    ensures ty.AnnotatedTy? ==> Peel(ty) == Peel(ty.inner)
    ensures !ty.AnnotatedTy? ==> Peel(ty) == ty
    ensures forall v :: Inhabits(v, Peel(ty)) <==> Inhabits(v, ty)
    decreases ty
  {
    if ty.AnnotatedTy? {
      PeelMeaning(ty.inner);
    }
  }

  // No alternative of the type, through annotations and nested unions, is Any.
  ghost predicate NoAny(ty: Ty)
    decreases ty
  {
    match ty
    case AnyTy => false
    case AnnotatedTy(inner) => NoAny(inner)
    case UnionTy(alts) => forall a | a in alts :: NoAny(a)
    case _ => true
  }

  // The hints find every None that a value can be, but for the None that Any stands for.
  lemma {:induction false} HintsNoneMeaning(ty: Ty)
    ensures HintsNone(ty) ==> Inhabits(VNone, ty)
    ensures Inhabits(VNone, ty) && NoAny(ty) ==> HintsNone(ty)
    decreases ty
  {
    match ty
    case AnnotatedTy(inner) => HintsNoneMeaning(inner);
    case UnionTy(alts) =>
      forall a | a in alts
        ensures HintsNone(a) ==> Inhabits(VNone, a)
        ensures Inhabits(VNone, a) && NoAny(a) ==> HintsNone(a)
      {
        HintsNoneMeaning(a);
      }
    case _ =>
  }

  // A union that names None is optional in a Struct, and so is in a dataclass any union that may be
  // None, unless that comes from Any.  Nothing optional excludes None.
  lemma OptionalMeaning(ty: Ty)
    ensures IsOptional(Struct, ty) <==> ty.UnionTy? && NoneTy in ty.alts
    ensures IsOptional(Dataclass, ty) ==> Peel(ty).UnionTy?
    ensures Peel(ty).UnionTy? && Inhabits(VNone, ty) && NoAny(Peel(ty)) ==> IsOptional(Dataclass, ty)
    ensures IsOptional(Struct, ty) || IsOptional(Dataclass, ty) ==> Inhabits(VNone, ty)
  {
    PeelMeaning(ty);
    HintsNoneMeaning(Peel(ty));
    if ty.UnionTy? && NoneTy in ty.alts {
      assert Inhabits(VNone, NoneTy);
    }
  }

  // ----- members of the compiled lists

  lemma {:induction false} AltMember(alts: seq<Ty>, i: nat)
    requires i < |alts|
    ensures CompileAlts(alts)[i] == Compile(alts[i])
    decreases i
  {
    if i > 0 {
      AltMember(alts[1..], i - 1);
    }
  }

  lemma {:induction false} PropertyAppears(fields: seq<FieldDef>, i: nat)
    requires i < |fields| && !Private(fields[i].name)
    ensures Property(fields[i].name, Compile(fields[i].ty)) in CompileFields(fields)
    decreases i
  {
    if i > 0 {
      PropertyAppears(fields[1..], i - 1);
    }
  }

  lemma {:induction false} PropertyOrigin(fields: seq<FieldDef>, p: Property) returns (i: nat)
    requires p in CompileFields(fields)
    ensures i < |fields| && !Private(fields[i].name) && p == Property(fields[i].name, Compile(fields[i].ty))
  {
    if !Private(fields[0].name) && p == Property(fields[0].name, Compile(fields[0].ty)) {
      i := 0;
    } else {
      var k := PropertyOrigin(fields[1..], p);
      i := k + 1;
    }
  }

  lemma {:induction false} RequiredAppears(kind: Kind, fields: seq<FieldDef>, i: nat)
    requires i < |fields| && Listed(kind, fields[i])
    ensures fields[i].name in RequiredNames(kind, fields)
    decreases i
  {
    if i > 0 {
      RequiredAppears(kind, fields[1..], i - 1);
    }
  }

  lemma {:induction false} RequiredOrigin(kind: Kind, fields: seq<FieldDef>, name: string) returns (i: nat)
    requires name in RequiredNames(kind, fields)
    ensures i < |fields| && Listed(kind, fields[i]) && fields[i].name == name
  {
    if Listed(kind, fields[0]) && name == fields[0].name {
      i := 0;
    } else {
      var k := RequiredOrigin(kind, fields[1..], name);
      i := k + 1;
    }
  }
}
