/**
 The compiled schema is sound for a type if it accepts the payload of every value.  This is false
 of the compiler in general; the exact condition is proved.
 */
module SchemaMeaning {
  import opened Wrappers
  import opened Json
  import opened Types
  import opened Schema

  // ----- soundness

  ghost predicate SoundFor(ty: Ty, inStruct: bool) {
    forall v | Inhabits(v, ty) :: Accepts(Compile(ty), Payload(v, inStruct, false))
  }

  // What a caller can check on one field: a private field must be one that is removed, and a
  // required field must neither take None nor be omitted when it holds its default.
  ghost predicate GoodField(kind: Kind, omits: bool, inStruct: bool, f: FieldDef) {
    && (Private(f.name) ==> kind.Dataclass? || !inStruct)
    && (!Private(f.name) && !IsOptional(kind, f.ty) && (f.default.Required? || (kind.Struct? && f.default.IsFactory())) ==>
          !Inhabits(VNone, f.ty) && !(omits && f.default.BuiltinFactory?))
  }

  ghost predicate Good(ty: Ty, inStruct: bool)
    decreases ty
  {
    match ty
    case UnionTy(alts) => forall a | a in alts :: Good(a, inStruct)
    case ListTy(item) => Good(item, inStruct)
    case AnnotatedTy(inner) => Good(inner, inStruct)
    case RecordTy(kind, omits, fields) =>
      && DistinctNames(fields)
      && (forall f: FieldDef | f in fields :: GoodField(kind, omits, inStruct, f))
      && (forall f: FieldDef | f in fields :: !Private(f.name) ==> Good(f.ty, inStruct || kind.Struct?))
    case _ => true
  }

  lemma NoMissingField(kind: Kind, omits: bool, fields: seq<FieldDef>, inStruct: bool, v: Val, i: nat)
    requires Inhabits(v, RecordTy(kind, omits, fields)) && i < |fields|
    requires Listed(kind, fields[i]) && GoodField(kind, omits, inStruct, fields[i])
    ensures HasKey(Payload(v, inStruct, false).fields, fields[i].name)
  {
    hide NormalFields, LowerSlots;
    var strips, below := kind.Dataclass? || !inStruct, inStruct || kind.Struct?;
    assert SlotFits(v.slots[i], fields[i]);
    SlotAppears(v.slots, strips, omits, below, false, i);
  }

  lemma RecordSound(kind: Kind, omits: bool, fields: seq<FieldDef>, inStruct: bool, v: Val)
    requires DistinctNames(fields) && Inhabits(v, RecordTy(kind, omits, fields))
    requires forall f: FieldDef | f in fields :: GoodField(kind, omits, inStruct, f)
    requires forall f: FieldDef | f in fields :: !Private(f.name) ==> SoundFor(f.ty, inStruct || kind.Struct?)
    ensures Accepts(Compile(RecordTy(kind, omits, fields)), Payload(v, inStruct, false))
  {
    hide Accepts, NormalFields, LowerSlots;
    var strips, below := kind.Dataclass? || !inStruct, inStruct || kind.Struct?;
    var props, names := CompileFields(fields), RequiredNames(kind, fields);
    var j := Payload(v, inStruct, false);
    assert j.fields == NormalFields(true, LowerSlots(v.slots, strips, omits, below, false));
    forall g | g in j.fields
      ensures exists p | p in props :: p.name == g.key
      ensures forall p | p in props :: g.key == p.name ==> Accepts(p.schema, g.value)
    {
      var i := FieldOrigin(v.slots, strips, omits, below, false, g);
      assert SlotFits(v.slots[i], fields[i]) && fields[i] in fields;
      PropertyAppears(fields, i);
      forall p | p in props && g.key == p.name
        ensures Accepts(p.schema, g.value)
      {
        var k := PropertyOrigin(fields, p);
        assert k == i;
      }
    }
    forall name | name in names
      ensures HasKey(j.fields, name)
    {
      var i := RequiredOrigin(kind, fields, name);
      assert fields[i] in fields;
      NoMissingField(kind, omits, fields, inStruct, v, i);
    }
    RecordAccepts(props, names, j);
  }

  // The keywords of a record schema, spelled out.
  lemma RecordAccepts(props: seq<Property>, names: seq<string>, j: Json)
    ensures Accepts(RecordSchema(props, names), j) <==>
            && j.Obj?
            && (forall p | p in props :: forall f | f in j.fields :: f.key == p.name ==> Accepts(p.schema, f.value))
            && (forall k | k in names :: HasKey(j.fields, k))
            && (forall f | f in j.fields :: exists p | p in props :: p.name == f.key)
  {
  }

  // ----- which fields may be absent

  function Dropped(fields: seq<Field>, key: string): seq<Field> {
    if fields == [] then []
    else (if fields[0].key == key then [] else [fields[0]]) + Dropped(fields[1..], key)
  }

  lemma {:induction false} DroppedMember(fields: seq<Field>, key: string, g: Field)
    ensures g in Dropped(fields, key) <==> g in fields && g.key != key
  {
    if fields != [] {
      DroppedMember(fields[1..], key, g);
      assert fields == [fields[0]] + fields[1..];
    }
  }

  // A visible field may be missing from an accepted object exactly when it is optional, has a plain
  // default, or is a dataclass field with a default factory.
  lemma AbsenceMeaning(kind: Kind, omits: bool, fields: seq<FieldDef>, i: nat, j: Json)
    requires DistinctNames(fields) && i < |fields| && !Private(fields[i].name)
    requires Accepts(Compile(RecordTy(kind, omits, fields)), j)
    ensures j.Obj?
    ensures Accepts(Compile(RecordTy(kind, omits, fields)), Obj(Dropped(j.fields, fields[i].name))) <==>
            || IsOptional(kind, fields[i].ty)
            || fields[i].default.HasDefault?
            || (kind.Dataclass? && (fields[i].default.HasFactory? || fields[i].default.BuiltinFactory?))
  {
    hide Accepts;
    var props, names := CompileFields(fields), RequiredNames(kind, fields);
    RecordAccepts(props, names, j);
    var name := fields[i].name;
    var less := Dropped(j.fields, name);
    RecordAccepts(props, names, Obj(less));
    hide Listed, CompileFields, RequiredNames, HasKey;
    forall g: Field
      ensures g in less <==> g in j.fields && g.key != name
    {
      DroppedMember(j.fields, name, g);
    }
    NamesDropped(kind, fields, i, j.fields);
    ListedMeaning(kind, fields[i]);
  }

  lemma ListedMeaning(kind: Kind, f: FieldDef)
    requires !Private(f.name)
    ensures Listed(kind, f) <==>
            !(IsOptional(kind, f.ty) || f.default.HasDefault? ||
              (kind.Dataclass? && (f.default.HasFactory? || f.default.BuiltinFactory?)))
  {
    hide IsOptional;
  }

  lemma NamesDropped(kind: Kind, fields: seq<FieldDef>, i: nat, js: seq<Field>)
    requires DistinctNames(fields) && i < |fields|
    requires forall k | k in RequiredNames(kind, fields) :: HasKey(js, k)
    ensures (forall k | k in RequiredNames(kind, fields) :: HasKey(Dropped(js, fields[i].name), k)) <==>
            !Listed(kind, fields[i])
  {
    hide Listed, IsOptional;
    var name, names := fields[i].name, RequiredNames(kind, fields);
    var less := Dropped(js, name);
    forall g: Field
      ensures g in less <==> g in js && g.key != name
    {
      DroppedMember(js, name, g);
    }
    if Listed(kind, fields[i]) {
      RequiredAppears(kind, fields, i);
      assert !HasKey(less, name);
    } else {
      forall k | k in names
        ensures HasKey(less, k)
      {
        var m := RequiredOrigin(kind, fields, k);
        var g: Field :| g in js && g.key == k;
        assert g in less;
      }
    }
  }

  // A visible field without a default whose type does not take None is in every accepted object.
  lemma RequiredIsPresent(kind: Kind, omits: bool, fields: seq<FieldDef>, i: nat, j: Json)
    requires i < |fields| && !Private(fields[i].name)
    requires fields[i].default.Required? && !Inhabits(VNone, fields[i].ty)
    requires Accepts(Compile(RecordTy(kind, omits, fields)), j)
    ensures j.Obj? && HasKey(j.fields, fields[i].name)
  {
    hide Accepts;
    RecordAccepts(CompileFields(fields), RequiredNames(kind, fields), j);
    OptionalMeaning(fields[i].ty);
    RequiredAppears(kind, fields, i);
  }

  lemma ListAccepts(item: Ty, j: Json)
    ensures Accepts(Compile(ListTy(item)), j) <==> j.Arr? && forall x | x in j.items :: Accepts(Compile(item), x)
  {
  }

  lemma UnionAccepts(alts: seq<Ty>, j: Json)
    ensures Accepts(Compile(UnionTy(alts)), j) <==> exists i | 0 <= i < |alts| :: Accepts(Compile(alts[i]), j)
  {
    var schemas := CompileAlts(alts);
    assert Accepts(Compile(UnionTy(alts)), j) <==> exists a | a in schemas :: Accepts(a, j);
    forall i | 0 <= i < |alts|
      ensures schemas[i] == Compile(alts[i]) && schemas[i] in schemas
    {
      AltMember(alts, i);
    }
  }

  lemma ListPayload(items: seq<Val>, inStruct: bool, lean: bool)
    ensures Payload(VList(items), inStruct, lean) == Arr(NormalItems(true, LowerItems(items, inStruct, lean)))
  {
  }

  lemma ListSound(item: Ty, inStruct: bool)
    requires SoundFor(item, inStruct)
    ensures SoundFor(ListTy(item), inStruct)
  {
    hide Accepts, Payload, Compile, NormalItems, LowerItems;
    forall v | Inhabits(v, ListTy(item))
      ensures Accepts(Compile(ListTy(item)), Payload(v, inStruct, false))
    {
      var items := NormalItems(true, LowerItems(v.items, inStruct, false));
      ListPayload(v.items, inStruct, false);
      ListAccepts(item, Arr(items));
      forall x | x in items
        ensures Accepts(Compile(item), x)
      {
        var i :| 0 <= i < |items| && x == items[i];
        LowerItemAt(v.items, inStruct, false, i);
        assert Inhabits(v.items[i], item);
      }
    }
  }

  lemma UnionSound(alts: seq<Ty>, inStruct: bool)
    requires forall a | a in alts :: SoundFor(a, inStruct)
    ensures SoundFor(UnionTy(alts), inStruct)
  {
    hide Payload, Accepts;
    forall v | Inhabits(v, UnionTy(alts))
      ensures Accepts(Compile(UnionTy(alts)), Payload(v, inStruct, false))
    {
      var i :| 0 <= i < |alts| && Inhabits(v, alts[i]);
      assert SoundFor(alts[i], inStruct);
      UnionAccepts(alts, Payload(v, inStruct, false));
    }
  }

  lemma ScalarSound(ty: Ty, inStruct: bool)
    requires !ty.UnionTy? && !ty.ListTy? && !ty.AnnotatedTy? && !ty.RecordTy?
    ensures SoundFor(ty, inStruct)
  {
    hide LowerItems, LowerSlots, LowerEntries, NormalFields, NormalItems;
  }

  lemma AnnotatedSoundIff(inner: Ty, inStruct: bool)
    ensures SoundFor(AnnotatedTy(inner), inStruct) <==> SoundFor(inner, inStruct)
  {
    hide Accepts, Payload;
  }

  // Main result on soundness.
  lemma {:induction false} CompileSound(ty: Ty, inStruct: bool)
    requires Good(ty, inStruct)
    ensures SoundFor(ty, inStruct)
    decreases ty
  {
    hide SoundFor;
    match ty
    case UnionTy(alts) =>
      forall a | a in alts
        ensures SoundFor(a, inStruct)
      {
        CompileSound(a, inStruct);
      }
      UnionSound(alts, inStruct);
    case ListTy(item) =>
      CompileSound(item, inStruct);
      ListSound(item, inStruct);
    case AnnotatedTy(inner) =>
      CompileSound(inner, inStruct);
      AnnotatedSoundIff(inner, inStruct);
    case RecordTy(kind, omits, fields) =>
      forall f: FieldDef | f in fields && !Private(f.name)
        ensures SoundFor(f.ty, inStruct || kind.Struct?)
      {
        CompileSound(f.ty, inStruct || kind.Struct?);
      }
      RecordFieldsSound(kind, omits, fields, inStruct);
    case _ => ScalarSound(ty, inStruct);
  }

  lemma RecordFieldsSound(kind: Kind, omits: bool, fields: seq<FieldDef>, inStruct: bool)
    requires DistinctNames(fields)
    requires forall f: FieldDef | f in fields :: GoodField(kind, omits, inStruct, f)
    requires forall f: FieldDef | f in fields :: !Private(f.name) ==> SoundFor(f.ty, inStruct || kind.Struct?)
    ensures SoundFor(RecordTy(kind, omits, fields), inStruct)
  {
    hide Accepts, Payload, GoodField;
    forall v | Inhabits(v, RecordTy(kind, omits, fields))
      ensures Accepts(Compile(RecordTy(kind, omits, fields)), Payload(v, inStruct, false))
    {
      RecordSound(kind, omits, fields, inStruct, v);
    }
  }

  // ----- the condition is exact

  ghost predicate Populated(ty: Ty) {
    exists v :: Inhabits(v, ty)
  }

  // The field can hold something that is sent if its name does not prevent it.
  ghost predicate Sendable(omits: bool, f: FieldDef) {
    exists v :: Inhabits(v, f.ty) && v != VNone && !(omits && IsBlank(f, v))
  }

  // What every record class has: values for its fields, defaults of the right types, and distinct
  // names.  A private field that never has anything to send would not matter and is left aside.
  ghost predicate ProperFields(omits: bool, fields: seq<FieldDef>) {
    && DistinctNames(fields)
    && (forall f: FieldDef | f in fields :: Populated(f.ty))
    && (forall f: FieldDef | f in fields :: !f.default.Required? ==> Inhabits(f.default.Value(), f.ty))
    && (forall f: FieldDef | f in fields :: Private(f.name) ==> Sendable(omits, f))
  }

  lemma FilledFits(f: FieldDef, v: Val)
    requires Inhabits(v, f.ty)
    ensures SlotFits(Filled(f, v), f) && Marked(Filled(f, v), f)
  {
  }

  // Some record of these fields exists: one value for each field.
  lemma {:induction false} SampleSlots(fields: seq<FieldDef>) returns (slots: seq<Slot>)
    requires forall f: FieldDef | f in fields :: Populated(f.ty)
    ensures |slots| == |fields|
    ensures forall i | 0 <= i < |fields| :: SlotFits(slots[i], fields[i]) && Marked(slots[i], fields[i])
  {
    if fields == [] {
      slots := [];
    } else {
      hide Inhabits, SlotFits, Marked, Filled;
      assert fields[0] in fields;
      var v :| Inhabits(v, fields[0].ty);
      FilledFits(fields[0], v);
      var rest := SampleSlots(fields[1..]);
      slots := [Filled(fields[0], v)] + rest;
    }
  }

  // A record with the given slot in place i.
  lemma RecordWith(kind: Kind, omits: bool, fields: seq<FieldDef>, i: nat, s: Slot) returns (v: Val)
    requires i < |fields| && SlotFits(s, fields[i]) && Marked(s, fields[i])
    requires forall f: FieldDef | f in fields :: Populated(f.ty)
    ensures Inhabits(v, RecordTy(kind, omits, fields))
    ensures v.VRecord? && v.kind == kind && v.omits == omits && |v.slots| == |fields| && v.slots[i] == s
  {
    hide SlotFits, Marked;
    var slots := SampleSlots(fields);
    v := VRecord(kind, omits, slots[i := s]);
  }

  // A value for a bad field that will be rejected.
  lemma BadSlot(kind: Kind, omits: bool, inStruct: bool, f: FieldDef) returns (bad: Slot)
    requires !GoodField(kind, omits, inStruct, f)
    requires !f.default.Required? ==> Inhabits(f.default.Value(), f.ty)
    requires Private(f.name) ==> Sendable(omits, f)
    ensures SlotFits(bad, f) && Marked(bad, f)
    ensures var strips := kind.Dataclass? || !inStruct;
            if Private(f.name) then Shown(bad, strips, omits, false)
            else Listed(kind, f) && !Shown(bad, strips, omits, false)
  {
    if Private(f.name) {
      var w :| Inhabits(w, f.ty) && w != VNone && !(omits && IsBlank(f, w));
      bad := Filled(f, w);
    } else if Inhabits(VNone, f.ty) {
      bad := Filled(f, VNone);
    } else {
      bad := Defaulted(f);
    }
  }

  lemma BadSlotRejects(kind: Kind, omits: bool, fields: seq<FieldDef>, inStruct: bool, v: Val, i: nat)
    requires DistinctNames(fields) && i < |fields| && Inhabits(v, RecordTy(kind, omits, fields))
    requires var strips := kind.Dataclass? || !inStruct;
             if Private(fields[i].name) then Shown(v.slots[i], strips, omits, false)
             else Listed(kind, fields[i]) && !Shown(v.slots[i], strips, omits, false)
    ensures !Accepts(Compile(RecordTy(kind, omits, fields)), Payload(v, inStruct, false))
  {
    hide Accepts, NormalFields, LowerSlots;
    var strips, below := kind.Dataclass? || !inStruct, inStruct || kind.Struct?;
    var props, names := CompileFields(fields), RequiredNames(kind, fields);
    var j := Payload(v, inStruct, false);
    assert j.fields == NormalFields(true, LowerSlots(v.slots, strips, omits, below, false));
    assert SlotFits(v.slots[i], fields[i]);
    RecordAccepts(props, names, j);
    if Private(fields[i].name) {
      SlotAppears(v.slots, strips, omits, below, false, i);
      if p :| p in props && p.name == fields[i].name {
        var k := PropertyOrigin(fields, p);
      }
    } else {
      RequiredAppears(kind, fields, i);
      forall g | g in j.fields
        ensures g.key != fields[i].name
      {
        var k := FieldOrigin(v.slots, strips, omits, below, false, g);
        assert SlotFits(v.slots[k], fields[k]) && k != i;
      }
    }
  }

  // A field that violates the condition yields a value of the record whose payload is rejected.
  lemma BadFieldRejects(kind: Kind, omits: bool, fields: seq<FieldDef>, inStruct: bool, i: nat) returns (v: Val)
    requires ProperFields(omits, fields) && i < |fields| && !GoodField(kind, omits, inStruct, fields[i])
    ensures Inhabits(v, RecordTy(kind, omits, fields))
    ensures !Accepts(Compile(RecordTy(kind, omits, fields)), Payload(v, inStruct, false))
  {
    hide Accepts, Payload, Shown, GoodField, SlotFits, Marked, Inhabits;
    assert fields[i] in fields;
    var bad := BadSlot(kind, omits, inStruct, fields[i]);
    v := RecordWith(kind, omits, fields, i, bad);
    BadSlotRejects(kind, omits, fields, inStruct, v, i);
  }

  // Whatever is neither a record nor a list with something in it is accepted wherever it belongs.
  lemma {:induction false} PlainAccepted(ty: Ty, v: Val, inStruct: bool)
    requires Inhabits(v, ty) && !v.VRecord? && (v.VList? ==> v.items == [])
    ensures Accepts(Compile(ty), Payload(v, inStruct, false))
    decreases ty
  {
    match ty
    case UnionTy(alts) =>
      hide Payload, Accepts, Compile;
      var i :| 0 <= i < |alts| && Inhabits(v, alts[i]);
      PlainAccepted(alts[i], v, inStruct);
      UnionAccepts(alts, Payload(v, inStruct, false));
    case AnnotatedTy(inner) => PlainAccepted(inner, v, inStruct);
    case ListTy(item) => ListAccepts(item, Payload(v, inStruct, false));
    case _ => ScalarSound(ty, inStruct);
  }

  // What an accepted record sends in a visible field is accepted by the type of the field.
  lemma ShownIsAccepted(kind: Kind, omits: bool, fields: seq<FieldDef>, inStruct: bool, slots: seq<Slot>, i: nat)
    requires i < |fields| == |slots| && !Private(fields[i].name) && slots[i].name == fields[i].name
    requires Shown(slots[i], kind.Dataclass? || !inStruct, omits, false)
    requires Accepts(Compile(RecordTy(kind, omits, fields)), Payload(VRecord(kind, omits, slots), inStruct, false))
    ensures Accepts(Compile(fields[i].ty), Payload(slots[i].held, inStruct || kind.Struct?, false))
  {
    hide Accepts, NormalFields, LowerSlots;
    var strips, below := kind.Dataclass? || !inStruct, inStruct || kind.Struct?;
    var j := Payload(VRecord(kind, omits, slots), inStruct, false);
    SlotAppears(slots, strips, omits, below, false, i);
    PropertyAppears(fields, i);
    RecordAccepts(CompileFields(fields), RequiredNames(kind, fields), j);
  }

  // A value whose payload the type of a visible field rejects spoils the record.
  lemma BadValueRejects(kind: Kind, omits: bool, fields: seq<FieldDef>, inStruct: bool, i: nat, w: Val) returns (v: Val)
    requires ProperFields(omits, fields) && i < |fields| && !Private(fields[i].name)
    requires Inhabits(w, fields[i].ty) && !Accepts(Compile(fields[i].ty), Payload(w, inStruct || kind.Struct?, false))
    ensures Inhabits(v, RecordTy(kind, omits, fields))
    ensures !Accepts(Compile(RecordTy(kind, omits, fields)), Payload(v, inStruct, false))
  {
    hide Accepts, Payload, Inhabits, Compile;
    if w.VNone? || IsBlank(fields[i], w) {
      PlainAccepted(fields[i].ty, w, inStruct || kind.Struct?);
    }
    v := RecordWith(kind, omits, fields, i, Filled(fields[i], w));
    if Accepts(Compile(RecordTy(kind, omits, fields)), Payload(v, inStruct, false)) {
      ShownIsAccepted(kind, omits, fields, inStruct, v.slots, i);
    }
  }

  // Main result on records: the schema accepts every payload if and only if every field is good
  // and the types of the visible fields are compiled soundly themselves.
  lemma RecordSoundIff(kind: Kind, omits: bool, fields: seq<FieldDef>, inStruct: bool)
    requires ProperFields(omits, fields)
    ensures SoundFor(RecordTy(kind, omits, fields), inStruct) <==>
            && (forall f: FieldDef | f in fields :: GoodField(kind, omits, inStruct, f))
            && (forall f: FieldDef | f in fields :: !Private(f.name) ==> SoundFor(f.ty, inStruct || kind.Struct?))
  {
    hide Accepts, Payload, GoodField, Inhabits;
    if i :| 0 <= i < |fields| && !GoodField(kind, omits, inStruct, fields[i]) {
      assert fields[i] in fields;
      var v := BadFieldRejects(kind, omits, fields, inStruct, i);
    } else if i :| 0 <= i < |fields| && !Private(fields[i].name) && !SoundFor(fields[i].ty, inStruct || kind.Struct?) {
      assert fields[i] in fields;
      var w :| Inhabits(w, fields[i].ty) && !Accepts(Compile(fields[i].ty), Payload(w, inStruct || kind.Struct?, false));
      var v := BadValueRejects(kind, omits, fields, inStruct, i, w);
    } else {
      RecordFieldsSound(kind, omits, fields, inStruct);
    }
  }

  lemma Singleton(w: Val, item: Ty, inStruct: bool)
    requires Inhabits(w, item)
    ensures Inhabits(VList([w]), ListTy(item))
    ensures Payload(VList([w]), inStruct, false) == Arr([Payload(w, inStruct, false)])
  {
    LowerItemAt([w], inStruct, false, 0);
  }

  lemma BadItemRejects(item: Ty, inStruct: bool, w: Val)
    requires Inhabits(w, item) && !Accepts(Compile(item), Payload(w, inStruct, false))
    ensures Inhabits(VList([w]), ListTy(item))
    ensures !Accepts(Compile(ListTy(item)), Payload(VList([w]), inStruct, false))
  {
    hide Accepts, Payload, Compile, Inhabits;
    Singleton(w, item, inStruct);
    ListAccepts(item, Arr([Payload(w, inStruct, false)]));
  }

  // A list type fails with its item type.
  lemma ListSoundIff(item: Ty, inStruct: bool)
    ensures SoundFor(ListTy(item), inStruct) <==> SoundFor(item, inStruct)
  {
    hide Accepts, Payload, Compile, Inhabits;
    if w :| Inhabits(w, item) && !Accepts(Compile(item), Payload(w, inStruct, false)) {
      BadItemRejects(item, inStruct, w);
    } else {
      ListSound(item, inStruct);
    }
  }

  // Can a value of the type be sent as an array, or as an object?
  predicate SentAs(ty: Ty, isArray: bool)
    decreases ty
  {
    match ty
    case AnyTy => true
    case ListTy(_) => isArray
    case DictTy(_) => !isArray
    case RecordTy(_, _, _) => !isArray
    case UnionTy(alts) => exists a | a in alts :: SentAs(a, isArray)
    case AnnotatedTy(inner) => SentAs(inner, isArray)
    case _ => false
  }

  // Unions of which at most one alternative is sent as an array and at most one as an object, as
  // `X | None` always is; records are proper.
  ghost predicate Proper(ty: Ty)
    decreases ty
  {
    match ty
    case UnionTy(alts) =>
      && (forall a | a in alts :: Proper(a))
      && forall i, k, isArray | 0 <= i < |alts| && 0 <= k < |alts| && SentAs(alts[i], isArray) && SentAs(alts[k], isArray) :: i == k
    case ListTy(item) => Proper(item)
    case AnnotatedTy(inner) => Proper(inner)
    case RecordTy(_, omits, fields) =>
      ProperFields(omits, fields) && forall f: FieldDef | f in fields :: !Private(f.name) ==> Proper(f.ty)
    case _ => true
  }

  lemma {:induction false} ValueIsSentAs(ty: Ty, v: Val)
    requires Inhabits(v, ty) && (v.VList? || v.VRecord?)
    ensures SentAs(ty, v.VList?)
    decreases ty
  {
    match ty
    case UnionTy(alts) =>
      var a :| a in alts && Inhabits(v, a);
      ValueIsSentAs(a, v);
    case AnnotatedTy(inner) => ValueIsSentAs(inner, v);
    case _ =>
  }

  lemma PayloadShape(v: Val, inStruct: bool)
    ensures Payload(v, inStruct, false).Arr? <==> v.VList?
    ensures v.VRecord? ==> Payload(v, inStruct, false).Obj?
  {
  }

  lemma {:induction false} AcceptedIsSentAs(ty: Ty, j: Json)
    requires Accepts(Compile(ty), j) && (j.Arr? || j.Obj?)
    ensures SentAs(ty, j.Arr?)
    decreases ty
  {
    match ty
    case UnionTy(alts) =>
      hide Accepts, Compile;
      UnionAccepts(alts, j);
      var i :| 0 <= i < |alts| && Accepts(Compile(alts[i]), j);
      AcceptedIsSentAs(alts[i], j);
    case AnnotatedTy(inner) => AcceptedIsSentAs(inner, j);
    case _ =>
  }

  // What one alternative rejects of its own, no other one accepts.
  lemma BadAlternativeRejects(alts: seq<Ty>, inStruct: bool, i: nat, w: Val)
    requires Proper(UnionTy(alts)) && i < |alts| && Inhabits(w, alts[i])
    requires !Accepts(Compile(alts[i]), Payload(w, inStruct, false))
    ensures !Accepts(Compile(UnionTy(alts)), Payload(w, inStruct, false))
  {
    hide Accepts, Compile, Payload, SentAs, Inhabits;
    var j := Payload(w, inStruct, false);
    if !w.VRecord? && (w.VList? ==> w.items == []) {
      PlainAccepted(alts[i], w, inStruct);
    }
    ValueIsSentAs(alts[i], w);
    PayloadShape(w, inStruct);
    UnionAccepts(alts, j);
    if k :| 0 <= k < |alts| && Accepts(Compile(alts[k]), j) {
      AcceptedIsSentAs(alts[k], j);
    }
  }

  // A union fails with any of its alternatives.
  lemma UnionSoundIff(alts: seq<Ty>, inStruct: bool)
    requires Proper(UnionTy(alts))
    ensures SoundFor(UnionTy(alts), inStruct) <==> forall a | a in alts :: SoundFor(a, inStruct)
  {
    hide Accepts, Compile, Payload, Proper;
    if i :| 0 <= i < |alts| && !SoundFor(alts[i], inStruct) {
      var w :| Inhabits(w, alts[i]) && !Accepts(Compile(alts[i]), Payload(w, inStruct, false));
      BadAlternativeRejects(alts, inStruct, i, w);
      assert alts[i] in alts && Inhabits(w, UnionTy(alts));
    } else {
      UnionSound(alts, inStruct);
    }
  }

  // Main result on soundness: the schema of a type accepts every payload if and only if no record
  // inside it has a bad field.
  lemma {:induction false} CompileSoundIff(ty: Ty, inStruct: bool)
    requires Proper(ty)
    ensures SoundFor(ty, inStruct) <==> Good(ty, inStruct)
    decreases ty
  {
    hide SoundFor, GoodField, ProperFields;
    match ty
    case UnionTy(alts) =>
      forall a | a in alts
        ensures SoundFor(a, inStruct) <==> Good(a, inStruct)
      {
        CompileSoundIff(a, inStruct);
      }
      UnionSoundIff(alts, inStruct);
    case ListTy(item) =>
      CompileSoundIff(item, inStruct);
      ListSoundIff(item, inStruct);
    case AnnotatedTy(inner) =>
      CompileSoundIff(inner, inStruct);
      AnnotatedSoundIff(inner, inStruct);
    case RecordTy(kind, omits, fields) =>
      forall f: FieldDef | f in fields && !Private(f.name)
        ensures SoundFor(f.ty, inStruct || kind.Struct?) <==> Good(f.ty, inStruct || kind.Struct?)
      {
        CompileSoundIff(f.ty, inStruct || kind.Struct?);
      }
      RecordSoundIff(kind, omits, fields, inStruct);
      assert DistinctNames(fields) by {
        ProperNames(omits, fields);
      }
    case _ => ScalarSound(ty, inStruct);
  }

  lemma ProperNames(omits: bool, fields: seq<FieldDef>)
    requires ProperFields(omits, fields)
    ensures DistinctNames(fields)
  {
  }

  // An annotated optional field of a Struct shows that the condition is needed: the annotation
  // hides the None, the field is required, and to_dict drops it.
  lemma AnnotatedOptionalFails()
    ensures !SoundFor(RecordTy(Struct, false, [FieldDef("x", AnnotatedTy(UnionTy([StrTy, NoneTy])), Required)]), false)
  {
    var ty := AnnotatedTy(UnionTy([StrTy, NoneTy]));
    var f := FieldDef("x", ty, Required);
    assert Inhabits(VNone, ty) by {
      assert NoneTy in ty.inner.alts && Inhabits(VNone, NoneTy);
    }
    hide Accepts, Payload, Compile, Inhabits;
    assert Listed(Struct, f) && !GoodField(Struct, false, false, f);
    var _ := BadFieldRejects(Struct, false, [f], false, 0);
  }
}
