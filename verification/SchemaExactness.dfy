/**
 The compiled schema is exact for a type if every canonical JSON value it accepts is the payload
 of some value.  This is proved here for types whose fields satisfy a condition; that the condition
 is exact is proved in module ExactnessCondition.
 */
module SchemaExactness {
  import opened Wrappers
  import opened Json
  import opened Equivalence
  import opened Types
  import opened Schema
  import opened SchemaMeaning

  // ----- the fragment

  ghost predicate UniqueKeys(j: Json)
    decreases j
  {
    match j
    case Arr(items) => forall x | x in items :: UniqueKeys(x)
    case Obj(fields) => DistinctKeys(fields) && forall f: Field | f in fields :: UniqueKeys(f.value)
    case _ => true
  }

  ghost predicate DistinctKeys(fields: seq<Field>) {
    forall i, j | 0 <= i < j < |fields| :: fields[i].key != fields[j].key
  }

  // An absent field can be explained: it is required anyway, it may be None, or its default is one
  // that gets omitted.
  ghost predicate Explained(kind: Kind, omits: bool, lean: bool, f: FieldDef) {
    || f.default.Required?
    || (kind.Struct? && f.default.IsFactory())
    || Inhabits(VNone, f.ty)
    || (omits && f.default.Omittable())
    || (lean && !f.default.Required?)
  }

  // Does the type have another value that is sent as this default is?
  predicate SentByOther(ty: Ty, v: Val)
    decreases ty
  {
    match ty
    case StrTy => v.VEnum?
    case EnumTy(members) => v.VStr? && v.s in members
    case FloatTy => v.VInt?
    case UnionTy(alts) => exists a | a in alts :: SentByOther(a, v)
    case AnnotatedTy(inner) => SentByOther(inner, v)
    case _ => false
  }

  // What the default is sent as is never sent: it is taken for the default, and nothing else of the
  // type is sent like it.  None is not sent anyway.
  predicate Unsent(omits: bool, f: FieldDef) {
    omits && f.default.Recognised() && !f.default.Value().VNone? && !SentByOther(f.ty, f.default.Value())
  }

  // A private field has a value.  A visible one can be explained when it is absent, and what it
  // accepts is sent.
  ghost predicate ExactableField(kind: Kind, omits: bool, lean: bool, f: FieldDef) {
    if Private(f.name) then Populated(f.ty)
    else
      && Explained(kind, omits, lean, f)
      && !Unsent(omits, f)
      && (!f.default.Required? ==> Inhabits(f.default.Value(), f.ty))
  }

  // The fragment: no dict, Any or UUID, and no private field is sent.
  ghost predicate Fragment(ty: Ty, inStruct: bool)
    decreases ty
  {
    match ty
    case AnyTy => false
    case UuidTy => false
    case DictTy(_) => false
    case AnnotatedTy(inner) => Fragment(inner, inStruct)
    case UnionTy(alts) => forall a | a in alts :: Fragment(a, inStruct)
    case ListTy(item) => Fragment(item, inStruct)
    case RecordTy(kind, _, fields) =>
      && DistinctNames(fields)
      && forall f: FieldDef | f in fields ::
           if Private(f.name) then kind.Dataclass? || !inStruct else Fragment(f.ty, inStruct || kind.Struct?)
    case _ => true
  }

  // All fields of all records inside satisfy the condition.
  ghost predicate Exactable(ty: Ty, lean: bool)
    decreases ty
  {
    match ty
    case AnnotatedTy(inner) => Exactable(inner, lean)
    case UnionTy(alts) => forall a | a in alts :: Exactable(a, lean)
    case ListTy(item) => Exactable(item, lean)
    case RecordTy(kind, omits, fields) =>
      && (forall f: FieldDef | f in fields :: ExactableField(kind, omits, lean, f))
      && (forall f: FieldDef | f in fields :: !Private(f.name) ==> Exactable(f.ty, lean))
    case _ => true
  }

  // ----- when two objects have the same payload form

  lemma {:induction false} InsertDistinct(f: Field, fs: seq<Field>)
    requires DistinctKeys(fs) && forall g: Field | g in fs :: g.key != f.key
    ensures DistinctKeys(Insert(f, fs))
  {
    if fs != [] && Before(fs[0].key, f.key) {
      assert forall i | 0 <= i < |fs[1..]| :: fs[1..][i] == fs[i + 1];
      InsertDistinct(f, fs[1..]);
      var r := Insert(f, fs[1..]);
      forall j | 0 <= j < |r|
        ensures r[j].key != fs[0].key
      {
        InsertMember(f, fs[1..], r[j]);
      }
    }
  }

  lemma {:induction false} NormalDistinct(fields: seq<Field>)
    requires DistinctKeys(fields)
    ensures DistinctKeys(NormalFields(true, fields))
  {
    if fields != [] {
      var f, rest := fields[0], fields[1..];
      assert forall i | 0 <= i < |rest| :: rest[i] == fields[i + 1];
      NormalDistinct(rest);
      if !f.value.Null? {
        forall g: Field | g in NormalFields(true, rest)
          ensures g.key != f.key
        {
          NormalMember(rest, g);
        }
        InsertDistinct(Field(f.key, Normal(true, f.value)), NormalFields(true, rest));
      }
    }
  }

  lemma TailMember(a: seq<Field>, g: Field)
    requires a != [] && DistinctKeys(a)
    ensures g in a[1..] <==> g in a && g != a[0]
  {
    assert a == [a[0]] + a[1..];
    if g in a[1..] {
      var m :| 0 <= m < |a[1..]| && a[1..][m] == g;
      assert g == a[m + 1];
    }
  }

  lemma HasMember(a: seq<Field>)
    ensures a != [] <==> exists g: Field :: g in a
  {
    if a != [] {
      assert a[0] in a;
    }
  }

  lemma TailOrdered(a: seq<Field>)
    requires a != [] && Ascending(a) && DistinctKeys(a)
    ensures Ascending(a[1..]) && DistinctKeys(a[1..])
  {
    assert forall m | 0 <= m < |a[1..]| :: a[1..][m] == a[m + 1];
  }

  lemma SameHead(a: seq<Field>, b: seq<Field>)
    requires Ascending(a) && Ascending(b) && DistinctKeys(a)
    requires a != [] && b != [] && a[0] in b && b[0] in a
    ensures a[0] == b[0]
  {
    hide Before;
    var i :| 0 <= i < |b| && b[i] == a[0];
    var k :| 0 <= k < |a| && a[k] == b[0];
    BeforeTotal(a[0].key, b[0].key);
  }

  lemma {:induction false} AscendingUnique(a: seq<Field>, b: seq<Field>)
    requires Ascending(a) && Ascending(b) && DistinctKeys(a) && DistinctKeys(b)
    requires forall g: Field :: g in a <==> g in b
    ensures a == b
  {
    hide Ascending, DistinctKeys;
    HasMember(a);
    HasMember(b);
    if a != [] {
      assert a[0] in b && b[0] in a;
      SameHead(a, b);
      forall g: Field
        ensures g in a[1..] <==> g in b[1..]
      {
        TailMember(a, g);
        TailMember(b, g);
      }
      TailOrdered(a);
      TailOrdered(b);
      AscendingUnique(a[1..], b[1..]);
      assert a == [a[0]] + a[1..] && b == [b[0]] + b[1..];
    }
  }

  lemma SameFields(a: seq<Field>, b: seq<Field>)
    requires DistinctKeys(a) && DistinctKeys(b)
    requires forall g: Field :: g in NormalFields(true, a) <==> g in NormalFields(true, b)
    ensures NormalFields(true, a) == NormalFields(true, b)
  {
    NormalDistinct(a);
    NormalDistinct(b);
    NormalFieldsSorted(true, a);
    NormalFieldsSorted(true, b);
    AscendingUnique(NormalFields(true, a), NormalFields(true, b));
  }

  lemma {:induction false} LoweredName(slots: seq<Slot>, strips: bool, omits: bool, inStruct: bool, lean: bool,
      g: Field)
    returns (i: nat)
    requires g in LowerSlots(slots, strips, omits, inStruct, lean)
    ensures i < |slots| && slots[i].name == g.key
  {
    hide Lower;
    if g in LowerSlots(slots[1..], strips, omits, inStruct, lean) {
      var k := LoweredName(slots[1..], strips, omits, inStruct, lean, g);
      i := k + 1;
    } else {
      i := 0;
    }
  }

  lemma DistinctCons(f: Field, rest: seq<Field>)
    requires DistinctKeys(rest) && forall g: Field | g in rest :: g.key != f.key
    ensures DistinctKeys([f] + rest)
  {
  }

  lemma {:induction false} LoweredKeys(slots: seq<Slot>, strips: bool, omits: bool, inStruct: bool, lean: bool)
    requires forall i, j | 0 <= i < j < |slots| :: slots[i].name != slots[j].name
    ensures DistinctKeys(LowerSlots(slots, strips, omits, inStruct, lean))
  {
    hide Lower;
    if slots != [] {
      var rest := LowerSlots(slots[1..], strips, omits, inStruct, lean);
      LoweredKeys(slots[1..], strips, omits, inStruct, lean);
      forall g: Field | g in rest
        ensures g.key != slots[0].name
      {
        var k := LoweredName(slots[1..], strips, omits, inStruct, lean, g);
        assert slots[k + 1].name == g.key;
      }
      DistinctCons(Field(slots[0].name, Lower(slots[0].held, inStruct, lean)), rest);
      assert [] + rest == rest;
    }
  }

  lemma PayloadIsNormal(v: Val, inStruct: bool)
    ensures Normal(true, Payload(v, inStruct, false)) == Payload(v, inStruct, false)
    ensures DeepSorted(Payload(v, inStruct, false))
  {
    var p := Lower(v, inStruct, false);
    ToNormal(true, p);
    NormalDecides(true, p, Normal(true, p));
    NormalIsSorted(true, p);
  }

  // ----- reading a value back

  // What a slot must say about the object it was read from.
  ghost predicate SlotReads(s: Slot, js: seq<Field>, omits: bool, inStruct: bool, lean: bool) {
    && (forall g: Field | g in js && g.key == s.name ::
          (g.value.Null? || !Omitted(s, omits, lean)) && Payload(s.held, inStruct, lean) == Normal(true, g.value))
    && (!HasKey(js, s.name) ==> s.held.VNone? || Omitted(s, omits, lean))
  }

  // The slots tell everything about the object, and nothing more; private ones say nothing.
  ghost predicate SlotsRead(slots: seq<Slot>, js: seq<Field>, strips: bool, omits: bool, inStruct: bool, lean: bool) {
    && (forall s: Slot | s in slots ::
          if Private(s.name) then strips && !HasKey(js, s.name) else SlotReads(s, js, omits, inStruct, lean))
    && (forall g: Field | g in js :: exists s: Slot | s in slots :: s.name == g.key)
  }

  lemma SlotToField(slots: seq<Slot>, js: seq<Field>, strips: bool, omits: bool, inStruct: bool, lean: bool, g: Field)
    requires SlotsRead(slots, js, strips, omits, inStruct, lean)
    requires g in NormalFields(true, LowerSlots(slots, strips, omits, inStruct, lean))
    ensures g in NormalFields(true, js)
  {
    hide NormalFields, LowerSlots, Lower;
    NormalMember(js, g);
    var i := FieldOrigin(slots, strips, omits, inStruct, lean, g);
    LowerNull(slots[i].held, inStruct, lean);
    assert slots[i] in slots;
    assert HasKey(js, slots[i].name);
    var f: Field :| f in js && f.key == slots[i].name;
    assert g == Field(f.key, Normal(true, f.value));
  }

  lemma FieldToSlot(slots: seq<Slot>, js: seq<Field>, strips: bool, omits: bool, inStruct: bool, lean: bool, g: Field)
    requires SlotsRead(slots, js, strips, omits, inStruct, lean)
    requires g in NormalFields(true, js)
    ensures g in NormalFields(true, LowerSlots(slots, strips, omits, inStruct, lean))
  {
    hide NormalFields, LowerSlots, Lower;
    NormalMember(js, g);
    var f: Field :| f in js && !f.value.Null? && g == Field(f.key, Normal(true, f.value));
    var s: Slot :| s in slots && s.name == f.key;
    var i :| 0 <= i < |slots| && slots[i] == s;
    LowerNull(s.held, inStruct, lean);
    SlotAppears(slots, strips, omits, inStruct, lean, i);
  }

  lemma RecordPayload(kind: Kind, omits: bool, slots: seq<Slot>, js: seq<Field>, inStruct: bool, lean: bool)
    requires DistinctKeys(js)
    requires forall i, j | 0 <= i < j < |slots| :: slots[i].name != slots[j].name
    requires SlotsRead(slots, js, kind.Dataclass? || !inStruct, omits, inStruct || kind.Struct?, lean)
    ensures Payload(VRecord(kind, omits, slots), inStruct, lean) == Normal(true, Obj(js))
  {
    hide NormalFields, LowerSlots, SlotsRead;
    var strips, below := kind.Dataclass? || !inStruct, inStruct || kind.Struct?;
    var lowered := LowerSlots(slots, strips, omits, below, lean);
    LoweredKeys(slots, strips, omits, below, lean);
    forall g: Field
      ensures g in NormalFields(true, lowered) <==> g in NormalFields(true, js)
    {
      if g in NormalFields(true, lowered) {
        SlotToField(slots, js, strips, omits, below, lean, g);
      }
      if g in NormalFields(true, js) {
        FieldToSlot(slots, js, strips, omits, below, lean, g);
      }
    }
    SameFields(lowered, js);
  }

  // ----- accepted values

  // The value is sent by some value of the type.
  ghost predicate Carried(ty: Ty, j: Json, inStruct: bool, lean: bool) {
    exists v :: Inhabits(v, ty) && Payload(v, inStruct, lean) == Normal(true, j)
  }

  lemma {:induction false} ItemsCarried(item: Ty, js: seq<Json>, inStruct: bool, lean: bool) returns (items: seq<Val>)
    requires forall x | x in js :: Carried(item, x, inStruct, lean)
    ensures |items| == |js| && forall x | x in items :: Inhabits(x, item)
    ensures NormalItems(true, LowerItems(items, inStruct, lean)) == NormalItems(true, js)
  {
    if js == [] {
      items := [];
    } else {
      assert Carried(item, js[0], inStruct, lean);
      var v :| Inhabits(v, item) && Payload(v, inStruct, lean) == Normal(true, js[0]);
      hide Lower, Normal, Inhabits;
      var rest := ItemsCarried(item, js[1..], inStruct, lean);
      items := [v] + rest;
      assert items[1..] == rest;
    }
  }

  lemma ListCarried(item: Ty, js: seq<Json>, inStruct: bool, lean: bool)
    requires forall x | x in js :: Carried(item, x, inStruct, lean)
    ensures Carried(ListTy(item), Arr(js), inStruct, lean)
  {
    hide Payload, NormalItems, LowerItems;
    var items := ItemsCarried(item, js, inStruct, lean);
    ListPayload(items, inStruct, lean);
    assert Inhabits(VList(items), ListTy(item));
  }

  // A default that is recognised can be sent by another value of the type.
  lemma {:induction false} OtherSends(ty: Ty, v: Val, inStruct: bool, lean: bool) returns (w: Val)
    requires Interned(v) && SentByOther(ty, v)
    ensures w != v && !w.VNone? && Inhabits(w, ty) && Payload(w, inStruct, lean) == Payload(v, inStruct, lean)
    decreases ty
  {
    match ty
    case StrTy => w := VStr(v.member);
    case EnumTy(_) => w := VEnum(v.s);
    case FloatTy => w := VFloat(OfInt(v.i));
    case UnionTy(alts) =>
      hide Payload;
      var a :| a in alts && SentByOther(a, v);
      w := OtherSends(a, v, inStruct, lean);
    case AnnotatedTy(inner) => w := OtherSends(inner, v, inStruct, lean);
  }

  ghost predicate FieldReadable(kind: Kind, omits: bool, f: FieldDef, js: seq<Field>, inStruct: bool, lean: bool) {
    && ExactableField(kind, omits, lean, f)
    && if Private(f.name) then !HasKey(js, f.name)
       else
         && (forall g: Field | g in js && g.key == f.name :: Carried(f.ty, g.value, inStruct || kind.Struct?, lean))
         && (HasKey(js, f.name) || !Listed(kind, f))
  }

  // A slot that sends what v sends, whatever is taken for the default.
  lemma SendingSlot(omits: bool, f: FieldDef, v: Val, inStruct: bool, lean: bool) returns (s: Slot)
    requires Inhabits(v, f.ty) && !Unsent(omits, f)
    ensures SlotFits(s, f) && (omits ==> Marked(s, f))
    ensures Payload(s.held, inStruct, lean) == Payload(v, inStruct, lean)
    ensures v.VNone? || !Omitted(s, omits, lean)
  {
    hide Payload;
    s := Slot(f.name, v, Given);
    if omits && IsBlank(f, v) {
      if v.VNone? {
        s := Filled(f, v);
      } else {
        SentIsInterned(f.ty, v);
        var w := OtherSends(f.ty, v, inStruct, lean);
        s := Slot(f.name, w, Given);
      }
    }
  }

  lemma {:induction false} SentIsInterned(ty: Ty, v: Val)
    requires SentByOther(ty, v)
    ensures v.VEnum? || v.VStr? || v.VInt?
    decreases ty
  {
    match ty
    case UnionTy(alts) =>
      var a :| a in alts && SentByOther(a, v);
      SentIsInterned(a, v);
    case AnnotatedTy(inner) => SentIsInterned(inner, v);
    case _ =>
  }

  lemma ReadSlot(kind: Kind, omits: bool, f: FieldDef, js: seq<Field>, inStruct: bool, lean: bool) returns (s: Slot)
    requires DistinctKeys(js) && FieldReadable(kind, omits, f, js, inStruct, lean)
    ensures SlotFits(s, f) && (omits ==> Marked(s, f))
    ensures Private(f.name) || SlotReads(s, js, omits, inStruct || kind.Struct?, lean)
  {
    hide Payload, Unsent;
    var below := inStruct || kind.Struct?;
    if Private(f.name) {
      var v :| Inhabits(v, f.ty);
      FilledFits(f, v);
      s := Filled(f, v);
    } else if HasKey(js, f.name) {
      var g: Field :| g in js && g.key == f.name;
      assert Carried(f.ty, g.value, below, lean);
      var v :| Inhabits(v, f.ty) && Payload(v, below, lean) == Normal(true, g.value);
      s := SendingSlot(omits, f, v, below, lean);
      if v.VNone? {
        NullOrigin(v, g.value, below, lean);
      }
    } else if Inhabits(VNone, f.ty) {
      FilledFits(f, VNone);
      s := Filled(f, VNone);
    } else {
      OptionalMeaning(f.ty);
      s := Defaulted(f);
    }
  }

  lemma NullOrigin(v: Val, j: Json, inStruct: bool, lean: bool)
    requires v.VNone? && Payload(v, inStruct, lean) == Normal(true, j)
    ensures j.Null?
  {
  }

  lemma {:induction false} ReadSlots(kind: Kind, omits: bool, fields: seq<FieldDef>, js: seq<Field>,
      inStruct: bool, lean: bool)
    returns (slots: seq<Slot>)
    requires DistinctKeys(js)
    requires forall i | 0 <= i < |fields| :: FieldReadable(kind, omits, fields[i], js, inStruct, lean)
    ensures |slots| == |fields|
    ensures forall i | 0 <= i < |fields| :: SlotFits(slots[i], fields[i]) && (omits ==> Marked(slots[i], fields[i]))
    ensures forall i | 0 <= i < |fields| ::
              Private(fields[i].name) || SlotReads(slots[i], js, omits, inStruct || kind.Struct?, lean)
  {
    if fields == [] {
      slots := [];
    } else {
      hide SlotFits, Marked, SlotReads, FieldReadable, HasKey;
      var s := ReadSlot(kind, omits, fields[0], js, inStruct, lean);
      var rest := ReadSlots(kind, omits, fields[1..], js, inStruct, lean);
      slots := [s] + rest;
    }
  }

  lemma RecordCarried(kind: Kind, omits: bool, fields: seq<FieldDef>, j: Json, inStruct: bool, lean: bool)
    requires Fragment(RecordTy(kind, omits, fields), inStruct)
    requires forall f: FieldDef | f in fields :: ExactableField(kind, omits, lean, f)
    requires Accepts(Compile(RecordTy(kind, omits, fields)), j) && UniqueKeys(j)
    requires forall f: FieldDef, g: Field | f in fields && !Private(f.name) && g in j.fields && g.key == f.name ::
               Carried(f.ty, g.value, inStruct || kind.Struct?, lean)
    ensures Carried(RecordTy(kind, omits, fields), j, inStruct, lean)
  {
    hide Accepts, Payload, CompileFields, RequiredNames, Carried, ExactableField;
    var props, names := CompileFields(fields), RequiredNames(kind, fields);
    RecordAccepts(props, names, j);
    forall i | 0 <= i < |fields|
      ensures FieldReadable(kind, omits, fields[i], j.fields, inStruct, lean)
    {
      assert fields[i] in fields;
      if Private(fields[i].name) {
        if HasKey(j.fields, fields[i].name) {
          var p :| p in props && p.name == fields[i].name;
          var k := PropertyOrigin(fields, p);
        }
      } else if Listed(kind, fields[i]) {
        RequiredAppears(kind, fields, i);
      }
    }
    var slots := ReadSlots(kind, omits, fields, j.fields, inStruct, lean);
    RecordReads(kind, omits, fields, slots, j, inStruct, lean);
  }

  lemma RecordReads(kind: Kind, omits: bool, fields: seq<FieldDef>, slots: seq<Slot>, j: Json, inStruct: bool,
      lean: bool)
    requires Fragment(RecordTy(kind, omits, fields), inStruct) && |slots| == |fields|
    requires Accepts(Compile(RecordTy(kind, omits, fields)), j) && UniqueKeys(j)
    requires forall i | 0 <= i < |fields| :: SlotFits(slots[i], fields[i]) && (omits ==> Marked(slots[i], fields[i]))
    requires forall i | 0 <= i < |fields| ::
               if Private(fields[i].name) then !HasKey(j.fields, fields[i].name)
               else SlotReads(slots[i], j.fields, omits, inStruct || kind.Struct?, lean)
    ensures Carried(RecordTy(kind, omits, fields), j, inStruct, lean)
  {
    hide Accepts, Payload, CompileFields, RequiredNames, SlotReads;
    var props, names := CompileFields(fields), RequiredNames(kind, fields);
    RecordAccepts(props, names, j);
    forall g: Field | g in j.fields
      ensures exists s: Slot | s in slots :: s.name == g.key
    {
      var p :| p in props && p.name == g.key;
      var i := PropertyOrigin(fields, p);
      assert slots[i] in slots && SlotFits(slots[i], fields[i]);
    }
    forall s: Slot | s in slots
      ensures if Private(s.name) then (kind.Dataclass? || !inStruct) && !HasKey(j.fields, s.name)
              else SlotReads(s, j.fields, omits, inStruct || kind.Struct?, lean)
    {
      var i :| 0 <= i < |slots| && slots[i] == s;
      assert fields[i] in fields && SlotFits(slots[i], fields[i]);
    }
    assert forall i, k | 0 <= i < k < |slots| :: slots[i].name == fields[i].name && slots[k].name == fields[k].name;
    RecordPayload(kind, omits, slots, j.fields, inStruct, lean);
    assert Inhabits(VRecord(kind, omits, slots), RecordTy(kind, omits, fields));
  }

  // Main result on exactness: an accepted value is the payload of a value of the type.
  lemma {:induction false} AcceptedIsPayload(ty: Ty, j: Json, inStruct: bool, lean: bool)
    requires Fragment(ty, inStruct) && Exactable(ty, lean) && UniqueKeys(j) && Accepts(Compile(ty), j)
    ensures Carried(ty, j, inStruct, lean)
    decreases ty
  {
    hide Carried, Accepts;
    match ty
    case UnionTy(alts) =>
      UnionAccepts(alts, j);
      var i :| 0 <= i < |alts| && Accepts(Compile(alts[i]), j);
      assert alts[i] in alts;
      AcceptedIsPayload(alts[i], j, inStruct, lean);
      UnionCarries(alts, i, j, inStruct, lean);
    case ListTy(item) =>
      ListAccepts(item, j);
      forall x | x in j.items
        ensures Carried(item, x, inStruct, lean)
      {
        AcceptedIsPayload(item, x, inStruct, lean);
      }
      ListCarried(item, j.items, inStruct, lean);
    case AnnotatedTy(inner) =>
      AcceptedIsPayload(inner, j, inStruct, lean);
      AnnotationCarries(inner, j, inStruct, lean);
    case RecordTy(kind, omits, fields) =>
      RecordAccepts(CompileFields(fields), RequiredNames(kind, fields), j);
      forall f: FieldDef, g: Field | f in fields && !Private(f.name) && g in j.fields && g.key == f.name
        ensures Carried(f.ty, g.value, inStruct || kind.Struct?, lean)
      {
        var i :| 0 <= i < |fields| && fields[i] == f;
        PropertyAppears(fields, i);
        AcceptedIsPayload(f.ty, g.value, inStruct || kind.Struct?, lean);
      }
      RecordCarried(kind, omits, fields, j, inStruct, lean);
    case _ => ScalarCarries(ty, j, inStruct, lean);
  }

  lemma UnionCarries(alts: seq<Ty>, i: nat, j: Json, inStruct: bool, lean: bool)
    requires i < |alts| && Carried(alts[i], j, inStruct, lean)
    ensures Carried(UnionTy(alts), j, inStruct, lean)
  {
    hide Payload;
    var v :| Inhabits(v, alts[i]) && Payload(v, inStruct, lean) == Normal(true, j);
    assert alts[i] in alts && Inhabits(v, UnionTy(alts));
  }

  lemma AnnotationCarries(inner: Ty, j: Json, inStruct: bool, lean: bool)
    requires Carried(inner, j, inStruct, lean)
    ensures Carried(AnnotatedTy(inner), j, inStruct, lean)
  {
    hide Payload, Normal, Lower;
    var v :| Inhabits(v, inner) && Payload(v, inStruct, lean) == Normal(true, j);
    assert Inhabits(v, AnnotatedTy(inner));
  }

  lemma ScalarCarries(ty: Ty, j: Json, inStruct: bool, lean: bool)
    requires Fragment(ty, inStruct) && !ty.UnionTy? && !ty.ListTy? && !ty.RecordTy? && !ty.AnnotatedTy?
    requires Accepts(Compile(ty), j)
    ensures Carried(ty, j, inStruct, lean)
  {
    var v := match ty
      case StrTy => VStr(j.s)
      case IntTy => VInt(if j.Int? then j.i else Truncated(j.f))
      case FloatTy => if j.Int? then VInt(j.i) else if Integral(j) then VInt(Truncated(j.f)) else VFloat(j.f)
      case BoolTy => VBool(j.b)
      case NoneTy => VNone
      case EnumTy(members) => VEnum(j.s);
    assert Inhabits(v, ty) && Payload(v, inStruct, lean) == Normal(true, j);
  }

  // Together: on canonical values the schema accepts exactly the payloads.
  lemma SchemaIsExact(ty: Ty, j: Json, inStruct: bool)
    requires Good(ty, inStruct) && Fragment(ty, inStruct) && Exactable(ty, false)
    requires UniqueKeys(j) && Normal(true, j) == j
    ensures Accepts(Compile(ty), j) <==> exists v :: Inhabits(v, ty) && Payload(v, inStruct, false) == j
  {
    hide Accepts, Payload;
    CompileSound(ty, inStruct);
    if Accepts(Compile(ty), j) {
      AcceptedIsPayload(ty, j, inStruct, false);
    }
  }
}
