/**
 When the compiled schema is exact: on the fragment of module SchemaExactness, the condition on the
 fields is not only sufficient.  A field that violates it, at any depth, yields a canonical value
 that the schema accepts and no value of the type is sent as.
 */
module ExactnessCondition {
  import opened Wrappers
  import opened Json
  import opened Equivalence
  import opened Canonical
  import opened Types
  import opened Schema
  import opened SchemaMeaning
  import opened SchemaExactness

  // What decoding a canonical text gives: distinct keys, sorted, without None entries and integral
  // floats.
  ghost predicate Clean(j: Json) {
    UniqueKeys(j) && Normal(true, j) == j
  }

  ghost predicate ExactFor(ty: Ty, inStruct: bool) {
    forall j | Clean(j) && Accepts(Compile(ty), j) :: Carried(ty, j, inStruct, false)
  }

  // ----- payloads are canonical

  lemma {:induction false} PayloadUnique(ty: Ty, v: Val, inStruct: bool)
    requires Fragment(ty, inStruct) && Inhabits(v, ty)
    ensures UniqueKeys(Payload(v, inStruct, false))
    decreases ty
  {
    match ty
    case UnionTy(alts) =>
      hide Payload;
      var a :| a in alts && Inhabits(v, a);
      PayloadUnique(a, v, inStruct);
    case AnnotatedTy(inner) => PayloadUnique(inner, v, inStruct);
    case ListTy(item) =>
      hide Payload, NormalItems, LowerItems;
      var js := NormalItems(true, LowerItems(v.items, inStruct, false));
      ListPayload(v.items, inStruct, false);
      forall x | x in js
        ensures UniqueKeys(x)
      {
        var i :| 0 <= i < |js| && js[i] == x;
        LowerItemAt(v.items, inStruct, false, i);
        PayloadUnique(item, v.items[i], inStruct);
      }
    case RecordTy(kind, omits, fields) =>
      hide Payload;
      forall i | 0 <= i < |fields| && Shown(v.slots[i], kind.Dataclass? || !inStruct, omits, false)
        ensures UniqueKeys(Payload(v.slots[i].held, inStruct || kind.Struct?, false))
      {
        assert SlotFits(v.slots[i], fields[i]) && fields[i] in fields;
        PayloadUnique(fields[i].ty, v.slots[i].held, inStruct || kind.Struct?);
      }
      SlotNames(fields, v.slots);
      RecordUnique(kind, omits, v.slots, inStruct);
    case _ =>
  }

  lemma SlotNames(fields: seq<FieldDef>, slots: seq<Slot>)
    requires DistinctNames(fields) && |slots| == |fields|
    requires forall i | 0 <= i < |fields| :: SlotFits(slots[i], fields[i])
    ensures forall i, k | 0 <= i < k < |slots| :: slots[i].name != slots[k].name
  {
    hide Inhabits;
    forall i, k | 0 <= i < k < |slots|
      ensures slots[i].name != slots[k].name
    {
      assert SlotFits(slots[i], fields[i]) && SlotFits(slots[k], fields[k]);
    }
  }

  lemma RecordUnique(kind: Kind, omits: bool, slots: seq<Slot>, inStruct: bool)
    requires forall i, k | 0 <= i < k < |slots| :: slots[i].name != slots[k].name
    requires forall i | 0 <= i < |slots| && Shown(slots[i], kind.Dataclass? || !inStruct, omits, false) ::
               UniqueKeys(Payload(slots[i].held, inStruct || kind.Struct?, false))
    ensures UniqueKeys(Payload(VRecord(kind, omits, slots), inStruct, false))
  {
    hide NormalFields, LowerSlots, DistinctKeys;
    var strips, below := kind.Dataclass? || !inStruct, inStruct || kind.Struct?;
    var lowered := LowerSlots(slots, strips, omits, below, false);
    LoweredKeys(slots, strips, omits, below, false);
    NormalDistinct(lowered);
    forall g: Field | g in NormalFields(true, lowered)
      ensures UniqueKeys(g.value)
    {
      var i := FieldOrigin(slots, strips, omits, below, false, g);
    }
  }

  // The fields a record sends.
  function Shows(kind: Kind, omits: bool, inStruct: bool, slots: seq<Slot>): seq<Field> {
    NormalFields(true, LowerSlots(slots, kind.Dataclass? || !inStruct, omits, inStruct || kind.Struct?, false))
  }

  lemma RecordShows(kind: Kind, omits: bool, inStruct: bool, slots: seq<Slot>)
    ensures Payload(VRecord(kind, omits, slots), inStruct, false) == Obj(Shows(kind, omits, inStruct, slots))
  {
  }

  // Replacing one slot changes what is sent under its name only.
  lemma ReplacedShows(kind: Kind, omits: bool, inStruct: bool, slots: seq<Slot>, i: nat, s: Slot, g: Field)
    requires i < |slots| && s.name == slots[i].name && !Private(s.name) && s.origin.Given?
    requires forall k, m | 0 <= k < m < |slots| :: slots[k].name != slots[m].name
    ensures g in Shows(kind, omits, inStruct, slots[i := s]) <==>
            if g.key == s.name then !s.held.VNone? && g == Field(s.name, Payload(s.held, inStruct || kind.Struct?, false))
            else g in Shows(kind, omits, inStruct, slots)
  {
    hide NormalFields, LowerSlots, Payload;
    var strips, below := kind.Dataclass? || !inStruct, inStruct || kind.Struct?;
    if g in Shows(kind, omits, inStruct, slots[i := s]) {
      var k := FieldOrigin(slots[i := s], strips, omits, below, false, g);
      if k != i {
        SlotAppears(slots, strips, omits, below, false, k);
      }
    }
    if g.key != s.name && g in Shows(kind, omits, inStruct, slots) {
      var k := FieldOrigin(slots, strips, omits, below, false, g);
      SlotAppears(slots[i := s], strips, omits, below, false, k);
    }
    if !s.held.VNone? {
      SlotAppears(slots[i := s], strips, omits, below, false, i);
    }
  }

  // The payload of an accepted record is still accepted when one visible slot is replaced: by None
  // if the field is not required, or by something that the type of the field accepts.
  lemma ReplacedIsAccepted(kind: Kind, omits: bool, fields: seq<FieldDef>, inStruct: bool, slots: seq<Slot>, i: nat,
      s: Slot)
    requires DistinctNames(fields) && i < |fields| == |slots|
    requires forall k | 0 <= k < |fields| :: slots[k].name == fields[k].name
    requires Accepts(Compile(RecordTy(kind, omits, fields)), Payload(VRecord(kind, omits, slots), inStruct, false))
    requires s.name == fields[i].name && !Private(s.name) && s.origin.Given?
    requires if s.held.VNone? then !Listed(kind, fields[i])
             else Accepts(Compile(fields[i].ty), Payload(s.held, inStruct || kind.Struct?, false))
    ensures Accepts(Compile(RecordTy(kind, omits, fields)), Payload(VRecord(kind, omits, slots[i := s]), inStruct, false))
  {
    hide Accepts, Shows, Payload;
    var props, names := CompileFields(fields), RequiredNames(kind, fields);
    var js, out := Shows(kind, omits, inStruct, slots), Shows(kind, omits, inStruct, slots[i := s]);
    RecordShows(kind, omits, inStruct, slots);
    RecordShows(kind, omits, inStruct, slots[i := s]);
    RecordAccepts(props, names, Obj(js));
    forall g: Field | g in out
      ensures exists p | p in props :: p.name == g.key
      ensures forall p | p in props && p.name == g.key :: Accepts(p.schema, g.value)
    {
      ReplacedShows(kind, omits, inStruct, slots, i, s, g);
      if g.key == s.name {
        PropertyAppears(fields, i);
        forall p | p in props && p.name == g.key
          ensures Accepts(p.schema, g.value)
        {
          var m := PropertyOrigin(fields, p);
          assert m == i;
        }
      }
    }
    forall name | name in names
      ensures HasKey(out, name)
    {
      var k := RequiredOrigin(kind, fields, name);
      if k == i {
        ReplacedShows(kind, omits, inStruct, slots, i, s, Field(s.name, Payload(s.held, inStruct || kind.Struct?, false)));
      } else {
        var g: Field :| g in js && g.key == name;
        ReplacedShows(kind, omits, inStruct, slots, i, s, g);
      }
    }
    RecordAccepts(props, names, Obj(out));
  }

  // ----- inexact fields

  // A visible field that may be absent without an explanation, or accepts what is never sent.
  ghost predicate Inexact(kind: Kind, omits: bool, f: FieldDef) {
    !Private(f.name) && (!Explained(kind, omits, false, f) || Unsent(omits, f))
  }

  // No slot of the field sends what s sends, if s sends anything, and none sends nothing otherwise.
  ghost predicate NeverSent(s: Slot, omits: bool, inStruct: bool, f: FieldDef) {
    forall t: Slot | SlotFits(t, f) && (omits ==> Marked(t, f)) ::
      if s.held.VNone? then Shown(t, false, omits, false)
      else Shown(t, false, omits, false) ==> Payload(t.held, inStruct, false) != Payload(s.held, inStruct, false)
  }

  // A slot that spoils exactness: accepted in place of the field, and never sent.
  ghost predicate Wrong(s: Slot, kind: Kind, omits: bool, inStruct: bool, f: FieldDef) {
    && s.name == f.name && s.origin.Given? && NeverSent(s, omits, inStruct, f)
    && (if s.held.VNone? then !Listed(kind, f) else Accepts(Compile(f.ty), Payload(s.held, inStruct, false)))
    && UniqueKeys(Payload(s.held, inStruct, false))
  }

  // Nothing else of the type is sent as a recognised default is.
  lemma {:induction false} OnlySender(ty: Ty, v: Val, w: Val, inStruct: bool)
    requires Fragment(ty, inStruct) && Inhabits(w, ty) && w != v
    requires Interned(v) || v == VList([])
    requires Payload(w, inStruct, false) == Payload(v, inStruct, false)
    ensures SentByOther(ty, v)
    decreases ty
  {
    hide LowerSlots, LowerEntries, NormalFields, SlotFits, Marked;
    match ty
    case UnionTy(alts) =>
      hide Payload;
      var a :| a in alts && Inhabits(w, a);
      OnlySender(a, v, w, inStruct);
    case AnnotatedTy(inner) => OnlySender(inner, v, w, inStruct);
    case _ =>
  }

  lemma {:induction false} FragmentHasNoDict(ty: Ty, v: Val, inStruct: bool)
    requires Fragment(ty, inStruct) && Inhabits(v, ty)
    ensures !v.VDict?
    decreases ty
  {
    match ty
    case UnionTy(alts) =>
      var a :| a in alts && Inhabits(v, a);
      FragmentHasNoDict(a, v, inStruct);
    case AnnotatedTy(inner) => FragmentHasNoDict(inner, v, inStruct);
    case _ =>
  }

  // What to put into the slot of an inexact field: nothing, or its default marked as given.
  lemma WrongSlot(kind: Kind, omits: bool, inStruct: bool, f: FieldDef) returns (s: Slot)
    requires Inexact(kind, omits, f) && Fragment(f.ty, inStruct)
    requires !f.default.Required? ==> Inhabits(f.default.Value(), f.ty)
    ensures Wrong(s, kind, omits, inStruct, f)
  {
    hide Payload, Compile, Accepts, UniqueKeys, Fragment;
    if Unsent(omits, f) {
      var v := f.default.Value();
      FragmentHasNoDict(f.ty, v, inStruct);
      PlainAccepted(f.ty, v, inStruct);
      PayloadUnique(f.ty, v, inStruct);
      s := Slot(f.name, v, Given);
      forall t: Slot | SlotFits(t, f) && Marked(t, f) && Payload(t.held, inStruct, false) == Payload(v, inStruct, false)
        ensures !Shown(t, false, omits, false)
      {
        if t.held != v {
          OnlySender(f.ty, v, t.held, inStruct);
        }
      }
    } else {
      s := Slot(f.name, VNone, Given);
      NullPayload(inStruct);
    }
  }

  lemma NullPayload(inStruct: bool)
    ensures UniqueKeys(Payload(VNone, inStruct, false))
  {
  }

  // An accepted value that the type of a visible field does not send spoils the record as well.
  lemma NestedSlot(kind: Kind, omits: bool, inStruct: bool, f: FieldDef, j: Json) returns (s: Slot)
    requires Fragment(f.ty, inStruct)
    requires Clean(j) && Accepts(Compile(f.ty), j) && !Carried(f.ty, j, inStruct, false)
    ensures Wrong(s, kind, omits, inStruct, f)
  {
    hide Payload, Compile, Accepts, UniqueKeys, Fragment, Lower;
    s := Slot(f.name, Raise(j), Given);
    RaiseLower(j, inStruct);
    assert Payload(s.held, inStruct, false) == j by {
      RaisedPayload(j, inStruct);
    }
    if s.held.VNone? {
      NullIsCarried(f.ty, j, inStruct);
    }
    forall t: Slot | SlotFits(t, f)
      ensures Payload(t.held, inStruct, false) != j
    {
      assert Inhabits(t.held, f.ty);
    }
  }

  lemma RaisedPayload(j: Json, inStruct: bool)
    requires Normal(true, j) == j
    ensures Payload(Raise(j), inStruct, false) == j
  {
    hide Lower, Normal;
    RaiseLower(j, inStruct);
  }

  // Only arrays and objects can be accepted and not sent.
  lemma {:induction false} ScalarIsCarried(ty: Ty, j: Json, inStruct: bool)
    requires Fragment(ty, inStruct) && Accepts(Compile(ty), j) && !j.Arr? && !j.Obj?
    ensures Carried(ty, j, inStruct, false)
    decreases ty
  {
    hide Carried;
    match ty
    case UnionTy(alts) =>
      hide Accepts;
      UnionAccepts(alts, j);
      var i :| 0 <= i < |alts| && Accepts(Compile(alts[i]), j);
      assert alts[i] in alts;
      ScalarIsCarried(alts[i], j, inStruct);
      UnionCarries(alts, i, j, inStruct, false);
    case AnnotatedTy(inner) =>
      ScalarIsCarried(inner, j, inStruct);
      AnnotationCarries(inner, j, inStruct, false);
    case ListTy(item) =>
    case RecordTy(_, _, _) =>
    case _ => ScalarCarries(ty, j, inStruct, false);
  }

  lemma NullIsCarried(ty: Ty, j: Json, inStruct: bool)
    requires Fragment(ty, inStruct) && Accepts(Compile(ty), j) && Raise(j).VNone?
    ensures Carried(ty, j, inStruct, false)
  {
    hide Carried, Accepts;
    ScalarIsCarried(ty, j, inStruct);
  }

  lemma WrongIsNoPayload(kind: Kind, omits: bool, fields: seq<FieldDef>, inStruct: bool, slots: seq<Slot>, i: nat,
      s: Slot, w: Val)
    requires DistinctNames(fields) && i < |fields| == |slots| && !Private(fields[i].name)
    requires forall k | 0 <= k < |fields| :: slots[k].name == fields[k].name
    requires s.name == fields[i].name && s.origin.Given? && NeverSent(s, omits, inStruct || kind.Struct?, fields[i])
    requires Inhabits(w, RecordTy(kind, omits, fields))
    ensures Payload(w, inStruct, false) != Payload(VRecord(kind, omits, slots[i := s]), inStruct, false)
  {
    hide Payload, Shows, NormalFields, LowerSlots, Inhabits;
    var strips, below := kind.Dataclass? || !inStruct, inStruct || kind.Struct?;
    var out := Shows(kind, omits, inStruct, slots[i := s]);
    RecordParts(kind, omits, fields, w);
    RecordShows(kind, omits, inStruct, w.slots);
    RecordShows(kind, omits, inStruct, slots[i := s]);
    if Shows(kind, omits, inStruct, w.slots) == out {
      ShowsSlots(kind, omits, inStruct, w.slots, i);
      var g := Field(s.name, Payload(if s.held.VNone? then w.slots[i].held else s.held, below, false));
      ReplacedShows(kind, omits, inStruct, slots, i, s, g);
      if !s.held.VNone? {
        var _ := FieldOfShows(kind, omits, inStruct, w.slots, g);
      }
    }
  }

  lemma RecordParts(kind: Kind, omits: bool, fields: seq<FieldDef>, w: Val)
    requires Inhabits(w, RecordTy(kind, omits, fields))
    ensures w.VRecord? && w.kind == kind && w.omits == omits && |w.slots| == |fields|
    ensures forall i | 0 <= i < |fields| ::
              SlotFits(w.slots[i], fields[i]) && w.slots[i].name == fields[i].name && (omits ==> Marked(w.slots[i], fields[i]))
  {
    hide SlotFits;
    forall i | 0 <= i < |fields|
      ensures w.slots[i].name == fields[i].name
    {
      SlotName(w.slots[i], fields[i]);
    }
  }

  lemma SlotName(s: Slot, f: FieldDef)
    requires SlotFits(s, f)
    ensures s.name == f.name
  {
  }

  lemma ShowsSlots(kind: Kind, omits: bool, inStruct: bool, slots: seq<Slot>, i: nat)
    requires i < |slots| && !Private(slots[i].name)
    ensures Shown(slots[i], false, omits, false) ==>
              Field(slots[i].name, Payload(slots[i].held, inStruct || kind.Struct?, false)) in Shows(kind, omits, inStruct, slots)
  {
    hide NormalFields, LowerSlots, Payload;
    if Shown(slots[i], false, omits, false) {
      SlotAppears(slots, kind.Dataclass? || !inStruct, omits, inStruct || kind.Struct?, false, i);
    }
  }

  lemma FieldOfShows(kind: Kind, omits: bool, inStruct: bool, slots: seq<Slot>, g: Field) returns (k: nat)
    requires g in Shows(kind, omits, inStruct, slots)
    ensures k < |slots| && Shown(slots[k], false, omits, false)
    ensures g == Field(slots[k].name, Payload(slots[k].held, inStruct || kind.Struct?, false))
  {
    hide NormalFields, LowerSlots, Payload;
    k := FieldOrigin(slots, kind.Dataclass? || !inStruct, omits, inStruct || kind.Struct?, false, g);
  }

  // A sample of the record, and what is known of it.
  lemma Sample(kind: Kind, omits: bool, fields: seq<FieldDef>, inStruct: bool) returns (slots: seq<Slot>)
    requires ProperFields(omits, fields) && SoundFor(RecordTy(kind, omits, fields), inStruct)
    requires Fragment(RecordTy(kind, omits, fields), inStruct)
    ensures |slots| == |fields| && forall k | 0 <= k < |fields| :: slots[k].name == fields[k].name
    ensures Accepts(Compile(RecordTy(kind, omits, fields)), Payload(VRecord(kind, omits, slots), inStruct, false))
    ensures forall k | 0 <= k < |fields| && Shown(slots[k], kind.Dataclass? || !inStruct, omits, false) ::
              UniqueKeys(Payload(slots[k].held, inStruct || kind.Struct?, false))
  {
    hide Accepts, Payload, UniqueKeys, Compile;
    slots := SampleSlots(fields);
    var v := VRecord(kind, omits, slots);
    assert Inhabits(v, RecordTy(kind, omits, fields));
    hide Inhabits;
    RecordParts(kind, omits, fields, v);
    forall k | 0 <= k < |fields| && Shown(slots[k], kind.Dataclass? || !inStruct, omits, false)
      ensures UniqueKeys(Payload(slots[k].held, inStruct || kind.Struct?, false))
    {
      assert fields[k] in fields;
      PayloadUnique(fields[k].ty, slots[k].held, inStruct || kind.Struct?);
    }
  }

  // A wrong slot yields a canonical value that is accepted and is no payload.
  lemma WrongSlotAccepts(kind: Kind, omits: bool, fields: seq<FieldDef>, inStruct: bool, i: nat, s: Slot)
    returns (j: Json)
    requires ProperFields(omits, fields) && SoundFor(RecordTy(kind, omits, fields), inStruct)
    requires Fragment(RecordTy(kind, omits, fields), inStruct)
    requires i < |fields| && !Private(fields[i].name) && Wrong(s, kind, omits, inStruct || kind.Struct?, fields[i])
    ensures Clean(j) && Accepts(Compile(RecordTy(kind, omits, fields)), j)
    ensures !Carried(RecordTy(kind, omits, fields), j, inStruct, false)
  {
    hide Accepts, Payload, UniqueKeys, Compile, Inhabits, NeverSent, SoundFor, Fragment;
    var slots := Sample(kind, omits, fields, inStruct);
    ReplacedIsAccepted(kind, omits, fields, inStruct, slots, i, s);
    var v := VRecord(kind, omits, slots[i := s]);
    j := Payload(v, inStruct, false);
    PayloadIsNormal(v, inStruct);
    RecordUnique(kind, omits, slots[i := s], inStruct);
    forall w | Inhabits(w, RecordTy(kind, omits, fields))
      ensures Payload(w, inStruct, false) != j
    {
      WrongIsNoPayload(kind, omits, fields, inStruct, slots, i, s, w);
    }
  }

  lemma InexactFieldAccepts(kind: Kind, omits: bool, fields: seq<FieldDef>, inStruct: bool, i: nat) returns (j: Json)
    requires ProperFields(omits, fields) && SoundFor(RecordTy(kind, omits, fields), inStruct)
    requires Fragment(RecordTy(kind, omits, fields), inStruct)
    requires i < |fields| && Inexact(kind, omits, fields[i])
    ensures Clean(j) && Accepts(Compile(RecordTy(kind, omits, fields)), j)
    ensures !Carried(RecordTy(kind, omits, fields), j, inStruct, false)
  {
    hide Accepts, Compile, Inhabits, Wrong, Explained, SoundFor, Carried, Clean;
    assert fields[i] in fields;
    var s := WrongSlot(kind, omits, inStruct || kind.Struct?, fields[i]);
    j := WrongSlotAccepts(kind, omits, fields, inStruct, i, s);
  }

  lemma InexactValueAccepts(kind: Kind, omits: bool, fields: seq<FieldDef>, inStruct: bool, i: nat, g: Json)
    returns (j: Json)
    requires ProperFields(omits, fields) && SoundFor(RecordTy(kind, omits, fields), inStruct)
    requires Fragment(RecordTy(kind, omits, fields), inStruct)
    requires i < |fields| && !Private(fields[i].name)
    requires Clean(g) && Accepts(Compile(fields[i].ty), g)
    requires !Carried(fields[i].ty, g, inStruct || kind.Struct?, false)
    ensures Clean(j) && Accepts(Compile(RecordTy(kind, omits, fields)), j)
    ensures !Carried(RecordTy(kind, omits, fields), j, inStruct, false)
  {
    hide Accepts, Compile, Inhabits, Wrong, SoundFor, Carried, Clean;
    assert fields[i] in fields;
    var s := NestedSlot(kind, omits, inStruct || kind.Struct?, fields[i], g);
    j := WrongSlotAccepts(kind, omits, fields, inStruct, i, s);
  }

  // ----- the condition, type by type

  lemma CleanParts(fields: seq<Field>, g: Field)
    requires Clean(Obj(fields)) && g in fields
    ensures Clean(g.value)
  {
    hide Normal;
    assert NormalFields(true, fields) == fields by {
      ObjectNormal(fields);
    }
    NormalMember(fields, g);
    var f: Field :| f in fields && !f.value.Null? && g == Field(f.key, Normal(true, f.value));
    assert f == g;
  }

  lemma ObjectNormal(fields: seq<Field>)
    requires Normal(true, Obj(fields)) == Obj(fields)
    ensures NormalFields(true, fields) == fields
  {
  }

  // Main result on records: over the fragment, the schema of a soundly compiled record is exact if
  // and only if no field is inexact and the types of the visible fields are exact themselves.
  lemma RecordExactIff(kind: Kind, omits: bool, fields: seq<FieldDef>, inStruct: bool)
    requires ProperFields(omits, fields) && SoundFor(RecordTy(kind, omits, fields), inStruct)
    requires Fragment(RecordTy(kind, omits, fields), inStruct)
    ensures ExactFor(RecordTy(kind, omits, fields), inStruct) <==>
            && (forall f: FieldDef | f in fields :: !Inexact(kind, omits, f))
            && (forall f: FieldDef | f in fields :: !Private(f.name) ==> ExactFor(f.ty, inStruct || kind.Struct?))
  {
    hide Accepts, Payload, Clean, Carried, Compile, Inhabits, SoundFor, Explained, Fragment;
    var below := inStruct || kind.Struct?;
    if i :| 0 <= i < |fields| && Inexact(kind, omits, fields[i]) {
      assert fields[i] in fields;
      var j := InexactFieldAccepts(kind, omits, fields, inStruct, i);
    } else if i :| 0 <= i < |fields| && !Private(fields[i].name) && !ExactFor(fields[i].ty, below) {
      assert fields[i] in fields;
      var g :| Clean(g) && Accepts(Compile(fields[i].ty), g) && !Carried(fields[i].ty, g, below, false);
      var j := InexactValueAccepts(kind, omits, fields, inStruct, i, g);
    } else {
      RecordExact(kind, omits, fields, inStruct);
    }
  }

  lemma RecordExact(kind: Kind, omits: bool, fields: seq<FieldDef>, inStruct: bool)
    requires ProperFields(omits, fields) && Fragment(RecordTy(kind, omits, fields), inStruct)
    requires forall i | 0 <= i < |fields| :: !Inexact(kind, omits, fields[i])
    requires forall i | 0 <= i < |fields| :: !Private(fields[i].name) ==> ExactFor(fields[i].ty, inStruct || kind.Struct?)
    ensures ExactFor(RecordTy(kind, omits, fields), inStruct)
  {
    hide Accepts, Payload, UniqueKeys, Carried, Inhabits, Explained, Fragment, CompileFields, RequiredNames;
    var ty := RecordTy(kind, omits, fields);
    forall f: FieldDef | f in fields
      ensures ExactableField(kind, omits, false, f)
    {
      var i :| 0 <= i < |fields| && fields[i] == f;
      assert !Inexact(kind, omits, fields[i]);
    }
    forall j | Clean(j) && Accepts(Compile(ty), j)
      ensures Carried(ty, j, inStruct, false)
    {
      RecordAccepts(CompileFields(fields), RequiredNames(kind, fields), j);
      forall f: FieldDef, g: Field | f in fields && !Private(f.name) && g in j.fields && g.key == f.name
        ensures Carried(f.ty, g.value, inStruct || kind.Struct?, false)
      {
        var i :| 0 <= i < |fields| && fields[i] == f;
        PropertyAppears(fields, i);
        CleanParts(j.fields, g);
        assert ExactFor(fields[i].ty, inStruct || kind.Struct?);
      }
      RecordCarried(kind, omits, fields, j, inStruct, false);
    }
  }

  lemma ListExactIff(item: Ty, inStruct: bool)
    ensures ExactFor(ListTy(item), inStruct) <==> ExactFor(item, inStruct)
  {
    hide Accepts, Compile, Clean, Carried;
    if ExactFor(item, inStruct) {
      forall j | Clean(j) && Accepts(Compile(ListTy(item)), j)
        ensures Carried(ListTy(item), j, inStruct, false)
      {
        ListAccepts(item, j);
        forall x | x in j.items
          ensures Carried(item, x, inStruct, false)
        {
          CleanItems(j.items, x);
        }
        ListCarried(item, j.items, inStruct, false);
      }
    } else {
      var j :| Clean(j) && Accepts(Compile(item), j) && !Carried(item, j, inStruct, false);
      ListAccepts(item, Arr([j]));
      SingletonCarried(item, j, inStruct);
    }
  }

  lemma CleanItems(items: seq<Json>, x: Json)
    requires Clean(Arr(items)) && x in items
    ensures Clean(x)
  {
    var i :| 0 <= i < |items| && items[i] == x;
    NormalItemAt(items, i);
  }

  lemma {:induction false} NormalItemAt(items: seq<Json>, i: nat)
    requires i < |items|
    ensures NormalItems(true, items)[i] == Normal(true, items[i])
    decreases i
  {
    if i > 0 {
      NormalItemAt(items[1..], i - 1);
    }
  }

  lemma SingletonCarried(item: Ty, j: Json, inStruct: bool)
    requires Clean(j)
    ensures Clean(Arr([j]))
    ensures Carried(ListTy(item), Arr([j]), inStruct, false) ==> Carried(item, j, inStruct, false)
  {
    NormalItemAt([j], 0);
    assert NormalItems(true, [j]) == [j];
    if Carried(ListTy(item), Arr([j]), inStruct, false) {
      var v :| Inhabits(v, ListTy(item)) && Payload(v, inStruct, false) == Arr([j]);
      hide Payload, LowerItems, NormalItems, Normal, Lower;
      ListPayload(v.items, inStruct, false);
      LowerItemAt(v.items, inStruct, false, 0);
      assert Inhabits(v.items[0], item);
    }
  }

  lemma AnnotatedExactIff(inner: Ty, inStruct: bool)
    ensures ExactFor(AnnotatedTy(inner), inStruct) <==> ExactFor(inner, inStruct)
  {
    hide Accepts, Clean, Payload;
    assert forall v: Val :: Inhabits(v, AnnotatedTy(inner)) <==> Inhabits(v, inner);
    assert forall j :: Carried(AnnotatedTy(inner), j, inStruct, false) <==> Carried(inner, j, inStruct, false);
  }

  // What one alternative accepts and does not send, no other one sends.
  lemma BadAlternativeAccepts(alts: seq<Ty>, inStruct: bool, i: nat, j: Json)
    requires Proper(UnionTy(alts)) && Fragment(UnionTy(alts), inStruct) && i < |alts|
    requires Clean(j) && Accepts(Compile(alts[i]), j) && !Carried(alts[i], j, inStruct, false)
    ensures Accepts(Compile(UnionTy(alts)), j) && !Carried(UnionTy(alts), j, inStruct, false)
  {
    hide Accepts, Compile, Payload, SentAs, Fragment, UniqueKeys;
    assert alts[i] in alts;
    UnionAccepts(alts, j);
    assert Fragment(alts[i], inStruct) by {
      FragmentParts(alts, inStruct);
    }
    if !j.Arr? && !j.Obj? {
      ScalarIsCarried(alts[i], j, inStruct);
    }
    AcceptedIsSentAs(alts[i], j);
    if Carried(UnionTy(alts), j, inStruct, false) {
      var v :| Inhabits(v, UnionTy(alts)) && Payload(v, inStruct, false) == j;
      var k :| 0 <= k < |alts| && Inhabits(v, alts[k]);
      FragmentParts(alts, inStruct);
      assert alts[k] in alts;
      FragmentHasNoDict(alts[k], v, inStruct);
      PayloadKind(v, inStruct);
      ValueIsSentAs(alts[k], v);
    }
  }

  lemma FragmentParts(alts: seq<Ty>, inStruct: bool)
    requires Fragment(UnionTy(alts), inStruct)
    ensures forall a | a in alts :: Fragment(a, inStruct)
  {
  }

  lemma PayloadKind(v: Val, inStruct: bool)
    ensures Payload(v, inStruct, false).Arr? <==> v.VList?
    ensures Payload(v, inStruct, false).Obj? ==> v.VRecord? || v.VDict?
  {
  }

  lemma UnionExactIff(alts: seq<Ty>, inStruct: bool)
    requires Proper(UnionTy(alts)) && Fragment(UnionTy(alts), inStruct)
    ensures ExactFor(UnionTy(alts), inStruct) <==> forall a | a in alts :: ExactFor(a, inStruct)
  {
    hide Accepts, Compile, Clean, Carried, Proper, Fragment;
    if i :| 0 <= i < |alts| && !ExactFor(alts[i], inStruct) {
      var j :| Clean(j) && Accepts(Compile(alts[i]), j) && !Carried(alts[i], j, inStruct, false);
      BadAlternativeAccepts(alts, inStruct, i, j);
      assert alts[i] in alts;
    } else {
      forall j | Clean(j) && Accepts(Compile(UnionTy(alts)), j)
        ensures Carried(UnionTy(alts), j, inStruct, false)
      {
        UnionAccepts(alts, j);
        var i :| 0 <= i < |alts| && Accepts(Compile(alts[i]), j);
        assert alts[i] in alts && ExactFor(alts[i], inStruct);
        UnionCarries(alts, i, j, inStruct, false);
      }
    }
  }

  // Main result on exactness: over the fragment, the schema of a soundly compiled type is exact if
  // and only if all fields of all records inside satisfy the condition.
  lemma {:induction false} CompileExactIff(ty: Ty, inStruct: bool)
    requires Proper(ty) && Good(ty, inStruct) && Fragment(ty, inStruct)
    ensures ExactFor(ty, inStruct) <==> Exactable(ty, false)
    decreases ty
  {
    hide ExactFor, ExactableField, GoodField;
    match ty
    case UnionTy(alts) =>
      forall a | a in alts
        ensures ExactFor(a, inStruct) <==> Exactable(a, false)
      {
        CompileExactIff(a, inStruct);
      }
      UnionExactIff(alts, inStruct);
    case ListTy(item) =>
      CompileExactIff(item, inStruct);
      ListExactIff(item, inStruct);
    case AnnotatedTy(inner) =>
      CompileExactIff(inner, inStruct);
      AnnotatedExactIff(inner, inStruct);
    case RecordTy(kind, omits, fields) =>
      forall f: FieldDef | f in fields && !Private(f.name)
        ensures ExactFor(f.ty, inStruct || kind.Struct?) <==> Exactable(f.ty, false)
      {
        CompileExactIff(f.ty, inStruct || kind.Struct?);
      }
      CompileSound(ty, inStruct);
      RecordExactIff(kind, omits, fields, inStruct);
      forall f: FieldDef | f in fields
        ensures Inexact(kind, omits, f) <==> !ExactableField(kind, omits, false, f)
      {
        InexactIff(kind, omits, fields, f);
      }
    case _ => ScalarExact(ty, inStruct);
  }

  lemma InexactIff(kind: Kind, omits: bool, fields: seq<FieldDef>, f: FieldDef)
    requires ProperFields(omits, fields) && f in fields
    ensures Inexact(kind, omits, f) <==> !ExactableField(kind, omits, false, f)
  {
  }

  lemma ScalarExact(ty: Ty, inStruct: bool)
    requires Fragment(ty, inStruct) && !ty.UnionTy? && !ty.ListTy? && !ty.RecordTy? && !ty.AnnotatedTy?
    ensures ExactFor(ty, inStruct)
  {
    hide Accepts, Carried, Clean;
    forall j | Clean(j) && Accepts(Compile(ty), j)
      ensures Carried(ty, j, inStruct, false)
    {
      ScalarCarries(ty, j, inStruct, false);
    }
  }

  // In terms of to_dict itself, within its bounds.
  lemma AcceptedIsSent(ty: Ty, j: Json)
    requires SoundFor(ty, false) && ExactFor(ty, false)
    requires Clean(j) && Encodable(j) && Height(j) <= MAX_RECURSION_DEPTH
    ensures Accepts(Compile(ty), j) <==> exists v :: Inhabits(v, ty) && ToDict(Lower(v, false, false)) == Ok(j)
  {
    hide Accepts, Inhabits, Lower, Normal, Height, Encodable, ToDict, UniqueKeys;
    if Accepts(Compile(ty), j) {
      assert Carried(ty, j, false, false);
      var v :| Inhabits(v, ty) && Payload(v, false, false) == j;
      var p := Lower(v, false, false);
      ToDictMeaning(p);
      ToNormal(true, p);
      EquivalentHeights(true, p, Normal(true, p));
      NormalReencodable(p);
      ReencodableEncodable(p);
      assert Inhabits(v, ty) && ToDict(Lower(v, false, false)) == Ok(j);
    } else {
      forall v | Inhabits(v, ty)
        ensures ToDict(Lower(v, false, false)) != Ok(j)
      {
        ToDictMeaning(Lower(v, false, false));
        assert Accepts(Compile(ty), Payload(v, false, false));
      }
    }
  }

  // The field shape of the repository's own models: a flag whose default is False.  The schema
  // accepts an explicit false, which is never sent.
  lemma FalseIsNeverSent()
    ensures var f := FieldDef("fallback_triggered", BoolTy, HasDefault(VBool(false)));
            var j := Obj([Field("fallback_triggered", Bool(false))]);
            var ty := RecordTy(Struct, true, [f]);
            && Proper(ty) && Good(ty, false) && Fragment(ty, false)
            && Clean(j) && Accepts(Compile(ty), j) && !Carried(ty, j, false, false)
  {
    hide Accepts, Compile, Clean, Payload;
    var f := FieldDef("fallback_triggered", BoolTy, HasDefault(VBool(false)));
    var j := Obj([Field("fallback_triggered", Bool(false))]);
    var ty := RecordTy(Struct, true, [f]);
    FlagIsProper(f);
    FlagIsAccepted(f);
    forall v | Inhabits(v, ty)
      ensures Payload(v, false, false) != j
    {
      FlagIsOmitted(f, v);
    }
    CleanIsNormal(j);
  }

  lemma CleanIsNormal(j: Json)
    requires Clean(j)
    ensures Normal(true, j) == j
  {
  }

  lemma FlagIsProper(f: FieldDef)
    requires f == FieldDef("fallback_triggered", BoolTy, HasDefault(VBool(false)))
    ensures Proper(RecordTy(Struct, true, [f])) && Good(RecordTy(Struct, true, [f]), false)
  {
    assert Inhabits(VBool(false), BoolTy);
  }

  lemma FlagIsAccepted(f: FieldDef)
    requires f == FieldDef("fallback_triggered", BoolTy, HasDefault(VBool(false)))
    ensures var j := Obj([Field("fallback_triggered", Bool(false))]);
            Clean(j) && Accepts(Compile(RecordTy(Struct, true, [f])), j)
  {
    hide Accepts;
    var g := Field("fallback_triggered", Bool(false));
    assert CompileFields([f]) == [Property("fallback_triggered", Compile(BoolTy))] + CompileFields([f][1..]);
    assert RequiredNames(Struct, [f]) == [] + RequiredNames(Struct, [f][1..]);
    RecordAccepts(CompileFields([f]), RequiredNames(Struct, [f]), Obj([g]));
    BoolAccepts(false);
    assert NormalFields(true, [g][1..]) == [];
    assert NormalFields(true, [g]) == [g];
  }

  lemma BoolAccepts(b: bool)
    ensures Accepts(Compile(BoolTy), Bool(b))
  {
  }

  lemma FlagIsOmitted(f: FieldDef, v: Val)
    requires f == FieldDef("fallback_triggered", BoolTy, HasDefault(VBool(false)))
    requires Inhabits(v, RecordTy(Struct, true, [f]))
    ensures Payload(v, false, false) != Obj([Field("fallback_triggered", Bool(false))])
  {
    hide NormalFields, LowerSlots;
    var g := Field("fallback_triggered", Bool(false));
    assert SlotFits(v.slots[0], f) && Marked(v.slots[0], f);
    if Payload(v, false, false) == Obj([g]) {
      assert g in NormalFields(true, LowerSlots(v.slots, true, true, true, false));
      var i := FieldOrigin(v.slots, true, true, true, false, g);
    }
  }
}
