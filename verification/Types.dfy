/**
 Python types as the schema compiler sees them, their values, and what orjson with the default
 handler of `to_dict` makes of a value.

 A record is a msgspec Struct or a dataclass.  A slot of a record value remembers where its value
 comes from.  A Struct that omits defaults omits a field that holds the very default object of its
 class, which equality does not decide; but of some values Python has only one object, so that a
 field holding such a default is always omitted.  So is a field with the default factory `list` or
 `dict` that holds an empty list or dict.
 */
module Types {
  import opened Doubles
  import opened Json

  datatype Kind = Struct | Dataclass

  datatype Ty =
    | AnyTy
    | StrTy
    | IntTy
    | FloatTy
    | BoolTy
    | NoneTy
    | UuidTy
    | EnumTy(members: seq<string>)
    | UnionTy(alts: seq<Ty>)
    | ListTy(item: Ty)
    | DictTy(value: Ty)
    | AnnotatedTy(inner: Ty)
    | RecordTy(kind: Kind, omits: bool, fields: seq<FieldDef>)

  datatype FieldDef = FieldDef(name: string, ty: Ty, default: Default)

  // The factories `list` and `dict` are known to msgspec; of another factory only what it makes
  // is known here.
  datatype Default = Required | HasDefault(value: Val) | HasFactory(made: Val) | BuiltinFactory(dict: bool) {
    function Value(): Val
      requires !Required?
    {
      match this
      case HasDefault(v) => v
      case HasFactory(v) => v
      case BuiltinFactory(dict) => if dict then VDict([]) else VList([])
    }

    predicate IsFactory() {
      HasFactory? || BuiltinFactory?
    }

    predicate Omittable() {
      HasDefault? || BuiltinFactory?
    }

    // Is every value like the default taken for it, wherever it comes from?
    predicate Recognised() {
      BuiltinFactory? || (HasDefault? && Interned(value))
    }
  }

  const SMALLEST_CACHED_INT := -5
  const LARGEST_CACHED_INT := 256

  // The values of which CPython has a single object.
  predicate Interned(v: Val) {
    match v
    case VNone => true
    case VBool(_) => true
    case VEnum(_) => true
    case VInt(i) => SMALLEST_CACHED_INT <= i <= LARGEST_CACHED_INT
    case VStr(s) => s == ""
    case _ => false
  }

  datatype Val =
    | VNone
    | VStr(s: string)
    | VInt(i: int)
    | VFloat(f: Float)
    | VBool(b: bool)
    | VUuid(text: string)
    | VEnum(member: string)
    | VList(items: seq<Val>)
    | VDict(entries: seq<Entry>)
    | VRecord(kind: Kind, omits: bool, slots: seq<Slot>)

  datatype Entry = Entry(key: string, value: Val)

  // Made: the product of a factory that msgspec does not know.
  datatype Origin = Given | Omittable | Made

  datatype Slot = Slot(name: string, held: Val, origin: Origin)

  predicate Private(name: string) {
    name != "" && name[0] == '_'
  }

  ghost predicate DistinctNames(fields: seq<FieldDef>) {
    forall i, j | 0 <= i < j < |fields| :: fields[i].name != fields[j].name
  }

  // ----- which values a type has

  ghost predicate Inhabits(v: Val, ty: Ty)
    decreases ty
  {
    match ty
    case AnyTy => true
    case StrTy => v.VStr?
    case IntTy => v.VInt?
    case FloatTy => v.VInt? || (v.VFloat? && (v.f.frac == "" ==> IsDouble(Truncated(v.f))))
    case BoolTy => v.VBool?
    case NoneTy => v.VNone?
    case UuidTy => v.VUuid?
    case EnumTy(members) => v.VEnum? && v.member in members
    case UnionTy(alts) => exists a | a in alts :: Inhabits(v, a)
    case ListTy(item) => v.VList? && forall x | x in v.items :: Inhabits(x, item)
    case DictTy(value) => v.VDict? && forall e | e in v.entries :: Inhabits(e.value, value)
    case AnnotatedTy(inner) => Inhabits(v, inner)
    case RecordTy(kind, omits, fields) =>
      && v.VRecord? && v.kind == kind && v.omits == omits && |v.slots| == |fields|
      && (forall i | 0 <= i < |fields| :: SlotFits(v.slots[i], fields[i]))
      && (omits ==> forall i | 0 <= i < |fields| :: Marked(v.slots[i], fields[i]))
  }

  ghost predicate SlotFits(s: Slot, f: FieldDef)
    decreases f
  {
    && s.name == f.name
    && Inhabits(s.held, f.ty)
    && match s.origin
       case Given => true
       case Omittable => f.default.Omittable() && s.held == f.default.Value()
       case Made => f.default.HasFactory? && s.held == f.default.made
  }

  // What is recognised as the default is omitted wherever it comes from.
  ghost predicate Marked(s: Slot, f: FieldDef) {
    IsBlank(f, s.held) ==> s.origin.Omittable?
  }

  predicate IsBlank(f: FieldDef, v: Val) {
    f.default.Recognised() && v == f.default.Value()
  }

  // The slot that holds v when it is passed in, and the slot when nothing is.
  function Filled(f: FieldDef, v: Val): Slot {
    Slot(f.name, v, if IsBlank(f, v) then Omittable else Given)
  }

  function Defaulted(f: FieldDef): Slot
    requires !f.default.Required?
  {
    Slot(f.name, f.default.Value(), if f.default.Omittable() then Omittable else Made)
  }

  // Which values count as the default of a field wherever they come from: an empty list or dict for
  // the factory of that name, and a default of which there is only one object.
  lemma BlankMeaning(f: FieldDef, v: Val)
    ensures IsBlank(f, v) <==>
            || (f.default == BuiltinFactory(true) && v == VDict([]))
            || (f.default == BuiltinFactory(false) && v == VList([]))
            || (f.default == HasDefault(v) &&
                (v == VNone || v.VBool? || v.VEnum? || v == VStr("") || (v.VInt? && -5 <= v.i <= 256)))
  {
  }

  // ----- what a value is encoded as

  // A Struct is handed to the default handler, which converts it with everything inside it and
  // then removes the private fields of the outermost Struct only.  A dataclass never shows its
  // private fields.  With `lean` set, every value that was not passed in is omitted, from all
  // records.
  function Lower(v: Val, inStruct: bool, lean: bool): Json
    decreases v, 1
  {
    match v
    case VNone => Null
    case VStr(s) => Str(s)
    case VInt(i) => Int(i)
    case VFloat(f) => Real(f)
    case VBool(b) => Bool(b)
    case VUuid(text) => Str(text)
    case VEnum(member) => Str(member)
    case VList(items) => Arr(LowerItems(items, inStruct, lean))
    case VDict(entries) => Obj(LowerEntries(entries, inStruct, lean))
    case VRecord(kind, omits, slots) =>
      Obj(LowerSlots(slots, kind.Dataclass? || !inStruct, omits, inStruct || kind.Struct?, lean))
  }

  function LowerItems(items: seq<Val>, inStruct: bool, lean: bool): (r: seq<Json>)
    ensures |r| == |items|
    decreases items, 0
  {
    if items == [] then [] else [Lower(items[0], inStruct, lean)] + LowerItems(items[1..], inStruct, lean)
  }

  function LowerEntries(entries: seq<Entry>, inStruct: bool, lean: bool): seq<Field>
    decreases entries, 0
  {
    if entries == [] then []
    else [Field(entries[0].key, Lower(entries[0].value, inStruct, lean))] + LowerEntries(entries[1..], inStruct, lean)
  }

  predicate Omitted(s: Slot, omits: bool, lean: bool) {
    (omits && s.origin.Omittable?) || (lean && !s.origin.Given?)
  }

  predicate Emitted(s: Slot, strips: bool, omits: bool, lean: bool) {
    !Omitted(s, omits, lean) && !(strips && Private(s.name))
  }

  function LowerSlots(slots: seq<Slot>, strips: bool, omits: bool, inStruct: bool, lean: bool): seq<Field>
    decreases slots, 0
  {
    if slots == [] then []
    else
      (if Emitted(slots[0], strips, omits, lean) then [Field(slots[0].name, Lower(slots[0].held, inStruct, lean))] else []) +
      LowerSlots(slots[1..], strips, omits, inStruct, lean)
  }

  // The payload form of a value: what to_dict returns for it within its bounds.
  function Payload(v: Val, inStruct: bool, lean: bool): Json {
    Normal(true, Lower(v, inStruct, lean))
  }

  // A JSON value as the plain Python object it is.
  function Raise(j: Json): Val
    decreases j, 1
  {
    match j
    case Null => VNone
    case Bool(b) => VBool(b)
    case Int(i) => VInt(i)
    case Real(f) => VFloat(f)
    case Str(s) => VStr(s)
    case Arr(items) => VList(RaiseItems(items))
    case Obj(fields) => VDict(RaiseFields(fields))
  }

  function RaiseItems(items: seq<Json>): seq<Val>
    decreases items, 0
  {
    if items == [] then [] else [Raise(items[0])] + RaiseItems(items[1..])
  }

  function RaiseFields(fields: seq<Field>): seq<Entry>
    decreases fields, 0
  {
    if fields == [] then [] else [Entry(fields[0].key, Raise(fields[0].value))] + RaiseFields(fields[1..])
  }

  lemma {:induction false} RaiseLower(j: Json, inStruct: bool)
    ensures Lower(Raise(j), inStruct, false) == j
    decreases j, 1
  {
    match j
    case Arr(items) => RaiseLowerItems(items, inStruct);
    case Obj(fields) => RaiseLowerFields(fields, inStruct);
    case _ =>
  }

  lemma {:induction false} RaiseLowerItems(items: seq<Json>, inStruct: bool)
    ensures LowerItems(RaiseItems(items), inStruct, false) == items
    decreases items, 0
  {
    if items != [] {
      RaiseLower(items[0], inStruct);
      RaiseLowerItems(items[1..], inStruct);
      assert RaiseItems(items)[1..] == RaiseItems(items[1..]);
    }
  }

  lemma {:induction false} RaiseLowerFields(fields: seq<Field>, inStruct: bool)
    ensures LowerEntries(RaiseFields(fields), inStruct, false) == fields
    decreases fields, 0
  {
    if fields != [] {
      RaiseLower(fields[0].value, inStruct);
      RaiseLowerFields(fields[1..], inStruct);
      assert RaiseFields(fields)[1..] == RaiseFields(fields[1..]);
      assert [fields[0]] + fields[1..] == fields;
    }
  }

  // ----- the fields of a payload

  lemma LowerNull(v: Val, inStruct: bool, lean: bool)
    ensures Lower(v, inStruct, lean).Null? <==> v.VNone?
    ensures Payload(v, inStruct, lean).Null? <==> v.VNone?
  {
  }

  lemma {:induction false} LowerItemAt(items: seq<Val>, inStruct: bool, lean: bool, i: nat)
    requires i < |items|
    ensures NormalItems(true, LowerItems(items, inStruct, lean))[i] == Payload(items[i], inStruct, lean)
    decreases i
  {
    if i > 0 {
      LowerItemAt(items[1..], inStruct, lean, i - 1);
    }
  }

  // Values that hold no others: an integral float is sent as an int, a UUID and an enum member as
  // their text.
  lemma ScalarPayload(s: string, i: int, f: Float, b: bool, inStruct: bool, lean: bool)
    ensures Payload(VNone, inStruct, lean) == Null
    ensures Payload(VStr(s), inStruct, lean) == Payload(VUuid(s), inStruct, lean) == Payload(VEnum(s), inStruct, lean) == Str(s)
    ensures Payload(VInt(i), inStruct, lean) == Int(i)
    ensures Payload(VFloat(f), inStruct, lean) == if f.frac == "" then Int(Truncated(f)) else Real(f)
    ensures Payload(VBool(b), inStruct, lean) == Bool(b)
  {
  }

  ghost predicate Shown(s: Slot, strips: bool, omits: bool, lean: bool) {
    Emitted(s, strips, omits, lean) && !s.held.VNone?
  }

  // A slot that is shown appears in the payload.
  lemma {:induction false} SlotAppears(slots: seq<Slot>, strips: bool, omits: bool, inStruct: bool, lean: bool, i: nat)
    requires i < |slots| && Shown(slots[i], strips, omits, lean)
    ensures Field(slots[i].name, Payload(slots[i].held, inStruct, lean)) in
            NormalFields(true, LowerSlots(slots, strips, omits, inStruct, lean))
    decreases i
  {
    var rest := LowerSlots(slots[1..], strips, omits, inStruct, lean);
    var g := Field(slots[i].name, Payload(slots[i].held, inStruct, lean));
    if Emitted(slots[0], strips, omits, lean) {
      var f := Field(slots[0].name, Lower(slots[0].held, inStruct, lean));
      assert ([f] + rest)[1..] == rest;
      LowerNull(slots[0].held, inStruct, lean);
      InsertMember(Field(f.key, Normal(true, f.value)), NormalFields(true, rest), g);
    } else {
      assert [] + rest == rest;
    }
    if i > 0 {
      SlotAppears(slots[1..], strips, omits, inStruct, lean, i - 1);
    }
  }

  // Every field of a payload comes from a slot that is shown.
  lemma {:induction false} FieldOrigin(slots: seq<Slot>, strips: bool, omits: bool, inStruct: bool, lean: bool,
      g: Field)
    returns (i: nat)
    requires g in NormalFields(true, LowerSlots(slots, strips, omits, inStruct, lean))
    ensures i < |slots| && Shown(slots[i], strips, omits, lean)
    ensures g == Field(slots[i].name, Payload(slots[i].held, inStruct, lean))
  {
    var rest := LowerSlots(slots[1..], strips, omits, inStruct, lean);
    if Emitted(slots[0], strips, omits, lean) {
      var f := Field(slots[0].name, Lower(slots[0].held, inStruct, lean));
      assert ([f] + rest)[1..] == rest;
      LowerNull(slots[0].held, inStruct, lean);
      InsertMember(Field(f.key, Normal(true, f.value)), NormalFields(true, rest), g);
      if !slots[0].held.VNone? && g == Field(f.key, Normal(true, f.value)) {
        return 0;
      }
    } else {
      assert [] + rest == rest;
    }
    var k := FieldOrigin(slots[1..], strips, omits, inStruct, lean, g);
    i := k + 1;
  }

  // Main result: which fields of a record are in its payload.  None is not, a default of a record
  // that omits defaults is not, and a private field is in it only for a Struct inside a Struct.
  lemma RecordShows(v: Val, inStruct: bool, key: string)
    requires v.VRecord?
    ensures var j := Payload(v, inStruct, false);
            j.Obj? && ((exists g | g in j.fields :: g.key == key) <==>
                       exists i | 0 <= i < |v.slots| :: v.slots[i].name == key && v.slots[i].held != VNone &&
                         !(v.omits && v.slots[i].origin == Omittable) &&
                         (key != "" && key[0] == '_' ==> v.kind == Struct && inStruct))
  {
    hide Lower, Normal;
    var strips, within := v.kind.Dataclass? || !inStruct, inStruct || v.kind.Struct?;
    RecordEncoding(v, inStruct);
    var fields := NormalFields(true, LowerSlots(v.slots, strips, v.omits, within, false));
    if g :| g in fields && g.key == key {
      var i := FieldOrigin(v.slots, strips, v.omits, within, false, g);
    }
    forall i | 0 <= i < |v.slots| && v.slots[i].name == key && Shown(v.slots[i], strips, v.omits, false)
      ensures exists g | g in fields :: g.key == key
    {
      SlotAppears(v.slots, strips, v.omits, within, false, i);
    }
  }

  lemma RecordEncoding(v: Val, inStruct: bool)
    requires v.VRecord?
    ensures Payload(v, inStruct, false) == Obj(NormalFields(true,
              LowerSlots(v.slots, v.kind.Dataclass? || !inStruct, v.omits, inStruct || v.kind.Struct?, false)))
  {
  }
}
