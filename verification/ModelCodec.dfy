/**
 `from_dict` on canonical payloads: msgspec's conversion of a JSON value to a type, for the shape
 of types the shared models have.  Every payload of a type is read back as a value of the type, and
 the payload of that value is known.
 */
module ModelCodec {
  import opened Wrappers
  import opened Json
  import opened Equivalence
  import opened Canonical
  import opened Doubles
  import opened Types
  import opened Schema
  import opened SchemaMeaning
  import opened SchemaExactness

  // ----- conversion

  function Find(fields: seq<Field>, key: string): Option<Json> {
    if fields == [] then None
    else if fields[0].key == key then Some(fields[0].value)
    else Find(fields[1..], key)
  }

  // Of the unions only `X | None` is supported.
  function Convert(ty: Ty, j: Json): Option<Val>
    decreases ty, 1
  {
    match ty
    case AnyTy => Some(Raise(j))
    case StrTy => if j.Str? then Some(VStr(j.s)) else None
    case IntTy => if j.Int? then Some(VInt(j.i)) else None
    case FloatTy =>
      if j.Real? then Some(VFloat(if Integral(j) then OfInt(Round(Truncated(j.f))) else j.f))
      else if j.Int? then Some(VFloat(OfInt(Round(j.i))))
      else None
    case BoolTy => if j.Bool? then Some(VBool(j.b)) else None
    case NoneTy => if j.Null? then Some(VNone) else None
    case UuidTy => if j.Str? then Some(VUuid(j.s)) else None
    case EnumTy(members) => if j.Str? && j.s in members then Some(VEnum(j.s)) else None
    case UnionTy(alts) =>
      if |alts| != 2 || alts[1] != NoneTy then None
      else if j.Null? then Some(VNone)
      else Convert(alts[0], j)
    case ListTy(item) =>
      if !j.Arr? then None
      else
        var r := ConvertItems(item, j.items);
        if r.Some? then Some(VList(r.value)) else None
    case DictTy(value) =>
      if !j.Obj? then None
      else
        var r := ConvertEntries(value, j.fields);
        if r.Some? then Some(VDict(r.value)) else None
    case AnnotatedTy(inner) => Convert(inner, j)
    case RecordTy(kind, omits, fields) =>
      if !j.Obj? then None
      else
        var r := ConvertFields(fields, j.fields);
        if r.Some? then Some(VRecord(kind, omits, r.value)) else None
  }

  function ConvertItems(item: Ty, js: seq<Json>): Option<seq<Val>>
    decreases item, 2, js
  {
    if js == [] then Some([])
    else
      var v, rest := Convert(item, js[0]), ConvertItems(item, js[1..]);
      if v.Some? && rest.Some? then Some([v.value] + rest.value) else None
  }

  function ConvertEntries(value: Ty, js: seq<Field>): Option<seq<Entry>>
    decreases value, 2, js
  {
    if js == [] then Some([])
    else
      var v, rest := Convert(value, js[0].value), ConvertEntries(value, js[1..]);
      if v.Some? && rest.Some? then Some([Entry(js[0].key, v.value)] + rest.value) else None
  }

  function ConvertFields(fields: seq<FieldDef>, js: seq<Field>): Option<seq<Slot>>
    decreases fields, 0
  {
    if fields == [] then Some([])
    else
      var slot, rest := ConvertField(fields[0], js), ConvertFields(fields[1..], js);
      if slot.Some? && rest.Some? then Some([slot.value] + rest.value) else None
  }

  // A missing key takes the default; without one it is an error.
  function ConvertField(f: FieldDef, js: seq<Field>): Option<Slot>
    decreases f
  {
    match Find(js, f.name)
    case Some(j) =>
      var v := Convert(f.ty, j);
      if v.Some? then Some(Filled(f, v.value)) else None
    case None =>
      if f.default.Required? then None else Some(Defaulted(f))
  }

  // None and, for a Struct, everything but a dict are handed back unchanged.
  function FromDict(ty: Ty, j: Json): Option<Val> {
    if j.Null? then Some(VNone)
    else if ty.RecordTy? && ty.kind.Struct? && !j.Obj? then Some(Raise(j))
    else Convert(ty, j)
  }

  // ----- what conversion accepts

  ghost predicate ProperDefaults(ty: Ty)
    decreases ty
  {
    match ty
    case UnionTy(alts) => forall a | a in alts :: ProperDefaults(a)
    case ListTy(item) => ProperDefaults(item)
    case DictTy(value) => ProperDefaults(value)
    case AnnotatedTy(inner) => ProperDefaults(inner)
    case RecordTy(_, _, fields) =>
      forall f: FieldDef | f in fields ::
        ProperDefaults(f.ty) && (!f.default.Required? ==> Inhabits(f.default.Value(), f.ty))
    case _ => true
  }

  // Whatever conversion returns is a value of the type.
  lemma {:induction false} ConvertedInhabits(ty: Ty, j: Json)
    requires ProperDefaults(ty) && Convert(ty, j).Some?
    ensures Inhabits(Convert(ty, j).value, ty)
    decreases ty, 1
  {
    match ty
    case FloatTy =>
      if j.Int? {
        RoundKeeps(j.i);
      } else if Integral(j) {
        RoundKeeps(Truncated(j.f));
      }
    case UnionTy(alts) =>
      if j.Null? {
        assert alts[1] in alts && Inhabits(VNone, NoneTy);
      } else {
        ConvertedInhabits(alts[0], j);
        assert alts[0] in alts;
      }
    case ListTy(item) => ConvertedItemsInhabit(item, j.items);
    case DictTy(value) => ConvertedEntriesInhabit(value, j.fields);
    case AnnotatedTy(inner) => ConvertedInhabits(inner, j);
    case RecordTy(_, _, fields) => ConvertedFieldsInhabit(fields, j.fields);
    case _ =>
  }

  lemma {:induction false} ConvertedItemsInhabit(item: Ty, js: seq<Json>)
    requires ProperDefaults(item) && ConvertItems(item, js).Some?
    ensures forall v | v in ConvertItems(item, js).value :: Inhabits(v, item)
    decreases item, 2, js
  {
    if js != [] {
      hide Convert, Inhabits, ProperDefaults;
      ConvertedInhabits(item, js[0]);
      ConvertedItemsInhabit(item, js[1..]);
    }
  }

  lemma {:induction false} ConvertedEntriesInhabit(value: Ty, js: seq<Field>)
    requires ProperDefaults(value) && ConvertEntries(value, js).Some?
    ensures forall e: Entry | e in ConvertEntries(value, js).value :: Inhabits(e.value, value)
    decreases value, 2, js
  {
    if js != [] {
      hide Convert, Inhabits, ProperDefaults;
      ConvertedInhabits(value, js[0].value);
      ConvertedEntriesInhabit(value, js[1..]);
    }
  }

  lemma {:induction false} ConvertedFieldsInhabit(fields: seq<FieldDef>, js: seq<Field>)
    requires forall f: FieldDef | f in fields ::
               ProperDefaults(f.ty) && (!f.default.Required? ==> Inhabits(f.default.Value(), f.ty))
    requires ConvertFields(fields, js).Some?
    ensures var slots := ConvertFields(fields, js).value;
            |slots| == |fields| && forall i | 0 <= i < |fields| :: SlotFits(slots[i], fields[i]) && Marked(slots[i], fields[i])
    decreases fields, 0
  {
    if fields != [] {
      hide Inhabits, ProperDefaults, ConvertField, SlotFits, Marked;
      assert fields[0] in fields && forall g | g in fields[1..] :: g in fields;
      ConvertedFieldInhabits(fields[0], js);
      ConvertedFieldsInhabit(fields[1..], js);
    }
  }

  lemma {:induction false} ConvertedFieldInhabits(f: FieldDef, js: seq<Field>)
    requires ProperDefaults(f.ty) && (!f.default.Required? ==> Inhabits(f.default.Value(), f.ty))
    requires ConvertField(f, js).Some?
    ensures SlotFits(ConvertField(f, js).value, f) && Marked(ConvertField(f, js).value, f)
    decreases f
  {
    hide Inhabits, ProperDefaults, Convert;
    if Find(js, f.name).Some? {
      ConvertedInhabits(f.ty, Find(js, f.name).value);
      FilledFits(f, Convert(f.ty, Find(js, f.name).value).value);
    }
  }

  // A record is read field by field: a key that is there must convert, a missing key takes the
  // default, and without a default it is refused.
  lemma {:induction false} FieldsConverted(fields: seq<FieldDef>, js: seq<Field>, i: nat)
    requires DistinctKeys(js) && i < |fields|
    ensures fields[i].default.Required? && !HasKey(js, fields[i].name) ==> ConvertFields(fields, js).None?
    ensures forall g: Field | g in js && g.key == fields[i].name :: Convert(fields[i].ty, g.value).None? ==>
              ConvertFields(fields, js).None?
    ensures ConvertFields(fields, js).Some? ==>
              var slots := ConvertFields(fields, js).value;
              && |slots| == |fields| && slots[i].name == fields[i].name
              && (forall g: Field | g in js && g.key == fields[i].name ::
                    Convert(fields[i].ty, g.value) == Some(slots[i].held))
              && (!HasKey(js, fields[i].name) ==>
                    match fields[i].default
                    case HasDefault(v) => slots[i].held == v
                    case HasFactory(v) => slots[i].held == v
                    case BuiltinFactory(dict) => slots[i].held == if dict then VDict([]) else VList([])
                    case Required => false)
    decreases i
  {
    hide Convert;
    FindMember(js, fields[i].name);
    if i > 0 {
      FieldsConverted(fields[1..], js, i - 1);
    } else if fields[1..] != [] {
      FieldsConvertedLength(fields[1..], js);
    }
  }

  lemma {:induction false} FieldsConvertedLength(fields: seq<FieldDef>, js: seq<Field>)
    ensures ConvertFields(fields, js).Some? ==> |ConvertFields(fields, js).value| == |fields|
  {
    hide ConvertField;
    if fields != [] {
      FieldsConvertedLength(fields[1..], js);
    }
  }

  // What conversion refuses, type by type; None and, for a Struct, everything but a dict are handed
  // back unchanged by from_dict.
  lemma ConvertMeaning(ty: Ty, j: Json)
    ensures ty.StrTy? || ty.UuidTy? ==> (Convert(ty, j).Some? <==> j.Str?)
    ensures ty.IntTy? ==> (Convert(ty, j).Some? <==> j.Int?)
    ensures ty.FloatTy? ==> (Convert(ty, j).Some? <==> j.Int? || j.Real?)
    ensures ty.BoolTy? ==> (Convert(ty, j).Some? <==> j.Bool?)
    ensures ty.NoneTy? ==> (Convert(ty, j).Some? <==> j.Null?)
    ensures ty.EnumTy? ==> (Convert(ty, j).Some? <==> j.Str? && j.s in ty.members)
    ensures ty.ListTy? && !j.Arr? ==> Convert(ty, j).None?
    ensures (ty.DictTy? || ty.RecordTy?) && !j.Obj? ==> Convert(ty, j).None?
    ensures FromDict(ty, Null) == Some(VNone)
    ensures ty.RecordTy? && ty.kind.Struct? && !j.Null? && !j.Obj? ==> FromDict(ty, j) == Some(Raise(j))
    ensures j.Obj? || (!j.Null? && !(ty.RecordTy? && ty.kind.Struct?)) ==> FromDict(ty, j) == Convert(ty, j)
  {
    hide ConvertItems, ConvertEntries, ConvertFields, Raise;
  }

  // ----- the types of the shared models

  // Unions are `X | None` only, no field is private, and a field that may be None defaults to None.
  ghost predicate Shared(ty: Ty)
    decreases ty
  {
    match ty
    case UnionTy(alts) => |alts| == 2 && alts[1] == NoneTy && Shared(alts[0])
    case ListTy(item) => Shared(item)
    case DictTy(value) => Shared(value)
    case AnnotatedTy(inner) => Shared(inner)
    case RecordTy(kind, omits, fields) =>
      DistinctNames(fields) && forall f: FieldDef | f in fields :: SharedField(f) && Shared(f.ty)
    case _ => true
  }

  ghost predicate SharedField(f: FieldDef) {
    && !Private(f.name)
    && (Inhabits(VNone, f.ty) ==> f.default == HasDefault(VNone))
    && (!f.default.Required? ==> Inhabits(f.default.Value(), f.ty))
  }

  // ----- what is sent the next time

  // Does the field's payload become what is recognised as the default?
  predicate Blank(f: FieldDef, j: Json) {
    f.default.Recognised() && Convert(f.ty, j) == Some(f.default.Value())
  }

  // Ints in float positions are rounded, and what is recognised as a default is left out.
  function Resent(ty: Ty, j: Json): Json
    decreases ty, 1
  {
    match ty
    case FloatTy => if j.Int? then Int(Round(j.i)) else j
    case UnionTy(alts) => if j.Null? || alts == [] then j else Resent(alts[0], j)
    case ListTy(item) => if j.Arr? then Arr(ResentItems(item, j.items)) else j
    case DictTy(value) => if j.Obj? then Obj(ResentEntries(value, j.fields)) else j
    case AnnotatedTy(inner) => Resent(inner, j)
    case RecordTy(_, omits, fields) => if j.Obj? then Obj(ResentFields(omits, fields, j.fields)) else j
    case _ => j
  }

  function ResentItems(item: Ty, js: seq<Json>): (r: seq<Json>)
    ensures |r| == |js|
    decreases item, 2, js
  {
    if js == [] then [] else [Resent(item, js[0])] + ResentItems(item, js[1..])
  }

  function ResentEntries(value: Ty, js: seq<Field>): (r: seq<Field>)
    ensures |r| == |js|
    decreases value, 2, js
  {
    if js == [] then [] else [Field(js[0].key, Resent(value, js[0].value))] + ResentEntries(value, js[1..])
  }

  function FieldOf(fields: seq<FieldDef>, key: string): (r: Option<FieldDef>)
    ensures r.Some? ==> r.value in fields && r.value.name == key
  {
    if fields == [] then None
    else if fields[0].name == key then Some(fields[0])
    else FieldOf(fields[1..], key)
  }

  function ResentFields(omits: bool, fields: seq<FieldDef>, js: seq<Field>): seq<Field>
    decreases fields, 2, js
  {
    if js == [] then []
    else
      var f := FieldOf(fields, js[0].key);
      var rest := ResentFields(omits, fields, js[1..]);
      if f.None? || (omits && Blank(f.value, js[0].value)) then rest
      else [Field(js[0].key, Resent(f.value.ty, js[0].value))] + rest
  }

  // A test on a payload: every int outside the float positions fits 64 bits.
  ghost predicate Resendable(ty: Ty, j: Json)
    decreases ty
  {
    match ty
    case FloatTy => true
    case UnionTy(alts) => j.Null? || alts == [] || Resendable(alts[0], j)
    case ListTy(item) => j.Arr? ==> forall x | x in j.items :: Resendable(item, x)
    case DictTy(value) => j.Obj? ==> forall g: Field | g in j.fields :: Resendable(value, g.value)
    case AnnotatedTy(inner) => Resendable(inner, j)
    case RecordTy(_, _, fields) =>
      j.Obj? ==>
        forall g: Field | g in j.fields ::
          var f := FieldOf(fields, g.key);
          f.Some? ==> Resendable(f.value.ty, g.value)
    case _ => Encodable(j)
  }

  // What is proved of every conversion: it succeeds with a value of the type whose payload is
  // known, and this value can be encoded exactly when the test says so.
  ghost predicate ReadsBack(ty: Ty, j: Json, inStruct: bool) {
    var r := Convert(ty, j);
    r.Some? && Inhabits(r.value, ty) && Payload(r.value, inStruct, false) == Resent(ty, j)
  }

  ghost predicate SendsAgain(ty: Ty, j: Json, inStruct: bool)
    requires Convert(ty, j).Some?
  {
    Encodable(Lower(Convert(ty, j).value, inStruct, false)) <==> Resendable(ty, j)
  }

  // What is sent the next time is read as the same value.
  ghost predicate ConvertsAgain(ty: Ty, j: Json) {
    Convert(ty, Resent(ty, j)) == Convert(ty, j)
  }

  ghost predicate Restores(ty: Ty, j: Json, inStruct: bool) {
    ReadsBack(ty, j, inStruct) && SendsAgain(ty, j, inStruct) && ConvertsAgain(ty, j)
  }

  // ----- auxiliary facts

  lemma {:induction false} FindMember(fields: seq<Field>, key: string)
    ensures match Find(fields, key)
            case Some(j) => Field(key, j) in fields
            case None => !HasKey(fields, key)
  {
    if fields != [] && fields[0].key != key {
      FindMember(fields[1..], key);
      assert fields == [fields[0]] + fields[1..];
    }
  }

  lemma {:induction false} EntryOrigin(entries: seq<Entry>, inStruct: bool, g: Field) returns (i: nat)
    requires g in NormalFields(true, LowerEntries(entries, inStruct, false))
    ensures i < |entries| && g == Field(entries[i].key, Payload(entries[i].value, inStruct, false)) && !g.value.Null?
  {
    var f := Field(entries[0].key, Lower(entries[0].value, inStruct, false));
    var rest := LowerEntries(entries[1..], inStruct, false);
    assert ([f] + rest)[1..] == rest;
    LowerNull(entries[0].value, inStruct, false);
    InsertMember(Field(f.key, Normal(true, f.value)), NormalFields(true, rest), g);
    if !f.value.Null? && g == Field(f.key, Normal(true, f.value)) {
      return 0;
    }
    var k := EntryOrigin(entries[1..], inStruct, g);
    i := k + 1;
  }

  // ----- conversion restores

  lemma {:induction false} ResentNull(ty: Ty, j: Json)
    ensures Resent(ty, j).Null? <==> j.Null?
    decreases ty
  {
    match ty
    case UnionTy(alts) =>
      if !j.Null? && alts != [] {
        ResentNull(alts[0], j);
      }
    case AnnotatedTy(inner) => ResentNull(inner, j);
    case _ =>
  }

  lemma {:induction false} ItemsRestore(item: Ty, js: seq<Json>, inStruct: bool)
    requires forall x | x in js :: ReadsBack(item, x, inStruct)
    ensures ConvertItems(item, js).Some?
    ensures forall x | x in ConvertItems(item, js).value :: Inhabits(x, item)
    ensures NormalItems(true, LowerItems(ConvertItems(item, js).value, inStruct, false)) == ResentItems(item, js)
    decreases js
  {
    if js != [] {
      hide Convert, Lower, Normal, Inhabits, Resent;
      assert ReadsBack(item, js[0], inStruct);
      ItemsRestore(item, js[1..], inStruct);
      var items := ConvertItems(item, js).value;
      assert items[1..] == ConvertItems(item, js[1..]).value;
      assert js == [js[0]] + js[1..];
    }
  }

  ghost predicate AllEncodable(xs: seq<Json>) {
    forall x | x in xs :: Encodable(x)
  }

  ghost predicate AllResendable(item: Ty, js: seq<Json>) {
    forall x | x in js :: Resendable(item, x)
  }

  lemma ConsEncodable(x: Json, xs: seq<Json>)
    ensures AllEncodable([x] + xs) <==> Encodable(x) && AllEncodable(xs)
  {
    hide Encodable;
    assert forall y :: y in [x] + xs <==> y == x || y in xs;
  }

  lemma {:induction false} ItemsEncodable(item: Ty, js: seq<Json>, inStruct: bool)
    requires forall x | x in js :: Restores(item, x, inStruct)
    requires ConvertItems(item, js).Some?
    ensures AllEncodable(LowerItems(ConvertItems(item, js).value, inStruct, false)) <==> AllResendable(item, js)
    decreases js
  {
    if js != [] {
      hide Convert, Lower, Payload, Inhabits, Resent, Encodable, AllEncodable, Resendable;
      assert js[0] in js && Restores(item, js[0], inStruct);
      var items, v := ConvertItems(item, js).value, Convert(item, js[0]).value;
      ItemsEncodable(item, js[1..], inStruct);
      assert items[1..] == ConvertItems(item, js[1..]).value;
      ConsEncodable(Lower(v, inStruct, false), LowerItems(items[1..], inStruct, false));
      assert forall x :: x in js <==> x == js[0] || x in js[1..];
    }
  }

  lemma {:induction false} ItemsConvertAgain(item: Ty, js: seq<Json>)
    requires forall x | x in js :: ConvertsAgain(item, x)
    ensures ConvertItems(item, ResentItems(item, js)) == ConvertItems(item, js)
    decreases js
  {
    if js != [] {
      hide Convert, Resent;
      assert js[0] in js && ConvertsAgain(item, js[0]);
      ItemsConvertAgain(item, js[1..]);
      assert ResentItems(item, js)[1..] == ResentItems(item, js[1..]);
    }
  }

  lemma {:induction false} EntriesConvertAgain(value: Ty, js: seq<Field>)
    requires forall g: Field | g in js :: ConvertsAgain(value, g.value)
    ensures ConvertEntries(value, ResentEntries(value, js)) == ConvertEntries(value, js)
    decreases js
  {
    if js != [] {
      hide Convert, Resent;
      assert js[0] in js && ConvertsAgain(value, js[0].value);
      EntriesConvertAgain(value, js[1..]);
      assert ResentEntries(value, js)[1..] == ResentEntries(value, js[1..]);
    }
  }

  // A smaller key goes in front.
  lemma InsertFront(f: Field, rest: seq<Field>)
    requires rest != [] ==> !Before(rest[0].key, f.key)
    ensures Insert(f, rest) == [f] + rest
  {
  }

  lemma NormalCons(f: Field, rest: seq<Field>)
    requires !f.value.Null?
    ensures NormalFields(true, [f] + rest) == Insert(Field(f.key, Normal(true, f.value)), NormalFields(true, rest))
  {
    assert ([f] + rest)[1..] == rest;
  }

  lemma LowerCons(e: Entry, rest: seq<Entry>, inStruct: bool)
    ensures LowerEntries([e] + rest, inStruct, false) ==
            [Field(e.key, Lower(e.value, inStruct, false))] + LowerEntries(rest, inStruct, false)
  {
    assert ([e] + rest)[1..] == rest;
  }

  lemma {:induction false} EntriesRestore(value: Ty, js: seq<Field>, inStruct: bool)
    requires Ascending(js)
    requires forall g: Field | g in js :: !g.value.Null? && ReadsBack(value, g.value, inStruct)
    ensures ConvertEntries(value, js).Some?
    ensures forall e: Entry | e in ConvertEntries(value, js).value :: Inhabits(e.value, value)
    ensures NormalFields(true, LowerEntries(ConvertEntries(value, js).value, inStruct, false)) == ResentEntries(value, js)
    decreases js
  {
    if js != [] {
      hide Convert, Lower, Normal, NormalFields, LowerEntries, Inhabits, Before, Insert, Resent;
      var g, rest := js[0], js[1..];
      assert ReadsBack(value, g.value, inStruct);
      assert forall i | 0 <= i < |rest| :: rest[i] == js[i + 1];
      EntriesRestore(value, rest, inStruct);
      var v, entries := Convert(value, g.value).value, ConvertEntries(value, rest).value;
      LowerNull(v, inStruct, false);
      ResentNull(value, g.value);
      LowerCons(Entry(g.key, v), entries, inStruct);
      NormalCons(Field(g.key, Lower(v, inStruct, false)), LowerEntries(entries, inStruct, false));
      InsertFront(Field(g.key, Resent(value, g.value)), ResentEntries(value, rest));
    } else {
      assert LowerEntries([], inStruct, false) == [];
    }
  }

  lemma {:induction false} EntriesEncodable(value: Ty, js: seq<Field>, inStruct: bool)
    requires forall g: Field | g in js :: Restores(value, g.value, inStruct)
    requires ConvertEntries(value, js).Some?
    ensures (forall f: Field | f in LowerEntries(ConvertEntries(value, js).value, inStruct, false) :: Encodable(f.value)) <==>
            (forall g: Field | g in js :: Resendable(value, g.value))
    decreases js
  {
    if js != [] {
      hide Convert, Lower, Payload, Inhabits, Resent, Encodable, Resendable;
      assert js[0] in js && Restores(value, js[0].value, inStruct);
      var entries, v := ConvertEntries(value, js).value, Convert(value, js[0].value).value;
      EntriesEncodable(value, js[1..], inStruct);
      assert entries == [Entry(js[0].key, v)] + ConvertEntries(value, js[1..]).value;
      assert entries[1..] == ConvertEntries(value, js[1..]).value;
      assert LowerEntries(entries, inStruct, false) ==
             [Field(js[0].key, Lower(v, inStruct, false))] + LowerEntries(entries[1..], inStruct, false);
      assert forall g: Field :: g in js <==> g == js[0] || g in js[1..];
    }
  }

  // ----- fields

  lemma {:induction false} FieldOfNamed(fields: seq<FieldDef>, f: FieldDef)
    requires DistinctNames(fields) && f in fields
    ensures FieldOf(fields, f.name) == Some(f)
  {
    if fields[0] != f {
      assert f in fields[1..];
      var i :| 0 <= i < |fields[1..]| && fields[1..][i] == f;
      assert fields[i + 1] == f;
      FieldOfNamed(fields[1..], f);
    }
  }

  ghost predicate Kept(omits: bool, fields: seq<FieldDef>, g: Field) {
    var f := FieldOf(fields, g.key);
    f.Some? && !(omits && Blank(f.value, g.value))
  }

  lemma {:induction false} ResentMember(omits: bool, fields: seq<FieldDef>, js: seq<Field>, h: Field)
    ensures h in ResentFields(omits, fields, js) <==>
            exists g: Field | g in js :: Kept(omits, fields, g) && h == Field(g.key, Resent(FieldOf(fields, g.key).value.ty, g.value))
  {
    if js != [] {
      hide Resent, Blank;
      ResentMember(omits, fields, js[1..], h);
      assert js == [js[0]] + js[1..];
    }
  }

  lemma {:induction false} ResentOrdered(omits: bool, fields: seq<FieldDef>, js: seq<Field>)
    requires Ascending(js) && DistinctKeys(js)
    ensures Ascending(ResentFields(omits, fields, js)) && DistinctKeys(ResentFields(omits, fields, js))
    decreases js
  {
    if js != [] {
      hide Resent, Blank, Before;
      var g, rest := js[0], js[1..];
      assert forall i | 0 <= i < |rest| :: rest[i] == js[i + 1];
      ResentOrdered(omits, fields, rest);
      forall h: Field | h in ResentFields(omits, fields, rest)
        ensures !Before(h.key, g.key) && h.key != g.key
      {
        ResentMember(omits, fields, rest, h);
        var g': Field :| g' in rest && h.key == g'.key;
        var i :| 0 <= i < |rest| && rest[i] == g';
        assert js[i + 1] == g';
      }
    }
  }

  lemma AscendingRest(fields: seq<Field>)
    requires Ascending(fields) && fields != []
    ensures Ascending(fields[1..]) && (fields[1..] != [] ==> !Before(fields[1..][0].key, fields[0].key))
  {
    hide Before;
  }

  lemma {:induction false} NormalFixed(fields: seq<Field>)
    requires Ascending(fields)
    requires forall g: Field | g in fields :: !g.value.Null? && Normal(true, g.value) == g.value
    ensures NormalFields(true, fields) == fields
  {
    if fields != [] {
      hide Normal, Before, Insert, Ascending;
      var rest := fields[1..];
      AscendingRest(fields);
      assert forall g: Field | g in rest :: g in fields;
      NormalFixed(rest);
      InsertFront(fields[0], rest);
      assert fields == [fields[0]] + rest;
    }
  }

  // What a field of the record contributes to what is sent the next time.
  ghost predicate FieldSent(omits: bool, f: FieldDef, js: seq<Field>, out: seq<Field>) {
    match Find(js, f.name)
    case None => !HasKey(out, f.name)
    case Some(j) =>
      if omits && Blank(f, j) then !HasKey(out, f.name)
      else HasKey(out, f.name) && forall h: Field | h in out && h.key == f.name :: h.value == Resent(f.ty, j)
  }

  lemma FieldIsSent(omits: bool, fields: seq<FieldDef>, f: FieldDef, js: seq<Field>)
    requires DistinctNames(fields) && f in fields && DistinctKeys(js)
    ensures FieldSent(omits, f, js, ResentFields(omits, fields, js))
  {
    hide Resent, Blank, ResentFields, DistinctNames;
    var out := ResentFields(omits, fields, js);
    FieldOfNamed(fields, f);
    FindMember(js, f.name);
    forall h: Field | h in out && h.key == f.name
      ensures Find(js, f.name).Some? && !(omits && Blank(f, Find(js, f.name).value))
      ensures h.value == Resent(f.ty, Find(js, f.name).value)
    {
      ResentMember(omits, fields, js, h);
    }
    if Find(js, f.name).Some? && !(omits && Blank(f, Find(js, f.name).value)) {
      var g := Field(f.name, Find(js, f.name).value);
      assert Kept(omits, fields, g);
      ResentMember(omits, fields, js, Field(f.name, Resent(f.ty, g.value)));
    }
  }

  // Each field is either found, with a payload that converts back, or missing for a good reason.
  ghost predicate FieldRestores(f: FieldDef, js: seq<Field>, omits: bool, inStruct: bool) {
    && SharedField(f) && Shared(f.ty)
    && (forall g: Field | g in js && g.key == f.name :: Restores(f.ty, g.value, inStruct))
    && (!HasKey(js, f.name) ==> f.default == HasDefault(VNone) || (omits && f.default.Omittable()))
  }

  // The slot made for a field, and when what it sends can be encoded.
  ghost predicate SlotRestores(s: Slot, f: FieldDef, js: seq<Field>, out: seq<Field>, omits: bool, inStruct: bool) {
    && SlotFits(s, f) && Marked(s, f)
    && SlotReads(s, out, omits, inStruct, false)
    && ((Omitted(s, omits, false) || Encodable(Lower(s.held, inStruct, false))) <==>
        forall g: Field | g in js && g.key == f.name :: Resendable(f.ty, g.value))
  }

  lemma RecognisedEncodable(d: Default, inStruct: bool)
    requires d.Recognised()
    ensures Encodable(Lower(d.Value(), inStruct, false))
  {
  }

  lemma FieldRestored(f: FieldDef, js: seq<Field>, out: seq<Field>, omits: bool, inStruct: bool)
    requires DistinctKeys(js) && FieldRestores(f, js, omits, inStruct) && FieldSent(omits, f, js, out)
    ensures ConvertField(f, js).Some? && SlotRestores(ConvertField(f, js).value, f, js, out, omits, inStruct)
    ensures ConvertField(f, out) == ConvertField(f, js)
  {
    hide Convert, Inhabits, Shared, Resent, Resendable, Normal, Lower, Encodable;
    FindMember(js, f.name);
    FindMember(out, f.name);
    match Find(js, f.name)
    case Some(j) =>
      var v := Convert(f.ty, j).value;
      PayloadIsNormal(v, inStruct);
      FilledFits(f, v);
      if IsBlank(f, v) {
        RecognisedEncodable(f.default, inStruct);
      }
    case None =>
      MissingIsEncodable(f, omits, inStruct);
  }

  lemma MissingIsEncodable(f: FieldDef, omits: bool, inStruct: bool)
    requires f.default == HasDefault(VNone) || (omits && f.default.Omittable())
    ensures Omitted(Defaulted(f), omits, false) || Encodable(Lower(Defaulted(f).held, inStruct, false))
  {
  }

  lemma {:induction false} FieldsRestored(fields: seq<FieldDef>, js: seq<Field>, out: seq<Field>, omits: bool,
      inStruct: bool)
    requires DistinctKeys(js)
    requires forall i | 0 <= i < |fields| ::
               FieldRestores(fields[i], js, omits, inStruct) && FieldSent(omits, fields[i], js, out)
    ensures ConvertFields(fields, js).Some? && ConvertFields(fields, out) == ConvertFields(fields, js)
    ensures var slots := ConvertFields(fields, js).value;
            |slots| == |fields| &&
            forall i | 0 <= i < |fields| :: SlotRestores(slots[i], fields[i], js, out, omits, inStruct)
    decreases fields
  {
    if fields != [] {
      hide ConvertField, FieldRestores, FieldSent, SlotRestores;
      FieldRestored(fields[0], js, out, omits, inStruct);
      FieldsRestored(fields[1..], js, out, omits, inStruct);
    }
  }

  lemma {:induction false} SlotsEncodable(slots: seq<Slot>, strips: bool, omits: bool, inStruct: bool)
    requires forall s: Slot | s in slots :: !Private(s.name)
    ensures Encodable(Obj(LowerSlots(slots, strips, omits, inStruct, false))) <==>
            forall i | 0 <= i < |slots| :: Omitted(slots[i], omits, false) || Encodable(Lower(slots[i].held, inStruct, false))
    decreases slots
  {
    if slots != [] {
      hide Lower;
      var s, rest := slots[0], slots[1..];
      SlotsEncodable(rest, strips, omits, inStruct);
      assert forall i | 0 <= i < |rest| :: rest[i] == slots[i + 1];
      var lowered := LowerSlots(rest, strips, omits, inStruct, false);
      assert forall f: Field :: f in LowerSlots(slots, strips, omits, inStruct, false) <==>
        f in lowered || (!Omitted(s, omits, false) && f == Field(s.name, Lower(s.held, inStruct, false)));
    }
  }

  // ----- every payload of a type is restored

  lemma {:induction false} PayloadRestores(ty: Ty, m: Val, inStruct: bool)
    requires Shared(ty) && Inhabits(m, ty)
    ensures Restores(ty, Payload(m, inStruct, false), inStruct)
    decreases ty
  {
    hide Payload, Restores;
    match ty
    case UnionTy(alts) =>
      LowerNull(m, inStruct, false);
      if m == VNone {
        NoneRestores(alts, inStruct);
      } else {
        var i :| 0 <= i < |alts| && Inhabits(m, alts[i]);
        PayloadRestores(alts[i], m, inStruct);
        SomeRestores(alts, Payload(m, inStruct, false), inStruct);
      }
    case ListTy(item) =>
      forall x | x in m.items
        ensures Restores(item, Payload(x, inStruct, false), inStruct)
      {
        PayloadRestores(item, x, inStruct);
      }
      ListRestores(item, m, inStruct);
    case DictTy(value) =>
      forall e | e in m.entries
        ensures Restores(value, Payload(e.value, inStruct, false), inStruct)
      {
        PayloadRestores(value, e.value, inStruct);
      }
      DictRestores(value, m, inStruct);
    case AnnotatedTy(inner) =>
      PayloadRestores(inner, m, inStruct);
      AnnotatedRestores(inner, Payload(m, inStruct, false), inStruct);
    case RecordTy(kind, omits, fields) =>
      forall i | 0 <= i < |fields|
        ensures Restores(fields[i].ty, Payload(m.slots[i].held, inStruct || kind.Struct?, false), inStruct || kind.Struct?)
      {
        assert fields[i] in fields && SlotFits(m.slots[i], fields[i]);
        PayloadRestores(fields[i].ty, m.slots[i].held, inStruct || kind.Struct?);
      }
      RecordRestores(kind, omits, fields, m, inStruct);
    case _ => ScalarRestores(ty, m, inStruct);
  }

  lemma ScalarRestores(ty: Ty, m: Val, inStruct: bool)
    requires Inhabits(m, ty)
    requires !ty.UnionTy? && !ty.ListTy? && !ty.DictTy? && !ty.AnnotatedTy? && !ty.RecordTy?
    ensures Restores(ty, Payload(m, inStruct, false), inStruct)
  {
    hide ConvertItems, ConvertEntries, ConvertFields, LowerItems, LowerEntries, LowerSlots, NormalItems, NormalFields;
    if ty.AnyTy? {
      hide Lower, Normal;
      RaiseLower(Payload(m, inStruct, false), inStruct);
      PayloadIsNormal(m, inStruct);
    } else if ty.FloatTy? {
      FloatRestores(m, inStruct);
    }
  }

  lemma AnnotatedRestores(inner: Ty, j: Json, inStruct: bool)
    requires Restores(inner, j, inStruct)
    ensures Restores(AnnotatedTy(inner), j, inStruct)
  {
    hide Lower, Normal, Encodable, Payload;
  }

  lemma FloatRestores(m: Val, inStruct: bool)
    requires Inhabits(m, FloatTy)
    ensures Restores(FloatTy, Payload(m, inStruct, false), inStruct)
  {
    hide Round, IsDouble;
    var j := Payload(m, inStruct, false);
    if j.Int? {
      RoundKeeps(j.i);
      RoundKeeps(Round(j.i));
    }
  }

  lemma NoneRestores(alts: seq<Ty>, inStruct: bool)
    requires |alts| == 2 && alts[1] == NoneTy
    ensures Restores(UnionTy(alts), Null, inStruct)
  {
    assert alts[1] in alts && Inhabits(VNone, NoneTy);
  }

  lemma SomeRestores(alts: seq<Ty>, j: Json, inStruct: bool)
    requires |alts| == 2 && alts[1] == NoneTy && !j.Null? && Restores(alts[0], j, inStruct)
    ensures Restores(UnionTy(alts), j, inStruct)
  {
    hide Lower, Payload, Encodable;
    assert Convert(UnionTy(alts), j) == Convert(alts[0], j);
    ResentNull(alts[0], j);
    assert alts[0] in alts;
  }

  lemma ListRestores(item: Ty, m: Val, inStruct: bool)
    requires Inhabits(m, ListTy(item))
    requires forall x | x in m.items :: Restores(item, Payload(x, inStruct, false), inStruct)
    ensures Restores(ListTy(item), Payload(m, inStruct, false), inStruct)
  {
    hide Payload, NormalItems, LowerItems, ReadsBack, SendsAgain, ConvertsAgain;
    var js := NormalItems(true, LowerItems(m.items, inStruct, false));
    ListPayload(m.items, inStruct, false);
    forall x | x in js
      ensures Restores(item, x, inStruct)
    {
      hide Restores;
      var i :| 0 <= i < |js| && x == js[i];
      LowerItemAt(m.items, inStruct, false, i);
      assert m.items[i] in m.items;
    }
    ItemsRestore(item, js, inStruct);
    ArrayReadsBack(item, js, inStruct);
    ItemsEncodable(item, js, inStruct);
    ArraySendsAgain(item, js, inStruct);
    ArrayConvertsAgain(item, js);
  }

  lemma ArrayConvertsAgain(item: Ty, js: seq<Json>)
    requires forall x | x in js :: ConvertsAgain(item, x)
    ensures ConvertsAgain(ListTy(item), Arr(js))
  {
    hide ConvertItems, ResentItems;
    ItemsConvertAgain(item, js);
  }

  lemma ArrayReadsBack(item: Ty, js: seq<Json>, inStruct: bool)
    requires ConvertItems(item, js).Some?
    requires forall x | x in ConvertItems(item, js).value :: Inhabits(x, item)
    requires NormalItems(true, LowerItems(ConvertItems(item, js).value, inStruct, false)) == ResentItems(item, js)
    ensures ReadsBack(ListTy(item), Arr(js), inStruct)
  {
    hide Payload, NormalItems, LowerItems, ConvertItems, ResentItems;
    ListPayload(ConvertItems(item, js).value, inStruct, false);
  }

  lemma ArraySendsAgain(item: Ty, js: seq<Json>, inStruct: bool)
    requires ConvertItems(item, js).Some?
    requires AllEncodable(LowerItems(ConvertItems(item, js).value, inStruct, false)) <==> AllResendable(item, js)
    ensures Convert(ListTy(item), Arr(js)).Some? && SendsAgain(ListTy(item), Arr(js), inStruct)
  {
    hide LowerItems, ConvertItems;
  }

  lemma DictRestores(value: Ty, m: Val, inStruct: bool)
    requires Inhabits(m, DictTy(value))
    requires forall e | e in m.entries :: Restores(value, Payload(e.value, inStruct, false), inStruct)
    ensures Restores(DictTy(value), Payload(m, inStruct, false), inStruct)
  {
    hide Payload, NormalFields, Ascending, LowerEntries, ReadsBack, SendsAgain, ConvertsAgain;
    var js := NormalFields(true, LowerEntries(m.entries, inStruct, false));
    DictPayload(m.entries, inStruct);
    forall g: Field | g in js
      ensures !g.value.Null? && Restores(value, g.value, inStruct)
    {
      hide Restores;
      var i := EntryOrigin(m.entries, inStruct, g);
      assert m.entries[i] in m.entries;
    }
    NormalFieldsSorted(true, LowerEntries(m.entries, inStruct, false));
    EntriesRestore(value, js, inStruct);
    ObjectReadsBack(value, js, inStruct);
    EntriesEncodable(value, js, inStruct);
    ObjectSendsAgain(value, js, inStruct);
    ObjectConvertsAgain(value, js);
  }

  lemma ObjectConvertsAgain(value: Ty, js: seq<Field>)
    requires forall g: Field | g in js :: ConvertsAgain(value, g.value)
    ensures ConvertsAgain(DictTy(value), Obj(js))
  {
    hide ConvertEntries, ResentEntries;
    EntriesConvertAgain(value, js);
  }

  lemma ObjectReadsBack(value: Ty, js: seq<Field>, inStruct: bool)
    requires ConvertEntries(value, js).Some?
    requires forall e: Entry | e in ConvertEntries(value, js).value :: Inhabits(e.value, value)
    requires NormalFields(true, LowerEntries(ConvertEntries(value, js).value, inStruct, false)) == ResentEntries(value, js)
    ensures ReadsBack(DictTy(value), Obj(js), inStruct)
  {
    hide Payload, NormalFields, LowerEntries, ConvertEntries, ResentEntries;
    DictPayload(ConvertEntries(value, js).value, inStruct);
  }

  lemma ObjectSendsAgain(value: Ty, js: seq<Field>, inStruct: bool)
    requires ConvertEntries(value, js).Some?
    requires (forall f: Field | f in LowerEntries(ConvertEntries(value, js).value, inStruct, false) :: Encodable(f.value)) <==>
             (forall g: Field | g in js :: Resendable(value, g.value))
    ensures Convert(DictTy(value), Obj(js)).Some? && SendsAgain(DictTy(value), Obj(js), inStruct)
  {
    hide LowerEntries, ConvertEntries;
  }

  lemma DictPayload(entries: seq<Entry>, inStruct: bool)
    ensures Payload(VDict(entries), inStruct, false) == Obj(NormalFields(true, LowerEntries(entries, inStruct, false)))
  {
  }

  // The payload of a record is in order, its keys are distinct, and they are names of its fields.
  lemma RecordKeys(kind: Kind, omits: bool, fields: seq<FieldDef>, m: Val, inStruct: bool)
    requires DistinctNames(fields) && Inhabits(m, RecordTy(kind, omits, fields))
    ensures Payload(m, inStruct, false).Obj? && Ascending(Payload(m, inStruct, false).fields)
    ensures DistinctKeys(Payload(m, inStruct, false).fields)
    ensures forall g: Field | g in Payload(m, inStruct, false).fields ::
              !g.value.Null? && exists f: FieldDef | f in fields :: f.name == g.key
  {
    hide NormalFields, LowerSlots;
    var strips, below := kind.Dataclass? || !inStruct, inStruct || kind.Struct?;
    var lowered := LowerSlots(m.slots, strips, omits, below, false);
    assert forall i | 0 <= i < |fields| :: SlotFits(m.slots[i], fields[i]);
    assert forall i, k | 0 <= i < k < |fields| :: m.slots[i].name == fields[i].name && m.slots[k].name == fields[k].name;
    LoweredKeys(m.slots, strips, omits, below, false);
    NormalDistinct(lowered);
    NormalFieldsSorted(true, lowered);
    forall g: Field | g in NormalFields(true, lowered)
      ensures !g.value.Null? && exists f: FieldDef | f in fields :: f.name == g.key
    {
      var i := FieldOrigin(m.slots, strips, omits, below, false, g);
      LowerNull(m.slots[i].held, below, false);
      assert SlotFits(m.slots[i], fields[i]) && fields[i] in fields;
    }
  }

  lemma RecordFieldRestores(kind: Kind, omits: bool, fields: seq<FieldDef>, m: Val, inStruct: bool, i: nat)
    requires DistinctNames(fields) && i < |fields| && SharedField(fields[i]) && Shared(fields[i].ty)
    requires Inhabits(m, RecordTy(kind, omits, fields))
    requires Restores(fields[i].ty, Payload(m.slots[i].held, inStruct || kind.Struct?, false), inStruct || kind.Struct?)
    ensures FieldRestores(fields[i], Payload(m, inStruct, false).fields, omits, inStruct || kind.Struct?)
  {
    hide NormalFields, LowerSlots, Restores, Shared;
    var strips, below := kind.Dataclass? || !inStruct, inStruct || kind.Struct?;
    var js := Payload(m, inStruct, false).fields;
    assert js == NormalFields(true, LowerSlots(m.slots, strips, omits, below, false));
    assert SlotFits(m.slots[i], fields[i]);
    forall g: Field | g in js && g.key == fields[i].name
      ensures Restores(fields[i].ty, g.value, below)
    {
      var k := FieldOrigin(m.slots, strips, omits, below, false, g);
      assert SlotFits(m.slots[k], fields[k]);
      assert k == i;
    }
    if Shown(m.slots[i], strips, omits, false) {
      SlotAppears(m.slots, strips, omits, below, false, i);
    }
  }

  // Everything that is sent the next time is a payload.
  lemma ResentIsNormal(omits: bool, fields: seq<FieldDef>, js: seq<Field>, inStruct: bool)
    requires Ascending(js) && DistinctKeys(js)
    requires forall g: Field | g in js :: !g.value.Null?
    requires forall f: FieldDef | f in fields :: FieldRestores(f, js, omits, inStruct)
    ensures var out := ResentFields(omits, fields, js);
            DistinctKeys(out) && NormalFields(true, out) == out
  {
    hide Restores, ResentFields, NormalFields, Ascending, DistinctKeys, Resent, Blank;
    var out := ResentFields(omits, fields, js);
    ResentOrdered(omits, fields, js);
    forall h: Field | h in out
      ensures !h.value.Null? && Normal(true, h.value) == h.value
    {
      ResentMember(omits, fields, js, h);
      var g: Field :| g in js && Kept(omits, fields, g) && h == Field(g.key, Resent(FieldOf(fields, g.key).value.ty, g.value));
      var f := FieldOf(fields, g.key).value;
      assert FieldRestores(f, js, omits, inStruct);
      ResentNull(f.ty, g.value);
      RestoredIsNormal(f.ty, g.value, inStruct);
    }
    NormalFixed(out);
  }

  lemma RestoredIsNormal(ty: Ty, j: Json, inStruct: bool)
    requires Restores(ty, j, inStruct)
    ensures Normal(true, Resent(ty, j)) == Resent(ty, j)
  {
    PayloadIsNormal(Convert(ty, j).value, inStruct);
  }

  lemma RecordRestores(kind: Kind, omits: bool, fields: seq<FieldDef>, m: Val, inStruct: bool)
    requires Shared(RecordTy(kind, omits, fields)) && Inhabits(m, RecordTy(kind, omits, fields))
    requires forall i | 0 <= i < |fields| ::
               Restores(fields[i].ty, Payload(m.slots[i].held, inStruct || kind.Struct?, false), inStruct || kind.Struct?)
    ensures Restores(RecordTy(kind, omits, fields), Payload(m, inStruct, false), inStruct)
  {
    hide Payload, SlotRestores, FieldRestores, FieldSent, Restores, Inhabits, Shared, ConvertFields, ResentFields;
    var below := inStruct || kind.Struct?;
    var j := Payload(m, inStruct, false);
    SharedParts(kind, omits, fields);
    RecordKeys(kind, omits, fields, m, inStruct);
    var js := j.fields;
    var out := ResentFields(omits, fields, js);
    forall i | 0 <= i < |fields|
      ensures FieldRestores(fields[i], js, omits, below) && FieldSent(omits, fields[i], js, out)
    {
      assert fields[i] in fields;
      RecordFieldRestores(kind, omits, fields, m, inStruct, i);
      FieldIsSent(omits, fields, fields[i], js);
    }
    ResentIsNormal(omits, fields, js, below);
    FieldsRestored(fields, js, out, omits, below);
    RecordConverted(kind, omits, fields, js, inStruct);
  }

  lemma SharedParts(kind: Kind, omits: bool, fields: seq<FieldDef>)
    requires Shared(RecordTy(kind, omits, fields))
    ensures DistinctNames(fields)
    ensures forall f: FieldDef | f in fields :: SharedField(f) && Shared(f.ty)
  {
  }

  // Slots that restore their fields make a record that restores the object.
  lemma RecordConverted(kind: Kind, omits: bool, fields: seq<FieldDef>, js: seq<Field>, inStruct: bool)
    requires DistinctNames(fields) && forall f: FieldDef | f in fields :: !Private(f.name)
    requires forall g: Field | g in js :: exists f: FieldDef | f in fields :: f.name == g.key
    requires ConvertFields(fields, js).Some? && |ConvertFields(fields, js).value| == |fields|
    requires ConvertFields(fields, ResentFields(omits, fields, js)) == ConvertFields(fields, js)
    requires var out := ResentFields(omits, fields, js);
             DistinctKeys(out) && NormalFields(true, out) == out &&
             forall i | 0 <= i < |fields| ::
               SlotRestores(ConvertFields(fields, js).value[i], fields[i], js, out, omits, inStruct || kind.Struct?)
    ensures Restores(RecordTy(kind, omits, fields), Obj(js), inStruct)
  {
    hide Payload, SlotReads, SlotRestores, ConvertFields, NormalFields, ResentFields, SlotsRead, LowerSlots;
    hide Encodable, Resendable, DistinctNames, DistinctKeys;
    var ty, slots, out := RecordTy(kind, omits, fields), ConvertFields(fields, js).value, ResentFields(omits, fields, js);
    var strips, below := kind.Dataclass? || !inStruct, inStruct || kind.Struct?;
    var r := VRecord(kind, omits, slots);
    assert Convert(ty, Obj(js)) == Some(r);
    RecordReadBack(fields, slots, js, out, strips, omits, below);
    RecordPayload(kind, omits, slots, out, inStruct, false);
    assert Inhabits(r, ty) by {
      SlotsInhabit(kind, omits, fields, slots, js, out, below);
    }
    SlotsEncodable(slots, strips, omits, below);
    RecordResendable(kind, omits, fields, slots, js, out, below);
  }

  lemma SlotsInhabit(kind: Kind, omits: bool, fields: seq<FieldDef>, slots: seq<Slot>, js: seq<Field>,
      out: seq<Field>, inStruct: bool)
    requires |slots| == |fields|
    requires forall i | 0 <= i < |fields| :: SlotRestores(slots[i], fields[i], js, out, omits, inStruct)
    ensures Inhabits(VRecord(kind, omits, slots), RecordTy(kind, omits, fields))
  {
    hide SlotFits, Marked, SlotReads, Encodable, Resendable;
    forall i | 0 <= i < |fields|
      ensures SlotFits(slots[i], fields[i]) && Marked(slots[i], fields[i])
    {
      assert SlotRestores(slots[i], fields[i], js, out, omits, inStruct);
    }
  }

  lemma RecordReadBack(fields: seq<FieldDef>, slots: seq<Slot>, js: seq<Field>, out: seq<Field>, strips: bool,
      omits: bool, inStruct: bool)
    requires DistinctNames(fields) && |slots| == |fields| && forall f: FieldDef | f in fields :: !Private(f.name)
    requires forall i | 0 <= i < |fields| :: SlotRestores(slots[i], fields[i], js, out, omits, inStruct)
    requires out == ResentFields(omits, fields, js)
    ensures SlotsRead(slots, out, strips, omits, inStruct, false)
    ensures forall i, k | 0 <= i < k < |slots| :: slots[i].name != slots[k].name
    ensures forall s: Slot | s in slots :: !Private(s.name)
  {
    hide SlotReads, Inhabits, ResentFields, Resent, Blank, Marked, Encodable, Resendable;
    assert forall i | 0 <= i < |fields| :: slots[i].name == fields[i].name by {
      assert forall i | 0 <= i < |fields| :: SlotRestores(slots[i], fields[i], js, out, omits, inStruct) ==> slots[i].name == fields[i].name;
    }
    forall s: Slot | s in slots
      ensures !Private(s.name) && SlotReads(s, out, omits, inStruct, false)
    {
      var i :| 0 <= i < |slots| && slots[i] == s;
      assert fields[i] in fields && SlotRestores(slots[i], fields[i], js, out, omits, inStruct);
    }
    forall h: Field | h in out
      ensures exists s: Slot | s in slots :: s.name == h.key
    {
      ResentMember(omits, fields, js, h);
      var f := FieldOf(fields, h.key).value;
      var i :| 0 <= i < |fields| && fields[i] == f;
      assert slots[i] in slots;
    }
  }

  lemma ResendableFields(kind: Kind, omits: bool, fields: seq<FieldDef>, js: seq<Field>)
    ensures Resendable(RecordTy(kind, omits, fields), Obj(js)) <==>
            forall g: Field | g in js :: FieldOf(fields, g.key).Some? ==> Resendable(FieldOf(fields, g.key).value.ty, g.value)
  {
  }

  lemma RecordResendable(kind: Kind, omits: bool, fields: seq<FieldDef>, slots: seq<Slot>, js: seq<Field>,
      out: seq<Field>, inStruct: bool)
    requires DistinctNames(fields) && |slots| == |fields|
    requires forall i | 0 <= i < |fields| :: SlotRestores(slots[i], fields[i], js, out, omits, inStruct)
    requires forall g: Field | g in js :: exists f: FieldDef | f in fields :: f.name == g.key
    ensures Resendable(RecordTy(kind, omits, fields), Obj(js)) <==>
            forall i | 0 <= i < |slots| :: Omitted(slots[i], omits, false) || Encodable(Lower(slots[i].held, inStruct, false))
  {
    hide SlotFits, Marked, SlotReads, Encodable, Resendable, Lower, Omitted, DistinctNames, FieldOf;
    ResendableFields(kind, omits, fields, js);
    forall i | 0 <= i < |fields|
      ensures FieldOf(fields, fields[i].name) == Some(fields[i])
      ensures (Omitted(slots[i], omits, false) || Encodable(Lower(slots[i].held, inStruct, false))) <==>
              forall g: Field | g in js && g.key == fields[i].name :: Resendable(fields[i].ty, g.value)
    {
      assert SlotRestores(slots[i], fields[i], js, out, omits, inStruct);
      FieldOfNamed(fields, fields[i]);
    }
    forall g: Field | g in js
      ensures exists i | 0 <= i < |fields| :: fields[i].name == g.key
    {
      var f: FieldDef :| f in fields && f.name == g.key;
      var i :| 0 <= i < |fields| && fields[i] == f;
    }
  }
}
