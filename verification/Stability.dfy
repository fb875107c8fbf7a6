/**
 Converting a model to a payload and back with `to_dict` and `from_dict`.

 It is stable but for three things: an int in a float position is rounded to a double, a value
 that comes back as what is recognised as the default is omitted the next time (an empty dict in a
 field with the default factory `dict`, say), and an integer too large for 64 bits cannot be
 encoded again.  Two tests on the payload say exactly when, and one trip settles everything.
 */
module Stability {
  import opened Wrappers
  import opened Json
  import opened Equivalence
  import opened Canonical
  import opened Doubles
  import opened Types
  import opened ModelCodec

  // ----- the tests are exact

  // The first test on a payload: every int in a float position is a double, and no field holds
  // what will be left out.  The second one is `Resendable`.
  ghost predicate Steady(ty: Ty, j: Json)
    decreases ty
  {
    match ty
    case FloatTy => j.Int? ==> IsDouble(j.i)
    case UnionTy(alts) => j.Null? || alts == [] || Steady(alts[0], j)
    case ListTy(item) => j.Arr? ==> forall x | x in j.items :: Steady(item, x)
    case DictTy(value) => j.Obj? ==> forall g: Field | g in j.fields :: Steady(value, g.value)
    case AnnotatedTy(inner) => Steady(inner, j)
    case RecordTy(_, omits, fields) =>
      j.Obj? ==>
        forall g: Field | g in j.fields ::
          var f := FieldOf(fields, g.key);
          f.Some? && !(omits && Blank(f.value, g.value)) && Steady(f.value.ty, g.value)
    case _ => true
  }

  // What is sent the next time is the same exactly when the payload is steady.
  lemma {:induction false} SteadyIsFixed(ty: Ty, j: Json)
    ensures Resent(ty, j) == j <==> Steady(ty, j)
    decreases ty, 1
  {
    match ty
    case FloatTy =>
      if j.Int? {
        RoundKeeps(j.i);
      }
    case UnionTy(alts) =>
      if !j.Null? && alts != [] {
        SteadyIsFixed(alts[0], j);
      }
    case ListTy(item) =>
      if j.Arr? {
        SteadyItemsFixed(item, j.items);
      }
    case DictTy(value) =>
      if j.Obj? {
        SteadyEntriesFixed(value, j.fields);
      }
    case AnnotatedTy(inner) => SteadyIsFixed(inner, j);
    case RecordTy(_, omits, fields) =>
      if j.Obj? {
        SteadyFieldsFixed(omits, fields, j.fields);
      }
    case _ =>
  }

  lemma {:induction false} SteadyItemsFixed(item: Ty, js: seq<Json>)
    ensures ResentItems(item, js) == js <==> forall x | x in js :: Steady(item, x)
    decreases item, 2, js
  {
    if js != [] {
      hide Resent, Steady;
      SteadyIsFixed(item, js[0]);
      SteadyItemsFixed(item, js[1..]);
      assert js == [js[0]] + js[1..];
    }
  }

  lemma {:induction false} SteadyEntriesFixed(value: Ty, js: seq<Field>)
    ensures ResentEntries(value, js) == js <==> forall g: Field | g in js :: Steady(value, g.value)
    decreases value, 2, js
  {
    if js != [] {
      hide Resent, Steady;
      SteadyIsFixed(value, js[0].value);
      SteadyEntriesFixed(value, js[1..]);
      assert js == [js[0]] + js[1..];
    }
  }

  lemma {:induction false} SteadyFieldsFixed(omits: bool, fields: seq<FieldDef>, js: seq<Field>)
    ensures |ResentFields(omits, fields, js)| <= |js|
    ensures ResentFields(omits, fields, js) == js <==>
            forall g: Field | g in js :: Kept(omits, fields, g) && Steady(FieldOf(fields, g.key).value.ty, g.value)
    decreases fields, 2, js
  {
    if js != [] {
      hide Resent, Steady, Blank;
      var f := FieldOf(fields, js[0].key);
      if f.Some? {
        SteadyIsFixed(f.value.ty, js[0].value);
      }
      SteadyFieldsFixed(omits, fields, js[1..]);
      assert js == [js[0]] + js[1..];
    }
  }

  lemma {:induction false} ResentHeight(ty: Ty, j: Json)
    ensures Height(Resent(ty, j)) <= Height(j)
    decreases ty, 1
  {
    match ty
    case UnionTy(alts) =>
      if !j.Null? && alts != [] {
        ResentHeight(alts[0], j);
      }
    case ListTy(item) =>
      if j.Arr? {
        ResentItemsHeight(item, j.items);
      }
    case DictTy(value) =>
      if j.Obj? {
        ResentEntriesHeight(value, j.fields);
      }
    case AnnotatedTy(inner) => ResentHeight(inner, j);
    case RecordTy(_, omits, fields) =>
      if j.Obj? {
        ResentFieldsHeight(omits, fields, j.fields);
      }
    case _ =>
  }

  lemma {:induction false} ResentItemsHeight(item: Ty, js: seq<Json>)
    ensures HeightItems(ResentItems(item, js)) <= HeightItems(js)
    decreases item, 2, js
  {
    if js != [] {
      hide Resent;
      ResentHeight(item, js[0]);
      ResentItemsHeight(item, js[1..]);
      assert ResentItems(item, js)[1..] == ResentItems(item, js[1..]);
    }
  }

  lemma {:induction false} ResentEntriesHeight(value: Ty, js: seq<Field>)
    ensures HeightFields(ResentEntries(value, js)) <= HeightFields(js)
    decreases value, 2, js
  {
    if js != [] {
      hide Resent;
      ResentHeight(value, js[0].value);
      ResentNull(value, js[0].value);
      ResentEntriesHeight(value, js[1..]);
      assert ResentEntries(value, js)[1..] == ResentEntries(value, js[1..]);
    }
  }

  lemma {:induction false} ResentFieldsHeight(omits: bool, fields: seq<FieldDef>, js: seq<Field>)
    ensures HeightFields(ResentFields(omits, fields, js)) <= HeightFields(js)
    decreases fields, 2, js
  {
    if js != [] {
      hide Resent, Blank;
      var f, rest := FieldOf(fields, js[0].key), ResentFields(omits, fields, js[1..]);
      ResentFieldsHeight(omits, fields, js[1..]);
      if Kept(omits, fields, js[0]) {
        ResentHeight(f.value.ty, js[0].value);
        ResentNull(f.value.ty, js[0].value);
        assert ([Field(js[0].key, Resent(f.value.ty, js[0].value))] + rest)[1..] == rest;
      }
    }
  }

  // ----- to_dict and from_dict

  // Main result: whenever to_dict succeeds on a model, from_dict reads the payload back as a value
  // of the type, and a second to_dict gives what `Resent` says, or fails on an integer too large.
  lemma ConversionResends(ty: Ty, m: Val)
    requires Shared(ty) && Inhabits(m, ty) && ty.RecordTy?
    requires ToDict(Lower(m, false, false)).Ok?
    ensures var j := ToDict(Lower(m, false, false)).value;
            var r := FromDict(ty, j);
            r.Some? && Inhabits(r.value, ty) &&
            ToDict(Lower(r.value, false, false)) == (if Resendable(ty, j) then Ok(Resent(ty, j)) else Err(IntRange)) &&
            FromDict(ty, Resent(ty, j)) == r
  {
    hide Lower, Convert, Inhabits, Resent, Resendable, Normal, Height, Shared;
    var p := Lower(m, false, false);
    var j := Normal(true, p);
    ToDictMeaning(p);
    PayloadRestores(ty, m, false);
    assert Restores(ty, j, false);
    assert j.Obj? by {
      RecordLowers(ty, m);
    }
    var q := Lower(Convert(ty, j).value, false, false);
    ToNormal(true, p);
    ToNormal(true, q);
    EquivalentHeights(true, p, j);
    EquivalentHeights(true, q, Normal(true, q));
    ResentHeight(ty, j);
    ToDictMeaning(q);
    ResentObject(ty, j);
  }

  lemma ResentObject(ty: Ty, j: Json)
    requires ty.RecordTy? && j.Obj?
    ensures Resent(ty, j).Obj?
  {
  }

  lemma RecordLowers(ty: Ty, m: Val)
    requires ty.RecordTy? && Inhabits(m, ty)
    ensures m.VRecord? && Normal(true, Lower(m, false, false)).Obj?
  {
  }

  // Main result: conversion is stable exactly when the payload passes both tests.
  lemma ConversionIsStable(ty: Ty, m: Val)
    requires Shared(ty) && Inhabits(m, ty) && ty.RecordTy?
    requires ToDict(Lower(m, false, false)).Ok?
    ensures var j := ToDict(Lower(m, false, false)).value;
            FromDict(ty, j).Some? &&
            (ToDict(Lower(FromDict(ty, j).value, false, false)) == Ok(j) <==> Resendable(ty, j) && Steady(ty, j))
  {
    hide Lower, FromDict, Inhabits, Resent, Resendable, Steady, ToDict, Shared;
    ConversionResends(ty, m);
    SteadyIsFixed(ty, ToDict(Lower(m, false, false)).value);
  }

  // One trip settles everything: what the second to_dict gives is read as the same value again, so
  // all later ones give the same.
  lemma ConversionSettles(ty: Ty, m: Val)
    requires Shared(ty) && Inhabits(m, ty) && ty.RecordTy?
    requires ToDict(Lower(m, false, false)).Ok? && Resendable(ty, ToDict(Lower(m, false, false)).value)
    ensures var first := FromDict(ty, ToDict(Lower(m, false, false)).value);
            first.Some? &&
            var again := ToDict(Lower(first.value, false, false));
            again.Ok? && FromDict(ty, again.value) == first
  {
    hide Lower, FromDict, Inhabits, Resent, Resendable, ToDict, Shared;
    ConversionResends(ty, m);
  }

  // Neither test is idle.  An int that no double holds changes in a float field, here the priority
  // of a task.
  lemma LargeIntIsRounded()
    ensures var f := FieldDef("priority", FloatTy, HasDefault(VFloat(OfInt(0))));
            var m := VRecord(Struct, true, [Slot("priority", VInt(9007199254740993), Given)]);
            var ty := RecordTy(Struct, true, [f]);
            && Shared(ty) && Inhabits(m, ty)
            && ToDict(Lower(m, false, false)) == Ok(Obj([Field("priority", Int(9007199254740993))]))
            && Resent(ty, Obj([Field("priority", Int(9007199254740993))])) == Obj([Field("priority", Int(9007199254740992))])
  {
    hide Lower, ToDict, Resent, Convert, Normal;
    var f := FieldDef("priority", FloatTy, HasDefault(VFloat(OfInt(0))));
    var s := Slot("priority", VInt(9007199254740993), Given);
    assert Round(9007199254740993) == 9007199254740992 by {
      assert Spacing(4503599627370496) == 1 && Significand(4503599627370496) == 4503599627370496;
    }
    IntLowers(9007199254740993);
    assert !Blank(f, Int(9007199254740993));
    LoneField(f, s, Field("priority", Int(9007199254740993)), Int(9007199254740992));
  }

  lemma IntLowers(i: int)
    ensures Lower(VInt(i), true, false) == Int(i) && Payload(VInt(i), true, false) == Int(i) && Height(Int(i)) == 0
    ensures Resent(FloatTy, Int(i)) == Int(Round(i))
  {
    hide Round;
  }

  // A dict of None values arrives empty, and is then what its factory makes.
  lemma EmptyDictIsOmitted()
    ensures var f := FieldDef("extra", DictTy(AnyTy), BuiltinFactory(true));
            var m := VRecord(Struct, true, [Slot("extra", VDict([Entry("k", VNone)]), Given)]);
            var ty := RecordTy(Struct, true, [f]);
            && Shared(ty) && Inhabits(m, ty)
            && ToDict(Lower(m, false, false)) == Ok(Obj([Field("extra", Obj([]))]))
            && Resent(ty, Obj([Field("extra", Obj([]))])) == Obj([])
  {
    hide Lower, ToDict, Resent, Convert, Normal;
    var f := FieldDef("extra", DictTy(AnyTy), BuiltinFactory(true));
    var s := Slot("extra", VDict([Entry("k", VNone)]), Given);
    NoneEntryLowers();
    EmptyDictIsBlank(f);
    LoneField(f, s, Field("extra", Obj([])), Obj([]));
  }

  lemma EmptyDictIsBlank(f: FieldDef)
    requires f == FieldDef("extra", DictTy(AnyTy), BuiltinFactory(true))
    ensures Blank(f, Obj([]))
  {
  }

  lemma NoneEntryLowers()
    ensures Lower(VDict([Entry("k", VNone)]), true, false) == Obj([Field("k", Null)])
    ensures Payload(VDict([Entry("k", VNone)]), true, false) == Obj([]) && Height(Obj([Field("k", Null)])) == 0
    ensures Encodable(Obj([Field("k", Null)]))
    ensures Resent(DictTy(AnyTy), Obj([])) == Obj([])
  {
    hide Convert;
    assert [Field("k", Null)][1..] == [];
    assert LowerEntries([Entry("k", VNone)], true, false) == [Field("k", Null)];
    assert NormalFields(true, [Field("k", Null)]) == [];
  }

  // A Struct with one field that is sent: what is sent, and what is sent the next time.
  lemma LoneField(f: FieldDef, s: Slot, g: Field, next: Json)
    requires !Private(f.name) && f.name == s.name == g.key && s.origin.Given? && !s.held.VNone?
    requires Payload(s.held, true, false) == g.value && Resent(f.ty, g.value) == next
    requires Height(Lower(s.held, true, false)) == 0 && Encodable(Lower(s.held, true, false))
    ensures ToDict(Lower(VRecord(Struct, true, [s]), false, false)) == Ok(Obj([g]))
    ensures Resent(RecordTy(Struct, true, [f]), Obj([g])) == Obj(if Blank(f, g.value) then [] else [Field(f.name, next)])
  {
    hide Height, Blank, ToDict;
    var lowered := Field(s.name, Lower(s.held, true, false));
    assert LowerSlots([s], true, true, true, false) == [lowered];
    LowerNull(s.held, true, false);
    LoneHeight(lowered);
    ToDictMeaning(Obj([lowered]));
    assert NormalFields(true, [lowered]) == [g];
    assert FieldOf([f], f.name) == Some(f);
    assert [g][1..] == [] && ResentFields(true, [f], []) == [];
    assert ResentFields(true, [f], [g]) == if Blank(f, g.value) then [] else [Field(f.name, next)];
  }

  lemma LoneHeight(f: Field)
    requires !f.value.Null?
    ensures Height(Obj([f])) == 1 + Height(f.value)
  {
    assert HeightFields([f][1..]) == 0;
    assert HeightFields([f]) == Max(1 + Height(f.value), HeightFields([f][1..]));
  }
}
