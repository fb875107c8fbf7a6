/**
 `to_dict` on JSON payloads: encode with sorted keys, decode, and finalise.  Its results are
 compared with the rewriting relation of module Equivalence.
 */
module Canonical {
  import opened Wrappers
  import opened Json
  import opened JsonText
  import opened Equivalence

  datatype Error = TooDeep | IntRange | BadText | EmptySecret

  const MAX_RECURSION_DEPTH := 30

  // ----- orjson: only 64-bit integers can be encoded

  predicate Fits64(i: int) {
    -0x8000_0000_0000_0000 <= i <= 0xFFFF_FFFF_FFFF_FFFF
  }

  predicate Encodable(v: Json) {
    match v
    case Int(i) => Fits64(i)
    case Arr(items) => forall x | x in items :: Encodable(x)
    case Obj(fields) => forall f | f in fields :: Encodable(f.value)
    case _ => true
  }

  // A tree can be encoded exactly when none of its integers lies outside the 64-bit ranges.
  lemma EncodableMeaning(i: int, items: seq<Json>, fields: seq<Field>)
    ensures Encodable(Int(i)) <==> -9223372036854775808 <= i <= 18446744073709551615
    ensures Encodable(Arr(items)) <==> forall x | x in items :: Encodable(x)
    ensures Encodable(Obj(fields)) <==> forall f: Field | f in fields :: Encodable(f.value)
    ensures forall v: Json | !v.Int? && !v.Arr? && !v.Obj? :: Encodable(v)
  {
  }

  function Dumps(v: Json, sorted: bool): Result<string, Error> {
    if !Encodable(v) then Err(IntRange) else Ok(Print(if sorted then SortKeys(v) else v, ""))
  }

  function Loads(text: string): Result<Json, Error> {
    match Read(text)
    case Got(v, rest) => if rest == "" then Ok(v) else Err(BadText)
    case Fail => Err(BadText)
  }

  lemma LoadsDumps(v: Json, sorted: bool)
    requires Encodable(v)
    ensures Dumps(v, sorted).Ok?
    ensures Loads(Dumps(v, sorted).value) == Ok(if sorted then SortKeys(v) else v)
  {
    RoundTrip(if sorted then SortKeys(v) else v, "");
  }

  // ----- _finalize_structure

  function Finalize(v: Json, depth: nat): Result<Json, Error>
    decreases v, 1
  {
    if depth > MAX_RECURSION_DEPTH then Err(TooDeep)
    else match v
      case Obj(fields) =>
        var fs :- FinalizeFields(fields, depth + 1);
        Ok(Obj(fs))
      case Arr(items) =>
        var xs :- FinalizeItems(items, depth + 1);
        Ok(Arr(xs))
      case Real(f) => Ok(if Integral(v) then Int(Truncated(f)) else v)
      case _ => Ok(v)
  }

  function FinalizeItems(items: seq<Json>, depth: nat): Result<seq<Json>, Error>
    decreases items, 0
  {
    if items == [] then Ok([])
    else
      var x :- Finalize(items[0], depth);
      var xs :- FinalizeItems(items[1..], depth);
      Ok([x] + xs)
  }

  function FinalizeFields(fields: seq<Field>, depth: nat): Result<seq<Field>, Error>
    decreases fields, 0
  {
    if fields == [] then Ok([])
    else if fields[0].value.Null? then FinalizeFields(fields[1..], depth)
    else
      var x :- Finalize(fields[0].value, depth);
      var fs :- FinalizeFields(fields[1..], depth);
      Ok([Field(fields[0].key, x)] + fs)
  }

  // ----- to_dict and json_dumps

  function ToDict(v: Json): Result<Json, Error> {
    if v.Null? then Ok(Null)
    else
      var text :- Dumps(v, true);
      var normalized :- Loads(text);
      Finalize(normalized, 0)
  }

  function JsonDumps(v: Json): Result<string, Error> {
    var d :- ToDict(v);
    Dumps(d, false)
  }

  // ----- the depth bound is exact, and finalising then sorting is the normal form

  lemma {:induction false} FinalizeMeaning(v: Json, depth: nat)
    ensures Finalize(v, depth).Ok? <==> depth + Height(v) <= 30
    ensures Finalize(v, depth).Err? ==> Finalize(v, depth).error == TooDeep
    ensures Finalize(v, depth).Ok? ==> SortKeys(Finalize(v, depth).value) == Normal(true, v)
    ensures Finalize(v, depth).Ok? ==> (Finalize(v, depth).value.Null? <==> v.Null?)
    decreases v, 1
  {
    match v
    case Arr(items) => FinalizeItemsMeaning(items, depth + 1);
    case Obj(fields) => FinalizeFieldsMeaning(fields, depth + 1);
    case _ =>
  }

  lemma {:induction false} FinalizeItemsMeaning(items: seq<Json>, depth: nat)
    requires depth >= 1
    ensures FinalizeItems(items, depth).Ok? <==> items == [] || depth - 1 + HeightItems(items) <= MAX_RECURSION_DEPTH
    ensures FinalizeItems(items, depth).Err? ==> FinalizeItems(items, depth).error == TooDeep
    ensures FinalizeItems(items, depth).Ok? ==>
              NormalItems(false, FinalizeItems(items, depth).value) == NormalItems(true, items)
    decreases items, 0
  {
    if items != [] {
      FinalizeMeaning(items[0], depth);
      FinalizeItemsMeaning(items[1..], depth);
    }
  }

  lemma {:induction false} FinalizeFieldsMeaning(fields: seq<Field>, depth: nat)
    requires depth >= 1
    ensures FinalizeFields(fields, depth).Ok? <==>
            HeightFields(fields) == 0 || depth - 1 + HeightFields(fields) <= MAX_RECURSION_DEPTH
    ensures FinalizeFields(fields, depth).Err? ==> FinalizeFields(fields, depth).error == TooDeep
    ensures FinalizeFields(fields, depth).Ok? ==>
              NormalFields(false, FinalizeFields(fields, depth).value) == NormalFields(true, fields)
    decreases fields, 0
  {
    if fields != [] {
      FinalizeFieldsMeaning(fields[1..], depth);
      if !fields[0].value.Null? {
        FinalizeMeaning(fields[0].value, depth);
      }
    }
  }

  // Finalising keeps sorted trees sorted.
  lemma {:induction false} FinalizeSorted(v: Json, depth: nat)
    requires DeepSorted(v) && Finalize(v, depth).Ok?
    ensures DeepSorted(Finalize(v, depth).value)
    decreases v, 1
  {
    match v
    case Arr(items) => FinalizeItemsSorted(items, depth + 1);
    case Obj(fields) => FinalizeFieldsSorted(fields, depth + 1);
    case _ =>
  }

  lemma {:induction false} FinalizeItemsSorted(items: seq<Json>, depth: nat)
    requires FinalizeItems(items, depth).Ok? && forall x | x in items :: DeepSorted(x)
    ensures forall x | x in FinalizeItems(items, depth).value :: DeepSorted(x)
    decreases items, 0
  {
    if items != [] {
      FinalizeSorted(items[0], depth);
      FinalizeItemsSorted(items[1..], depth);
    }
  }

  lemma {:induction false} FinalizeFieldsSorted(fields: seq<Field>, depth: nat)
    requires FinalizeFields(fields, depth).Ok?
    requires Ascending(fields) && forall f: Field | f in fields :: DeepSorted(f.value)
    ensures Ascending(FinalizeFields(fields, depth).value)
    ensures forall f: Field | f in FinalizeFields(fields, depth).value :: DeepSorted(f.value)
    ensures forall g: Field | g in FinalizeFields(fields, depth).value ::
              exists f: Field | f in fields :: f.key == g.key
    decreases fields, 0
  {
    if fields != [] {
      var rest := fields[1..];
      assert Ascending(rest) by {
        assert forall i | 0 <= i < |rest| :: rest[i] == fields[i + 1];
      }
      FinalizeFieldsSorted(rest, depth);
      if !fields[0].value.Null? {
        FinalizeSorted(fields[0].value, depth);
        var done := FinalizeFields(rest, depth).value;
        forall g: Field | g in done
          ensures !Before(g.key, fields[0].key)
        {
          var f: Field :| f in rest && f.key == g.key;
          var i :| 0 <= i < |rest| && rest[i] == f;
          assert fields[i + 1] == f;
        }
      }
    }
  }

  // Main result on to_dict: when it succeeds, what it fails with, and what it returns.
  lemma ToDictMeaning(v: Json)
    ensures ToDict(v).Ok? <==> Encodable(v) && Height(v) <= 30
    ensures ToDict(v).Ok? ==> ToDict(v).value == Normal(true, v)
    ensures ToDict(v).Err? ==> ToDict(v).error == if Encodable(v) then TooDeep else IntRange
  {
    if !v.Null? && Encodable(v) {
      var s := SortKeys(v);
      LoadsDumps(v, true);
      ToNormal(false, v);
      EquivalentHeights(false, v, s);
      FinalizeMeaning(s, 0);
      if Finalize(s, 0).Ok? {
        NormalIsSorted(false, v);
        FinalizeSorted(s, 0);
        SortedIsFixed(Finalize(s, 0).value);
        Weaken(v, s);
        NormalDecides(true, v, s);
      }
    }
  }

  // ----- canonicalisation decides equivalence

  // to_dict maps two encodable payloads to the same value exactly when they are equivalent.
  lemma ToDictDecides(p: Json, q: Json)
    requires Encodable(p) && Encodable(q) && ToDict(p).Ok?
    ensures ToDict(p) == ToDict(q) <==> Equivalent(true, p, q)
  {
    ToDictMeaning(p);
    ToDictMeaning(q);
    NormalDecides(true, p, q);
    if Equivalent(true, p, q) {
      EquivalentHeights(true, p, q);
    }
  }

  // The finaliser alone, whose results are compared as Python dicts, that is up to key order.
  lemma FinalizeDecides(p: Json, q: Json)
    requires Finalize(p, 0).Ok?
    ensures Finalize(q, 0).Ok? && Equivalent(false, Finalize(p, 0).value, Finalize(q, 0).value) <==>
            Equivalent(true, p, q)
  {
    FinalizeMeaning(p, 0);
    FinalizeMeaning(q, 0);
    NormalDecides(true, p, q);
    if Equivalent(true, p, q) {
      EquivalentHeights(true, p, q);
    }
    if Finalize(q, 0).Ok? {
      NormalDecides(false, Finalize(p, 0).value, Finalize(q, 0).value);
    }
  }

  // The sorted text, which keys the validator cache, tells apart exactly what differs by more
  // than key order.
  lemma SortedTextDecides(p: Json, q: Json)
    requires Encodable(p) && Encodable(q)
    ensures Dumps(p, true) == Dumps(q, true) <==> Equivalent(false, p, q)
  {
    PrintInjective(SortKeys(p), SortKeys(q));
    NormalDecides(false, p, q);
  }

  // ----- idempotence

  // Integral floats become ints, so they too must fit for the result to be encoded again.
  predicate Reencodable(v: Json) {
    match v
    case Int(i) => Fits64(i)
    case Real(f) => Integral(v) ==> Fits64(Truncated(f))
    case Arr(items) => forall x | x in items :: Reencodable(x)
    case Obj(fields) => forall f | f in fields :: Reencodable(f.value)
    case _ => true
  }

  lemma {:induction false} ReencodableEncodable(v: Json)
    requires Reencodable(v)
    ensures Encodable(v)
    decreases v
  {
    match v
    case Arr(items) =>
      forall x | x in items
        ensures Encodable(x)
      {
        ReencodableEncodable(x);
      }
    case Obj(fields) =>
      forall f: Field | f in fields
        ensures Encodable(f.value)
      {
        ReencodableEncodable(f.value);
      }
    case _ =>
  }

  lemma {:induction false} NormalReencodable(v: Json)
    ensures Encodable(Normal(true, v)) <==> Reencodable(v)
    decreases v, 1
  {
    match v
    case Arr(items) => NormalItemsReencodable(items);
    case Obj(fields) => NormalFieldsReencodable(fields);
    case _ =>
  }

  lemma {:induction false} NormalItemsReencodable(items: seq<Json>)
    ensures (forall x | x in NormalItems(true, items) :: Encodable(x)) <==> (forall x | x in items :: Reencodable(x))
    decreases items, 0
  {
    if items != [] {
      NormalReencodable(items[0]);
      NormalItemsReencodable(items[1..]);
      assert items == [items[0]] + items[1..];
    }
  }

  lemma {:induction false} NormalFieldsReencodable(fields: seq<Field>)
    ensures (forall f: Field | f in NormalFields(true, fields) :: Encodable(f.value)) <==>
            (forall f: Field | f in fields :: Reencodable(f.value))
    decreases fields, 0
  {
    if fields != [] {
      var f := fields[0];
      var rest := NormalFields(true, fields[1..]);
      NormalReencodable(f.value);
      NormalFieldsReencodable(fields[1..]);
      assert fields == [f] + fields[1..];
      if !f.value.Null? {
        var n := Field(f.key, Normal(true, f.value));
        forall g: Field
          ensures g in Insert(n, rest) <==> g == n || g in rest
        {
          InsertMember(n, rest, g);
        }
      }
    }
  }

  // Applying to_dict again changes nothing, and can fail for one reason only: an integral float
  // became an int that does not fit in 64 bits.  In particular depth is no obstacle.
  lemma ToDictIdempotent(v: Json)
    requires ToDict(v).Ok?
    ensures if Reencodable(v) then ToDict(ToDict(v).value) == ToDict(v)
            else ToDict(ToDict(v).value) == Err(IntRange)
  {
    ToDictMeaning(v);
    var c := Normal(true, v);
    ToDictMeaning(c);
    ToNormal(true, v);
    EquivalentHeights(true, v, c);
    NormalDecides(true, v, c);
    NormalReencodable(v);
  }

  // The failing family is not empty: the float 2^64 alone already shows it.
  lemma ToDictNotIdempotent()
    ensures exists v :: ToDict(v).Ok? && ToDict(ToDict(v).value).Err?
  {
    var v := Real(Decimal(false, 0x1_0000_0000_0000_0000, ""));
    ToDictMeaning(v);
    ToDictIdempotent(v);
  }

  // What was written to the wire reads back as the canonical payload, which is then stable.
  lemma WireIsCanonical(p: Json)
    requires JsonDumps(p).Ok?
    ensures ToDict(p).Ok? && Loads(JsonDumps(p).value) == ToDict(p)
    ensures ToDict(ToDict(p).value) == ToDict(p)
  {
    LoadsDumps(ToDict(p).value, false);
    ToDictMeaning(p);
    NormalReencodable(p);
    ToDictIdempotent(p);
  }
}
