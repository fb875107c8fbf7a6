/**
 JSON trees as orjson reads and writes them, and their normal forms.

 An object keeps its fields in order, as a Python dict does; its keys are distinct.  An integral
 float is given by its exact value and any other float by its shortest decimal rendering, so a
 float is integral exactly when it has no fractional digits.  Negative zero is identified with
 zero, and NaN and infinities do not occur.
 */
module Json {

  datatype Decimal = Decimal(neg: bool, whole: nat, frac: string) {
    ghost predicate Canonical() {
      && (forall i | 0 <= i < |frac| :: IsDigit(frac[i]))
      && (frac != "" ==> frac[|frac| - 1] != '0')
      && (neg ==> whole > 0 || frac != "")
    }
  }

  predicate IsDigit(c: char) {
    '0' <= c <= '9'
  }

  type Float = d: Decimal | d.Canonical() witness Decimal(false, 0, "")

  datatype Json =
    | Null
    | Bool(b: bool)
    | Int(i: int)
    | Real(f: Float)
    | Str(s: string)
    | Arr(items: seq<Json>)
    | Obj(fields: seq<Field>)

  datatype Field = Field(key: string, value: Json)

  predicate Integral(v: Json) {
    v.Real? && v.f.frac == ""
  }

  function Truncated(f: Float): int {
    if f.neg then 0 - f.whole else f.whole
  }

  function OfInt(i: int): Float {
    Decimal(i < 0, if i < 0 then 0 - i else i, "")
  }

  // ----- key order: by code point, which is also the order of the UTF-8 encodings

  predicate Before(a: string, b: string) {
    b != "" && (a == "" || a[0] < b[0] || (a[0] == b[0] && Before(a[1..], b[1..])))
  }

  // A proper prefix comes first, and otherwise the smaller character at the first difference.
  lemma {:induction false} BeforeMeaning(a: string, b: string)
    ensures Before(a, b) <==>
            exists i | 0 <= i <= |a| && i < |b| :: a[..i] == b[..i] && (i == |a| || a[i] < b[i])
  {
    if a == "" && b != "" {
      assert a[..0] == b[..0];
    } else if a != "" && b != "" {
      if a[0] < b[0] {
        assert a[..0] == b[..0];
      } else if a[0] == b[0] {
        BeforeMeaning(a[1..], b[1..]);
        if Before(a, b) {
          var i :| 0 <= i <= |a[1..]| && i < |b[1..]| && a[1..][..i] == b[1..][..i] &&
            (i == |a[1..]| || a[1..][i] < b[1..][i]);
          assert a[..i + 1] == [a[0]] + a[1..][..i] && b[..i + 1] == [b[0]] + b[1..][..i];
        }
        if i :| 0 <= i <= |a| && i < |b| && a[..i] == b[..i] && (i == |a| || a[i] < b[i]) {
          assert i > 0;
          assert a[1..][..i - 1] == a[..i][1..] && b[1..][..i - 1] == b[..i][1..];
        }
      } else if i :| 0 <= i <= |a| && i < |b| && a[..i] == b[..i] && (i == |a| || a[i] < b[i]) {
        assert i > 0;
        assert a[..i][0] == b[..i][0];
      }
    }
  }

  lemma {:induction false} BeforeTotal(a: string, b: string)
    ensures a == b <==> !Before(a, b) && !Before(b, a)
    ensures !(Before(a, b) && Before(b, a))
  {
    if a != "" && b != "" {
      BeforeTotal(a[1..], b[1..]);
      assert a == [a[0]] + a[1..] && b == [b[0]] + b[1..];
    }
  }

  lemma {:induction false} BeforeTransitive(a: string, b: string, c: string)
    requires Before(a, b) && Before(b, c)
    ensures Before(a, c)
  {
    if a != "" && a[0] == b[0] == c[0] {
      BeforeTransitive(a[1..], b[1..], c[1..]);
    }
  }

  // ----- normal forms

  // Put f in front of the first field whose key does not come before its own.
  function Insert(f: Field, fs: seq<Field>): seq<Field> {
    if fs == [] || !Before(fs[0].key, f.key) then [f] + fs else [fs[0]] + Insert(f, fs[1..])
  }

  // Keys sorted at every level.  When `full` is set, dict entries holding None are dropped as well
  // (None items of lists stay) and integral floats become ints.
  function Normal(full: bool, v: Json): Json
    decreases v, 1
  {
    match v
    case Arr(items) => Arr(NormalItems(full, items))
    case Obj(fields) => Obj(NormalFields(full, fields))
    case Real(f) => if full && f.frac == "" then Int(Truncated(f)) else v
    case _ => v
  }

  function NormalItems(full: bool, items: seq<Json>): (r: seq<Json>)
    ensures |r| == |items|
    decreases items, 0
  {
    if items == [] then [] else [Normal(full, items[0])] + NormalItems(full, items[1..])
  }

  function NormalFields(full: bool, fields: seq<Field>): seq<Field>
    decreases fields, 0
  {
    if fields == [] then []
    else
      var rest := NormalFields(full, fields[1..]);
      if full && fields[0].value.Null? then rest
      else Insert(Field(fields[0].key, Normal(full, fields[0].value)), rest)
  }

  function SortKeys(v: Json): Json {
    Normal(false, v)
  }

  // ----- height: the level of the deepest node, not counting None values of dicts

  function Max(a: nat, b: nat): nat {
    if a < b then b else a
  }

  function Height(v: Json): nat
    decreases v, 1
  {
    match v
    case Arr(items) => HeightItems(items)
    case Obj(fields) => HeightFields(fields)
    case _ => 0
  }

  function HeightItems(items: seq<Json>): nat
    decreases items, 0
  {
    if items == [] then 0 else Max(1 + Height(items[0]), HeightItems(items[1..]))
  }

  function HeightFields(fields: seq<Field>): nat
    decreases fields, 0
  {
    if fields == [] then 0
    else if fields[0].value.Null? then HeightFields(fields[1..])
    else Max(1 + Height(fields[0].value), HeightFields(fields[1..]))
  }

  // Every item of a list is a level deeper, a None among them too; of a dict only what is not None.
  lemma HeightMeaning(items: seq<Json>, fields: seq<Field>, n: nat)
    ensures Height(Arr(items)) <= n <==> forall x | x in items :: 1 + Height(x) <= n
    ensures Height(Obj(fields)) <= n <==> forall f: Field | f in fields && !f.value.Null? :: 1 + Height(f.value) <= n
  {
    HeightItemsMeaning(items, n);
    HeightFieldsMeaning(fields, n);
  }

  lemma {:induction false} HeightItemsMeaning(items: seq<Json>, n: nat)
    ensures HeightItems(items) <= n <==> forall x | x in items :: 1 + Height(x) <= n
  {
    if items != [] {
      hide Height;
      HeightItemsMeaning(items[1..], n);
      assert items[0] in items && forall x | x in items[1..] :: x in items;
      assert (forall x | x in items :: 1 + Height(x) <= n) <==>
             1 + Height(items[0]) <= n && forall x | x in items[1..] :: 1 + Height(x) <= n by {
        assert items == [items[0]] + items[1..];
      }
    }
  }

  lemma {:induction false} HeightFieldsMeaning(fields: seq<Field>, n: nat)
    ensures HeightFields(fields) <= n <==> forall f: Field | f in fields && !f.value.Null? :: 1 + Height(f.value) <= n
  {
    if fields != [] {
      hide Height;
      HeightFieldsMeaning(fields[1..], n);
      assert forall f: Field :: f in fields <==> f == fields[0] || f in fields[1..];
    }
  }

  // An integral float has the value of its digits, with its sign.
  lemma TruncatedMeaning(f: Float, i: int)
    requires f.frac == ""
    ensures Truncated(f) == i <==> f == OfInt(i)
    ensures Truncated(f) < 0 <==> f.neg
  {
  }

  // ----- sortedness at every level

  ghost predicate Ascending(fields: seq<Field>) {
    forall i, j | 0 <= i < j < |fields| :: !Before(fields[j].key, fields[i].key)
  }

  ghost predicate DeepSorted(v: Json)
    decreases v
  {
    match v
    case Arr(items) => forall x | x in items :: DeepSorted(x)
    case Obj(fields) => Ascending(fields) && forall f: Field | f in fields :: DeepSorted(f.value)
    case _ => true
  }

  lemma {:induction false} InsertAscending(f: Field, fs: seq<Field>)
    requires Ascending(fs)
    ensures Ascending(Insert(f, fs))
    ensures multiset(Insert(f, fs)) == multiset(fs) + multiset{f}
  {
    hide Before;
    if fs == [] {
    } else if !Before(fs[0].key, f.key) {
      forall j | 0 <= j < |fs|
        ensures !Before(fs[j].key, f.key)
      {
        if Before(fs[j].key, f.key) {
          BeforeTotal(fs[0].key, fs[j].key);
          if fs[0].key != fs[j].key {
            BeforeTransitive(fs[0].key, fs[j].key, f.key);
          }
        }
      }
    } else {
      InsertAscending(f, fs[1..]);
      var r := Insert(f, fs[1..]);
      assert fs == [fs[0]] + fs[1..];
      forall j | 0 <= j < |r|
        ensures !Before(r[j].key, fs[0].key)
      {
        assert r[j] in multiset(r);
        if r[j] == f {
          BeforeTotal(fs[0].key, f.key);
        } else {
          assert r[j] in fs[1..];
        }
      }
    }
  }

  lemma {:induction false} InsertMember(f: Field, fs: seq<Field>, g: Field)
    ensures g in Insert(f, fs) <==> g == f || g in fs
  {
    if fs != [] && Before(fs[0].key, f.key) {
      InsertMember(f, fs[1..], g);
    }
  }

  lemma {:induction false} NormalMember(fields: seq<Field>, g: Field)
    ensures g in NormalFields(true, fields) <==>
            exists f: Field | f in fields :: !f.value.Null? && g == Field(f.key, Normal(true, f.value))
  {
    if fields != [] {
      var f := fields[0];
      NormalMember(fields[1..], g);
      assert fields == [f] + fields[1..];
      if !f.value.Null? {
        InsertMember(Field(f.key, Normal(true, f.value)), NormalFields(true, fields[1..]), g);
      }
    }
  }

  lemma {:induction false} NormalIsSorted(full: bool, v: Json)
    ensures DeepSorted(Normal(full, v))
    decreases v, 1
  {
    match v
    case Arr(items) => NormalItemsSorted(full, items);
    case Obj(fields) => NormalFieldsSorted(full, fields);
    case _ =>
  }

  lemma {:induction false} NormalItemsSorted(full: bool, items: seq<Json>)
    ensures forall x | x in NormalItems(full, items) :: DeepSorted(x)
    decreases items, 0
  {
    if items != [] {
      NormalIsSorted(full, items[0]);
      NormalItemsSorted(full, items[1..]);
    }
  }

  lemma {:induction false} NormalFieldsSorted(full: bool, fields: seq<Field>)
    ensures Ascending(NormalFields(full, fields))
    ensures forall f: Field | f in NormalFields(full, fields) :: DeepSorted(f.value)
    decreases fields, 0
  {
    if fields != [] {
      NormalFieldsSorted(full, fields[1..]);
      if !(full && fields[0].value.Null?) {
        NormalIsSorted(full, fields[0].value);
        var f := Field(fields[0].key, Normal(full, fields[0].value));
        var rest := NormalFields(full, fields[1..]);
        InsertAscending(f, rest);
        forall g: Field | g in Insert(f, rest)
          ensures DeepSorted(g.value)
        {
          assert g in multiset(Insert(f, rest));
        }
      }
    }
  }

  // Sorting a sorted tree changes nothing.
  lemma {:induction false} SortedIsFixed(v: Json)
    requires DeepSorted(v)
    ensures SortKeys(v) == v
    decreases v, 1
  {
    match v
    case Arr(items) => SortedItemsFixed(items);
    case Obj(fields) => SortedFieldsFixed(fields);
    case _ =>
  }

  lemma {:induction false} SortedItemsFixed(items: seq<Json>)
    requires forall x | x in items :: DeepSorted(x)
    ensures NormalItems(false, items) == items
    decreases items, 0
  {
    if items != [] {
      SortedIsFixed(items[0]);
      SortedItemsFixed(items[1..]);
    }
  }

  lemma {:induction false} SortedFieldsFixed(fields: seq<Field>)
    requires Ascending(fields) && forall f: Field | f in fields :: DeepSorted(f.value)
    ensures NormalFields(false, fields) == fields
    decreases fields, 0
  {
    if fields != [] {
      SortedIsFixed(fields[0].value);
      assert Ascending(fields[1..]) by {
        forall i, j | 0 <= i < j < |fields[1..]|
          ensures !Before(fields[1..][j].key, fields[1..][i].key)
        {
          assert fields[1..][j] == fields[j + 1] && fields[1..][i] == fields[i + 1];
        }
      }
      SortedFieldsFixed(fields[1..]);
    }
  }
}
