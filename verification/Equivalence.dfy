/**
 Which payloads mean the same, defined by rewriting and without any normaliser: two trees are
 equivalent when a chain of single rewrites, each used in either direction, leads from one to the
 other.  The rewrites exchange neighbouring dict entries and, when `full` is set, also drop a dict
 entry holding None or turn an integral float into the int.

 The main results: the normal form decides this relation, and the relation preserves height.
 */
module Equivalence {
  import opened Json

  function Drop<T>(s: seq<T>, i: nat): seq<T>
    requires i < |s|
  {
    s[..i] + s[i + 1..]
  }

  function Swap<T>(s: seq<T>, i: nat): seq<T>
    requires i + 1 < |s|
  {
    s[i := s[i + 1]][i + 1 := s[i]]
  }

  ghost predicate Step(full: bool, v: Json, w: Json)
    decreases v
  {
    || (full && Integral(v) && w == Int(Truncated(v.f)))
    || (v.Arr? && w.Arr? && exists i | 0 <= i < |v.items| :: ItemStep(full, v, i, w))
    || (v.Obj? && w.Obj? && exists i | 0 <= i < |v.fields| :: FieldStep(full, v, i, w))
  }

  ghost predicate ItemStep(full: bool, v: Json, i: nat, w: Json)
    requires v.Arr? && w.Arr? && i < |v.items|
    decreases v, 0
  {
    |w.items| == |v.items| && w.items == v.items[i := w.items[i]] && Step(full, v.items[i], w.items[i])
  }

  ghost predicate FieldStep(full: bool, v: Json, i: nat, w: Json)
    requires v.Obj? && w.Obj? && i < |v.fields|
    decreases v, 0
  {
    || (full && v.fields[i].value.Null? && w.fields == Drop(v.fields, i))
    || (i + 1 < |v.fields| && v.fields[i].key != v.fields[i + 1].key && w.fields == Swap(v.fields, i))
    || (|w.fields| == |v.fields| && w.fields == v.fields[i := Field(v.fields[i].key, w.fields[i].value)] &&
        Step(full, v.fields[i].value, w.fields[i].value))
  }

  ghost predicate Linked(full: bool, v: Json, w: Json) {
    v == w || Step(full, v, w) || Step(full, w, v)
  }

  ghost predicate Chain(full: bool, path: seq<Json>, v: Json, w: Json) {
    && path != [] && path[0] == v && path[|path| - 1] == w
    && forall i | 0 <= i < |path| - 1 :: Linked(full, path[i], path[i + 1])
  }

  ghost predicate Equivalent(full: bool, v: Json, w: Json) {
    exists path :: Chain(full, path, v, w)
  }

  // ----- an equivalence relation

  lemma LinkedEquivalent(full: bool, v: Json, w: Json)
    requires Linked(full, v, w)
    ensures Equivalent(full, v, w)
  {
    assert Chain(full, [v, w], v, w);
  }

  lemma Transitive(full: bool, u: Json, v: Json, w: Json)
    requires Equivalent(full, u, v) && Equivalent(full, v, w)
    ensures Equivalent(full, u, w)
  {
    var p :| Chain(full, p, u, v);
    var q :| Chain(full, q, v, w);
    var r := p + q;
    forall i | 0 <= i < |r| - 1
      ensures Linked(full, r[i], r[i + 1])
    {
      if i >= |p| {
        assert r[i] == q[i - |p|] && r[i + 1] == q[i - |p| + 1];
      }
    }
    assert Chain(full, r, u, w);
  }

  lemma Symmetric(full: bool, v: Json, w: Json)
    requires Equivalent(full, v, w)
    ensures Equivalent(full, w, v)
  {
    var p :| Chain(full, p, v, w);
    var r := seq(|p|, i requires 0 <= i < |p| => p[|p| - 1 - i]);
    forall i | 0 <= i < |r| - 1
      ensures Linked(full, r[i], r[i + 1])
    {
      var j := |p| - 2 - i;
      assert Linked(full, p[j], p[j + 1]);
    }
    assert Chain(full, r, w, v);
  }

  // ----- a congruence

  lemma InItem(full: bool, items: seq<Json>, i: nat, w: Json)
    requires i < |items| && Equivalent(full, items[i], w)
    ensures Equivalent(full, Arr(items), Arr(items[i := w]))
  {
    var p :| Chain(full, p, items[i], w);
    var r := seq(|p|, k requires 0 <= k < |p| => Arr(items[i := p[k]]));
    forall k | 0 <= k < |r| - 1
      ensures Linked(full, r[k], r[k + 1])
    {
      assert Linked(full, p[k], p[k + 1]);
      if Step(full, p[k], p[k + 1]) {
        assert ItemStep(full, r[k], i, r[k + 1]);
      } else if Step(full, p[k + 1], p[k]) {
        assert ItemStep(full, r[k + 1], i, r[k]);
      }
    }
    assert items[i := items[i]] == items;
    assert Chain(full, r, Arr(items), Arr(items[i := w]));
  }

  lemma InField(full: bool, fields: seq<Field>, i: nat, w: Json)
    requires i < |fields| && Equivalent(full, fields[i].value, w)
    ensures Equivalent(full, Obj(fields), Obj(fields[i := Field(fields[i].key, w)]))
  {
    var p :| Chain(full, p, fields[i].value, w);
    var key := fields[i].key;
    var r := seq(|p|, k requires 0 <= k < |p| => Obj(fields[i := Field(key, p[k])]));
    forall k | 0 <= k < |r| - 1
      ensures Linked(full, r[k], r[k + 1])
    {
      assert Linked(full, p[k], p[k + 1]);
      if Step(full, p[k], p[k + 1]) {
        assert FieldStep(full, r[k], i, r[k + 1]);
      } else if Step(full, p[k + 1], p[k]) {
        assert FieldStep(full, r[k + 1], i, r[k]);
      }
    }
    assert fields[i := Field(key, fields[i].value)] == fields;
    assert Chain(full, r, Obj(fields), Obj(fields[i := Field(key, w)]));
  }

  // ----- every tree is equivalent to its normal form

  lemma {:induction false} ToNormal(full: bool, v: Json)
    ensures Equivalent(full, v, Normal(full, v))
    decreases v, 1
  {
    match v
    case Arr(items) =>
      ItemsToNormal(full, [], items);
      assert [] + items == items && [] + NormalItems(full, items) == NormalItems(full, items);
    case Obj(fields) =>
      FieldsToNormal(full, [], fields);
      assert [] + fields == fields && [] + NormalFields(full, fields) == NormalFields(full, fields);
    case _ =>
      LinkedEquivalent(full, v, Normal(full, v));
  }

  lemma {:induction false} ItemsToNormal(full: bool, done: seq<Json>, items: seq<Json>)
    ensures Equivalent(full, Arr(done + items), Arr(done + NormalItems(full, items)))
    decreases items, 0
  {
    if items == [] {
      LinkedEquivalent(full, Arr(done + items), Arr(done + items));
    } else {
      ToNormal(full, items[0]);
      var n := Normal(full, items[0]);
      InItem(full, done + items, |done|, n);
      var next := done + [n];
      assert (done + items)[|done| := n] == next + items[1..];
      ItemsToNormal(full, next, items[1..]);
      assert next + NormalItems(full, items[1..]) == done + NormalItems(full, items);
      Transitive(full, Arr(done + items), Arr(next + items[1..]), Arr(done + NormalItems(full, items)));
    }
  }

  lemma {:induction false} FieldsToNormal(full: bool, done: seq<Field>, fields: seq<Field>)
    ensures Equivalent(full, Obj(done + fields), Obj(done + NormalFields(full, fields)))
    decreases fields, 0
  {
    hide Equivalent, Step, Normal, Insert;
    if fields == [] {
      LinkedEquivalent(full, Obj(done + fields), Obj(done + fields));
    } else {
      var f, rest := fields[0], NormalFields(full, fields[1..]);
      var start, goal := Obj(done + fields), Obj(done + NormalFields(full, fields));
      var middle := Obj(done + [f] + rest);
      FieldsToNormal(full, done + [f], fields[1..]);
      assert done + [f] + fields[1..] == done + fields;
      if full && f.value.Null? {
        DropField(full, done, f, rest);
      } else {
        ToNormal(full, f.value);
        PlaceField(full, done, f, Normal(full, f.value), rest);
      }
      Transitive(full, start, middle, goal);
    }
  }

  lemma DropField(full: bool, done: seq<Field>, f: Field, rest: seq<Field>)
    requires full && f.value.Null?
    ensures Equivalent(full, Obj(done + [f] + rest), Obj(done + rest))
  {
    var v, w := Obj(done + [f] + rest), Obj(done + rest);
    assert Drop(v.fields, |done|) == w.fields;
    assert FieldStep(full, v, |done|, w);
    LinkedEquivalent(full, v, w);
  }

  lemma PlaceField(full: bool, done: seq<Field>, f: Field, n: Json, rest: seq<Field>)
    requires Equivalent(full, f.value, n)
    ensures Equivalent(full, Obj(done + [f] + rest), Obj(done + Insert(Field(f.key, n), rest)))
  {
    hide Equivalent, Insert;
    var g := Field(f.key, n);
    var fields := done + [f] + rest;
    InField(full, fields, |done|, n);
    assert fields[|done| := g] == done + [g] + rest;
    InsertBySwaps(full, done, g, rest);
    Transitive(full, Obj(fields), Obj(done + [g] + rest), Obj(done + Insert(g, rest)));
  }

  lemma {:induction false} InsertBySwaps(full: bool, done: seq<Field>, f: Field, fs: seq<Field>)
    ensures Equivalent(full, Obj(done + [f] + fs), Obj(done + Insert(f, fs)))
    decreases fs
  {
    if fs == [] || !Before(fs[0].key, f.key) {
      assert done + [f] + fs == done + Insert(f, fs);
      LinkedEquivalent(full, Obj(done + [f] + fs), Obj(done + [f] + fs));
    } else {
      BeforeTotal(f.key, f.key);
      var v, w := Obj(done + [f] + fs), Obj(done + [fs[0]] + [f] + fs[1..]);
      assert Swap(v.fields, |done|) == w.fields;
      assert FieldStep(full, v, |done|, w);
      LinkedEquivalent(full, v, w);
      InsertBySwaps(full, done + [fs[0]], f, fs[1..]);
      assert done + [fs[0]] + Insert(f, fs[1..]) == done + Insert(f, fs);
      Transitive(full, v, w, Obj(done + Insert(f, fs)));
    }
  }

  // ----- a rewrite changes neither the normal form nor the height

  lemma {:induction false} InsertCommutes(a: Field, b: Field, fs: seq<Field>)
    requires a.key != b.key
    ensures Insert(a, Insert(b, fs)) == Insert(b, Insert(a, fs))
  {
    BeforeTotal(a.key, b.key);
    if fs != [] {
      if Before(fs[0].key, a.key) && Before(fs[0].key, b.key) {
        InsertCommutes(a, b, fs[1..]);
      } else if Before(fs[0].key, a.key) && Before(a.key, b.key) {
        BeforeTransitive(fs[0].key, a.key, b.key);
      } else if Before(fs[0].key, b.key) && Before(b.key, a.key) {
        BeforeTransitive(fs[0].key, b.key, a.key);
      }
    }
  }

  lemma {:induction false} NormalFieldsSplit(full: bool, fields: seq<Field>, gields: seq<Field>, i: nat)
    requires i <= |fields| && i <= |gields| && fields[..i] == gields[..i]
    requires NormalFields(full, fields[i..]) == NormalFields(full, gields[i..])
    requires HeightFields(fields[i..]) == HeightFields(gields[i..])
    ensures NormalFields(full, fields) == NormalFields(full, gields)
    ensures HeightFields(fields) == HeightFields(gields)
    decreases i
  {
    if i == 0 {
      assert fields[0..] == fields && gields[0..] == gields;
    } else {
      assert fields[0] == fields[..i][0] == gields[..i][0] == gields[0];
      assert fields[1..][..i - 1] == fields[..i][1..] && gields[1..][..i - 1] == gields[..i][1..];
      assert fields[1..][i - 1..] == fields[i..] && gields[1..][i - 1..] == gields[i..];
      NormalFieldsSplit(full, fields[1..], gields[1..], i - 1);
    }
  }

  lemma {:induction false} NormalItemsReplace(full: bool, items: seq<Json>, i: nat, w: Json)
    requires i < |items| && Normal(full, items[i]) == Normal(full, w) && Height(items[i]) == Height(w)
    ensures NormalItems(full, items[i := w]) == NormalItems(full, items)
    ensures HeightItems(items[i := w]) == HeightItems(items)
    decreases i
  {
    if i == 0 {
      assert items[0 := w][1..] == items[1..];
    } else {
      assert items[i := w][1..] == items[1..][i - 1 := w];
      NormalItemsReplace(full, items[1..], i - 1, w);
    }
  }

  lemma NormalFieldsCons(full: bool, f: Field, rest: seq<Field>)
    ensures NormalFields(full, [f] + rest) ==
            if full && f.value.Null? then NormalFields(full, rest)
            else Insert(Field(f.key, Normal(full, f.value)), NormalFields(full, rest))
    ensures HeightFields([f] + rest) ==
            if f.value.Null? then HeightFields(rest) else Max(1 + Height(f.value), HeightFields(rest))
  {
    assert ([f] + rest)[1..] == rest;
  }

  lemma DropPreserves(fs: seq<Field>, i: nat)
    requires i < |fs| && fs[i].value.Null?
    ensures NormalFields(true, fs) == NormalFields(true, Drop(fs, i))
    ensures HeightFields(fs) == HeightFields(Drop(fs, i))
  {
    hide NormalFields, HeightFields;
    var gs := Drop(fs, i);
    assert fs[i..] == [fs[i]] + gs[i..] && gs[..i] == fs[..i];
    NormalFieldsCons(true, fs[i], gs[i..]);
    NormalFieldsSplit(true, fs, gs, i);
  }

  lemma SwapPreserves(full: bool, fs: seq<Field>, i: nat)
    requires i + 1 < |fs| && fs[i].key != fs[i + 1].key
    ensures NormalFields(full, fs) == NormalFields(full, Swap(fs, i))
    ensures HeightFields(fs) == HeightFields(Swap(fs, i))
  {
    hide NormalFields, HeightFields, Insert, Normal, Height;
    var gs := Swap(fs, i);
    var a, b, rest := fs[i], fs[i + 1], fs[i + 2..];
    assert fs[i..] == [a] + ([b] + rest) && gs[i..] == [b] + ([a] + rest) && gs[..i] == fs[..i];
    NormalFieldsCons(full, a, [b] + rest);
    NormalFieldsCons(full, b, rest);
    NormalFieldsCons(full, b, [a] + rest);
    NormalFieldsCons(full, a, rest);
    InsertCommutes(Field(a.key, Normal(full, a.value)), Field(b.key, Normal(full, b.value)), NormalFields(full, rest));
    NormalFieldsSplit(full, fs, gs, i);
  }

  lemma ReplacePreserves(full: bool, fs: seq<Field>, i: nat, w: Json)
    requires i < |fs| && !fs[i].value.Null? && !w.Null?
    requires Normal(full, fs[i].value) == Normal(full, w) && Height(fs[i].value) == Height(w)
    ensures NormalFields(full, fs) == NormalFields(full, fs[i := Field(fs[i].key, w)])
    ensures HeightFields(fs) == HeightFields(fs[i := Field(fs[i].key, w)])
  {
    hide NormalFields, HeightFields;
    var g := Field(fs[i].key, w);
    var gs := fs[i := g];
    assert fs[i..] == [fs[i]] + fs[i + 1..] && gs[i..] == [g] + fs[i + 1..] && gs[..i] == fs[..i];
    NormalFieldsCons(full, fs[i], fs[i + 1..]);
    NormalFieldsCons(full, g, fs[i + 1..]);
    NormalFieldsSplit(full, fs, gs, i);
  }

  lemma {:induction false} StepPreserves(full: bool, v: Json, w: Json)
    requires Step(full, v, w)
    ensures Normal(full, v) == Normal(full, w) && Height(v) == Height(w)
    ensures !v.Null? && !w.Null?
    decreases v
  {
    hide NormalFields, NormalItems, HeightFields, HeightItems, Drop, Swap;
    if v.Arr? {
      var i :| 0 <= i < |v.items| && ItemStep(full, v, i, w);
      StepPreserves(full, v.items[i], w.items[i]);
      NormalItemsReplace(full, v.items, i, w.items[i]);
    } else if v.Obj? {
      var i :| 0 <= i < |v.fields| && FieldStep(full, v, i, w);
      var fs := v.fields;
      if full && fs[i].value.Null? && w.fields == Drop(fs, i) {
        DropPreserves(fs, i);
      } else if i + 1 < |fs| && fs[i].key != fs[i + 1].key && w.fields == Swap(fs, i) {
        SwapPreserves(full, fs, i);
      } else {
        StepPreserves(full, fs[i].value, w.fields[i].value);
        ReplacePreserves(full, fs, i, w.fields[i].value);
      }
    }
  }

  lemma {:induction false} ChainPreserves(full: bool, path: seq<Json>, v: Json, w: Json)
    requires Chain(full, path, v, w)
    ensures Normal(full, v) == Normal(full, w) && Height(v) == Height(w)
    decreases |path|
  {
    if |path| > 1 {
      assert Linked(full, path[0], path[1]);
      if Step(full, path[0], path[1]) {
        StepPreserves(full, path[0], path[1]);
      } else if Step(full, path[1], path[0]) {
        StepPreserves(full, path[1], path[0]);
      }
      var rest := path[1..];
      forall i | 0 <= i < |rest| - 1
        ensures Linked(full, rest[i], rest[i + 1])
      {
        assert Linked(full, path[i + 1], path[i + 2]);
      }
      ChainPreserves(full, rest, path[1], w);
    }
  }

  // Main result: two trees have the same normal form exactly when rewriting connects them.
  lemma {:induction false} NormalDecides(full: bool, v: Json, w: Json)
    ensures Normal(full, v) == Normal(full, w) <==> Equivalent(full, v, w)
  {
    if Normal(full, v) == Normal(full, w) {
      ToNormal(full, v);
      ToNormal(full, w);
      Symmetric(full, w, Normal(full, w));
      Transitive(full, v, Normal(full, v), w);
    }
    if Equivalent(full, v, w) {
      var path :| Chain(full, path, v, w);
      ChainPreserves(full, path, v, w);
    }
  }

  lemma EquivalentHeights(full: bool, v: Json, w: Json)
    requires Equivalent(full, v, w)
    ensures Height(v) == Height(w)
  {
    var path :| Chain(full, path, v, w);
    ChainPreserves(full, path, v, w);
  }

  // Sorting alone is a special case of full equivalence.
  lemma {:induction false} StepWeaken(v: Json, w: Json)
    requires Step(false, v, w)
    ensures Step(true, v, w)
    decreases v
  {
    if v.Arr? {
      var i :| 0 <= i < |v.items| && ItemStep(false, v, i, w);
      StepWeaken(v.items[i], w.items[i]);
      assert ItemStep(true, v, i, w);
    } else {
      var i :| 0 <= i < |v.fields| && FieldStep(false, v, i, w);
      if |w.fields| == |v.fields| && Step(false, v.fields[i].value, w.fields[i].value) {
        StepWeaken(v.fields[i].value, w.fields[i].value);
      }
      assert FieldStep(true, v, i, w);
    }
  }

  lemma Weaken(v: Json, w: Json)
    requires Equivalent(false, v, w)
    ensures Equivalent(true, v, w)
  {
    var p :| Chain(false, p, v, w);
    forall i | 0 <= i < |p| - 1
      ensures Linked(true, p[i], p[i + 1])
    {
      assert Linked(false, p[i], p[i + 1]);
      if Step(false, p[i], p[i + 1]) {
        StepWeaken(p[i], p[i + 1]);
      } else if Step(false, p[i + 1], p[i]) {
        StepWeaken(p[i + 1], p[i]);
      }
    }
    assert Chain(true, p, v, w);
  }
}
