/**
 Matching of owned devices, resources and artifacts against requirements.

 Property values are scalars or collections of scalars; a bool is a number, as in Python.  Dicts
 are maps, and a loop over a dict visits its keys in an arbitrary order.  Case folding is a
 parameter, so that nothing here depends on how letters are folded.
 */
module Matching {
  import opened Wrappers
  import opened FirstFit

  datatype Atom = Nil | Num(n: real) | Str(s: string)
  datatype Value = Scalar(atom: Atom) | Coll(items: set<Atom>)

  type Properties = map<string, Value>
  type Folding = string -> string

  datatype Device = Device(
    kind: string, model: Option<string>, id: Option<string>, properties: Option<Properties>)
  datatype Resources = Resources(devices: Option<seq<Device>>, properties: Option<Properties>)
  datatype Artifact = Artifact(name: string, version: string, properties: Option<Properties>)

  // ----- property values

  // The scalars a value offers or allows.
  function Choices(v: Value): set<Atom> {
    match v
    case Scalar(a) => {a}
    case Coll(items) => items
  }

  // When both sides are numbers mine must be at least what is wanted; in every other case the two
  // sides must share a choice.  A None value of mine satisfies nothing.
  predicate Accepts(mine: Value, wanted: Value) {
    mine != Scalar(Nil) &&
    if mine.Scalar? && mine.atom.Num? && wanted.Scalar? && wanted.atom.Num? then
      mine.atom.n >= wanted.atom.n
    else
      Choices(mine) * Choices(wanted) != {}
  }

  predicate Provides(mine: Properties, wanted: Properties) {
    forall k | k in wanted :: k in mine && Accepts(mine[k], wanted[k])
  }

  // The rule written out: None satisfies nothing, of two numbers mine is at least the other, and
  // otherwise a scalar is equal to the other or among its choices, and two collections overlap.
  lemma AcceptsMeaning(mine: Value, wanted: Value)
    ensures Accepts(mine, wanted) <==>
            match (mine, wanted)
            case (Scalar(Nil), _) => false
            case (Scalar(Num(a)), Scalar(Num(b))) => a >= b
            case (Scalar(a), Scalar(b)) => a == b
            case (Scalar(a), Coll(ys)) => a in ys
            case (Coll(xs), Scalar(b)) => b in xs
            case (Coll(xs), Coll(ys)) => exists x :: x in xs && x in ys
  {
    match (mine, wanted)
    case (Scalar(a), Scalar(b)) => ScalarsShare(a, b);
    case (Scalar(a), Coll(ys)) => assert a in ys ==> a in Choices(mine) * Choices(wanted);
    case (Coll(xs), Scalar(b)) => assert b in xs ==> b in Choices(mine) * Choices(wanted);
    case (Coll(xs), Coll(ys)) =>
      if x :| x in xs && x in ys {
        assert x in Choices(mine) * Choices(wanted);
      }
  }

  function OrEmpty(p: Option<Properties>): Properties {
    if p.Some? then p.value else map[]
  }

  function OrNoDevices(d: Option<seq<Device>>): seq<Device> {
    if d.Some? then d.value else []
  }

  method CheckProperties(mine: Properties, wanted: Properties) returns (ok: bool)
    ensures ok <==> forall k | k in wanted :: k in mine && Accepts(mine[k], wanted[k])
  {
    var todo := wanted.Keys;
    while todo != {}
      invariant todo <= wanted.Keys
      invariant forall k | k in wanted && k !in todo :: k in mine && Accepts(mine[k], wanted[k])
      decreases todo
    {
      var k :| k in todo;
      var myV := if k in mine then mine[k] else Scalar(Nil);
      var reqV := wanted[k];
      if myV == Scalar(Nil) {
        return false;
      }
      if reqV.Scalar? && reqV.atom.Num? && myV.Scalar? && myV.atom.Num? {
        if myV.atom.n < reqV.atom.n {
          return false;
        }
      } else if reqV.Coll? {
        if myV.Coll? {
          if myV.items * reqV.items == {} {
            return false;
          }
        } else if myV.atom !in reqV.items {
          assert Choices(myV) * reqV.items == {};
          return false;
        } else {
          assert myV.atom in Choices(myV) * reqV.items;
        }
      } else if myV.Coll? {
        if reqV.atom !in myV.items {
          assert myV.items * Choices(reqV) == {};
          return false;
        }
        assert reqV.atom in myV.items * Choices(reqV);
      } else if myV != reqV {
        assert Choices(myV) * Choices(reqV) == {};
        return false;
      } else {
        assert myV.atom in Choices(myV) * Choices(reqV);
      }
      todo := todo - {k};
    }
    return true;
  }

  // ----- devices

  predicate Contains(s: string, part: string) {
    exists i | 0 <= i <= |s| :: part <= s[i..]
  }

  // An empty or absent field of the requirement is a wildcard.
  predicate Matches(fold: Folding, mine: Device, req: Device) {
    && (req.kind != "" ==> mine.kind == req.kind)
    && (Given(req.model) ==> Given(mine.model) && Contains(fold(mine.model.value), fold(req.model.value)))
    && (Given(req.id) ==> mine.id == req.id)
    && Provides(OrEmpty(mine.properties), OrEmpty(req.properties))
  }

  predicate Given(s: Option<string>) {
    s.Some? && s.value != ""
  }

  // The test written out.
  lemma MatchesMeaning(fold: Folding, mine: Device, req: Device)
    ensures Matches(fold, mine, req) <==>
            && (req.kind == "" || mine.kind == req.kind)
            && (req.model == None || req.model == Some("") ||
                (mine.model.Some? && mine.model != Some("") &&
                 exists a, b :: fold(mine.model.value) == a + fold(req.model.value) + b))
            && (req.id == None || req.id == Some("") || mine.id == req.id)
            && (req.properties.Some? ==> forall k | k in req.properties.value ::
                  mine.properties.Some? && k in mine.properties.value &&
                  Accepts(mine.properties.value[k], req.properties.value[k]))
  {
    hide Accepts;
    if Given(req.model) && Given(mine.model) {
      ContainsMeaning(fold(mine.model.value), fold(req.model.value));
    }
  }

  lemma ContainsMeaning(s: string, part: string)
    ensures Contains(s, part) <==> exists a, b :: s == a + part + b
  {
    if Contains(s, part) {
      var i :| 0 <= i <= |s| && part <= s[i..];
      assert s == s[..i] + part + s[i + |part|..];
    }
    if a, b :| s == a + part + b {
      assert s[|a|..] == part + b;
    }
  }

  method MatchDevice(fold: Folding, mine: Device, req: Device) returns (ok: bool)
    ensures ok == Matches(fold, mine, req)
  {
    if req.kind != "" && mine.kind != req.kind {
      return false;
    }
    if Given(req.model) && (!Given(mine.model) || !Contains(fold(mine.model.value), fold(req.model.value))) {
      return false;
    }
    if Given(req.id) && mine.id != req.id {
      return false;
    }
    if OrEmpty(req.properties) == map[] {
      return true;
    }
    ok := CheckProperties(OrEmpty(mine.properties), OrEmpty(req.properties));
  }

  function Acceptance(fold: Folding): (Device, Device) -> bool {
    (mine, req) => Matches(fold, mine, req)
  }

  // ----- resources: the greedy loop

  ghost predicate Satisfies(fold: Folding, mine: Resources, req: Resources) {
    && Fits(Acceptance(fold), OrNoDevices(mine.devices), OrNoDevices(req.devices))
    && Provides(OrEmpty(mine.properties), OrEmpty(req.properties))
  }

  lemma SatisfiesMeaning(fold: Folding, mine: Resources, req: Resources)
    ensures Satisfies(fold, mine, req) <==>
            && Fits(Acceptance(fold), if mine.devices.Some? then mine.devices.value else [],
                    if req.devices.Some? then req.devices.value else [])
            && (req.properties.Some? ==> forall k | k in req.properties.value ::
                  mine.properties.Some? && k in mine.properties.value &&
                  Accepts(mine.properties.value[k], req.properties.value[k]))
  {
    hide Matches, Accepts, Fits;
  }

  // Each required device in turn takes the first device left that matches it.
  method TakeDevices(fold: Folding, mine: seq<Device>, wanted: seq<Device>) returns (ok: bool)
    ensures ok == Fits(Acceptance(fold), mine, wanted)
  {
    hide Matches;
    var pool := mine;
    for j := 0 to |wanted|
      invariant Fits(Acceptance(fold), mine, wanted) == Fits(Acceptance(fold), pool, wanted[j..])
    {
      var found := -1;
      var i := 0;
      while i < |pool| && found == -1
        invariant 0 <= i <= |pool|
        invariant if found == -1 then forall k | 0 <= k < i :: !Matches(fold, pool[k], wanted[j])
                  else 0 <= found == i - 1 && Matches(fold, pool[found], wanted[j]) &&
                       forall k | 0 <= k < found :: !Matches(fold, pool[k], wanted[j])
        decreases |pool| - i, found == -1
      {
        var accepted := MatchDevice(fold, pool[i], wanted[j]);
        if accepted {
          found := i;
        }
        i := i + 1;
      }
      assert wanted[j..][0] == wanted[j] && wanted[j..][1..] == wanted[j + 1..];
      assert First(Acceptance(fold), pool, wanted[j]) == if found == -1 then |pool| else found;
      if found == -1 {
        return false;
      }
      pool := pool[..found] + pool[found + 1..];
    }
    return true;
  }

  method MatchResources(fold: Folding, mine: Resources, req: Resources) returns (ok: bool)
    ensures ok == Satisfies(fold, mine, req)
    // a match serves every generic property
    ensures ok && req.properties.Some? ==>
              forall k | k in req.properties.value ::
                mine.properties.Some? && k in mine.properties.value &&
                Accepts(mine.properties.value[k], req.properties.value[k])
    // and when first fit serves the devices, the properties decide
    ensures Fits(Acceptance(fold), if mine.devices.Some? then mine.devices.value else [],
                 if req.devices.Some? then req.devices.value else []) ==>
              (ok <==> (req.properties.Some? ==> forall k | k in req.properties.value ::
                          mine.properties.Some? && k in mine.properties.value &&
                          Accepts(mine.properties.value[k], req.properties.value[k])))
  {
    hide Matches, Accepts, Satisfies;
    SatisfiesMeaning(fold, mine, req);
    if OrNoDevices(req.devices) != [] {
      ok := TakeDevices(fold, OrNoDevices(mine.devices), OrNoDevices(req.devices));
      if !ok {
        return;
      }
    }
    if OrEmpty(req.properties) != map[] {
      ok := CheckProperties(OrEmpty(mine.properties), OrEmpty(req.properties));
      return;
    }
    return true;
  }

  // ----- artifacts

  method MatchArtifact(mine: Artifact, req: Artifact) returns (ok: bool)
    ensures ok <==> mine.name == req.name && (req.version == "unknown" || req.version == mine.version) &&
                    Provides(OrEmpty(mine.properties), OrEmpty(req.properties))
  {
    if mine.name != req.name {
      return false;
    }
    if req.version != "unknown" && req.version != mine.version {
      return false;
    }
    if OrEmpty(req.properties) == map[] {
      return true;
    }
    ok := CheckProperties(OrEmpty(mine.properties), OrEmpty(req.properties));
  }

  // ----- matching is a preorder on devices with scalar properties

  ghost predicate PlainProperties(d: Device) {
    forall k | k in OrEmpty(d.properties) ::
      OrEmpty(d.properties)[k].Scalar? && OrEmpty(d.properties)[k] != Scalar(Nil)
  }

  ghost function PlainDevices(): iset<Device> {
    iset d: Device | PlainProperties(d)
  }

  lemma ContainsTransitive(a: string, b: string, c: string)
    requires Contains(a, b) && Contains(b, c)
    ensures Contains(a, c)
  {
    var i :| 0 <= i <= |a| && b <= a[i..];
    var j :| 0 <= j <= |b| && c <= b[j..];
    assert a[i + j..] == a[i..][j..];
    assert c <= a[i + j..];
  }

  lemma ScalarsShare(a: Atom, b: Atom)
    ensures Choices(Scalar(a)) * Choices(Scalar(b)) != {} <==> a == b
  {
    assert a == b ==> a in Choices(Scalar(a)) * Choices(Scalar(b));
  }

  lemma MatchesReflexive(fold: Folding, d: Device)
    requires PlainProperties(d)
    ensures Matches(fold, d, d)
  {
    if Given(d.model) {
      assert fold(d.model.value) <= fold(d.model.value)[0..];
    }
    var p := OrEmpty(d.properties);
    forall k | k in p
      ensures Accepts(p[k], p[k])
    {
      ScalarsShare(p[k].atom, p[k].atom);
    }
  }

  lemma MatchesTransitive(fold: Folding, a: Device, b: Device, c: Device)
    requires PlainProperties(a) && PlainProperties(b) && PlainProperties(c)
    requires Matches(fold, a, b) && Matches(fold, b, c)
    ensures Matches(fold, a, c)
  {
    if Given(c.model) {
      ContainsTransitive(fold(a.model.value), fold(b.model.value), fold(c.model.value));
    }
    var pa, pb, pc := OrEmpty(a.properties), OrEmpty(b.properties), OrEmpty(c.properties);
    forall k | k in pc
      ensures k in pa && Accepts(pa[k], pc[k])
    {
      assert Accepts(pb[k], pc[k]) && Accepts(pa[k], pb[k]);
      ScalarsShare(pa[k].atom, pb[k].atom);
      ScalarsShare(pb[k].atom, pc[k].atom);
      ScalarsShare(pa[k].atom, pc[k].atom);
    }
  }

  // ----- when a requirement passes matching on

  // Whatever matches b matches everything that b matches.
  ghost predicate PassesOn(fold: Folding, b: Device) {
    forall a: Device, c: Device | Matches(fold, a, b) && Matches(fold, b, c) :: Matches(fold, a, c)
  }

  // A single choice that is compared for equality: no number by itself and not two items.
  predicate Transparent(v: Value) {
    match v
    case Scalar(atom) => !atom.Num?
    case Coll(items) => |items| <= 1
  }

  predicate PassesProperties(p: Properties) {
    || (exists k | k in p :: p[k] == Coll({}))
    || (forall k | k in p :: Transparent(p[k]))
  }

  lemma AcceptsThrough(a: Value, b: Value, c: Value)
    requires Transparent(b) && Accepts(a, b) && Accepts(b, c)
    ensures Accepts(a, c)
  {
    var x :| x in Choices(b) * Choices(c);
    var y :| y in Choices(a) * Choices(b);
    if x != y {
      assert {x, y} <= Choices(b);
      SubsetSize({x, y}, Choices(b));
    }
    assert x in Choices(a) * Choices(c);
  }

  lemma SubsetSize<T>(a: set<T>, b: set<T>)
    requires a <= b
    ensures |a| <= |b|
  {
    if a != {} {
      var x :| x in a;
      SubsetSize(a - {x}, b - {x});
    }
  }

  // A device that offers what b asks for, each property as a collection, but v for property k.
  function Offering(b: Device, k: string, v: Value): Device
    requires k in OrEmpty(b.properties)
  {
    var p := OrEmpty(b.properties);
    b.(properties := Some((map l | l in p :: Coll(Choices(p[l])))[k := v]))
  }

  function Asking(k: string, v: Value): Device {
    Device("", None, None, Some(map[k := v]))
  }

  lemma OfferingMatches(fold: Folding, b: Device, k: string, v: Value)
    requires k in OrEmpty(b.properties) && Accepts(v, OrEmpty(b.properties)[k])
    requires forall l | l in OrEmpty(b.properties) :: OrEmpty(b.properties)[l] != Coll({})
    ensures Matches(fold, Offering(b, k, v), b)
  {
    if Given(b.model) {
      assert fold(b.model.value) <= fold(b.model.value)[0..];
    }
    var p, q := OrEmpty(b.properties), OrEmpty(Offering(b, k, v).properties);
    forall l | l in p
      ensures l in q && Accepts(q[l], p[l])
    {
      if l != k {
        var x :| x in Choices(p[l]);
        assert x in Choices(q[l]) * Choices(p[l]);
      }
    }
  }

  // A property that is not transparent, and what is offered and asked to show it.
  lemma Blocks(b: Value) returns (a: Value, c: Value)
    requires !Transparent(b)
    ensures Accepts(a, b) && Accepts(b, c) && !Accepts(a, c)
  {
    match b
    case Scalar(atom) =>
      a, c := Coll({atom}), Scalar(Num(atom.n - 1.0));
      assert atom in Choices(a) * Choices(b);
      assert Choices(a) * Choices(c) == {};
    case Coll(items) =>
      var x :| x in items;
      assert |items - {x}| == |items| - 1;
      var y :| y in items - {x};
      a, c := Coll({x}), Coll({y});
      assert x in Choices(a) * Choices(b) && y in Choices(b) * Choices(c);
      assert Choices(a) * Choices(c) == {};
  }

  // Main result on transitivity: matching passes through a device if and only if all its
  // properties are transparent, or one of them is an empty collection, which nothing satisfies.
  lemma PassesOnIff(fold: Folding, b: Device)
    ensures PassesOn(fold, b) <==> PassesProperties(OrEmpty(b.properties))
  {
    hide Transparent;
    var p := OrEmpty(b.properties);
    if k :| k in p && p[k] == Coll({}) {
      forall a: Device
        ensures !Matches(fold, a, b)
      {
        EmptyIsRefused(fold, a, b, k);
      }
    } else if k :| k in p && !Transparent(p[k]) {
      var v, w := Blocks(p[k]);
      OfferingMatches(fold, b, k, v);
      assert Matches(fold, b, Asking(k, w));
      assert !Matches(fold, Offering(b, k, v), Asking(k, w)) by {
        assert OrEmpty(Asking(k, w).properties)[k] == w && OrEmpty(Offering(b, k, v).properties)[k] == v;
      }
    } else {
      hide Matches;
      forall a: Device, c: Device | Matches(fold, a, b) && Matches(fold, b, c)
        ensures Matches(fold, a, c)
      {
        MatchesThrough(fold, a, b, c);
      }
    }
  }

  lemma EmptyIsRefused(fold: Folding, a: Device, b: Device, k: string)
    requires k in OrEmpty(b.properties) && OrEmpty(b.properties)[k] == Coll({})
    ensures !Matches(fold, a, b)
  {
    var mine := OrEmpty(a.properties);
    if k in mine {
      assert Choices(mine[k]) * Choices(Coll({})) == {};
    }
  }

  lemma MatchesThrough(fold: Folding, a: Device, b: Device, c: Device)
    requires forall k | k in OrEmpty(b.properties) :: Transparent(OrEmpty(b.properties)[k])
    requires Matches(fold, a, b) && Matches(fold, b, c)
    ensures Matches(fold, a, c)
  {
    hide Accepts, Transparent;
    if Given(c.model) {
      ContainsTransitive(fold(a.model.value), fold(b.model.value), fold(c.model.value));
    }
    var pa, pb, pc := OrEmpty(a.properties), OrEmpty(b.properties), OrEmpty(c.properties);
    forall k | k in pc
      ensures k in pa && Accepts(pa[k], pc[k])
    {
      AcceptsThrough(pa[k], pb[k], pc[k]);
    }
  }

  // Transitivity fails with a collection in the middle, on the right and on the left.
  lemma CollectionsBreakTransitivity(fold: Folding, k: string)
    ensures var x, y, both := Scalar(Str("linux")), Scalar(Str("darwin")), Coll({Str("linux"), Str("darwin")});
            Matches(fold, Asking(k, x), Asking(k, both)) && Matches(fold, Asking(k, both), Asking(k, y)) &&
            !Matches(fold, Asking(k, x), Asking(k, y))
    ensures var seven, five, fives := Scalar(Num(7.0)), Scalar(Num(5.0)), Coll({Num(5.0)});
            Matches(fold, Asking(k, seven), Asking(k, five)) && Matches(fold, Asking(k, five), Asking(k, fives)) &&
            !Matches(fold, Asking(k, seven), Asking(k, fives))
    ensures var fives, five, four := Coll({Num(5.0)}), Scalar(Num(5.0)), Scalar(Num(4.0));
            Matches(fold, Asking(k, fives), Asking(k, five)) && Matches(fold, Asking(k, five), Asking(k, four)) &&
            !Matches(fold, Asking(k, fives), Asking(k, four))
  {
    hide Matches;
    var x, y := Str("linux"), Str("darwin");
    assert Num(5.0) in {Num(5.0)} * {Num(5.0)} && {Num(7.0)} * {Num(5.0)} == {} && {Num(5.0)} * {Num(4.0)} == {};
    assert x in {x} * {x, y} && y in {x, y} * {y} && {x} * {y} == {};
    AskingMatches(fold, k);
  }

  lemma AskingMatches(fold: Folding, k: string)
    ensures forall v: Value, w: Value :: Matches(fold, Asking(k, v), Asking(k, w)) <==> Accepts(v, w)
  {
    hide Accepts;
    forall v: Value, w: Value
      ensures Matches(fold, Asking(k, v), Asking(k, w)) <==> Accepts(v, w)
    {
      assert OrEmpty(Asking(k, v).properties)[k] == v && OrEmpty(Asking(k, w).properties)[k] == w;
    }
  }

  // ----- when the greedy answer is right

  // A test on the pool and the requirements: no device that satisfies two requirements stands in
  // front of one that satisfies only the earlier of them.
  predicate WellStocked(fold: Folding, pool: seq<Device>, reqs: seq<Device>) {
    Untangled(Acceptance(fold), pool, reqs)
  }

  // It is exact for this pool and this list: the greedy answer is right whichever of the devices
  // are present and whichever of the requirements are made.
  lemma GreedyIsExactIffWellStocked(fold: Folding, pool: seq<Device>, reqs: seq<Device>)
    ensures WellStocked(fold, pool, reqs) <==>
            forall part: seq<Device>, sub: seq<Device> | Subsequence(part, pool) && Subsequence(sub, reqs) ::
              Exact(Acceptance(fold), part, sub)
  {
    ExactIffUntangled(Acceptance(fold), pool, reqs);
  }

  // A coarser test, without regard to the order of the pool: each earlier requirement is itself
  // acceptable to every later one, or no device of the pool satisfies both.
  lemma RankedOnPoolIsExact(fold: Folding, pool: seq<Device>, reqs: seq<Device>)
    requires DrawnFrom(pool, PlainDevices()) && forall j | 0 <= j < |reqs| :: PlainProperties(reqs[j])
    requires forall i, j | 0 <= i < j < |reqs| ::
               Matches(fold, reqs[i], reqs[j]) ||
               forall a | 0 <= a < |pool| :: !(Matches(fold, pool[a], reqs[i]) && Matches(fold, pool[a], reqs[j]))
    ensures WellStocked(fold, pool, reqs)
    ensures forall part: seq<Device>, sub: seq<Device> | Subsequence(part, pool) && Subsequence(sub, reqs) ::
              Exact(Acceptance(fold), part, sub)
  {
    hide Matches, Exact, Subsequence;
    forall a, b, i, j | 0 <= a < b < |pool| && 0 <= i < j < |reqs|
      ensures !TanglesAt(Acceptance(fold), pool, reqs, a, b, i, j)
    {
      if Matches(fold, reqs[i], reqs[j]) && Matches(fold, pool[b], reqs[i]) {
        assert pool[b] in PlainDevices();
        MatchesTransitive(fold, pool[b], reqs[i], reqs[j]);
      }
    }
    GreedyIsExactIffWellStocked(fold, pool, reqs);
  }

  // Over all pools of plain devices the condition is on the requirements alone, and ranges over
  // every device there could be.
  ghost predicate WellOrdered(fold: Folding, reqs: seq<Device>) {
    forall i, j | 0 <= i < j < |reqs| :: Ranked(fold, reqs[i], reqs[j])
  }

  ghost predicate Ranked(fold: Folding, earlier: Device, later: Device) {
    Matches(fold, earlier, later) ||
    forall d: Device | PlainProperties(d) :: !(Matches(fold, d, earlier) && Matches(fold, d, later))
  }

  lemma RankedIsCompatible(fold: Folding, earlier: Device, later: Device)
    requires PlainProperties(earlier) && PlainProperties(later)
    ensures Compatible(Acceptance(fold), PlainDevices(), earlier, later) <==> Ranked(fold, earlier, later)
  {
    var accepts := Acceptance(fold);
    if Matches(fold, earlier, later) {
      forall d | d in PlainDevices() && accepts(d, earlier)
        ensures accepts(d, later)
      {
        MatchesTransitive(fold, d, earlier, later);
      }
    } else {
      MatchesReflexive(fold, earlier);
      assert earlier in PlainDevices() && accepts(earlier, earlier) && !accepts(earlier, later);
      assert forall d: Device :: d in PlainDevices() <==> PlainProperties(d);
      assert forall d: Device, r: Device :: accepts(d, r) <==> Matches(fold, d, r);
    }
  }

  // For plain requirements the greedy answer is right on all pools and all sublists exactly when
  // each earlier requirement matches every later one, or no plain device satisfies both.
  lemma GreedyIsExactIffWellOrdered(fold: Folding, reqs: seq<Device>)
    requires forall j | 0 <= j < |reqs| :: PlainProperties(reqs[j])
    ensures WellOrdered(fold, reqs) <==>
            forall pool: seq<Device>, sub: seq<Device> | DrawnFrom(pool, PlainDevices()) && Subsequence(sub, reqs) ::
              Exact(Acceptance(fold), pool, sub)
  {
    forall i, j | 0 <= i < j < |reqs|
      ensures Compatible(Acceptance(fold), PlainDevices(), reqs[i], reqs[j]) <==> Ranked(fold, reqs[i], reqs[j])
    {
      RankedIsCompatible(fold, reqs[i], reqs[j]);
    }
    ExactIffOrderly(Acceptance(fold), PlainDevices(), reqs);
  }

  // Requirements that differ only in the threshold on one numeric property are decided exactly
  // when the thresholds are listed from high to low.
  lemma DescendingThresholdsAreExact(fold: Folding, base: Device, key: string, limits: seq<real>, pool: seq<Device>)
    requires forall i, j | 0 <= i < j < |limits| :: limits[i] >= limits[j]
    requires DrawnFrom(pool, PlainDevices())
    ensures var reqs := seq(|limits|, i requires 0 <= i < |limits| =>
                          base.(properties := Some(map[key := Scalar(Num(limits[i]))])));
            Exact(Acceptance(fold), pool, reqs)
  {
    var reqs := seq(|limits|, i requires 0 <= i < |limits| =>
                  base.(properties := Some(map[key := Scalar(Num(limits[i]))])));
    forall i, j | 0 <= i < j < |reqs|
      ensures Matches(fold, reqs[i], reqs[j])
    {
      if Given(base.model) {
        assert fold(base.model.value) <= fold(base.model.value)[0..];
      }
    }
    GreedyIsExactIffWellOrdered(fold, reqs);
    SubsequenceRefl(reqs);
  }

  // Listed from low to high the greedy answer can be wrong: the bigger device goes to the smaller
  // requirement and nothing is left for the bigger one.
  lemma AscendingThresholdsFail(fold: Folding)
    ensures exists mine: Resources, req: Resources ::
      !Satisfies(fold, mine, req) &&
      Assignable(Acceptance(fold), OrNoDevices(mine.devices), OrNoDevices(req.devices)) &&
      Provides(OrEmpty(mine.properties), OrEmpty(req.properties))
  {
    var gpu := (n: real) => Device("gpu", None, None, Some(map["vram" := Scalar(Num(n))]));
    var pool, wanted := [gpu(24.0), gpu(10.0)], [gpu(8.0), gpu(20.0)];
    assert Matches(fold, pool[0], wanted[0]) && Matches(fold, pool[0], wanted[1]) && Matches(fold, pool[1], wanted[0]);
    assert !Matches(fold, pool[1], wanted[1]) by {
      assert OrEmpty(wanted[1].properties)["vram"] == Scalar(Num(20.0));
    }
    BadOrderFails(Acceptance(fold), pool[0], pool[1], wanted[0], wanted[1]);
    assert !Satisfies(fold, Resources(Some(pool), None), Resources(Some(wanted), None)) by {
      hide Matches;
    }
  }

  // Owning more and asking for less never turns a match into a mismatch.
  lemma SatisfiesMonotone(fold: Folding, mine: Resources, more: Resources, req: Resources, less: Resources)
    requires Satisfies(fold, mine, req)
    requires Subsequence(OrNoDevices(mine.devices), OrNoDevices(more.devices))
    requires Subsequence(OrNoDevices(less.devices), OrNoDevices(req.devices))
    requires forall k | k in OrEmpty(mine.properties) ::
               k in OrEmpty(more.properties) && OrEmpty(more.properties)[k] == OrEmpty(mine.properties)[k]
    requires forall k | k in OrEmpty(less.properties) ::
               k in OrEmpty(req.properties) && OrEmpty(less.properties)[k] == OrEmpty(req.properties)[k]
    ensures Satisfies(fold, more, less)
  {
    Monotone(Acceptance(fold), OrNoDevices(mine.devices), OrNoDevices(more.devices),
             OrNoDevices(less.devices), OrNoDevices(req.devices));
  }

  // A match always comes with distinct accepting devices, one for each requirement.
  lemma SatisfiesSound(fold: Folding, mine: Resources, req: Resources) returns (f: seq<nat>)
    requires Satisfies(fold, mine, req)
    ensures Assignable(Acceptance(fold), OrNoDevices(mine.devices), OrNoDevices(req.devices))
    ensures |f| == (if req.devices.Some? then |req.devices.value| else 0)
    ensures forall j, k | 0 <= j < k < |f| :: f[j] != f[k]
    ensures forall j | 0 <= j < |f| ::
              mine.devices.Some? && f[j] < |mine.devices.value| &&
              Matches(fold, mine.devices.value[f[j]], req.devices.value[j])
  {
    hide Matches;
    f := Sound(Acceptance(fold), OrNoDevices(mine.devices), OrNoDevices(req.devices));
    forall j | 0 <= j < |f|
      ensures mine.devices.Some? && f[j] < |mine.devices.value|
      ensures Matches(fold, mine.devices.value[f[j]], req.devices.value[j])
    {
      assert Acceptance(fold)(OrNoDevices(mine.devices)[f[j]], req.devices.value[j]);
    }
  }
}
