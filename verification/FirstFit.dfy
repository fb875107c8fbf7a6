/**
 First-fit assignment of demands to a pool of items, as `Resources.matches` performs it on
 devices: serve the demands in order, give each the first item still in the pool that accepts
 it, and take that item out of the pool.

 The theory is generic in the acceptance relation.  First fit is sound and monotone in both
 arguments.  On one pool and one demand list, and everything drawn from them, it is exact if and
 only if they are not "tangled", which can be read off the pool; on all pools of a universe it is
 exact if and only if the demands are "orderly".
 */
module FirstFit {

  // The position of the first item that accepts demand r; |pool| when there is none.
  function First<D, R>(accepts: (D, R) -> bool, pool: seq<D>, r: R): (i: nat)
    ensures i <= |pool|
    ensures i < |pool| ==> accepts(pool[i], r)
    ensures forall k | 0 <= k < i :: !accepts(pool[k], r)
  {
    if pool == [] || accepts(pool[0], r) then 0 else 1 + First(accepts, pool[1..], r)
  }

  // An index into Without(s, i) as an index into s, and back.
  function Skip(i: nat, k: nat): nat {
    if k < i then k else k + 1
  }

  function Unskip(i: nat, k: nat): nat
    requires k != i
  {
    if k < i then k else k - 1
  }

  function Without<T>(s: seq<T>, i: nat): (r: seq<T>)
    requires i < |s|
    ensures |r| == |s| - 1
  {
    s[..i] + s[i + 1..]
  }

  function With<T>(s: seq<T>, i: nat, x: T): (r: seq<T>)
    requires i <= |s|
    ensures |r| == |s| + 1
  {
    s[..i] + [x] + s[i..]
  }

  predicate Fits<D, R>(accepts: (D, R) -> bool, pool: seq<D>, demands: seq<R>)
    decreases |demands|
  {
    demands == [] ||
    var i := First(accepts, pool, demands[0]);
    i < |pool| && Fits(accepts, Without(pool, i), demands[1..])
  }

  // ----- the specification: an injective choice of accepting items

  ghost predicate Assigns<D, R>(accepts: (D, R) -> bool, pool: seq<D>, demands: seq<R>, f: seq<nat>) {
    && |f| == |demands|
    && (forall j | 0 <= j < |f| :: f[j] < |pool| && accepts(pool[f[j]], demands[j]))
    && (forall j, k | 0 <= j < k < |f| :: f[j] != f[k])
  }

  ghost predicate Assignable<D, R>(accepts: (D, R) -> bool, pool: seq<D>, demands: seq<R>) {
    exists f: seq<nat> :: Assigns(accepts, pool, demands, f)
  }

  // Two demands never compete badly: every item that accepts the earlier one also accepts the
  // later one, or no item accepts both.
  ghost predicate Compatible<D(!new), R>(accepts: (D, R) -> bool, universe: iset<D>, earlier: R, later: R) {
    || (forall d | d in universe :: accepts(d, earlier) ==> accepts(d, later))
    || (forall d | d in universe :: !(accepts(d, earlier) && accepts(d, later)))
  }

  ghost predicate Orderly<D(!new), R>(accepts: (D, R) -> bool, universe: iset<D>, demands: seq<R>) {
    forall i, j | 0 <= i < j < |demands| :: Compatible(accepts, universe, demands[i], demands[j])
  }

  // An item that accepts both demands stands in front of one that accepts only the earlier demand.
  predicate Tangles<D, R>(accepts: (D, R) -> bool, both: D, onlyEarlier: D, earlier: R, later: R) {
    accepts(both, earlier) && accepts(both, later) && accepts(onlyEarlier, earlier) && !accepts(onlyEarlier, later)
  }

  predicate TanglesAt<D, R>(accepts: (D, R) -> bool, pool: seq<D>, demands: seq<R>, a: nat, b: nat, i: nat, j: nat)
    requires a < b < |pool| && i < j < |demands|
  {
    Tangles(accepts, pool[a], pool[b], demands[i], demands[j])
  }

  predicate Untangled<D, R>(accepts: (D, R) -> bool, pool: seq<D>, demands: seq<R>) {
    forall a, b, i, j | 0 <= a < b < |pool| && 0 <= i < j < |demands| :: !TanglesAt(accepts, pool, demands, a, b, i, j)
  }

  ghost predicate DrawnFrom<D(!new)>(pool: seq<D>, universe: iset<D>) {
    forall k | 0 <= k < |pool| :: pool[k] in universe
  }

  // ----- soundness

  lemma WithoutAt<T>(s: seq<T>, i: nat, k: nat)
    requires i < |s| && k < |s| - 1
    ensures Without(s, i)[k] == s[Skip(i, k)]
  {
  }

  // The first demand takes item i; the others are assigned among the remaining items.
  lemma Extend<D, R>(accepts: (D, R) -> bool, pool: seq<D>, demands: seq<R>, i: nat, g: seq<nat>) returns (f: seq<nat>)
    requires demands != [] && i < |pool| && accepts(pool[i], demands[0])
    requires Assigns(accepts, Without(pool, i), demands[1..], g)
    ensures Assigns(accepts, pool, demands, f)
  {
    hide Without;
    f := [i] + seq(|g|, j requires 0 <= j < |g| => Skip(i, g[j]));
    forall j | 0 < j < |f|
      ensures f[j] < |pool| && accepts(pool[f[j]], demands[j])
    {
      WithoutAt(pool, i, g[j - 1]);
      assert demands[1..][j - 1] == demands[j];
    }
    forall j, k | 0 <= j < k < |f|
      ensures f[j] != f[k]
    {
      assert f[k] == Skip(i, g[k - 1]);
      assert j > 0 ==> g[j - 1] != g[k - 1];
    }
  }

  // The converse: what is left of an assignment whose first demand has item i.
  lemma Retract<D, R>(accepts: (D, R) -> bool, pool: seq<D>, demands: seq<R>, h: seq<nat>) returns (g: seq<nat>)
    requires Assigns(accepts, pool, demands, h) && demands != []
    ensures Assigns(accepts, Without(pool, h[0]), demands[1..], g)
  {
    var i := h[0];
    var rest := Without(pool, i);
    assert forall j | 0 < j < |h| :: h[j] != i;
    g := seq(|h| - 1, j requires 0 <= j < |h| - 1 => Unskip(i, h[j + 1]));
    forall j | 0 <= j < |g|
      ensures g[j] < |rest| && accepts(rest[g[j]], demands[1..][j])
    {
      assert g[j] == Unskip(i, h[j + 1]) && h[j + 1] < |pool|;
      assert rest[g[j]] == pool[h[j + 1]] && demands[1..][j] == demands[j + 1];
    }
    forall j, k | 0 <= j < k < |g|
      ensures g[j] != g[k]
    {
      assert h[j + 1] != h[k + 1];
    }
  }

  lemma {:induction false} Sound<D, R>(accepts: (D, R) -> bool, pool: seq<D>, demands: seq<R>) returns (f: seq<nat>)
    requires Fits(accepts, pool, demands)
    ensures Assigns(accepts, pool, demands, f)
    decreases |demands|
  {
    if demands == [] {
      f := [];
    } else {
      var i := First(accepts, pool, demands[0]);
      var g := Sound(accepts, Without(pool, i), demands[1..]);
      f := Extend(accepts, pool, demands, i, g);
    }
  }

  // ----- completeness

  // Exchange: an assignment can be rearranged so that the first demand takes the first accepting
  // item.  If a later demand had that item, the two demands swap: the item given up stands further
  // back and accepts the first demand, so it accepts the later one as well.
  lemma {:induction false} Exchange<D(!new), R(!new)>(accepts: (D, R) -> bool, pool: seq<D>, demands: seq<R>,
      f: seq<nat>)
    returns (i: nat, g: seq<nat>)
    requires Assigns(accepts, pool, demands, f) && demands != []
    requires Untangled(accepts, pool, demands)
    ensures i == First(accepts, pool, demands[0]) < |pool|
    ensures Assigns(accepts, Without(pool, i), demands[1..], g)
  {
    i := First(accepts, pool, demands[0]);
    assert accepts(pool[f[0]], demands[0]);
    var h := f;
    if k :| 0 < k < |f| && f[k] == i {
      assert accepts(pool[i], demands[0]) && accepts(pool[i], demands[k]);
      assert i < f[0] && !TanglesAt(accepts, pool, demands, i, f[0], 0, k);
      h := f[0 := i][k := f[0]];
    } else {
      h := f[0 := i];
    }
    g := Retract(accepts, pool, demands, h);
  }

  lemma {:induction false} Complete<D(!new), R(!new)>(accepts: (D, R) -> bool, pool: seq<D>, demands: seq<R>)
    requires Untangled(accepts, pool, demands)
    requires Assignable(accepts, pool, demands)
    ensures Fits(accepts, pool, demands)
    decreases |demands|
  {
    if demands != [] {
      var f: seq<nat> :| Assigns(accepts, pool, demands, f);
      var i, g := Exchange(accepts, pool, demands, f);
      var rest := Without(pool, i);
      forall a, b, j, k | 0 <= a < b < |rest| && 0 <= j < k < |demands[1..]|
        ensures !TanglesAt(accepts, rest, demands[1..], a, b, j, k)
      {
        WithoutAt(pool, i, a);
        WithoutAt(pool, i, b);
        assert !TanglesAt(accepts, pool, demands, Skip(i, a), Skip(i, b), j + 1, k + 1);
      }
      Complete(accepts, rest, demands[1..]);
    }
  }

  // ----- the exact condition

  // sub is a subsequence of s
  ghost predicate Subsequence<T>(sub: seq<T>, s: seq<T>)
    decreases |s|
  {
    sub == [] ||
    (s != [] && ((sub[0] == s[0] && Subsequence(sub[1..], s[1..])) || Subsequence(sub, s[1..])))
  }

  lemma {:induction false} SubsequenceAt<T>(sub: seq<T>, s: seq<T>, i: nat) returns (a: nat)
    requires Subsequence(sub, s) && i < |sub|
    ensures a < |s| && s[a] == sub[i]
    decreases |s|
  {
    if sub[0] == s[0] && Subsequence(sub[1..], s[1..]) {
      if i == 0 {
        return 0;
      }
      a := SubsequenceAt(sub[1..], s[1..], i - 1);
    } else {
      a := SubsequenceAt(sub, s[1..], i);
    }
    a := a + 1;
  }

  lemma {:induction false} SubsequencePair<T>(sub: seq<T>, s: seq<T>, i: nat, j: nat) returns (a: nat, b: nat)
    requires Subsequence(sub, s) && i < j < |sub|
    ensures a < b < |s| && s[a] == sub[i] && s[b] == sub[j]
    decreases |s|
  {
    if sub[0] == s[0] && Subsequence(sub[1..], s[1..]) {
      if i == 0 {
        b := SubsequenceAt(sub[1..], s[1..], j - 1);
        return 0, b + 1;
      }
      a, b := SubsequencePair(sub[1..], s[1..], i - 1, j - 1);
    } else {
      a, b := SubsequencePair(sub, s[1..], i, j);
    }
    a, b := a + 1, b + 1;
  }

  lemma {:induction false} OrderlySubsequence<D(!new), R>(accepts: (D, R) -> bool, universe: iset<D>, sub: seq<R>,
      demands: seq<R>)
    requires Subsequence(sub, demands) && Orderly(accepts, universe, demands)
    ensures Orderly(accepts, universe, sub)
  {
    hide Compatible;
    forall i, j | 0 <= i < j < |sub|
      ensures Compatible(accepts, universe, sub[i], sub[j])
    {
      var a, b := SubsequencePair(sub, demands, i, j);
      assert Compatible(accepts, universe, demands[a], demands[b]);
    }
  }

  lemma {:induction false} UntangledSubsequence<D(!new), R(!new)>(accepts: (D, R) -> bool, part: seq<D>, pool: seq<D>,
      sub: seq<R>, demands: seq<R>)
    requires Subsequence(part, pool) && Subsequence(sub, demands) && Untangled(accepts, pool, demands)
    ensures Untangled(accepts, part, sub)
  {
    hide Tangles;
    forall a, b, i, j | 0 <= a < b < |part| && 0 <= i < j < |sub|
      ensures !TanglesAt(accepts, part, sub, a, b, i, j)
    {
      var c, d := SubsequencePair(part, pool, a, b);
      var k, l := SubsequencePair(sub, demands, i, j);
      assert !TanglesAt(accepts, pool, demands, c, d, k, l);
    }
  }

  // First fit decides assignability for these two arguments.
  ghost predicate Exact<D, R>(accepts: (D, R) -> bool, pool: seq<D>, demands: seq<R>) {
    Fits(accepts, pool, demands) <==> Assignable(accepts, pool, demands)
  }

  lemma {:induction false} UntangledIsExact<D(!new), R(!new)>(accepts: (D, R) -> bool, pool: seq<D>, demands: seq<R>)
    requires Untangled(accepts, pool, demands)
    ensures Exact(accepts, pool, demands)
  {
    if Fits(accepts, pool, demands) {
      var _ := Sound(accepts, pool, demands);
    }
    if Assignable(accepts, pool, demands) {
      Complete(accepts, pool, demands);
    }
  }

  lemma OrderlyIsUntangled<D(!new), R>(accepts: (D, R) -> bool, universe: iset<D>, pool: seq<D>, demands: seq<R>)
    requires Orderly(accepts, universe, demands) && DrawnFrom(pool, universe)
    ensures Untangled(accepts, pool, demands)
  {
    forall a, b, i, j | 0 <= a < b < |pool| && 0 <= i < j < |demands|
      ensures !TanglesAt(accepts, pool, demands, a, b, i, j)
    {
      assert Compatible(accepts, universe, demands[i], demands[j]);
      assert pool[a] in universe && pool[b] in universe;
    }
  }

  // Two demands in bad order: an item accepting both is listed before one accepting only the
  // earlier demand.  First fit spends the versatile item and fails, although swapping works.
  lemma {:induction false} BadOrderFails<D, R>(accepts: (D, R) -> bool, both: D, onlyEarlier: D, earlier: R, later: R)
    requires Tangles(accepts, both, onlyEarlier, earlier, later)
    ensures !Fits(accepts, [both, onlyEarlier], [earlier, later])
    ensures Assignable(accepts, [both, onlyEarlier], [earlier, later])
  {
    var pool := [both, onlyEarlier];
    assert First(accepts, pool, earlier) == 0;
    assert Without(pool, 0) == [onlyEarlier];
    assert [earlier, later][1..] == [later];
    assert Assigns(accepts, pool, [earlier, later], [1, 0]);
  }

  lemma {:induction false} PairSubsequence<T>(s: seq<T>, i: nat, j: nat)
    requires i < j < |s|
    ensures Subsequence([s[i], s[j]], s)
    decreases i
  {
    if i > 0 {
      PairSubsequence(s[1..], i - 1, j - 1);
    } else {
      assert [s[0], s[j]][1..] == [s[j]];
      SingleSubsequence(s[1..], j - 1);
    }
  }

  lemma {:induction false} SingleSubsequence<T>(s: seq<T>, j: nat)
    requires j < |s|
    ensures Subsequence([s[j]], s)
    decreases j
  {
    if j > 0 {
      SingleSubsequence(s[1..], j - 1);
    }
  }

  lemma TangleIsWrong<D(!new), R(!new)>(accepts: (D, R) -> bool, pool: seq<D>, demands: seq<R>, a: nat, b: nat,
      i: nat, j: nat)
    requires a < b < |pool| && i < j < |demands| && TanglesAt(accepts, pool, demands, a, b, i, j)
    ensures Subsequence([pool[a], pool[b]], pool) && Subsequence([demands[i], demands[j]], demands)
    ensures !Exact(accepts, [pool[a], pool[b]], [demands[i], demands[j]])
  {
    hide Subsequence;
    BadOrderFails(accepts, pool[a], pool[b], demands[i], demands[j]);
    PairSubsequence(pool, a, b);
    PairSubsequence(demands, i, j);
  }

  // Main result on exactness for a given pool, which can be tested on the pool and the demands:
  // first fit answers correctly for every part of the pool and every part of the demands if and
  // only if no two items tangle.
  lemma {:induction false} ExactIffUntangled<D(!new), R(!new)>(accepts: (D, R) -> bool, pool: seq<D>, demands: seq<R>)
    ensures Untangled(accepts, pool, demands) <==>
            forall part: seq<D>, sub: seq<R> | Subsequence(part, pool) && Subsequence(sub, demands) ::
              Exact(accepts, part, sub)
  {
    hide Exact, TanglesAt, Subsequence;
    if Untangled(accepts, pool, demands) {
      forall part: seq<D>, sub: seq<R> | Subsequence(part, pool) && Subsequence(sub, demands)
        ensures Exact(accepts, part, sub)
      {
        UntangledSubsequence(accepts, part, pool, sub, demands);
        UntangledIsExact(accepts, part, sub);
      }
    } else {
      var a, b, i, j :| 0 <= a < b < |pool| && 0 <= i < j < |demands| && TanglesAt(accepts, pool, demands, a, b, i, j);
      TangleIsWrong(accepts, pool, demands, a, b, i, j);
    }
  }

  // Main result on exactness for all pools.  First fit answers correctly on every pool drawn from the
  // universe, for the demands and all their subsequences, if and only if the demands are orderly.
  lemma {:induction false} ExactIffOrderly<D(!new), R(!new)>(accepts: (D, R) -> bool, universe: iset<D>,
      demands: seq<R>)
    ensures Orderly(accepts, universe, demands) <==>
            forall pool: seq<D>, sub: seq<R> | DrawnFrom(pool, universe) && Subsequence(sub, demands) ::
              Exact(accepts, pool, sub)
  {
    if Orderly(accepts, universe, demands) {
      forall pool: seq<D>, sub: seq<R> | DrawnFrom(pool, universe) && Subsequence(sub, demands)
        ensures Exact(accepts, pool, sub)
      {
        OrderlySubsequence(accepts, universe, sub, demands);
        OrderlyIsUntangled(accepts, universe, pool, sub);
        UntangledIsExact(accepts, pool, sub);
      }
    } else {
      var i, j :| 0 <= i < j < |demands| && !Compatible(accepts, universe, demands[i], demands[j]);
      var onlyEarlier :| onlyEarlier in universe && accepts(onlyEarlier, demands[i]) && !accepts(onlyEarlier, demands[j]);
      var both :| both in universe && accepts(both, demands[i]) && accepts(both, demands[j]);
      BadOrderFails(accepts, both, onlyEarlier, demands[i], demands[j]);
      PairSubsequence(demands, i, j);
      assert DrawnFrom([both, onlyEarlier], universe);
      assert !Exact(accepts, [both, onlyEarlier], [demands[i], demands[j]]);
    }
  }

  // ----- monotonicity

  lemma WithHead<T>(s: seq<T>, p: nat, x: T)
    requires p <= |s|
    ensures With(s, p, x)[0] == if p == 0 then x else s[0]
    ensures With(s, p, x)[1..] == if p == 0 then s else With(s[1..], p - 1, x)
  {
  }

  lemma {:induction false} FirstWithBefore<D, R>(accepts: (D, R) -> bool, pool: seq<D>, p: nat, d: D, r: R)
    requires First(accepts, pool, r) < p <= |pool|
    ensures First(accepts, With(pool, p, d), r) == First(accepts, pool, r)
  {
    hide With;
    WithHead(pool, p, d);
    if !accepts(pool[0], r) {
      FirstWithBefore(accepts, pool[1..], p - 1, d, r);
    }
  }

  lemma {:induction false} FirstWithAfter<D, R>(accepts: (D, R) -> bool, pool: seq<D>, p: nat, d: D, r: R)
    requires p <= First(accepts, pool, r) < |pool|
    ensures First(accepts, With(pool, p, d), r) == if accepts(d, r) then p else First(accepts, pool, r) + 1
    decreases p
  {
    hide With;
    WithHead(pool, p, d);
    if p > 0 {
      FirstWithAfter(accepts, pool[1..], p - 1, d, r);
    }
  }

  lemma RemoveBefore<T>(s: seq<T>, i: nat, p: nat, x: T)
    requires i < p <= |s|
    ensures Without(With(s, p, x), i) == With(Without(s, i), p - 1, x)
  {
    assert With(s, p, x)[..i] == s[..i];
    assert With(s, p, x)[i + 1..] == s[i + 1..p] + [x] + s[p..];
    assert Without(s, i)[..p - 1] == s[..i] + s[i + 1..p];
    assert Without(s, i)[p - 1..] == s[p..];
  }

  lemma RemoveAfter<T>(s: seq<T>, i: nat, p: nat, x: T)
    requires p <= i < |s|
    ensures Without(With(s, p, x), i + 1) == With(Without(s, i), p, x)
  {
    assert With(s, p, x)[..i + 1] == s[..p] + [x] + s[p..i];
    assert With(s, p, x)[i + 2..] == s[i + 1..];
    assert Without(s, i)[..p] == s[..p];
    assert Without(s, i)[p..] == s[p..i] + s[i + 1..];
  }

  lemma RemoveInserted<T>(s: seq<T>, p: nat, x: T)
    requires p <= |s|
    ensures Without(With(s, p, x), p) == s
  {
  }

  lemma InsertRemoved<T>(s: seq<T>, i: nat)
    requires i < |s|
    ensures With(Without(s, i), i, s[i]) == s
  {
  }

  // One step of two runs side by side, the second with item d inserted at p: what the second run
  // has left is what the first has left plus one item, not always the same one.
  lemma ExtraItemStep<D, R>(accepts: (D, R) -> bool, pool: seq<D>, p: nat, d: D, r: R) returns (q: nat, e: D)
    requires p <= |pool| && First(accepts, pool, r) < |pool|
    ensures First(accepts, With(pool, p, d), r) <= |pool|
    ensures q <= |pool| - 1
    ensures Without(With(pool, p, d), First(accepts, With(pool, p, d), r)) ==
            With(Without(pool, First(accepts, pool, r)), q, e)
  {
    hide With, Without;
    var i := First(accepts, pool, r);
    if i < p {
      q, e := p - 1, d;
      FirstWithBefore(accepts, pool, p, d, r);
      RemoveBefore(pool, i, p, d);
    } else if accepts(d, r) {
      q, e := i, pool[i];
      FirstWithAfter(accepts, pool, p, d, r);
      RemoveInserted(pool, p, d);
      InsertRemoved(pool, i);
    } else {
      q, e := p, d;
      FirstWithAfter(accepts, pool, p, d, r);
      RemoveAfter(pool, i, p, d);
    }
  }

  // Run side by side, the larger run's pool always equals the smaller run's pool plus one item,
  // though which item that is may change from step to step.
  lemma {:induction false} ExtraItem<D, R>(accepts: (D, R) -> bool, pool: seq<D>, p: nat, d: D, demands: seq<R>)
    requires p <= |pool| && Fits(accepts, pool, demands)
    ensures Fits(accepts, With(pool, p, d), demands)
    decreases |demands|
  {
    if demands != [] {
      var q, e := ExtraItemStep(accepts, pool, p, d, demands[0]);
      ExtraItem(accepts, Without(pool, First(accepts, pool, demands[0])), q, e, demands[1..]);
    }
  }

  // One insertion step on the way from a subsequence to the full sequence.
  lemma {:induction false} StepToward<T>(small: seq<T>, big: seq<T>) returns (p: nat, x: T)
    requires Subsequence(small, big) && |small| < |big|
    ensures p <= |small| && Subsequence(With(small, p, x), big)
    decreases |big|
  {
    if small != [] && small[0] == big[0] && Subsequence(small[1..], big[1..]) {
      var q, y := StepToward(small[1..], big[1..]);
      p, x := q + 1, y;
      assert With(small, p, x)[1..] == With(small[1..], q, y);
    } else {
      p, x := 0, big[0];
      assert With(small, 0, x)[1..] == small;
      assert small == [] || Subsequence(small, big[1..]);
    }
  }

  lemma {:induction false} SubsequenceLength<T>(small: seq<T>, big: seq<T>)
    requires Subsequence(small, big)
    ensures |small| <= |big| && (|small| == |big| ==> small == big)
    decreases |big|
  {
    if small != [] {
      if small[0] == big[0] && Subsequence(small[1..], big[1..]) {
        SubsequenceLength(small[1..], big[1..]);
        assert small == [small[0]] + small[1..] && big == [big[0]] + big[1..];
      } else {
        SubsequenceLength(small, big[1..]);
      }
    }
  }

  lemma {:induction false} MoreItems<D, R>(accepts: (D, R) -> bool, small: seq<D>, big: seq<D>, demands: seq<R>)
    requires Subsequence(small, big) && Fits(accepts, small, demands)
    ensures Fits(accepts, big, demands)
    decreases |big| - |small|
  {
    SubsequenceLength(small, big);
    if |small| < |big| {
      var p, x := StepToward(small, big);
      ExtraItem(accepts, small, p, x, demands);
      MoreItems(accepts, With(small, p, x), big, demands);
    }
  }

  // Main result on monotonicity: items may be inserted anywhere and demands dropped anywhere.
  lemma {:induction false} Monotone<D, R>(accepts: (D, R) -> bool, small: seq<D>, big: seq<D>, fewer: seq<R>,
      demands: seq<R>)
    requires Subsequence(small, big) && Subsequence(fewer, demands)
    requires Fits(accepts, small, demands)
    ensures Fits(accepts, big, fewer)
    decreases |demands|
  {
    if fewer != [] {
      var i := First(accepts, small, demands[0]);
      if fewer[0] == demands[0] && Subsequence(fewer[1..], demands[1..]) {
        SubsequenceRefl(Without(small, i));
        Monotone(accepts, Without(small, i), Without(small, i), fewer[1..], demands[1..]);
        MoreItems(accepts, small, big, fewer);
      } else {
        WithoutIsSubsequence(small, i);
        Monotone(accepts, Without(small, i), small, fewer, demands[1..]);
        MoreItems(accepts, small, big, fewer);
      }
    }
  }

  lemma {:induction false} SubsequenceRefl<T>(s: seq<T>)
    ensures Subsequence(s, s)
  {
    if s != [] {
      SubsequenceRefl(s[1..]);
    }
  }

  lemma {:induction false} WithoutIsSubsequence<T>(s: seq<T>, i: nat)
    requires i < |s|
    ensures Subsequence(Without(s, i), s)
    decreases i
  {
    if i == 0 {
      SubsequenceRefl(s[1..]);
      assert Without(s, 0) == s[1..];
    } else {
      WithoutIsSubsequence(s[1..], i - 1);
      assert Without(s, i)[1..] == Without(s[1..], i - 1);
    }
  }
}
