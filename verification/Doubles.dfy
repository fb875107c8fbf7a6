/**
 The integers that a double holds exactly, and the double an integer is converted to: the nearest
 one, and of two equally near ones the one with the even significand.  Numbers beyond the largest
 double do not occur.
 */
module Doubles {

  const SIGNIFICAND_LIMIT := 0x20_0000_0000_0000

  // At most 53 significant bits.
  predicate Exact(n: nat) {
    n < SIGNIFICAND_LIMIT || (n % 2 == 0 && Exact(n / 2))
  }

  // The significand of the largest double up to n, and the distance from there to the next.
  function Significand(n: nat): (q: nat)
    ensures q < SIGNIFICAND_LIMIT
  {
    if n < SIGNIFICAND_LIMIT then n else Significand(n / 2)
  }

  function Spacing(n: nat): (u: nat)
    ensures u > 0
  {
    if n < SIGNIFICAND_LIMIT then 1 else 2 * Spacing(n / 2)
  }

  function Below(n: nat): nat {
    Significand(n) * Spacing(n)
  }

  function RoundNat(n: nat): nat {
    var u, twice := Spacing(n), 2 * (n - Below(n));
    if twice < u || (twice == u && Significand(n) % 2 == 0) then Below(n) else Below(n) + u
  }

  function Round(i: int): int {
    if i < 0 then 0 - RoundNat(0 - i) else RoundNat(i)
  }

  predicate IsDouble(i: int) {
    Exact(if i < 0 then 0 - i else i)
  }

  // ----- the conversion

  lemma BelowHalf(n: nat)
    requires n >= SIGNIFICAND_LIMIT
    ensures Below(n) == 2 * Below(n / 2)
  {
    var q, u := Significand(n / 2), Spacing(n / 2);
    assert q * (2 * u) == 2 * (q * u);
  }

  lemma {:induction false} BelowBounds(n: nat)
    ensures Below(n) <= n < Below(n) + Spacing(n)
    ensures n >= SIGNIFICAND_LIMIT ==> Below(n) >= SIGNIFICAND_LIMIT
    ensures Exact(n) <==> n == Below(n)
  {
    if n >= SIGNIFICAND_LIMIT {
      hide Below;
      BelowHalf(n);
      BelowBounds(n / 2);
      if n / 2 < SIGNIFICAND_LIMIT {
        assert n / 2 == Below(n / 2) by {
          BelowSmall(n / 2);
        }
      }
    } else {
      BelowSmall(n);
    }
  }

  lemma BelowSmall(n: nat)
    requires n < SIGNIFICAND_LIMIT
    ensures Below(n) == n
  {
    assert Significand(n) * Spacing(n) == n * 1;
  }

  // Both neighbours are doubles.
  lemma {:induction false} NeighboursAreExact(n: nat)
    ensures Exact(Below(n)) && Exact(Below(n) + Spacing(n))
  {
    if n >= SIGNIFICAND_LIMIT {
      hide Below;
      BelowHalf(n);
      NeighboursAreExact(n / 2);
    } else {
      BelowSmall(n);
    }
  }

  // There is no double strictly between them.
  lemma {:induction false} NothingBetween(n: nat, d: nat)
    requires Exact(d)
    ensures d <= Below(n) || Below(n) + Spacing(n) <= d
  {
    if n >= SIGNIFICAND_LIMIT {
      hide Below;
      BelowBounds(n);
      if d >= SIGNIFICAND_LIMIT {
        BelowHalf(n);
        NothingBetween(n / 2, d / 2);
      }
    } else {
      BelowSmall(n);
    }
  }

  function Distance(a: int, b: int): nat {
    if a < b then b - a else a - b
  }

  lemma RoundNatNearest(n: nat, d: nat)
    requires Exact(d)
    ensures Exact(RoundNat(n)) && (RoundNat(n) == n <==> Exact(n))
    ensures Distance(RoundNat(n), n) <= Distance(d, n)
    ensures Distance(RoundNat(n), n) == Distance(d, n) && d != RoundNat(n) ==>
              (RoundNat(n) == Below(n) <==> Significand(n) % 2 == 0)
  {
    hide Below, Spacing, Significand, Exact;
    BelowBounds(n);
    NeighboursAreExact(n);
    NothingBetween(n, d);
  }

  // Conversion gives a double, none is nearer, and exactly the doubles are kept.
  lemma RoundIsNearest(i: int, d: int)
    requires IsDouble(d)
    ensures IsDouble(Round(i)) && (Round(i) == i <==> IsDouble(i))
    ensures Distance(Round(i), i) <= Distance(d, i)
    ensures -9007199254740992 <= i <= 9007199254740992 ==> Round(i) == i
  {
    assert Exact(9007199254740992);
    hide RoundNat;
    var n := if i < 0 then 0 - i else i;
    RoundNatNearest(n, if (d < 0) == (i < 0) then Distance(d, 0) else 0);
  }

  lemma RoundKeeps(i: int)
    ensures IsDouble(Round(i)) && (Round(i) == i <==> IsDouble(i))
  {
    RoundIsNearest(i, 0);
  }
}
