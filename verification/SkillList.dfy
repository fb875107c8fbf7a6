/**
 The skill lists a worker sends with a poll request: the client joins them with commas, the
 server splits at commas, strips white space and drops empty pieces.  What counts as white space
 is a parameter.
 */
module SkillList {

  type Spaces = char -> bool

  function Join(skills: seq<string>): string {
    if skills == [] then ""
    else if |skills| == 1 then skills[0]
    else skills[0] + "," + Join(skills[1..])
  }

  // str.split: always at least one piece.
  function Split(s: string): (pieces: seq<string>)
    ensures pieces != []
  {
    if s == "" then [""]
    else
      var rest := Split(s[1..]);
      if s[0] == ',' then [""] + rest else [[s[0]] + rest[0]] + rest[1..]
  }

  function LStrip(space: Spaces, s: string): string {
    if s != "" && space(s[0]) then LStrip(space, s[1..]) else s
  }

  function RStrip(space: Spaces, s: string): string {
    if s != "" && space(s[|s| - 1]) then RStrip(space, s[..|s| - 1]) else s
  }

  function Strip(space: Spaces, s: string): string {
    RStrip(space, LStrip(space, s))
  }

  function Clean(space: Spaces, pieces: seq<string>): seq<string> {
    if pieces == [] then []
    else (if Strip(space, pieces[0]) == "" then [] else [Strip(space, pieces[0])]) + Clean(space, pieces[1..])
  }

  // The server's reading of one query parameter.
  function Decode(space: Spaces, query: string): seq<string> {
    Clean(space, Split(query))
  }

  // ----- what splitting, stripping and cleaning give

  // Joining the pieces again gives the text, and no piece holds a comma.
  lemma {:induction false} SplitMeaning(s: string)
    ensures Split(s) != [] && Join(Split(s)) == s && forall p | p in Split(s) :: ',' !in p
  {
    if s == "" {
      assert Join([""]) == "";
    } else {
      SplitMeaning(s[1..]);
      var rest := Split(s[1..]);
      assert rest[0] in rest;
      assert s == [s[0]] + s[1..];
      if s[0] == ',' {
        assert ([""] + rest)[1..] == rest;
      } else {
        var pieces := [[s[0]] + rest[0]] + rest[1..];
        assert pieces[1..] == rest[1..];
      }
    }
  }

  // White space is taken from both ends, and no more than that.
  lemma StripMeaning(space: Spaces, s: string) returns (k: nat, m: nat)
    ensures k <= m <= |s| && Strip(space, s) == s[k..m]
    ensures forall i | 0 <= i < |s| && !(k <= i < m) :: space(s[i])
    ensures k < m ==> !space(s[k]) && !space(s[m - 1])
  {
    k := LStripMeaning(space, s);
    m := RStripMeaning(space, s[k..]);
    assert forall i | k + m <= i < |s| :: s[i] == s[k..][i - k];
    m := k + m;
    if k < m {
      assert s[k..][0] == s[k] && s[k..][m - k - 1] == s[m - 1];
    }
  }

  lemma {:induction false} LStripMeaning(space: Spaces, s: string) returns (k: nat)
    ensures k <= |s| && LStrip(space, s) == s[k..]
    ensures forall i | 0 <= i < k :: space(s[i])
    ensures k < |s| ==> !space(s[k])
  {
    k := 0;
    if s != "" && space(s[0]) {
      var j := LStripMeaning(space, s[1..]);
      assert forall i | 1 <= i < j + 1 :: s[i] == s[1..][i - 1];
      k := j + 1;
    }
  }

  lemma {:induction false} RStripMeaning(space: Spaces, s: string) returns (m: nat)
    ensures m <= |s| && RStrip(space, s) == s[..m]
    ensures forall i | m <= i < |s| :: space(s[i])
    ensures m > 0 ==> !space(s[m - 1])
  {
    m := |s|;
    if s != "" && space(s[|s| - 1]) {
      m := RStripMeaning(space, s[..|s| - 1]);
      assert s[..|s| - 1][..m] == s[..m];
    }
  }

  // A piece is dropped exactly when it is all white space, and otherwise read without its ends.
  lemma PieceMeaning(space: Spaces, piece: string)
    requires ',' !in piece
    ensures Decode(space, piece) == [] <==> forall c | c in piece :: space(c)
    ensures Decode(space, piece) == [] || Decode(space, piece) == [Strip(space, piece)]
  {
    SplitWhole(piece);
    assert [piece][1..] == [];
    assert Clean(space, []) == [];
    var k, m := StripMeaning(space, piece);
    if k < m {
      assert piece[k] in piece;
    }
  }

  // ----- decoding works skill by skill

  lemma {:induction false} SplitConcat(a: string, b: string)
    ensures Split(a + "," + b) == Split(a) + Split(b)
  {
    var s := a + "," + b;
    if a == "" {
      assert s[1..] == b;
    } else {
      assert s[1..] == a[1..] + "," + b;
      SplitConcat(a[1..], b);
    }
  }

  lemma {:induction false} CleanConcat(space: Spaces, p: seq<string>, q: seq<string>)
    ensures Clean(space, p + q) == Clean(space, p) + Clean(space, q)
  {
    if p == [] {
      assert p + q == q;
    } else {
      assert (p + q)[1..] == p[1..] + q;
      CleanConcat(space, p[1..], q);
    }
  }

  // A comma separates what is read before it from what is read after it.
  lemma DecodeConcat(space: Spaces, a: string, b: string)
    ensures Decode(space, a + "," + b) == Decode(space, a) + Decode(space, b)
  {
    SplitConcat(a, b);
    CleanConcat(space, Split(a), Split(b));
  }

  function DecodeEach(space: Spaces, skills: seq<string>): seq<string> {
    if skills == [] then [] else Decode(space, skills[0]) + DecodeEach(space, skills[1..])
  }

  // For arbitrary skills the server sees the stripped non-empty comma pieces of all of them, in order.
  lemma {:induction false} DecodeJoin(space: Spaces, skills: seq<string>)
    ensures Decode(space, Join(skills)) == DecodeEach(space, skills)
  {
    if skills == [] {
      assert Split("") == [""] && Strip(space, "") == "";
      assert [""][1..] == [];
    } else if |skills| == 1 {
      assert DecodeEach(space, skills[1..]) == [];
    } else {
      DecodeConcat(space, skills[0], Join(skills[1..]));
      DecodeJoin(space, skills[1..]);
    }
  }

  // ----- the round trip, and exactly when it holds

  ghost predicate Tidy(space: Spaces, skill: string) {
    skill != "" && ',' !in skill && Strip(space, skill) == skill
  }

  lemma {:induction false} SplitWhole(s: string)
    requires ',' !in s
    ensures Split(s) == [s]
  {
    if s != "" {
      SplitWhole(s[1..]);
      assert s == [s[0]] + s[1..];
    }
  }

  lemma {:induction false} SplitHasNoComma(s: string)
    ensures forall p | p in Split(s) :: ',' !in p
  {
    if s != "" {
      SplitHasNoComma(s[1..]);
      assert Split(s[1..])[0] in Split(s[1..]);
    }
  }

  lemma {:induction false} LStripFixed(space: Spaces, s: string)
    ensures var r := LStrip(space, s); |r| <= |s| && (r == "" || !space(r[0])) && forall c | c in r :: c in s
  {
    if s != "" && space(s[0]) {
      LStripFixed(space, s[1..]);
    }
  }

  lemma {:induction false} RStripFixed(space: Spaces, s: string)
    ensures var r := RStrip(space, s); r <= s && (r == "" || !space(r[|r| - 1]))
  {
    if s != "" && space(s[|s| - 1]) {
      RStripFixed(space, s[..|s| - 1]);
    }
  }

  lemma StripFixed(space: Spaces, s: string)
    ensures Strip(space, Strip(space, s)) == Strip(space, s)
    ensures forall c | c in Strip(space, s) :: c in s
  {
    LStripFixed(space, s);
    RStripFixed(space, LStrip(space, s));
  }

  lemma {:induction false} CleanIsTidy(space: Spaces, pieces: seq<string>)
    requires forall p | p in pieces :: ',' !in p
    ensures forall p | p in Clean(space, pieces) :: Tidy(space, p)
  {
    if pieces != [] {
      StripFixed(space, pieces[0]);
      CleanIsTidy(space, pieces[1..]);
    }
  }

  lemma {:induction false} TidyEach(space: Spaces, skills: seq<string>)
    requires forall s | s in skills :: Tidy(space, s)
    ensures DecodeEach(space, skills) == skills
  {
    if skills != [] {
      assert Tidy(space, skills[0]);
      SplitWhole(skills[0]);
      assert Clean(space, [skills[0]]) == [skills[0]] + Clean(space, [skills[0]][1..]);
      TidyEach(space, skills[1..]);
    }
  }

  lemma TidyMeaning(space: Spaces, s: string)
    ensures Tidy(space, s) <==> s != "" && ',' !in s && !space(s[0]) && !space(s[|s| - 1])
  {
    var k, m := StripMeaning(space, s);
  }

  // Main result: the server reads back exactly the client's list if and only if every skill is
  // non-empty, free of commas, and without white space at its ends.  The empty list is included.
  lemma RoundTrip(space: Spaces, skills: seq<string>)
    ensures Decode(space, Join(skills)) == skills <==>
            forall s | s in skills :: s != "" && ',' !in s && !space(s[0]) && !space(s[|s| - 1])
  {
    hide Tidy, Split, Clean, Strip, Join;
    forall s | s in skills
      ensures Tidy(space, s) <==> s != "" && ',' !in s && !space(s[0]) && !space(s[|s| - 1])
    {
      TidyMeaning(space, s);
    }
    if forall s | s in skills :: Tidy(space, s) {
      DecodeJoin(space, skills);
      TidyEach(space, skills);
    } else {
      SplitHasNoComma(Join(skills));
      CleanIsTidy(space, Split(Join(skills)));
    }
  }
}
