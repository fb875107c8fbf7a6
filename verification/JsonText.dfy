/**
 The compact JSON text that orjson writes (the grammar of RFC 8259, sections 4 to 7, without
 insignificant whitespace), a reader for it, and the proof that reading undoes writing.

 A number is written in positional notation; orjson switches to an exponent for very large and
 very small floats, which changes the spelling of a number but not which numbers share one.
 */
module JsonText {
  import opened Json

  datatype Parsed<+T> = Fail | Got(value: T, rest: string) {
    predicate IsFailure() { Fail? }
    function PropagateFailure<U>(): Parsed<U>
      requires Fail?
    {
      Fail
    }
    function Extract(): (T, string)
      requires Got?
    {
      (value, rest)
    }
  }

  // ----- numbers

  function DigitChar(n: nat): (c: char)
    requires n < 10
    ensures IsDigit(c) && DigitValue(c) == n
  {
    '0' + n as char
  }

  function DigitValue(c: char): nat
    requires IsDigit(c)
  {
    c as nat - '0' as nat
  }

  ghost predicate AllDigits(s: string) {
    forall i | 0 <= i < |s| :: IsDigit(s[i])
  }

  function PrintNat(n: nat): (s: string)
    ensures AllDigits(s) && s != ""
  {
    if n < 10 then [DigitChar(n)] else PrintNat(n / 10) + [DigitChar(n % 10)]
  }

  function ReadNat(s: string): nat
    requires AllDigits(s)
  {
    if s == "" then 0 else 10 * ReadNat(s[..|s| - 1]) + DigitValue(s[|s| - 1])
  }

  lemma {:induction false} NatRoundTrip(n: nat)
    ensures ReadNat(PrintNat(n)) == n
  {
    if n >= 10 {
      NatRoundTrip(n / 10);
      assert PrintNat(n)[..|PrintNat(n)| - 1] == PrintNat(n / 10);
    } else {
      assert PrintNat(n)[..0] == "";
    }
  }

  function FracText(f: Float): string {
    if f.frac == "" then "0" else f.frac
  }

  // The digits at the front of s, and what follows them.
  function ReadDigits(s: string): (r: (string, string))
    ensures AllDigits(r.0) && s == r.0 + r.1
    ensures r.1 == "" || !IsDigit(r.1[0])
  {
    if s == "" || !IsDigit(s[0]) then ("", s)
    else
      var r := ReadDigits(s[1..]);
      ([s[0]] + r.0, r.1)
  }

  lemma {:induction false} DigitsRoundTrip(d: string, t: string)
    requires AllDigits(d) && (t == "" || !IsDigit(t[0]))
    ensures ReadDigits(d + t) == (d, t)
    decreases d
  {
    if d == "" {
      assert d + t == t;
    } else {
      assert (d + t)[1..] == d[1..] + t;
      DigitsRoundTrip(d[1..], t);
      assert d == [d[0]] + d[1..];
    }
  }

  // Trailing zeros of a fraction carry no meaning.
  function Trim(s: string): (r: string)
    requires AllDigits(s)
    ensures AllDigits(r) && (r != "" ==> r[|r| - 1] != '0')
  {
    if s != "" && s[|s| - 1] == '0' then Trim(s[..|s| - 1]) else s
  }

  function FloatOf(neg: bool, whole: nat, frac: string): Float
    requires AllDigits(frac)
  {
    var f := Trim(frac);
    Decimal(neg && (whole > 0 || f != ""), whole, f)
  }

  function ReadUnsigned(neg: bool, s: string): (r: Parsed<Json>)
    ensures r.Got? ==> |r.rest| < |s|
  {
    var (whole, rest) := ReadDigits(s);
    if whole == "" then Fail
    else if rest != "" && rest[0] == '.' then ReadFraction(neg, ReadNat(whole), rest)
    else Got(Int(if neg then 0 - ReadNat(whole) else ReadNat(whole)), rest)
  }

  function ReadFraction(neg: bool, whole: nat, s: string): (r: Parsed<Json>)
    requires s != ""
    ensures r.Got? ==> |r.rest| < |s|
  {
    var (frac, rest) := ReadDigits(s[1..]);
    if frac == "" then Fail else Got(Real(FloatOf(neg, whole, frac)), rest)
  }

  function ReadNumber(s: string): (r: Parsed<Json>)
    ensures r.Got? ==> |r.rest| < |s|
  {
    if s != "" && s[0] == '-' then ReadUnsigned(true, s[1..]) else ReadUnsigned(false, s)
  }

  // What may follow a value inside a text.
  predicate Delimited(t: string) {
    t == "" || t[0] in {',', ']', '}'}
  }

  lemma Rest(c: char, t: string)
    ensures ([c] + t)[0] == c && ([c] + t)[1..] == t
  {
  }

  lemma UnsignedRoundTrip(neg: bool, n: nat, t: string)
    requires t == "" || !IsDigit(t[0])
    ensures ReadUnsigned(neg, PrintNat(n) + t) ==
            if t != "" && t[0] == '.' then ReadFraction(neg, n, t) else Got(Int(if neg then 0 - n else n), t)
  {
    hide ReadFraction, ReadDigits, ReadNat, PrintNat;
    NatRoundTrip(n);
    DigitsRoundTrip(PrintNat(n), t);
  }

  lemma FractionRoundTrip(f: Float, t: string)
    requires Delimited(t)
    ensures ReadFraction(f.neg, f.whole, "." + (FracText(f) + t)) == Got(Real(f), t)
  {
    hide ReadDigits;
    Rest('.', FracText(f) + t);
    DigitsRoundTrip(FracText(f), t);
    assert "0"[..0] == "";
    assert Trim(FracText(f)) == f.frac;
  }

  lemma SignRoundTrip(neg: bool, s: string)
    requires s != "" && IsDigit(s[0])
    ensures ReadNumber(if neg then "-" + s else s) == ReadUnsigned(neg, s)
  {
    hide ReadUnsigned;
    Rest('-', s);
  }

  lemma NumberRoundTrip(v: Json, t: string)
    requires v.Int? || v.Real?
    requires Delimited(t)
    ensures ReadNumber(Print(v, t)) == Got(v, t)
  {
    hide ReadNumber, ReadUnsigned, ReadFraction, PrintNat;
    match v
    case Int(i) =>
      var n: nat := if i < 0 then 0 - i else i;
      SignRoundTrip(i < 0, PrintNat(n) + t);
      UnsignedRoundTrip(i < 0, n, t);
    case Real(f) =>
      var tail := "." + (FracText(f) + t);
      SignRoundTrip(f.neg, PrintNat(f.whole) + tail);
      UnsignedRoundTrip(f.neg, f.whole, tail);
      FractionRoundTrip(f, t);
  }

  // ----- strings

  function HexChar(n: nat): (c: char)
    requires n < 16
    ensures HexValue(c) == n
  {
    if n < 10 then '0' + n as char else 'a' + (n - 10) as char
  }

  // The value of a hexadecimal digit; 16 when c is none.
  function HexValue(c: char): (n: nat)
    ensures n <= 16
  {
    if '0' <= c <= '9' then c as nat - '0' as nat
    else if 'a' <= c <= 'f' then c as nat - 'a' as nat + 10
    else if 'A' <= c <= 'F' then c as nat - 'A' as nat + 10
    else 16
  }

  function PrintChar(c: char): (s: string)
    ensures s != ""
  {
    if c == '\"' then "\\\""
    else if c == '\\' then "\\\\"
    else if c == '\U{0008}' then "\\b"
    else if c == '\U{000C}' then "\\f"
    else if c == '\n' then "\\n"
    else if c == '\r' then "\\r"
    else if c == '\t' then "\\t"
    else if c < ' ' then "\\u00" + [HexChar(c as nat / 16), HexChar(c as nat % 16)]
    else [c]
  }

  function ReadChar(s: string): (r: Parsed<char>)
    ensures r.Got? ==> |r.rest| < |s|
  {
    if s == "" || s[0] == '\"' || s[0] < ' ' then Fail
    else if s[0] != '\\' then Got(s[0], s[1..])
    else if |s| < 2 then Fail
    else match s[1]
      case '\"' => Got('\"', s[2..])
      case '\\' => Got('\\', s[2..])
      case '/' => Got('/', s[2..])
      case 'b' => Got('\U{0008}', s[2..])
      case 'f' => Got('\U{000C}', s[2..])
      case 'n' => Got('\n', s[2..])
      case 'r' => Got('\r', s[2..])
      case 't' => Got('\t', s[2..])
      case 'u' => ReadHex(s)
      case _ => Fail
  }

  // A \u escape outside the surrogate range.
  function ReadHex(s: string): (r: Parsed<char>)
    ensures r.Got? ==> |r.rest| < |s|
  {
    if |s| < 6 then Fail
    else
      var a, b, c, d := HexValue(s[2]), HexValue(s[3]), HexValue(s[4]), HexValue(s[5]);
      if a == 16 || b == 16 || c == 16 || d == 16 then Fail
      else
        var n := ((a * 16 + b) * 16 + c) * 16 + d;
        if 0xD800 <= n < 0xE000 then Fail else Got(n as char, s[6..])
  }

  lemma CharRoundTrip(c: char, t: string)
    ensures ReadChar(PrintChar(c) + t) == Got(c, t)
    ensures PrintChar(c)[0] != '\"'
  {
    var p := PrintChar(c);
    assert (p + t)[|p|..] == t;
    if c < ' ' && |p| == 6 {
      var hi, lo := HexChar(c as nat / 16), HexChar(c as nat % 16);
      assert p == ['\\', 'u', '0', '0', hi, lo];
      assert (p + t)[1] == 'u' && (p + t)[2] == '0' && (p + t)[3] == '0' && (p + t)[4] == hi && (p + t)[5] == lo;
    }
  }

  // The rest of a string, its closing quotation mark, and t.
  function PrintChars(s: string, t: string): string {
    if s == "" then "\"" + t else PrintChar(s[0]) + PrintChars(s[1..], t)
  }

  // A string after its opening quotation mark.
  function ReadChars(s: string): (r: Parsed<string>)
    ensures r.Got? ==> |r.rest| < |s|
    decreases |s|
  {
    if s != "" && s[0] == '\"' then Got("", s[1..])
    else
      var (c, rest) :- ReadChar(s);
      var (cs, rest') :- ReadChars(rest);
      Got([c] + cs, rest')
  }

  lemma {:induction false} CharsRoundTrip(s: string, t: string)
    ensures ReadChars(PrintChars(s, t)) == Got(s, t)
    decreases s
  {
    hide PrintChar, ReadChar;
    if s == "" {
      Rest('\"', t);
    } else {
      CharRoundTrip(s[0], PrintChars(s[1..], t));
      CharsRoundTrip(s[1..], t);
      assert s == [s[0]] + s[1..];
    }
  }

  // ----- values

  // The text of v followed by t.
  function Print(v: Json, t: string): string
    decreases v, 1
  {
    match v
    case Null => "null" + t
    case Bool(b) => (if b then "true" else "false") + t
    case Int(i) => if i < 0 then "-" + (PrintNat(0 - i) + t) else PrintNat(i) + t
    case Real(f) =>
      var unsigned := PrintNat(f.whole) + ("." + (FracText(f) + t));
      if f.neg then "-" + unsigned else unsigned
    case Str(s) => "\"" + PrintChars(s, t)
    case Arr(items) => "[" + if items == [] then "]" + t else PrintItems(items, t)
    case Obj(fields) => "{" + if fields == [] then "}" + t else PrintFields(fields, t)
  }

  // The items of a nonempty array, the closing bracket, and t.
  function PrintItems(items: seq<Json>, t: string): string
    requires items != []
    decreases items, 0
  {
    Print(items[0], if |items| == 1 then "]" + t else "," + PrintItems(items[1..], t))
  }

  function PrintFields(fields: seq<Field>, t: string): string
    requires fields != []
    decreases fields, 0
  {
    "\"" + PrintChars(fields[0].key, ":" +
      Print(fields[0].value, if |fields| == 1 then "}" + t else "," + PrintFields(fields[1..], t)))
  }

  function ReadLiteral(s: string, word: string, v: Json): (r: Parsed<Json>)
    requires word != ""
    ensures r.Got? ==> |r.rest| < |s|
  {
    if word <= s then Got(v, s[|word|..]) else Fail
  }

  function Read(s: string): (r: Parsed<Json>)
    ensures r.Got? ==> |r.rest| < |s|
    decreases |s|, 2
  {
    if s == "" then Fail
    else match s[0]
      case 'n' => ReadLiteral(s, "null", Null)
      case 't' => ReadLiteral(s, "true", Bool(true))
      case 'f' => ReadLiteral(s, "false", Bool(false))
      case '\"' =>
        var (cs, rest) :- ReadChars(s[1..]);
        Got(Str(cs), rest)
      case '[' => ReadArr(s[1..])
      case '{' => ReadObj(s[1..])
      case _ => ReadNumber(s)
  }

  // An array after its opening bracket, and an object after its opening brace.
  function ReadArr(s: string): (r: Parsed<Json>)
    ensures r.Got? ==> |r.rest| < |s|
    decreases |s|, 4
  {
    if s != "" && s[0] == ']' then Got(Arr([]), s[1..])
    else
      var (items, rest) :- ReadItems(s);
      Got(Arr(items), rest)
  }

  function ReadObj(s: string): (r: Parsed<Json>)
    ensures r.Got? ==> |r.rest| < |s|
    decreases |s|, 4
  {
    if s != "" && s[0] == '}' then Got(Obj([]), s[1..])
    else
      var (fields, rest) :- ReadFields(s);
      Got(Obj(fields), rest)
  }

  function ReadItems(s: string): (r: Parsed<seq<Json>>)
    ensures r.Got? ==> |r.rest| < |s|
    decreases |s|, 3
  {
    var (v, rest) :- Read(s);
    if rest == "" then Fail
    else if rest[0] == ']' then Got([v], rest[1..])
    else if rest[0] != ',' then Fail
    else
      var (items, rest') :- ReadItems(rest[1..]);
      Got([v] + items, rest')
  }

  function ReadFields(s: string): (r: Parsed<seq<Field>>)
    ensures r.Got? ==> |r.rest| < |s|
    decreases |s|, 3
  {
    if s == "" || s[0] != '\"' then Fail
    else
      var (key, rest) :- ReadChars(s[1..]);
      if rest == "" || rest[0] != ':' then Fail
      else
        var (v, rest') :- Read(rest[1..]);
        if rest' == "" then Fail
        else if rest'[0] == '}' then Got([Field(key, v)], rest'[1..])
        else if rest'[0] != ',' then Fail
        else
          var (fields, rest'') :- ReadFields(rest'[1..]);
          Got([Field(key, v)] + fields, rest'')
  }

  // ----- the round trip

  lemma {:induction false} RoundTrip(v: Json, t: string)
    requires Delimited(t)
    ensures Read(Print(v, t)) == Got(v, t)
    decreases v, 2
  {
    hide PrintItems, PrintFields, PrintChars, PrintNat, ReadArr, ReadObj, ReadChars, ReadNumber;
    match v
    case Null => assert ("null" + t)[4..] == t;
    case Bool(b) => assert ("true" + t)[4..] == t && ("false" + t)[5..] == t;
    case Int(i) => NumberRoundTrip(v, t);
    case Real(f) => NumberRoundTrip(v, t);
    case Str(cs) =>
      Rest('\"', PrintChars(cs, t));
      CharsRoundTrip(cs, t);
    case Arr(items) =>
      Rest('[', if items == [] then "]" + t else PrintItems(items, t));
      ArrRoundTrip(items, t);
    case Obj(fields) =>
      Rest('{', if fields == [] then "}" + t else PrintFields(fields, t));
      ObjRoundTrip(fields, t);
  }

  lemma PrintStart(v: Json, t: string)
    ensures Print(v, t) != "" && Print(v, t)[0] != ']'
  {
    hide PrintItems, PrintFields, PrintChars;
  }

  lemma {:induction false} ArrRoundTrip(items: seq<Json>, t: string)
    ensures ReadArr(if items == [] then "]" + t else PrintItems(items, t)) == Got(Arr(items), t)
    decreases items, 1
  {
    hide Print, ReadItems;
    if items == [] {
      Rest(']', t);
    } else {
      PrintStart(items[0], if |items| == 1 then "]" + t else "," + PrintItems(items[1..], t));
      ItemsRoundTrip(items, t);
    }
  }

  lemma {:induction false} ObjRoundTrip(fields: seq<Field>, t: string)
    ensures ReadObj(if fields == [] then "}" + t else PrintFields(fields, t)) == Got(Obj(fields), t)
    decreases fields, 1
  {
    hide Print, PrintChars, ReadFields;
    if fields == [] {
      Rest('}', t);
    } else {
      FieldsRoundTrip(fields, t);
    }
  }

  lemma {:induction false} ItemsRoundTrip(items: seq<Json>, t: string)
    requires items != []
    ensures ReadItems(PrintItems(items, t)) == Got(items, t)
    decreases items, 0
  {
    hide Print, Read;
    assert items == [items[0]] + items[1..];
    if |items| == 1 {
      assert items == [items[0]];
      RoundTrip(items[0], "]" + t);
      Rest(']', t);
    } else {
      RoundTrip(items[0], "," + PrintItems(items[1..], t));
      Rest(',', PrintItems(items[1..], t));
      ItemsRoundTrip(items[1..], t);
    }
  }

  lemma {:induction false} FieldsRoundTrip(fields: seq<Field>, t: string)
    requires fields != []
    ensures ReadFields(PrintFields(fields, t)) == Got(fields, t)
    decreases fields, 0
  {
    hide Print, PrintChars, Read, ReadChars;
    var f := fields[0];
    var tail := if |fields| == 1 then "}" + t else "," + PrintFields(fields[1..], t);
    var value := ":" + Print(f.value, tail);
    Rest('\"', PrintChars(f.key, value));
    CharsRoundTrip(f.key, value);
    Rest(':', Print(f.value, tail));
    RoundTrip(f.value, tail);
    assert fields == [f] + fields[1..];
    if |fields| == 1 {
      assert fields == [f];
      Rest('}', t);
    } else {
      Rest(',', PrintFields(fields[1..], t));
      FieldsRoundTrip(fields[1..], t);
    }
  }

  // What the text looks like, for the scalars and for arrays and objects of up to two members: no
  // white space, and quotation marks and control characters escaped.
  lemma TextOfScalars(t: string)
    ensures Print(Null, t) == "null" + t && Print(Bool(true), t) == "true" + t && Print(Bool(false), t) == "false" + t
    ensures Print(Int(-10), t) == "-" + ("10" + t)
    ensures Print(Real(Decimal(true, 2, "")), t) == "-" + ("2" + ("." + ("0" + t)))
    ensures Print(Real(Decimal(false, 1, "25")), t) == "1" + ("." + ("25" + t))
  {
    assert PrintNat(10) == "10" && PrintNat(1) == "1" && PrintNat(2) == "2";
  }

  lemma TextOfString(s: string, t: string)
    ensures Print(Str(s), t) == "\"" + PrintChars(s, t)
    ensures PrintChars("", t) == "\"" + t
    ensures PrintChars("\"" + s, t) == "\\\"" + PrintChars(s, t)
    ensures PrintChars("\\" + s, t) == "\\\\" + PrintChars(s, t)
    ensures PrintChars("\n" + s, t) == "\\n" + PrintChars(s, t)
    ensures PrintChars("a" + s, t) == "a" + PrintChars(s, t)
  {
    assert ("\"" + s)[1..] == s && ("\\" + s)[1..] == s && ("\n" + s)[1..] == s && ("a" + s)[1..] == s;
  }

  // One step of writing.
  lemma TextOpens(items: seq<Json>, fields: seq<Field>, t: string)
    ensures Print(Arr(items), t) == "[" + if items == [] then "]" + t else PrintItems(items, t)
    ensures Print(Obj(fields), t) == "{" + if fields == [] then "}" + t else PrintFields(fields, t)
  {
    hide PrintItems, PrintFields;
  }

  lemma TextOfItems(x: Json, y: Json, t: string)
    ensures Print(Arr([x]), t) == "[" + Print(x, "]" + t)
    ensures Print(Arr([x, y]), t) == "[" + Print(x, "," + Print(y, "]" + t))
  {
    hide Print, PrintFields;
    TextOpens([x], [], t);
    TextOpens([x, y], [], t);
    assert [x, y][1..] == [y];
  }

  lemma TextOfFields(x: Json, y: Json, k: string, l: string, t: string)
    ensures Print(Obj([Field(k, x)]), t) == "{" + Print(Str(k), ":" + Print(x, "}" + t))
    ensures Print(Obj([Field(k, x), Field(l, y)]), t) ==
            "{" + Print(Str(k), ":" + Print(x, "," + Print(Str(l), ":" + Print(y, "}" + t))))
  {
    hide Print, PrintItems, PrintChars;
    var f, g := Field(k, x), Field(l, y);
    TextOpens([], [f], t);
    TextOpens([], [f, g], t);
    assert [f, g][1..] == [g];
    TextOfString(k, ":" + Print(x, "}" + t));
    TextOfString(l, ":" + Print(y, "}" + t));
    TextOfString(k, ":" + Print(x, "," + PrintFields([g], t)));
  }

  // Main result: no two trees print alike.
  lemma PrintInjective(v: Json, w: Json)
    ensures Print(v, "") == Print(w, "") <==> v == w
  {
    RoundTrip(v, "");
    RoundTrip(w, "");
  }
}
