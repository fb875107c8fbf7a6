/**
 `sign_payload` and `verify_signature`: a keyed digest of the canonical payload without the
 top-level fields that are not signed.

 The digest is a parameter `mac`, a function of the secret and the message.  Only the last result
 assumes anything about it beyond that a digest is never the empty string.
 */
module Signing {
  import opened Wrappers
  import opened Json
  import opened JsonText
  import opened Equivalence
  import opened Canonical

  type Mac = (string, string) -> string

  ghost predicate IsDigest(mac: Mac) {
    forall k, m :: mac(k, m) != ""
  }

  // Different messages never share a digest under one secret.
  ghost predicate CollisionFree(mac: Mac) {
    forall k, m, n :: mac(k, m) == mac(k, n) ==> m == n
  }

  // ----- the specification: hide some top-level fields, then print the canonical rest

  function Hidden(ignored: seq<string>): set<string> {
    {"security", "_signature"} + set k | k in ignored
  }

  function Filter(hidden: set<string>, fields: seq<Field>): seq<Field> {
    if fields == [] then []
    else if fields[0].key in hidden then Filter(hidden, fields[1..])
    else [fields[0]] + Filter(hidden, fields[1..])
  }

  function Strip(hidden: set<string>, v: Json): Json {
    if v.Obj? then Obj(Filter(hidden, v.fields)) else v
  }

  function Message(payload: Json, ignored: seq<string>): Result<string, Error> {
    var data :- ToDict(payload);
    Dumps(Strip(Hidden(ignored), data), true)
  }

  function Sign(mac: Mac, payload: Json, secret: string, ignored: seq<string>): Result<string, Error> {
    if secret == "" then Err(EmptySecret)
    else
      var message :- Message(payload, ignored);
      Ok(mac(secret, message))
  }

  function Verify(mac: Mac, payload: Json, signature: string, secret: string, ignored: seq<string>): Result<bool,
      Error> {
    if signature == "" || secret == "" then Ok(false)
    else
      var expected :- Sign(mac, payload, secret, ignored);
      Ok(expected == signature)
  }

  // The signer pops the hidden fields one after the other from its copy of the payload.
  method SignPayload(mac: Mac, payload: Json, secret: string, ignored: seq<string>) returns (r: Result<string, Error>)
    ensures r == Sign(mac, payload, secret, ignored)
  {
    hide ToDict, Dumps, Filter;
    if secret == "" {
      return Err(EmptySecret);
    }
    var d := ToDict(payload);
    if d.Err? {
      return Err(d.error);
    }
    var data := d.value;
    if data.Obj? {
      var fields := data.fields;
      fields := Filter({"security"}, fields);
      fields := Filter({"_signature"}, fields);
      FilterTwice({"security"}, {"_signature"}, data.fields);
      ghost var gone := {"security", "_signature"};
      assert {"security"} + {"_signature"} == gone;
      for i := 0 to |ignored|
        invariant gone == Hidden(ignored[..i])
        invariant fields == Filter(gone, data.fields)
      {
        fields := Filter({ignored[i]}, fields);
        FilterTwice(gone, {ignored[i]}, data.fields);
        gone := gone + {ignored[i]};
      }
      assert ignored[..|ignored|] == ignored;
      data := Obj(fields);
    }
    var message := Dumps(data, true);
    if message.Err? {
      return Err(message.error);
    }
    return Ok(mac(secret, message.value));
  }

  lemma {:induction false} FilterTwice(a: set<string>, b: set<string>, fields: seq<Field>)
    ensures Filter(b, Filter(a, fields)) == Filter(a + b, fields)
  {
    if fields != [] {
      FilterTwice(a, b, fields[1..]);
    }
  }

  // ----- hiding commutes with normalising

  lemma {:induction false} FilterInsert(hidden: set<string>, f: Field, fs: seq<Field>)
    requires Ascending(fs)
    ensures Filter(hidden, Insert(f, fs)) ==
            if f.key in hidden then Filter(hidden, fs) else Insert(f, Filter(hidden, fs))
  {
    if fs == [] {
    } else if !Before(fs[0].key, f.key) {
      assert ([f] + fs)[1..] == fs;
      FilterKeepsAbove(hidden, f, fs);
    } else {
      assert forall i | 0 <= i < |fs[1..]| :: fs[1..][i] == fs[i + 1];
      FilterInsert(hidden, f, fs[1..]);
      assert ([fs[0]] + Insert(f, fs[1..]))[1..] == Insert(f, fs[1..]);
    }
  }

  // When no key of fs comes before the key of f, none of the remaining ones does.
  lemma {:induction false} FilterKeepsAbove(hidden: set<string>, f: Field, fs: seq<Field>)
    requires Ascending(fs) && fs != [] && !Before(fs[0].key, f.key)
    ensures var r := Filter(hidden, fs); r == [] || !Before(r[0].key, f.key)
  {
    if fs[0].key in hidden && |fs| > 1 {
      BeforeTotal(fs[0].key, fs[1].key);
      if fs[0].key != fs[1].key && Before(fs[1].key, f.key) {
        BeforeTransitive(fs[0].key, fs[1].key, f.key);
      }
      assert forall i | 0 <= i < |fs[1..]| :: fs[1..][i] == fs[i + 1];
      FilterKeepsAbove(hidden, f, fs[1..]);
    }
  }

  lemma {:induction false} FilterNormal(full: bool, hidden: set<string>, fields: seq<Field>)
    ensures NormalFields(full, Filter(hidden, fields)) == Filter(hidden, NormalFields(full, fields))
  {
    if fields != [] {
      FilterNormal(full, hidden, fields[1..]);
      var f, rest := fields[0], NormalFields(full, fields[1..]);
      if !(full && f.value.Null?) {
        NormalFieldsSorted(full, fields[1..]);
        FilterInsert(hidden, Field(f.key, Normal(full, f.value)), rest);
      }
    }
  }

  lemma StripNormal(full: bool, hidden: set<string>, v: Json)
    ensures Normal(full, Strip(hidden, v)) == Strip(hidden, Normal(full, v))
  {
    if v.Obj? {
      FilterNormal(full, hidden, v.fields);
    }
  }

  // What is signed: the normal form of the payload without its hidden fields.
  lemma MessageMeaning(payload: Json, ignored: seq<string>)
    requires Message(payload, ignored).Ok?
    ensures Message(payload, ignored).value == Print(Normal(true, Strip(Hidden(ignored), payload)), "")
  {
    var hidden := Hidden(ignored);
    ToDictMeaning(payload);
    StripNormal(true, hidden, payload);
    NormalIsSorted(true, Strip(hidden, payload));
    SortedIsFixed(Normal(true, Strip(hidden, payload)));
  }

  lemma {:induction false} FilterMember(hidden: set<string>, fields: seq<Field>, f: Field)
    ensures f in Filter(hidden, fields) <==> f in fields && f.key !in hidden
  {
    if fields != [] {
      FilterMember(hidden, fields[1..], f);
    }
  }

  // The message of an object written out: the text of its fields that are neither None nor among
  // those that are not signed, normalised and in order.
  lemma MessageOfFields(fields: seq<Field>, ignored: seq<string>) returns (signed: seq<Field>)
    requires Message(Obj(fields), ignored).Ok?
    ensures Message(Obj(fields), ignored).value == Print(Obj(signed), "")
    ensures Ascending(signed)
    ensures forall g: Field :: g in signed <==>
              exists f: Field | f in fields ::
                && f.key != "security" && f.key != "_signature" && f.key !in ignored
                && !f.value.Null? && g == Field(f.key, Normal(true, f.value))
  {
    var hidden := Hidden(ignored);
    signed := NormalFields(true, Filter(hidden, fields));
    MessageMeaning(Obj(fields), ignored);
    NormalFieldsSorted(true, Filter(hidden, fields));
    forall g: Field
      ensures g in signed <==>
              exists f: Field | f in fields ::
                && f.key != "security" && f.key != "_signature" && f.key !in ignored
                && !f.value.Null? && g == Field(f.key, Normal(true, f.value))
    {
      hide Filter, NormalFields;
      NormalMember(Filter(hidden, fields), g);
      forall f: Field
        ensures f in Filter(hidden, fields) <==> f in fields && f.key !in hidden
      {
        FilterMember(hidden, fields, f);
      }
    }
  }

  // Anything but an object is signed whole.
  lemma MessageOfOther(payload: Json, ignored: seq<string>)
    requires Message(payload, ignored).Ok? && !payload.Obj?
    ensures Message(payload, ignored).value == Print(Normal(true, payload), "")
  {
    MessageMeaning(payload, ignored);
  }

  // Without a secret nothing is signed, and without a secret or a signature nothing verifies.
  lemma SignMeaning(mac: Mac, payload: Json, signature: string, secret: string, ignored: seq<string>)
    ensures Sign(mac, payload, "", ignored) == Err(EmptySecret)
    ensures secret != "" && Message(payload, ignored).Ok? ==>
              Sign(mac, payload, secret, ignored) == Ok(mac(secret, Message(payload, ignored).value))
    ensures secret != "" && Message(payload, ignored).Err? ==>
              Sign(mac, payload, secret, ignored) == Err(Message(payload, ignored).error)
    ensures Verify(mac, payload, "", secret, ignored) == Verify(mac, payload, signature, "", ignored) == Ok(false)
  {
    hide Message;
  }

  // Main result on messages: two payloads share a signed message exactly when they are equivalent
  // after the hidden fields are removed.
  lemma MessagesDecide(p: Json, q: Json, ignored: seq<string>)
    requires Message(p, ignored).Ok? && Message(q, ignored).Ok?
    ensures Message(p, ignored) == Message(q, ignored) <==>
            Equivalent(true, Strip(Hidden(ignored), p), Strip(Hidden(ignored), q))
  {
    var a, b := Strip(Hidden(ignored), p), Strip(Hidden(ignored), q);
    MessageMeaning(p, ignored);
    MessageMeaning(q, ignored);
    PrintInjective(Normal(true, a), Normal(true, b));
    NormalDecides(true, a, b);
  }

  // A signature made for p verifies for every payload equivalent to p apart from hidden fields.
  lemma EquivalentPayloadsVerify(mac: Mac, p: Json, q: Json, secret: string, ignored: seq<string>)
    requires IsDigest(mac) && Sign(mac, p, secret, ignored).Ok? && Sign(mac, q, secret, ignored).Ok?
    requires Equivalent(true, Strip(Hidden(ignored), p), Strip(Hidden(ignored), q))
    ensures Verify(mac, q, Sign(mac, p, secret, ignored).value, secret, ignored) == Ok(true)
  {
    MessagesDecide(p, q, ignored);
  }

  // With a collision-free digest it verifies for no others.
  lemma VerifyDecides(mac: Mac, p: Json, q: Json, secret: string, ignored: seq<string>)
    requires IsDigest(mac) && CollisionFree(mac)
    requires Sign(mac, p, secret, ignored).Ok? && Sign(mac, q, secret, ignored).Ok?
    ensures Verify(mac, q, Sign(mac, p, secret, ignored).value, secret, ignored) == Ok(true) <==>
            Equivalent(true, Strip(Hidden(ignored), p), Strip(Hidden(ignored), q))
  {
    MessagesDecide(p, q, ignored);
  }

  // ----- signatures survive the wire

  lemma {:induction false} FilterSubset(hidden: set<string>, fields: seq<Field>)
    ensures forall f: Field | f in Filter(hidden, fields) :: f in fields
  {
    if fields != [] {
      FilterSubset(hidden, fields[1..]);
    }
  }

  lemma StripEncodable(hidden: set<string>, v: Json)
    requires Encodable(v)
    ensures Encodable(Strip(hidden, v))
  {
    if v.Obj? {
      FilterSubset(hidden, v.fields);
    }
  }

  // Whatever can be written to the wire can be signed.
  lemma WireIsSignable(p: Json, ignored: seq<string>)
    requires JsonDumps(p).Ok?
    ensures Message(p, ignored).Ok?
  {
    hide ToDict, Strip;
    StripEncodable(Hidden(ignored), ToDict(p).value);
  }

  // Main result: the signature of whatever is written to the wire verifies for what the receiver
  // reads.
  lemma SignatureSurvivesWire(mac: Mac, p: Json, secret: string, ignored: seq<string>)
    requires IsDigest(mac) && secret != "" && JsonDumps(p).Ok?
    ensures Sign(mac, p, secret, ignored).Ok? && Loads(JsonDumps(p).value).Ok?
    ensures Verify(mac, Loads(JsonDumps(p).value).value, Sign(mac, p, secret, ignored).value, secret, ignored) == Ok(true)
  {
    hide ToDict, Dumps, JsonDumps, Strip, Encodable;
    WireIsCanonical(p);
    WireIsSignable(p, ignored);
  }

  function Inserted(fields: seq<Field>, i: nat, f: Field): seq<Field>
    requires i <= |fields|
  {
    fields[..i] + [f] + fields[i..]
  }

  lemma {:induction false} FilterSkips(hidden: set<string>, fields: seq<Field>, i: nat, f: Field)
    requires i <= |fields| && f.key in hidden
    ensures Filter(hidden, Inserted(fields, i, f)) == Filter(hidden, fields)
    decreases i
  {
    if i == 0 {
      assert Inserted(fields, 0, f)[1..] == fields;
    } else {
      assert Inserted(fields, i, f)[1..] == Inserted(fields[1..], i - 1, f);
      FilterSkips(hidden, fields[1..], i - 1, f);
    }
  }

  lemma {:induction false} NormalSkipsNull(fields: seq<Field>, i: nat, f: Field)
    requires i <= |fields| && f.value.Null?
    ensures NormalFields(true, Inserted(fields, i, f)) == NormalFields(true, fields)
    decreases i
  {
    if i == 0 {
      assert Inserted(fields, 0, f)[1..] == fields;
    } else {
      assert Inserted(fields, i, f)[1..] == Inserted(fields[1..], i - 1, f);
      NormalSkipsNull(fields[1..], i - 1, f);
    }
  }

  // Adding a hidden field or a None field to a signed object, at any place, leaves the signature
  // valid as long as the result is still within the bounds of to_dict.
  lemma SignatureSurvivesAddition(mac: Mac, fields: seq<Field>, i: nat, f: Field, secret: string, ignored: seq<string>)
    requires IsDigest(mac) && i <= |fields|
    requires f.key == "security" || f.key == "_signature" || f.key in ignored || f.value.Null?
    requires Sign(mac, Obj(fields), secret, ignored).Ok? && ToDict(Obj(Inserted(fields, i, f))).Ok?
    ensures Verify(mac, Obj(Inserted(fields, i, f)), Sign(mac, Obj(fields), secret, ignored).value, secret, ignored) == Ok(true)
  {
    var hidden := Hidden(ignored);
    var p, q := Obj(fields), Obj(Inserted(fields, i, f));
    StripNormal(true, hidden, p);
    StripNormal(true, hidden, q);
    if f.key in hidden {
      FilterSkips(hidden, fields, i, f);
    } else {
      NormalSkipsNull(fields, i, f);
    }
    ToDictMeaning(p);
    ToDictMeaning(q);
    assert Strip(hidden, ToDict(p).value) == Strip(hidden, ToDict(q).value);
  }

  // Adding any other field changes the message, so that with a collision-free digest the signature
  // no longer verifies.
  lemma OtherAdditionIsNoticed(mac: Mac, fields: seq<Field>, i: nat, f: Field, secret: string, ignored: seq<string>)
    requires i <= |fields| && forall g: Field | g in fields :: g.key != f.key
    requires f.key != "security" && f.key != "_signature" && f.key !in ignored && !f.value.Null?
    requires Sign(mac, Obj(fields), secret, ignored).Ok? && Sign(mac, Obj(Inserted(fields, i, f)), secret, ignored).Ok?
    ensures Message(Obj(Inserted(fields, i, f)), ignored) != Message(Obj(fields), ignored)
    ensures CollisionFree(mac) ==>
              Verify(mac, Obj(Inserted(fields, i, f)), Sign(mac, Obj(fields), secret, ignored).value, secret, ignored) == Ok(false)
  {
    hide Message;
    var more := Inserted(fields, i, f);
    var signed := MessageOfFields(fields, ignored);
    var signedMore := MessageOfFields(more, ignored);
    PrintInjective(Obj(signed), Obj(signedMore));
    assert more[i] == f;
    assert Field(f.key, Normal(true, f.value)) in signedMore;
  }
}
