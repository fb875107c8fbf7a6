/**
 The cache of compiled validators: `get_compiled_validator` with double-checked locking and
 first-in first-out eviction, run by any number of threads.

 A thread takes one step at a time.  The first lookup is made without the lock, so it may happen
 between any two steps of another thread.  Compilation is a parameter: it maps the encoded schema
 to a validator, or to nothing when it fails.  An empty schema, or none at all, has no validator.
 */
module ValidatorCache {
  import opened Wrappers
  import opened FifoCache

  type Compiler<!V> = string -> Option<V>

  // Where a thread is inside the call.
  datatype Pc<V> =
    | Idle
    | Reading(key: string)
    | Waiting(key: string)
    | Checking(key: string)
    | Compiling(key: string)
    | Evicting(key: string, value: V)
    | Inserting(key: string, value: V)
    | Releasing(key: string, result: Option<V>)
    | Done(key: string, result: Option<V>)

  // `inserted` and `compiled` record the keys of all insertions and of all successful compilations.
  datatype State<V> = State(
    cache: seq<Cached<string, V>>,
    holder: Option<nat>,
    threads: seq<Pc<V>>,
    inserted: seq<string>,
    compiled: seq<string>)

  const MAX_VALIDATOR_CACHE_SIZE := 1024

  // How an empty schema is encoded.
  const EMPTY_SCHEMA := "{}"

  // What a call is to return.
  function Validator<V>(compile: Compiler<V>, key: string): Option<V> {
    if key == EMPTY_SCHEMA then None else compile(key)
  }

  // ----- one step of one thread

  predicate Enabled<V>(s: State<V>, t: nat) {
    t < |s.threads| && (s.threads[t].Waiting? ==> s.holder.None?)
  }

  // An idle thread starts a call with the given key; a finished one becomes idle again.
  function Step<V>(compile: Compiler<V>, s: State<V>, t: nat, key: string): State<V>
    requires Enabled(s, t)
  {
    match s.threads[t]
    case Idle => Goto(s, t, if key == EMPTY_SCHEMA then Done(key, None) else Reading(key))
    case Reading(k) => Goto(s, t, if Get(s.cache, k).Some? then Done(k, Get(s.cache, k)) else Waiting(k))
    case Waiting(k) => Goto(s, t, Checking(k)).(holder := Some(t))
    case Checking(k) => Goto(s, t, if Get(s.cache, k).Some? then Releasing(k, Get(s.cache, k)) else Compiling(k))
    case Compiling(k) =>
      (match compile(k)
       case Some(v) => Goto(s, t, Evicting(k, v)).(compiled := s.compiled + [k])
       case None => Goto(s, t, Releasing(k, None)))
    case Evicting(k, v) => Goto(s, t, Inserting(k, v)).(cache := Evict(s.cache, MAX_VALIDATOR_CACHE_SIZE))
    case Inserting(k, v) =>
      Goto(s, t, Releasing(k, Some(v))).(cache := Put(s.cache, k, v), inserted := s.inserted + [k])
    case Releasing(k, r) => Goto(s, t, Done(k, r)).(holder := None)
    case Done(_, _) => Goto(s, t, Idle)
  }

  function Goto<V>(s: State<V>, t: nat, pc: Pc<V>): State<V>
    requires t < |s.threads|
  {
    s.(threads := s.threads[t := pc])
  }

  // ----- the invariant

  predicate Critical<V>(pc: Pc<V>) {
    pc.Checking? || pc.Compiling? || pc.Evicting? || pc.Inserting? || pc.Releasing?
  }

  // The key whose compilation succeeded but whose entry is not yet in the cache.
  function Pending<V>(s: State<V>): seq<string> {
    match s.holder
    case Some(t) =>
      if t < |s.threads| && (s.threads[t].Evicting? || s.threads[t].Inserting?) then [s.threads[t].key] else []
    case None => []
  }

  ghost predicate ThreadOk<V>(compile: Compiler<V>, s: State<V>, t: nat)
    requires t < |s.threads|
  {
    var pc := s.threads[t];
    && (Critical(pc) <==> s.holder == Some(t))
    && (pc.Compiling? || pc.Evicting? || pc.Inserting? ==> Absent(s.cache, pc.key))
    && (pc.Evicting? || pc.Inserting? ==> compile(pc.key) == Some(pc.value))
    && (pc.Inserting? ==> |s.cache| < MAX_VALIDATOR_CACHE_SIZE)
    && (pc.Releasing? || pc.Done? ==> pc.result == Validator(compile, pc.key))
    && (!pc.Idle? && !pc.Done? ==> pc.key != EMPTY_SCHEMA)
  }

  // Is the lock holder between making room and inserting?
  predicate RoomMade<V>(s: State<V>) {
    s.holder.Some? && s.holder.value < |s.threads| && s.threads[s.holder.value].Inserting?
  }

  // The cache is as full as its bound and the number of insertions allow.
  predicate SizeOk<V>(s: State<V>) {
    var limit := if RoomMade(s) then MAX_VALIDATOR_CACHE_SIZE - 1 else MAX_VALIDATOR_CACHE_SIZE;
    |s.cache| == if |s.inserted| < limit then |s.inserted| else limit
  }

  // Two insertions of one key are at least a full cache apart.
  ghost predicate Spaced(inserted: seq<string>) {
    forall i, j | 0 <= i < j < |inserted| && inserted[i] == inserted[j] :: j - i >= MAX_VALIDATOR_CACHE_SIZE
  }

  ghost predicate CacheOk<V>(compile: Compiler<V>, s: State<V>) {
    ContentsOk(compile, MAX_VALIDATOR_CACHE_SIZE, s.cache, s.inserted) && s.compiled == s.inserted + Pending(s)
    && SizeOk(s) && Spaced(s.inserted)
  }

  ghost predicate Inv<V>(compile: Compiler<V>, s: State<V>) {
    && CacheOk(compile, s)
    && (s.holder.Some? ==> s.holder.value < |s.threads|)
    && forall t | 0 <= t < |s.threads| :: ThreadOk(compile, s, t)
  }

  ghost predicate Init<V>(s: State<V>) {
    && s.cache == [] && s.holder == None && s.inserted == [] && s.compiled == []
    && forall t | 0 <= t < |s.threads| :: s.threads[t] == Idle
  }

  lemma InitInv<V>(compile: Compiler<V>, s: State<V>)
    requires Init(s)
    ensures Inv(compile, s)
  {
  }

  // Every step of every thread keeps the invariant.
  lemma StepInv<V>(compile: Compiler<V>, s: State<V>, t: nat, key: string)
    requires Inv(compile, s) && Enabled(s, t)
    ensures Inv(compile, Step(compile, s, t, key))
  {
    var s' := Step(compile, s, t, key);
    assert ThreadOk(compile, s, t);
    StepCacheOk(compile, s, t, key);
    forall u | 0 <= u < |s'.threads|
      ensures ThreadOk(compile, s', u)
    {
      StepThreadOk(compile, s, t, key, u);
    }
  }

  lemma StepCacheOk<V>(compile: Compiler<V>, s: State<V>, t: nat, key: string)
    requires Inv(compile, s) && Enabled(s, t)
    ensures CacheOk(compile, Step(compile, s, t, key))
  {
    hide ContentsOk, Put;
    var pc := s.threads[t];
    assert ThreadOk(compile, s, t);
    if s.holder.Some? && s.holder.value != t {
      assert ThreadOk(compile, s, s.holder.value);
    }
    match pc
    case Evicting(k, v) => EvictKeeps(compile, MAX_VALIDATOR_CACHE_SIZE, s.cache, s.inserted);
    case Inserting(k, v) =>
      PutKeeps(compile, MAX_VALIDATOR_CACHE_SIZE, s.cache, s.inserted, k, v);
      PutAbsent(s.cache, k, v);
      SpacedInsert(compile, s, k);
    case _ =>
  }

  lemma SpacedInsert<V>(compile: Compiler<V>, s: State<V>, key: string)
    requires CacheOk(compile, s) && RoomMade(s) && Absent(s.cache, key)
    ensures Spaced(s.inserted + [key])
  {
    hide Spaced, Keys;
    var n, m := |s.inserted|, |s.cache|;
    forall i | n - m <= i < n
      ensures s.inserted[i] != key
    {
      RecentKey(s.cache, s.inserted, i);
    }
    SpacedAppend(s.inserted, m, key);
  }

  lemma RecentKey<V>(cache: seq<Cached<string, V>>, inserted: seq<string>, i: nat)
    requires |cache| <= |inserted| && Keys(cache) == inserted[|inserted| - |cache|..]
    requires |inserted| - |cache| <= i < |inserted|
    ensures exists e | e in cache :: e.key == inserted[i]
  {
    var k := i - (|inserted| - |cache|);
    assert Keys(cache)[k] == inserted[i];
    assert cache[k] in cache;
  }

  lemma SpacedAppend(inserted: seq<string>, m: nat, key: string)
    requires Spaced(inserted)
    requires m == if |inserted| < MAX_VALIDATOR_CACHE_SIZE - 1 then |inserted| else MAX_VALIDATOR_CACHE_SIZE - 1
    requires forall i | |inserted| - m <= i < |inserted| :: inserted[i] != key
    ensures Spaced(inserted + [key])
  {
  }

  lemma StepThreadOk<V>(compile: Compiler<V>, s: State<V>, t: nat, key: string, u: nat)
    requires Inv(compile, s) && Enabled(s, t) && u < |s.threads|
    ensures ThreadOk(compile, Step(compile, s, t, key), u)
  {
    assert ThreadOk(compile, s, t) && ThreadOk(compile, s, u);
    if s.threads[t].Evicting? {
      EvictKeeps(compile, MAX_VALIDATOR_CACHE_SIZE, s.cache, s.inserted);
    }
  }

  // ----- runs

  datatype Move = Move(thread: nat, key: string)

  // A run is any sequence of enabled moves from an initial state.
  ghost predicate Run<V>(compile: Compiler<V>, states: seq<State<V>>, moves: seq<Move>) {
    && |states| == |moves| + 1
    && Init(states[0])
    && forall i | 0 <= i < |moves| :: Moved(compile, states[i], states[i + 1], moves[i])
  }

  ghost predicate Moved<V>(compile: Compiler<V>, s: State<V>, s': State<V>, m: Move) {
    Enabled(s, m.thread) && s' == Step(compile, s, m.thread, m.key)
  }

  lemma {:induction false} RunInv<V>(compile: Compiler<V>, states: seq<State<V>>, moves: seq<Move>, i: nat)
    requires Run(compile, states, moves) && i < |states|
    ensures Inv(compile, states[i])
    decreases i
  {
    if i == 0 {
      InitInv(compile, states[0]);
    } else {
      RunInv(compile, states, moves, i - 1);
      assert Moved(compile, states[i - 1], states[i], moves[i - 1]);
      StepInv(compile, states[i - 1], moves[i - 1].thread, moves[i - 1].key);
    }
  }

  // Main result, on every state of every run: the cache is bounded and holds everything inserted as
  // long as there is room; every entry is the compilation of its key; the keys are exactly the latest insertions, oldest first; every
  // successful compilation has led to one insertion, apart from at most one still to be made; and
  // a key is compiled again only after as many insertions as the cache holds entries.
  lemma CacheHistory<V>(compile: Compiler<V>, states: seq<State<V>>, moves: seq<Move>, i: nat)
    requires Run(compile, states, moves) && i < |states|
    ensures var s := states[i];
            && |s.cache| <= 1024 && (|s.cache| == |s.inserted| || |s.cache| >= 1023)
            && (forall e | e in s.cache :: compile(e.key) == Some(e.value))
            && |s.cache| <= |s.inserted| && Keys(s.cache) == s.inserted[|s.inserted| - |s.cache|..]
            && s.inserted <= s.compiled && |s.compiled| <= |s.inserted| + 1
            && forall a, b | 0 <= a < b < |s.inserted| && s.inserted[a] == s.inserted[b] :: b - a >= 1024
  {
    RunInv(compile, states, moves, i);
  }

  // Between i and j the thread is inside one call.
  ghost predicate InCall<V>(states: seq<State<V>>, t: nat, i: nat, j: nat)
    requires i <= j < |states|
  {
    forall k | i <= k <= j :: t < |states[k].threads| && !states[k].threads[t].Idle?
  }

  // Main result: a validator that a call returns was in the cache at some instant of that call.
  lemma {:induction false} ReturnedWasCached<V>(compile: Compiler<V>, states: seq<State<V>>, moves: seq<Move>, t: nat,
      j: nat)
    returns (i: nat)
    requires Run(compile, states, moves) && j < |states| && t < |states[j].threads|
    requires states[j].threads[t].Releasing? || states[j].threads[t].Done?
    requires states[j].threads[t].result.Some?
    ensures i <= j && InCall(states, t, i, j)
    ensures Cached(states[j].threads[t].key, states[j].threads[t].result.value) in states[i].cache
    decreases j
  {
    var m, before, after := moves[j - 1], states[j - 1], states[j];
    assert Moved(compile, before, after, m);
    var pc := before.threads[t];
    if m.thread == t && (pc.Reading? || pc.Checking? || pc.Inserting?) {
      RunInv(compile, states, moves, j - 1);
      assert ThreadOk(compile, before, t);
      if pc.Inserting? {
        PutAbsent(before.cache, pc.key, pc.value);
      }
      i := j;
    } else {
      i := ReturnedWasCached(compile, states, moves, t, j - 1);
    }
  }

  // A call that ends with nothing ends so because its schema is empty or does not compile, and
  // conversely.
  lemma NothingIffFailure<V>(compile: Compiler<V>, states: seq<State<V>>, moves: seq<Move>, t: nat, j: nat)
    requires Run(compile, states, moves) && j < |states| && t < |states[j].threads| && states[j].threads[t].Done?
    ensures var call := states[j].threads[t];
            && (call.result.Some? ==> call.result == compile(call.key))
            && (call.result.None? <==> call.key == EMPTY_SCHEMA || compile(call.key).None?)
  {
    RunInv(compile, states, moves, j);
    assert ThreadOk(compile, states[j], t);
  }

  // As long as some call is under way, some call can take a step: there is no deadlock.
  lemma SomeCallCanStep<V>(compile: Compiler<V>, s: State<V>, t: nat) returns (u: nat)
    requires Inv(compile, s) && t < |s.threads| && !s.threads[t].Idle?
    ensures Enabled(s, u) && !s.threads[u].Idle?
  {
    if s.holder.Some? {
      u := s.holder.value;
      assert ThreadOk(compile, s, u);
    } else {
      u := t;
    }
  }

  // ----- the function as one uninterrupted call

  // What a call does to the cache.  A hit leaves the order alone: eviction is by age, not by use.
  function After<V>(compile: Compiler<V>, cache: seq<Cached<string, V>>, key: string): seq<Cached<string, V>> {
    if key == EMPTY_SCHEMA || Get(cache, key).Some? then cache
    else match compile(key)
      case Some(v) => Put(Evict(cache, MAX_VALIDATOR_CACHE_SIZE), key, v)
      case None => cache
  }

  class Validators<V> {
    var cache: seq<Cached<string, V>>
    ghost var inserted: seq<string>
    const compile: Compiler<V>

    ghost predicate Valid()
      reads this
    {
      ContentsOk(compile, MAX_VALIDATOR_CACHE_SIZE, cache, inserted)
    }

    constructor (compile: Compiler<V>)
      ensures Valid() && cache == [] && this.compile == compile
    {
      this.compile := compile;
      cache, inserted := [], [];
    }

    method GetCompiledValidator(key: string) returns (r: Option<V>)
      requires Valid()
      modifies this
      ensures Valid()
      ensures r == if key == "{}" then None else compile(key)
      ensures cache == After(compile, old(cache), key)
      // a hit, an empty schema and a failure change nothing; a new validator is the last entry, and
      // takes the place of the oldest one when the cache is full
      ensures var kept := key == "{}" || (exists e | e in old(cache) :: e.key == key) || compile(key) == None;
              cache == if kept then old(cache)
                       else (if |old(cache)| < 1024 then old(cache) else old(cache)[1..]) + [Cached(key, compile(key).value)]
    {
      hide Put;
      if key == EMPTY_SCHEMA {
        return None;
      }
      r := Get(cache, key);
      if r.Some? {
        return;
      }
      // the lock is taken here, and the lookup repeated
      r := Get(cache, key);
      if r.None? {
        var v := compile(key);
        if v.None? {
          return None;
        }
        EvictKeeps(compile, MAX_VALIDATOR_CACHE_SIZE, cache, inserted);
        if |cache| >= MAX_VALIDATOR_CACHE_SIZE {
          cache := cache[1..];
        }
        PutKeeps(compile, MAX_VALIDATOR_CACHE_SIZE, cache, inserted, key, v.value);
        cache, inserted := Put(cache, key, v.value), inserted + [key];
        r := v;
      }
    }
  }

  // The steps of one thread, nobody else moving.
  function Alone<V>(compile: Compiler<V>, s: State<V>, t: nat, n: nat): (r: State<V>)
    ensures |r.threads| == |s.threads|
    decreases n
  {
    if n == 0 || !Enabled(s, t) || s.threads[t].Done? then s
    else Alone(compile, Step(compile, s, t, ""), t, n - 1)
  }

  lemma AloneStep<V>(compile: Compiler<V>, s: State<V>, t: nat, n: nat)
    requires Enabled(s, t) && !s.threads[t].Done? && n > 0
    ensures Alone(compile, s, t, n) == Alone(compile, Step(compile, s, t, ""), t, n - 1)
  {
  }

  lemma AloneDone<V>(compile: Compiler<V>, s: State<V>, t: nat, n: nat)
    requires t < |s.threads| && s.threads[t].Done?
    ensures Alone(compile, s, t, n) == s
  {
  }

  // From a successful or failed compilation to the end of the call.
  lemma UninterruptedCompile<V>(compile: Compiler<V>, s: State<V>, t: nat, key: string)
    requires s.holder == Some(t) && t < |s.threads| && s.threads[t] == Compiling(key)
    ensures var s', put := Alone(compile, s, t, 4), compile(key);
            s'.threads[t] == Done(key, put) && s'.holder.None? &&
            s'.cache == if put.Some? then Put(Evict(s.cache, MAX_VALIDATOR_CACHE_SIZE), key, put.value) else s.cache
  {
    hide Alone, Put, Evict;
    var s1 := Step(compile, s, t, "");
    var s2 := Step(compile, s1, t, "");
    AloneStep(compile, s, t, 4);
    AloneStep(compile, s1, t, 3);
    if compile(key).Some? {
      var s3 := Step(compile, s2, t, "");
      AloneStep(compile, s2, t, 2);
      AloneStep(compile, s3, t, 1);
      AloneDone(compile, Step(compile, s3, t, ""), t, 0);
    } else {
      AloneDone(compile, s2, t, 2);
    }
  }

  // Run without interruption the steps do exactly what the function does.
  lemma UninterruptedCall<V>(compile: Compiler<V>, s: State<V>, t: nat, key: string)
    requires forall e | e in s.cache :: compile(e.key) == Some(e.value)
    requires s.holder.None? && t < |s.threads| && s.threads[t] == Reading(key) && key != EMPTY_SCHEMA
    ensures var s' := Alone(compile, s, t, 7);
            s'.threads[t] == Done(key, compile(key)) && s'.holder.None? && s'.cache == After(compile, s.cache, key)
  {
    hide Alone, Put, Evict, Get;
    var s1 := Step(compile, s, t, "");
    AloneStep(compile, s, t, 7);
    if s1.threads[t].Done? {
      AloneDone(compile, s1, t, 6);
    } else {
      var s2 := Step(compile, s1, t, "");
      AloneStep(compile, s1, t, 6);
      AloneStep(compile, s2, t, 5);
      UninterruptedCompile(compile, Step(compile, s2, t, ""), t, key);
    }
  }
}
