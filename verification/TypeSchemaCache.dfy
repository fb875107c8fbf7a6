/**
 `extract_json_schema` and its cache, run by any number of threads.

 A call looks the type up without the lock, otherwise computes the schema, which calls the function
 again for every record nested in the type, and then inserts the schema under the lock unless it
 appeared in the meantime.  The lock cannot be taken twice by one thread.
 */
module TypeSchemaCache {
  import opened Wrappers
  import opened Types
  import opened Schema
  import opened FifoCache

  const MAX_TYPE_SCHEMA_CACHE_SIZE := 2048

  // Only classes are cached, not unions, parametrised lists and dicts, or annotations.
  predicate Cacheable(ty: Ty) {
    !ty.UnionTy? && !ty.ListTy? && !ty.DictTy? && !ty.AnnotatedTy?
  }

  function Uncached(): Ty -> Option<Schema> {
    ty => Some(Compile(ty))
  }

  // ----- the recursion: records met while compiling, and the schema put together from theirs

  // The records for which compiling a type in field position calls the function again, in order.
  function Nested(ty: Ty): seq<Ty>
    decreases ty, 1
  {
    match ty
    case RecordTy(_, _, _) => [ty]
    case UnionTy(alts) => NestedAlts(alts)
    case ListTy(item) => Nested(item)
    case AnnotatedTy(inner) => Nested(inner)
    case _ => []
  }

  function NestedAlts(alts: seq<Ty>): seq<Ty>
    decreases alts, 0
  {
    if alts == [] then [] else Nested(alts[0]) + NestedAlts(alts[1..])
  }

  function NestedFields(fields: seq<FieldDef>): seq<Ty> {
    if fields == [] then []
    else (if Private(fields[0].name) then [] else Nested(fields[0].ty)) + NestedFields(fields[1..])
  }

  function Children(ty: Ty): seq<Ty> {
    if ty.RecordTy? then NestedFields(ty.fields) else Nested(ty)
  }

  // The schema of a type in field position, taking the schemas of nested records from the front of
  // `given`; returned with what is left.
  function Fill(ty: Ty, given: seq<Schema>): (Schema, seq<Schema>)
    decreases ty, 1
  {
    match ty
    case RecordTy(_, _, _) => if given == [] then (ANYTHING, []) else (given[0], given[1..])
    case UnionTy(alts) =>
      var (schemas, rest) := FillAlts(alts, given);
      (ANYTHING.(anyOf := Alternatives(schemas)), rest)
    case ListTy(item) =>
      var (schema, rest) := Fill(item, given);
      (OfType(TArray).(items := Some(schema)), rest)
    case AnnotatedTy(inner) => Fill(inner, given)
    case _ => (Compile(ty), given)
  }

  function FillAlts(alts: seq<Ty>, given: seq<Schema>): (seq<Schema>, seq<Schema>)
    decreases alts, 0
  {
    if alts == [] then ([], given)
    else
      var (schema, rest) := Fill(alts[0], given);
      var (schemas, rest') := FillAlts(alts[1..], rest);
      ([schema] + schemas, rest')
  }

  function FillFields(fields: seq<FieldDef>, given: seq<Schema>): (seq<Property>, seq<Schema>) {
    if fields == [] then ([], given)
    else if Private(fields[0].name) then FillFields(fields[1..], given)
    else
      var (schema, rest) := Fill(fields[0].ty, given);
      var (props, rest') := FillFields(fields[1..], rest);
      ([Property(fields[0].name, schema)] + props, rest')
  }

  function Assemble(ty: Ty, given: seq<Schema>): Schema {
    if ty.RecordTy? then RecordSchema(FillFields(ty.fields, given).0, RequiredNames(ty.kind, ty.fields))
    else Fill(ty, given).0
  }

  function CompileAll(tys: seq<Ty>): (r: seq<Schema>)
    ensures |r| == |tys|
    ensures forall i | 0 <= i < |tys| :: r[i] == Compile(tys[i])
  {
    seq(|tys|, i requires 0 <= i < |tys| => Compile(tys[i]))
  }

  lemma CompileAllConcat(a: seq<Ty>, b: seq<Ty>, more: seq<Schema>)
    ensures CompileAll(a + b) + more == CompileAll(a) + (CompileAll(b) + more)
  {
  }

  lemma CompileAllNone(more: seq<Schema>)
    ensures CompileAll([]) + more == more
  {
  }

  lemma {:induction false} FillCompiles(ty: Ty, more: seq<Schema>)
    ensures Fill(ty, CompileAll(Nested(ty)) + more) == (Compile(ty), more)
    decreases ty, 1
  {
    match ty
    case UnionTy(alts) => FillAltsCompiles(alts, more);
    case ListTy(item) => FillCompiles(item, more);
    case AnnotatedTy(inner) => FillCompiles(inner, more);
    case RecordTy(_, _, _) =>
      var given := CompileAll([ty]) + more;
      assert given[0] == Compile(ty) && given[1..] == more;
    case _ => assert CompileAll([]) + more == more;
  }

  lemma {:induction false} FillAltsCompiles(alts: seq<Ty>, more: seq<Schema>)
    ensures FillAlts(alts, CompileAll(NestedAlts(alts)) + more) == (CompileAlts(alts), more)
    decreases alts, 0
  {
    hide CompileAll, Compile;
    if alts == [] {
      CompileAllNone(more);
    } else {
      var a, b := Nested(alts[0]), NestedAlts(alts[1..]);
      CompileAllConcat(a, b, more);
      FillCompiles(alts[0], CompileAll(b) + more);
      FillAltsCompiles(alts[1..], more);
    }
  }

  lemma {:induction false} FillFieldsCompiles(fields: seq<FieldDef>, more: seq<Schema>)
    ensures FillFields(fields, CompileAll(NestedFields(fields)) + more) == (CompileFields(fields), more)
  {
    hide CompileAll, Compile, Fill, Nested;
    if fields == [] {
      CompileAllNone(more);
    } else {
      var f, b := fields[0], NestedFields(fields[1..]);
      FillFieldsCompiles(fields[1..], more);
      if Private(f.name) {
        assert NestedFields(fields) == b && CompileFields(fields) == CompileFields(fields[1..]);
      } else {
        CompileAllConcat(Nested(f.ty), b, more);
        FillCompiles(f.ty, CompileAll(b) + more);
      }
    }
  }

  // Putting together the schemas of the nested records gives the schema of the type.
  lemma AssembleCompiles(ty: Ty)
    ensures Assemble(ty, CompileAll(Children(ty))) == Compile(ty)
  {
    assert CompileAll(Children(ty)) + [] == CompileAll(Children(ty));
    if ty.RecordTy? {
      FillFieldsCompiles(ty.fields, []);
    } else {
      FillCompiles(ty, []);
    }
  }

  // ----- threads

  // A call under way: its type and the schemas of nested records computed so far.
  datatype Frame = Frame(ty: Ty, given: seq<Schema>)

  // Where a thread is.  `schema` is what the topmost call has computed.
  datatype Pc =
    | Idle
    | Lookup(ty: Ty)
    | Working
    | Locking(schema: Schema)
    | Testing(schema: Schema)
    | Evicting(schema: Schema)
    | Inserting(schema: Schema)
    | Unlocking(schema: Schema)
    | Returning(schema: Schema)
    | Finished(ty: Ty, schema: Schema)

  datatype Thread = Thread(stack: seq<Frame>, pc: Pc)

  datatype State = State(
    cache: seq<Cached<Ty, Schema>>, inserted: seq<Ty>, holder: Option<nat>, threads: seq<Thread>)

  predicate Enabled(s: State, t: nat) {
    t < |s.threads| && (s.threads[t].pc.Locking? ==> s.holder.None?)
  }

  function Top(stack: seq<Frame>): Frame {
    if stack == [] then Frame(AnyTy, []) else stack[|stack| - 1]
  }

  function Pop(stack: seq<Frame>): seq<Frame> {
    if stack == [] then [] else stack[..|stack| - 1]
  }

  // Hand the schema of `ty` to the calling frame, or finish.
  function Deliver(stack: seq<Frame>, ty: Ty, schema: Schema): Thread {
    if stack == [] then Thread([], Finished(ty, schema))
    else Thread(Pop(stack) + [Top(stack).(given := Top(stack).given + [schema])], Working)
  }

  function Goto(s: State, t: nat, th: Thread): State
    requires t < |s.threads|
  {
    s.(threads := s.threads[t := th])
  }

  // One step of thread t; an idle thread starts a call for the type `start`.
  function Step(s: State, t: nat, start: Ty): State
    requires Enabled(s, t)
  {
    var th := s.threads[t];
    var frame := Top(th.stack);
    match th.pc
    case Idle => Goto(s, t, Thread([], Lookup(start)))
    case Lookup(ty) =>
      var hit := if Cacheable(ty) then Get(s.cache, ty) else None;
      Goto(s, t, if hit.Some? then Deliver(th.stack, ty, hit.value) else Thread(th.stack + [Frame(ty, [])], Working))
    case Working =>
      if |frame.given| < |Children(frame.ty)| then
        Goto(s, t, th.(pc := Lookup(Children(frame.ty)[|frame.given|])))
      else
        var schema := Assemble(frame.ty, frame.given);
        Goto(s, t, th.(pc := if Cacheable(frame.ty) then Locking(schema) else Returning(schema)))
    case Locking(schema) => Goto(s, t, th.(pc := Testing(schema))).(holder := Some(t))
    case Testing(schema) =>
      Goto(s, t, th.(pc := if Get(s.cache, frame.ty).Some? then Unlocking(schema) else Evicting(schema)))
    case Evicting(schema) =>
      Goto(s, t, th.(pc := Inserting(schema))).(cache := Evict(s.cache, MAX_TYPE_SCHEMA_CACHE_SIZE))
    case Inserting(schema) =>
      Goto(s, t, th.(pc := Unlocking(schema))).(cache := Put(s.cache, frame.ty, schema), inserted := s.inserted + [frame.ty])
    case Unlocking(schema) => Goto(s, t, th.(pc := Returning(schema))).(holder := None)
    case Returning(schema) => Goto(s, t, Deliver(Pop(th.stack), frame.ty, schema))
    case Finished(_, _) => Goto(s, t, Thread([], Idle))
  }

  // ----- the invariant

  predicate Critical(pc: Pc) {
    pc.Testing? || pc.Evicting? || pc.Inserting? || pc.Unlocking?
  }

  predicate Computed(pc: Pc) {
    pc.Locking? || Critical(pc) || pc.Returning?
  }

  ghost predicate FrameOk(f: Frame) {
    f.given <= CompileAll(Children(f.ty))
  }

  // Each frame but the topmost waits for the next of its children.
  ghost predicate Awaits(f: Frame, ty: Ty) {
    |f.given| < |Children(f.ty)| && Children(f.ty)[|f.given|] == ty
  }

  ghost predicate StackOk(stack: seq<Frame>) {
    && (forall i | 0 <= i < |stack| :: FrameOk(stack[i]))
    && (forall i | 0 <= i < |stack| - 1 :: Awaits(stack[i], stack[i + 1].ty))
  }

  ghost predicate ThreadOk(s: State, t: nat)
    requires t < |s.threads|
  {
    var th := s.threads[t];
    var pc := th.pc;
    && StackOk(th.stack)
    && (Critical(pc) <==> s.holder == Some(t))
    && (pc.Idle? || pc.Finished? ==> th.stack == [])
    && (pc.Working? || Computed(pc) ==> th.stack != [])
    && (pc.Lookup? && th.stack != [] ==> Awaits(Top(th.stack), pc.ty))
    && (Computed(pc) ==> pc.schema == Compile(Top(th.stack).ty))
    && (pc.Evicting? || pc.Inserting? ==> Absent(s.cache, Top(th.stack).ty))
    && (pc.Inserting? ==> |s.cache| < MAX_TYPE_SCHEMA_CACHE_SIZE)
    && (pc.Unlocking? ==> !Absent(s.cache, Top(th.stack).ty))
    && (pc.Finished? ==> pc.schema == Compile(pc.ty))
  }

  ghost predicate Inv(s: State) {
    && ContentsOk(Uncached(), MAX_TYPE_SCHEMA_CACHE_SIZE, s.cache, s.inserted)
    && (s.holder.Some? ==> s.holder.value < |s.threads|)
    && forall t | 0 <= t < |s.threads| :: ThreadOk(s, t)
  }

  ghost predicate Init(s: State) {
    && s.cache == [] && s.inserted == [] && s.holder == None
    && forall t | 0 <= t < |s.threads| :: s.threads[t] == Thread([], Idle)
  }

  // ----- stacks

  lemma StackTop(stack: seq<Frame>)
    requires StackOk(stack) && stack != []
    ensures FrameOk(Top(stack)) && StackOk(Pop(stack))
    ensures Pop(stack) != [] ==> Awaits(Top(Pop(stack)), Top(stack).ty)
  {
    var n := |stack| - 1;
    assert stack[n] == Top(stack);
    assert forall i | 0 <= i < n :: Pop(stack)[i] == stack[i];
    if n > 0 {
      assert Awaits(stack[n - 1], stack[n - 1 + 1].ty);
    }
  }

  lemma PushOk(stack: seq<Frame>, ty: Ty)
    requires StackOk(stack) && (stack != [] ==> Awaits(Top(stack), ty))
    ensures StackOk(stack + [Frame(ty, [])])
  {
    var r := stack + [Frame(ty, [])];
    assert FrameOk(Frame(ty, []));
    forall i | 0 <= i < |r| - 1
      ensures Awaits(r[i], r[i + 1].ty)
    {
      assert r[i] == stack[i];
      if i < |stack| - 1 {
        assert r[i + 1] == stack[i + 1];
      }
    }
  }

  lemma DeliverOk(stack: seq<Frame>, ty: Ty)
    requires StackOk(stack) && (stack != [] ==> Awaits(Top(stack), ty))
    ensures StackOk(Deliver(stack, ty, Compile(ty)).stack)
  {
    if stack != [] {
      StackTop(stack);
      var top := Top(stack);
      var next := top.(given := top.given + [Compile(ty)]);
      assert FrameOk(next);
      var r := Pop(stack) + [next];
      forall i | 0 <= i < |r|
        ensures FrameOk(r[i])
      {
        assert i < |r| - 1 ==> r[i] == stack[i];
      }
      forall i | 0 <= i < |r| - 1
        ensures Awaits(r[i], r[i + 1].ty)
      {
        assert r[i] == stack[i] && r[i + 1].ty == stack[i + 1].ty;
      }
    }
  }

  // A call whose nested records are all done computes the right schema.
  lemma FullFrame(f: Frame)
    requires FrameOk(f) && |f.given| >= |Children(f.ty)|
    ensures Assemble(f.ty, f.given) == Compile(f.ty)
  {
    assert f.given == CompileAll(Children(f.ty));
    AssembleCompiles(f.ty);
  }

  // ----- preservation

  lemma StepContents(s: State, t: nat, start: Ty)
    requires Inv(s) && Enabled(s, t)
    ensures var s' := Step(s, t, start); ContentsOk(Uncached(), MAX_TYPE_SCHEMA_CACHE_SIZE, s'.cache, s'.inserted)
    ensures forall e | e in Step(s, t, start).cache && !s.threads[t].pc.Inserting? :: e in s.cache
  {
    hide ContentsOk, Put, Evict, Assemble, Children, StackOk;
    var th := s.threads[t];
    assert ThreadOk(s, t);
    match th.pc
    case Evicting(schema) => EvictKeeps(Uncached(), MAX_TYPE_SCHEMA_CACHE_SIZE, s.cache, s.inserted);
    case Inserting(schema) =>
      PutKeeps(Uncached(), MAX_TYPE_SCHEMA_CACHE_SIZE, s.cache, s.inserted, Top(th.stack).ty, schema);
    case _ =>
  }

  // Other threads are not disturbed: whoever holds the lock is the only one that changes the cache.
  lemma StepOthers(s: State, t: nat, start: Ty, u: nat)
    requires Inv(s) && Enabled(s, t) && u < |s.threads| && u != t
    ensures ThreadOk(Step(s, t, start), u)
  {
    hide StackOk, Assemble, Children, ContentsOk, Put, Compile;
    assert ThreadOk(s, t) && ThreadOk(s, u);
    assert Step(s, t, start).threads[u] == s.threads[u];
  }

  lemma StepMover(s: State, t: nat, start: Ty)
    requires Inv(s) && Enabled(s, t)
    ensures ThreadOk(Step(s, t, start), t)
  {
    hide StackOk, Assemble, Children, Put, Compile, FrameOk, Deliver;
    var th := s.threads[t];
    assert ThreadOk(s, t);
    match th.pc
    case Idle => EmptyStackOk();
    case Lookup(ty) => LookupMover(s, t, start);
    case Working =>
      StackTop(th.stack);
      WorkingMover(s, t, start);
    case Evicting(schema) => EvictKeeps(Uncached(), MAX_TYPE_SCHEMA_CACHE_SIZE, s.cache, s.inserted);
    case Inserting(schema) => PutAbsent(s.cache, Top(th.stack).ty, schema);
    case Returning(schema) =>
      StackTop(th.stack);
      DeliverOk(Pop(th.stack), Top(th.stack).ty);
      DeliverShape(Pop(th.stack), Top(th.stack).ty, schema);
    case Finished(_, _) => EmptyStackOk();
    case _ =>
  }

  lemma EmptyStackOk()
    ensures StackOk([])
  {
  }

  lemma DeliverShape(stack: seq<Frame>, ty: Ty, schema: Schema)
    ensures var th := Deliver(stack, ty, schema);
            if stack == [] then th == Thread([], Finished(ty, schema)) else th.pc == Working && th.stack != []
  {
  }

  lemma LookupMover(s: State, t: nat, start: Ty)
    requires Inv(s) && Enabled(s, t) && s.threads[t].pc.Lookup?
    ensures ThreadOk(Step(s, t, start), t)
  {
    hide StackOk, Assemble, Children, Put, Compile, FrameOk, Deliver, Awaits;
    var th := s.threads[t];
    var ty := th.pc.ty;
    assert ThreadOk(s, t);
    if Cacheable(ty) && Get(s.cache, ty).Some? {
      var schema := Get(s.cache, ty).value;
      assert Uncached()(ty) == Some(schema);
      DeliverOk(th.stack, ty);
      DeliverShape(th.stack, ty, schema);
    } else {
      PushOk(th.stack, ty);
    }
  }

  lemma WorkingMover(s: State, t: nat, start: Ty)
    requires Inv(s) && Enabled(s, t) && s.threads[t].pc.Working? && FrameOk(Top(s.threads[t].stack))
    ensures ThreadOk(Step(s, t, start), t)
  {
    hide StackOk, Assemble, Children, Put, Compile, FrameOk, Deliver;
    var frame := Top(s.threads[t].stack);
    assert ThreadOk(s, t);
    if |frame.given| >= |Children(frame.ty)| {
      FullFrame(frame);
    }
  }

  lemma StepInv(s: State, t: nat, start: Ty)
    requires Inv(s) && Enabled(s, t)
    ensures Inv(Step(s, t, start))
  {
    hide ThreadOk, ContentsOk, Deliver, Assemble, Children, Put;
    var s' := Step(s, t, start);
    StepContents(s, t, start);
    forall u | 0 <= u < |s'.threads|
      ensures ThreadOk(s', u)
    {
      if u == t {
        StepMover(s, t, start);
      } else {
        StepOthers(s, t, start, u);
      }
    }
  }

  // ----- runs

  datatype Move = Move(thread: nat, start: Ty)

  ghost predicate Moved(s: State, s': State, m: Move) {
    Enabled(s, m.thread) && s' == Step(s, m.thread, m.start)
  }

  ghost predicate Run(states: seq<State>, moves: seq<Move>) {
    && |states| == |moves| + 1
    && Init(states[0])
    && forall i | 0 <= i < |moves| :: Moved(states[i], states[i + 1], moves[i])
  }

  // In every state of every run the cache is bounded and every entry is what compiling its type
  // without a cache gives.
  lemma {:induction false} RunInv(states: seq<State>, moves: seq<Move>, i: nat)
    requires Run(states, moves) && i < |states|
    ensures Inv(states[i])
    decreases i
  {
    hide Step, Inv;
    if i == 0 {
      InitInv(states[0]);
    } else {
      RunInv(states, moves, i - 1);
      assert Moved(states[i - 1], states[i], moves[i - 1]);
      StepInv(states[i - 1], moves[i - 1].thread, moves[i - 1].start);
    }
  }

  lemma InitInv(s: State)
    requires Init(s)
    ensures Inv(s)
  {
    EmptyStackOk();
  }

  // Main result: whatever the interleaving, a call returns the schema that the uncached extraction
  // gives, and the cache never holds more than its maximum, namely the latest insertions in order.
  lemma EveryCallIsUncached(states: seq<State>, moves: seq<Move>, i: nat, t: nat)
    requires Run(states, moves) && i < |states| && t < |states[i].threads|
    ensures states[i].threads[t].pc.Finished? ==> states[i].threads[t].pc.schema == Compile(states[i].threads[t].pc.ty)
    ensures |states[i].cache| <= 2048
    ensures forall e | e in states[i].cache :: e.value == Compile(e.key)
    ensures var c, n := states[i].cache, |states[i].inserted|; |c| <= n && Keys(c) == states[i].inserted[n - |c|..]
  {
    RunInv(states, moves, i);
    assert ThreadOk(states[i], t);
    assert forall e | e in states[i].cache :: Uncached()(e.key) == Some(e.value);
  }

  // Main result: a record whose schema is about to be returned after it has been computed was in the
  // cache, with that schema, at some instant since.
  lemma {:induction false} ComputedWasCached(states: seq<State>, moves: seq<Move>, t: nat, j: nat) returns (i: nat)
    requires Run(states, moves) && j < |states| && t < |states[j].threads|
    requires states[j].threads[t].pc.Returning? && Top(states[j].threads[t].stack).ty.RecordTy?
    ensures i < j && t < |states[i].threads|
    ensures states[i].threads[t].pc.Unlocking? && states[i].threads[t].stack == states[j].threads[t].stack
    ensures forall k | i < k <= j :: t < |states[k].threads| && states[k].threads[t] == states[j].threads[t]
    ensures Cached(Top(states[j].threads[t].stack).ty, states[j].threads[t].pc.schema) in states[i].cache
    decreases j
  {
    hide StackOk, Compile, Assemble, Children;
    assert Moved(states[j - 1], states[j], moves[j - 1]);
    RunInv(states, moves, j - 1);
    if moves[j - 1].thread == t {
      i := j - 1;
      assert ThreadOk(states[i], t);
      var e :| e in states[i].cache && e.key == Top(states[i].threads[t].stack).ty;
      assert Uncached()(e.key) == Some(e.value);
    } else {
      i := ComputedWasCached(states, moves, t, j - 1);
    }
  }

  // Main result: no thread waits for a lock it holds, and as long as some call is under way some
  // call can take a step.
  lemma NoDeadlock(states: seq<State>, moves: seq<Move>, i: nat, t: nat) returns (u: nat)
    requires Run(states, moves) && i < |states| && t < |states[i].threads| && !states[i].threads[t].pc.Idle?
    ensures states[i].threads[t].pc.Locking? ==> states[i].holder != Some(t)
    ensures Enabled(states[i], u) && !states[i].threads[u].pc.Idle?
  {
    hide StackOk, ContentsOk, Compile;
    RunInv(states, moves, i);
    assert ThreadOk(states[i], t);
    if states[i].holder.Some? {
      u := states[i].holder.value;
      assert ThreadOk(states[i], u);
    } else {
      u := t;
    }
  }
}
