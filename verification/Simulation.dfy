/**
 * The rewritten program simulates the original one, and the hooks it calls are
 * a function of the original run.
 */
module Simulation {
  import opened Text
  import opened Bytecode
  import opened Instrumenter

  // ----- the hooks that the original run determines -----

  /** The hook called in front of an instruction; none if the operands cannot be moved aside. */
  function HooksBefore(rules: ProjectRules, insn: Insn, stack: seq<Value>): seq<Hook> {
    var n := |stack|;
    match insn
    case Jump(op, _) => if op.Goto? then [] else [NoteDirectUse(OpcodeName(op))]
    case TableSwitch(_, _, _, _) => [NoteDirectUse("TABLESWITCH")]
    case LookupSwitch(_, _, _) => [NoteDirectUse("LOOKUPSWITCH")]
    case Invoke(_, owner, name, desc) =>
      if IsObservedCall(rules, owner, name) then [BeforeMethodCall(DotName(owner), name, desc)] else []
    case GetField(owner, name, _) =>
      if n >= 1 && Top(stack).Size() == 1 then [BeforeFieldRead(Top(stack), DotName(owner), name)] else []
    case GetStatic(owner, name, _) => [BeforeStaticFieldRead(DotName(owner), name)]
    case PutField(owner, name, desc) =>
      if n >= 2 && Top(stack).Kind() == KindOf(desc) && stack[n - 2].Kind() == RefK
      then [BeforeFieldStore(stack[n - 2], DotName(owner), name)] else []
    case PutStatic(owner, name, desc) =>
      if n >= 1 && Top(stack).Kind() == KindOf(desc) then [BeforeStaticFieldStore(DotName(owner), name)] else []
    case Return(_) => [ExitMethod]
    case AThrow => [ExitMethod]
    case _ => []
  }

  function HooksAfter(insn: Insn): seq<Hook> {
    match insn
    case Store(_, slot) => [AfterLocalStore(slot)]
    case Load(_, slot) => [AfterLocalLoad(slot)]
    case _ => []
  }

  /** The hook that announces a rewritten method. */
  function HooksAtEntry(rules: ProjectRules, prog: Program, id: MethodId): seq<Hook> {
    if id in prog && IsRewritten(rules, prog[id]) then [EnterMethod(DotName(id.owner), id.name, id.desc)] else []
  }

  predicate AtInsn(prog: Program, c: Config) {
    && c.frames != []
    && var f := c.frames[|c.frames| - 1];
       f.id in prog && f.pc < |prog[f.id].code.insns|
  }

  function InsnAt(prog: Program, c: Config): Insn
    requires AtInsn(prog, c)
  {
    var f := c.frames[|c.frames| - 1];
    prog[f.id].code.insns[f.pc]
  }

  function LeadHooks(rules: ProjectRules, m: Method, insn: Insn, stack: seq<Value>): seq<Hook> {
    if IsRewritten(rules, m) then HooksBefore(rules, insn, stack) else []
  }

  /** The hooks from the instruction on: those of the code it runs, and the inserted ones. */
  function RestHooks(rules: ProjectRules, prog: Program, m: Method, insn: Insn, e: Effect): seq<Hook> {
    match e
    case Fall(_, _, _, hooks) => hooks + if IsRewritten(rules, m) then HooksAfter(insn) else []
    case CallTo(id, args, _) => if CanEnter(prog, id, args) then HooksAtEntry(rules, prog, id) else []
    case _ => []
  }

  /** All hooks that the rewritten program calls while the original takes one step. */
  function StepHooks(sem: Semantics, rules: ProjectRules, prog: Program, c: Config): seq<Hook> {
    if !AtInsn(prog, c) then []
    else
      var f := c.frames[|c.frames| - 1];
      var m, insn := prog[f.id], InsnAt(prog, c);
      LeadHooks(rules, m, insn, f.stack) +
      RestHooks(rules, prog, m, insn, EffectOf(sem, insn, f.stack, f.locals, c.heap))
  }

  function HooksOfStep(sem: Semantics, rules: ProjectRules, prog: Program): Config -> seq<Hook> {
    c => StepHooks(sem, rules, prog, c)
  }

  function HooksAt(hooks: Config -> seq<Hook>, c: Config): seq<Hook> {
    hooks(c)
  }

  /** The hooks of a run, step by step. */
  function RunHooks(step: Config -> Outcome, hooks: Config -> seq<Hook>, o: Outcome, n: nat): seq<Hook>
    decreases n
  {
    if n == 0 || !o.Running? then [] else HooksAt(hooks, o.c) + RunHooks(step, hooks, Take(step, o.c), n - 1)
  }

  // ----- the simulation relation -----

  /** `after` holds the same original variables; anything else it holds lies above them. */
  ghost predicate SameLocals(before: map<nat, Value>, after: map<nat, Value>, maxLocals: nat) {
    && (forall n | n in before :: n + before[n].Size() <= maxLocals)
    && (forall n | n < maxLocals :: n in before <==> n in after)
    && (forall n | n in before && n in after :: before[n] == after[n])
  }

  ghost predicate SameFrame(rules: ProjectRules, prog: Program, before: Frame, after: Frame) {
    && before.id in prog && after.id == before.id
    && before.pc <= |prog[before.id].code.insns|
    && after.pc == Position(rules, prog[before.id], before.pc)
    && after.stack == before.stack
    && SameLocals(before.locals, after.locals, prog[before.id].maxLocals)
  }

  ghost predicate SameFrames(rules: ProjectRules, prog: Program, before: seq<Frame>, after: seq<Frame>) {
    |before| == |after| && forall i | 0 <= i < |before| :: SameFrame(rules, prog, before[i], after[i])
  }

  /** Same frames up to inserted code and fresh variables, same operand stacks, same heap. */
  ghost predicate SameState(rules: ProjectRules, prog: Program, before: Outcome, after: Outcome) {
    match before
    case Running(c) => after.Running? && SameFrames(rules, prog, c.frames, after.c.frames) && after.c.heap == c.heap
    case Halted(value, heap, _) => after.Halted? && after.value == value && after.heap == heap
    case Faulted(heap, _) => after.Faulted? && after.heap == heap
  }

  function TraceOf(o: Outcome): seq<Hook> {
    match o
    case Running(c) => c.trace
    case Halted(_, _, trace) => trace
    case Faulted(_, trace) => trace
  }

  // ----- straight-line code -----

  /** The local effect of a block that neither jumps nor calls. */
  datatype BlockState =
    | Ok(stack: seq<Value>, locals: map<nat, Value>, hooks: seq<Hook>)
    | Stuck(stuckHooks: seq<Hook>)

  predicate IsPlain(insn: Insn) {
    insn.Ldc? || insn.Dup? || insn.Load? || insn.Store? || insn.Probe?
  }

  predicate AllPlain(insns: seq<Insn>) {
    forall i | 0 <= i < |insns| :: IsPlain(insns[i])
  }

  function PlainStep(sem: Semantics, insn: Insn, s: BlockState, heap: Heap): BlockState {
    if s.Stuck? then s
    else match EffectOf(sem, insn, s.stack, s.locals, heap)
      case Fall(stack, locals, _, hooks) => Ok(stack, locals, s.hooks + hooks)
      case _ => Stuck(s.hooks)
  }

  function PlainRun(sem: Semantics, insns: seq<Insn>, s: BlockState, heap: Heap): BlockState {
    if insns == [] then s else PlainRun(sem, insns[1..], PlainStep(sem, insns[0], s, heap), heap)
  }

  /** The machine state that a block state stands for, under the given callers. */
  function AsOutcome(callers: seq<Frame>, id: MethodId, pc: nat, heap: Heap, trace: seq<Hook>, s: BlockState): Outcome {
    match s
    case Ok(stack, locals, hooks) => Running(Config(callers + [Frame(id, pc, stack, locals)], heap, trace + hooks))
    case Stuck(hooks) => Faulted(heap, trace + hooks)
  }

  lemma Associative(a: seq<Hook>, b: seq<Hook>, c: seq<Hook>)
    ensures a + b + c == a + (b + c)
  {
  }

  lemma PlainEffect(sem: Semantics, insn: Insn, stack: seq<Value>, locals: map<nat, Value>, heap: Heap)
    requires IsPlain(insn)
    ensures var e := EffectOf(sem, insn, stack, locals, heap);
            (e.Fall? && e.heap == heap) || e.Raise?
  {
  }

  lemma PlainStepRuns(sem: Semantics, prog: Program, callers: seq<Frame>, id: MethodId, pc: nat,
                      heap: Heap, trace: seq<Hook>, s: BlockState)
    requires id in prog && pc < |prog[id].code.insns| && IsPlain(prog[id].code.insns[pc]) && s.Ok?
    ensures Take(Machine(sem, prog), AsOutcome(callers, id, pc, heap, trace, s).c) ==
            AsOutcome(callers, id, pc + 1, heap, trace, PlainStep(sem, prog[id].code.insns[pc], s, heap))
  {
    hide EffectOf;
    var c := AsOutcome(callers, id, pc, heap, trace, s).c;
    var insn := prog[id].code.insns[pc];
    assert c.frames[..|c.frames| - 1] == callers;
    PlainEffect(sem, insn, s.stack, s.locals, heap);
    var e := EffectOf(sem, insn, s.stack, s.locals, heap);
    if e.Fall? {
      Associative(trace, s.hooks, e.hooks);
    }
  }

  lemma {:induction false} RunPlain(sem: Semantics, prog: Program, callers: seq<Frame>, id: MethodId, pc: nat,
                                    heap: Heap, trace: seq<Hook>, block: seq<Insn>, s: BlockState)
    requires id in prog && AllPlain(block)
    requires pc + |block| <= |prog[id].code.insns| && prog[id].code.insns[pc..pc + |block|] == block
    ensures Run(Machine(sem, prog), AsOutcome(callers, id, pc, heap, trace, s), |block|) ==
            AsOutcome(callers, id, pc + |block|, heap, trace, PlainRun(sem, block, s, heap))
    decreases |block|
  {
    hide PlainStep; hide Step;
    if block == [] || s.Stuck? {
      StuckStays(sem, block, s, heap);
    } else {
      var insns := prog[id].code.insns;
      assert insns[pc] == insns[pc..pc + |block|][0] == block[0];
      assert insns[pc + 1..pc + 1 + |block[1..]|] == insns[pc..pc + |block|][1..];
      PlainStepRuns(sem, prog, callers, id, pc, heap, trace, s);
      RunPlain(sem, prog, callers, id, pc + 1, heap, trace, block[1..], PlainStep(sem, block[0], s, heap));
    }
  }

  lemma {:induction false} StuckStays(sem: Semantics, block: seq<Insn>, s: BlockState, heap: Heap)
    requires block == [] || s.Stuck?
    ensures PlainRun(sem, block, s, heap) == s
    decreases |block|
  {
    if block != [] {
      StuckStays(sem, block[1..], PlainStep(sem, block[0], s, heap), heap);
    }
  }

  lemma {:induction false} PlainRunAppend(sem: Semantics, a: seq<Insn>, b: seq<Insn>, s: BlockState, heap: Heap)
    ensures PlainRun(sem, a + b, s, heap) == PlainRun(sem, b, PlainRun(sem, a, s, heap), heap)
  {
    if a == [] {
      assert a + b == b;
    } else {
      assert (a + b)[1..] == a[1..] + b;
      PlainRunAppend(sem, a[1..], b, PlainStep(sem, a[0], s, heap), heap);
    }
  }

  lemma PlainRun1(sem: Semantics, a: Insn, s: BlockState, heap: Heap)
    ensures PlainRun(sem, [a], s, heap) == PlainStep(sem, a, s, heap)
  {
    assert [a][1..] == [];
  }

  lemma PlainRun2(sem: Semantics, a: Insn, b: Insn, s: BlockState, heap: Heap)
    ensures PlainRun(sem, [a, b], s, heap) == PlainStep(sem, b, PlainStep(sem, a, s, heap), heap)
  {
    assert [a, b][1..] == [b];
    PlainRun1(sem, b, PlainStep(sem, a, s, heap), heap);
  }

  lemma PlainRun3(sem: Semantics, a: Insn, b: Insn, c: Insn, s: BlockState, heap: Heap)
    ensures PlainRun(sem, [a, b, c], s, heap) ==
            PlainStep(sem, c, PlainStep(sem, b, PlainStep(sem, a, s, heap), heap), heap)
  {
    assert [a, b, c][1..] == [b, c];
    PlainRun2(sem, b, c, PlainStep(sem, a, s, heap), heap);
  }

  lemma LdcStep(sem: Semantics, v: Value, s: BlockState, heap: Heap)
    requires s.Ok?
    ensures PlainStep(sem, Ldc(v), s, heap) == s.(stack := Push(s.stack, v))
  {
    assert s.hooks + [] == s.hooks;
  }

  lemma StoreStep(sem: Semantics, kind: Kind, slot: nat, s: BlockState, heap: Heap)
    requires s.Ok?
    ensures PlainStep(sem, Store(kind, slot), s, heap) ==
            if s.stack != [] && Top(s.stack).Kind() == kind
            then s.(stack := Pop(s.stack, 1), locals := StoreLocal(s.locals, slot, Top(s.stack))) else Stuck(s.hooks)
  {
    assert s.hooks + [] == s.hooks;
  }

  lemma LoadStep(sem: Semantics, kind: Kind, slot: nat, s: BlockState, heap: Heap)
    requires s.Ok?
    ensures PlainStep(sem, Load(kind, slot), s, heap) ==
            if slot in s.locals && s.locals[slot].Kind() == kind
            then s.(stack := Push(s.stack, s.locals[slot])) else Stuck(s.hooks)
  {
    assert s.hooks + [] == s.hooks;
  }

  lemma ProbeStep(sem: Semantics, p: ProbeMethod, s: BlockState, args: seq<Value>, heap: Heap)
    requires s.Ok? && |args| == p.Arity() <= |s.stack| && s.stack[|s.stack| - p.Arity()..] == args && p.Call(args).Some?
    ensures PlainStep(sem, Probe(p), s, heap) ==
            s.(stack := Pop(s.stack, p.Arity()), hooks := s.hooks + [p.Call(args).value])
  {
  }

  lemma ExitProbe(sem: Semantics, s: BlockState, heap: Heap)
    requires s.Ok?
    ensures PlainRun(sem, [Probe(ExitMethodP)], s, heap) == s.(hooks := s.hooks + [ExitMethod])
  {
    hide PlainStep;
    PlainRun1(sem, Probe(ExitMethodP), s, heap);
    assert s.stack[|s.stack|..] == [] && Pop(s.stack, 0) == s.stack;
    ProbeStep(sem, ExitMethodP, s, [], heap);
  }

  /** Pushing one string and calling a probe of one argument. */
  lemma TextProbe1(sem: Semantics, a: string, p: ProbeMethod, s: BlockState, heap: Heap)
    requires s.Ok? && p == NoteDirectUseP
    ensures PlainRun(sem, [LdcText(a), Probe(p)], s, heap) == s.(hooks := s.hooks + [NoteDirectUse(a)])
  {
    ValueProbe(sem, StrV(a), p, s, heap);
  }

  lemma SlotProbe(sem: Semantics, slot: nat, p: ProbeMethod, s: BlockState, heap: Heap)
    requires s.Ok? && (p == AfterLocalStoreP || p == AfterLocalLoadP)
    ensures PlainRun(sem, [Ldc(IntV(slot)), Probe(p)], s, heap) ==
            s.(hooks := s.hooks + [if p == AfterLocalStoreP then AfterLocalStore(slot) else AfterLocalLoad(slot)])
  {
    ValueProbe(sem, IntV(slot), p, s, heap);
  }

  lemma ValueProbe(sem: Semantics, v: Value, p: ProbeMethod, s: BlockState, heap: Heap)
    requires s.Ok? && p.Arity() == 1 && p.Call([v]).Some?
    ensures PlainRun(sem, [Ldc(v), Probe(p)], s, heap) == s.(hooks := s.hooks + [p.Call([v]).value])
  {
    hide EffectOf, PlainStep, PlainRun;
    var s1 := s.(stack := Push(s.stack, v));
    PlainRun2(sem, Ldc(v), Probe(p), s, heap);
    LdcStep(sem, v, s, heap);
    assert s1.stack[|s.stack|..] == [v];
    ProbeStep(sem, p, s1, [v], heap);
    assert Pop(s1.stack, 1) == s.stack;
  }

  lemma TextProbe2(sem: Semantics, a: string, b: string, p: ProbeMethod, s: BlockState, heap: Heap)
    requires s.Ok? && (p == BeforeStaticFieldReadP || p == BeforeStaticFieldStoreP)
    ensures PlainRun(sem, [LdcText(a), LdcText(b), Probe(p)], s, heap) ==
            s.(hooks := s.hooks + [if p == BeforeStaticFieldReadP then BeforeStaticFieldRead(a, b)
                                   else BeforeStaticFieldStore(a, b)])
  {
    hide EffectOf, PlainStep, PlainRun;
    var args := [StrV(a), StrV(b)];
    var s1 := s.(stack := Push(s.stack, StrV(a)));
    var s2 := s.(stack := Push(s1.stack, StrV(b)));
    PlainRun3(sem, LdcText(a), LdcText(b), Probe(p), s, heap);
    LdcStep(sem, StrV(a), s, heap);
    LdcStep(sem, StrV(b), s1, heap);
    assert s2.stack[|s.stack|..] == args;
    ProbeStep(sem, p, s2, args, heap);
    assert Pop(s2.stack, 2) == s.stack;
  }

  lemma TextProbe3(sem: Semantics, a: string, b: string, c: string, p: ProbeMethod, s: BlockState, heap: Heap)
    requires s.Ok? && (p == EnterMethodP || p == BeforeMethodCallP)
    ensures PlainRun(sem, [LdcText(a), LdcText(b), LdcText(c), Probe(p)], s, heap) ==
            s.(hooks := s.hooks + [if p == EnterMethodP then EnterMethod(a, b, c) else BeforeMethodCall(a, b, c)])
  {
    hide EffectOf, PlainStep, PlainRun;
    var args := [StrV(a), StrV(b), StrV(c)];
    var s1 := s.(stack := Push(s.stack, StrV(a)));
    var s2 := s.(stack := Push(s1.stack, StrV(b)));
    var s3 := s.(stack := Push(s2.stack, StrV(c)));
    PlainRunAppend(sem, [LdcText(a)], [LdcText(b), LdcText(c), Probe(p)], s, heap);
    assert [LdcText(a)] + [LdcText(b), LdcText(c), Probe(p)] == [LdcText(a), LdcText(b), LdcText(c), Probe(p)];
    PlainRun1(sem, LdcText(a), s, heap);
    PlainRun3(sem, LdcText(b), LdcText(c), Probe(p), s1, heap);
    LdcStep(sem, StrV(a), s, heap);
    LdcStep(sem, StrV(b), s1, heap);
    LdcStep(sem, StrV(c), s2, heap);
    assert s3.stack[|s.stack|..] == args;
    ProbeStep(sem, p, s3, args, heap);
    assert Pop(s3.stack, 3) == s.stack;
  }

  /** With the object on top, pushing two strings and calling a probe consumes the object. */
  lemma ObjectProbe(sem: Semantics, a: string, b: string, p: ProbeMethod, s: BlockState, heap: Heap)
    requires s.Ok? && s.stack != [] && (p == BeforeFieldReadP || p == BeforeFieldStoreP)
    ensures PlainRun(sem, [LdcText(a), LdcText(b), Probe(p)], s, heap) ==
            Ok(Pop(s.stack, 1), s.locals,
               s.hooks + [if p == BeforeFieldReadP then BeforeFieldRead(Top(s.stack), a, b)
                          else BeforeFieldStore(Top(s.stack), a, b)])
  {
    hide EffectOf, PlainStep, PlainRun;
    var args := [Top(s.stack), StrV(a), StrV(b)];
    var s1 := s.(stack := Push(s.stack, StrV(a)));
    var s2 := s.(stack := Push(s1.stack, StrV(b)));
    PlainRun3(sem, LdcText(a), LdcText(b), Probe(p), s, heap);
    LdcStep(sem, StrV(a), s, heap);
    LdcStep(sem, StrV(b), s1, heap);
    assert s2.stack[|s2.stack| - 3..] == args;
    ProbeStep(sem, p, s2, args, heap);
    assert Pop(s2.stack, 3) == Pop(s.stack, 1);
  }

  /** A store above the original variables leaves them alone. */
  lemma FreshStore(before: map<nat, Value>, after: map<nat, Value>, maxLocals: nat, slot: nat, v: Value)
    requires SameLocals(before, after, maxLocals) && slot >= maxLocals
    ensures SameLocals(before, StoreLocal(after, slot, v), maxLocals)
    ensures slot in StoreLocal(after, slot, v) && StoreLocal(after, slot, v)[slot] == v
  {
    var r := StoreLocal(after, slot, v);
    forall n | n < maxLocals ensures n in after <==> n in r {
    }
    forall n | n in before && n in r ensures before[n] == r[n] {
      assert n < maxLocals;
    }
  }

  /** What the code in front of an instruction achieves: nothing but its hook. */
  ghost predicate Harmless(sem: Semantics, rules: ProjectRules, insn: Insn, stack: seq<Value>,
                           before: map<nat, Value>, maxLocals: nat, heap: Heap, r: BlockState) {
    match r
    case Ok(stack', locals', hooks) =>
      stack' == stack && hooks == HooksBefore(rules, insn, stack) && SameLocals(before, locals', maxLocals)
    case Stuck(hooks) =>
      hooks == HooksBefore(rules, insn, stack) && EffectOf(sem, insn, stack, before, heap).Raise?
  }

  lemma GetFieldHarmless(sem: Semantics, rules: ProjectRules, insn: Insn, next: nat, stack: seq<Value>,
                         before: map<nat, Value>, after: map<nat, Value>, maxLocals: nat, heap: Heap)
    requires insn.GetField? && SameLocals(before, after, maxLocals)
    ensures Harmless(sem, rules, insn, stack, before, maxLocals, heap,
                     PlainRun(sem, Before(rules, insn, next), Ok(stack, after, []), heap))
  {
    var s := Ok(stack, after, []);
    var probe := [LdcText(DotName(insn.owner)), LdcText(insn.name), Probe(BeforeFieldReadP)];
    assert Before(rules, insn, next)[1..] == probe;
    if stack != [] && Top(stack).Size() == 1 {
      ObjectProbe(sem, DotName(insn.owner), insn.name, BeforeFieldReadP, PlainStep(sem, Dup, s, heap), heap);
      assert Pop(Push(stack, Top(stack)), 1) == stack;
    } else {
      StuckStays(sem, probe, PlainStep(sem, Dup, s, heap), heap);
    }
  }

  lemma PutStaticRun(sem: Semantics, kind: Kind, owner: string, name: string, next: nat, stack: seq<Value>,
                     after: map<nat, Value>, heap: Heap) returns (r: BlockState)
    ensures r == PlainRun(sem, [Store(kind, next)] +
                               ([LdcText(owner), LdcText(name), Probe(BeforeStaticFieldStoreP)] + [Load(kind, next)]),
                          Ok(stack, after, []), heap)
    ensures r == if stack != [] && Top(stack).Kind() == kind
                 then Ok(stack, StoreLocal(after, next, Top(stack)), [BeforeStaticFieldStore(owner, name)])
                 else Stuck([])
  {
    hide EffectOf, PlainStep, PlainRun, StoreLocal;
    var s := Ok(stack, after, []);
    var s1 := PlainStep(sem, Store(kind, next), s, heap);
    var probe := [LdcText(owner), LdcText(name), Probe(BeforeStaticFieldStoreP)];
    r := PlainRun(sem, [Store(kind, next)] + (probe + [Load(kind, next)]), s, heap);
    PlainRunAppend(sem, [Store(kind, next)], probe + [Load(kind, next)], s, heap);
    PlainRun1(sem, Store(kind, next), s, heap);
    PlainRunAppend(sem, probe, [Load(kind, next)], s1, heap);
    StoreStep(sem, kind, next, s, heap);
    if stack != [] && Top(stack).Kind() == kind {
      StoredIsThere(after, next, Top(stack));
      TextProbe2(sem, owner, name, BeforeStaticFieldStoreP, s1, heap);
      var s2 := s1.(hooks := s1.hooks + [BeforeStaticFieldStore(owner, name)]);
      PlainRun1(sem, Load(kind, next), s2, heap);
      LoadStep(sem, kind, next, s2, heap);
      assert Push(Pop(stack, 1), Top(stack)) == stack;
    } else {
      StuckStays(sem, probe, s1, heap);
      StuckStays(sem, [Load(kind, next)], s1, heap);
    }
  }

  lemma PutStaticHarmless(sem: Semantics, rules: ProjectRules, insn: Insn, next: nat, stack: seq<Value>,
                          before: map<nat, Value>, after: map<nat, Value>, maxLocals: nat, heap: Heap)
    requires insn.PutStatic? && SameLocals(before, after, maxLocals) && next >= maxLocals
    ensures Harmless(sem, rules, insn, stack, before, maxLocals, heap,
                     PlainRun(sem, Before(rules, insn, next), Ok(stack, after, []), heap))
  {
    hide PlainStep, PlainRun, StoreLocal;
    var kind := KindOf(insn.desc);
    var r := PutStaticRun(sem, kind, DotName(insn.owner), insn.name, next, stack, after, heap);
    assert Before(rules, insn, next) ==
           [Store(kind, next)] +
           ([LdcText(DotName(insn.owner)), LdcText(insn.name), Probe(BeforeStaticFieldStoreP)] + [Load(kind, next)]);
    if stack != [] && Top(stack).Kind() == kind {
      FreshStore(before, after, maxLocals, next, Top(stack));
    }
  }

  /** Storing a value and its owner into fresh variables and loading the owner again. */
  lemma MoveAside(sem: Semantics, kind: Kind, next: nat, stack: seq<Value>,
                  before: map<nat, Value>, after: map<nat, Value>, maxLocals: nat, heap: Heap) returns (s1: BlockState)
    requires SameLocals(before, after, maxLocals) && next >= maxLocals
    ensures s1 == PlainRun(sem, [Store(kind, next), Store(RefK, next + kind.Size()), Load(RefK, next + kind.Size())],
                           Ok(stack, after, []), heap)
    ensures |stack| >= 2 && Top(stack).Kind() == kind && stack[|stack| - 2].Kind() == RefK ==>
              && s1.Ok? && s1.hooks == [] && s1.stack == Push(Pop(stack, 2), stack[|stack| - 2])
              && SameLocals(before, s1.locals, maxLocals)
              && next in s1.locals && s1.locals[next] == Top(stack)
              && next + kind.Size() in s1.locals && s1.locals[next + kind.Size()] == stack[|stack| - 2]
    ensures !(|stack| >= 2 && Top(stack).Kind() == kind && stack[|stack| - 2].Kind() == RefK) ==> s1 == Stuck([])
  {
    hide EffectOf, PlainStep, PlainRun, StoreLocal;
    var own := next + kind.Size();
    var s := Ok(stack, after, []);
    PlainRun3(sem, Store(kind, next), Store(RefK, own), Load(RefK, own), s, heap);
    s1 := PlainRun(sem, [Store(kind, next), Store(RefK, own), Load(RefK, own)], s, heap);
    StoreStep(sem, kind, next, s, heap);
    var t := PlainStep(sem, Store(kind, next), s, heap);
    if stack == [] || Top(stack).Kind() != kind {
      StaysStuck(sem, Store(RefK, own), t, heap);
      StaysStuck(sem, Load(RefK, own), t, heap);
    } else {
      StoreStep(sem, RefK, own, t, heap);
      var u := PlainStep(sem, Store(RefK, own), t, heap);
      if u.Stuck? {
        StaysStuck(sem, Load(RefK, own), u, heap);
      } else {
        LoadStep(sem, RefK, own, u, heap);
        FreshStore(before, after, maxLocals, next, Top(stack));
        FreshStore(before, t.locals, maxLocals, own, stack[|stack| - 2]);
        StoredApart(t.locals, next, own, Top(stack), stack[|stack| - 2]);
        PopTwice(stack);
      }
    }
  }

  lemma StoredIsThere(locals: map<nat, Value>, slot: nat, v: Value)
    ensures slot in StoreLocal(locals, slot, v) && StoreLocal(locals, slot, v)[slot] == v
  {
  }

  lemma StaysStuck(sem: Semantics, insn: Insn, s: BlockState, heap: Heap)
    requires s.Stuck?
    ensures PlainStep(sem, insn, s, heap) == s
  {
  }

  /** A one-slot value stored behind a value does not disturb it. */
  lemma StoredApart(locals: map<nat, Value>, next: nat, own: nat, v: Value, r: Value)
    requires next in locals && locals[next] == v && own == next + v.Kind().Size() && r.Kind() == RefK
    ensures next in StoreLocal(locals, own, r) && StoreLocal(locals, own, r)[next] == v
  {
  }

  lemma PopTwice(stack: seq<Value>)
    requires |stack| >= 2
    ensures Pop(Pop(stack, 1), 1) == Pop(stack, 2)
  {
  }

  lemma MoveBack(sem: Semantics, kind: Kind, own: nat, next: nat, s: BlockState, stack: seq<Value>, heap: Heap)
    requires |stack| >= 2 && s.Ok? && s.stack == Pop(stack, 2)
    requires Top(stack).Kind() == kind && stack[|stack| - 2].Kind() == RefK
    requires next in s.locals && s.locals[next] == Top(stack)
    requires own in s.locals && s.locals[own] == stack[|stack| - 2]
    ensures PlainRun(sem, [Load(RefK, own), Load(kind, next)], s, heap) == s.(stack := stack)
  {
    hide EffectOf, PlainStep, PlainRun;
    PlainRun2(sem, Load(RefK, own), Load(kind, next), s, heap);
    LoadStep(sem, RefK, own, s, heap);
    LoadStep(sem, kind, next, s.(stack := Push(s.stack, stack[|stack| - 2])), heap);
    assert Push(Push(Pop(stack, 2), stack[|stack| - 2]), Top(stack)) == stack;
  }

  lemma PutFieldRun(sem: Semantics, kind: Kind, owner: string, name: string, next: nat, stack: seq<Value>,
                    before: map<nat, Value>, after: map<nat, Value>, maxLocals: nat, heap: Heap)
    returns (s3: BlockState)
    requires SameLocals(before, after, maxLocals) && next >= maxLocals
    ensures var own := next + kind.Size();
            var first := [Store(kind, next), Store(RefK, own), Load(RefK, own)];
            var probe := [LdcText(owner), LdcText(name), Probe(BeforeFieldStoreP)];
            s3 == PlainRun(sem, first + (probe + [Load(RefK, own), Load(kind, next)]), Ok(stack, after, []), heap)
    ensures |stack| >= 2 && Top(stack).Kind() == kind && stack[|stack| - 2].Kind() == RefK ==>
              && s3.Ok? && s3.stack == stack && SameLocals(before, s3.locals, maxLocals)
              && s3.hooks == [BeforeFieldStore(stack[|stack| - 2], owner, name)]
    ensures !(|stack| >= 2 && Top(stack).Kind() == kind && stack[|stack| - 2].Kind() == RefK) ==> s3 == Stuck([])
  {
    var own := next + kind.Size();
    var s := Ok(stack, after, []);
    var first := [Store(kind, next), Store(RefK, own), Load(RefK, own)];
    var probe := [LdcText(owner), LdcText(name), Probe(BeforeFieldStoreP)];
    var last := [Load(RefK, own), Load(kind, next)];
    var s1 := MoveAside(sem, kind, next, stack, before, after, maxLocals, heap);
    var s2 := PlainRun(sem, probe, s1, heap);
    s3 := PlainRun(sem, last, s2, heap);
    PlainRunAppend(sem, first, probe + last, s, heap);
    PlainRunAppend(sem, probe, last, s1, heap);
    if s1.Ok? {
      ObjectProbe(sem, owner, name, BeforeFieldStoreP, s1, heap);
      assert s2.stack == Pop(stack, 2);
      MoveBack(sem, kind, own, next, s2, stack, heap);
    } else {
      StuckStays(sem, probe, s1, heap);
      StuckStays(sem, last, s1, heap);
    }
  }

  lemma PutFieldHarmless(sem: Semantics, rules: ProjectRules, insn: Insn, next: nat, stack: seq<Value>,
                         before: map<nat, Value>, after: map<nat, Value>, maxLocals: nat, heap: Heap)
    requires insn.PutField? && SameLocals(before, after, maxLocals) && next >= maxLocals
    ensures Harmless(sem, rules, insn, stack, before, maxLocals, heap,
                     PlainRun(sem, Before(rules, insn, next), Ok(stack, after, []), heap))
  {
    var kind := KindOf(insn.desc);
    var own := next + kind.Size();
    var s3 := PutFieldRun(sem, kind, DotName(insn.owner), insn.name, next, stack, before, after, maxLocals, heap);
    assert Before(rules, insn, next) ==
           [Store(kind, next), Store(RefK, own), Load(RefK, own)] +
           ([LdcText(DotName(insn.owner)), LdcText(insn.name), Probe(BeforeFieldStoreP)] +
            [Load(RefK, own), Load(kind, next)]);
  }

  lemma BeforeIsPlain(rules: ProjectRules, insn: Insn, next: nat)
    ensures AllPlain(Before(rules, insn, next))
  {
    hide DotName, OpcodeName, IsObservedCall, KindOf;
  }

  lemma RunNothing(sem: Semantics, s: BlockState, heap: Heap)
    ensures PlainRun(sem, [], s, heap) == s
  {
  }

  lemma BeforeHarmless(sem: Semantics, rules: ProjectRules, insn: Insn, next: nat, stack: seq<Value>,
                       before: map<nat, Value>, after: map<nat, Value>, maxLocals: nat, heap: Heap)
    requires SameLocals(before, after, maxLocals) && next >= maxLocals
    ensures AllPlain(Before(rules, insn, next))
    ensures Harmless(sem, rules, insn, stack, before, maxLocals, heap,
                     PlainRun(sem, Before(rules, insn, next), Ok(stack, after, []), heap))
  {
    hide PlainStep, PlainRun, EffectOf, KindOf, SameLocals;
    var s := Ok(stack, after, []);
    BeforeIsPlain(rules, insn, next);
    RunNothing(sem, s, heap);
    match insn {
      case Jump(op, _) => if !op.Goto? { TextProbe1(sem, OpcodeName(op), NoteDirectUseP, s, heap); }
      case TableSwitch(_, _, _, _) => TextProbe1(sem, "TABLESWITCH", NoteDirectUseP, s, heap);
      case LookupSwitch(_, _, _) => TextProbe1(sem, "LOOKUPSWITCH", NoteDirectUseP, s, heap);
      case Invoke(_, owner, name, desc) =>
        if IsObservedCall(rules, owner, name) {
          TextProbe3(sem, DotName(owner), name, desc, BeforeMethodCallP, s, heap);
        }
      case GetField(_, _, _) => GetFieldHarmless(sem, rules, insn, next, stack, before, after, maxLocals, heap);
      case GetStatic(owner, name, _) => TextProbe2(sem, DotName(owner), name, BeforeStaticFieldReadP, s, heap);
      case PutField(_, _, _) => PutFieldHarmless(sem, rules, insn, next, stack, before, after, maxLocals, heap);
      case PutStatic(_, _, _) => PutStaticHarmless(sem, rules, insn, next, stack, before, after, maxLocals, heap);
      case Return(_) => ExitProbe(sem, s, heap);
      case AThrow => ExitProbe(sem, s, heap);
      case _ =>
    }
  }

  lemma AfterHarmless(sem: Semantics, insn: Insn, s: BlockState, heap: Heap)
    requires s.Ok?
    ensures AllPlain(After(insn))
    ensures PlainRun(sem, After(insn), s, heap) == s.(hooks := s.hooks + HooksAfter(insn))
  {
    if insn.Store? {
      SlotProbe(sem, insn.slot, AfterLocalStoreP, s, heap);
    } else if insn.Load? {
      SlotProbe(sem, insn.slot, AfterLocalLoadP, s, heap);
    } else {
      assert s.hooks + [] == s.hooks;
    }
  }

  // ----- where the pieces of the rewritten code lie -----

  function Lead(rules: ProjectRules, m: Method, pc: nat): seq<Insn>
    requires pc < |m.code.insns|
  {
    if IsRewritten(rules, m)
    then Before(rules, m.code.insns[pc], NextLocal(m.code.insns[..pc], m.maxLocals)) else []
  }

  function Tail(rules: ProjectRules, m: Method, pc: nat): seq<Insn>
    requires pc < |m.code.insns|
  {
    if IsRewritten(rules, m) then After(m.code.insns[pc]) else []
  }

  lemma {:induction false} CodePrefix(rules: ProjectRules, m: Method, i: nat, j: nat)
    requires i <= j <= |m.code.insns|
    ensures CodeBefore(rules, m, i) <= CodeBefore(rules, m, j)
    decreases j
  {
    if i < j {
      CodePrefix(rules, m, i, j - 1);
      CodeBeforeStep(rules, m, j - 1);
    }
  }

  lemma BlockLies(rules: ProjectRules, m: Method, pc: nat)
    requires pc < |m.code.insns| && IsRewritten(rules, m)
    ensures var whole := CodeBefore(rules, m, pc) + (Lead(rules, m, pc) + [m.code.insns[pc]] + Tail(rules, m, pc));
            whole == CodeBefore(rules, m, pc + 1) && whole <= CodeBefore(rules, m, |m.code.insns|)
  {
    hide CodeBefore, Before, After, NextLocal, IsRewritten;
    CodeBeforeStep(rules, m, pc);
    CodePrefix(rules, m, pc + 1, |m.code.insns|);
  }

  lemma Layout(rules: ProjectRules, m: Method, pc: nat)
    requires pc < |m.code.insns|
    ensures var code := Rewritten(rules, m).code.insns;
            var insn := Position(rules, m, pc) + |Lead(rules, m, pc)|;
            && insn + 1 + |Tail(rules, m, pc)| == Position(rules, m, pc + 1) <= |code|
            && code[Position(rules, m, pc)..insn] == Lead(rules, m, pc)
            && code[insn] == m.code.insns[pc]
            && code[insn + 1..insn + 1 + |Tail(rules, m, pc)|] == Tail(rules, m, pc)
  {
    hide IsRewritten, CodeBefore;
    if IsRewritten(rules, m) {
      hide Lead, Tail;
      BlockLies(rules, m, pc);
      Slices(CodeBefore(rules, m, |m.code.insns|), CodeBefore(rules, m, pc),
             Lead(rules, m, pc), m.code.insns[pc], Tail(rules, m, pc));
    }
  }

  lemma LayoutInProgram(rules: ProjectRules, prog: Program, m: Method, pc: nat)
    requires ValidProgram(prog) && m.id in prog && prog[m.id] == m && pc < |m.code.insns|
    ensures m.id in RewrittenProgram(rules, prog)
    ensures var code := RewrittenProgram(rules, prog)[m.id].code.insns;
            var insn := Position(rules, m, pc) + |Lead(rules, m, pc)|;
            && insn + 1 + |Tail(rules, m, pc)| == Position(rules, m, pc + 1) <= |code|
            && code[Position(rules, m, pc)..insn] == Lead(rules, m, pc)
            && code[insn] == m.code.insns[pc]
            && code[insn + 1..insn + 1 + |Tail(rules, m, pc)|] == Tail(rules, m, pc)
  {
    Layout(rules, m, pc);
  }

  lemma Slices(code: seq<Insn>, front: seq<Insn>, lead: seq<Insn>, insn: Insn, tail: seq<Insn>)
    requires front + (lead + [insn] + tail) <= code
    ensures var p := |front| + |lead|;
            && p + 1 + |tail| <= |code| && code[|front|..p] == lead && code[p] == insn
            && code[p + 1..p + 1 + |tail|] == tail
  {
    var whole := front + (lead + [insn] + tail);
    assert forall i | 0 <= i < |whole| :: code[i] == whole[i];
  }

  lemma {:induction false} NextLocalGrows(insns: seq<Insn>, base: nat)
    ensures NextLocal(insns, base) >= base
  {
    if insns != [] {
      NextLocalGrows(insns[..|insns| - 1], base);
    }
  }

  lemma EndPosition(rules: ProjectRules, m: Method)
    ensures Position(rules, m, |m.code.insns|) == |Rewritten(rules, m).code.insns|
  {
  }

  // ----- one step -----

  /** Effects do not see fresh variables. */
  lemma SameEffect(sem: Semantics, insn: Insn, stack: seq<Value>, before: map<nat, Value>, after: map<nat, Value>,
                   maxLocals: nat, heap: Heap)
    requires SameLocals(before, after, maxLocals) && ValidInsn(insn, maxLocals)
    ensures var e, e' := EffectOf(sem, insn, stack, before, heap), EffectOf(sem, insn, stack, after, heap);
            if e.Fall?
            then e'.Fall? && e' == e.(locals := e'.locals) && SameLocals(e.locals, e'.locals, maxLocals)
            else e' == e
  {
    hide StoreLocal;
    if UsesLocals(insn) {
      if insn.Store? && stack != [] && Top(stack).Kind() == insn.kind {
        SameStore(before, after, maxLocals, insn.slot, Top(stack));
      }
    } else {
      EffectIgnoresLocals(sem, insn, stack, before, after, heap);
      hide EffectOf;
    }
  }

  predicate UsesLocals(insn: Insn) {
    insn.Store? || insn.Load? || insn.Iinc?
  }

  lemma EffectIgnoresLocals(sem: Semantics, insn: Insn, stack: seq<Value>, before: map<nat, Value>,
                            after: map<nat, Value>, heap: Heap)
    requires !UsesLocals(insn)
    ensures var e, e' := EffectOf(sem, insn, stack, before, heap), EffectOf(sem, insn, stack, after, heap);
            if e.Fall? then e.locals == before && e' == e.(locals := after) else e' == e
  {
    hide StoreLocal, JumpTaken, LookupLabel, DefaultOf, KindOf, FieldKey, GetsAsHooks;
  }

  lemma SameStore(before: map<nat, Value>, after: map<nat, Value>, maxLocals: nat, slot: nat, v: Value)
    requires SameLocals(before, after, maxLocals) && slot + v.Size() <= maxLocals
    ensures SameLocals(StoreLocal(before, slot, v), StoreLocal(after, slot, v), maxLocals)
  {
    var b, a := StoreLocal(before, slot, v), StoreLocal(after, slot, v);
    forall n | n < maxLocals ensures n in b <==> n in a {
      assert n in before <==> n in after;
    }
  }

  lemma {:induction false} ArgLocalsFit(args: seq<Value>)
    ensures forall n | n in ArgLocals(args) :: n + ArgLocals(args)[n].Size() <= ArgSize(args)
  {
    if args != [] {
      ArgLocalsFit(args[..|args| - 1]);
    }
  }

  /** Running the code in front of an instruction leads to the instruction, or to its fault. */
  lemma LeadRuns(sem: Semantics, rules: ProjectRules, prog: Program, m: Method, pc: nat, callers: seq<Frame>,
                 stack: seq<Value>, before: map<nat, Value>, after: map<nat, Value>, heap: Heap, trace: seq<Hook>)
    returns (r: BlockState)
    requires ValidProgram(prog) && m.id in prog && prog[m.id] == m && pc < |m.code.insns|
    requires SameLocals(before, after, m.maxLocals)
    ensures var at := Position(rules, m, pc);
            Run(Machine(sem, RewrittenProgram(rules, prog)),
                Running(Config(callers + [Frame(m.id, at, stack, after)], heap, trace)), |Lead(rules, m, pc)|) ==
            AsOutcome(callers, m.id, at + |Lead(rules, m, pc)|, heap, trace, r)
    ensures (if r.Ok? then r.hooks else r.stuckHooks) ==
            LeadHooks(rules, m, m.code.insns[pc], stack)
    ensures r.Ok? ==> r.stack == stack && SameLocals(before, r.locals, m.maxLocals)
    ensures r.Stuck? ==> EffectOf(sem, m.code.insns[pc], stack, before, heap).Raise?
  {
    hide Run; hide RewrittenProgram; hide Position; hide PlainRun; hide Before; hide HooksBefore; hide EffectOf;
    var start := Ok(stack, after, []);
    assert trace + [] == trace;
    if IsRewritten(rules, m) {
      var next := NextLocal(m.code.insns[..pc], m.maxLocals);
      var lead := Before(rules, m.code.insns[pc], next);
      NextLocalGrows(m.code.insns[..pc], m.maxLocals);
      BeforeHarmless(sem, rules, m.code.insns[pc], next, stack, before, after, m.maxLocals, heap);
      r := PlainRun(sem, lead, start, heap);
      LayoutInProgram(rules, prog, m, pc);
      RunPlain(sem, RewrittenProgram(rules, prog), callers, m.id, Position(rules, m, pc), heap, trace, lead, start);
    } else {
      r := start;
      RunNone(Machine(sem, RewrittenProgram(rules, prog)),
              Running(Config(callers + [Frame(m.id, Position(rules, m, pc), stack, after)], heap, trace)));
    }
  }

  /** Behind the instruction, the inserted code leads to the next original position. */
  lemma TailRuns(sem: Semantics, rules: ProjectRules, prog: Program, m: Method, pc: nat, callers: seq<Frame>,
                 stack: seq<Value>, locals: map<nat, Value>, heap: Heap, trace: seq<Hook>)
    requires ValidProgram(prog) && m.id in prog && prog[m.id] == m && pc < |m.code.insns|
    ensures var at := Position(rules, m, pc) + |Lead(rules, m, pc)| + 1;
            Run(Machine(sem, RewrittenProgram(rules, prog)),
                Running(Config(callers + [Frame(m.id, at, stack, locals)], heap, trace)), |Tail(rules, m, pc)|) ==
            Running(Config(callers + [Frame(m.id, Position(rules, m, pc + 1), stack, locals)], heap,
                           trace + if IsRewritten(rules, m) then HooksAfter(m.code.insns[pc]) else []))
  {
    hide Run; hide RewrittenProgram; hide Position; hide Lead; hide PlainRun;
    var start := Ok(stack, locals, []);
    assert trace + [] == trace;
    LayoutInProgram(rules, prog, m, pc);
    RunNone(Machine(sem, RewrittenProgram(rules, prog)),
            Running(Config(callers + [Frame(m.id, Position(rules, m, pc + 1), stack, locals)], heap, trace)));
    if IsRewritten(rules, m) {
      var tail := After(m.code.insns[pc]);
      var at := Position(rules, m, pc) + |Lead(rules, m, pc)| + 1;
      AfterHarmless(sem, m.code.insns[pc], start, heap);
      RunPlain(sem, RewrittenProgram(rules, prog), callers, m.id, at, heap, trace, tail, start);
      assert [] + HooksAfter(m.code.insns[pc]) == HooksAfter(m.code.insns[pc]);
    }
  }

  /** The prologue announces a called method. */
  lemma EntryRuns(sem: Semantics, rules: ProjectRules, prog: Program, id: MethodId, callers: seq<Frame>,
                  locals: map<nat, Value>, heap: Heap, trace: seq<Hook>) returns (k: nat)
    requires ValidProgram(prog) && id in prog
    ensures Run(Machine(sem, RewrittenProgram(rules, prog)),
                Running(Config(callers + [Frame(id, 0, [], locals)], heap, trace)), k) ==
            Running(Config(callers + [Frame(id, Position(rules, prog[id], 0), [], locals)], heap,
                           trace + HooksAtEntry(rules, prog, id)))
  {
    var m := prog[id];
    var start := Ok([], locals, []);
    assert trace + [] == trace;
    if IsRewritten(rules, m) {
      var block := Prologue(id);
      k := |block|;
      CodePrefix(rules, m, 0, |m.code.insns|);
      assert CodeBefore(rules, m, 0) == block;
      assert Rewritten(rules, m).code.insns[0..0 + |block|] == block;
      TextProbe3(sem, DotName(id.owner), id.name, id.desc, EnterMethodP, start, heap);
      RunPlain(sem, RewrittenProgram(rules, prog), callers, id, 0, heap, trace, block, start);
      assert [] + HooksAtEntry(rules, prog, id) == HooksAtEntry(rules, prog, id);
    } else {
      k := 0;
    }
  }

  lemma FallSimulated(sem: Semantics, rules: ProjectRules, prog: Program, m: Method, pc: nat, callers: seq<Frame>,
                      callers': seq<Frame>,
                      e: Effect, locals': map<nat, Value>, trace: seq<Hook>, trace': seq<Hook>) returns (k: nat)
    requires ValidProgram(prog) && m.id in prog && prog[m.id] == m && pc < |m.code.insns|
    requires SameFrames(rules, prog, callers, callers')
    requires e.Fall? && SameLocals(e.locals, locals', m.maxLocals)
    ensures var at := Position(rules, m, pc) + |Lead(rules, m, pc)| + 1;
            var before := Running(Config(callers + [Frame(m.id, pc + 1, e.stack, e.locals)], e.heap, trace));
            var after := Run(Machine(sem, RewrittenProgram(rules, prog)),
                             Running(Config(callers' + [Frame(m.id, at, e.stack, locals')], e.heap, trace')), k);
            && SameState(rules, prog, before, after)
            && TraceOf(after) == trace' + if IsRewritten(rules, m) then HooksAfter(m.code.insns[pc]) else []
  {
    k := |Tail(rules, m, pc)|;
    TailRuns(sem, rules, prog, m, pc, callers', e.stack, locals', e.heap, trace');
    assert SameFrame(rules, prog, Frame(m.id, pc + 1, e.stack, e.locals),
                     Frame(m.id, Position(rules, m, pc + 1), e.stack, locals'));
  }

  /** Two machines whose running frames stand at the same instruction. */
  ghost predicate AtSameInsn(rules: ProjectRules, prog: Program, c: Config, c1: Config) {
    && AtInsn(prog, c) && c1.frames != [] && c1.heap == c.heap
    && var n, n1 := |c.frames| - 1, |c1.frames| - 1;
       && SameFrames(rules, prog, c.frames[..n], c1.frames[..n1])
       && c1.frames[n1].id == c.frames[n].id
       && SameLocals(c.frames[n].locals, c1.frames[n1].locals, prog[c.frames[n].id].maxLocals)
       && c1.frames[n1].pc == Position(rules, prog[c.frames[n].id], c.frames[n].pc) +
                              |Lead(rules, prog[c.frames[n].id], c.frames[n].pc)|
  }

  lemma GoToSimulated(rules: ProjectRules, prog: Program, c: Config, c1: Config, e: Effect)
    requires ValidProgram(prog) && AtSameInsn(rules, prog, c, c1) && e.GoTo?
    ensures SameState(rules, prog, Apply(prog, c, e), Apply(RewrittenProgram(rules, prog), c1, e))
    ensures TraceOf(Apply(RewrittenProgram(rules, prog), c1, e)) == c1.trace
  {
    hide CodeBefore;
    var m := prog[c.frames[|c.frames| - 1].id];
    var labels' := Rewritten(rules, m).code.labels;
    assert forall l :: l in labels' <==> l in m.code.labels;
    assert forall l | l in labels' :: labels'[l] == Position(rules, m, m.code.labels[l]);
  }

  lemma SameEntry(rules: ProjectRules, prog: Program, id: MethodId, args: seq<Value>)
    ensures CanEnter(RewrittenProgram(rules, prog), id, args) <==> CanEnter(prog, id, args)
  {
  }

  lemma InvokePosition(rules: ProjectRules, m: Method, pc: nat)
    requires pc < |m.code.insns| && m.code.insns[pc].Invoke?
    ensures Position(rules, m, pc) + |Lead(rules, m, pc)| + 1 == Position(rules, m, pc + 1)
  {
    Layout(rules, m, pc);
  }

  lemma CallSimulated(sem: Semantics, rules: ProjectRules, prog: Program, c: Config, c1: Config, e: Effect)
    returns (k: nat)
    requires ValidProgram(prog) && AtSameInsn(rules, prog, c, c1) && e.CallTo? && InsnAt(prog, c).Invoke?
    ensures var after := Run(Machine(sem, RewrittenProgram(rules, prog)),
                             Apply(RewrittenProgram(rules, prog), c1, e), k);
            && SameState(rules, prog, Apply(prog, c, e), after)
            && TraceOf(after) == c1.trace + if CanEnter(prog, e.id, e.args) then HooksAtEntry(rules, prog, e.id) else []
  {
    hide ArgLocals; hide Rewritten; hide Run; hide HooksAtEntry; hide Position; hide Lead;
    InvokePosition(rules, prog[c.frames[|c.frames| - 1].id], c.frames[|c.frames| - 1].pc);
    var prog' := RewrittenProgram(rules, prog);
    var f, f1 := c.frames[|c.frames| - 1], c1.frames[|c1.frames| - 1];
    SameEntry(rules, prog, e.id, e.args);
    if CanEnter(prog, e.id, e.args) {
      var g := Frame(f.id, f.pc + 1, e.stack, f.locals);
      var g1 := Frame(f.id, f1.pc + 1, e.stack, f1.locals);
      var h1 := Frame(e.id, Position(rules, prog[e.id], 0), [], ArgLocals(e.args));
      var callers1 := c1.frames[..|c1.frames| - 1] + [g1];
      assert Apply(prog', c1, e) ==
             Running(Config(callers1 + [Frame(e.id, 0, [], ArgLocals(e.args))], c1.heap, c1.trace)) by {
        assert c1.frames[..|c1.frames| - 1] + [g1, Frame(e.id, 0, [], ArgLocals(e.args))] ==
               callers1 + [Frame(e.id, 0, [], ArgLocals(e.args))];
      }
      k := EntryRuns(sem, rules, prog, e.id, callers1, ArgLocals(e.args), c1.heap, c1.trace);
      ArgLocalsFit(e.args);
      assert SameFrame(rules, prog, g, g1);
      assert SameFrame(rules, prog, Frame(e.id, 0, [], ArgLocals(e.args)), h1);
    } else {
      k := 0;
      RunNone(Machine(sem, prog'), Apply(prog', c1, e));
    }
  }

  lemma LeaveSimulated(rules: ProjectRules, prog: Program, c: Config, c1: Config, e: Effect)
    requires ValidProgram(prog) && AtSameInsn(rules, prog, c, c1) && e.Leave?
    ensures SameState(rules, prog, Apply(prog, c, e), Apply(RewrittenProgram(rules, prog), c1, e))
    ensures TraceOf(Apply(RewrittenProgram(rules, prog), c1, e)) == c1.trace
  {
    hide SameLocals, Position;
    var callers, callers1 := c.frames[..|c.frames| - 1], c1.frames[..|c1.frames| - 1];
    if callers != [] {
      assert SameFrame(rules, prog, callers[|callers| - 1], callers1[|callers1| - 1]);
    }
  }

  /** Effects that differ in fresh variables only. */
  ghost predicate SameEffects(e: Effect, e1: Effect, maxLocals: nat) {
    if e.Fall? then e1.Fall? && e1 == e.(locals := e1.locals) && SameLocals(e.locals, e1.locals, maxLocals) else e1 == e
  }

  lemma RaiseFaults(prog: Program, c: Config)
    requires c.frames != [] && c.frames[|c.frames| - 1].id in prog
    ensures Apply(prog, c, Raise) == Faulted(c.heap, c.trace)
  {
  }

  lemma RaiseOutcome(rules: ProjectRules, prog: Program, c: Config, m: Method, insn: Insn)
    requires AtInsn(prog, c)
    ensures Apply(prog, c, Raise) == Faulted(c.heap, c.trace)
    ensures RestHooks(rules, prog, m, insn, Raise) == []
  {
  }

  lemma FallOutcome(prog: Program, c: Config, e: Effect)
    requires c.frames != [] && c.frames[|c.frames| - 1].id in prog && e.Fall?
    ensures var f := c.frames[|c.frames| - 1];
            Apply(prog, c, e) ==
            Running(Config(c.frames[..|c.frames| - 1] + [Frame(f.id, f.pc + 1, e.stack, e.locals)],
                           e.heap, c.trace + e.hooks))
  {
  }

  lemma FallCase(sem: Semantics, rules: ProjectRules, prog: Program, c: Config, c1: Config, e: Effect, e1: Effect)
    returns (k: nat, after: Outcome)
    requires ValidProgram(prog) && AtSameInsn(rules, prog, c, c1) && e.Fall?
    requires SameEffects(e, e1, prog[c.frames[|c.frames| - 1].id].maxLocals)
    ensures after == Run(Machine(sem, RewrittenProgram(rules, prog)), Apply(RewrittenProgram(rules, prog), c1, e1), k)
    ensures SameState(rules, prog, Apply(prog, c, e), after)
    ensures TraceOf(after) == c1.trace + RestHooks(rules, prog, prog[c.frames[|c.frames| - 1].id], InsnAt(prog, c), e)
  {
    hide Run; hide Apply; hide Before; hide Rewritten; hide HooksAfter; hide HooksAtEntry; hide Position; hide Lead;
    var f := c.frames[|c.frames| - 1];
    var m, insn, prog' := prog[f.id], InsnAt(prog, c), RewrittenProgram(rules, prog);
    k := FallSimulated(sem, rules, prog, m, f.pc, c.frames[..|c.frames| - 1], c1.frames[..|c1.frames| - 1],
                       e, e1.locals, c.trace + e.hooks, c1.trace + e.hooks);
    after := Run(Machine(sem, prog'), Apply(prog', c1, e1), k);
    FallOutcome(prog, c, e);
    FallOutcome(prog', c1, e1);
    Associative(c1.trace, e.hooks, if IsRewritten(rules, m) then HooksAfter(insn) else []);
  }

  /** The original instruction itself, reached with the same operands, does the same thing. */
  lemma InsnSimulated(sem: Semantics, rules: ProjectRules, prog: Program, c: Config, c1: Config, e: Effect, e1: Effect)
    returns (k: nat, after: Outcome)
    requires ValidProgram(prog) && AtSameInsn(rules, prog, c, c1)
    requires SameEffects(e, e1, prog[c.frames[|c.frames| - 1].id].maxLocals)
    requires e.CallTo? ==> InsnAt(prog, c).Invoke?
    ensures after == Run(Machine(sem, RewrittenProgram(rules, prog)), Apply(RewrittenProgram(rules, prog), c1, e1), k)
    ensures SameState(rules, prog, Apply(prog, c, e), after)
    ensures TraceOf(after) == c1.trace + RestHooks(rules, prog, prog[c.frames[|c.frames| - 1].id], InsnAt(prog, c), e)
  {
    hide Run; hide Apply; hide Before; hide Rewritten; hide HooksAfter; hide HooksAtEntry;
    var f := c.frames[|c.frames| - 1];
    var m, insn, prog' := prog[f.id], InsnAt(prog, c), RewrittenProgram(rules, prog);
    var step' := Machine(sem, prog');
    match e {
      case Fall(_, _, _, _) =>
        k, after := FallCase(sem, rules, prog, c, c1, e, e1);
      case GoTo(_, _) =>
        k, after := 0, Apply(prog', c1, e1);
        GoToSimulated(rules, prog, c, c1, e);
        RunNone(step', after);
      case CallTo(_, _, _) =>
        k := CallSimulated(sem, rules, prog, c, c1, e);
        after := Run(step', Apply(prog', c1, e1), k);
      case Leave(_) =>
        k, after := 0, Apply(prog', c1, e1);
        LeaveSimulated(rules, prog, c, c1, e);
        RunNone(step', after);
      case Raise =>
        k, after := 0, Apply(prog', c1, e1);
        RaiseOutcome(rules, prog, c, m, insn);
        RaiseFaults(prog', c1);
        RunNone(step', after);
    }
  }

  lemma OneStep(step: Config -> Outcome, o: Outcome, lead: nat, c1: Config, k: nat)
    requires Run(step, o, lead) == Running(c1)
    ensures Run(step, o, lead + 1 + k) == Run(step, Take(step, c1), k)
  {
    RunSplit(step, o, lead, 1 + k);
  }

  /** One original step is matched by one or more steps of the rewritten program. */
  lemma StepSimulated(sem: Semantics, rules: ProjectRules, prog: Program, c: Config, c': Config)
    returns (k: nat, after: Outcome)
    requires ValidProgram(prog) && SameState(rules, prog, Running(c), Running(c'))
    ensures k >= 1
    ensures after == Run(Machine(sem, RewrittenProgram(rules, prog)), Running(c'), k)
    ensures SameState(rules, prog, Step(sem, prog, c), after)
    ensures TraceOf(after) == c'.trace + StepHooks(sem, rules, prog, c)
  {
    if AtInsn(prog, c) {
      k, after := AtInsnSimulated(sem, rules, prog, c, c');
    } else {
      k := 1;
      after := Step(sem, RewrittenProgram(rules, prog), c');
      NoInsnSimulated(sem, rules, prog, c, c');
    }
  }

  /** Behind the last instruction both machines are stuck. */
  lemma NoInsnSimulated(sem: Semantics, rules: ProjectRules, prog: Program, c: Config, c': Config)
    requires ValidProgram(prog) && SameState(rules, prog, Running(c), Running(c')) && !AtInsn(prog, c)
    ensures var after := Step(sem, RewrittenProgram(rules, prog), c');
            && SameState(rules, prog, Step(sem, prog, c), after)
            && after == Run(Machine(sem, RewrittenProgram(rules, prog)), Running(c'), 1)
            && TraceOf(after) == c'.trace + StepHooks(sem, rules, prog, c)
  {
    hide SameLocals, Position, EffectOf, Apply;
    assert c'.trace + [] == c'.trace;
    if c.frames != [] {
      assert SameFrame(rules, prog, c.frames[|c.frames| - 1], c'.frames[|c.frames| - 1]);
      EndPosition(rules, prog[c.frames[|c.frames| - 1].id]);
    }
  }

  /** The running frames of two machines in the same state. */
  lemma SplitTop(rules: ProjectRules, prog: Program, c: Config, c': Config)
    requires AtInsn(prog, c) && SameState(rules, prog, Running(c), Running(c'))
    ensures |c'.frames| == |c.frames|
    ensures var n := |c.frames| - 1;
            var f, f' := c.frames[n], c'.frames[n];
            && SameFrames(rules, prog, c.frames[..n], c'.frames[..n])
            && SameLocals(f.locals, f'.locals, prog[f.id].maxLocals)
            && c' == Config(c'.frames[..n] + [Frame(f.id, Position(rules, prog[f.id], f.pc), f.stack, f'.locals)],
                            c.heap, c'.trace)
  {
    hide SameLocals, Position;
    var n := |c.frames| - 1;
    assert SameFrame(rules, prog, c.frames[n], c'.frames[n]);
    assert c'.frames == c'.frames[..n] + [c'.frames[n]];
  }

  /** The configuration once the code in front of the instruction has run. */
  function AfterLead(rules: ProjectRules, prog: Program, c: Config, c': Config, r: BlockState): Config
    requires AtInsn(prog, c) && |c'.frames| == |c.frames| && r.Ok?
  {
    var n := |c.frames| - 1;
    var f := c.frames[n];
    var at := Position(rules, prog[f.id], f.pc) + |Lead(rules, prog[f.id], f.pc)|;
    Config(c'.frames[..n] + [Frame(f.id, at, f.stack, r.locals)], c.heap, c'.trace + r.hooks)
  }

  lemma RestSimulated(sem: Semantics, rules: ProjectRules, prog: Program, c: Config, c': Config, r: BlockState)
    returns (k: nat, after: Outcome)
    requires ValidProgram(prog) && AtInsn(prog, c) && SameState(rules, prog, Running(c), Running(c'))
    requires r.Ok? && SameLocals(c.frames[|c.frames| - 1].locals, r.locals, prog[c.frames[|c.frames| - 1].id].maxLocals)
    ensures after == Run(Machine(sem, RewrittenProgram(rules, prog)),
                         Take(Machine(sem, RewrittenProgram(rules, prog)), AfterLead(rules, prog, c, c', r)), k)
    ensures var f := c.frames[|c.frames| - 1];
            var e := EffectOf(sem, InsnAt(prog, c), f.stack, f.locals, c.heap);
            && SameState(rules, prog, Apply(prog, c, e), after)
            && TraceOf(after) == c'.trace + r.hooks + RestHooks(rules, prog, prog[f.id], InsnAt(prog, c), e)
  {
    hide Run, RewrittenProgram, EffectOf, Apply, RestHooks, Lead, SameFrames, SameLocals, Position, Step, SameState;
    SplitTop(rules, prog, c, c');
    var n := |c.frames| - 1;
    var f := c.frames[n];
    var m, insn := prog[f.id], InsnAt(prog, c);
    var c1 := AfterLead(rules, prog, c, c', r);
    assert c1.frames[..n] == c'.frames[..n];
    var e, e1 := EffectOf(sem, insn, f.stack, f.locals, c.heap), EffectOf(sem, insn, f.stack, r.locals, c.heap);
    SameEffect(sem, insn, f.stack, f.locals, r.locals, m.maxLocals, c.heap);
    CallsOnlyFromInvoke(sem, insn, f.stack, f.locals, c.heap);
    k, after := InsnSimulated(sem, rules, prog, c, c1, e, e1);
    StepsTo(sem, rules, prog, m, f.pc, c1, e1);
  }

  lemma AtInsnSimulated(sem: Semantics, rules: ProjectRules, prog: Program, c: Config, c': Config)
    returns (k: nat, after: Outcome)
    requires ValidProgram(prog) && AtInsn(prog, c) && SameState(rules, prog, Running(c), Running(c'))
    ensures k >= 1
    ensures after == Run(Machine(sem, RewrittenProgram(rules, prog)), Running(c'), k)
    ensures var f := c.frames[|c.frames| - 1];
            var e := EffectOf(sem, InsnAt(prog, c), f.stack, f.locals, c.heap);
            && SameState(rules, prog, Apply(prog, c, e), after)
            && TraceOf(after) == c'.trace + (LeadHooks(rules, prog[f.id], InsnAt(prog, c), f.stack) +
                                             RestHooks(rules, prog, prog[f.id], InsnAt(prog, c), e))
  {
    hide Run, RewrittenProgram, EffectOf, Apply, RestHooks, Lead, LeadHooks, SameFrames, SameLocals, Position, Step;
    SplitTop(rules, prog, c, c');
    var n := |c.frames| - 1;
    var f, f' := c.frames[n], c'.frames[n];
    var m, insn := prog[f.id], InsnAt(prog, c);
    var step := Machine(sem, RewrittenProgram(rules, prog));
    var lead := |Lead(rules, m, f.pc)|;
    var r := LeadRuns(sem, rules, prog, m, f.pc, c'.frames[..n], f.stack, f.locals, f'.locals, c.heap, c'.trace);
    if r.Ok? {
      k, after := RestSimulated(sem, rules, prog, c, c', r);
      OneStep(step, Running(c'), lead, AfterLead(rules, prog, c, c', r), k);
      k := lead + 1 + k;
      Associative(c'.trace, r.hooks, RestHooks(rules, prog, m, insn, EffectOf(sem, insn, f.stack, f.locals, c.heap)));
    } else {
      StoppedStays(step, Running(c'), lead, lead + 1);
      k := lead + 1;
      after := Faulted(c.heap, c'.trace + r.stuckHooks);
      RaiseOutcome(rules, prog, c, m, insn);
    }
  }

  lemma CallsOnlyFromInvoke(sem: Semantics, insn: Insn, stack: seq<Value>, locals: map<nat, Value>, heap: Heap)
    ensures EffectOf(sem, insn, stack, locals, heap).CallTo? ==> insn.Invoke?
    ensures EffectOf(sem, insn, stack, locals, heap).Leave? <==>
            insn.Return? && !EffectOf(sem, insn, stack, locals, heap).Raise?
  {
  }

  /** At its new position, the original instruction is what the rewritten program executes. */
  lemma StepsTo(sem: Semantics, rules: ProjectRules, prog: Program, m: Method, pc: nat, c1: Config, e1: Effect)
    requires ValidProgram(prog) && m.id in prog && prog[m.id] == m && pc < |m.code.insns| && c1.frames != []
    requires var f1 := c1.frames[|c1.frames| - 1];
             && f1.id == m.id && f1.pc == Position(rules, m, pc) + |Lead(rules, m, pc)|
             && e1 == EffectOf(sem, m.code.insns[pc], f1.stack, f1.locals, c1.heap)
    ensures Machine(sem, RewrittenProgram(rules, prog))(c1) == Apply(RewrittenProgram(rules, prog), c1, e1)
  {
    hide EffectOf, Apply, Lead, Position, Rewritten;
    Layout(rules, m, pc);
  }

  // ----- whole runs -----

  /** Each step of one machine is matched by steps of the other that call the given hooks. */
  ghost predicate Simulates(same: (Outcome, Outcome) -> bool, step: Config -> Outcome, step': Config -> Outcome,
                            hooks: Config -> seq<Hook>) {
    && (forall o, o' :: Holds(same, o, o') ==> (o.Running? <==> o'.Running?))
    && (forall c, c' :: Holds(same, Running(c), Running(c')) ==> MatchesStep(same, step, step', hooks, c, c'))
  }

  ghost predicate MatchesStep(same: (Outcome, Outcome) -> bool, step: Config -> Outcome, step': Config -> Outcome,
                              hooks: Config -> seq<Hook>, c: Config, c': Config) {
    exists k: nat :: k >= 1 && ReachesSame(same, Take(step, c), step', Running(c'), c'.trace + HooksAt(hooks, c), k)
  }

  ghost predicate Holds(same: (Outcome, Outcome) -> bool, o: Outcome, o': Outcome) {
    same(o, o')
  }

  ghost predicate ReachesSame(same: (Outcome, Outcome) -> bool, o: Outcome, step': Config -> Outcome, o': Outcome,
                              trace: seq<Hook>, k: nat) {
    Holds(same, o, Run(step', o', k)) && TraceOf(Run(step', o', k)) == trace
  }

  lemma {:induction false} RunSimulated(same: (Outcome, Outcome) -> bool, step: Config -> Outcome,
                                        step': Config -> Outcome,
                                        hooks: Config -> seq<Hook>, o: Outcome, o': Outcome, n: nat) returns (k: nat)
    requires Simulates(same, step, step', hooks) && Holds(same, o, o')
    ensures k >= n || !Run(step, o, n).Running?
    ensures ReachesSame(same, Run(step, o, n), step', o', TraceOf(o') + RunHooks(step, hooks, o, n), k)
    decreases n
  {
    if n == 0 || !o.Running? {
      k := 0;
    } else {
      assert MatchesStep(same, step, step', hooks, o.c, o'.c);
      var k1: nat :| k1 >= 1 && ReachesSame(same, Take(step, o.c), step', o', TraceOf(o') + HooksAt(hooks, o.c), k1);
      var mid := Run(step', o', k1);
      assert ReachesSame(same, Take(step, o.c), step', o', TraceOf(o') + HooksAt(hooks, o.c), k1);
      assert Holds(same, Take(step, o.c), Run(step', o', k1));
      var k2 := RunSimulated(same, step, step', hooks, Take(step, o.c), mid, n - 1);
      RunSplit(step', o', k1, k2);
      k := k1 + k2;
      Associative(TraceOf(o'), HooksAt(hooks, o.c), RunHooks(step, hooks, Take(step, o.c), n - 1));
    }
  }

  /** Where the rewritten machine stops, the original one has stopped in the same way. */
  lemma StopSimulated(same: (Outcome, Outcome) -> bool, step: Config -> Outcome, step': Config -> Outcome,
                      hooks: Config -> seq<Hook>, o: Outcome, o': Outcome, k0: nat, k: nat)
    requires Simulates(same, step, step', hooks) && Holds(same, o, Run(step', o', k0))
    requires !Run(step', o', k).Running?
    ensures Holds(same, Run(step, o, k), Run(step', o', k))
  {
    var k1 := RunSimulated(same, step, step', hooks, o, Run(step', o', k0), k);
    RunSplit(step', o', k0, k1);
    if k0 + k1 >= k {
      StoppedStays(step', o', k, k0 + k1);
    } else {
      StoppedStays(step', o', k0 + k1, k);
    }
  }

  ghost function Same(rules: ProjectRules, prog: Program): (Outcome, Outcome) -> bool {
    (o, o') => SameState(rules, prog, o, o')
  }

  lemma SameMeans(rules: ProjectRules, prog: Program, o: Outcome, o': Outcome)
    ensures Holds(Same(rules, prog), o, o') <==> SameState(rules, prog, o, o')
  {
    hide SameState;
  }

  lemma RewrittenSimulates(sem: Semantics, rules: ProjectRules, prog: Program)
    requires ValidProgram(prog)
    ensures Simulates(Same(rules, prog), Machine(sem, prog), Machine(sem, RewrittenProgram(rules, prog)),
                      HooksOfStep(sem, rules, prog))
  {
    var same, step, step' := Same(rules, prog), Machine(sem, prog), Machine(sem, RewrittenProgram(rules, prog));
    var hooks := HooksOfStep(sem, rules, prog);
    forall c, c' | Holds(same, Running(c), Running(c')) ensures MatchesStep(same, step, step', hooks, c, c') {
      var k, after := StepSimulated(sem, rules, prog, c, c');
      assert ReachesSame(same, Take(step, c), step', Running(c'), c'.trace + HooksAt(hooks, c), k);
    }
  }

  /** The rewritten program started like the original one, once its entry method is announced. */
  lemma StartSimulated(sem: Semantics, rules: ProjectRules, prog: Program, id: MethodId, args: seq<Value>, heap: Heap)
    returns (k: nat)
    requires ValidProgram(prog) && id in prog && ArgSize(args) == prog[id].params
    ensures ReachesSame(Same(rules, prog), Start(id, args, heap), Machine(sem, RewrittenProgram(rules, prog)),
                        Start(id, args, heap), HooksAtEntry(rules, prog, id), k)
  {
    hide Run, RewrittenProgram, Position, ArgLocals, IsRewritten, HooksAtEntry;
    var f := Frame(id, 0, [], ArgLocals(args));
    assert [] + [f] == [f];
    k := EntryRuns(sem, rules, prog, id, [], ArgLocals(args), heap, []);
    ArgLocalsFit(args);
    var f' := Frame(id, Position(rules, prog[id], 0), [], ArgLocals(args));
    assert SameFrame(rules, prog, f, f');
    assert [] + [f'] == [f'];
  }

  /**
   * Rewriting preserves meaning, forwards: whatever the original program reaches from
   * its entry, the rewritten one reaches, with the same operand stacks, variables,
   * heap and result, having called exactly the hooks that the original run determines.
   */
  lemma RewritingPreservesRuns(sem: Semantics, rules: ProjectRules, prog: Program,
                               id: MethodId, args: seq<Value>, heap: Heap, n: nat) returns (k: nat)
    requires ValidProgram(prog) && id in prog && ArgSize(args) == prog[id].params
    ensures var before := Run(Machine(sem, prog), Start(id, args, heap), n);
            var after := Run(Machine(sem, RewrittenProgram(rules, prog)), Start(id, args, heap), k);
            && SameState(rules, prog, before, after)
            && TraceOf(after) == HooksAtEntry(rules, prog, id) +
                                 RunHooks(Machine(sem, prog), HooksOfStep(sem, rules, prog), Start(id, args, heap), n)
            && (k >= n || !before.Running?)
  {
    hide Run, RunHooks, Same, SameState, Machine, RewrittenProgram, HooksOfStep, HooksAtEntry, Simulates, Holds;
    var same, step, step' := Same(rules, prog), Machine(sem, prog), Machine(sem, RewrittenProgram(rules, prog));
    var o := Start(id, args, heap);
    RewrittenSimulates(sem, rules, prog);
    var k0 := StartSimulated(sem, rules, prog, id, args, heap);
    var k1 := RunSimulated(same, step, step', HooksOfStep(sem, rules, prog), o, Run(step', o, k0), n);
    RunSplit(step', o, k0, k1);
    k := k0 + k1;
    SameMeans(rules, prog, Run(step, o, n), Run(step', o, k));
  }

  /**
   * Rewriting preserves meaning, backwards: when the rewritten program stops, the
   * original one stops too, in the same way, with the same result and heap.
   */
  lemma RewritingAddsNoRuns(sem: Semantics, rules: ProjectRules, prog: Program,
                            id: MethodId, args: seq<Value>, heap: Heap, k: nat)
    requires ValidProgram(prog) && id in prog && ArgSize(args) == prog[id].params
    requires !Run(Machine(sem, RewrittenProgram(rules, prog)), Start(id, args, heap), k).Running?
    ensures SameState(rules, prog, Run(Machine(sem, prog), Start(id, args, heap), k),
                      Run(Machine(sem, RewrittenProgram(rules, prog)), Start(id, args, heap), k))
  {
    hide Run, Same, SameState, Machine, RewrittenProgram, HooksOfStep, HooksAtEntry, Simulates, Holds;
    var same, step, step' := Same(rules, prog), Machine(sem, prog), Machine(sem, RewrittenProgram(rules, prog));
    var o := Start(id, args, heap);
    RewrittenSimulates(sem, rules, prog);
    var k0 := StartSimulated(sem, rules, prog, id, args, heap);
    StopSimulated(same, step, step', HooksOfStep(sem, rules, prog), o, o, k0, k);
    SameMeans(rules, prog, Run(step, o, k), Run(step', o, k));
  }

  // ----- the hooks keep the runtime's frames in step with the calls -----

  /** What a hook makes of the runtime's stack of frames; popping an empty stack does nothing. */
  function MoveFrames(frames: seq<string>, h: Hook): seq<string> {
    if h.EnterMethod? then frames + [h.owner + "#" + h.name]
    else if h.ExitMethod? && frames != [] then frames[..|frames| - 1]
    else frames
  }

  function FramesAfter(hooks: seq<Hook>): seq<string> {
    if hooks == [] then [] else MoveFrames(FramesAfter(hooks[..|hooks| - 1]), hooks[|hooks| - 1])
  }

  /** The names of the rewritten methods among the frames of the original program. */
  function RewrittenFrames(rules: ProjectRules, prog: Program, frames: seq<Frame>): seq<string> {
    if frames == [] then []
    else
      var f := frames[|frames| - 1];
      RewrittenFrames(rules, prog, frames[..|frames| - 1]) +
      if f.id in prog && IsRewritten(rules, prog[f.id]) then [DotName(f.id.owner) + "#" + f.id.name] else []
  }

  predicate MovesFrames(h: Hook) {
    h.EnterMethod? || h.ExitMethod?
  }

  lemma {:induction false} QuietHooks(hooks: seq<Hook>, more: seq<Hook>)
    requires forall h | h in more :: !MovesFrames(h)
    ensures FramesAfter(hooks + more) == FramesAfter(hooks)
  {
    if more == [] {
      assert hooks + more == hooks;
    } else {
      var all := hooks + more;
      var front := more[..|more| - 1];
      assert all[..|all| - 1] == hooks + front;
      assert all[|all| - 1] == more[|more| - 1] && more[|more| - 1] in more;
      assert forall h | h in front :: h in more;
      QuietHooks(hooks, front);
    }
  }

  lemma OneHook(hooks: seq<Hook>, h: Hook)
    ensures FramesAfter(hooks + [h]) == MoveFrames(FramesAfter(hooks), h)
  {
    assert (hooks + [h])[..|hooks + [h]| - 1] == hooks;
  }

  lemma {:induction false} RewrittenFramesSame(rules: ProjectRules, prog: Program, a: seq<Frame>, b: seq<Frame>)
    requires |a| == |b| && forall i | 0 <= i < |a| :: a[i].id == b[i].id
    ensures RewrittenFrames(rules, prog, a) == RewrittenFrames(rules, prog, b)
  {
    if a != [] {
      RewrittenFramesSame(rules, prog, a[..|a| - 1], b[..|b| - 1]);
    }
  }

  function FramesOf(o: Outcome): seq<Frame> {
    if o.Running? then o.c.frames else []
  }

  lemma LeaveFrames(prog: Program, c: Config, e: Effect)
    requires AtInsn(prog, c) && e.Leave?
    ensures |FramesOf(Apply(prog, c, e))| == |c.frames| - 1
    ensures forall i | 0 <= i < |c.frames| - 1 :: FramesOf(Apply(prog, c, e))[i].id == c.frames[i].id
  {
  }

  predicate KeepsIds(before: seq<Frame>, after: seq<Frame>) {
    |before| == |after| && forall i | 0 <= i < |before| :: before[i].id == after[i].id
  }

  /** An effect within the running method. */
  lemma InsideMirrored(rules: ProjectRules, prog: Program, before: seq<Frame>, after: seq<Frame>, hooks: seq<Hook>,
                       more: seq<Hook>)
    requires KeepsIds(before, after) && FramesAfter(hooks) == RewrittenFrames(rules, prog, before)
    requires forall h | h in more :: !MovesFrames(h)
    ensures FramesAfter(hooks + more) == RewrittenFrames(rules, prog, after)
  {
    QuietHooks(hooks, more);
    RewrittenFramesSame(rules, prog, before, after);
  }

  lemma CallMirrored(rules: ProjectRules, prog: Program, before: seq<Frame>, callers: seq<Frame>, f: Frame,
                     hooks: seq<Hook>, lead: seq<Hook>)
    requires ValidProgram(prog) && KeepsIds(before, callers) && f.id in prog
    requires FramesAfter(hooks) == RewrittenFrames(rules, prog, before)
    requires forall h | h in lead :: !MovesFrames(h)
    ensures FramesAfter(hooks + (lead + HooksAtEntry(rules, prog, f.id))) == RewrittenFrames(rules, prog, callers + [f])
  {
    var entry := HooksAtEntry(rules, prog, f.id);
    InsideMirrored(rules, prog, before, callers, hooks, lead);
    Associative(hooks, lead, entry);
    assert (callers + [f])[..|callers|] == callers;
    if entry == [] {
      assert hooks + lead + [] == hooks + lead;
    } else {
      OneHook(hooks + lead, entry[0]);
    }
  }

  lemma LeaveMirrored(rules: ProjectRules, prog: Program, before: seq<Frame>, after: seq<Frame>, hooks: seq<Hook>)
    requires before != [] && before[|before| - 1].id in prog && KeepsIds(before[..|before| - 1], after)
    requires FramesAfter(hooks) == RewrittenFrames(rules, prog, before)
    ensures FramesAfter(hooks + if IsRewritten(rules, prog[before[|before| - 1].id]) then [ExitMethod] else []) ==
            RewrittenFrames(rules, prog, after)
  {
    RewrittenFramesSame(rules, prog, before[..|before| - 1], after);
    if IsRewritten(rules, prog[before[|before| - 1].id]) {
      OneHook(hooks, ExitMethod);
    } else {
      assert hooks + [] == hooks;
    }
  }

  lemma CallFrames(prog: Program, c: Config, e: Effect)
    requires AtInsn(prog, c) && e.CallTo? && !Apply(prog, c, e).Faulted?
    ensures CanEnter(prog, e.id, e.args)
    ensures var f := c.frames[|c.frames| - 1];
            FramesOf(Apply(prog, c, e)) ==
            c.frames[..|c.frames| - 1] + [Frame(f.id, f.pc + 1, e.stack, f.locals)] +
            [Frame(e.id, 0, [], ArgLocals(e.args))]
  {
    hide ArgLocals;
  }

  lemma SameIds(before: seq<Frame>, after: seq<Frame>)
    requires |before| == |after| && forall i | 0 <= i < |before| :: before[i].id == after[i].id
    ensures KeepsIds(before, after)
  {
  }

  lemma InsideFrames(prog: Program, c: Config, e: Effect)
    requires AtInsn(prog, c) && (e.Fall? || e.GoTo?) && !Apply(prog, c, e).Faulted?
    ensures Apply(prog, c, e).Running? && KeepsIds(c.frames, Apply(prog, c, e).c.frames)
  {
  }

  lemma LeadIsQuiet(rules: ProjectRules, m: Method, insn: Insn, stack: seq<Value>)
    ensures !insn.Return? && !insn.AThrow? ==> forall h | h in LeadHooks(rules, m, insn, stack) :: !MovesFrames(h)
    ensures insn.Return? ==> LeadHooks(rules, m, insn, stack) == if IsRewritten(rules, m) then [ExitMethod] else []
  {
    hide IsRewritten, DotName, OpcodeName, IsObservedCall;
  }

  lemma AfterIsQuiet(insn: Insn)
    ensures forall h | h in HooksAfter(insn) :: !MovesFrames(h)
  {
  }

  /** The hooks of an effect move the runtime's frames as the effect moves the program's. */
  lemma EffectMirrored(rules: ProjectRules, prog: Program, c: Config, e: Effect, hooks: seq<Hook>)
    requires ValidProgram(prog) && AtInsn(prog, c) && !Apply(prog, c, e).Faulted?
    requires FramesAfter(hooks) == RewrittenFrames(rules, prog, c.frames)
    requires var insn := InsnAt(prog, c);
             && (e.CallTo? ==> insn.Invoke?) && (e.Leave? <==> insn.Return?) && !insn.AThrow?
             && (e.Fall? ==> forall h | h in e.hooks :: !MovesFrames(h))
    ensures var f := c.frames[|c.frames| - 1];
            var more := LeadHooks(rules, prog[f.id], InsnAt(prog, c), f.stack) +
                        RestHooks(rules, prog, prog[f.id], InsnAt(prog, c), e);
            FramesAfter(hooks + more) == RewrittenFrames(rules, prog, FramesOf(Apply(prog, c, e)))
  {
    hide FramesAfter, RewrittenFrames, HooksAtEntry, ArgLocals, LeadHooks, MovesFrames, KeepsIds, IsRewritten,
         HooksAfter;
    var n := |c.frames| - 1;
    var f, insn := c.frames[n], InsnAt(prog, c);
    var o := Apply(prog, c, e);
    var lead := LeadHooks(rules, prog[f.id], insn, f.stack);
    var rest := RestHooks(rules, prog, prog[f.id], insn, e);
    LeadIsQuiet(rules, prog[f.id], insn, f.stack);
    match e {
      case Fall(_, _, _, _) =>
        InsideFrames(prog, c, e);
        AfterIsQuiet(insn);
        InsideMirrored(rules, prog, c.frames, o.c.frames, hooks, lead + rest);
      case GoTo(_, _) =>
        InsideFrames(prog, c, e);
        InsideMirrored(rules, prog, c.frames, o.c.frames, hooks, lead + rest);
      case CallTo(id, args, stack) =>
        CallFrames(prog, c, e);
        var callers := c.frames[..n] + [Frame(f.id, f.pc + 1, stack, f.locals)];
        var callee := Frame(id, 0, [], ArgLocals(args));
        SameIds(c.frames, callers);
        CallMirrored(rules, prog, c.frames, callers, callee, hooks, lead);
      case Leave(_) =>
        LeaveFrames(prog, c, e);
        assert lead + rest == lead;
        SameIds(c.frames[..n], FramesOf(o));
        LeaveMirrored(rules, prog, c.frames, FramesOf(o), hooks);
    }
  }

  lemma OwnHooksQuiet(sem: Semantics, insn: Insn, stack: seq<Value>, locals: map<nat, Value>, heap: Heap)
    requires !insn.Probe? && EffectOf(sem, insn, stack, locals, heap).Fall?
    ensures forall h | h in EffectOf(sem, insn, stack, locals, heap).hooks :: !MovesFrames(h)
    ensures !insn.Return? && !insn.AThrow?
  {
  }

  lemma StepMirrored(sem: Semantics, rules: ProjectRules, prog: Program, c: Config, hooks: seq<Hook>)
    requires ValidProgram(prog) && !Step(sem, prog, c).Faulted?
    requires FramesAfter(hooks) == RewrittenFrames(rules, prog, c.frames)
    ensures FramesAfter(hooks + StepHooks(sem, rules, prog, c)) ==
            RewrittenFrames(rules, prog, FramesOf(Step(sem, prog, c)))
  {
    var f, insn := c.frames[|c.frames| - 1], InsnAt(prog, c);
    var e := EffectOf(sem, insn, f.stack, f.locals, c.heap);
    CallsOnlyFromInvoke(sem, insn, f.stack, f.locals, c.heap);
    assert ValidInsn(insn, prog[f.id].maxLocals);
    if e.Fall? {
      OwnHooksQuiet(sem, insn, f.stack, f.locals, c.heap);
    }
    EffectMirrored(rules, prog, c, e, hooks);
  }

  /** The runtime's frames after a run, for any machine whose steps keep them in line. */
  lemma {:induction false} RunMirrored(step: Config -> Outcome, hooks: Config -> seq<Hook>,
                                       view: seq<Frame> -> seq<string>,
                                       o: Outcome, n: nat, past: seq<Hook>)
    requires forall c, h :: !Take(step, c).Faulted? && FramesAfter(h) == view(c.frames) ==>
               FramesAfter(h + HooksAt(hooks, c)) == view(FramesOf(Take(step, c)))
    requires !Run(step, o, n).Faulted?
    requires FramesAfter(past) == view(FramesOf(o))
    ensures FramesAfter(past + RunHooks(step, hooks, o, n)) == view(FramesOf(Run(step, o, n)))
    decreases n
  {
    if n == 0 || !o.Running? {
      assert past + [] == past;
    } else {
      assert !Take(step, o.c).Faulted?;
      RunMirrored(step, hooks, view, Take(step, o.c), n - 1, past + HooksAt(hooks, o.c));
      Associative(past, HooksAt(hooks, o.c), RunHooks(step, hooks, Take(step, o.c), n - 1));
    }
  }

  lemma EntryMirrored(rules: ProjectRules, prog: Program, f: Frame)
    requires ValidProgram(prog) && f.id in prog
    ensures FramesAfter(HooksAtEntry(rules, prog, f.id)) == RewrittenFrames(rules, prog, [f])
  {
    hide FramesAfter, RewrittenFrames, IsRewritten, MoveFrames, DotName;
    var entry := HooksAtEntry(rules, prog, f.id);
    NoHooksNoFrames();
    OneRewrittenFrame(rules, prog, f);
    if entry != [] {
      OneHook([], entry[0]);
      assert [] + [entry[0]] == entry;
      EnterMoves(entry[0]);
    }
  }

  lemma NoHooksNoFrames()
    ensures FramesAfter([]) == []
  {
  }

  lemma EnterMoves(h: Hook)
    requires h.EnterMethod?
    ensures MoveFrames([], h) == [FieldKey(h.owner, h.name)]
  {
  }

  lemma OneRewrittenFrame(rules: ProjectRules, prog: Program, f: Frame)
    requires f.id in prog
    ensures RewrittenFrames(rules, prog, [f]) ==
            if IsRewritten(rules, prog[f.id]) then [FieldKey(DotName(f.id.owner), f.id.name)] else []
  {
    hide IsRewritten, DotName;
    assert [f][..0] == [];
  }

  /**
   * At every point of a run without exceptions, the runtime's stack of frames is
   * exactly the list of the rewritten methods that are being executed.
   */
  lemma RuntimeFramesMirrorCalls(sem: Semantics, rules: ProjectRules, prog: Program,
                                 id: MethodId, args: seq<Value>, heap: Heap, n: nat)
    requires ValidProgram(prog) && id in prog && !Run(Machine(sem, prog), Start(id, args, heap), n).Faulted?
    ensures FramesAfter(HooksAtEntry(rules, prog, id) +
                        RunHooks(Machine(sem, prog), HooksOfStep(sem, rules, prog), Start(id, args, heap), n)) ==
            RewrittenFrames(rules, prog, FramesOf(Run(Machine(sem, prog), Start(id, args, heap), n)))
  {
    hide Run; hide RunHooks; hide FramesAfter; hide RewrittenFrames; hide Step; hide StepHooks; hide HooksAtEntry;
    var step, hooks := Machine(sem, prog), HooksOfStep(sem, rules, prog);
    var view := frames => RewrittenFrames(rules, prog, frames);
    EntryMirrored(rules, prog, Frame(id, 0, [], ArgLocals(args)));
    forall c, h | !Take(step, c).Faulted? && FramesAfter(h) == view(c.frames)
      ensures FramesAfter(h + HooksAt(hooks, c)) == view(FramesOf(Take(step, c)))
    {
      StepMirrored(sem, rules, prog, c, h);
    }
    RunMirrored(step, hooks, view, Start(id, args, heap), n, HooksAtEntry(rules, prog, id));
  }
}
