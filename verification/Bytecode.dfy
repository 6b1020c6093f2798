/**
 * A small-step machine for the bytecode that the agent rewrites: one thread, a
 * stack of method frames, an operand stack and local variables per frame, and a
 * heap.  Instruction meanings follow section 6.5 of the Java Virtual Machine
 * Specification.  An exception ends the run (`Faulted`): handlers are not modelled.
 */
module Bytecode {
  import opened Wrappers

  /** The computational kinds; long and double occupy two local variables. */
  datatype Kind = IntK | LongK | FloatK | DoubleK | RefK {
    function Size(): nat {
      if this.LongK? || this.DoubleK? then 2 else 1
    }
  }

  /** `Type.getType(descriptor)`, as far as the opcode and the size depend on it. */
  function KindOf(descriptor: string): Kind {
    if descriptor == "" then RefK
    else match descriptor[0]
      case 'J' => LongK
      case 'D' => DoubleK
      case 'F' => FloatK
      case 'Z' => IntK
      case 'B' => IntK
      case 'C' => IntK
      case 'S' => IntK
      case 'I' => IntK
      case _ => RefK
  }

  /** The descriptors of section 4.3.2 of the Java Virtual Machine Specification, and the locals that they need. */
  lemma KindsOfDescriptors(rest: string)
    ensures KindOf("J") == LongK && KindOf("D") == DoubleK && LongK.Size() == DoubleK.Size() == 2
    ensures KindOf("F") == FloatK && KindOf("I") == KindOf("Z") == KindOf("B") == KindOf("C") == KindOf("S") == IntK
    ensures KindOf("L" + rest) == KindOf("[" + rest) == RefK && IntK.Size() == FloatK.Size() == RefK.Size() == 1
  {
    assert ("L" + rest)[0] == 'L' && ("[" + rest)[0] == '[';
  }

  datatype Value =
    | IntV(i: int)
    | LongV(l: int)
    | FloatV(f: real)
    | DoubleV(d: real)
    | NullV
    | RefV(addr: nat)
    | StrV(text: string)
  {
    function Kind(): Kind {
      match this
      case IntV(_) => IntK
      case LongV(_) => LongK
      case FloatV(_) => FloatK
      case DoubleV(_) => DoubleK
      case _ => RefK
    }

    function Size(): nat {
      Kind().Size()
    }
  }

  function DefaultOf(kind: Kind): Value {
    match kind
    case IntK => IntV(0)
    case LongK => LongV(0)
    case FloatK => FloatV(0.0)
    case DoubleK => DoubleV(0.0)
    case RefK => NullV
  }

  datatype MethodId = MethodId(owner: string, name: string, desc: string)

  /** The calls that the runtime of the agent receives. */
  datatype Hook =
    | EnterMethod(owner: string, name: string, desc: string)
    | ExitMethod
    | NoteConfigGet(param: string)
    | AfterLocalStore(slot: nat)
    | AfterLocalLoad(slot: nat)
    | BeforeFieldStore(target: Value, owner: string, field: string)
    | BeforeStaticFieldStore(owner: string, field: string)
    | BeforeFieldRead(target: Value, owner: string, field: string)
    | BeforeStaticFieldRead(owner: string, field: string)
    | NoteDirectUse(opcode: string)
    | BeforeMethodCall(owner: string, name: string, desc: string)

  /** The static methods of the runtime that inserted code may invoke. */
  datatype ProbeMethod =
    | EnterMethodP | ExitMethodP | AfterLocalStoreP | AfterLocalLoadP
    | BeforeFieldStoreP | BeforeStaticFieldStoreP | BeforeFieldReadP | BeforeStaticFieldReadP
    | NoteDirectUseP | BeforeMethodCallP
  {
    function Arity(): nat {
      match this
      case ExitMethodP => 0
      case AfterLocalStoreP => 1
      case AfterLocalLoadP => 1
      case NoteDirectUseP => 1
      case BeforeStaticFieldStoreP => 2
      case BeforeStaticFieldReadP => 2
      case _ => 3
    }

    /** The call that arrives when the method is invoked with these arguments. */
    function Call(args: seq<Value>): Option<Hook>
      requires |args| == Arity()
    {
      match this
      case EnterMethodP =>
        if args[0].StrV? && args[1].StrV? && args[2].StrV?
        then Some(EnterMethod(args[0].text, args[1].text, args[2].text)) else None
      case ExitMethodP => Some(ExitMethod)
      case AfterLocalStoreP =>
        if args[0].IntV? && args[0].i >= 0 then Some(AfterLocalStore(args[0].i)) else None
      case AfterLocalLoadP =>
        if args[0].IntV? && args[0].i >= 0 then Some(AfterLocalLoad(args[0].i)) else None
      case BeforeFieldStoreP =>
        if args[1].StrV? && args[2].StrV?
        then Some(BeforeFieldStore(args[0], args[1].text, args[2].text)) else None
      case BeforeStaticFieldStoreP =>
        if args[0].StrV? && args[1].StrV?
        then Some(BeforeStaticFieldStore(args[0].text, args[1].text)) else None
      case BeforeFieldReadP =>
        if args[1].StrV? && args[2].StrV?
        then Some(BeforeFieldRead(args[0], args[1].text, args[2].text)) else None
      case BeforeStaticFieldReadP =>
        if args[0].StrV? && args[1].StrV?
        then Some(BeforeStaticFieldRead(args[0].text, args[1].text)) else None
      case NoteDirectUseP =>
        if args[0].StrV? then Some(NoteDirectUse(args[0].text)) else None
      case BeforeMethodCallP =>
        if args[0].StrV? && args[1].StrV? && args[2].StrV?
        then Some(BeforeMethodCall(args[0].text, args[1].text, args[2].text)) else None
    }
  }

  datatype Comparison = Eq | Ne | Lt | Ge | Gt | Le

  datatype JumpOp =
    | Goto
    | If(cmp: Comparison)
    | IfICmp(icmp: Comparison)
    | IfACmp(equal: bool)
    | IfNull
    | IfNonNull

  datatype InvokeOp = InvokeVirtual | InvokeSpecial | InvokeStatic | InvokeInterface

  type Label = nat

  datatype Insn =
    | Ldc(v: Value)
    | Dup
    | Load(kind: Kind, slot: nat)
    | Store(kind: Kind, slot: nat)
    | Iinc(slot: nat, delta: int)
    | Jump(op: JumpOp, target: Label)
    | TableSwitch(min: int, max: int, dflt: Label, labels: seq<Label>)
    | LookupSwitch(dflt: Label, keys: seq<int>, labels: seq<Label>)
    | GetField(owner: string, name: string, desc: string)
    | PutField(owner: string, name: string, desc: string)
    | GetStatic(owner: string, name: string, desc: string)
    | PutStatic(owner: string, name: string, desc: string)
    | Invoke(iop: InvokeOp, owner: string, name: string, desc: string)
    | Return(result: Option<Kind>)
    | AThrow
    /** Any instruction without a visitor of its own in the agent: arithmetic, arrays, `new`, casts, ... */
    | Other(id: nat)
    /** `invokestatic` of a method of the agent's runtime. */
    | Probe(p: ProbeMethod)

  /** Labels name positions, so that inserting code moves every jump with its target. */
  datatype Code = Code(insns: seq<Insn>, labels: map<Label, nat>)

  /** `params` is the size of the argument list, in local variables. */
  datatype Method = Method(id: MethodId, abstractOrNative: bool, params: nat, maxLocals: nat, code: Code)

  type Program = map<MethodId, Method>

  datatype Heap = Heap(fields: map<(nat, string), Value>, statics: map<string, Value>, rest: map<nat, int>)

  function FieldKey(owner: string, name: string): string {
    owner + "#" + name
  }

  datatype Target =
    | Internal(id: MethodId, args: nat)
    /** Code outside the program; `gets` are the parameters it reads through a configuration getter. */
    | External(args: nat, heap: Heap, result: seq<Value>, gets: seq<string>)
    | Throws

  /** What the machine leaves open: the remaining instructions and method dispatch. */
  datatype Semantics = Semantics(
    other: (nat, seq<Value>, Heap) -> Option<(seq<Value>, Heap)>,
    dispatch: (Insn, seq<Value>, Heap) -> Target)

  /** What one instruction does, independently of where the code is laid out. */
  datatype Effect =
    | Fall(stack: seq<Value>, locals: map<nat, Value>, heap: Heap, hooks: seq<Hook>)
    | GoTo(target: Label, stack: seq<Value>)
    | CallTo(id: MethodId, args: seq<Value>, stack: seq<Value>)
    | Leave(result: Option<Value>)
    | Raise

  function Push(stack: seq<Value>, v: Value): seq<Value> {
    stack + [v]
  }

  function Top(stack: seq<Value>): Value
    requires stack != []
  {
    stack[|stack| - 1]
  }

  function Pop(stack: seq<Value>, n: nat): seq<Value>
    requires n <= |stack|
  {
    stack[..|stack| - n]
  }

  /** A store invalidates every local variable that it overlaps. */
  function StoreLocal(locals: map<nat, Value>, slot: nat, v: Value): (r: map<nat, Value>)
  {
    map n | n in locals.Keys + {slot} &&
            (n == slot ||
             (!(n + 1 == slot && locals[n].Size() == 2) && !(n == slot + 1 && v.Size() == 2)))
      :: if n == slot then v else locals[n]
  }

  /** Whether a jump is taken, and the operands left. */
  function JumpTaken(op: JumpOp, stack: seq<Value>): Option<(bool, seq<Value>)> {
    var n := |stack|;
    match op
    case Goto => Some((true, stack))
    case If(cmp) =>
      if n >= 1 && stack[n - 1].IntV? then Some((Compare(cmp, stack[n - 1].i, 0), Pop(stack, 1))) else None
    case IfICmp(cmp) =>
      if n >= 2 && stack[n - 1].IntV? && stack[n - 2].IntV?
      then Some((Compare(cmp, stack[n - 2].i, stack[n - 1].i), Pop(stack, 2))) else None
    case IfACmp(equal) =>
      if n >= 2 && stack[n - 1].Kind() == RefK && stack[n - 2].Kind() == RefK
      then Some(((stack[n - 2] == stack[n - 1]) == equal, Pop(stack, 2))) else None
    case IfNull =>
      if n >= 1 && stack[n - 1].Kind() == RefK then Some((stack[n - 1] == NullV, Pop(stack, 1))) else None
    case IfNonNull =>
      if n >= 1 && stack[n - 1].Kind() == RefK then Some((stack[n - 1] != NullV, Pop(stack, 1))) else None
  }

  predicate Compare(cmp: Comparison, a: int, b: int) {
    match cmp
    case Eq => a == b
    case Ne => a != b
    case Lt => a < b
    case Ge => a >= b
    case Gt => a > b
    case Le => a <= b
  }

  function LookupLabel(key: int, dflt: Label, keys: seq<int>, labels: seq<Label>): Label {
    if keys == [] || labels == [] then dflt
    else if keys[0] == key then labels[0]
    else LookupLabel(key, dflt, keys[1..], labels[1..])
  }

  function GetsAsHooks(gets: seq<string>): seq<Hook> {
    seq(|gets|, i requires 0 <= i < |gets| => NoteConfigGet(gets[i]))
  }

  function EffectOf(sem: Semantics, insn: Insn, stack: seq<Value>, locals: map<nat, Value>, heap: Heap): Effect {
    var n := |stack|;
    match insn
    case Ldc(v) => Fall(Push(stack, v), locals, heap, [])
    case Dup =>
      if n >= 1 && Top(stack).Size() == 1 then Fall(Push(stack, Top(stack)), locals, heap, []) else Raise
    case Load(kind, slot) =>
      if slot in locals && locals[slot].Kind() == kind then Fall(Push(stack, locals[slot]), locals, heap, []) else Raise
    case Store(kind, slot) =>
      if n >= 1 && Top(stack).Kind() == kind
      then Fall(Pop(stack, 1), StoreLocal(locals, slot, Top(stack)), heap, []) else Raise
    case Iinc(slot, delta) =>
      if slot in locals && locals[slot].IntV?
      then Fall(stack, locals[slot := IntV(locals[slot].i + delta)], heap, []) else Raise
    case Jump(op, target) =>
      (match JumpTaken(op, stack)
       case None => Raise
       case Some((taken, rest)) => if taken then GoTo(target, rest) else Fall(rest, locals, heap, []))
    case TableSwitch(min, max, dflt, labels) =>
      if n >= 1 && Top(stack).IntV? then
        var k := Top(stack).i;
        GoTo(if min <= k <= max && k - min < |labels| then labels[k - min] else dflt, Pop(stack, 1))
      else Raise
    case LookupSwitch(dflt, keys, labels) =>
      if n >= 1 && Top(stack).IntV?
      then GoTo(LookupLabel(Top(stack).i, dflt, keys, labels), Pop(stack, 1)) else Raise
    case GetField(owner, name, desc) =>
      if n >= 1 && Top(stack).RefV? then
        var key := (Top(stack).addr, FieldKey(owner, name));
        var value := if key in heap.fields then heap.fields[key] else DefaultOf(KindOf(desc));
        Fall(Push(Pop(stack, 1), value), locals, heap, [])
      else Raise
    case PutField(owner, name, desc) =>
      if n >= 2 && Top(stack).Kind() == KindOf(desc) && stack[n - 2].RefV? then
        var key := (stack[n - 2].addr, FieldKey(owner, name));
        Fall(Pop(stack, 2), locals, heap.(fields := heap.fields[key := Top(stack)]), [])
      else Raise
    case GetStatic(owner, name, desc) =>
      var key := FieldKey(owner, name);
      Fall(Push(stack, if key in heap.statics then heap.statics[key] else DefaultOf(KindOf(desc))), locals, heap, [])
    case PutStatic(owner, name, desc) =>
      if n >= 1 && Top(stack).Kind() == KindOf(desc)
      then Fall(Pop(stack, 1), locals, heap.(statics := heap.statics[FieldKey(owner, name) := Top(stack)]), [])
      else Raise
    case Invoke(_, _, _, _) =>
      (match sem.dispatch(insn, stack, heap)
       case Throws => Raise
       case Internal(id, args) => if args <= n then CallTo(id, stack[n - args..], Pop(stack, args)) else Raise
       case External(args, heap', result, gets) =>
         if args <= n then Fall(Pop(stack, args) + result, locals, heap', GetsAsHooks(gets)) else Raise)
    case Return(kind) =>
      if kind.None? then Leave(None)
      else if n >= 1 && Top(stack).Kind() == kind.value then Leave(Some(Top(stack))) else Raise
    case AThrow => Raise
    case Other(id) =>
      (match sem.other(id, stack, heap)
       case None => Raise
       case Some((stack', heap')) => Fall(stack', locals, heap', []))
    case Probe(p) =>
      if p.Arity() <= n then
        (match p.Call(stack[n - p.Arity()..])
         case None => Raise
         case Some(hook) => Fall(Pop(stack, p.Arity()), locals, heap, [hook]))
      else Raise
  }

  datatype Frame = Frame(id: MethodId, pc: nat, stack: seq<Value>, locals: map<nat, Value>)

  /** The last frame is the running one; `trace` holds the hooks called so far. */
  datatype Config = Config(frames: seq<Frame>, heap: Heap, trace: seq<Hook>)

  datatype Outcome =
    | Running(c: Config)
    | Halted(value: Option<Value>, heap: Heap, trace: seq<Hook>)
    | Faulted(heap: Heap, trace: seq<Hook>)

  function ArgSize(args: seq<Value>): nat {
    if args == [] then 0 else ArgSize(args[..|args| - 1]) + args[|args| - 1].Size()
  }

  function ArgLocals(args: seq<Value>): map<nat, Value> {
    if args == [] then map[]
    else ArgLocals(args[..|args| - 1])[ArgSize(args[..|args| - 1]) := args[|args| - 1]]
  }

  predicate CanEnter(prog: Program, id: MethodId, args: seq<Value>) {
    id in prog && !prog[id].abstractOrNative && ArgSize(args) == prog[id].params
  }

  /** Lets the running frame of `c` take an effect. */
  function Apply(prog: Program, c: Config, e: Effect): Outcome
    requires c.frames != [] && c.frames[|c.frames| - 1].id in prog
  {
    var callers := c.frames[..|c.frames| - 1];
    var f := c.frames[|c.frames| - 1];
    match e
    case Fall(stack, locals, heap, hooks) =>
      Running(Config(callers + [Frame(f.id, f.pc + 1, stack, locals)], heap, c.trace + hooks))
    case GoTo(target, stack) =>
      var labels := prog[f.id].code.labels;
      if target in labels
      then Running(Config(callers + [Frame(f.id, labels[target], stack, f.locals)], c.heap, c.trace))
      else Faulted(c.heap, c.trace)
    case CallTo(id, args, stack) =>
      if CanEnter(prog, id, args) then
        Running(Config(callers + [Frame(f.id, f.pc + 1, stack, f.locals), Frame(id, 0, [], ArgLocals(args))],
                       c.heap, c.trace))
      else Faulted(c.heap, c.trace)
    case Leave(result) =>
      if callers == [] then Halted(result, c.heap, c.trace)
      else
        var g := callers[|callers| - 1];
        var stack := if result.Some? then Push(g.stack, result.value) else g.stack;
        Running(Config(callers[..|callers| - 1] + [g.(stack := stack)], c.heap, c.trace))
    case Raise => Faulted(c.heap, c.trace)
  }

  function Step(sem: Semantics, prog: Program, c: Config): Outcome {
    if c.frames == [] then Faulted(c.heap, c.trace)
    else
      var f := c.frames[|c.frames| - 1];
      if f.id in prog && f.pc < |prog[f.id].code.insns| then
        Apply(prog, c, EffectOf(sem, prog[f.id].code.insns[f.pc], f.stack, f.locals, c.heap))
      else Faulted(c.heap, c.trace)
  }

  function Machine(sem: Semantics, prog: Program): Config -> Outcome {
    c => Step(sem, prog, c)
  }

  function Take(step: Config -> Outcome, c: Config): Outcome {
    step(c)
  }

  /** At most `n` steps of a machine. */
  function Run(step: Config -> Outcome, o: Outcome, n: nat): Outcome
    decreases n
  {
    if n == 0 || !o.Running? then o else Run(step, Take(step, o.c), n - 1)
  }

  lemma {:induction false} RunSplit(step: Config -> Outcome, o: Outcome, m: nat, n: nat)
    ensures Run(step, o, m + n) == Run(step, Run(step, o, m), n)
    decreases m
  {
    if m > 0 && o.Running? {
      RunSplit(step, Take(step, o.c), m - 1, n);
    }
  }

  lemma RunNone(step: Config -> Outcome, o: Outcome)
    ensures Run(step, o, 0) == o
  {
  }

  /** A stopped run does not move. */
  lemma StoppedStays(step: Config -> Outcome, o: Outcome, m: nat, n: nat)
    requires m <= n && !Run(step, o, m).Running?
    ensures Run(step, o, n) == Run(step, o, m)
  {
    RunSplit(step, o, m, n - m);
  }

  /** The call of a program's entry method. */
  function Start(id: MethodId, args: seq<Value>, heap: Heap): Outcome {
    Running(Config([Frame(id, 0, [], ArgLocals(args))], heap, []))
  }
}
