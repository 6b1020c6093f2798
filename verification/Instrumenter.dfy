/** The rewriting of a method by the provenance agent. */
module Instrumenter {
  import opened Text
  import opened Bytecode

  /** Which classes belong to the observed project. */
  datatype ProjectRules = ProjectRules(allow: seq<string>, deny: seq<string>) {
    predicate IsAllowedClass(internalName: string) {
      && !StartsWithAny(internalName, BUILT_IN_DENIED)
      && !StartsWithAny(internalName, deny)
      && StartsWithAny(internalName, allow)
    }
  }

  const BUILT_IN_DENIED: seq<string> :=
    ["java/", "javax/", "sun/", "jdk/", "org/slf4j/", "org/apache/log4j/", "org/apache/commons/logging/",
     "ecfuzz/agent/"]

  const CONSTRUCTOR := "<init>"
  const STATIC_INITIALISER := "<clinit>"

  /** Whether a method is given a rewriting visitor at all. */
  predicate IsRewritten(rules: ProjectRules, m: Method) {
    && rules.IsAllowedClass(m.id.owner)
    && m.id.name != CONSTRUCTOR && m.id.name != STATIC_INITIALISER
    && !m.abstractOrNative
  }

  predicate IsObservedCall(rules: ProjectRules, owner: string, name: string) {
    name != CONSTRUCTOR && name != STATIC_INITIALISER && rules.IsAllowedClass(owner)
  }

  function OpcodeName(op: JumpOp): string {
    match op
    case Goto => "GOTO"
    case If(cmp) => "IF" + ComparisonName(cmp)
    case IfICmp(cmp) => "IF_ICMP" + ComparisonName(cmp)
    case IfACmp(equal) => if equal then "IF_ACMPEQ" else "IF_ACMPNE"
    case IfNull => "IFNULL"
    case IfNonNull => "IFNONNULL"
  }

  function ComparisonName(cmp: Comparison): string {
    match cmp
    case Eq => "EQ"
    case Ne => "NE"
    case Lt => "LT"
    case Ge => "GE"
    case Gt => "GT"
    case Le => "LE"
  }

  function LdcText(s: string): Insn {
    Ldc(StrV(s))
  }

  function Prologue(id: MethodId): seq<Insn> {
    [LdcText(DotName(id.owner)), LdcText(id.name), LdcText(id.desc), Probe(EnterMethodP)]
  }

  /** What is emitted in front of an instruction; new locals start at `next`. */
  function Before(rules: ProjectRules, insn: Insn, next: nat): seq<Insn> {
    match insn
    case Jump(op, _) => if op.Goto? then [] else [LdcText(OpcodeName(op)), Probe(NoteDirectUseP)]
    case TableSwitch(_, _, _, _) => [LdcText("TABLESWITCH"), Probe(NoteDirectUseP)]
    case LookupSwitch(_, _, _) => [LdcText("LOOKUPSWITCH"), Probe(NoteDirectUseP)]
    case Invoke(_, owner, name, desc) =>
      if IsObservedCall(rules, owner, name)
      then [LdcText(DotName(owner)), LdcText(name), LdcText(desc), Probe(BeforeMethodCallP)] else []
    case GetField(owner, name, _) => [Dup, LdcText(DotName(owner)), LdcText(name), Probe(BeforeFieldReadP)]
    case GetStatic(owner, name, _) => [LdcText(DotName(owner)), LdcText(name), Probe(BeforeStaticFieldReadP)]
    case PutField(owner, name, desc) =>
      var kind := KindOf(desc);
      var ownerLocal := next + kind.Size();
      [Store(kind, next), Store(RefK, ownerLocal), Load(RefK, ownerLocal),
       LdcText(DotName(owner)), LdcText(name), Probe(BeforeFieldStoreP),
       Load(RefK, ownerLocal), Load(kind, next)]
    case PutStatic(owner, name, desc) =>
      var kind := KindOf(desc);
      [Store(kind, next), LdcText(DotName(owner)), LdcText(name), Probe(BeforeStaticFieldStoreP), Load(kind, next)]
    case Return(_) => [Probe(ExitMethodP)]
    case AThrow => [Probe(ExitMethodP)]
    case _ => []
  }

  /** What is emitted behind an instruction. */
  function After(insn: Insn): seq<Insn> {
    match insn
    case Store(_, slot) => [Ldc(IntV(slot)), Probe(AfterLocalStoreP)]
    case Load(_, slot) => [Ldc(IntV(slot)), Probe(AfterLocalLoadP)]
    case _ => []
  }

  function Block(rules: ProjectRules, insn: Insn, next: nat): seq<Insn> {
    Before(rules, insn, next) + [insn] + After(insn)
  }

  /** The local variables that rewriting an instruction reserves. */
  function NewLocals(insn: Insn): nat {
    match insn
    case PutField(_, _, desc) => KindOf(desc).Size() + 1
    case PutStatic(_, _, desc) => KindOf(desc).Size()
    case _ => 0
  }

  function NextLocal(insns: seq<Insn>, base: nat): nat {
    if insns == [] then base
    else NextLocal(insns[..|insns| - 1], base) + NewLocals(insns[|insns| - 1])
  }

  function Emitted(rules: ProjectRules, insns: seq<Insn>, base: nat): seq<Insn> {
    if insns == [] then []
    else
      var front := insns[..|insns| - 1];
      Emitted(rules, front, base) + Block(rules, insns[|insns| - 1], NextLocal(front, base))
  }

  predicate ValidInsn(insn: Insn, maxLocals: nat) {
    match insn
    case Load(kind, slot) => slot + kind.Size() <= maxLocals
    case Store(kind, slot) => slot + kind.Size() <= maxLocals
    case Iinc(slot, _) => slot < maxLocals
    case Probe(_) => false
    case _ => true
  }

  /** The constraints of the class file format on which the rewriting relies. */
  predicate ValidMethod(m: Method) {
    && m.params <= m.maxLocals
    && (forall insn | insn in m.code.insns :: ValidInsn(insn, m.maxLocals))
    && (forall l | l in m.code.labels :: m.code.labels[l] <= |m.code.insns|)
  }

  ghost predicate ValidProgram(prog: Program) {
    forall id | id in prog :: prog[id].id == id && ValidMethod(prog[id])
  }

  /** The rewritten code in front of instruction `pc`. */
  function CodeBefore(rules: ProjectRules, m: Method, pc: nat): seq<Insn>
    requires pc <= |m.code.insns|
  {
    Prologue(m.id) + Emitted(rules, m.code.insns[..pc], m.maxLocals)
  }

  /** The new positions of the labels in front of instruction `pc`. */
  function PositionsBelow(rules: ProjectRules, m: Method, pc: nat): map<Label, nat>
    requires pc <= |m.code.insns| + 1
  {
    map l | l in m.code.labels && m.code.labels[l] < pc :: |CodeBefore(rules, m, m.code.labels[l])|
  }

  /** Where the code of instruction `pc` begins after rewriting. */
  function Position(rules: ProjectRules, m: Method, pc: nat): nat
    requires pc <= |m.code.insns|
  {
    if IsRewritten(rules, m) then |CodeBefore(rules, m, pc)| else pc
  }

  function Rewritten(rules: ProjectRules, m: Method): Method {
    if !IsRewritten(rules, m) then m
    else
      var insns := m.code.insns;
      var code := Code(
        CodeBefore(rules, m, |insns|),
        PositionsBelow(rules, m, |insns| + 1));
      m.(maxLocals := NextLocal(insns, m.maxLocals), code := code)
  }

  function RewrittenProgram(rules: ProjectRules, prog: Program): Program {
    map id | id in prog :: Rewritten(rules, prog[id])
  }

  function LabelsAt(m: Method, pc: nat): set<Label> {
    set l | l in m.code.labels && m.code.labels[l] == pc
  }

  lemma PositionsBelowStep(rules: ProjectRules, m: Method, pc: nat)
    requires pc <= |m.code.insns|
    ensures PositionsBelow(rules, m, pc + 1) ==
            PositionsBelow(rules, m, pc) + map l | l in LabelsAt(m, pc) :: |CodeBefore(rules, m, pc)|
  {
  }

  lemma CodeBeforeStep(rules: ProjectRules, m: Method, pc: nat)
    requires pc < |m.code.insns|
    ensures CodeBefore(rules, m, pc + 1) ==
            CodeBefore(rules, m, pc) + Block(rules, m.code.insns[pc], NextLocal(m.code.insns[..pc], m.maxLocals))
    ensures NextLocal(m.code.insns[..pc + 1], m.maxLocals) ==
            NextLocal(m.code.insns[..pc], m.maxLocals) + NewLocals(m.code.insns[pc])
  {
    assert m.code.insns[..pc + 1][..pc] == m.code.insns[..pc];
  }

  /** The visitor that receives the instructions of one method and emits the new ones. */
  class MethodRewriter {
    const rules: ProjectRules
    const id: MethodId
    var out: seq<Insn>
    var labels: map<Label, nat>
    var nextLocal: nat

    constructor (rules: ProjectRules, id: MethodId, maxLocals: nat)
      ensures this.rules == rules && this.id == id
      ensures out == [] && labels == map[] && nextLocal == maxLocals
    {
      this.rules, this.id := rules, id;
      out, labels, nextLocal := [], map[], maxLocals;
    }

    method Emit(insn: Insn)
      modifies this`out
      ensures out == old(out) + [insn]
    {
      out := out + [insn];
    }

    method NewLocal(kind: Kind) returns (slot: nat)
      modifies this`nextLocal
      ensures slot == old(nextLocal) && nextLocal == slot + kind.Size()
    {
      slot := nextLocal;
      nextLocal := nextLocal + kind.Size();
    }

    method PushText(s: string)
      modifies this`out
      ensures out == old(out) + [LdcText(s)]
    {
      Emit(Ldc(StrV(s)));
    }

    method OnMethodEnter()
      modifies this`out
      ensures out == old(out) + Prologue(id)
    {
      PushText(DotName(id.owner));
      PushText(id.name);
      PushText(id.desc);
      Emit(Probe(EnterMethodP));
    }

    method VisitLabels(names: set<Label>)
      modifies this`labels
      ensures labels == old(labels) + map l | l in names :: |out|
    {
      labels := labels + map l | l in names :: |out|;
    }

    method VisitVarInsn(insn: Insn)
      requires insn.Load? || insn.Store?
      modifies this`out
      ensures out == old(out) + Block(rules, insn, nextLocal)
    {
      Emit(insn);
      Emit(Ldc(IntV(insn.slot)));
      if insn.Store? {
        Emit(Probe(AfterLocalStoreP));
      } else {
        Emit(Probe(AfterLocalLoadP));
      }
    }

    method VisitJumpInsn(op: JumpOp, target: Label)
      modifies this`out
      ensures out == old(out) + Block(rules, Jump(op, target), nextLocal)
    {
      if !op.Goto? {
        PushText(OpcodeName(op));
        Emit(Probe(NoteDirectUseP));
      }
      Emit(Jump(op, target));
    }

    method VisitSwitchInsn(insn: Insn)
      requires insn.TableSwitch? || insn.LookupSwitch?
      modifies this`out
      ensures out == old(out) + Block(rules, insn, nextLocal)
    {
      PushText(if insn.TableSwitch? then "TABLESWITCH" else "LOOKUPSWITCH");
      Emit(Probe(NoteDirectUseP));
      Emit(insn);
    }

    method VisitMethodInsn(iop: InvokeOp, owner: string, name: string, desc: string)
      modifies this`out
      ensures out == old(out) + Block(rules, Invoke(iop, owner, name, desc), nextLocal)
    {
      if IsObservedCall(rules, owner, name) {
        PushText(DotName(owner));
        PushText(name);
        PushText(desc);
        Emit(Probe(BeforeMethodCallP));
      }
      Emit(Invoke(iop, owner, name, desc));
    }

    method EmitFieldProbe(owner: string, name: string, p: ProbeMethod)
      modifies this`out
      ensures out == old(out) + [LdcText(DotName(owner)), LdcText(name), Probe(p)]
    {
      PushText(DotName(owner));
      PushText(name);
      Emit(Probe(p));
    }

    method VisitFieldRead(insn: Insn)
      requires insn.GetField? || insn.GetStatic?
      modifies this`out
      ensures out == old(out) + Block(rules, insn, nextLocal)
    {
      if insn.GetField? {
        Emit(Dup);
        EmitFieldProbe(insn.owner, insn.name, BeforeFieldReadP);
      } else {
        EmitFieldProbe(insn.owner, insn.name, BeforeStaticFieldReadP);
      }
      Emit(insn);
    }

    method VisitPutField(owner: string, name: string, desc: string)
      modifies this`out, this`nextLocal
      ensures out == old(out) + Block(rules, PutField(owner, name, desc), old(nextLocal))
      ensures nextLocal == old(nextLocal) + NewLocals(PutField(owner, name, desc))
    {
      hide KindOf, DotName;
      var kind := KindOf(desc);
      var valueLocal := NewLocal(kind);
      var ownerLocal := NewLocal(RefK);
      Emit(Store(kind, valueLocal));
      Emit(Store(RefK, ownerLocal));
      Emit(Load(RefK, ownerLocal));
      EmitFieldProbe(owner, name, BeforeFieldStoreP);
      Emit(Load(RefK, ownerLocal));
      Emit(Load(kind, valueLocal));
      assert out == old(out) + Before(rules, PutField(owner, name, desc), old(nextLocal));
      Emit(PutField(owner, name, desc));
    }

    method VisitPutStatic(owner: string, name: string, desc: string)
      modifies this`out, this`nextLocal
      ensures out == old(out) + Block(rules, PutStatic(owner, name, desc), old(nextLocal))
      ensures nextLocal == old(nextLocal) + NewLocals(PutStatic(owner, name, desc))
    {
      var kind := KindOf(desc);
      var valueLocal := NewLocal(kind);
      Emit(Store(kind, valueLocal));
      EmitFieldProbe(owner, name, BeforeStaticFieldStoreP);
      Emit(Load(kind, valueLocal));
      assert out == old(out) + Before(rules, PutStatic(owner, name, desc), old(nextLocal));
      Emit(PutStatic(owner, name, desc));
    }

    method VisitInsn(insn: Insn)
      requires !insn.Load? && !insn.Store? && !insn.Jump? && !insn.TableSwitch? && !insn.LookupSwitch? && !insn.Invoke?
      requires !insn.GetField? && !insn.GetStatic? && !insn.PutField? && !insn.PutStatic?
      modifies this`out
      ensures out == old(out) + Block(rules, insn, nextLocal)
    {
      if insn.Return? || insn.AThrow? {
        Emit(Probe(ExitMethodP));
      }
      Emit(insn);
    }

    method Visit(insn: Insn)
      modifies this`out, this`nextLocal
      ensures out == old(out) + Block(rules, insn, old(nextLocal))
      ensures nextLocal == old(nextLocal) + NewLocals(insn)
    {
      match insn {
        case Load(_, _) => VisitVarInsn(insn);
        case Store(_, _) => VisitVarInsn(insn);
        case Jump(op, target) => VisitJumpInsn(op, target);
        case TableSwitch(_, _, _, _) => VisitSwitchInsn(insn);
        case LookupSwitch(_, _, _) => VisitSwitchInsn(insn);
        case Invoke(iop, owner, name, desc) => VisitMethodInsn(iop, owner, name, desc);
        case GetField(_, _, _) => VisitFieldRead(insn);
        case GetStatic(_, _, _) => VisitFieldRead(insn);
        case PutField(owner, name, desc) => VisitPutField(owner, name, desc);
        case PutStatic(owner, name, desc) => VisitPutStatic(owner, name, desc);
        case _ => VisitInsn(insn);
      }
    }

    /** The reader's traversal: the labels of a position, then its instruction. */
    method VisitCode(m: Method)
      requires m.id == id && out == [] && labels == map[] && nextLocal == m.maxLocals
      modifies this`out, this`labels, this`nextLocal
      ensures out == CodeBefore(rules, m, |m.code.insns|)
      ensures labels == PositionsBelow(rules, m, |m.code.insns| + 1)
      ensures nextLocal == NextLocal(m.code.insns, m.maxLocals)
    {
      var insns := m.code.insns;
      OnMethodEnter();
      var pc := 0;
      while pc < |insns|
        invariant 0 <= pc <= |insns|
        invariant out == CodeBefore(rules, m, pc)
        invariant nextLocal == NextLocal(insns[..pc], m.maxLocals)
        invariant labels == PositionsBelow(rules, m, pc)
      {
        VisitLabels(LabelsAt(m, pc));
        PositionsBelowStep(rules, m, pc);
        CodeBeforeStep(rules, m, pc);
        Visit(insns[pc]);
        pc := pc + 1;
      }
      VisitLabels(LabelsAt(m, pc));
      PositionsBelowStep(rules, m, pc);
      assert insns[..pc] == insns;
    }
  }

  /** Which classes are observed, prefix by prefix. */
  lemma AllowedIff(rules: ProjectRules, owner: string)
    ensures rules.IsAllowedClass(owner) <==>
            && (exists p :: p in rules.allow && p <= owner)
            && !(exists p :: p in rules.deny && p <= owner)
            && !("java/" <= owner) && !("javax/" <= owner) && !("sun/" <= owner) && !("jdk/" <= owner)
            && !("org/slf4j/" <= owner) && !("org/apache/log4j/" <= owner)
            && !("org/apache/commons/logging/" <= owner) && !("ecfuzz/agent/" <= owner)
  {
    hide StartsWithAny;
    StartsWithAnyIff(owner, rules.allow);
    StartsWithAnyIff(owner, rules.deny);
    StartsWithAnyIff(owner, BUILT_IN_DENIED);
    BuiltInDenied(owner);
  }

  lemma BuiltInDenied(owner: string)
    ensures (exists p :: p in BUILT_IN_DENIED && p <= owner) <==>
            || "java/" <= owner || "javax/" <= owner || "sun/" <= owner || "jdk/" <= owner
            || "org/slf4j/" <= owner || "org/apache/log4j/" <= owner
            || "org/apache/commons/logging/" <= owner || "ecfuzz/agent/" <= owner
  {
    var d := BUILT_IN_DENIED;
    assert d[0] == "java/" && d[1] == "javax/" && d[2] == "sun/" && d[3] == "jdk/" && d[4] == "org/slf4j/";
    assert d[5] == "org/apache/log4j/" && d[6] == "org/apache/commons/logging/" && d[7] == "ecfuzz/agent/";
    OneOfEight(d, owner);
  }

  lemma OneOfEight(d: seq<string>, s: string)
    requires |d| == 8
    ensures (exists p :: p in d && p <= s) <==>
            || d[0] <= s || d[1] <= s || d[2] <= s || d[3] <= s || d[4] <= s || d[5] <= s || d[6] <= s || d[7] <= s
  {
    assert forall i | 0 <= i < 8 :: d[i] in d;
  }

  /** A call is announced exactly if it is no initialiser and its class is observed. */
  lemma CallIsAnnouncedIff(rules: ProjectRules, iop: InvokeOp, owner: string, name: string, desc: string, next: nat)
    ensures var before := Before(rules, Invoke(iop, owner, name, desc), next);
            if name != "<init>" && name != "<clinit>" && rules.IsAllowedClass(owner)
            then before == [Ldc(StrV(DotName(owner))), Ldc(StrV(name)), Ldc(StrV(desc)), Probe(BeforeMethodCallP)]
            else before == []
  {
  }

  /** The names of the conditional jumps, by which a direct use is reported. */
  lemma OpcodeNames()
    ensures OpcodeName(If(Eq)) == "IFEQ" && OpcodeName(If(Ne)) == "IFNE" && OpcodeName(If(Lt)) == "IFLT"
    ensures OpcodeName(If(Ge)) == "IFGE" && OpcodeName(If(Gt)) == "IFGT" && OpcodeName(If(Le)) == "IFLE"
    ensures OpcodeName(IfICmp(Eq)) == "IF_ICMPEQ" && OpcodeName(IfICmp(Ne)) == "IF_ICMPNE"
    ensures OpcodeName(IfICmp(Lt)) == "IF_ICMPLT" && OpcodeName(IfICmp(Ge)) == "IF_ICMPGE"
    ensures OpcodeName(IfICmp(Gt)) == "IF_ICMPGT" && OpcodeName(IfICmp(Le)) == "IF_ICMPLE"
    ensures OpcodeName(IfACmp(true)) == "IF_ACMPEQ" && OpcodeName(IfACmp(false)) == "IF_ACMPNE"
    ensures OpcodeName(IfNull) == "IFNULL" && OpcodeName(IfNonNull) == "IFNONNULL"
  {
  }

  /** The local variables that an instruction needs. */
  function Needs(insn: Insn): nat {
    match insn
    case Load(kind, slot) => slot + kind.Size()
    case Store(kind, slot) => slot + kind.Size()
    case Iinc(slot, _) => slot + 1
    case _ => 0
  }

  lemma BlockFits(rules: ProjectRules, insn: Insn, next: nat)
    ensures forall i | i in Block(rules, insn, next) && i != insn :: Needs(i) <= next + NewLocals(insn)
  {
    hide IsObservedCall, DotName, OpcodeName, KindOf;
  }

  lemma {:induction false} EmittedFits(rules: ProjectRules, insns: seq<Insn>, base: nat)
    requires forall insn | insn in insns :: Needs(insn) <= base
    ensures NextLocal(insns, base) >= base
    ensures forall insn | insn in Emitted(rules, insns, base) :: Needs(insn) <= NextLocal(insns, base)
  {
    hide Block, Needs, NewLocals;
    if insns != [] {
      var n := |insns| - 1;
      assert insns == insns[..n] + [insns[n]];
      EmittedFits(rules, insns[..n], base);
      BlockFits(rules, insns[n], NextLocal(insns[..n], base));
    }
  }

  /** The rewritten code stays within the local variables that it reserves. */
  lemma RewrittenFits(rules: ProjectRules, m: Method)
    requires ValidMethod(m)
    ensures forall insn | insn in Rewritten(rules, m).code.insns :: Needs(insn) <= Rewritten(rules, m).maxLocals
  {
    hide IsRewritten, Emitted, NextLocal;
    forall insn | insn in m.code.insns
      ensures Needs(insn) <= m.maxLocals
    {
      assert ValidInsn(insn, m.maxLocals);
    }
    var insns := m.code.insns;
    assert insns[..|insns|] == insns;
    EmittedFits(rules, insns, m.maxLocals);
  }

  /**
   * A method comes back as it is exactly if it is an initialiser, has no code, or its class is not
   * observed; otherwise it begins with its announcement.
   */
  method RewriteMethod(rules: ProjectRules, m: Method) returns (r: Method)
    ensures r == Rewritten(rules, m)
    ensures r == m <==>
            || m.id.name == "<init>" || m.id.name == "<clinit>" || m.abstractOrNative
            || !(exists p :: p in rules.allow && p <= m.id.owner)
            || (exists p :: p in rules.deny && p <= m.id.owner)
            || "java/" <= m.id.owner || "javax/" <= m.id.owner || "sun/" <= m.id.owner || "jdk/" <= m.id.owner
            || "org/slf4j/" <= m.id.owner || "org/apache/log4j/" <= m.id.owner
            || "org/apache/commons/logging/" <= m.id.owner || "ecfuzz/agent/" <= m.id.owner
    ensures r != m ==>
              [Ldc(StrV(DotName(m.id.owner))), Ldc(StrV(m.id.name)), Ldc(StrV(m.id.desc)), Probe(EnterMethodP)]
              <= r.code.insns
    ensures r.id == m.id && r.params == m.params && r.abstractOrNative == m.abstractOrNative
  {
    AllowedIff(rules, m.id.owner);
    CodeGrows(rules, m);
    hide StartsWithAny, CodeBefore, PositionsBelow, NextLocal, DotName;
    hide ProjectRules.IsAllowedClass;
    if IsRewritten(rules, m) {
      var visitor := new MethodRewriter(rules, m.id, m.maxLocals);
      visitor.VisitCode(m);
      r := m.(maxLocals := visitor.nextLocal, code := Code(visitor.out, visitor.labels));
    } else {
      r := m;
    }
  }

  /** The emitted code holds the original one and more. */
  lemma CodeGrows(rules: ProjectRules, m: Method)
    ensures var code := CodeBefore(rules, m, |m.code.insns|);
            && |code| >= |m.code.insns| + 4
            && [Ldc(StrV(DotName(m.id.owner))), Ldc(StrV(m.id.name)), Ldc(StrV(m.id.desc)), Probe(EnterMethodP)] <= code
  {
    hide Emitted, DotName;
    assert m.code.insns[..|m.code.insns|] == m.code.insns;
    EmittedGrows(rules, m.code.insns, m.maxLocals);
  }

  lemma {:induction false} EmittedGrows(rules: ProjectRules, insns: seq<Insn>, base: nat)
    ensures |Emitted(rules, insns, base)| >= |insns|
  {
    hide Before, After;
    if insns != [] {
      EmittedGrows(rules, insns[..|insns| - 1], base);
    }
  }
}
