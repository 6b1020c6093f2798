/**
 * The runtime of the provenance agent.  A read of a configuration parameter leaves
 * a pending binding with the reading thread; storing it moves the binding to a
 * local variable or a field, and using it reports the parameter as exercised.
 */
module TraceRuntime {
  import opened Text
  import opened Bytecode
  import opened Wrappers

  type Thread = nat

  /** `serial` stands for the identity of the binding object. */
  datatype Binding = Binding(param: string, source: string, serial: nat)

  datatype FrameView = FrameView(methodId: string, locals: map<nat, Binding>)

  /** Everything the hooks read and write.  The last frame of a thread is its current one. */
  datatype Memory = Memory(
    frames: map<Thread, seq<FrameView>>,
    pending: map<Thread, Binding>,
    instances: map<Value, map<string, Binding>>,
    statics: map<string, Binding>,
    created: nat)
  {
    function Stack(t: Thread): seq<FrameView> {
      if t in frames then frames[t] else []
    }

    function Depth(t: Thread): nat {
      |Stack(t)|
    }

    predicate HasInstance(target: Value, key: string) {
      target in instances && key in instances[target]
    }

    function CurrentMethodId(t: Thread): string {
      if Depth(t) == 0 then UNKNOWN_METHOD else Stack(t)[Depth(t) - 1].methodId
    }
  }

  const UNKNOWN_METHOD := "unknown#unknown"

  const EMPTY_MEMORY := Memory(map[], map[], map[], map[], 0)

  /** What the runtime reports. */
  datatype LogEvent =
    | LocalStored(param: string, frame: string, slot: nat)
    | LocalTouched(param: string, frame: string, slot: nat)
    | FieldStored(param: string, field: string, writer: string)
    | FieldTouched(param: string, field: string, reader: string)
    | DirectlyUsed(param: string, site: string, op: string)
    | ArgPassed(param: string, caller: string, callee: string)
    | UseBacked(param: string, reason: string, site: string)

  // ----- the hooks as functions of the memory -----

  /** What becomes of a pending binding that is written somewhere or used. */
  function Consumed(mem: Memory, t: Thread): Memory {
    mem.(pending := mem.pending - {t})
  }

  function WithTop(mem: Memory, t: Thread, locals: map<nat, Binding>): Memory
    requires mem.Depth(t) > 0
  {
    var stack := mem.Stack(t);
    mem.(frames := mem.frames[t := stack[..|stack| - 1] + [stack[|stack| - 1].(locals := locals)]])
  }

  function TopLocals(mem: Memory, t: Thread): map<nat, Binding>
    requires mem.Depth(t) > 0
  {
    mem.Stack(t)[mem.Depth(t) - 1].locals
  }

  function AfterHook(mem: Memory, t: Thread, h: Hook): Memory {
    match h
    case EnterMethod(owner, name, _) =>
      mem.(frames := mem.frames[t := mem.Stack(t) + [FrameView(FieldKey(owner, name), map[])]])
    case ExitMethod =>
      if mem.Depth(t) == 0 then mem else mem.(frames := mem.frames[t := mem.Stack(t)[..mem.Depth(t) - 1]])
    case NoteConfigGet(param) =>
      if Trim(param) == "" then mem
      else mem.(pending := mem.pending[t := Binding(Trim(param), mem.CurrentMethodId(t), mem.created)],
                created := mem.created + 1)
    case AfterLocalStore(slot) =>
      if mem.Depth(t) == 0 then mem
      else if t !in mem.pending then WithTop(mem, t, TopLocals(mem, t) - {slot})
      else Consumed(WithTop(mem, t, TopLocals(mem, t)[slot := mem.pending[t]]), t)
    case AfterLocalLoad(_) => mem
    case BeforeFieldStore(target, owner, field) =>
      var key := FieldKey(owner, field);
      if t !in mem.pending then
        if target !in mem.instances then mem
        else mem.(instances := mem.instances[target := mem.instances[target] - {key}])
      else if target == NullV then Consumed(mem, t)
      else
        var fieldMap := if target in mem.instances then mem.instances[target] else map[];
        Consumed(mem.(instances := mem.instances[target := fieldMap[key := mem.pending[t]]]), t)
    case BeforeStaticFieldStore(owner, field) =>
      var key := FieldKey(owner, field);
      if t !in mem.pending then mem.(statics := mem.statics - {key})
      else Consumed(mem.(statics := mem.statics[key := mem.pending[t]]), t)
    case BeforeFieldRead(_, _, _) => mem
    case BeforeStaticFieldRead(_, _) => mem
    case NoteDirectUse(_) => Consumed(mem, t)
    case BeforeMethodCall(_, _, _) => Consumed(mem, t)
  }

  /** The reports of a hook; the report of an exercised parameter is the last one, if any. */
  function Reports(mem: Memory, t: Thread, h: Hook): seq<LogEvent> {
    var site := mem.CurrentMethodId(t);
    match h
    case AfterLocalStore(slot) =>
      if mem.Depth(t) == 0 || t !in mem.pending then [] else [LocalStored(mem.pending[t].param, site, slot)]
    case AfterLocalLoad(slot) =>
      if mem.Depth(t) == 0 || slot !in TopLocals(mem, t) then []
      else
        var param := TopLocals(mem, t)[slot].param;
        [LocalTouched(param, site, slot), UseBacked(param, "local-touch", site)]
    case BeforeFieldStore(_, owner, field) =>
      if t !in mem.pending then [] else [FieldStored(mem.pending[t].param, FieldKey(owner, field), site)]
    case BeforeStaticFieldStore(owner, field) =>
      if t !in mem.pending then [] else [FieldStored(mem.pending[t].param, FieldKey(owner, field), site)]
    case BeforeFieldRead(target, owner, field) =>
      var key := FieldKey(owner, field);
      if !mem.HasInstance(target, key) then []
      else
        var param := mem.instances[target][key].param;
        [FieldTouched(param, key, site), UseBacked(param, "field-touch", site)]
    case BeforeStaticFieldRead(owner, field) =>
      var key := FieldKey(owner, field);
      if key !in mem.statics then []
      else [FieldTouched(mem.statics[key].param, key, site), UseBacked(mem.statics[key].param, "field-touch", site)]
    case NoteDirectUse(op) =>
      if t !in mem.pending then []
      else [DirectlyUsed(mem.pending[t].param, site, op), UseBacked(mem.pending[t].param, "direct", site)]
    case BeforeMethodCall(owner, name, _) =>
      if t !in mem.pending then []
      else [ArgPassed(mem.pending[t].param, site, FieldKey(owner, name)),
            UseBacked(mem.pending[t].param, "arg-pass", site)]
    case _ => []
  }

  /** The reports that pass the switch for exercised parameters. */
  function Emitted(events: seq<LogEvent>, emitUseBacked: bool): seq<LogEvent> {
    if events == [] then []
    else (if events[0].UseBacked? && !emitUseBacked then [] else [events[0]]) + Emitted(events[1..], emitUseBacked)
  }

  lemma EmittedOne(e: LogEvent, emitUseBacked: bool)
    requires !e.UseBacked?
    ensures Emitted([e], emitUseBacked) == [e]
  {
  }

  lemma EmittedTwo(e: LogEvent, use: LogEvent, emitUseBacked: bool)
    requires !e.UseBacked? && use.UseBacked?
    ensures Emitted([e, use], emitUseBacked) == [e] + Emitted([use], emitUseBacked)
  {
    assert [e, use][1..] == [use];
  }

  /** With the switch on everything passes; with the switch off, everything but the reports of uses, in order. */
  lemma {:induction false} EmittedGrows(events: seq<LogEvent>, e: LogEvent, emitUseBacked: bool)
    ensures Emitted(events + [e], emitUseBacked) ==
            Emitted(events, emitUseBacked) + if e.UseBacked? && !emitUseBacked then [] else [e]
  {
    if events == [] {
      assert (events + [e])[1..] == [] && events + [e] == [e];
    } else {
      assert (events + [e])[1..] == events[1..] + [e];
      EmittedGrows(events[1..], e, emitUseBacked);
    }
  }

  lemma EmittedNone(emitUseBacked: bool)
    ensures Emitted([], emitUseBacked) == []
  {
  }

  // ----- the objects of the runtime -----

  class FrameState {
    const methodId: string
    var localBindings: map<nat, Binding>
    /** The only place where a frame is ever held, so that no two places share one. */
    ghost const thread: Thread
    ghost const level: nat

    constructor (methodId: string, ghost thread: Thread, ghost level: nat)
      ensures this.methodId == methodId && localBindings == map[]
      ensures this.thread == thread && this.level == level
    {
      this.methodId := methodId;
      localBindings := map[];
      this.thread, this.level := thread, level;
    }

    method BindLocal(slot: nat, binding: Binding)
      modifies this
      ensures localBindings == old(localBindings)[slot := binding]
    {
      localBindings := localBindings[slot := binding];
    }

    method GetLocalBinding(slot: nat) returns (r: Option<Binding>)
      ensures r == if slot in localBindings then Some(localBindings[slot]) else None
    {
      r := if slot in localBindings then Some(localBindings[slot]) else None;
    }

    method ClearLocalBinding(slot: nat)
      modifies this
      ensures localBindings == old(localBindings) - {slot}
    {
      localBindings := localBindings - {slot};
    }

    ghost function View(): FrameView
      reads this
    {
      FrameView(methodId, localBindings)
    }
  }

  /** The tables that all threads share; no object is null. */
  class FieldBindingStore {
    var instanceBindings: map<Value, map<string, Binding>>
    var staticBindings: map<string, Binding>

    constructor ()
      ensures instanceBindings == map[] && staticBindings == map[]
    {
      instanceBindings, staticBindings := map[], map[];
    }

    method BindInstance(target: Value, owner: string, field: string, binding: Binding)
      modifies this`instanceBindings
      ensures target == NullV ==> instanceBindings == old(instanceBindings)
      ensures target != NullV ==>
                var fieldMap := if target in old(instanceBindings) then old(instanceBindings)[target] else map[];
                instanceBindings == old(instanceBindings)[target := fieldMap[FieldKey(owner, field) := binding]]
    {
      if target == NullV {
        return;
      }
      var fieldMap := if target in instanceBindings then instanceBindings[target] else map[];
      instanceBindings := instanceBindings[target := fieldMap[owner + "#" + field := binding]];
    }

    method GetInstanceBinding(target: Value, owner: string, field: string) returns (r: Option<Binding>)
      ensures r == if target != NullV && target in instanceBindings
              && FieldKey(owner, field) in instanceBindings[target]
                   then Some(instanceBindings[target][FieldKey(owner, field)]) else None
    {
      if target == NullV || target !in instanceBindings {
        return None;
      }
      var key := owner + "#" + field;
      r := if key in instanceBindings[target] then Some(instanceBindings[target][key]) else None;
    }

    method ClearInstanceBinding(target: Value, owner: string, field: string)
      modifies this`instanceBindings
      ensures instanceBindings ==
              if target != NullV && target in old(instanceBindings)
              then old(instanceBindings)[target := old(instanceBindings)[target] - {FieldKey(owner, field)}]
              else old(instanceBindings)
    {
      if target == NullV || target !in instanceBindings {
        return;
      }
      instanceBindings := instanceBindings[target := instanceBindings[target] - {owner + "#" + field}];
    }

    method BindStatic(owner: string, field: string, binding: Binding)
      modifies this`staticBindings
      ensures staticBindings == old(staticBindings)[FieldKey(owner, field) := binding]
    {
      staticBindings := staticBindings[owner + "#" + field := binding];
    }

    method GetStaticBinding(owner: string, field: string) returns (r: Option<Binding>)
      ensures var key := FieldKey(owner, field);
              r == if key in staticBindings then Some(staticBindings[key]) else None
    {
      var key := owner + "#" + field;
      r := if key in staticBindings then Some(staticBindings[key]) else None;
    }

    method ClearStaticBinding(owner: string, field: string)
      modifies this`staticBindings
      ensures staticBindings == old(staticBindings) - {FieldKey(owner, field)}
    {
      staticBindings := staticBindings - {owner + "#" + field};
    }
  }

  /** The runtime itself: one stack of frames and one pending binding per thread, shared field tables. */
  class Runtime {
    const fieldBindings: FieldBindingStore
    var frameStacks: map<Thread, seq<FrameState>>
    var pending: map<Thread, Binding>
    var created: nat
    var emitUseBacked: bool
    var log: seq<LogEvent>
    ghost var mem: Memory

    ghost function Objects(): set<FrameState>
      reads this`frameStacks
    {
      set t, i | t in frameStacks && 0 <= i < |frameStacks[t]| :: frameStacks[t][i]
    }

    ghost predicate ValidStack(t: Thread)
      requires t in frameStacks && t in mem.frames
      reads this`frameStacks, this`mem, frameStacks[t]
    {
      && |frameStacks[t]| == |mem.frames[t]|
      && forall i | 0 <= i < |frameStacks[t]| ::
           && frameStacks[t][i].thread == t && frameStacks[t][i].level == i
           && frameStacks[t][i].View() == mem.frames[t][i]
    }

    ghost predicate Valid()
      reads this`frameStacks, this`pending, this`created, this`mem, fieldBindings, Objects()
    {
      && NullV !in fieldBindings.instanceBindings
      && mem.pending == pending && mem.created == created
      && mem.instances == fieldBindings.instanceBindings && mem.statics == fieldBindings.staticBindings
      && mem.frames.Keys == frameStacks.Keys
      && forall t | t in frameStacks :: ValidStack(t)
    }

    constructor ()
      ensures Valid() && mem == EMPTY_MEMORY && log == [] && emitUseBacked
      ensures fresh(fieldBindings) && Objects() == {}
    {
      fieldBindings := new FieldBindingStore();
      frameStacks, pending, created, emitUseBacked, log := map[], map[], 0, true, [];
      mem := EMPTY_MEMORY;
    }

    function StackOf(t: Thread): seq<FrameState>
      reads this`frameStacks
    {
      if t in frameStacks then frameStacks[t] else []
    }

    method CurrentMethodIdOf(t: Thread) returns (id: string)
      requires |StackOf(t)| == mem.Depth(t)
      requires StackOf(t) != [] ==> StackOf(t)[mem.Depth(t) - 1].methodId == mem.Stack(t)[mem.Depth(t) - 1].methodId
      ensures id == mem.CurrentMethodId(t)
    {
      var stack := StackOf(t);
      id := if stack == [] then "unknown#unknown" else stack[|stack| - 1].methodId;
    }

    method Emit(e: LogEvent)
      modifies this`log
      ensures log == old(log) + [e]
    {
      log := log + [e];
    }

    method EmitUseBacked(param: string, reason: string, site: string)
      modifies this`log
      ensures log == old(log) + Emitted([UseBacked(param, reason, site)], emitUseBacked)
    {
      if !emitUseBacked {
        return;
      }
      Emit(UseBacked(param, reason, site));
    }

    lemma StackIsMirrored(t: Thread)
      requires Valid()
      ensures |StackOf(t)| == mem.Depth(t)
      ensures StackOf(t) != [] ==> StackOf(t)[mem.Depth(t) - 1].methodId == mem.Stack(t)[mem.Depth(t) - 1].methodId
      ensures StackOf(t) != [] ==> StackOf(t)[mem.Depth(t) - 1].localBindings == TopLocals(mem, t)
      ensures mem.pending == pending && mem.instances == fieldBindings.instanceBindings
      ensures mem.statics == fieldBindings.staticBindings && NullV !in fieldBindings.instanceBindings
    {
      if t in frameStacks {
        assert ValidStack(t);
      }
    }

    method PushFrame(t: Thread, frame: FrameState)
      requires Valid() && frame.thread == t && frame.level == |StackOf(t)|
      modifies this`frameStacks, this`mem
      ensures Valid() && Objects() <= old(Objects()) + {frame}
      ensures mem == old(mem).(frames := old(mem).frames[t := old(mem).Stack(t) + [old(frame.View())]])
    {
      frameStacks := frameStacks[t := StackOf(t) + [frame]];
      mem := mem.(frames := mem.frames[t := mem.Stack(t) + [frame.View()]]);
      forall u | u in frameStacks ensures ValidStack(u) {
        if u != t {
          assert old(ValidStack(u));
        }
      }
    }

    method EnterMethod(t: Thread, owner: string, name: string, desc: string)
      requires Valid()
      modifies this`frameStacks, this`mem
      ensures Valid() && fresh(Objects() - old(Objects()))
      ensures mem == AfterHook(old(mem), t, Hook.EnterMethod(owner, name, desc))
    {
      hide ValidStack;
      StackIsMirrored(t);
      var frame := new FrameState(owner + "#" + name, t, |StackOf(t)|);
      PushFrame(t, frame);
    }

    method ExitMethod(t: Thread)
      requires Valid()
      modifies this`frameStacks, this`mem
      ensures Valid() && Objects() <= old(Objects())
      ensures mem == AfterHook(old(mem), t, Hook.ExitMethod)
    {
      var stack := StackOf(t);
      if stack != [] {
        frameStacks := frameStacks[t := stack[..|stack| - 1]];
      }
      mem := AfterHook(mem, t, Hook.ExitMethod);
    }

    method NoteConfigGet(t: Thread, param: string)
      requires Valid()
      modifies this`pending, this`created, this`mem
      ensures Valid()
      ensures mem == AfterHook(old(mem), t, Hook.NoteConfigGet(param))
    {
      if Trim(param) == "" {
        return;
      }
      var id := CurrentMethodIdOf(t);
      pending := pending[t := Binding(Trim(param), id, created)];
      created := created + 1;
      mem := AfterHook(mem, t, Hook.NoteConfigGet(param));
    }

    method RemovePending(t: Thread)
      requires Valid()
      modifies this`pending, this`mem
      ensures Valid() && mem == Consumed(old(mem), t)
    {
      pending := pending - {t};
      mem := Consumed(mem, t);
    }

    /** Changing the variables of a thread's current frame changes nothing else. */
    ghost method NoteTopChange(t: Thread, frame: FrameState, before: map<nat, Binding>)
      requires t in frameStacks && t in mem.frames && frameStacks[t] != [] && mem.Depth(t) == |frameStacks[t]|
      requires frame == frameStacks[t][|frameStacks[t]| - 1] && frame.thread == t && frame.level == |frameStacks[t]| - 1
      requires ValidExcept(frame) && mem.Stack(t)[frame.level] == FrameView(frame.methodId, before)
      modifies this`mem
      ensures Valid() && mem == WithTop(old(mem), t, frame.localBindings)
    {
      mem := WithTop(mem, t, frame.localBindings);
    }

    /** Valid, but for the variables of one frame. */
    ghost predicate ValidExcept(frame: FrameState)
      reads this`frameStacks, this`pending, this`created, this`mem, fieldBindings, Objects()
    {
      && NullV !in fieldBindings.instanceBindings
      && mem.pending == pending && mem.created == created
      && mem.instances == fieldBindings.instanceBindings && mem.statics == fieldBindings.staticBindings
      && mem.frames.Keys == frameStacks.Keys
      && forall t | t in frameStacks ::
           && |frameStacks[t]| == |mem.frames[t]|
           && forall i | 0 <= i < |frameStacks[t]| ::
                && frameStacks[t][i].thread == t && frameStacks[t][i].level == i
                && (frameStacks[t][i] != frame ==> frameStacks[t][i].View() == mem.frames[t][i])
    }

    method BindTop(t: Thread, slot: nat, binding: Binding)
      requires Valid() && mem.Depth(t) > 0
      modifies this`mem, Objects()
      ensures Valid() && mem == WithTop(old(mem), t, TopLocals(old(mem), t)[slot := binding])
    {
      var frame := frameStacks[t][|frameStacks[t]| - 1];
      ghost var before := frame.localBindings;
      frame.BindLocal(slot, binding);
      NoteTopChange(t, frame, before);
    }

    method ClearTop(t: Thread, slot: nat)
      requires Valid() && mem.Depth(t) > 0
      modifies this`mem, Objects()
      ensures Valid() && mem == WithTop(old(mem), t, TopLocals(old(mem), t) - {slot})
      ensures t !in pending ==> mem == AfterHook(old(mem), t, Hook.AfterLocalStore(slot))
    {
      var frame := frameStacks[t][|frameStacks[t]| - 1];
      ghost var before := frame.localBindings;
      frame.ClearLocalBinding(slot);
      NoteTopChange(t, frame, before);
    }

    method MovePendingToTop(t: Thread, slot: nat)
      requires Valid() && mem.Depth(t) > 0 && t in pending
      modifies this`pending, this`mem, Objects()
      ensures Valid() && mem == AfterHook(old(mem), t, Hook.AfterLocalStore(slot))
    {
      BindTop(t, slot, pending[t]);
      RemovePending(t);
    }

    method AfterLocalStore(t: Thread, slot: nat)
      requires Valid()
      modifies this`pending, this`log, this`mem, Objects()
      ensures Valid()
      ensures mem == AfterHook(old(mem), t, Hook.AfterLocalStore(slot))
      ensures log == old(log) + Emitted(Reports(old(mem), t, Hook.AfterLocalStore(slot)), emitUseBacked)
    {
      hide ValidStack, Emitted, WithTop;
      StackIsMirrored(t);
      EmittedNone(emitUseBacked);
      if StackOf(t) == [] {
        return;
      }
      if t !in pending {
        ClearTop(t, slot);
        return;
      }
      var param := pending[t].param;
      var site := CurrentMethodIdOf(t);
      EmittedOne(LocalStored(param, site, slot), emitUseBacked);
      assert Reports(mem, t, Hook.AfterLocalStore(slot)) == [LocalStored(param, site, slot)];
      MovePendingToTop(t, slot);
      Emit(LocalStored(param, site, slot));
    }

    method AfterLocalLoad(t: Thread, slot: nat)
      requires Valid()
      modifies this`log
      ensures Valid() && mem == AfterHook(mem, t, Hook.AfterLocalLoad(slot))
      ensures log == old(log) + Emitted(Reports(mem, t, Hook.AfterLocalLoad(slot)), emitUseBacked)
    {
      hide ValidStack, Emitted;
      StackIsMirrored(t);
      EmittedNone(emitUseBacked);
      var stack := StackOf(t);
      if stack == [] {
        return;
      }
      var frame := stack[|stack| - 1];
      var binding := frame.GetLocalBinding(slot);
      if binding.None? {
        return;
      }
      EmittedTwo(LocalTouched(binding.value.param, frame.methodId, slot),
                 UseBacked(binding.value.param, "local-touch", frame.methodId), emitUseBacked);
      Emit(LocalTouched(binding.value.param, frame.methodId, slot));
      EmitUseBacked(binding.value.param, "local-touch", frame.methodId);
    }

    method MovePendingToInstance(t: Thread, target: Value, owner: string, field: string)
      requires Valid() && t in pending
      modifies this`pending, this`mem, fieldBindings
      ensures Valid() && mem == AfterHook(old(mem), t, Hook.BeforeFieldStore(target, owner, field))
    {
      fieldBindings.BindInstance(target, owner, field, pending[t]);
      mem := mem.(instances := fieldBindings.instanceBindings);
      RemovePending(t);
    }

    method ClearInstance(t: Thread, target: Value, owner: string, field: string)
      requires Valid() && t !in pending
      modifies this`mem, fieldBindings
      ensures Valid() && mem == AfterHook(old(mem), t, Hook.BeforeFieldStore(target, owner, field))
    {
      fieldBindings.ClearInstanceBinding(target, owner, field);
      mem := mem.(instances := fieldBindings.instanceBindings);
    }

    method BeforeFieldStore(t: Thread, target: Value, owner: string, field: string)
      requires Valid()
      modifies this`pending, this`log, this`mem, fieldBindings
      ensures Valid()
      ensures mem == AfterHook(old(mem), t, Hook.BeforeFieldStore(target, owner, field))
      ensures log == old(log) +
                     Emitted(Reports(old(mem), t, Hook.BeforeFieldStore(target, owner, field)), emitUseBacked)
    {
      if t !in pending {
        ClearInstance(t, target, owner, field);
        return;
      }
      var param := pending[t].param;
      var writer := CurrentMethodIdOf(t);
      MovePendingToInstance(t, target, owner, field);
      Emit(FieldStored(param, owner + "#" + field, writer));
    }

    method MovePendingToStatic(t: Thread, owner: string, field: string)
      requires Valid() && t in pending
      modifies this`pending, this`mem, fieldBindings
      ensures Valid() && mem == AfterHook(old(mem), t, Hook.BeforeStaticFieldStore(owner, field))
    {
      fieldBindings.BindStatic(owner, field, pending[t]);
      mem := mem.(statics := fieldBindings.staticBindings);
      RemovePending(t);
    }

    method ClearStatic(t: Thread, owner: string, field: string)
      requires Valid() && t !in pending
      modifies this`mem, fieldBindings
      ensures Valid() && mem == AfterHook(old(mem), t, Hook.BeforeStaticFieldStore(owner, field))
    {
      fieldBindings.ClearStaticBinding(owner, field);
      mem := mem.(statics := fieldBindings.staticBindings);
    }

    method BeforeStaticFieldStore(t: Thread, owner: string, field: string)
      requires Valid()
      modifies this`pending, this`log, this`mem, fieldBindings
      ensures Valid()
      ensures mem == AfterHook(old(mem), t, Hook.BeforeStaticFieldStore(owner, field))
      ensures log == old(log) + Emitted(Reports(old(mem), t, Hook.BeforeStaticFieldStore(owner, field)), emitUseBacked)
    {
      if t !in pending {
        ClearStatic(t, owner, field);
        return;
      }
      var param := pending[t].param;
      var writer := CurrentMethodIdOf(t);
      MovePendingToStatic(t, owner, field);
      Emit(FieldStored(param, owner + "#" + field, writer));
    }

    method BeforeFieldRead(t: Thread, target: Value, owner: string, field: string)
      requires Valid()
      modifies this`log
      ensures Valid() && mem == AfterHook(mem, t, Hook.BeforeFieldRead(target, owner, field))
      ensures log == old(log) + Emitted(Reports(mem, t, Hook.BeforeFieldRead(target, owner, field)), emitUseBacked)
    {
      hide ValidStack, Emitted;
      StackIsMirrored(t);
      EmittedNone(emitUseBacked);
      var binding := fieldBindings.GetInstanceBinding(target, owner, field);
      if binding.None? {
        return;
      }
      var site := CurrentMethodIdOf(t);
      EmittedTwo(FieldTouched(binding.value.param, owner + "#" + field, site),
                 UseBacked(binding.value.param, "field-touch", site), emitUseBacked);
      Emit(FieldTouched(binding.value.param, owner + "#" + field, site));
      EmitUseBacked(binding.value.param, "field-touch", site);
    }

    method BeforeStaticFieldRead(t: Thread, owner: string, field: string)
      requires Valid()
      modifies this`log
      ensures Valid() && mem == AfterHook(mem, t, Hook.BeforeStaticFieldRead(owner, field))
      ensures log == old(log) + Emitted(Reports(mem, t, Hook.BeforeStaticFieldRead(owner, field)), emitUseBacked)
    {
      hide ValidStack, Emitted;
      StackIsMirrored(t);
      EmittedNone(emitUseBacked);
      var binding := fieldBindings.GetStaticBinding(owner, field);
      if binding.None? {
        return;
      }
      var site := CurrentMethodIdOf(t);
      EmittedTwo(FieldTouched(binding.value.param, owner + "#" + field, site),
                 UseBacked(binding.value.param, "field-touch", site), emitUseBacked);
      Emit(FieldTouched(binding.value.param, owner + "#" + field, site));
      EmitUseBacked(binding.value.param, "field-touch", site);
    }

    method NoteDirectUse(t: Thread, opcode: string)
      requires Valid()
      modifies this`pending, this`log, this`mem
      ensures Valid()
      ensures mem == AfterHook(old(mem), t, Hook.NoteDirectUse(opcode))
      ensures log == old(log) + Emitted(Reports(old(mem), t, Hook.NoteDirectUse(opcode)), emitUseBacked)
    {
      hide ValidStack, Emitted;
      StackIsMirrored(t);
      EmittedNone(emitUseBacked);
      if t in pending {
        var site := CurrentMethodIdOf(t);
        EmittedTwo(DirectlyUsed(pending[t].param, site, opcode),
                   UseBacked(pending[t].param, "direct", site), emitUseBacked);
        Emit(DirectlyUsed(pending[t].param, site, opcode));
        EmitUseBacked(pending[t].param, "direct", site);
        RemovePending(t);
      }
    }

    method BeforeMethodCall(t: Thread, owner: string, name: string, desc: string)
      requires Valid()
      modifies this`pending, this`log, this`mem
      ensures Valid()
      ensures mem == AfterHook(old(mem), t, Hook.BeforeMethodCall(owner, name, desc))
      ensures log == old(log) + Emitted(Reports(old(mem), t, Hook.BeforeMethodCall(owner, name, desc)), emitUseBacked)
    {
      hide ValidStack, Emitted;
      StackIsMirrored(t);
      EmittedNone(emitUseBacked);
      if t in pending {
        var site := CurrentMethodIdOf(t);
        EmittedTwo(ArgPassed(pending[t].param, site, owner + "#" + name),
                   UseBacked(pending[t].param, "arg-pass", site), emitUseBacked);
        Emit(ArgPassed(pending[t].param, site, owner + "#" + name));
        EmitUseBacked(pending[t].param, "arg-pass", site);
        RemovePending(t);
      }
    }
  }
}
