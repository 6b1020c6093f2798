/**
 * What the runtime's memory and reports mean, for every history of hook calls by
 * any number of threads: each cell holds the last write that reaches it, and each
 * report of an exercised parameter goes back to a read of that parameter.
 */
module Provenance {
  import opened Text
  import opened Bytecode
  import opened TraceRuntime
  import Simulation

  datatype Call = Call(t: Thread, hook: Hook)

  /** The memory after the first `j` calls. */
  function MemAt(h: seq<Call>, j: nat): Memory
    requires j <= |h|
  {
    if j == 0 then EMPTY_MEMORY else AfterHook(MemAt(h, j - 1), h[j - 1].t, h[j - 1].hook)
  }

  lemma {:induction false} MemAtPrefix(h: seq<Call>, c: Call, j: nat)
    requires j <= |h|
    ensures MemAt(h + [c], j) == MemAt(h, j)
  {
    if j > 0 {
      MemAtPrefix(h, c, j - 1);
    }
  }

  // ----- pending bindings -----

  predicate IsGet(c: Call, t: Thread) {
    c.t == t && c.hook.NoteConfigGet? && Trim(c.hook.param) != ""
  }

  /** A hook that writes or uses whatever is pending. */
  predicate TakesPending(mem: Memory, t: Thread, hook: Hook) {
    match hook
    case AfterLocalStore(_) => mem.Depth(t) > 0
    case BeforeFieldStore(_, _, _) => true
    case BeforeStaticFieldStore(_, _) => true
    case NoteDirectUse(_) => true
    case BeforeMethodCall(_, _, _) => true
    case _ => false
  }

  /** Call `i` writes or uses whatever is pending for `t`. */
  predicate Takes(h: seq<Call>, i: nat, t: Thread)
    requires i < |h|
  {
    h[i].t == t && TakesPending(MemAt(h, i), t, h[i].hook)
  }

  /** The read at `i` is still pending for `t` just before call `j`. */
  ghost predicate PendingSince(h: seq<Call>, i: nat, j: nat, t: Thread)
    requires j <= |h|
  {
    && i < j && IsGet(h[i], t)
    && forall m | i < m < j :: !IsGet(h[m], t) && !Takes(h, m, t)
  }

  function BindingOf(h: seq<Call>, i: nat): Binding
    requires i < |h| && h[i].hook.NoteConfigGet?
  {
    var mem := MemAt(h, i);
    Binding(Trim(h[i].hook.param), mem.CurrentMethodId(h[i].t), mem.created)
  }

  lemma {:induction false} PendingIsLastGet(h: seq<Call>, j: nat, t: Thread)
    requires j <= |h|
    ensures t in MemAt(h, j).pending <==> exists i :: PendingSince(h, i, j, t)
    ensures forall i | PendingSince(h, i, j, t) :: t in MemAt(h, j).pending && MemAt(h, j).pending[t] == BindingOf(h, i)
  {
    hide AfterHook;
    if j > 0 {
      var last := j - 1;
      PendingIsLastGet(h, last, t);
      PendingStep(h, j, t);
      if IsGet(h[last], t) {
        assert PendingSince(h, last, j, t);
      } else if Takes(h, last, t) {
        assert forall i :: !PendingSince(h, i, j, t);
      } else {
        assert forall i :: PendingSince(h, i, j, t) <==> PendingSince(h, i, last, t);
      }
    }
  }

  lemma PendingMove(mem: Memory, u: Thread, hook: Hook, t: Thread)
    ensures var before, after := mem.pending, AfterHook(mem, u, hook).pending;
            if IsGet(Call(u, hook), t)
            then t in after && after[t] == Binding(Trim(hook.param), mem.CurrentMethodId(u), mem.created)
            else if u == t && TakesPending(mem, t, hook) then t !in after
            else (t in after <==> t in before) && (t in before ==> after[t] == before[t])
  {
    hide Trim;
  }

  lemma PendingStep(h: seq<Call>, j: nat, t: Thread)
    requires 0 < j <= |h|
    ensures var before, after := MemAt(h, j - 1).pending, MemAt(h, j).pending;
            if IsGet(h[j - 1], t) then t in after && after[t] == BindingOf(h, j - 1)
            else if Takes(h, j - 1, t) then t !in after
            else (t in after <==> t in before) && (t in before ==> after[t] == before[t])
  {
    hide AfterHook, Trim, TakesPending;
    PendingMove(MemAt(h, j - 1), h[j - 1].t, h[j - 1].hook, t);
  }

  // ----- local variables -----

  /** Call `k` stores into variable `slot` of the frame at depth `d` of thread `t`. */
  predicate StoresSlot(h: seq<Call>, k: nat, t: Thread, d: nat, slot: nat)
    requires k < |h|
  {
    h[k] == Call(t, AfterLocalStore(slot)) && MemAt(h, k).Depth(t) == d
  }

  /** Since that store, the frame has been alive and the variable has not been stored into again. */
  ghost predicate SlotSince(h: seq<Call>, k: nat, j: nat, t: Thread, d: nat, slot: nat)
    requires j <= |h|
  {
    && k < j && StoresSlot(h, k, t, d, slot)
    && (forall m | k < m <= j :: MemAt(h, m).Depth(t) >= d)
    && (forall m | k < m < j :: !StoresSlot(h, m, t, d, slot))
  }

  /** A read at `i`, stored at `k`, is what variable `slot` holds before call `j`. */
  ghost predicate SlotHolds(h: seq<Call>, i: nat, k: nat, j: nat, t: Thread, d: nat, slot: nat)
    requires j <= |h|
  {
    SlotSince(h, k, j, t, d, slot) && PendingSince(h, i, k, t)
  }

  function LocalsAt(h: seq<Call>, j: nat, t: Thread, d: nat): map<nat, Binding>
    requires j <= |h| && 1 <= d <= MemAt(h, j).Depth(t)
  {
    MemAt(h, j).Stack(t)[d - 1].locals
  }

  /** One call, seen from the frames of one thread. */
  lemma StackStep(mem: Memory, u: Thread, hook: Hook, t: Thread)
    ensures var after, stack := AfterHook(mem, u, hook).Stack(t), mem.Stack(t);
            if u == t && hook.EnterMethod? then
              after == stack + [FrameView(FieldKey(hook.owner, hook.name), map[])]
            else if u == t && hook.ExitMethod? && stack != [] then
              after == stack[..|stack| - 1]
            else if u == t && hook.AfterLocalStore? && stack != [] then
              && after[..|stack| - 1] == stack[..|stack| - 1]
              && |after| == |stack|
              && after[|stack| - 1].methodId == stack[|stack| - 1].methodId
              && after[|stack| - 1].locals ==
                 (if t in mem.pending then stack[|stack| - 1].locals[hook.slot := mem.pending[t]]
                  else stack[|stack| - 1].locals - {hook.slot})
            else after == stack
  {
  }

  /** One call, seen from one local variable of a frame that lives behind it. */
  lemma SlotStep(h: seq<Call>, j: nat, t: Thread, d: nat, slot: nat)
    requires 0 < j <= |h| && 1 <= d <= MemAt(h, j).Depth(t)
    ensures d > MemAt(h, j - 1).Depth(t) ==> LocalsAt(h, j, t, d) == map[] && !h[j - 1].hook.AfterLocalStore?
    ensures d <= MemAt(h, j - 1).Depth(t) ==>
              var before, after := LocalsAt(h, j - 1, t, d), LocalsAt(h, j, t, d);
              if StoresSlot(h, j - 1, t, d, slot)
              then
                && (slot in after <==> t in MemAt(h, j - 1).pending)
                && (slot in after ==> after[slot] == MemAt(h, j - 1).pending[t])
              else (slot in after <==> slot in before) && (slot in before ==> after[slot] == before[slot])
  {
    hide AfterHook;
    var mem, after := MemAt(h, j - 1).Stack(t), MemAt(h, j).Stack(t);
    StackStep(MemAt(h, j - 1), h[j - 1].t, h[j - 1].hook, t);
    if d < |mem| && d <= |after| {
      assert after[d - 1] == after[..|mem| - 1][d - 1] || after[d - 1] == mem[d - 1];
    }
  }

  lemma {:induction false} SlotIsLastStore(h: seq<Call>, j: nat, t: Thread, d: nat, slot: nat)
    requires j <= |h| && 1 <= d <= MemAt(h, j).Depth(t)
    ensures slot in LocalsAt(h, j, t, d) <==> exists i, k :: SlotHolds(h, i, k, j, t, d, slot)
    ensures forall i, k | SlotHolds(h, i, k, j, t, d, slot) ::
              slot in LocalsAt(h, j, t, d) && LocalsAt(h, j, t, d)[slot] == BindingOf(h, i)
    decreases j
  {
    hide AfterHook;
    SlotStep(h, j, t, d, slot);
    var last := j - 1;
    if d > MemAt(h, last).Depth(t) {
      assert forall i: nat, k: nat :: !SlotHolds(h, i, k, j, t, d, slot);
    } else if StoresSlot(h, last, t, d, slot) {
      PendingIsLastGet(h, last, t);
      assert SlotSince(h, last, j, t, d, slot);
      assert forall i :: PendingSince(h, i, last, t) ==> SlotHolds(h, i, last, j, t, d, slot);
      assert forall i, k :: SlotHolds(h, i, k, j, t, d, slot) ==> k == last && PendingSince(h, i, last, t);
    } else {
      SlotIsLastStore(h, last, t, d, slot);
      assert forall i, k :: SlotHolds(h, i, k, j, t, d, slot) <==> SlotHolds(h, i, k, last, t, d, slot);
    }
  }

  // ----- fields -----

  predicate StoresInstance(c: Call, target: Value, key: string) {
    c.hook.BeforeFieldStore? && c.hook.target == target && FieldKey(c.hook.owner, c.hook.field) == key
  }

  predicate StoresStatic(c: Call, key: string) {
    c.hook.BeforeStaticFieldStore? && FieldKey(c.hook.owner, c.hook.field) == key
  }

  /** A read at `i`, stored at `k` by the same thread, is what the field holds before call `j`, whoever runs it. */
  ghost predicate InstanceHolds(h: seq<Call>, i: nat, k: nat, j: nat, target: Value, key: string)
    requires j <= |h|
  {
    && k < j && StoresInstance(h[k], target, key)
    && (forall m | k < m < j :: !StoresInstance(h[m], target, key))
    && PendingSince(h, i, k, h[k].t)
  }

  ghost predicate StaticHolds(h: seq<Call>, i: nat, k: nat, j: nat, key: string)
    requires j <= |h|
  {
    && k < j && StoresStatic(h[k], key)
    && (forall m | k < m < j :: !StoresStatic(h[m], key))
    && PendingSince(h, i, k, h[k].t)
  }

  lemma InstanceStep(h: seq<Call>, j: nat, target: Value, key: string)
    requires 0 < j <= |h| && target != NullV
    ensures var before, after, t := MemAt(h, j - 1), MemAt(h, j), h[j - 1].t;
            if StoresInstance(h[j - 1], target, key)
            then
              && (after.HasInstance(target, key) <==> t in before.pending)
              && (after.HasInstance(target, key) ==> after.instances[target][key] == before.pending[t])
            else
              && (after.HasInstance(target, key) <==> before.HasInstance(target, key))
              && (before.HasInstance(target, key) ==> after.instances[target][key] == before.instances[target][key])
  {
  }

  lemma NothingHeld(h: seq<Call>, target: Value, key: string)
    ensures !MemAt(h, 0).HasInstance(target, key) && key !in MemAt(h, 0).statics
  {
  }

  lemma {:induction false} InstanceIsLastStore(h: seq<Call>, j: nat, target: Value, key: string)
    requires j <= |h| && target != NullV
    ensures MemAt(h, j).HasInstance(target, key) <==> exists i, k :: InstanceHolds(h, i, k, j, target, key)
    ensures forall i, k | InstanceHolds(h, i, k, j, target, key) ::
              MemAt(h, j).HasInstance(target, key) && MemAt(h, j).instances[target][key] == BindingOf(h, i)
    decreases j
  {
    hide AfterHook, MemAt, FieldKey, Trim;
    if j == 0 {
      NothingHeld(h, target, key);
    } else {
      var last := j - 1;
      InstanceStep(h, j, target, key);
      if StoresInstance(h[last], target, key) {
        PendingIsLastGet(h, last, h[last].t);
        assert forall i :: PendingSince(h, i, last, h[last].t) ==> InstanceHolds(h, i, last, j, target, key);
        assert forall i, k :: InstanceHolds(h, i, k, j, target, key) ==>
          k == last && PendingSince(h, i, last, h[last].t);
      } else {
        InstanceIsLastStore(h, last, target, key);
        assert forall i, k :: InstanceHolds(h, i, k, j, target, key) <==> InstanceHolds(h, i, k, last, target, key);
      }
    }
  }

  lemma {:induction false} NullHoldsNothing(h: seq<Call>, j: nat, key: string)
    requires j <= |h|
    ensures !MemAt(h, j).HasInstance(NullV, key)
  {
    if j > 0 {
      NullHoldsNothing(h, j - 1, key);
    }
  }

  lemma StaticStep(h: seq<Call>, j: nat, key: string)
    requires 0 < j <= |h|
    ensures var before, after, t := MemAt(h, j - 1), MemAt(h, j), h[j - 1].t;
            if StoresStatic(h[j - 1], key)
            then
              && (key in after.statics <==> t in before.pending)
              && (key in after.statics ==> after.statics[key] == before.pending[t])
            else
              && (key in after.statics <==> key in before.statics)
              && (key in before.statics ==> after.statics[key] == before.statics[key])
  {
  }

  lemma {:induction false} StaticIsLastStore(h: seq<Call>, j: nat, key: string)
    requires j <= |h|
    ensures key in MemAt(h, j).statics <==> exists i, k :: StaticHolds(h, i, k, j, key)
    ensures forall i, k | StaticHolds(h, i, k, j, key) ::
              key in MemAt(h, j).statics && MemAt(h, j).statics[key] == BindingOf(h, i)
    decreases j
  {
    hide AfterHook, MemAt;
    if j == 0 {
      NothingHeld(h, NullV, key);
    } else {
      var last := j - 1;
      StaticStep(h, j, key);
      if StoresStatic(h[last], key) {
        PendingIsLastGet(h, last, h[last].t);
        assert forall i :: PendingSince(h, i, last, h[last].t) ==> StaticHolds(h, i, last, j, key);
        assert forall i, k :: StaticHolds(h, i, k, j, key) ==> k == last && PendingSince(h, i, last, h[last].t);
      } else {
        StaticIsLastStore(h, last, key);
        assert forall i, k :: StaticHolds(h, i, k, j, key) <==> StaticHolds(h, i, k, last, key);
      }
    }
  }

  // ----- reports -----

  /** Call `j` uses a value that goes back, unbroken, to a read of `param`. */
  ghost predicate Backed(h: seq<Call>, j: nat, param: string, reason: string)
    requires j < |h|
  {
    match h[j].hook
    case NoteDirectUse(_) => reason == "direct" && exists i :: PendingSince(h, i, j, h[j].t) && ParamRead(h, i) == param
    case BeforeMethodCall(_, _, _) =>
      reason == "arg-pass" && exists i :: PendingSince(h, i, j, h[j].t) && ParamRead(h, i) == param
    case AfterLocalLoad(slot) =>
      && reason == "local-touch"
      && exists i, k :: SlotHolds(h, i, k, j, h[j].t, MemAt(h, j).Depth(h[j].t), slot)
                        && MemAt(h, j).Depth(h[j].t) > 0 && ParamRead(h, i) == param
    case BeforeFieldRead(target, owner, field) =>
      && reason == "field-touch" && target != NullV
      && exists i, k :: InstanceHolds(h, i, k, j, target, FieldKey(owner, field)) && ParamRead(h, i) == param
    case BeforeStaticFieldRead(owner, field) =>
      && reason == "field-touch"
      && exists i, k :: StaticHolds(h, i, k, j, FieldKey(owner, field)) && ParamRead(h, i) == param
    case _ => false
  }

  function ParamRead(h: seq<Call>, i: nat): string
    requires i < |h| && h[i].hook.NoteConfigGet?
  {
    Trim(h[i].hook.param)
  }

  function ReportsAt(h: seq<Call>, j: nat): seq<LogEvent>
    requires j < |h|
  {
    Reports(MemAt(h, j), h[j].t, h[j].hook)
  }

  /** A use is reported exactly when it is backed by a read, and the report names the current method. */
  lemma UseReportedIffBacked(h: seq<Call>, j: nat, param: string, reason: string, site: string)
    requires j < |h|
    ensures UseBacked(param, reason, site) in ReportsAt(h, j) <==>
            Backed(h, j, param, reason) && site == MemAt(h, j).CurrentMethodId(h[j].t)
  {
    hide AfterHook, MemAt, FieldKey, Trim, PendingSince, SlotHolds, InstanceHolds, StaticHolds;
    var mem, t := MemAt(h, j), h[j].t;
    match h[j].hook {
      case NoteDirectUse(_) => PendingIsLastGet(h, j, t);
      case BeforeMethodCall(_, _, _) => PendingIsLastGet(h, j, t);
      case AfterLocalLoad(slot) =>
        if mem.Depth(t) > 0 {
          SlotIsLastStore(h, j, t, mem.Depth(t), slot);
        }
      case BeforeFieldRead(target, owner, field) =>
        if target == NullV {
          NullHoldsNothing(h, j, FieldKey(owner, field));
        } else {
          InstanceIsLastStore(h, j, target, FieldKey(owner, field));
        }
      case BeforeStaticFieldRead(owner, field) => StaticIsLastStore(h, j, FieldKey(owner, field));
      case _ =>
    }
  }

  // ----- each pending binding is consumed at most once -----

  lemma CreatedStep(mem: Memory, t: Thread, hook: Hook)
    ensures AfterHook(mem, t, hook).created == mem.created + if IsGet(Call(t, hook), t) then 1 else 0
  {
  }

  lemma {:induction false} CreatedGrows(h: seq<Call>, i: nat, j: nat)
    requires i < j <= |h|
    ensures MemAt(h, i).created + (if IsGet(h[i], h[i].t) then 1 else 0) <= MemAt(h, j).created
    decreases j
  {
    CreatedStep(MemAt(h, j - 1), h[j - 1].t, h[j - 1].hook);
    if i < j - 1 {
      CreatedGrows(h, i, j - 1);
    }
  }

  lemma ConsumedOnce(h: seq<Call>, j1: nat, j2: nat, t1: Thread, t2: Thread)
    requires j1 < j2 < |h| && Takes(h, j1, t1)
    requires t1 in MemAt(h, j1).pending && t2 in MemAt(h, j2).pending
    ensures MemAt(h, j1).pending[t1].serial != MemAt(h, j2).pending[t2].serial
  {
    hide AfterHook; hide MemAt;
    PendingIsLastGet(h, j1, t1);
    PendingIsLastGet(h, j2, t2);
    var i1: nat :| PendingSince(h, i1, j1, t1);
    var i2: nat :| PendingSince(h, i2, j2, t2);
    if i1 < i2 {
      CreatedGrows(h, i1, i2);
    } else if i2 < i1 {
      CreatedGrows(h, i2, i1);
    }
  }

  // ----- threads that interleave inside the hooks -----

  /**
   * A hook touches the shared tables once and then prints its reports one at a time;
   * other threads may run in between.  `outbox` holds the reports still to be printed.
   */
  datatype System = System(
    mem: Memory,
    outbox: map<Thread, seq<LogEvent>>,
    emitUseBacked: bool,
    log: seq<(Thread, LogEvent)>,
    history: seq<Call>)
  {
    function Outbox(t: Thread): seq<LogEvent> {
      if t in outbox then outbox[t] else []
    }
  }

  datatype Action =
    | Perform(t: Thread, hook: Hook)
    | Print(t: Thread)
    | Configure(on: bool)

  const IDLE := System(EMPTY_MEMORY, map[], true, [], [])

  /** One action; an action that its thread cannot take leaves everything as it is. */
  function Act(s: System, a: Action): System {
    match a
    case Perform(t, hook) =>
      if s.Outbox(t) != [] then s
      else s.(mem := AfterHook(s.mem, t, hook),
              outbox := s.outbox[t := Reports(s.mem, t, hook)],
              history := s.history + [Call(t, hook)])
    case Print(t) =>
      if s.Outbox(t) == [] then s
      else
        var e := s.Outbox(t)[0];
        s.(outbox := s.outbox[t := s.Outbox(t)[1..]],
           log := if e.UseBacked? && !s.emitUseBacked then s.log else s.log + [(t, e)])
    case Configure(on) => s.(emitUseBacked := on)
  }

  function Schedule(actions: seq<Action>): System {
    if actions == [] then IDLE else Act(Schedule(actions[..|actions| - 1]), actions[|actions| - 1])
  }

  /** Report `e` of thread `t` is due to a call in the history. */
  ghost predicate HasOrigin(h: seq<Call>, t: Thread, e: LogEvent) {
    exists j :: 0 <= j < |h| && h[j].t == t && e in ReportsAt(h, j)
  }

  ghost predicate Sound(s: System) {
    && s.mem == MemAt(s.history, |s.history|)
    && (forall t, e | e in s.Outbox(t) :: HasOrigin(s.history, t, e))
    && (forall q | 0 <= q < |s.log| :: HasOrigin(s.history, s.log[q].0, s.log[q].1))
  }

  lemma OriginStays(h: seq<Call>, c: Call, t: Thread, e: LogEvent)
    requires HasOrigin(h, t, e)
    ensures HasOrigin(h + [c], t, e)
  {
    var j :| 0 <= j < |h| && h[j].t == t && e in ReportsAt(h, j);
    MemAtPrefix(h, c, j);
    assert (h + [c])[j] == h[j] && e in ReportsAt(h + [c], j);
  }

  lemma PerformSound(s: System, t: Thread, hook: Hook)
    requires Sound(s)
    ensures Sound(Act(s, Perform(t, hook)))
  {
    hide AfterHook; hide Reports;
    if s.Outbox(t) == [] {
      var s', c, n := Act(s, Perform(t, hook)), Call(t, hook), |s.history|;
      MemAtPrefix(s.history, c, n);
      assert (s.history + [c])[n] == c;
      assert s'.mem == MemAt(s'.history, |s'.history|);
      forall u, e | e in s'.Outbox(u) ensures HasOrigin(s'.history, u, e) {
        if u == t {
          assert e in ReportsAt(s'.history, n);
        } else {
          OriginStays(s.history, c, u, e);
        }
      }
      forall q | 0 <= q < |s'.log| ensures HasOrigin(s'.history, s'.log[q].0, s'.log[q].1) {
        OriginStays(s.history, c, s.log[q].0, s.log[q].1);
      }
    }
  }

  lemma PrintSound(s: System, t: Thread)
    requires Sound(s)
    ensures Sound(Act(s, Print(t)))
  {
    hide HasOrigin; hide MemAt;
    if s.Outbox(t) != [] {
      var s' := Act(s, Print(t));
      forall u, e | e in s'.Outbox(u) ensures HasOrigin(s'.history, u, e) {
        assert e in s.Outbox(u);
      }
      assert s.Outbox(t)[0] in s.Outbox(t);
    }
  }

  lemma {:induction false} ScheduleSound(actions: seq<Action>)
    ensures Sound(Schedule(actions))
  {
    if actions != [] {
      var s, a := Schedule(actions[..|actions| - 1]), actions[|actions| - 1];
      ScheduleSound(actions[..|actions| - 1]);
      match a {
        case Perform(t, hook) => PerformSound(s, t, hook);
        case Print(t) => PrintSound(s, t);
        case Configure(_) =>
      }
    }
  }

  /**
   * Under every interleaving, a printed use of a parameter goes back to an earlier
   * read of that parameter along an unbroken chain of stores.
   */
  lemma PrintedUseIsBacked(actions: seq<Action>, q: nat) returns (j: nat)
    requires var s := Schedule(actions); q < |s.log| && s.log[q].1.UseBacked?
    ensures var s := Schedule(actions);
            var e := s.log[q].1;
            j < |s.history| && s.history[j].t == s.log[q].0 && Backed(s.history, j, e.param, e.reason)
  {
    ScheduleSound(actions);
    var s := Schedule(actions);
    assert HasOrigin(s.history, s.log[q].0, s.log[q].1);
    j :| 0 <= j < |s.history| && s.history[j].t == s.log[q].0 && s.log[q].1 in ReportsAt(s.history, j);
    var e := s.log[q].1;
    assert e == UseBacked(e.param, e.reason, e.site);
    UseReportedIffBacked(s.history, j, e.param, e.reason, e.site);
  }

  /** What a thread has printed. */
  function PrintedBy(log: seq<(Thread, LogEvent)>, t: Thread): seq<LogEvent> {
    if log == [] then []
    else PrintedBy(log[..|log| - 1], t) + if log[|log| - 1].0 == t then [log[|log| - 1].1] else []
  }

  /** What a thread's calls report, one after the other. */
  function ReportedBy(h: seq<Call>, n: nat, t: Thread): seq<LogEvent>
    requires n <= |h|
  {
    if n == 0 then [] else ReportedBy(h, n - 1, t) + if h[n - 1].t == t then ReportsAt(h, n - 1) else []
  }

  lemma {:induction false} ReportedByPrefix(h: seq<Call>, c: Call, n: nat, t: Thread)
    requires n <= |h|
    ensures ReportedBy(h + [c], n, t) == ReportedBy(h, n, t)
  {
    hide Reports, MemAt;
    if n > 0 {
      ReportedByPrefix(h, c, n - 1, t);
      MemAtPrefix(h, c, n - 1);
      assert (h + [c])[n - 1] == h[n - 1];
    }
  }

  lemma PrintedByStep(log: seq<(Thread, LogEvent)>, x: (Thread, LogEvent), t: Thread)
    ensures PrintedBy(log + [x], t) == PrintedBy(log, t) + if x.0 == t then [x.1] else []
  {
    assert (log + [x])[..|log|] == log;
  }

  /** What thread `t` printed and has still to print. */
  function Output(s: System, t: Thread): seq<LogEvent> {
    PrintedBy(s.log, t) + s.Outbox(t)
  }

  lemma PerformAdds(s: System, u: Thread, hook: Hook, t: Thread)
    requires Sound(s) && s.Outbox(u) == []
    ensures var s' := Act(s, Perform(u, hook));
            && Output(s', t) == Output(s, t) + (if u == t then Reports(s.mem, u, hook) else [])
            && ReportedBy(s'.history, |s'.history|, t) ==
               ReportedBy(s.history, |s.history|, t) + (if u == t then Reports(s.mem, u, hook) else [])
  {
    hide AfterHook; hide Reports; hide HasOrigin; hide MemAt;
    var c, n := Call(u, hook), |s.history|;
    ReportedByPrefix(s.history, c, n, t);
    MemAtPrefix(s.history, c, n);
    assert (s.history + [c])[n] == c;
    assert PrintedBy(s.log, t) + [] == PrintedBy(s.log, t);
  }

  lemma PrintKeeps(s: System, u: Thread, t: Thread)
    requires s.emitUseBacked && s.Outbox(u) != []
    ensures Output(Act(s, Print(u)), t) == Output(s, t)
  {
    hide AfterHook; hide Reports; hide PrintedBy;
    var x, rest := s.Outbox(u)[0], s.Outbox(u)[1..];
    var s' := Act(s, Print(u));
    PrintedByStep(s.log, (u, x), t);
    if u == t {
      assert s.Outbox(t) == [x] + rest;
      assert PrintedBy(s.log, t) + [x] + rest == PrintedBy(s.log, t) + ([x] + rest);
    } else {
      assert PrintedBy(s.log, t) + [] == PrintedBy(s.log, t);
      assert s'.Outbox(t) == s.Outbox(t);
    }
  }

  /**
   * While reports of uses are switched on, no report is lost, repeated or reordered
   * within its thread: what a thread printed and has still to print is what its calls report.
   */
  lemma {:induction false} NothingLost(actions: seq<Action>, t: Thread)
    requires Configure(false) !in actions
    ensures var s := Schedule(actions);
            s.emitUseBacked && Output(s, t) == ReportedBy(s.history, |s.history|, t)
  {
    hide Reports; hide AfterHook; hide MemAt; hide HasOrigin; hide Output;
    if actions != [] {
      var front := actions[..|actions| - 1];
      var s, a := Schedule(front), actions[|actions| - 1];
      assert a in actions && forall b | b in front :: b in actions;
      NothingLost(front, t);
      ScheduleSound(front);
      match a {
        case Perform(u, hook) => if s.Outbox(u) == [] { PerformAdds(s, u, hook, t); }
        case Print(u) => if s.Outbox(u) != [] { PrintKeeps(s, u, t); }
        case Configure(_) => ConfigureKeeps(s, t);
      }
    } else {
      ConfigureKeeps(IDLE, t);
    }
  }

  lemma ConfigureKeeps(s: System, t: Thread)
    ensures Output(Act(s, Configure(true)), t) == Output(s, t)
    ensures Output(IDLE, t) == []
  {
  }

  /** The reports that do not depend on the switch. */
  function Others(events: seq<LogEvent>): seq<LogEvent> {
    if events == [] then []
    else (if events[0].UseBacked? then [] else [events[0]]) + Others(events[1..])
  }

  lemma {:induction false} OthersJoin(a: seq<LogEvent>, b: seq<LogEvent>)
    ensures Others(a + b) == Others(a) + Others(b)
  {
    if a == [] {
      assert a + b == b;
    } else {
      assert (a + b)[1..] == a[1..] + b;
      OthersJoin(a[1..], b);
    }
  }

  lemma PrintKeepsOthers(s: System, u: Thread, t: Thread)
    ensures Others(Output(Act(s, Print(u)), t)) == Others(Output(s, t))
  {
    hide AfterHook, Reports, PrintedBy;
    if s.Outbox(u) != [] {
      var x, rest := s.Outbox(u)[0], s.Outbox(u)[1..];
      var s' := Act(s, Print(u));
      PrintedByStep(s.log, (u, x), t);
      var printed := PrintedBy(s.log, t);
      if u == t {
        assert s.Outbox(t) == [x] + rest;
        assert printed + [x] + rest == printed + ([x] + rest);
        OthersJoin(printed, [x] + rest);
        OthersJoin(printed, rest);
        assert ([x] + rest)[1..] == rest;
        assert s'.Outbox(t) == rest;
        assert x.UseBacked? ==> Others([x] + rest) == Others(rest);
      } else {
        assert printed + [] == printed;
        assert s'.Outbox(t) == s.Outbox(t);
      }
    }
  }

  /** Whenever the switch is turned, nothing but reports of uses is ever lost, repeated or reordered. */
  lemma {:induction false} OthersNeverLost(actions: seq<Action>, t: Thread)
    ensures var s := Schedule(actions);
            Others(Output(s, t)) == Others(ReportedBy(s.history, |s.history|, t))
  {
    hide Reports, AfterHook, MemAt, HasOrigin, Output, Others;
    if actions != [] {
      var front := actions[..|actions| - 1];
      var s, a := Schedule(front), actions[|actions| - 1];
      OthersNeverLost(front, t);
      ScheduleSound(front);
      match a {
        case Perform(u, hook) =>
          if s.Outbox(u) == [] {
            PerformAdds(s, u, hook, t);
            var more := if u == t then Reports(s.mem, u, hook) else [];
            OthersJoin(Output(s, t), more);
            OthersJoin(ReportedBy(s.history, |s.history|, t), more);
          }
        case Print(u) => PrintKeepsOthers(s, u, t);
        case Configure(on) => SwitchKeeps(s, on, t);
      }
    } else {
      ConfigureKeeps(IDLE, t);
    }
  }

  lemma SwitchKeeps(s: System, on: bool, t: Thread)
    ensures Output(Act(s, Configure(on)), t) == Output(s, t)
  {
  }

  // ----- the runtime's frames are those of the simulated calls -----

  function MethodIds(stack: seq<FrameView>): seq<string> {
    seq(|stack|, i requires 0 <= i < |stack| => stack[i].methodId)
  }

  function HooksBy(h: seq<Call>, j: nat, t: Thread): seq<Hook>
    requires j <= |h|
  {
    if j == 0 then [] else HooksBy(h, j - 1, t) + if h[j - 1].t == t then [h[j - 1].hook] else []
  }

  lemma NoFrames(h: seq<Call>, t: Thread)
    ensures MethodIds(MemAt(h, 0).Stack(t)) == Simulation.FramesAfter(HooksBy(h, 0, t)) == []
  {
  }

  lemma OwnCallMovesFrames(mem: Memory, t: Thread, hook: Hook)
    ensures MethodIds(AfterHook(mem, t, hook).Stack(t)) == Simulation.MoveFrames(MethodIds(mem.Stack(t)), hook)
  {
    hide AfterHook;
    StackStep(mem, t, hook, t);
    var stack, after := mem.Stack(t), AfterHook(mem, t, hook).Stack(t);
    if hook.AfterLocalStore? && stack != [] {
      var below := |stack| - 1;
      assert forall i | 0 <= i < below :: after[..below][i] == after[i] && stack[..below][i] == stack[i];
    }
  }

  lemma OtherCallKeepsStack(mem: Memory, u: Thread, hook: Hook, t: Thread)
    requires u != t
    ensures AfterHook(mem, u, hook).Stack(t) == mem.Stack(t)
  {
    hide AfterHook;
    StackStep(mem, u, hook, t);
  }

  /** The stack of a thread depends on its own calls only, in the way that the simulation assumes. */
  lemma {:induction false} FramesAgree(h: seq<Call>, j: nat, t: Thread)
    requires j <= |h|
    ensures MethodIds(MemAt(h, j).Stack(t)) == Simulation.FramesAfter(HooksBy(h, j, t))
  {
    hide AfterHook, Simulation.FramesAfter, Simulation.MoveFrames, MethodIds;
    if j == 0 {
      NoFrames(h, t);
    } else {
      var last := j - 1;
      FramesAgree(h, last, t);
      if h[last].t == t {
        OwnCallMovesFrames(MemAt(h, last), t, h[last].hook);
        Simulation.OneHook(HooksBy(h, last, t), h[last].hook);
      } else {
        OtherCallKeepsStack(MemAt(h, last), h[last].t, h[last].hook, t);
        assert HooksBy(h, j, t) == HooksBy(h, last, t);
      }
    }
  }

  // ----- what exactly is reported -----

  /** The methods that the thread has entered and not left before call `j`, by its own calls alone. */
  function Entered(h: seq<Call>, j: nat): seq<string>
    requires j < |h|
  {
    Simulation.FramesAfter(HooksBy(h, j, h[j].t))
  }

  function Site(h: seq<Call>, j: nat): string
    requires j < |h|
  {
    var methods := Entered(h, j);
    if methods == [] then "unknown#unknown" else methods[|methods| - 1]
  }

  lemma SiteIsCurrent(h: seq<Call>, j: nat)
    requires j < |h|
    ensures MemAt(h, j).CurrentMethodId(h[j].t) == Site(h, j)
    ensures MemAt(h, j).Depth(h[j].t) == |Entered(h, j)|
  {
    hide MemAt, HooksBy, Simulation.FramesAfter;
    FramesAgree(h, j, h[j].t);
  }

  /** A read of `param` is pending for the thread of call `j`. */
  ghost predicate ReadPending(h: seq<Call>, j: nat, param: string)
    requires j < |h|
  {
    exists i :: PendingSince(h, i, j, h[j].t) && ParamRead(h, i) == param
  }

  lemma PendingParam(h: seq<Call>, j: nat, param: string)
    requires j < |h|
    ensures ReadPending(h, j, param) <==>
            h[j].t in MemAt(h, j).pending && MemAt(h, j).pending[h[j].t].param == param
  {
    hide MemAt, Trim;
    PendingIsLastGet(h, j, h[j].t);
  }

  lemma LocalStoreReportedIff(h: seq<Call>, j: nat, param: string, frame: string, slot: nat)
    requires j < |h|
    ensures LocalStored(param, frame, slot) in ReportsAt(h, j) <==>
            h[j].hook == AfterLocalStore(slot) && Entered(h, j) != [] && ReadPending(h, j, param) && frame == Site(h, j)
  {
    hide MemAt, Entered, Site, ReadPending;
    SiteIsCurrent(h, j);
    PendingParam(h, j, param);
  }

  lemma FieldStoreReportedIff(h: seq<Call>, j: nat, param: string, field: string, writer: string)
    requires j < |h|
    ensures FieldStored(param, field, writer) in ReportsAt(h, j) <==>
            && ReadPending(h, j, param) && writer == Site(h, j)
            && (h[j].hook.BeforeFieldStore? || h[j].hook.BeforeStaticFieldStore?)
            && field == h[j].hook.owner + "#" + h[j].hook.field
  {
    hide MemAt, Entered, Site, ReadPending;
    SiteIsCurrent(h, j);
    PendingParam(h, j, param);
  }

  lemma DirectUseReportedIff(h: seq<Call>, j: nat, param: string, site: string, op: string)
    requires j < |h|
    ensures DirectlyUsed(param, site, op) in ReportsAt(h, j) <==>
            h[j].hook == NoteDirectUse(op) && ReadPending(h, j, param) && site == Site(h, j)
  {
    hide MemAt, Entered, Site, ReadPending;
    SiteIsCurrent(h, j);
    PendingParam(h, j, param);
  }

  lemma ArgPassReportedIff(h: seq<Call>, j: nat, param: string, caller: string, callee: string)
    requires j < |h|
    ensures ArgPassed(param, caller, callee) in ReportsAt(h, j) <==>
            && ReadPending(h, j, param) && caller == Site(h, j)
            && h[j].hook.BeforeMethodCall? && callee == h[j].hook.owner + "#" + h[j].hook.name
  {
    hide MemAt, Entered, Site, ReadPending;
    SiteIsCurrent(h, j);
    PendingParam(h, j, param);
  }

  lemma LocalTouchReportedIff(h: seq<Call>, j: nat, param: string, frame: string, slot: nat)
    requires j < |h|
    ensures LocalTouched(param, frame, slot) in ReportsAt(h, j) <==>
            && h[j].hook == AfterLocalLoad(slot) && Entered(h, j) != [] && frame == Site(h, j)
            && exists i, k :: SlotHolds(h, i, k, j, h[j].t, |Entered(h, j)|, slot) && ParamRead(h, i) == param
  {
    hide MemAt, Entered, Site, Trim;
    SiteIsCurrent(h, j);
    var depth := MemAt(h, j).Depth(h[j].t);
    if depth > 0 {
      SlotIsLastStore(h, j, h[j].t, depth, slot);
    }
  }

  lemma FieldTouchReportedIff(h: seq<Call>, j: nat, param: string, field: string, reader: string)
    requires j < |h|
    ensures FieldTouched(param, field, reader) in ReportsAt(h, j) <==>
            && reader == Site(h, j)
            && (match h[j].hook
                case BeforeFieldRead(target, owner, name) =>
                  && field == owner + "#" + name && target != NullV
                  && exists i, k :: InstanceHolds(h, i, k, j, target, field) && ParamRead(h, i) == param
                case BeforeStaticFieldRead(owner, name) =>
                  && field == owner + "#" + name
                  && exists i, k :: StaticHolds(h, i, k, j, field) && ParamRead(h, i) == param
                case _ => false)
  {
    hide MemAt, Entered, Site, InstanceHolds, StaticHolds, Trim;
    SiteIsCurrent(h, j);
    match h[j].hook {
      case BeforeFieldRead(target, owner, name) =>
        var key := FieldKey(owner, name);
        if target == NullV {
          NullHoldsNothing(h, j, key);
        } else {
          InstanceIsLastStore(h, j, target, key);
        }
      case BeforeStaticFieldRead(owner, name) => StaticIsLastStore(h, j, FieldKey(owner, name));
      case _ =>
    }
  }

  predicate IsStore(e: LogEvent) {
    e.LocalStored? || e.FieldStored?
  }

  /** A call reports nothing, or one store, or a touch followed by the use of the same parameter. */
  lemma ReportsCome(h: seq<Call>, j: nat)
    requires j < |h|
    ensures var r := ReportsAt(h, j);
            || r == []
            || (|r| == 1 && IsStore(r[0]))
            || (|r| == 2 && !IsStore(r[0]) && !r[0].UseBacked? && r[1].UseBacked? && r[1].param == r[0].param)
  {
    hide MemAt;
  }
}
