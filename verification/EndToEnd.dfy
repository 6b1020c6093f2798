/** The tracker as a whole: from the calls of the hooks to the names that the collector extracts. */
module EndToEnd {
  import opened Text
  import opened Bytecode
  import opened Wrappers
  import opened Instrumenter
  import opened Simulation
  import opened TraceRuntime
  import opened Provenance
  import opened EventLog

  // ----- names and ids without blanks -----

  predicate IsCleanHook(hook: Hook) {
    match hook
    case EnterMethod(owner, name, _) => NoSpace(FieldKey(owner, name))
    case NoteConfigGet(param) => NoSpace(Trim(param))
    case BeforeFieldStore(_, owner, field) => NoSpace(FieldKey(owner, field))
    case BeforeStaticFieldStore(owner, field) => NoSpace(FieldKey(owner, field))
    case BeforeFieldRead(_, owner, field) => NoSpace(FieldKey(owner, field))
    case BeforeStaticFieldRead(owner, field) => NoSpace(FieldKey(owner, field))
    case NoteDirectUse(op) => NoSpace(op)
    case BeforeMethodCall(owner, name, _) => NoSpace(FieldKey(owner, name))
    case _ => true
  }

  predicate IsCleanBinding(b: Binding) {
    b.param != "" && NoSpace(b.param)
  }

  predicate IsCleanFrame(f: FrameView) {
    NoSpace(f.methodId) && forall slot | slot in f.locals :: IsCleanBinding(f.locals[slot])
  }

  predicate IsCleanStack(stack: seq<FrameView>) {
    forall f | f in stack :: IsCleanFrame(f)
  }

  ghost predicate IsCleanMemory(mem: Memory) {
    && (forall t | t in mem.pending :: IsCleanBinding(mem.pending[t]))
    && (forall t :: IsCleanStack(mem.Stack(t)))
    && (forall target, key | mem.HasInstance(target, key) :: IsCleanBinding(mem.instances[target][key]))
    && (forall key | key in mem.statics :: IsCleanBinding(mem.statics[key]))
  }

  lemma CurrentIsClean(mem: Memory, t: Thread)
    requires IsCleanMemory(mem)
    ensures NoSpace(mem.CurrentMethodId(t))
    ensures mem.Depth(t) > 0 ==> IsCleanFrame(mem.Stack(t)[mem.Depth(t) - 1])
  {
    if mem.Depth(t) > 0 {
      assert mem.Stack(t)[mem.Depth(t) - 1] in mem.Stack(t);
    }
  }

  lemma StackStaysClean(mem: Memory, t: Thread, hook: Hook, u: Thread)
    requires IsCleanMemory(mem) && IsCleanHook(hook)
    ensures IsCleanStack(AfterHook(mem, t, hook).Stack(u))
  {
    hide AfterHook, NoSpace;
    StackStep(mem, t, hook, u);
    CurrentIsClean(mem, u);
    var stack, after := mem.Stack(u), AfterHook(mem, t, hook).Stack(u);
    assert IsCleanStack(stack);
    if u == t && hook.AfterLocalStore? && stack != [] {
      assert after == after[..|stack| - 1] + [after[|stack| - 1]];
    }
  }

  lemma PendingStaysClean(mem: Memory, t: Thread, hook: Hook, u: Thread)
    requires IsCleanMemory(mem) && IsCleanHook(hook) && u in AfterHook(mem, t, hook).pending
    ensures IsCleanBinding(AfterHook(mem, t, hook).pending[u])
  {
    hide AfterHook, Trim, NoSpace;
    PendingMove(mem, t, hook, u);
  }

  lemma TablesStayClean(mem: Memory, t: Thread, hook: Hook)
    requires IsCleanMemory(mem)
    ensures var after := AfterHook(mem, t, hook);
            && (forall target, key | after.HasInstance(target, key) :: IsCleanBinding(after.instances[target][key]))
            && (forall key | key in after.statics :: IsCleanBinding(after.statics[key]))
  {
    hide IsCleanBinding, IsCleanStack, FieldKey, Trim;
  }

  lemma MemoryStaysClean(mem: Memory, t: Thread, hook: Hook)
    requires IsCleanMemory(mem) && IsCleanHook(hook)
    ensures IsCleanMemory(AfterHook(mem, t, hook))
  {
    hide AfterHook, IsCleanHook, IsCleanStack, IsCleanBinding;
    TablesStayClean(mem, t, hook);
    forall u {
      StackStaysClean(mem, t, hook, u);
    }
    forall u | u in AfterHook(mem, t, hook).pending {
      PendingStaysClean(mem, t, hook, u);
    }
  }

  lemma ReportsAreClean(mem: Memory, t: Thread, hook: Hook)
    requires IsCleanMemory(mem) && IsCleanHook(hook)
    ensures forall e | e in Reports(mem, t, hook) :: IsClean(e)
  {
    hide NoSpace, FieldKey;
    CurrentIsClean(mem, t);
    ReasonsAreClean();
  }

  lemma ReasonsAreClean()
    ensures NoSpace("direct") && NoSpace("arg-pass") && NoSpace("local-touch") && NoSpace("field-touch")
  {
  }

  // ----- what is printed -----

  /** A thread moves on, or somebody else prints a line to the same stream. */
  datatype Step = Own(a: Action) | Foreign(text: string)

  predicate IsCleanStep(step: Step) {
    match step
    case Own(Perform(_, hook)) => IsCleanHook(hook)
    case Own(_) => true
    case Foreign(text) => OneLine(text)
  }

  predicate AreClean(steps: seq<Step>) {
    forall step | step in steps :: IsCleanStep(step)
  }

  function ActionsOf(steps: seq<Step>): seq<Action> {
    if steps == [] then []
    else
      var last := steps[|steps| - 1];
      ActionsOf(steps[..|steps| - 1]) + if last.Own? then [last.a] else []
  }

  function After(steps: seq<Step>): System {
    Schedule(ActionsOf(steps))
  }

  /** The line that a step adds to the log, if any. */
  function Adds(s: System, step: Step): seq<LogLine> {
    match step
    case Own(Print(t)) =>
      if s.Outbox(t) == [] || (s.Outbox(t)[0].UseBacked? && !s.emitUseBacked) then [] else [Report(s.Outbox(t)[0])]
    case Own(_) => []
    case Foreign(text) => [LogLine.Other(text)]
  }

  function LogAfter(steps: seq<Step>): seq<LogLine> {
    if steps == [] then []
    else LogAfter(steps[..|steps| - 1]) + Adds(After(steps[..|steps| - 1]), steps[|steps| - 1])
  }

  lemma OneStep(steps: seq<Step>, step: Step)
    ensures LogAfter(steps + [step]) == LogAfter(steps) + Adds(After(steps), step)
    ensures After(steps + [step]) == if step.Own? then Act(After(steps), step.a) else After(steps)
  {
    var more := steps + [step];
    assert more[..|more| - 1] == steps;
    if step.Own? {
      assert (ActionsOf(steps) + [step.a])[..|ActionsOf(steps)|] == ActionsOf(steps);
    } else {
      assert ActionsOf(more) == ActionsOf(steps);
    }
  }

  /** Runs the steps; each report that its thread prints goes through the logger. */
  method Replay(steps: seq<Step>) returns (logger: EventLogger, s: System)
    ensures fresh(logger) && logger.err == TextOf(LogAfter(steps)) && s == After(steps)
  {
    hide LogAfter, After, Act, TextOf, Shown;
    logger := new EventLogger();
    s := IDLE;
    NothingPrinted();
    var i := 0;
    while i < |steps|
      invariant 0 <= i <= |steps| && fresh(logger)
      invariant logger.err == TextOf(LogAfter(steps[..i])) && s == After(steps[..i])
    {
      OneStep(steps[..i], steps[i]);
      assert steps[..i + 1] == steps[..i] + [steps[i]];
      ghost var log := LogAfter(steps[..i]);
      match steps[i] {
        case Own(a) =>
          if a.Print? && s.Outbox(a.t) != [] && (!s.Outbox(a.t)[0].UseBacked? || s.emitUseBacked) {
            logger.Emit(TypeOf(s.Outbox(a.t)[0]), PayloadOf(s.Outbox(a.t)[0]));
          } else {
            assert log + [] == log;
          }
          s := Act(s, a);
        case Foreign(text) =>
          TextGrows(log, LogLine.Other(text));
          ShownText(text);
          logger.err := logger.err + text + "\n";
      }
      i := i + 1;
    }
    assert steps[..i] == steps;
  }

  lemma NothingPrinted()
    ensures TextOf(LogAfter([])) == "" && After([]) == IDLE
  {
  }

  lemma ShownText(text: string)
    ensures Shown(LogLine.Other(text)) == text
  {
  }

  ghost predicate IsCleanSystem(s: System) {
    IsCleanMemory(s.mem) && forall t, e | e in s.Outbox(t) :: IsClean(e)
  }

  lemma ActStaysClean(s: System, a: Action)
    requires IsCleanSystem(s) && IsCleanStep(Own(a))
    ensures IsCleanSystem(Act(s, a))
  {
    hide AfterHook, Reports, IsCleanMemory, IsCleanHook, IsClean;
    var s' := Act(s, a);
    if a.Perform? {
      MemoryStaysClean(s.mem, a.t, a.hook);
      ReportsAreClean(s.mem, a.t, a.hook);
    }
    forall u, e | e in s'.Outbox(u) ensures IsClean(e) {
      assert e in s.Outbox(u) || (a.Perform? && e in Reports(s.mem, a.t, a.hook));
    }
  }

  lemma IdleIsClean()
    ensures IsCleanSystem(IDLE) && AreLogLines([])
  {
  }

  /** From clean steps comes a log that the collector can read. */
  lemma {:induction false} LogStaysClean(steps: seq<Step>)
    requires AreClean(steps)
    ensures AreLogLines(LogAfter(steps)) && IsCleanSystem(After(steps))
  {
    hide After, Act, IsCleanSystem, OneLine, IsCleanHook, IsClean;
    if steps == [] {
      assert After([]) == IDLE by { NothingPrinted(); }
      IdleIsClean();
    } else {
      var front, last := steps[..|steps| - 1], steps[|steps| - 1];
      assert steps == front + [last];
      LogStaysClean(front);
      OneStep(front, last);
      if last.Own? {
        ActStaysClean(After(front), last.a);
      }
      AddsAreLogLines(After(front), last);
    }
  }

  lemma AddsAreLogLines(s: System, step: Step)
    requires IsCleanSystem(s) && IsCleanStep(step)
    ensures AreLogLines(Adds(s, step))
  {
    hide IsCleanMemory, IsCleanHook, IsClean, OneLine;
  }

  // ----- what is extracted -----

  /** The reports among the lines of a log. */
  function ReportsOf(log: seq<LogLine>): seq<LogEvent> {
    if log == [] then []
    else ReportsOf(log[..|log| - 1]) + (if log[|log| - 1].Report? then [log[|log| - 1].e] else [])
  }

  lemma {:induction false} ReportsAre(log: seq<LogLine>, e: LogEvent)
    ensures e in ReportsOf(log) <==> Report(e) in log
  {
    if log != [] {
      var n := |log| - 1;
      assert log == log[..n] + [log[n]];
      ReportsAre(log[..n], e);
    }
  }

  function EventsOf(log: seq<(Thread, LogEvent)>): seq<LogEvent> {
    seq(|log|, q requires 0 <= q < |log| => log[q].1)
  }

  lemma ReportsGrow(log: seq<LogLine>, l: LogLine)
    ensures ReportsOf(log + [l]) == ReportsOf(log) + if l.Report? then [l.e] else []
  {
    assert (log + [l])[..|log|] == log;
  }

  lemma ActPrints(s: System, step: Step)
    ensures ReportsOf(Adds(s, step)) + [] == ReportsOf(Adds(s, step))
    ensures step.Own? ==> EventsOf(Act(s, step.a).log) == EventsOf(s.log) + ReportsOf(Adds(s, step))
    ensures step.Foreign? ==> ReportsOf(Adds(s, step)) == []
  {
    hide AfterHook, Reports;
    ReportsOfFew();
  }

  lemma ReportsOfFew()
    ensures ReportsOf([]) == [] && forall l: LogLine :: ReportsOf([l]) == if l.Report? then [l.e] else []
  {
    forall l: LogLine ensures ReportsOf([l]) == if l.Report? then [l.e] else [] {
      ReportsGrow([], l);
      assert [] + [l] == [l];
    }
  }

  lemma AddsFew(s: System, step: Step)
    ensures |Adds(s, step)| <= 1
  {
  }

  /** The reports in the printed log are those that the schedule lets through, in order. */
  lemma {:induction false} LogHoldsReports(steps: seq<Step>)
    ensures ReportsOf(LogAfter(steps)) == EventsOf(After(steps).log)
  {
    hide After, Act, Adds, ReportsOf, EventsOf;
    if steps == [] {
      NoReports();
    } else {
      var front, last := steps[..|steps| - 1], steps[|steps| - 1];
      assert steps == front + [last];
      LogHoldsReports(front);
      OneStep(front, last);
      ActPrints(After(front), last);
      AddsFew(After(front), last);
      ReportsOfFew();
      var log, adds := LogAfter(front), Adds(After(front), last);
      if adds == [] {
        assert log + adds == log;
      } else {
        assert adds == [adds[0]];
        ReportsGrow(log, adds[0]);
      }
    }
  }

  lemma NoReports()
    ensures ReportsOf([]) == EventsOf(After([]).log) == []
  {
  }

  /** The names that the collector extracts from a text; none stands for its index error. */
  function Extracted(text: string, from: From): Option<set<string>> {
    var events := ParseLines(SplitLines(text), from);
    if events.None? then None else Some(NamesIn(events.value, Some({USE_BACKED_OPERATION})))
  }

  /** Somebody else prints a tag without a payload. */
  predicate SomeBroken(steps: seq<Step>) {
    exists step :: step in steps && step.Foreign? && IsBroken(step.text)
  }

  /** Somebody else prints that the parameter was used. */
  predicate SomeoneClaims(steps: seq<Step>, name: string) {
    name != "" && exists step :: step in steps && step.Foreign? && UseNamed(step.text) == name
  }

  /** The other lines of the log are those that others have printed. */
  lemma {:induction false} OthersAreForeign(steps: seq<Step>, text: string)
    ensures LogLine.Other(text) in LogAfter(steps) <==> Foreign(text) in steps
  {
    hide After;
    if steps != [] {
      var front, last := steps[..|steps| - 1], steps[|steps| - 1];
      assert steps == front + [last];
      OthersAreForeign(front, text);
      OneStep(front, last);
    }
  }

  /** The collector fails exactly if somebody else prints a tag without a payload. */
  lemma ExtractionFailsIff(steps: seq<Step>, from: From)
    requires AreClean(steps)
    ensures Extracted(TextOf(LogAfter(steps)), from).None? <==> SomeBroken(steps)
  {
    hide TextOf, SplitLines, ParseLines, NamesIn, Events, After, LogAfter, AreClean, IsBroken;
    var log := LogAfter(steps);
    LogStaysClean(steps);
    LogIsParsed(log, from);
    FailsIffBroken(log, from);
    forall text
      ensures LogLine.Other(text) in log <==> Foreign(text) in steps
    {
      OthersAreForeign(steps, text);
    }
    assert forall l | l in log && l.Other? :: l == LogLine.Other(l.text);
    assert forall step | step in steps && step.Foreign? :: LogLine.Other(step.text) in log;
  }

  lemma ClaimsAreForeign(steps: seq<Step>, name: string)
    ensures name in ForeignUses(LogAfter(steps)) <==> SomeoneClaims(steps, name)
  {
    hide LogAfter, UseNamed;
    var log := LogAfter(steps);
    forall text
      ensures LogLine.Other(text) in log <==> Foreign(text) in steps
    {
      OthersAreForeign(steps, text);
    }
    assert forall l | l in log && l.Other? :: l == LogLine.Other(l.text);
    assert forall step | step in steps && step.Foreign? :: LogLine.Other(step.text) in log;
  }

  lemma ExtractedAreUses(steps: seq<Step>, from: From, name: string)
    requires AreClean(steps) && KeepsFields(from) && !SomeBroken(steps)
    ensures Extracted(TextOf(LogAfter(steps)), from).Some?
    ensures var log := After(steps).log;
            name in Extracted(TextOf(LogAfter(steps)), from).value <==>
            SomeoneClaims(steps, name) ||
            exists q :: 0 <= q < |log| && log[q].1.UseBacked? && log[q].1.param == name
  {
    hide TextOf, SplitLines, ParseLines, NamesIn, Events, After, LogAfter, AreClean, SomeBroken, SomeoneClaims,
         ForeignUses;
    var log, printed := After(steps).log, LogAfter(steps);
    LogStaysClean(steps);
    LogHoldsReports(steps);
    LogIsParsed(printed, from);
    ExtractionFailsIff(steps, from);
    ExtractedAreReported(printed, from);
    ClaimsAreForeign(steps, name);
    if name in UsesReported(printed) {
      var l :| l in printed && l.Report? && l.e.UseBacked? && l.e.param == name;
      ReportsAre(printed, l.e);
      var q :| 0 <= q < |log| && EventsOf(log)[q] == l.e;
    }
    if q :| 0 <= q < |log| && log[q].1.UseBacked? && log[q].1.param == name {
      ReportsAre(printed, log[q].1);
      assert EventsOf(log)[q] in EventsOf(log);
      assert Report(log[q].1) in printed;
    }
  }

  /** Some call uses a value that goes back, unbroken, to a read of the parameter. */
  ghost predicate IsUsed(h: seq<Call>, name: string) {
    exists j, reason :: 0 <= j < |h| && Backed(h, j, name, reason)
  }

  /**
   * Whatever the interleaving, an extracted name was used by a call that goes back to a read of it,
   * unless somebody else prints that it was.
   */
  lemma ExtractedNamesAreBacked(steps: seq<Step>, from: From, name: string)
    requires AreClean(steps) && KeepsFields(from)
    requires var names := Extracted(TextOf(LogAfter(steps)), from); names.Some? && name in names.value
    ensures IsUsed(After(steps).history, name) || SomeoneClaims(steps, name)
  {
    hide Schedule, Backed, Extracted, AreClean, LogAfter, TextOf, SomeBroken, SomeoneClaims;
    var log := After(steps).log;
    ExtractionFailsIff(steps, from);
    ExtractedAreUses(steps, from, name);
    if q :| 0 <= q < |log| && log[q].1.UseBacked? && log[q].1.param == name {
      var j := PrintedUseIsBacked(ActionsOf(steps), q);
    }
  }

  lemma {:induction false} PrintedIsLogged(log: seq<(Thread, LogEvent)>, t: Thread, e: LogEvent)
    requires e in PrintedBy(log, t)
    ensures exists q :: 0 <= q < |log| && log[q] == (t, e)
  {
    var n := |log| - 1;
    if log[n] != (t, e) {
      PrintedIsLogged(log[..n], t, e);
      var q :| 0 <= q < n && log[..n][q] == (t, e);
      assert log[q] == (t, e);
    }
  }

  lemma {:induction false} ReportIsReportedBy(h: seq<Call>, j: nat, n: nat, e: LogEvent)
    requires j < n <= |h| && e in ReportsAt(h, j)
    ensures e in ReportedBy(h, n, h[j].t)
  {
    if j < n - 1 {
      ReportIsReportedBy(h, j, n - 1, e);
    }
  }

  /** All reports are printed, and the switch for reports of uses was never turned off. */
  ghost predicate AllPrinted(steps: seq<Step>) {
    Configure(false) !in ActionsOf(steps) && forall t :: After(steps).Outbox(t) == []
  }

  /**
   * Once all reports are printed, the collector extracts exactly the parameters of which some call
   * uses a value that goes back, unbroken, to a read, and those of which somebody else prints so.
   */
  lemma ExtractedIffBacked(steps: seq<Step>, from: From, name: string)
    requires AreClean(steps) && KeepsFields(from) && AllPrinted(steps) && !SomeBroken(steps)
    ensures Extracted(TextOf(LogAfter(steps)), from).Some?
    ensures name in Extracted(TextOf(LogAfter(steps)), from).value <==>
            IsUsed(After(steps).history, name) || SomeoneClaims(steps, name)
  {
    hide Schedule, Backed, Extracted, AreClean, LogAfter, TextOf, ReportsAt, ReportedBy, PrintedBy, SomeBroken,
         SomeoneClaims;
    var s := After(steps);
    var h := s.history;
    ExtractedAreUses(steps, from, name);
    if name in Extracted(TextOf(LogAfter(steps)), from).value {
      ExtractedNamesAreBacked(steps, from, name);
    }
    if j, reason :| 0 <= j < |h| && Backed(h, j, name, reason) {
      var t := h[j].t;
      var e := UseBacked(name, reason, MemAt(h, j).CurrentMethodId(t));
      UseReportedIffBacked(h, j, name, reason, e.site);
      ReportIsReportedBy(h, j, |h|, e);
      NothingLost(ActionsOf(steps), t);
      assert PrintedBy(s.log, t) + [] == PrintedBy(s.log, t);
      PrintedIsLogged(s.log, t, e);
    }
  }

  /**
   * The whole tracker: threads run, their reports are printed among other lines, and the log is
   * read back; none stands for the index error of the collector.
   */
  method TrackNames(steps: seq<Step>, from: From) returns (names: Option<seq<string>>)
    requires AreClean(steps) && KeepsFields(from)
    ensures names.None? <==> SomeBroken(steps)
    ensures names.Some? ==>
              && Ascending(names.value)
              && (forall name | name in names.value ::
                    IsUsed(After(steps).history, name) || SomeoneClaims(steps, name))
              && (AllPrinted(steps) ==>
                    forall name | IsUsed(After(steps).history, name) || SomeoneClaims(steps, name) ::
                      name in names.value)
  {
    hide AreClean, After, LogAfter, TextOf, SplitLines, ParseLines, Ascending, IsUsed, AllPrinted, NamesIn,
         KeepsFields, SomeBroken, SomeoneClaims;
    var logger, s := Replay(steps);
    ExtractionFailsIff(steps, from);
    var events := ParseEventsFromText(logger.err, from);
    if events.None? {
      return None;
    }
    var found := ExtractUseBackedNames(events.value);
    assert forall name :: name in found <==> name in Elements(found);
    forall name | name in found ensures IsUsed(After(steps).history, name) || SomeoneClaims(steps, name) {
      ExtractedNamesAreBacked(steps, from, name);
    }
    if AllPrinted(steps) {
      forall name | IsUsed(After(steps).history, name) || SomeoneClaims(steps, name) ensures name in found {
        ExtractedIffBacked(steps, from, name);
      }
    }
    names := Some(found);
  }

  /** What a getter logs, behind whatever its logger puts in front. */
  ghost predicate IsGetterLine(text: string) {
    exists front, name ::
      HasNoTag(front) && !AllSpace(name) && OneLine(front + name) &&
      text == front + "[CTEST][EXERCISED-PARAM] name=" + name
  }

  /** What the transformer prints about its stages. */
  ghost predicate IsDebugLine(text: string) {
    exists message :: OneLine(message) && "transform-" <= message && text == "[CTEST][PROV-DEBUG] " + message
  }

  lemma GetterLineIsHarmless(text: string)
    requires IsGetterLine(text)
    ensures OneLine(text) && UseNamed(text) == "" && !IsBroken(text)
  {
    hide UseNamed, IsBroken, HasNoTag, AllSpace;
    var front, name :| HasNoTag(front) && !AllSpace(name) && OneLine(front + name) &&
                       text == front + "[CTEST][EXERCISED-PARAM] name=" + name;
    GetterLine(front, name);
    var tag := "[CTEST][EXERCISED-PARAM] name=";
    assert OneLine(tag);
    forall i | 0 <= i < |text|
      ensures !IsLineBreak(text[i])
    {
      assert text[i] == if i < |front| then (front + name)[i]
                        else if i < |front| + |tag| then tag[i - |front|]
                        else (front + name)[i - |tag|];
    }
  }

  lemma DebugLineIsHarmless(text: string)
    requires IsDebugLine(text)
    ensures OneLine(text) && UseNamed(text) == "" && !IsBroken(text)
  {
    hide UseNamed, IsBroken;
    var message :| OneLine(message) && "transform-" <= message && text == "[CTEST][PROV-DEBUG] " + message;
    DebugLine(message);
    assert OneLine("[CTEST][PROV-DEBUG] ");
  }

  /** Lines of the getters, of the transformer, and untagged ones change nothing about what is extracted. */
  lemma OwnLinesAreHarmless(steps: seq<Step>)
    requires forall step | step in steps && step.Own? :: IsCleanStep(step)
    requires forall step | step in steps && step.Foreign? ::
               IsGetterLine(step.text) || IsDebugLine(step.text) || (OneLine(step.text) && Search(step.text).None?)
    ensures AreClean(steps) && !SomeBroken(steps) && forall name :: !SomeoneClaims(steps, name)
  {
    hide IsGetterLine, IsDebugLine, OneLine, Search, IsCleanHook;
    forall step | step in steps && step.Foreign?
      ensures OneLine(step.text) && UseNamed(step.text) == "" && !IsBroken(step.text)
    {
      if IsGetterLine(step.text) {
        GetterLineIsHarmless(step.text);
      } else if IsDebugLine(step.text) {
        DebugLineIsHarmless(step.text);
      }
    }
  }

  /**
   * While a thread runs a rewritten program, whatever the other threads do, the frames that the
   * runtime keeps for it are the rewritten methods that it executes.
   */
  lemma RuntimeStackIsCallStack(sem: Semantics, rules: ProjectRules, prog: Program, id: MethodId, args: seq<Value>,
                                heap: Heap, n: nat, h: seq<Call>, t: Thread)
    requires ValidProgram(prog) && id in prog && !Run(Machine(sem, prog), Start(id, args, heap), n).Faulted?
    requires HooksBy(h, |h|, t) ==
             HooksAtEntry(rules, prog, id) +
             RunHooks(Machine(sem, prog), HooksOfStep(sem, rules, prog), Start(id, args, heap), n)
    ensures MethodIds(MemAt(h, |h|).Stack(t)) ==
            RewrittenFrames(rules, prog, FramesOf(Run(Machine(sem, prog), Start(id, args, heap), n)))
  {
    RuntimeFramesMirrorCalls(sem, rules, prog, id, args, heap, n);
    FramesAgree(h, |h|, t);
  }
}
