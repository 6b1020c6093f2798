# Verification of ECFuzz

ECFuzz fuzzes the configuration of distributed systems.  This project models the parts of it whose
correctness is not evident from reading one body, and proves what they keep.

* **The provenance agent.**  A Java agent rewrites bytecode so that the program calls probes, and a
  runtime driven by the probes follows each configuration value from its read to its use.
  `Bytecode` is a machine for the instructions that the rewriting touches, in the sense of section 6.5 of
  the Java Virtual Machine Specification; all other instructions and all external calls are parameters of
  it.  `Instrumenter` is the rewriting, as a visitor and as the function that it computes, and
  `Simulation` proves that the rewritten program runs like the original one and calls exactly the hooks
  that the original run determines.  `TraceRuntime` holds the runtime with its frames and field tables,
  `Provenance` proves, for threads that interleave anywhere, that what it reports is exactly what is backed
  by unbroken chains, `EventLog` follows the reports through the printed log to the collector, and
  `EndToEnd` joins them, from the calls of the hooks through the error stream to the extracted names.  Others
  may print anything to that stream: the collector fails exactly on a foreign tag without a payload, and
  extracts, besides the parameters in use, exactly those of foreign use-backed tags.  The transformer prints
  neither, nor do the getters, except for a tag without a payload if the name is blank.  `TypeHierarchy` is the
  search for a common superclass that the class writer needs.
* **The Hadoop configuration.**  `Configuration` has the loading of resources with final and deprecated keys,
  the cache with its overlay, and the agreement of aliases; `ConfigurationDocuments` says by places in the
  documents what loading means, `ConfigurationMeaning` what a lookup answers after any run, and
  `ConfigurationPromises` exactly when lookups and removals do what they are documented to do.  `Deprecation`
  is the registry of deprecated keys with its compare-and-swap loop, `Substitution` the scanner and the
  expansion of variables, `IntegerRanges` the sets of integers with their iterator.
* **The Alluxio configuration.**  `AlluxioLookup` is the recursive expansion of references,
  `AlluxioProperties` the store in which sources of higher rank win.
* **The trimmers.**  `Trimmers` reduces a failing test case to the items that make it fail.
* **The classification of items.**  `Kmeans` is Lloyd's iteration with the relabelling of each round, for any
  number of clusters, and `Classify` cuts a sorted list by it.
* **The grouping of tests.**  `SplitTests` partitions tests by the parameters that they cover.

`Text` has the string functions, and `Wrappers` the option type, that several modules share.  Classes with
fields stand for the objects that the sources update in place; each of their methods is proved against a
function of the old state, and the properties are proved about these functions.

## Where the code does less than it says

The model follows the code.  Where the code and its own documentation disagree, a lemma gives the input or
the exact condition.

* The documentation of `substituteVars` promises a failure when more than twenty replacements are required.
  The code fails once twenty have been made, even if none is left to make: exactly the values that take twenty
  are treated otherwise than documented (`Substitution.LimitAsDocumentedIff`, `Substitution.TwentyReferences`).
  The documentation names `IllegalArgumentException`, the code throws `IllegalStateException`; the model has one
  failure, `TooDeep`.
* `get` and `getRaw` are documented to return the first value among the keys that replace a deprecated key.
  They return that of the last key, even if it is null.  Over all runs the two agree exactly if the default
  resources force it (`ConfigurationPromises.LookupAsDocumentedIff`); without default resources, exactly if the
  names do not differ (`ConfigurationPromises.WithoutDefaults`).  One added resource is enough to see the
  difference (`ConfigurationPromises.LastKeyHidesValue`).
* `unset` is documented to unset a property.  A lookup of the same name finds nothing afterwards exactly if it
  found nothing before, or the name has no blanks around it and is not a deprecated key under which a value has
  been set; this holds in all runs, earlier calls of `unset` included (`ConfigurationPromises.UnsetWorksInRuns`).
  So there are two ways to fail: a deprecated key keeps its own value, which the next lookup revives
  (`ConfigurationPromises.UnsetRevives`), and a name with blanks is trimmed by `set` and by lookups but not by
  `unset` (`ConfigurationPromises.UnsetMissesBlanks`).  For any key, deprecated or
  not, `unset` leaves the cache different from a fresh load exactly if a resource defines a key that it removes
  (`ConfigurationPromises.UnsetCoherentIff`).
* The iterator over integer ranges leaves the set as soon as a range ends at the greatest integer
  (`IntegerRanges.YieldsIncludedIff`).
* The expansion of Alluxio values replaces the first match in the partly expanded text, which need not be the
  one that was looked up if values have stray braces.  It is right for all texts with braces only in references
  exactly if it is right for each value by itself, and no expanded value, behind a dollar sign, looks like a
  reference, nor opens one that another closes (`AlluxioLookup.SubstitutesIff`, with one such text in
  `AlluxioLookup.StrayBraceMisplaces`).  Its failures are not affected (`AlluxioLookup.FailuresAgree`).
* `merge` depends on the order of the map that it is given exactly if two of its entries name one key once they
  are trimmed, with different trimmed values, and no higher source holds that key
  (`AlluxioProperties.OrderIsImmaterialIff`, with a map in `AlluxioProperties.OrderCanDecide`).
* The bisecting trimmer is to keep the items that make the test fail.  Where each item of a failing test has a
  default, it keeps exactly the vulnerable ones if and only if no default is itself a bad value of its item;
  otherwise one of them is missing, or a key error is raised once a halving has dropped one that the oracle
  asks for (`Trimmers.Trimmer.TrimTestcase`, with one such item in `Trimmers.UnsafeDefaultIsDropped`).
* The branch of the classification for a first label of 1, and the exception behind it, cannot be reached
  (`Classify.PrefixIsCluster`).

## Model

| member | source | states |
|---|---|---|
| Simulation.RewritingPreservesRuns | java/experimental-provenance-agent/src/main/java/ecfuzz/agent/ProvenanceTransformer.java:147-251 | For every program, entry, arguments, heap and number of steps: what the original run reaches, the rewritten run reaches, with the same operand stacks, original variables, heap and result, after exactly the hooks that the original run determines |
| Simulation.RewritingAddsNoRuns | java/experimental-provenance-agent/src/main/java/ecfuzz/agent/ProvenanceTransformer.java:147-251 | Conversely, wherever the rewritten run stops, the original run stops with the same result and heap: the rewriting adds no behaviour |
| Simulation.RewrittenSimulates | java/experimental-provenance-agent/src/main/java/ecfuzz/agent/ProvenanceTransformer.java:147-251 | One original step is matched by one or more rewritten steps, from any pair of corresponding states, whatever other instructions and external calls mean |
| Simulation.AtInsnSimulated | java/experimental-provenance-agent/src/main/java/ecfuzz/agent/ProvenanceTransformer.java:160-251 | The code of one instruction - probes in front, instruction, probes behind - reaches the state that corresponds to the original step, and calls the hooks of that instruction in order |
| Simulation.BeforeHarmless | java/experimental-provenance-agent/src/main/java/ecfuzz/agent/ProvenanceTransformer.java:172-251 | The code in front of an instruction restores the operand stack, writes fresh variables only, calls exactly the hook of the instruction, and can fail only where the instruction itself fails |
| Simulation.AfterHarmless | java/experimental-provenance-agent/src/main/java/ecfuzz/agent/ProvenanceTransformer.java:161-170 | The code behind a load or store calls the hook of the slot and leaves stack and variables alone |
| Simulation.PutFieldHarmless | java/experimental-provenance-agent/src/main/java/ecfuzz/agent/ProvenanceTransformer.java:214-251 | Moving value and owner of a field store aside, of one or two slots, hands the owner to the probe and puts both back in order |
| Simulation.PutStaticHarmless | java/experimental-provenance-agent/src/main/java/ecfuzz/agent/ProvenanceTransformer.java:207-251 | The same for the value of a static store |
| Simulation.GoToSimulated | java/experimental-provenance-agent/src/main/java/ecfuzz/agent/ProvenanceTransformer.java:173-194 | A jump of the rewritten code lands in front of the probes of the original target |
| Simulation.CallSimulated | java/experimental-provenance-agent/src/main/java/ecfuzz/agent/ProvenanceTransformer.java:147-153 | A call into a rewritten method announces it before its first instruction; the callers stay in correspondence |
| Simulation.LeaveSimulated | java/experimental-provenance-agent/src/main/java/ecfuzz/agent/ProvenanceTransformer.java:155-158 | A return hands the same value to the corresponding caller |
| Simulation.Layout | java/experimental-provenance-agent/src/main/java/ecfuzz/agent/ProvenanceTransformer.java:100-126 | Where the pieces of each instruction lie in the emitted code: the pieces do not overlap and cover it |
| Simulation.RuntimeFramesMirrorCalls | java/experimental-provenance-agent/src/main/java/ecfuzz/agent/ProvenanceTransformer.java:147-158 | At every point of a run, replaying the hooks gives a stack of frames that is exactly the list of rewritten methods in execution |
| Instrumenter.MethodRewriter.VisitCode | java/experimental-provenance-agent/src/main/java/ecfuzz/agent/ProvenanceTransformer.java:100-126 | The visitor emits, instruction by instruction, the code and the label positions of the specification function |
| Instrumenter.MethodRewriter.VisitVarInsn | java/experimental-provenance-agent/src/main/java/ecfuzz/agent/ProvenanceTransformer.java:160-170 | Appends the instruction and the probe of its slot |
| Instrumenter.MethodRewriter.VisitJumpInsn | java/experimental-provenance-agent/src/main/java/ecfuzz/agent/ProvenanceTransformer.java:172-179 | Appends the probe of a conditional jump and the jump |
| Instrumenter.MethodRewriter.VisitSwitchInsn | java/experimental-provenance-agent/src/main/java/ecfuzz/agent/ProvenanceTransformer.java:181-193 | Appends the probe of a switch and the switch |
| Instrumenter.MethodRewriter.VisitMethodInsn | java/experimental-provenance-agent/src/main/java/ecfuzz/agent/ProvenanceTransformer.java:195-204 | Appends the probe of a call to an observed class and the call |
| Instrumenter.MethodRewriter.VisitFieldRead | java/experimental-provenance-agent/src/main/java/ecfuzz/agent/ProvenanceTransformer.java:206-251 | Appends the probe of a field read, with the object duplicated for an instance field, and the read |
| Instrumenter.MethodRewriter.VisitPutField | java/experimental-provenance-agent/src/main/java/ecfuzz/agent/ProvenanceTransformer.java:206-251 | Appends stores of value and owner to new variables, the probe, the reloads and the store to the field |
| Instrumenter.MethodRewriter.VisitPutStatic | java/experimental-provenance-agent/src/main/java/ecfuzz/agent/ProvenanceTransformer.java:206-251 | Appends a store of the value to a new variable, the probe, the reload and the store to the field |
| Instrumenter.RewriteMethod | java/experimental-provenance-agent/src/main/java/ecfuzz/agent/ProvenanceTransformer.java:108-126 | A method comes back unchanged exactly if it is an initialiser, has no code, its class begins with no allowed prefix, or with a denied or built-in one; otherwise its code begins with its announcement, and it is the method that the simulation is about |
| Instrumenter.AllowedIff | java/experimental-provenance-agent/src/main/java/ecfuzz/agent/ProjectRules.java:15-41 | A class is observed exactly if it begins with an allowed prefix, with no denied one, and with none of the eight built-in ones |
| Instrumenter.CallIsAnnouncedIff | java/experimental-provenance-agent/src/main/java/ecfuzz/agent/ProvenanceTransformer.java:195-204 | A call is announced, with class, name and descriptor, exactly if it is no initialiser and its class is observed |
| Bytecode.KindsOfDescriptors | java/experimental-provenance-agent/src/main/java/ecfuzz/agent/ProvenanceTransformer.java:225-246 | The kind of a field descriptor, and how many local variables a value of it needs |
| Instrumenter.OpcodeNames | java/experimental-provenance-agent/src/main/java/ecfuzz/agent/ProvenanceTransformer.java:288-325 | The sixteen conditional jumps and their names |
| Instrumenter.RewrittenFits | java/experimental-provenance-agent/src/main/java/ecfuzz/agent/ProvenanceTransformer.java:206-251 | No instruction of the rewritten code goes beyond the local variables that it reserves |
| Text.DotNameIs | java/experimental-provenance-agent/src/main/java/ecfuzz/agent/ProjectRules.java:43-45 | Slashes become dots, and nothing else changes |
| TraceRuntime.Runtime.EnterMethod | java/experimental-provenance-agent/src/main/java/ecfuzz/agent/runtime/TraceRuntime.java:26-28 | Pushes a frame with no bindings on the calling thread, nothing else changes |
| TraceRuntime.Runtime.ExitMethod | java/experimental-provenance-agent/src/main/java/ecfuzz/agent/runtime/TraceRuntime.java:30-35 | Pops the frame of the calling thread, if there is one |
| TraceRuntime.Runtime.NoteConfigGet | java/experimental-provenance-agent/src/main/java/ecfuzz/agent/runtime/TraceRuntime.java:37-42 | A read of a non-blank name leaves a new pending binding with the thread |
| TraceRuntime.Runtime.AfterLocalStore | java/experimental-provenance-agent/src/main/java/ecfuzz/agent/runtime/TraceRuntime.java:44-59 | Moves the pending binding to the slot of the current frame and reports it, or clears the slot; when and as what it is reported is Provenance.LocalStoreReportedIff |
| TraceRuntime.Runtime.AfterLocalLoad | java/experimental-provenance-agent/src/main/java/ecfuzz/agent/runtime/TraceRuntime.java:61-75 | Reports the binding of the slot, and its use if uses are switched on; the memory stays as it is |
| TraceRuntime.Runtime.BeforeFieldStore | java/experimental-provenance-agent/src/main/java/ecfuzz/agent/runtime/TraceRuntime.java:77-89 | Moves the pending binding to the field of the object and reports it, or clears the field |
| TraceRuntime.Runtime.BeforeStaticFieldStore | java/experimental-provenance-agent/src/main/java/ecfuzz/agent/runtime/TraceRuntime.java:91-103 | The same for a static field |
| TraceRuntime.Runtime.BeforeFieldRead | java/experimental-provenance-agent/src/main/java/ecfuzz/agent/runtime/TraceRuntime.java:105-115 | Reports the binding of the field of the object and its use |
| TraceRuntime.Runtime.BeforeStaticFieldRead | java/experimental-provenance-agent/src/main/java/ecfuzz/agent/runtime/TraceRuntime.java:117-127 | The same for a static field |
| TraceRuntime.Runtime.NoteDirectUse | java/experimental-provenance-agent/src/main/java/ecfuzz/agent/runtime/TraceRuntime.java:129-140 | Reports and consumes the pending binding of the thread |
| TraceRuntime.Runtime.BeforeMethodCall | java/experimental-provenance-agent/src/main/java/ecfuzz/agent/runtime/TraceRuntime.java:142-153 | Reports and consumes the pending binding as an argument |
| TraceRuntime.FieldBindingStore.BindInstance | java/experimental-provenance-agent/src/main/java/ecfuzz/agent/runtime/FieldBindingStore.java:14-26 | Binds one field of one object, by identity; null is ignored; all other bindings stay |
| TraceRuntime.FieldBindingStore.GetInstanceBinding | java/experimental-provenance-agent/src/main/java/ecfuzz/agent/runtime/FieldBindingStore.java:28-39 | The binding of that field of that object, if there is one |
| TraceRuntime.FieldBindingStore.ClearInstanceBinding | java/experimental-provenance-agent/src/main/java/ecfuzz/agent/runtime/FieldBindingStore.java:49-60 | Removes that binding only |
| Provenance.PendingIsLastGet | java/experimental-provenance-agent/src/main/java/ecfuzz/agent/runtime/TraceRuntime.java:37-42 | In every interleaving of hook calls, what is pending for a thread is its last read that no later call of the thread has taken |
| Provenance.SlotIsLastStore | java/experimental-provenance-agent/src/main/java/ecfuzz/agent/runtime/TraceRuntime.java:44-75 | A slot of a live frame holds a binding exactly if the last store into that slot of that frame stored one, and then that one |
| Provenance.InstanceIsLastStore | java/experimental-provenance-agent/src/main/java/ecfuzz/agent/runtime/TraceRuntime.java:77-115 | A field of an object holds a binding exactly if the last store to it, by whichever thread, stored one, and then that one |
| Provenance.StaticIsLastStore | java/experimental-provenance-agent/src/main/java/ecfuzz/agent/runtime/TraceRuntime.java:91-127 | The same for static fields |
| Provenance.UseReportedIffBacked | java/experimental-provenance-agent/src/main/java/ecfuzz/agent/runtime/TraceRuntime.java:44-162 | A call reports a use of a parameter exactly if the value it uses goes back, along an unbroken chain of stores, to an earlier read of that parameter |
| Provenance.LocalStoreReportedIff | java/experimental-provenance-agent/src/main/java/ecfuzz/agent/runtime/TraceRuntime.java:44-59 | In every history: a store to a local variable is reported exactly if the call is one, in a live frame, with a read of that parameter pending, and under the method that the thread entered last |
| Provenance.LocalTouchReportedIff | java/experimental-provenance-agent/src/main/java/ecfuzz/agent/runtime/TraceRuntime.java:61-75 | A touch of a local variable is reported exactly if the call loads that slot of a live frame and it holds a read of that parameter |
| Provenance.FieldStoreReportedIff | java/experimental-provenance-agent/src/main/java/ecfuzz/agent/runtime/TraceRuntime.java:77-103 | A store to a field is reported exactly if the call stores to that instance or static field with a read of that parameter pending |
| Provenance.FieldTouchReportedIff | java/experimental-provenance-agent/src/main/java/ecfuzz/agent/runtime/TraceRuntime.java:105-127 | A touch of a field is reported exactly if the call reads that field, of an object or static, and it holds a read of that parameter |
| Provenance.DirectUseReportedIff | java/experimental-provenance-agent/src/main/java/ecfuzz/agent/runtime/TraceRuntime.java:129-140 | A direct use is reported exactly if the call is one, by that instruction, with a read of that parameter pending |
| Provenance.ArgPassReportedIff | java/experimental-provenance-agent/src/main/java/ecfuzz/agent/runtime/TraceRuntime.java:142-153 | An argument is reported exactly if the call announces that callee with a read of that parameter pending |
| Provenance.ReportsCome | java/experimental-provenance-agent/src/main/java/ecfuzz/agent/runtime/TraceRuntime.java:44-162 | A call reports nothing, or one store, or a touch followed by the use of the same parameter |
| Provenance.OthersNeverLost | java/experimental-provenance-agent/src/main/java/ecfuzz/agent/runtime/TraceRuntime.java:155-162 | However the switch for uses is turned, no other report is lost, repeated or reordered within its thread |
| TraceRuntime.EmittedGrows | java/experimental-provenance-agent/src/main/java/ecfuzz/agent/runtime/TraceRuntime.java:155-162 | With the switch on every report passes, with the switch off all but the uses, in order |
| Provenance.ConsumedOnce | java/experimental-provenance-agent/src/main/java/ecfuzz/agent/runtime/TraceRuntime.java:44-153 | No two calls take the same pending binding |
| Provenance.ScheduleSound | java/experimental-provenance-agent/src/main/java/ecfuzz/agent/runtime/TraceRuntime.java:44-162 | With threads interleaving between a hook and the printing of its reports, the memory is that of the calls in order, and every printed report is due to a call of its thread |
| Provenance.PrintedUseIsBacked | java/experimental-provenance-agent/src/main/java/ecfuzz/agent/runtime/TraceRuntime.java:155-162 | Every printed use goes back to an earlier read of the same parameter |
| Provenance.NothingLost | java/experimental-provenance-agent/src/main/java/ecfuzz/agent/runtime/TraceRuntime.java:155-162 | While uses are switched on, what a thread has printed and has still to print is exactly what its calls report, in order |
| Provenance.FramesAgree | java/experimental-provenance-agent/src/main/java/ecfuzz/agent/runtime/TraceRuntime.java:26-35 | The stack of a thread depends on its own calls only, and is the stack that the simulation replays |
| EndToEnd.ExtractedNamesAreBacked | java/experimental-provenance-agent/src/main/java/ecfuzz/agent/runtime/TraceRuntime.java:155-162 | For hooks called with names that hold no blanks, and any lines of others in between: each name that the collector extracts was used by a call whose value goes back to a read of that name, or somebody else printed a tag that says so |
| EndToEnd.ExtractedIffBacked | src/utils/ParamTraceCollector.py:58-88 | Once all reports are printed, if nobody else prints a tag without a payload: the collector extracts exactly the names of which some call uses a value that goes back, unbroken, to a read, and those of which somebody else prints a use-backed tag |
| EndToEnd.ExtractionFailsIff | src/utils/ParamTraceCollector.py:38-88 | The collector raises its index error exactly if somebody else prints a tag without a payload |
| EndToEnd.OwnLinesAreHarmless | docker/param_tracking/overrides/hadoop/Configuration.java:1088-1096 | What the getters log for names that are not blank, what the transformer prints as debug lines, and untagged lines never claim a use and never make the collector fail |
| EndToEnd.Replay | java/experimental-provenance-agent/src/main/java/ecfuzz/agent/runtime/EventLogger.java:6-8 | Printing the reports of any schedule one by one, among any lines of others, leaves the error stream with the text of that log |
| EndToEnd.TrackNames | src/utils/ParamTraceCollector.py:58-88 | From printing to reading back: none exactly on a foreign tag without a payload; otherwise the names in ascending order, each used or claimed by a foreign use-backed tag, and all of these once all reports are printed |
| EndToEnd.LogHoldsReports | java/experimental-provenance-agent/src/main/java/ecfuzz/agent/runtime/EventLogger.java:6-8 | The reports among the printed lines are exactly those that the schedule lets through, in order |
| EndToEnd.LogStaysClean | java/experimental-provenance-agent/src/main/java/ecfuzz/agent/runtime/TraceRuntime.java:44-162 | If the names given to the hooks have no blanks, neither have those in any printed report, whatever others print |
| EndToEnd.RuntimeStackIsCallStack | java/experimental-provenance-agent/src/main/java/ecfuzz/agent/runtime/TraceRuntime.java:26-35 | While a thread runs a rewritten program, among any calls of other threads, the frames kept for it are the rewritten methods that it executes |
| TypeHierarchy.TypeHierarchyResolver.GetClassInfo | java/experimental-provenance-agent/src/main/java/ecfuzz/agent/ProvenanceTransformer.java:484-498 | Answers what the loader would, and the cache never disagrees with the loader |
| TypeHierarchy.HeightFalls | java/experimental-provenance-agent/src/main/java/ecfuzz/agent/ProvenanceTransformer.java:452-482 | If no path of two or more names leads back to its beginning, then fewer class files lie above the end of an edge than above its beginning; this is why the searches end |
| TypeHierarchy.TypeHierarchyResolver.IsAssignableFrom | java/experimental-provenance-agent/src/main/java/ecfuzz/agent/ProvenanceTransformer.java:452-482 | True exactly if the target is Object or is reached from the source over superclass and interface edges; the search ends on every hierarchy without cycles, loadable or not |
| TypeHierarchy.TypeHierarchyResolver.GetCommonSuperClass | java/experimental-provenance-agent/src/main/java/ecfuzz/agent/ProvenanceTransformer.java:355-395 | On every acyclic hierarchy: the type that is assignable from the other, if one is; else by reflection, or Object, if a class file is missing; Object if one is an interface; and else the lowest superclass of the first that is assignable from the second, or Object; Object for null names |
| TypeHierarchy.CommonSuperIsAnswer | java/experimental-provenance-agent/src/main/java/ecfuzz/agent/ProvenanceTransformer.java:355-395 | The same of the specification function; with both class files at hand the result is assignable from both types |
| TypeHierarchy.AssignableIffSuperclass | java/experimental-provenance-agent/src/main/java/ecfuzz/agent/ProvenanceTransformer.java:452-482 | Between classes, assignability is being a superclass, although the search also goes through interfaces |
| TypeHierarchy.CommonSuperIsLowest | java/experimental-provenance-agent/src/main/java/ecfuzz/agent/ProvenanceTransformer.java:355-395 | For two classes the result is a common superclass below all others |
| TypeHierarchy.LowestCommonIsUnique | java/experimental-provenance-agent/src/main/java/ecfuzz/agent/ProvenanceTransformer.java:355-395 | There is one such class |
| TypeHierarchy.CommonSuperIsSymmetric | java/experimental-provenance-agent/src/main/java/ecfuzz/agent/ProvenanceTransformer.java:355-395 | The order of the arguments does not matter, for classes and interfaces |
| Deprecation.DeprecationContext.constructor | docker/param_tracking/overrides/hadoop/Configuration.java:432-461 | Each key holds what it held in the copied context, or else exactly the new keys and message of the first delta that names it; a new key points back to the last delta that took effect and lists it, or else to where it pointed before |
| Deprecation.AddedExactly | docker/param_tracking/overrides/hadoop/Configuration.java:432-461 | The same for every registry and every list of deltas |
| Deprecation.CurrentHoldsExactly | docker/param_tracking/overrides/hadoop/Configuration.java:512-518 | The same for the current registry under every interleaving, with the deltas of the successful swaps in their order |
| Deprecation.AddingKeeps | docker/param_tracking/overrides/hadoop/Configuration.java:446-456 | Adding deltas keeps every entry, registers every key, and keeps the reverse table pointing only to registered keys that name the replacement |
| Deprecation.RegistryIsFoldOfCommits | docker/param_tracking/overrides/hadoop/Configuration.java:512-518 | Under every interleaving of the compare-and-swap loops, the registry is the fold of the deltas in the order of the successful swaps |
| Deprecation.NothingOverridden | docker/param_tracking/overrides/hadoop/Configuration.java:512-518 | From any context to any later one, no entry changes and none is lost |
| Deprecation.CallsCommitOnce | docker/param_tracking/overrides/hadoop/Configuration.java:512-518 | Each call of a thread is committed exactly once and in program order, except one that is still running |
| Deprecation.FinishedCallsAreRegistered | docker/param_tracking/overrides/hadoop/Configuration.java:512-518 | The keys of every call that has returned are in the current registry |
| Deprecation.FailedSwapMeansProgress | docker/param_tracking/overrides/hadoop/Configuration.java:515-518 | A swap fails exactly if another one has succeeded since the context was read |
| Configuration.LoadedValueWins | docker/param_tracking/overrides/hadoop/Configuration.java:2940-2959 | A key holds the last value among its entries up to and including the first final one, and is absent if there is none |
| Configuration.FinalsAreDeclared | docker/param_tracking/overrides/hadoop/Configuration.java:2940-2959 | A key is final exactly if some entry declares it so, with or without a value |
| Configuration.FinalsStay | docker/param_tracking/overrides/hadoop/Configuration.java:2946-2958 | No later entry changes a final key |
| Configuration.FinalSurvivesAddResource | docker/param_tracking/overrides/hadoop/Configuration.java:2758-2778 | A resource added later does not change what the earlier ones have made final |
| Configuration.Configuration.LoadProperty | docker/param_tracking/overrides/hadoop/Configuration.java:2940-2959 | Loads one entry; an entry without a value counts only if such keys are allowed |
| Configuration.Configuration.LoadItems | docker/param_tracking/overrides/hadoop/Configuration.java:2852-2911 | Loads the elements of a resource in order, nested sections included, a deprecated name standing for all its replacing keys; what that means for a key is ConfigurationDocuments.DocumentDecides |
| ConfigurationDocuments.DocumentDecides | docker/param_tracking/overrides/hadoop/Configuration.java:2852-2959 | For any list of resources, by places in the documents: a key holds the last value up to and including the first final property that names it, itself or through a deprecated name, also in nested sections, and is final exactly if some property says so |
| ConfigurationMeaning.LookupMeans | docker/param_tracking/overrides/hadoop/Configuration.java:1227-1346 | After any run of set, lookup, addResource and reload, a lookup answers the value of the last set of the name or of any name of its group, and if there was none, what the default resources and then the added ones say in document order |
| Configuration.Configuration.LoadResources | docker/param_tracking/overrides/hadoop/Configuration.java:2758-2778 | Loads the default resources and then the added ones, in order |
| Configuration.Configuration.GetProps | docker/param_tracking/overrides/hadoop/Configuration.java:2641-2660 | Fills the cache from the resources and the overlay if it is empty |
| Configuration.Configuration.HandleDeprecation | docker/param_tracking/overrides/hadoop/Configuration.java:667-700 | Answers the names to look up, and carries a value set under a deprecated key over to its replacements |
| Configuration.Configuration.GetRaw | docker/param_tracking/overrides/hadoop/Configuration.java:1227-1240 | Answers what the properties hold for the last replacing key |
| Configuration.Configuration.GetAlternativeNames | docker/param_tracking/overrides/hadoop/Configuration.java:1247-1268 | The replacing keys of the group of a replacing key, with the deprecated key if it has a value |
| Configuration.Configuration.Set | docker/param_tracking/overrides/hadoop/Configuration.java:1299-1346 | Sets the key and every name of its group, in overlay and cache |
| Configuration.Configuration.Unset | docker/param_tracking/overrides/hadoop/Configuration.java:1362-1381 | Removes the key and its group, or the replacements of a deprecated key, from overlay and cache |
| Configuration.Configuration.AddResource | docker/param_tracking/overrides/hadoop/Configuration.java:946-955 | Appends the resource and drops the cache and the final keys |
| Configuration.RunsCoherent | docker/param_tracking/overrides/hadoop/Configuration.java:2641-2660 | After any run of set, lookup, addResource and reload, the cache is empty or equals the resources overlaid by what the program has set |
| Configuration.AnswersIgnoreCache | docker/param_tracking/overrides/hadoop/Configuration.java:2641-2660 | Two configurations with the same contents give the same answers in any such run, whatever their caches |
| Configuration.ReloadIsInvisible | docker/param_tracking/overrides/hadoop/Configuration.java:946-955 | A reload inserted anywhere in a run changes no answer |
| Configuration.RunsHoldGroups | docker/param_tracking/overrides/hadoop/Configuration.java:1299-1346 | With disjoint, unchained deprecations, the overlay holds each group as a whole after every such run |
| Configuration.AliasesAgree | docker/param_tracking/overrides/hadoop/Configuration.java:1227-1240 | After any such run, every name of a group answers with the value that the group was last set to under any of its names |
| ConfigurationPromises.UnsetCoherentIff | docker/param_tracking/overrides/hadoop/Configuration.java:1362-1381 | Unsetting any key, deprecated or not, keeps the cache equal to a fresh load exactly if no resource defines a key that it removes |
| ConfigurationPromises.UnsetWorksIff | docker/param_tracking/overrides/hadoop/Configuration.java:1362-1381 | For every name, from every state whose filled cache shows the overlay: after unset a lookup finds nothing exactly if it found nothing before, or the name has no blanks around it and is not a deprecated one under which a value has been set |
| ConfigurationPromises.UnsetWorksInRuns | docker/param_tracking/overrides/hadoop/Configuration.java:1362-1381 | The same in all runs of set, lookup, addResource, reload and unset |
| ConfigurationPromises.RunsShow | docker/param_tracking/overrides/hadoop/Configuration.java:1299-1381 | In all these runs a filled cache shows the overlay, also behind removals that make it differ from a fresh load |
| ConfigurationPromises.UnsetOfDeprecatedKey | docker/param_tracking/overrides/hadoop/Configuration.java:1370-1377 | After unset of a deprecated key, a lookup still answers the value that had been set under that name, if any |
| ConfigurationPromises.UnsetRevives | docker/param_tracking/overrides/hadoop/Configuration.java:1362-1381 | The first failing run: a value set under a deprecated key is found after that key is unset |
| ConfigurationPromises.UnsetMissesBlanks | docker/param_tracking/overrides/hadoop/Configuration.java:1362-1381 | The second one, for one name: with a blank in front of it, set trims the name and unset does not |
| ConfigurationPromises.LookupAsDocumentedIff | docker/param_tracking/overrides/hadoop/Configuration.java:1227-1240 | In all states that a run of set, lookup, addResource and reload leads to, a lookup gives the first value among the names, as documented, exactly if the default resources, by what they load and make final, let the first and the last of the names that can have a value always agree |
| ConfigurationPromises.WithoutDefaults | docker/param_tracking/overrides/hadoop/Configuration.java:1227-1240 | Without default resources: exactly if the names do not differ |
| ConfigurationPromises.LastKeyHidesValue | docker/param_tracking/overrides/hadoop/Configuration.java:1227-1240 | A failing run: one resource gives a replacing key other than the last a value, and the lookup finds none |
| Substitution.FindSubVariable | docker/param_tracking/overrides/hadoop/Configuration.java:974-1020 | For every string: the leftmost match of the regular expression that the scanner replaces, or -1 exactly if there is none; the restarts strictly advance |
| Substitution.LeftmostIsUnique | docker/param_tracking/overrides/hadoop/Configuration.java:959-973 | There is one leftmost match, so this fixes both bounds |
| Substitution.NoMatchBefore | docker/param_tracking/overrides/hadoop/Configuration.java:985-1012 | A scan that stops at a character rules out every match that begins up to there |
| Substitution.SubstituteVars | docker/param_tracking/overrides/hadoop/Configuration.java:1039-1075 | The value after replacing leftmost variables until one is unbound or none is left, or the failure once twenty replacements have been made; null stays null |
| Substitution.OneVariable | docker/param_tracking/overrides/hadoop/Configuration.java:1044-1069 | The name between the braces is what is looked up, and the value takes the place of the variable, between unchanged text |
| Substitution.LimitAsDocumentedIff | docker/param_tracking/overrides/hadoop/Configuration.java:1036-1075 | Code and documentation differ exactly for the values whose expansion takes twenty replacements, not one more or less |
| Substitution.LimitedIff | docker/param_tracking/overrides/hadoop/Configuration.java:1039-1075 | With any limit: a failure exactly if the expansion takes more replacements than the limit; otherwise its result |
| Substitution.TwentyReferences | docker/param_tracking/overrides/hadoop/Configuration.java:1036-1075 | Such a value: twenty references to an empty value take twenty replacements, which the documentation allows, and fail |
| AlluxioLookup.LookupRecursively | docker/param_tracking/overrides/alluxio/InstancedConfiguration.java:495-523 | Terminates on every property map, computes the specification function, and restores the set of seen keys on success |
| AlluxioLookup.Lookup | docker/param_tracking/overrides/alluxio/InstancedConfiguration.java:484-486 | Starts with nothing seen |
| AlluxioLookup.LookupSubstitutes | docker/param_tracking/overrides/alluxio/InstancedConfiguration.java:488-523 | Where braces stand only in references: the simultaneous recursive substitution of all references, and none is left in the result |
| AlluxioLookup.LookedIsMeaning | docker/param_tracking/overrides/alluxio/InstancedConfiguration.java:505-521 | The same at every point of the loop, for any texts that cannot be misplaced: the next match in the partly resolved text is the next reference of the original text |
| AlluxioLookup.SubstitutesIff | docker/param_tracking/overrides/alluxio/InstancedConfiguration.java:488-523 | In every environment: all texts whose braces stand only in references are expanded by substitution exactly if the value of each key is when looked up alone, and no expanded value looks like a reference behind a dollar sign, and none opens one that another closes |
| AlluxioLookup.LeavesDecide | docker/param_tracking/overrides/alluxio/InstancedConfiguration.java:488-523 | With stray braces only in values that have no references, these values alone decide |
| AlluxioLookup.FailuresAgree | docker/param_tracking/overrides/alluxio/InstancedConfiguration.java:505-519 | On any values, stray braces included, the code fails exactly when and as the substitution does |
| AlluxioLookup.SucceedsIff | docker/param_tracking/overrides/alluxio/InstancedConfiguration.java:505-519 | A lookup succeeds exactly if no chain of references from its text ends in a key that is invalid, has no value, or stands on the chain already; chains may share keys |
| AlluxioLookup.CircularMeansCycle | docker/param_tracking/overrides/alluxio/InstancedConfiguration.java:507-510 | The circular error is raised only for a key that refers to itself through the keys of a chain |
| AlluxioLookup.FailureHasChain | docker/param_tracking/overrides/alluxio/InstancedConfiguration.java:505-519 | Each failure comes with the chain of references that justifies it, and is the first of the three that applies: seen already, invalid, without a value |
| AlluxioLookup.StrayBraceMisplaces | docker/param_tracking/overrides/alluxio/InstancedConfiguration.java:520 | For one value with a stray brace: a replacement lands in text that an earlier one left behind |
| AlluxioProperties.AlluxioProperties.PutValue | docker/param_tracking/overrides/alluxio/AlluxioProperties.java:156-171 | Sets value and source unless the key is held by a source of higher rank |
| AlluxioProperties.AlluxioProperties.RemoveValue | docker/param_tracking/overrides/alluxio/AlluxioProperties.java:221-228 | Removes value and source of a key |
| AlluxioProperties.AlluxioProperties.ClearAll | docker/param_tracking/overrides/alluxio/AlluxioProperties.java:144-147 | Removes everything |
| AlluxioProperties.AlluxioProperties.Merge | docker/param_tracking/overrides/alluxio/AlluxioProperties.java:191-214 | Puts the trimmed entries one by one under the keys that they name |
| AlluxioProperties.AlluxioProperties.GetSource | docker/param_tracking/overrides/alluxio/AlluxioProperties.java:318-324 | The source of the key, or the default one |
| AlluxioProperties.KeyHoldsWinner | docker/param_tracking/overrides/alluxio/AlluxioProperties.java:156-171 | After any operations, a key is there exactly if a put of it has not been reset since, and then holds value and source of the last of those puts that have the highest rank |
| AlluxioProperties.WinnerIsHeld | docker/param_tracking/overrides/alluxio/AlluxioProperties.java:318-324 | Whichever put wins, its value is held and its source is reported |
| AlluxioProperties.MergesCommute | docker/param_tracking/overrides/alluxio/AlluxioProperties.java:191-214 | From every consistent table, merges of any lists of entries from sources of different rank commute |
| AlluxioProperties.MergeAt | docker/param_tracking/overrides/alluxio/AlluxioProperties.java:191-214 | A merge leaves under each key its last entry, if the source may set it, and else what was there |
| AlluxioProperties.OneEntry | docker/param_tracking/overrides/alluxio/AlluxioProperties.java:196-212 | An entry is held, blanks around name and value aside, under the key of which the name is an alias, or under the name itself |
| AlluxioProperties.OrderIsImmaterialIff | docker/param_tracking/overrides/alluxio/AlluxioProperties.java:191-214 | All orders of the entries give the same table exactly if no two entries name one key with different trimmed values that the source may set |
| AlluxioProperties.OrderCanDecide | docker/param_tracking/overrides/alluxio/AlluxioProperties.java:196-212 | A map for which the order decides: two keys that differ by a blank, with different values |
| Trimmers.VirtualSystemTester.RunTest | src/testValidator/VirtualSystemTester.py:21-33 | The verdict of the first vulnerable key that is missing or has a harmless value; one run |
| Trimmers.VerdictMeans | src/testValidator/VirtualSystemTester.py:21-33 | Fails exactly if every vulnerable key has one of its bad values; a missing key is met exactly if all before it are hit; passes exactly if all before some harmless value are hit, or nothing is vulnerable |
| Trimmers.Trimmer.NormalTrim | src/testValidator/NormalTrimmer.py:25-54 | Raises a key error exactly if doing without some item does; otherwise keeps, in order, exactly the items without which the test no longer fails, with all values as before, in one run for each item |
| Trimmers.NeededIff | src/testValidator/NormalTrimmer.py:25-54 | In a failing test an item is kept exactly if it is vulnerable and its default is harmless, and no key error is met |
| Trimmers.Trimmer.DichotomySingle | src/testValidator/DichotomyTrimmer.py:37-89 | For every shuffle: half of the items, untouched, with the test failing while the others are at their defaults, or the same items with their values after 21 runs, or a key error, which only a missing default or a missing vulnerable key can cause |
| Trimmers.Trimmer.TrimTestcase | src/testValidator/DichotomyTrimmer.py:26-35 | Keeps, of some halved list of at most ten items, or of one that 21 runs could not halve, exactly the items that are needed, all others being at their defaults. With a default for each item: a failing test case is left with exactly its vulnerable items, at their original values, whatever the shuffles, if the defaults are harmless and only then; otherwise a vulnerable item is missing, or a key error is raised; one in which some vulnerable item is harmless as it is and at its default stays whole; at most 21 runs for each halving and one for each item |
| Trimmers.Trimmer.Halve | src/testValidator/DichotomyTrimmer.py:26-33 | Halves until at most ten items are left or 21 runs were in vain; dropped items are at their defaults; a failing test with harmless defaults stays failing and loses none of its vulnerable items; a test that cannot fail is left whole, and so is one of at most ten items |
| Trimmers.UnsafeDefaultIsDropped | src/testValidator/DichotomyTrimmer.py:26-35 | One failing input: an item with two bad values, one of them its default, is trimmed to nothing |
| Trimmers.RoundsAreLogarithmic | src/testValidator/DichotomyTrimmer.py:21-33 | A list is halved at most r times exactly if it has at most 10 * 2^r items |
| Trimmers.Shuffle | src/testValidator/DichotomyTrimmer.py:57 | Every outcome is a permutation |
| Kmeans.PointAvg | src/utils/Kmeans.py:12-31 | The average |
| Kmeans.UpdateCenters | src/utils/Kmeans.py:33-48 | The means of the clusters in use, in the order in which their labels first appear |
| Kmeans.AssignPoints | src/utils/Kmeans.py:50-71 | The nearest center of each point, the first one among equally near ones |
| Kmeans.KMeans | src/utils/Kmeans.py:117-125 | Terminates for any number of clusters and any starting points; the result is reached by rounds from the start, is changed by no further round, and costs no more than the start |
| Kmeans.RoundNeverWorsens | src/utils/Kmeans.py:117-125 | No round adds to the squared cost within the clusters, relabelling and emptied clusters included |
| Kmeans.WithinIsLeast | src/utils/Kmeans.py:12-48 | No centers serve the clusters better than their means, and only the means serve them as well |
| Kmeans.RoundAfterTie | src/utils/Kmeans.py:50-71 | After a round that saves nothing, the next one can only lower labels, as positions count |
| Kmeans.RoundMakesProgress | src/utils/Kmeans.py:117-125 | The measure of the iteration goes down with every round: cheaper labelings, then ties, then the labels read as a number, then renaming |
| Kmeans.CanonicalIsLeast | src/utils/Kmeans.py:33-48 | Relabelling by first appearance gives the least labeling that groups the points alike |
| Kmeans.EndIsCanonical | src/utils/Kmeans.py:117-125 | At the end the labels are the positions of the centers, so the first point has label 0 |
| Kmeans.EndIsNearest | src/utils/Kmeans.py:117-125 | At the end each point is at least as near to the mean of its own cluster as to that of any other |
| Classify.PrefixIsCluster | src/utils/ClassifyConfItems.py:44-56 | On a descending list the prefix as long as the cluster of the first item is that cluster; the first label is 0 |
| Classify.ZerosComeFirst | src/utils/ClassifyConfItems.py:44-56 | The reason: the points nearest to one of two centers lie on one side |
| Classify.LabelsFollowCounts | src/utils/ClassifyConfItems.py:44-56 | Items with as many tests are never separated |
| Classify.SortedIsSorted | src/utils/ClassifyConfItems.py:24 | The sorted list is descending and holds the same items |
| Classify.Run | src/utils/ClassifyConfItems.py:8-63 | Base and mutable items partition the items that have tests; the base items are the cluster of the first item where the iteration ends, are not empty, and each has more tests than every mutable one |
| IntegerRanges.IntegerRanges.Parse | docker/param_tracking/overrides/hadoop/Configuration.java:1911-1931 | The ranges of all tokens, or the failure of the first bad one |
| IntegerRanges.IntegerRanges.IsIncluded | docker/param_tracking/overrides/hadoop/Configuration.java:1954-1961 | True exactly if some range holds the value |
| IntegerRanges.IntegerRanges.ToString | docker/param_tracking/overrides/hadoop/Configuration.java:1971-1985 | Prints the ranges with dashes and commas |
| IntegerRanges.RangeNumberIterator.HasNextValue | docker/param_tracking/overrides/hadoop/Configuration.java:1874-1881 | Whether the current range or a further one has a value |
| IntegerRanges.RangeNumberIterator.NextValue | docker/param_tracking/overrides/hadoop/Configuration.java:1884-1898 | The next value, with the addition of 32-bit integers |
| IntegerRanges.ParseOfPrint | docker/param_tracking/overrides/hadoop/Configuration.java:1911-1985 | Parsing the printed form of any ranges gives the ranges back |
| IntegerRanges.ParsePrintParse | docker/param_tracking/overrides/hadoop/Configuration.java:1911-1985 | Printing a parsed value and parsing it again loses nothing |
| IntegerRanges.OpenRanges | docker/param_tracking/overrides/hadoop/Configuration.java:1915-1931 | A single number stands for itself, a missing lower bound for 0 and a missing upper bound for the greatest integer |
| IntegerRanges.InvertedRanges | docker/param_tracking/overrides/hadoop/Configuration.java:1926-1929 | Bounds in the wrong order are refused |
| IntegerRanges.OneBound | docker/param_tracking/overrides/hadoop/Configuration.java:1911-1947 | Any token without a dash is one number, or 0 if it is blank, or the failure of that number |
| IntegerRanges.TwoBounds | docker/param_tracking/overrides/hadoop/Configuration.java:1911-1947 | Any token with one dash has two bounds, missing or blank ones being 0 and the greatest integer |
| IntegerRanges.ThreeParts | docker/param_tracking/overrides/hadoop/Configuration.java:1915-1919 | Any token with more dashes is refused |
| IntegerRanges.BoundIff | docker/param_tracking/overrides/hadoop/Configuration.java:1936-1947 | A bound is blank, or a numeral up to the greatest integer with at most a plus sign in front, or refused |
| IntegerRanges.BlanksAreIgnored | docker/param_tracking/overrides/hadoop/Configuration.java:1911-1947 | Blanks around the numbers of a range do not matter |
| Text.TrimIs | docker/param_tracking/overrides/hadoop/Configuration.java:1915-1947 | Trimming cuts off exactly the blanks at both ends |
| IntegerRanges.IterationIsConcat | docker/param_tracking/overrides/hadoop/Configuration.java:1858-1898 | If no range ends at the greatest integer, the n-th call yields the n-th number of the concatenated ranges, and then nothing |
| IntegerRanges.YieldsIncludedIff | docker/param_tracking/overrides/hadoop/Configuration.java:1858-1898 | Every value that the iterator yields is included exactly if no range ends at the greatest integer |
| IntegerRanges.IteratesWhatIsIncluded | docker/param_tracking/overrides/hadoop/Configuration.java:1858-1961 | Then it yields a value exactly if the value is included |
| IntegerRanges.WrapsAround | docker/param_tracking/overrides/hadoop/Configuration.java:1884-1898 | A range that ends at the greatest integer leads on to the least |
| EventLog.EventLogger.Emit | java/experimental-provenance-agent/src/main/java/ecfuzz/agent/runtime/EventLogger.java:6-8 | If the stream holds the text of a log, then with a further report it holds the text of the log with that report at its end |
| EventLog.ParseEventsFromText | src/utils/ParamTraceCollector.py:58-88 | The events of the lines that match, numbered by line, with their source and the extra fields of the caller, or the index error on an empty payload |
| EventLog.ErrorStays | src/utils/ParamTraceCollector.py:38-88 | An index error in any line fails the whole text |
| EventLog.PrintedIsParsed | src/utils/ParamTraceCollector.py:38-80 | A printed report with clean names is read back: operation, parameter, the words that follow, the line, its number, source and extra fields |
| EventLog.PayloadIsParsed | src/utils/ParamTraceCollector.py:38-56 | A name and the words behind it are told apart, and no stack is seen in them |
| EventLog.PrintedLines | java/experimental-provenance-agent/src/main/java/ecfuzz/agent/runtime/TraceRuntime.java:55-161 | The line of each of the seven reports: type, name and words |
| EventLog.StackBehindTab | src/utils/ParamTraceCollector.py:42-45 | A name and a stack behind a tab are told apart |
| EventLog.StackBehindBlank | src/utils/ParamTraceCollector.py:46-48 | The same behind a blank, if no stack stands behind a tab |
| EventLog.PlainPayload | src/utils/ParamTraceCollector.py:53-56 | Without a name in front, the first word stands for the name |
| EventLog.OperationIs | src/utils/ParamTraceCollector.py:75-76 | Exactly the three raw operations lose their ending |
| EventLog.SearchIsLeftmost | src/utils/ParamTraceCollector.py:70-73 | The leftmost tag of a line is taken |
| EventLog.AllFields | src/utils/ParamTraceCollector.py:78-86 | The fields of an event; what the caller adds replaces what was parsed |
| EventLog.SplitsAtEnd | src/utils/ParamTraceCollector.py:69 | A text is split at its first line end, a carriage return with a line feed being one |
| EventLog.LogIsParsed | src/utils/ParamTraceCollector.py:58-88 | From a log in which others print any lines, the collector reads back every report, in order, and takes each other line as it would stand alone |
| EventLog.FailsIffBroken | src/utils/ParamTraceCollector.py:38-88 | Of such a log, exactly the foreign lines with a tag and an empty payload make the collector fail |
| EventLog.GetterLine | docker/param_tracking/overrides/hadoop/Configuration.java:1088-1096 | The line of a getter, behind any text without a tag, is no use, and can be parsed exactly if the name is not blank |
| EventLog.DebugLine | java/experimental-provenance-agent/src/main/java/ecfuzz/agent/ProvenanceTransformer.java:84-95 | The debug line of the transformer is no use and can be parsed |
| EventLog.UniqueParams | src/utils/ParamTraceCollector.py:298-307 | The names of the wanted events in strictly ascending order, each once |
| EventLog.ExtractUseBackedNames | src/utils/ParamTraceCollector.py:313-315 | The same for the reported uses |
| EventLog.AscendingIsUnique | src/utils/ParamTraceCollector.py:298-307 | There is one way to put a set of names in order |
| EventLog.LessIff | src/utils/ParamTraceCollector.py:298-307 | Names are ordered character by character |
| EventLog.ExtractedAreReported | src/utils/ParamTraceCollector.py:313-315 | The extracted names are those of the reported uses and those of foreign lines with a use-backed tag, if the extra fields leave operation and name alone |
| SplitTests.GroupTestByCls | src/testValidator/run_unit_test_utils.py:116-123 | The methods of each class, or the error on a name without exactly one separator |
| SplitTests.GroupsAreTests | src/testValidator/run_unit_test_utils.py:116-123 | A method is under a class exactly if the two make up one of the tests |
| SplitTests.ReverseMap | src/testValidator/run_unit_test_utils.py:125-133 | Each test with exactly the parameters to which it is mapped |
| SplitTests.EncodeSignature | src/testValidator/run_unit_test_utils.py:135-141 | One character for each parameter |
| SplitTests.DecodeOfEncode | src/testValidator/run_unit_test_utils.py:135-145 | Decoding undoes encoding on subsets of the parameters |
| SplitTests.EncodeOfDecode | src/testValidator/run_unit_test_utils.py:135-145 | Encoding undoes decoding on signatures |
| SplitTests.SplitTests | src/testValidator/run_unit_test_utils.py:147-162 | Partitions the tests: each is in exactly one group, a group holds exactly the parameters of each of its tests, and no two groups have the same parameters |

## Left out

The agent:

- Exceptions: a run ends where an exception is raised, so the claims about frames cover runs without exceptions; exceptions that leave a callee skip its exit probe, and a throw caught in the same method pops its frame early.
- `JSR` and `RET`, constructors and static initialisers, which the transformer passes over.
- The renumbering of original local variables by the local-variable sorter of ASM: new variables are taken above the original ones, as many as the rewriting asks for.
- Reading and writing class files, class loading, stack maps, and the transformer's answer when a transformation fails.
- The reflective fallback of the type hierarchy: its answers are a parameter.
- Programs that already call the probes; the reads of getters enter as external calls that may report reads.
- Identity of objects after garbage collection; a hook is one atomic access to the shared tables followed by its prints, one by one.
- Simulation.RewritingAddsNoRuns: speaks of runs that stop; for runs that do not, Simulation.RewritingPreservesRuns gives a rewritten run at least as long as any original one.

The Hadoop configuration:

- Resources that cannot be read again (streams) and `Properties` resources, which bypass final parameters; includes of other files; the parsing of XML.  A resource is a list of elements, a missing one is skipped as in quiet mode.
- Null names and values in `set`, where the code raises an exception.
- The records of which resource set a key, warnings, logging of exercised keys, and the expansion inside `get`, whose lookup is a parameter of Substitution.SubstituteVars.
- Digits outside ASCII in integer ranges; null range lists.

The Alluxio configuration:

- How names, aliases and templates lead to property keys: the names that lead to a value, and those that are valid, are parameters.  The hash of the properties, `setSource`, and defaults in `AlluxioProperties`.

Trimming and classification:

- Test cases in which two items have the same name.  That the vulnerable keys of the oracle differ, as those of a dictionary do, is used for one claim only: that exact trimming needs harmless defaults.
- The type of an item, and the test case file written before each run.
- Kmeans.KMeans: points of one dimension and exact arithmetic, without rounding, for any number of centers; the starting points, drawn at random by the original, are a parameter, so the drawing and its error on an empty list are not modelled.
- Classify.Run: answers nothing where the original fails on an empty list of counts.

Logs and tests:

- EventLog.PrintedIsParsed: asks that names and ids have no blanks; EndToEnd.LogStaysClean reduces this to the arguments of the hooks.
- EndToEnd.TrackNames: asks for hooks whose names have no blanks, and for a caller whose extra fields leave operation and name of an event alone, as those of all callers do.
- The other extraction functions and the recording of test cases; the platform's line separator is a line feed.
- The building of Maven command lines, and of the string that `join_test_string` hands to them.

Not modelled at all, as their parts are easy to check one by one or lie outside the code: control of
processes, containers and remote hosts, the overrides of ZooKeeper, the value generators and mutators, the
statistics, and the storage of results.
