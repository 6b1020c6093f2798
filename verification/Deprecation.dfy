/**
 * The global registry of deprecated keys of the Hadoop configuration, and the
 * lock-free way in which threads add to it.
 */
module Deprecation {
  import opened Wrappers

  /** What replaces a deprecated key. */
  datatype KeyInfo = KeyInfo(newKeys: seq<string>, message: Option<string>)

  datatype Delta = Delta(key: string, newKeys: seq<string>, message: Option<string>)

  /** An immutable context: the deprecated keys, and for a new key the key that it replaces. */
  datatype Registry = Registry(deprecated: map<string, KeyInfo>, reverse: map<string, string>)

  const EMPTY_REGISTRY := Registry(map[], map[])

  function PointBack(reverse: map<string, string>, newKeys: seq<string>, key: string): map<string, string> {
    if newKeys == [] then reverse
    else PointBack(reverse, newKeys[..|newKeys| - 1], key)[newKeys[|newKeys| - 1] := key]
  }

  function AddDelta(reg: Registry, d: Delta): Registry {
    if d.key in reg.deprecated then reg
    else Registry(reg.deprecated[d.key := KeyInfo(d.newKeys, d.message)], PointBack(reg.reverse, d.newKeys, d.key))
  }

  function AddDeltas(reg: Registry, deltas: seq<Delta>): Registry {
    if deltas == [] then reg else AddDelta(AddDeltas(reg, deltas[..|deltas| - 1]), deltas[|deltas| - 1])
  }

  /** The object that holds a registry; it never changes after it is built. */
  class DeprecationContext {
    const deprecatedKeyMap: map<string, KeyInfo>
    const reverseDeprecatedKeyMap: map<string, string>

    function Value(): Registry {
      Registry(deprecatedKeyMap, reverseDeprecatedKeyMap)
    }

    /** Copies `other`, if there is one, and applies the deltas. */
    constructor (other: DeprecationContext?, deltas: seq<Delta>)
      ensures Value() == AddDeltas(if other == null then EMPTY_REGISTRY else other.Value(), deltas)
      ensures var reg := if other == null then EMPTY_REGISTRY else other.Value();
              forall key :: HoldsEntry(reg, deltas, Value(), key) && PointsBack(reg, deltas, Value(), key)
    {
      var deprecated: map<string, KeyInfo>, reverse: map<string, string> := map[], map[];
      if other != null {
        deprecated, reverse := other.deprecatedKeyMap, other.reverseDeprecatedKeyMap;
      }
      ghost var base := Registry(deprecated, reverse);
      var i := 0;
      while i < |deltas|
        invariant 0 <= i <= |deltas|
        invariant Registry(deprecated, reverse) == AddDeltas(base, deltas[..i])
      {
        var d := deltas[i];
        assert deltas[..i + 1][..i] == deltas[..i];
        if d.key !in deprecated {
          deprecated := deprecated[d.key := KeyInfo(d.newKeys, d.message)];
          ghost var before := reverse;
          var j := 0;
          while j < |d.newKeys|
            invariant 0 <= j <= |d.newKeys|
            invariant reverse == PointBack(before, d.newKeys[..j], d.key)
          {
            assert d.newKeys[..j + 1][..j] == d.newKeys[..j];
            reverse := reverse[d.newKeys[j] := d.key];
            j := j + 1;
          }
          assert d.newKeys[..j] == d.newKeys;
        }
        i := i + 1;
      }
      assert deltas[..i] == deltas;
      forall key
        ensures HoldsEntry(base, deltas, Registry(deprecated, reverse), key)
        ensures PointsBack(base, deltas, Registry(deprecated, reverse), key)
      {
        AddedExactly(base, deltas, key);
      }
      deprecatedKeyMap, reverseDeprecatedKeyMap := deprecated, reverse;
    }
  }

  // ----- what every registry keeps -----

  /** Reverse entries lead to a registered key that names them, and every registered new key has one. */
  ghost predicate Consistent(reg: Registry) {
    && (forall n | n in reg.reverse ::
          reg.reverse[n] in reg.deprecated && n in reg.deprecated[reg.reverse[n]].newKeys)
    && (forall k | k in reg.deprecated :: forall n | n in reg.deprecated[k].newKeys :: n in reg.reverse)
  }

  /** Everything registered in `old'` is registered in `now`, unchanged. */
  ghost predicate Extends(old': Registry, now: Registry) {
    forall k | k in old'.deprecated :: k in now.deprecated && now.deprecated[k] == old'.deprecated[k]
  }

  lemma {:induction false} PointBackAt(reverse: map<string, string>, newKeys: seq<string>, key: string)
    ensures forall n :: n in PointBack(reverse, newKeys, key) <==> n in newKeys || n in reverse
    ensures forall n | n in PointBack(reverse, newKeys, key) ::
              PointBack(reverse, newKeys, key)[n] == if n in newKeys then key else reverse[n]
  {
    if newKeys != [] {
      var front := newKeys[..|newKeys| - 1];
      PointBackAt(reverse, front, key);
      assert newKeys == front + [newKeys[|newKeys| - 1]];
    }
  }

  lemma {:induction false} AddingKeeps(reg: Registry, deltas: seq<Delta>)
    requires Consistent(reg)
    ensures Consistent(AddDeltas(reg, deltas)) && Extends(reg, AddDeltas(reg, deltas))
    ensures forall d | d in deltas :: d.key in AddDeltas(reg, deltas).deprecated
  {
    if deltas != [] {
      var front, d := deltas[..|deltas| - 1], deltas[|deltas| - 1];
      var mid := AddDeltas(reg, front);
      AddingKeeps(reg, front);
      PointBackAt(mid.reverse, d.newKeys, d.key);
      assert deltas == front + [d];
    }
  }

  // ----- what exactly is registered -----

  /** Delta `i` is the first for its key, and the key is not registered yet. */
  predicate TakesEffect(reg: Registry, deltas: seq<Delta>, i: nat) {
    && i < |deltas| && deltas[i].key !in reg.deprecated
    && forall j | 0 <= j < i :: deltas[j].key != deltas[i].key
  }

  /** Delta `i` takes effect and lists the new key. */
  predicate Lists(reg: Registry, deltas: seq<Delta>, i: nat, n: string) {
    TakesEffect(reg, deltas, i) && n in deltas[i].newKeys
  }

  /** A key holds its old entry, or else exactly the new keys and the message of the first delta that names it. */
  ghost predicate HoldsEntry(reg: Registry, deltas: seq<Delta>, now: Registry, key: string) {
    if key in reg.deprecated then key in now.deprecated && now.deprecated[key] == reg.deprecated[key]
    else
      && (key in now.deprecated <==> exists i: nat :: TakesEffect(reg, deltas, i) && deltas[i].key == key)
      && (forall i: nat | TakesEffect(reg, deltas, i) && deltas[i].key == key ::
            key in now.deprecated && now.deprecated[key] == KeyInfo(deltas[i].newKeys, deltas[i].message))
  }

  /** A new key points back to the last delta that takes effect and lists it, or else to where it pointed before. */
  ghost predicate PointsBack(reg: Registry, deltas: seq<Delta>, now: Registry, n: string) {
    && (n in now.reverse <==> n in reg.reverse || exists i: nat :: Lists(reg, deltas, i, n))
    && (forall i: nat | Lists(reg, deltas, i, n) && (forall j: nat | i < j :: !Lists(reg, deltas, j, n)) ::
          n in now.reverse && now.reverse[n] == deltas[i].key)
    && (n in reg.reverse && (forall i: nat :: !Lists(reg, deltas, i, n)) ==>
          n in now.reverse && now.reverse[n] == reg.reverse[n])
  }

  /** One more delta takes effect exactly if its key is not registered, and the others as before. */
  lemma EffectStep(reg: Registry, deltas: seq<Delta>, mid: Registry, i: nat)
    requires deltas != [] && mid == AddDeltas(reg, deltas[..|deltas| - 1])
    requires HoldsEntry(reg, deltas[..|deltas| - 1], mid, deltas[|deltas| - 1].key)
    ensures var n := |deltas| - 1;
            && (TakesEffect(reg, deltas, i) <==>
                TakesEffect(reg, deltas[..n], i) || (i == n && deltas[n].key !in mid.deprecated))
            && (TakesEffect(reg, deltas[..n], i) ==> i < n && deltas[..n][i] == deltas[i])
  {
    hide AddDeltas, HoldsEntry;
    LastTakesEffectIff(reg, deltas);
  }

  lemma EntryStep(reg: Registry, deltas: seq<Delta>, mid: Registry, key: string)
    requires deltas != [] && mid == AddDeltas(reg, deltas[..|deltas| - 1])
    requires HoldsEntry(reg, deltas[..|deltas| - 1], mid, deltas[|deltas| - 1].key)
    requires HoldsEntry(reg, deltas[..|deltas| - 1], mid, key)
    ensures HoldsEntry(reg, deltas, AddDelta(mid, deltas[|deltas| - 1]), key)
  {
    hide AddDeltas, TakesEffect, PointBack;
    var n := |deltas| - 1;
    forall i: nat
      ensures TakesEffect(reg, deltas, i) <==>
              TakesEffect(reg, deltas[..n], i) || (i == n && deltas[n].key !in mid.deprecated)
      ensures TakesEffect(reg, deltas[..n], i) ==> i < n && deltas[..n][i] == deltas[i]
    {
      EffectStep(reg, deltas, mid, i);
    }
    assert TakesEffect(reg, deltas, n) <==> deltas[n].key !in mid.deprecated;
  }

  lemma BackStep(reg: Registry, deltas: seq<Delta>, mid: Registry, k: string)
    requires deltas != [] && mid == AddDeltas(reg, deltas[..|deltas| - 1])
    requires HoldsEntry(reg, deltas[..|deltas| - 1], mid, deltas[|deltas| - 1].key)
    requires PointsBack(reg, deltas[..|deltas| - 1], mid, k)
    ensures PointsBack(reg, deltas, AddDelta(mid, deltas[|deltas| - 1]), k)
  {
    hide AddDeltas, TakesEffect, PointBack, HoldsEntry;
    var n := |deltas| - 1;
    var d, front := deltas[n], deltas[..n];
    PointBackAt(mid.reverse, d.newKeys, d.key);
    forall i: nat
      ensures Lists(reg, deltas, i, k) <==>
              Lists(reg, front, i, k) || (i == n && d.key !in mid.deprecated && k in d.newKeys)
      ensures Lists(reg, front, i, k) ==> i < n && front[i] == deltas[i]
    {
      EffectStep(reg, deltas, mid, i);
    }
    hide Lists;
    if d.key in mid.deprecated || k !in d.newKeys {
      assert forall i: nat :: Lists(reg, deltas, i, k) <==> Lists(reg, front, i, k);
    } else {
      assert Lists(reg, deltas, n, k);
      assert forall i: nat | Lists(reg, deltas, i, k) :: i <= n;
    }
  }

  /** What adding deltas registers, for every registry and every list of deltas. */
  lemma {:induction false} AddedExactly(reg: Registry, deltas: seq<Delta>, key: string)
    ensures HoldsEntry(reg, deltas, AddDeltas(reg, deltas), key)
    ensures PointsBack(reg, deltas, AddDeltas(reg, deltas), key)
  {
    if deltas != [] {
      var n := |deltas| - 1;
      var mid := AddDeltas(reg, deltas[..n]);
      AddedExactly(reg, deltas[..n], key);
      AddedExactly(reg, deltas[..n], deltas[n].key);
      hide HoldsEntry, PointsBack;
      EntryStep(reg, deltas, mid, key);
      BackStep(reg, deltas, mid, key);
    }
  }

  lemma LastTakesEffectIff(reg: Registry, deltas: seq<Delta>)
    requires deltas != [] && HoldsEntry(reg, deltas[..|deltas| - 1], AddDeltas(reg, deltas[..|deltas| - 1]),
                                        deltas[|deltas| - 1].key)
    ensures var n := |deltas| - 1;
            TakesEffect(reg, deltas, n) <==> deltas[n].key !in AddDeltas(reg, deltas[..n]).deprecated
  {
    hide AddDeltas;
    var n := |deltas| - 1;
    var front, key := deltas[..n], deltas[n].key;
    if i :| 0 <= i < n && deltas[i].key == key {
      var first := FirstFor(front, key, i);
      assert front[first] == deltas[first];
      assert key !in reg.deprecated ==> TakesEffect(reg, front, first);
    }
    forall i: nat | TakesEffect(reg, front, i) && front[i].key == key
      ensures !TakesEffect(reg, deltas, n)
    {
      assert deltas[i] == front[i];
    }
  }

  lemma {:induction false} FirstFor(deltas: seq<Delta>, key: string, i: nat) returns (first: nat)
    requires i < |deltas| && deltas[i].key == key
    ensures first <= i && deltas[first].key == key && forall j | 0 <= j < first :: deltas[j].key != key
  {
    if j :| 0 <= j < i && deltas[j].key == key {
      first := FirstFor(deltas, key, j);
    } else {
      first := i;
    }
  }

  // ----- threads that add deprecations -----

  type Thread = nat

  datatype Progress =
    | Idle
    | Reading(deltas: seq<Delta>)
    /** `prev` is the identity of the context that was read, `next` the one built from it. */
    | Swapping(wanted: seq<Delta>, prev: nat, next: Registry)

  /**
   * `contexts` holds the contexts that were ever current, the last one being current;
   * a context is identified by its position.  `calls` lists the calls begun, and
   * `commits` the successful swaps, each of which ends a call.
   */
  datatype System = System(
    contexts: seq<Registry>,
    threads: map<Thread, Progress>,
    calls: seq<(Thread, seq<Delta>)>,
    commits: seq<(Thread, seq<Delta>)>)
  {
    function At(t: Thread): Progress {
      if t in threads then threads[t] else Idle
    }

    function Current(): Registry
      requires contexts != []
    {
      contexts[|contexts| - 1]
    }
  }

  datatype Action =
    | Call(t: Thread, deltas: seq<Delta>)
    | Read(t: Thread)
    | CompareAndSet(t: Thread)

  function Begin(initial: Registry): System {
    System([initial], map[], [], [])
  }

  /** One atomic step of `addDeprecations`; a failed swap goes back to reading. */
  function Act(s: System, a: Action): System
    requires s.contexts != []
    ensures Act(s, a).contexts != []
  {
    match a
    case Call(t, deltas) =>
      if s.At(t).Idle? then s.(threads := s.threads[t := Reading(deltas)], calls := s.calls + [(t, deltas)]) else s
    case Read(t) =>
      if s.At(t).Reading? then
        var deltas := s.At(t).deltas;
        s.(threads := s.threads[t := Swapping(deltas, |s.contexts| - 1, AddDeltas(s.Current(), deltas))])
      else s
    case CompareAndSet(t) =>
      if s.At(t).Swapping? then
        var p := s.At(t);
        if p.prev == |s.contexts| - 1
        then System(s.contexts + [p.next], s.threads[t := Idle], s.calls, s.commits + [(t, p.wanted)])
        else s.(threads := s.threads[t := Reading(p.wanted)])
      else s
  }

  function Schedule(initial: Registry, actions: seq<Action>): (s: System)
    ensures s.contexts != []
  {
    if actions == [] then Begin(initial)
    else Act(Schedule(initial, actions[..|actions| - 1]), actions[|actions| - 1])
  }

  /** Each context is its predecessor with the deltas of one commit, and no thread is about to break that. */
  ghost predicate Linear(s: System) {
    && |s.contexts| == |s.commits| + 1
    && (forall i | 0 <= i < |s.commits| :: s.contexts[i + 1] == AddDeltas(s.contexts[i], s.commits[i].1))
    && (forall t | s.At(t).Swapping? ::
          s.At(t).prev < |s.contexts| && s.At(t).next == AddDeltas(s.contexts[s.At(t).prev], s.At(t).wanted))
  }

  lemma ActLinear(s: System, a: Action)
    requires s.contexts != [] && Linear(s)
    ensures Linear(Act(s, a))
  {
    var s' := Act(s, a);
    forall t | s'.At(t).Swapping?
      ensures s'.At(t).prev < |s'.contexts| && s'.At(t).next == AddDeltas(s'.contexts[s'.At(t).prev], s'.At(t).wanted)
    {
      if t != a.t {
        assert s.At(t) == s'.At(t);
      }
    }
  }

  lemma {:induction false} ScheduleLinear(initial: Registry, actions: seq<Action>)
    ensures Linear(Schedule(initial, actions))
    ensures Schedule(initial, actions).contexts[0] == initial
  {
    if actions != [] {
      ScheduleLinear(initial, actions[..|actions| - 1]);
      ActLinear(Schedule(initial, actions[..|actions| - 1]), actions[|actions| - 1]);
    }
  }

  /** The deltas of the commits, in the order of the swaps. */
  function Committed(commits: seq<(Thread, seq<Delta>)>): seq<Delta> {
    if commits == [] then [] else Committed(commits[..|commits| - 1]) + commits[|commits| - 1].1
  }

  lemma {:induction false} AddDeltasAppend(reg: Registry, a: seq<Delta>, b: seq<Delta>)
    ensures AddDeltas(reg, a + b) == AddDeltas(AddDeltas(reg, a), b)
  {
    if b == [] {
      assert a + b == a;
    } else {
      assert (a + b)[..|a + b| - 1] == a + b[..|b| - 1];
      AddDeltasAppend(reg, a, b[..|b| - 1]);
    }
  }

  /** Under every interleaving, the current registry is the fold of all deltas in the order of the successful swaps. */
  lemma {:induction false} RegistryIsFoldOfCommits(initial: Registry, actions: seq<Action>, n: nat)
    requires n <= |Schedule(initial, actions).commits|
    ensures n < |Schedule(initial, actions).contexts|
    ensures Schedule(initial, actions).contexts[n] ==
            AddDeltas(initial, Committed(Schedule(initial, actions).commits[..n]))
    decreases n
  {
    ScheduleLinear(initial, actions);
    var commits := Schedule(initial, actions).commits;
    if n > 0 {
      RegistryIsFoldOfCommits(initial, actions, n - 1);
      assert commits[..n][..n - 1] == commits[..n - 1];
      AddDeltasAppend(initial, Committed(commits[..n - 1]), commits[n - 1].1);
    }
  }

  /** Under every interleaving, the current registry holds exactly what the committed deltas register. */
  lemma CurrentHoldsExactly(initial: Registry, actions: seq<Action>, key: string)
    ensures var s := Schedule(initial, actions);
            HoldsEntry(initial, Committed(s.commits), s.Current(), key) &&
            PointsBack(initial, Committed(s.commits), s.Current(), key)
  {
    hide Schedule, AddDeltas;
    var s := Schedule(initial, actions);
    ScheduleLinear(initial, actions);
    RegistryIsFoldOfCommits(initial, actions, |s.commits|);
    assert s.commits[..|s.commits|] == s.commits;
    AddedExactly(initial, Committed(s.commits), key);
  }

  /** No entry is ever overridden, and what a finished caller asked for stays registered. */
  lemma {:induction false} NothingOverridden(s: System, i: nat, j: nat)
    requires Linear(s) && i <= j < |s.contexts| && Consistent(s.contexts[0])
    ensures Consistent(s.contexts[j]) && Extends(s.contexts[i], s.contexts[j])
    ensures i < j ==> forall d | d in s.commits[i].1 :: d.key in s.contexts[j].deprecated
    decreases j, j - i
  {
    if j > 0 {
      NothingOverridden(s, 0, j - 1);
      AddingKeeps(s.contexts[j - 1], s.commits[j - 1].1);
      if i < j {
        NothingOverridden(s, i, j - 1);
      }
    }
  }

  /** What one thread contributes to a list. */
  function Of(list: seq<(Thread, seq<Delta>)>, t: Thread): seq<seq<Delta>> {
    if list == [] then []
    else Of(list[..|list| - 1], t) + if list[|list| - 1].0 == t then [list[|list| - 1].1] else []
  }

  function InProgress(p: Progress): seq<seq<Delta>> {
    match p
    case Idle => []
    case Reading(deltas) => [deltas]
    case Swapping(wanted, _, _) => [wanted]
  }

  lemma OfAppend(list: seq<(Thread, seq<Delta>)>, x: (Thread, seq<Delta>), t: Thread)
    ensures Of(list + [x], t) == Of(list, t) + if x.0 == t then [x.1] else []
  {
    assert (list + [x])[..|list|] == list;
  }

  /** What is begun by thread `t` is what it has committed and what it is still doing. */
  ghost predicate Accounted(s: System, t: Thread) {
    Of(s.calls, t) == Of(s.commits, t) + InProgress(s.At(t))
  }

  lemma ActAccounted(s: System, a: Action, t: Thread)
    requires s.contexts != [] && Accounted(s, t)
    ensures Accounted(Act(s, a), t)
  {
    hide AddDeltas; hide Of;
    match a {
      case Call(u, deltas) =>
        OfAppend(s.calls, (u, deltas), t);
        assert Of(s.commits, t) + [] == Of(s.commits, t);
      case Read(u) =>
      case CompareAndSet(u) =>
        if s.At(u).Swapping? {
          OfAppend(s.commits, (u, s.At(u).wanted), t);
          assert Of(s.commits, t) + [s.At(u).wanted] + [] == Of(s.commits, t) + [s.At(u).wanted];
        }
        assert Of(s.commits, t) + [] == Of(s.commits, t);
    }
  }

  /** Every call of a thread is committed once and in order, except the one that is still running. */
  lemma {:induction false} CallsCommitOnce(initial: Registry, actions: seq<Action>, t: Thread)
    ensures Accounted(Schedule(initial, actions), t)
  {
    if actions != [] {
      CallsCommitOnce(initial, actions[..|actions| - 1], t);
      ActAccounted(Schedule(initial, actions[..|actions| - 1]), actions[|actions| - 1], t);
    }
  }

  /** What a finished call asked for is in the current registry, and stays there. */
  lemma FinishedCallsAreRegistered(initial: Registry, actions: seq<Action>, c: nat)
    requires Consistent(initial) && c < |Schedule(initial, actions).commits|
    ensures var s := Schedule(initial, actions);
            && c < |s.contexts| && Consistent(s.Current()) && Extends(s.contexts[c], s.Current())
            && forall d | d in s.commits[c].1 :: d.key in s.Current().deprecated
  {
    hide Schedule, Act;
    ScheduleLinear(initial, actions);
    var s := Schedule(initial, actions);
    NothingOverridden(s, c, |s.contexts| - 1);
  }

  /** A swap fails only because another one has succeeded since the context was read. */
  lemma FailedSwapMeansProgress(initial: Registry, actions: seq<Action>, t: Thread)
    requires Schedule(initial, actions).At(t).Swapping?
    ensures var s := Schedule(initial, actions);
            var s' := Act(s, CompareAndSet(t));
            && s.At(t).prev <= |s.commits|
            && (if s.At(t).prev == |s.commits| then s'.At(t).Idle? && |s'.commits| == |s.commits| + 1
                else s'.At(t) == Reading(s.At(t).wanted) && s'.commits == s.commits)
  {
    ScheduleLinear(initial, actions);
  }
}
