/** Reducing a failing test case to the configuration items that make it fail. */
module Trimmers {
  import opened Wrappers

  class ConfItem {
    const name: string
    var value: string

    constructor (name: string, value: string)
      ensures this.name == name && this.value == value
    {
      this.name := name;
      this.value := value;
    }
  }

  predicate UniqueNames(items: seq<ConfItem>) {
    forall i, j | 0 <= i < j < |items| :: items[i].name != items[j].name
  }

  // ----- the oracle -----

  /** An entry of `vulnerableConfItems`: the values of an item that lead to a failure. */
  datatype Weakness = Weakness(key: string, values: seq<string>)

  /** `MissingKey` stands for the key error of an oracle that asks for an item that is not there. */
  datatype TestResult = Passed | Failed | MissingKey

  /** `{item.name: item.value for item in items}` */
  function Reading(items: seq<ConfItem>): map<string, string>
    reads items
  {
    if items == [] then map[]
    else Reading(items[..|items| - 1])[items[|items| - 1].name := items[|items| - 1].value]
  }

  function NamesOf(items: seq<ConfItem>): set<string> {
    set it | it in items :: it.name
  }

  lemma {:induction false} ReadingDescribes(items: seq<ConfItem>)
    requires UniqueNames(items)
    ensures Reading(items).Keys == NamesOf(items)
    ensures forall it | it in items :: it.name in Reading(items) && Reading(items)[it.name] == it.value
  {
    if items != [] {
      var last := |items| - 1;
      assert items == items[..last] + [items[last]];
      ReadingDescribes(items[..last]);
      assert NamesOf(items) == NamesOf(items[..last]) + {items[last].name};
      assert forall it | it in items[..last] :: it.name != items[last].name;
    }
  }

  lemma ReadingIs(items: seq<ConfItem>, values: map<string, string>)
    requires UniqueNames(items) && values.Keys == NamesOf(items)
    requires forall it | it in items :: it.name in values && values[it.name] == it.value
    ensures Reading(items) == values
  {
    ReadingDescribes(items);
  }

  /** Each weakness names an item. */
  predicate Covers(weaknesses: Option<seq<Weakness>>, values: map<string, string>) {
    weaknesses.Some? ==> forall w | w in weaknesses.value :: w.key in values
  }

  /** All weaknesses are hit at once. */
  predicate Fails(weaknesses: Option<seq<Weakness>>, values: map<string, string>) {
    weaknesses.Some? && forall w | w in weaknesses.value :: w.key in values && values[w.key] in w.values
  }

  predicate IsWeak(weaknesses: Option<seq<Weakness>>, name: string) {
    weaknesses.Some? && exists w :: w in weaknesses.value && w.key == name
  }

  /** The first weakness that is not hit decides. */
  function VerdictOf(weaknesses: seq<Weakness>, values: map<string, string>): TestResult {
    if weaknesses == [] then Failed
    else if weaknesses[0].key !in values then MissingKey
    else if values[weaknesses[0].key] !in weaknesses[0].values then Passed
    else VerdictOf(weaknesses[1..], values)
  }

  function Verdict(weaknesses: Option<seq<Weakness>>, values: map<string, string>): TestResult {
    if weaknesses.None? then Passed else VerdictOf(weaknesses.value, values)
  }

  predicate HitBefore(weaknesses: seq<Weakness>, values: map<string, string>, i: nat)
    requires i <= |weaknesses|
  {
    forall j | 0 <= j < i :: weaknesses[j].key in values && values[weaknesses[j].key] in weaknesses[j].values
  }

  lemma {:induction false} DecidedBy(weaknesses: seq<Weakness>, values: map<string, string>) returns (i: nat)
    ensures i <= |weaknesses| && HitBefore(weaknesses, values, i)
    ensures VerdictOf(weaknesses, values) ==
            if i == |weaknesses| then Failed else if weaknesses[i].key !in values then MissingKey else Passed
    ensures i < |weaknesses| && weaknesses[i].key in values ==> values[weaknesses[i].key] !in weaknesses[i].values
  {
    i := 0;
    if weaknesses != [] && weaknesses[0].key in values && values[weaknesses[0].key] in weaknesses[0].values {
      i := DecidedBy(weaknesses[1..], values);
      assert forall j | 0 < j <= i :: weaknesses[j] == weaknesses[1..][j - 1];
      i := i + 1;
    }
  }

  /**
   * What each verdict says: all weaknesses are hit, or all before one whose key is missing, or
   * whose value is harmless.
   */
  lemma VerdictMeans(weaknesses: Option<seq<Weakness>>, values: map<string, string>)
    ensures Verdict(weaknesses, values) == Failed <==> Fails(weaknesses, values)
    ensures Verdict(weaknesses, values) == MissingKey <==>
            weaknesses.Some? && exists i :: 0 <= i < |weaknesses.value| && HitBefore(weaknesses.value, values, i)
                                            && weaknesses.value[i].key !in values
    ensures Verdict(weaknesses, values) == Passed <==>
            weaknesses.None? ||
            (exists i :: 0 <= i < |weaknesses.value| && HitBefore(weaknesses.value, values, i)
                         && weaknesses.value[i].key in values
                         && values[weaknesses.value[i].key] !in weaknesses.value[i].values)
  {
    if weaknesses.Some? {
      var i := DecidedBy(weaknesses.value, values);
      assert i < |weaknesses.value| ==> weaknesses.value[i] in weaknesses.value;
      forall j | 0 <= j < |weaknesses.value| && HitBefore(weaknesses.value, values, j)
        ensures j < i ==>
                  && weaknesses.value[j].key in values
                  && values[weaknesses.value[j].key] in weaknesses.value[j].values
        ensures j <= i
      {
      }
    }
  }

  class VirtualSystemTester {
    const weaknesses: Option<seq<Weakness>>
    /** How often a test has been run. */
    ghost var runs: nat

    constructor (weaknesses: Option<seq<Weakness>>)
      ensures this.weaknesses == weaknesses && runs == 0
    {
      this.weaknesses := weaknesses;
      runs := 0;
    }

    method RunTest(items: seq<ConfItem>) returns (r: TestResult)
      modifies this`runs
      ensures runs == old(runs) + 1
      ensures r == Verdict(weaknesses, Reading(items))
    {
      runs := runs + 1;
      if weaknesses.None? {
        return Passed;
      }
      var confItemMaps := Reading(items);
      var i := 0;
      while i < |weaknesses.value|
        invariant 0 <= i <= |weaknesses.value|
        invariant VerdictOf(weaknesses.value[i..], confItemMaps) == VerdictOf(weaknesses.value, confItemMaps)
      {
        var w := weaknesses.value[i];
        assert weaknesses.value[i..][1..] == weaknesses.value[i + 1..];
        if w.key !in confItemMaps {
          return MissingKey;
        }
        if confItemMaps[w.key] !in w.values {
          return Passed;
        }
        i := i + 1;
      }
      r := Failed;
    }
  }

  // ----- the specification -----

  /** `KeyError` stands for the exception of a missing default, or of a missing key in the oracle. */
  datatype Outcome<+T> = Done(value: T) | KeyError

  predicate HasDefaults(defaults: map<string, string>, items: seq<ConfItem>) {
    forall it | it in items :: it.name in defaults
  }

  /** No default value is one that a weakness waits for. */
  predicate SafeDefaults(weaknesses: Option<seq<Weakness>>, defaults: map<string, string>) {
    weaknesses.Some? ==> forall w | w in weaknesses.value && w.key in defaults :: defaults[w.key] !in w.values
  }

  /** The keys of a dictionary differ. */
  predicate IsDict(weaknesses: Option<seq<Weakness>>) {
    weaknesses.Some? ==> forall v, w | v in weaknesses.value && w in weaknesses.value && v.key == w.key :: v == w
  }

  /** Some weakness is hit neither by the value nor by the default of its item. */
  predicate IsImmune(weaknesses: Option<seq<Weakness>>, defaults: map<string, string>, values: map<string, string>) {
    weaknesses.None? ||
    (exists w :: w in weaknesses.value && w.key in values && values[w.key] !in w.values
                 && w.key in defaults && defaults[w.key] !in w.values)
  }

  function Restricted(values: map<string, string>, names: set<string>): map<string, string> {
    map k | k in values && k in names :: values[k]
  }

  /** The values once the items of these names are at their defaults. */
  function Defaulted(values: map<string, string>, defaults: map<string, string>, names: set<string>)
    : map<string, string>
  {
    map k | k in values :: if k in names && k in defaults then defaults[k] else values[k]
  }

  function Tried(defaults: map<string, string>, values: map<string, string>, it: ConfItem): map<string, string> {
    if it.name in defaults then values[it.name := defaults[it.name]] else values
  }

  /** Without the item the test no longer fails. */
  predicate IsNeeded(weaknesses: Option<seq<Weakness>>, defaults: map<string, string>, values: map<string, string>,
                     it: ConfItem)
  {
    it.name in defaults && Verdict(weaknesses, Tried(defaults, values, it)) == Passed
  }

  /** Trying to do without the item raises an exception. */
  predicate IsTrouble(weaknesses: Option<seq<Weakness>>, defaults: map<string, string>, values: map<string, string>,
                      it: ConfItem)
  {
    it.name !in defaults || Verdict(weaknesses, Tried(defaults, values, it)) == MissingKey
  }

  /** The needed items, in their order. */
  function Needed(weaknesses: Option<seq<Weakness>>, defaults: map<string, string>, values: map<string, string>,
                  items: seq<ConfItem>): seq<ConfItem>
  {
    if items == [] then []
    else
      var it := items[|items| - 1];
      Needed(weaknesses, defaults, values, items[..|items| - 1]) +
      (if IsNeeded(weaknesses, defaults, values, it) then [it] else [])
  }

  /** Exactly when an item is needed by a failing test: it is weak, and its default is not among the bad values. */
  lemma NeededIff(weaknesses: Option<seq<Weakness>>, defaults: map<string, string>, values: map<string, string>,
                  it: ConfItem)
    requires Fails(weaknesses, values) && it.name in defaults
    ensures IsNeeded(weaknesses, defaults, values, it) <==>
            exists w :: w in weaknesses.value && w.key == it.name && defaults[it.name] !in w.values
    ensures !IsTrouble(weaknesses, defaults, values, it)
  {
    hide Verdict;
    var tried := Tried(defaults, values, it);
    VerdictMeans(weaknesses, tried);
    assert forall i | 0 <= i < |weaknesses.value| :: weaknesses.value[i] in weaknesses.value;
    assert Verdict(weaknesses, tried) != MissingKey;
  }

  lemma {:induction false} NeededAre(weaknesses: Option<seq<Weakness>>, defaults: map<string, string>,
                                     values: map<string, string>, items: seq<ConfItem>, it: ConfItem)
    ensures it in Needed(weaknesses, defaults, values, items) <==>
            it in items && IsNeeded(weaknesses, defaults, values, it)
  {
    hide IsNeeded;
    if items != [] {
      var last := |items| - 1;
      assert items == items[..last] + [items[last]];
      NeededAre(weaknesses, defaults, values, items[..last], it);
    }
  }

  lemma NeededNone(weaknesses: Option<seq<Weakness>>, defaults: map<string, string>, values: map<string, string>)
    ensures Needed(weaknesses, defaults, values, []) == []
  {
  }

  lemma NeededNext(weaknesses: Option<seq<Weakness>>, defaults: map<string, string>, values: map<string, string>,
                   items: seq<ConfItem>, i: nat)
    requires i < |items|
    ensures Needed(weaknesses, defaults, values, items[..i + 1]) ==
            Needed(weaknesses, defaults, values, items[..i]) +
            (if IsNeeded(weaknesses, defaults, values, items[i]) then [items[i]] else [])
  {
    assert items[..i + 1][..i] == items[..i];
  }

  // ----- the trimmers -----

  /** The needed items keep their order. */
  lemma {:induction false} NeededJoin(weaknesses: Option<seq<Weakness>>, defaults: map<string, string>,
                                      values: map<string, string>, a: seq<ConfItem>, b: seq<ConfItem>)
    ensures Needed(weaknesses, defaults, values, a + b) ==
            Needed(weaknesses, defaults, values, a) + Needed(weaknesses, defaults, values, b)
  {
    hide IsNeeded;
    if b == [] {
      assert a + b == a;
    } else {
      assert (a + b)[..|a + b| - 1] == a + b[..|b| - 1];
      NeededJoin(weaknesses, defaults, values, a, b[..|b| - 1]);
    }
  }

  const THRESHOLD := 10
  const MAX_TRY := 20

  predicate Distinct(s: seq<nat>) {
    forall i, j | 0 <= i < j < |s| :: s[i] != s[j]
  }

  predicate Within(s: seq<nat>, n: nat) {
    forall i | 0 <= i < |s| :: s[i] < n
  }

  function Swapped(s: seq<nat>, i: nat, j: nat): (r: seq<nat>)
    requires i < |s| && j < |s|
    ensures |r| == |s|
  {
    s[i := s[j]][j := s[i]]
  }

  lemma SwappedIsShuffle(s: seq<nat>, i: nat, j: nat)
    requires i < |s| && j < |s|
    ensures multiset(Swapped(s, i, j)) == multiset(s)
  {
    var t := s[i := s[j]];
    assert multiset(t) == multiset(s) - multiset{s[i]} + multiset{s[j]};
    assert multiset(t[j := s[i]]) == multiset(t) - multiset{t[j]} + multiset{s[i]};
  }

  lemma SwappedIsDistinct(s: seq<nat>, i: nat, j: nat)
    requires i < |s| && j < |s| && Distinct(s)
    ensures Distinct(Swapped(s, i, j))
  {
  }

  /** `random.shuffle`: each permutation is a possible outcome. */
  method Shuffle(s: seq<nat>) returns (r: seq<nat>)
    ensures |r| == |s| && multiset(r) == multiset(s)
    ensures Distinct(s) ==> Distinct(r)
  {
    hide Distinct, Swapped;
    r := s;
    var i := |s| - 1;
    while i > 0
      invariant |r| == |s| && multiset(r) == multiset(s)
      invariant Distinct(s) ==> Distinct(r)
    {
      var j :| 0 <= j <= i;
      SwappedIsShuffle(r, i, j);
      if Distinct(r) {
        SwappedIsDistinct(r, i, j);
      }
      r := Swapped(r, i, j);
      i := i - 1;
    }
  }

  class Trimmer {
    const systemTester: VirtualSystemTester
    const defaultValueMap: map<string, string>

    constructor (systemTester: VirtualSystemTester, defaultValueMap: map<string, string>)
      ensures this.systemTester == systemTester && this.defaultValueMap == defaultValueMap
    {
      this.systemTester := systemTester;
      this.defaultValueMap := defaultValueMap;
    }

    method NormalTrim(confItems: seq<ConfItem>) returns (r: Outcome<seq<ConfItem>>)
      requires UniqueNames(confItems)
      modifies systemTester`runs, confItems
      ensures r.KeyError? <==>
              (exists it :: it in confItems
                            && IsTrouble(systemTester.weaknesses, defaultValueMap, old(Reading(confItems)), it))
      ensures r.Done? ==>
                r.value == Needed(systemTester.weaknesses, defaultValueMap, old(Reading(confItems)), confItems)
      ensures r.Done? ==> systemTester.runs == old(systemTester.runs) + |confItems|
      ensures r.Done? ==> forall it | it in confItems :: it.value == old(it.value)
      ensures systemTester.runs <= old(systemTester.runs) + |confItems|
      ensures forall it | it in confItems ::
                it.value == old(it.value) || (it.name in defaultValueMap && it.value == defaultValueMap[it.name])
    {
      hide Needed, Verdict, Reading, NamesOf;
      ghost var values := Reading(confItems);
      ReadingDescribes(confItems);
      var trimmed := [];
      NeededNone(systemTester.weaknesses, defaultValueMap, values);
      var i := 0;
      while i < |confItems|
        invariant 0 <= i <= |confItems|
        invariant forall it | it in confItems :: it.value == old(it.value)
        invariant systemTester.runs == old(systemTester.runs) + i
        invariant trimmed == Needed(systemTester.weaknesses, defaultValueMap, values, confItems[..i])
        invariant forall it | it in confItems[..i] :: !IsTrouble(systemTester.weaknesses, defaultValueMap, values, it)
      {
        var confItem := confItems[i];
        var oldValue := confItem.value;
        if confItem.name !in defaultValueMap {
          return KeyError;
        }
        confItem.value := defaultValueMap[confItem.name];
        ghost var changed := Tried(defaultValueMap, values, confItem);
        SameName(confItems, confItem);
        ReadingIs(confItems, changed);
        var result := systemTester.RunTest(confItems);
        if result == MissingKey {
          return KeyError;
        }
        confItem.value := oldValue;
        if result == Passed {
          trimmed := trimmed + [confItem];
        }
        NeededNext(systemTester.weaknesses, defaultValueMap, values, confItems, i);
        assert confItems[..i + 1] == confItems[..i] + [confItem];
        i := i + 1;
      }
      assert confItems[..i] == confItems;
      r := Done(trimmed);
    }

    /** Sets the items of `fixed` to their defaults. */
    method SetDefaults(confItems: seq<ConfItem>, fixed: seq<nat>) returns (r: Outcome<map<string, string>>)
      requires UniqueNames(confItems)
      requires Distinct(fixed) && Within(fixed, |confItems|)
      modifies confItems
      ensures r.KeyError? <==> exists k :: k in fixed && confItems[k].name !in defaultValueMap
      ensures r.Done? ==> forall k | 0 <= k < |confItems| ::
                k in fixed ==>
                  && confItems[k].name in defaultValueMap
                  && confItems[k].value == defaultValueMap[confItems[k].name]
      ensures r.Done? ==>
                forall k | 0 <= k < |confItems| :: k !in fixed ==> confItems[k].value == old(confItems[k].value)
      ensures r.Done? ==> forall k | k in fixed ::
                confItems[k].name in r.value && r.value[confItems[k].name] == old(confItems[k].value)
      ensures forall k | 0 <= k < |confItems| ::
                confItems[k].value == old(confItems[k].value)
                || (confItems[k].name in defaultValueMap && confItems[k].value == defaultValueMap[confItems[k].name])
    {
      var oldValueMap: map<string, string> := map[];
      var i := 0;
      while i < |fixed|
        invariant 0 <= i <= |fixed|
        invariant forall k | k in fixed[..i] :: confItems[k].name in defaultValueMap
        invariant forall k | 0 <= k < |confItems| ::
                    confItems[k].value ==
                    if k in fixed[..i] then defaultValueMap[confItems[k].name] else old(confItems[k].value)
        invariant forall k | k in fixed[..i] ::
                    confItems[k].name in oldValueMap && oldValueMap[confItems[k].name] == old(confItems[k].value)
      {
        var confItem := confItems[fixed[i]];
        assert fixed[i] in fixed && fixed[i] !in fixed[..i];
        OneMoreFixed(fixed, i);
        oldValueMap := oldValueMap[confItem.name := confItem.value];
        if confItem.name !in defaultValueMap {
          return KeyError;
        }
        confItem.value := defaultValueMap[confItem.name];
        i := i + 1;
      }
      assert fixed[..i] == fixed;
      r := Done(oldValueMap);
    }

    /** Gives the items of `fixed` the values that were noted. */
    method Restore(confItems: seq<ConfItem>, fixed: seq<nat>, oldValueMap: map<string, string>)
      requires UniqueNames(confItems)
      requires Within(fixed, |confItems|) && forall k | k in fixed :: confItems[k].name in oldValueMap
      modifies confItems
      ensures forall k | 0 <= k < |confItems| ::
                confItems[k].value == if k in fixed then oldValueMap[confItems[k].name] else old(confItems[k].value)
    {
      var i := 0;
      while i < |fixed|
        invariant 0 <= i <= |fixed|
        invariant forall k | 0 <= k < |confItems| ::
                    confItems[k].value ==
                    if k in fixed[..i] then oldValueMap[confItems[k].name] else old(confItems[k].value)
      {
        var confItem := confItems[fixed[i]];
        confItem.value := oldValueMap[confItem.name];
        OneMoreFixed(fixed, i);
        i := i + 1;
      }
      assert fixed[..i] == fixed;
    }

    /** A half that still fails, or all items once the attempts are used up. */
    method DichotomySingle(confItems: seq<ConfItem>) returns (r: Outcome<(seq<ConfItem>, bool)>)
      requires UniqueNames(confItems)
      modifies systemTester`runs, confItems
      ensures old(systemTester.runs) <= systemTester.runs <= old(systemTester.runs) + 21
      ensures r.KeyError? ==> !HasDefaults(defaultValueMap, confItems)
                              || !Covers(systemTester.weaknesses, old(Reading(confItems)))
      ensures forall it | it in confItems ::
                it.value == old(it.value) || (it.name in defaultValueMap && it.value == defaultValueMap[it.name])
      ensures r.Done? && !r.value.1 ==>
                r.value.0 == confItems && forall it | it in confItems :: it.value == old(it.value)
      ensures r.Done? && !r.value.1 ==> systemTester.runs == old(systemTester.runs) + 21
      ensures r.Done? && r.value.1 ==> |r.value.0| == |confItems| - |confItems| / 2 && UniqueNames(r.value.0)
      ensures r.Done? && r.value.1 ==> forall it | it in r.value.0 :: it in confItems
      ensures r.Done? && r.value.1 ==> forall it | it in confItems ::
                if it in r.value.0 then it.value == old(it.value)
                else it.name in defaultValueMap && it.value == defaultValueMap[it.name]
      ensures r.Done? && r.value.1 ==>
                Fails(systemTester.weaknesses,
                      Defaulted(old(Reading(confItems)), defaultValueMap, NamesOf(confItems) - NamesOf(r.value.0)))
    {
      hide Fails, Reading, Distinct, Defaulted, NamesOf, Selected, Range, Verdict, Covers;
      ghost var values := Reading(confItems);
      ReadingDescribes(confItems);
      var n := |confItems|;
      var indexes := Range(n);
      RangeIsDistinct(n);
      var tryCount := 0;
      while true
        invariant 0 <= tryCount <= MAX_TRY
        invariant |indexes| == n && multiset(indexes) == multiset(Range(n)) && Distinct(indexes)
        invariant forall it | it in confItems :: it.value == old(it.value)
        invariant systemTester.runs == old(systemTester.runs) + tryCount
        decreases MAX_TRY - tryCount
      {
        indexes := Shuffle(indexes);
        var fixed, kept := indexes[..n / 2], indexes[n / 2..];
        ShuffleSplits(indexes, n, n / 2);
        var oldValueMap := SetDefaults(confItems, fixed);
        if oldValueMap.KeyError? {
          return KeyError;
        }
        var trimmed := Selected(confItems, kept);
        SelectedIs(confItems, fixed, kept);
        ghost var changed := Defaulted(values, defaultValueMap, NamesOf(confItems) - NamesOf(trimmed));
        DefaultedAt(confItems, values, defaultValueMap, trimmed);
        ReadingIs(confItems, changed);
        var result := systemTester.RunTest(confItems);
        SameKeys(systemTester.weaknesses, values, changed);
        if result == MissingKey {
          return KeyError;
        }
        if result != Passed {
          return Done((trimmed, true));
        }
        Restore(confItems, fixed, oldValueMap.value);
        tryCount := tryCount + 1;
        if tryCount > MAX_TRY {
          return Done((confItems, false));
        }
      }
    }

    /** The halvings: they keep a failing test failing, and leave one that can never fail whole. */
    method Halve(testcase: seq<ConfItem>) returns (r: Outcome<seq<ConfItem>>)
      requires UniqueNames(testcase)
      modifies systemTester`runs, testcase
      ensures r.Done? ==> UniqueNames(r.value) && |r.value| <= |testcase|
      ensures r.Done? ==> forall it | it in r.value :: it in testcase && it.value == old(it.value)
      ensures KeepsFailing(systemTester.weaknesses, defaultValueMap, old(Reading(testcase)), testcase) ==>
                && r.Done? && Fails(systemTester.weaknesses, Reading(r.value))
                && forall it | it in testcase && IsWeak(systemTester.weaknesses, it.name) :: it in r.value
      ensures NeverFails(systemTester.weaknesses, defaultValueMap, old(Reading(testcase)), testcase) ==>
                r == Done(testcase) && Reading(testcase) == old(Reading(testcase))
      ensures |testcase| <= 10 ==> r == Done(testcase) && Reading(testcase) == old(Reading(testcase))
      ensures forall it | it in testcase ::
                it.value == old(it.value) || (it.name in defaultValueMap && it.value == defaultValueMap[it.name])
      ensures r.Done? ==> forall it | it in testcase ::
                if it in r.value then it.value == old(it.value)
                else it.name in defaultValueMap && it.value == defaultValueMap[it.name]
      ensures r.Done? ==> |r.value| <= 10 || systemTester.runs >= old(systemTester.runs) + 21
      ensures systemTester.runs <= old(systemTester.runs) + 21 * Rounds(|testcase|)
    {
      hide Fails, Reading, Defaulted, Rounds, NamesOf, SafeDefaults, Covers, IsImmune;
      ghost var weaknesses, defaults, values := systemTester.weaknesses, defaultValueMap, Reading(testcase);
      ghost var failing := KeepsFailing(weaknesses, defaults, values, testcase);
      ghost var immune := NeverFails(weaknesses, defaults, values, testcase);
      ReadingDescribes(testcase);
      if failing {
        FailingCovers(weaknesses, values);
      }
      var confItems := testcase;
      var succeed := true;
      while |confItems| > THRESHOLD && succeed
        invariant UniqueNames(confItems) && |confItems| <= |testcase|
        invariant forall it | it in confItems :: it in testcase && it.value == old(it.value)
        invariant forall it | it in testcase ::
                    if it in confItems then it.value == old(it.value)
                    else it.name in defaultValueMap && it.value == defaultValueMap[it.name]
        invariant systemTester.runs >= old(systemTester.runs) + if succeed then 0 else 21
        invariant failing ==> Fails(weaknesses, Reading(confItems)) && Covers(weaknesses, Reading(confItems))
        invariant failing ==> forall it | it in testcase && IsWeak(weaknesses, it.name) :: it in confItems
        invariant immune || |testcase| <= THRESHOLD ==> confItems == testcase && Reading(confItems) == values
        invariant systemTester.runs <= old(systemTester.runs) +
                    (MAX_TRY + 1) * (Rounds(|testcase|) - if succeed then Rounds(|confItems|) else 0)
        decreases succeed, |confItems|
      {
        ghost var before, was := confItems, Reading(confItems);
        ReadingDescribes(before);
        RoundsStep(|confItems|);
        assert forall i | 0 <= i < |confItems| :: confItems[i] in testcase;
        var halved := DichotomySingle(confItems);
        if halved.KeyError? {
          return KeyError;
        }
        confItems, succeed := halved.value.0, halved.value.1;
        if succeed {
          if failing {
            HalfKeeps(weaknesses, was, defaults, before, confItems);
            HalfFails(weaknesses, was, confItems);
          }
          if immune {
            ImmuneNeverFails(weaknesses, defaults, was, NamesOf(before) - NamesOf(confItems));
          }
        } else {
          ReadingIs(before, was);
        }
      }
      r := Done(confItems);
    }

    method TrimTestcase(testcase: seq<ConfItem>) returns (r: Outcome<seq<ConfItem>>)
      requires UniqueNames(testcase)
      modifies systemTester`runs, testcase
      ensures r.Done? ==>
                UniqueNames(r.value) && forall it | it in r.value :: it in testcase && it.value == old(it.value)
      ensures HasDefaults(defaultValueMap, testcase) && old(Fails(systemTester.weaknesses, Reading(testcase)))
              && SafeDefaults(systemTester.weaknesses, defaultValueMap)
              ==> IsExact(systemTester.weaknesses, testcase, r)
      ensures HasDefaults(defaultValueMap, testcase) && old(Fails(systemTester.weaknesses, Reading(testcase)))
              && IsDict(systemTester.weaknesses) && !SafeDefaults(systemTester.weaknesses, defaultValueMap) && r.Done?
              ==> exists it :: it in testcase && IsWeak(systemTester.weaknesses, it.name) && it !in r.value
      ensures HasDefaults(defaultValueMap, testcase) && old(Covers(systemTester.weaknesses, Reading(testcase)))
              && old(IsImmune(systemTester.weaknesses, defaultValueMap, Reading(testcase)))
              ==> r == Done(testcase)
      ensures r.Done? ==>
                exists left ::
                  && (|left| <= 10 || systemTester.runs >= old(systemTester.runs) + 21 + |left|)
                  && (forall it | it in left :: it in testcase)
                  && (forall it | it in testcase ::
                        if it in left then it.value == old(it.value)
                        else it.name in defaultValueMap && it.value == defaultValueMap[it.name])
                  && r.value == Needed(systemTester.weaknesses, defaultValueMap,
                                       Restricted(old(Reading(testcase)), NamesOf(left)), left)
      ensures |testcase| <= 10 && r.Done? ==>
                r.value == Needed(systemTester.weaknesses, defaultValueMap, old(Reading(testcase)), testcase)
      ensures |testcase| <= 10 && r.KeyError? ==>
                exists it :: it in testcase
                             && IsTrouble(systemTester.weaknesses, defaultValueMap, old(Reading(testcase)), it)
      ensures forall it | it in testcase ::
                it.value == old(it.value) || (it.name in defaultValueMap && it.value == defaultValueMap[it.name])
      ensures systemTester.runs <= old(systemTester.runs) + 21 * Rounds(|testcase|) + |testcase|
    {
      hide Fails, Reading, Needed, Rounds, NamesOf, SafeDefaults, Covers, IsImmune, IsTrouble, IsDict;
      ghost var weaknesses, defaults, values := systemTester.weaknesses, defaultValueMap, Reading(testcase);
      ReadingDescribes(testcase);
      var halved := Halve(testcase);
      if halved.KeyError? {
        return KeyError;
      }
      var confItems := halved.value;
      ghost var now := Reading(confItems);
      ReadingDescribes(confItems);
      SameReading(confItems, values, now);
      assert forall i | 0 <= i < |confItems| :: confItems[i] in testcase;
      ReadingIs(confItems, Restricted(values, NamesOf(confItems)));
      r := NormalTrim(confItems);
      NeededIsSublist(weaknesses, defaults, now, confItems);
      if KeepsFailing(weaknesses, defaults, values, testcase) {
        FailingCovers(weaknesses, now);
        NeededOfFailing(weaknesses, defaults, now, confItems);
      }
      if NeverFails(weaknesses, defaults, values, testcase) {
        NeededOfImmune(weaknesses, defaults, now, confItems);
      }
      if Fails(weaknesses, values) && IsDict(weaknesses) && r.Done? {
        UnsafeIsDropped(weaknesses, defaults, values, now, confItems, testcase);
      }
    }
  }

  /** A failing test with a harmless default for each item: it still fails when half of its items are gone. */
  predicate KeepsFailing(weaknesses: Option<seq<Weakness>>, defaults: map<string, string>,
                         values: map<string, string>, testcase: seq<ConfItem>)
  {
    HasDefaults(defaults, testcase) && Fails(weaknesses, values) && SafeDefaults(weaknesses, defaults)
  }

  /** A test in which some weakness is hit neither by the value nor by the default. */
  predicate NeverFails(weaknesses: Option<seq<Weakness>>, defaults: map<string, string>,
                       values: map<string, string>, testcase: seq<ConfItem>)
  {
    HasDefaults(defaults, testcase) && Covers(weaknesses, values) && IsImmune(weaknesses, defaults, values)
  }

  /** A weak item whose default is a bad value, too: the failing test is trimmed to nothing. */
  method UnsafeDefaultIsDropped() returns (r: Outcome<seq<ConfItem>>)
    ensures r == Done([])
  {
    var item := new ConfItem("a", "1");
    var weaknesses, defaults := Some([Weakness("a", ["1", "2"])]), map["a" := "2"];
    var systemTester := new VirtualSystemTester(weaknesses);
    var trimmer := new Trimmer(systemTester, defaults);
    SingleReading(item);
    NothingNeeded(weaknesses, defaults, item);
    r := trimmer.TrimTestcase([item]);
  }

  lemma SingleReading(item: ConfItem)
    ensures Reading([item]) == map[item.name := item.value]
  {
    assert [item][..0] == [];
    assert Reading([item][..0]) == map[];
  }

  lemma NothingNeeded(weaknesses: Option<seq<Weakness>>, defaults: map<string, string>, item: ConfItem)
    requires weaknesses == Some([Weakness("a", ["1", "2"])]) && defaults == map["a" := "2"] && item.name == "a"
    ensures Fails(weaknesses, map["a" := "1"]) && HasDefaults(defaults, [item])
    ensures Needed(weaknesses, defaults, map["a" := "1"], [item]) == []
    ensures !IsTrouble(weaknesses, defaults, map["a" := "1"], item)
  {
    var w, values := weaknesses.value[0], map["a" := "1"];
    assert "1" in w.values && "2" in w.values by { assert w.values[0] == "1" && w.values[1] == "2"; }
    assert Fails(weaknesses, values);
    NeededIff(weaknesses, defaults, values, item);
    assert [item][..0] == [];
    assert Needed(weaknesses, defaults, values, [item][..0]) == [];
  }

  /** Exactly the weak items, and no exception. */
  predicate IsExact(weaknesses: Option<seq<Weakness>>, testcase: seq<ConfItem>, r: Outcome<seq<ConfItem>>) {
    r.Done? && (forall it | it in testcase && IsWeak(weaknesses, it.name) :: it in r.value)
    && (forall it | it in r.value :: it in testcase && IsWeak(weaknesses, it.name))
  }

  /** The verdict on the same keys cannot find one missing, unless it is missing from the start. */
  lemma SameKeys(weaknesses: Option<seq<Weakness>>, values: map<string, string>, changed: map<string, string>)
    requires changed.Keys == values.Keys
    ensures Verdict(weaknesses, changed) == MissingKey ==> !Covers(weaknesses, values)
    ensures Verdict(weaknesses, changed) == Failed ==> Fails(weaknesses, changed)
  {
    hide Verdict, Fails;
    VerdictMeans(weaknesses, changed);
    assert weaknesses.Some? ==> forall i | 0 <= i < |weaknesses.value| :: weaknesses.value[i] in weaknesses.value;
  }

  lemma FailingCovers(weaknesses: Option<seq<Weakness>>, values: map<string, string>)
    requires Fails(weaknesses, values)
    ensures Covers(weaknesses, values)
  {
  }

  /** How often a list is halved until it is no longer than the threshold. */
  function Rounds(n: nat): nat {
    if n <= THRESHOLD then 0 else 1 + Rounds(n - n / 2)
  }

  lemma RoundsStep(n: nat)
    requires n > THRESHOLD
    ensures Rounds(n) == 1 + Rounds(n - n / 2)
  {
  }

  function Power(r: nat): nat {
    if r == 0 then 1 else 2 * Power(r - 1)
  }

  /** `r` rounds suffice exactly for lists of up to `10 * 2^r` items. */
  lemma {:induction false} RoundsAreLogarithmic(n: nat, r: nat)
    ensures Rounds(n) <= r <==> n <= 10 * Power(r)
    decreases r
  {
    if n > THRESHOLD && r > 0 {
      RoundsAreLogarithmic(n - n / 2, r - 1);
    }
    PowerGrows(r);
  }

  lemma {:induction false} PowerGrows(r: nat)
    ensures Power(r) >= 1
  {
    if r > 0 {
      PowerGrows(r - 1);
    }
  }

  /** A half that still fails holds no weak item among those at their defaults. */
  lemma HalfKeeps(weaknesses: Option<seq<Weakness>>, values: map<string, string>, defaults: map<string, string>,
                  items: seq<ConfItem>, kept: seq<ConfItem>)
    requires HasDefaults(defaults, items) && SafeDefaults(weaknesses, defaults)
    requires values.Keys == NamesOf(items) && UniqueNames(items)
    requires forall it | it in kept :: it in items
    requires Fails(weaknesses, Defaulted(values, defaults, NamesOf(items) - NamesOf(kept)))
    ensures Fails(weaknesses, values)
    ensures forall w | w in weaknesses.value :: w.key in NamesOf(kept)
    ensures forall it | it in items && IsWeak(weaknesses, it.name) :: it in kept
  {
    var changed := Defaulted(values, defaults, NamesOf(items) - NamesOf(kept));
    forall w | w in weaknesses.value
      ensures w.key in NamesOf(kept) && w.key in values && values[w.key] in w.values
    {
      assert w.key in changed && changed[w.key] in w.values;
    }
    forall it | it in items && IsWeak(weaknesses, it.name)
      ensures it in kept
    {
      SameName(items, it);
    }
  }

  /** Failing depends on the weak items alone. */
  lemma HalfFails(weaknesses: Option<seq<Weakness>>, values: map<string, string>, kept: seq<ConfItem>)
    requires UniqueNames(kept) && Fails(weaknesses, values)
    requires forall w | w in weaknesses.value :: w.key in NamesOf(kept)
    requires forall it | it in kept :: it.name in values && values[it.name] == it.value
    ensures Fails(weaknesses, Reading(kept)) && Covers(weaknesses, Reading(kept))
  {
    ReadingDescribes(kept);
  }

  lemma {:induction false} NeededIsSublist(weaknesses: Option<seq<Weakness>>, defaults: map<string, string>,
                                           values: map<string, string>, items: seq<ConfItem>)
    requires UniqueNames(items)
    ensures UniqueNames(Needed(weaknesses, defaults, values, items))
    ensures forall it | it in Needed(weaknesses, defaults, values, items) :: it in items
  {
    hide IsNeeded;
    forall it | it in Needed(weaknesses, defaults, values, items)
      ensures it in items
    {
      NeededAre(weaknesses, defaults, values, items, it);
    }
    if items != [] {
      var last := |items| - 1;
      NeededIsSublist(weaknesses, defaults, values, items[..last]);
      var needed := Needed(weaknesses, defaults, values, items[..last]);
      forall i | 0 <= i < |needed|
        ensures needed[i].name != items[last].name
      {
        assert needed[i] in needed;
      }
    }
  }

  /** With safe defaults the items needed by a failing test are the weak ones, and none is trouble. */
  lemma NeededOfFailing(weaknesses: Option<seq<Weakness>>, defaults: map<string, string>, values: map<string, string>,
                        items: seq<ConfItem>)
    requires HasDefaults(defaults, items) && SafeDefaults(weaknesses, defaults) && Fails(weaknesses, values)
    ensures forall it | it in items :: !IsTrouble(weaknesses, defaults, values, it)
    ensures forall it | it in items ::
              it in Needed(weaknesses, defaults, values, items) <==> IsWeak(weaknesses, it.name)
  {
    hide Needed, IsNeeded, IsTrouble;
    forall it | it in items
      ensures !IsTrouble(weaknesses, defaults, values, it)
      ensures it in Needed(weaknesses, defaults, values, items) <==> IsWeak(weaknesses, it.name)
    {
      NeededIff(weaknesses, defaults, values, it);
      NeededAre(weaknesses, defaults, values, items, it);
      if w :| w in weaknesses.value && w.key == it.name {
        assert w.key in defaults;
      }
    }
  }

  lemma ImmuneNeverFails(weaknesses: Option<seq<Weakness>>, defaults: map<string, string>, values: map<string, string>,
                         names: set<string>)
    requires IsImmune(weaknesses, defaults, values)
    ensures !Fails(weaknesses, Defaulted(values, defaults, names))
  {
  }

  /** An immune test passes without any one item, so that all are kept. */
  lemma {:induction false} NeededOfImmune(weaknesses: Option<seq<Weakness>>, defaults: map<string, string>,
                                          values: map<string, string>, items: seq<ConfItem>)
    requires HasDefaults(defaults, items) && IsImmune(weaknesses, defaults, values) && Covers(weaknesses, values)
    ensures forall it | it in items :: !IsTrouble(weaknesses, defaults, values, it)
    ensures Needed(weaknesses, defaults, values, items) == items
  {
    hide IsImmune, Covers, IsNeeded, IsTrouble;
    if items != [] {
      var last := |items| - 1;
      assert items == items[..last] + [items[last]];
      NeededOfImmune(weaknesses, defaults, values, items[..last]);
      ImmuneIsNeeded(weaknesses, defaults, values, items[last]);
    }
  }

  lemma ImmuneIsNeeded(weaknesses: Option<seq<Weakness>>, defaults: map<string, string>, values: map<string, string>,
                       it: ConfItem)
    requires it.name in defaults && IsImmune(weaknesses, defaults, values) && Covers(weaknesses, values)
    ensures IsNeeded(weaknesses, defaults, values, it) && !IsTrouble(weaknesses, defaults, values, it)
  {
    hide Verdict;
    var tried := Tried(defaults, values, it);
    VerdictMeans(weaknesses, tried);
    if weaknesses.Some? {
      assert forall i | 0 <= i < |weaknesses.value| :: weaknesses.value[i] in weaknesses.value;
      assert Verdict(weaknesses, tried) != MissingKey && Verdict(weaknesses, tried) != Failed;
    }
  }

  lemma SameReading(items: seq<ConfItem>, values: map<string, string>, now: map<string, string>)
    requires now.Keys == NamesOf(items)
    requires forall it | it in items :: it.name in now && now[it.name] == it.value
    requires forall it | it in items :: it.name in values && values[it.name] == it.value
    ensures forall k | k in now :: k in values && now[k] == values[k]
  {
    forall k | k in now
      ensures k in values && now[k] == values[k]
    {
      assert k in NamesOf(items);
      var it :| it in items && it.name == k;
    }
  }

  /** An item whose default is a bad value is dropped, or its trial raises an exception, from whatever is left. */
  lemma UnsafeIsDropped(weaknesses: Option<seq<Weakness>>, defaults: map<string, string>, values: map<string, string>,
                        now: map<string, string>, left: seq<ConfItem>, testcase: seq<ConfItem>)
    requires Fails(weaknesses, values) && IsDict(weaknesses) && values.Keys == NamesOf(testcase)
    requires forall k | k in now :: k in values && now[k] == values[k]
    requires forall it | it in left :: !IsTrouble(weaknesses, defaults, now, it)
    ensures SafeDefaults(weaknesses, defaults)
            || exists it ::
                 it in testcase && IsWeak(weaknesses, it.name) && it !in Needed(weaknesses, defaults, now, left)
  {
    hide Needed, Verdict;
    if !SafeDefaults(weaknesses, defaults) {
      var w :| w in weaknesses.value && w.key in defaults && defaults[w.key] in w.values;
      assert w.key in NamesOf(testcase);
      var it :| it in testcase && it.name == w.key;
      assert IsWeak(weaknesses, it.name);
      NeededAre(weaknesses, defaults, now, left, it);
      VerdictMeans(weaknesses, Tried(defaults, now, it));
      assert forall i | 0 <= i < |weaknesses.value| :: weaknesses.value[i] in weaknesses.value;
    }
  }

  lemma OneMoreFixed(fixed: seq<nat>, i: nat)
    requires i < |fixed|
    ensures forall k :: k in fixed[..i + 1] <==> k in fixed[..i] || k == fixed[i]
  {
    assert fixed[..i + 1] == fixed[..i] + [fixed[i]];
  }

  function Range(n: nat): seq<nat> {
    seq(n, i => i)
  }

  lemma RangeIsDistinct(n: nat)
    ensures |Range(n)| == n && Distinct(Range(n))
  {
  }

  /** A half of a shuffled range holds an index exactly when the other half does not. */
  lemma ShuffleSplits(indexes: seq<nat>, n: nat, half: nat)
    requires |indexes| == n && multiset(indexes) == multiset(Range(n)) && Distinct(indexes) && half <= n
    ensures Distinct(indexes[..half]) && Distinct(indexes[half..])
    ensures forall k: nat | k < n :: k in indexes[..half] <==> k !in indexes[half..]
    ensures Within(indexes[..half], n) && Within(indexes[half..], n)
  {
    forall i | 0 <= i < n
      ensures indexes[i] < n
    {
      assert indexes[i] in multiset(Range(n));
    }
    forall k: nat | k < n
      ensures k in indexes[..half] <==> k !in indexes[half..]
    {
      assert Range(n)[k] == k;
      assert k in multiset(indexes);
      var i :| 0 <= i < n && indexes[i] == k;
      if i < half {
        assert indexes[..half][i] == k;
      } else {
        assert indexes[half..][i - half] == k;
      }
    }
  }

  function Selected(items: seq<ConfItem>, indexes: seq<nat>): (r: seq<ConfItem>)
    requires Within(indexes, |items|)
    ensures |r| == |indexes|
  {
    seq(|indexes|, j requires 0 <= j < |indexes| => items[indexes[j]])
  }

  lemma SelectedIs(items: seq<ConfItem>, fixed: seq<nat>, kept: seq<nat>)
    requires UniqueNames(items) && Distinct(kept)
    requires Within(kept, |items|)
    requires forall k: nat | k < |items| :: k in fixed <==> k !in kept
    ensures UniqueNames(Selected(items, kept))
    ensures forall it | it in Selected(items, kept) :: it in items
    ensures forall k: nat | k < |items| :: items[k] in Selected(items, kept) <==> k !in fixed
  {
    var r := Selected(items, kept);
    forall i, j | 0 <= i < j < |r|
      ensures r[i].name != r[j].name
    {
      assert kept[i] != kept[j] && kept[i] in kept && kept[j] in kept;
    }
    forall it | it in r
      ensures it in items
    {
      var j :| 0 <= j < |r| && r[j] == it;
      assert it == items[kept[j]];
    }
    forall k: nat | k < |items|
      ensures items[k] in r <==> k !in fixed
    {
      if k in kept {
        var j :| 0 <= j < |kept| && kept[j] == k;
        assert r[j] == items[k];
      }
      if items[k] in r {
        var j :| 0 <= j < |r| && r[j] == items[k];
        assert items[kept[j]] == items[k] && kept[j] in kept;
      }
    }
  }

  lemma DefaultedAt(items: seq<ConfItem>, values: map<string, string>, defaults: map<string, string>,
                    kept: seq<ConfItem>)
    requires UniqueNames(items) && values.Keys == NamesOf(items)
    requires forall it | it in kept :: it in items
    requires forall it | it in items && it !in kept :: it.name in defaults
    ensures var changed := Defaulted(values, defaults, NamesOf(items) - NamesOf(kept));
            changed.Keys == values.Keys &&
            forall it | it in items :: it.name in changed &&
              changed[it.name] == if it in kept then values[it.name] else defaults[it.name]
  {
    forall it | it in items && it !in kept
      ensures it.name !in NamesOf(kept)
    {
      SameName(items, it);
    }
  }

  lemma SameName(items: seq<ConfItem>, it: ConfItem)
    requires UniqueNames(items) && it in items
    ensures forall other | other in items && other.name == it.name :: other == it
  {
  }
}
