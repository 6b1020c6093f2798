/** What a lookup answers after any run, said of the calls and the documents alone. */
module ConfigurationMeaning {
  import opened Configuration
  import opened ConfigurationDocuments
  import opened ConfigurationPromises
  import opened Deprecation
  import opened Text
  import opened Wrappers

  /** Two names of one group: a deprecated key, or a key that replaces it. */
  ghost predicate Together(reg: Registry, a: string, b: string) {
    exists k :: k in reg.deprecated && IsOfGroup(reg, k, a) && IsOfGroup(reg, k, b)
  }

  predicate IsOfGroup(reg: Registry, k: string, name: string)
    requires k in reg.deprecated
  {
    name == k || name in reg.deprecated[k].newKeys
  }

  /** Operation `i` sets the key, or another name of its group. */
  ghost predicate SetsKey(reg: Registry, ops: seq<Op>, i: nat, key: string) {
    && i < |ops| && ops[i].Set?
    && (Trim(ops[i].name) == key || Together(reg, Trim(ops[i].name), key))
  }

  ghost predicate LastSetsKey(reg: Registry, ops: seq<Op>, i: nat, key: string) {
    SetsKey(reg, ops, i, key) && forall j: nat | i < j :: !SetsKey(reg, ops, j, key)
  }

  /** The resources that a run has added, in order. */
  function AddedBy(ops: seq<Op>): seq<Resource> {
    if ops == [] then []
    else
      var last := ops[|ops| - 1];
      AddedBy(ops[..|ops| - 1]) + if last.AddResource? then [last.r] else []
  }

  lemma {:induction false} PutAllKeepsResources(env: Setup, c: Conf, keys: seq<string>, value: string)
    ensures PutAll(env, c, keys, value).resources == c.resources
  {
    hide LoadEntries;
    if keys != [] {
      PutAllKeepsResources(env, c, keys[..|keys| - 1], value);
    }
  }

  lemma {:induction false} ReviveAllKeepsResources(env: Setup, c: Conf, names: seq<string>)
    ensures ReviveAll(env, c, names).resources == c.resources
  {
    hide LoadEntries;
    if names != [] {
      ReviveAllKeepsResources(env, c, names[..|names| - 1]);
    }
  }

  lemma DoKeepsResources(env: Setup, c: Conf, op: Op)
    ensures Do(env, c, op).resources == c.resources + if op.AddResource? then [op.r] else []
  {
    hide LoadEntries, PutAll, ReviveAll, Trim, Alternatives, Without, NamesFor;
    match op {
      case Set(untrimmed, value) =>
        var name := Trim(untrimmed);
        var c1 := Put(env, if env.registry.deprecated == map[] then Filled(env, c) else c, name, value);
        ReviveAllKeepsResources(env, c1, NamesFor(env, name));
        PutAllKeepsResources(env, AfterDeprecation(env, c1, name), NamesFor(env, name), value);
        PutAllKeepsResources(env, c1, Without(Alternatives(env, c1, name), name), value);
      case GetRaw(name) => ReviveAllKeepsResources(env, c, NamesFor(env, Trim(name)));
      case _ =>
    }
  }

  lemma {:induction false} RunsAddResources(env: Setup, ops: seq<Op>)
    ensures DoAll(env, INITIAL, ops).resources == AddedBy(ops)
  {
    hide Do;
    if ops != [] {
      RunsAddResources(env, ops[..|ops| - 1]);
      DoKeepsResources(env, DoAll(env, INITIAL, ops[..|ops| - 1]), ops[|ops| - 1]);
    }
  }

  lemma TogetherIff(reg: Registry, name: string, key: string)
    requires Grouped(reg) && key !in reg.deprecated
    ensures var g := GroupOf(reg, name);
            name == key || Together(reg, name, key) <==>
            key == name || (g.Some? && g.value in reg.deprecated && key in reg.deprecated[g.value].newKeys)
  {
    var g := GroupOf(reg, name);
    if g.Some? && g.value in reg.deprecated && key in reg.deprecated[g.value].newKeys {
      assert IsOfGroup(reg, g.value, name) && IsOfGroup(reg, g.value, key);
    }
  }

  /** What the program has set is in the overlay, for keys that are not deprecated. */
  lemma {:induction false} OverlayIsLastSet(env: Setup, ops: seq<Op>, key: string)
    requires Grouped(env.registry) && key !in env.registry.deprecated
    ensures var overlay := DoAll(env, INITIAL, ops).overlay;
            && (key in overlay <==> exists i: nat :: SetsKey(env.registry, ops, i, key))
            && (forall i: nat | LastSetsKey(env.registry, ops, i, key) ::
                  key in overlay && overlay[key] == ops[i].value)
  {
    hide Do, Trim, Grouped, GroupOf, Together, HoldsGroups;
    if ops != [] {
      var n := |ops| - 1;
      var front, op := ops[..n], ops[n];
      var c := DoAll(env, INITIAL, front);
      OverlayIsLastSet(env, front, key);
      forall i: nat
        ensures i < n ==> (SetsKey(env.registry, ops, i, key) <==> SetsKey(env.registry, front, i, key))
      {
      }
      RunsCoherent(env, front);
      OverlayStep(env, c, front, op, key);
      if SetsKey(env.registry, ops, n, key) {
        assert forall i: nat :: LastSetsKey(env.registry, ops, i, key) ==> i == n;
      } else {
        assert forall i: nat :: SetsKey(env.registry, ops, i, key) <==> SetsKey(env.registry, front, i, key);
      }
    }
  }

  lemma OverlayStep(env: Setup, c: Conf, front: seq<Op>, op: Op, key: string)
    requires Grouped(env.registry) && key !in env.registry.deprecated && c == DoAll(env, INITIAL, front)
    requires Coherent(env, c)
    ensures var overlay := Do(env, c, op).overlay;
            if op.Set? && (Trim(op.name) == key || Together(env.registry, Trim(op.name), key))
            then key in overlay && overlay[key] == op.value
            else (key in overlay <==> key in c.overlay) && (key in overlay ==> overlay[key] == c.overlay[key])
  {
    hide LoadEntries, AllEntries, RevivedAll, Trim, AfterSet, HoldsGroups, Filled, AfterDeprecation, Together, GroupOf;
    match op {
      case Set(name, value) =>
        OverlayAfterSet(env, c, name, value, key);
        TogetherIff(env.registry, Trim(name), key);
        GroupIsRegistered(env.registry, Trim(name));
      case GetRaw(name) =>
        RunsHoldGroups(env, front);
        DeprecationCoherent(env, c, Trim(name));
        NothingToRevive(env, c.overlay, NamesFor(env, Trim(name)), front);
        FilledCoherent(env, AfterDeprecation(env, c, Trim(name)));
      case _ =>
    }
  }

  lemma GroupIsRegistered(reg: Registry, name: string)
    requires Grouped(reg)
    ensures GroupOf(reg, name).Some? ==> GroupOf(reg, name).value in reg.deprecated
    ensures GroupOf(reg, name) == Some(name) ==> name in reg.deprecated
  {
  }

  /** The name under which a lookup finds its value: the last of those that replace a deprecated key. */
  function LookedUp(reg: Registry, name: string): string
    requires Grouped(reg)
  {
    if Trim(name) in reg.deprecated
    then reg.deprecated[Trim(name)].newKeys[|reg.deprecated[Trim(name)].newKeys| - 1]
    else Trim(name)
  }

  /**
   * After any run, a lookup answers the value of the last `set` of the name or of any name of its group;
   * if there was none, what the default resources and then the added ones, in document order, say about it.
   */
  lemma LookupMeans(env: Setup, ops: seq<Op>, name: string)
    requires Grouped(env.registry)
    ensures var key := LookedUp(env.registry, name);
            var answer := GetRawOf(env, DoAll(env, INITIAL, ops), name);
            var items := Document(env.defaults + AddedBy(ops));
            && (forall i: nat | LastSetsKey(env.registry, ops, i, key) :: answer == Some(ops[i].value))
            && ((forall i: nat :: !SetsKey(env.registry, ops, i, key)) ==>
                  && (answer.Some? <==> exists p :: DecidesAt(env.registry, env.allowNull, items, p, key))
                  && (forall p | DecidesAt(env.registry, env.allowNull, items, p, key) ::
                        answer == Some(ConfigurationDocuments.TextOf(ItemAt(items, p).value.value))))
  {
    hide LoadEntries, EntriesOfResources, DecidesAt, ItemAt, Document, GetRawOf, AfterDeprecation, Trim, SetsKey;
    var c := DoAll(env, INITIAL, ops);
    var key := LookedUp(env.registry, name);
    LookedUpIsNew(env.registry, name);
    SeenAfterRun(env, ops, name);
    LookupIsLastValue(env, c, name);
    OverlayIsLastSet(env, ops, key);
    RunsAddResources(env, ops);
    DocumentDecides(env.registry, env.allowNull, env.defaults + AddedBy(ops), key);
  }

  lemma LookedUpIsNew(reg: Registry, name: string)
    requires Grouped(reg)
    ensures LookedUp(reg, name) !in reg.deprecated
  {
    hide Trim;
    if Trim(name) in reg.deprecated {
      var newKeys := reg.deprecated[Trim(name)].newKeys;
      assert newKeys[|newKeys| - 1] in newKeys;
    }
  }
}
