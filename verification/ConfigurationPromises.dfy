/** Where lookups and removals of the Hadoop configuration keep what their documentation promises. */
module ConfigurationPromises {
  import opened Configuration
  import opened Deprecation
  import opened Text
  import opened Wrappers

  // ----- removing a key -----

  function UnsetNames(env: Setup, c: Conf, name: string): seq<string> {
    if name in env.registry.deprecated then NamesFor(env, Trim(name))
    else if Alternatives(env, c, name) == [] then [name] else Alternatives(env, c, name)
  }

  /** Removing keys takes them out of the overlay and out of what a lookup sees, loaded already or not. */
  lemma {:induction false} RemoveAllAt(env: Setup, c: Conf, keys: seq<string>)
    requires keys != []
    ensures var r := RemoveAll(env, c, keys);
            && r.resources == c.resources
            && r.cached.Some? && r.finals == Filled(env, c).finals
            && (forall k :: k in r.overlay <==> k in c.overlay && k !in keys)
            && (forall k | k in r.overlay :: r.overlay[k] == c.overlay[k])
            && (forall k :: k in r.cached.value <==> k in PropsOf(env, c) && k !in keys)
            && (forall k | k in r.cached.value :: r.cached.value[k] == PropsOf(env, c)[k])
  {
    hide LoadEntries; hide AllEntries;
    var front, key := keys[..|keys| - 1], keys[|keys| - 1];
    assert keys == front + [key];
    if front == [] {
      SameLoad(env, c, c.(overlay := c.overlay - {key}));
    } else {
      RemoveAllAt(env, c, front);
    }
  }

  lemma RemoveAllCoherentIff(env: Setup, c: Conf, keys: seq<string>)
    requires Coherent(env, c) && keys != []
    ensures Coherent(env, RemoveAll(env, c, keys)) <==> forall n | n in keys :: n !in FromResources(env, c).props
  {
    hide LoadEntries; hide AllEntries; hide RemoveAll;
    var r, loaded := RemoveAll(env, c, keys), FromResources(env, c).props;
    RemoveAllAt(env, c, keys);
    FilledCoherent(env, c);
    SameLoad(env, c, r);
    SameLoad(env, c, Filled(env, c));
    if forall n | n in keys :: n !in loaded {
      assert r.cached.value == loaded + r.overlay;
    } else {
      var n :| n in keys && n in loaded;
      assert n in loaded + r.overlay && n !in r.cached.value;
    }
  }

  /** `unset` keeps the cache in line with a reload exactly when no resource defines a key that it removes. */
  lemma UnsetCoherentIff(env: Setup, c: Conf, name: string)
    requires Coherent(env, c)
    ensures Coherent(env, AfterUnset(env, c, name)) <==>
            forall n | n in UnsetNames(env, c, name) :: n !in FromResources(env, c).props
  {
    hide LoadEntries, AllEntries, RemoveAll, Coherent, FromResources;
    var names := UnsetNames(env, c, name);
    if name in env.registry.deprecated {
      var c1 := AfterDeprecation(env, c, Trim(name));
      DeprecationCoherent(env, c, Trim(name));
      SameLoad(env, c, c1);
      if names == [] {
        NothingRemoved(env, c1);
      } else {
        RemoveAllCoherentIff(env, c1, names);
      }
    } else {
      FilledCoherent(env, c);
      SameLoad(env, c, FillFor(env, c, name));
      RemoveAllCoherentIff(env, FillFor(env, c, name), names);
    }
  }

  lemma NothingRemoved(env: Setup, c: Conf)
    ensures RemoveAll(env, c, []) == c
  {
  }

  lemma {:induction false} RevivedAt(env: Setup, overlay: Props, names: seq<string>, g: string, k: string)
    requires Grouped(env.registry) && g in env.registry.deprecated
    requires forall n | n in names :: n in env.registry.deprecated[g].newKeys && n !in overlay
    requires k in names
    ensures k in RevivedAll(env, overlay, names) <==> g in overlay
    ensures g in overlay ==> RevivedAll(env, overlay, names)[k] == overlay[g]
  {
    var front, last := names[..|names| - 1], names[|names| - 1];
    assert names == front + [last];
    assert last in names && forall n | n in front :: n in names;
    RevivedElsewhere(env, overlay, front, g);
    if last in front {
      RevivedAt(env, overlay, front, g, last);
    } else {
      RevivedElsewhere(env, overlay, front, last);
    }
    if k in front {
      RevivedAt(env, overlay, front, g, k);
    }
  }

  /** Reviving changes the overlay in the same way whether the cache is filled or not. */
  lemma {:induction false} ReviveAllOverlay(env: Setup, c: Conf, names: seq<string>)
    ensures ReviveAll(env, c, names).overlay == RevivedAll(env, c.overlay, names)
  {
    hide Filled;
    if names != [] {
      ReviveAllOverlay(env, c, names[..|names| - 1]);
      FilledKeepsOverlay(env, ReviveAll(env, c, names[..|names| - 1]));
    }
  }

  lemma FilledKeepsOverlay(env: Setup, c: Conf)
    ensures Filled(env, c).overlay == c.overlay
  {
  }

  /**
   * `unset` of a deprecated key removes its replacements but not the key itself, so a
   * value that was set under the deprecated name comes back with the next lookup.
   */
  lemma UnsetOfDeprecatedKey(env: Setup, c: Conf, name: string)
    requires Grouped(env.registry)
    requires name in env.registry.deprecated && Trim(name) == name
    ensures GetRawOf(env, AfterUnset(env, c, name), name) ==
            if name in c.overlay then Some(c.overlay[name]) else None
  {
    hide LoadEntries; hide AllEntries;
    var names := NamesFor(env, name);
    var c1 := AfterDeprecation(env, c, name);
    ReviveAllOverlay(env, c, names);
    RevivedElsewhere(env, c.overlay, names, name);
    RemoveAllAt(env, c1, names);
    var r := RemoveAll(env, c1, names);
    var last := names[|names| - 1];
    assert last in names && last !in r.overlay && last !in r.cached.value;
    if r.overlay != map[] {
      RevivedAt(env, r.overlay, names, name, last);
      ReviveLookup(env, r, names, last);
    }
  }

  /** No registered name has blanks around it. */
  ghost predicate Trimmed(reg: Registry) {
    forall k | k in reg.deprecated :: Trim(k) == k && forall n | n in reg.deprecated[k].newKeys :: Trim(n) == n
  }

  lemma {:induction false} RevivedHolds(env: Setup, overlay: Props, names: seq<string>, g: string, k: string)
    requires Grouped(env.registry) && g in env.registry.deprecated && g in overlay && k in names
    requires forall n | n in names :: n in env.registry.deprecated[g].newKeys
    ensures k in RevivedAll(env, overlay, names)
  {
    var front, last := names[..|names| - 1], names[|names| - 1];
    assert names == front + [last];
    assert last in names && forall n | n in front :: n in names;
    RevivedElsewhere(env, overlay, front, g);
    if k in front {
      RevivedHolds(env, overlay, front, g, k);
    }
  }

  /** A filled cache shows the overlay. */
  ghost predicate Shows(c: Conf) {
    c.cached.Some? ==> forall k | k in c.overlay :: k in c.cached.value && c.cached.value[k] == c.overlay[k]
  }

  /** A key that was set under its deprecated name is found. */
  lemma DeprecatedIsFound(env: Setup, c: Conf, name: string)
    requires Shows(c) && Grouped(env.registry)
    requires name in env.registry.deprecated && Trim(name) == name && name in c.overlay
    ensures GetRawOf(env, c, name).Some?
  {
    hide LoadEntries, AllEntries, RevivedAll, ReviveAll;
    var names := NamesFor(env, name);
    var last := names[|names| - 1];
    assert last in names;
    ReviveAllOverlay(env, c, names);
    ReviveAllShows(env, c, names);
    FilledShows(env, AfterDeprecation(env, c, name));
    RevivedHolds(env, c.overlay, names, name, last);
  }

  lemma FilledShows(env: Setup, c: Conf)
    requires Shows(c)
    ensures Shows(Filled(env, c)) && Filled(env, c).cached.Some?
  {
    hide LoadEntries, AllEntries;
  }

  lemma {:induction false} ReviveAllShows(env: Setup, c: Conf, names: seq<string>)
    requires Shows(c)
    ensures Shows(ReviveAll(env, c, names))
  {
    hide Filled;
    if names != [] {
      var c1 := ReviveAll(env, c, names[..|names| - 1]);
      ReviveAllShows(env, c, names[..|names| - 1]);
      FilledShows(env, c1);
      FilledKeepsOverlay(env, c1);
    }
  }

  /** What a lookup finds after `unset` of a key that is not deprecated: nothing. */
  lemma UnsetOfOtherKey(env: Setup, c: Conf, name: string)
    requires Shows(c) && Grouped(env.registry)
    requires name !in env.registry.deprecated && Trim(name) == name
    ensures GetRawOf(env, AfterUnset(env, c, name), name) == None
  {
    hide LoadEntries, AllEntries, RemoveAll;
    FilledShows(env, c);
    FilledKeepsOverlay(env, c);
    var c1 := FillFor(env, c, name);
    var names := UnsetNames(env, c, name);
    RemoveAllAt(env, c1, names);
    var r := RemoveAll(env, c1, names);
    assert name in names;
    assert r.overlay != map[] ==> ReviveAll(env, r, [name]) == Revive(env, r, name) by {
      assert [name][..0] == [];
    }
  }

  /** Reviving changes a filled cache where it changes the overlay, and nowhere else. */
  lemma {:induction false} ReviveLookup(env: Setup, c: Conf, names: seq<string>, k: string)
    requires c.cached.Some?
    ensures var r := ReviveAll(env, c, names);
            && r.cached.Some? && r.overlay == RevivedAll(env, c.overlay, names)
            && (k in c.overlay ==> k in r.overlay && r.overlay[k] == c.overlay[k])
            && (if k in r.overlay && k !in c.overlay then k in r.cached.value && r.cached.value[k] == r.overlay[k]
                else (k in r.cached.value <==> k in c.cached.value)
                     && (k in c.cached.value ==> r.cached.value[k] == c.cached.value[k]))
  {
    if names != [] {
      ReviveLookup(env, c, names[..|names| - 1], k);
    }
  }

  /** Reviving does not look at a key that is neither registered nor looked up. */
  lemma {:induction false} ReviveIgnores(env: Setup, overlay: Props, names: seq<string>, name: string, k: string)
    requires k != name && name !in names && name !in env.registry.reverse.Values
    ensures var before, after := RevivedAll(env, overlay, names), RevivedAll(env, overlay - {name}, names);
            (k in before <==> k in after) && (k in before ==> before[k] == after[k])
    decreases |names|
  {
    if names != [] {
      var front, n := names[..|names| - 1], names[|names| - 1];
      assert names == front + [n];
      ReviveIgnores(env, overlay, front, name, k);
      ReviveIgnores(env, overlay, front, name, n);
      if n in env.registry.reverse {
        assert env.registry.reverse[n] in env.registry.reverse.Values;
        ReviveIgnores(env, overlay, front, name, env.registry.reverse[n]);
      }
    }
  }

  /** The value that a lookup finds under a key: that of the revived overlay, or else that of the cache. */
  function FoundAt(env: Setup, cached: Props, overlay: Props, names: seq<string>, k: string): Option<string> {
    var revived := RevivedAll(env, overlay, names);
    if k in revived && k !in overlay then Some(revived[k])
    else if k in cached then Some(cached[k])
    else None
  }

  lemma {:induction false} NothingRevived(env: Setup, names: seq<string>)
    ensures RevivedAll(env, map[], names) == map[]
  {
    if names != [] {
      NothingRevived(env, names[..|names| - 1]);
    }
  }

  lemma LookupFinds(env: Setup, c: Conf, name: string)
    requires c.cached.Some? && NamesFor(env, Trim(name)) != []
    ensures var names := NamesFor(env, Trim(name));
            GetRawOf(env, c, name) == FoundAt(env, c.cached.value, c.overlay, names, names[|names| - 1])
  {
    hide RevivedAll, ReviveAll, Trim;
    var names := NamesFor(env, Trim(name));
    ReviveLookup(env, c, names, names[|names| - 1]);
    NothingRevived(env, names);
  }

  /** A lookup does not depend on whether the cache is filled. */
  lemma LookupFills(env: Setup, c: Conf, name: string)
    ensures GetRawOf(env, c, name) == GetRawOf(env, Filled(env, c), name)
  {
    hide Trim, ReviveAll, NamesFor;
    ReviveFills(env, c, NamesFor(env, Trim(name)));
  }

  lemma {:induction false} ReviveFills(env: Setup, c: Conf, names: seq<string>)
    ensures Filled(env, ReviveAll(env, c, names)) == ReviveAll(env, Filled(env, c), names)
  {
    hide LoadEntries, AllEntries;
    if names != [] {
      ReviveFills(env, c, names[..|names| - 1]);
    }
  }

  /** `unset` removes the name as it is given, while lookups and `set` trim it: with blanks, nothing happens. */
  lemma UnsetOfBlankKey(env: Setup, c: Conf, name: string)
    requires Grouped(env.registry) && Trimmed(env.registry) && Trim(name) != name
    ensures GetRawOf(env, AfterUnset(env, c, name), name) == GetRawOf(env, c, name)
  {
    hide LoadEntries, AllEntries, RevivedAll, Trim, GetRawOf, Filled;
    TrimTwice(name);
    var names := NamesFor(env, Trim(name));
    assert name !in names && name !in env.registry.reverse && names != [];
    assert name !in env.registry.reverse.Values;
    var r, f := AfterUnset(env, c, name), Filled(env, c);
    RemovesOne(env, c, name);
    FilledKeepsOverlay(env, c);
    LookupFills(env, c, name);
    assert f.cached.Some? by { FilledIsFilled(env, c); }
    LookupFinds(env, f, name);
    LookupFinds(env, r, name);
    var last := names[|names| - 1];
    assert last in names;
    ReviveIgnores(env, c.overlay, names, name, last);
  }

  lemma FilledIsFilled(env: Setup, c: Conf)
    ensures Filled(env, c).cached == Some(PropsOf(env, c))
  {
  }

  lemma RemovesOne(env: Setup, c: Conf, name: string)
    requires name !in env.registry.deprecated && name !in env.registry.reverse
    ensures var r := AfterUnset(env, c, name);
            r.cached == Some(PropsOf(env, c) - {name}) && r.overlay == c.overlay - {name}
  {
    hide Filled, PropsOf, RemoveAll;
    var r := RemoveAll(env, c, [name]);
    RemoveAllAt(env, c, [name]);
    assert Alternatives(env, c, name) == [] && AfterUnset(env, c, name) == r;
    assert r.cached.value == PropsOf(env, c) - {name} && r.overlay == c.overlay - {name};
  }

  /**
   * After `unset` a lookup finds nothing exactly if it found nothing before, or the name was given
   * without blanks and is not a deprecated one under which a value had been set.
   */
  lemma UnsetWorksIff(env: Setup, c: Conf, name: string)
    requires Shows(c) && Grouped(env.registry) && Trimmed(env.registry)
    ensures GetRawOf(env, AfterUnset(env, c, name), name) == None <==>
            GetRawOf(env, c, name) == None
            || (Trim(name) == name && !(name in env.registry.deprecated && name in c.overlay))
  {
    hide GetRawOf, AfterUnset, Shows, Grouped, Trimmed, Trim;
    if Trim(name) != name {
      UnsetOfBlankKey(env, c, name);
    } else if name in env.registry.deprecated {
      UnsetOfDeprecatedKey(env, c, name);
      if name in c.overlay {
        DeprecatedIsFound(env, c, name);
      }
    } else {
      UnsetOfOtherKey(env, c, name);
    }
  }

  // ----- runs in which keys are removed, too -----

  datatype Step = Does(op: Op) | Unsets(name: string)

  function DoSteps(env: Setup, c: Conf, steps: seq<Step>): Conf {
    if steps == [] then c
    else
      var before, last := DoSteps(env, c, steps[..|steps| - 1]), steps[|steps| - 1];
      if last.Does? then Do(env, before, last.op) else AfterUnset(env, before, last.name)
  }

  lemma {:induction false} PutAllShows(env: Setup, c: Conf, keys: seq<string>, value: string)
    requires Shows(c)
    ensures Shows(PutAll(env, c, keys, value))
  {
    hide Put;
    if keys != [] {
      PutAllShows(env, c, keys[..|keys| - 1], value);
      PutShows(env, PutAll(env, c, keys[..|keys| - 1], value), keys[|keys| - 1], value);
    }
  }

  lemma PutShows(env: Setup, c: Conf, key: string, value: string)
    requires Shows(c)
    ensures Shows(Put(env, c, key, value))
  {
    hide LoadEntries, AllEntries;
  }

  lemma RemoveAllShows(env: Setup, c: Conf, keys: seq<string>)
    requires Shows(c)
    ensures Shows(RemoveAll(env, c, keys))
  {
    hide Filled, PropsOf;
    if keys != [] {
      RemoveAllAt(env, c, keys);
      FilledShows(env, c);
      FilledIsFilled(env, c);
      FilledKeepsOverlay(env, c);
    }
  }

  lemma SetShows(env: Setup, c: Conf, untrimmed: string, value: string)
    requires Shows(c)
    ensures Shows(AfterSet(env, c, untrimmed, value))
  {
    hide Put, PutAll, ReviveAll, Filled, Trim, Alternatives, Without, Shows;
    var name := Trim(untrimmed);
    FilledShows(env, c);
    var c0 := if env.registry.deprecated == map[] then Filled(env, c) else c;
    PutShows(env, c0, name, value);
    var c1 := Put(env, c0, name, value);
    ReviveAllShows(env, c1, NamesFor(env, name));
    PutAllShows(env, AfterDeprecation(env, c1, name), NamesFor(env, name), value);
    PutAllShows(env, c1, Without(Alternatives(env, c1, name), name), value);
  }

  lemma StepShows(env: Setup, c: Conf, step: Step)
    requires Shows(c)
    ensures Shows(if step.Does? then Do(env, c, step.op) else AfterUnset(env, c, step.name))
  {
    hide AfterSet, ReviveAll, RemoveAll, Filled, Trim, Alternatives;
    match step {
      case Does(Set(name, value)) => SetShows(env, c, name, value);
      case Does(GetRaw(name)) =>
        ReviveAllShows(env, c, NamesFor(env, Trim(name)));
        FilledShows(env, AfterDeprecation(env, c, Trim(name)));
      case Does(_) =>
      case Unsets(name) =>
        ReviveAllShows(env, c, NamesFor(env, Trim(name)));
        RemoveAllShows(env, AfterDeprecation(env, c, Trim(name)), NamesFor(env, Trim(name)));
        FilledShows(env, c);
        var names := if Alternatives(env, c, name) == [] then [name] else Alternatives(env, c, name);
        RemoveAllShows(env, FillFor(env, c, name), names);
    }
  }

  /** In all runs, removals included, a filled cache shows the overlay. */
  lemma {:induction false} RunsShow(env: Setup, steps: seq<Step>)
    ensures Shows(DoSteps(env, INITIAL, steps))
  {
    hide Shows, Do, AfterUnset;
    if steps == [] {
      assert Shows(INITIAL) by { NothingShown(); }
    } else {
      RunsShow(env, steps[..|steps| - 1]);
      StepShows(env, DoSteps(env, INITIAL, steps[..|steps| - 1]), steps[|steps| - 1]);
    }
  }

  lemma NothingShown()
    ensures Shows(INITIAL)
  {
  }

  /** The same for every state that a run leads to, with any removals before. */
  lemma UnsetWorksInRuns(env: Setup, steps: seq<Step>, name: string)
    requires Grouped(env.registry) && Trimmed(env.registry)
    ensures var before, after := DoSteps(env, INITIAL, steps), DoSteps(env, INITIAL, steps + [Unsets(name)]);
            GetRawOf(env, after, name) == None <==>
            GetRawOf(env, before, name) == None
            || (Trim(name) == name && !(name in env.registry.deprecated && name in before.overlay))
  {
    hide GetRawOf, AfterUnset, Shows, Grouped, Trimmed, Trim, Do;
    assert (steps + [Unsets(name)])[..|steps|] == steps;
    RunsShow(env, steps);
    UnsetWorksIff(env, DoSteps(env, INITIAL, steps), name);
  }

  /** The first failing input: a value that was set under a deprecated name survives its removal. */
  lemma UnsetRevives(env: Setup, name: string, value: string)
    requires Grouped(env.registry) && name in env.registry.deprecated && Trim(name) == name
    ensures var c := DoAll(env, INITIAL, [Set(name, value)]);
            GetRawOf(env, AfterUnset(env, c, name), name) == Some(value)
  {
    hide AfterSet, GetRawOf, AfterUnset;
    assert [Set(name, value)][..0] == [];
    RunsCoherent(env, []);
    RunsCoherent(env, [Set(name, value)]);
    OverlayAfterSet(env, INITIAL, name, value, name);
    UnsetOfDeprecatedKey(env, DoAll(env, INITIAL, [Set(name, value)]), name);
  }

  /** The second one: a name with a blank in front of it. */
  lemma UnsetMissesBlanks(env: Setup)
    requires env.registry == Registry(map[], map[])
    ensures var c := DoAll(env, INITIAL, [Set(" a", "v")]);
            GetRawOf(env, AfterUnset(env, c, " a"), " a") == Some("v")
  {
    var c := DoAll(env, INITIAL, [Set(" a", "v")]);
    RunsCoherent(env, [Set(" a", "v")]);
    assert Trim(" a") == "a";
    UnsetOfBlankKey(env, c, " a");
    SetIsFound(env, " a", "v");
  }

  lemma SetIsFound(env: Setup, name: string, value: string)
    requires env.registry == Registry(map[], map[])
    ensures GetRawOf(env, DoAll(env, INITIAL, [Set(name, value)]), name) == Some(value)
  {
    hide AfterSet, RevivedAll, ReviveAll, Trim;
    var c := DoAll(env, INITIAL, [Set(name, value)]);
    assert [Set(name, value)][..0] == [];
    RunsCoherent(env, []);
    RunsCoherent(env, [Set(name, value)]);
    TrimTwice(name);
    OverlayAfterSet(env, INITIAL, name, value, Trim(name));
    DeprecationCoherent(env, c, Trim(name));
    FilledCoherent(env, AfterDeprecation(env, c, Trim(name)));
    ReviveLookupOverlay(env, c.overlay, [Trim(name)], Trim(name));
  }

  lemma {:induction false} ReviveLookupOverlay(env: Setup, overlay: Props, names: seq<string>, k: string)
    requires k in overlay
    ensures k in RevivedAll(env, overlay, names) && RevivedAll(env, overlay, names)[k] == overlay[k]
  {
    if names != [] {
      ReviveLookupOverlay(env, overlay, names[..|names| - 1], k);
    }
  }

  // ----- looking up a key -----

  /** The value that the documentation of the lookups promises: that of the first name that has one. */
  function FirstValue(names: seq<string>, props: Props): Option<string> {
    if names == [] then None
    else if names[0] in props then Some(props[names[0]])
    else FirstValue(names[1..], props)
  }

  lemma {:induction false} FirstValueFound(names: seq<string>, props: Props, n: string)
    requires n in names && n in props
    ensures FirstValue(names, props).Some?
  {
    if names[0] !in props {
      FirstValueFound(names[1..], props, n);
    }
  }

  /** What a lookup promises: the first value among the names that stand for the key. */
  function Documented(env: Setup, c: Conf, name: string): Option<string> {
    FirstValue(NamesFor(env, Trim(name)), PropsOf(env, AfterDeprecation(env, c, Trim(name))))
  }

  function LastValue(names: seq<string>, props: Props): Option<string> {
    if names == [] || names[|names| - 1] !in props then None else Some(props[names[|names| - 1]])
  }

  /** What the default resources alone load. */
  function Defaults(env: Setup): Loaded {
    FromResources(env, INITIAL)
  }

  /** A final key without a value never gets one. */
  predicate IsHopeless(l: Loaded, n: string) {
    n in l.finals && n !in l.props
  }

  function Candidates(l: Loaded, names: seq<string>): seq<string> {
    if names == [] then []
    else (if IsHopeless(l, names[0]) then [] else [names[0]]) + Candidates(l, names[1..])
  }

  /** The first of the names that can have a value always has one if the last does, and the same. */
  predicate FirstIsLast(l: Loaded, names: seq<string>) {
    var c := Candidates(l, names);
    c == [] ||
    var head, last := c[0], names[|names| - 1];
    if head == last then last in l.props || forall n | n in c :: n == last
    else head in l.finals && last in l.finals && last in l.props && head in l.props && l.props[head] == l.props[last]
  }

  lemma {:induction false} CandidatesAre(l: Loaded, names: seq<string>, n: string)
    ensures n in Candidates(l, names) <==> n in names && !IsHopeless(l, n)
  {
    if names != [] {
      assert names == [names[0]] + names[1..];
      CandidatesAre(l, names[1..], n);
    }
  }

  /** Names without a value are passed over. */
  lemma {:induction false} FirstCandidate(l: Loaded, names: seq<string>, props: Props)
    requires forall n | n in names && IsHopeless(l, n) :: n !in props
    ensures FirstValue(names, props) == FirstValue(Candidates(l, names), props)
  {
    if names != [] {
      assert names == [names[0]] + names[1..];
      FirstCandidate(l, names[1..], props);
      var rest := Candidates(l, names[1..]);
      assert ([names[0]] + rest)[1..] == rest && [] + rest == rest;
    }
  }

  /** More entries leave no key without its value, and what is final as it is. */
  lemma {:induction false} MoreEntries(allowNull: bool, l: Loaded, more: seq<Entry>, n: string)
    ensures var l' := LoadEntries(allowNull, l, more);
            && (n in l.props ==> n in l'.props)
            && (n in l.finals ==> (n in l'.props <==> n in l.props) && (n in l.props ==> l'.props[n] == l.props[n]))
  {
    if more != [] {
      MoreEntries(allowNull, l, more[..|more| - 1], n);
    }
    if n in l.finals {
      FinalsStay(allowNull, l, more, n);
    }
  }

  lemma FirstIsLastStays(l: Loaded, names: seq<string>, props: Props)
    requires names != [] && FirstIsLast(l, names)
    requires forall n | n in names && n in l.props :: n in props
    requires forall n | n in names && n in l.finals ::
               (n in props <==> n in l.props) && (n in l.props ==> props[n] == l.props[n])
    ensures FirstValue(names, props) == LastValue(names, props)
  {
    var c, last := Candidates(l, names), names[|names| - 1];
    forall n
      ensures n in c <==> n in names && !IsHopeless(l, n)
    {
      CandidatesAre(l, names, n);
    }
    FirstCandidate(l, names, props);
    assert last in names;
    if c != [] {
      assert c[0] in c;
      if c[0] == last && last !in l.props {
        OneValue(c, props, last);
      }
    }
  }

  lemma {:induction false} OneValue(names: seq<string>, props: Props, n: string)
    requires names != [] && forall m | m in names :: m == n
    ensures FirstValue(names, props) == if n in props then Some(props[n]) else None
  {
    assert names[0] in names;
    if |names| > 1 {
      assert forall m | m in names[1..] :: m in names;
      OneValue(names[1..], props, n);
    }
  }

  /** What a run has loaded comes behind the defaults. */
  lemma {:induction false} EntriesJoin(reg: Registry, a: seq<Resource>, b: seq<Resource>)
    ensures EntriesOfResources(reg, a + b) == EntriesOfResources(reg, a) + EntriesOfResources(reg, b)
  {
    if b == [] {
      assert a + b == a;
    } else {
      var n := |b| - 1;
      assert (a + b)[..|a + b| - 1] == a + b[..n];
      EntriesJoin(reg, a, b[..n]);
    }
  }

  lemma LoadsBehindDefaults(env: Setup, c: Conf)
    ensures FromResources(env, c) ==
            LoadEntries(env.allowNull, Defaults(env), EntriesOfResources(env.registry, c.resources))
  {
    EntriesJoin(env.registry, env.defaults, c.resources);
    assert env.defaults + [] == env.defaults;
    LoadAppend(env.allowNull, NOTHING_LOADED, EntriesOfResources(env.registry, env.defaults),
               EntriesOfResources(env.registry, c.resources));
  }

  /** What a lookup sees in a state that a run leads to. */
  lemma SeenAfterRun(env: Setup, ops: seq<Op>, name: string)
    requires Grouped(env.registry)
    ensures var c := DoAll(env, INITIAL, ops);
            PropsOf(env, AfterDeprecation(env, c, Trim(name))) == FromResources(env, c).props + c.overlay
  {
    hide LoadEntries, AllEntries, RevivedAll, Trim, HoldsGroups, Filled, AfterDeprecation;
    var c := DoAll(env, INITIAL, ops);
    RunsCoherent(env, ops);
    RunsHoldGroups(env, ops);
    DeprecationCoherent(env, c, Trim(name));
    NothingToRevive(env, c.overlay, NamesFor(env, Trim(name)), ops);
    var c1 := AfterDeprecation(env, c, Trim(name));
    FilledCoherent(env, c1);
    SameLoad(env, c, c1);
  }

  lemma LookupIsLastValue(env: Setup, c: Conf, name: string)
    ensures GetRawOf(env, c, name) ==
            LastValue(NamesFor(env, Trim(name)), PropsOf(env, AfterDeprecation(env, c, Trim(name))))
  {
  }

  /** The defaults decide whether a lookup keeps its promise in every run. */
  lemma PromiseKept(env: Setup, ops: seq<Op>, name: string)
    requires Grouped(env.registry) && FirstIsLast(Defaults(env), NamesFor(env, Trim(name)))
    ensures GetRawOf(env, DoAll(env, INITIAL, ops), name) == Documented(env, DoAll(env, INITIAL, ops), name)
  {
    hide LoadEntries, AllEntries, RevivedAll, Trim, AfterDeprecation, FirstIsLast, Filled, FromResources, Defaults;
    var c, names, d := DoAll(env, INITIAL, ops), NamesFor(env, Trim(name)), Defaults(env);
    var l := FromResources(env, c);
    var props := l.props + c.overlay;
    SeenAfterRun(env, ops, name);
    LookupIsLastValue(env, c, name);
    GroupIsWhole(env, ops, names, name);
    if names != [] {
      if names[0] in c.overlay {
        assert names[|names| - 1] in names && names[0] in names;
      } else if forall n | n in names :: n !in c.overlay {
        LoadsBehindDefaults(env, c);
        forall n | n in names {
          MoreEntries(env.allowNull, d, EntriesOfResources(env.registry, c.resources), n);
        }
        FirstIsLastStays(d, names, props);
      }
    }
  }

  /** The names for a key have been set all together, to one value, or not at all. */
  lemma GroupIsWhole(env: Setup, ops: seq<Op>, names: seq<string>, name: string)
    requires Grouped(env.registry) && names == NamesFor(env, Trim(name))
    ensures var overlay := DoAll(env, INITIAL, ops).overlay;
            (forall n | n in names :: n !in overlay)
            || (&& names != [] && names[0] in overlay
                && forall n | n in names :: n in overlay && overlay[n] == overlay[names[0]])
  {
    hide Trim;
    RunsHoldGroups(env, ops);
    var overlay := DoAll(env, INITIAL, ops).overlay;
    if Trim(name) in env.registry.deprecated {
      assert HoldsGroup(env.registry, overlay, Trim(name), LastSet(env.registry, ops, Trim(name)));
      assert names != [] ==> names[0] in names;
    }
  }

  /** A resource that gives one key a value. */
  function OneKey(n: string, value: string): Op {
    AddResource(Xml([Property(Some(n), Some(value), false)]))
  }

  lemma AfterOneKey(env: Setup, n: string, value: string)
    requires Trim(n) == n && n !in env.registry.deprecated && n !in Defaults(env).finals
    ensures var c := DoAll(env, INITIAL, [OneKey(n, value)]);
            FromResources(env, c).props == Defaults(env).props[n := value] && c.overlay == map[]
  {
    hide Trim, LoadEntries;
    var r := Xml([Property(Some(n), Some(value), false)]);
    var c := DoAll(env, INITIAL, [OneKey(n, value)]);
    OneOperation(env, OneKey(n, value));
    assert c.resources == [r];
    LoadsBehindDefaults(env, c);
    EntriesOfOneKey(env.registry, n, value, r);
    LoadOne(env.allowNull, Defaults(env), Entry(n, Some(value), false));
  }

  lemma OneOperation(env: Setup, op: Op)
    ensures DoAll(env, INITIAL, [op]) == Do(env, INITIAL, op)
  {
    assert [op][..0] == [];
    assert DoAll(env, INITIAL, []) == INITIAL;
  }

  lemma EntriesOfOneKey(reg: Registry, n: string, value: string, r: Resource)
    requires Trim(n) == n && n !in reg.deprecated && r == Xml([Property(Some(n), Some(value), false)])
    ensures EntriesOfResources(reg, [r]) == [Entry(n, Some(value), false)]
  {
    hide Trim;
    var e := Entry(n, Some(value), false);
    assert EntriesOf(reg, r.items[0]) == [e];
    assert r.items[1..] == [] && [e] + [] == [e];
    assert EntriesOfAll(reg, r.items) == [e];
    assert [r][..0] == [] && [] + [e] == [e];
  }

  /** Otherwise some run breaks the promise: at once, or with one resource that gives one key a value. */
  lemma PromiseBroken(env: Setup, name: string) returns (ops: seq<Op>)
    requires Grouped(env.registry) && Trimmed(env.registry) && !FirstIsLast(Defaults(env), NamesFor(env, Trim(name)))
    ensures GetRawOf(env, DoAll(env, INITIAL, ops), name) != Documented(env, DoAll(env, INITIAL, ops), name)
  {
    hide LoadEntries, AllEntries, RevivedAll, Trim, AfterDeprecation, Filled, FromResources, Defaults, GetRawOf,
         Candidates, FirstValue, DoAll, Documented;
    var names, d := NamesFor(env, Trim(name)), Defaults(env);
    var n, value, added := ValuesCanDiffer(d, names);
    assert Trim(name) !in env.registry.deprecated ==> names == [n];
    ops := if added then [OneKey(n, value)] else [];
    BrokenBy(env, name, ops, n, value);
  }

  /** One of the names, and perhaps a value for it, for which the first and the last value differ. */
  lemma ValuesCanDiffer(d: Loaded, names: seq<string>) returns (n: string, value: string, added: bool)
    requires names != [] && !FirstIsLast(d, names)
    ensures n in names && (added ==> n !in d.finals && exists m :: m in names && m != n)
    ensures var props := if added then d.props[n := value] else d.props;
            FirstValue(names, props) != LastValue(names, props)
  {
    hide FirstValue, Candidates;
    var c, last := Candidates(d, names), names[|names| - 1];
    forall m
      ensures m in c <==> m in names && !IsHopeless(d, m)
    {
      CandidatesAre(d, names, m);
    }
    var head := c[0];
    assert head in c && last in names;
    if head == last {
      n :| n in c && n != last;
      value, added := "x", n !in d.props;
      FirstValueFound(names, if added then d.props[n := value] else d.props, n);
    } else if head !in d.finals {
      n, value, added := head, if last in d.props then d.props[last] + "x" else "x", true;
      assert last in d.props ==> |value| == |d.props[last]| + 1;
      FirstOfCandidates(d, names, d.props[n := value]);
    } else {
      n, value, added := last, d.props[head] + "x", last !in d.finals;
      assert |value| == |d.props[head]| + 1;
      FirstOfCandidates(d, names, if added then d.props[n := value] else d.props);
    }
  }

  lemma FirstOfCandidates(d: Loaded, names: seq<string>, props: Props)
    requires forall n | n in names && IsHopeless(d, n) :: n !in props
    requires Candidates(d, names) != [] && Candidates(d, names)[0] in props
    ensures FirstValue(names, props) == Some(props[Candidates(d, names)[0]])
  {
    hide Candidates;
    FirstCandidate(d, names, props);
  }

  /** What the first and the last value are after no operation, or after the resource for one of the names. */
  lemma BrokenBy(env: Setup, name: string, ops: seq<Op>, n: string, value: string)
    requires Grouped(env.registry) && Trimmed(env.registry) && n in NamesFor(env, Trim(name))
    requires ops == [] || (ops == [OneKey(n, value)] && n !in Defaults(env).finals
                           && Trim(name) in env.registry.deprecated)
    requires var d, names := Defaults(env), NamesFor(env, Trim(name));
             var props := if ops == [] then d.props else d.props[n := value];
             FirstValue(names, props) != LastValue(names, props)
    ensures GetRawOf(env, DoAll(env, INITIAL, ops), name) != Documented(env, DoAll(env, INITIAL, ops), name)
  {
    hide LoadEntries, AllEntries, RevivedAll, Trim, AfterDeprecation, Filled, GetRawOf;
    var c := DoAll(env, INITIAL, ops);
    SeenAfterRun(env, ops, name);
    LookupIsLastValue(env, c, name);
    if ops == [] {
      assert Defaults(env).props + map[] == Defaults(env).props;
    } else {
      AfterOneKey(env, n, value);
      assert Defaults(env).props[n := value] + map[] == Defaults(env).props[n := value];
    }
  }

  /**
   * A lookup gives the first value among the names, in every state that a run leads to, exactly if among the
   * names that can have a value the default resources let the first and the last one always agree.
   */
  lemma LookupAsDocumentedIff(env: Setup, name: string)
    requires Grouped(env.registry) && Trimmed(env.registry)
    ensures (forall ops ::
               GetRawOf(env, DoAll(env, INITIAL, ops), name) == Documented(env, DoAll(env, INITIAL, ops), name))
            <==> FirstIsLast(Defaults(env), NamesFor(env, Trim(name)))
  {
    hide GetRawOf, Documented, Trim, FirstIsLast, Grouped, Trimmed, DoAll;
    if FirstIsLast(Defaults(env), NamesFor(env, Trim(name))) {
      forall ops
        ensures GetRawOf(env, DoAll(env, INITIAL, ops), name) == Documented(env, DoAll(env, INITIAL, ops), name)
      {
        PromiseKept(env, ops, name);
      }
    } else {
      var ops := PromiseBroken(env, name);
    }
  }

  /** Without default resources: exactly if the names that stand for the key do not differ. */
  lemma WithoutDefaults(env: Setup, name: string)
    requires Grouped(env.registry) && Trimmed(env.registry) && env.defaults == []
    ensures (forall ops ::
               GetRawOf(env, DoAll(env, INITIAL, ops), name) == Documented(env, DoAll(env, INITIAL, ops), name))
            <==> (forall m, n | m in NamesFor(env, Trim(name)) && n in NamesFor(env, Trim(name)) :: m == n)
  {
    hide GetRawOf, Documented, DoAll, Trim;
    LookupAsDocumentedIff(env, name);
    var names := NamesFor(env, Trim(name));
    assert Defaults(env) == NOTHING_LOADED;
    AllCandidates(names);
    assert names[0] in names && names[|names| - 1] in names;
  }

  lemma {:induction false} AllCandidates(names: seq<string>)
    ensures Candidates(NOTHING_LOADED, names) == names
  {
    if names != [] {
      AllCandidates(names[1..]);
    }
  }

  /** A failing run: a resource gives a value to a replacing key other than the last, and the lookup finds none. */
  lemma LastKeyHidesValue(env: Setup, name: string, n: string)
    requires Grouped(env.registry) && Trimmed(env.registry) && env.defaults == []
    requires n in NamesFor(env, Trim(name)) && n != NamesFor(env, Trim(name))[|NamesFor(env, Trim(name))| - 1]
    ensures GetRawOf(env, DoAll(env, INITIAL, [OneKey(n, "x")]), name) == None
    ensures Documented(env, DoAll(env, INITIAL, [OneKey(n, "x")]), name) == Some("x")
  {
    hide LoadEntries, AllEntries, RevivedAll, Trim, AfterDeprecation, Filled, GetRawOf;
    var ops, names := [OneKey(n, "x")], NamesFor(env, Trim(name));
    assert Defaults(env) == NOTHING_LOADED by {
      NothingLoaded(env);
    }
    AfterOneKey(env, n, "x");
    SeenAfterRun(env, ops, name);
    LookupIsLastValue(env, DoAll(env, INITIAL, ops), name);
    var props: Props := map[n := "x"];
    assert NOTHING_LOADED.props[n := "x"] + map[] == props;
    FirstValueFound(names, props, n);
    OnlyValue(names, n, "x");
  }

  lemma NothingLoaded(env: Setup)
    requires env.defaults == []
    ensures Defaults(env) == NOTHING_LOADED
  {
  }

  lemma {:induction false} OnlyValue(names: seq<string>, n: string, value: string)
    requires n in names
    ensures FirstValue(names, map[n := value]) == Some(value)
  {
    if names[0] != n {
      assert names == [names[0]] + names[1..];
      OnlyValue(names[1..], n, value);
    }
  }
}
