/**
 * The Hadoop configuration object: resources that are loaded lazily into a cache,
 * values set by the program that overlay them, final parameters, and deprecated keys.
 */
module Configuration {
  import opened Text
  import opened Wrappers
  import opened Deprecation

  type Props = map<string, string>

  /** What a resource holds, in document order; a section is a nested `configuration` element. */
  datatype Item =
    | Property(name: Option<string>, value: Option<string>, isFinal: bool)
    | Section(items: seq<Item>)

  /** A resource that reads the same every time, or one that is not there. */
  datatype Resource = Xml(items: seq<Item>) | Missing

  datatype Entry = Entry(key: string, value: Option<string>, isFinal: bool)

  /** What a key without a value is given where such keys are allowed. */
  const DEFAULT_STRING_CHECK := "testingforemptydefaultvalue"

  // ----- loading -----

  datatype Loaded = Loaded(props: Props, finals: set<string>)

  const NOTHING_LOADED := Loaded(map[], {})

  function LoadEntry(allowNull: bool, l: Loaded, e: Entry): Loaded {
    Loaded(
      if (e.value.Some? || allowNull) && e.key !in l.finals
      then l.props[e.key := if e.value.Some? then e.value.value else DEFAULT_STRING_CHECK] else l.props,
      if e.isFinal then l.finals + {e.key} else l.finals)
  }

  function LoadEntries(allowNull: bool, l: Loaded, es: seq<Entry>): Loaded {
    if es == [] then l else LoadEntry(allowNull, LoadEntries(allowNull, l, es[..|es| - 1]), es[|es| - 1])
  }

  function ForKeys(keys: seq<string>, value: Option<string>, isFinal: bool): seq<Entry> {
    if keys == [] then [] else ForKeys(keys[..|keys| - 1], value, isFinal) + [Entry(keys[|keys| - 1], value, isFinal)]
  }

  /** The entries of an item, a deprecated name standing for the keys that replace it. */
  function EntriesOf(reg: Registry, item: Item): seq<Entry> {
    match item
    case Section(items) => EntriesOfAll(reg, items)
    case Property(name, value, isFinal) =>
      if name.None? then []
      else if Trim(name.value) in reg.deprecated
      then ForKeys(reg.deprecated[Trim(name.value)].newKeys, value, isFinal)
      else [Entry(Trim(name.value), value, isFinal)]
  }

  function EntriesOfAll(reg: Registry, items: seq<Item>): seq<Entry> {
    if items == [] then [] else EntriesOf(reg, items[0]) + EntriesOfAll(reg, items[1..])
  }

  function EntriesOfResource(reg: Registry, r: Resource): seq<Entry> {
    if r.Missing? then [] else EntriesOfAll(reg, r.items)
  }

  function EntriesOfResources(reg: Registry, resources: seq<Resource>): seq<Entry> {
    if resources == [] then []
    else EntriesOfResources(reg, resources[..|resources| - 1]) + EntriesOfResource(reg, resources[|resources| - 1])
  }

  lemma {:induction false} LoadAppend(allowNull: bool, l: Loaded, a: seq<Entry>, b: seq<Entry>)
    ensures LoadEntries(allowNull, l, a + b) == LoadEntries(allowNull, LoadEntries(allowNull, l, a), b)
  {
    if b == [] {
      assert a + b == a;
    } else {
      assert (a + b)[..|a + b| - 1] == a + b[..|b| - 1];
      LoadAppend(allowNull, l, a, b[..|b| - 1]);
    }
  }

  lemma LoadOne(allowNull: bool, l: Loaded, e: Entry)
    ensures LoadEntries(allowNull, l, [e]) == LoadEntry(allowNull, l, e)
  {
    assert [e][..0] == [];
  }

  // ----- final parameters -----

  predicate HasValue(allowNull: bool, e: Entry) {
    e.value.Some? || allowNull
  }

  function ValueOf(e: Entry): string {
    if e.value.Some? then e.value.value else DEFAULT_STRING_CHECK
  }

  /** Some entry before `n` declares the key final. */
  ghost predicate FinalBefore(es: seq<Entry>, n: nat, key: string)
    requires n <= |es|
  {
    exists m | 0 <= m < n :: es[m].key == key && es[m].isFinal
  }

  /** Entry `i` is the last one with a value that is not behind a final entry of the key. */
  ghost predicate Wins(allowNull: bool, es: seq<Entry>, i: nat, key: string) {
    && i < |es| && es[i].key == key && HasValue(allowNull, es[i]) && !FinalBefore(es, i, key)
    && forall j | i < j < |es| && es[j].key == key && HasValue(allowNull, es[j]) :: FinalBefore(es, j, key)
  }

  lemma FinalBeforePrefix(es: seq<Entry>, n: nat, m: nat, key: string)
    requires n <= m <= |es|
    ensures FinalBefore(es[..m], n, key) <==> FinalBefore(es, n, key)
  {
    assert forall i | 0 <= i < n :: es[..m][i] == es[i];
  }

  lemma {:induction false} FinalsAreDeclared(allowNull: bool, es: seq<Entry>, key: string)
    ensures key in LoadEntries(allowNull, NOTHING_LOADED, es).finals <==> FinalBefore(es, |es|, key)
  {
    if es != [] {
      var n := |es| - 1;
      FinalsAreDeclared(allowNull, es[..n], key);
      FinalBeforePrefix(es, n, n, key);
      assert FinalBefore(es, n + 1, key) <==> FinalBefore(es, n, key) || (es[n].key == key && es[n].isFinal) by {
        if es[n].key == key && es[n].isFinal {
          assert FinalBefore(es, n + 1, key);
        }
      }
    }
  }

  /** One more entry either wins, or changes nothing for the key. */
  lemma WinsStep(allowNull: bool, es: seq<Entry>, key: string)
    requires es != []
    ensures var n := |es| - 1;
            if es[n].key == key && HasValue(allowNull, es[n]) && !FinalBefore(es[..n], n, key)
            then forall i: nat :: Wins(allowNull, es, i, key) <==> i == n
            else forall i: nat :: Wins(allowNull, es, i, key) <==> Wins(allowNull, es[..n], i, key)
  {
    var n := |es| - 1;
    var front := es[..n];
    FinalBeforePrefix(es, n, n, key);
    forall i | 0 <= i <= n ensures FinalBefore(front, i, key) <==> FinalBefore(es, i, key) {
      FinalBeforePrefix(es, i, n, key);
    }
  }

  /** A key holds the last value among its entries up to and including the first final one. */
  lemma {:induction false} LoadedValueWins(allowNull: bool, es: seq<Entry>, key: string)
    ensures var props := LoadEntries(allowNull, NOTHING_LOADED, es).props;
            && (key in props <==> exists i: nat :: Wins(allowNull, es, i, key))
            && (forall i: nat | Wins(allowNull, es, i, key) :: key in props && props[key] == ValueOf(es[i]))
  {
    if es != [] {
      var n := |es| - 1;
      LoadedValueWins(allowNull, es[..n], key);
      FinalsAreDeclared(allowNull, es[..n], key);
      WinsStep(allowNull, es, key);
      assert Wins(allowNull, es, n, key) ||
             forall i: nat :: Wins(allowNull, es, i, key) ==> i < n && es[..n][i] == es[i];
    }
  }

  /** No later entry changes a final key. */
  lemma {:induction false} FinalsStay(allowNull: bool, l: Loaded, more: seq<Entry>, key: string)
    requires key in l.finals
    ensures var l' := LoadEntries(allowNull, l, more);
            && key in l'.finals && (key in l'.props <==> key in l.props)
            && (key in l.props ==> l'.props[key] == l.props[key])
  {
    if more != [] {
      FinalsStay(allowNull, l, more[..|more| - 1], key);
    }
  }

  // ----- the state of a configuration -----

  /** What never changes: the deprecations, the switch for keys without a value, the default resources. */
  datatype Setup = Setup(registry: Registry, allowNull: bool, defaults: seq<Resource>)

  datatype Conf = Conf(resources: seq<Resource>, cached: Option<Props>, overlay: Props, finals: set<string>)

  const INITIAL := Conf([], None, map[], {})

  function AllEntries(env: Setup, c: Conf): seq<Entry> {
    EntriesOfResources(env.registry, env.defaults + c.resources)
  }

  /** What the resources alone say. */
  function FromResources(env: Setup, c: Conf): Loaded {
    LoadEntries(env.allowNull, NOTHING_LOADED, AllEntries(env, c))
  }

  /** What a reader is to see: the resources, overlaid by what the program has set. */
  function View(env: Setup, c: Conf): Props {
    FromResources(env, c).props + c.overlay
  }

  function Filled(env: Setup, c: Conf): Conf {
    if c.cached.Some? then c
    else
      var l := LoadEntries(env.allowNull, Loaded(map[], c.finals), AllEntries(env, c));
      c.(cached := Some(l.props + c.overlay), finals := l.finals)
  }

  function PropsOf(env: Setup, c: Conf): Props {
    Filled(env, c).cached.value
  }

  /** Sets a key in the overlay and then in the cache, filling the cache if need be. */
  function Put(env: Setup, c: Conf, key: string, value: string): Conf {
    var c1 := Filled(env, c.(overlay := c.overlay[key := value]));
    c1.(cached := Some(c1.cached.value[key := value]))
  }

  function PutAll(env: Setup, c: Conf, keys: seq<string>, value: string): Conf {
    if keys == [] then c else Put(env, PutAll(env, c, keys[..|keys| - 1], value), keys[|keys| - 1], value)
  }

  /** A new key without a value takes over the value set for the key that it replaces. */
  function Revive(env: Setup, c: Conf, n: string): Conf {
    var reverse := env.registry.reverse;
    if n in reverse && n !in c.overlay && reverse[n] in c.overlay then
      var value := c.overlay[reverse[n]];
      var c1 := Filled(env, c);
      c1.(cached := Some(c1.cached.value[n := value]), overlay := c1.overlay[n := value])
    else c
  }

  function ReviveAll(env: Setup, c: Conf, names: seq<string>): Conf {
    if names == [] then c else Revive(env, ReviveAll(env, c, names[..|names| - 1]), names[|names| - 1])
  }

  function NamesFor(env: Setup, name: string): seq<string> {
    if name in env.registry.deprecated then env.registry.deprecated[name].newKeys else [name]
  }

  function AfterDeprecation(env: Setup, c: Conf, name: string): Conf {
    if c.overlay == map[] then c else ReviveAll(env, c, NamesFor(env, name))
  }

  function AfterGet(env: Setup, c: Conf, name: string): Conf {
    var c1 := AfterDeprecation(env, c, Trim(name));
    if NamesFor(env, Trim(name)) == [] then c1 else Filled(env, c1)
  }

  /** The value of the last of the names that stand for `name`. */
  function GetRawOf(env: Setup, c: Conf, name: string): Option<string> {
    var names := NamesFor(env, Trim(name));
    if names == [] then None
    else
      var props := PropsOf(env, AfterDeprecation(env, c, Trim(name)));
      var last := names[|names| - 1];
      if last in props then Some(props[last]) else None
  }

  /** The other names of a key that is not deprecated; the key that it replaces only if that one has a value. */
  function Alternatives(env: Setup, c: Conf, name: string): seq<string> {
    var reg := env.registry;
    if name !in reg.reverse || reg.reverse[name] !in reg.deprecated then []
    else
      var key := reg.reverse[name];
      if reg.deprecated[key].newKeys == [] then []
      else reg.deprecated[key].newKeys + if key in PropsOf(env, c) then [key] else []
  }

  function Without(names: seq<string>, name: string): seq<string> {
    if names == [] then []
    else Without(names[..|names| - 1], name) + if names[|names| - 1] == name then [] else [names[|names| - 1]]
  }

  function AfterSet(env: Setup, c: Conf, untrimmed: string, value: string): Conf {
    var name := Trim(untrimmed);
    var c0 := if env.registry.deprecated == map[] then Filled(env, c) else c;
    var c1 := Put(env, c0, name, value);
    if name in env.registry.deprecated
    then PutAll(env, AfterDeprecation(env, c1, name), NamesFor(env, name), value)
    else PutAll(env, c1, Without(Alternatives(env, c1, name), name), value)
  }

  function AfterReload(c: Conf): Conf {
    c.(cached := None, finals := {})
  }

  function AfterAddResource(c: Conf, r: Resource): Conf {
    AfterReload(c.(resources := c.resources + [r]))
  }

  /** A resource added later does not change what the earlier ones have made final. */
  lemma FinalSurvivesAddResource(env: Setup, c: Conf, r: Resource, key: string)
    requires key in FromResources(env, c).finals
    ensures var l, l' := FromResources(env, c), FromResources(env, AfterAddResource(c, r));
            && key in l'.finals && (key in l'.props <==> key in l.props)
            && (key in l.props ==> l'.props[key] == l.props[key])
  {
    var all := env.defaults + c.resources;
    assert env.defaults + AfterAddResource(c, r).resources == all + [r];
    assert (all + [r])[..|all|] == all;
    var more := EntriesOfResource(env.registry, r);
    LoadAppend(env.allowNull, NOTHING_LOADED, AllEntries(env, c), more);
    FinalsStay(env.allowNull, FromResources(env, c), more, key);
  }

  function RemoveAll(env: Setup, c: Conf, keys: seq<string>): Conf {
    if keys == [] then c
    else
      var c1 := RemoveAll(env, c, keys[..|keys| - 1]);
      var key := keys[|keys| - 1];
      var c2 := Filled(env, c1.(overlay := c1.overlay - {key}));
      c2.(cached := Some(c2.cached.value - {key}))
  }

  function AfterUnset(env: Setup, c: Conf, name: string): Conf {
    if name in env.registry.deprecated
    then RemoveAll(env, AfterDeprecation(env, c, Trim(name)), NamesFor(env, Trim(name)))
    else
      var names := if Alternatives(env, c, name) == [] then [name] else Alternatives(env, c, name);
      RemoveAll(env, FillFor(env, c, name), names)
  }

  /** Looking for alternatives fills the cache. */
  function FillFor(env: Setup, c: Conf, name: string): Conf {
    var reg := env.registry;
    if name in reg.reverse && reg.reverse[name] in reg.deprecated && reg.deprecated[reg.reverse[name]].newKeys != []
    then Filled(env, c) else c
  }

  // ----- the object -----

  class Configuration {
    const env: Setup
    var resources: seq<Resource>
    var properties: Option<Props>
    var overlay: Props
    var finalParameters: set<string>

    function State(): Conf
      reads this
    {
      Conf(resources, properties, overlay, finalParameters)
    }

    constructor (env: Setup)
      ensures this.env == env && State() == INITIAL
    {
      this.env := env;
      resources, properties, overlay, finalParameters := [], None, map[], {};
    }

    method ReloadConfiguration()
      modifies this`properties, this`finalParameters
      ensures State() == AfterReload(old(State()))
    {
      properties := None;
      finalParameters := {};
    }

    method AddResource(r: Resource)
      modifies this`resources, this`properties, this`finalParameters
      ensures State() == AfterAddResource(old(State()), r)
    {
      resources := resources + [r];
      ReloadConfiguration();
    }

    method LoadProperty(props: Props, attr: string, value: Option<string>, isFinal: bool) returns (r: Props)
      modifies this`finalParameters
      ensures Loaded(r, finalParameters) ==
              LoadEntry(env.allowNull, Loaded(props, old(finalParameters)), Entry(attr, value, isFinal))
    {
      r := props;
      if value.Some? || env.allowNull {
        var text := if value.None? then DEFAULT_STRING_CHECK else value.value;
        if attr !in finalParameters {
          r := r[attr := text];
        }
      }
      if isFinal {
        finalParameters := finalParameters + {attr};
      }
    }

    method LoadForKeys(props: Props, keys: seq<string>, value: Option<string>, isFinal: bool) returns (r: Props)
      modifies this`finalParameters
      ensures Loaded(r, finalParameters) ==
              LoadEntries(env.allowNull, Loaded(props, old(finalParameters)), ForKeys(keys, value, isFinal))
    {
      r := props;
      var i := 0;
      while i < |keys|
        invariant 0 <= i <= |keys|
        invariant Loaded(r, finalParameters) ==
                  LoadEntries(env.allowNull, Loaded(props, old(finalParameters)), ForKeys(keys[..i], value, isFinal))
      {
        assert keys[..i + 1][..i] == keys[..i];
        LoadOne(env.allowNull, Loaded(r, finalParameters), Entry(keys[i], value, isFinal));
        LoadAppend(env.allowNull, Loaded(props, old(finalParameters)), ForKeys(keys[..i], value, isFinal),
                   [Entry(keys[i], value, isFinal)]);
        r := LoadProperty(r, keys[i], value, isFinal);
        i := i + 1;
      }
      assert keys[..i] == keys;
    }

    /** `loadResource`, for the elements of a resource or of a nested section. */
    method LoadItems(props: Props, items: seq<Item>) returns (r: Props)
      modifies this`finalParameters
      ensures Loaded(r, finalParameters) ==
              LoadEntries(env.allowNull, Loaded(props, old(finalParameters)), EntriesOfAll(env.registry, items))
      decreases items
    {
      r := props;
      if items == [] {
        return;
      }
      match items[0] {
        case Section(inner) =>
          r := LoadItems(r, inner);
        case Property(name, value, isFinal) =>
          if name.Some? {
            var attr := Trim(name.value);
            if attr in env.registry.deprecated {
              r := LoadForKeys(r, env.registry.deprecated[attr].newKeys, value, isFinal);
            } else {
              LoadOne(env.allowNull, Loaded(r, finalParameters), Entry(attr, value, isFinal));
              r := LoadProperty(r, attr, value, isFinal);
            }
          }
      }
      LoadAppend(env.allowNull, Loaded(props, old(finalParameters)),
                 EntriesOf(env.registry, items[0]), EntriesOfAll(env.registry, items[1..]));
      r := LoadItems(r, items[1..]);
    }

    method LoadResource(props: Props, resource: Resource) returns (r: Props)
      modifies this`finalParameters
      ensures Loaded(r, finalParameters) ==
              LoadEntries(env.allowNull, Loaded(props, old(finalParameters)), EntriesOfResource(env.registry, resource))
    {
      r := props;
      if resource.Xml? {
        r := LoadItems(r, resource.items);
      }
    }

    method LoadResources(props: Props, all: seq<Resource>) returns (r: Props)
      modifies this`finalParameters
      ensures Loaded(r, finalParameters) ==
              LoadEntries(env.allowNull, Loaded(props, old(finalParameters)), EntriesOfResources(env.registry, all))
    {
      r := props;
      var i := 0;
      while i < |all|
        invariant 0 <= i <= |all|
        invariant Loaded(r, finalParameters) ==
                  LoadEntries(env.allowNull, Loaded(props, old(finalParameters)),
                              EntriesOfResources(env.registry, all[..i]))
      {
        assert all[..i + 1][..i] == all[..i];
        LoadAppend(env.allowNull, Loaded(props, old(finalParameters)), EntriesOfResources(env.registry, all[..i]),
                   EntriesOfResource(env.registry, all[i]));
        r := LoadResource(r, all[i]);
        i := i + 1;
      }
      assert all[..i] == all;
    }

    method GetProps() returns (r: Props)
      modifies this`properties, this`finalParameters
      ensures State() == Filled(env, old(State())) && r == PropsOf(env, old(State()))
    {
      if properties.None? {
        var loaded := LoadResources(map[], env.defaults + resources);
        properties := Some(loaded + overlay);
      }
      r := properties.value;
    }

    method SetProperty(key: string, value: string)
      modifies this`overlay, this`properties, this`finalParameters
      ensures State() == Put(env, old(State()), key, value)
    {
      overlay := overlay[key := value];
      var props := GetProps();
      properties := Some(props[key := value]);
    }

    method HandleDeprecation(name: string) returns (names: seq<string>)
      modifies this`overlay, this`properties, this`finalParameters
      ensures names == NamesFor(env, Trim(name))
      ensures State() == AfterDeprecation(env, old(State()), Trim(name))
    {
      var trimmed := Trim(name);
      names := [trimmed];
      if trimmed in env.registry.deprecated {
        names := env.registry.deprecated[trimmed].newKeys;
      }
      if overlay == map[] {
        return;
      }
      var i := 0;
      while i < |names|
        invariant 0 <= i <= |names|
        invariant State() == ReviveAll(env, old(State()), names[..i])
      {
        assert names[..i + 1][..i] == names[..i];
        var n := names[i];
        if n in env.registry.reverse && n !in overlay {
          var deprecatedKey := env.registry.reverse[n];
          if deprecatedKey in overlay {
            var value := overlay[deprecatedKey];
            var props := GetProps();
            properties := Some(props[n := value]);
            overlay := overlay[n := value];
          }
        }
        i := i + 1;
      }
      assert names[..i] == names;
    }

    method GetRaw(name: string) returns (result: Option<string>)
      modifies this`overlay, this`properties, this`finalParameters
      ensures State() == AfterGet(env, old(State()), name)
      ensures result == GetRawOf(env, old(State()), name)
    {
      var names := HandleDeprecation(name);
      result := None;
      ghost var handled := State();
      var i := 0;
      while i < |names|
        invariant 0 <= i <= |names|
        invariant State() == if i == 0 then handled else Filled(env, handled)
        invariant i > 0 ==>
                    result == (if names[i - 1] in PropsOf(env, handled)
                               then Some(PropsOf(env, handled)[names[i - 1]]) else None)
        invariant i == 0 ==> result == None
      {
        var props := GetProps();
        result := if names[i] in props then Some(props[names[i]]) else None;
        i := i + 1;
      }
    }

    method GetAlternativeNames(name: string) returns (names: seq<string>)
      modifies this`properties, this`finalParameters
      ensures names == Alternatives(env, old(State()), name)
      ensures State() == FillFor(env, old(State()), name)
    {
      names := [];
      var reg := env.registry;
      if name in reg.reverse && reg.reverse[name] in reg.deprecated {
        var key := reg.reverse[name];
        var newKeys := reg.deprecated[key].newKeys;
        if |newKeys| > 0 {
          var props := GetProps();
          names := if key in props then newKeys + [key] else newKeys;
        }
      }
    }

    method SetAll(names: seq<string>, value: string)
      modifies this`overlay, this`properties, this`finalParameters
      ensures State() == PutAll(env, old(State()), names, value)
    {
      var i := 0;
      while i < |names|
        invariant 0 <= i <= |names|
        invariant State() == PutAll(env, old(State()), names[..i], value)
      {
        assert names[..i + 1][..i] == names[..i];
        SetProperty(names[i], value);
        i := i + 1;
      }
      assert names[..i] == names;
    }

    method SetOthers(names: seq<string>, name: string, value: string)
      modifies this`overlay, this`properties, this`finalParameters
      ensures State() == PutAll(env, old(State()), Without(names, name), value)
    {
      var i := 0;
      ghost var done := [];
      while i < |names|
        invariant 0 <= i <= |names| && done == Without(names[..i], name)
        invariant State() == PutAll(env, old(State()), done, value)
      {
        assert names[..i + 1][..i] == names[..i];
        if names[i] != name {
          SetProperty(names[i], value);
          assert (done + [names[i]])[..|done|] == done;
          done := done + [names[i]];
        }
        i := i + 1;
      }
      assert names[..i] == names;
    }

    method Set(name: string, value: string)
      modifies this`overlay, this`properties, this`finalParameters
      ensures State() == AfterSet(env, old(State()), name, value)
    {
      var trimmed := Trim(name);
      if env.registry.deprecated == map[] {
        var _ := GetProps();
      }
      SetProperty(trimmed, value);
      if trimmed !in env.registry.deprecated {
        var names := GetAlternativeNames(trimmed);
        SetOthers(names, trimmed, value);
      } else {
        TrimTwice(name);
        var names := HandleDeprecation(trimmed);
        SetAll(names, value);
      }
    }

    method RemoveProperties(names: seq<string>)
      modifies this`overlay, this`properties, this`finalParameters
      ensures State() == RemoveAll(env, old(State()), names)
    {
      var i := 0;
      while i < |names|
        invariant 0 <= i <= |names|
        invariant State() == RemoveAll(env, old(State()), names[..i])
      {
        assert names[..i + 1][..i] == names[..i];
        overlay := overlay - {names[i]};
        var props := GetProps();
        properties := Some(props - {names[i]});
        i := i + 1;
      }
      assert names[..i] == names;
    }

    method Unset(name: string)
      modifies this`overlay, this`properties, this`finalParameters
      ensures State() == AfterUnset(env, old(State()), name)
    {
      var names: seq<string>;
      if name !in env.registry.deprecated {
        names := GetAlternativeNames(name);
        if names == [] {
          names := [name];
        }
      } else {
        names := HandleDeprecation(name);
      }
      RemoveProperties(names);
    }
  }

  // ----- the cache is transparent -----

  /** The cache is empty or agrees with a fresh load. */
  ghost predicate Coherent(env: Setup, c: Conf) {
    if c.cached.None? then c.finals == {}
    else c.cached.value == View(env, c) && c.finals == FromResources(env, c).finals
  }

  /** Two states that differ in their caches only. */
  ghost predicate SameContents(a: Conf, b: Conf) {
    a.resources == b.resources && a.overlay == b.overlay
  }

  lemma FilledCoherent(env: Setup, c: Conf)
    requires Coherent(env, c)
    ensures Coherent(env, Filled(env, c)) && SameContents(Filled(env, c), c)
    ensures PropsOf(env, c) == View(env, c)
  {
  }

  lemma PutCoherent(env: Setup, c: Conf, key: string, value: string)
    requires Coherent(env, c)
    ensures Coherent(env, Put(env, c, key, value))
    ensures SameContents(Put(env, c, key, value), c.(overlay := c.overlay[key := value]))
  {
    hide LoadEntries; hide AllEntries;
    var loaded := FromResources(env, c).props;
    assert loaded + c.overlay[key := value] == (loaded + c.overlay)[key := value];
    assert (loaded + c.overlay[key := value])[key := value] == loaded + c.overlay[key := value];
    SameLoad(env, c, c.(overlay := c.overlay[key := value]));
    SameLoad(env, c, Put(env, c, key, value));
  }

  lemma SameLoad(env: Setup, a: Conf, b: Conf)
    requires a.resources == b.resources
    ensures FromResources(env, a) == FromResources(env, b) && AllEntries(env, a) == AllEntries(env, b)
  {
  }

  function Overlaid(overlay: Props, keys: seq<string>, value: string): Props {
    if keys == [] then overlay else Overlaid(overlay, keys[..|keys| - 1], value)[keys[|keys| - 1] := value]
  }

  lemma {:induction false} PutAllCoherent(env: Setup, c: Conf, keys: seq<string>, value: string)
    requires Coherent(env, c)
    ensures Coherent(env, PutAll(env, c, keys, value))
    ensures SameContents(PutAll(env, c, keys, value), c.(overlay := Overlaid(c.overlay, keys, value)))
  {
    if keys != [] {
      PutAllCoherent(env, c, keys[..|keys| - 1], value);
      PutCoherent(env, PutAll(env, c, keys[..|keys| - 1], value), keys[|keys| - 1], value);
    }
  }

  lemma ReviveCoherent(env: Setup, c: Conf, n: string)
    requires Coherent(env, c)
    ensures Coherent(env, Revive(env, c, n))
    ensures SameContents(Revive(env, c, n), c.(overlay := RevivedOverlay(env, c.overlay, n)))
  {
    FilledCoherent(env, c);
    var reverse := env.registry.reverse;
    if n in reverse && n !in c.overlay && reverse[n] in c.overlay {
      var value := c.overlay[reverse[n]];
      assert FromResources(env, c).props + c.overlay[n := value] == View(env, c)[n := value];
    }
  }

  function RevivedOverlay(env: Setup, overlay: Props, n: string): Props {
    var reverse := env.registry.reverse;
    if n in reverse && n !in overlay && reverse[n] in overlay then overlay[n := overlay[reverse[n]]] else overlay
  }

  function RevivedAll(env: Setup, overlay: Props, names: seq<string>): Props {
    if names == [] then overlay
    else RevivedOverlay(env, RevivedAll(env, overlay, names[..|names| - 1]), names[|names| - 1])
  }

  lemma {:induction false} ReviveAllCoherent(env: Setup, c: Conf, names: seq<string>)
    requires Coherent(env, c)
    ensures Coherent(env, ReviveAll(env, c, names))
    ensures SameContents(ReviveAll(env, c, names), c.(overlay := RevivedAll(env, c.overlay, names)))
  {
    if names != [] {
      ReviveAllCoherent(env, c, names[..|names| - 1]);
      ReviveCoherent(env, ReviveAll(env, c, names[..|names| - 1]), names[|names| - 1]);
    }
  }

  lemma DeprecationCoherent(env: Setup, c: Conf, name: string)
    requires Coherent(env, c)
    ensures Coherent(env, AfterDeprecation(env, c, name))
    ensures SameContents(AfterDeprecation(env, c, name),
                         c.(overlay := if c.overlay == map[] then c.overlay
                                       else RevivedAll(env, c.overlay, NamesFor(env, name))))
  {
    ReviveAllCoherent(env, c, NamesFor(env, name));
  }

  lemma SetCoherent(env: Setup, c: Conf, untrimmed: string, value: string)
    requires Coherent(env, c)
    ensures Coherent(env, AfterSet(env, c, untrimmed, value))
  {
    var name := Trim(untrimmed);
    FilledCoherent(env, c);
    var c0 := if env.registry.deprecated == map[] then Filled(env, c) else c;
    PutCoherent(env, c0, name, value);
    var c1 := Put(env, c0, name, value);
    if name in env.registry.deprecated {
      DeprecationCoherent(env, c1, name);
      PutAllCoherent(env, AfterDeprecation(env, c1, name), NamesFor(env, name), value);
    } else {
      PutAllCoherent(env, c1, Without(Alternatives(env, c1, name), name), value);
    }
  }

  // ----- runs -----

  datatype Op =
    | Set(name: string, value: string)
    | GetRaw(name: string)
    | AddResource(r: Resource)
    | Reload

  function Do(env: Setup, c: Conf, op: Op): Conf {
    match op
    case Set(name, value) => AfterSet(env, c, name, value)
    case GetRaw(name) => AfterGet(env, c, name)
    case AddResource(r) => AfterAddResource(c, r)
    case Reload => AfterReload(c)
  }

  function DoAll(env: Setup, c: Conf, ops: seq<Op>): Conf {
    if ops == [] then c else Do(env, DoAll(env, c, ops[..|ops| - 1]), ops[|ops| - 1])
  }

  /** The answers that the lookups of a run give. */
  function Answers(env: Setup, c: Conf, ops: seq<Op>): seq<Option<string>>
    decreases |ops|
  {
    if ops == [] then []
    else (if ops[0].GetRaw? then [GetRawOf(env, c, ops[0].name)] else []) + Answers(env, Do(env, c, ops[0]), ops[1..])
  }

  lemma DoCoherent(env: Setup, c: Conf, op: Op)
    requires Coherent(env, c)
    ensures Coherent(env, Do(env, c, op))
  {
    match op {
      case Set(name, value) => SetCoherent(env, c, name, value);
      case GetRaw(name) =>
        DeprecationCoherent(env, c, Trim(name));
        FilledCoherent(env, AfterDeprecation(env, c, Trim(name)));
      case _ =>
    }
  }

  lemma SameView(env: Setup, a: Conf, b: Conf)
    requires SameContents(a, b)
    ensures View(env, a) == View(env, b)
  {
  }

  /** What an operation does and answers depends on the contents only, not on the cache. */
  lemma DoIgnoresCache(env: Setup, a: Conf, b: Conf, op: Op)
    requires Coherent(env, a) && Coherent(env, b) && SameContents(a, b)
    ensures SameContents(Do(env, a, op), Do(env, b, op))
    ensures op.GetRaw? ==> GetRawOf(env, a, op.name) == GetRawOf(env, b, op.name)
  {
    match op {
      case Set(name, value) => SetIgnoresCache(env, a, b, name, value);
      case GetRaw(name) =>
        var a1, b1 := AfterDeprecation(env, a, Trim(name)), AfterDeprecation(env, b, Trim(name));
        DeprecationCoherent(env, a, Trim(name));
        DeprecationCoherent(env, b, Trim(name));
        FilledCoherent(env, a1);
        FilledCoherent(env, b1);
        SameView(env, a1, b1);
      case _ =>
    }
  }

  lemma SetIgnoresCache(env: Setup, a: Conf, b: Conf, untrimmed: string, value: string)
    requires Coherent(env, a) && Coherent(env, b) && SameContents(a, b)
    ensures SameContents(AfterSet(env, a, untrimmed, value), AfterSet(env, b, untrimmed, value))
  {
    var name := Trim(untrimmed);
    FilledCoherent(env, a);
    FilledCoherent(env, b);
    var empty := env.registry.deprecated == map[];
    var a0, b0 := if empty then Filled(env, a) else a, if empty then Filled(env, b) else b;
    PutCoherent(env, a0, name, value);
    PutCoherent(env, b0, name, value);
    var a1, b1 := Put(env, a0, name, value), Put(env, b0, name, value);
    if name in env.registry.deprecated {
      DeprecationCoherent(env, a1, name);
      DeprecationCoherent(env, b1, name);
      PutAllCoherent(env, AfterDeprecation(env, a1, name), NamesFor(env, name), value);
      PutAllCoherent(env, AfterDeprecation(env, b1, name), NamesFor(env, name), value);
    } else {
      FilledCoherent(env, a1);
      FilledCoherent(env, b1);
      SameView(env, a1, b1);
      PutAllCoherent(env, a1, Without(Alternatives(env, a1, name), name), value);
      PutAllCoherent(env, b1, Without(Alternatives(env, b1, name), name), value);
    }
  }

  lemma {:induction false} AnswersIgnoreCache(env: Setup, a: Conf, b: Conf, ops: seq<Op>)
    requires Coherent(env, a) && Coherent(env, b) && SameContents(a, b)
    ensures Answers(env, a, ops) == Answers(env, b, ops)
    decreases |ops|
  {
    if ops != [] {
      DoIgnoresCache(env, a, b, ops[0]);
      DoCoherent(env, a, ops[0]);
      DoCoherent(env, b, ops[0]);
      AnswersIgnoreCache(env, Do(env, a, ops[0]), Do(env, b, ops[0]), ops[1..]);
    }
  }

  /** Reloading at any point of a run changes no answer, before it or after it. */
  lemma {:induction false} ReloadIsInvisible(env: Setup, c: Conf, before: seq<Op>, after: seq<Op>)
    requires Coherent(env, c)
    ensures Answers(env, c, before + [Reload] + after) == Answers(env, c, before + after)
    decreases |before|
  {
    if before == [] {
      assert [] + [Reload] + after == [Reload] + after && ([Reload] + after)[1..] == after && [] + after == after;
      AnswersIgnoreCache(env, AfterReload(c), c, after);
    } else {
      assert (before + [Reload] + after)[1..] == before[1..] + [Reload] + after;
      assert (before + after)[1..] == before[1..] + after;
      DoCoherent(env, c, before[0]);
      ReloadIsInvisible(env, Do(env, c, before[0]), before[1..], after);
    }
  }

  lemma {:induction false} RunsCoherent(env: Setup, ops: seq<Op>)
    ensures Coherent(env, DoAll(env, INITIAL, ops))
  {
    if ops != [] {
      RunsCoherent(env, ops[..|ops| - 1]);
      DoCoherent(env, DoAll(env, INITIAL, ops[..|ops| - 1]), ops[|ops| - 1]);
    }
  }

  // ----- aliases agree -----

  /** Deprecated keys have disjoint groups of replacements, none of which is deprecated in turn. */
  ghost predicate Grouped(reg: Registry) {
    && Consistent(reg)
    && (forall k | k in reg.deprecated ::
          reg.deprecated[k].newKeys != [] && forall n | n in reg.deprecated[k].newKeys :: n !in reg.deprecated)
    && (forall j, k, n | j in reg.deprecated && k in reg.deprecated
            && n in reg.deprecated[j].newKeys && n in reg.deprecated[k].newKeys :: j == k)
  }

  /** The deprecated key that stands for the group of a key, if there is one. */
  function GroupOf(reg: Registry, key: string): Option<string> {
    if key in reg.deprecated then Some(key)
    else if key in reg.reverse then Some(reg.reverse[key])
    else None
  }

  /** The value that the group was last set to, under any of its names. */
  function LastSet(reg: Registry, ops: seq<Op>, g: string): Option<string> {
    if ops == [] then None
    else
      var op := ops[|ops| - 1];
      if op.Set? && GroupOf(reg, Trim(op.name)) == Some(g) then Some(op.value)
      else LastSet(reg, ops[..|ops| - 1], g)
  }

  /** The overlay holds a group as a whole: every replacing key, and the deprecated key if at all. */
  ghost predicate HoldsGroup(reg: Registry, overlay: Props, g: string, value: Option<string>)
    requires g in reg.deprecated
  {
    var newKeys := reg.deprecated[g].newKeys;
    if value.None? then g !in overlay && forall n | n in newKeys :: n !in overlay
    else
      && (g in overlay ==> overlay[g] == value.value)
      && forall n | n in newKeys :: n in overlay && overlay[n] == value.value
  }

  ghost predicate HoldsGroups(reg: Registry, overlay: Props, ops: seq<Op>) {
    forall g | g in reg.deprecated :: HoldsGroup(reg, overlay, g, LastSet(reg, ops, g))
  }

  lemma {:induction false} OverlaidAt(overlay: Props, keys: seq<string>, value: string, k: string)
    ensures k in Overlaid(overlay, keys, value) <==> k in keys || k in overlay
    ensures k in keys ==> Overlaid(overlay, keys, value)[k] == value
    ensures k !in keys && k in overlay ==> Overlaid(overlay, keys, value)[k] == overlay[k]
  {
    if keys != [] {
      var front := keys[..|keys| - 1];
      OverlaidAt(overlay, front, value, k);
      assert keys == front + [keys[|keys| - 1]];
    }
  }

  lemma {:induction false} RevivedElsewhere(env: Setup, overlay: Props, names: seq<string>, k: string)
    requires k !in names
    ensures k in RevivedAll(env, overlay, names) <==> k in overlay
    ensures k in overlay ==> RevivedAll(env, overlay, names)[k] == overlay[k]
  {
    if names != [] {
      var front := names[..|names| - 1];
      assert forall x | x in front :: x in names;
      RevivedElsewhere(env, overlay, front, k);
      assert names[|names| - 1] in names;
    }
  }

  lemma {:induction false} WithoutAt(names: seq<string>, name: string, k: string)
    ensures k in Without(names, name) <==> k in names && k != name
  {
    if names != [] {
      var front := names[..|names| - 1];
      WithoutAt(front, name, k);
      assert names == front + [names[|names| - 1]];
    }
  }

  /** While groups are held as a whole, nothing is ever taken over from a deprecated key. */
  lemma {:induction false} NothingToRevive(env: Setup, overlay: Props, names: seq<string>, ops: seq<Op>)
    requires Grouped(env.registry) && HoldsGroups(env.registry, overlay, ops)
    ensures RevivedAll(env, overlay, names) == overlay
  {
    if names != [] {
      NothingToRevive(env, overlay, names[..|names| - 1], ops);
      var n := names[|names| - 1];
      if n in env.registry.reverse {
        assert HoldsGroup(env.registry, overlay, env.registry.reverse[n],
                          LastSet(env.registry, ops, env.registry.reverse[n]));
      }
    }
  }

  /** The overlay behind a `set`, without the cache. */
  function SetOverlay(env: Setup, overlay: Props, name: string, value: string, alternatives: seq<string>): Props {
    var overlay1 := overlay[name := value];
    if name in env.registry.deprecated
    then Overlaid(RevivedAll(env, overlay1, NamesFor(env, name)), NamesFor(env, name), value)
    else Overlaid(overlay1, Without(alternatives, name), value)
  }

  lemma OverlayOfSet(env: Setup, c: Conf, untrimmed: string, value: string) returns (names: seq<string>)
    requires Coherent(env, c)
    ensures AfterSet(env, c, untrimmed, value).overlay == SetOverlay(env, c.overlay, Trim(untrimmed), value, names)
    ensures var reg, name := env.registry, Trim(untrimmed);
            if name in reg.reverse && reg.reverse[name] in reg.deprecated
               && reg.deprecated[reg.reverse[name]].newKeys != []
            then
              && (forall k :: k in names ==> k in reg.deprecated[reg.reverse[name]].newKeys || k == reg.reverse[name])
              && (forall k | k in reg.deprecated[reg.reverse[name]].newKeys :: k in names)
              && (reg.reverse[name] in c.overlay ==> reg.reverse[name] in names)
            else names == []
  {
    var name, reg := Trim(untrimmed), env.registry;
    FilledCoherent(env, c);
    var c0 := if reg.deprecated == map[] then Filled(env, c) else c;
    PutCoherent(env, c0, name, value);
    var c1 := Put(env, c0, name, value);
    FilledCoherent(env, c1);
    names := Alternatives(env, c1, name);
    if name in reg.deprecated {
      DeprecationCoherent(env, c1, name);
      assert name in c1.overlay;
      PutAllCoherent(env, AfterDeprecation(env, c1, name), NamesFor(env, name), value);
    } else {
      PutAllCoherent(env, c1, Without(names, name), value);
    }
  }

  /** What one `set` makes of one key of the overlay. */
  lemma OverlayAfterSet(env: Setup, c: Conf, untrimmed: string, value: string, k: string)
    requires Coherent(env, c) && Grouped(env.registry)
    ensures var name, reg := Trim(untrimmed), env.registry;
            var overlay := AfterSet(env, c, untrimmed, value).overlay;
            var g := GroupOf(reg, name);
            if k == name || (g.Some? && k in reg.deprecated[g.value].newKeys) then k in overlay && overlay[k] == value
            else if g == Some(k) then k in overlay ==> overlay[k] == value
            else (k in overlay <==> k in c.overlay) && (k in overlay ==> overlay[k] == c.overlay[k])
  {
    hide AfterSet; hide RevivedAll; hide Overlaid; hide Without;
    var name, reg := Trim(untrimmed), env.registry;
    var names := OverlayOfSet(env, c, untrimmed, value);
    var overlay1 := c.overlay[name := value];
    if name in reg.deprecated {
      var newKeys := NamesFor(env, name);
      OverlaidAt(RevivedAll(env, overlay1, newKeys), newKeys, value, k);
      if k !in newKeys {
        RevivedElsewhere(env, overlay1, newKeys, k);
      }
    } else {
      OverlaidAt(overlay1, Without(names, name), value, k);
      WithoutAt(names, name, k);
    }
  }

  lemma LastSetStep(reg: Registry, ops: seq<Op>, op: Op, g: string)
    ensures LastSet(reg, ops + [op], g) ==
            if op.Set? && GroupOf(reg, Trim(op.name)) == Some(g) then Some(op.value) else LastSet(reg, ops, g)
  {
    assert (ops + [op])[..|ops|] == ops;
  }

  lemma SetHoldsGroup(env: Setup, c: Conf, ops: seq<Op>, name: string, value: string, g: string)
    requires Coherent(env, c) && Grouped(env.registry) && g in env.registry.deprecated
    requires HoldsGroup(env.registry, c.overlay, g, LastSet(env.registry, ops, g))
    ensures HoldsGroup(env.registry, AfterSet(env, c, name, value).overlay, g,
                       LastSet(env.registry, ops + [Set(name, value)], g))
  {
    hide AfterSet; hide LastSet; hide Coherent;
    LastSetStep(env.registry, ops, Set(name, value), g);
    OverlayAfterSet(env, c, name, value, g);
    forall n | n in env.registry.deprecated[g].newKeys {
      OverlayAfterSet(env, c, name, value, n);
    }
  }

  lemma DoHoldsGroups(env: Setup, c: Conf, ops: seq<Op>, op: Op)
    requires Coherent(env, c) && Grouped(env.registry) && HoldsGroups(env.registry, c.overlay, ops)
    ensures HoldsGroups(env.registry, Do(env, c, op).overlay, ops + [op])
  {
    hide AfterSet; hide LastSet; hide HoldsGroup; hide RevivedAll;
    match op {
      case Set(name, value) =>
        forall g | g in env.registry.deprecated {
          SetHoldsGroup(env, c, ops, name, value, g);
        }
      case GetRaw(name) =>
        DeprecationCoherent(env, c, Trim(name));
        NothingToRevive(env, c.overlay, NamesFor(env, Trim(name)), ops);
        FilledCoherent(env, AfterDeprecation(env, c, Trim(name)));
        forall g | g in env.registry.deprecated { LastSetStep(env.registry, ops, op, g); }
      case _ =>
        forall g | g in env.registry.deprecated { LastSetStep(env.registry, ops, op, g); }
    }
  }

  lemma NothingHeld(reg: Registry)
    ensures HoldsGroups(reg, map[], [])
  {
  }

  lemma {:induction false} RunsHoldGroups(env: Setup, ops: seq<Op>)
    requires Grouped(env.registry)
    ensures HoldsGroups(env.registry, DoAll(env, INITIAL, ops).overlay, ops)
  {
    hide Do; hide HoldsGroups;
    if ops == [] {
      NothingHeld(env.registry);
    } else {
      var front, op := ops[..|ops| - 1], ops[|ops| - 1];
      RunsHoldGroups(env, front);
      RunsCoherent(env, front);
      assert front + [op] == ops;
      DoHoldsGroups(env, DoAll(env, INITIAL, front), front, op);
    }
  }

  /**
   * Any name of a group, deprecated or replacing, answers with the value that the group
   * was last set to, whichever of its names was used, whatever was loaded or reloaded since.
   */
  lemma AliasesAgree(env: Setup, ops: seq<Op>, name: string, g: string, value: string)
    requires Grouped(env.registry) && GroupOf(env.registry, Trim(name)) == Some(g)
    requires LastSet(env.registry, ops, g) == Some(value)
    ensures GetRawOf(env, DoAll(env, INITIAL, ops), name) == Some(value)
  {
    var c := DoAll(env, INITIAL, ops);
    RunsCoherent(env, ops);
    RunsHoldGroups(env, ops);
    assert HoldsGroup(env.registry, c.overlay, g, Some(value));
    DeprecationCoherent(env, c, Trim(name));
    NothingToRevive(env, c.overlay, NamesFor(env, Trim(name)), ops);
    FilledCoherent(env, AfterDeprecation(env, c, Trim(name)));
  }
}
