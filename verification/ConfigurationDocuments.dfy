/** What a list of resources says about a key, by positions in the documents. */
module ConfigurationDocuments {
  import opened Configuration
  import opened Deprecation
  import opened Text
  import opened Wrappers

  // ----- positions -----

  /** The number of an element among its siblings, from the outermost one inwards. */
  type Place = seq<nat>

  /** The resources as one document: each of them a section, an absent one an empty section. */
  function Document(resources: seq<Resource>): (items: seq<Item>)
    ensures |items| == |resources|
  {
    seq(|resources|, r requires 0 <= r < |resources| =>
      Section(if resources[r].Missing? then [] else resources[r].items))
  }

  function ItemAt(items: seq<Item>, p: Place): Option<Item>
    decreases |p|
  {
    if p == [] || p[0] >= |items| then None
    else if |p| == 1 then Some(items[p[0]])
    else if items[p[0]].Section? then ItemAt(items[p[0]].items, p[1..])
    else None
  }

  /** The place comes before the other one in document order. */
  predicate IsBefore(p: Place, q: Place) {
    p != [] && q != [] && (p[0] < q[0] || (p[0] == q[0] && IsBefore(p[1..], q[1..])))
  }

  /** There is a property at the place that names the key, itself or through a deprecated name. */
  predicate NamesKey(reg: Registry, items: seq<Item>, p: Place, key: string) {
    var item := ItemAt(items, p);
    item.Some? && IsPropertyOf(reg, item.value, key)
  }

  predicate IsPropertyOf(reg: Registry, item: Item, key: string) {
    && item.Property? && item.name.Some?
    && (var name := Trim(item.name.value);
        if name in reg.deprecated then key in reg.deprecated[name].newKeys else key == name)
  }

  predicate IsFinalAt(reg: Registry, items: seq<Item>, p: Place, key: string) {
    NamesKey(reg, items, p, key) && ItemAt(items, p).value.isFinal
  }

  /** A property for the key with a value, or without one where this is allowed. */
  predicate GivesValueAt(reg: Registry, allowNull: bool, items: seq<Item>, p: Place, key: string) {
    NamesKey(reg, items, p, key) && (ItemAt(items, p).value.value.Some? || allowNull)
  }

  ghost predicate BehindFinal(reg: Registry, items: seq<Item>, p: Place, key: string) {
    exists q :: IsFinalAt(reg, items, q, key) && IsBefore(q, p)
  }

  /** The last property that gives the key a value without being behind a final one of the key. */
  ghost predicate DecidesAt(reg: Registry, allowNull: bool, items: seq<Item>, p: Place, key: string) {
    && GivesValueAt(reg, allowNull, items, p, key) && !BehindFinal(reg, items, p, key)
    && forall q | GivesValueAt(reg, allowNull, items, q, key) && IsBefore(p, q) :: BehindFinal(reg, items, q, key)
  }

  function TextOf(value: Option<string>): string {
    if value.Some? then value.value else "testingforemptydefaultvalue"
  }

  // ----- a document as the list of its properties -----

  type Placed = (Place, Item)

  function Below(i: nat, ps: seq<Placed>): (r: seq<Placed>)
    ensures |r| == |ps| && forall k | 0 <= k < |r| :: r[k] == ([i] + ps[k].0, ps[k].1)
  {
    seq(|ps|, k requires 0 <= k < |ps| => ([i] + ps[k].0, ps[k].1))
  }

  /** The properties from element `i` on, with their places. */
  function Properties(items: seq<Item>, i: nat): seq<Placed>
    requires i <= |items|
    decreases items, |items| - i, 1
  {
    if i == |items| then [] else Here(items, i) + Properties(items, i + 1)
  }

  /** The properties of one element. */
  function Here(items: seq<Item>, i: nat): seq<Placed>
    requires i < |items|
    decreases items, |items| - i, 0
  {
    match items[i]
    case Property(_, _, _) => [([i], items[i])]
    case Section(inner) => Below(i, Properties(inner, 0))
  }

  /** The listed properties are those of the document. */
  lemma {:induction false} ListedIsThere(items: seq<Item>, i: nat, k: nat)
    requires i <= |items| && k < |Properties(items, i)|
    ensures var (p, item) := Properties(items, i)[k];
            p != [] && p[0] >= i && ItemAt(items, p) == Some(item) && item.Property?
    decreases items, |items| - i
  {
    var here := Here(items, i);
    if k < |here| {
      if items[i].Section? {
        ListedIsThere(items[i].items, 0, k);
        var p := Properties(items[i].items, 0)[k].0;
        assert ([i] + p)[1..] == p;
      }
    } else {
      ListedIsThere(items, i + 1, k - |here|);
    }
  }

  lemma {:induction false} ThereIsListed(items: seq<Item>, i: nat, p: Place) returns (k: nat)
    requires p != [] && i <= p[0] && ItemAt(items, p).Some? && ItemAt(items, p).value.Property?
    ensures i <= |items| && k < |Properties(items, i)| && Properties(items, i)[k] == (p, ItemAt(items, p).value)
    decreases items, |items| - i, 1
  {
    hide Here, Below;
    var here, rest := Here(items, i), Properties(items, i + 1);
    if p[0] > i {
      var j := ThereIsListed(items, i + 1, p);
      k := |here| + j;
      assert (here + rest)[k] == rest[j];
    } else {
      k := HereIsListed(items, i, p);
      assert (here + rest)[k] == here[k];
    }
  }

  lemma {:induction false} HereIsListed(items: seq<Item>, i: nat, p: Place) returns (k: nat)
    requires p != [] && i == p[0] && ItemAt(items, p).Some? && ItemAt(items, p).value.Property?
    ensures i < |items| && k < |Here(items, i)| && Here(items, i)[k] == (p, ItemAt(items, p).value)
    decreases items, |items| - i, 0
  {
    hide Properties;
    if |p| == 1 {
      k := 0;
      assert p == [i];
    } else {
      var inner := items[i].items;
      k := ThereIsListed(inner, 0, p[1..]);
      assert p == [i] + p[1..];
      assert Here(items, i) == Below(i, Properties(inner, 0));
    }
  }

  /** They are listed in document order. */
  lemma {:induction false} ListedInOrder(items: seq<Item>, i: nat, j: nat, k: nat)
    requires i <= |items| && j < k < |Properties(items, i)|
    ensures IsBefore(Properties(items, i)[j].0, Properties(items, i)[k].0)
    decreases items, |items| - i
  {
    var here := Here(items, i);
    if k < |here| {
      ListedInOrder(items[i].items, 0, j, k);
      var ps := Properties(items[i].items, 0);
      assert ([i] + ps[j].0)[1..] == ps[j].0 && ([i] + ps[k].0)[1..] == ps[k].0;
    } else if j < |here| {
      ListedIsThere(items, i + 1, k - |here|);
    } else {
      ListedInOrder(items, i + 1, j - |here|, k - |here|);
    }
  }

  lemma {:induction false} BeforeIsStrict(p: Place, q: Place)
    ensures !(IsBefore(p, q) && IsBefore(q, p))
  {
    if p != [] && q != [] {
      BeforeIsStrict(p[1..], q[1..]);
    }
  }

  lemma OrderOfListed(items: seq<Item>, j: nat, k: nat)
    requires j < |Properties(items, 0)| && k < |Properties(items, 0)|
    ensures IsBefore(Properties(items, 0)[j].0, Properties(items, 0)[k].0) <==> j < k
  {
    if j < k {
      ListedInOrder(items, 0, j, k);
    } else if k < j {
      ListedInOrder(items, 0, k, j);
    }
    BeforeIsStrict(Properties(items, 0)[j].0, Properties(items, 0)[k].0);
  }

  // ----- loading the properties of a list -----

  function EntriesFor(reg: Registry, ps: seq<Placed>): seq<Entry>
  {
    if ps == [] then [] else EntriesFor(reg, ps[..|ps| - 1]) + EntriesOf(reg, ps[|ps| - 1].1)
  }

  lemma {:induction false} EntriesForJoin(reg: Registry, a: seq<Placed>, b: seq<Placed>)
    ensures EntriesFor(reg, a + b) == EntriesFor(reg, a) + EntriesFor(reg, b)
  {
    if b == [] {
      assert a + b == a;
    } else {
      assert (a + b)[..|a + b| - 1] == a + b[..|b| - 1];
      EntriesForJoin(reg, a, b[..|b| - 1]);
    }
  }

  lemma {:induction false} EntriesForBelow(reg: Registry, i: nat, ps: seq<Placed>)
    ensures EntriesFor(reg, Below(i, ps)) == EntriesFor(reg, ps)
  {
    if ps != [] {
      assert Below(i, ps)[..|ps| - 1] == Below(i, ps[..|ps| - 1]);
      EntriesForBelow(reg, i, ps[..|ps| - 1]);
    }
  }

  /** The entries of a document are those of its properties, in their order. */
  lemma {:induction false} EntriesAreListed(reg: Registry, items: seq<Item>, i: nat)
    requires i <= |items|
    ensures EntriesOfAll(reg, items[i..]) == EntriesFor(reg, Properties(items, i))
    decreases items, |items| - i
  {
    if i < |items| {
        EntriesAreListed(reg, items, i + 1);
      assert items[i..][0] == items[i] && items[i..][1..] == items[i + 1..];
      EntriesForJoin(reg, Here(items, i), Properties(items, i + 1));
      match items[i] {
        case Property(_, _, _) =>
          assert [([i], items[i])][..0] == [];
          assert EntriesFor(reg, [([i], items[i])][..0]) == [];
        case Section(inner) =>
          EntriesAreListed(reg, inner, 0);
          assert inner[0..] == inner;
          EntriesForBelow(reg, i, Properties(inner, 0));
      }
    }
  }

  lemma {:induction false} EntriesOfDocument(reg: Registry, resources: seq<Resource>)
    ensures EntriesOfResources(reg, resources) == EntriesOfAll(reg, Document(resources))
  {
    if resources != [] {
      var n := |resources| - 1;
      var items := Document(resources);
      EntriesOfDocument(reg, resources[..n]);
      assert items == Document(resources[..n]) + [items[n]];
      EntriesOfAllJoin(reg, Document(resources[..n]), [items[n]]);
      assert [items[n]][1..] == [];
      assert EntriesOfAll(reg, [items[n]]) == EntriesOf(reg, items[n]) + [];
    }
  }

  lemma {:induction false} EntriesOfAllJoin(reg: Registry, a: seq<Item>, b: seq<Item>)
    ensures EntriesOfAll(reg, a + b) == EntriesOfAll(reg, a) + EntriesOfAll(reg, b)
  {
    if a == [] {
      assert a + b == b;
    } else {
      assert (a + b)[1..] == a[1..] + b;
      EntriesOfAllJoin(reg, a[1..], b);
    }
  }

  lemma ForKeysStep(allowNull: bool, l: Loaded, keys: seq<string>, value: Option<string>, isFinal: bool)
    requires keys != []
    ensures var n := |keys| - 1;
            LoadEntries(allowNull, l, ForKeys(keys, value, isFinal)) ==
            LoadEntry(allowNull, LoadEntries(allowNull, l, ForKeys(keys[..n], value, isFinal)),
                      Entry(keys[n], value, isFinal))
  {
    hide LoadEntries, LoadEntry;
    var n := |keys| - 1;
    var e := Entry(keys[n], value, isFinal);
    LoadAppend(allowNull, l, ForKeys(keys[..n], value, isFinal), [e]);
    LoadOne(allowNull, LoadEntries(allowNull, l, ForKeys(keys[..n], value, isFinal)), e);
  }

  lemma NoKeys(allowNull: bool, l: Loaded, value: Option<string>, isFinal: bool)
    ensures LoadEntries(allowNull, l, ForKeys([], value, isFinal)) == l
  {
  }

  /** One property, for one key. */
  lemma {:induction false} ForKeysAt(allowNull: bool, l: Loaded, keys: seq<string>, value: Option<string>,
                                     isFinal: bool, key: string)
    ensures var now := LoadEntries(allowNull, l, ForKeys(keys, value, isFinal));
            && (key in now.finals <==> key in l.finals || (key in keys && isFinal))
            && (if key in keys && key !in l.finals && (value.Some? || allowNull)
                then key in now.props && now.props[key] == TextOf(value)
                else (key in now.props <==> key in l.props) && (key in l.props ==> now.props[key] == l.props[key]))
  {
    hide LoadEntries, ForKeys;
    if keys == [] {
      NoKeys(allowNull, l, value, isFinal);
    } else {
      var n := |keys| - 1;
      assert keys == keys[..n] + [keys[n]];
      ForKeysAt(allowNull, l, keys[..n], value, isFinal, key);
      ForKeysStep(allowNull, l, keys, value, isFinal);
    }
  }

  /** What loading one more property does to a key. */
  predicate AddsProperty(reg: Registry, allowNull: bool, l: Loaded, item: Item, now: Loaded, key: string)
    requires item.Property?
  {
    && (key in now.finals <==> key in l.finals || (IsPropertyOf(reg, item, key) && item.isFinal))
    && (if IsPropertyOf(reg, item, key) && key !in l.finals && (item.value.Some? || allowNull)
        then key in now.props && now.props[key] == TextOf(item.value)
        else (key in now.props <==> key in l.props) && (key in l.props ==> now.props[key] == l.props[key]))
  }

  lemma PropertyAt(reg: Registry, allowNull: bool, l: Loaded, item: Item, key: string)
    requires item.Property?
    ensures AddsProperty(reg, allowNull, l, item, LoadEntries(allowNull, l, EntriesOf(reg, item)), key)
  {
    hide Trim;
    if item.name.Some? {
      var name := Trim(item.name.value);
      if name in reg.deprecated {
        ForKeysAt(allowNull, l, reg.deprecated[name].newKeys, item.value, item.isFinal, key);
      } else {
        LoadOne(allowNull, l, Entry(name, item.value, item.isFinal));
      }
    }
  }

  /** Property `j` of the list is a final one of the key. */
  predicate IsFinalOf(reg: Registry, ps: seq<Placed>, j: nat, key: string) {
    j < |ps| && IsPropertyOf(reg, ps[j].1, key) && ps[j].1.isFinal
  }

  ghost predicate FinalBelow(reg: Registry, ps: seq<Placed>, n: nat, key: string) {
    exists j :: 0 <= j < n && IsFinalOf(reg, ps, j, key)
  }

  predicate GivesValue(reg: Registry, allowNull: bool, ps: seq<Placed>, j: nat, key: string) {
    j < |ps| && IsPropertyOf(reg, ps[j].1, key) && (ps[j].1.value.Some? || allowNull)
  }

  ghost predicate Decides(reg: Registry, allowNull: bool, ps: seq<Placed>, j: nat, key: string) {
    && GivesValue(reg, allowNull, ps, j, key) && !FinalBelow(reg, ps, j, key)
    && forall k | j < k < |ps| && GivesValue(reg, allowNull, ps, k, key) :: FinalBelow(reg, ps, k, key)
  }

  ghost predicate LoadsAs(reg: Registry, allowNull: bool, ps: seq<Placed>, l: Loaded, key: string) {
    && (key in l.finals <==> FinalBelow(reg, ps, |ps|, key))
    && (key in l.props <==> exists j: nat :: Decides(reg, allowNull, ps, j, key))
    && (forall j: nat | Decides(reg, allowNull, ps, j, key) :: key in l.props && l.props[key] == TextOf(ps[j].1.value))
  }

  lemma FinalInFront(reg: Registry, ps: seq<Placed>, n: nat, m: nat, key: string)
    requires n <= m <= |ps|
    ensures FinalBelow(reg, ps[..m], n, key) <==> FinalBelow(reg, ps, n, key)
  {
    assert forall j | 0 <= j < n :: IsFinalOf(reg, ps[..m], j, key) <==> IsFinalOf(reg, ps, j, key);
  }

  lemma FinalStep(reg: Registry, ps: seq<Placed>, n: nat, key: string)
    requires n < |ps|
    ensures FinalBelow(reg, ps, n + 1, key) <==> FinalBelow(reg, ps, n, key) || IsFinalOf(reg, ps, n, key)
  {
    if IsFinalOf(reg, ps, n, key) {
      assert FinalBelow(reg, ps, n + 1, key);
    }
  }

  /** One more property either decides, or changes nothing for the key. */
  lemma DecidesStep(reg: Registry, allowNull: bool, ps: seq<Placed>, key: string)
    requires ps != []
    ensures var n := |ps| - 1;
            if GivesValue(reg, allowNull, ps, n, key) && !FinalBelow(reg, ps, n, key)
            then forall j: nat :: Decides(reg, allowNull, ps, j, key) <==> j == n
            else forall j: nat :: Decides(reg, allowNull, ps, j, key) <==> Decides(reg, allowNull, ps[..n], j, key)
  {
    hide FinalBelow, IsPropertyOf;
    var n := |ps| - 1;
    forall j | 0 <= j <= n
      ensures FinalBelow(reg, ps[..n], j, key) <==> FinalBelow(reg, ps, j, key)
    {
      FinalInFront(reg, ps, j, n, key);
    }
    forall j: nat
      ensures j < n ==> (GivesValue(reg, allowNull, ps[..n], j, key) <==> GivesValue(reg, allowNull, ps, j, key))
    {
    }
    if GivesValue(reg, allowNull, ps, n, key) && !FinalBelow(reg, ps, n, key) {
      assert forall j: nat | j < n :: !Decides(reg, allowNull, ps, j, key);
    }
  }

  lemma LoadsStep(reg: Registry, allowNull: bool, ps: seq<Placed>, l: Loaded, now: Loaded, key: string)
    requires ps != [] && ps[|ps| - 1].1.Property? && LoadsAs(reg, allowNull, ps[..|ps| - 1], l, key)
    requires AddsProperty(reg, allowNull, l, ps[|ps| - 1].1, now, key)
    ensures LoadsAs(reg, allowNull, ps, now, key)
  {
    hide IsPropertyOf, FinalBelow, Decides;
    var n := |ps| - 1;
    var front := ps[..n];
    FinalInFront(reg, ps, n, n, key);
    FinalStep(reg, ps, n, key);
    DecidesStep(reg, allowNull, ps, key);
    forall j: nat | Decides(reg, allowNull, front, j, key)
      ensures j < n && front[j] == ps[j]
    {
      DecidesInside(reg, allowNull, front, j, key);
    }
    if GivesValue(reg, allowNull, ps, n, key) && !FinalBelow(reg, ps, n, key) {
      assert Decides(reg, allowNull, ps, n, key);
    } else {
      assert forall j: nat :: Decides(reg, allowNull, ps, j, key) <==> Decides(reg, allowNull, front, j, key);
    }
  }

  lemma {:induction false} ListLoadsAs(reg: Registry, allowNull: bool, ps: seq<Placed>, key: string)
    requires forall k | 0 <= k < |ps| :: ps[k].1.Property?
    ensures LoadsAs(reg, allowNull, ps, LoadEntries(allowNull, NOTHING_LOADED, EntriesFor(reg, ps)), key)
  {
    if ps == [] {
      assert EntriesFor(reg, ps) == [];
    } else {
      var n := |ps| - 1;
      var front, item := ps[..n], ps[n].1;
      var l := LoadEntries(allowNull, NOTHING_LOADED, EntriesFor(reg, front));
      ListLoadsAs(reg, allowNull, front, key);
      LoadAppend(allowNull, NOTHING_LOADED, EntriesFor(reg, front), EntriesOf(reg, item));
      hide LoadEntries, LoadsAs, AddsProperty;
      PropertyAt(reg, allowNull, l, item, key);
      LoadsStep(reg, allowNull, ps, l, LoadEntries(allowNull, l, EntriesOf(reg, item)), key);
    }
  }

  lemma DecidesInside(reg: Registry, allowNull: bool, ps: seq<Placed>, j: nat, key: string)
    requires Decides(reg, allowNull, ps, j, key)
    ensures j < |ps|
  {
  }

  // ----- from the list back to the document -----

  lemma ListedFinal(reg: Registry, items: seq<Item>, key: string, n: nat)
    requires n < |Properties(items, 0)|
    ensures FinalBelow(reg, Properties(items, 0), n, key) <==>
            BehindFinal(reg, items, Properties(items, 0)[n].0, key)
  {
    hide IsPropertyOf, Properties, ItemAt, IsBefore;
    var ps := Properties(items, 0);
    if FinalBelow(reg, ps, n, key) {
      var j: nat :| j < n && IsFinalOf(reg, ps, j, key);
      ListedIsThere(items, 0, j);
      OrderOfListed(items, j, n);
      assert IsFinalAt(reg, items, ps[j].0, key);
    }
    if BehindFinal(reg, items, ps[n].0, key) {
      var q :| IsFinalAt(reg, items, q, key) && IsBefore(q, ps[n].0);
      var j := PropertyIsListed(reg, items, q, key);
      OrderOfListed(items, j, n);
      assert IsFinalOf(reg, ps, j, key);
    }
  }

  lemma PropertyIsListed(reg: Registry, items: seq<Item>, p: Place, key: string) returns (k: nat)
    requires NamesKey(reg, items, p, key)
    ensures k < |Properties(items, 0)| && Properties(items, 0)[k] == (p, ItemAt(items, p).value)
  {
    hide Properties;
    k := ThereIsListed(items, 0, p);
  }

  lemma ListedDecides(reg: Registry, allowNull: bool, items: seq<Item>, key: string, n: nat)
    requires n < |Properties(items, 0)|
    ensures Decides(reg, allowNull, Properties(items, 0), n, key) <==>
            DecidesAt(reg, allowNull, items, Properties(items, 0)[n].0, key)
  {
    hide IsPropertyOf, Properties, ItemAt, IsBefore, FinalBelow, BehindFinal;
    var ps := Properties(items, 0);
    var p := ps[n].0;
    ListedIsThere(items, 0, n);
    ListedFinal(reg, items, key, n);
    assert GivesValue(reg, allowNull, ps, n, key) <==> GivesValueAt(reg, allowNull, items, p, key);
    if Decides(reg, allowNull, ps, n, key) {
      forall q | GivesValueAt(reg, allowNull, items, q, key) && IsBefore(p, q)
        ensures BehindFinal(reg, items, q, key)
      {
        var k := PropertyIsListed(reg, items, q, key);
        OrderOfListed(items, n, k);
        ListedFinal(reg, items, key, k);
        assert GivesValue(reg, allowNull, ps, k, key);
      }
    }
    if DecidesAt(reg, allowNull, items, p, key) {
      forall k | n < k < |ps| && GivesValue(reg, allowNull, ps, k, key)
        ensures FinalBelow(reg, ps, k, key)
      {
        ListedIsThere(items, 0, k);
        OrderOfListed(items, n, k);
        ListedFinal(reg, items, key, k);
        assert GivesValueAt(reg, allowNull, items, ps[k].0, key);
      }
    }
  }

  // ----- what loading means -----

  /**
   * After loading any resources, a key holds the value of the last property in document order that gives it
   * one without being behind a final property of the key, and it is final exactly if some property says so.
   * A property counts where it stands, also in a nested section, for its trimmed name or, if that is
   * deprecated, for each key that replaces it.
   */
  lemma DocumentDecides(reg: Registry, allowNull: bool, resources: seq<Resource>, key: string)
    ensures var l := LoadEntries(allowNull, NOTHING_LOADED, EntriesOfResources(reg, resources));
            var items := Document(resources);
            && (key in l.finals <==> exists p :: IsFinalAt(reg, items, p, key))
            && (key in l.props <==> exists p :: DecidesAt(reg, allowNull, items, p, key))
            && (forall p | DecidesAt(reg, allowNull, items, p, key) ::
                  key in l.props && l.props[key] == TextOf(ItemAt(items, p).value.value))
  {
    hide LoadEntries, EntriesOfResources, EntriesOfAll, EntriesFor, IsPropertyOf, Properties, ItemAt, FinalBelow,
         Decides, Document;
    var items := Document(resources);
    var ps := Properties(items, 0);
    EntriesOfDocument(reg, resources);
    EntriesAreListed(reg, items, 0);
    assert items[0..] == items;
    forall k | 0 <= k < |ps|
      ensures ps[k].1.Property? && ItemAt(items, ps[k].0) == Some(ps[k].1)
    {
      ListedIsThere(items, 0, k);
    }
    ListLoadsAs(reg, allowNull, ps, key);
    FinalsOfList(reg, items, key);
    forall p | DecidesAt(reg, allowNull, items, p, key)
      ensures exists k: nat :: k < |ps| && Decides(reg, allowNull, ps, k, key) && ps[k] == (p, ItemAt(items, p).value)
    {
      var k := PropertyIsListed(reg, items, p, key);
      ListedDecides(reg, allowNull, items, key, k);
    }
    forall k: nat | Decides(reg, allowNull, ps, k, key)
      ensures k < |ps| && DecidesAt(reg, allowNull, items, ps[k].0, key)
    {
      DecidesInside(reg, allowNull, ps, k, key);
      ListedDecides(reg, allowNull, items, key, k);
    }
  }

  lemma FinalsOfList(reg: Registry, items: seq<Item>, key: string)
    ensures FinalBelow(reg, Properties(items, 0), |Properties(items, 0)|, key) <==>
            exists p :: IsFinalAt(reg, items, p, key)
  {
    hide IsPropertyOf, Properties, ItemAt;
    var ps := Properties(items, 0);
    if FinalBelow(reg, ps, |ps|, key) {
      var j: nat :| j < |ps| && IsFinalOf(reg, ps, j, key);
      ListedIsThere(items, 0, j);
      assert IsFinalAt(reg, items, ps[j].0, key);
    }
    if p :| IsFinalAt(reg, items, p, key) {
      var j := PropertyIsListed(reg, items, p, key);
      assert IsFinalOf(reg, ps, j, key);
    }
  }
}
