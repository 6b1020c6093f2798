/** Grouping unit tests by the exact set of parameters that they cover. */
module SplitTests {
  import opened Wrappers
  import EventLog

  /** An item of `associated_test_map`. */
  datatype Item = Item(param: string, tests: seq<string>)

  function ParamSet(items: seq<Item>): set<string> {
    set it | it in items :: it.param
  }

  /** The parameters to which a test is mapped. */
  function ParamsOf(items: seq<Item>, test: string): set<string> {
    set it | it in items && test in it.tests :: it.param
  }

  predicate IsTest(items: seq<Item>, test: string) {
    exists it :: it in items && test in it.tests
  }

  /** A dictionary as its keys in the order of insertion and its values. */
  datatype Dict<V> = Dict(keys: seq<string>, values: map<string, V>)
  {
    ghost predicate Valid() {
      && (forall k :: k in keys <==> k in values)
      && (forall i, j | 0 <= i < j < |keys| :: keys[i] != keys[j])
    }

    function Put(key: string, value: V): Dict<V> {
      Dict(if key in values then keys else keys + [key], values[key := value])
    }
  }

  /** The dictionary of sets with one more element under a key. */
  function Added(d: Dict<set<string>>, key: string, element: string): (r: Dict<set<string>>)
    ensures d.Valid() ==> r.Valid()
  {
    d.Put(key, (if key in d.values then d.values[key] else {}) + {element})
  }

  method AddTo(d: Dict<set<string>>, key: string, element: string) returns (r: Dict<set<string>>)
    ensures r == Added(d, key, element)
  {
    r := d;
    if key !in r.values {
      r := r.Put(key, {});
    }
    r := r.Put(key, r.values[key] + {element});
    assert r.values == Added(d, key, element).values;
  }

  /** The reversal of the first items, and of the first tests of one more. */
  ghost predicate IsReversed(r: Dict<set<string>>, items: seq<Item>) {
    && r.Valid()
    && (forall t :: t in r.values <==> IsTest(items, t))
    && (forall t | t in r.values :: r.values[t] == ParamsOf(items, t))
  }

  method ReverseMap(items: seq<Item>) returns (r: Dict<set<string>>)
    ensures IsReversed(r, items)
  {
    hide IsReversed, ParamsOf, IsTest;
    r := Dict([], map[]);
    NothingReversed();
    var i := 0;
    while i < |items|
      invariant 0 <= i <= |items|
      invariant IsReversed(r, items[..i])
    {
      var param, tests := items[i].param, items[i].tests;
      var j := 0;
      NoMoreTests(r, items[..i], param);
      assert tests[..0] == [];
      while j < |tests|
        invariant 0 <= j <= |tests|
        invariant IsReversed(r, items[..i] + [Item(param, tests[..j])])
      {
        OneMoreTest(r, items[..i], param, tests, j);
        r := AddTo(r, tests[j], param);
        j := j + 1;
      }
      assert tests[..j] == tests;
      assert items[..i + 1] == items[..i] + [Item(param, tests)];
      i := i + 1;
    }
    assert items[..i] == items;
  }

  lemma NothingReversed()
    ensures IsReversed(Dict([], map[]), [])
  {
  }

  lemma NoMoreTests(r: Dict<set<string>>, items: seq<Item>, param: string)
    requires IsReversed(r, items)
    ensures IsReversed(r, items + [Item(param, [])])
  {
    var more := items + [Item(param, [])];
    forall t
      ensures (IsTest(more, t) <==> IsTest(items, t)) && ParamsOf(more, t) == ParamsOf(items, t)
    {
      assert forall it :: it in more <==> it in items || it == Item(param, []);
    }
  }

  lemma TestsGrow(items: seq<Item>, param: string, tests: seq<string>, j: nat, t: string)
    requires j < |tests|
    ensures var before, after := items + [Item(param, tests[..j])], items + [Item(param, tests[..j + 1])];
            (IsTest(after, t) <==> IsTest(before, t) || t == tests[j])
            && ParamsOf(after, t) == ParamsOf(before, t) + (if t == tests[j] then {param} else {})
  {
    var b, a := Item(param, tests[..j]), Item(param, tests[..j + 1]);
    var before, after := items + [b], items + [a];
    assert tests[..j + 1] == tests[..j] + [tests[j]];
    assert b in before && a in after;
    assert forall it :: it in before <==> it in items || it == b;
    assert forall it :: it in after <==> it in items || it == a;
  }

  lemma OneMoreTest(r: Dict<set<string>>, items: seq<Item>, param: string, tests: seq<string>, j: nat)
    requires j < |tests| && IsReversed(r, items + [Item(param, tests[..j])])
    ensures IsReversed(Added(r, tests[j], param), items + [Item(param, tests[..j + 1])])
  {
    hide IsTest, ParamsOf;
    var before, after := items + [Item(param, tests[..j])], items + [Item(param, tests[..j + 1])];
    forall t
      ensures IsTest(after, t) <==> IsTest(before, t) || t == tests[j]
      ensures ParamsOf(after, t) == ParamsOf(before, t) + (if t == tests[j] then {param} else {})
    {
      TestsGrow(items, param, tests, j, t);
    }
    if !IsTest(before, tests[j]) {
      NoParams(before, tests[j]);
    }
  }

  lemma NoParams(items: seq<Item>, t: string)
    requires !IsTest(items, t)
    ensures ParamsOf(items, t) == {}
  {
  }

  // ----- signatures -----

  function Encoded(params: seq<string>, tested: set<string>): (s: string)
    ensures |s| == |params|
  {
    seq(|params|, i requires 0 <= i < |params| => if params[i] in tested then '1' else '0')
  }

  function Decoded(params: seq<string>, signature: string): set<string>
    requires |signature| == |params|
  {
    set i | 0 <= i < |params| && signature[i] == '1' :: params[i]
  }

  method EncodeSignature(params: seq<string>, tested: set<string>) returns (signature: string)
    ensures signature == Encoded(params, tested)
    ensures |signature| == |params|
    ensures forall i | 0 <= i < |params| :: signature[i] == if params[i] in tested then '1' else '0'
  {
    signature := "";
    var i := 0;
    while i < |params|
      invariant 0 <= i <= |params|
      invariant signature == Encoded(params, tested)[..i]
    {
      signature := if params[i] in tested then signature + "1" else signature + "0";
      i := i + 1;
    }
  }

  /** On subsets of the parameters, decoding undoes encoding, */
  lemma DecodeOfEncode(params: seq<string>, tested: set<string>)
    requires forall p | p in tested :: p in params
    ensures Decoded(params, Encoded(params, tested)) == tested
  {
    var signature := Encoded(params, tested);
    forall p | p in tested
      ensures p in Decoded(params, signature)
    {
      var i :| 0 <= i < |params| && params[i] == p;
      assert signature[i] == '1';
    }
  }

  /** and on signatures, encoding undoes decoding. */
  lemma EncodeOfDecode(params: seq<string>, signature: string)
    requires |signature| == |params| && forall c | c in signature :: c == '0' || c == '1'
    requires forall i, j | 0 <= i < j < |params| :: params[i] != params[j]
    ensures Encoded(params, Decoded(params, signature)) == signature
  {
    forall i | 0 <= i < |params|
      ensures Encoded(params, Decoded(params, signature))[i] == signature[i]
    {
      assert signature[i] in signature;
      assert params[i] in Decoded(params, signature) <==> signature[i] == '1';
    }
  }

  // ----- groups -----

  /** `sorted(list(associated_test_map.keys()))` */
  function SortedParams(items: seq<Item>): seq<string> {
    if items == [] then [] else EventLog.Insert(SortedParams(items[..|items| - 1]), items[|items| - 1].param)
  }

  lemma {:induction false} SortedHolds(items: seq<Item>)
    ensures EventLog.Ascending(SortedParams(items))
    ensures forall p :: p in SortedParams(items) <==> p in ParamSet(items)
  {
    if items != [] {
      var n := |items| - 1;
      SortedHolds(items[..n]);
      EventLog.InsertKeepsOrder(SortedParams(items[..n]), items[n].param);
      EventLog.InsertAdds(SortedParams(items[..n]), items[n].param);
      assert items == items[..n] + [items[n]];
      assert forall p :: p in SortedParams(items) <==> p in EventLog.Elements(SortedParams(items));
      assert forall p :: p in SortedParams(items[..n]) <==> p in EventLog.Elements(SortedParams(items[..n]));
    }
  }

  datatype Group = Group(params: set<string>, tests: set<string>)

  /** Each of the tests is under its signature, and nothing else is there. */
  ghost predicate IsGrouped(groupMap: Dict<set<string>>, tests: seq<string>, sigs: map<string, string>) {
    && groupMap.Valid()
    && (forall t | t in tests :: t in sigs)
    && (forall sig | sig in groupMap.values :: groupMap.values[sig] != {})
    && (forall sig, t | sig in groupMap.values && t in groupMap.values[sig] :: t in tests && sigs[t] == sig)
    && (forall t | t in tests :: sigs[t] in groupMap.values && t in groupMap.values[sigs[t]])
  }

  lemma GroupingStep(groupMap: Dict<set<string>>, tests: seq<string>, sigs: map<string, string>, t: string)
    requires IsGrouped(groupMap, tests, sigs) && t in sigs
    ensures IsGrouped(Added(groupMap, sigs[t], t), tests + [t], sigs)
  {
  }

  /** The signature of each test. */
  function Signatures(params: seq<string>, reversed: map<string, set<string>>): map<string, string> {
    map t | t in reversed :: Encoded(params, reversed[t])
  }

  /** A partition of the tests by the parameters to which they are mapped. */
  ghost predicate IsSplit(groups: seq<Group>, items: seq<Item>) {
    && (forall i | 0 <= i < |groups| :: groups[i].tests != {})
    && (forall i, t | 0 <= i < |groups| && t in groups[i].tests ::
          IsTest(items, t) && ParamsOf(items, t) == groups[i].params)
    && (forall t | IsTest(items, t) :: exists i :: 0 <= i < |groups| && t in groups[i].tests)
    && (forall i, j | 0 <= i < j < |groups| ::
          groups[i].params != groups[j].params && groups[i].tests !! groups[j].tests)
  }

  function GroupsOf(params: seq<string>, groupMap: Dict<set<string>>): (groups: seq<Group>)
    requires forall sig | sig in groupMap.keys :: |sig| == |params| && sig in groupMap.values
    ensures |groups| == |groupMap.keys|
  {
    seq(|groupMap.keys|, i requires 0 <= i < |groupMap.keys| =>
      assert groupMap.keys[i] in groupMap.keys;
      Group(Decoded(params, groupMap.keys[i]), groupMap.values[groupMap.keys[i]]))
  }

  method SplitTests(items: seq<Item>) returns (groups: seq<Group>)
    ensures IsSplit(groups, items)
  {
    hide IsReversed, IsGrouped, IsSplit, SortedParams, Signatures, Encoded, Decoded;
    var reversed := ReverseMap(items);
    var params := SortedParams(items);
    ghost var sigs := Signatures(params, reversed.values);
    ReversedIsValid(reversed, items);
    var groupMap: Dict<set<string>> := Dict([], map[]);
    NothingGrouped(sigs);
    var i := 0;
    while i < |reversed.keys|
      invariant 0 <= i <= |reversed.keys|
      invariant IsGrouped(groupMap, reversed.keys[..i], sigs)
    {
      var test := reversed.keys[i];
      var signature := EncodeSignature(params, reversed.values[test]);
      SignatureOf(params, reversed.values, test);
      GroupingStep(groupMap, reversed.keys[..i], sigs, test);
      groupMap := AddTo(groupMap, signature, test);
      assert reversed.keys[..i + 1] == reversed.keys[..i] + [test];
      i := i + 1;
    }
    assert reversed.keys[..i] == reversed.keys;
    KeysAreSignatures(groupMap, reversed.keys, params, reversed.values);
    groups := [];
    var j := 0;
    while j < |groupMap.keys|
      invariant 0 <= j <= |groupMap.keys|
      invariant groups == GroupsOf(params, groupMap)[..j]
    {
      var sig := groupMap.keys[j];
      assert sig in groupMap.keys;
      var testedParams := Decoded(params, sig);
      groups := groups + [Group(testedParams, groupMap.values[sig])];
      j := j + 1;
    }
    assert groups == GroupsOf(params, groupMap);
    GroupsAreSplit(items, reversed, params, groupMap);
  }

  lemma ReversedIsValid(reversed: Dict<set<string>>, items: seq<Item>)
    requires IsReversed(reversed, items)
    ensures forall i | 0 <= i < |reversed.keys| :: reversed.keys[i] in reversed.values
  {
    assert forall i | 0 <= i < |reversed.keys| :: reversed.keys[i] in reversed.keys;
  }

  lemma NothingGrouped(sigs: map<string, string>)
    ensures IsGrouped(Dict([], map[]), [], sigs)
  {
  }

  lemma SignatureOf(params: seq<string>, reversed: map<string, set<string>>, t: string)
    requires t in reversed
    ensures t in Signatures(params, reversed) && Signatures(params, reversed)[t] == Encoded(params, reversed[t])
  {
  }

  lemma KeysAreSignatures(groupMap: Dict<set<string>>, tests: seq<string>, params: seq<string>,
                          reversed: map<string, set<string>>)
    requires IsGrouped(groupMap, tests, Signatures(params, reversed))
    ensures forall sig | sig in groupMap.keys :: |sig| == |params| && sig in groupMap.values
  {
    forall sig | sig in groupMap.keys
      ensures |sig| == |params| && sig in groupMap.values
    {
      var t :| t in groupMap.values[sig];
      assert t in tests && Signatures(params, reversed)[t] == sig;
    }
  }

  /** The `i`th group holds the tests whose signature is its key, and their parameters. */
  lemma GroupHolds(items: seq<Item>, reversed: Dict<set<string>>, params: seq<string>, groupMap: Dict<set<string>>,
                   i: nat, t: string)
    requires IsReversed(reversed, items) && params == SortedParams(items) && i < |groupMap.keys|
    requires IsGrouped(groupMap, reversed.keys, Signatures(params, reversed.values))
    requires forall sig | sig in groupMap.keys :: |sig| == |params| && sig in groupMap.values
    ensures var group := GroupsOf(params, groupMap)[i];
            && (t in group.tests <==> IsTest(items, t) && Encoded(params, ParamsOf(items, t)) == groupMap.keys[i])
            && (t in group.tests ==> group.params == ParamsOf(items, t))
  {
    hide SortedParams, Encoded, Decoded, IsTest, ParamsOf;
    var sig := groupMap.keys[i];
    assert sig in groupMap.keys;
    assert t in reversed.keys <==> IsTest(items, t);
    if IsTest(items, t) {
      SignatureOf(params, reversed.values, t);
      SortedHolds(items);
      ParamsAreParams(items, t);
      DecodeOfEncode(params, ParamsOf(items, t));
    }
  }

  lemma GroupsAreSplit(items: seq<Item>, reversed: Dict<set<string>>, params: seq<string>, groupMap: Dict<set<string>>)
    requires IsReversed(reversed, items) && params == SortedParams(items)
    requires IsGrouped(groupMap, reversed.keys, Signatures(params, reversed.values))
    requires forall sig | sig in groupMap.keys :: |sig| == |params| && sig in groupMap.values
    ensures IsSplit(GroupsOf(params, groupMap), items)
  {
    hide SortedParams, Encoded, Decoded, IsTest, ParamsOf, IsReversed, IsGrouped, Signatures, GroupsOf;
    var groups := GroupsOf(params, groupMap);
    GroupsAreFull(items, reversed, params, groupMap);
    forall i, t | 0 <= i < |groups| && t in groups[i].tests
      ensures IsTest(items, t) && ParamsOf(items, t) == groups[i].params
    {
      GroupHolds(items, reversed, params, groupMap, i, t);
    }
    forall t | IsTest(items, t)
      ensures exists i :: 0 <= i < |groups| && t in groups[i].tests
    {
      TestIsGrouped(items, reversed, params, groupMap, t);
      var i :| 0 <= i < |groups| && groupMap.keys[i] == Encoded(params, ParamsOf(items, t));
      GroupHolds(items, reversed, params, groupMap, i, t);
    }
    forall i, j | 0 <= i < j < |groups|
      ensures groups[i].params != groups[j].params && groups[i].tests !! groups[j].tests
    {
      GroupsDiffer(items, reversed, params, groupMap, i, j);
    }
  }

  lemma GroupsDiffer(items: seq<Item>, reversed: Dict<set<string>>, params: seq<string>, groupMap: Dict<set<string>>,
                     i: nat, j: nat)
    requires IsReversed(reversed, items) && params == SortedParams(items) && i < j < |groupMap.keys|
    requires IsGrouped(groupMap, reversed.keys, Signatures(params, reversed.values))
    requires forall sig | sig in groupMap.keys :: |sig| == |params| && sig in groupMap.values
    ensures var groups := GroupsOf(params, groupMap);
            groups[i].params != groups[j].params && groups[i].tests !! groups[j].tests
  {
    hide SortedParams, Encoded, Decoded, IsTest, ParamsOf, IsReversed, Signatures;
    var groups := GroupsOf(params, groupMap);
    GroupsAreFull(items, reversed, params, groupMap);
    assert groupMap.keys[i] != groupMap.keys[j];
    forall t
      ensures !(t in groups[i].tests && t in groups[j].tests)
    {
      GroupHolds(items, reversed, params, groupMap, i, t);
      GroupHolds(items, reversed, params, groupMap, j, t);
    }
    var t :| t in groups[i].tests;
    var u :| u in groups[j].tests;
    GroupHolds(items, reversed, params, groupMap, i, t);
    GroupHolds(items, reversed, params, groupMap, j, u);
  }

  lemma GroupsAreFull(items: seq<Item>, reversed: Dict<set<string>>, params: seq<string>, groupMap: Dict<set<string>>)
    requires IsGrouped(groupMap, reversed.keys, Signatures(params, reversed.values))
    requires forall sig | sig in groupMap.keys :: |sig| == |params| && sig in groupMap.values
    ensures forall i | 0 <= i < |groupMap.keys| :: GroupsOf(params, groupMap)[i].tests != {}
  {
    hide Signatures, Decoded;
    assert forall i | 0 <= i < |groupMap.keys| :: groupMap.keys[i] in groupMap.keys;
  }

  lemma TestIsGrouped(items: seq<Item>, reversed: Dict<set<string>>, params: seq<string>, groupMap: Dict<set<string>>,
                      t: string)
    requires IsReversed(reversed, items) && IsTest(items, t)
    requires IsGrouped(groupMap, reversed.keys, Signatures(params, reversed.values))
    ensures Encoded(params, ParamsOf(items, t)) in groupMap.keys
  {
    hide Encoded, IsTest, ParamsOf;
    assert t in reversed.keys;
    SignatureOf(params, reversed.values, t);
  }

  lemma ParamsAreParams(items: seq<Item>, t: string)
    ensures ParamsOf(items, t) <= ParamSet(items)
  {
  }

  // ----- tests by class -----

  function HashIndex(t: string): (i: nat)
    ensures i <= |t| && (i < |t| ==> t[i] == '#') && '#' !in t[..i]
  {
    if t == [] || t[0] == '#' then 0
    else
      var i := HashIndex(t[1..]) + 1;
      assert t[..i] == [t[0]] + t[1..][..i - 1];
      i
  }

  /** `t.split("#")`, if it has two parts. */
  function ClassAndMethod(t: string): Option<(string, string)> {
    var i := HashIndex(t);
    if i == |t| || '#' in t[i + 1..] then None else Some((t[..i], t[i + 1..]))
  }

  lemma PartsOf(t: string, c: string, m: string)
    ensures ClassAndMethod(t) == Some((c, m)) <==> t == c + "#" + m && '#' !in c && '#' !in m
  {
    var i := HashIndex(t);
    if ClassAndMethod(t) == Some((c, m)) {
      assert t == t[..i] + [t[i]] + t[i + 1..];
    }
    if t == c + "#" + m && '#' !in c && '#' !in m {
      assert t[|c|] == '#' && t[..|c|] == c && t[|c| + 1..] == m;
      assert forall k | 0 <= k < |c| :: t[k] == c[k];
      assert forall k | 0 <= k < i :: t[..i][k] == t[k];
      assert i == |c|;
    }
  }

  /** The methods of each class so far. */
  ghost predicate IsByClass(d: map<string, set<string>>, tests: seq<string>) {
    && (forall c | c in d :: d[c] != {})
    && (forall c, m :: (c in d && m in d[c]) <==> (exists t :: t in tests && ClassAndMethod(t) == Some((c, m))))
  }

  /** No result stands for the error on a name without exactly one `#`. */
  method GroupTestByCls(tests: seq<string>) returns (d: Option<map<string, set<string>>>)
    ensures d.None? <==> exists t :: t in tests && ClassAndMethod(t).None?
    ensures d.Some? ==> IsByClass(d.value, tests)
  {
    hide ClassAndMethod;
    var groups: map<string, set<string>> := map[];
    var i := 0;
    while i < |tests|
      invariant 0 <= i <= |tests|
      invariant forall t | t in tests[..i] :: ClassAndMethod(t).Some?
      invariant IsByClass(groups, tests[..i])
    {
      var parts := ClassAndMethod(tests[i]);
      assert tests[..i + 1] == tests[..i] + [tests[i]];
      if parts.None? {
        return None;
      }
      var (clsname, testMethod) := parts.value;
      ByClassStep(groups, tests[..i], tests[i], clsname, testMethod);
      if clsname !in groups {
        groups := groups[clsname := {}];
      }
      groups := groups[clsname := groups[clsname] + {testMethod}];
      i := i + 1;
    }
    assert tests[..i] == tests;
    d := Some(groups);
  }

  lemma ByClassStep(d: map<string, set<string>>, tests: seq<string>, t: string, c: string, m: string)
    requires IsByClass(d, tests) && ClassAndMethod(t) == Some((c, m))
    ensures IsByClass(d[c := (if c in d then d[c] else {}) + {m}], tests + [t])
  {
    hide ClassAndMethod;
    var d' := d[c := (if c in d then d[c] else {}) + {m}];
    forall x, y
      ensures (x in d' && y in d'[x]) <==> (exists u :: u in tests + [t] && ClassAndMethod(u) == Some((x, y)))
    {
      assert (x in d' && y in d'[x]) <==> (x in d && y in d[x]) || (x == c && y == m);
      if (x, y) == (c, m) {
        assert t in tests + [t];
      }
      assert forall u :: u in tests + [t] <==> u in tests || u == t;
    }
  }

  /** The grouping loses nothing: a method is under a class exactly if the two make up one of the tests. */
  lemma GroupsAreTests(d: map<string, set<string>>, tests: seq<string>, c: string, m: string)
    requires IsByClass(d, tests) && '#' !in c && '#' !in m
    ensures (c in d && m in d[c]) <==> c + "#" + m in tests
  {
    hide ClassAndMethod;
    PartsOf(c + "#" + m, c, m);
    forall t | t in tests && ClassAndMethod(t) == Some((c, m))
      ensures t == c + "#" + m
    {
      PartsOf(t, c, m);
    }
  }
}
