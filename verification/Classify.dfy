/** Splitting the configuration items by how many tests use them. */
module Classify {
  import opened Wrappers
  import opened Kmeans

  // ----- sorting -----

  datatype Conf = Conf(name: string, tests: seq<string>)

  predicate Descending(s: seq<Conf>) {
    forall i, j | 0 <= i < j < |s| :: |s[i].tests| >= |s[j].tests|
  }

  /** Behind every item with as many tests. */
  function Insert(s: seq<Conf>, c: Conf): seq<Conf> {
    if s == [] then [c]
    else if |c.tests| > |s[|s| - 1].tests| then Insert(s[..|s| - 1], c) + [s[|s| - 1]]
    else s + [c]
  }

  /** `sorted(..., key=lambda x: len(x[1]), reverse=True)` */
  function Sorted(s: seq<Conf>): seq<Conf> {
    if s == [] then [] else Insert(Sorted(s[..|s| - 1]), s[|s| - 1])
  }

  lemma {:induction false} InsertAdds(s: seq<Conf>, c: Conf)
    ensures multiset(Insert(s, c)) == multiset(s) + multiset{c}
  {
    if s != [] {
      var last := |s| - 1;
      assert s == s[..last] + [s[last]];
      InsertAdds(s[..last], c);
    }
  }

  lemma {:induction false} InsertKeepsOrder(s: seq<Conf>, c: Conf)
    requires Descending(s)
    ensures Descending(Insert(s, c))
    ensures forall t | t in Insert(s, c) :: t == c || t in s
  {
    if s != [] {
      var last := |s| - 1;
      InsertKeepsOrder(s[..last], c);
      var t := Insert(s[..last], c);
      if |c.tests| > |s[last].tests| {
        forall i | 0 <= i < |t|
          ensures |t[i].tests| >= |s[last].tests|
        {
          assert t[i] in t;
        }
      }
    }
  }

  lemma {:induction false} SortedIsSorted(s: seq<Conf>)
    ensures Descending(Sorted(s)) && multiset(Sorted(s)) == multiset(s)
  {
    if s != [] {
      var last := |s| - 1;
      assert s == s[..last] + [s[last]];
      SortedIsSorted(s[..last]);
      InsertKeepsOrder(Sorted(s[..last]), s[last]);
      InsertAdds(Sorted(s[..last]), s[last]);
    }
  }

  // ----- cutting -----

  function Counts(s: seq<Conf>): (x: seq<real>)
    ensures |x| == |s|
  {
    seq(|s|, i requires 0 <= i < |s| => |s[i].tests| as real)
  }

  function Sum(a: seq<nat>): nat {
    if a == [] then 0 else Sum(a[..|a| - 1]) + a[|a| - 1]
  }

  /** The points that are nearest to the first of two centers lie on one side. */
  lemma BetweenIsNearest(hi: real, mid: real, lo: real, centers: seq<real>, r: nat)
    requires hi >= mid >= lo && r < 2
    requires IsNearest(hi, centers, 0) && IsNearest(lo, centers, 0) && IsNearest(mid, centers, r)
    ensures r == 0
  {
    if |centers| >= 2 {
      assert Distance(hi, centers[0]) <= Distance(hi, centers[1]);
      assert Distance(lo, centers[0]) <= Distance(lo, centers[1]);
    }
  }

  /** With two labels, once they no longer change, those of a descending list are zeros followed by ones. */
  lemma ZerosComeFirst(x: seq<real>, a: seq<nat>, p: nat, q: nat)
    requires |x| == |a| && Below(a, 2) && Round(x, a) == a
    requires p <= q < |a| && x[0] >= x[p] >= x[q] && a[q] == 0
    ensures a[p] == 0
  {
    hide Centers, IsNearest, Canonical;
    EndIsCanonical(x, a);
    NearestIsInRange(x, a);
    BetweenIsNearest(x[0], x[p], x[q], Centers(x, a), a[p]);
  }

  lemma {:induction false} ZerosAreCounted(a: seq<nat>)
    requires Below(a, 2) && forall p, q | 0 <= p <= q < |a| && a[q] == 0 :: a[p] == 0
    ensures Sum(a) <= |a| && forall p | 0 <= p < |a| :: a[p] == 0 <==> p < |a| - Sum(a)
  {
    if a != [] {
      var n := |a| - 1;
      ZerosAreCounted(a[..n]);
      assert a[n] == 0 ==> forall p | 0 <= p < n :: a[..n][p] == 0;
      assert a[n] == 0 && n > 0 ==> a[..n][n - 1] == 0;
    }
  }

  lemma CountsDescend(s: seq<Conf>)
    requires Descending(s)
    ensures forall i, j | 0 <= i <= j < |s| :: Counts(s)[i] >= Counts(s)[j]
  {
  }

  /** The prefix as long as the cluster of the first item is that cluster. */
  lemma PrefixIsCluster(s: seq<Conf>, a: seq<nat>)
    requires s != [] && Descending(s) && |a| == |s| && Below(a, 2) && Round(Counts(s), a) == a
    ensures a[0] == 0 && Sum(a) < |a|
    ensures forall p | 0 <= p < |a| :: a[p] == a[0] <==> p < |a| - Sum(a)
  {
    hide Round, Canonical, Sum, Counts;
    var x := Counts(s);
    EndIsCanonical(x, a);
    CountsDescend(s);
    forall p, q | 0 <= p <= q < |a| && a[q] == 0
      ensures a[p] == 0
    {
      ZerosComeFirst(x, a, p, q);
    }
    ZerosAreCounted(a);
  }

  /** Items with as many tests get the same label. */
  lemma LabelsFollowCounts(s: seq<Conf>, a: seq<nat>, p: nat, q: nat)
    requires |a| == |s| && Round(Counts(s), a) == a && p < |s| && q < |s| && |s[p].tests| == |s[q].tests|
    ensures a[p] == a[q]
  {
    hide Centers;
    RoundIs(Counts(s), a);
    assert Counts(s)[p] == Counts(s)[q];
  }

  // ----- the code -----

  function Collected(conItems: seq<string>, mapping: map<string, seq<string>>): seq<Conf> {
    if conItems == [] then []
    else
      var c := conItems[|conItems| - 1];
      Collected(conItems[..|conItems| - 1], mapping) + (if c in mapping then [Conf(c, mapping[c])] else [])
  }

  lemma {:induction false} CollectedAre(conItems: seq<string>, mapping: map<string, seq<string>>, c: Conf)
    ensures c in Collected(conItems, mapping) <==> c.name in conItems && c.name in mapping && c.tests == mapping[c.name]
  {
    if conItems != [] {
      var n := |conItems| - 1;
      assert conItems == conItems[..n] + [conItems[n]];
      CollectedAre(conItems[..n], mapping, c);
    }
  }

  function Names(s: seq<Conf>): set<string> {
    set c | c in s :: c.name
  }

  datatype Classes = Classes(baseConf: set<string>, mutableConf: set<string>)

  /** The items that the last labels of the iteration put with the first one. */
  ghost predicate IsCluster(s: seq<Conf>, kPoints: seq<real>, a: seq<nat>, base: set<string>) {
    && |a| == |s| && Round(Counts(s), a) == a
    && (exists n: nat :: a == Rounds(Counts(s), Assigned(Counts(s), kPoints), n))
    && base == set p | 0 <= p < |s| && a[p] == 0 :: s[p].name
  }

  method Collect(conItems: seq<string>, mapping: map<string, seq<string>>) returns (ctestData: seq<Conf>)
    ensures ctestData == Collected(conItems, mapping)
  {
    ctestData := [];
    var i := 0;
    while i < |conItems|
      invariant 0 <= i <= |conItems| && ctestData == Collected(conItems[..i], mapping)
    {
      assert conItems[..i + 1][..i] == conItems[..i];
      if conItems[i] in mapping {
        ctestData := ctestData + [Conf(conItems[i], mapping[conItems[i]])];
      }
      i := i + 1;
    }
    assert conItems[..i] == conItems;
  }

  lemma NamesOfNone()
    ensures Names([]) == {}
  {
  }

  lemma NamesGrow(s: seq<Conf>, c: Conf)
    ensures Names(s + [c]) == Names(s) + {c.name}
  {
  }

  method Cut(sortedData: seq<Conf>, baseConfLen: nat) returns (r: Classes)
    requires baseConfLen <= |sortedData|
    ensures r == Classes(Names(sortedData[..baseConfLen]), Names(sortedData[baseConfLen..]))
  {
    hide Names;
    NamesOfNone();
    var baseConf, mutableConf := {}, {};
    var tmpCount := 0;
    while tmpCount < |sortedData|
      invariant 0 <= tmpCount <= |sortedData|
      invariant tmpCount <= baseConfLen ==> baseConf == Names(sortedData[..tmpCount]) && mutableConf == {}
      invariant tmpCount > baseConfLen ==> baseConf == Names(sortedData[..baseConfLen])
                                           && mutableConf == Names(sortedData[baseConfLen..tmpCount])
    {
      var x := sortedData[tmpCount];
      assert sortedData[..tmpCount + 1] == sortedData[..tmpCount] + [x];
      assert tmpCount >= baseConfLen ==>
               sortedData[baseConfLen..tmpCount + 1] == sortedData[baseConfLen..tmpCount] + [x];
      NamesGrow(sortedData[..tmpCount], x);
      if tmpCount >= baseConfLen {
        NamesGrow(sortedData[baseConfLen..tmpCount], x);
      }
      tmpCount := tmpCount + 1;
      if tmpCount <= baseConfLen {
        baseConf := baseConf + {x.name};
      } else {
        mutableConf := mutableConf + {x.name};
      }
    }
    assert sortedData[baseConfLen..tmpCount] == sortedData[baseConfLen..];
    r := Classes(baseConf, mutableConf);
  }

  /** The two starting points of the iteration are random. */
  method Run(conItems: seq<string>, mapping: map<string, seq<string>>, kPoints: seq<real>) returns (r: Option<Classes>)
    requires |kPoints| == 2
    ensures r.None? <==> forall c | c in conItems :: c !in mapping
    ensures r.Some? ==> r.value.baseConf + r.value.mutableConf == set c | c in conItems && c in mapping
    ensures r.Some? ==> r.value.baseConf != {} && r.value.baseConf !! r.value.mutableConf
    ensures r.Some? ==> forall b, m | b in r.value.baseConf && m in r.value.mutableConf ::
                          b in mapping && m in mapping && |mapping[b]| > |mapping[m]|
    ensures r.Some? ==> exists a :: IsCluster(Sorted(Collected(conItems, mapping)), kPoints, a, r.value.baseConf)
  {
    hide Sorted, Collected, Round, Sum, Rounds, Names, Descending, Assigned, Within, Counts;
    var ctestData := Collect(conItems, mapping);
    var sortedData := Sorted(ctestData);
    SortedIsSorted(ctestData);
    SortedHolds(conItems, mapping);
    if sortedData == [] {
      NoNames(conItems, mapping);
      return None;
    }
    var assignment := KMeans(Counts(sortedData), kPoints);
    var baseConfLen;
    if assignment[0] == 0 {
      baseConfLen := |assignment| - Sum(assignment);
    } else if assignment[0] == 1 {
      baseConfLen := Sum(assignment);
    } else {
      assert false;
    }
    PrefixIsCluster(sortedData, assignment);
    var classes := Cut(sortedData, baseConfLen);
    CutSeparates(sortedData, mapping, assignment, baseConfLen);
    CutIsCluster(sortedData, kPoints, assignment, baseConfLen);
    r := Some(classes);
  }

  lemma NoNames(conItems: seq<string>, mapping: map<string, seq<string>>)
    requires Sorted(Collected(conItems, mapping)) == []
    ensures forall c | c in conItems :: c !in mapping
  {
    SortedHolds(conItems, mapping);
    var found := set c | c in conItems && c in mapping;
    assert found == Names([]) == {};
    assert forall c | c in conItems && c in mapping :: c in found;
  }

  lemma SortedHolds(conItems: seq<string>, mapping: map<string, seq<string>>)
    ensures forall c :: c in Sorted(Collected(conItems, mapping)) <==>
                        c.name in conItems && c.name in mapping && c.tests == mapping[c.name]
    ensures Names(Sorted(Collected(conItems, mapping))) == set c | c in conItems && c in mapping
  {
    var all := Collected(conItems, mapping);
    SortedIsSorted(all);
    forall c
      ensures c in Sorted(all) <==> c.name in conItems && c.name in mapping && c.tests == mapping[c.name]
    {
      CollectedAre(conItems, mapping, c);
      assert c in Sorted(all) <==> c in multiset(all);
    }
    forall c | c in conItems && c in mapping
      ensures c in Names(Sorted(all))
    {
      assert Conf(c, mapping[c]) in Sorted(all);
    }
  }

  lemma CutSeparates(s: seq<Conf>, mapping: map<string, seq<string>>, a: seq<nat>, n: nat)
    requires Descending(s) && |a| == |s| && Round(Counts(s), a) == a && 0 < n <= |s|
    requires forall c | c in s :: c.name in mapping && c.tests == mapping[c.name]
    requires forall p | 0 <= p < |s| :: a[p] == 0 <==> p < n
    ensures forall b, m | b in Names(s[..n]) && m in Names(s[n..]) ::
              b in mapping && m in mapping && |mapping[b]| > |mapping[m]|
    ensures Names(s[..n]) + Names(s[n..]) == Names(s)
    ensures Names(s[..n]) != {} && Names(s[..n]) !! Names(s[n..])
  {
    hide Round, Counts;
    forall p, q | 0 <= p < n <= q < |s|
      ensures |s[p].tests| > |s[q].tests|
    {
      if |s[p].tests| == |s[q].tests| {
        LabelsFollowCounts(s, a, p, q);
      }
    }
    assert s == s[..n] + s[n..];
    assert s[..n][0].name in Names(s[..n]);
    forall b, m | b in Names(s[..n]) && m in Names(s[n..])
      ensures b in mapping && m in mapping && |mapping[b]| > |mapping[m]|
    {
      var p :| 0 <= p < n && s[..n][p].name == b;
      var q :| 0 <= q < |s| - n && s[n..][q].name == m;
      assert s[p] in s && s[n + q] in s;
    }
  }

  lemma CutIsCluster(s: seq<Conf>, kPoints: seq<real>, a: seq<nat>, n: nat)
    requires |a| == |s| && Round(Counts(s), a) == a && n <= |s|
    requires exists m: nat :: a == Rounds(Counts(s), Assigned(Counts(s), kPoints), m)
    requires forall p | 0 <= p < |s| :: a[p] == 0 <==> p < n
    ensures IsCluster(s, kPoints, a, Names(s[..n]))
  {
    hide Round, Rounds, Assigned, Counts;
    var base := set p | 0 <= p < |s| && a[p] == 0 :: s[p].name;
    forall name
      ensures name in Names(s[..n]) <==> name in base
    {
      if name in Names(s[..n]) {
        var p :| 0 <= p < n && s[..n][p].name == name;
        assert s[p].name == name;
      }
      if name in base {
        var p :| 0 <= p < |s| && a[p] == 0 && s[p].name == name;
        assert s[..n][p].name == name;
      }
    }
  }
}
