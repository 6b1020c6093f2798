/** K-means on numbers, in exact arithmetic: each round relabels the clusters by their first members. */
module Kmeans {
  import opened Wrappers

  // ----- sums -----

  function Total(s: seq<real>): real {
    if s == [] then 0.0 else Total(s[..|s| - 1]) + s[|s| - 1]
  }

  function Average(s: seq<real>): real {
    if s == [] then 0.0 else Total(s) / |s| as real
  }

  function Times(a: real, b: real): real {
    a * b
  }

  lemma TimesIsPositive(a: real, b: real)
    requires a >= 0.0 && b >= 0.0
    ensures Times(a, b) >= 0.0
    ensures a > 0.0 && b > 0.0 ==> Times(a, b) > 0.0
  {
  }

  lemma TimesItself(a: real)
    ensures Times(-a, -a) == Times(a, a) >= 0.0
    ensures Times(a, a) == 0.0 ==> a == 0.0
  {
    var b := if a >= 0.0 then a else -a;
    TimesIsPositive(b, b);
  }

  lemma TimesAdds(a: real, b: real, c: real)
    ensures Times(a, b + c) == Times(a, b) + Times(a, c)
  {
  }

  lemma TimesOne(a: real)
    ensures Times(a, 1.0) == a
  {
  }

  function Square(v: real): (r: real)
    ensures r >= 0.0
  {
    TimesItself(v);
    Times(v, v)
  }

  lemma SquareOfDifference(v: real, c: real)
    ensures Square(v - c) == Square(v) - 2.0 * Times(c, v) + Square(c)
  {
  }

  /** The squared distances of the values from one center. */
  function Spread(s: seq<real>, center: real): real {
    if s == [] then 0.0 else Spread(s[..|s| - 1], center) + Square(s[|s| - 1] - center)
  }

  function Squares(s: seq<real>): real {
    if s == [] then 0.0 else Squares(s[..|s| - 1]) + Square(s[|s| - 1])
  }

  lemma {:induction false} SpreadExpands(s: seq<real>, center: real)
    ensures Spread(s, center) == Squares(s) - 2.0 * Times(center, Total(s)) + Times(Square(center), |s| as real)
  {
    if s == [] {
      assert Times(center, 0.0) == 0.0 && Times(Square(center), 0.0) == 0.0;
    } else {
      hide Square, Times;
      var n := |s| - 1;
      SpreadExpands(s[..n], center);
      SquareOfDifference(s[n], center);
      TimesAdds(center, Total(s[..n]), s[n]);
      TimesAdds(Square(center), n as real, 1.0);
      assert |s| as real == n as real + 1.0;
      TimesOne(Square(center));
    }
  }

  lemma TotalIsAverage(s: seq<real>)
    ensures Total(s) == Times(Average(s), |s| as real)
  {
  }

  lemma MovedCenter(avg: real, n: real, center: real)
    ensures -2.0 * Times(center, Times(avg, n)) + Times(Square(center), n)
            == -2.0 * Times(avg, Times(avg, n)) + Times(Square(avg), n) + Times(Square(avg - center), n)
  {
    assert center * (avg * n) == (center * avg) * n;
    assert avg * (avg * n) == (avg * avg) * n;
    SquareOfDifference(avg, center);
    assert Times(Square(avg - center), n) == Square(avg) * n - 2.0 * ((center * avg) * n) + Square(center) * n;
  }

  /** Moving the center away from the average costs the square of the move, for each value. */
  lemma SpreadAroundAverage(s: seq<real>, center: real)
    ensures Spread(s, center) == Spread(s, Average(s)) + Times(Square(Average(s) - center), |s| as real)
  {
    hide *;
    var avg, n := Average(s), |s| as real;
    SpreadExpands(s, center);
    SpreadExpands(s, avg);
    TotalIsAverage(s);
    MovedCenter(avg, n, center);
  }

  // ----- clusters -----

  /** The points with a label, in their order. */
  function Members(x: seq<real>, a: seq<nat>, l: nat): seq<real>
    requires |x| == |a|
  {
    if a == [] then []
    else Members(x[..|a| - 1], a[..|a| - 1], l) + (if a[|a| - 1] == l then [x[|a| - 1]] else [])
  }

  function MeanOf(x: seq<real>, a: seq<nat>, l: nat): real
    requires |x| == |a|
  {
    Average(Members(x, a, l))
  }

  /** The labels in use, by first appearance. */
  function Order(a: seq<nat>): seq<nat> {
    if a == [] then []
    else
      var before := Order(a[..|a| - 1]);
      if a[|a| - 1] in before then before else before + [a[|a| - 1]]
  }

  function Centers(x: seq<real>, a: seq<nat>): (c: seq<real>)
    requires |x| == |a|
    ensures |c| == |Order(a)|
  {
    seq(|Order(a)|, j requires 0 <= j < |Order(a)| => MeanOf(x, a, Order(a)[j]))
  }

  function Distance(p: real, q: real): (d: real)
    ensures d >= 0.0
  {
    if p >= q then p - q else q - p
  }

  /** The nearest center, and among equally near ones the first. */
  predicate IsNearest(p: real, centers: seq<real>, r: nat) {
    if centers == [] then r == 0
    else
      && r < |centers|
      && (forall i | 0 <= i < |centers| :: Distance(p, centers[r]) <= Distance(p, centers[i]))
      && (forall i | 0 <= i < r :: Distance(p, centers[r]) < Distance(p, centers[i]))
  }

  function Nearest(p: real, centers: seq<real>): (r: nat)
    ensures IsNearest(p, centers, r)
  {
    if |centers| <= 1 then 0
    else
      var last := |centers| - 1;
      var r := Nearest(p, centers[..last]);
      if Distance(p, centers[last]) < Distance(p, centers[r]) then last else r
  }

  lemma NearestIsUnique(p: real, centers: seq<real>, r: nat)
    requires IsNearest(p, centers, r)
    ensures r == Nearest(p, centers)
  {
  }

  function Assigned(x: seq<real>, centers: seq<real>): (a: seq<nat>)
    ensures |a| == |x|
  {
    seq(|x|, p requires 0 <= p < |x| => Nearest(x[p], centers))
  }

  /** A round: new centers, and each point to the nearest of them. */
  function Round(x: seq<real>, a: seq<nat>): (b: seq<nat>)
    requires |x| == |a|
    ensures |b| == |x|
  {
    Assigned(x, Centers(x, a))
  }

  function Rounds(x: seq<real>, a: seq<nat>, n: nat): (b: seq<nat>)
    requires |x| == |a|
    ensures |b| == |x|
  {
    if n == 0 then a else Round(x, Rounds(x, a, n - 1))
  }

  // ----- the code -----

  method PointAvg(points: seq<real>) returns (center: real)
    requires points != []
    ensures center == Average(points)
  {
    var dimSum := 0.0;
    var i := 0;
    while i < |points|
      invariant 0 <= i <= |points| && dimSum == Total(points[..i])
    {
      assert points[..i + 1][..i] == points[..i];
      dimSum := dimSum + points[i];
      i := i + 1;
    }
    assert points[..i] == points;
    center := dimSum / |points| as real;
  }

  predicate IsGrouping(newMeans: map<nat, seq<real>>, x: seq<real>, a: seq<nat>, l: nat)
    requires |x| == |a|
  {
    Members(x, a, l) == if l in newMeans then newMeans[l] else []
  }

  lemma GroupingStep(before: map<nat, seq<real>>, after: map<nat, seq<real>>, x: seq<real>, a: seq<nat>,
                     i: nat, next: nat)
    requires |x| == |a| && i < |a| && next == i + 1 && forall l :: IsGrouping(before, x[..i], a[..i], l)
    requires after == before[a[i] := (if a[i] in before then before[a[i]] else []) + [x[i]]]
    ensures forall l :: IsGrouping(after, x[..next], a[..next], l)
  {
    assert a[..next][..i] == a[..i] && x[..next][..i] == x[..i];
    forall l
      ensures IsGrouping(after, x[..next], a[..next], l)
    {
      assert IsGrouping(before, x[..i], a[..i], l);
      assert Members(x[..i], a[..i], l) + [] == Members(x[..i], a[..i], l);
    }
  }

  lemma OrderStep(a: seq<nat>, i: nat)
    requires i < |a|
    ensures Order(a[..i + 1]) == if a[i] in Order(a[..i]) then Order(a[..i]) else Order(a[..i]) + [a[i]]
  {
    assert a[..i + 1][..i] == a[..i];
  }

  lemma NothingGrouped(l: nat)
    ensures Order([]) == [] && IsGrouping(map[], [], [], l)
  {
  }

  /** The first half of `update_centers`: a dictionary keeps its keys in the order in which they were added. */
  method GroupPoints(dataSet: seq<real>, assignments: seq<nat>)
    returns (labels: seq<nat>, newMeans: map<nat, seq<real>>)
    requires |dataSet| == |assignments|
    ensures labels == Order(assignments)
    ensures forall l: nat :: l in newMeans <==> l in labels
    ensures forall l: nat :: IsGrouping(newMeans, dataSet, assignments, l)
  {
    hide Order, IsGrouping;
    labels, newMeans := [], map[];
    var i := 0;
    forall l: nat {
      NothingGrouped(l);
    }
    NothingGrouped(0);
    while i < |assignments|
      invariant 0 <= i <= |assignments|
      invariant labels == Order(assignments[..i])
      invariant forall l: nat :: l in newMeans <==> l in labels
      invariant forall l: nat :: IsGrouping(newMeans, dataSet[..i], assignments[..i], l)
    {
      var assignment := assignments[i];
      OrderStep(assignments, i);
      ghost var before := newMeans;
      if assignment !in newMeans {
        labels := labels + [assignment];
        newMeans := newMeans[assignment := []];
      }
      newMeans := newMeans[assignment := newMeans[assignment] + [dataSet[i]]];
      assert newMeans == before[assignment := (if assignment in before then before[assignment] else []) + [dataSet[i]]];
      GroupingStep(before, newMeans, dataSet, assignments, i, i + 1);
      i := i + 1;
    }
    assert assignments[..i] == assignments && dataSet[..i] == dataSet;
  }

  lemma GroupIs(newMeans: map<nat, seq<real>>, x: seq<real>, a: seq<nat>, l: nat)
    requires |x| == |a| && l in newMeans && IsGrouping(newMeans, x, a, l)
    ensures Members(x, a, l) == newMeans[l]
  {
  }

  lemma NoCenters(x: seq<real>, a: seq<nat>)
    requires |x| == |a|
    ensures Centers(x, a)[..0] == []
  {
  }

  lemma CentersStep(x: seq<real>, a: seq<nat>, j: nat, next: nat)
    requires |x| == |a| && j < |Order(a)| && next == j + 1 && Members(x, a, Order(a)[j]) != []
    ensures Centers(x, a)[..next] == Centers(x, a)[..j] + [Average(Members(x, a, Order(a)[j]))]
    ensures Centers(x, a)[..|Order(a)|] == Centers(x, a)
  {
    hide Order, Members, Average;
  }

  method UpdateCenters(dataSet: seq<real>, assignments: seq<nat>) returns (centers: seq<real>)
    requires |dataSet| == |assignments|
    ensures centers == Centers(dataSet, assignments)
  {
    var labels, newMeans := GroupPoints(dataSet, assignments);
    OrderIsInUse(dataSet, assignments);
    NoCenters(dataSet, assignments);
    hide Order, Members, Average, IsGrouping, Centers, MeanOf;
    centers := [];
    var j := 0;
    while j < |labels|
      invariant 0 <= j <= |labels|
      invariant centers == Centers(dataSet, assignments)[..j]
    {
      assert labels[j] in labels;
      GroupIs(newMeans, dataSet, assignments, labels[j]);
      CentersStep(dataSet, assignments, j, j + 1);
      var center := PointAvg(newMeans[labels[j]]);
      centers := centers + [center];
      j := j + 1;
    }
  }

  lemma {:induction false} OrderIsInUse(x: seq<real>, a: seq<nat>)
    requires |x| == |a|
    ensures forall l | l in Order(a) :: l in a && Members(x, a, l) != []
    ensures forall l | l in a :: l in Order(a)
  {
    if a != [] {
      var n := |a| - 1;
      OrderIsInUse(x[..n], a[..n]);
      assert a == a[..n] + [a[n]];
    }
  }

  method AssignPoints(dataPoints: seq<real>, centers: seq<real>) returns (assignments: seq<nat>)
    ensures assignments == Assigned(dataPoints, centers)
  {
    hide Nearest, Distance;
    assignments := [];
    var n := 0;
    while n < |dataPoints|
      invariant 0 <= n <= |dataPoints|
      invariant assignments == Assigned(dataPoints, centers)[..n]
    {
      var point := dataPoints[n];
      var shortest: Option<real> := None;
      var shortestIndex := 0;
      var i := 0;
      while i < |centers|
        invariant 0 <= i <= |centers|
        invariant IsNearest(point, centers[..i], shortestIndex)
        invariant shortest == if i == 0 then None else Some(Distance(point, centers[shortestIndex]))
      {
        var val := Distance(point, centers[i]);
        if shortest.None? || val < shortest.value {
          shortest := Some(val);
          shortestIndex := i;
        }
        i := i + 1;
      }
      assert centers[..i] == centers;
      NearestIsUnique(point, centers, shortestIndex);
      assignments := assignments + [shortestIndex];
      n := n + 1;
    }
  }

  // ----- the cost -----

  /** The squared distances of the points from the places they are drawn to. */
  function Cost(x: seq<real>, to: seq<real>): (r: real)
    requires |x| == |to|
    ensures r >= 0.0
  {
    if x == [] then 0.0 else Cost(x[..|x| - 1], to[..|x| - 1]) + Square(x[|x| - 1] - to[|x| - 1])
  }

  /** Where each point is drawn to, given the labels and a center for each label. */
  function Drawn(a: seq<nat>, centers: seq<real>): (to: seq<real>)
    requires forall l | l in a :: l < |centers|
    ensures |to| == |a|
  {
    seq(|a|, p requires 0 <= p < |a| => assert a[p] in a; centers[a[p]])
  }

  function Means(x: seq<real>, a: seq<nat>): (to: seq<real>)
    requires |x| == |a|
    ensures |to| == |a|
  {
    seq(|a|, p requires 0 <= p < |a| => MeanOf(x, a, a[p]))
  }

  /** The cost within the clusters. */
  function Within(x: seq<real>, a: seq<nat>): (r: real)
    requires |x| == |a|
    ensures r >= 0.0
  {
    Cost(x, Means(x, a))
  }

  /** Drawing each point to a place no farther away does not add to the cost. */
  lemma {:induction false} CostIsMonotone(x: seq<real>, near: seq<real>, far: seq<real>)
    requires |x| == |near| == |far|
    requires forall p | 0 <= p < |x| :: Distance(x[p], near[p]) <= Distance(x[p], far[p])
    ensures Cost(x, near) <= Cost(x, far)
  {
    if x != [] {
      var n := |x| - 1;
      hide Square, Distance;
      CostIsMonotone(x[..n], near[..n], far[..n]);
      SquareIsMonotone(x[n], near[n], far[n]);
    }
  }

  lemma SquareGrows(d: real, e: real)
    requires 0.0 <= d <= e
    ensures Square(d) <= Square(e)
  {
    TimesIsPositive(d, e - d);
    TimesIsPositive(e, e - d);
    assert Times(d, e - d) == Times(d, e) - Times(d, d);
    assert Times(e, e - d) == Times(e, e) - Times(e, d);
    assert Times(e, d) == Times(d, e);
  }

  lemma SquareIsMonotone(v: real, near: real, far: real)
    requires Distance(v, near) <= Distance(v, far)
    ensures Square(v - near) <= Square(v - far)
  {
    hide Times;
    TimesItself(v - near);
    TimesItself(v - far);
    SquareGrows(Distance(v, near), Distance(v, far));
  }

  /** The cost of labels `0..n`, cluster by cluster. */
  function ByCluster(x: seq<real>, a: seq<nat>, centers: seq<real>, n: nat): real
    requires |x| == |a| && n <= |centers|
  {
    if n == 0 then 0.0 else ByCluster(x, a, centers, n - 1) + Spread(Members(x, a, n - 1), centers[n - 1])
  }

  lemma {:induction false} NoClusters(centers: seq<real>, n: nat)
    requires n <= |centers|
    ensures ByCluster([], [], centers, n) == 0.0
  {
    if n > 0 {
      NoClusters(centers, n - 1);
    }
  }

  lemma SpreadGrows(s: seq<real>, v: real, center: real)
    ensures Spread(s + [v], center) == Spread(s, center) + Square(v - center)
  {
    assert (s + [v])[..|s|] == s;
  }

  lemma ClusterOfLast(x: seq<real>, a: seq<nat>, l: nat, center: real)
    requires |x| == |a| > 0
    ensures var last := |a| - 1;
            Spread(Members(x, a, l), center) ==
            Spread(Members(x[..last], a[..last], l), center) + (if a[last] == l then Square(x[last] - center) else 0.0)
  {
    hide Spread, Square;
    var last := |a| - 1;
    var before := Members(x[..last], a[..last], l);
    SpreadGrows(before, x[last], center);
    assert before + [] == before;
  }

  lemma NoneSummed(x: seq<real>, a: seq<nat>, centers: seq<real>)
    requires |x| == |a|
    ensures ByCluster(x, a, centers, 0) == 0.0
  {
  }

  lemma ClustersSplit(x: seq<real>, a: seq<nat>, centers: seq<real>, n: nat)
    requires |x| == |a| && 0 < n <= |centers|
    ensures ByCluster(x, a, centers, n) ==
            ByCluster(x, a, centers, n - 1) + Spread(Members(x, a, n - 1), centers[n - 1])
  {
  }

  /** The last point adds to the spread of its own cluster. */
  lemma {:induction false} LastPoint(x: seq<real>, a: seq<nat>, centers: seq<real>, n: nat)
    requires |x| == |a| > 0 && n <= |centers|
    ensures var last := |a| - 1;
            ByCluster(x, a, centers, n) == ByCluster(x[..last], a[..last], centers, n) +
              (if a[last] < n then Square(x[last] - centers[a[last]]) else 0.0)
  {
    hide Spread, Square, Members, ByCluster;
    var last := |a| - 1;
    if n == 0 {
      NoneSummed(x, a, centers);
      NoneSummed(x[..last], a[..last], centers);
    } else {
      LastPoint(x, a, centers, n - 1);
      ClustersSplit(x, a, centers, n);
      ClustersSplit(x[..last], a[..last], centers, n);
      ClusterOfLast(x, a, n - 1, centers[n - 1]);
    }
  }

  lemma CostOfLast(x: seq<real>, to: seq<real>)
    requires |x| == |to| > 0
    ensures var n := |x| - 1;
            Cost(x, to) == Cost(x[..n], to[..n]) + Square(x[n] - to[n])
  {
  }

  lemma CostOfNone()
    ensures Cost([], []) == 0.0
  {
  }

  lemma {:induction false} CostByCluster(x: seq<real>, a: seq<nat>, centers: seq<real>)
    requires |x| == |a| && forall l | l in a :: l < |centers|
    ensures Cost(x, Drawn(a, centers)) == ByCluster(x, a, centers, |centers|)
  {
    hide ByCluster, Square, Cost;
    if x == [] {
      assert a == [] && Drawn(a, centers) == [];
      NoClusters(centers, |centers|);
      CostOfNone();
    } else {
      var n := |x| - 1;
      assert a[n] in a;
      assert forall l | l in a[..n] :: l in a;
      CostByCluster(x[..n], a[..n], centers);
      LastPoint(x, a, centers, |centers|);
      CostOfLast(x, Drawn(a, centers));
      assert Drawn(a, centers)[..n] == Drawn(a[..n], centers);
    }
  }

  /** The mean of each label up to `n`. */
  function MeanList(x: seq<real>, a: seq<nat>, n: nat): (c: seq<real>)
    requires |x| == |a|
    ensures |c| == n
  {
    seq(n, l requires 0 <= l < n => MeanOf(x, a, l))
  }

  lemma {:induction false} MeansAreBest(x: seq<real>, a: seq<nat>, centers: seq<real>, n: nat)
    requires |x| == |a| && n <= |centers|
    ensures ByCluster(x, a, MeanList(x, a, |centers|), n) <= ByCluster(x, a, centers, n)
  {
    hide Spread, Members, MeanOf, ByCluster;
    var means := MeanList(x, a, |centers|);
    if n == 0 {
      NoneSummed(x, a, centers);
      NoneSummed(x, a, means);
    } else {
      MeansAreBest(x, a, centers, n - 1);
      ClustersSplit(x, a, centers, n);
      ClustersSplit(x, a, means, n);
      MeanIsBest(x, a, n - 1, centers[n - 1]);
    }
  }

  lemma {:induction false} OnlyMeansAreBest(x: seq<real>, a: seq<nat>, centers: seq<real>, n: nat, l: nat)
    requires |x| == |a| && l < n <= |centers| && Members(x, a, l) != []
    requires ByCluster(x, a, MeanList(x, a, |centers|), n) == ByCluster(x, a, centers, n)
    ensures MeanOf(x, a, l) == centers[l]
  {
    hide Spread, Members, MeanOf, ByCluster;
    var means := MeanList(x, a, |centers|);
    MeansAreBest(x, a, centers, n - 1);
    ClustersSplit(x, a, centers, n);
    ClustersSplit(x, a, means, n);
    MeanIsBest(x, a, n - 1, centers[n - 1]);
    if l < n - 1 {
      OnlyMeansAreBest(x, a, centers, n - 1, l);
    }
  }

  lemma MeanIsBest(x: seq<real>, a: seq<nat>, l: nat, center: real)
    requires |x| == |a|
    ensures var members, mean := Members(x, a, l), MeanOf(x, a, l);
            Spread(members, mean) <= Spread(members, center)
            && (Spread(members, mean) == Spread(members, center) && members != [] ==> mean == center)
  {
    hide Spread, Members, Square, Times, Average;
    var members := Members(x, a, l);
    SpreadAroundAverage(members, center);
    MoveCosts(MeanOf(x, a, l) - center, |members| as real);
  }

  lemma MoveCosts(move: real, n: real)
    requires n >= 0.0
    ensures Times(Square(move), n) >= 0.0
    ensures n > 0.0 && Times(Square(move), n) == 0.0 ==> move == 0.0
  {
    TimesIsPositive(Square(move), n);
    TimesItself(move);
  }

  /** No centers serve the clusters better than their means, and only the means serve them as well. */
  lemma WithinIsLeast(x: seq<real>, a: seq<nat>, centers: seq<real>)
    requires |x| == |a| && forall l | l in a :: l < |centers|
    ensures Within(x, a) <= Cost(x, Drawn(a, centers))
    ensures Within(x, a) == Cost(x, Drawn(a, centers)) ==> forall l | l in a :: MeanOf(x, a, l) == centers[l]
  {
    hide ByCluster, Cost, Members, Average;
    var means := MeanList(x, a, |centers|);
    forall p | 0 <= p < |a|
      ensures Means(x, a)[p] == Drawn(a, means)[p]
    {
      assert a[p] in a;
    }
    assert Means(x, a) == Drawn(a, means);
    CostByCluster(x, a, means);
    CostByCluster(x, a, centers);
    MeansAreBest(x, a, centers, |centers|);
    if Within(x, a) == Cost(x, Drawn(a, centers)) {
      OrderIsInUse(x, a);
      forall l | l in a
        ensures MeanOf(x, a, l) == centers[l]
      {
        OnlyMeansAreBest(x, a, centers, |centers|, l);
      }
    }
  }

  // ----- relabelling -----

  function IndexIn(order: seq<nat>, l: nat): (i: nat)
    requires l in order
    ensures i < |order| && order[i] == l
  {
    if order[0] == l then 0 else IndexIn(order[1..], l) + 1
  }

  /** Labels in the order of the centers: the position of each label among those in use. */
  function Canonical(a: seq<nat>): (c: seq<nat>)
    ensures |c| == |a|
  {
    if a == [] then []
    else
      var before, last := Order(a[..|a| - 1]), a[|a| - 1];
      Canonical(a[..|a| - 1]) + [if last in before then IndexIn(before, last) else |before|]
  }

  lemma {:induction false} CanonicalAt(a: seq<nat>, p: nat)
    requires p < |a|
    ensures Canonical(a)[p] < |Order(a)| && Order(a)[Canonical(a)[p]] == a[p]
  {
    var n := |a| - 1;
    if p < n {
      CanonicalAt(a[..n], p);
    }
  }

  predicate AllDifferent(s: seq<nat>) {
    forall i, j | 0 <= i < j < |s| :: s[i] != s[j]
  }

  lemma {:induction false} OrderIsDistinct(a: seq<nat>)
    ensures AllDifferent(Order(a))
  {
    if a != [] {
      OrderIsDistinct(a[..|a| - 1]);
    }
  }

  function UpTo(n: nat): seq<nat> {
    seq(n, i => i)
  }

  lemma {:induction false} OrderOfCanonical(a: seq<nat>)
    ensures Order(Canonical(a)) == UpTo(|Order(a)|)
  {
    if a != [] {
      var n := |a| - 1;
      OrderOfCanonical(a[..n]);
      var c := Canonical(a);
      assert c[..n] == Canonical(a[..n]);
      assert a[n] in Order(a[..n]) ==> UpTo(|Order(a[..n])|)[c[n]] == c[n];
    }
  }

  lemma {:induction false} MembersRelabelled(x: seq<real>, a: seq<nat>, l: nat, b: seq<nat>, m: nat)
    requires |x| == |a| == |b| && forall p | 0 <= p < |a| :: a[p] == l <==> b[p] == m
    ensures Members(x, a, l) == Members(x, b, m)
  {
    if a != [] {
      var n := |a| - 1;
      MembersRelabelled(x[..n], a[..n], l, b[..n], m);
    }
  }

  /** Relabelling by position changes neither the centers nor, so, the next round. */
  lemma CanonicalHasSameCenters(x: seq<real>, a: seq<nat>)
    requires |x| == |a|
    ensures Centers(x, Canonical(a)) == Centers(x, a)
  {
    hide Members, Order, Canonical, Average;
    OrderOfCanonical(a);
    OrderIsDistinct(a);
    var order, c := Order(a), Canonical(a);
    forall j | 0 <= j < |order|
      ensures MeanOf(x, c, UpTo(|order|)[j]) == MeanOf(x, a, order[j])
    {
      forall p | 0 <= p < |a|
        ensures a[p] == order[j] <==> c[p] == j
      {
        CanonicalAt(a, p);
      }
      MembersRelabelled(x, a, order[j], c, j);
    }
  }

  // ----- no round adds to the cost -----

  lemma CentersDraw(x: seq<real>, a: seq<nat>)
    requires |x| == |a|
    ensures forall l | l in Canonical(a) :: l < |Centers(x, a)|
    ensures Drawn(Canonical(a), Centers(x, a)) == Means(x, a)
  {
    hide Order, Canonical, Members, Average;
    forall p | 0 <= p < |a|
      ensures Canonical(a)[p] < |Order(a)| && Order(a)[Canonical(a)[p]] == a[p]
    {
      CanonicalAt(a, p);
    }
  }

  lemma NearestIsInRange(x: seq<real>, a: seq<nat>)
    requires |x| == |a|
    ensures forall l | l in Round(x, a) :: l < |Centers(x, a)|
    ensures forall p | 0 <= p < |a| :: IsNearest(x[p], Centers(x, a), Round(x, a)[p])
  {
    if a != [] {
      CanonicalAt(a, 0);
    }
  }

  lemma RoundDraws(x: seq<real>, a: seq<nat>)
    requires |x| == |a| && forall l | l in Round(x, a) :: l < |Centers(x, a)|
    ensures Within(x, Round(x, a)) <= Cost(x, Drawn(Round(x, a), Centers(x, a))) <= Within(x, a)
  {
    hide Order, Canonical, Members, Average, Cost, MeanOf, Distance;
    NearestIsInRange(x, a);
    CentersDraw(x, a);
    var b, centers := Round(x, a), Centers(x, a);
    forall p | 0 <= p < |x|
      ensures Distance(x[p], Drawn(b, centers)[p]) <= Distance(x[p], Drawn(Canonical(a), centers)[p])
    {
      assert Canonical(a)[p] in Canonical(a) && b[p] in b;
    }
    CostIsMonotone(x, Drawn(b, centers), Drawn(Canonical(a), centers));
    WithinIsLeast(x, b, centers);
  }

  /** Lloyd's iteration never adds to the cost within the clusters. */
  lemma RoundNeverWorsens(x: seq<real>, a: seq<nat>)
    requires |x| == |a|
    ensures Within(x, Round(x, a)) <= Within(x, a)
  {
    NearestIsInRange(x, a);
    RoundDraws(x, a);
  }

  /** After a round that saves nothing, the next one can only lower labels, as positions count. */
  lemma RoundAfterTie(x: seq<real>, a: seq<nat>)
    requires |x| == |a| && Within(x, Round(x, a)) == Within(x, a)
    ensures forall p | 0 <= p < |a| :: Round(x, Round(x, a))[p] <= Canonical(Round(x, a))[p]
  {
    hide Order, Canonical, Members, Average, Cost, MeanOf, Distance, Within;
    var b, centers := Round(x, a), Centers(x, a);
    NearestIsInRange(x, a);
    RoundDraws(x, a);
    WithinIsLeast(x, b, centers);
    NearestIsInRange(x, b);
    var next := Centers(x, b);
    CentersDraw(x, b);
    OrderIsInUse(x, b);
    forall p | 0 <= p < |a|
      ensures Round(x, b)[p] <= Canonical(b)[p]
    {
      CanonicalAt(b, p);
      var i := Canonical(b)[p];
      assert b[p] in b && next[i] == centers[b[p]];
      forall j | 0 <= j < |next|
        ensures Distance(x[p], next[i]) <= Distance(x[p], next[j])
      {
        assert Order(b)[j] in Order(b);
        assert next[j] == centers[Order(b)[j]];
      }
    }
  }

  // ----- termination -----

  /** All labels stay below `bound`. */
  predicate Below(a: seq<nat>, bound: nat) {
    forall p | 0 <= p < |a| :: a[p] < bound
  }

  function Labelings(n: nat, bound: nat): set<seq<nat>> {
    if n == 0 then {[]} else set s, l | s in Labelings(n - 1, bound) && 0 <= l < bound :: s + [l]
  }

  lemma {:induction false} IsLabeling(a: seq<nat>, bound: nat)
    requires Below(a, bound)
    ensures a in Labelings(|a|, bound)
  {
    if a != [] {
      var n := |a| - 1;
      IsLabeling(a[..n], bound);
      assert a == a[..n] + [a[n]];
    }
  }

  /** The labelings that cost less. */
  function Cheaper(x: seq<real>, a: seq<nat>, bound: nat): set<seq<nat>>
    requires |x| == |a|
  {
    set b | b in Labelings(|x|, bound) && |b| == |x| && Within(x, b) < Within(x, a)
  }

  lemma CheaperShrinks(x: seq<real>, a: seq<nat>, b: seq<nat>, bound: nat)
    requires |x| == |a| == |b| && Below(b, bound)
    ensures Within(x, b) < Within(x, a) ==> Cheaper(x, b, bound) < Cheaper(x, a, bound)
    ensures Within(x, b) == Within(x, a) ==> Cheaper(x, b, bound) == Cheaper(x, a, bound)
  {
    hide Within, Labelings;
    IsLabeling(b, bound);
    if Within(x, b) < Within(x, a) {
      assert b in Cheaper(x, a, bound) && b !in Cheaper(x, b, bound);
    }
  }

  /** The labels read as the digits of a number. */
  function Number(a: seq<nat>, bound: nat): nat {
    if a == [] then 0 else Number(a[..|a| - 1], bound) * bound + a[|a| - 1]
  }

  lemma Digits(m: nat, n: nat, c: nat, d: nat, bound: nat)
    requires m <= n && c < bound
    ensures m < n ==> m * bound + c < n * bound + d
    ensures c <= d ==> m * bound + c <= n * bound + d
    ensures c <= d && m * bound + c == n * bound + d ==> m == n && c == d
  {
    if m < n {
      assert (m + 1) * bound <= n * bound;
    }
  }

  lemma {:induction false} LowerLabels(a: seq<nat>, b: seq<nat>, bound: nat)
    requires |a| == |b| && Below(a, bound) && forall p | 0 <= p < |a| :: a[p] <= b[p]
    ensures Number(a, bound) <= Number(b, bound)
    ensures Number(a, bound) == Number(b, bound) ==> a == b
  {
    if a != [] {
      var n := |a| - 1;
      LowerLabels(a[..n], b[..n], bound);
      Digits(Number(a[..n], bound), Number(b[..n], bound), a[n], b[n], bound);
      assert a == a[..n] + [a[n]] && b == b[..n] + [b[n]];
    }
  }

  lemma {:induction false} DifferentBelow(s: seq<nat>, bound: nat)
    requires AllDifferent(s) && Below(s, bound)
    ensures |s| <= bound
    decreases bound
  {
    if s != [] {
      assert s[0] < bound;
      var top: nat := bound - 1;
      if top in s {
        var i :| 0 <= i < |s| && s[i] == top;
        DifferentBelow(s[..i] + s[i + 1..], top);
      } else {
        assert forall p | 0 <= p < |s| :: s[p] in s;
        DifferentBelow(s, top);
      }
    }
  }

  lemma OrderIsShort(a: seq<nat>, bound: nat)
    requires Below(a, bound)
    ensures |Order(a)| <= bound
  {
    OrderIsDistinct(a);
    OrderIsInUse(seq(|a|, i => 0.0), a);
    var order := Order(a);
    forall p | 0 <= p < |order|
      ensures order[p] < bound
    {
      assert order[p] in order;
    }
    DifferentBelow(order, bound);
  }

  lemma CanonicalIsBelow(a: seq<nat>, bound: nat)
    requires Below(a, bound)
    ensures Below(Canonical(a), bound)
  {
    OrderIsShort(a, bound);
    forall p | 0 <= p < |a|
      ensures Canonical(a)[p] < bound
    {
      CanonicalAt(a, p);
    }
  }

  lemma RoundIsBelow(x: seq<real>, a: seq<nat>, bound: nat)
    requires |x| == |a| && Below(a, bound)
    ensures Below(Round(x, a), bound)
  {
    OrderIsShort(a, bound);
    NearestIsInRange(x, a);
    forall p | 0 <= p < |x|
      ensures Round(x, a)[p] < bound
    {
      assert Round(x, a)[p] in Round(x, a);
    }
  }

  lemma CanonicalGrows(a: seq<nat>)
    requires a != []
    ensures var n, c := |a| - 1, Canonical(a);
            var order := Order(a[..n]);
            c[..n] == Canonical(a[..n]) && c[n] == if a[n] in order then IndexIn(order, a[n]) else |order|
  {
  }

  /** Behind a canonical labeling, the canonical label is the least that groups alike. */
  lemma LastIsLeast(front: seq<nat>, last: nat)
    requires Canonical(front) == front
    ensures (if last in Order(front) then IndexIn(Order(front), last) else |Order(front)|) <= last
  {
    hide Canonical, Order;
    OrderOfCanonical(front);
    var order := Order(front);
    assert order == UpTo(|order|);
    if last < |order| {
      assert order[last] == last;
    }
  }

  /** Relabelling by position gives the least of the labelings that group the points alike. */
  lemma {:induction false} CanonicalIsLeast(a: seq<nat>, bound: nat)
    requires Below(a, bound)
    ensures Canonical(a) == a || Number(Canonical(a), bound) < Number(a, bound)
  {
    hide Canonical, Order;
    if a == [] {
      assert Canonical(a) == [];
    } else {
      var n := |a| - 1;
      var c := Canonical(a);
      CanonicalIsLeast(a[..n], bound);
      CanonicalIsBelow(a, bound);
      CanonicalGrows(a);
      if c[..n] == a[..n] {
        LastIsLeast(a[..n], a[n]);
        assert c == c[..n] + [c[n]] && a == a[..n] + [a[n]];
      }
      Digits(Number(c[..n], bound), Number(a[..n], bound), c[n], a[n], bound);
    }
  }

  /** 0 once a round has saved nothing. */
  function Saving(x: seq<real>, was: Option<seq<nat>>, a: seq<nat>): nat
    requires |x| == |a| && (was.Some? ==> |was.value| == |a|)
  {
    if was.Some? && Within(x, was.value) == Within(x, a) then 0 else 1
  }

  /** 0 at the end, 1 when only positions were renamed. */
  function Renaming(was: Option<seq<nat>>, a: seq<nat>): nat {
    if was == Some(a) then 0 else if was.Some? && a == Canonical(was.value) then 1 else 2
  }

  /** The measure of the iteration goes down with each round, ties and emptied clusters included. */
  lemma RoundMakesProgress(x: seq<real>, was: Option<seq<nat>>, a: seq<nat>, bound: nat)
    requires |x| == |a| && Below(a, bound) && was != Some(a)
    requires was.Some? ==> |was.value| == |a| && a == Round(x, was.value)
    ensures var b := Round(x, a);
            Cheaper(x, b, bound) < Cheaper(x, a, bound)
            || (Cheaper(x, b, bound) == Cheaper(x, a, bound)
                && (Saving(x, Some(a), b) < Saving(x, was, a)
                    || (Saving(x, Some(a), b) == Saving(x, was, a)
                        && (Number(Canonical(b), bound) < Number(Canonical(a), bound)
                            || (Number(Canonical(b), bound) == Number(Canonical(a), bound)
                                && Renaming(Some(a), b) < Renaming(was, a))))))
  {
    hide Cheaper, Canonical, Number, Within, Centers;
    var b := Round(x, a);
    RoundIsBelow(x, a, bound);
    RoundNeverWorsens(x, a);
    CheaperShrinks(x, a, b, bound);
    if Within(x, b) == Within(x, a) && Saving(x, was, a) == 0 {
      RoundAfterTie(x, was.value);
      LowerLabels(b, Canonical(a), bound);
      CanonicalIsLeast(b, bound);
      if a == Canonical(was.value) {
        CanonicalHasSameCenters(x, was.value);
      }
    }
  }

  method KMeans(dataset: seq<real>, kPoints: seq<real>) returns (assignments: seq<nat>)
    ensures |assignments| == |dataset|
    ensures Round(dataset, assignments) == assignments
    ensures exists n: nat :: assignments == Rounds(dataset, Assigned(dataset, kPoints), n)
    ensures Within(dataset, assignments) <= Within(dataset, Assigned(dataset, kPoints))
    ensures kPoints != [] ==> Below(assignments, |kPoints|)
  {
    assignments := AssignPoints(dataset, kPoints);
    ghost var start, bound := assignments, if kPoints == [] then 1 else |kPoints|;
    ghost var n: nat := 0;
    assert assignments == Rounds(dataset, start, n);
    var oldAssignments: Option<seq<nat>> := None;
    hide Cheaper, Canonical, Number, Within, Centers, Round, Saving, Renaming;
    while oldAssignments != Some(assignments)
      invariant |assignments| == |dataset| && Below(assignments, bound)
      invariant oldAssignments.Some? ==>
                  |oldAssignments.value| == |dataset| && assignments == Round(dataset, oldAssignments.value)
      invariant assignments == Rounds(dataset, start, n)
      invariant Within(dataset, assignments) <= Within(dataset, start)
      decreases Cheaper(dataset, assignments, bound), Saving(dataset, oldAssignments, assignments),
                Number(Canonical(assignments), bound), Renaming(oldAssignments, assignments)
    {
      RoundMakesProgress(dataset, oldAssignments, assignments, bound);
      RoundNeverWorsens(dataset, assignments);
      RoundIsBelow(dataset, assignments, bound);
      RoundIs(dataset, assignments);
      var newCenters := UpdateCenters(dataset, assignments);
      oldAssignments := Some(assignments);
      assignments := AssignPoints(dataset, newCenters);
      n := n + 1;
    }
  }

  lemma RoundIs(x: seq<real>, a: seq<nat>)
    requires |x| == |a|
    ensures Round(x, a) == Assigned(x, Centers(x, a))
  {
  }

  // ----- where the iteration ends -----

  /** At the end the labels are the positions of the centers, */
  lemma EndIsCanonical(x: seq<real>, a: seq<nat>)
    requires |x| == |a| && Round(x, a) == a
    ensures Canonical(a) == a
    ensures a != [] ==> a[0] == 0
  {
    hide Centers, Number, Within;
    RoundAfterTie(x, a);
    var bound := Bound(a);
    CanonicalIsBelow(a, bound);
    CanonicalIsLeast(a, bound);
    LowerLabels(a, Canonical(a), bound);
    if a != [] {
      CanonicalStart(a);
    }
  }

  lemma {:induction false} CanonicalStart(a: seq<nat>)
    requires a != []
    ensures Canonical(a)[0] == 0
  {
    if |a| > 1 {
      CanonicalStart(a[..|a| - 1]);
    }
  }

  function Bound(a: seq<nat>): (n: nat)
    ensures Below(a, n)
  {
    if a == [] then 0
    else
      var n, last := Bound(a[..|a| - 1]), a[|a| - 1];
      if last < n then n else last + 1
  }

  /** and each point is at least as near to the mean of its own cluster as to that of any other. */
  lemma EndIsNearest(x: seq<real>, a: seq<nat>, p: nat, l: nat)
    requires |x| == |a| && Round(x, a) == a && p < |a| && l in a
    ensures Distance(x[p], MeanOf(x, a, a[p])) <= Distance(x[p], MeanOf(x, a, l))
    ensures l < a[p] ==> Distance(x[p], MeanOf(x, a, a[p])) < Distance(x[p], MeanOf(x, a, l))
  {
    hide Canonical, MeanOf, Distance, Order;
    EndIsCanonical(x, a);
    OrderOfCanonical(a);
    OrderIsInUse(x, a);
    NearestIsInRange(x, a);
    assert a[p] in a;
    assert Centers(x, a)[a[p]] == MeanOf(x, a, a[p]);
    assert UpTo(|Order(a)|)[..] == Order(a);
    assert l in UpTo(|Order(a)|);
    assert Centers(x, a)[l] == MeanOf(x, a, l);
  }
}
