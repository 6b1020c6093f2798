/** The class hierarchy questions that the class writer of the agent asks while it merges types. */
module TypeHierarchy {
  import opened Text
  import opened Wrappers

  datatype ClassInfo = ClassInfo(isInterface: bool, superName: Option<string>, interfaces: seq<string>)

  /** The class files that can be found, by internal name. */
  type Loader = map<string, ClassInfo>

  const OBJECT := "java/lang/Object"

  /** What is known about a name; array types have no class file. */
  function Info(loader: Loader, name: string): Option<ClassInfo> {
    if StartsWith(name, "[") || name !in loader then None else Some(loader[name])
  }

  // ----- reachability -----

  predicate SuperEdge(loader: Loader, a: string, b: string) {
    Info(loader, a).Some? && Info(loader, a).value.superName == Some(b)
  }

  predicate InterfaceEdge(loader: Loader, a: string, b: string) {
    Info(loader, a).Some? && b in Info(loader, a).value.interfaces
  }

  predicate Edge(loader: Loader, a: string, b: string) {
    SuperEdge(loader, a, b) || InterfaceEdge(loader, a, b)
  }

  predicate IsPath(loader: Loader, p: seq<string>, a: string, b: string) {
    && p != [] && p[0] == a && p[|p| - 1] == b
    && forall i | 0 <= i < |p| - 1 :: Edge(loader, p[i], p[i + 1])
  }

  /** `b` is `a` or a class or interface above it. */
  ghost predicate Reaches(loader: Loader, a: string, b: string) {
    exists p :: IsPath(loader, p, a, b)
  }

  lemma ReachesSelf(loader: Loader, a: string)
    ensures Reaches(loader, a, a)
  {
    assert IsPath(loader, [a], a, a);
  }

  lemma ReachesVia(loader: Loader, a: string, c: string, b: string)
    requires Edge(loader, a, c) && Reaches(loader, c, b)
    ensures Reaches(loader, a, b)
  {
    var p :| IsPath(loader, p, c, b);
    assert IsPath(loader, [a] + p, a, b);
  }

  lemma ReachesFirst(loader: Loader, a: string, b: string) returns (c: string)
    requires Reaches(loader, a, b) && a != b
    ensures Edge(loader, a, c) && Reaches(loader, c, b)
  {
    var p :| IsPath(loader, p, a, b);
    c := p[1];
    assert IsPath(loader, p[1..], c, b);
  }

  /** No class is above itself: no path of two or more names leads back to where it begins. */
  ghost predicate Acyclic(loader: Loader) {
    forall p, a | |p| > 1 :: !IsPath(loader, p, a, a)
  }

  /** The names with class files that are above a name. */
  ghost function Above(loader: Loader, a: string): set<string> {
    set k | k in loader && Reaches(loader, a, k)
  }

  ghost function Height(loader: Loader, a: string): nat {
    |Above(loader, a)|
  }

  /** Along every edge there are fewer names left above. */
  lemma HeightFalls(loader: Loader, a: string, b: string)
    requires Acyclic(loader) && Edge(loader, a, b)
    ensures Height(loader, b) < Height(loader, a)
  {
    hide IsPath, Edge;
    assert a in loader by { EdgesBeginAtFiles(loader, a, b); }
    ReachesSelf(loader, a);
    forall k | k in Above(loader, b)
      ensures k in Above(loader, a)
    {
      ReachesVia(loader, a, b, k);
    }
    if Reaches(loader, b, a) {
      PathBack(loader, a, b);
    }
    assert a in Above(loader, a) && a !in Above(loader, b);
    SubsetIsSmaller(Above(loader, b), Above(loader, a), a);
  }

  lemma EdgesBeginAtFiles(loader: Loader, a: string, b: string)
    requires Edge(loader, a, b)
    ensures a in loader
  {
  }

  lemma PathBack(loader: Loader, a: string, b: string)
    requires Edge(loader, a, b) && Reaches(loader, b, a)
    ensures !Acyclic(loader)
  {
    var p :| IsPath(loader, p, b, a);
    var cycle := [a] + p;
    assert |cycle| > 1 && IsPath(loader, cycle, a, a);
  }

  lemma SubsetIsSmaller(a: set<string>, b: set<string>, x: string)
    requires a <= b && x in b && x !in a
    ensures |a| < |b|
  {
    var rest := b - a;
    assert x in rest && b == a + rest;
  }

  lemma {:induction false} HeightFallsFar(loader: Loader, a: string, b: string)
    requires Acyclic(loader) && Reaches(loader, a, b)
    ensures a == b || Height(loader, b) < Height(loader, a)
    decreases Height(loader, a)
  {
    hide Acyclic, Height, Edge;
    if a != b {
      var c := ReachesFirst(loader, a, b);
      HeightFalls(loader, a, c);
      HeightFallsFar(loader, c, b);
    }
  }

  lemma SuperIsLower(loader: Loader, a: string)
    requires Acyclic(loader) && Info(loader, a).Some?
    ensures var s := Info(loader, a).value.superName;
            s.Some? ==> SuperEdge(loader, a, s.value) && Height(loader, s.value) < Height(loader, a)
  {
    var s := Info(loader, a).value.superName;
    if s.Some? {
      HeightFalls(loader, a, s.value);
    }
  }

  /** The answer that `isAssignableFrom` promises. */
  ghost predicate Assignable(loader: Loader, target: string, source: string) {
    target == OBJECT || Reaches(loader, source, target)
  }

  // ----- the resolver -----

  class TypeHierarchyResolver {
    const loader: Loader
    /** The answers of the reflective fallback, which is not modelled further. */
    const reflection: map<(string, string), string>
    var cache: map<string, ClassInfo>

    /** Whatever is cached is what would be loaded. */
    ghost predicate Valid()
      reads this
    {
      forall n | n in cache :: Info(loader, n) == Some(cache[n])
    }

    constructor (loader: Loader, reflection: map<(string, string), string>)
      ensures Valid() && this.loader == loader && this.reflection == reflection
    {
      this.loader, this.reflection, cache := loader, reflection, map[];
    }

    method LoadClassInfo(internalName: string) returns (r: Option<ClassInfo>)
      ensures r == if internalName in loader then Some(loader[internalName]) else None
    {
      r := if internalName in loader then Some(loader[internalName]) else None;
    }

    method GetClassInfo(internalName: string) returns (r: Option<ClassInfo>)
      requires Valid()
      modifies this`cache
      ensures Valid() && r == Info(loader, internalName)
      ensures r.None? <==> internalName !in loader || (internalName != "" && internalName[0] == '[')
      ensures r.Some? ==> r.value == loader[internalName]
    {
      if StartsWith(internalName, "[") {
        return None;
      }
      if internalName in cache {
        return Some(cache[internalName]);
      }
      r := LoadClassInfo(internalName);
      if r.Some? {
        cache := cache[internalName := r.value];
      }
    }

    /** Whether one of the interfaces is, or is below, the target. */
    method AnyInterface(target: string, source: string, info: ClassInfo) returns (r: bool)
      requires Valid() && Acyclic(loader) && Info(loader, source) == Some(info) && target != OBJECT
      modifies this`cache
      ensures Valid()
      ensures r <==> exists c :: InterfaceEdge(loader, source, c) && Reaches(loader, c, target)
      decreases Height(loader, source), 0
    {
      var i := 0;
      while i < |info.interfaces|
        invariant 0 <= i <= |info.interfaces| && Valid()
        invariant forall j | 0 <= j < i :: !Reaches(loader, info.interfaces[j], target)
      {
        var interfaceName := info.interfaces[i];
        HeightFalls(loader, source, interfaceName);
        ReachesSelf(loader, target);
        if target == interfaceName {
          return true;
        }
        var below := IsAssignableFrom(target, interfaceName);
        if below {
          return true;
        }
        i := i + 1;
      }
      r := false;
    }

    method IsAssignableFrom(target: string, source: string) returns (r: bool)
      requires Valid() && Acyclic(loader)
      modifies this`cache
      ensures Valid() && r == Assignable(loader, target, source)
      decreases Height(loader, source), 1
    {
      ReachesSelf(loader, source);
      if target == source || target == OBJECT {
        return true;
      }
      var sourceInfo := GetClassInfo(source);
      if sourceInfo.None? {
        NothingAbove(loader, source, target);
        return false;
      }
      var found := AnyInterface(target, source, sourceInfo.value);
      if found {
        InterfacesSuffice(loader, source, target);
        return true;
      }
      var superName := sourceInfo.value.superName;
      SuperRemains(loader, source, target);
      SuperIsLower(loader, source);
      while superName.Some?
        invariant Valid()
        invariant Reaches(loader, source, target) <==> superName.Some? && Reaches(loader, superName.value, target)
        invariant superName.Some? ==> Height(loader, superName.value) < Height(loader, source)
        decreases if superName.Some? then 1 + Height(loader, superName.value) else 0
      {
        if target == superName.value {
          ReachesSelf(loader, target);
          return true;
        }
        var superInfo := GetClassInfo(superName.value);
        if superInfo.None? {
          NothingAbove(loader, superName.value, target);
          break;
        }
        found := AnyInterface(target, superName.value, superInfo.value);
        if found {
          InterfacesSuffice(loader, superName.value, target);
          return true;
        }
        SuperRemains(loader, superName.value, target);
        SuperIsLower(loader, superName.value);
        superName := superInfo.value.superName;
      }
      r := false;
    }

    /** Null names, which the class writer may pass, are `None`. */
    method GetCommonSuperClass(type1: Option<string>, type2: Option<string>)
      returns (r: string)
      requires Valid() && Acyclic(loader)
      modifies this`cache
      ensures Valid()
      ensures r == if type1.None? || type2.None? then OBJECT
              else CommonSuper(loader, reflection, type1.value, type2.value)
      ensures type1.None? || type2.None? ==> r == "java/lang/Object"
      ensures type1.Some? && type2.Some? ==> IsAnswer(loader, reflection, type1.value, type2.value, r)
    {
      if type1.Some? && type2.Some? {
        CommonSuperIsAnswer(loader, reflection, type1.value, type2.value);
      }
      hide IsAnswer;
      if type1.None? || type2.None? {
        return OBJECT;
      }
      var a, b := type1.value, type2.value;
      if a == b {
        return a;
      }
      var above := IsAssignableFrom(a, b);
      if above {
        return a;
      }
      above := IsAssignableFrom(b, a);
      if above {
        return b;
      }
      var info1 := GetClassInfo(a);
      var info2 := GetClassInfo(b);
      if info1.None? || info2.None? {
        return if (a, b) in reflection then reflection[(a, b)] else OBJECT;
      }
      if info1.value.isInterface || info2.value.isInterface {
        return OBJECT;
      }
      var current := info1.value.superName;
      SuperIsLower(loader, a);
      while current.Some?
        invariant Valid()
        invariant FirstAbove(loader, info1.value.superName, b) == FirstAbove(loader, current, b)
        decreases if current.Some? then 1 + Height(loader, current.value) else 0
      {
        above := IsAssignableFrom(current.value, b);
        if above {
          return current.value;
        }
        var currentInfo := GetClassInfo(current.value);
        if currentInfo.None? {
          break;
        }
        SuperIsLower(loader, current.value);
        current := currentInfo.value.superName;
      }
      r := OBJECT;
    }
  }

  lemma NothingAbove(loader: Loader, a: string, b: string)
    requires Info(loader, a).None? && a != b
    ensures !Reaches(loader, a, b)
  {
    if Reaches(loader, a, b) {
      var c := ReachesFirst(loader, a, b);
      assert false;
    }
  }

  lemma InterfacesSuffice(loader: Loader, a: string, b: string)
    requires exists c :: InterfaceEdge(loader, a, c) && Reaches(loader, c, b)
    ensures Reaches(loader, a, b)
  {
    var c :| InterfaceEdge(loader, a, c) && Reaches(loader, c, b);
    ReachesVia(loader, a, c, b);
  }

  lemma SuperRemains(loader: Loader, a: string, b: string)
    requires Info(loader, a).Some? && a != b && !exists c :: InterfaceEdge(loader, a, c) && Reaches(loader, c, b)
    ensures var s := Info(loader, a).value.superName;
            Reaches(loader, a, b) <==> s.Some? && Reaches(loader, s.value, b)
  {
    var s := Info(loader, a).value.superName;
    if Reaches(loader, a, b) {
      var c := ReachesFirst(loader, a, b);
    }
    if s.Some? && Reaches(loader, s.value, b) {
      ReachesVia(loader, a, s.value, b);
    }
  }

  /** The first of `current` and the classes above it that is above `b`. */
  ghost function FirstAbove(loader: Loader, current: Option<string>, b: string): string
    requires Acyclic(loader)
    decreases if current.Some? then 1 + Height(loader, current.value) else 0
  {
    if current.None? then OBJECT
    else if Assignable(loader, current.value, b) then current.value
    else if Info(loader, current.value).None? then OBJECT
    else
      var above := Info(loader, current.value).value.superName;
      SuperIsLower(loader, current.value);
      FirstAbove(loader, above, b)
  }

  ghost function CommonSuper(loader: Loader, reflection: map<(string, string), string>,
                             a: string, b: string): string
    requires Acyclic(loader)
  {
    if a == b || Assignable(loader, a, b) then a
    else if Assignable(loader, b, a) then b
    else if Info(loader, a).None? || Info(loader, b).None? then
      if (a, b) in reflection then reflection[(a, b)] else OBJECT
    else if Info(loader, a).value.isInterface || Info(loader, b).value.isInterface then OBJECT
    else FirstAbove(loader, Info(loader, a).value.superName, b)
  }

  /**
   * What the common superclass of two types is, on any acyclic hierarchy: one of them if it is assignable
   * from the other; by reflection, or `Object`, if a class file is missing; `Object` if one is an
   * interface; and else the lowest superclass of the first that is assignable from the second, or `Object`.
   */
  ghost predicate IsAnswer(loader: Loader, reflection: map<(string, string), string>, a: string, b: string, r: string)
    requires Acyclic(loader)
  {
    var isAbove, isBelow := Assignable(loader, a, b), Assignable(loader, b, a);
    var x, y := Info(loader, a), Info(loader, b);
    && (isAbove ==> r == a)
    && (!isAbove && isBelow ==> r == b)
    && (!isAbove && !isBelow && (x.None? || y.None?) ==>
          r == if (a, b) in reflection then reflection[(a, b)] else "java/lang/Object")
    && (!isAbove && !isBelow && x.Some? && y.Some? ==>
          && Assignable(loader, r, a) && Assignable(loader, r, b)
          && (if x.value.isInterface || y.value.isInterface then r == "java/lang/Object"
              else IsLowestOver(loader, a, b, r)))
  }

  /** The lowest superclass of `a` that is assignable from `b`, or `Object` if there is none. */
  ghost predicate IsLowestOver(loader: Loader, a: string, b: string, r: string)
    requires Acyclic(loader)
  {
    if exists c :: IsSuperclass(loader, a, c) && Assignable(loader, c, b) then
      && IsSuperclass(loader, a, r)
      && forall c | IsSuperclass(loader, a, c) && Assignable(loader, c, b) :: IsSuperclass(loader, r, c)
    else r == "java/lang/Object"
  }

  lemma {:induction false} FirstAboveIsLowestOver(loader: Loader, current: Option<string>, b: string)
    requires Acyclic(loader)
    ensures var r := FirstAbove(loader, current, b);
            && Assignable(loader, r, b)
            && (current.None? ==> r == OBJECT)
            && (current.Some? ==> Assignable(loader, r, current.value) && IsLowestOver(loader, current.value, b, r))
    decreases if current.Some? then 1 + Height(loader, current.value) else 0
  {
    hide Height, Acyclic, Edge;
    if current.Some? && !Assignable(loader, current.value, b) {
      var a, info := current.value, Info(loader, current.value);
      if info.Some? {
        SuperIsLower(loader, a);
        FirstAboveIsLowestOver(loader, info.value.superName, b);
        if info.value.superName.Some? {
          var s := info.value.superName.value;
          forall c
            ensures IsSuperclass(loader, a, c) <==> c == a || IsSuperclass(loader, s, c)
          {
          }
          var r := FirstAbove(loader, current, b);
          if r != OBJECT && Reaches(loader, s, r) {
            ReachesVia(loader, a, s, r);
          }
        }
      }
    } else if current.Some? {
      ReachesSelf(loader, current.value);
    }
  }

  lemma CommonSuperIsAnswer(loader: Loader, reflection: map<(string, string), string>, a: string, b: string)
    requires Acyclic(loader)
    ensures IsAnswer(loader, reflection, a, b, CommonSuper(loader, reflection, a, b))
  {
    hide Acyclic, Height, Edge;
    ReachesSelf(loader, a);
    var x := Info(loader, a);
    if x.Some? && !Assignable(loader, a, b) {
      FirstAboveIsLowestOver(loader, x.value.superName, b);
      var r := FirstAbove(loader, x.value.superName, b);
      SuperIsLower(loader, a);
      if x.value.superName.Some? {
        var s := x.value.superName.value;
        if Reaches(loader, s, r) {
          ReachesVia(loader, a, s, r);
        }
        forall c
          ensures IsSuperclass(loader, a, c) <==> c == a || IsSuperclass(loader, s, c)
        {
        }
      }
    }
  }

  // ----- the least common superclass -----

  /** A hierarchy as the Java language builds it, with all its class files at hand. */
  ghost predicate WellFormed(loader: Loader) {
    && Info(loader, OBJECT) == Some(ClassInfo(false, None, []))
    && forall n | n in loader && Info(loader, n).Some? && n != OBJECT ::
         var info := Info(loader, n).value;
         && info.superName.Some? && IsClass(loader, info.superName.value)
         && (info.isInterface ==> info.superName == Some(OBJECT))
         && (forall i | i in info.interfaces :: IsInterface(loader, i))
  }

  predicate IsClass(loader: Loader, n: string) {
    Info(loader, n).Some? && !Info(loader, n).value.isInterface
  }

  predicate IsInterface(loader: Loader, n: string) {
    Info(loader, n).Some? && Info(loader, n).value.isInterface
  }

  /** `c` is `a` or one of its superclasses. */
  ghost predicate IsSuperclass(loader: Loader, a: string, c: string)
    requires Acyclic(loader)
    decreases Height(loader, a)
  {
    a == c ||
    (Info(loader, a).Some? &&
     var s := Info(loader, a).value.superName;
     s.Some? && (SuperIsLower(loader, a); IsSuperclass(loader, s.value, c)))
  }

  lemma {:induction false} SuperclassReaches(loader: Loader, a: string, c: string)
    requires Acyclic(loader) && IsSuperclass(loader, a, c)
    ensures Reaches(loader, a, c)
    decreases Height(loader, a)
  {
    if a == c {
      ReachesSelf(loader, a);
    } else {
      var s := Info(loader, a).value.superName.value;
      SuperIsLower(loader, a);
      SuperclassReaches(loader, s, c);
      ReachesVia(loader, a, s, c);
    }
  }

  lemma {:induction false} InterfacesReachNoClass(loader: Loader, i: string, c: string)
    requires Acyclic(loader) && WellFormed(loader)
    requires IsInterface(loader, i) && Reaches(loader, i, c) && IsClass(loader, c)
    ensures c == OBJECT
    decreases Height(loader, i)
  {
    var n := ReachesFirst(loader, i, c);
    HeightFalls(loader, i, n);
    if InterfaceEdge(loader, i, n) {
      InterfacesReachNoClass(loader, n, c);
    } else if c != OBJECT {
      var o := ReachesFirst(loader, OBJECT, c);
    }
  }

  lemma {:induction false} ObjectIsTop(loader: Loader, a: string)
    requires Acyclic(loader) && WellFormed(loader) && Info(loader, a).Some?
    ensures IsSuperclass(loader, a, OBJECT)
    decreases Height(loader, a)
  {
    if a != OBJECT {
      var s := Info(loader, a).value.superName.value;
      SuperIsLower(loader, a);
      ObjectIsTop(loader, s);
    }
  }

  lemma {:induction false} ReachedClassIsSuperclass(loader: Loader, a: string, c: string)
    requires Acyclic(loader) && WellFormed(loader) && Info(loader, a).Some? && IsClass(loader, c)
    requires Reaches(loader, a, c)
    ensures IsSuperclass(loader, a, c)
    decreases Height(loader, a)
  {
    if a != c {
      var n := ReachesFirst(loader, a, c);
      HeightFalls(loader, a, n);
      if SuperEdge(loader, a, n) {
        ReachedClassIsSuperclass(loader, n, c);
      } else {
        InterfacesReachNoClass(loader, n, c);
        ObjectIsTop(loader, a);
      }
    }
  }

  /** Between classes, being assignable is being a superclass. */
  lemma AssignableIffSuperclass(loader: Loader, a: string, c: string)
    requires Acyclic(loader) && WellFormed(loader) && Info(loader, a).Some? && IsClass(loader, c)
    ensures Assignable(loader, c, a) <==> IsSuperclass(loader, a, c)
  {
    if c == OBJECT {
      ObjectIsTop(loader, a);
    } else if Reaches(loader, a, c) {
      ReachedClassIsSuperclass(loader, a, c);
    }
    if IsSuperclass(loader, a, c) {
      SuperclassReaches(loader, a, c);
    }
  }

  /** `r` is above both, and below everything that is above both. */
  ghost predicate IsLowestCommon(loader: Loader, a: string, b: string, r: string)
    requires Acyclic(loader)
  {
    && IsSuperclass(loader, a, r) && IsSuperclass(loader, b, r)
    && forall c | IsSuperclass(loader, a, c) && IsSuperclass(loader, b, c) ::
      IsSuperclass(loader, r, c)
  }

  lemma {:induction false} FirstAboveIsLowest(loader: Loader, a: string, b: string)
    requires Acyclic(loader) && WellFormed(loader) && IsClass(loader, a) && IsClass(loader, b)
    ensures IsLowestCommon(loader, a, b, FirstAbove(loader, Some(a), b))
    decreases Height(loader, a)
  {
    AssignableIffSuperclass(loader, b, a);
    if !Assignable(loader, a, b) {
      var s := Info(loader, a).value.superName.value;
      SuperIsLower(loader, a);
      FirstAboveIsLowest(loader, s, b);
    }
  }

  /** The common superclass of two classes is the lowest one. */
  lemma CommonSuperIsLowest(loader: Loader, reflection: map<(string, string), string>, a: string,
                            b: string)
    requires Acyclic(loader) && WellFormed(loader) && IsClass(loader, a) && IsClass(loader, b)
    ensures IsLowestCommon(loader, a, b, CommonSuper(loader, reflection, a, b))
  {
    AssignableIffSuperclass(loader, a, b);
    AssignableIffSuperclass(loader, b, a);
    AssignableIffSuperclass(loader, a, a);
    FirstAboveIsLowest(loader, a, b);
    ReachesSelf(loader, a);
  }

  lemma LowestCommonIsUnique(loader: Loader, a: string, b: string, r: string, q: string)
    requires Acyclic(loader) && IsLowestCommon(loader, a, b, r) && IsLowestCommon(loader, a, b, q)
    ensures r == q
  {
    SuperclassReaches(loader, r, q);
    SuperclassReaches(loader, q, r);
    HeightFallsFar(loader, r, q);
    HeightFallsFar(loader, q, r);
  }

  /** The order of the two types does not matter, for classes and interfaces alike. */
  lemma CommonSuperIsSymmetric(loader: Loader, reflection: map<(string, string), string>,
                               a: string, b: string)
    requires Acyclic(loader) && WellFormed(loader) && Info(loader, a).Some? && Info(loader, b).Some?
    ensures CommonSuper(loader, reflection, a, b) == CommonSuper(loader, reflection, b, a)
  {
    if IsClass(loader, a) && IsClass(loader, b) {
      var r, q := CommonSuper(loader, reflection, a, b), CommonSuper(loader, reflection, b, a);
      CommonSuperIsLowest(loader, reflection, a, b);
      CommonSuperIsLowest(loader, reflection, b, a);
      LowestCommonIsUnique(loader, a, b, r, q);
    } else if a != b && Assignable(loader, a, b) && Assignable(loader, b, a) {
      ObjectIsTop(loader, a);
      ObjectIsTop(loader, b);
      SuperclassReaches(loader, a, OBJECT);
      SuperclassReaches(loader, b, OBJECT);
      HeightFallsFar(loader, a, b);
      HeightFallsFar(loader, b, a);
    }
  }
}
