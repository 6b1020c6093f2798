/** The expansion of `${var}` in values of the Hadoop configuration. */
module Substitution {
  import opened Wrappers

  // ----- the scanner -----

  /** The characters between the braces of a variable. */
  predicate IsBodyChar(c: char) {
    c != '}' && c != '$' && c != ' '
  }

  /** `eval[start..end]` is the name of a variable: `\$\{[^\}\$ ]+\}` matches around it. */
  predicate IsMatch(eval: string, start: int, end: int) {
    && 2 <= start < end < |eval|
    && eval[start - 2] == '$' && eval[start - 1] == '{' && eval[end] == '}'
    && forall i | start <= i < end :: IsBodyChar(eval[i])
  }

  ghost predicate IsLeftmost(eval: string, start: int, end: int) {
    IsMatch(eval, start, end) && forall s, e | IsMatch(eval, s, e) :: start <= s
  }

  lemma LeftmostIsUnique(eval: string, s1: int, e1: int, s2: int, e2: int)
    requires IsLeftmost(eval, s1, e1) && IsLeftmost(eval, s2, e2)
    ensures s1 == s2 && e1 == e2
  {
    assert eval[e1] == '}' && eval[e2] == '}';
  }

  /** `String.indexOf(char, int)`. */
  method IndexOf(s: string, c: char, from: nat) returns (r: int)
    ensures r == -1 || from <= r < |s|
    ensures r == -1 ==> forall i | from <= i < |s| :: s[i] != c
    ensures r != -1 ==> s[r] == c && forall i | from <= i < r :: s[i] != c
  {
    r := from;
    while r < |s|
      invariant from <= r && forall i | from <= i < r && i < |s| :: s[i] != c
    {
      if s[r] == c {
        return;
      }
      r := r + 1;
    }
    r := -1;
  }

  /** Scanning for a brace first finds what the regular expression finds. */
  method FindSubVariable(eval: string) returns (start: int, end: int)
    ensures start == -1 ==> end == -1 && forall s, e :: !IsMatch(eval, s, e)
    ensures start != -1 ==> IsLeftmost(eval, start, end)
  {
    start, end := -1, -1;
    var matchStart: nat := 1;
    var leftBrace := IndexOf(eval, '{', matchStart);
    while leftBrace > 0 && leftBrace + |"{c"| < |eval|
      invariant 1 <= matchStart
      invariant leftBrace == -1 || matchStart <= leftBrace < |eval|
      invariant leftBrace == -1 ==> forall i | matchStart <= i < |eval| :: eval[i] != '{'
      invariant leftBrace != -1 ==> eval[leftBrace] == '{' && forall i | matchStart <= i < leftBrace :: eval[i] != '{'
      invariant forall s, e | IsMatch(eval, s, e) :: s - 1 >= matchStart
      decreases |eval| - matchStart
    {
      var matchedLen := 0;
      if eval[leftBrace - 1] == '$' {
        var subStart := leftBrace + 1;
        var i := subStart;
        while i < |eval| && eval[i] != ' ' && eval[i] != '$' && !(eval[i] == '}' && matchedLen == 0)
          invariant subStart <= i <= |eval| && matchedLen == i - subStart
          invariant forall j | subStart <= j < i :: IsBodyChar(eval[j])
        {
          if eval[i] == '}' {
            start, end := subStart, subStart + matchedLen;
            assert IsMatch(eval, start, end);
            return;
          }
          matchedLen := matchedLen + 1;
          i := i + 1;
        }
        NoMatchBefore(eval, subStart, i);
        if i == |eval| {
          return;
        }
        matchStart := i + 1;
      } else {
        matchStart := leftBrace + 1;
      }
      leftBrace := IndexOf(eval, '{', matchStart);
    }
  }

  /** A scan from `${` that stops at `stop` without a match rules out every name that begins up to there. */
  lemma NoMatchBefore(eval: string, subStart: int, stop: int)
    requires 2 <= subStart <= stop <= |eval| && eval[subStart - 2] == '$' && eval[subStart - 1] == '{'
    requires forall j | subStart <= j < stop :: IsBodyChar(eval[j])
    requires stop < |eval| ==> eval[stop] == ' ' || eval[stop] == '$' || (eval[stop] == '}' && stop == subStart)
    ensures forall s, e | IsMatch(eval, s, e) && s >= subStart :: s - 1 > stop
  {
    forall s, e | IsMatch(eval, s, e) && s >= subStart
      ensures s - 1 > stop
    {
      assert eval[s - 2] == '$' && eval[e] == '}';
    }
  }

  // ----- the expansion -----

  const MAX_SUBST := 20

  ghost function Leftmost(eval: string): Option<(int, int)> {
    if exists s, e :: IsLeftmost(eval, s, e)
    then var s, e :| IsLeftmost(eval, s, e); Some((s, e))
    else None
  }

  /** Replaces the leftmost variable; none if there is no variable, or if it is unbound. */
  ghost function Replaced(lookup: string -> Option<string>, eval: string): Option<string> {
    match Leftmost(eval)
    case None => None
    case Some(m) =>
      assert IsMatch(eval, m.0, m.1);
      (match Bound(lookup, eval[m.0..m.1])
       case None => None
       case Some(value) => Some(eval[..m.0 - 2] + value + eval[m.1 + 1..]))
  }

  function Bound(lookup: string -> Option<string>, name: string): Option<string> {
    lookup(name)
  }

  /** The value after at most `n` replacements. */
  ghost function Expanded(lookup: string -> Option<string>, eval: string, n: nat): string
    decreases n
  {
    if n == 0 || Replaced(lookup, eval).None? then eval else Expanded(lookup, Replaced(lookup, eval).value, n - 1)
  }

  /** Nothing is left to replace, or the leftmost variable is unbound. */
  ghost predicate IsFinished(lookup: string -> Option<string>, eval: string) {
    Replaced(lookup, eval).None?
  }

  datatype Substituted = Null | Value(text: string) | TooDeep

  lemma LeftmostFound(eval: string, start: int, end: int)
    requires start == -1 ==> forall s, e :: !IsMatch(eval, s, e)
    requires start != -1 ==> IsLeftmost(eval, start, end)
    ensures Leftmost(eval) == if start == -1 then None else Some((start, end))
  {
    if start != -1 {
      var m := Leftmost(eval).value;
      LeftmostIsUnique(eval, start, end, m.0, m.1);
    }
  }

  lemma ExpandedNone(lookup: string -> Option<string>, eval: string)
    ensures Expanded(lookup, eval, 0) == eval
  {
  }

  lemma ExpandedOnce(lookup: string -> Option<string>, eval: string, next: string, n: nat)
    requires n > 0 && Replaced(lookup, eval) == Some(next)
    ensures Expanded(lookup, eval, n) == Expanded(lookup, next, n - 1)
  {
    hide Replaced;
  }

  lemma {:induction false} ExpandedStep(lookup: string -> Option<string>, eval: string, n: nat)
    requires !IsFinished(lookup, Expanded(lookup, eval, n))
    ensures Expanded(lookup, eval, n + 1) == Replaced(lookup, Expanded(lookup, eval, n)).value
    decreases n
  {
    if n > 0 && Replaced(lookup, eval).Some? {
      ExpandedStep(lookup, Replaced(lookup, eval).value, n - 1);
    }
  }

  lemma {:induction false} FinishedStays(lookup: string -> Option<string>, eval: string, n: nat, m: nat)
    requires n <= m && IsFinished(lookup, Expanded(lookup, eval, n))
    ensures Expanded(lookup, eval, m) == Expanded(lookup, eval, n)
    decreases m
  {
    if n > 0 && Replaced(lookup, eval).Some? {
      FinishedStays(lookup, Replaced(lookup, eval).value, n - 1, m - 1);
    }
  }

  lemma ReplacedFound(lookup: string -> Option<string>, eval: string, start: int, end: int)
    requires IsLeftmost(eval, start, end)
    ensures Replaced(lookup, eval) ==
            if Bound(lookup, eval[start..end]).None? then None
            else Some(eval[..start - 2] + Bound(lookup, eval[start..end]).value + eval[end + 1..])
  {
    LeftmostFound(eval, start, end);
  }

  /** Behind a text without a dollar sign: the name between the braces is looked up, and its value takes their place. */
  lemma OneVariable(lookup: string -> Option<string>, front: string, name: string, back: string)
    requires '$' !in front && name != "" && forall c | c in name :: c != '}' && c != '$' && c != ' '
    ensures Replaced(lookup, front + "${" + name + "}" + back) ==
            match lookup(name) case None => None case Some(value) => Some(front + value + back)
  {
    hide Replaced;
    var eval := front + "${" + name + "}" + back;
    var start, end := |front| + 2, |front| + 2 + |name|;
    assert eval == front + ("${" + name + "}" + back);
    assert eval[start - 2] == '$' && eval[start - 1] == '{' && eval[end] == '}' && eval[start..end] == name;
    assert forall i | 0 <= i < |front| :: eval[i] == front[i];
    assert forall i | 0 <= i < |name| :: name[i] in name && eval[start + i] == name[i];
    assert forall i | start <= i < end :: eval[i] == name[i - start];
    assert IsMatch(eval, start, end);
    assert eval[..start - 2] == front && eval[end + 1..] == back;
    ReplacedFound(lookup, eval, start, end);
  }

  lemma ReplacedNone(lookup: string -> Option<string>, eval: string)
    requires forall s, e :: !IsMatch(eval, s, e)
    ensures Replaced(lookup, eval) == None
  {
    LeftmostFound(eval, -1, -1);
  }

  /** The expansion if it takes no more than `limit` replacements. */
  ghost function Limited(lookup: string -> Option<string>, expr: string, limit: nat): Substituted {
    if IsFinished(lookup, Expanded(lookup, expr, limit)) then Value(Expanded(lookup, expr, limit)) else TooDeep
  }

  /** `lookup` stands for the system properties and then the configuration itself. */
  method SubstituteVars(expr: Option<string>, lookup: string -> Option<string>) returns (r: Substituted)
    ensures expr.None? ==> r == Null
    ensures expr.Some? ==> r == Limited(lookup, expr.value, MAX_SUBST - 1)
  {
    hide Replaced;
    hide Expanded;
    if expr.None? {
      return Null;
    }
    var eval := expr.value;
    var s := 0;
    ExpandedNone(lookup, eval);
    while s < MAX_SUBST
      invariant 0 <= s <= MAX_SUBST
      invariant eval == Expanded(lookup, expr.value, s)
      invariant s > 0 ==> !IsFinished(lookup, Expanded(lookup, expr.value, s - 1))
    {
      var start, end := FindSubVariable(eval);
      if start == -1 {
        ReplacedNone(lookup, eval);
        FinishedStays(lookup, expr.value, s, MAX_SUBST - 1);
        return Value(eval);
      }
      var value := Bound(lookup, eval[start..end]);
      if value.None? {
        ReplacedFound(lookup, eval, start, end);
        FinishedStays(lookup, expr.value, s, MAX_SUBST - 1);
        return Value(eval);
      }
      ReplacedFound(lookup, eval, start, end);
      ExpandedStep(lookup, expr.value, s);
      var dollar := start - |"${"|;
      var afterRightBrace := end + |"}"|;
      eval := eval[..dollar] + value.value + eval[afterRightBrace..];
      s := s + 1;
    }
    r := TooDeep;
  }

  // ----- the limit is one lower than documented -----

  /** The expansion takes exactly `n` replacements. */
  ghost predicate Needs(lookup: string -> Option<string>, expr: string, n: nat) {
    && IsFinished(lookup, Expanded(lookup, expr, n))
    && forall m: nat | m < n :: !IsFinished(lookup, Expanded(lookup, expr, m))
  }

  /** A result within the limit is that of an expansion that takes no more replacements. */
  lemma LimitedIff(lookup: string -> Option<string>, expr: string, limit: nat)
    ensures Limited(lookup, expr, limit).TooDeep? <==> forall n: nat | n <= limit :: !Needs(lookup, expr, n)
    ensures forall n: nat | n <= limit && Needs(lookup, expr, n) ::
              Limited(lookup, expr, limit) == Value(Expanded(lookup, expr, n))
  {
    hide Expanded, IsFinished;
    forall n: nat | n <= limit && IsFinished(lookup, Expanded(lookup, expr, n))
      ensures Expanded(lookup, expr, limit) == Expanded(lookup, expr, n)
    {
      FinishedStays(lookup, expr, n, limit);
    }
    if IsFinished(lookup, Expanded(lookup, expr, limit)) {
      var n := FirstFinished(lookup, expr, limit);
    }
  }

  lemma {:induction false} FirstFinished(lookup: string -> Option<string>, expr: string, limit: nat) returns (n: nat)
    requires IsFinished(lookup, Expanded(lookup, expr, limit))
    ensures n <= limit && Needs(lookup, expr, n)
    decreases limit
  {
    hide Expanded, IsFinished;
    if m: nat :| m < limit && IsFinished(lookup, Expanded(lookup, expr, m)) {
      n := FirstFinished(lookup, expr, m);
    } else {
      n := limit;
    }
  }

  /**
   * The documentation promises a failure when more than `MAX_SUBST` replacements are required.
   * The code keeps to it exactly for values that do not take just that many.
   */
  lemma LimitAsDocumentedIff(lookup: string -> Option<string>, expr: string)
    ensures Limited(lookup, expr, MAX_SUBST - 1) == Limited(lookup, expr, MAX_SUBST) <==>
            !Needs(lookup, expr, MAX_SUBST)
  {
    hide Expanded, IsFinished, Limited, Needs;
    LimitedIff(lookup, expr, MAX_SUBST - 1);
    LimitedIff(lookup, expr, MAX_SUBST);
    NeedsOnce(lookup, expr);
    if n: nat :| n < MAX_SUBST && Needs(lookup, expr, n) {
    } else if Needs(lookup, expr, MAX_SUBST) {
    } else {
      assert Limited(lookup, expr, MAX_SUBST).TooDeep? && Limited(lookup, expr, MAX_SUBST - 1).TooDeep?;
    }
  }

  lemma NeedsOnce(lookup: string -> Option<string>, expr: string)
    ensures forall m: nat, n: nat | Needs(lookup, expr, m) && Needs(lookup, expr, n) :: m == n
  {
    hide Expanded, IsFinished;
  }

  function NoText(name: string): Option<string> {
    Some("")
  }

  function Repeated(n: nat): string {
    if n == 0 then "" else "${x}" + Repeated(n - 1)
  }

  lemma RepeatedStep(n: nat)
    requires n > 0
    ensures Replaced(NoText, Repeated(n)) == Some(Repeated(n - 1))
  {
    var eval := Repeated(n);
    assert eval == "${x}" + Repeated(n - 1);
    assert IsMatch(eval, 2, 3) && IsLeftmost(eval, 2, 3);
    LeftmostFound(eval, 2, 3);
    assert eval[4..] == Repeated(n - 1);
    assert eval[..0] + "" + eval[4..] == Repeated(n - 1);
  }

  lemma {:induction false} RepeatedExpands(n: nat, m: nat)
    requires m <= n
    ensures Expanded(NoText, Repeated(n), m) == Repeated(n - m)
    decreases m
  {
    hide Replaced;
    hide Repeated;
    hide NoText;
    if m > 0 {
      RepeatedStep(n);
      RepeatedExpands(n - 1, m - 1);
      ExpandedOnce(NoText, Repeated(n), Repeated(n - 1), m);
    }
  }

  /** Twenty references to an empty value: twenty replacements are all it takes, but the code gives up. */
  lemma TwentyReferences()
    ensures Needs(NoText, Repeated(20), 20)
    ensures Limited(NoText, Repeated(20), MAX_SUBST) == Value("")
    ensures Limited(NoText, Repeated(20), MAX_SUBST - 1) == TooDeep
  {
    hide Replaced, Repeated, Expanded;
    RepeatedExpands(20, 20);
    ReplacedNone(NoText, "");
    NothingRepeated();
    forall m: nat | m < 20
      ensures !IsFinished(NoText, Expanded(NoText, Repeated(20), m))
    {
      RepeatedExpands(20, m);
      RepeatedStep(20 - m);
    }
  }

  lemma NothingRepeated()
    ensures Repeated(0) == ""
  {
  }
}
