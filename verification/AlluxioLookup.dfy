/** The recursive expansion of `${key}` in Alluxio property values. */
module AlluxioLookup {
  import opened Wrappers
  import opened Text

  // ----- the regular expression -----

  predicate IsBrace(c: char) {
    c == '{' || c == '}'
  }

  predicate NoBraces(s: string) {
    forall i | 0 <= i < |s| :: !IsBrace(s[i])
  }

  datatype Span = Span(at: nat, end: nat)

  /** `(\$\{([^{}]*)\})` matches `s[m.at..m.end + 1]`. */
  predicate IsReference(s: string, m: Span) {
    && m.at + 2 <= m.end < |s|
    && s[m.at] == '$' && s[m.at + 1] == '{' && s[m.end] == '}'
    && NoBraces(s[m.at + 2..m.end])
  }

  /** The first brace at or after `from`. */
  function NextBrace(s: string, from: nat): (r: nat)
    requires from <= |s|
    ensures from <= r <= |s| && (r < |s| ==> IsBrace(s[r]))
    ensures forall i | from <= i < r :: !IsBrace(s[i])
    decreases |s| - from
  {
    if from == |s| || IsBrace(s[from]) then from else NextBrace(s, from + 1)
  }

  /** `Matcher.find` from a position. */
  function Find(s: string, from: nat): (r: Option<Span>)
    requires from <= |s|
    ensures r.Some? ==> from <= r.value.at && IsReference(s, r.value)
    decreases |s| - from
  {
    if |s| < from + 3 then None
    else if s[from] == '$' && s[from + 1] == '{' then
      var end := NextBrace(s, from + 2);
      if end < |s| && s[end] == '}' then Some(Span(from, end)) else Find(s, from + 1)
    else Find(s, from + 1)
  }

  /** It finds the leftmost reference, if there is one. */
  lemma {:induction false} FindsLeftmost(s: string, from: nat, m: Span)
    requires from <= m.at && IsReference(s, m)
    ensures Find(s, from).Some? && Find(s, from).value.at <= m.at
    ensures Find(s, from).value.at == m.at ==> Find(s, from).value == m
    decreases |s| - from
  {
    if m.at > from {
      FindsLeftmost(s, from + 1, m);
    } else {
      var next := NextBrace(s, from + 2);
      assert next < m.end ==> IsBrace(s[from + 2..m.end][next - from - 2]);
    }
  }

  function KeyOf(s: string, m: Span): string
    requires IsReference(s, m)
  {
    Trim(s[m.at + 2..m.end])
  }

  /** `String.replaceFirst` with a quoted replacement. */
  function ReplaceFirst(s: string, value: string): string {
    match Find(s, 0)
    case None => s
    case Some(m) => s[..m.at] + value + s[m.end + 1..]
  }

  // ----- the lookup -----

  /** `values` holds every name of a key with a value, whether set or a default. */
  datatype Env = Env(values: map<string, string>, valid: set<string>)

  datatype Result = Ok(text: string) | Circular(key: string) | Invalid(key: string) | Unresolvable(key: string)

  predicate Usable(env: Env, seen: set<string>, key: string) {
    key !in seen && key in env.valid && key in env.values
  }

  function Refusal(env: Env, seen: set<string>, key: string): Result
    requires !Usable(env, seen, key)
  {
    if key in seen then Circular(key) else if key !in env.valid then Invalid(key) else Unresolvable(key)
  }

  /** What the code computes from the reference after `pos` on, `resolved` being the text so far. */
  function Looked(env: Env, base: string, pos: nat, resolved: string, seen: set<string>): Result
    requires pos <= |base|
    decreases env.values.Keys - seen, |base| - pos
  {
    match Find(base, pos)
    case None => Ok(resolved)
    case Some(m) =>
      var key := KeyOf(base, m);
      if !Usable(env, seen, key) then Refusal(env, seen, key)
      else
        assert key in env.values.Keys - seen;
        var r := Looked(env, env.values[key], 0, env.values[key], seen + {key});
        if r.Ok? then Looked(env, base, m.end + 1, ReplaceFirst(resolved, r.text), seen) else r
  }

  class HashSet {
    var elems: set<string>

    constructor ()
      ensures elems == {}
    {
      elems := {};
    }

    method Add(x: string) returns (added: bool)
      modifies this
      ensures elems == old(elems) + {x} && added == (x !in old(elems))
    {
      added := x !in elems;
      elems := elems + {x};
    }

    method Remove(x: string)
      modifies this
      ensures elems == old(elems) - {x}
    {
      elems := elems - {x};
    }
  }

  /** `lookupRecursively`, the null value having been told apart by the caller. */
  method LookupRecursively(env: Env, base: string, seen: HashSet) returns (r: Result)
    modifies seen
    ensures r == Looked(env, base, 0, base, old(seen.elems))
    ensures r.Ok? ==> seen.elems == old(seen.elems)
    decreases env.values.Keys - seen.elems
  {
    hide Find;
    hide KeyOf;
    hide ReplaceFirst;
    var resolved := base;
    var pos := 0;
    var found := Find(base, pos);
    while found.Some?
      invariant pos <= |base| && found == Find(base, pos) && seen.elems == old(seen.elems)
      invariant Looked(env, base, pos, resolved, seen.elems) == Looked(env, base, 0, base, old(seen.elems))
      decreases |base| - pos
    {
      var m := found.value;
      var key := KeyOf(base, m);
      var added := seen.Add(key);
      if !added {
        return Circular(key);
      }
      if key !in env.valid {
        return Invalid(key);
      }
      if key !in env.values {
        return Unresolvable(key);
      }
      assert key in env.values.Keys - old(seen.elems);
      r := LookupRecursively(env, env.values[key], seen);
      if !r.Ok? {
        return;
      }
      seen.Remove(key);
      assert seen.elems == old(seen.elems);
      resolved := ReplaceFirst(resolved, r.text);
      pos := m.end + 1;
      found := Find(base, pos);
    }
    r := Ok(resolved);
  }

  method Lookup(env: Env, base: string) returns (r: Result)
    ensures r == Looked(env, base, 0, base, {})
  {
    var seen := new HashSet();
    r := LookupRecursively(env, base, seen);
  }

  // ----- the meaning -----

  /** Every reference replaced, where it stands, by the meaning of its value. */
  function Meaning(env: Env, base: string, pos: nat, seen: set<string>): Result
    requires pos <= |base|
    decreases env.values.Keys - seen, |base| - pos
  {
    match Find(base, pos)
    case None => Ok(base[pos..])
    case Some(m) =>
      var key := KeyOf(base, m);
      if !Usable(env, seen, key) then Refusal(env, seen, key)
      else
        assert key in env.values.Keys - seen;
        var value := Meaning(env, env.values[key], 0, seen + {key});
        if !value.Ok? then value
        else
          var rest := Meaning(env, base, m.end + 1, seen);
          if !rest.Ok? then rest else Ok(base[pos..m.at] + value.text + rest.text)
  }

  lemma LookedOnce(env: Env, base: string, pos: nat, resolved: string, seen: set<string>,
      m: Span, key: string)
    requires pos <= |base| && Find(base, pos) == Some(m) && KeyOf(base, m) == key && Usable(env, seen, key)
    ensures var r := Looked(env, env.values[key], 0, env.values[key], seen + {key});
            Looked(env, base, pos, resolved, seen) ==
            if r.Ok? then Looked(env, base, m.end + 1, ReplaceFirst(resolved, r.text), seen) else r
  {
    hide Find, KeyOf, ReplaceFirst;
  }

  lemma NothingToLookUp(env: Env, base: string, pos: nat, resolved: string, seen: set<string>)
    requires pos <= |base| && Find(base, pos).None?
    ensures Looked(env, base, pos, resolved, seen) == Ok(resolved) && Meaning(env, base, pos, seen) == Ok(base[pos..])
  {
    hide Find;
  }

  lemma MeaningOnce(env: Env, base: string, pos: nat, seen: set<string>, m: Span, key: string)
    requires pos <= |base| && Find(base, pos) == Some(m) && KeyOf(base, m) == key && Usable(env, seen, key)
    ensures var value, rest := Meaning(env, env.values[key], 0, seen + {key}), Meaning(env, base, m.end + 1, seen);
            Meaning(env, base, pos, seen) ==
            if !value.Ok? then value else if !rest.Ok? then rest else Ok(base[pos..m.at] + value.text + rest.text)
  {
    hide Find, KeyOf;
  }

  lemma Refused(env: Env, base: string, pos: nat, resolved: string, seen: set<string>, m: Span, key: string)
    requires pos <= |base| && Find(base, pos) == Some(m) && KeyOf(base, m) == key && !Usable(env, seen, key)
    ensures Looked(env, base, pos, resolved, seen) == Meaning(env, base, pos, seen) == Refusal(env, seen, key)
  {
    hide Find, KeyOf;
  }

  /** Braces stand only in references. */
  predicate Disciplined(s: string, from: nat)
    requires from <= |s|
    decreases |s| - from
  {
    match Find(s, from)
    case None => NoBraces(s[from..])
    case Some(m) => NoBraces(s[from..m.at]) && Disciplined(s, m.end + 1)
  }

  predicate AllDisciplined(env: Env) {
    forall k | k in env.values :: Disciplined(env.values[k], 0)
  }

  lemma DisciplinedParts(s: string, from: nat)
    requires from <= |s| && Disciplined(s, from)
    ensures var m := Find(s, from);
            if m.None? then NoBraces(s[from..]) else NoBraces(s[from..m.value.at]) && Disciplined(s, m.value.end + 1)
  {
    hide Find;
  }

  lemma NothingThere()
    ensures NoBraces("")
  {
  }

  lemma Regrouped(a: string, b: string, c: string, d: string)
    ensures a + b + c + d == a + (b + c + d)
  {
  }

  lemma InsideReference(s: string, m: Span)
    requires IsReference(s, m)
    ensures forall i | m.at + 2 <= i < m.end :: !IsBrace(s[i])
  {
    assert forall i | m.at + 2 <= i < m.end :: s[i] == s[m.at + 2..m.end][i - m.at - 2];
  }

  /** References do not overlap. */
  lemma ReferencesAreApart(s: string, x: Span, y: Span)
    requires IsReference(s, x) && IsReference(s, y) && x.at < y.at
    ensures x.end < y.at
  {
    InsideReference(s, x);
  }

  lemma ReferenceInFront(s: string, n: nat, x: Span)
    requires n <= |s|
    ensures IsReference(s[..n], x) <==> IsReference(s, x) && x.end < n
  {
    if x.at + 2 <= x.end < n {
      assert s[..n][x.at + 2..x.end] == s[x.at + 2..x.end];
    }
  }

  lemma FoundIsReference(s: string)
    ensures Find(s, 0).Some? ==> IsReference(s, Find(s, 0).value)
  {
  }

  /** With nothing to find before it, a reference is the first one. */
  lemma FirstReference(s: string, y: Span)
    requires IsReference(s, y) && Find(s[..y.at], 0).None?
    ensures Find(s, 0) == Some(y)
  {
    hide Find, IsReference;
    FindsLeftmost(s, 0, y);
    FoundIsReference(s);
    var x := Find(s, 0).value;
    ReferenceIsInside(s, y);
    ReferenceInFront(s, y.at, x);
    if x.at < y.at {
      ReferencesAreApart(s, x, y);
      FindsLeftmost(s[..y.at], 0, x);
    }
  }

  /** A prefix in which there is nothing to find does not change where the next reference is. */
  lemma FindAfterPrefix(pre: string, base: string, pos: nat, m: Span)
    requires pos <= m.at < |base| && IsReference(base, m) && Find(pre + base[pos..m.at], 0).None?
    ensures Find(pre + base[pos..], 0) == Some(Span(m.at - pos + |pre|, m.end - pos + |pre|))
  {
    hide Find, NoBraces, IsReference;
    var s := pre + base[pos..];
    ReferenceIsInside(base, m);
    var y := Span(m.at - pos + |pre|, m.end - pos + |pre|);
    Shifted(pre, base, pos, m.at);
    ReferenceMoves(s, y, base, m);
    FirstReference(s, y);
  }

  lemma ReferenceIsInside(s: string, m: Span)
    requires IsReference(s, m)
    ensures m.at + 2 <= m.end < |s|
  {
  }

  lemma Shifted(pre: string, base: string, pos: nat, at: nat)
    requires pos <= at <= |base|
    ensures var s := pre + base[pos..];
            var i := at - pos + |pre|;
            i <= |s| && s[i..] == base[at..] && s[..i] == pre + base[pos..at]
  {
  }

  lemma ReferenceMoves(s: string, x: Span, base: string, m: Span)
    requires IsReference(base, m) && x.at <= |s| && s[x.at..] == base[m.at..] && x.end - x.at == m.end - m.at
    ensures IsReference(s, x)
  {
    assert forall i | 0 <= i <= m.end - m.at :: s[x.at..][i] == base[m.at..][i];
    assert s[x.at + 2..x.end] == base[m.at + 2..m.end];
  }

  lemma ReplacesNext(pre: string, base: string, pos: nat, m: Span, value: string)
    requires pos <= m.at < |base| && IsReference(base, m) && Find(pre + base[pos..m.at], 0).None?
    ensures ReplaceFirst(pre + base[pos..], value) == pre + base[pos..m.at] + value + base[m.end + 1..]
  {
    hide Find, NoBraces;
    FindAfterPrefix(pre, base, pos, m);
    var s := pre + base[pos..];
    assert s[..m.at - pos + |pre|] == pre + base[pos..m.at];
    assert s[m.end - pos + |pre| + 1..] == base[m.end + 1..];
  }

  // ----- stray braces that do no harm -----

  predicate BraceFree(s: string, from: nat, to: nat)
    requires to <= |s|
  {
    forall i | from <= i < to :: !IsBrace(s[i])
  }

  /** Whether `{` at `i` makes a reference begin, perhaps with a `$` in front of the text. */
  predicate BeginsAt(s: string, i: nat)
    requires i < |s|
  {
    s[i] == '{' && (i == 0 || s[i - 1] == '$')
  }

  /** The text leaves a reference open at its end. */
  predicate Opens(s: string) {
    exists i :: 0 <= i < |s| && BeginsAt(s, i) && BraceFree(s, i + 1, |s|)
  }

  /** The text would close a reference that is open in front of it. */
  predicate Closes(s: string) {
    exists j :: 0 <= j < |s| && s[j] == '}' && BraceFree(s, 0, j)
  }

  /** The text holds a reference, if `$` stands in front of it. */
  predicate Encloses(s: string) {
    exists i, j :: 0 <= i < j < |s| && BeginsAt(s, i) && s[j] == '}' && BraceFree(s, i + 1, j)
  }

  predicate SomeOpens(texts: set<string>) {
    exists t :: t in texts && Opens(t)
  }

  predicate SomeCloses(texts: set<string>) {
    exists t :: t in texts && Closes(t)
  }

  predicate SomeEncloses(texts: set<string>) {
    exists t :: t in texts && Encloses(t)
  }

  /** One of the texts can look like a reference, or two of them can, the one behind the other. */
  predicate CanMisplace(texts: set<string>) {
    SomeEncloses(texts) || (SomeOpens(texts) && SomeCloses(texts))
  }

  /** What the texts can be put together to, as long as none can be misplaced. */
  predicate IsBenign(texts: set<string>, s: string) {
    !Encloses(s) && (Opens(s) ==> SomeOpens(texts)) && (Closes(s) ==> SomeCloses(texts))
  }

  lemma JoinOpens(a: string, b: string)
    ensures Opens(a + b) ==> Opens(a) || Opens(b)
  {
    var s := a + b;
    if Opens(s) {
      var i :| 0 <= i < |s| && BeginsAt(s, i) && BraceFree(s, i + 1, |s|);
      if i < |a| {
        assert BeginsAt(a, i) && forall q | i < q < |a| :: s[q] == a[q];
      } else {
        assert BeginsAt(b, i - |a|) && forall q | i - |a| < q < |b| :: s[q + |a|] == b[q];
      }
    }
  }

  lemma JoinCloses(a: string, b: string)
    ensures Closes(a + b) ==> Closes(a) || Closes(b)
  {
    var s := a + b;
    if Closes(s) {
      var j :| 0 <= j < |s| && s[j] == '}' && BraceFree(s, 0, j);
      if j < |a| {
        assert a[j] == '}' && forall q | 0 <= q < j :: s[q] == a[q];
      } else {
        assert b[j - |a|] == '}' && forall q | 0 <= q < j - |a| :: s[q + |a|] == b[q];
      }
    }
  }

  lemma JoinEncloses(a: string, b: string)
    ensures Encloses(a + b) ==> Encloses(a) || Encloses(b) || (Opens(a) && Closes(b))
  {
    var s := a + b;
    if Encloses(s) {
      var i, j :| 0 <= i < j < |s| && BeginsAt(s, i) && s[j] == '}' && BraceFree(s, i + 1, j);
      if j < |a| {
        assert BeginsAt(a, i) && a[j] == '}' && forall q | i < q < j :: s[q] == a[q];
      } else if i >= |a| {
        assert BeginsAt(b, i - |a|) && b[j - |a|] == '}' && forall q | i - |a| < q < j - |a| :: s[q + |a|] == b[q];
      } else {
        assert BeginsAt(a, i) && forall q | i < q < |a| :: s[q] == a[q];
        assert b[j - |a|] == '}' && forall q | 0 <= q < j - |a| :: s[q + |a|] == b[q];
      }
    }
  }

  lemma JoinBenign(texts: set<string>, a: string, b: string)
    requires !CanMisplace(texts) && IsBenign(texts, a) && IsBenign(texts, b)
    ensures IsBenign(texts, a + b)
  {
    hide Opens, Closes, Encloses, SomeOpens, SomeCloses, SomeEncloses;
    JoinOpens(a, b);
    JoinCloses(a, b);
    JoinEncloses(a, b);
  }

  lemma BraceFreeIsBenign(texts: set<string>, s: string)
    requires NoBraces(s)
    ensures IsBenign(texts, s)
  {
  }

  lemma TextIsBenign(texts: set<string>, s: string)
    requires !CanMisplace(texts) && s in texts
    ensures IsBenign(texts, s)
  {
    hide Opens, Closes, Encloses;
  }

  lemma NothingInBenign(texts: set<string>, s: string)
    requires IsBenign(texts, s)
    ensures Find(s, 0).None?
  {
    hide Find, Encloses;
    FoundIsReference(s);
    if Find(s, 0).Some? {
      ReferenceEncloses(s, Find(s, 0).value);
    }
  }

  lemma ReferenceEncloses(s: string, m: Span)
    requires IsReference(s, m)
    ensures Encloses(s)
  {
    assert BeginsAt(s, m.at + 1) && forall q | m.at + 2 <= q < m.end :: s[q] == s[m.at + 2..m.end][q - m.at - 2];
  }

  lemma KeyIsPlain(s: string, m: Span)
    requires IsReference(s, m)
    ensures Trim(KeyOf(s, m)) == KeyOf(s, m) && NoBraces(KeyOf(s, m))
  {
    hide TrimLeft, TrimRight;
    var inner := s[m.at + 2..m.end];
    TrimTwice(inner);
    TrimIsPart(inner);
  }

  lemma {:induction false} TrimLeftIsPart(s: string)
    requires NoBraces(s)
    ensures NoBraces(TrimLeft(s))
  {
    if s != [] {
      TrimLeftIsPart(s[1..]);
    }
  }

  lemma TrimIsPart(s: string)
    requires NoBraces(s)
    ensures NoBraces(Trim(s))
  {
    TrimLeftIsPart(s);
    TrimRightEnds(TrimLeft(s));
  }

  /** A key that a reference can name. */
  predicate IsNamed(env: Env, key: string) {
    key in env.values && key in env.valid && Trim(key) == key && NoBraces(key)
  }

  /** The value of a key, below the keys seen, is expanded by substitution, and to something benign. */
  predicate IsRight(env: Env, texts: set<string>, key: string, seen: set<string>)
    requires key in env.values && key !in seen
  {
    var value := env.values[key];
    var meaning := Meaning(env, value, 0, seen + {key});
    Looked(env, value, 0, value, seen + {key}) == meaning && (meaning.Ok? ==> IsBenign(texts, meaning.text))
  }

  ghost predicate ValuesAreRight(env: Env, texts: set<string>, seen: set<string>) {
    forall k | k in env.values && IsNamed(env, k) && k !in seen :: IsRight(env, texts, k, seen)
  }

  lemma ReferenceIsNamed(env: Env, s: string, m: Span)
    requires IsReference(s, m) && KeyOf(s, m) in env.values && KeyOf(s, m) in env.valid
    ensures IsNamed(env, KeyOf(s, m))
  {
    hide Trim, NoBraces;
    KeyIsPlain(s, m);
  }

  /** While no text can be misplaced, the code computes the meaning, and leaves no reference behind. */
  lemma {:induction false} LookedIsMeaning(env: Env, texts: set<string>, base: string, pos: nat, pre: string,
                                           seen: set<string>)
    requires pos <= |base| && !CanMisplace(texts) && ValuesAreRight(env, texts, seen)
    requires Disciplined(base, pos) && IsBenign(texts, pre)
    ensures Looked(env, base, pos, pre + base[pos..], seen) == Prefixed(pre, Meaning(env, base, pos, seen))
    ensures Meaning(env, base, pos, seen).Ok? ==> IsBenign(texts, Meaning(env, base, pos, seen).text)
    decreases |base| - pos
  {
    hide Find, KeyOf, Looked, Meaning, Disciplined, ReplaceFirst, NoBraces, IsBenign, CanMisplace, IsNamed;
    DisciplinedParts(base, pos);
    var found := Find(base, pos);
    if found.None? {
      NothingToLookUp(env, base, pos, pre + base[pos..], seen);
      BraceFreeIsBenign(texts, base[pos..]);
    } else {
      var m := found.value;
      var key := KeyOf(base, m);
      if !Usable(env, seen, key) {
        Refused(env, base, pos, pre + base[pos..], seen, m, key);
      } else {
        LookedOnce(env, base, pos, pre + base[pos..], seen, m, key);
        MeaningOnce(env, base, pos, seen, m, key);
        ReferenceIsNamed(env, base, m);
        assert IsRight(env, texts, key, seen);
        var inner := Meaning(env, env.values[key], 0, seen + {key});
        if inner.Ok? {
          var front := pre + base[pos..m.at];
          BraceFreeIsBenign(texts, base[pos..m.at]);
          JoinBenign(texts, pre, base[pos..m.at]);
          NothingInBenign(texts, front);
          ReplacesNext(pre, base, pos, m, inner.text);
          JoinBenign(texts, front, inner.text);
          LookedIsMeaning(env, texts, base, m.end + 1, front + inner.text, seen);
          var rest := Meaning(env, base, m.end + 1, seen);
          if rest.Ok? {
            JoinBenign(texts, base[pos..m.at], inner.text);
            JoinBenign(texts, base[pos..m.at] + inner.text, rest.text);
            Regrouped(pre, base[pos..m.at], inner.text, rest.text);
          }
        }
      }
    }
  }

  /** The same for a whole text. */
  lemma TextIsMeaning(env: Env, texts: set<string>, base: string, seen: set<string>)
    requires !CanMisplace(texts) && ValuesAreRight(env, texts, seen) && Disciplined(base, 0)
    ensures var meaning := Meaning(env, base, 0, seen);
            Looked(env, base, 0, base, seen) == meaning && (meaning.Ok? ==> IsBenign(texts, meaning.text))
  {
    hide Find, Looked, Meaning, Disciplined, CanMisplace, IsBenign, ValuesAreRight;
    NothingThere();
    BraceFreeIsBenign(texts, "");
    LookedIsMeaning(env, texts, base, 0, "", seen);
    assert "" + base[0..] == base && forall t: string :: "" + t == t;
  }

  function Prefixed(pre: string, r: Result): Result {
    if r.Ok? then Ok(pre + r.text) else r
  }

  /** On any values, even with stray braces, the code fails exactly as the meaning does. */
  lemma {:induction false} FailuresAgree(env: Env, base: string, pos: nat, resolved: string, seen: set<string>)
    requires pos <= |base|
    ensures var code, meaning := Looked(env, base, pos, resolved, seen), Meaning(env, base, pos, seen);
            if meaning.Ok? then code.Ok? else code == meaning
    decreases env.values.Keys - seen, |base| - pos
  {
    hide Find, KeyOf, Looked, Meaning, ReplaceFirst;
    var found := Find(base, pos);
    if found.None? {
      NothingToLookUp(env, base, pos, resolved, seen);
    } else {
      var m := found.value;
      var key := KeyOf(base, m);
      if !Usable(env, seen, key) {
        Refused(env, base, pos, resolved, seen, m, key);
      } else {
        LookedOnce(env, base, pos, resolved, seen, m, key);
        MeaningOnce(env, base, pos, seen, m, key);
        assert key in env.values.Keys - seen;
        var value := env.values[key];
        FailuresAgree(env, value, 0, value, seen + {key});
        var r := Looked(env, value, 0, value, seen + {key});
        if r.Ok? {
          FailuresAgree(env, base, m.end + 1, ReplaceFirst(resolved, r.text), seen);
        }
      }
    }
  }

  // ----- when a lookup fails -----

  /** The keys that a text refers to, from `pos` on. */
  function Keys(s: string, pos: nat): seq<string>
    requires pos <= |s|
    decreases |s| - pos
  {
    match Find(s, pos)
    case None => []
    case Some(m) => [KeyOf(s, m)] + Keys(s, m.end + 1)
  }

  /** Keys that lead from one to the next, the first of them out of `base`. */
  predicate IsChain(env: Env, base: string, chain: seq<string>)
    decreases |chain|
  {
    chain != [] ==>
      && chain[0] in Keys(base, 0)
      && (|chain| > 1 ==> chain[0] in env.values && IsChain(env, env.values[chain[0]], chain[1..]))
  }

  /** The key at the end of a chain cannot be looked up. */
  predicate IsStuck(env: Env, seen: set<string>, chain: seq<string>)
    requires chain != []
  {
    var key := chain[|chain| - 1];
    key in seen || key in chain[..|chain| - 1] || key !in env.valid || key !in env.values
  }

  /** What a failure says about the end of a chain. */
  predicate Explains(env: Env, seen: set<string>, chain: seq<string>, failure: Result)
    requires chain != []
  {
    var key := chain[|chain| - 1];
    match failure
    case Ok(_) => false
    case Circular(k) => k == key && (k in seen || k in chain[..|chain| - 1])
    case Invalid(k) => k == key && k !in seen && k !in chain[..|chain| - 1] && k !in env.valid
    case Unresolvable(k) => k == key && k !in seen && k !in chain[..|chain| - 1] && k in env.valid && k !in env.values
  }

  /** A chain one key longer at its front explains the same. */
  lemma ChainGrows(env: Env, seen: set<string>, key: string, tail: seq<string>, failure: Result)
    requires tail != [] && Explains(env, seen + {key}, tail, failure)
    ensures Explains(env, seen, [key] + tail, failure)
  {
    var chain := [key] + tail;
    assert chain[..|chain| - 1] == [key] + tail[..|tail| - 1];
  }

  lemma FoundKey(s: string, pos: nat, m: Span)
    requires pos <= |s| && Find(s, pos) == Some(m)
    ensures Keys(s, pos) == [KeyOf(s, m)] + Keys(s, m.end + 1)
  {
    hide Find, KeyOf;
  }

  /** Each failure has a chain of references that justifies it; a circular one, a true cycle. */
  lemma {:induction false} FailureHasChain(env: Env, base: string, pos: nat, seen: set<string>)
    returns (chain: seq<string>)
    requires pos <= |base| && !Meaning(env, base, pos, seen).Ok?
    ensures chain != [] && chain[0] in Keys(base, pos)
    ensures |chain| > 1 ==> chain[0] in env.values && IsChain(env, env.values[chain[0]], chain[1..])
    ensures Explains(env, seen, chain, Meaning(env, base, pos, seen))
    decreases env.values.Keys - seen, |base| - pos
  {
    hide Find, KeyOf, Meaning, Keys, Looked, Explains;
    if Find(base, pos).None? {
      NothingToLookUp(env, base, pos, base, seen);
    }
    var m := Find(base, pos).value;
    var key := KeyOf(base, m);
    FoundKey(base, pos, m);
    if !Usable(env, seen, key) {
      chain := [key];
      Refused(env, base, pos, base, seen, m, key);
      RefusalIsExplained(env, seen, key);
    } else {
      assert key in env.values.Keys - seen;
      MeaningOnce(env, base, pos, seen, m, key);
      if Meaning(env, env.values[key], 0, seen + {key}).Ok? {
        chain := FailureHasChain(env, base, m.end + 1, seen);
      } else {
        var tail := FailureHasChain(env, env.values[key], 0, seen + {key});
        chain := [key] + tail;
        assert chain[1..] == tail;
        ChainGrows(env, seen, key, tail, Meaning(env, base, pos, seen));
      }
    }
  }

  lemma RefusalIsExplained(env: Env, seen: set<string>, key: string)
    requires !Usable(env, seen, key)
    ensures Explains(env, seen, [key], Refusal(env, seen, key))
  {
  }

  /** What a success says about each key that the text refers to. */
  lemma {:induction false} OkAtKey(env: Env, base: string, pos: nat, seen: set<string>, key: string)
    requires pos <= |base| && Meaning(env, base, pos, seen).Ok? && key in Keys(base, pos)
    ensures key !in seen && key in env.valid && key in env.values
    ensures Meaning(env, env.values[key], 0, seen + {key}).Ok?
    decreases |base| - pos
  {
    hide Find;
    hide KeyOf;
    var m := Find(base, pos).value;
    if key != KeyOf(base, m) {
      OkAtKey(env, base, m.end + 1, seen, key);
    }
  }

  lemma {:induction false} OkAlongChain(env: Env, base: string, seen: set<string>, chain: seq<string>)
    requires Meaning(env, base, 0, seen).Ok? && chain != [] && IsChain(env, base, chain)
    ensures !IsStuck(env, seen, chain)
    decreases |chain|
  {
    hide Meaning;
    hide Keys;
    var key := chain[0];
    OkAtKey(env, base, 0, seen, key);
    if |chain| > 1 {
      OkAlongChain(env, env.values[key], seen + {key}, chain[1..]);
      var last := |chain| - 1;
      assert chain[1..][last - 1] == chain[last];
      assert chain[..last] == [key] + chain[1..][..last - 1];
    }
  }

  /**
   * A lookup succeeds exactly when no chain of references from its text ends in a key that is
   * invalid, has no value, or stands on the chain already. Two chains may share keys.
   */
  lemma SucceedsIff(env: Env, base: string)
    ensures Looked(env, base, 0, base, {}).Ok? <==>
            forall chain | chain != [] && IsChain(env, base, chain) :: !IsStuck(env, {}, chain)
  {
    FailuresAgree(env, base, 0, base, {});
    if Meaning(env, base, 0, {}).Ok? {
      forall chain | chain != [] && IsChain(env, base, chain)
        ensures !IsStuck(env, {}, chain)
      {
        OkAlongChain(env, base, {}, chain);
      }
    } else {
      var chain := FailureHasChain(env, base, 0, {});
      assert IsChain(env, base, chain) && IsStuck(env, {}, chain);
    }
  }

  /** The circular error is raised only where a key refers to itself through the keys of the chain. */
  lemma CircularMeansCycle(env: Env, base: string, key: string)
    requires Looked(env, base, 0, base, {}) == Circular(key)
    ensures exists chain :: chain != [] && IsChain(env, base, chain)
                            && chain[|chain| - 1] == key && key in chain[..|chain| - 1]
  {
    FailuresAgree(env, base, 0, base, {});
    var chain := FailureHasChain(env, base, 0, {});
    assert IsChain(env, base, chain);
  }

  // ----- stray braces only in values without references -----

  /** A key with a value that has no references. */
  predicate IsLeaf(env: Env, key: string) {
    IsNamed(env, key) && Find(env.values[key], 0).None?
  }

  function LeafTexts(env: Env): set<string> {
    set k | k in env.values && IsLeaf(env, k) :: env.values[k]
  }

  predicate StrayOnlyInLeaves(env: Env) {
    forall k | k in env.values :: Disciplined(env.values[k], 0) || Find(env.values[k], 0).None?
  }

  lemma {:induction false} LeavesAreRight(env: Env, seen: set<string>)
    requires StrayOnlyInLeaves(env) && !CanMisplace(LeafTexts(env))
    ensures ValuesAreRight(env, LeafTexts(env), seen)
    decreases env.values.Keys - seen
  {
    hide Find, Looked, Meaning, Disciplined, CanMisplace, IsBenign, LeafTexts, IsNamed;
    forall k | k in env.values && IsNamed(env, k) && k !in seen
      ensures IsRight(env, LeafTexts(env), k, seen)
    {
      var value := env.values[k];
      assert k in env.values.Keys - seen;
      if Disciplined(value, 0) {
        LeavesAreRight(env, seen + {k});
        TextIsMeaning(env, LeafTexts(env), value, seen + {k});
      } else {
        NothingToLookUp(env, value, 0, value, seen + {k});
        assert value[0..] == value;
        LeafIsText(env, k);
        TextIsBenign(LeafTexts(env), value);
      }
    }
  }

  lemma LeafIsText(env: Env, key: string)
    requires key in env.values && IsLeaf(env, key)
    ensures env.values[key] in LeafTexts(env)
  {
    hide IsLeaf;
  }

  lemma DisciplinedIsHarmless(env: Env)
    requires AllDisciplined(env)
    ensures StrayOnlyInLeaves(env) && !CanMisplace(LeafTexts(env))
  {
    hide Find;
    forall k | k in env.values && IsLeaf(env, k)
      ensures NoBraces(env.values[k])
    {
      DisciplinedParts(env.values[k], 0);
      assert env.values[k][0..] == env.values[k];
    }
  }

  /** While no value can be misplaced: simultaneous substitution all the way down, and nothing left to substitute. */
  lemma HarmlessSubstitutes(env: Env, base: string)
    requires StrayOnlyInLeaves(env) && !CanMisplace(LeafTexts(env)) && Disciplined(base, 0)
    ensures Looked(env, base, 0, base, {}) == Meaning(env, base, 0, {})
    ensures Looked(env, base, 0, base, {}).Ok? ==> Find(Looked(env, base, 0, base, {}).text, 0).None?
  {
    hide Find, Looked, Meaning, Disciplined, StrayOnlyInLeaves, CanMisplace, IsBenign, LeafTexts, ValuesAreRight;
    LeavesAreRight(env, {});
    TextIsMeaning(env, LeafTexts(env), base, {});
    var meaning := Meaning(env, base, 0, {});
    if meaning.Ok? {
      NothingInBenign(LeafTexts(env), meaning.text);
    }
  }

  /** The law: where braces stand only in references, the code substitutes. */
  lemma LookupSubstitutes(env: Env, base: string)
    requires AllDisciplined(env) && Disciplined(base, 0)
    ensures Looked(env, base, 0, base, {}) == Meaning(env, base, 0, {})
    ensures Looked(env, base, 0, base, {}).Ok? ==> Find(Looked(env, base, 0, base, {}).text, 0).None?
  {
    DisciplinedIsHarmless(env);
    HarmlessSubstitutes(env, base);
  }

  // ----- stray braces that do harm -----

  function Ref(name: string): string {
    "${" + name + "}"
  }

  /** Where a text of brace-free text and a reference has its reference. */
  lemma RefIsThere(front: string, name: string, rest: string, from: nat)
    requires from <= |front| && NoBraces(front[from..]) && NoBraces(name)
    ensures var s, m := front + Ref(name) + rest, Span(|front|, |front| + |name| + 2);
            && Find(s, from) == Some(m) && IsReference(s, m) && KeyOf(s, m) == Trim(name)
            && s[from..m.at] == front[from..] && s[m.end + 1..] == rest && m.end < |s|
  {
    hide Find, Trim;
    var s, m := front + Ref(name) + rest, Span(|front|, |front| + |name| + 2);
    assert s == front + ("${" + name + "}" + rest);
    assert s[m.at] == '$' && s[m.at + 1] == '{' && s[m.end] == '}' && s[m.at + 2..m.end] == name;
    FindsLeftmost(s, from, m);
    var x := Find(s, from).value;
    assert s[from..m.at] == front[from..];
    assert forall i | from <= i < m.at :: s[i] == front[from..][i - from];
    assert s[m.end + 1..] == rest;
  }

  lemma DisciplinedStep(s: string, from: nat, m: Span)
    requires from <= |s| && Find(s, from) == Some(m) && NoBraces(s[from..m.at]) && Disciplined(s, m.end + 1)
    ensures Disciplined(s, from)
  {
    hide Find;
  }

  lemma DisciplinedEnd(s: string)
    ensures Disciplined(s, |s|) && Find(s, |s|).None?
  {
  }

  /** A text keeps its first reference when something is put behind it. */
  lemma FindInFront(front: string, rest: string)
    requires Find(front, 0).Some?
    ensures Find(front + rest, 0) == Find(front, 0)
  {
    hide Find, IsReference;
    var s, m := front + rest, Find(front, 0).value;
    assert s[..|front|] == front;
    FoundIsReference(front);
    ReferenceInFront(s, |front|, m);
    FindsLeftmost(s, 0, m);
    FoundIsReference(s);
    var x := Find(s, 0).value;
    if x.at < m.at {
      ReferencesAreApart(s, x, m);
      ReferenceIsInside(s, m);
      ReferenceInFront(s, |front|, x);
      FindsLeftmost(front, 0, x);
    }
  }

  // ----- which environments make lookups substitute -----

  function ValueOf(env: Env, key: string): Result
    requires key in env.values
  {
    Meaning(env, env.values[key], 0, {key})
  }

  /** What the keys that a reference can name stand for. */
  function MeantTexts(env: Env): set<string> {
    set k | k in env.values && IsNamed(env, k) && ValueOf(env, k).Ok? :: ValueOf(env, k).text
  }

  /** The value of the key is expanded by substitution when it is looked up alone. */
  predicate ExpandsAlone(env: Env, key: string)
    requires key in env.values
  {
    Looked(env, env.values[key], 0, env.values[key], {key}) == ValueOf(env, key)
  }

  /** A key that a reference can name, and whose value is expanded to this text. */
  predicate StandsFor(env: Env, key: string, text: string) {
    IsNamed(env, key) && ValueOf(env, key) == Ok(text) && ExpandsAlone(env, key)
  }

  lemma StandingKey(env: Env, key: string, text: string)
    requires StandsFor(env, key, text)
    ensures key in env.values && Usable(env, {}, key) && Trim(key) == key && NoBraces(key)
    ensures Meaning(env, env.values[key], 0, {} + {key}) == Ok(text)
    ensures Looked(env, env.values[key], 0, env.values[key], {} + {key}) == Ok(text)
  {
    hide Meaning, Looked;
    assert {} + {key} == {key};
  }

  /** What a lookup and the meaning make of a last reference, when the text in front of it already holds one. */
  lemma LastAstray(env: Env, base: string, pos: nat, front: string, m: Span, key: string, value: string)
    requires pos <= |base| && Find(base, pos) == Some(m) && m.at == pos && m.end == |base| - 1
    requires KeyOf(base, m) == key && StandsFor(env, key, value) && Find(front, 0).Some?
    ensures Meaning(env, base, pos, {}) == Ok(value)
    ensures var x, r := Find(front, 0).value, Looked(env, base, pos, front + base[pos..], {});
            r.Ok? && |r.text| == |front| + |value| + (m.end - m.at) - (x.end - x.at)
  {
    hide Find, KeyOf, Looked, Meaning, StandsFor;
    StandingKey(env, key, value);
    LookedOnce(env, base, pos, front + base[pos..], {}, m, key);
    MeaningOnce(env, base, pos, {}, m, key);
    DisciplinedEnd(base);
    FindInFront(front, base[pos..]);
    FoundIsReference(front);
    NothingToLookUp(env, base, m.end + 1, ReplaceFirst(front + base[pos..], value), {});
    assert base[pos..m.at] + value + base[m.end + 1..] == value;
  }

  /** How a lookup and the meaning go past a reference. */
  lemma PastReference(env: Env, base: string, pos: nat, front: string, m: Span, key: string, value: string)
    requires pos <= m.at <= m.end < |base| && Find(base, pos) == Some(m) && IsReference(base, m)
    requires KeyOf(base, m) == key && StandsFor(env, key, value) && Find(front + base[pos..m.at], 0).None?
    ensures var rest := Meaning(env, base, m.end + 1, {});
            && Looked(env, base, pos, front + base[pos..], {}) ==
               Looked(env, base, m.end + 1, front + base[pos..m.at] + value + base[m.end + 1..], {})
            && (rest.Ok? ==> Meaning(env, base, pos, {}) == Ok(base[pos..m.at] + value + rest.text))
  {
    hide Find, KeyOf, Looked, Meaning, StandsFor;
    StandingKey(env, key, value);
    LookedOnce(env, base, pos, front + base[pos..], {}, m, key);
    MeaningOnce(env, base, pos, {}, m, key);
    ReplacesNext(front, base, pos, m, value);
  }

  lemma IsReferenceAt(s: string, at: nat, end: nat)
    requires at + 2 <= end < |s| && s[at] == '$' && s[at + 1] == '{' && s[end] == '}'
    requires forall q | at + 2 <= q < end :: !IsBrace(s[q])
    ensures IsReference(s, Span(at, end))
  {
  }

  lemma DollarThenEnclosed(v: string)
    requires Encloses(v)
    ensures Find("$" + v, 0).Some?
  {
    hide Find;
    var s := "$" + v;
    var i, j :| 0 <= i < j < |v| && BeginsAt(v, i) && v[j] == '}' && BraceFree(v, i + 1, j);
    assert s[i + 1] == '{' && s[i] == '$' && s[j + 1] == '}';
    assert forall q | i + 2 <= q < j + 1 :: s[q] == v[q - 1];
    IsReferenceAt(s, i, j + 1);
    FindsLeftmost(s, 0, Span(i, j + 1));
  }

  lemma DollarThenOpenedAndClosed(v: string, w: string)
    requires Opens(v) && Closes(w)
    ensures Find("$" + v + w, 0).Some?
  {
    hide Find;
    var i :| 0 <= i < |v| && BeginsAt(v, i) && BraceFree(v, i + 1, |v|);
    var j :| 0 <= j < |w| && w[j] == '}' && BraceFree(w, 0, j);
    var s, end := "$" + v + w, 1 + |v| + j;
    assert s[i + 1] == '{' && s[i] == '$' && s[end] == '}';
    assert forall q | i + 2 <= q < 1 + |v| :: s[q] == v[q - 1];
    assert forall q | 1 + |v| <= q < end :: s[q] == w[q - 1 - |v|];
    IsReferenceAt(s, i, end);
    FindsLeftmost(s, 0, Span(i, end));
  }

  /** A name for a key that is not of the given length. */
  lemma OtherName(key: string, length: int) returns (name: string)
    requires Trim(key) == key && NoBraces(key)
    ensures Trim(name) == key && NoBraces(name) && |name| != length
  {
    if |key| != length {
      name := key;
    } else {
      name := " " + key;
      assert name[1..] == key;
      assert TrimLeft(name) == TrimLeft(key);
    }
  }

  lemma NothingInDollar()
    ensures Find("", 0).None? && Find("$", 0).None? && NoBraces("$")
  {
  }

  /** A text that goes astray behind one value. */
  lemma AstrayBehindOne(env: Env, k: string, v: string) returns (base: string)
    requires StandsFor(env, k, v) && Find("$" + v, 0).Some?
    ensures Disciplined(base, 0) && Looked(env, base, 0, base, {}) != Meaning(env, base, 0, {})
  {
    hide Find, KeyOf, Looked, Meaning, Disciplined, StandsFor, Trim, IsReference;
    StandingKey(env, k, v);
    NothingInDollar();
    var front := "$" + v;
    var x := Find(front, 0).value;
    var name := OtherName(k, x.end - x.at - 2);
    var first := "$" + Ref(k);
    base := first + Ref(name);
    assert base == first + Ref(name) + "";
    RefIsThere("$", k, Ref(name), 0);
    RefIsThere(first, name, "", |first|);
    var m, last := Span(1, |k| + 3), Span(|first|, |first| + |name| + 2);
    assert NoBraces(first[|first|..]) && NoBraces(base[|first|..|first|]);
    DisciplinedEnd(base);
    DisciplinedStep(base, |first|, last);
    DisciplinedStep(base, 0, m);
    assert "" + base[0..] == base && "" + base[0..1] == "$";
    PastReference(env, base, 0, "", m, k, v);
    LastAstray(env, base, |first|, front, last, k, v);
  }

  /** A text that goes astray behind two values. */
  lemma AstrayBehindTwo(env: Env, k: string, v: string, l: string, w: string) returns (base: string)
    requires StandsFor(env, k, v) && StandsFor(env, l, w) && Find("$" + v, 0).None? && Find("$" + v + w, 0).Some?
    ensures Disciplined(base, 0) && Looked(env, base, 0, base, {}) != Meaning(env, base, 0, {})
  {
    hide Find, KeyOf, Looked, Meaning, Disciplined, StandsFor, Trim, IsReference;
    StandingKey(env, k, v);
    StandingKey(env, l, w);
    NothingInDollar();
    var front := "$" + v;
    var x := Find(front + w, 0).value;
    var name := OtherName(k, x.end - x.at - 2);
    var first := "$" + Ref(k);
    var both := first + Ref(l);
    base := both + Ref(name);
    assert base == first + Ref(l) + Ref(name) == both + Ref(name) + "" == "$" + Ref(k) + (Ref(l) + Ref(name));
    RefIsThere("$", k, Ref(l) + Ref(name), 0);
    RefIsThere(first, l, Ref(name), |first|);
    RefIsThere(both, name, "", |both|);
    var m, next, last := Span(1, |k| + 3), Span(|first|, |first| + |l| + 2), Span(|both|, |both| + |name| + 2);
    assert NoBraces(first[|first|..]) && NoBraces(base[|first|..|first|]);
    assert NoBraces(both[|both|..]) && NoBraces(base[|both|..|both|]);
    DisciplinedEnd(base);
    DisciplinedStep(base, |both|, last);
    DisciplinedStep(base, |first|, next);
    DisciplinedStep(base, 0, m);
    assert "" + base[0..] == base && "" + base[0..1] == "$";
    PastReference(env, base, 0, "", m, k, v);
    assert front + base[|first|..|first|] == front;
    PastReference(env, base, |first|, front, next, l, w);
    LastAstray(env, base, |both|, front + w, last, k, v);
  }

  /** A reference to a value that goes astray by itself goes astray. */
  lemma AstrayAlone(env: Env, k: string) returns (base: string)
    requires k in env.values && IsNamed(env, k) && !ExpandsAlone(env, k)
    ensures Disciplined(base, 0) && Looked(env, base, 0, base, {}) != Meaning(env, base, 0, {})
  {
    hide Find, KeyOf, Looked, Meaning, Disciplined, Trim, IsReference;
    base := Ref(k);
    assert base == "" + Ref(k) + "";
    NothingInDollar();
    RefIsThere("", k, "", 0);
    var m := Span(0, |k| + 2);
    DisciplinedEnd(base);
    DisciplinedStep(base, 0, m);
    assert {} + {k} == {k};
    LookedOnce(env, base, 0, base, {}, m, k);
    MeaningOnce(env, base, 0, {}, m, k);
    var value := env.values[k];
    FailuresAgree(env, value, 0, value, {k});
    var code := Looked(env, value, 0, value, {k});
    if code.Ok? {
      NothingToLookUp(env, base, m.end + 1, ReplaceFirst(base, code.text), {});
      assert "" + base[0..] == base && "" + base[0..0] == "";
      ReplacesNext("", base, 0, m, code.text);
      assert "" + base[0..0] + code.text + base[m.end + 1..] == code.text;
      assert base[0..0] + ValueOf(env, k).text + "" == ValueOf(env, k).text;
    }
  }

  lemma AllMeantAreRight(env: Env)
    requires !CanMisplace(MeantTexts(env)) && forall k | k in env.values && IsNamed(env, k) :: ExpandsAlone(env, k)
    ensures ValuesAreRight(env, MeantTexts(env), {})
  {
    hide Looked, Meaning, IsNamed, CanMisplace, IsBenign;
    forall k | k in env.values && IsNamed(env, k)
      ensures IsRight(env, MeantTexts(env), k, {})
    {
      assert {} + {k} == {k};
      assert ExpandsAlone(env, k);
      if ValueOf(env, k).Ok? {
        TextIsBenign(MeantTexts(env), ValueOf(env, k).text);
      }
    }
  }

  lemma Misplaced(env: Env) returns (base: string)
    requires CanMisplace(MeantTexts(env)) && forall k | k in env.values && IsNamed(env, k) :: ExpandsAlone(env, k)
    ensures Disciplined(base, 0) && Looked(env, base, 0, base, {}) != Meaning(env, base, 0, {})
  {
    hide Find, Looked, Meaning, Disciplined, IsNamed, Opens, Closes, Encloses, ExpandsAlone;
    if SomeEncloses(MeantTexts(env)) {
      var v :| v in MeantTexts(env) && Encloses(v);
      var k := KeyFor(env, v);
      DollarThenEnclosed(v);
      base := AstrayBehindOne(env, k, v);
    } else {
      var v :| v in MeantTexts(env) && Opens(v);
      var w :| w in MeantTexts(env) && Closes(w);
      var k := KeyFor(env, v);
      var l := KeyFor(env, w);
      DollarThenOpenedAndClosed(v, w);
      if Find("$" + v, 0).Some? {
        base := AstrayBehindOne(env, k, v);
      } else {
        base := AstrayBehindTwo(env, k, v, l, w);
      }
    }
  }

  lemma KeyFor(env: Env, text: string) returns (key: string)
    requires text in MeantTexts(env) && forall k | k in env.values && IsNamed(env, k) :: ExpandsAlone(env, k)
    ensures StandsFor(env, key, text)
  {
    hide Looked, Meaning, IsNamed, ExpandsAlone;
    key :| key in env.values && IsNamed(env, key) && ValueOf(env, key) == Ok(text);
  }

  /**
   * The code substitutes in every text with braces only in references exactly if it does so in the
   * value of each key by itself, and no value, and no two values, can look like a reference.
   */
  lemma SubstitutesIff(env: Env)
    ensures (forall base | Disciplined(base, 0) :: Looked(env, base, 0, base, {}) == Meaning(env, base, 0, {}))
            <==> !CanMisplace(MeantTexts(env)) && forall k | k in env.values && IsNamed(env, k) :: ExpandsAlone(env, k)
  {
    hide Looked, Meaning, Disciplined, IsNamed, ExpandsAlone, CanMisplace, MeantTexts, ValuesAreRight, IsBenign;
    if k :| k in env.values && IsNamed(env, k) && !ExpandsAlone(env, k) {
      var base := AstrayAlone(env, k);
    } else if CanMisplace(MeantTexts(env)) {
      var base := Misplaced(env);
    } else {
      AllMeantAreRight(env);
      forall base | Disciplined(base, 0)
        ensures Looked(env, base, 0, base, {}) == Meaning(env, base, 0, {})
      {
        TextIsMeaning(env, MeantTexts(env), base, {});
      }
    }
  }

  lemma LeavesAreMeant(env: Env)
    ensures LeafTexts(env) <= MeantTexts(env)
    ensures CanMisplace(LeafTexts(env)) ==> CanMisplace(MeantTexts(env))
  {
    hide Find, Meaning, IsNamed, Opens, Closes, Encloses;
    forall k | k in env.values && IsLeaf(env, k)
      ensures ValueOf(env, k) == Ok(env.values[k])
    {
      var value := env.values[k];
      NothingToLookUp(env, value, 0, value, {k});
      assert value[0..] == value;
    }
  }

  /** Where stray braces stand only in values without references, these values alone decide. */
  lemma LeavesDecide(env: Env)
    requires StrayOnlyInLeaves(env)
    ensures (forall base | Disciplined(base, 0) :: Looked(env, base, 0, base, {}) == Meaning(env, base, 0, {}))
            <==> !CanMisplace(LeafTexts(env))
  {
    hide Find, Looked, Meaning, Disciplined, StrayOnlyInLeaves, IsNamed, ExpandsAlone, CanMisplace, MeantTexts,
         LeafTexts;
    if CanMisplace(LeafTexts(env)) {
      LeavesAreMeant(env);
      SubstitutesIff(env);
    } else {
      forall base | Disciplined(base, 0)
        ensures Looked(env, base, 0, base, {}) == Meaning(env, base, 0, {})
      {
        HarmlessSubstitutes(env, base);
      }
    }
  }

  // ----- one such text -----

  lemma FindAt(s: string, from: nat, m: Span)
    requires from <= m.at && IsReference(s, m) && forall i | from < i <= m.at :: s[i] != '{'
    ensures Find(s, from) == Some(m)
  {
    hide Find;
    FindsLeftmost(s, from, m);
  }

  lemma NoneToFind(s: string, from: nat)
    requires from <= |s| && forall i | from <= i < |s| :: s[i] != '$'
    ensures Find(s, from).None?
  {
    hide Find;
  }

  const STRAY := Env(map["a" := "{b}", "c" := "X"], {"a", "c"})

  /** The references in `"$${a} ${c}"`, and where the code's two replacements land. */
  lemma StrayScans(base: string)
    requires base == "$${a} ${c}"
    ensures Find(base, 0) == Some(Span(1, 4)) && KeyOf(base, Span(1, 4)) == "a"
    ensures Find(base, 5) == Some(Span(6, 9)) && KeyOf(base, Span(6, 9)) == "c"
    ensures Find(base, 10) == None
  {
    hide Find;
    FindAt(base, 0, Span(1, 4));
    FindAt(base, 5, Span(6, 9));
    NoneToFind(base, 10);
  }

  lemma StrayFirst(base: string)
    requires base == "$${a} ${c}" && Find(base, 0) == Some(Span(1, 4))
    ensures ReplaceFirst(base, "{b}") == "${b} ${c}"
  {
    hide Find;
    assert base[..1] + "{b}" + base[5..] == "${b} ${c}";
  }

  lemma StraySecond(left: string)
    requires left == "${b} ${c}"
    ensures ReplaceFirst(left, "X") == "X ${c}"
  {
    hide Find;
    assert left[0] == '$' && left[1] == '{' && left[2] == 'b' && left[3] == '}';
    FindAt(left, 0, Span(0, 3));
    assert left[..0] + "X" + left[4..] == "X ${c}";
  }

  /** `"$${a} ${c}"` with `a = "{b}"` and `c = "X"`: the value of `c` lands in the text that `a` left behind. */
  lemma StrayBraceMisplaces()
    ensures Looked(STRAY, "$${a} ${c}", 0, "$${a} ${c}", {}) == Ok("X ${c}")
    ensures Meaning(STRAY, "$${a} ${c}", 0, {}) == Ok("${b} X")
  {
    hide Find, Looked, Meaning, KeyOf, ReplaceFirst;
    var base := "$${a} ${c}";
    StrayScans(base);
    StrayFirst(base);
    StraySecond("${b} ${c}");
    NoneToFind("{b}", 0);
    NoneToFind("X", 0);
    NothingToLookUp(STRAY, "{b}", 0, "{b}", {} + {"a"});
    NothingToLookUp(STRAY, "X", 0, "X", {} + {"c"});
    LookedOnce(STRAY, base, 0, base, {}, Span(1, 4), "a");
    LookedOnce(STRAY, base, 5, "${b} ${c}", {}, Span(6, 9), "c");
    NothingToLookUp(STRAY, base, 10, "X ${c}", {});
    MeaningOnce(STRAY, base, 5, {}, Span(6, 9), "c");
    MeaningOnce(STRAY, base, 0, {}, Span(1, 4), "a");
  }
}
