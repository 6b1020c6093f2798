/** Sets of integers such as "2-3,5,7-": parsing, printing, membership and iteration. */
module IntegerRanges {
  import opened Wrappers
  import opened Text

  const MAX_VALUE := 0x7fff_ffff
  const MIN_VALUE := -0x8000_0000

  /** What 32 bits keep of a number. */
  function Wrap(n: int): (r: int)
    ensures MIN_VALUE <= r <= MAX_VALUE && (MIN_VALUE <= n <= MAX_VALUE ==> r == n)
  {
    (n - MIN_VALUE) % 0x1_0000_0000 + MIN_VALUE
  }

  datatype Range = Range(start: int, end: int)

  predicate IsRange(r: Range) {
    0 <= r.start <= r.end <= MAX_VALUE
  }

  datatype Failure = BadlyFormed(text: string) | NotANumber(text: string) | Inverted(range: Range)

  datatype Result<+T> = Ok(value: T) | Err(failure: Failure)

  // ----- strings -----

  /** Where the character first stands, or the length. */
  function IndexOf(s: string, c: char): (i: nat)
    ensures i <= |s| && (i < |s| ==> s[i] == c) && c !in s[..i]
  {
    if s == [] || s[0] == c then 0 else
      var i := IndexOf(s[1..], c) + 1;
      assert s[..i] == [s[0]] + s[1..][..i - 1];
      i
  }

  /** `StringTokenizer` over commas: empty tokens are dropped. */
  function Tokens(s: string): seq<string> {
    if s == [] then []
    else if s[0] == ',' then Tokens(s[1..])
    else [s[..IndexOf(s, ',')]] + Tokens(s[IndexOf(s, ',')..])
  }

  /** `split("-", 3)` */
  function SplitDash(s: string): (parts: seq<string>)
    ensures 1 <= |parts| <= 3
  {
    var i := IndexOf(s, '-');
    if i == |s| then [s]
    else
      var rest := s[i + 1..];
      var j := IndexOf(rest, '-');
      if j == |rest| then [s[..i], rest] else [s[..i], rest[..j], rest[j + 1..]]
  }

  function DigitsValue(s: string): Option<nat> {
    if s == [] then Some(0)
    else
      var c, before := s[|s| - 1], DigitsValue(s[..|s| - 1]);
      if before.None? || !('0' <= c <= '9') then None else Some(before.value * 10 + (c as int - '0' as int))
  }

  /** `Integer.parseInt` of a text without a minus sign. */
  function ParseInt(s: string): (r: Option<int>)
    ensures r.Some? ==> 0 <= r.value <= MAX_VALUE
  {
    var digits := if s != [] && s[0] == '+' then s[1..] else s;
    var value := DigitsValue(digits);
    if digits == [] || value.None? || value.value > MAX_VALUE then None else Some(value.value)
  }

  // ----- parsing -----

  function ConvertToInt(value: string, defaultValue: int): Result<int> {
    var trim := Trim(value);
    if trim == [] then Ok(defaultValue)
    else if ParseInt(trim).None? then Err(NotANumber(trim))
    else Ok(ParseInt(trim).value)
  }

  function ParseRange(token: string): (r: Result<Range>)
    ensures r.Ok? ==> IsRange(r.value)
  {
    var rng := Trim(token);
    var parts := SplitDash(rng);
    if |parts| > 2 then Err(BadlyFormed(rng))
    else
      var start := ConvertToInt(parts[0], 0);
      if start.Err? then Err(start.failure)
      else
        var end := if |parts| == 2 then ConvertToInt(parts[1], MAX_VALUE) else start;
        if end.Err? then Err(end.failure)
        else if start.value > end.value then Err(Inverted(Range(start.value, end.value)))
        else Ok(Range(start.value, end.value))
  }

  /** All ranges, or the first failure. */
  function ParseAll(tokens: seq<string>): (r: Result<seq<Range>>)
    ensures r.Ok? ==> |r.value| == |tokens| && forall x | x in r.value :: IsRange(x)
  {
    if tokens == [] then Ok([])
    else
      var before := ParseAll(tokens[..|tokens| - 1]);
      if before.Err? then before
      else
        var last := ParseRange(tokens[|tokens| - 1]);
        if last.Err? then Err(last.failure) else Ok(before.value + [last.value])
  }

  lemma {:induction false} FailureStays(tokens: seq<string>, n: nat)
    requires n <= |tokens| && ParseAll(tokens[..n]).Err?
    ensures ParseAll(tokens) == ParseAll(tokens[..n])
    decreases |tokens|
  {
    if n == |tokens| {
      assert tokens[..n] == tokens;
    } else {
      assert tokens[..|tokens| - 1][..n] == tokens[..n];
      FailureStays(tokens[..|tokens| - 1], n);
    }
  }

  function PrintRange(r: Range): string
    requires IsRange(r)
  {
    Decimal(r.start) + "-" + Decimal(r.end)
  }

  function Print(ranges: seq<Range>): string
    requires forall r | r in ranges :: IsRange(r)
  {
    if ranges == [] then ""
    else
      Print(ranges[..|ranges| - 1]) + (if |ranges| == 1 then "" else ",") + PrintRange(ranges[|ranges| - 1])
  }

  class IntegerRanges {
    var ranges: seq<Range>

    ghost predicate Valid()
      reads this
    {
      forall r | r in ranges :: IsRange(r)
    }

    constructor ()
      ensures Valid() && ranges == []
    {
      ranges := [];
    }

    /** The constructor from a string; a failure stands for the exception that it raises. */
    static method Parse(newValue: string) returns (r: Result<IntegerRanges>)
      ensures r.Err? ==> ParseAll(Tokens(newValue)) == Err(r.failure)
      ensures r.Ok? ==> fresh(r.value) && r.value.Valid() && ParseAll(Tokens(newValue)) == Ok(r.value.ranges)
    {
      hide Tokens, SplitDash, ConvertToInt;
      var tokens := Tokens(newValue);
      var parsed := new IntegerRanges();
      var i := 0;
      while i < |tokens|
        invariant 0 <= i <= |tokens|
        invariant fresh(parsed) && parsed.Valid() && ParseAll(tokens[..i]) == Ok(parsed.ranges)
      {
        assert tokens[..i + 1][..i] == tokens[..i];
        var range := ParseRange(tokens[i]);
        if range.Err? {
          FailureStays(tokens, i + 1);
          return Err(range.failure);
        }
        parsed.ranges := parsed.ranges + [range.value];
        i := i + 1;
      }
      assert tokens[..i] == tokens;
      r := Ok(parsed);
    }

    method IsIncluded(value: int) returns (r: bool)
      ensures r <==> Included(ranges, value)
    {
      var i := 0;
      while i < |ranges|
        invariant 0 <= i <= |ranges|
        invariant !Included(ranges[..i], value)
      {
        if ranges[i].start <= value <= ranges[i].end {
          assert ranges[i] in ranges;
          return true;
        }
        assert ranges[..i + 1] == ranges[..i] + [ranges[i]];
        i := i + 1;
      }
      assert ranges[..i] == ranges;
      r := false;
    }

    method ToString() returns (result: string)
      requires Valid()
      ensures result == Print(ranges)
    {
      result := "";
      var first := true;
      var i := 0;
      while i < |ranges|
        invariant 0 <= i <= |ranges| && first == (i == 0)
        invariant result == Print(ranges[..i])
      {
        assert ranges[..i + 1][..i] == ranges[..i];
        if first {
          first := false;
        } else {
          result := result + ",";
        }
        assert ranges[i] in ranges;
        result := result + Decimal(ranges[i].start);
        result := result + "-";
        result := result + Decimal(ranges[i].end);
        i := i + 1;
      }
      assert ranges[..i] == ranges;
    }
  }

  predicate Included(ranges: seq<Range>, value: int) {
    exists r :: r in ranges && r.start <= value <= r.end
  }

  // ----- the round trip -----

  predicate IsNumeral(s: string) {
    s != [] && forall c | c in s :: '0' <= c <= '9'
  }

  lemma {:induction false} DecimalIsRead(n: nat)
    ensures DigitsValue(Decimal(n)) == Some(n)
  {
    var s := Decimal(n);
    if n < 10 {
      assert s[..0] == [];
    } else {
      DecimalIsRead(n / 10);
      assert s[..|s| - 1] == Decimal(n / 10);
    }
  }

  lemma NothingToTrim(s: string)
    requires s != [] && !IsBlank(s[0]) && !IsBlank(s[|s| - 1])
    ensures Trim(s) == s
  {
    TrimLeftStarts(s);
    TrimRightEnds(s);
  }

  lemma NumberIsConverted(n: nat, defaultValue: int)
    requires n <= MAX_VALUE
    ensures ConvertToInt(Decimal(n), defaultValue) == Ok(n)
  {
    hide Trim, DigitsValue;
    var s := Decimal(n);
    assert s[0] in s && s[|s| - 1] in s;
    NothingToTrim(s);
    DecimalIsRead(n);
  }

  lemma SplitsAtDash(a: string, b: string)
    requires IsNumeral(a) && IsNumeral(b)
    ensures SplitDash(a + "-" + b) == [a, b]
  {
    var s := a + "-" + b;
    assert s[|a|] == '-' && s[..|a|] == a && s[|a| + 1..] == b;
    FirstIndex(s, '-', |a|);
    assert '-' !in b && b[..|b|] == b;
    FirstIndex(b, '-', |b|);
  }

  lemma FirstIndex(s: string, c: char, i: nat)
    requires i <= |s| && (i < |s| ==> s[i] == c) && c !in s[..i]
    ensures IndexOf(s, c) == i
  {
    var j := IndexOf(s, c);
    assert forall k | 0 <= k < i :: s[..i][k] == s[k];
    assert forall k | 0 <= k < j :: s[..j][k] == s[k];
  }

  lemma PrintedRangeIsParsed(r: Range)
    requires IsRange(r)
    ensures ParseRange(PrintRange(r)) == Ok(r)
    ensures ',' !in PrintRange(r) && PrintRange(r) != []
  {
    hide Trim, SplitDash, ConvertToInt, Decimal;
    var a, b := Decimal(r.start), Decimal(r.end);
    var s := PrintRange(r);
    assert s == a + "-" + b;
    assert a[0] in a && b[|b| - 1] in b;
    assert s[0] == a[0] && s[|s| - 1] == b[|b| - 1];
    NothingToTrim(s);
    SplitsAtDash(a, b);
    NumberIsConverted(r.start, 0);
    NumberIsConverted(r.end, MAX_VALUE);
  }

  lemma {:induction false} TokensOfTwo(a: string, b: string)
    ensures Tokens(a + "," + b) == Tokens(a) + Tokens(b)
    decreases |a|
  {
    var s := a + "," + b;
    if a == [] {
      assert s[1..] == b;
    } else if a[0] == ',' {
      assert s[1..] == a[1..] + "," + b;
      TokensOfTwo(a[1..], b);
    } else {
      var i := IndexOf(a, ',');
      assert s[..i] == a[..i];
      FirstIndex(s, ',', i);
      assert s[i..] == a[i..] + "," + b;
      TokensOfTwo(a[i..], b);
    }
  }

  lemma TokensOfOne(s: string)
    requires s != [] && ',' !in s
    ensures Tokens(s) == [s]
  {
    FirstIndex(s, ',', |s|);
    assert s[..|s|] == s && s[|s|..] == [];
  }

  /** Parsing what was printed gives the ranges back. */
  lemma {:induction false} ParseOfPrint(ranges: seq<Range>)
    requires forall r | r in ranges :: IsRange(r)
    ensures ParseAll(Tokens(Print(ranges))) == Ok(ranges)
    ensures |Tokens(Print(ranges))| == |ranges|
  {
    hide Tokens, ParseRange, PrintRange;
    if ranges == [] {
      NoTokens();
    } else {
      var n := |ranges| - 1;
      var before, last := Print(ranges[..n]), PrintRange(ranges[n]);
      ParseOfPrint(ranges[..n]);
      assert ranges[n] in ranges;
      PrintedRangeIsParsed(ranges[n]);
      TokensOfOne(last);
      if n == 0 {
        assert Print(ranges) == last;
      } else {
        TokensOfTwo(before, last);
      }
      var tokens := Tokens(Print(ranges));
      assert tokens == Tokens(before) + [last];
      assert tokens[..n] == Tokens(before);
      assert ranges == ranges[..n] + [ranges[n]];
    }
  }

  lemma NoTokens()
    ensures Tokens("") == []
  {
  }

  /** So printing a parsed value and parsing it again loses nothing. */
  lemma ParsePrintParse(text: string)
    requires ParseAll(Tokens(text)).Ok?
    ensures ParseAll(Tokens(Print(ParseAll(Tokens(text)).value))) == ParseAll(Tokens(text))
  {
    ParseOfPrint(ParseAll(Tokens(text)).value);
  }

  lemma SplitsBeforeDash(a: string)
    requires IsNumeral(a)
    ensures SplitDash(a) == [a] && SplitDash(a + "-") == [a, ""] && SplitDash("-" + a) == ["", a]
  {
    assert '-' !in a && a[..|a|] == a;
    FirstIndex(a, '-', |a|);
    var open := a + "-";
    assert open[|a|] == '-' && open[..|a|] == a && open[|a| + 1..] == "";
    FirstIndex(open, '-', |a|);
    var closed := "-" + a;
    assert closed[0] == '-' && closed[..0] == "" && closed[1..] == a;
    FirstIndex(closed, '-', 0);
  }

  lemma NothingIsDefault(defaultValue: int)
    ensures ConvertToInt("", defaultValue) == Ok(defaultValue)
  {
  }

  /** A single number stands for itself, and a missing bound for the least or the greatest one. */
  lemma OpenRanges(n: nat)
    requires n <= MAX_VALUE
    ensures ParseRange(Decimal(n)) == Ok(Range(n, n))
    ensures ParseRange(Decimal(n) + "-") == Ok(Range(n, MAX_VALUE))
    ensures ParseRange("-" + Decimal(n)) == Ok(Range(0, n))
  {
    hide Trim, SplitDash, ConvertToInt, Decimal;
    var a := Decimal(n);
    assert a[0] in a && a[|a| - 1] in a;
    NothingToTrim(a);
    NothingToTrim(a + "-");
    NothingToTrim("-" + a);
    SplitsBeforeDash(a);
    NumberIsConverted(n, 0);
    NumberIsConverted(n, MAX_VALUE);
    NothingIsDefault(0);
    NothingIsDefault(MAX_VALUE);
  }

  /** Bounds in the wrong order are refused. */
  lemma InvertedRanges(m: nat, n: nat)
    requires n < m <= MAX_VALUE
    ensures ParseRange(Decimal(m) + "-" + Decimal(n)) == Err(Inverted(Range(m, n)))
  {
    hide Trim, SplitDash, ConvertToInt, Decimal;
    var a, b := Decimal(m), Decimal(n);
    var s := a + "-" + b;
    assert a[0] in a && b[|b| - 1] in b;
    assert s[0] == a[0] && s[|s| - 1] == b[|b| - 1];
    NothingToTrim(s);
    SplitsAtDash(a, b);
    NumberIsConverted(m, 0);
    NumberIsConverted(n, MAX_VALUE);
  }

  // ----- what is accepted, blanks included -----

  predicate IsBlankText(s: string) {
    forall c | c in s :: c <= ' '
  }

  lemma PaddedNumber(front: string, n: nat, back: string, defaultValue: int)
    requires IsBlankText(front) && IsBlankText(back) && n <= MAX_VALUE
    ensures ConvertToInt(front + Decimal(n) + back, defaultValue) == Ok(n)
    ensures Trim(front + Decimal(n) + back) == Decimal(n)
    ensures '-' !in front + Decimal(n) + back
  {
    hide Trim, ParseInt, Decimal;
    var a := Decimal(n);
    assert a[0] in a && a[|a| - 1] in a;
    TrimIs(front, a, back);
    NumberIsConverted(n, defaultValue);
    TrimTwice(a);
    NothingToTrim(a);
  }

  lemma BlankIsDefault(s: string, defaultValue: int)
    requires IsBlankText(s)
    ensures ConvertToInt(s, defaultValue) == Ok(defaultValue) && '-' !in s && Trim(s) == ""
  {
    TrimIs(s, "", "");
    assert s + "" + "" == s;
  }

  lemma ConvertTrims(s: string, defaultValue: int)
    ensures ConvertToInt(Trim(s), defaultValue) == ConvertToInt(s, defaultValue)
  {
    TrimTwice(s);
  }

  /** A text cut at its only dash. */
  lemma CutAtDash(a: string, b: string)
    requires '-' !in a && '-' !in b
    ensures SplitDash(a + "-" + b) == [a, b] && SplitDash(a) == [a]
  {
    var s := a + "-" + b;
    assert s[|a|] == '-' && s[..|a|] == a && s[|a| + 1..] == b;
    FirstIndex(s, '-', |a|);
    assert b[..|b|] == b && a[..|a|] == a;
    FirstIndex(b, '-', |b|);
    FirstIndex(a, '-', |a|);
  }

  /** Trimming the whole token trims its parts at their outer ends. */
  lemma TrimAtDash(a: string, b: string)
    requires '-' !in a && '-' !in b
    ensures Trim(a + "-" + b) == TrimLeft(a) + "-" + TrimRight(b)
    ensures '-' !in TrimLeft(a) && '-' !in TrimRight(b)
    ensures Trim(TrimLeft(a)) == Trim(a) && Trim(TrimRight(b)) == Trim(b)
  {
    CutBlanks(a, "-" + b);
    assert a + "-" + b == a + ("-" + b);
    var left := TrimLeft(a) + "-";
    assert TrimLeft(a) + ("-" + b) == left + b;
    CutBack(left, b);
    TrimLeftStarts(a);
    TrimLeftStarts(TrimLeft(a));
    TrimRightEnds(b);
    TrimEitherWay(b);
  }

  lemma {:induction false} CutBlanks(a: string, more: string)
    requires more != "" && more[0] > ' ' && '-' !in a
    ensures TrimLeft(a + more) == TrimLeft(a) + more && '-' !in TrimLeft(a)
  {
    if a == "" {
      assert a + more == more;
    } else {
      assert (a + more)[1..] == a[1..] + more;
      assert forall c | c in a[1..] :: c in a;
      CutBlanks(a[1..], more);
    }
  }

  lemma {:induction false} CutBack(more: string, b: string)
    requires more != "" && more[|more| - 1] > ' ' && '-' !in b
    ensures TrimRight(more + b) == more + TrimRight(b) && '-' !in TrimRight(b)
  {
    if b == "" {
      assert more + b == more;
    } else {
      var n := |b| - 1;
      assert (more + b)[..|more + b| - 1] == more + b[..n];
      assert forall c | c in b[..n] :: c in b;
      CutBack(more, b[..n]);
    }
  }

  /** Trimming at the right first makes no difference. */
  lemma {:induction false} TrimEitherWay(b: string)
    ensures Trim(TrimRight(b)) == Trim(b)
  {
    if b != "" && IsBlank(b[|b| - 1]) {
      var n := |b| - 1;
      TrimEitherWay(b[..n]);
      assert b == b[..n] + [b[n]];
      TrimDropsLast(b[..n], b[n]);
    }
  }

  lemma {:induction false} TrimDropsLast(s: string, c: char)
    requires c <= ' '
    ensures Trim(s + [c]) == Trim(s)
  {
    if s != "" && IsBlank(s[0]) {
      assert (s + [c])[1..] == s[1..] + [c];
      TrimDropsLast(s[1..], c);
    } else if s == "" {
      assert s + [c] == [c] && [c][1..] == "";
    } else {
      assert (s + [c])[..|s|] == s;
    }
  }

  /** A token without a dash is one number, or 0 if it is blank. */
  lemma OneBound(token: string)
    requires '-' !in token
    ensures ParseRange(token) ==
            var start := ConvertToInt(token, 0);
            if start.Err? then Err(start.failure) else Ok(Range(start.value, start.value))
  {
    hide ConvertToInt, SplitDash;
    TrimKeepsDashless(token);
    CutAtDash(Trim(token), "");
    ConvertTrims(token, 0);
  }

  lemma TrimKeepsDashless(s: string)
    requires '-' !in s
    ensures '-' !in Trim(s)
  {
    CutBlanks(s, "x");
    CutBack("x", TrimLeft(s));
  }

  /** A token with one dash has two bounds, missing ones being the least and the greatest number. */
  lemma TwoBounds(a: string, b: string)
    requires '-' !in a && '-' !in b
    ensures ParseRange(a + "-" + b) ==
            var start, end := ConvertToInt(a, 0), ConvertToInt(b, 0x7fff_ffff);
            if start.Err? then Err(start.failure)
            else if end.Err? then Err(end.failure)
            else if start.value > end.value then Err(Inverted(Range(start.value, end.value)))
            else Ok(Range(start.value, end.value))
  {
    hide ConvertToInt, SplitDash, Trim;
    TrimAtDash(a, b);
    CutAtDash(TrimLeft(a), TrimRight(b));
    ConvertTrims(a, 0);
    ConvertTrims(TrimLeft(a), 0);
    ConvertTrims(b, MAX_VALUE);
    ConvertTrims(TrimRight(b), MAX_VALUE);
  }

  /** A token with more dashes is refused. */
  lemma ThreeParts(a: string, b: string, c: string)
    requires '-' !in a && '-' !in b
    ensures ParseRange(a + "-" + b + "-" + c) == Err(BadlyFormed(Trim(a + "-" + b + "-" + c)))
  {
    hide ConvertToInt, SplitDash;
    var token := a + "-" + b + "-" + c;
    TrimThree(a, b, c);
    var left, tail := TrimLeft(a), TrimRight(c);
    CutBlanks(a, "-");
    CutTwice(left, b, tail);
  }

  lemma TrimThree(a: string, b: string, c: string)
    requires '-' !in a
    ensures Trim(a + "-" + b + "-" + c) == TrimLeft(a) + "-" + b + "-" + TrimRight(c)
  {
    hide TrimLeft, TrimRight;
    var rest := "-" + b + "-" + c;
    assert a + "-" + b + "-" + c == a + rest;
    CutBlanks(a, rest);
    var front := TrimLeft(a) + "-" + b + "-";
    assert TrimLeft(a) + rest == front + c;
    CutBackAny(front, c);
  }

  lemma CutTwice(a: string, b: string, c: string)
    requires '-' !in a && '-' !in b
    ensures SplitDash(a + "-" + b + "-" + c) == [a, b, c]
  {
    var s, second := a + "-" + b + "-" + c, b + "-" + c;
    assert s[..|a|] == a && s[|a|] == '-' && s[|a| + 1..] == second;
    FirstIndex(s, '-', |a|);
    assert second[..|b|] == b && second[|b|] == '-' && second[|b| + 1..] == c;
    FirstIndex(second, '-', |b|);
  }

  lemma {:induction false} CutBackAny(more: string, b: string)
    requires more != "" && more[|more| - 1] > ' '
    ensures TrimRight(more + b) == more + TrimRight(b)
  {
    if b == "" {
      assert more + b == more;
    } else {
      var n := |b| - 1;
      assert (more + b)[..|more + b| - 1] == more + b[..n];
      CutBackAny(more, b[..n]);
    }
  }

  /** Digits, and only digits, are read, with any leading zeros. */
  lemma {:induction false} DigitsAreRead(s: string)
    ensures DigitsValue(s).Some? <==> forall c | c in s :: '0' <= c <= '9'
  {
    if s != [] {
      var n := |s| - 1;
      var front := s[..n];
      assert s == front + [s[n]];
      DigitsAreRead(front);
      assert s[n] in s;
      assert forall c :: c in s <==> c in front || c == s[n];
    }
  }

  lemma {:induction false} ZerosAreIgnored(zeros: string, s: string)
    requires forall c | c in zeros :: c == '0'
    ensures DigitsValue(zeros + s) == DigitsValue(s)
  {
    if s == "" {
      assert zeros + s == zeros;
      if zeros != "" {
        var n := |zeros| - 1;
        assert zeros[n] in zeros && forall c | c in zeros[..n] :: c in zeros;
        ZerosAreIgnored(zeros[..n], "");
        assert zeros[..n] + "" == zeros[..n];
      }
    } else {
      var n := |s| - 1;
      assert (zeros + s)[..|zeros + s| - 1] == zeros + s[..n];
      ZerosAreIgnored(zeros, s[..n]);
    }
  }

  /** Which bounds are accepted, and as what: blank ones, and numerals up to the greatest number, blanks around them. */
  lemma BoundIff(bound: string, defaultValue: int)
    ensures var t := Trim(bound);
            var digits := if t != "" && t[0] == '+' then t[1..] else t;
            if t == "" then ConvertToInt(bound, defaultValue) == Ok(defaultValue)
            else if digits != "" && DigitsValue(digits).Some? && DigitsValue(digits).value <= 0x7fff_ffff
            then ConvertToInt(bound, defaultValue) == Ok(DigitsValue(digits).value)
            else ConvertToInt(bound, defaultValue) == Err(NotANumber(t))
  {
    hide Trim, DigitsValue;
  }

  /** Blanks around the numbers of a range do not matter. */
  lemma BlanksAreIgnored(b1: string, m: nat, b2: string, b3: string, n: nat, b4: string)
    requires IsBlankText(b1) && IsBlankText(b2) && IsBlankText(b3) && IsBlankText(b4)
    requires m <= MAX_VALUE && n <= MAX_VALUE
    ensures ParseRange((b1 + Decimal(m) + b2) + "-" + (b3 + Decimal(n) + b4)) ==
            if m <= n then Ok(Range(m, n)) else Err(Inverted(Range(m, n)))
    ensures ParseRange(b1 + Decimal(m) + b2) == Ok(Range(m, m))
    ensures ParseRange((b1 + Decimal(m) + b2) + "-" + b3) == Ok(Range(m, 0x7fff_ffff))
    ensures ParseRange(b1 + "-" + (b3 + Decimal(n) + b4)) == Ok(Range(0, n))
  {
    hide ParseRange, ConvertToInt, Decimal, Trim;
    PaddedNumber(b1, m, b2, 0);
    PaddedNumber(b3, n, b4, MAX_VALUE);
    BlankIsDefault(b3, MAX_VALUE);
    BlankIsDefault(b1, 0);
    TwoBounds(b1 + Decimal(m) + b2, b3 + Decimal(n) + b4);
    TwoBounds(b1 + Decimal(m) + b2, b3);
    TwoBounds(b1, b3 + Decimal(n) + b4);
    OneBound(b1 + Decimal(m) + b2);
  }

  // ----- iteration -----

  datatype Cursor = Cursor(at: int, end: int, rest: seq<Range>)

  function Fresh(ranges: seq<Range>): Cursor {
    Cursor(-1, -2, ranges)
  }

  predicate HasNext(c: Cursor) {
    c.at <= c.end || c.rest != []
  }

  /** A call of `next`; no value stands for the exception at the end. */
  function Next(c: Cursor): (Option<int>, Cursor) {
    if c.at <= c.end then (Some(Wrap(Wrap(c.at + 1) - 1)), c.(at := Wrap(c.at + 1)))
    else if c.rest == [] then (None, c)
    else
      var at := Wrap(c.rest[0].start + 1);
      (Some(Wrap(at - 1)), Cursor(at, c.rest[0].end, c.rest[1..]))
  }

  class RangeNumberIterator {
    var internal: seq<Range>
    var at: int
    var end: int

    function State(): Cursor
      reads this
    {
      Cursor(at, end, internal)
    }

    constructor (ranges: seq<Range>)
      ensures State() == Fresh(ranges)
    {
      internal := ranges;
      at := -1;
      end := -2;
    }

    method HasNextValue() returns (r: bool)
      ensures r == HasNext(State())
    {
      if at <= end {
        return true;
      }
      r := |internal| > 0;
    }

    method NextValue() returns (r: Option<int>)
      modifies this
      ensures (r, State()) == Next(old(State()))
    {
      if at <= end {
        at := Wrap(at + 1);
        return Some(Wrap(at - 1));
      }
      if internal == [] {
        return None;
      }
      var found := internal[0];
      internal := internal[1..];
      at := found.start;
      end := found.end;
      at := Wrap(at + 1);
      r := Some(Wrap(at - 1));
    }
  }

  function After(c: Cursor, n: nat): Cursor
    decreases n
  {
    if n == 0 then c else After(Next(c).1, n - 1)
  }

  /** What the call after `n` others returns. */
  function Nth(c: Cursor, n: nat): Option<int> {
    Next(After(c, n)).0
  }

  function Values(start: int, end: int): (s: seq<int>)
    ensures |s| == if start <= end then end - start + 1 else 0
  {
    if start <= end then seq(end - start + 1, i => start + i) else []
  }

  function Concat(ranges: seq<Range>): seq<int> {
    if ranges == [] then [] else Values(ranges[0].start, ranges[0].end) + Concat(ranges[1..])
  }

  /** What is still to come. */
  function Pending(c: Cursor): seq<int> {
    Values(c.at, c.end) + Concat(c.rest)
  }

  predicate EndsBelowMax(ranges: seq<Range>) {
    forall r | r in ranges :: IsRange(r) && r.end < MAX_VALUE
  }

  predicate Tame(c: Cursor) {
    MIN_VALUE <= c.at && c.end < MAX_VALUE && EndsBelowMax(c.rest)
  }

  lemma ValuesSplit(start: int, end: int)
    requires start <= end
    ensures Values(start, end) == [start] + Values(start + 1, end)
  {
  }

  lemma NoValues(start: int, end: int)
    requires start > end
    ensures Values(start, end) == []
  {
  }

  lemma FirstRemoved(v: int, s: seq<int>, t: seq<int>)
    ensures var all := [v] + s + t; all[0] == v && all[1..] == s + t
  {
  }

  lemma NextKeepsTame(c: Cursor)
    requires Tame(c)
    ensures Tame(Next(c).1)
  {
    assert c.rest != [] ==> c.rest[0] in c.rest;
  }

  /** Without wrapping around. */
  lemma NextOf(c: Cursor)
    requires Tame(c)
    ensures Next(c) ==
            if c.at <= c.end then (Some(c.at), c.(at := c.at + 1))
            else if c.rest == [] then (None, c)
            else (Some(c.rest[0].start), Cursor(c.rest[0].start + 1, c.rest[0].end, c.rest[1..]))
  {
    assert c.rest != [] ==> c.rest[0] in c.rest;
  }

  lemma NextIsFirstPending(c: Cursor)
    requires Tame(c)
    ensures HasNext(c) <==> Pending(c) != []
    ensures Next(c).0 == if Pending(c) == [] then None else Some(Pending(c)[0])
    ensures Pending(Next(c).1) == if Pending(c) == [] then [] else Pending(c)[1..]
  {
    hide Values, Next;
    NextOf(c);
    if c.at <= c.end {
      ValuesSplit(c.at, c.end);
      FirstRemoved(c.at, Values(c.at + 1, c.end), Concat(c.rest));
    } else {
      NoValues(c.at, c.end);
      assert [] + Concat(c.rest) == Concat(c.rest);
      if c.rest != [] {
        var r := c.rest[0];
        assert r in c.rest;
        ValuesSplit(r.start, r.end);
        FirstRemoved(r.start, Values(r.start + 1, r.end), Concat(c.rest[1..]));
      }
    }
  }

  /** Calls return the pending values one by one, and then no more. */
  lemma {:induction false} CallsDrain(c: Cursor, n: nat)
    requires Tame(c)
    ensures Nth(c, n) == if n < |Pending(c)| then Some(Pending(c)[n]) else None
    ensures HasNext(After(c, n)) <==> n < |Pending(c)|
    decreases n
  {
    hide Pending, Tame;
    NextIsFirstPending(c);
    NextKeepsTame(c);
    if n > 0 {
      CallsDrain(Next(c).1, n - 1);
    }
  }

  /** The iterator yields the concatenation of the ranges if none of them ends at the greatest integer. */
  lemma IterationIsConcat(ranges: seq<Range>, n: nat)
    requires EndsBelowMax(ranges)
    ensures Nth(Fresh(ranges), n) == if n < |Concat(ranges)| then Some(Concat(ranges)[n]) else None
    ensures HasNext(After(Fresh(ranges), n)) <==> n < |Concat(ranges)|
  {
    assert Pending(Fresh(ranges)) == Concat(ranges);
    CallsDrain(Fresh(ranges), n);
  }

  lemma {:induction false} ConcatIsIncluded(ranges: seq<Range>, v: int)
    ensures v in Concat(ranges) <==> Included(ranges, v)
  {
    if ranges != [] {
      var r := ranges[0];
      ConcatIsIncluded(ranges[1..], v);
      assert ranges == [r] + ranges[1..];
      assert r.start <= v <= r.end ==> Values(r.start, r.end)[v - r.start] == v;
    }
  }

  /** A range that ends at the greatest integer leads on to the least. */
  lemma {:induction false} WrapsAround(c: Cursor) returns (n: nat)
    requires MIN_VALUE <= c.at && c.end <= MAX_VALUE && forall r | r in c.rest :: IsRange(r)
    requires (c.at <= c.end && c.end == MAX_VALUE) || exists r :: r in c.rest && r.end == MAX_VALUE
    ensures Nth(c, n) == Some(MIN_VALUE)
    decreases |c.rest|, MAX_VALUE - c.at
  {
    var next := Next(c).1;
    if c.at <= c.end && c.at == MAX_VALUE {
      n := 1;
      assert After(c, 1) == next;
    } else {
      if c.at > c.end {
        assert c.rest[0] in c.rest;
        assert c.rest == [c.rest[0]] + c.rest[1..];
      }
      var m := WrapsAround(next);
      n := m + 1;
    }
  }

  /** Every value that the iterator yields is included exactly if no range ends at the greatest integer. */
  lemma YieldsIncludedIff(ranges: seq<Range>)
    requires forall r | r in ranges :: IsRange(r)
    ensures EndsBelowMax(ranges) <==>
            forall n | Nth(Fresh(ranges), n).Some? :: Included(ranges, Nth(Fresh(ranges), n).value)
  {
    if EndsBelowMax(ranges) {
      forall n | Nth(Fresh(ranges), n).Some?
        ensures Included(ranges, Nth(Fresh(ranges), n).value)
      {
        IterationIsConcat(ranges, n);
        ConcatIsIncluded(ranges, Nth(Fresh(ranges), n).value);
      }
    } else {
      var n := WrapsAround(Fresh(ranges));
      assert Nth(Fresh(ranges), n) == Some(MIN_VALUE);
      assert !Included(ranges, MIN_VALUE);
    }
  }

  /** Then it yields all that is included. */
  lemma IteratesWhatIsIncluded(ranges: seq<Range>, v: int)
    requires EndsBelowMax(ranges)
    ensures (exists n :: Nth(Fresh(ranges), n) == Some(v)) <==> Included(ranges, v)
  {
    ConcatIsIncluded(ranges, v);
    if v in Concat(ranges) {
      var n: nat :| n < |Concat(ranges)| && Concat(ranges)[n] == v;
      IterationIsConcat(ranges, n);
    }
    forall n | Nth(Fresh(ranges), n) == Some(v)
      ensures v in Concat(ranges)
    {
      IterationIsConcat(ranges, n);
    }
  }
}
