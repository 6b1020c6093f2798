/** Strings as the Java and Python sources use them. */
module Text {

  predicate StartsWith(s: string, prefix: string) {
    prefix <= s
  }

  predicate StartsWithAny(s: string, prefixes: seq<string>) {
    prefixes != [] && (StartsWith(s, prefixes[0]) || StartsWithAny(s, prefixes[1..]))
  }

  lemma {:induction false} StartsWithAnyIff(s: string, prefixes: seq<string>)
    ensures StartsWithAny(s, prefixes) <==> exists p :: p in prefixes && p <= s
  {
    if prefixes != [] {
      var rest := prefixes[1..];
      StartsWithAnyIff(s, rest);
      assert prefixes == [prefixes[0]] + rest;
      if p :| p in rest && p <= s {
        assert p in prefixes;
      }
      assert prefixes[0] in prefixes;
    }
  }

  /** `ProjectRules.dotName`: the dotted form of an internal class name. */
  function DotName(internalName: string): (r: string)
    ensures |r| == |internalName|
  {
    seq(|internalName|, i requires 0 <= i < |internalName| => if internalName[i] == '/' then '.' else internalName[i])
  }

  /** Slashes become dots, and nothing else changes. */
  lemma DotNameIs(internalName: string, i: nat)
    requires i < |internalName|
    ensures DotName(internalName)[i] != '/'
    ensures internalName[i] == '/' ==> DotName(internalName)[i] == '.'
    ensures internalName[i] != '/' ==> DotName(internalName)[i] == internalName[i]
  {
  }

  /** `String.trim` of Java: every character up to the space counts as blank. */
  predicate IsBlank(c: char) {
    c <= ' '
  }

  function TrimLeft(s: string): string {
    if s == [] then [] else if IsBlank(s[0]) then TrimLeft(s[1..]) else s
  }

  function TrimRight(s: string): string {
    if s == [] then [] else if IsBlank(s[|s| - 1]) then TrimRight(s[..|s| - 1]) else s
  }

  function Trim(s: string): string {
    TrimRight(TrimLeft(s))
  }

  function Digit(d: nat): (c: char)
    requires d < 10
    ensures '0' <= c <= '9'
  {
    ['0', '1', '2', '3', '4', '5', '6', '7', '8', '9'][d]
  }

  /** A number in decimal. */
  function Decimal(n: nat): (s: string)
    ensures s != [] && forall c | c in s :: '0' <= c <= '9'
  {
    if n < 10 then [Digit(n)] else Decimal(n / 10) + [Digit(n % 10)]
  }

  lemma {:induction false} TrimLeftStarts(s: string)
    ensures TrimLeft(s) == [] || !IsBlank(TrimLeft(s)[0])
    ensures s == [] || !IsBlank(s[0]) ==> TrimLeft(s) == s
  {
    if s != [] && IsBlank(s[0]) {
      TrimLeftStarts(s[1..]);
    }
  }

  lemma {:induction false} TrimRightEnds(s: string)
    ensures TrimRight(s) <= s
    ensures TrimRight(s) == [] || !IsBlank(TrimRight(s)[|TrimRight(s)| - 1])
    ensures s == [] || !IsBlank(s[|s| - 1]) ==> TrimRight(s) == s
  {
    if s != [] && IsBlank(s[|s| - 1]) {
      TrimRightEnds(s[..|s| - 1]);
    }
  }

  lemma TrimTwice(s: string)
    ensures Trim(Trim(s)) == Trim(s)
  {
    TrimLeftStarts(s);
    TrimRightEnds(TrimLeft(s));
    TrimLeftStarts(Trim(s));
    TrimRightEnds(Trim(s));
  }

  /** Trimming is exact: what is cut off are blanks, and what is left neither begins nor ends with one. */
  lemma TrimIs(front: string, s: string, back: string)
    requires (forall c | c in front :: c <= ' ') && (forall c | c in back :: c <= ' ')
    requires s != "" ==> s[0] > ' ' && s[|s| - 1] > ' '
    ensures Trim(front + s + back) == s
  {
    TrimLeftSkips(front, s + back);
    assert front + s + back == front + (s + back);
    if s == "" {
      TrimLeftSkips(back, "");
      assert back + "" == back == s + back;
      assert TrimLeft(s + back) == "" == TrimRight("");
    } else {
      TrimLeftStarts(s + back);
      TrimRightSkips(s, back);
      TrimRightEnds(s);
    }
  }

  lemma {:induction false} TrimLeftSkips(front: string, s: string)
    requires forall c | c in front :: c <= ' '
    ensures TrimLeft(front + s) == TrimLeft(s)
  {
    if front == "" {
      assert front + s == s;
    } else {
      assert (front + s)[1..] == front[1..] + s;
      assert front[0] in front && forall c | c in front[1..] :: c in front;
      TrimLeftSkips(front[1..], s);
    }
  }

  lemma {:induction false} TrimRightSkips(s: string, back: string)
    requires forall c | c in back :: c <= ' '
    ensures TrimRight(s + back) == TrimRight(s)
  {
    if back == "" {
      assert s + back == s;
    } else {
      var n := |back| - 1;
      assert (s + back)[..|s + back| - 1] == s + back[..n];
      assert back[n] in back && forall c | c in back[..n] :: c in back;
      TrimRightSkips(s, back[..n]);
    }
  }

  function Power10(n: nat): nat {
    if n == 0 then 1 else 10 * Power10(n - 1)
  }

  /** The i-th digit from the right is that of the tens to the i-th, and there is no leading zero. */
  lemma {:induction false} DecimalDigits(n: nat, i: nat)
    ensures Power10(i) > 0
    ensures i < |Decimal(n)| ==> Decimal(n)[|Decimal(n)| - 1 - i] as int == '0' as int + n / Power10(i) % 10
    ensures i < |Decimal(n)| <==> i == 0 || n >= Power10(i)
    decreases i
  {
    if i > 0 {
      DecimalDigits(n / 10, i - 1);
      TenthOfQuotient(n, Power10(i - 1));
    }
  }

  lemma TenthOfQuotient(n: nat, p: nat)
    requires p > 0
    ensures n / 10 / p == n / (10 * p) && (n / 10 >= p <==> n >= 10 * p)
  {
    var q, r := n / 10, n % 10;
    var a, b := q / p, q % p;
    assert n == 10 * q + r == 10 * (a * p + b) + r;
    assert 10 * (a * p + b) + r == a * (10 * p) + (10 * b + r) by {
      assert 10 * (a * p) == a * (10 * p);
    }
    assert 0 <= 10 * b + r < 10 * p;
    QuotientIs(n, 10 * p, a, 10 * b + r);
  }

  lemma QuotientIs(n: nat, d: nat, q: nat, r: nat)
    requires d > 0 && n == q * d + r && r < d
    ensures n / d == q
  {
    var e := n / d - q;
    assert n / d * d + n % d == n;
    assert e * d == r - n % d by {
      assert e * d == n / d * d - q * d;
    }
    AtLeastOnce(e, d);
  }

  lemma AtLeastOnce(e: int, d: nat)
    ensures e >= 1 ==> e * d >= d
    ensures e <= -1 ==> e * d <= 0 - d
  {
    assert e >= 1 ==> (e - 1) * d >= 0;
    assert e <= -1 ==> (-1 - e) * d >= 0;
  }
}
