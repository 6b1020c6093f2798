/** The lines that the runtime prints, and what the collector makes of a log that holds them. */
module EventLog {
  import opened Wrappers
  import opened Text
  import opened TraceRuntime

  // ----- printing -----

  function TypeOf(e: LogEvent): string {
    match e
    case LocalStored(_, _, _) => "PROV-LOCAL-STORE"
    case LocalTouched(_, _, _) => "PROV-LOCAL-TOUCH"
    case FieldStored(_, _, _) => "PROV-FIELD-STORE"
    case FieldTouched(_, _, _) => "PROV-FIELD-TOUCH"
    case DirectlyUsed(_, _, _) => "PROV-DIRECT-USE"
    case ArgPassed(_, _, _) => "PROV-ARG-PASS"
    case UseBacked(_, _, _) => "USE-BACKED-EXERCISED"
  }

  /** What follows the name of the parameter, word by word. */
  function Words(e: LogEvent): seq<string> {
    match e
    case LocalStored(_, frame, slot) => ["local=" + frame + "#slot" + Decimal(slot)]
    case LocalTouched(_, frame, slot) => ["local=" + frame + "#slot" + Decimal(slot), "reader=" + frame]
    case FieldStored(_, field, writer) => ["field=" + field, "writer=" + writer]
    case FieldTouched(_, field, reader) => ["field=" + field, "reader=" + reader]
    case DirectlyUsed(_, site, op) => ["site=" + site, "op=" + op]
    case ArgPassed(_, caller, callee) => ["caller=" + caller, "callee=" + callee]
    case UseBacked(_, reason, site) => ["reason=" + reason, "site=" + site]
  }

  function Spaced(words: seq<string>): string {
    if words == [] then "" else " " + words[0] + Spaced(words[1..])
  }

  function PayloadOf(e: LogEvent): string {
    "name=" + e.param + Spaced(Words(e))
  }

  function LineOf(eventType: string, payload: string): string {
    "[CTEST][" + eventType + "] " + payload
  }

  class EventLogger {
    /** The error stream. */
    var err: string

    constructor ()
      ensures err == ""
    {
      err := "";
    }

    /** To the text of a log, emitting a report adds that report. */
    method Emit(eventType: string, payload: string)
      modifies this
      ensures err == old(err) + LineOf(eventType, payload) + "\n"
      ensures forall log, e | old(err) == TextOf(log) && eventType == TypeOf(e) && payload == PayloadOf(e) ::
                err == TextOf(log + [Report(e)])
    {
      hide TextOf, TypeOf, PayloadOf;
      err := err + ("[CTEST][" + eventType + "] " + payload);
      err := err + "\n";
      forall log, e | old(err) == TextOf(log) && eventType == TypeOf(e) && payload == PayloadOf(e) {
        TextGrows(log, Report(e));
      }
    }
  }

  // ----- strings in Python -----

  /** `str.isspace`, and `\s` of a regular expression. */
  predicate IsSpace(c: char) {
    var n := c as int;
    || 0x09 <= n <= 0x0d || 0x1c <= n <= 0x20 || n == 0x85 || n == 0xa0 || n == 0x1680
    || 0x2000 <= n <= 0x200a || n == 0x2028 || n == 0x2029 || n == 0x202f || n == 0x205f || n == 0x3000
  }

  /** Where `str.splitlines` splits. */
  predicate IsLineBreak(c: char) {
    var n := c as int;
    0x0a <= n <= 0x0d || 0x1c <= n <= 0x1e || n == 0x85 || n == 0x2028 || n == 0x2029
  }

  /** The blanks and the line breaks of Python, one by one. */
  lemma BlanksAre(c: char)
    ensures IsSpace(c) <==>
            c as int in {9, 10, 11, 12, 13, 28, 29, 30, 31, 32, 133, 160, 5760, 8192, 8193, 8194, 8195, 8196, 8197,
                         8198, 8199, 8200, 8201, 8202, 8232, 8233, 8239, 8287, 12288}
    ensures IsLineBreak(c) <==> c as int in {10, 11, 12, 13, 28, 29, 30, 133, 8232, 8233}
  {
  }

  predicate NoSpace(s: string) {
    forall i | 0 <= i < |s| :: !IsSpace(s[i])
  }

  predicate OneLine(s: string) {
    forall i | 0 <= i < |s| :: !IsLineBreak(s[i])
  }

  function LineEnd(s: string): (i: nat)
    ensures i <= |s| && OneLine(s[..i]) && (i < |s| ==> IsLineBreak(s[i]))
  {
    if s == [] || IsLineBreak(s[0]) then 0
    else
      var i := LineEnd(s[1..]) + 1;
      assert s[..i] == [s[0]] + s[1..][..i - 1];
      i
  }

  function SplitLines(s: string): seq<string>
    decreases |s|
  {
    if s == [] then []
    else
      var i := LineEnd(s);
      if i == |s| then [s]
      else if s[i] == '\r' && i + 1 < |s| && s[i + 1] == '\n' then [s[..i]] + SplitLines(s[i + 2..])
      else [s[..i]] + SplitLines(s[i + 1..])
  }

  function LeftStrip(s: string): string {
    if s == [] then [] else if IsSpace(s[0]) then LeftStrip(s[1..]) else s
  }

  function RightStrip(s: string): string {
    if s == [] then [] else if IsSpace(s[|s| - 1]) then RightStrip(s[..|s| - 1]) else s
  }

  function Strip(s: string): string {
    RightStrip(LeftStrip(s))
  }

  /** Where the text stops being a word. */
  function WordEnd(s: string): (i: nat)
    ensures i <= |s| && NoSpace(s[..i]) && (i < |s| ==> IsSpace(s[i]))
  {
    if s == [] || IsSpace(s[0]) then 0
    else
      var i := WordEnd(s[1..]) + 1;
      assert s[..i] == [s[0]] + s[1..][..i - 1];
      i
  }

  /** `s.split(None, 1)` */
  function SplitOnce(s: string): (parts: seq<string>)
    ensures |parts| <= 2
  {
    var t := LeftStrip(s);
    if t == [] then []
    else
      var rest := LeftStrip(t[WordEnd(t)..]);
      if rest == [] then [t[..WordEnd(t)]] else [t[..WordEnd(t)], rest]
  }

  /** `str.find` */
  function IndexOf(s: string, part: string): (r: Option<nat>)
    ensures r.Some? ==> r.value + |part| <= |s| && part <= s[r.value..]
    ensures r.None? ==> forall i | 0 <= i <= |s| :: !(part <= s[i..])
  {
    if part <= s then Some(0)
    else if s == [] then None
    else
      var r := IndexOf(s[1..], part);
      assert forall i | 0 < i <= |s| :: s[i..] == s[1..][i - 1..];
      if r.None? then None else Some(r.value + 1)
  }

  // ----- parsing -----

  predicate IsTypeChar(c: char) {
    'A' <= c <= 'Z' || '0' <= c <= '9' || c == '-'
  }

  function TypeEnd(s: string): (i: nat)
    ensures i <= |s| && (forall j | 0 <= j < i :: IsTypeChar(s[j])) && (i < |s| ==> !IsTypeChar(s[i]))
  {
    if s == [] || !IsTypeChar(s[0]) then 0 else TypeEnd(s[1..]) + 1
  }

  datatype Tag = Tag(op: string, payload: string)

  const TAG := "[CTEST]["

  /** `\[CTEST\]\[([A-Z0-9-]+)\]\s*(.*)` at the start of the text. */
  function TagAtStart(s: string): Option<Tag> {
    if !(TAG <= s) then None
    else
      var rest := s[|TAG|..];
      var n := TypeEnd(rest);
      if n == 0 || n == |rest| || rest[n] != ']' then None else Some(Tag(rest[..n], LeftStrip(rest[n + 1..])))
  }

  /** The leftmost place where the expression matches. */
  function Search(s: string): Option<Tag> {
    if TagAtStart(s).Some? then TagAtStart(s) else if s == [] then None else Search(s[1..])
  }

  const STACK_TAB := "\tstack="
  const STACK_BLANK := " stack="

  /** The name and the rest; none stands for the index error on an empty payload. */
  function ParsePayload(payload: string): Option<(string, string)> {
    var p := Strip(payload);
    if "name=" <= p then
      var body := p[|"name="|..];
      var tab, blank := IndexOf(body, STACK_TAB), IndexOf(body, STACK_BLANK);
      if tab.Some? then Some((Strip(body[..tab.value]), Strip(body[tab.value + |STACK_TAB|..])))
      else if blank.Some? then Some((Strip(body[..blank.value]), Strip(body[blank.value + |STACK_BLANK|..])))
      else ParseWords(body)
    else ParseWords(p)
  }

  function ParseWords(s: string): Option<(string, string)> {
    var parts := SplitOnce(s);
    if |parts| == 0 then None
    else if |parts| == 1 then Some((Strip(parts[0]), ""))
    else Some((Strip(parts[0]), Strip(parts[1])))
  }

  /** An event is a dictionary. */
  type Event = map<string, string>

  function EventOf(operation: string, paramName: string, stacktrace: string, line: string, index: nat,
                   from: From): Event {
    map["operation" := operation, "param_name" := paramName, "stacktrace" := stacktrace,
        "source" := from.source, "raw_line" := line, "line_number" := Decimal(index)] + from.extra
  }

  /** What the caller adds to each event; `extra` may replace what was parsed. */
  datatype From = From(source: string, extra: map<string, string>)

  predicate KeepsFields(from: From) {
    "operation" !in from.extra && "param_name" !in from.extra
  }

  lemma FieldsOf(operation: string, paramName: string, stacktrace: string, line: string, index: nat, from: From)
    requires KeepsFields(from)
    ensures var e := EventOf(operation, paramName, stacktrace, line, index, from);
            && "operation" in e && e["operation"] == operation
            && "param_name" in e && e["param_name"] == paramName
  {
    assert "operation" != "param_name" by {
      assert "operation"[0] != "param_name"[0];
    }
  }

  datatype LineResult = NoEvent | IndexError | Found(event: Event)

  /** `RAW_EXERCISED_OPERATIONS` lose their ending. */
  function Operation(op: string): string {
    if op == "GET-PARAM" then "GET"
    else if op == "SET-PARAM" then "SET"
    else if op == "EXERCISED-PARAM" then "EXERCISED"
    else op
  }

  function ParseLine(line: string, index: nat, from: From): LineResult {
    var tag := Search(line);
    if tag.None? then NoEvent
    else
      var parts := ParsePayload(tag.value.payload);
      if parts.None? then IndexError
      else Found(EventOf(Operation(tag.value.op), parts.value.0, parts.value.1, Strip(line), index, from))
  }

  function ParseLines(lines: seq<string>, from: From): Option<seq<Event>> {
    if lines == [] then Some([])
    else
      var before, r := ParseLines(lines[..|lines| - 1], from), ParseLine(lines[|lines| - 1], |lines|, from);
      if before.None? || r.IndexError? then None
      else if r.NoEvent? then before
      else Some(before.value + [r.event])
  }

  lemma {:induction false} ErrorStays(lines: seq<string>, n: nat, from: From)
    requires n <= |lines| && ParseLines(lines[..n], from).None?
    ensures ParseLines(lines, from).None?
  {
    if n == |lines| {
      assert lines[..n] == lines;
    } else {
      assert lines[..|lines| - 1][..n] == lines[..n];
      ErrorStays(lines[..|lines| - 1], n, from);
    }
  }

  method ParseEventsFromText(text: string, from: From) returns (events: Option<seq<Event>>)
    ensures events == ParseLines(SplitLines(text), from)
  {
    hide SplitLines, ParseLine;
    var lines := SplitLines(text);
    var found: seq<Event> := [];
    var i := 0;
    while i < |lines|
      invariant 0 <= i <= |lines| && ParseLines(lines[..i], from) == Some(found)
    {
      assert lines[..i + 1][..i] == lines[..i];
      var r := ParseLine(lines[i], i + 1, from);
      match r {
        case NoEvent =>
        case IndexError =>
          ErrorStays(lines, i + 1, from);
          return None;
        case Found(event) => found := found + [event];
      }
      i := i + 1;
    }
    assert lines[..i] == lines;
    events := Some(found);
  }

  // ----- the names in a log -----

  /** The order of strings in Python. */
  predicate Less(a: string, b: string) {
    b != "" && (a == "" || a[0] < b[0] || (a[0] == b[0] && Less(a[1..], b[1..])))
  }

  lemma {:induction false} LessIsTotal(a: string, b: string)
    ensures Less(a, b) || a == b || Less(b, a)
    ensures !(Less(a, b) && Less(b, a)) && !Less(a, a)
  {
    if a != "" && b != "" {
      LessIsTotal(a[1..], b[1..]);
      assert a == [a[0]] + a[1..] && b == [b[0]] + b[1..];
    }
    if a != "" {
      LessIsTotal(a[1..], a[1..]);
    }
  }

  lemma {:induction false} LessIsTransitive(a: string, b: string, c: string)
    requires Less(a, b) && Less(b, c)
    ensures Less(a, c)
  {
    if a != "" {
      if a[0] == b[0] == c[0] {
        LessIsTransitive(a[1..], b[1..], c[1..]);
      }
    }
  }

  predicate Ascending(names: seq<string>) {
    forall i, j | 0 <= i < j < |names| :: Less(names[i], names[j])
  }

  function Elements(names: seq<string>): set<string> {
    set n | n in names
  }

  /** There is one way to put a set in order. */
  lemma {:induction false} AscendingIsUnique(a: seq<string>, b: seq<string>)
    requires Ascending(a) && Ascending(b) && Elements(a) == Elements(b)
    ensures a == b
  {
    if a == [] {
      assert forall i | 0 <= i < |b| :: b[i] in Elements(b);
    } else {
      assert a[0] in Elements(a);
      FirstIsLeast(a, b);
      FirstIsLeast(b, a);
      LessIsTotal(a[0], b[0]);
      RestHolds(a);
      RestHolds(b);
      AscendingIsUnique(a[1..], b[1..]);
      assert a == [a[0]] + a[1..] && b == [b[0]] + b[1..];
    }
  }

  lemma FirstIsLeast(a: seq<string>, b: seq<string>)
    requires a != [] && Ascending(b) && a[0] in Elements(b)
    ensures b[0] == a[0] || Less(b[0], a[0])
  {
    var i :| 0 <= i < |b| && b[i] == a[0];
  }

  lemma RestHolds(a: seq<string>)
    requires a != [] && Ascending(a)
    ensures Ascending(a[1..]) && Elements(a[1..]) == Elements(a) - {a[0]}
  {
    LessIsTotal(a[0], a[0]);
    assert a == [a[0]] + a[1..];
    assert forall i | 0 <= i < |a| - 1 :: a[1..][i] == a[i + 1];
    assert a[0] !in a[1..];
  }

  /** The set with a new name, in order. */
  function Insert(names: seq<string>, name: string): seq<string> {
    if names == [] then [name]
    else if name == names[0] then names
    else if Less(name, names[0]) then [name] + names
    else [names[0]] + Insert(names[1..], name)
  }

  lemma {:induction false} InsertAdds(names: seq<string>, name: string)
    ensures Elements(Insert(names, name)) == Elements(names) + {name}
  {
    if names == [] {
      ElementsOf(name, []);
    } else {
      InsertAdds(names[1..], name);
      assert names == [names[0]] + names[1..];
      ElementsOf(names[0], names[1..]);
      ElementsOf(name, names);
      ElementsOf(names[0], Insert(names[1..], name));
    }
  }

  lemma ElementsOf(first: string, rest: seq<string>)
    ensures Elements([first] + rest) == {first} + Elements(rest)
  {
  }

  lemma AscendingFrom(first: string, rest: seq<string>)
    requires Ascending(rest) && forall n | n in Elements(rest) :: Less(first, n)
    ensures Ascending([first] + rest)
  {
    assert forall i | 0 <= i < |rest| :: rest[i] in Elements(rest);
  }

  lemma {:induction false} InsertKeepsOrder(names: seq<string>, name: string)
    requires Ascending(names)
    ensures Ascending(Insert(names, name))
  {
    hide Less;
    if names != [] {
      var rest := names[1..];
      RestHolds(names);
      LessIsTotal(name, names[0]);
      forall n | n in Elements(rest)
        ensures Less(names[0], n) && (Less(name, names[0]) ==> Less(name, n))
      {
        var i :| 0 <= i < |rest| && rest[i] == n;
        assert names[i + 1] == n;
        if Less(name, names[0]) {
          LessIsTransitive(name, names[0], n);
        }
      }
      InsertKeepsOrder(rest, name);
      InsertAdds(rest, name);
      if Less(name, names[0]) {
        assert names == [names[0]] + rest;
        AscendingFrom(name, names);
      } else if name != names[0] {
        AscendingFrom(names[0], Insert(rest, name));
      }
    }
  }

  function NameOf(e: Event): string {
    if "param_name" in e then e["param_name"] else ""
  }

  predicate Counts(e: Event, operations: Option<set<string>>) {
    NameOf(e) != "" && (operations.None? || ("operation" in e && e["operation"] in operations.value))
  }

  function NamesIn(events: seq<Event>, operations: Option<set<string>>): set<string> {
    set e | e in events && Counts(e, operations) :: NameOf(e)
  }

  /** `sorted` of the set of names. */
  method UniqueParams(events: seq<Event>, operations: Option<set<string>>) returns (names: seq<string>)
    ensures Ascending(names) && Elements(names) == NamesIn(events, operations)
  {
    hide Ascending, Insert;
    names := [];
    NothingAscends();
    var i := 0;
    while i < |events|
      invariant 0 <= i <= |events|
      invariant Ascending(names) && Elements(names) == NamesIn(events[..i], operations)
    {
      assert events[..i + 1] == events[..i] + [events[i]];
      if Counts(events[i], operations) {
        InsertKeepsOrder(names, NameOf(events[i]));
        InsertAdds(names, NameOf(events[i]));
        names := Insert(names, NameOf(events[i]));
      }
      i := i + 1;
    }
    assert events[..i] == events;
  }

  lemma NothingAscends()
    ensures Ascending([]) && Elements([]) == {}
  {
  }

  const USE_BACKED_OPERATION := "USE-BACKED-EXERCISED"

  method ExtractUseBackedNames(events: seq<Event>) returns (names: seq<string>)
    ensures Ascending(names) && Elements(names) == NamesIn(events, Some({USE_BACKED_OPERATION}))
  {
    names := UniqueParams(events, Some({USE_BACKED_OPERATION}));
  }

  // ----- the round trip -----

  /** A word of a payload: no blank inside, and not the stack that the collector looks for. */
  predicate IsWord(w: string) {
    w != "" && NoSpace(w) && !("stack=" <= w)
  }

  predicate AreWords(words: seq<string>) {
    forall w | w in words :: IsWord(w)
  }

  /** A report whose names and ids are free of blanks and line separators. */
  predicate IsClean(e: LogEvent) {
    && e.param != "" && NoSpace(e.param)
    && match e
       case LocalStored(_, frame, _) => NoSpace(frame)
       case LocalTouched(_, frame, _) => NoSpace(frame)
       case FieldStored(_, field, writer) => NoSpace(field) && NoSpace(writer)
       case FieldTouched(_, field, reader) => NoSpace(field) && NoSpace(reader)
       case DirectlyUsed(_, site, op) => NoSpace(site) && NoSpace(op)
       case ArgPassed(_, caller, callee) => NoSpace(caller) && NoSpace(callee)
       case UseBacked(_, reason, site) => NoSpace(reason) && NoSpace(site)
  }

  lemma KeyedIsWord(key: string, value: string)
    requires |key| >= 2 && NoSpace(key) && (key[0] != 's' || key[1] != 't') && NoSpace(value)
    ensures IsWord(key + value)
  {
    var w := key + value;
    assert w[0] == key[0] && w[1] == key[1];
    assert "stack="[0] == 's' && "stack="[1] == 't';
  }

  lemma SlotIsPlain(frame: string, slot: nat)
    requires NoSpace(frame)
    ensures NoSpace(frame + "#slot" + Decimal(slot))
  {
    var d := Decimal(slot);
    assert forall i | 0 <= i < |d| :: d[i] in d;
  }

  lemma LocalIsWord(frame: string, slot: nat)
    requires NoSpace(frame)
    ensures IsWord("local=" + frame + "#slot" + Decimal(slot))
  {
    hide IsWord, NoSpace;
    SlotIsPlain(frame, slot);
    assert NoSpace("local=") by { KeysArePlain(); }
    KeyedIsWord("local=", frame + "#slot" + Decimal(slot));
    assert "local=" + (frame + "#slot" + Decimal(slot)) == "local=" + frame + "#slot" + Decimal(slot);
  }

  lemma KeysArePlain()
    ensures NoSpace("local=") && NoSpace("reader=") && NoSpace("field=") && NoSpace("writer=") && NoSpace("site=")
    ensures NoSpace("op=") && NoSpace("caller=") && NoSpace("callee=") && NoSpace("reason=")
  {
  }

  lemma CleanWords(e: LogEvent)
    requires IsClean(e)
    ensures AreWords(Words(e)) && Words(e) != []
  {
    hide IsWord, NoSpace;
    KeysArePlain();
    match e
    case LocalStored(_, frame, slot) => LocalIsWord(frame, slot);
    case LocalTouched(_, frame, slot) => LocalIsWord(frame, slot); KeyedIsWord("reader=", frame);
    case FieldStored(_, field, writer) => KeyedIsWord("field=", field); KeyedIsWord("writer=", writer);
    case FieldTouched(_, field, reader) => KeyedIsWord("field=", field); KeyedIsWord("reader=", reader);
    case DirectlyUsed(_, site, op) => KeyedIsWord("site=", site); KeyedIsWord("op=", op);
    case ArgPassed(_, caller, callee) => KeyedIsWord("caller=", caller); KeyedIsWord("callee=", callee);
    case UseBacked(_, reason, site) => KeyedIsWord("reason=", reason); KeyedIsWord("site=", site);
  }

  /** No stack is found in a name followed by words. */
  lemma {:induction false} NoStackAt(x: string, words: seq<string>, i: nat)
    requires NoSpace(x) && AreWords(words) && i <= |x + Spaced(words)|
    ensures !(STACK_BLANK <= (x + Spaced(words))[i..]) && !(STACK_TAB <= (x + Spaced(words))[i..])
    decreases |words|
  {
    var s := x + Spaced(words);
    if i < |x| {
      assert s[i..][0] == x[i];
      assert IsSpace(STACK_BLANK[0]) && IsSpace(STACK_TAB[0]);
    } else if words != [] {
      var w, rest := words[0], words[1..];
      assert w in words && forall v | v in rest :: v in words;
      var t := w + Spaced(rest);
      assert Spaced(words) == " " + t;
      if i == |x| {
        assert s[i..] == " " + t;
        WordIsNoStack(w, rest);
        SamePrefixAfter(' ', "stack=", t);
        assert STACK_BLANK == [' '] + "stack=" && s[i..] == [' '] + t;
        assert s[i..][0] == ' ' && STACK_TAB[0] == '\t';
      } else {
        assert s[i..] == t[i - |x| - 1..];
        NoStackAt(w, rest, i - |x| - 1);
      }
    } else {
      assert s[i..] == [];
    }
  }

  lemma WordIsNoStack(w: string, rest: seq<string>)
    requires IsWord(w)
    ensures !("stack=" <= w + Spaced(rest))
  {
    var t, key := w + Spaced(rest), "stack=";
    assert forall i | 0 <= i < |key| :: key[i] != ' ';
    if |w| >= |key| {
      assert w[..|key|] == t[..|key|];
    } else if rest != [] {
      assert t[|w|] == ' ';
    } else {
      assert t == w;
    }
  }

  lemma SamePrefixAfter(c: char, part: string, s: string)
    requires !(part <= s)
    ensures !([c] + part <= [c] + s)
  {
    if |part| <= |s| {
      var k :| 0 <= k < |part| && part[k] != s[k];
      assert ([c] + part)[k + 1] != ([c] + s)[k + 1];
    }
  }

  lemma LeftStripStays(s: string)
    requires s == "" || !IsSpace(s[0])
    ensures LeftStrip(s) == s
  {
  }

  lemma StripStays(s: string)
    requires s == "" || (!IsSpace(s[0]) && !IsSpace(s[|s| - 1]))
    ensures Strip(s) == s
  {
  }

  lemma WordEnds(x: string, s: string)
    requires NoSpace(x) && (s == "" || IsSpace(s[0]))
    ensures WordEnd(x + s) == |x|
  {
    var t := x + s;
    var i := WordEnd(t);
    assert forall j | 0 <= j < |x| :: t[j] == x[j];
    assert forall j | 0 <= j < i :: t[..i][j] == t[j];
    assert s != "" ==> t[|x|] == s[0];
  }

  lemma {:induction false} SpacedEnds(words: seq<string>)
    requires AreWords(words) && words != []
    ensures Spaced(words) != "" && Spaced(words)[0] == ' ' && !IsSpace(Spaced(words)[|Spaced(words)| - 1])
  {
    hide IsSpace;
    var w, rest := words[0], words[1..];
    assert w in words && forall v | v in rest :: v in words;
    if rest != [] {
      SpacedEnds(rest);
    }
  }

  /** Name and words are told apart again. */
  lemma PayloadIsParsed(name: string, words: seq<string>)
    requires name != "" && NoSpace(name) && AreWords(words) && words != []
    ensures ParsePayload("name=" + name + Spaced(words)) == Some((name, Spaced(words)[1..]))
  {
    hide IndexOf, Spaced, AreWords, NoSpace;
    var tail := Spaced(words);
    var body := name + tail;
    var p := "name=" + name + tail;
    SpacedStarts(name, words);
    StripStays(p);
    assert p == "name=" + body && p[|"name="|..] == body;
    forall i | 0 <= i <= |body|
      ensures !(STACK_TAB <= body[i..]) && !(STACK_BLANK <= body[i..])
    {
      NoStackAt(name, words, i);
    }
    assert IndexOf(body, STACK_TAB).None? && IndexOf(body, STACK_BLANK).None?;
    WordsAreParsed(name, words);
  }

  lemma SpacedStarts(name: string, words: seq<string>)
    requires name != "" && NoSpace(name) && AreWords(words) && words != []
    ensures var tail := Spaced(words);
            |tail| >= 2 && tail[0] == ' ' && !IsSpace(tail[1]) && !IsSpace(tail[|tail| - 1])
    ensures !IsSpace(name[0]) && !IsSpace(name[|name| - 1])
  {
    SpacedEnds(words);
    assert words[0] in words;
    assert Spaced(words)[1] == words[0][0];
  }

  lemma WordsAreParsed(name: string, words: seq<string>)
    requires name != "" && NoSpace(name) && AreWords(words) && words != []
    ensures ParseWords(name + Spaced(words)) == Some((name, Spaced(words)[1..]))
  {
    hide Spaced, AreWords, Strip, NoSpace;
    var tail := Spaced(words);
    var body := name + tail;
    SpacedStarts(name, words);
    LeftStripStays(body);
    WordEnds(name, tail);
    assert body[..|name|] == name && body[|name|..] == tail;
    LeftStripStays(tail[1..]);
    assert IsSpace(tail[0]);
    StripStays(name);
    StripStays(tail[1..]);
  }

  predicate IsType(t: string) {
    t != "" && forall i | 0 <= i < |t| :: IsTypeChar(t[i])
  }

  lemma NamesAreTypes()
    ensures IsType("PROV-LOCAL-STORE") && IsType("PROV-LOCAL-TOUCH") && IsType("PROV-FIELD-STORE")
    ensures IsType("PROV-FIELD-TOUCH") && IsType("PROV-DIRECT-USE") && IsType("PROV-ARG-PASS")
    ensures IsType("USE-BACKED-EXERCISED")
  {
  }

  lemma TypesAreTypes(e: LogEvent)
    ensures IsType(TypeOf(e))
  {
    hide IsType;
    NamesAreTypes();
  }

  lemma TypeIsRead(t: string, more: string)
    requires IsType(t)
    ensures TypeEnd(t + "]" + more) == |t|
  {
    var s := t + "]" + more;
    assert forall i | 0 <= i < |t| :: s[i] == t[i];
    assert s[|t|] == ']';
  }

  function Printed(e: LogEvent): string {
    LineOf(TypeOf(e), PayloadOf(e))
  }

  lemma TagIsFound(t: string, payload: string)
    requires IsType(t) && payload != "" && !IsSpace(payload[0])
    ensures Search(LineOf(t, payload)) == Some(Tag(t, payload))
  {
    hide IsType, TypeEnd, LeftStrip;
    var line := LineOf(t, payload);
    var rest := t + "]" + (" " + payload);
    assert t != "" by { TypeIsSome(t); }
    assert line == TAG + rest;
    assert line[|TAG|..] == rest;
    TypeIsRead(t, " " + payload);
    assert rest[..|t|] == t && rest[|t|] == ']' && rest[|t| + 1..] == " " + payload;
    BlankIsStripped(payload);
  }

  lemma TypeIsSome(t: string)
    requires IsType(t)
    ensures t != ""
  {
  }

  lemma BlankIsStripped(s: string)
    requires s != "" && !IsSpace(s[0])
    ensures LeftStrip(" " + s) == s
  {
    assert (" " + s)[1..] == s;
  }

  /** A printed report is read back: operation, parameter and the words that follow. */
  lemma PrintedIsParsed(e: LogEvent, index: nat, from: From)
    requires IsClean(e)
    ensures ParseLine(Printed(e), index, from) ==
            Found(EventOf(TypeOf(e), e.param, Spaced(Words(e))[1..], Printed(e), index, from))
    ensures OneLine(Printed(e)) && Spaced(Words(e)) != ""
  {
    hide TypeOf, Words, Search, ParsePayload, Spaced, Strip, NoSpace, AreWords, IsType, EventOf;
    var payload := PayloadOf(e);
    CleanWords(e);
    TypesAreTypes(e);
    SpacedStarts(e.param, Words(e));
    assert payload[0] == 'n';
    TagIsFound(TypeOf(e), payload);
    PayloadIsParsed(e.param, Words(e));
    OperationStays(e);
    var line := Printed(e);
    assert line[0] == '[';
    assert line[|line| - 1] == Spaced(Words(e))[|Spaced(Words(e))| - 1];
    StripStays(line);
    PrintedIsOneLine(e);
  }

  lemma OperationStays(e: LogEvent)
    ensures Operation(TypeOf(e)) == TypeOf(e)
  {
  }

  lemma {:induction false} SpacedIsOneLine(words: seq<string>)
    requires AreWords(words)
    ensures OneLine(Spaced(words))
  {
    if words != [] {
      assert words[0] in words && forall v | v in words[1..] :: v in words;
      SpacedIsOneLine(words[1..]);
    }
  }

  lemma PrintedIsOneLine(e: LogEvent)
    requires IsClean(e)
    ensures OneLine(Printed(e))
  {
    hide Words, TypeOf, Spaced;
    CleanWords(e);
    SpacedIsOneLine(Words(e));
    TypesAreTypes(e);
  }

  // ----- a whole log -----

  /** A log also holds what others print. */
  datatype LogLine = Report(e: LogEvent) | Other(text: string)

  predicate IsLogLine(l: LogLine) {
    if l.Report? then IsClean(l.e) else OneLine(l.text)
  }

  function Shown(l: LogLine): string {
    if l.Report? then Printed(l.e) else l.text
  }

  function TextOf(log: seq<LogLine>): string {
    if log == [] then "" else Shown(log[0]) + "\n" + TextOf(log[1..])
  }

  /** Printing a line adds it at the end. */
  lemma {:induction false} TextGrows(log: seq<LogLine>, l: LogLine)
    ensures TextOf(log + [l]) == TextOf(log) + Shown(l) + "\n"
  {
    hide Shown;
    if log == [] {
      assert (log + [l])[1..] == [];
    } else {
      var text := TextOf(log[1..]);
      assert (log + [l])[1..] == log[1..] + [l];
      TextGrows(log[1..], l);
      assert Shown(log[0]) + "\n" + (text + Shown(l) + "\n") == Shown(log[0]) + "\n" + text + Shown(l) + "\n";
    }
  }

  function ShownAll(log: seq<LogLine>): (lines: seq<string>)
    ensures |lines| == |log|
  {
    seq(|log|, i requires 0 <= i < |log| => Shown(log[i]))
  }

  predicate AreLogLines(log: seq<LogLine>) {
    forall l | l in log :: IsLogLine(l)
  }

  lemma LineEndsThere(line: string, rest: string)
    requires OneLine(line)
    ensures LineEnd(line + "\n" + rest) == |line|
  {
    var s := line + "\n" + rest;
    var i := LineEnd(s);
    assert forall j | 0 <= j < |line| :: s[j] == line[j];
    assert forall j | 0 <= j < i :: s[..i][j] == s[j];
    assert s[|line|] == '\n';
  }

  lemma LineIsSplit(line: string, rest: string)
    requires OneLine(line)
    ensures SplitLines(line + "\n" + rest) == [line] + SplitLines(rest)
  {
    hide LineEnd, OneLine;
    var s := line + "\n" + rest;
    LineEndsThere(line, rest);
    assert s[|line|] == '\n';
    assert s[..|line|] == line && s[|line| + 1..] == rest;
  }

  lemma ShownIsOneLine(l: LogLine)
    requires IsLogLine(l)
    ensures OneLine(Shown(l))
  {
    if l.Report? {
      PrintedIsOneLine(l.e);
    }
  }

  lemma ShownFirst(log: seq<LogLine>)
    requires log != []
    ensures ShownAll(log) == [Shown(log[0])] + ShownAll(log[1..])
  {
    hide Shown;
  }

  lemma {:induction false} TextIsSplit(log: seq<LogLine>)
    requires AreLogLines(log)
    ensures SplitLines(TextOf(log)) == ShownAll(log)
  {
    hide Shown, IsLogLine, SplitLines, ShownAll;
    if log == [] {
      NothingSplit();
    } else {
      assert log[0] in log && forall l | l in log[1..] :: l in log;
      ShownIsOneLine(log[0]);
      LineIsSplit(Shown(log[0]), TextOf(log[1..]));
      TextIsSplit(log[1..]);
      ShownFirst(log);
    }
  }

  lemma NothingSplit()
    ensures SplitLines("") == [] == ShownAll([])
  {
  }

  /** What the collector makes of one line: a report is read back; none stands for the index error. */
  function Read(l: LogLine, index: nat, from: From): Option<seq<Event>> {
    match l
    case Report(e) => Some([EventIn(e, index, from)])
    case Other(text) =>
      var r := ParseLine(text, index, from);
      if r.IndexError? then None else if r.NoEvent? then Some([]) else Some([r.event])
  }

  /** The events of the lines, numbered by line. */
  function Events(log: seq<LogLine>, from: From): Option<seq<Event>> {
    if log == [] then Some([])
    else
      var n := |log| - 1;
      var before, last := Events(log[..n], from), Read(log[n], |log|, from);
      if before.None? || last.None? then None else Some(before.value + last.value)
  }

  /** The event of a report in line `index`. */
  function EventIn(e: LogEvent, index: nat, from: From): Event {
    EventOf(TypeOf(e), e.param, Rest(e), Printed(e), index, from)
  }

  function Rest(e: LogEvent): string {
    var s := Spaced(Words(e));
    if s == "" then "" else s[1..]
  }

  lemma {:induction false} LinesAreParsed(log: seq<LogLine>, from: From)
    requires AreLogLines(log)
    ensures ParseLines(ShownAll(log), from) == Events(log, from)
  {
    hide ParseLine, Printed, IsClean, EventIn;
    if log != [] {
      var n := |log| - 1;
      assert log[n] in log && forall l | l in log[..n] :: l in log;
      LinesAreParsed(log[..n], from);
      assert ShownAll(log)[..n] == ShownAll(log[..n]);
      if log[n].Report? {
        ReportIsRead(log[n].e, |log|, from);
      } else if ParseLine(log[n].text, |log|, from).NoEvent? && Events(log[..n], from).Some? {
        assert Events(log[..n], from).value + [] == Events(log[..n], from).value;
      }
    }
  }

  lemma ReportIsRead(e: LogEvent, index: nat, from: From)
    requires IsClean(e)
    ensures ParseLine(Printed(e), index, from) == Found(EventIn(e, index, from))
  {
    hide ParseLine, Printed, IsClean, TypeOf, Words, EventOf;
    PrintedIsParsed(e, index, from);
  }

  /** The collector reads back every report of a log, in order, and takes every other line as it stands. */
  lemma LogIsParsed(log: seq<LogLine>, from: From)
    requires AreLogLines(log)
    ensures ParseLines(SplitLines(TextOf(log)), from) == Events(log, from)
  {
    hide SplitLines, ParseLines, Events, AreLogLines;
    TextIsSplit(log);
    LinesAreParsed(log, from);
  }

  /** A tagged line whose payload is empty: the collector fails on it. */
  predicate IsBroken(text: string) {
    Search(text).Some? && ParsePayload(Search(text).value.payload).None?
  }

  /** Exactly the broken lines of others make the collector fail. */
  lemma {:induction false} FailsIffBroken(log: seq<LogLine>, from: From)
    ensures Events(log, from).None? <==> exists l :: l in log && l.Other? && IsBroken(l.text)
  {
    hide Search, ParsePayload, EventIn, EventOf, Operation, Strip;
    if log != [] {
      var n := |log| - 1;
      assert log == log[..n] + [log[n]];
      FailsIffBroken(log[..n], from);
    }
  }

  function UsesReported(log: seq<LogLine>): set<string> {
    set l | l in log && l.Report? && l.e.UseBacked? :: l.e.param
  }

  lemma OnlyUsesHaveTheOperation(e: LogEvent)
    ensures TypeOf(e) == USE_BACKED_OPERATION <==> e.UseBacked?
  {
    assert USE_BACKED_OPERATION[0] == 'U' && (!e.UseBacked? ==> TypeOf(e)[0] == 'P');
  }

  lemma NamesGrow(events: seq<Event>, more: seq<Event>, operations: Option<set<string>>)
    ensures NamesIn(events + more, operations) == NamesIn(events, operations) + NamesIn(more, operations)
  {
  }

  lemma NameOfUse(e: LogEvent, index: nat, from: From)
    requires e.param != "" && KeepsFields(from)
    ensures NamesIn([EventIn(e, index, from)], Some({USE_BACKED_OPERATION})) == if e.UseBacked? then {e.param} else {}
  {
    hide TypeOf, EventOf, Rest, Printed;
    OnlyUsesHaveTheOperation(e);
    FieldsOf(TypeOf(e), e.param, Rest(e), Printed(e), index, from);
    assert EventIn(e, index, from) in [EventIn(e, index, from)];
  }

  lemma UsesGrow(log: seq<LogLine>, l: LogLine)
    ensures UsesReported(log + [l]) == UsesReported(log) + UsesReported([l])
    ensures ForeignUses(log + [l]) == ForeignUses(log) + ForeignUses([l])
  {
    hide UseNamed;
  }

  /** The parameter of which a line of another says that it was used; nobody else should say so. */
  function UseNamed(text: string): string {
    var tag := Search(text);
    if tag.None? || Operation(tag.value.op) != USE_BACKED_OPERATION || ParsePayload(tag.value.payload).None? then ""
    else ParsePayload(tag.value.payload).value.0
  }

  function ForeignUses(log: seq<LogLine>): set<string> {
    set l | l in log && l.Other? && UseNamed(l.text) != "" :: UseNamed(l.text)
  }

  lemma NamesOfOther(text: string, index: nat, from: From)
    requires KeepsFields(from) && !IsBroken(text)
    ensures NamesIn(Read(Other(text), index, from).value, Some({USE_BACKED_OPERATION})) ==
            if UseNamed(text) != "" then {UseNamed(text)} else {}
  {
    hide Search, ParsePayload, EventOf, Strip, Operation;
    var tag := Search(text);
    if tag.Some? {
      var parts := ParsePayload(tag.value.payload).value;
      FieldsOf(Operation(tag.value.op), parts.0, parts.1, Strip(text), index, from);
      var e := EventOf(Operation(tag.value.op), parts.0, parts.1, Strip(text), index, from);
      assert Read(Other(text), index, from) == Some([e]);
      assert e in [e];
    }
  }

  /** The names that it extracts are those of the reported uses, and those of which a line of another says so. */
  lemma {:induction false} ExtractedAreReported(log: seq<LogLine>, from: From)
    requires AreLogLines(log) && KeepsFields(from) && Events(log, from).Some?
    ensures NamesIn(Events(log, from).value, Some({USE_BACKED_OPERATION})) == UsesReported(log) + ForeignUses(log)
  {
    hide Read, NamesIn, UsesReported, ForeignUses, IsBroken, UseNamed;
    if log == [] {
      NothingExtracted();
    } else {
      var n := |log| - 1;
      assert log == log[..n] + [log[n]];
      assert log[n] in log && forall l | l in log[..n] :: l in log;
      ExtractedAreReported(log[..n], from);
      UsesGrow(log[..n], log[n]);
      NamesGrow(Events(log[..n], from).value, Read(log[n], |log|, from).value, Some({USE_BACKED_OPERATION}));
      NamesOfLine(log[n], |log|, from);
    }
  }

  lemma NamesOfLine(l: LogLine, index: nat, from: From)
    requires IsLogLine(l) && KeepsFields(from) && Read(l, index, from).Some?
    ensures NamesIn(Read(l, index, from).value, Some({USE_BACKED_OPERATION})) ==
            UsesReported([l]) + ForeignUses([l])
  {
    hide NamesIn, Search, ParsePayload, Operation, EventOf, EventIn;
    assert l in [l];
    match l {
      case Report(e) => NameOfUse(e, index, from);
      case Other(text) => NamesOfOther(text, index, from);
    }
  }

  lemma NothingExtracted()
    ensures NamesIn([], Some({USE_BACKED_OPERATION})) == {} == UsesReported([]) == ForeignUses([])
  {
  }

  // ----- what the getters and the transformer print -----

  /** No tag begins in the text, wherever one stands behind it. */
  predicate HasNoTag(s: string) {
    forall i | 0 <= i < |s| :: !(TAG <= (s + TAG)[i..])
  }

  lemma {:induction false} TagIsFoundBehind(front: string, t: string, payload: string)
    requires HasNoTag(front) && IsType(t) && payload != "" && !IsSpace(payload[0])
    ensures Search(front + LineOf(t, payload)) == Some(Tag(t, payload))
  {
    hide IsType, TypeEnd, LeftStrip, LineOf;
    if front == "" {
      TagIsFound(t, payload);
      assert front + LineOf(t, payload) == LineOf(t, payload);
    } else {
      var line, rest := LineOf(t, payload), front[1..];
      LineBeginsWithTag(t, payload);
      NoTagHere(front, line);
      assert forall i | 0 <= i < |rest| :: (rest + TAG)[i..] == (front + TAG)[i + 1..];
      assert (front + line)[1..] == rest + line;
      TagIsFoundBehind(rest, t, payload);
    }
  }

  lemma LineBeginsWithTag(t: string, payload: string)
    ensures TAG <= LineOf(t, payload)
  {
    assert LineOf(t, payload) == TAG + (t + "] " + payload);
  }

  lemma NoTagHere(front: string, line: string)
    requires HasNoTag(front) && front != "" && TAG <= line
    ensures TagAtStart(front + line).None?
  {
    var s := front + line;
    assert (front + TAG)[0..] == front + TAG;
    assert s[..|front| + |TAG|] == front + TAG;
    assert s[..|TAG|] == (front + TAG)[..|TAG|];
  }

  predicate AllSpace(s: string) {
    forall i | 0 <= i < |s| :: IsSpace(s[i])
  }

  lemma {:induction false} LeftStripEmpty(s: string)
    ensures LeftStrip(s) == "" <==> AllSpace(s)
  {
    if s != "" {
      LeftStripEmpty(s[1..]);
      assert s == [s[0]] + s[1..];
    }
  }

  lemma {:induction false} RightStripBehind(a: string, s: string)
    requires a != "" && !IsSpace(a[|a| - 1])
    ensures RightStrip(a + s) == a + RightStrip(s)
    ensures RightStrip(s) <= s && (AllSpace(RightStrip(s)) <==> AllSpace(s))
    ensures AllSpace(s) ==> RightStrip(s) == ""
  {
    if s == "" {
      assert a + s == a;
    } else {
      var n := |s| - 1;
      assert (a + s)[..|a + s| - 1] == a + s[..n];
      assert s == s[..n] + [s[n]];
      RightStripBehind(a, s[..n]);
    }
  }

  /** The payload of a getter's line can be parsed exactly if the name is not blank. */
  lemma NamedPayload(name: string)
    ensures ParsePayload("name=" + name).None? <==> AllSpace(name)
  {
    hide IndexOf;
    var payload := "name=" + name;
    assert payload[0] == 'n';
    LeftStripStays(payload);
    RightStripBehind("name=", name);
    var body := RightStrip(name);
    assert Strip(payload)[|"name="|..] == body;
    LeftStripEmpty(body);
    NothingInEmpty();
  }

  lemma NothingInEmpty()
    ensures IndexOf("", STACK_TAB).None? && IndexOf("", STACK_BLANK).None?
  {
  }

  /** The line that a getter logs: not a use, and no failure unless the name is blank. */
  lemma GetterLine(front: string, name: string)
    requires HasNoTag(front)
    ensures var line := front + "[CTEST][EXERCISED-PARAM] name=" + name;
            UseNamed(line) == "" && (IsBroken(line) <==> AllSpace(name))
  {
    hide Search, ParsePayload, HasNoTag;
    var line, payload := front + "[CTEST][EXERCISED-PARAM] name=" + name, "name=" + name;
    assert IsType("EXERCISED-PARAM");
    assert payload[0] == 'n';
    assert line == front + LineOf("EXERCISED-PARAM", payload);
    TagIsFoundBehind(front, "EXERCISED-PARAM", payload);
    NamedPayload(name);
    assert "EXERCISED"[0] != USE_BACKED_OPERATION[0];
  }

  /** The debug line of the transformer: neither a use nor a failure. */
  lemma DebugLine(message: string)
    requires message != "" && message[0] == 't'
    ensures var line := "[CTEST][PROV-DEBUG] " + message;
            UseNamed(line) == "" && !IsBroken(line)
  {
    hide Search, RightStrip;
    assert IsType("PROV-DEBUG");
    assert "[CTEST][PROV-DEBUG] " + message == LineOf("PROV-DEBUG", message);
    TagIsFound("PROV-DEBUG", message);
    assert "PROV-DEBUG"[0] != USE_BACKED_OPERATION[0];
    LeftStripStays(message);
    assert message == [message[0]] + message[1..];
    RightStripBehind([message[0]], message[1..]);
    assert Strip(message)[0] == 't' && "name="[0] == 'n';
  }

  // ----- the printed lines, word by word -----

  /** What each report looks like: its type, and its payload word by word. */
  lemma PrintedLines(param: string, x: string, y: string, slot: nat)
    ensures Printed(LocalStored(param, x, slot)) ==
            LineOf("PROV-LOCAL-STORE", "name=" + param + " local=" + x + "#slot" + Decimal(slot))
    ensures Printed(LocalTouched(param, x, slot)) ==
            LineOf("PROV-LOCAL-TOUCH", "name=" + param + " local=" + x + "#slot" + Decimal(slot) + " reader=" + x)
    ensures Printed(FieldStored(param, x, y)) ==
            LineOf("PROV-FIELD-STORE", "name=" + param + " field=" + x + " writer=" + y)
    ensures Printed(FieldTouched(param, x, y)) ==
            LineOf("PROV-FIELD-TOUCH", "name=" + param + " field=" + x + " reader=" + y)
    ensures Printed(DirectlyUsed(param, x, y)) ==
            LineOf("PROV-DIRECT-USE", "name=" + param + " site=" + x + " op=" + y)
    ensures Printed(ArgPassed(param, x, y)) ==
            LineOf("PROV-ARG-PASS", "name=" + param + " caller=" + x + " callee=" + y)
    ensures Printed(UseBacked(param, x, y)) ==
            LineOf("USE-BACKED-EXERCISED", "name=" + param + " reason=" + x + " site=" + y)
  {
    hide Spaced, Decimal, LineOf;
    var name, d := "name=" + param, Decimal(slot);
    OneWord("local=" + x + "#slot" + d);
    TwoWords("local=" + x + "#slot" + d, "reader=" + x);
    assert name + (" " + ("local=" + x + "#slot" + d)) == name + " local=" + x + "#slot" + d;
    assert name + (" " + ("local=" + x + "#slot" + d) + " " + ("reader=" + x)) ==
           name + " local=" + x + "#slot" + d + " reader=" + x;
    TwoKeys(name, "field=", x, "writer=", y);
    TwoKeys(name, "field=", x, "reader=", y);
    TwoKeys(name, "site=", x, "op=", y);
    TwoKeys(name, "caller=", x, "callee=", y);
    TwoKeys(name, "reason=", x, "site=", y);
    assert " " + "field=" == " field=" && " " + "writer=" == " writer=" && " " + "reader=" == " reader=";
    assert " " + "site=" == " site=" && " " + "op=" == " op=" && " " + "caller=" == " caller=";
    assert " " + "callee=" == " callee=" && " " + "reason=" == " reason=";
  }

  lemma TwoKeys(name: string, k: string, x: string, l: string, y: string)
    ensures name + Spaced([k + x, l + y]) == name + (" " + k) + x + (" " + l) + y
  {
    hide Spaced;
    TwoWords(k + x, l + y);
    assert name + (" " + (k + x) + " " + (l + y)) == name + (" " + k) + x + (" " + l) + y;
  }

  lemma OneWord(w: string)
    ensures Spaced([w]) == " " + w
  {
    assert [w][1..] == [];
    assert " " + w + Spaced([]) == " " + w;
  }

  lemma TwoWords(v: string, w: string)
    ensures Spaced([v, w]) == " " + v + " " + w
  {
    assert [v, w][1..] == [w];
    OneWord(w);
    assert " " + v + (" " + w) == " " + v + " " + w;
  }

  /** The line of a report is its type in brackets and its payload. */
  lemma LinesBegin(eventType: string, payload: string)
    ensures LineOf(eventType, payload) == "[CTEST][" + eventType + "] " + payload
  {
  }

  // ----- payloads with a stack, and without a name -----

  predicate Holds(s: string, part: string) {
    exists i :: 0 <= i <= |s| && part <= s[i..]
  }

  /** The part does not begin before the end of the front, when it stands there. */
  predicate IsFirstBehind(front: string, part: string) {
    forall i | 0 <= i < |front| :: !(part <= (front + part)[i..])
  }

  lemma NotAtFront(front: string, part: string, back: string)
    requires front != "" && IsFirstBehind(front, part)
    ensures !(part <= front + part + back)
  {
    var s := front + part + back;
    assert (front + part)[0..] == front + part;
    assert s[..|part|] == (front + part)[..|part|];
  }

  lemma FirstBehindRest(front: string, part: string)
    requires front != "" && IsFirstBehind(front, part)
    ensures IsFirstBehind(front[1..], part)
  {
    assert forall i | 0 <= i < |front| - 1 :: (front[1..] + part)[i..] == (front + part)[i + 1..];
  }

  lemma {:induction false} IndexIsFirst(front: string, part: string, back: string)
    requires part != "" && IsFirstBehind(front, part)
    ensures IndexOf(front + part + back, part) == Some(|front|)
  {
    hide IsFirstBehind;
    var s := front + part + back;
    if front == "" {
      assert s == part + back && s[..|part|] == part;
    } else {
      NotAtFront(front, part, back);
      FirstBehindRest(front, part);
      assert s[1..] == front[1..] + part + back;
      IndexIsFirst(front[1..], part, back);
    }
  }

  lemma {:induction false} StripRightFirst(s: string)
    ensures Strip(RightStrip(s)) == Strip(s)
  {
    if s != "" && IsSpace(s[|s| - 1]) {
      var n := |s| - 1;
      StripRightFirst(s[..n]);
      assert s == s[..n] + [s[n]];
      StripDropsLast(s[..n], s[n]);
    }
  }

  lemma {:induction false} StripDropsLast(s: string, c: char)
    requires IsSpace(c)
    ensures Strip(s + [c]) == Strip(s)
  {
    if s == "" {
      assert s + [c] == [c] && [c][1..] == "";
    } else if IsSpace(s[0]) {
      assert (s + [c])[1..] == s[1..] + [c];
      StripDropsLast(s[1..], c);
    } else {
      assert (s + [c])[..|s|] == s;
    }
  }

  lemma NamedPayloadIs(name: string, mark: string, stack: string)
    requires mark != "" && mark[|mark| - 1] == '='
    ensures Strip("name=" + name + mark + stack) == "name=" + (name + mark + RightStrip(stack))
  {
    hide LeftStrip, RightStrip;
    var front := "name=" + name + mark;
    assert front[|front| - 1] == '=' && front[0] == 'n';
    assert (front + stack)[0] == 'n';
    LeftStripStays(front + stack);
    RightStripBehind(front, stack);
    assert front + RightStrip(stack) == "name=" + (name + mark + RightStrip(stack));
  }

  /** A name, a tab, and the stack are told apart, blanks around them aside. */
  lemma StackBehindTab(name: string, stack: string)
    requires IsFirstBehind(name, "\tstack=")
    ensures ParsePayload("name=" + name + "\tstack=" + stack) == Some((Strip(name), Strip(stack)))
  {
    hide Strip, IndexOf, RightStrip;
    NamedPayloadIs(name, "\tstack=", stack);
    var end := RightStrip(stack);
    var body := name + "\tstack=" + end;
    assert ("name=" + body)[|"name="|..] == body;
    IndexIsFirst(name, "\tstack=", end);
    assert body[..|name|] == name && body[|name| + |"\tstack="|..] == end;
    StripRightFirst(stack);
  }

  /** The same behind a blank, if no stack stands behind a tab. */
  lemma StackBehindBlank(name: string, stack: string)
    requires IsFirstBehind(name, " stack=") && !Holds(name + " stack=" + RightStrip(stack), "\tstack=")
    ensures ParsePayload("name=" + name + " stack=" + stack) == Some((Strip(name), Strip(stack)))
  {
    hide Strip, IndexOf, RightStrip;
    NamedPayloadIs(name, " stack=", stack);
    var end := RightStrip(stack);
    var body := name + " stack=" + end;
    assert ("name=" + body)[|"name="|..] == body;
    assert IndexOf(body, "\tstack=").None?;
    IndexIsFirst(name, " stack=", end);
    assert body[..|name|] == name && body[|name| + |" stack="|..] == end;
    StripRightFirst(stack);
  }

  /** A payload that does not begin with a name: its first word stands for the name. */
  lemma PlainPayload(word: string, gap: string, rest: string)
    requires word != "" && NoSpace(word) && !("name=" <= word + gap + rest)
    requires gap != "" && AllSpace(gap)
    requires rest != "" && !IsSpace(rest[0]) && !IsSpace(rest[|rest| - 1])
    ensures ParsePayload(word + gap + rest) == Some((word, rest))
  {
    hide Strip;
    var p := word + gap + rest;
    assert p[0] == word[0] && p[|p| - 1] == rest[|rest| - 1];
    StripStays(p);
    WordThenRest(word, gap, rest);
    StripStays(word);
    StripStays(rest);
  }

  lemma WordThenRest(word: string, gap: string, rest: string)
    requires word != "" && NoSpace(word) && gap != "" && AllSpace(gap) && rest != "" && !IsSpace(rest[0])
    ensures SplitOnce(word + gap + rest) == [word, rest]
  {
    hide LeftStrip, WordEnd;
    var s := word + gap + rest;
    LeftStripStays(s);
    assert s == word + (gap + rest);
    WordEnds(word, gap + rest);
    assert s[..|word|] == word && s[|word|..] == gap + rest;
    LeftStripSkips(gap, rest);
    LeftStripStays(rest);
  }

  lemma {:induction false} LeftStripSkips(gap: string, rest: string)
    requires AllSpace(gap)
    ensures LeftStrip(gap + rest) == LeftStrip(rest)
  {
    if gap == "" {
      assert gap + rest == rest;
    } else {
      assert (gap + rest)[1..] == gap[1..] + rest;
      LeftStripSkips(gap[1..], rest);
    }
  }

  /** Three raw operations lose their ending; all others stay. */
  lemma OperationIs(op: string)
    ensures Operation("GET-PARAM") == "GET" && Operation("SET-PARAM") == "SET"
    ensures Operation("EXERCISED-PARAM") == "EXERCISED"
    ensures op != "GET-PARAM" && op != "SET-PARAM" && op != "EXERCISED-PARAM" ==> Operation(op) == op
  {
    assert "SET-PARAM"[0] == 'S' && "GET-PARAM"[0] == 'G' && "EXERCISED-PARAM"[0] == 'E';
  }

  /** The tag that is taken is the leftmost one. */
  lemma {:induction false} SearchIsLeftmost(s: string, i: nat)
    requires i <= |s| && TagAtStart(s[i..]).Some? && forall j | 0 <= j < i :: TagAtStart(s[j..]).None?
    ensures Search(s) == TagAtStart(s[i..])
  {
    hide TagAtStart;
    assert s[0..] == s;
    if i > 0 {
      assert s[1..][i - 1..] == s[i..];
      assert forall j | 0 <= j < i - 1 :: s[1..][j..] == s[j + 1..];
      SearchIsLeftmost(s[1..], i - 1);
    }
  }

  // ----- the fields of an event -----

  /** What the caller adds replaces what was parsed; all other fields are those of the line. */
  lemma AllFields(operation: string, paramName: string, stacktrace: string, line: string, index: nat, from: From)
    ensures var e := EventOf(operation, paramName, stacktrace, line, index, from);
            && (forall k | k in from.extra :: k in e && e[k] == from.extra[k])
            && ("operation" !in from.extra ==> "operation" in e && e["operation"] == operation)
            && ("param_name" !in from.extra ==> "param_name" in e && e["param_name"] == paramName)
            && ("stacktrace" !in from.extra ==> "stacktrace" in e && e["stacktrace"] == stacktrace)
            && ("source" !in from.extra ==> "source" in e && e["source"] == from.source)
            && ("raw_line" !in from.extra ==> "raw_line" in e && e["raw_line"] == line)
            && ("line_number" !in from.extra ==> "line_number" in e && e["line_number"] == Decimal(index))
  {
    assert "operation"[0] == 'o' && "param_name"[0] == 'p' && "stacktrace"[1] == 't' && "source"[1] == 'o';
    assert "raw_line"[0] == 'r' && "line_number"[0] == 'l' && "stacktrace"[0] == 's' && "source"[0] == 's';
  }

  // ----- lines and their ends -----

  /** A line end: a carriage return with a line feed behind it is one end, not two. */
  predicate IsLineEnd(end: string, back: string) {
    || end == "\r\n"
    || (|end| == 1 && IsLineBreak(end[0]) && !(end == "\r" && "\n" <= back))
  }

  /** Any text is split at its first line end, wherever that is. */
  lemma SplitsAtEnd(line: string, end: string, back: string)
    requires OneLine(line) && IsLineEnd(end, back)
    ensures SplitLines(line + end + back) == [line] + SplitLines(back)
  {
    hide LineEnd, OneLine;
    var s := line + end + back;
    FirstLineEnd(line, end + back);
    assert s == line + (end + back);
    assert s[|line|] == end[0] && s[..|line|] == line;
    if end == "\r\n" {
      assert s[|line| + 1] == '\n' && s[|line| + 2..] == back;
    } else {
      assert s[|line| + 1..] == back;
      assert back != "" ==> s[|line| + 1] == back[0] && ("\n" <= back <==> back[0] == '\n');
    }
  }

  lemma FirstLineEnd(line: string, rest: string)
    requires OneLine(line) && rest != "" && IsLineBreak(rest[0])
    ensures LineEnd(line + rest) == |line|
  {
    var s := line + rest;
    var i := LineEnd(s);
    assert forall j | 0 <= j < |line| :: s[j] == line[j];
    assert forall j | 0 <= j < i :: s[..i][j] == s[j];
    assert s[|line|] == rest[0];
  }

  /** What is left without a line end is the last line, unless it is empty. */
  lemma SplitsNoMore(line: string)
    requires OneLine(line)
    ensures SplitLines(line) == if line == "" then [] else [line]
  {
    var i := LineEnd(line);
    assert forall j | 0 <= j < i :: line[..i][j] == line[j];
  }

  // ----- the order of names -----

  /** Names are compared character by character; a beginning comes first. */
  lemma {:induction false} LessIff(a: string, b: string)
    ensures Less(a, b) <==>
            exists k :: 0 <= k <= |a| && k < |b| && a[..k] == b[..k] && (k == |a| || a[k] < b[k])
  {
    if b == "" {
    } else if a == "" {
      assert a[..0] == b[..0];
    } else {
      LessIff(a[1..], b[1..]);
      if Less(a, b) {
        if a[0] < b[0] {
          assert a[..0] == b[..0];
        } else {
          var k :| 0 <= k <= |a| - 1 && k < |b| - 1 && a[1..][..k] == b[1..][..k]
                   && (k == |a| - 1 || a[1..][k] < b[1..][k]);
          assert a[..k + 1] == [a[0]] + a[1..][..k] && b[..k + 1] == [b[0]] + b[1..][..k];
        }
      }
      if k :| 0 <= k <= |a| && k < |b| && a[..k] == b[..k] && (k == |a| || a[k] < b[k]) {
        if k > 0 {
          assert a[0] == a[..k][0] == b[..k][0] == b[0];
          assert a[1..][..k - 1] == a[..k][1..] && b[1..][..k - 1] == b[..k][1..];
        }
      }
    }
  }
}
