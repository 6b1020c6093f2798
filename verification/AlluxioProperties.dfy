/** The properties of Alluxio, each with the source that set it. */
module AlluxioProperties {
  import opened Wrappers
  import opened Text

  /** Sources are compared by their kind, here a rank. */
  datatype Source = Source(rank: nat, path: string)

  const DEFAULT := Source(0, "")

  type Key = string

  /** A value may be null. */
  type Value = Option<string>

  datatype Table = Table(props: map<Key, Value>, sources: map<Key, Source>)

  const EMPTY := Table(map[], map[])

  function SourceOf(s: Table, key: Key): Source {
    if key in s.sources then s.sources[key] else DEFAULT
  }

  datatype Op =
    | Put(key: Key, value: Value, source: Source)
    | Remove(key: Key)
    | Clear

  function After(s: Table, op: Op): Table {
    match op
    case Put(key, value, source) =>
      if key !in s.props || source.rank >= SourceOf(s, key).rank
      then Table(s.props[key := value], s.sources[key := source]) else s
    case Remove(key) => if key in s.props then Table(s.props - {key}, s.sources - {key}) else s
    case Clear => EMPTY
  }

  function AfterAll(s: Table, ops: seq<Op>): Table {
    if ops == [] then s else After(AfterAll(s, ops[..|ops| - 1]), ops[|ops| - 1])
  }

  /** A line of a properties file, before it is trimmed. */
  datatype Entry = Entry(key: string, value: Value)

  /** `known` leads from each name or alias of a registered key to the name of the key. */
  type Names = map<string, Key>

  function KeyOf(known: Names, e: Entry): Key {
    var key := Trim(e.key);
    if key in known then known[key] else key
  }

  function ValueOf(e: Entry): Value {
    if e.value.None? then None else Some(Trim(e.value.value))
  }

  function Puts(known: Names, entries: seq<Entry>, source: Source): seq<Op> {
    if entries == [] then []
    else
      var e := entries[|entries| - 1];
      Puts(known, entries[..|entries| - 1], source) + [Put(KeyOf(known, e), ValueOf(e), source)]
  }

  lemma NoPuts(known: Names, source: Source)
    ensures Puts(known, [], source) == []
  {
  }

  lemma PutsStep(known: Names, entries: seq<Entry>, source: Source, i: nat)
    requires i < |entries|
    ensures Puts(known, entries[..i + 1], source) ==
            Puts(known, entries[..i], source) + [Put(KeyOf(known, entries[i]), ValueOf(entries[i]), source)]
  {
    assert entries[..i + 1][..i] == entries[..i];
  }

  class AlluxioProperties {
    var mUserProps: map<Key, Value>
    var mSources: map<Key, Source>

    function State(): Table
      reads this
    {
      Table(mUserProps, mSources)
    }

    constructor ()
      ensures State() == EMPTY
    {
      mUserProps, mSources := map[], map[];
    }

    method GetSource(key: Key) returns (source: Source)
      ensures source == SourceOf(State(), key)
      ensures key !in mSources ==> source == Source(0, "")
    {
      if key in mSources {
        return mSources[key];
      }
      source := DEFAULT;
    }

    method PutValue(key: Key, value: Value, source: Source)
      modifies this
      ensures State() == After(old(State()), Put(key, value, source))
    {
      var current := GetSource(key);
      if key !in mUserProps || source.rank >= current.rank {
        mUserProps := mUserProps[key := value];
        mSources := mSources[key := source];
      }
    }

    method RemoveValue(key: Key)
      modifies this
      ensures State() == After(old(State()), Remove(key))
    {
      if key in mUserProps {
        mUserProps := mUserProps - {key};
        mSources := mSources - {key};
      }
    }

    method ClearAll()
      modifies this
      ensures State() == After(old(State()), Clear)
    {
      mUserProps := map[];
      mSources := map[];
    }

    /** `entries` are those of the map in the order in which it yields them. */
    method Merge(known: Names, entries: seq<Entry>, source: Source)
      modifies this
      ensures State() == AfterAll(old(State()), Puts(known, entries, source))
    {
      hide Puts;
      assert Puts(known, entries[..0], source) == [] by { NoPuts(known, source); }
      var i := 0;
      while i < |entries|
        invariant 0 <= i <= |entries|
        invariant State() == AfterAll(old(State()), Puts(known, entries[..i], source))
      {
        PutsStep(known, entries, source, i);
        var key := Trim(entries[i].key);
        var value := if entries[i].value.None? then None else Some(Trim(entries[i].value.value));
        var propertyKey := if key in known then known[key] else key;
        PutValue(propertyKey, value, source);
        i := i + 1;
      }
      assert entries[..i] == entries;
    }
  }

  // ----- what a key holds -----

  predicate Resets(op: Op, key: Key) {
    op.Clear? || (op.Remove? && op.key == key)
  }

  predicate Sets(op: Op, key: Key) {
    op.Put? && op.key == key
  }

  /** A put of the key that no later operation resets. */
  predicate Live(ops: seq<Op>, i: nat, key: Key) {
    i < |ops| && Sets(ops[i], key) && forall m | i < m < |ops| :: !Resets(ops[m], key)
  }

  predicate Outranks(ops: seq<Op>, i: nat, j: nat)
    requires i < |ops| && j < |ops| && ops[i].Put? && ops[j].Put?
  {
    ops[j].source.rank < ops[i].source.rank || (ops[j].source.rank == ops[i].source.rank && j <= i)
  }

  /** The last of the live puts of the highest rank. */
  ghost predicate Wins(ops: seq<Op>, i: nat, key: Key) {
    Live(ops, i, key) && forall j: nat | Live(ops, j, key) :: Outranks(ops, i, j)
  }

  ghost predicate HoldsPut(s: Table, ops: seq<Op>, i: nat, key: Key)
    requires Live(ops, i, key)
  {
    key in s.props && s.props[key] == ops[i].value && key in s.sources && s.sources[key] == ops[i].source
  }

  lemma LiveStep(ops: seq<Op>, key: Key)
    requires ops != []
    ensures var n := |ops| - 1;
            forall i: nat :: Live(ops, i, key) <==>
              if i < n then Live(ops[..n], i, key) && !Resets(ops[n], key) else i == n && Sets(ops[n], key)
  {
  }

  /** A key is there exactly if some put of it is live, and then holds the value and the source of the winner. */
  lemma {:induction false} KeyHoldsWinner(ops: seq<Op>, key: Key)
    ensures key in AfterAll(EMPTY, ops).props <==> exists i: nat :: Live(ops, i, key)
    ensures key in AfterAll(EMPTY, ops).sources <==> exists i: nat :: Live(ops, i, key)
    ensures key in AfterAll(EMPTY, ops).props ==>
              exists i: nat :: Wins(ops, i, key) && HoldsPut(AfterAll(EMPTY, ops), ops, i, key)
  {
    hide Live, Resets;
    if ops == [] {
      NothingLive(key);
    } else {
      var n := |ops| - 1;
      var front := ops[..n];
      var before, s := AfterAll(EMPTY, front), AfterAll(EMPTY, ops);
      KeyHoldsWinner(front, key);
      LiveStep(ops, key);
      LiveArePuts(ops, key);
      LiveArePuts(front, key);
      ResetClears(before, ops[n], key);
      if key in before.props {
        var w: nat :| Wins(front, w, key) && HoldsPut(before, front, w, key);
        var i := if Sets(ops[n], key) && ops[n].source.rank >= ops[w].source.rank then n else w;
        assert s == After(before, ops[n]);
        if !Resets(ops[n], key) {
          assert forall j: nat | Live(front, j, key) :: Outranks(front, w, j);
          assert Wins(ops, i, key) && HoldsPut(s, ops, i, key);
        }
      } else if Sets(ops[n], key) {
        assert Wins(ops, n, key) && HoldsPut(s, ops, n, key);
      }
    }
  }

  lemma NothingLive(key: Key)
    ensures forall i: nat :: !Live([], i, key)
  {
  }

  lemma LiveArePuts(ops: seq<Op>, key: Key)
    ensures forall i: nat | Live(ops, i, key) :: i < |ops| && Sets(ops[i], key)
  {
  }

  lemma ResetClears(s: Table, op: Op, key: Key)
    ensures Resets(op, key) && (key in s.props <==> key in s.sources) ==>
              key !in After(s, op).props && key !in After(s, op).sources
    ensures Resets(op, key) ==> !Sets(op, key)
    ensures !Resets(op, key) && !Sets(op, key) ==>
              && (key in After(s, op).props <==> key in s.props)
              && (key in After(s, op).sources <==> key in s.sources)
              && (key in s.props ==> After(s, op).props[key] == s.props[key])
              && (key in s.sources ==> After(s, op).sources[key] == s.sources[key])
  {
  }

  /** So it holds what the winner put, whichever put that is. */
  lemma WinnerIsHeld(ops: seq<Op>, key: Key, i: nat)
    requires Wins(ops, i, key)
    ensures HoldsPut(AfterAll(EMPTY, ops), ops, i, key)
    ensures SourceOf(AfterAll(EMPTY, ops), key) == ops[i].source
  {
    hide AfterAll;
    KeyHoldsWinner(ops, key);
    var w: nat :| Wins(ops, w, key) && HoldsPut(AfterAll(EMPTY, ops), ops, w, key);
    assert Outranks(ops, w, i) && Outranks(ops, i, w);
  }

  // ----- merging -----

  type Cell = (Option<Value>, Source)

  function At(s: Table, key: Key): Cell {
    (if key in s.props then Some(s.props[key]) else None, SourceOf(s, key))
  }

  /** The last entry of a key, if there is one. */
  function LastFor(known: Names, entries: seq<Entry>, key: Key): Option<Entry> {
    if entries == [] then None
    else
      var e := entries[|entries| - 1];
      if KeyOf(known, e) == key then Some(e) else LastFor(known, entries[..|entries| - 1], key)
  }

  /** Whether a source may set what the cell holds. */
  predicate MaySet(cell: Cell, source: Source) {
    cell.0.None? || source.rank >= cell.1.rank
  }

  /** What a merge leaves under a key: the last entry, if the source may set it. */
  function Merged(cell: Cell, last: Option<Entry>, source: Source): Cell {
    if last.Some? && MaySet(cell, source) then (Some(ValueOf(last.value)), source) else cell
  }

  function Merge(s: Table, known: Names, entries: seq<Entry>, source: Source): Table {
    AfterAll(s, Puts(known, entries, source))
  }

  lemma MergeStep(s: Table, known: Names, entries: seq<Entry>, source: Source)
    requires entries != []
    ensures var e := entries[|entries| - 1];
            Merge(s, known, entries, source) ==
            After(Merge(s, known, entries[..|entries| - 1], source), Put(KeyOf(known, e), ValueOf(e), source))
  {
    var puts := Puts(known, entries, source);
    assert puts[..|puts| - 1] == Puts(known, entries[..|entries| - 1], source);
  }

  lemma {:induction false} MergeAt(s: Table, known: Names, entries: seq<Entry>, source: Source, key: Key)
    ensures At(Merge(s, known, entries, source), key) == Merged(At(s, key), LastFor(known, entries, key), source)
  {
    hide KeyOf, ValueOf, Merge;
    if entries == [] {
      NothingMerged(s, known, source);
    } else {
      MergeStep(s, known, entries, source);
      MergeAt(s, known, entries[..|entries| - 1], source, key);
    }
  }

  lemma NothingMerged(s: Table, known: Names, source: Source)
    ensures Merge(s, known, [], source) == s
  {
  }

  /**
   * One entry, blanks around its name and value: the value is held under the key of which the name is an
   * alias, or else under the name itself.
   */
  lemma OneEntry(known: Names, b1: string, name: string, b2: string, b3: string, value: string, b4: string,
                 source: Source)
    requires forall c | c in b1 + b2 + b3 + b4 :: c <= ' '
    requires name != "" ==> name[0] > ' ' && name[|name| - 1] > ' '
    requires value != "" ==> value[0] > ' ' && value[|value| - 1] > ' '
    ensures var key := if name in known then known[name] else name;
            && Merge(EMPTY, known, [Entry(b1 + name + b2, Some(b3 + value + b4))], source) ==
               Table(map[key := Some(value)], map[key := source])
            && Merge(EMPTY, known, [Entry(b1 + name + b2, None)], source) == Table(map[key := None], map[key := source])
  {
    hide Trim;
    assert forall c | c in b1 || c in b2 || c in b3 || c in b4 :: c in b1 + b2 + b3 + b4;
    TrimIs(b1, name, b2);
    TrimIs(b3, value, b4);
    MergeOne(known, Entry(b1 + name + b2, Some(b3 + value + b4)), source);
    MergeOne(known, Entry(b1 + name + b2, None), source);
  }

  lemma MergeOne(known: Names, e: Entry, source: Source)
    ensures Merge(EMPTY, known, [e], source) ==
            Table(map[KeyOf(known, e) := ValueOf(e)], map[KeyOf(known, e) := source])
  {
    hide KeyOf, ValueOf;
    assert [e][..0] == [];
    MergeStep(EMPTY, known, [e], source);
    NothingMerged(EMPTY, known, source);
  }

  predicate Consistent(s: Table) {
    s.props.Keys == s.sources.Keys
  }

  lemma {:induction false} MergeConsistent(s: Table, known: Names, entries: seq<Entry>, source: Source)
    requires Consistent(s)
    ensures Consistent(Merge(s, known, entries, source))
  {
    if entries != [] {
      MergeStep(s, known, entries, source);
      MergeConsistent(s, known, entries[..|entries| - 1], source);
    }
  }

  lemma SameCells(s: Table, t: Table)
    requires Consistent(s) && Consistent(t) && forall key :: At(s, key) == At(t, key)
    ensures s == t
  {
    assert forall key :: key in s.props <==> At(s, key).0.Some?;
    assert forall key :: key in t.props <==> At(t, key).0.Some?;
    assert forall key | key in s.props :: At(s, key) == At(t, key);
  }

  /** Merges from sources of different rank commute. */
  lemma MergesCommute(s: Table, known: Names, a: seq<Entry>, b: seq<Entry>, sa: Source, sb: Source)
    requires Consistent(s) && sa.rank != sb.rank
    ensures Merge(Merge(s, known, a, sa), known, b, sb) == Merge(Merge(s, known, b, sb), known, a, sa)
  {
    hide Merge, LastFor;
    var first, second := Merge(s, known, a, sa), Merge(s, known, b, sb);
    MergeConsistent(s, known, a, sa);
    MergeConsistent(s, known, b, sb);
    MergeConsistent(first, known, b, sb);
    MergeConsistent(second, known, a, sa);
    forall key
      ensures At(Merge(first, known, b, sb), key) == At(Merge(second, known, a, sa), key)
    {
      MergeAt(s, known, a, sa, key);
      MergeAt(s, known, b, sb, key);
      MergeAt(first, known, b, sb, key);
      MergeAt(second, known, a, sa, key);
    }
    SameCells(Merge(first, known, b, sb), Merge(second, known, a, sa));
  }

  // ----- the order in which a map yields its entries -----

  /** Two entries between which the order decides: one key, different values, and a source that may set it. */
  predicate Conflict(s: Table, known: Names, x: Entry, y: Entry, source: Source) {
    KeyOf(known, x) == KeyOf(known, y) && ValueOf(x) != ValueOf(y) && MaySet(At(s, KeyOf(known, x)), source)
  }

  predicate HasConflict(s: Table, known: Names, entries: seq<Entry>, source: Source) {
    exists x, y :: x in entries && y in entries && Conflict(s, known, x, y, source)
  }

  lemma {:induction false} LastForIsEntry(known: Names, entries: seq<Entry>, key: Key)
    ensures var last := LastFor(known, entries, key);
            if last.Some? then last.value in entries && KeyOf(known, last.value) == key
            else forall e | e in entries :: KeyOf(known, e) != key
  {
    if entries != [] {
      var n := |entries| - 1;
      assert entries == entries[..n] + [entries[n]];
      LastForIsEntry(known, entries[..n], key);
    }
  }

  lemma OrderIsImmaterial(s: Table, known: Names, a: seq<Entry>, b: seq<Entry>, source: Source)
    requires Consistent(s) && multiset(a) == multiset(b) && !HasConflict(s, known, a, source)
    ensures Merge(s, known, a, source) == Merge(s, known, b, source)
  {
    hide Merge, LastFor, KeyOf, ValueOf;
    MergeConsistent(s, known, a, source);
    MergeConsistent(s, known, b, source);
    forall key
      ensures At(Merge(s, known, a, source), key) == At(Merge(s, known, b, source), key)
    {
      MergeAt(s, known, a, source, key);
      MergeAt(s, known, b, source, key);
      LastForIsEntry(known, a, key);
      LastForIsEntry(known, b, key);
      assert forall e :: e in a <==> e in multiset(a);
      assert forall e :: e in b <==> e in multiset(b);
      var x, y := LastFor(known, a, key), LastFor(known, b, key);
      assert x.Some? && y.Some? ==> !Conflict(s, known, x.value, y.value, source);
    }
    SameCells(Merge(s, known, a, source), Merge(s, known, b, source));
  }

  /** The entries with one of them moved to the end. */
  lemma MovedLast(known: Names, entries: seq<Entry>, x: Entry) returns (moved: seq<Entry>)
    requires x in entries
    ensures multiset(moved) == multiset(entries)
    ensures LastFor(known, moved, KeyOf(known, x)) == Some(x)
  {
    var i :| 0 <= i < |entries| && entries[i] == x;
    moved := entries[..i] + entries[i + 1..] + [x];
    assert entries == entries[..i] + [x] + entries[i + 1..];
  }

  /**
   * A merge gives the same table in every order of its entries exactly if no two of them
   * name one key with different values that the source may set.
   */
  lemma OrderIsImmaterialIff(s: Table, known: Names, entries: seq<Entry>, source: Source)
    requires Consistent(s)
    ensures (forall b | multiset(b) == multiset(entries) ::
               Merge(s, known, b, source) == Merge(s, known, entries, source))
            <==> !HasConflict(s, known, entries, source)
  {
    hide Merge, LastFor, KeyOf, ValueOf;
    if HasConflict(s, known, entries, source) {
      var x, y :| x in entries && y in entries && Conflict(s, known, x, y, source);
      var key := KeyOf(known, x);
      var a := MovedLast(known, entries, x);
      var b := MovedLast(known, entries, y);
      MergeAt(s, known, a, source, key);
      MergeAt(s, known, b, source, key);
      assert At(Merge(s, known, a, source), key) != At(Merge(s, known, b, source), key);
    } else {
      forall b | multiset(b) == multiset(entries)
        ensures Merge(s, known, b, source) == Merge(s, known, entries, source)
      {
        OrderIsImmaterial(s, known, entries, b, source);
      }
    }
  }

  /** A map with such entries: keys that differ by a blank. */
  lemma OrderCanDecide()
    ensures var x, y := Entry("a", Some("1")), Entry("a ", Some("2"));
            Merge(EMPTY, map[], [x, y], DEFAULT) != Merge(EMPTY, map[], [y, x], DEFAULT)
  {
    var x, y := Entry("a", Some("1")), Entry("a ", Some("2"));
    assert Trim("a") == "a" && Trim("a ") == "a" && Trim("1") == "1" && Trim("2") == "2";
    assert [x, y][..1] == [x] && [y, x][..1] == [y];
    MergeAt(EMPTY, map[], [x, y], DEFAULT, "a");
    MergeAt(EMPTY, map[], [y, x], DEFAULT, "a");
  }
}
