/**
 * The list controller's conditioning of the base collection: `conditionToDos` sorts the
 * id-ordered records by the current key path and direction and, when filtering is on and a
 * search predicate is set, keeps only the records whose name contains the search text,
 * ignoring case (`name CONTAINS[c] text`).
 */
module Conditioning {
  import opened Options
  import opened ToDoRecord

  /** The key path handed to `sorted(byKeyPath:)`: "id", "priority" or "date". */
  datatype SortKey = IdKey | PriorityKey | DateKey

  /**
   * The controller's four view fields: `sortKey`, `sortDirection` (true is ascending),
   * `filterActive` and `searchPredicate`, the latter given by its search text.
   */
  datatype ViewState = ViewState(
    sortKey: SortKey,
    ascending: bool,
    filterActive: bool,
    searchPredicate: Option<string>)

  /** The fields' initial values: sort by id, ascending, no filter, no predicate. */
  const InitialState: ViewState := ViewState(IdKey, true, false, None)

  /** Lexicographic order on strings, character by character: how text keys compare. */
  predicate LexLeq(a: string, b: string)
  {
    if a == [] then true
    else if b == [] then false
    else if a[0] != b[0] then a[0] < b[0]
    else LexLeq(a[1..], b[1..])
  }

  lemma {:induction false} LexLeqReflexive(a: string)
    ensures LexLeq(a, a)
  {
    if a != [] {
      LexLeqReflexive(a[1..]);
    }
  }

  lemma {:induction false} LexLeqTotal(a: string, b: string)
    ensures LexLeq(a, b) || LexLeq(b, a)
  {
    if a != [] && b != [] && a[0] == b[0] {
      LexLeqTotal(a[1..], b[1..]);
    }
  }

  lemma {:induction false} LexLeqAntisymmetric(a: string, b: string)
    requires LexLeq(a, b) && LexLeq(b, a)
    ensures a == b
  {
    if a != [] && b != [] {
      LexLeqAntisymmetric(a[1..], b[1..]);
      assert a == [a[0]] + a[1..] && b == [b[0]] + b[1..];
    }
  }

  lemma {:induction false} LexLeqTransitive(a: string, b: string, c: string)
    requires LexLeq(a, b) && LexLeq(b, c)
    ensures LexLeq(a, c)
  {
    if a != [] && b != [] && c != [] && a[0] == b[0] && b[0] == c[0] {
      LexLeqTransitive(a[1..], b[1..], c[1..]);
    }
  }

  /** `a` comes no later than `b` in ascending order of `key`. */
  predicate KeyLeq(key: SortKey, a: ToDo, b: ToDo)
  {
    match key
    case IdKey => a.id <= b.id
    case PriorityKey => LexLeq(a.priority, b.priority)
    case DateKey => a.date <= b.date
  }

  /** `a` may stand before `b` when sorting by `key` in the given direction. */
  predicate Before(key: SortKey, ascending: bool, a: ToDo, b: ToDo)
  {
    if ascending then KeyLeq(key, a, b) else KeyLeq(key, b, a)
  }

  /** Any two records can be put in order, whatever the key and direction. */
  lemma BeforeTotal(key: SortKey, ascending: bool, a: ToDo, b: ToDo)
    ensures Before(key, ascending, a, b) || Before(key, ascending, b, a)
  {
    if key == PriorityKey {
      LexLeqTotal(a.priority, b.priority);
    }
  }

  lemma BeforeTransitive(key: SortKey, ascending: bool, a: ToDo, b: ToDo, c: ToDo)
    requires Before(key, ascending, a, b) && Before(key, ascending, b, c)
    ensures Before(key, ascending, a, c)
  {
    if key == PriorityKey {
      if ascending {
        LexLeqTransitive(a.priority, b.priority, c.priority);
      } else {
        LexLeqTransitive(c.priority, b.priority, a.priority);
      }
    }
  }

  /** Every record stands before every later one: `s` is sorted by `key` in that direction. */
  ghost predicate Ordered(s: seq<ToDo>, key: SortKey, ascending: bool)
  {
    forall i, j :: 0 <= i < j < |s| ==> Before(key, ascending, s[i], s[j])
  }

  /** A record that stands before everything in the sorted `rest` can be put in front of it. */
  lemma ConsOrdered(h: ToDo, rest: seq<ToDo>, key: SortKey, ascending: bool)
    requires Ordered(rest, key, ascending)
    requires forall t :: t in rest ==> Before(key, ascending, h, t)
    ensures Ordered([h] + rest, key, ascending)
  {
    var r := [h] + rest;
    forall i, j | 0 <= i < j < |r|
      ensures Before(key, ascending, r[i], r[j])
    {
      if i == 0 {
        assert r[j] == rest[j - 1];
      }
    }
  }

  /** A record whose id no record of the id-unique `rest` carries can be put in front of it. */
  lemma ConsUnique(h: ToDo, rest: seq<ToDo>)
    ensures UniqueIds(rest) && (forall t :: t in rest ==> t.id != h.id) ==> UniqueIds([h] + rest)
  {
    if UniqueIds(rest) && (forall t :: t in rest ==> t.id != h.id) {
      var r := [h] + rest;
      forall i, j | 0 <= i < j < |r|
        ensures r[i].id != r[j].id
      {
        if i == 0 {
          assert r[j] == rest[j - 1];
        }
      }
    }
  }

  /** In a sorted sequence the first record stands before all the others. */
  lemma HeadBeforeTail(s: seq<ToDo>, key: SortKey, ascending: bool)
    requires s != [] && Ordered(s, key, ascending)
    ensures forall t :: t in s[1..] ==> Before(key, ascending, s[0], t)
  {
    forall t | t in s[1..]
      ensures Before(key, ascending, s[0], t)
    {
      var k :| 0 <= k < |s[1..]| && s[1..][k] == t;
      assert s[k + 1] == t;
    }
  }

  /** In an id-unique sequence no later record carries the first record's id. */
  lemma HeadIdNotInTail(s: seq<ToDo>)
    requires s != []
    ensures UniqueIds(s) ==> UniqueIds(s[1..]) && forall t :: t in s[1..] ==> t.id != s[0].id
  {
    if UniqueIds(s) {
      forall t | t in s[1..]
        ensures t.id != s[0].id
      {
        var k :| 0 <= k < |s[1..]| && s[1..][k] == t;
        assert s[k + 1] == t;
      }
    }
  }

  /** A record that stands before the first of a sorted sequence stands before all of it. */
  lemma BeforeHeadBeforeAll(x: ToDo, s: seq<ToDo>, key: SortKey, ascending: bool)
    requires s != [] && Ordered(s, key, ascending) && Before(key, ascending, x, s[0])
    ensures forall t :: t in s ==> Before(key, ascending, x, t)
  {
    forall t | t in s
      ensures Before(key, ascending, x, t)
    {
      var k :| 0 <= k < |s| && s[k] == t;
      if k > 0 {
        BeforeTransitive(key, ascending, x, s[0], t);
      }
    }
  }

  /** Insert `x` into the sorted `s` in front of the first record it may stand before. */
  function Insert(x: ToDo, s: seq<ToDo>, key: SortKey, ascending: bool): (r: seq<ToDo>)
    requires Ordered(s, key, ascending)
    ensures Ordered(r, key, ascending)
    ensures multiset(r) == multiset(s) + multiset{x}
    ensures forall t :: t in r <==> t == x || t in s
    ensures UniqueIds(s) && (forall t :: t in s ==> t.id != x.id) ==> UniqueIds(r)
  {
    if s == [] then [x]
    else if Before(key, ascending, x, s[0]) then
      BeforeHeadBeforeAll(x, s, key, ascending);
      ConsOrdered(x, s, key, ascending);
      ConsUnique(x, s);
      [x] + s
    else
      assert s == [s[0]] + s[1..];
      var rest := Insert(x, s[1..], key, ascending);
      BeforeTotal(key, ascending, x, s[0]);
      HeadBeforeTail(s, key, ascending);
      ConsOrdered(s[0], rest, key, ascending);
      HeadIdNotInTail(s);
      ConsUnique(s[0], rest);
      [s[0]] + rest
  }

  /** Insertion sort by `key`: the records of `s`, rearranged into order. */
  function SortBy(s: seq<ToDo>, key: SortKey, ascending: bool): (r: seq<ToDo>)
    ensures Ordered(r, key, ascending)
    ensures multiset(r) == multiset(s)
    ensures forall t :: t in r <==> t in s
    ensures UniqueIds(s) ==> UniqueIds(r)
  {
    if s == [] then []
    else
      var sorted := SortBy(s[1..], key, ascending);
      assert s == [s[0]] + s[1..];
      HeadIdNotInTail(s);
      Insert(s[0], sorted, key, ascending)
  }

  /** A sequence already in order is left as it is by sorting. */
  lemma {:induction false} SortOrderedIsIdentity(s: seq<ToDo>, key: SortKey, ascending: bool)
    requires Ordered(s, key, ascending)
    ensures SortBy(s, key, ascending) == s
  {
    if s != [] {
      SortOrderedIsIdentity(s[1..], key, ascending);
      assert s == [s[0]] + s[1..];
    }
  }

  /** A sequence with increasing ids is in ascending order of the id key. */
  lemma IncreasingIdsAreOrdered(s: seq<ToDo>)
    requires IncreasingIds(s)
    ensures Ordered(s, IdKey, true)
  {
  }

  /** ASCII letters folded to lower case; every other character is kept. */
  function LowerChar(c: char): char
  {
    if 'A' <= c <= 'Z' then (c as int - 'A' as int + 'a' as int) as char else c
  }

  function Lower(s: string): string
  {
    seq(|s|, i requires 0 <= i < |s| => LowerChar(s[i]))
  }

  /** `pat` occurs in `s` starting at position `i`. */
  ghost predicate OccursAt(s: string, pat: string, i: int)
  {
    0 <= i && i + |pat| <= |s| && s[i..i + |pat|] == pat
  }

  /** Substring search: does `pat` occur anywhere in `s`? */
  function Contains(s: string, pat: string): (r: bool)
    ensures r <==> exists i :: OccursAt(s, pat, i)
    decreases |s|
  {
    if |pat| > |s| then false
    else if s[..|pat|] == pat then
      assert OccursAt(s, pat, 0);
      true
    else
      var r := Contains(s[1..], pat);
      assert r ==> exists i :: OccursAt(s, pat, i) by {
        if r {
          var i :| OccursAt(s[1..], pat, i);
          assert s[1..][i..i + |pat|] == s[i + 1..i + 1 + |pat|];
          assert OccursAt(s, pat, i + 1);
        }
      }
      assert (exists i :: OccursAt(s, pat, i)) ==> r by {
        if exists i :: OccursAt(s, pat, i) {
          var i :| OccursAt(s, pat, i);
          assert i != 0;
          assert s[1..][i - 1..i - 1 + |pat|] == s[i..i + |pat|];
          assert OccursAt(s[1..], pat, i - 1);
        }
      }
      r
  }

  /** The search predicate `name CONTAINS[c] text`: the name contains the text, ignoring case. */
  predicate Matches(t: ToDo, text: string)
  {
    Contains(Lower(t.name), Lower(text))
  }

  /** A record matches exactly when the lower-cased text occurs somewhere in its lower-cased name. */
  lemma MatchesSpec(t: ToDo, text: string)
    ensures Matches(t, text) <==> exists i :: OccursAt(Lower(t.name), Lower(text), i)
  {
  }

  /** Case does not matter on either side of the match. */
  lemma MatchIgnoresCase(t: ToDo, text: string, text': string)
    requires Lower(text) == Lower(text')
    ensures Matches(t, text) == Matches(t, text')
  {
  }

  /** A record always matches its own name, whatever the case it is typed in. */
  lemma NameMatchesItself(t: ToDo, text: string)
    requires Lower(text) == Lower(t.name)
    ensures Matches(t, text)
  {
    assert OccursAt(Lower(t.name), Lower(text), 0);
  }

  /** `Results.filter(predicate)`: the records of `s` that match, in their order. */
  function Filter(s: seq<ToDo>, text: string): (r: seq<ToDo>)
    ensures forall t :: t in r <==> t in s && Matches(t, text)
    ensures |r| <= |s|
  {
    if s == [] then []
    else
      var rest := Filter(s[1..], text);
      assert s == [s[0]] + s[1..];
      if Matches(s[0], text) then [s[0]] + rest else rest
  }

  /** When no record matches, filtering leaves nothing. */
  lemma {:induction false} FilterNoMatches(s: seq<ToDo>, text: string)
    requires forall t :: t in s ==> !Matches(t, text)
    ensures Filter(s, text) == []
  {
    if s != [] {
      assert s[0] in s;
      FilterNoMatches(s[1..], text);
    }
  }

  /** Filtering keeps the records in their order and keeps their ids apart. */
  lemma {:induction false} FilterKeepsOrder(s: seq<ToDo>, text: string, key: SortKey, ascending: bool)
    requires Ordered(s, key, ascending)
    ensures Ordered(Filter(s, text), key, ascending)
    ensures UniqueIds(s) ==> UniqueIds(Filter(s, text))
  {
    if s != [] {
      FilterKeepsOrder(s[1..], text, key, ascending);
      HeadBeforeTail(s, key, ascending);
      HeadIdNotInTail(s);
      var rest := Filter(s[1..], text);
      ConsOrdered(s[0], rest, key, ascending);
      ConsUnique(s[0], rest);
    }
  }

  /** Filtering is on when `filterActive` holds and a search predicate is set. */
  predicate Filtering(st: ViewState)
  {
    st.filterActive && st.searchPredicate.Some?
  }

  /**
   * `conditionToDos`: `base` sorted by the state's key and direction, then, when filtering,
   * cut down to the records whose name matches the search text.
   */
  function Condition(base: seq<ToDo>, st: ViewState): seq<ToDo>
  {
    var sorted := SortBy(base, st.sortKey, st.ascending);
    if Filtering(st) then Filter(sorted, st.searchPredicate.value) else sorted
  }

  /**
   * What the conditioned view is: always in order of the key and drawn from `base`, each
   * record once when `base` has unique ids; when filtering it holds exactly the matching
   * records of `base`, and otherwise it is a rearrangement of the whole of `base`.
   */
  lemma ConditionSpec(base: seq<ToDo>, st: ViewState)
    ensures Ordered(Condition(base, st), st.sortKey, st.ascending)
    ensures forall t :: t in Condition(base, st) ==> t in base
    ensures UniqueIds(base) ==> UniqueIds(Condition(base, st))
    ensures Filtering(st) ==>
      forall t :: t in Condition(base, st) <==> t in base && Matches(t, st.searchPredicate.value)
    ensures !Filtering(st) ==> multiset(Condition(base, st)) == multiset(base)
  {
    if Filtering(st) {
      FilterKeepsOrder(SortBy(base, st.sortKey, st.ascending), st.searchPredicate.value, st.sortKey, st.ascending);
    }
  }

  /** Neighbours in the conditioned view are in order of the key. */
  lemma ConditionAdjacentOrdered(base: seq<ToDo>, st: ViewState, i: int)
    requires 0 < i < |Condition(base, st)|
    ensures Before(st.sortKey, st.ascending, Condition(base, st)[i - 1], Condition(base, st)[i])
  {
    ConditionSpec(base, st);
  }

  /** With the initial state the view is the base collection itself, already in id order. */
  lemma InitialConditionIsBase(base: seq<ToDo>)
    requires IncreasingIds(base)
    ensures Condition(base, InitialState) == base
  {
    SortOrderedIsIdentity(base, IdKey, true);
  }

  /**
   * The example of two records: "Buy milk" (id 1, priority "3") and "Call mom" (id 2,
   * priority "1"). Sorting by priority ascending shows id 2 first; the opposite direction
   * shows id 1 first.
   */
  lemma TwoRecordExample(d1: Date, d2: Date)
    ensures var base := [ToDo(1, "Buy milk", "3", d1), ToDo(2, "Call mom", "1", d2)];
      && Condition(base, ViewState(PriorityKey, true, false, None)) == [base[1], base[0]]
      && Condition(base, ViewState(PriorityKey, false, false, None)) == [base[0], base[1]]
  {
    var base := [ToDo(1, "Buy milk", "3", d1), ToDo(2, "Call mom", "1", d2)];
    assert base[1..] == [base[1]];
    assert LexLeq("1", "3") && !LexLeq("3", "1");
  }
}
