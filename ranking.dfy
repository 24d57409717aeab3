/**
 * The Ranker of the tree variant: the table, its Level column filled in, is
 * sorted by (Level, Date of Birth, Name), then gets a per-level counter
 * (`groupby("Level").cumcount() + 1`) and a global counter 1..N.
 */
module Ranking {
  import opened Wrappers
  import opened SortKeys
  import opened Sorting
  import opened LevelResolver

  /** A row of the table with its Level cell. */
  datatype LevelledPerson = LevelledPerson(person: Person, level: int)

  /** A row of the ranked table: the Level Number and Overall Number cells added. */
  datatype RankedPerson = RankedPerson(row: LevelledPerson, levelNumber: nat, overallNumber: nat)

  /** The table with the Level column that `assign_levels` produced. */
  function WithLevels(rows: seq<Person>, levels: seq<int>): (table: seq<LevelledPerson>)
    requires |levels| == |rows|
    ensures |table| == |rows|
    ensures forall i :: 0 <= i < |rows| ==> table[i].person == rows[i] && table[i].level == levels[i]
  {
    seq(|rows|, i requires 0 <= i < |rows| => LevelledPerson(rows[i], levels[i]))
  }

  /** The sort key of `sort_values(by=["Level", "Date of Birth", "Name"])`. */
  function TreeKey(r: LevelledPerson): seq<Field> {
    [Int(r.level), Date(r.person.dob), Str(r.person.name)]
  }

  /**
   * What the key means: a lower Level first; on equal Levels an earlier Date of
   * Birth, a missing one last; on equal dates the Name in string order.
   */
  lemma TreeKeyOrder(a: LevelledPerson, b: LevelledPerson)
    ensures KeyLe(TreeKey(a), TreeKey(b)) <==>
      a.level < b.level ||
      (a.level == b.level &&
        (EarlierDate(a.person.dob, b.person.dob) ||
         (a.person.dob == b.person.dob && StrCmp(a.person.name, b.person.name) <= 0)))
  {
    ThreeColumns(Int(a.level), Date(a.person.dob), Str(a.person.name), Int(b.level), Date(b.person.dob), Str(b.person.name));
    DateCmpMeaning(a.person.dob, b.person.dob);
  }

  function LevelsOf(table: seq<LevelledPerson>): (levels: seq<int>)
    ensures |levels| == |table|
    ensures forall i :: 0 <= i < |table| ==> levels[i] == table[i].level
  {
    seq(|table|, i requires 0 <= i < |table| => table[i].level)
  }

  /** The input rows of a levelled table. */
  function PersonsOf(table: seq<LevelledPerson>): (rows: seq<Person>)
    ensures |rows| == |table|
    ensures forall i :: 0 <= i < |table| ==> rows[i] == table[i].person
  {
    seq(|table|, i requires 0 <= i < |table| => table[i].person)
  }

  function RowsOf(ranked: seq<RankedPerson>): (table: seq<LevelledPerson>)
    ensures |table| == |ranked|
    ensures forall i :: 0 <= i < |ranked| ==> table[i] == ranked[i].row
  {
    seq(|ranked|, i requires 0 <= i < |ranked| => ranked[i].row)
  }

  function Seen(tally: map<int, nat>, v: int): nat {
    if v in tally then tally[v] else 0
  }

  /**
   * `cumcount() + 1` continuing from per-level tallies: each row gets the number
   * of rows of its level seen so far, itself included.
   */
  function CumCount(levels: seq<int>, tally: map<int, nat>): (r: seq<nat>)
    ensures |r| == |levels|
    ensures forall i :: 0 <= i < |levels| ==>
      r[i] == Seen(tally, levels[i]) + multiset(levels[..i])[levels[i]] + 1
  {
    if levels == [] then []
    else
      var v := levels[0];
      var rest := CumCount(levels[1..], tally[v := Seen(tally, v) + 1]);
      CumCountStep(levels, tally, rest);
      [Seen(tally, v) + 1] + rest
  }

  /** The first row's number, then the rest counted with the first row's level tallied once more. */
  lemma CumCountStep(levels: seq<int>, tally: map<int, nat>, rest: seq<nat>)
    requires levels != [] && |rest| == |levels| - 1
    requires forall i :: 0 <= i < |rest| ==>
      rest[i] == Seen(tally[levels[0] := Seen(tally, levels[0]) + 1], levels[1..][i]) + multiset(levels[1..][..i])[levels[1..][i]] + 1
    ensures forall i :: 0 <= i < |levels| ==>
      ([Seen(tally, levels[0]) + 1] + rest)[i] == Seen(tally, levels[i]) + multiset(levels[..i])[levels[i]] + 1
  {
    var r := [Seen(tally, levels[0]) + 1] + rest;
    forall i | 0 <= i < |levels|
      ensures r[i] == Seen(tally, levels[i]) + multiset(levels[..i])[levels[i]] + 1
    {
      if i == 0 {
        assert levels[..0] == [];
      } else {
        assert r[i] == rest[i - 1];
        CumCountAt(levels, tally, rest[i - 1], i);
      }
    }
  }

  /** A later row's number: one fewer earlier row to count, one more in the tally, when its level is the first row's. */
  lemma CumCountAt(levels: seq<int>, tally: map<int, nat>, x: nat, i: int)
    requires 1 <= i < |levels|
    requires x == Seen(tally[levels[0] := Seen(tally, levels[0]) + 1], levels[1..][i - 1]) + multiset(levels[1..][..i - 1])[levels[1..][i - 1]] + 1
    ensures x == Seen(tally, levels[i]) + multiset(levels[..i])[levels[i]] + 1
  {
    assert levels[1..][i - 1] == levels[i];
    CountAfterFirst(levels, i);
  }

  /** Counting in a prefix: the first element, then the rest of the prefix. */
  lemma CountAfterFirst(levels: seq<int>, i: int)
    requires 1 <= i < |levels|
    ensures multiset(levels[..i])[levels[i]] ==
      multiset(levels[1..][..i - 1])[levels[i]] + if levels[0] == levels[i] then 1 else 0
  {
    assert levels[..i] == [levels[0]] + levels[1..][..i - 1];
  }

  /**
   * `df.groupby("Level").cumcount() + 1`: each row's number is one more than
   * the number of earlier rows of the same level.
   */
  function LevelNumbers(levels: seq<int>): (r: seq<nat>)
    ensures |r| == |levels|
    ensures forall i :: 0 <= i < |levels| ==> r[i] == 1 + multiset(levels[..i])[levels[i]]
  {
    CumCount(levels, map[])
  }

  /**
   * Lines 29-33: sort the table, then number it.  The ranked rows are the
   * table's rows rearranged into key order; the Level Number of a row counts
   * the rows of its level up to and including it; the Overall Number is its
   * position plus one.
   */
  function RankTable(table: seq<LevelledPerson>): (ranked: seq<RankedPerson>)
    ensures |ranked| == |table|
    ensures multiset(RowsOf(ranked)) == multiset(table)
    ensures SortedBy(RowsOf(ranked), TreeKey)
    ensures forall i :: 0 <= i < |ranked| ==>
      ranked[i].levelNumber == 1 + multiset(LevelsOf(RowsOf(ranked))[..i])[ranked[i].row.level]
    ensures forall i :: 0 <= i < |ranked| ==> ranked[i].overallNumber == i + 1
  {
    var sorted := SortBy(table, TreeKey);
    assert |sorted| == |multiset(sorted)| == |multiset(table)| == |table|;
    var numbers := LevelNumbers(LevelsOf(sorted));
    var ranked := seq(|sorted|, i requires 0 <= i < |sorted| => RankedPerson(sorted[i], numbers[i], i + 1));
    assert RowsOf(ranked) == sorted;
    ranked
  }

  /** In the ranked table levels never decrease, so rows left at -1 come before the level-0 rows. */
  lemma RankedLevelsAscending(ranked: seq<RankedPerson>, i: int, j: int)
    requires SortedBy(RowsOf(ranked), TreeKey)
    requires 0 <= i < j < |ranked|
    ensures ranked[i].row.level <= ranked[j].row.level
  {
    var a, b := RowsOf(ranked)[i], RowsOf(ranked)[j];
    assert KeyLe(TreeKey(a), TreeKey(b));
    assert TreeKey(a) == [Int(a.level)] + [Date(a.person.dob), Str(a.person.name)];
    assert TreeKey(b) == [Int(b.level)] + [Date(b.person.dob), Str(b.person.name)];
    KeyLeFirst(Int(a.level), [Date(a.person.dob), Str(a.person.name)], Int(b.level), [Date(b.person.dob), Str(b.person.name)]);
  }

  /** Within one level the numbers lie in 1..count and strictly increase: no number repeats. */
  lemma LevelNumbersDistinct(levels: seq<int>, i: int, j: int)
    requires 0 <= i < j < |levels| && levels[i] == levels[j]
    ensures 1 <= LevelNumbers(levels)[i] < LevelNumbers(levels)[j] <= multiset(levels)[levels[j]]
  {
    var v := levels[i];
    assert levels[..j] == levels[..i] + [levels[i]] + levels[i + 1..j];
    assert levels == levels[..j] + [levels[j]] + levels[j + 1..];
  }

  /** Within one level every number 1..count is used: no gaps. */
  lemma {:induction false} LevelNumbersNoGaps(levels: seq<int>, v: int, k: int) returns (i: int)
    requires 1 <= k <= multiset(levels)[v]
    ensures 0 <= i < |levels| && levels[i] == v && LevelNumbers(levels)[i] == k
  {
    var n := |levels|;
    var front := levels[..n - 1];
    assert levels == front + [levels[n - 1]];
    if levels[n - 1] == v && k == multiset(levels)[v] {
      i := n - 1;
    } else {
      i := LevelNumbersNoGaps(front, v, k);
      assert front[..i] == levels[..i];
    }
  }

  /**
   * On level-sorted rows the per-level counter restarts at 1 exactly where the
   * level changes and otherwise goes up by one.
   */
  lemma LevelNumbersRestart(levels: seq<int>, i: int)
    requires forall a, b :: 0 <= a < b < |levels| ==> levels[a] <= levels[b]
    requires 0 < i < |levels|
    ensures LevelNumbers(levels)[i] ==
      if levels[i] == levels[i - 1] then LevelNumbers(levels)[i - 1] + 1 else 1
  {
    assert levels[..i] == levels[..i - 1] + [levels[i - 1]];
    if levels[i] != levels[i - 1] {
      forall j | 0 <= j < i
        ensures levels[..i][j] != levels[i]
      {
        assert levels[j] <= levels[i - 1];
      }
      assert levels[i] !in levels[..i];
    }
  }

  /** The sort only rearranges rows, so unique names stay unique in the ranked table. */
  lemma RankedNamesUnique(table: seq<LevelledPerson>, ranked: seq<RankedPerson>)
    requires multiset(RowsOf(ranked)) == multiset(table)
    requires UniqueNames(PersonsOf(table))
    ensures UniqueNames(PersonsOf(RowsOf(ranked)))
  {
    var s := RowsOf(ranked);
    var names := PersonsOf(s);
    forall i, j | 0 <= i < j < |ranked|
      ensures names[i].name != names[j].name
    {
      CountAtMostOne(table, s[i]);
      if s[i] == s[j] {
        CountedTwice(s, i, j);
      }
      assert s[i] in multiset(table) && s[j] in multiset(table);
      var a :| 0 <= a < |table| && table[a] == s[i];
      var b :| 0 <= b < |table| && table[b] == s[j];
    }
  }

  lemma {:induction false} CountAtMostOne(table: seq<LevelledPerson>, e: LevelledPerson)
    requires UniqueNames(PersonsOf(table))
    ensures multiset(table)[e] <= 1
  {
    if table != [] {
      assert table == [table[0]] + table[1..];
      assert PersonsOf(table[1..]) == PersonsOf(table)[1..];
      CountAtMostOne(table[1..], e);
      if table[0] == e {
        assert forall k :: 0 <= k < |table[1..]| ==> table[1..][k] != e by {
          forall k | 0 <= k < |table[1..]|
            ensures table[1..][k] != e
          {
            assert table[1..][k] == table[k + 1];
          }
        }
        assert e !in table[1..];
      }
    }
  }

  lemma CountedTwice<T>(s: seq<T>, i: int, j: int)
    requires 0 <= i < j < |s| && s[i] == s[j]
    ensures multiset(s)[s[i]] >= 2
  {
    assert s == s[..i] + [s[i]] + s[i + 1..j] + [s[j]] + s[j + 1..];
  }
}
