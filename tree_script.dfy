/**
 * The tree variant end to end, without its file reading and writing: levels,
 * ranking, then the node and edge lists.
 */
module TreeScript {
  import opened Wrappers
  import opened SortKeys
  import opened Sorting
  import opened LevelResolver
  import opened Ranking
  import opened FamilyGraph

  /** Lines 23-52 of the script, in order. */
  method TreeReport(rows: seq<Person>) returns (levels: seq<int>, ranked: seq<RankedPerson>, net: Network)
    requires UniqueNames(rows)
    ensures LevelEquations(rows, levels)
    ensures ranked == RankTable(WithLevels(rows, levels))
    ensures DistinctNames(ranked)
    ensures fresh(net) && net.nodes == NodeIds(ranked) && net.edges == EdgeList(ranked)
  {
    levels := ResolveLevels(rows);
    var table := WithLevels(rows, levels);
    ranked := RankTable(table);
    assert PersonsOf(table) == rows;
    RankedNamesUnique(table, ranked);
    net := BuildNetwork(ranked);
  }

  function Alice(): Person { Person("Alice", None, Some(-7305)) }
  function Bob(): Person { Person("Bob", Some("Alice"), Some(1977)) }
  function Carol(): Person { Person("Carol", Some("Alice"), Some(59)) }

  /** Alice is a root, Bob and Carol her children: levels 0, 1, 1. */
  lemma ThreePeopleLevels()
    ensures LevelEquations([Alice(), Bob(), Carol()], [0, 1, 1])
  {
    ThreePeopleSupported();
    ThreePeopleClosed();
  }

  lemma ThreePeopleSupported()
    ensures Partial([Alice(), Bob(), Carol()], [0, 1, 1])
  {
    var rows, levels := [Alice(), Bob(), Carol()], [0, 1, 1];
    assert rows[1].parent == Some(rows[0].name) && rows[2].parent == Some(rows[0].name);
    assert Supported(rows, levels, 0) && Supported(rows, levels, 1) && Supported(rows, levels, 2);
  }

  lemma ThreePeopleClosed()
    ensures forall j :: 0 <= j < 3 ==> Closed([Alice(), Bob(), Carol()], [0, 1, 1], j)
  {
    var rows, levels := [Alice(), Bob(), Carol()], [0, 1, 1];
    assert "Bob" != "Alice" by { assert "Bob"[0] != "Alice"[0]; }
    assert "Carol" != "Alice" by { assert "Carol"[0] != "Alice"[0]; }
    assert Closed(rows, levels, 0);
    assert Closed(rows, levels, 1);
    assert Closed(rows, levels, 2);
  }

  lemma ThreePeopleNumbers()
    ensures LevelNumbers([0, 1, 1]) == [1, 1, 2]
  {
    var s := [0, 1, 1];
    assert s[..0] == [] && s[..1] == [0] && s[..2] == [0, 1];
    assert multiset(s[..1])[1] == 0 && multiset(s[..2])[1] == 1;
  }

  /** Same level, Carol's earlier birth date decides: Carol's key is below Bob's. */
  lemma CarolBeforeBob()
    ensures KeyLe(TreeKey(LevelledPerson(Carol(), 1)), TreeKey(LevelledPerson(Bob(), 1)))
    ensures !KeyLe(TreeKey(LevelledPerson(Bob(), 1)), TreeKey(LevelledPerson(Carol(), 1)))
  {
    assert TreeKey(LevelledPerson(Carol(), 1)) == [Int(1), Date(Some(59)), Str("Carol")];
    assert TreeKey(LevelledPerson(Bob(), 1)) == [Int(1), Date(Some(1977)), Str("Bob")];
  }

  /** Level 0 comes before level 1 whatever the dates. */
  lemma AliceBeforeCarol()
    ensures KeyLe(TreeKey(LevelledPerson(Alice(), 0)), TreeKey(LevelledPerson(Carol(), 1)))
  {
    assert TreeKey(LevelledPerson(Alice(), 0)) == [Int(0), Date(Some(-7305)), Str("Alice")];
  }

  /** Carol, born earlier, sorts before Bob within level 1; Alice, at level 0, before both. */
  lemma ThreePeopleSorted()
    ensures SortBy([LevelledPerson(Alice(), 0), LevelledPerson(Bob(), 1), LevelledPerson(Carol(), 1)], TreeKey)
         == [LevelledPerson(Alice(), 0), LevelledPerson(Carol(), 1), LevelledPerson(Bob(), 1)]
  {
    CarolBeforeBob();
    AliceBeforeCarol();
    SortThree(LevelledPerson(Alice(), 0), LevelledPerson(Bob(), 1), LevelledPerson(Carol(), 1), TreeKey);
  }

  /**
   * Alice (born 1950-01-01) without a parent, Bob (1975-06-01) and Carol
   * (1970-03-01) both children of Alice, dates as day numbers from
   * 1970-01-01: Alice is first, then Carol, born earlier, as level-1 number 1,
   * then Bob as level-1 number 2.
   */
  lemma ThreePeople()
    ensures LevelEquations([Alice(), Bob(), Carol()], [0, 1, 1])
    ensures RankTable(WithLevels([Alice(), Bob(), Carol()], [0, 1, 1])) == [
      RankedPerson(LevelledPerson(Alice(), 0), 1, 1),
      RankedPerson(LevelledPerson(Carol(), 1), 1, 2),
      RankedPerson(LevelledPerson(Bob(), 1), 2, 3)]
  {
    var a, b, c := LevelledPerson(Alice(), 0), LevelledPerson(Bob(), 1), LevelledPerson(Carol(), 1);
    var table := WithLevels([Alice(), Bob(), Carol()], [0, 1, 1]);
    ThreeElements(table, a, b, c);
    ThreePeopleSorted();
    ThreeElements(LevelsOf([a, c, b]), 0, 1, 1);
    ThreePeopleNumbers();
    RankTableUnfolded(table, [a, c, b], [1, 1, 2]);
    ThreeElements(RankTable(table), RankedPerson(a, 1, 1), RankedPerson(c, 1, 2), RankedPerson(b, 2, 3));
    ThreePeopleLevels();
  }

  lemma RankTableUnfolded(table: seq<LevelledPerson>, sorted: seq<LevelledPerson>, numbers: seq<nat>)
    requires SortBy(table, TreeKey) == sorted && LevelNumbers(LevelsOf(sorted)) == numbers
    ensures |RankTable(table)| == |sorted| == |numbers|
    ensures forall i :: 0 <= i < |sorted| ==> RankTable(table)[i] == RankedPerson(sorted[i], numbers[i], i + 1)
  {
  }

  lemma ThreeElements<T>(s: seq<T>, x: T, y: T, z: T)
    requires |s| == 3 && s[0] == x && s[1] == y && s[2] == z
    ensures s == [x, y, z]
  {
  }
}
