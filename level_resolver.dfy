/**
 * Level assignment of the tree variant (`assign_levels` and the `Level` column
 * it fills in).  The table is a sequence of rows; the `Level` column is an
 * array that the recursion writes in place, starting from the sentinel -1 in
 * every row.
 */
module LevelResolver {
  import opened Wrappers

  /** One row of the input table: the columns the level assignment and the ranking read. */
  datatype Person = Person(name: string, parent: Option<string>, dob: Option<int>)

  /** The Name column identifies rows. */
  predicate UniqueNames(rows: seq<Person>) {
    forall i, j :: 0 <= i < j < |rows| ==> rows[i].name != rows[j].name
  }

  /**
   * A levelled row is justified: a parentless row has level 0, any other
   * levelled row has the level of a levelled row its Parent cell names, plus one.
   */
  predicate Supported(rows: seq<Person>, level: seq<int>, i: int)
    requires |level| == |rows| && 0 <= i < |rows|
  {
    level[i] >= 0 ==>
      (rows[i].parent == None && level[i] == 0) ||
      (exists j :: 0 <= j < |rows| && rows[i].parent == Some(rows[j].name) && level[j] >= 0 && level[i] == level[j] + 1)
  }

  /** Once row `j` has a level, every row whose Parent cell names it has that level plus one. */
  predicate Closed(rows: seq<Person>, level: seq<int>, j: int)
    requires |level| == |rows| && 0 <= j < |rows|
  {
    level[j] >= 0 ==>
      forall i :: 0 <= i < |rows| && rows[i].parent == Some(rows[j].name) ==> level[i] == level[j] + 1
  }

  /** What holds at every moment of the traversal: -1 or a justified level in every row. */
  predicate Partial(rows: seq<Person>, level: seq<int>) {
    |level| == |rows| &&
    (forall i :: 0 <= i < |rows| ==> level[i] >= -1) &&
    (forall i :: 0 <= i < |rows| ==> Supported(rows, level, i))
  }

  /**
   * The levels the traversal leaves behind: parentless rows at 0, the child of
   * a levelled row one below it, and every other row still at -1.
   */
  predicate LevelEquations(rows: seq<Person>, level: seq<int>) {
    Partial(rows, level) &&
    (forall i :: 0 <= i < |rows| && rows[i].parent == None ==> level[i] == 0) &&
    (forall j :: 0 <= j < |rows| ==> Closed(rows, level, j))
  }

  /**
   * `assign_levels(data, root_name, current_level)`: gives every row whose
   * Parent equals `rootName` the level `currentLevel`, then recurses into each
   * of them with `currentLevel + 1`.  The top-level call (`root_name=None`)
   * selects the parentless rows; with Parent an optional name the two branches
   * of the source select their rows by the same comparison.  The ghost `root`
   * is the row named `rootName`.
   */
  method AssignLevels(rows: seq<Person>, level: array<int>, rootName: Option<string>, currentLevel: nat, ghost root: nat)
    requires UniqueNames(rows) && level.Length == |rows| && Partial(rows, level[..])
    requires rootName == None ==> currentLevel == 0
    requires rootName != None ==>
      root < |rows| && rows[root].name == rootName.value && level[root] >= 0 && currentLevel == level[root] + 1
    modifies level
    ensures Partial(rows, level[..])
    ensures forall x :: 0 <= x < |rows| && old(level[x]) >= 0 ==> level[x] == old(level[x])
    ensures forall x :: 0 <= x < |rows| && old(level[x]) < 0 && level[x] >= 0 ==> Closed(rows, level[..], x)
    ensures forall x :: 0 <= x < |rows| && rows[x].parent == rootName ==>
      level[x] == currentLevel && Closed(rows, level[..], x)
    ensures forall x :: 0 <= x < |rows| && old(level[x]) < 0 && level[x] >= 0 ==> Descendant(rows, rootName, x)
    decreases |rows| - currentLevel
  {
    ghost var before := level[..];
    // data.loc[children.index, "Level"] = current_level
    for i := 0 to |rows|
      invariant forall x :: 0 <= x < |rows| ==>
        level[x] == if x < i && rows[x].parent == rootName then currentLevel else before[x]
    {
      if rows[i].parent == rootName {
        level[i] := currentLevel;
      }
    }
    ghost var mid := level[..];
    ChildrenLevelled(rows, before, mid, rootName, currentLevel, root);

    // for each child: assign_levels(data, child["Name"], current_level + 1)
    for i := 0 to |rows|
      invariant VisitInvariant(rows, before, mid, level[..], rootName, i)
    {
      if rows[i].parent == rootName {
        ghost var pre := level[..];
        LevelBelowRowCount(rows, pre, i);
        AssignLevels(rows, level, Some(rows[i].name), currentLevel + 1, i);
        ChildVisited(rows, before, mid, pre, level[..], rootName, i);
      } else {
        NotAChild(rows, before, mid, level[..], rootName, i);
      }
    }
  }

  /** What the loop over the children keeps: rows before `i` are visited and closed. */
  ghost predicate VisitInvariant(rows: seq<Person>, before: seq<int>, mid: seq<int>, now: seq<int>,
                                 rootName: Option<string>, i: int)
  {
    |before| == |rows| && |mid| == |rows| && |now| == |rows| &&
    Partial(rows, now) &&
    (forall x :: 0 <= x < |rows| && mid[x] >= 0 ==> now[x] == mid[x]) &&
    (forall x :: 0 <= x < i && x < |rows| && rows[x].parent == rootName ==> Closed(rows, now, x)) &&
    (forall x :: 0 <= x < |rows| && before[x] < 0 && now[x] >= 0 && rows[x].parent != rootName ==> Closed(rows, now, x)) &&
    (forall x :: 0 <= x < |rows| && before[x] < 0 && now[x] >= 0 ==> Descendant(rows, rootName, x))
  }

  /** A row that is not a child of `rootName` needs no visit. */
  lemma NotAChild(rows: seq<Person>, before: seq<int>, mid: seq<int>, now: seq<int>, rootName: Option<string>, i: int)
    requires 0 <= i < |rows| && rows[i].parent != rootName
    requires VisitInvariant(rows, before, mid, now, rootName, i)
    ensures VisitInvariant(rows, before, mid, now, rootName, i + 1)
  {
  }

  /** After the children of `rootName` are set to `currentLevel`, the table is still justified. */
  lemma ChildrenLevelled(rows: seq<Person>, before: seq<int>, mid: seq<int>, rootName: Option<string>,
                         currentLevel: nat, root: nat)
    requires UniqueNames(rows) && Partial(rows, before) && |mid| == |rows|
    requires rootName == None ==> currentLevel == 0
    requires rootName != None ==>
      root < |rows| && rows[root].name == rootName.value && before[root] >= 0 && currentLevel == before[root] + 1
    requires forall x :: 0 <= x < |rows| ==>
      mid[x] == if rows[x].parent == rootName then currentLevel else before[x]
    ensures VisitInvariant(rows, before, mid, mid, rootName, 0)
    ensures forall x :: 0 <= x < |rows| && before[x] >= 0 ==> mid[x] == before[x]
  {
    forall x | 0 <= x < |rows| && rows[x].parent == rootName && before[x] >= 0
      ensures before[x] == currentLevel
    {
      assert Supported(rows, before, x);
    }
    if rootName != None {
      assert Supported(rows, before, root);
    }
    forall x | 0 <= x < |rows| && before[x] < 0 && mid[x] >= 0
      ensures Supported(rows, mid, x)
    {
      if rootName != None {
        assert rows[x].parent == Some(rows[root].name);
      }
    }
    forall x | 0 <= x < |rows| && before[x] < 0 && mid[x] >= 0
      ensures Descendant(rows, rootName, x)
    {
      assert ChainFrom(rows, rootName, [x]);
    }
    PartialKept(rows, before, mid);
  }

  /** One recursive call keeps the loop's invariant and closes the child it visited. */
  lemma ChildVisited(rows: seq<Person>, before: seq<int>, mid: seq<int>, pre: seq<int>, post: seq<int>,
                     rootName: Option<string>, i: int)
    requires 0 <= i < |rows| && rows[i].parent == rootName
    requires VisitInvariant(rows, before, mid, pre, rootName, i)
    requires forall x :: 0 <= x < |rows| && before[x] >= 0 ==> mid[x] == before[x]
    requires Partial(rows, post)
    requires forall x :: 0 <= x < |rows| && pre[x] >= 0 ==> post[x] == pre[x]
    requires forall x :: 0 <= x < |rows| && pre[x] < 0 && post[x] >= 0 ==> Closed(rows, post, x)
    requires forall x :: 0 <= x < |rows| && rows[x].parent == Some(rows[i].name) ==> post[x] == pre[i] + 1
    requires forall x :: 0 <= x < |rows| && pre[x] < 0 && post[x] >= 0 ==> Descendant(rows, Some(rows[i].name), x)
    requires pre[i] >= 0
    ensures VisitInvariant(rows, before, mid, post, rootName, i + 1)
  {
    DescendantsKept(rows, before, pre, post, rootName, i);
    forall x | 0 <= x < |rows| && pre[x] >= 0 && Closed(rows, pre, x)
      ensures Closed(rows, post, x)
    {
      ClosedKept(rows, pre, post, x);
    }
  }

  /** The rows the recursive call into child `i` levels lie below `rootName`, like those levelled before it. */
  lemma DescendantsKept(rows: seq<Person>, before: seq<int>, pre: seq<int>, post: seq<int>,
                        rootName: Option<string>, i: int)
    requires 0 <= i < |rows| && rows[i].parent == rootName
    requires |before| == |rows| && |pre| == |rows| && |post| == |rows|
    requires forall x :: 0 <= x < |rows| && before[x] < 0 && pre[x] >= 0 ==> Descendant(rows, rootName, x)
    requires forall x :: 0 <= x < |rows| && pre[x] >= 0 ==> post[x] == pre[x]
    requires forall x :: 0 <= x < |rows| && pre[x] < 0 && post[x] >= 0 ==> Descendant(rows, Some(rows[i].name), x)
    ensures forall x :: 0 <= x < |rows| && before[x] < 0 && post[x] >= 0 ==> Descendant(rows, rootName, x)
  {
    forall x | 0 <= x < |rows| && pre[x] < 0 && post[x] >= 0
      ensures Descendant(rows, rootName, x)
    {
      var chain :| ChainFrom(rows, Some(rows[i].name), chain) && chain[|chain| - 1] == x;
      ChainPrepend(rows, rootName, i, chain);
    }
  }

  /** `df["Level"] = -1` followed by `assign_levels(df)`. */
  method ResolveLevels(rows: seq<Person>) returns (levels: seq<int>)
    requires UniqueNames(rows)
    ensures LevelEquations(rows, levels)
    ensures forall i :: 0 <= i < |levels| ==> levels[i] < |rows|
  {
    var level := new int[|rows|](_ => -1);
    AssignLevels(rows, level, None, 0, 0);
    levels := level[..];
    forall i | 0 <= i < |rows| && levels[i] >= 0
      ensures levels[i] < |rows|
    {
      LevelBelowRowCount(rows, levels, i);
    }
  }

  /** Levels that stay put keep every row they justified justified. */
  lemma PartialKept(rows: seq<Person>, a: seq<int>, b: seq<int>)
    requires Partial(rows, a) && |b| == |rows|
    requires forall x :: 0 <= x < |rows| ==> b[x] >= -1
    requires forall x :: 0 <= x < |rows| && a[x] >= 0 ==> b[x] == a[x]
    requires forall x :: 0 <= x < |rows| && a[x] < 0 && b[x] >= 0 ==> Supported(rows, b, x)
    ensures Partial(rows, b)
  {
    forall x | 0 <= x < |rows| && a[x] >= 0
      ensures Supported(rows, b, x)
    {
      assert Supported(rows, a, x);
    }
  }

  lemma ClosedKept(rows: seq<Person>, a: seq<int>, b: seq<int>, x: int)
    requires |a| == |rows| && |b| == |rows| && 0 <= x < |rows|
    requires forall y :: 0 <= y < |rows| && a[y] >= 0 ==> b[y] == a[y]
    requires a[x] >= 0 && Closed(rows, a, x)
    ensures Closed(rows, b, x)
  {
  }

  /** Every level from 0 up to a levelled row's level occurs in some row. */
  lemma {:induction false} LevelsBelowPresent(rows: seq<Person>, level: seq<int>, i: int, k: int)
    requires Partial(rows, level) && 0 <= i < |rows| && 0 <= k <= level[i]
    ensures k in (set j | 0 <= j < |rows| :: level[j])
    decreases level[i]
  {
    if k < level[i] {
      assert Supported(rows, level, i);
      var j :| 0 <= j < |rows| && rows[i].parent == Some(rows[j].name) && level[j] >= 0 && level[i] == level[j] + 1;
      LevelsBelowPresent(rows, level, j, k);
    }
  }

  /** A justified level is below the number of rows: the traversal never goes deeper than the table. */
  lemma LevelBelowRowCount(rows: seq<Person>, level: seq<int>, i: int)
    requires Partial(rows, level) && 0 <= i < |rows| && level[i] >= 0
    ensures level[i] < |rows|
  {
    var present := set j | 0 <= j < |rows| :: level[j];
    var below := Range(level[i] + 1);
    forall k | k in below
      ensures k in present
    {
      LevelsBelowPresent(rows, level, i, k);
    }
    CardImage(level);
    assert present == below + (present - below);
  }

  /** The integers 0 .. n - 1. */
  function Range(n: nat): (r: set<int>)
    ensures forall k :: k in r <==> 0 <= k < n
    ensures |r| == n
  {
    if n == 0 then {} else Range(n - 1) + {n - 1}
  }

  lemma {:induction false} CardImage(s: seq<int>)
    ensures |set j | 0 <= j < |s| :: s[j]| <= |s|
  {
    if s != [] {
      var t := s[..|s| - 1];
      CardImage(t);
      assert (set j | 0 <= j < |s| :: s[j]) == (set j | 0 <= j < |t| :: t[j]) + {s[|s| - 1]};
    }
  }

  /** Levels pinned down: two columns that both satisfy the level equations are equal. */
  lemma LevelsDetermined(rows: seq<Person>, a: seq<int>, b: seq<int>)
    requires LevelEquations(rows, a) && LevelEquations(rows, b)
    ensures a == b
  {
    forall i | 0 <= i < |rows|
      ensures a[i] == b[i]
    {
      if a[i] >= 0 {
        AgreeAt(rows, a, b, i);
      } else if b[i] >= 0 {
        AgreeAt(rows, b, a, i);
      }
    }
  }

  lemma {:induction false} AgreeAt(rows: seq<Person>, a: seq<int>, b: seq<int>, i: int)
    requires LevelEquations(rows, a) && LevelEquations(rows, b)
    requires 0 <= i < |rows| && a[i] >= 0
    ensures b[i] == a[i]
    decreases a[i]
  {
    assert Supported(rows, a, i);
    if rows[i].parent != None {
      var j :| 0 <= j < |rows| && rows[i].parent == Some(rows[j].name) && a[j] >= 0 && a[i] == a[j] + 1;
      AgreeAt(rows, a, b, j);
      assert Closed(rows, b, j);
    }
  }

  /**
   * `chain` walks down from a row whose Parent cell is `top`, each further
   * row's Parent naming the row before it.
   */
  ghost predicate ChainFrom(rows: seq<Person>, top: Option<string>, chain: seq<int>) {
    |chain| > 0 &&
    (forall k :: 0 <= k < |chain| ==> 0 <= chain[k] < |rows|) &&
    rows[chain[0]].parent == top &&
    (forall k :: 0 < k < |chain| ==> rows[chain[k]].parent == Some(rows[chain[k - 1]].name))
  }

  /** `chain` walks down from a parentless row. */
  ghost predicate RootChain(rows: seq<Person>, chain: seq<int>) {
    ChainFrom(rows, None, chain)
  }

  /** Row `x` lies in the subtree below `top`: a Parent chain from a child of `top` ends at it. */
  ghost predicate Descendant(rows: seq<Person>, top: Option<string>, x: int) {
    exists chain :: ChainFrom(rows, top, chain) && chain[|chain| - 1] == x
  }

  /** A chain below child `i` of `top` extends to a chain below `top`. */
  lemma ChainPrepend(rows: seq<Person>, top: Option<string>, i: int, chain: seq<int>)
    requires 0 <= i < |rows| && rows[i].parent == top
    requires ChainFrom(rows, Some(rows[i].name), chain)
    ensures ChainFrom(rows, top, [i] + chain) && ([i] + chain)[|chain|] == chain[|chain| - 1]
  {
    var longer := [i] + chain;
    assert forall k :: 0 < k < |longer| ==> longer[k] == chain[k - 1];
  }

  /** A row that a chain from a parentless row reaches has the chain's length minus one as level. */
  lemma {:induction false} ChainGivesLevel(rows: seq<Person>, level: seq<int>, chain: seq<int>)
    requires LevelEquations(rows, level) && RootChain(rows, chain)
    ensures level[chain[|chain| - 1]] == |chain| - 1
  {
    if |chain| > 1 {
      var shorter := chain[..|chain| - 1];
      assert RootChain(rows, shorter);
      ChainGivesLevel(rows, level, shorter);
      assert Closed(rows, level, chain[|chain| - 2]);
    }
  }

  /** Conversely, every levelled row is reached by a chain from a parentless row of that length. */
  lemma {:induction false} LevelGivesChain(rows: seq<Person>, level: seq<int>, i: int) returns (chain: seq<int>)
    requires Partial(rows, level) && 0 <= i < |rows| && level[i] >= 0
    ensures RootChain(rows, chain) && chain[|chain| - 1] == i && |chain| == level[i] + 1
    decreases level[i]
  {
    assert Supported(rows, level, i);
    if rows[i].parent == None {
      chain := [i];
    } else {
      var j :| 0 <= j < |rows| && rows[i].parent == Some(rows[j].name) && level[j] >= 0 && level[i] == level[j] + 1;
      var up := LevelGivesChain(rows, level, j);
      chain := up + [i];
      assert forall k :: 0 <= k < |up| ==> chain[k] == up[k];
    }
  }

  /** A row whose Parent names no row is never reached and keeps the sentinel. */
  lemma DanglingParentUnlevelled(rows: seq<Person>, level: seq<int>, i: int)
    requires Partial(rows, level) && 0 <= i < |rows|
    requires rows[i].parent != None && forall j :: 0 <= j < |rows| ==> rows[i].parent != Some(rows[j].name)
    ensures level[i] == -1
  {
    assert Supported(rows, level, i);
  }
  /** `cycle` lists rows each naming the one before as Parent, the first naming the last. */
  ghost predicate ParentCycle(rows: seq<Person>, cycle: seq<int>) {
    |cycle| > 0 && 0 <= cycle[|cycle| - 1] < |rows| &&
    ChainFrom(rows, Some(rows[cycle[|cycle| - 1]].name), cycle)
  }

  /** With unique names a levelled row with a Parent sits one below the row its Parent names. */
  lemma StepUp(rows: seq<Person>, level: seq<int>, x: int, y: int)
    requires UniqueNames(rows) && Partial(rows, level)
    requires 0 <= x < |rows| && 0 <= y < |rows| && rows[x].parent == Some(rows[y].name) && level[x] >= 0
    ensures level[y] >= 0 && level[x] == level[y] + 1
  {
    assert Supported(rows, level, x);
    var j :| 0 <= j < |rows| && rows[x].parent == Some(rows[j].name) && level[j] >= 0 && level[x] == level[j] + 1;
    assert j == y;
  }

  /** Going up a chain whose last row is levelled, the level drops by one per row. */
  lemma {:induction false} ChainDescends(rows: seq<Person>, level: seq<int>, top: Option<string>, chain: seq<int>)
    requires UniqueNames(rows) && Partial(rows, level) && ChainFrom(rows, top, chain)
    requires level[chain[|chain| - 1]] >= 0
    ensures level[chain[0]] >= 0 && level[chain[0]] == level[chain[|chain| - 1]] - (|chain| - 1)
  {
    var n := |chain| - 1;
    if n > 0 {
      StepUp(rows, level, chain[n], chain[n - 1]);
      var shorter := chain[..n];
      assert ChainFrom(rows, top, shorter);
      ChainDescends(rows, level, top, shorter);
    }
  }

  /** No row on a Parent cycle is ever levelled: it keeps the sentinel. */
  lemma CycleUnlevelled(rows: seq<Person>, level: seq<int>, cycle: seq<int>, k: int)
    requires UniqueNames(rows) && Partial(rows, level) && ParentCycle(rows, cycle) && 0 <= k < |cycle|
    ensures level[cycle[k]] == -1
  {
    var n := |cycle| - 1;
    if level[cycle[k]] >= 0 {
      var top := Some(rows[cycle[n]].name);
      assert ChainFrom(rows, top, cycle[..k + 1]);
      ChainDescends(rows, level, top, cycle[..k + 1]);
      StepUp(rows, level, cycle[0], cycle[n]);
      assert ChainFrom(rows, rows[cycle[k]].parent, cycle[k..]);
      ChainDescends(rows, level, rows[cycle[k]].parent, cycle[k..]);
      assert false;
    }
  }
}
