# Cuetara family tree, modelled in Dafny

This project models the two scripts at the core of the family tree generator. Both start from a table of family members read from a CSV file.

* **Tree script** (`Family_tree_visualizer.py`):
  * gives every row a generation *Level* by walking Parent→child links down from the rows that have no Parent;
  * sorts the table by (Level, Date of Birth, Name);
  * numbers every row within its level (*Level Number*) and across the whole table (*Overall Number*);
  * adds one graph node per row and one edge per row that has a Parent.
* **Flat script** (`no_parent_child_relation/Family_tree_visualizer_no_parent_child.py`):
  * sorts by (Hierarchy Level, Date of Birth, Name);
  * writes an HTML page with one `<h2>` heading and `<ul>` list per run of equal Hierarchy Level labels, and one `<li>` per member.

Module layout:

| file | module | models |
|---|---|---|
| `wrappers.dfy` | `Wrappers` | `Option`, which stands for an empty CSV cell (NaN / NaT) |
| `sort_keys.dfy` | `SortKeys` | the column values a sort compares, and pandas' multi-column order |
| `sorting.dfy` | `Sorting` | `sort_values` as a stable insertion sort on values |
| `level_resolver.dfy` | `LevelResolver` | `assign_levels` over a `Level` array updated in place, and the level equations it solves |
| `ranking.dfy` | `Ranking` | the sort, `groupby("Level").cumcount() + 1` and `range(1, len + 1)` |
| `family_graph.dfy` | `FamilyGraph` | the pyvis `Network` as a class holding node and edge lists, and the two loops that fill it |
| `tree_script.dfy` | `TreeScript` | the tree script from level assignment to graph, and a three-person example |
| `ascii_case.dfy` | `AsciiCase` | `str.capitalize` |
| `flat_report.dfy` | `FlatReport` | the flat script's sort and its HTML-writing loop with the `current_level` cursor |

Representation choices:

* A date is a day number. A missing date is `None` and sorts last.
* Names and labels are compared the way Python compares `str`: code point by code point, with a proper prefix first.
* The HTML document is the sequence of `file.write` calls (`Piece`s). `Text` gives each call's exact string. Date formatting is a parameter.

Behaviour worth knowing (the model follows the code):

* The flat page's groups come in sorted label order. The rows are sorted by the label first, so each label forms one run.
* With unique names the level recursion always ends, even when Parent links form a cycle. Rows on a cycle are never reached from a parentless row, so they keep level -1 (`AssignLevels` terminates; see `CycleUnlevelled`).
* A row whose Parent names nobody keeps level -1 (`DanglingParentUnlevelled`) and is still ranked. The graph step then stops the script: pyvis's `add_edge` (line 52) asserts that both ends are existing nodes, so the edge to the unknown parent raises, and neither the HTML page nor the CSV is written. That assertion is not modelled; `EdgesJoinNodes` states when every edge's ends are nodes, which is when the script gets past line 52.

## Model

| member | source | states |
|---|---|---|
| LevelResolver.AssignLevels | Family_tree_visualizer.py:9-21 | The rows whose Parent equals `rootName` get `currentLevel` and their children's rows are closed under parent+1. Levels set before are never overwritten, and every set level stays justified by a parentless row or a levelled parent. Only rows below `rootName` are touched: every row it newly levels ends a Parent chain that starts at a child of `rootName`. The recursion terminates because depth stays below the row count. |
| LevelResolver.ResolveLevels | Family_tree_visualizer.py:23-25 | Starting from -1 everywhere, the resulting column satisfies the level equations: parentless rows at 0, a levelled row's children one deeper, and every levelled row justified. Every level is below the number of rows. |
| LevelResolver.LevelsDetermined | Family_tree_visualizer.py:9-25 | The level equations have exactly one solution, so the Level column is a function of the table alone. |
| LevelResolver.ChainGivesLevel | Family_tree_visualizer.py:9-21 | A row reached by a Parent chain of length k+1 from a parentless row has level k. |
| LevelResolver.LevelGivesChain | Family_tree_visualizer.py:9-21 | Conversely, every row with level k ≥ 0 is the end of such a chain of length k+1. |
| LevelResolver.DanglingParentUnlevelled | Family_tree_visualizer.py:18-24 | A row whose Parent names no row keeps the sentinel -1. |
| LevelResolver.ChainPrepend | Family_tree_visualizer.py:17-21 | A chain below a child of `rootName` is a chain below `rootName`, as the recursion into each child covers the child's subtree. |
| LevelResolver.DescendantsKept | Family_tree_visualizer.py:20-21 | The rows the recursive call into one child levels lie below `rootName`, like those levelled before it. |
| LevelResolver.StepUp | Family_tree_visualizer.py:17-19 | With unique names, a levelled row with a Parent is one level below the row its Parent names. |
| LevelResolver.ChainDescends | Family_tree_visualizer.py:17-21 | Along a Parent chain ending at a levelled row, every row is levelled and the level drops by one per step up. |
| LevelResolver.CycleUnlevelled | Family_tree_visualizer.py:9-24 | No row on a Parent cycle is ever levelled: such rows keep the sentinel -1. |
| LevelResolver.LevelBelowRowCount | Family_tree_visualizer.py:14-21 | Every assigned level is below the number of rows, so the descent is bounded. |
| SortKeys.StrCmp | Family_tree_visualizer.py:29 | Python string order: the result is -1, 0 or 1, and it is 0 exactly for equal strings. |
| SortKeys.StrCmpFlip | Family_tree_visualizer.py:29 | Swapping the two strings negates the comparison. |
| SortKeys.StrCmpTrans | Family_tree_visualizer.py:29 | Strict string order is transitive. |
| SortKeys.KeyCmpFlip | Family_tree_visualizer.py:29 | Swapping the two keys negates the comparison. |
| SortKeys.KeyCmpTrans | Family_tree_visualizer.py:29 | Strict key order is transitive. |
| SortKeys.KeyCmp | Family_tree_visualizer.py:29 | Column-by-column comparison: -1, 0 or 1, and 0 exactly for equal keys. |
| SortKeys.KeyLeTotal | Family_tree_visualizer.py:29 | Any two keys are ordered one way or the other. |
| SortKeys.KeyLeTrans | Family_tree_visualizer.py:29 | The key order is transitive. |
| SortKeys.KeyLeAntisymmetric | Family_tree_visualizer.py:29 | Keys ordered both ways are equal, so the order on (Level, Date of Birth, Name) is total. |
| SortKeys.DateCmpMeaning | Family_tree_visualizer.py:28-29 | One date sorts before another exactly when it is an earlier day, or a day against a missing date (NaT last). |
| SortKeys.ThreeColumns | Family_tree_visualizer.py:29 | For a three-column key the first column decides, the second breaks ties, then the third. |
| SortKeys.KeyLeFirst | Family_tree_visualizer.py:29 | In key order the first column never decreases. |
| Sorting.SortBy | Family_tree_visualizer.py:29 | The result is a permutation of the input that is sorted by the key. |
| Sorting.Insert | Family_tree_visualizer.py:29 | Inserting into a sorted sequence keeps it sorted and adds exactly that element. |
| Ranking.TreeKey | Family_tree_visualizer.py:29 | The `by=` list in order: Level, then Date of Birth, then Name. |
| Ranking.TreeKeyOrder | Family_tree_visualizer.py:29 | A row may precede another exactly when its Level is lower; or the Levels are equal and its date is earlier (a missing date last); or the dates are equal too and its Name is not greater. |
| Ranking.CumCount | Family_tree_visualizer.py:32 | With running per-level tallies, each row's number is its level's tally plus the count of earlier rows of that level, plus one. |
| Ranking.LevelNumbers | Family_tree_visualizer.py:32 | Each row's Level Number is one more than the number of earlier rows of its level. |
| Ranking.RankTable | Family_tree_visualizer.py:29-33 | The ranked table is a permutation of the input, sorted by (Level, Date of Birth, Name). Level Numbers count within levels and Overall Numbers are 1, 2, …, n. |
| Ranking.RankedLevelsAscending | Family_tree_visualizer.py:29 | Levels never decrease along the ranked table, so -1 rows come first. |
| Ranking.LevelNumbersDistinct | Family_tree_visualizer.py:32 | Within a level the numbers lie in 1..count and strictly increase. |
| Ranking.LevelNumbersNoGaps | Family_tree_visualizer.py:32 | Within a level every number 1..count is used. |
| Ranking.LevelNumbersRestart | Family_tree_visualizer.py:29-32 | On level-sorted rows the counter goes up by one within a level and restarts at 1 where the level changes. |
| Ranking.RankedNamesUnique | Family_tree_visualizer.py:29 | Sorting only rearranges rows, so names unique in the table stay unique after ranking (`UniqueNames`, the one definition of unique names). |
| FamilyGraph.Network.constructor | Family_tree_visualizer.py:36 | A new network has no nodes and no edges. |
| FamilyGraph.Network.AddNode | Family_tree_visualizer.py:47 | Appends one node and leaves the edges alone. |
| FamilyGraph.Network.AddEdge | Family_tree_visualizer.py:52 | Appends one (Parent, Name) edge and leaves the nodes alone. |
| FamilyGraph.BuildNetwork | Family_tree_visualizer.py:39-52 | The two loops leave nodes = the ranked names in order and edges = one (Parent, Name) pair per row with a Parent, in ranked order. |
| FamilyGraph.NodesOnePerRow | Family_tree_visualizer.py:39-47 | Exactly one node per row; a name is a node exactly when some row carries it; with unique names no node repeats. |
| FamilyGraph.EdgeListMembers | Family_tree_visualizer.py:50-52 | (p, c) is an edge exactly when some row is named c and has Parent p. |
| FamilyGraph.EdgeRow | Family_tree_visualizer.py:50-52 | Every edge comes from a row named by its target whose Parent is its source. |
| FamilyGraph.EdgeCount | Family_tree_visualizer.py:50-52 | There are as many edges as rows with a non-empty Parent. |
| FamilyGraph.EdgesDistinct | Family_tree_visualizer.py:50-52 | With unique names no two edges share a target: each person has at most one incoming edge. |
| FamilyGraph.EdgesJoinNodes | Family_tree_visualizer.py:50-52 | When every Parent names a row, both ends of every edge are nodes. |
| TreeScript.TreeReport | Family_tree_visualizer.py:23-52 | End to end: the level column solves the level equations, the ranked table is `RankTable` of the levelled rows with unique names, and the network holds its nodes and edges. |
| TreeScript.ThreePeople | Family_tree_visualizer.py:9-33 | Alice (root) with children Bob and Carol gets levels 0, 1, 1. The ranking is Alice (1, 1), Carol, born earlier (1, 2), then Bob (2, 3). |
| AsciiCase.LowerAll | no_parent_child_relation/Family_tree_visualizer_no_parent_child.py:29 | Same length, the same letters ignoring case, and no upper-case letter left. |
| AsciiCase.LowerAllIdempotent | no_parent_child_relation/Family_tree_visualizer_no_parent_child.py:29 | Lower-casing twice is the same as once. |
| AsciiCase.Capitalize | no_parent_child_relation/Family_tree_visualizer_no_parent_child.py:29 | Same length and the same letters ignoring case, with no lower-case first letter and no upper-case letter after it. |
| AsciiCase.CapitalizeIdempotent | no_parent_child_relation/Family_tree_visualizer_no_parent_child.py:29 | Capitalizing twice is the same as once. |
| FlatReport.FlatKey | no_parent_child_relation/Family_tree_visualizer_no_parent_child.py:13 | The `by=` list in order: Hierarchy Level, then Date of Birth, then Name. |
| FlatReport.FlatKeyOrder | no_parent_child_relation/Family_tree_visualizer_no_parent_child.py:13 | A row may precede another exactly when its label is smaller in string order; or the labels are equal and its date is earlier (a missing date last); or the dates are equal too and its Name is not greater. |
| FlatReport.DateText | no_parent_child_relation/Family_tree_visualizer_no_parent_child.py:32 | `.date()` of a missing date prints as `NaT`; a real date is printed by the formatter passed in. |
| FlatReport.Text | no_parent_child_relation/Family_tree_visualizer_no_parent_child.py:19-34 | The exact string of each `file.write` call: the strings of lines 19, 20, 27 and 34, the `<h2>` heading of line 29 with the capitalized label, and the `<li>` item of line 32. |
| FlatReport.SortMembers | no_parent_child_relation/Family_tree_visualizer_no_parent_child.py:13 | A permutation of the rows sorted by (Hierarchy Level, Date of Birth, Name). |
| FlatReport.SortedByLevel | no_parent_child_relation/Family_tree_visualizer_no_parent_child.py:13 | Rows sorted by the full key have their labels in non-decreasing string order. |
| FlatReport.EmitDocument | no_parent_child_relation/Family_tree_visualizer_no_parent_child.py:18-34 | The loop with the `current_level` cursor writes the title block, then for each row a `</ul>` (unless first) and heading when its label differs from the previous one, then its `<li>`, then the closing block. |
| FlatReport.FlatReportOf | no_parent_child_relation/Family_tree_visualizer_no_parent_child.py:13-34 | Sorts and then writes: the rows written are a sorted permutation of the input. |
| FlatReport.DocumentFrame | no_parent_child_relation/Family_tree_visualizer_no_parent_child.py:19-34 | The file starts with the exact `<html>…<body>` and `<h1>` strings and ends with `</ul></body></html>`. |
| FlatReport.BodyBalance | no_parent_child_relation/Family_tree_visualizer_no_parent_child.py:24-32 | For a non-empty table the loop writes one `<ul>` more than `</ul>`. |
| FlatReport.TagBalance | no_parent_child_relation/Family_tree_visualizer_no_parent_child.py:24-34 | For a non-empty table `<ul>` and `</ul>` balance. An empty table yields a lone `</ul>` and no `<ul>`. |
| FlatReport.EntriesAreRows | no_parent_child_relation/Family_tree_visualizer_no_parent_child.py:24-32 | The loop writes exactly one `<li>` per row, in row order. |
| FlatReport.DocumentEntries | no_parent_child_relation/Family_tree_visualizer_no_parent_child.py:18-34 | The page's `<li>` items are the rows, one each, in order. |
| FlatReport.BodyLastHeading | no_parent_child_relation/Family_tree_visualizer_no_parent_child.py:25-29 | After any number of rows the cursor's heading is the last row's label. |
| FlatReport.EntriesUnderOwnHeading | no_parent_child_relation/Family_tree_visualizer_no_parent_child.py:24-32 | Every `<li>` follows the heading of its own label with no other heading in between. |
| FlatReport.EntryUnderOwnHeading | no_parent_child_relation/Family_tree_visualizer_no_parent_child.py:18-34 | The same for the whole page. |
| FlatReport.BodyHeadings | no_parent_child_relation/Family_tree_visualizer_no_parent_child.py:25-29 | A heading is written exactly where a run of equal labels starts. |
| FlatReport.RunStartsAscending | no_parent_child_relation/Family_tree_visualizer_no_parent_child.py:13-29 | On label-sorted rows the run starts are in strictly increasing label order. |
| FlatReport.RunStartsLast | no_parent_child_relation/Family_tree_visualizer_no_parent_child.py:25-29 | The last run start is the last row's label. |
| FlatReport.RunStartsCoverLevels | no_parent_child_relation/Family_tree_visualizer_no_parent_child.py:25-29 | A label starts a run exactly when some row carries it. |
| FlatReport.DocumentHeadings | no_parent_child_relation/Family_tree_visualizer_no_parent_child.py:19-34 | The page's headings are the loop's headings: the fixed blocks add none. |
| FlatReport.ReportStructure | no_parent_child_relation/Family_tree_visualizer_no_parent_child.py:13-34 | For any input table: one heading per distinct label, in strictly ascending order, and the `<li>` items are the sorted rows. |

## Left out

- Reading and writing files (`read_csv`, `to_csv`, `open`/`write`, `write_html`) and the `print` messages are left out. They are I/O; the flat page is modelled as the sequence of strings written.
- Date parsing (`pd.to_datetime`) and `.date()` formatting are left out. A date is a day number, and the formatter is a parameter of `Text`. Only an empty Date of Birth cell is modelled, as a missing date (NaT). `pd.to_datetime` raises on a value it cannot parse, stopping the script; that error is not modelled.
- The tooltip text (lines 40-46) is left out, including the Email column and the `int(row['Level'])` rendering. It only feeds the widget's display.
- pyvis internals are left out: node styling, layout, and its handling of duplicate node ids or edges to unknown nodes. `Network` records the calls it receives; `EdgesJoinNodes` states when every edge's ends are nodes.
- LevelResolver.AssignLevels requires unique names. With duplicate names the source can recurse without end until Python raises `RecursionError`: a root named A plus a row with Parent A named A revisits itself. That case is not modelled.
- Sorting.SortBy: pandas' own sort algorithm is not modelled. The model uses a stable insertion sort. The sort keys are total on the modelled columns, so any correct sort gives the same rows here. The `inplace=True` update is modelled on values.
- AsciiCase.Capitalize models `str.capitalize` for ASCII letters only. Unicode case mapping and title-case characters are not modelled.
- HTML escaping is left out. Names and labels are written verbatim by the source, and the tag counts are per write call, so markup inside a name is not counted.
- NaN names and NaN Hierarchy Level labels are not modelled. Only Parent and Date of Birth can be empty. A NaN label would make `.capitalize()` fail in the source.
- The Alive and Email columns, and the later HTML variants with search boxes and toggles, are not part of this model.
