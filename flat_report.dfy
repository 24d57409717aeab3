/**
 * The flat variant: rows carry their Hierarchy Level label, are sorted by
 * (Hierarchy Level, Date of Birth, Name), and are written as one `<h2>`
 * heading and `<ul>` list per run of equal labels.  The document is the
 * sequence of pieces the loop writes, one per `file.write` call; `Text` gives
 * the exact characters of each.
 */
module FlatReport {
  import opened Wrappers
  import opened SortKeys
  import opened Sorting
  import opened AsciiCase

  /** One row of the input table: the columns the report reads. */
  datatype Member = Member(level: string, name: string, dob: Option<int>)

  /** The sort key of `sort_values(by=["Hierarchy Level", "Date of Birth", "Name"])`. */
  function FlatKey(m: Member): seq<Field> {
    [Str(m.level), Date(m.dob), Str(m.name)]
  }

  /**
   * What the key means: the label in string order; on equal labels an earlier
   * Date of Birth, a missing one last; on equal dates the Name in string order.
   */
  lemma FlatKeyOrder(a: Member, b: Member)
    ensures KeyLe(FlatKey(a), FlatKey(b)) <==>
      StrCmp(a.level, b.level) < 0 ||
      (a.level == b.level &&
        (EarlierDate(a.dob, b.dob) || (a.dob == b.dob && StrCmp(a.name, b.name) <= 0)))
  {
    ThreeColumns(Str(a.level), Date(a.dob), Str(a.name), Str(b.level), Date(b.dob), Str(b.name));
    DateCmpMeaning(a.dob, b.dob);
  }

  /** One `file.write` call. */
  datatype Piece =
    | Preamble             // the `<html>` ... `<body>` lines
    | Banner               // the `<h1>` title
    | CloseList            // `</ul>` closing the previous label's list
    | Heading(level: string)   // `<h2>` with the capitalized label, then `<ul>`
    | Entry(member: Member)    // one `<li>`
    | Epilogue             // the final `</ul>`, `</body>` and `</html>`

  /** `.date()` of a missing date prints as NaT; real dates are formatted by `isoDate`. */
  function DateText(dob: Option<int>, isoDate: int -> string): string {
    match dob
    case None => "NaT"
    case Some(day) => isoDate(day)
  }

  /** The characters each write puts into the file. */
  function Text(p: Piece, isoDate: int -> string): string {
    match p
    case Preamble => "<html>\n<head>\n<title>Family Tree</title>\n</head>\n<body>\n"
    case Banner => "<h1>Family Tree</h1>\n"
    case CloseList => "</ul>\n"
    case Heading(level) => "<h2>" + Capitalize(level) + "</h2>\n<ul>"
    case Entry(m) => "<li>" + m.name + " (DOB: " + DateText(m.dob, isoDate) + ")</li>\n"
    case Epilogue => "</ul>\n</body>\n</html>"
  }

  /** The strings written, in order. */
  function Writes(doc: seq<Piece>, isoDate: int -> string): seq<string> {
    seq(|doc|, i requires 0 <= i < |doc| => Text(doc[i], isoDate))
  }

  /** What row `i` adds before its `<li>`: a heading when its label differs from the previous row's. */
  function Lead(rows: seq<Member>, i: int): seq<Piece>
    requires 0 <= i < |rows|
  {
    if i == 0 then [Heading(rows[0].level)]
    else if rows[i].level != rows[i - 1].level then [CloseList, Heading(rows[i].level)]
    else []
  }

  /** The pieces written for the rows, row after row. */
  function Body(rows: seq<Member>): seq<Piece> {
    if rows == [] then []
    else
      var n := |rows| - 1;
      Body(rows[..n]) + Lead(rows, n) + [Entry(rows[n])]
  }

  function Document(rows: seq<Member>): seq<Piece> {
    [Preamble, Banner] + Body(rows) + [Epilogue]
  }

  /** Line 13: the rows in key order. */
  function SortMembers(members: seq<Member>): (sorted: seq<Member>)
    ensures multiset(sorted) == multiset(members)
    ensures SortedBy(sorted, FlatKey)
  {
    SortBy(members, FlatKey)
  }

  /** Lines 18-34: the loop with its `current_level` cursor. */
  method EmitDocument(rows: seq<Member>) returns (doc: seq<Piece>)
    ensures doc == Document(rows)
  {
    doc := [Preamble, Banner];
    var current: Option<string> := None;
    for i := 0 to |rows|
      invariant current == if i == 0 then None else Some(rows[i - 1].level)
      invariant doc == [Preamble, Banner] + Body(rows[..i])
    {
      BodyExtend(rows, i);
      ghost var before := doc;
      if Some(rows[i].level) != current {
        if current != None {
          doc := doc + [CloseList];
        }
        current := Some(rows[i].level);
        doc := doc + [Heading(rows[i].level)];
        assert doc == before + Lead(rows, i) by {
          if i > 0 {
            assert Lead(rows, i) == [CloseList, Heading(rows[i].level)];
            assert before + [CloseList] + [Heading(rows[i].level)] == before + [CloseList, Heading(rows[i].level)];
          }
        }
      } else {
        assert doc == before + Lead(rows, i);
      }
      doc := doc + [Entry(rows[i])];
      Regroup([Preamble, Banner], Body(rows[..i]), Lead(rows, i), [Entry(rows[i])]);
    }
    assert rows[..|rows|] == rows;
    doc := doc + [Epilogue];
  }

  lemma Regroup(h: seq<Piece>, b: seq<Piece>, l: seq<Piece>, e: seq<Piece>)
    ensures h + b + l + e == h + (b + l + e)
  {
  }

  /** One more row: its lead and its item follow the body so far. */
  lemma BodyExtend(rows: seq<Member>, i: int)
    requires 0 <= i < |rows|
    ensures Body(rows[..i + 1]) == Body(rows[..i]) + Lead(rows, i) + [Entry(rows[i])]
  {
    var pre := rows[..i + 1];
    assert pre[..i] == rows[..i] && pre[i] == rows[i];
    assert Lead(pre, i) == Lead(rows, i) by {
      if i > 0 {
        assert pre[i - 1] == rows[i - 1];
      }
    }
  }

  /** The whole script without its file handling: sort, then write. */
  method FlatReportOf(members: seq<Member>) returns (sorted: seq<Member>, doc: seq<Piece>)
    ensures multiset(sorted) == multiset(members) && SortedBy(sorted, FlatKey)
    ensures doc == Document(sorted)
  {
    sorted := SortMembers(members);
    doc := EmitDocument(sorted);
  }

  // ---------------------------------------------------------------------
  // Views of a document

  function Sum(doc: seq<Piece>, f: Piece -> nat): nat {
    if doc == [] then 0 else Sum(doc[..|doc| - 1], f) + f(doc[|doc| - 1])
  }

  function Picked<U>(doc: seq<Piece>, pick: Piece -> Option<U>): seq<U> {
    if doc == [] then []
    else
      var last := doc[|doc| - 1];
      Picked(doc[..|doc| - 1], pick) + match pick(last) {
        case None => []
        case Some(u) => [u]
      }
  }

  /** How many `<ul>` a piece opens. */
  function Opens(p: Piece): nat {
    if p.Heading? then 1 else 0
  }

  /** How many `</ul>` a piece writes. */
  function Closes(p: Piece): nat {
    if p.CloseList? || p.Epilogue? then 1 else 0
  }

  function HeadingOf(p: Piece): Option<string> {
    if p.Heading? then Some(p.level) else None
  }

  function EntryOf(p: Piece): Option<Member> {
    if p.Entry? then Some(p.member) else None
  }

  /** The label of the last heading in `doc`, if any. */
  function LastHeading(doc: seq<Piece>): Option<string> {
    var labels := Picked(doc, HeadingOf);
    if labels == [] then None else Some(labels[|labels| - 1])
  }

  lemma {:induction false} SumConcat(a: seq<Piece>, b: seq<Piece>, f: Piece -> nat)
    ensures Sum(a + b, f) == Sum(a, f) + Sum(b, f)
  {
    if b != [] {
      var n := |b| - 1;
      assert (a + b)[..|a + b| - 1] == a + b[..n];
      SumConcat(a, b[..n], f);
    } else {
      assert a + b == a;
    }
  }

  lemma {:induction false} PickedConcat<U>(a: seq<Piece>, b: seq<Piece>, pick: Piece -> Option<U>)
    ensures Picked(a + b, pick) == Picked(a, pick) + Picked(b, pick)
  {
    if b != [] {
      var n := |b| - 1;
      assert (a + b)[..|a + b| - 1] == a + b[..n];
      PickedConcat(a, b[..n], pick);
    } else {
      assert a + b == a;
    }
  }

  // ---------------------------------------------------------------------
  // Properties of the document

  /** The document starts with the fixed title block and ends by closing the list and the page. */
  lemma DocumentFrame(rows: seq<Member>, isoDate: int -> string)
    ensures |Writes(Document(rows), isoDate)| >= 3
    ensures Writes(Document(rows), isoDate)[..2] ==
      ["<html>\n<head>\n<title>Family Tree</title>\n</head>\n<body>\n", "<h1>Family Tree</h1>\n"]
    ensures Writes(Document(rows), isoDate)[|Document(rows)| - 1] == "</ul>\n</body>\n</html>"
  {
  }

  lemma OnePiece<U>(p: Piece, pick: Piece -> Option<U>, f: Piece -> nat)
    ensures Picked([p], pick) == match pick(p) { case None => [] case Some(u) => [u] }
    ensures Sum([p], f) == f(p)
  {
    assert [p][..0] == [];
  }

  /** What a row's lead adds: no entry, one heading, and a close unless it is the first row. */
  lemma LeadCounts(rows: seq<Member>, i: int)
    requires 0 <= i < |rows|
    ensures Picked(Lead(rows, i), EntryOf) == []
    ensures Picked(Lead(rows, i), HeadingOf) == if Lead(rows, i) == [] then [] else [rows[i].level]
    ensures Sum(Lead(rows, i), Opens) == if Lead(rows, i) == [] then 0 else 1
    ensures Sum(Lead(rows, i), Closes) == if i == 0 || Lead(rows, i) == [] then 0 else 1
  {
    var lead := Lead(rows, i);
    if i > 0 && lead != [] {
      assert lead == [CloseList, Heading(rows[i].level)];
      SwitchCounts(rows[i].level);
    } else if lead != [] {
      assert lead == [Heading(rows[i].level)];
      OnePiece(Heading(rows[i].level), EntryOf, Opens);
      OnePiece(Heading(rows[i].level), HeadingOf, Closes);
    }
  }

  /** A change of label: one `</ul>`, then the new heading and its `<ul>`. */
  lemma SwitchCounts(level: string)
    ensures Picked([CloseList, Heading(level)], EntryOf) == []
    ensures Picked([CloseList, Heading(level)], HeadingOf) == [level]
    ensures Sum([CloseList, Heading(level)], Opens) == 1
    ensures Sum([CloseList, Heading(level)], Closes) == 1
  {
    var pair := [CloseList, Heading(level)];
    assert pair == [CloseList] + [Heading(level)];
    OnePiece(CloseList, EntryOf, Opens);
    OnePiece(CloseList, HeadingOf, Closes);
    OnePiece(Heading(level), EntryOf, Opens);
    OnePiece(Heading(level), HeadingOf, Closes);
    PickedConcat([CloseList], [Heading(level)], EntryOf);
    PickedConcat([CloseList], [Heading(level)], HeadingOf);
    SumConcat([CloseList], [Heading(level)], Opens);
    SumConcat([CloseList], [Heading(level)], Closes);
  }

  /** Exactly one `<li>` per row, in row order. */
  lemma {:induction false} EntriesAreRows(rows: seq<Member>)
    ensures Picked(Body(rows), EntryOf) == rows
  {
    if rows != [] {
      var n := |rows| - 1;
      var front := rows[..n];
      LastRowEntry(rows);
      EntriesAreRows(front);
      SplitLast(rows);
    }
  }

  /** A non-empty sequence is its front followed by its last element. */
  lemma SplitLast<T>(s: seq<T>)
    requires s != []
    ensures s == s[..|s| - 1] + [s[|s| - 1]]
  {
  }

  /** The last row adds exactly its own `<li>` to the items before it. */
  lemma LastRowEntry(rows: seq<Member>)
    requires rows != []
    ensures Picked(Body(rows), EntryOf) == Picked(Body(rows[..|rows| - 1]), EntryOf) + [rows[|rows| - 1]]
  {
    var n := |rows| - 1;
    var front, lead, last := Body(rows[..n]), Lead(rows, n), [Entry(rows[n])];
    assert Picked(Body(rows), EntryOf) == Picked(front + lead, EntryOf) + Picked(last, EntryOf) by {
      PickedConcat(front + lead, last, EntryOf);
    }
    assert Picked(front + lead, EntryOf) == Picked(front, EntryOf) by {
      PickedConcat(front, lead, EntryOf);
      LeadCounts(rows, n);
    }
    OnePiece(Entry(rows[n]), EntryOf, Opens);
  }

  /** The document's `<li>` items are the rows, one each, in order. */
  lemma DocumentEntries(rows: seq<Member>)
    ensures Picked(Document(rows), EntryOf) == rows
  {
    EntriesAreRows(rows);
    var head: seq<Piece> := [Preamble, Banner];
    PickedConcat(head, Body(rows), EntryOf);
    PickedConcat(head + Body(rows), [Epilogue], EntryOf);
    PickedConcat([Preamble], [Banner], EntryOf);
    OnePiece(Preamble, EntryOf, Opens);
    OnePiece(Banner, EntryOf, Opens);
    OnePiece(Epilogue, EntryOf, Opens);
  }

  /** In the body, the lists opened are one more than the lists closed, as soon as a row is written. */
  lemma {:induction false} BodyBalance(rows: seq<Member>)
    ensures rows == [] ==> Sum(Body(rows), Opens) == 0 && Sum(Body(rows), Closes) == 0
    ensures rows != [] ==> Sum(Body(rows), Opens) == Sum(Body(rows), Closes) + 1
  {
    if rows != [] {
      var n := |rows| - 1;
      BodyBalance(rows[..n]);
      var lead := Lead(rows, n);
      SumConcat(Body(rows[..n]), lead, Opens);
      SumConcat(Body(rows[..n]) + lead, [Entry(rows[n])], Opens);
      SumConcat(Body(rows[..n]), lead, Closes);
      SumConcat(Body(rows[..n]) + lead, [Entry(rows[n])], Closes);
      LeadCounts(rows, n);
      OnePiece(Entry(rows[n]), EntryOf, Opens);
      OnePiece(Entry(rows[n]), EntryOf, Closes);
    }
  }

  /**
   * `<ul>` and `</ul>` balance for a non-empty table; an empty table gets one
   * `</ul>` and no `<ul>`.
   */
  lemma TagBalance(rows: seq<Member>)
    ensures rows != [] ==> Sum(Document(rows), Opens) == Sum(Document(rows), Closes)
    ensures rows == [] ==> Sum(Document(rows), Opens) == 0 && Sum(Document(rows), Closes) == 1
  {
    BodyBalance(rows);
    var head: seq<Piece> := [Preamble, Banner];
    SumConcat(head, Body(rows), Opens);
    SumConcat(head + Body(rows), [Epilogue], Opens);
    SumConcat(head, Body(rows), Closes);
    SumConcat(head + Body(rows), [Epilogue], Closes);
    SumConcat([Preamble], [Banner], Opens);
    SumConcat([Preamble], [Banner], Closes);
    OnePiece(Preamble, EntryOf, Opens);
    OnePiece(Banner, EntryOf, Opens);
    OnePiece(Epilogue, EntryOf, Opens);
    OnePiece(Preamble, EntryOf, Closes);
    OnePiece(Banner, EntryOf, Closes);
    OnePiece(Epilogue, EntryOf, Closes);
  }

  /** The heading labels of `a + b`: those of `a`, then those of `b`. */
  lemma LastHeadingConcat(a: seq<Piece>, b: seq<Piece>)
    ensures LastHeading(a + b) == if Picked(b, HeadingOf) == [] then LastHeading(a) else LastHeading(b)
  {
    PickedConcat(a, b, HeadingOf);
  }

  /** The body's last heading is the last row's label. */
  lemma {:induction false} BodyLastHeading(rows: seq<Member>)
    requires rows != []
    ensures LastHeading(Body(rows)) == Some(rows[|rows| - 1].level)
  {
    var n := |rows| - 1;
    var front, lead := Body(rows[..n]), Lead(rows, n);
    assert Body(rows) == front + lead + [Entry(rows[n])];
    EntryKeepsHeading(front + lead, rows[n]);
    if lead == [] {
      assert front + lead == front;
      BodyLastHeading(rows[..n]);
      assert rows[..n][n - 1] == rows[n - 1];
    } else {
      LeadSetsHeading(front, rows, n);
    }
  }

  /** An item does not change the last heading. */
  lemma EntryKeepsHeading(doc: seq<Piece>, m: Member)
    ensures LastHeading(doc + [Entry(m)]) == LastHeading(doc)
  {
    OnePiece(Entry(m), HeadingOf, Opens);
    LastHeadingConcat(doc, [Entry(m)]);
  }

  /** A non-empty lead ends with the heading of its row's label. */
  lemma LeadSetsHeading(doc: seq<Piece>, rows: seq<Member>, i: int)
    requires 0 <= i < |rows| && Lead(rows, i) != []
    ensures LastHeading(doc + Lead(rows, i)) == Some(rows[i].level)
  {
    LeadCounts(rows, i);
    LastHeadingConcat(doc, Lead(rows, i));
  }

  /**
   * Every `<li>` of the body comes after the heading of its own label with no
   * other heading in between.
   */
  lemma {:induction false} EntriesUnderOwnHeading(rows: seq<Member>)
    ensures EntriesHeaded(Body(rows))
  {
    if rows != [] {
      var n := |rows| - 1;
      var front, lead, last := Body(rows[..n]), Lead(rows, n), [Entry(rows[n])];
      assert Body(rows) == front + lead + last;
      EntriesUnderOwnHeading(rows[..n]);
      assert LastHeading(front + lead) == Some(rows[n].level) by {
        BodyLastHeading(rows);
        EntryKeepsHeading(front + lead, rows[n]);
      }
      assert forall k :: 0 <= k < |lead| ==> !lead[k].Entry?;
      HeadedStep(front, lead, rows[n]);
    }
  }

  /** Every `<li>` in `doc` comes after a heading of its own label with no other heading in between. */
  predicate EntriesHeaded(doc: seq<Piece>) {
    forall p :: 0 <= p < |doc| && doc[p].Entry? ==> LastHeading(doc[..p]) == Some(doc[p].member.level)
  }

  /** Pieces without items, then an item under the heading they end with. */
  lemma HeadedStep(front: seq<Piece>, lead: seq<Piece>, m: Member)
    requires EntriesHeaded(front)
    requires forall k :: 0 <= k < |lead| ==> !lead[k].Entry?
    requires LastHeading(front + lead) == Some(m.level)
    ensures EntriesHeaded(front + lead + [Entry(m)])
  {
    var doc := front + lead + [Entry(m)];
    forall p | 0 <= p < |doc| && doc[p].Entry?
      ensures LastHeading(doc[..p]) == Some(doc[p].member.level)
    {
      if p < |front| {
        assert doc[..p] == front[..p] && doc[p] == front[p];
      } else {
        assert p == |front| + |lead|;
        assert doc[..p] == front + lead;
      }
    }
  }

  /** In the whole document, every `<li>` sits under the heading of its own label. */
  lemma EntryUnderOwnHeading(rows: seq<Member>, p: int)
    requires 0 <= p < |Document(rows)| && Document(rows)[p].Entry?
    ensures LastHeading(Document(rows)[..p]) == Some(Document(rows)[p].member.level)
  {
    var head: seq<Piece> := [Preamble, Banner];
    var doc := Document(rows);
    EntriesUnderOwnHeading(rows);
    assert 2 <= p < |doc| - 1;
    var q := p - 2;
    assert doc[p] == Body(rows)[q];
    assert doc[..p] == head + Body(rows)[..q];
    LastHeadingConcat(head, Body(rows)[..q]);
    FrameHeadings();
  }

  /** Labels in non-decreasing string order. */
  predicate LevelsAscending(rows: seq<Member>) {
    forall a, b :: 0 <= a < b < |rows| ==> StrCmp(rows[a].level, rows[b].level) <= 0
  }

  /** Rows sorted by the report's key are sorted by label first. */
  lemma SortedByLevel(rows: seq<Member>)
    requires SortedBy(rows, FlatKey)
    ensures LevelsAscending(rows)
  {
    forall a, b | 0 <= a < b < |rows|
      ensures StrCmp(rows[a].level, rows[b].level) <= 0
    {
      var x, y := rows[a], rows[b];
      assert KeyLe(FlatKey(x), FlatKey(y));
      assert FlatKey(x) == [Str(x.level)] + [Date(x.dob), Str(x.name)];
      assert FlatKey(y) == [Str(y.level)] + [Date(y.dob), Str(y.name)];
      KeyLeFirst(Str(x.level), [Date(x.dob), Str(x.name)], Str(y.level), [Date(y.dob), Str(y.name)]);
    }
  }

  /** The labels at which a run of equal labels starts, in row order. */
  function RunStarts(rows: seq<Member>): seq<string> {
    if rows == [] then []
    else
      var n := |rows| - 1;
      RunStarts(rows[..n]) + if n == 0 || rows[n].level != rows[n - 1].level then [rows[n].level] else []
  }

  /** A heading is written exactly where a run of equal labels starts. */
  lemma {:induction false} BodyHeadings(rows: seq<Member>)
    ensures Picked(Body(rows), HeadingOf) == RunStarts(rows)
  {
    if rows != [] {
      var n := |rows| - 1;
      BodyHeadings(rows[..n]);
      PickedConcat(Body(rows[..n]) + Lead(rows, n), [Entry(rows[n])], HeadingOf);
      PickedConcat(Body(rows[..n]), Lead(rows, n), HeadingOf);
      OnePiece(Entry(rows[n]), HeadingOf, Opens);
      LeadCounts(rows, n);
    }
  }

  predicate StrictlyAscending(h: seq<string>) {
    forall a, b :: 0 <= a < b < |h| ==> StrCmp(h[a], h[b]) < 0
  }

  /** A label above the last of an ascending list extends it. */
  lemma AppendAscending(h: seq<string>, l: string)
    requires StrictlyAscending(h)
    requires h == [] || StrCmp(h[|h| - 1], l) < 0
    ensures StrictlyAscending(h + [l])
  {
    forall a | 0 <= a < |h|
      ensures StrCmp(h[a], l) < 0
    {
      if a < |h| - 1 {
        StrCmpTrans(h[a], h[|h| - 1], l);
      }
    }
  }

  /** The last run start is the last row's label. */
  lemma {:induction false} RunStartsLast(rows: seq<Member>)
    requires rows != []
    ensures RunStarts(rows) != [] && RunStarts(rows)[|RunStarts(rows)| - 1] == rows[|rows| - 1].level
  {
    var n := |rows| - 1;
    if n > 0 && rows[n].level == rows[n - 1].level {
      RunStartsLast(rows[..n]);
      assert rows[..n][n - 1] == rows[n - 1];
    }
  }

  /** On label-sorted rows the run starts come in strictly increasing label order. */
  lemma {:induction false} RunStartsAscending(rows: seq<Member>)
    requires LevelsAscending(rows)
    ensures StrictlyAscending(RunStarts(rows))
  {
    if rows != [] {
      var n := |rows| - 1;
      var front := rows[..n];
      AscendingFront(rows);
      RunStartsAscending(front);
      if n == 0 || rows[n].level != rows[n - 1].level {
        NewRunAscending(rows);
      } else {
        assert RunStarts(rows) == RunStarts(front) + [];
      }
    }
  }

  /** A row opening a new run adds a label above every earlier run start. */
  lemma NewRunAscending(rows: seq<Member>)
    requires rows != [] && LevelsAscending(rows)
    requires StrictlyAscending(RunStarts(rows[..|rows| - 1]))
    requires |rows| == 1 || rows[|rows| - 1].level != rows[|rows| - 2].level
    ensures StrictlyAscending(RunStarts(rows))
  {
    var n := |rows| - 1;
    var front := rows[..n];
    var l := rows[n].level;
    assert RunStarts(rows) == RunStarts(front) + [l];
    if n > 0 {
      RunStartsLast(front);
      assert front[n - 1] == rows[n - 1];
      assert StrCmp(rows[n - 1].level, l) <= 0;
      assert StrCmp(rows[n - 1].level, l) != 0;
    }
    AppendAscending(RunStarts(front), l);
  }

  lemma AscendingFront(rows: seq<Member>)
    requires rows != [] && LevelsAscending(rows)
    ensures LevelsAscending(rows[..|rows| - 1])
  {
  }

  /** The labels of the rows, in row order. */
  function Levels(rows: seq<Member>): seq<string> {
    seq(|rows|, i requires 0 <= i < |rows| => rows[i].level)
  }

  /** A label starts a run exactly when some row carries it. */
  lemma {:induction false} RunStartsCoverLevels(rows: seq<Member>)
    ensures forall l :: l in RunStarts(rows) <==> l in Levels(rows)
  {
    if rows != [] {
      var n := |rows| - 1;
      var front := rows[..n];
      RunStartsCoverLevels(front);
      assert Levels(rows) == Levels(front) + [rows[n].level];
      if n > 0 {
        assert Levels(front)[n - 1] == rows[n - 1].level;
      }
    }
  }

  /** The document's headings are the body's. */
  lemma DocumentHeadings(rows: seq<Member>)
    ensures Picked(Document(rows), HeadingOf) == Picked(Body(rows), HeadingOf)
  {
    var head: seq<Piece> := [Preamble, Banner];
    FrameHeadings();
    PickedConcat(head, Body(rows), HeadingOf);
    PickedConcat(head + Body(rows), [Epilogue], HeadingOf);
  }

  /** The fixed pieces around the body carry no heading. */
  lemma FrameHeadings()
    ensures Picked([Preamble, Banner], HeadingOf) == [] && Picked([Epilogue], HeadingOf) == []
  {
    PickedConcat([Preamble], [Banner], HeadingOf);
    assert [Preamble] + [Banner] == [Preamble, Banner];
    OnePiece(Preamble, HeadingOf, Opens);
    OnePiece(Banner, HeadingOf, Opens);
    OnePiece(Epilogue, HeadingOf, Opens);
  }

  /**
   * The report of any table: its headings are its distinct labels, each once,
   * in sorted order, and its items are its rows in sorted order.
   */
  lemma ReportStructure(members: seq<Member>)
    ensures StrictlyAscending(Picked(Document(SortMembers(members)), HeadingOf))
    ensures forall l :: l in Picked(Document(SortMembers(members)), HeadingOf) <==> l in Levels(members)
    ensures Picked(Document(SortMembers(members)), EntryOf) == SortMembers(members)
  {
    var sorted := SortMembers(members);
    SortedByLevel(sorted);
    RunStartsAscending(sorted);
    RunStartsCoverLevels(sorted);
    BodyHeadings(sorted);
    DocumentHeadings(sorted);
    DocumentEntries(sorted);
    SameLevels(sorted, members);
  }

  /** A rearrangement of the rows carries the same labels. */
  lemma SameLevels(a: seq<Member>, b: seq<Member>)
    requires multiset(a) == multiset(b)
    ensures forall l :: l in Levels(a) <==> l in Levels(b)
  {
    forall l | l in Levels(a)
      ensures l in Levels(b)
    {
      var i :| 0 <= i < |a| && Levels(a)[i] == l;
      assert a[i] in multiset(b);
      var j :| 0 <= j < |b| && b[j] == a[i];
      assert Levels(b)[j] == l;
    }
    forall l | l in Levels(b)
      ensures l in Levels(a)
    {
      var j :| 0 <= j < |b| && Levels(b)[j] == l;
      assert b[j] in multiset(a);
      var i :| 0 <= i < |a| && a[i] == b[j];
      assert Levels(a)[i] == l;
    }
  }
}
