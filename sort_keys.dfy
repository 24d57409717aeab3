/**
 * The order pandas' `sort_values(by=[...])` puts rows in: the `by` columns are
 * compared one after another, each column by its own order.  Strings compare as
 * Python compares them (code point by code point, a proper prefix first), dates
 * compare by day number with a missing date (NaT) after every date, which is
 * pandas' default `na_position="last"`.
 */
module SortKeys {
  import opened Wrappers

  /** One cell of a sort key. */
  datatype Field = Int(i: int) | Date(day: Option<int>) | Str(s: string)

  /** Python's three-way comparison of two strings. */
  function StrCmp(a: string, b: string): (c: int)
    ensures -1 <= c <= 1
    ensures c == 0 <==> a == b
  {
    if a == [] then (if b == [] then 0 else -1)
    else if b == [] then 1
    else if a[0] < b[0] then -1
    else if b[0] < a[0] then 1
    else
      var c := StrCmp(a[1..], b[1..]);
      assert c == 0 ==> a == [a[0]] + a[1..] == [b[0]] + b[1..] == b;
      c
  }

  function IntCmp(a: int, b: int): int {
    if a < b then -1 else if a == b then 0 else 1
  }

  /** Dates by day number; a missing date after every date. */
  function DateCmp(a: Option<int>, b: Option<int>): int {
    match (a, b)
    case (None, None) => 0
    case (None, Some(_)) => 1
    case (Some(_), None) => -1
    case (Some(x), Some(y)) => IntCmp(x, y)
  }

  /** Cells of one column always share a kind; across kinds the order is fixed arbitrarily. */
  function Kind(f: Field): int {
    match f
    case Int(_) => 0
    case Date(_) => 1
    case Str(_) => 2
  }

  function FieldCmp(a: Field, b: Field): (c: int)
    ensures -1 <= c <= 1
    ensures c == 0 <==> a == b
  {
    match (a, b)
    case (Int(x), Int(y)) => IntCmp(x, y)
    case (Date(x), Date(y)) => DateCmp(x, y)
    case (Str(x), Str(y)) => StrCmp(x, y)
    case _ => IntCmp(Kind(a), Kind(b))
  }

  /** Lexicographic comparison of whole keys, column by column. */
  function KeyCmp(a: seq<Field>, b: seq<Field>): (c: int)
    ensures -1 <= c <= 1
    ensures c == 0 <==> a == b
  {
    if a == [] then (if b == [] then 0 else -1)
    else if b == [] then 1
    else
      var h := FieldCmp(a[0], b[0]);
      if h != 0 then h
      else
        var c := KeyCmp(a[1..], b[1..]);
        assert c == 0 ==> a == [a[0]] + a[1..] == [b[0]] + b[1..] == b;
        c
  }

  /** `a` may stand before `b` in the sorted table. */
  predicate KeyLe(a: seq<Field>, b: seq<Field>) {
    KeyCmp(a, b) <= 0
  }

  lemma {:induction false} StrCmpFlip(a: string, b: string)
    ensures StrCmp(a, b) == -StrCmp(b, a)
  {
    if a != [] && b != [] && a[0] == b[0] {
      StrCmpFlip(a[1..], b[1..]);
    }
  }

  lemma {:induction false} StrCmpTrans(a: string, b: string, c: string)
    requires StrCmp(a, b) < 0 && StrCmp(b, c) < 0
    ensures StrCmp(a, c) < 0
  {
    if a != [] && b != [] && c != [] && a[0] == b[0] == c[0] {
      StrCmpTrans(a[1..], b[1..], c[1..]);
    }
  }

  lemma FieldCmpFlip(a: Field, b: Field)
    ensures FieldCmp(a, b) == -FieldCmp(b, a)
  {
    if a.Str? && b.Str? {
      StrCmpFlip(a.s, b.s);
    }
  }

  lemma FieldCmpTrans(a: Field, b: Field, c: Field)
    requires FieldCmp(a, b) < 0 && FieldCmp(b, c) < 0
    ensures FieldCmp(a, c) < 0
  {
    if a.Str? && b.Str? && c.Str? {
      StrCmpTrans(a.s, b.s, c.s);
    }
  }

  lemma {:induction false} KeyCmpFlip(a: seq<Field>, b: seq<Field>)
    ensures KeyCmp(a, b) == -KeyCmp(b, a)
  {
    if a != [] && b != [] {
      FieldCmpFlip(a[0], b[0]);
      KeyCmpFlip(a[1..], b[1..]);
    }
  }

  lemma {:induction false} KeyCmpTrans(a: seq<Field>, b: seq<Field>, c: seq<Field>)
    requires KeyCmp(a, b) < 0 && KeyCmp(b, c) < 0
    ensures KeyCmp(a, c) < 0
  {
    if a != [] && b != [] && c != [] {
      if FieldCmp(a[0], b[0]) < 0 && FieldCmp(b[0], c[0]) < 0 {
        FieldCmpTrans(a[0], b[0], c[0]);
      } else if a[0] == b[0] == c[0] {
        KeyCmpTrans(a[1..], b[1..], c[1..]);
      }
    }
  }

  /** Any two keys are comparable. */
  lemma KeyLeTotal(a: seq<Field>, b: seq<Field>)
    ensures KeyLe(a, b) || KeyLe(b, a)
  {
    KeyCmpFlip(a, b);
  }

  lemma KeyLeTrans(a: seq<Field>, b: seq<Field>, c: seq<Field>)
    requires KeyLe(a, b) && KeyLe(b, c)
    ensures KeyLe(a, c)
  {
    if a != b && b != c {
      KeyCmpTrans(a, b, c);
    }
  }

  /** Keys that are each at most the other are the same key. */
  lemma KeyLeAntisymmetric(a: seq<Field>, b: seq<Field>)
    requires KeyLe(a, b) && KeyLe(b, a)
    ensures a == b
  {
    KeyCmpFlip(a, b);
  }

  /** Two keys with different first cells are ordered by those cells alone. */
  lemma KeyLeFirst(x: Field, a: seq<Field>, y: Field, b: seq<Field>)
    requires KeyLe([x] + a, [y] + b)
    ensures FieldCmp(x, y) <= 0
  {
    assert ([x] + a)[0] == x && ([y] + b)[0] == y;
  }
  /** Date `a` sorts strictly before date `b`: an earlier day, or any day before a missing date. */
  predicate EarlierDate(a: Option<int>, b: Option<int>) {
    a != None && (b == None || a.value < b.value)
  }

  lemma DateCmpMeaning(a: Option<int>, b: Option<int>)
    ensures FieldCmp(Date(a), Date(b)) < 0 <==> EarlierDate(a, b)
  {
  }

  /** Three-column keys: the first column decides, then the second on a tie, then the third. */
  lemma ThreeColumns(x1: Field, x2: Field, x3: Field, y1: Field, y2: Field, y3: Field)
    ensures KeyLe([x1, x2, x3], [y1, y2, y3]) <==>
      FieldCmp(x1, y1) < 0 ||
      (x1 == y1 && (FieldCmp(x2, y2) < 0 || (x2 == y2 && FieldCmp(x3, y3) <= 0)))
  {
    assert [x1, x2, x3][1..] == [x2, x3] && [y1, y2, y3][1..] == [y2, y3];
    assert [x2, x3][1..] == [x3] && [y2, y3][1..] == [y3];
    assert [x3][1..] == [] && [y3][1..] == [];
    assert KeyCmp([x3], [y3]) == FieldCmp(x3, y3);
    var h2 := FieldCmp(x2, y2);
    assert KeyCmp([x2, x3], [y2, y3]) == if h2 != 0 then h2 else FieldCmp(x3, y3);
    var h1 := FieldCmp(x1, y1);
    assert KeyCmp([x1, x2, x3], [y1, y2, y3]) == if h1 != 0 then h1 else KeyCmp([x2, x3], [y2, y3]);
  }
}
