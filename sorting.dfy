/**
 * The result of pandas' `sort_values(by=[...])`: a rearrangement of the table's
 * rows whose keys never decrease.  The algorithm pandas uses internally is not
 * part of this model; a stable insertion sort stands in for it, and only its
 * result (sorted, and a permutation of the input) is relied on.
 */
module Sorting {
  import opened SortKeys

  /** The rows of `s` are in non-decreasing key order. */
  predicate SortedBy<T>(s: seq<T>, key: T -> seq<Field>) {
    forall i, j :: 0 <= i < j < |s| ==> KeyLe(key(s[i]), key(s[j]))
  }

  /** Places `x` in front of the first row whose key is not below its own. */
  function Insert<T>(x: T, s: seq<T>, key: T -> seq<Field>): (r: seq<T>)
    requires SortedBy(s, key)
    ensures multiset(r) == multiset(s) + multiset{x}
    ensures SortedBy(r, key)
  {
    if s == [] || KeyLe(key(x), key(s[0])) then
      InsertFront(x, s, key);
      [x] + s
    else
      var rest := Insert(x, s[1..], key);
      InsertBehind(x, s, rest, key);
      assert s == [s[0]] + s[1..];
      [s[0]] + rest
  }

  lemma InsertFront<T>(x: T, s: seq<T>, key: T -> seq<Field>)
    requires SortedBy(s, key)
    requires s == [] || KeyLe(key(x), key(s[0]))
    ensures SortedBy([x] + s, key)
  {
    forall j | 0 < j <= |s|
      ensures KeyLe(key(([x] + s)[0]), key(([x] + s)[j]))
    {
      if j > 1 {
        KeyLeTrans(key(x), key(s[0]), key(s[j - 1]));
      }
    }
  }

  lemma InsertBehind<T>(x: T, s: seq<T>, rest: seq<T>, key: T -> seq<Field>)
    requires SortedBy(s, key) && s != [] && !KeyLe(key(x), key(s[0]))
    requires multiset(rest) == multiset(s[1..]) + multiset{x}
    requires SortedBy(rest, key)
    ensures SortedBy([s[0]] + rest, key)
  {
    KeyLeTotal(key(x), key(s[0]));
    forall j | 0 <= j < |rest|
      ensures KeyLe(key(s[0]), key(rest[j]))
    {
      assert rest[j] in multiset(rest);
      if rest[j] != x {
        assert rest[j] in multiset(s[1..]);
        var k :| 0 <= k < |s[1..]| && s[1..][k] == rest[j];
        assert s[k + 1] == rest[j];
      }
    }
  }

  /** The rows of `s`, rearranged into non-decreasing key order. */
  function SortBy<T>(s: seq<T>, key: T -> seq<Field>): (r: seq<T>)
    ensures multiset(r) == multiset(s)
    ensures SortedBy(r, key)
  {
    if s == [] then []
    else
      assert s == [s[0]] + s[1..];
      Insert(s[0], SortBy(s[1..], key), key)
  }

  /** Three rows where the last belongs between the other two. */
  lemma SortThree<T>(x: T, y: T, z: T, key: T -> seq<Field>)
    requires KeyLe(key(z), key(y)) && !KeyLe(key(y), key(z)) && KeyLe(key(x), key(z))
    ensures SortBy([x, y, z], key) == [x, z, y]
  {
    SortTwo(y, z, key);
    SortByStep([x, y, z], key);
    assert [x, y, z][1..] == [y, z];
    InsertHead(x, [z, y], key);
  }

  lemma SortTwo<T>(y: T, z: T, key: T -> seq<Field>)
    requires !KeyLe(key(y), key(z))
    ensures SortBy([y, z], key) == [z, y]
  {
    SortOne(z, key);
    SortByStep([y, z], key);
    assert [y, z][1..] == [z];
    InsertPast(y, [z], key);
    assert [z][1..] == [];
    InsertHead(y, [], key);
  }

  lemma SortOne<T>(z: T, key: T -> seq<Field>)
    ensures SortBy([z], key) == [z]
  {
    SortByStep([z], key);
    assert [z][1..] == [];
    InsertHead(z, [], key);
  }

  lemma SortByStep<T>(s: seq<T>, key: T -> seq<Field>)
    requires s != []
    ensures SortBy(s, key) == Insert(s[0], SortBy(s[1..], key), key)
  {
  }

  lemma InsertHead<T>(x: T, s: seq<T>, key: T -> seq<Field>)
    requires SortedBy(s, key) && (s == [] || KeyLe(key(x), key(s[0])))
    ensures Insert(x, s, key) == [x] + s
  {
  }

  lemma InsertPast<T>(x: T, s: seq<T>, key: T -> seq<Field>)
    requires SortedBy(s, key) && s != [] && !KeyLe(key(x), key(s[0]))
    ensures SortedBy(s[1..], key) && Insert(x, s, key) == [s[0]] + Insert(x, s[1..], key)
  {
  }
}
