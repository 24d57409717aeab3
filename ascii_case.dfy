/** Python's `str.capitalize` on ASCII letters. */
module AsciiCase {
  predicate IsUpper(c: char) {
    'A' <= c <= 'Z'
  }

  predicate IsLower(c: char) {
    'a' <= c <= 'z'
  }

  function ToUpper(c: char): char {
    if IsLower(c) then (c as int - 32) as char else c
  }

  function ToLower(c: char): char {
    if IsUpper(c) then (c as int + 32) as char else c
  }

  /** `str.lower`: the same letters, ignoring case, and no upper-case letter left. */
  function LowerAll(s: string): (r: string)
    ensures |r| == |s|
    ensures forall i :: 0 <= i < |r| ==> !IsUpper(r[i]) && ToLower(r[i]) == ToLower(s[i])
  {
    seq(|s|, i requires 0 <= i < |s| => ToLower(s[i]))
  }

  /** Lower-casing a lower-cased string changes nothing. */
  lemma LowerAllIdempotent(s: string)
    ensures LowerAll(LowerAll(s)) == LowerAll(s)
  {
  }

  /**
   * `str.capitalize`: the same letters, ignoring case, with no lower-case
   * letter in front and no upper-case letter after it.
   */
  function Capitalize(s: string): (r: string)
    ensures |r| == |s|
    ensures |r| > 0 ==> !IsLower(r[0])
    ensures forall i :: 1 <= i < |r| ==> !IsUpper(r[i])
    ensures forall i :: 0 <= i < |r| ==> ToLower(r[i]) == ToLower(s[i])
  {
    if s == [] then [] else [ToUpper(s[0])] + LowerAll(s[1..])
  }

  /** Capitalizing a capitalized string changes nothing. */
  lemma CapitalizeIdempotent(s: string)
    ensures Capitalize(Capitalize(s)) == Capitalize(s)
  {
    var c := Capitalize(s);
    if s != [] {
      assert c[1..] == LowerAll(s[1..]);
      assert LowerAll(c[1..]) == c[1..];
    }
  }
}
