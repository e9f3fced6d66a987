/**
 * Case-insensitive comparison (`StringComparer.OrdinalIgnoreCase`).
 * Every case-insensitive set and dictionary of the admin manager is modelled
 * as a collection of `Key`s: strings already in folded form, so that two
 * strings that compare equal ignoring case are the same key.
 */
module CaseFold {

  /** Folds one character to upper case; only ASCII letters are folded. */
  function FoldChar(c: char): (d: char)
    ensures 'a' <= c <= 'z' ==> d as int == c as int - 32
    ensures !('a' <= c <= 'z') ==> d == c
  {
    if 'a' <= c <= 'z' then (c as int - 32) as char else c
  }

  /** The folded form of a string: the representative of its case-insensitive class. */
  function Norm(s: string): (r: string)
    ensures |r| == |s|
    ensures forall i :: 0 <= i < |s| ==> r[i] == FoldChar(s[i])
  {
    seq(|s|, i requires 0 <= i < |s| => FoldChar(s[i]))
  }

  /** A string in folded form: what a case-insensitive collection stores. */
  type Key = s: string | Norm(s) == s

  /** Folding a string yields a key, so folding twice changes nothing. */
  lemma NormIsKey(s: string)
    ensures Norm(Norm(s)) == Norm(s)
  {
    var n := Norm(s);
    forall i | 0 <= i < |n| ensures Norm(n)[i] == n[i] {
      assert n[i] == FoldChar(s[i]);
    }
  }

  function ToKey(s: string): (k: Key)
    ensures k == Norm(s)
  {
    NormIsKey(s);
    Norm(s)
  }

  /** Two strings are equal ignoring case exactly when they fold to the same key. */
  predicate EqualsIgnoreCase(a: string, b: string)
  {
    Norm(a) == Norm(b)
  }
}
