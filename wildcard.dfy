/**
 * The wildcard matcher: which concrete permissions of the universe a pattern
 * selects. A pattern without `*` is an exact (case-insensitive) lookup. A
 * pattern containing `*` anywhere is split on `:`; it selects a permission
 * when it has no more segments than the permission and each of its segments
 * is the lone `*` or equals the permission's segment at the same position
 * ignoring case. Trailing permission segments are unconstrained (prefix
 * matching), and a segment such as `B*` is compared literally.
 */
module Wildcard {
  import opened CaseFold
  import opened Segments
  import opened Rules

  /** The segment-wise prefix test between split pattern and split permission. */
  predicate SegmentsMatch(patternSegments: seq<string>, permissionSegments: seq<string>)
  {
    && |patternSegments| <= |permissionSegments|
    && forall i :: 0 <= i < |patternSegments| ==>
         patternSegments[i] == "*" || EqualsIgnoreCase(patternSegments[i], permissionSegments[i])
  }

  /** Whether a permission matches an already split pattern. */
  predicate WildcardMatches(permission: string, patternSegments: seq<string>)
  {
    SegmentsMatch(patternSegments, Split(permission, SeparatorOperator))
  }

  /** Whether one concrete permission is selected by a pattern. */
  predicate Matches(pattern: string, permission: Key)
  {
    if WildCardOperator !in pattern then Norm(pattern) == permission
    else WildcardMatches(permission, Split(pattern, SeparatorOperator))
  }

  /** The permissions of the universe a pattern selects. */
  function Match(pattern: string, universe: set<Key>): (r: set<Key>)
    ensures r <= universe
  {
    set p | p in universe && Matches(pattern, p)
  }

  /** A pattern without `*` selects exactly its own key when that is in the universe, and nothing otherwise. */
  lemma MatchLiteral(pattern: string, universe: set<Key>)
    requires WildCardOperator !in pattern
    ensures Match(pattern, universe) == if Norm(pattern) in universe then {Norm(pattern)} else {}
  {
  }

  /** The lone `*` selects the whole universe, every permission having at least one segment. */
  lemma MatchGlobal(universe: set<Key>)
    ensures Match("*", universe) == universe
  {
    SplitWithoutSeparator("*", SeparatorOperator);
    forall p | p in universe ensures Matches("*", p) {
      assert |Split(p, SeparatorOperator)| >= 1;
    }
  }

  /** A pattern with more segments than the permission never matches it. */
  lemma TooManySegments(permission: string, patternSegments: seq<string>)
    requires |patternSegments| > |Split(permission, SeparatorOperator)|
    ensures !WildcardMatches(permission, patternSegments)
  {
  }

  /** A match survives appending segments to the permission: the pattern is a prefix filter. */
  lemma TrailingSegmentsFree(permission: string, extra: string, patternSegments: seq<string>)
    requires WildcardMatches(permission, patternSegments)
    ensures WildcardMatches(permission + [SeparatorOperator] + extra, patternSegments)
  {
    SplitConcat(permission, SeparatorOperator, extra);
    var ps := Split(permission, SeparatorOperator);
    var qs := Split(permission + [SeparatorOperator] + extra, SeparatorOperator);
    assert forall i :: 0 <= i < |ps| ==> qs[i] == ps[i];
  }
}
