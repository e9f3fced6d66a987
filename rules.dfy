/**
 * The grammar of one permission rule. A rule is blank (skipped), a denial
 * `!pattern`, a role reference `@role`, or a direct pattern. The markers are
 * single characters that are stripped by dropping the first character.
 */
module Rules {

  const DenyOperator: char := '!'
  const RolesOperator: char := '@'
  const WildCardOperator: char := '*'
  const SeparatorOperator: char := ':'

  /** `char.IsWhiteSpace`: the Unicode White_Space characters. */
  predicate IsWhiteSpace(c: char)
  {
    var n := c as int;
    || 0x09 <= n <= 0x0D
    || n == 0x20 || n == 0x85 || n == 0xA0 || n == 0x1680
    || 0x2000 <= n <= 0x200A
    || n == 0x2028 || n == 0x2029 || n == 0x202F || n == 0x205F || n == 0x3000
  }

  /** `string.IsNullOrWhiteSpace`: empty, or white space only. */
  predicate IsBlank(rule: string)
  {
    forall i :: 0 <= i < |rule| ==> IsWhiteSpace(rule[i])
  }

  datatype Rule =
    | Blank
    | Deny(pattern: string)
    | Inherit(role: string)
    | Grant(pattern: string)

  /** Which branch of the resolver a raw rule takes, tried in the source's order. */
  function Classify(rule: string): (r: Rule)
    ensures r.Blank? <==> IsBlank(rule)
    ensures r.Deny? <==> !IsBlank(rule) && rule[0] == DenyOperator
    ensures r.Inherit? <==> !IsBlank(rule) && rule[0] == RolesOperator
    ensures r.Deny? ==> r.pattern == rule[1..]
    ensures r.Inherit? ==> r.role == rule[1..]
    ensures r.Grant? ==> r.pattern == rule
  {
    if IsBlank(rule) then Blank
    else if rule[0] == DenyOperator then Deny(rule[1..])
    else if rule[0] == RolesOperator then Inherit(rule[1..])
    else Grant(rule)
  }

  /** The raw text of a rule; blank rules are written as the empty string. */
  function Render(r: Rule): string
  {
    match r
    case Blank => ""
    case Deny(p) => [DenyOperator] + p
    case Inherit(n) => [RolesOperator] + n
    case Grant(p) => p
  }

  /** Every non-blank rule is the rendering of its classification. */
  lemma RenderClassify(rule: string)
    requires !IsBlank(rule)
    ensures Render(Classify(rule)) == rule
  {
    assert rule == [rule[0]] + rule[1..];
  }

  /** A marked rule is classified by its marker, whatever follows the marker. */
  lemma ClassifyRender(r: Rule)
    requires r.Grant? ==> !IsBlank(r.pattern) && r.pattern[0] != DenyOperator && r.pattern[0] != RolesOperator
    ensures !r.Blank? ==> Classify(Render(r)) == r
    ensures r.Blank? ==> Classify(Render(r)).Blank?
  {
    match r
    case Blank =>
    case Deny(p) =>
      assert !IsWhiteSpace(Render(r)[0]);
      assert Render(r)[1..] == p;
    case Inherit(n) =>
      assert !IsWhiteSpace(Render(r)[0]);
      assert Render(r)[1..] == n;
    case Grant(p) =>
  }
}
