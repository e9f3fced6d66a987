/**
 * Worked examples of the matcher and the resolver on small tables, over the
 * universe keys (upper-case, the folded form).
 */
module Scenarios {
  import opened CaseFold
  import opened Segments
  import opened Rules
  import opened Wildcard
  import opened Resolution

  /** `A:*` selects `A:B` and also the deeper `A:B:C`: a pattern is a prefix. */
  lemma PrefixSelectsDeeper()
    ensures WildcardMatches("A:B:C", ["A", "*"])
    ensures WildcardMatches("A:B", ["A", "*"])
  {
    SplitSome("A", "B");
    SplitThree();
  }

  /** `A:B:*` selects `A:B:C` but neither the shorter `A:B` nor the sibling `A:D`. */
  lemma PrefixNeedsEverySegment()
    ensures !WildcardMatches("A:B", ["A", "B", "*"])
    ensures WildcardMatches("A:B:C", ["A", "B", "*"])
    ensures !WildcardMatches("A:D", ["A", "B", "*"])
  {
    SplitSome("A", "B");
    SplitSome("A", "D");
    SplitThree();
  }

  /** The segments of `A:B:C`. */
  lemma SplitThree()
    ensures Split("A:B:C", ':') == ["A", "B", "C"]
  {
    assert "A:B:C" == "A" + [':'] + "B:C";
    SplitConcat("A", ':', "B:C");
    SplitSome("B", "C");
    SplitWithoutSeparator("A", ':');
  }

  /** Splitting two separator-free words joined by `:`. */
  lemma SplitSome(a: string, b: string)
    requires ':' !in a && ':' !in b
    ensures Split(a + ":" + b, ':') == [a, b]
  {
    SplitConcat(a, ':', b);
    SplitWithoutSeparator(a, ':');
    SplitWithoutSeparator(b, ':');
  }

  /** A segment like `B*` is compared literally: `A:B*` does not select `A:BC`. */
  lemma StarInsideSegmentIsLiteral()
    ensures !WildcardMatches("A:BC", ["A", "B*"])
  {
    SplitSome("A", "BC");
    var segs := Split("A:BC", ':');
    assert segs[1] == "BC";
    assert "B*" != "*";
    assert Norm("B*")[1] == '*' && Norm("BC")[1] == 'C';
    assert !EqualsIgnoreCase("B*", segs[1]);
  }

  /**
   * Role `Mod` grants `System:Kick`; an admin with `@Mod`, `System:Ban` and
   * `!System:Kick` resolves to `System:Ban` only: the denial removes what the
   * role granted.
   */
  lemma DenyOverridesRole(universe: set<Key>, roles: RoleTable)
    requires universe == {"SYSTEM:KICK", "SYSTEM:BAN"} && roles == map["MOD" := {"System:Kick"}]
    ensures Bounded(roles, {"@Mod", "System:Ban", "!System:Kick"}, 1)
    ensures Resolve(roles, universe, {"@Mod", "System:Ban", "!System:Kick"}, 1) == {"SYSTEM:BAN"}
  {
    ScenarioBounded(roles);
    BanSurvives(universe, roles);
    KickDenied(universe, roles);
  }

  /** The scenario's rules expand within one level: `Mod` holds only a direct rule. */
  lemma ScenarioBounded(roles: RoleTable)
    requires roles == map["MOD" := {"System:Kick"}]
    ensures Bounded(roles, {"@Mod", "System:Ban", "!System:Kick"}, 1)
  {
    ScenarioRules();
    assert Bounded(roles, {"System:Kick"}, 0);
  }

  /** `System:Ban` is granted directly and no denial of the scenario names it. */
  lemma BanSurvives(universe: set<Key>, roles: RoleTable)
    requires universe == {"SYSTEM:KICK", "SYSTEM:BAN"} && roles == map["MOD" := {"System:Kick"}]
    requires Bounded(roles, {"@Mod", "System:Ban", "!System:Kick"}, 1)
    ensures "SYSTEM:BAN" in Resolve(roles, universe, {"@Mod", "System:Ban", "!System:Kick"}, 1)
  {
    BanGranted(universe);
    NoDenialOfBan();
    DirectGrantSurvives(roles, universe, {"@Mod", "System:Ban", "!System:Kick"}, 1, "System:Ban", "SYSTEM:BAN");
  }

  /** `System:Ban` is a direct rule of the scenario and selects `SYSTEM:BAN`. */
  lemma BanGranted(universe: set<Key>)
    requires universe == {"SYSTEM:KICK", "SYSTEM:BAN"}
    ensures "System:Ban" in {"@Mod", "System:Ban", "!System:Kick"} && Classify("System:Ban").Grant?
    ensures "SYSTEM:BAN" in Match(Classify("System:Ban").pattern, universe)
  {
    LeadingLetter("System:Ban");
    FoldNames();
    MatchLiteral("System:Ban", universe);
  }

  /** The one denial of the scenario does not select `SYSTEM:BAN`. */
  lemma NoDenialOfBan()
    ensures forall r :: r in {"@Mod", "System:Ban", "!System:Kick"} && Classify(r).Deny? ==>
      !Matches(Classify(r).pattern, "SYSTEM:BAN")
  {
    ScenarioRules();
    forall r | r in {"@Mod", "System:Ban", "!System:Kick"} && Classify(r).Deny?
      ensures !Matches(Classify(r).pattern, "SYSTEM:BAN")
    {
      assert r == "!System:Kick";
      assert Norm("System:Kick") != "SYSTEM:BAN" by {
        assert Norm("System:Kick")[7] == 'K';
      }
    }
  }

  /** `!System:Kick` removes the kick permission, whichever rule granted it. */
  lemma KickDenied(universe: set<Key>, roles: RoleTable)
    requires universe == {"SYSTEM:KICK", "SYSTEM:BAN"} && roles == map["MOD" := {"System:Kick"}]
    requires Bounded(roles, {"@Mod", "System:Ban", "!System:Kick"}, 1)
    ensures "SYSTEM:KICK" !in Resolve(roles, universe, {"@Mod", "System:Ban", "!System:Kick"}, 1)
  {
    ScenarioRules();
    MatchLiteral("System:Kick", universe);
    DenyWins(roles, universe, {"@Mod", "System:Ban", "!System:Kick"}, 1, "!System:Kick");
  }

  /** A role `A` whose only rule is `@A` forms a cycle, so a rule set naming it never finishes expanding. */
  lemma SelfReference(fuel: nat)
    ensures Cyclic(map["A" := {"@A"}], {"A"}, map["A" := "@A"])
    ensures !Bounded(map["A" := {"@A"}], {"@A"}, fuel)
  {
    var roles: RoleTable := map["A" := {"@A"}];
    assert [RolesOperator] + "A" == "@A";
    ClassifyRender(Inherit("A"));
    assert Norm("A") == "A";
    ReachesCycle(roles, {"A"}, map["A" := "@A"], {"@A"}, fuel, "A");
  }

  /** How the rules of the scenario classify, and the keys of their names. */
  lemma ScenarioRules()
    ensures Classify("@Mod") == Inherit("Mod") && Norm("Mod") == "MOD"
    ensures Classify("!System:Kick") == Deny("System:Kick")
    ensures Classify("System:Ban") == Grant("System:Ban") && Norm("System:Ban") == "SYSTEM:BAN"
    ensures Classify("System:Kick") == Grant("System:Kick") && Norm("System:Kick") == "SYSTEM:KICK"
    ensures WildCardOperator !in "System:Ban" && WildCardOperator !in "System:Kick"
  {
    ClassifyMarked();
    LeadingLetter("System:Ban");
    LeadingLetter("System:Kick");
    FoldNames();
  }

  /** The two marked rules of the scenario classify by their markers. */
  lemma ClassifyMarked()
    ensures Classify("@Mod") == Inherit("Mod") && Norm("Mod") == "MOD"
    ensures Classify("!System:Kick") == Deny("System:Kick")
  {
    assert [RolesOperator] + "Mod" == "@Mod";
    ClassifyRender(Inherit("Mod"));
    assert [DenyOperator] + "System:Kick" == "!System:Kick";
    ClassifyRender(Deny("System:Kick"));
  }

  /** The keys of the scenario's two permissions. */
  lemma FoldNames()
    ensures Norm("System:Ban") == "SYSTEM:BAN" && Norm("System:Kick") == "SYSTEM:KICK"
  {
    FoldPermission("Ban", "BAN");
    assert "System:" + "Ban" == "System:Ban";
    FoldPermission("Kick", "KICK");
    assert "System:" + "Kick" == "System:Kick";
  }

  /** `System:<name>` folds to `SYSTEM:<upper>` when `name` folds to `upper`. */
  lemma FoldPermission(name: string, upper: string)
    requires Norm(name) == upper
    ensures Norm("System:" + name) == "SYSTEM:" + upper
  {
    assert Norm("System:") == "SYSTEM:";
    NormConcat("System:", name);
  }

  /** A rule that starts with a letter is a direct rule. */
  lemma LeadingLetter(rule: string)
    requires |rule| > 0 && 'A' <= rule[0] <= 'Z'
    ensures Classify(rule) == Grant(rule)
  {
    assert !IsWhiteSpace(rule[0]);
  }

  /** Folding works character by character, so it distributes over concatenation. */
  lemma NormConcat(a: string, b: string)
    ensures Norm(a + b) == Norm(a) + Norm(b)
  {
  }
}
