/**
 * The rule resolver, stated as set algebra. A rule set resolves to
 * (everything its direct rules match, together with everything its role
 * references resolve to) minus (everything its denial rules match). Blank
 * rules and references to unknown roles contribute nothing.
 *
 * The resolver expands role references with no cycle guard. The `fuel`
 * argument counts how many nested role expansions are available; `Bounded`
 * says the expansion of a rule set finishes within it. A role cycle that the
 * expansion reaches is never bounded, whatever the fuel (the unguarded
 * recursion would not finish); with enough fuel every acyclic role table is.
 */
module Resolution {
  import opened CaseFold
  import opened Rules
  import opened Wildcard

  /** Role name (as a key) to the role's raw rules. */
  type RoleTable = map<Key, set<string>>

  /** The role a reference rule names, if the table knows it. */
  predicate KnownRole(roles: RoleTable, rule: string)
  {
    Classify(rule).Inherit? && Norm(Classify(rule).role) in roles
  }

  function RoleOf(roles: RoleTable, rule: string): (k: Key)
    requires KnownRole(roles, rule)
    ensures k in roles && k == Norm(rule[1..])
  {
    ToKey(Classify(rule).role)
  }

  /** Resolving one rule needs at most `fuel` nested role expansions. */
  predicate RuleBounded(roles: RoleTable, rule: string, fuel: nat)
    decreases fuel, 0
  {
    KnownRole(roles, rule) ==> fuel > 0 && Bounded(roles, roles[RoleOf(roles, rule)], fuel - 1)
  }

  /** Resolving a rule set needs at most `fuel` nested role expansions. */
  predicate Bounded(roles: RoleTable, rules: set<string>, fuel: nat)
    decreases fuel, 1
  {
    forall r | r in rules :: RuleBounded(roles, r, fuel)
  }

  /** What one denial rule takes away. */
  function DenyOf(universe: set<Key>, rule: string): (d: set<Key>)
    ensures d <= universe
  {
    if Classify(rule).Deny? then Match(Classify(rule).pattern, universe) else {}
  }

  /** What one direct rule or role reference grants. */
  function GrantOf(roles: RoleTable, universe: set<Key>, rule: string, fuel: nat): (g: set<Key>)
    requires RuleBounded(roles, rule, fuel)
    ensures g <= universe
    decreases fuel, 1
  {
    match Classify(rule)
    case Grant(p) => Match(p, universe)
    case Inherit(_) =>
      if KnownRole(roles, rule) then Resolve(roles, universe, roles[RoleOf(roles, rule)], fuel - 1) else {}
    case _ => {}
  }

  /** The union of what the denial rules of a set take away. */
  function Denied(universe: set<Key>, rules: set<string>): (d: set<Key>)
    ensures d <= universe
  {
    set r, p: Key | r in rules && p in DenyOf(universe, r) :: p
  }

  /** The union of what the direct rules and role references of a set grant. */
  function Granted(roles: RoleTable, universe: set<Key>, rules: set<string>, fuel: nat): (g: set<Key>)
    requires Bounded(roles, rules, fuel)
    ensures g <= universe
    decreases fuel, 2
  {
    set r, p: Key | r in rules && p in GrantOf(roles, universe, r, fuel) :: p
  }

  /** The concrete permissions a rule set resolves to: grants minus denials. */
  function Resolve(roles: RoleTable, universe: set<Key>, rules: set<string>, fuel: nat): (res: set<Key>)
    requires Bounded(roles, rules, fuel)
    ensures res <= universe
    decreases fuel, 3
  {
    Granted(roles, universe, rules, fuel) - Denied(universe, rules)
  }

  /** A permission is resolved exactly when some rule grants it and no denial rule of the same set matches it. */
  lemma ResolveMembership(roles: RoleTable, universe: set<Key>, rules: set<string>, fuel: nat, x: Key)
    requires Bounded(roles, rules, fuel)
    ensures x in Resolve(roles, universe, rules, fuel) <==>
      && (exists r :: r in rules && x in GrantOf(roles, universe, r, fuel))
      && (forall r :: r in rules && Classify(r).Deny? ==> !Matches(Classify(r).pattern, x))
  {
    if x in Resolve(roles, universe, rules, fuel) {
      assert x in Granted(roles, universe, rules, fuel);
      var r :| r in rules && x in GrantOf(roles, universe, r, fuel);
      forall d | d in rules && Classify(d).Deny? ensures !Matches(Classify(d).pattern, x) {
        assert x !in DenyOf(universe, d);
      }
    } else if x in Granted(roles, universe, rules, fuel) {
      assert x in Denied(universe, rules);
      var d :| d in rules && x in DenyOf(universe, d);
      assert Classify(d).Deny? && Matches(Classify(d).pattern, x);
    } else {
      forall r | r in rules ensures x !in GrantOf(roles, universe, r, fuel) { }
    }
  }

  /** Deny wins: nothing a denial rule matches is resolved, even when a role reference of the same set grants it. */
  lemma DenyWins(roles: RoleTable, universe: set<Key>, rules: set<string>, fuel: nat, deny: string)
    requires Bounded(roles, rules, fuel)
    requires deny in rules && Classify(deny).Deny?
    ensures Resolve(roles, universe, rules, fuel) !! Match(Classify(deny).pattern, universe)
  {
    assert Match(Classify(deny).pattern, universe) <= Denied(universe, rules) by {
      forall x | x in Match(Classify(deny).pattern, universe)
        ensures x in Denied(universe, rules)
      {
        assert x in DenyOf(universe, deny);
      }
    }
  }

  /** A direct grant survives unless a denial rule of the same set matches it; a referenced role's denials do not remove it. */
  lemma DirectGrantSurvives(roles: RoleTable, universe: set<Key>, rules: set<string>, fuel: nat, grant: string, x: Key)
    requires Bounded(roles, rules, fuel)
    requires grant in rules && Classify(grant).Grant?
    requires x in Match(Classify(grant).pattern, universe)
    requires forall r :: r in rules && Classify(r).Deny? ==> !Matches(Classify(r).pattern, x)
    ensures x in Resolve(roles, universe, rules, fuel)
  {
    assert x in GrantOf(roles, universe, grant, fuel);
    ResolveMembership(roles, universe, rules, fuel, x);
  }

  /** A reference to a known role, alone, resolves to exactly what that role resolves to. */
  lemma InheritResolvesRole(roles: RoleTable, universe: set<Key>, name: string, fuel: nat)
    requires Norm(name) in roles && fuel > 0
    requires Bounded(roles, roles[ToKey(name)], fuel - 1)
    ensures Bounded(roles, {[RolesOperator] + name}, fuel)
    ensures Resolve(roles, universe, {[RolesOperator] + name}, fuel) == Resolve(roles, universe, roles[ToKey(name)], fuel - 1)
  {
    var rule := [RolesOperator] + name;
    ClassifyRender(Inherit(name));
    assert KnownRole(roles, rule) && RoleOf(roles, rule) == ToKey(name);
    var sub := Resolve(roles, universe, roles[ToKey(name)], fuel - 1);
    assert GrantOf(roles, universe, rule, fuel) == sub;
    assert Granted(roles, universe, {rule}, fuel) == sub by {
      forall x | x in sub ensures x in Granted(roles, universe, {rule}, fuel) {
        assert x in GrantOf(roles, universe, rule, fuel);
      }
    }
    assert Denied(universe, {rule}) == {};
  }

  /** A rule that grants and denies nothing, such as a blank rule or a reference to an unknown role, changes no result. */
  lemma NeutralRuleIgnored(roles: RoleTable, universe: set<Key>, rules: set<string>, fuel: nat, rule: string)
    requires Classify(rule).Blank? || (Classify(rule).Inherit? && !KnownRole(roles, rule))
    ensures Bounded(roles, rules + {rule}, fuel) <==> Bounded(roles, rules, fuel)
    ensures Bounded(roles, rules, fuel) ==>
      Resolve(roles, universe, rules + {rule}, fuel) == Resolve(roles, universe, rules, fuel)
  {
    assert RuleBounded(roles, rule, fuel);
    if Bounded(roles, rules, fuel) {
      assert Bounded(roles, rules + {rule}, fuel);
      assert GrantOf(roles, universe, rule, fuel) == {};
      assert Granted(roles, universe, rules + {rule}, fuel) == Granted(roles, universe, rules, fuel);
      assert Denied(universe, rules + {rule}) == Denied(universe, rules);
    }
  }

  /** Rule sets combine by union on both sides, so the result does not depend on how the rules are grouped or ordered. */
  lemma ResolveUnion(roles: RoleTable, universe: set<Key>, a: set<string>, b: set<string>, fuel: nat)
    requires Bounded(roles, a, fuel) && Bounded(roles, b, fuel)
    ensures Bounded(roles, a + b, fuel)
    ensures Resolve(roles, universe, a + b, fuel) ==
      (Granted(roles, universe, a, fuel) + Granted(roles, universe, b, fuel))
        - (Denied(universe, a) + Denied(universe, b))
  {
    assert Bounded(roles, a + b, fuel);
    var G, GA, GB := Granted(roles, universe, a + b, fuel), Granted(roles, universe, a, fuel), Granted(roles, universe, b, fuel);
    assert G == GA + GB by {
      forall x | x in G ensures x in GA + GB {
        var r :| r in a + b && x in GrantOf(roles, universe, r, fuel);
      }
    }
    var D, DA, DB := Denied(universe, a + b), Denied(universe, a), Denied(universe, b);
    assert D == DA + DB by {
      forall x | x in D ensures x in DA + DB {
        var r :| r in a + b && x in DenyOf(universe, r);
      }
    }
  }

  /** More fuel never hurts and never changes the result: the fuel only decides whether expansion finishes. */
  lemma {:induction false} FuelMonotone(roles: RoleTable, universe: set<Key>, rules: set<string>, fuel: nat, more: nat)
    requires Bounded(roles, rules, fuel) && fuel <= more
    ensures Bounded(roles, rules, more)
    ensures Resolve(roles, universe, rules, more) == Resolve(roles, universe, rules, fuel)
    decreases fuel
  {
    forall r | r in rules
      ensures RuleBounded(roles, r, more)
      ensures GrantOf(roles, universe, r, more) == GrantOf(roles, universe, r, fuel)
    {
      if KnownRole(roles, r) {
        FuelMonotone(roles, universe, roles[RoleOf(roles, r)], fuel - 1, more - 1);
      }
    }
    GrantedPointwise(roles, universe, rules, fuel, more);
  }

  /** Granted depends on the fuel only through the contribution of each rule. */
  lemma GrantedPointwise(roles: RoleTable, universe: set<Key>, rules: set<string>, f: nat, g: nat)
    requires Bounded(roles, rules, f) && Bounded(roles, rules, g)
    requires forall r :: r in rules ==> GrantOf(roles, universe, r, f) == GrantOf(roles, universe, r, g)
    ensures Granted(roles, universe, rules, f) == Granted(roles, universe, rules, g)
  {
    forall x | x in Granted(roles, universe, rules, f) ensures x in Granted(roles, universe, rules, g) {
      var r :| r in rules && x in GrantOf(roles, universe, r, f);
    }
    forall x | x in Granted(roles, universe, rules, g) ensures x in Granted(roles, universe, rules, f) {
      var r :| r in rules && x in GrantOf(roles, universe, r, g);
    }
  }

  /** A rank on role names that strictly decreases along every reference between known roles: the table is acyclic. */
  predicate Ranked(roles: RoleTable, rank: map<Key, nat>)
  {
    && roles.Keys <= rank.Keys
    && forall k, r :: k in roles && r in roles[k] && KnownRole(roles, r) ==> rank[RoleOf(roles, r)] < rank[k]
  }

  /** With an acyclic table, fuel above the rank of every role a rule set references is enough. */
  lemma {:induction false} RankedBounded(roles: RoleTable, rank: map<Key, nat>, rules: set<string>, fuel: nat)
    requires Ranked(roles, rank)
    requires forall r :: r in rules && KnownRole(roles, r) ==> rank[RoleOf(roles, r)] < fuel
    ensures Bounded(roles, rules, fuel)
    decreases fuel
  {
    forall r | r in rules && KnownRole(roles, r) ensures RuleBounded(roles, r, fuel) {
      var k := RoleOf(roles, r);
      RankedBounded(roles, rank, roles[k], rank[k]);
      if rank[k] < fuel - 1 {
        FuelMonotone(roles, {}, roles[k], rank[k], fuel - 1);
      }
    }
  }

  /**
   * A reference cycle: every role of `cycle` is known and has, among its
   * rules, the reference `next[k]` to a role that is again on the cycle.
   */
  predicate Cyclic(roles: RoleTable, cycle: set<Key>, next: map<Key, string>)
  {
    && cycle <= roles.Keys
    && cycle <= next.Keys
    && forall k {:trigger next[k]} :: k in cycle ==>
         next[k] in roles[k] && KnownRole(roles, next[k]) && RoleOf(roles, next[k]) in cycle
  }

  /** No amount of fuel finishes expanding a role on a cycle. */
  lemma {:induction false} CycleNeverBounded(roles: RoleTable, cycle: set<Key>, next: map<Key, string>, k: Key, fuel: nat)
    requires Cyclic(roles, cycle, next) && k in cycle
    ensures !Bounded(roles, roles[k], fuel)
    decreases fuel
  {
    var r := next[k];
    assert r in roles[k] && KnownRole(roles, r);
    var sub := RoleOf(roles, r);
    assert sub in cycle;
    if fuel > 0 {
      CycleNeverBounded(roles, cycle, next, sub, fuel - 1);
    }
    KnownRuleBounded(roles, r, fuel);
  }

  /** A reference to a known role is bounded exactly when the role's own rules are, one level down. */
  lemma KnownRuleBounded(roles: RoleTable, rule: string, fuel: nat)
    requires KnownRole(roles, rule)
    ensures RuleBounded(roles, rule, fuel) <==>
      fuel > 0 && Bounded(roles, roles[RoleOf(roles, rule)], fuel - 1)
  {
  }

  /** A rule set that references a role on a cycle is never bounded. */
  lemma ReachesCycle(roles: RoleTable, cycle: set<Key>, next: map<Key, string>, rules: set<string>, fuel: nat, name: string)
    requires Cyclic(roles, cycle, next) && Norm(name) in cycle
    requires [RolesOperator] + name in rules
    ensures !Bounded(roles, rules, fuel)
  {
    var rule := [RolesOperator] + name;
    ClassifyRender(Inherit(name));
    if fuel > 0 {
      CycleNeverBounded(roles, cycle, next, ToKey(name), fuel - 1);
    }
    assert !RuleBounded(roles, rule, fuel);
  }

  /** Taking one more rule into account adds its grants and its denials. */
  lemma GrantedAddRule(roles: RoleTable, universe: set<Key>, done: set<string>, rule: string, fuel: nat)
    requires Bounded(roles, done, fuel) && RuleBounded(roles, rule, fuel)
    ensures Bounded(roles, done + {rule}, fuel)
    ensures Granted(roles, universe, done + {rule}, fuel) ==
      Granted(roles, universe, done, fuel) + GrantOf(roles, universe, rule, fuel)
    ensures Denied(universe, done + {rule}) == Denied(universe, done) + DenyOf(universe, rule)
  {
    assert Bounded(roles, done + {rule}, fuel);
    forall x | x in Granted(roles, universe, done + {rule}, fuel)
      ensures x in Granted(roles, universe, done, fuel) + GrantOf(roles, universe, rule, fuel)
    {
      var r :| r in done + {rule} && x in GrantOf(roles, universe, r, fuel);
    }
    forall x | x in Denied(universe, done + {rule})
      ensures x in Denied(universe, done) + DenyOf(universe, rule)
    {
      var r :| r in done + {rule} && x in DenyOf(universe, r);
    }
  }
}
