/**
 * Why one level of expansion per role is the right budget. A rule set whose
 * expansion does not finish within `|roles|` levels references a chain of
 * `|roles| + 1` roles, each naming the next; some role repeats on it, and the
 * stretch between the repetitions is a reference cycle. Together with
 * `CycleNeverBounded`, the budget fails exactly when the unguarded recursion
 * would never return.
 */
module RoleCycles {
  import opened CaseFold
  import opened Rules
  import opened Resolution

  /** `ks` is a chain of known roles, `rs[i]` being the rule of role `ks[i]` that references `ks[i + 1]`. */
  predicate Path(roles: RoleTable, ks: seq<Key>, rs: seq<string>)
  {
    && |rs| + 1 == |ks|
    && (forall i :: 0 <= i < |ks| ==> ks[i] in roles)
    && forall i :: 0 <= i < |rs| ==>
         rs[i] in roles[ks[i]] && KnownRole(roles, rs[i]) && RoleOf(roles, rs[i]) == ks[i + 1]
  }

  /** The table has no reference cycle. */
  ghost predicate Acyclic(roles: RoleTable)
  {
    forall cycle, next :: Cyclic(roles, cycle, next) ==> cycle == {}
  }

  /** An expansion that does not finish within `fuel` levels runs along a chain of `fuel + 1` roles. */
  lemma {:induction false} UnboundedPath(roles: RoleTable, rules: set<string>, fuel: nat)
    returns (r: string, ks: seq<Key>, rs: seq<string>)
    requires !Bounded(roles, rules, fuel)
    ensures r in rules && KnownRole(roles, r)
    ensures |ks| == fuel + 1 && ks[0] == RoleOf(roles, r) && Path(roles, ks, rs)
    decreases fuel
  {
    r :| r in rules && !RuleBounded(roles, r, fuel);
    var k := RoleOf(roles, r);
    if fuel == 0 {
      ks, rs := [k], [];
    } else {
      var r', ks', rs' := UnboundedPath(roles, roles[k], fuel - 1);
      ks, rs := [k] + ks', [r'] + rs';
      PathCons(roles, k, r', ks', rs');
    }
  }

  /** A chain extends backwards by a role whose rule references the chain's first role. */
  lemma PathCons(roles: RoleTable, k: Key, r: string, ks: seq<Key>, rs: seq<string>)
    requires Path(roles, ks, rs) && k in roles
    requires r in roles[k] && KnownRole(roles, r) && RoleOf(roles, r) == ks[0]
    ensures Path(roles, [k] + ks, [r] + rs)
  {
    var ks2, rs2 := [k] + ks, [r] + rs;
    forall i | 0 < i < |ks2| ensures ks2[i] in roles {
      assert ks2[i] == ks[i - 1];
    }
    forall i | 0 < i < |rs2|
      ensures rs2[i] in roles[ks2[i]] && KnownRole(roles, rs2[i]) && RoleOf(roles, rs2[i]) == ks2[i + 1]
    {
      assert rs2[i] == rs[i - 1] && ks2[i] == ks[i - 1] && ks2[i + 1] == ks[i];
    }
  }

  /** A chain longer than the set it is drawn from repeats an element. */
  lemma {:induction false} Pigeonhole(ks: seq<Key>, keys: set<Key>) returns (i: nat, j: nat)
    requires forall m :: 0 <= m < |ks| ==> ks[m] in keys
    requires |ks| > |keys|
    ensures i < j < |ks| && ks[i] == ks[j]
    decreases |ks|
  {
    if m :| 0 < m < |ks| && ks[m] == ks[0] {
      i, j := 0, m;
    } else {
      var tail := ks[1..];
      forall m | 0 <= m < |tail| ensures tail[m] in keys - {ks[0]} {
        assert tail[m] == ks[m + 1];
      }
      var i', j' := Pigeonhole(tail, keys - {ks[0]});
      i, j := i' + 1, j' + 1;
    }
  }

  /** For each role on the stretch `ks[lo..hi]`, the rule of its last occurrence there. */
  function NextOnPath(ks: seq<Key>, rs: seq<string>, lo: nat, hi: nat): (next: map<Key, string>)
    requires lo <= hi <= |rs| < |ks|
    ensures next.Keys == set m | lo <= m < hi :: ks[m]
    ensures forall k :: k in next ==> exists m :: lo <= m < hi && ks[m] == k && next[k] == rs[m]
    decreases hi - lo
  {
    if lo == hi then map[]
    else NextOnPath(ks, rs, lo + 1, hi)[ks[lo] := rs[lo]]
  }

  /** The roles on the stretch `ks[lo..hi]`. */
  function Stretch(ks: seq<Key>, lo: nat, hi: nat): set<Key>
    requires lo <= hi <= |ks|
  {
    set m | lo <= m < hi :: ks[m]
  }

  /** The stretch between two occurrences of a role on a chain is a cycle. */
  lemma CycleOnPath(roles: RoleTable, ks: seq<Key>, rs: seq<string>, i: nat, j: nat)
    requires Path(roles, ks, rs) && i < j < |ks| && ks[i] == ks[j]
    ensures Cyclic(roles, Stretch(ks, i, j), NextOnPath(ks, rs, i, j))
  {
    var cycle := Stretch(ks, i, j);
    var next := NextOnPath(ks, rs, i, j);
    assert cycle == next.Keys;
    forall k | k in cycle ensures k in roles {
      var m :| i <= m < j && ks[m] == k;
    }
    forall k | k in cycle
      ensures next[k] in roles[k] && KnownRole(roles, next[k]) && RoleOf(roles, next[k]) in cycle
    {
      var m :| i <= m < j && ks[m] == k && next[k] == rs[m];
      StepStaysOnStretch(roles, ks, rs, i, j, m);
    }
  }

  /** The reference out of any role of the stretch leads back into the stretch. */
  lemma StepStaysOnStretch(roles: RoleTable, ks: seq<Key>, rs: seq<string>, i: nat, j: nat, m: nat)
    requires Path(roles, ks, rs) && i <= m < j < |ks| && ks[i] == ks[j]
    ensures rs[m] in roles[ks[m]] && KnownRole(roles, rs[m]) && RoleOf(roles, rs[m]) in Stretch(ks, i, j)
  {
    if m + 1 < j {
      assert ks[m + 1] in Stretch(ks, i, j);
    } else {
      assert ks[i] in Stretch(ks, i, j);
    }
  }

  /** Some rule of `rules` starts a chain of role references that ends at role `k`. */
  ghost predicate Reaches(roles: RoleTable, rules: set<string>, k: Key)
  {
    exists r, ks, rs :: r in rules && ReachChain(roles, r, ks, rs, k)
  }

  /** `r` references the first role of the chain `ks`, and the chain ends at `k`. */
  predicate ReachChain(roles: RoleTable, r: string, ks: seq<Key>, rs: seq<string>, k: Key)
  {
    && KnownRole(roles, r) && Path(roles, ks, rs)
    && ks[0] == RoleOf(roles, r) && ks[|ks| - 1] == k
  }

  /** A prefix of a chain is a chain. */
  lemma PathPrefix(roles: RoleTable, ks: seq<Key>, rs: seq<string>, n: nat)
    requires Path(roles, ks, rs) && n < |ks|
    ensures Path(roles, ks[..n + 1], rs[..n])
  {
    var ks2, rs2 := ks[..n + 1], rs[..n];
    forall m | 0 <= m < |rs2|
      ensures rs2[m] in roles[ks2[m]] && KnownRole(roles, rs2[m]) && RoleOf(roles, rs2[m]) == ks2[m + 1]
    {
      assert rs2[m] == rs[m] && ks2[m] == ks[m] && ks2[m + 1] == ks[m + 1];
    }
  }

  /** `k` lies on the cycle and `rules` reach it. */
  ghost predicate ReachedCycle(roles: RoleTable, rules: set<string>, cycle: set<Key>, next: map<Key, string>, k: Key)
  {
    Cyclic(roles, cycle, next) && k in cycle && Reaches(roles, rules, k)
  }

  /** Expansion that outlasts one level per role has run into a cycle that its rules reach. */
  lemma UnboundedHasCycle(roles: RoleTable, rules: set<string>)
    requires !Bounded(roles, rules, |roles|)
    ensures exists cycle, next, k :: ReachedCycle(roles, rules, cycle, next, k)
  {
    var r, ks, rs := UnboundedPath(roles, rules, |roles|);
    var i, j := Pigeonhole(ks, roles.Keys);
    CycleOnPath(roles, ks, rs, i, j);
    assert ks[i] in Stretch(ks, i, j);
    PathReaches(roles, rules, r, ks, rs, i);
    assert ReachedCycle(roles, rules, Stretch(ks, i, j), NextOnPath(ks, rs, i, j), ks[i]);
  }

  /** A rule set reaches every role along a chain that one of its rules starts. */
  lemma PathReaches(roles: RoleTable, rules: set<string>, r: string, ks: seq<Key>, rs: seq<string>, i: nat)
    requires r in rules && KnownRole(roles, r) && Path(roles, ks, rs) && ks[0] == RoleOf(roles, r) && i < |ks|
    ensures Reaches(roles, rules, ks[i])
  {
    PathPrefix(roles, ks, rs, i);
    assert ReachChain(roles, r, ks[..i + 1], rs[..i], ks[i]);
  }

  /** Every role on a chain that ends on a cycle has rules that never finish expanding. */
  lemma {:induction false} OnPathNeverBounded(roles: RoleTable, ks: seq<Key>, rs: seq<string>, m: nat,
                                             cycle: set<Key>, next: map<Key, string>, fuel: nat)
    requires Path(roles, ks, rs) && m < |ks|
    requires Cyclic(roles, cycle, next) && ks[|ks| - 1] in cycle
    ensures !Bounded(roles, roles[ks[m]], fuel)
    decreases |ks| - m
  {
    if m == |ks| - 1 {
      CycleNeverBounded(roles, cycle, next, ks[m], fuel);
    } else {
      if fuel > 0 {
        OnPathNeverBounded(roles, ks, rs, m + 1, cycle, next, fuel - 1);
      }
      KnownRuleBounded(roles, rs[m], fuel);
      assert rs[m] in roles[ks[m]] && !RuleBounded(roles, rs[m], fuel);
    }
  }

  /** A rule set that reaches a role on a cycle, directly or through other roles, never finishes expanding. */
  lemma ReachedCycleNeverBounded(roles: RoleTable, rules: set<string>, cycle: set<Key>, next: map<Key, string>,
                                 k: Key, fuel: nat)
    requires Cyclic(roles, cycle, next) && k in cycle && Reaches(roles, rules, k)
    ensures !Bounded(roles, rules, fuel)
  {
    var r, ks, rs :| r in rules && ReachChain(roles, r, ks, rs, k);
    if fuel > 0 {
      OnPathNeverBounded(roles, ks, rs, 0, cycle, next, fuel - 1);
    }
    KnownRuleBounded(roles, r, fuel);
    assert !RuleBounded(roles, r, fuel);
  }

  /** One level of expansion per role is enough for every rule set whose expansion finishes at all. */
  lemma BoundedAtRoleCount(roles: RoleTable, rules: set<string>, fuel: nat)
    requires Bounded(roles, rules, fuel)
    ensures Bounded(roles, rules, |roles|)
  {
    if !Bounded(roles, rules, |roles|) {
      UnboundedHasCycle(roles, rules);
      var cycle, next, k :| ReachedCycle(roles, rules, cycle, next, k);
      ReachedCycleNeverBounded(roles, rules, cycle, next, k, fuel);
    }
  }

  /** Without reference cycles, one level of expansion per role finishes every rule set. */
  lemma AcyclicBounded(roles: RoleTable, rules: set<string>)
    requires Acyclic(roles)
    ensures Bounded(roles, rules, |roles|)
  {
    if !Bounded(roles, rules, |roles|) {
      UnboundedHasCycle(roles, rules);
    }
  }
}
