/**
 * The admin manager: loads the admin table once, keeps the resolved admins,
 * answers lookups by identity, and caches one command registry per module.
 */
module AdminManagement {
  import opened Wrappers
  import opened CaseFold
  import opened Segments
  import opened Rules
  import opened Wildcard
  import opened Resolution
  import opened Manifest
  import opened AdminTable
  import opened RoleCycles

  /** Why loading fails. */
  datatype LoadError =
    | DuplicatePermissionSet(name: string)
    | DuplicateRole(name: string)
    | UnboundedRoleExpansion(admin: string)

  /** A per-module command registry. It is created by the manager and otherwise opaque here. */
  class AdminCommandRegistry {
    const moduleIdentity: string

    constructor (moduleIdentity: string)
      ensures this.moduleIdentity == moduleIdentity
    {
      this.moduleIdentity := moduleIdentity;
    }
  }

  /** Loading succeeds exactly when the names are distinct and every admin's rules resolve. */
  predicate LoadSucceeds(m: AdminTableManifest)
  {
    && DistinctNames(m.permissionSets.Keys)
    && DistinctRoleNames(m.roles)
    && AllBounded(RoleTableOf(m.roles), m.admins, |RoleTableOf(m.roles)|)
  }

  /** Distinct names and a role table without reference cycles always load. */
  lemma AcyclicTableLoads(m: AdminTableManifest)
    requires DistinctNames(m.permissionSets.Keys) && DistinctRoleNames(m.roles)
    requires Acyclic(RoleTableOf(m.roles))
    ensures LoadSucceeds(m)
  {
    var roles := RoleTableOf(m.roles);
    forall i | 0 <= i < |m.admins| ensures Bounded(roles, m.admins[i].permissions, |roles|) {
      AcyclicBounded(roles, m.admins[i].permissions);
    }
  }

  /** Loading succeeds when the names are distinct and every admin's rules finish expanding with some fuel. */
  lemma FiniteExpansionLoads(m: AdminTableManifest, fuel: nat)
    requires DistinctNames(m.permissionSets.Keys) && DistinctRoleNames(m.roles)
    requires AllBounded(RoleTableOf(m.roles), m.admins, fuel)
    ensures LoadSucceeds(m)
  {
    var roles := RoleTableOf(m.roles);
    forall i | 0 <= i < |m.admins| ensures Bounded(roles, m.admins[i].permissions, |roles|) {
      BoundedAtRoleCount(roles, m.admins[i].permissions, fuel);
    }
  }

  /** An admin whose rules reach a role on a reference cycle, directly or through other roles, makes loading fail. */
  lemma CycleFailsLoad(m: AdminTableManifest, cycle: set<Key>, next: map<Key, string>, i: nat, k: Key)
    requires i < |m.admins| && ReachedCycle(RoleTableOf(m.roles), m.admins[i].permissions, cycle, next, k)
    ensures !LoadSucceeds(m)
  {
    var roles := RoleTableOf(m.roles);
    ReachedCycleNeverBounded(roles, m.admins[i].permissions, cycle, next, k, |roles|);
  }

  class AdminManager {
    const permissionSets: map<Key, set<string>>
    const roles: RoleTable
    const universe: set<Key>
    var admins: seq<Admin>
    var registries: map<Key, AdminCommandRegistry>

    /** Every admin holds only concrete permissions; every registry sits under its module's key. */
    ghost predicate Valid()
      reads this
    {
      && universe == UniverseOf(permissionSets, permissionSets.Keys)
      && (forall i :: 0 <= i < |admins| ==> admins[i].permissions <= universe)
      && (forall k :: k in registries ==> Norm(registries[k].moduleIdentity) == k)
    }

    constructor (permissionSets: map<Key, set<string>>, roles: RoleTable, universe: set<Key>)
      requires universe == UniverseOf(permissionSets, permissionSets.Keys)
      ensures Valid()
      ensures this.permissionSets == permissionSets && this.roles == roles && this.universe == universe
      ensures admins == [] && registries == map[]
    {
      this.permissionSets := permissionSets;
      this.roles := roles;
      this.universe := universe;
      admins := [];
      registries := map[];
    }

    /**
     * Loads a parsed manifest: the permission-set table, the role table, the
     * universe, then each admin with its rules resolved, in manifest order.
     * Role expansion gets one level per role, enough for any acyclic table.
     */
    static method Load(m: AdminTableManifest) returns (res: Result<AdminManager, LoadError>)
      ensures res.Success? <==> LoadSucceeds(m)
      ensures res.Failure? && !DistinctNames(m.permissionSets.Keys) ==> res.error.DuplicatePermissionSet?
      ensures res.Failure? && DistinctNames(m.permissionSets.Keys) && !DistinctRoleNames(m.roles) ==>
        res.error.DuplicateRole?
      ensures res.Failure? && DistinctNames(m.permissionSets.Keys) && DistinctRoleNames(m.roles) ==>
        && res.error.UnboundedRoleExpansion?
        && exists i :: FirstUnbounded(RoleTableOf(m.roles), m.admins, i) && res.error.admin == m.admins[i].name
      ensures res.Success? ==>
        var am := res.value;
        && fresh(am) && am.Valid()
        && IsKeyedBy(am.permissionSets, m.permissionSets)
        && am.universe == ManifestUniverse(m.permissionSets)
        && am.roles == RoleTableOf(m.roles)
        && am.admins == ResolvedAdmins(am.roles, am.universe, m.admins, |am.roles|)
        && am.registries == map[]
    {
      var sets :- LoadPermissionSets(m.permissionSets);
      var roles :- LoadRoles(m.roles);
      var universe := CollectUniverse(sets);
      UniverseOfKeyedTable(sets, m.permissionSets);

      var am := new AdminManager(sets, roles, universe);

      var unbounded := am.AddAdmins(m.admins);
      if unbounded.Some? {
        return Failure(UnboundedRoleExpansion(unbounded.value));
      }
      return Success(am);
    }

    /**
     * Appends each admin entry, in order, with its rules resolved; stops at
     * the first entry whose role expansion does not finish and returns its name.
     */
    method AddAdmins(entries: seq<AdminManifest>) returns (unbounded: Option<string>)
      requires admins == []
      modifies this`admins
      ensures unbounded.None? <==> AllBounded(roles, entries, |roles|)
      ensures unbounded.None? ==> admins == ResolvedAdmins(roles, universe, entries, |roles|)
      ensures unbounded.Some? ==> exists i :: FirstUnbounded(roles, entries, i) && unbounded.value == entries[i].name
    {
      for i := 0 to |entries|
        invariant AllBounded(roles, entries[..i], |roles|)
        invariant admins == ResolvedAdmins(roles, universe, entries[..i], |roles|)
      {
        var entry := entries[i];
        var resolved := ResolvePermissions(entry.permissions, |roles|);
        if resolved.None? {
          assert FirstUnbounded(roles, entries, i);
          return Some(entry.name);
        }
        assert entries[..i + 1] == entries[..i] + [entry];
        admins := admins + [Admin(entry.name, entry.identity, entry.immunity, resolved.value)];
      }
      assert entries[..|entries|] == entries;
      return None;
    }

    /** Adds each permission set to a case-insensitive table; a name repeated ignoring case fails. */
    static method LoadPermissionSets(permissionSets: map<string, set<string>>)
      returns (res: Result<map<Key, set<string>>, LoadError>)
      ensures res.Success? <==> DistinctNames(permissionSets.Keys)
      ensures res.Success? ==> IsKeyedBy(res.value, permissionSets)
      ensures res.Failure? ==> res.error.DuplicatePermissionSet? && res.error.name in permissionSets
    {
      var sets: map<Key, set<string>> := map[];
      var pending := permissionSets.Keys;
      while pending != {}
        invariant pending <= permissionSets.Keys
        invariant DistinctNames(permissionSets.Keys - pending)
        invariant sets.Keys == set name | name in permissionSets.Keys - pending :: ToKey(name)
        invariant forall name :: name in permissionSets.Keys - pending ==> sets[ToKey(name)] == permissionSets[name]
        decreases pending
      {
        var name :| name in pending;
        if Norm(name) in sets {
          var other :| other in permissionSets.Keys - pending && ToKey(other) == Norm(name);
          assert other != name;
          return Failure(DuplicatePermissionSet(name));
        }
        sets := sets[ToKey(name) := permissionSets[name]];
        pending := pending - {name};
      }
      assert permissionSets.Keys - pending == permissionSets.Keys;
      return Success(sets);
    }

    /** Adds each role, in list order, to a case-insensitive table; a name repeated ignoring case fails. */
    static method LoadRoles(roleList: seq<RoleManifest>) returns (res: Result<RoleTable, LoadError>)
      ensures res.Success? <==> DistinctRoleNames(roleList)
      ensures res.Success? ==> res.value == RoleTableOf(roleList)
      ensures res.Failure? ==> res.error.DuplicateRole?
      ensures res.Failure? ==>
        exists i, j :: 0 <= i < j < |roleList| && res.error.name == roleList[j].name
          && Norm(roleList[i].name) == Norm(roleList[j].name)
    {
      var roles: RoleTable := map[];
      for j := 0 to |roleList|
        invariant roles == RoleTableOf(roleList[..j])
        invariant DistinctRoleNames(roleList[..j])
      {
        var role := roleList[j];
        if Norm(role.name) in roles {
          var i :| 0 <= i < j && ToKey(roleList[..j][i].name) == Norm(role.name);
          assert roleList[..j][i] == roleList[i];
          return Failure(DuplicateRole(role.name));
        }
        assert roleList[..j + 1] == roleList[..j] + [role];
        roles := roles[ToKey(role.name) := role.permissions];
      }
      assert roleList[..|roleList|] == roleList;
      return Success(roles);
    }

    /** Collects the key of every permission of every set. */
    static method CollectUniverse(sets: map<Key, set<string>>) returns (universe: set<Key>)
      ensures universe == UniverseOf(sets, sets.Keys)
    {
      universe := {};
      var names := sets.Keys;
      while names != {}
        invariant names <= sets.Keys
        invariant universe == UniverseOf(sets, sets.Keys - names)
        decreases names
      {
        var name :| name in names;
        var todo := sets[name];
        ghost var before := universe;
        while todo != {}
          invariant todo <= sets[name]
          invariant universe == before + set p | p in sets[name] - todo :: ToKey(p)
          decreases todo
        {
          var p :| p in todo;
          universe := universe + {ToKey(p)};
          todo := todo - {p};
        }
        names := names - {name};
        assert sets.Keys - names == (sets.Keys - (names + {name})) + {name};
      }
      assert sets.Keys - names == sets.Keys;
    }

    /**
     * Resolves a rule set into concrete permissions; `None` when the role
     * expansion needs more than `fuel` nested levels.
     */
    method ResolvePermissions(rules: set<string>, fuel: nat) returns (resolved: Option<set<Key>>)
      ensures resolved.Some? <==> Bounded(roles, rules, fuel)
      ensures resolved.Some? ==> resolved.value == Resolve(roles, universe, rules, fuel)
      decreases fuel
    {
      var allowed: set<Key> := {};
      var denied: set<Key> := {};
      var rest := rules;
      while rest != {}
        invariant rest <= rules
        invariant Bounded(roles, rules - rest, fuel)
        invariant allowed == Granted(roles, universe, rules - rest, fuel)
        invariant denied == Denied(universe, rules - rest)
        decreases rest
      {
        var rule :| rule in rest;
        ghost var done := rules - rest;
        rest := rest - {rule};
        assert rules - rest == done + {rule};
        if IsBlank(rule) {
        } else if rule[0] == DenyOperator {
          var matched := MatchWildcard(rule[1..]);
          denied := denied + matched;
        } else if rule[0] == RolesOperator {
          var roleName := rule[1..];
          if Norm(roleName) in roles {
            if fuel == 0 {
              return None;
            }
            var roleResolved := ResolvePermissions(roles[ToKey(roleName)], fuel - 1);
            if roleResolved.None? {
              return None;
            }
            allowed := allowed + roleResolved.value;
          }
        } else {
          var matched := MatchWildcard(rule);
          allowed := allowed + matched;
        }
        GrantedAddRule(roles, universe, done, rule, fuel);
      }
      assert rules - rest == rules;
      resolved := Some(allowed - denied);
    }

    /** The concrete permissions a pattern selects. */
    method MatchWildcard(pattern: string) returns (matches: set<Key>)
      ensures matches == Match(pattern, universe)
    {
      if WildCardOperator !in pattern {
        MatchLiteral(pattern, universe);
        matches := {};
        if Norm(pattern) in universe {
          matches := {ToKey(pattern)};
        }
        return;
      }

      var patternSegments := Split(pattern, SeparatorOperator);

      if pattern == [WildCardOperator] {
        MatchGlobal(universe);
        matches := {};
        var rest := universe;
        while rest != {}
          invariant rest <= universe
          invariant matches == universe - rest
          decreases rest
        {
          var permission :| permission in rest;
          matches := matches + {permission};
          rest := rest - {permission};
        }
        return;
      }

      matches := {};
      var rest := universe;
      while rest != {}
        invariant rest <= universe
        invariant matches == set p | p in universe - rest && WildcardMatches(p, patternSegments)
        decreases rest
      {
        var permission :| permission in rest;
        var isMatch := IsWildcardMatch(permission, patternSegments);
        if isMatch {
          matches := matches + {permission};
        }
        rest := rest - {permission};
      }
    }

    /** Whether a permission matches a split pattern: prefix match, `*` matching any one segment. */
    static method IsWildcardMatch(permission: string, patternSegments: seq<string>) returns (isMatch: bool)
      ensures isMatch == WildcardMatches(permission, patternSegments)
    {
      var permissionSegments := Split(permission, SeparatorOperator);
      if |patternSegments| > |permissionSegments| {
        return false;
      }
      for i := 0 to |patternSegments|
        invariant forall j :: 0 <= j < i ==>
          patternSegments[j] == "*" || EqualsIgnoreCase(patternSegments[j], permissionSegments[j])
      {
        if patternSegments[i] == "*" {
          continue;
        }
        if !EqualsIgnoreCase(patternSegments[i], permissionSegments[i]) {
          return false;
        }
      }
      return true;
    }

    /** The first loaded admin with the given identity, or none. */
    function GetAdmin(identity: nat): (r: Option<Admin>)
      reads this
      ensures r == FindAdmin(admins, identity)
    {
      FindAdmin(admins, identity)
    }

    /** The registry of a module: the cached one if the module was seen before, else a new one. */
    method GetCommandRegistry(moduleIdentity: string) returns (registry: AdminCommandRegistry)
      requires Valid()
      modifies this`registries
      ensures Valid()
      ensures Norm(moduleIdentity) in old(registries) ==>
        registry == old(registries)[ToKey(moduleIdentity)] && registries == old(registries)
      ensures Norm(moduleIdentity) !in old(registries) ==>
        && fresh(registry) && registry.moduleIdentity == moduleIdentity
        && registries == old(registries)[ToKey(moduleIdentity) := registry]
    {
      var key := ToKey(moduleIdentity);
      if key in registries {
        return registries[key];
      }
      registry := new AdminCommandRegistry(moduleIdentity);
      registries := registries[key := registry];
    }

    /** Forgets the registry of a module that disconnected; other modules keep theirs. */
    method OnLibraryDisconnect(name: string)
      requires Valid()
      modifies this`registries
      ensures Valid()
      ensures registries == old(registries) - {ToKey(name)}
    {
      registries := registries - {ToKey(name)};
    }
  }
}
