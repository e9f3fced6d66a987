/**
 * What loading makes of a manifest: the case-insensitive permission-set and
 * role tables, the universe of concrete permissions, and the admins with
 * their resolved permissions; and lookup of an admin by identity.
 */
module AdminTable {
  import opened Wrappers
  import opened CaseFold
  import opened Manifest
  import opened Resolution

  /** No two names are equal ignoring case (adding them to a case-insensitive dictionary succeeds). */
  predicate DistinctNames(names: set<string>)
  {
    forall a, b :: a in names && b in names && Norm(a) == Norm(b) ==> a == b
  }

  /** `table` holds each named set under the key of its name, and nothing else. */
  predicate IsKeyedBy(table: map<Key, set<string>>, sets: map<string, set<string>>)
  {
    && table.Keys == (set name | name in sets :: ToKey(name))
    && forall name :: name in sets ==> table[ToKey(name)] == sets[name]
  }

  /** The keys of all permissions listed under the given table entries. */
  function UniverseOf(table: map<Key, set<string>>, names: set<Key>): set<Key>
  {
    set k, p | k in names && k in table && p in table[k] :: ToKey(p)
  }

  /** The universe: every permission listed in some permission set, as a key. */
  function ManifestUniverse(sets: map<string, set<string>>): set<Key>
  {
    set name, p | name in sets && p in sets[name] :: ToKey(p)
  }

  /** Keying the permission sets by name does not change which permissions they list. */
  lemma UniverseOfKeyedTable(table: map<Key, set<string>>, sets: map<string, set<string>>)
    requires IsKeyedBy(table, sets)
    ensures UniverseOf(table, table.Keys) == ManifestUniverse(sets)
  {
    forall x | x in UniverseOf(table, table.Keys) ensures x in ManifestUniverse(sets) {
      var k, p :| k in table && p in table[k] && x == Norm(p);
      assert k in (set name | name in sets :: ToKey(name));
      var name :| name in sets && ToKey(name) == k;
      assert p in sets[name];
    }
    forall x | x in ManifestUniverse(sets) ensures x in UniverseOf(table, table.Keys) {
      var name, p :| name in sets && p in sets[name] && x == ToKey(p);
      assert ToKey(name) in table.Keys;
    }
  }

  /** No two roles of the list have names equal ignoring case. */
  predicate DistinctRoleNames(roles: seq<RoleManifest>)
  {
    forall i, j :: 0 <= i < j < |roles| ==> Norm(roles[i].name) != Norm(roles[j].name)
  }

  /** The role table, filled in list order: each role's rules under the key of its name. */
  function RoleTableOf(roles: seq<RoleManifest>): (t: RoleTable)
    ensures t.Keys == set i | 0 <= i < |roles| :: ToKey(roles[i].name)
  {
    if |roles| == 0 then map[]
    else
      var last := roles[|roles| - 1];
      var t0 := RoleTableOf(roles[..|roles| - 1]);
      assert forall i :: 0 <= i < |roles| - 1 ==> roles[..|roles| - 1][i] == roles[i];
      t0[ToKey(last.name) := last.permissions]
  }

  /** With distinct names, the table holds exactly the rules each role declares. */
  lemma {:induction false} RoleTableLookup(roles: seq<RoleManifest>, i: nat)
    requires DistinctRoleNames(roles) && i < |roles|
    ensures RoleTableOf(roles)[ToKey(roles[i].name)] == roles[i].permissions
    decreases |roles|
  {
    if i < |roles| - 1 {
      var init := roles[..|roles| - 1];
      assert init[i] == roles[i];
      assert DistinctRoleNames(init) by {
        forall a, b | 0 <= a < b < |init| ensures Norm(init[a].name) != Norm(init[b].name) {
          assert init[a] == roles[a] && init[b] == roles[b];
        }
      }
      RoleTableLookup(init, i);
      assert Norm(roles[i].name) != Norm(roles[|roles| - 1].name);
    }
  }

  /** A loaded admin: identity, immunity and the resolved, concrete permissions. */
  datatype Admin = Admin(name: string, identity: nat, immunity: Immunity, permissions: set<Key>)

  /** The admin an admin entry loads into, with its rules resolved. */
  function ResolveAdmin(roles: RoleTable, universe: set<Key>, entry: AdminManifest, fuel: nat): (a: Admin)
    requires Bounded(roles, entry.permissions, fuel)
    ensures a.name == entry.name && a.identity == entry.identity && a.immunity == entry.immunity
    ensures a.permissions <= universe
  {
    Admin(entry.name, entry.identity, entry.immunity, Resolve(roles, universe, entry.permissions, fuel))
  }

  /** Every admin entry's rules resolve within `fuel` nested role expansions. */
  predicate AllBounded(roles: RoleTable, entries: seq<AdminManifest>, fuel: nat)
  {
    forall i :: 0 <= i < |entries| ==> Bounded(roles, entries[i].permissions, fuel)
  }

  /** Entry `i` is the first whose rules do not finish expanding within one level per role. */
  predicate FirstUnbounded(roles: RoleTable, entries: seq<AdminManifest>, i: int)
  {
    && 0 <= i < |entries|
    && AllBounded(roles, entries[..i], |roles|)
    && !Bounded(roles, entries[i].permissions, |roles|)
  }

  /** The admins a list of entries loads into, in list order. */
  function ResolvedAdmins(roles: RoleTable, universe: set<Key>, entries: seq<AdminManifest>, fuel: nat): (r: seq<Admin>)
    requires AllBounded(roles, entries, fuel)
    ensures |r| == |entries|
    ensures forall i :: 0 <= i < |entries| ==> r[i] == ResolveAdmin(roles, universe, entries[i], fuel)
  {
    if |entries| == 0 then []
    else
      var n := |entries| - 1;
      assert forall i :: 0 <= i < n ==> entries[..n][i] == entries[i];
      ResolvedAdmins(roles, universe, entries[..n], fuel) + [ResolveAdmin(roles, universe, entries[n], fuel)]
  }

  /** Position `i` holds the first admin with the given identity. */
  predicate FirstWithIdentity(admins: seq<Admin>, identity: nat, i: nat)
  {
    && i < |admins|
    && admins[i].identity == identity
    && forall j :: 0 <= j < i ==> admins[j].identity != identity
  }

  /** The first admin with the given identity, or none. */
  function FindAdmin(admins: seq<Admin>, identity: nat): (r: Option<Admin>)
    ensures r.None? <==> forall i :: 0 <= i < |admins| ==> admins[i].identity != identity
    ensures r.Some? ==> exists i: nat :: FirstWithIdentity(admins, identity, i) && admins[i] == r.value
    decreases |admins|
  {
    if |admins| == 0 then None
    else if admins[0].identity == identity then
      assert FirstWithIdentity(admins, identity, 0);
      Some(admins[0])
    else
      var r := FindAdmin(admins[1..], identity);
      if r.Some? then
        var i: nat :| FirstWithIdentity(admins[1..], identity, i) && admins[1..][i] == r.value;
        assert FirstWithIdentity(admins, identity, i + 1);
        r
      else r
  }
}
