/**
 * The parsed admin table: named permission sets, roles and admins.
 * Reading and parsing the configuration file is not part of this model;
 * the manifest arrives already parsed.
 */
module Manifest {

  /** An admin's immunity level is a byte. */
  type Immunity = x: nat | x < 256

  /** A role: a name and its raw permission rules. */
  datatype RoleManifest = RoleManifest(name: string, permissions: set<string>)

  /** An admin entry: name, identity, immunity and raw permission rules. */
  datatype AdminManifest = AdminManifest(
    name: string,
    identity: nat,
    immunity: Immunity,
    permissions: set<string>)

  /** The whole table. Permission-set names are distinct as written (a dictionary). */
  datatype AdminTableManifest = AdminTableManifest(
    permissionSets: map<string, set<string>>,
    roles: seq<RoleManifest>,
    admins: seq<AdminManifest>)
}
