# AdminManager permission resolution, modelled in Dafny

The AdminManager module of the Sharp server framework loads an admin table once.
The table holds named permission sets, roles and admins. Loading turns it into one
flat set of concrete permissions per admin:

- The **universe** is every permission listed in some permission set.
- Each admin's **rules** are resolved against the universe:
  - a blank rule is skipped;
  - `!pattern` denies what the pattern matches;
  - `@role` inherits what the named role resolves to;
  - any other rule grants what it matches as a pattern.
- Denials win, but only within the rule set that contains them.
- A pattern without `*` is an exact lookup. A pattern with `*` anywhere is split on `:` and matched segment by segment as a prefix. A lone `*` segment matches any one segment; other segments compare ignoring case, so `B*` is literal.
- Afterwards the manager answers lookups of an admin by identity. It also keeps one command registry per module, created on first request and dropped when the module disconnects.

Every dictionary and set of the manager compares strings ignoring case. The model keys all
of them by `CaseFold.Key`, the folded form of a string. So two names that differ only in
case are one key.

Role references are expanded with no cycle guard, so a reference cycle recurses without
end. The model counts expansion levels with a `fuel` argument. Loading gives one level per
role and fails with `UnboundedRoleExpansion` when an admin's rules do not finish within
that. `RoleCycles` and `Resolution` prove this budget is exact:

- an acyclic table always finishes within it;
- a rule set that finishes with any fuel at all also finishes within it;
- a rule set that does not finish within it reaches a reference cycle, directly or through other roles;
- a rule set that reaches a cycle never finishes, whatever the fuel;
- more fuel never changes a result.

So the budget fails exactly when the unguarded recursion would never return.

Structure:

- `CaseFold`, `Segments` and `Rules` model case-insensitive comparison, `string.Split` on `:`, and how one raw rule is classified.
- `Wildcard` and `Resolution` hold the declarative specifications: `Match` and `Resolve`, set algebra over keys.
- `AdminTable` holds what loading makes of a manifest.
- `AdminManagement.AdminManager` is the stateful manager class. Its loop methods (`MatchWildcard`, `IsWildcardMatch`, `ResolvePermissions`, the load loops) are proved equal to the specifications.
- `Scenarios` works small examples through the matcher and the resolver.

The doc comment of `IsWildcardMatch` (src/Sharp.Modules.AdminManager/AdminManager.cs:225) says
the segment counts must be equal. The code does prefix matching (lines 231-234 and 250),
and the model follows the code.

## Model

| member | source | states |
|---|---|---|
| CaseFold.ToKey | src/Sharp.Modules.AdminManager/AdminManager.cs:18-22 | the key of a string is its folded form, and folding a key again leaves it unchanged, so every case-insensitive collection stores one representative per class |
| CaseFold.NormIsKey | src/Sharp.Modules.AdminManager/AdminManager.cs:18-22 | folding is idempotent |
| Segments.Split | src/Sharp.Modules.AdminManager/AdminManager.cs:229 | splitting always yields at least one segment |
| Segments.SplitSegmentsFree | src/Sharp.Modules.AdminManager/AdminManager.cs:229 | no segment contains the separator |
| Segments.SplitWithoutSeparator | src/Sharp.Modules.AdminManager/AdminManager.cs:202 | a string without the separator is its own single segment |
| Segments.JoinSplit | src/Sharp.Modules.AdminManager/AdminManager.cs:229 | joining the segments with the separator gives back the original string |
| Segments.SplitJoin | src/Sharp.Modules.AdminManager/AdminManager.cs:229 | splitting a join of separator-free segments gives back those segments |
| Segments.SplitCount | src/Sharp.Modules.AdminManager/AdminManager.cs:229 | the number of segments is one more than the number of separators |
| Segments.SplitConcat | src/Sharp.Modules.AdminManager/AdminManager.cs:229 | splitting `a:b` is splitting `a` followed by splitting `b` |
| Rules.Classify | src/Sharp.Modules.AdminManager/AdminManager.cs:138-175 | a rule is blank exactly when it is empty or all white space; otherwise it is a denial exactly when it starts with `!`, a role reference exactly when it starts with `@`, and a direct pattern otherwise; the marker is stripped by dropping the first character |
| Rules.RenderClassify | src/Sharp.Modules.AdminManager/AdminManager.cs:141-155 | every non-blank rule is its marker followed by its payload, so classification loses nothing |
| Rules.ClassifyRender | src/Sharp.Modules.AdminManager/AdminManager.cs:141-155 | a marker followed by any text classifies by the marker, with that text as payload |
| Wildcard.Match | src/Sharp.Modules.AdminManager/AdminManager.cs:187-221 | a pattern selects only permissions of the universe |
| Wildcard.MatchLiteral | src/Sharp.Modules.AdminManager/AdminManager.cs:191-199 | a pattern without `*` selects exactly its own key when it is in the universe, ignoring case, and nothing otherwise |
| Wildcard.MatchGlobal | src/Sharp.Modules.AdminManager/AdminManager.cs:204-212 | the lone `*` selects the whole universe, the same as the general segment path would |
| Wildcard.TooManySegments | src/Sharp.Modules.AdminManager/AdminManager.cs:231-234 | a pattern with more segments than the permission never matches it |
| Wildcard.TrailingSegmentsFree | src/Sharp.Modules.AdminManager/AdminManager.cs:236-251 | a match survives appending segments to the permission: the pattern is a prefix filter |
| Resolution.RoleOf | src/Sharp.Modules.AdminManager/AdminManager.cs:155-156 | a known role reference names the role stored under the folded text after `@` |
| Resolution.DenyOf | src/Sharp.Modules.AdminManager/AdminManager.cs:141-151 | a denial takes away only permissions of the universe |
| Resolution.GrantOf | src/Sharp.Modules.AdminManager/AdminManager.cs:153-175 | a direct rule or role reference grants only permissions of the universe |
| Resolution.Denied | src/Sharp.Modules.AdminManager/AdminManager.cs:136-151 | the deny set lies inside the universe |
| Resolution.Granted | src/Sharp.Modules.AdminManager/AdminManager.cs:135-175 | the allow set lies inside the universe |
| Resolution.Resolve | src/Sharp.Modules.AdminManager/AdminManager.cs:133-182 | every resolved permission is a permission of the universe |
| Resolution.ResolveMembership | src/Sharp.Modules.AdminManager/AdminManager.cs:133-182 | a permission is resolved if and only if some rule grants it and no denial rule of the same set matches it |
| Resolution.DenyWins | src/Sharp.Modules.AdminManager/AdminManager.cs:141-181 | nothing a denial rule matches is resolved, even when a role reference of the same set grants it |
| Resolution.DirectGrantSurvives | src/Sharp.Modules.AdminManager/AdminManager.cs:167-181 | a directly granted permission is resolved unless a denial of the same set matches it; a referenced role's own denials do not remove it |
| Resolution.InheritResolvesRole | src/Sharp.Modules.AdminManager/AdminManager.cs:153-166 | `@R` alone resolves to exactly what role R's rules resolve to |
| Resolution.NeutralRuleIgnored | src/Sharp.Modules.AdminManager/AdminManager.cs:138-159 | adding a blank rule or a reference to an unknown role changes neither termination nor the result |
| Resolution.ResolveUnion | src/Sharp.Modules.AdminManager/AdminManager.cs:135-181 | resolving a union of rule sets unites the allow sets and the deny sets, so grouping and order of rules do not matter |
| Resolution.FuelMonotone | src/Sharp.Modules.AdminManager/AdminManager.cs:161 | expansion that finishes with some fuel finishes with more, with the same result |
| Resolution.RankedBounded | src/Sharp.Modules.AdminManager/AdminManager.cs:161 | with a rank that decreases along role references, fuel above the referenced ranks finishes the expansion |
| Resolution.CycleNeverBounded | src/Sharp.Modules.AdminManager/AdminManager.cs:153-161 | the rules of a role on a reference cycle never finish expanding, whatever the fuel |
| Resolution.KnownRuleBounded | src/Sharp.Modules.AdminManager/AdminManager.cs:156-161 | a reference to a known role finishes exactly when that role's rules finish one level down |
| Resolution.ReachesCycle | src/Sharp.Modules.AdminManager/AdminManager.cs:153-161 | a rule set that references a role on a cycle never finishes expanding |
| Resolution.GrantedAddRule | src/Sharp.Modules.AdminManager/AdminManager.cs:138-176 | taking one more rule into account adds exactly its grants to the allow set and its denials to the deny set |
| RoleCycles.UnboundedPath | src/Sharp.Modules.AdminManager/AdminManager.cs:153-161 | expansion that does not finish within `fuel` levels follows a chain of `fuel + 1` role references |
| RoleCycles.PathCons | src/Sharp.Modules.AdminManager/AdminManager.cs:153-161 | a reference chain extends backwards by a role that references its first role |
| RoleCycles.NextOnPath | src/Sharp.Modules.AdminManager/AdminManager.cs:153-161 | every role on a stretch of a chain is given one of its own reference rules on that stretch |
| RoleCycles.CycleOnPath | src/Sharp.Modules.AdminManager/AdminManager.cs:153-161 | the stretch between two occurrences of a role on a chain is a reference cycle |
| RoleCycles.UnboundedHasCycle | src/Sharp.Modules.AdminManager/AdminManager.cs:153-161 | expansion that needs more than one level per role reaches, from one of its own rules, a role on a reference cycle |
| RoleCycles.PathPrefix | src/Sharp.Modules.AdminManager/AdminManager.cs:153-161 | every prefix of a reference chain is a reference chain |
| RoleCycles.PathReaches | src/Sharp.Modules.AdminManager/AdminManager.cs:153-161 | a rule set reaches every role on a chain that one of its rules starts |
| RoleCycles.OnPathNeverBounded | src/Sharp.Modules.AdminManager/AdminManager.cs:153-161 | every role on a chain that ends on a cycle has rules that never finish expanding, whatever the fuel |
| RoleCycles.ReachedCycleNeverBounded | src/Sharp.Modules.AdminManager/AdminManager.cs:153-161 | a rule set that reaches a role on a cycle, directly or through other roles, never finishes expanding, whatever the fuel |
| RoleCycles.BoundedAtRoleCount | src/Sharp.Modules.AdminManager/AdminManager.cs:153-161 | a rule set whose expansion finishes with any fuel finishes within one level per role |
| RoleCycles.AcyclicBounded | src/Sharp.Modules.AdminManager/AdminManager.cs:153-161 | without reference cycles, one level of expansion per role finishes every rule set |
| AdminTable.UniverseOfKeyedTable | src/Sharp.Modules.AdminManager/AdminManager.cs:51-55 | the universe gathered from the case-insensitive table is the union of all permission-set values of the manifest |
| AdminTable.RoleTableOf | src/Sharp.Modules.AdminManager/AdminManager.cs:46-49 | the role table holds a key for exactly the role names of the list |
| AdminTable.RoleTableLookup | src/Sharp.Modules.AdminManager/AdminManager.cs:46-49 | with distinct names, each role's key maps to the rules that role declares |
| AdminTable.ResolveAdmin | src/Sharp.Modules.AdminManager/AdminManager.cs:59-65 | a loaded admin keeps the entry's name, identity and immunity and holds only permissions of the universe |
| AdminTable.ResolvedAdmins | src/Sharp.Modules.AdminManager/AdminManager.cs:57-68 | one admin per entry, in entry order, each with its rules resolved |
| AdminTable.FindAdmin | src/Sharp.Modules.AdminManager/AdminManager.cs:108-111 | none exactly when no admin has the identity; otherwise the admin at the first position with that identity |
| AdminManagement.AcyclicTableLoads | src/Sharp.Modules.AdminManager/AdminManager.cs:41-68 | with distinct names and no role reference cycle, loading succeeds |
| AdminManagement.CycleFailsLoad | src/Sharp.Modules.AdminManager/AdminManager.cs:57-68 | an admin whose rules reach a role on a cycle, directly or through other roles, makes loading fail |
| AdminManagement.FiniteExpansionLoads | src/Sharp.Modules.AdminManager/AdminManager.cs:41-68 | with distinct names, loading succeeds whenever every admin's rules finish expanding with some common fuel |
| AdminManagement.AdminCommandRegistry.constructor | src/Sharp.Modules.AdminManager/AdminManager.cs:121-122 | a new registry belongs to the module it was created for |
| AdminManagement.AdminManager.constructor | src/Sharp.Modules.AdminManager/AdminManager.cs:17-22 | a new manager holds the given tables, no admins and no registries, and is valid when the universe is that of its permission sets |
| AdminManagement.AdminManager.Load | src/Sharp.Modules.AdminManager/AdminManager.cs:41-68 | loading succeeds exactly when permission-set names and role names are distinct ignoring case and every admin's rules finish expanding. A clash names the failing kind; with distinct names a failure is an unbounded expansion naming the first admin whose rules do not finish. On success: the table is keyed by folded name, the universe is the union of all set values, the role table is the list's, each stored admin is its entry resolved in order, and no registries exist yet |
| AdminManagement.AdminManager.AddAdmins | src/Sharp.Modules.AdminManager/AdminManager.cs:57-68 | the loop stores exactly the resolved entries, in order, and reports, by name, the first entry whose expansion does not finish |
| AdminManagement.AdminManager.LoadPermissionSets | src/Sharp.Modules.AdminManager/AdminManager.cs:41-44 | succeeds exactly when no two set names are equal ignoring case, and then keys every set by its folded name; a failure names a set of the manifest |
| AdminManagement.AdminManager.LoadRoles | src/Sharp.Modules.AdminManager/AdminManager.cs:46-49 | succeeds exactly when no two role names are equal ignoring case, and then yields the role table; a failure names a later role that clashes with an earlier one |
| AdminManagement.AdminManager.CollectUniverse | src/Sharp.Modules.AdminManager/AdminManager.cs:51-55 | the loop collects the key of every permission of every set |
| AdminManagement.AdminManager.ResolvePermissions | src/Sharp.Modules.AdminManager/AdminManager.cs:133-182 | the loop, whatever order it visits the rules in, returns the specification `Resolve`, and finishes exactly when the expansion is bounded |
| AdminManagement.AdminManager.MatchWildcard | src/Sharp.Modules.AdminManager/AdminManager.cs:187-221 | all three branches return the specification `Match` of the pattern over the universe |
| AdminManagement.AdminManager.IsWildcardMatch | src/Sharp.Modules.AdminManager/AdminManager.cs:227-252 | true if and only if the pattern has no more segments than the permission and each pattern segment is `*` or equals the permission's segment at that position, ignoring case |
| AdminManagement.AdminManager.GetAdmin | src/Sharp.Modules.AdminManager/AdminManager.cs:108-111 | the first loaded admin with the identity, or none |
| AdminManagement.AdminManager.GetCommandRegistry | src/Sharp.Modules.AdminManager/AdminManager.cs:113-126 | a module seen before, ignoring case, gets its cached registry and nothing changes; otherwise a fresh registry is stored under the module's key and returned, and no other entry changes |
| AdminManagement.AdminManager.OnLibraryDisconnect | src/Sharp.Modules.AdminManager/AdminManager.cs:91-95 | exactly the module's key is removed from the registry cache |
| Scenarios.PrefixSelectsDeeper | src/Sharp.Modules.AdminManager/AdminManager.cs:231-251 | `A:*` matches both `A:B` and `A:B:C` |
| Scenarios.PrefixNeedsEverySegment | src/Sharp.Modules.AdminManager/AdminManager.cs:231-251 | `A:B:*` matches `A:B:C` but neither `A:B` nor `A:D` |
| Scenarios.StarInsideSegmentIsLiteral | src/Sharp.Modules.AdminManager/AdminManager.cs:240-247 | the segment `B*` is compared literally and does not match `BC` |
| Scenarios.SelfReference | src/Sharp.Modules.AdminManager/AdminManager.cs:153-161 | a role `A` whose rule is `@A` is a reference cycle, and `@A` never finishes expanding whatever the fuel |
| Scenarios.DenyOverridesRole | src/Sharp.Modules.AdminManager/AdminManager.cs:141-181 | with role `Mod` granting `System:Kick`, the rules `@Mod`, `System:Ban`, `!System:Kick` resolve to `SYSTEM:BAN` alone |

## Left out

- Reading and parsing the JSONC configuration file (src/Sharp.Modules.AdminManager/AdminManager.cs:33-39) is I/O and library code. `Load` takes the parsed manifest as its parameter. Null values a parser could produce are not modelled.
- The host lifecycle hooks `Init`, `PostInit`, `OnAllModulesLoaded` and `Shutdown`, and the display name and author (lines 73-102), are framework plumbing.
- The command manager is a foreign service and is not part of this model: `_commandManager.GetRegistry` at line 121, and the arguments `AdminCommandRegistry` is built from. A registry is a fresh object that records its module's identity.
- The internals of `Admin`, `SteamID` and `IAdminManager` are not part of this model. An admin is its name, identity, immunity and permission set. The identity, a 64-bit `SteamID`, is a `nat` compared by equality; no arithmetic is done on it.
- Case-insensitive comparison folds ASCII letters only. Full Unicode case folding of `OrdinalIgnoreCase` is left out.
- Case-insensitive sets remember the spelling first added; the model stores the folded key instead. So the spelling of a stored permission is not modelled, only its case-insensitive identity.
- Unbounded role recursion ends the process in the source (stack overflow). In the model it is a load failure, `UnboundedRoleExpansion`, naming the first admin concerned.
- Error values stand in for the exceptions `Dictionary.Add` throws on a duplicate name. Exception types and messages are not modelled.
- Concurrent use of the registry cache is left out.
