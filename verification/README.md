# Verified model of django-ansible-base: derived permission tables, claims, caches

This project models, in Dafny 4.11, the parts of django-ansible-base whose results
depend on order, scope or history, and proves what they promise.

* **RBAC tables.** The system stores two tables that are derived from role
  assignments: `member_roles` (which object roles make their holder a member of a
  team, closed over a team-of-team graph that may contain cycles) and the role
  evaluations (which role grants which permission on which object). Every
  assignment, removal, creation and deletion recomputes only part of them.
  `Graphs`, `Membership`, `RbacModel`, `Permissions` and `Runs` say what the tables mean;
  `Refresh`, `Assignments`, `Creation`, `Deletion`, `BatchDeletion` and `Cascades`
  prove when each partial recompute equals the full one, and `BaseTables` what deletes leave of the
  base tables; `MemberCache`, `EvalCache`, `RecomputeAll`, `Pipeline` and `Triggers` are the loops and handlers themselves, on a mutable
  store, tied to those theorems. `StaleRows` holds concrete databases on which a
  delete leaves a row behind.
* **Type and object hierarchy.** `Hierarchy` and `Walks`: the upward walk at save
  time, the downward recursive walk with a shared set, and the breadth-first walk
  in the database; `RolePermissions` builds the permission lists on top of them.
* **Claims between services.** `SortedText`, `ClaimsEncoding`, `ClaimsSync`: the
  index-encoded claims, their order-independent hashed form, and the three passes
  that save received claims.
* **Claims at login.** `Attributes`, `Expansion`, `RoleMaps`, `Reconcile`: triggers,
  templates, the nested role maps, and the reconciliation of a user's assignments;
  `Login` puts them together.
* **Caches.** `RedisCache` and `CacheCluster`: local stores with broadcast
  invalidation; `FallbackCache`: failover between two stores.

`dafny verify dfyconfig.toml` checks the whole project.

## Assumptions about the surroundings

* Tables are sets and maps; foreign keys hold (`RbacModel.Valid`), one object role per
  definition and object, one evaluation row per role, codename and object
  (`ansible_base/rbac/models/role.py:520`, `:886`). Team rows and the assignments of a
  team go with the team by cascade; object roles on it do not.
* Teams sit directly under organizations or nowhere, organizations have no parent, and
  the team permission belongs to the team type (`RbacModel.WellFormed`).
* Integer and UUID evaluation tables are one table with one key type.
* Case folding, regular expressions and white space are function parameters.
* Messages of the cache protocol are delivered in any order and none is lost; a write and
  the publication of its message are one step, although the code does one after the other
  (`ansible_base/lib/cache/redis_cache.py:140-142`).
* Keys of object roles are positive, as automatic keys are: a full evaluation recompute
  starts above key 0 (`RecomputeAll.FullRunCorrectIff` says what depends on it).
* Every stored assignment passed the check of role type against target when it was made,
  and the type of a role definition does not change (`ansible_base/rbac/validators.py:267-279`,
  `ansible_base/rbac/models/role.py:234-240`, `ansible_base/rbac/api/serializers.py:73`).

## Where the code and its description differ

* Deleting an object whose type has no parent field does not clear the rows on it
  (`ansible_base/rbac/triggers.py:432-437`): `Deletion.ObjectDeleteCorrectIff` gives the
  exact condition, `StaleRows.OrganizationDeleteLeavesStaleRow` an example.
* Deleting several teams by one query runs each handler when all of them are gone. A
  handler may then read `member_roles` of a team whose own recompute is still to come, and
  what it writes for a role stays wrong unless a later handler names the role and reads it right:
  `BatchDeletion.BatchDeleteCorrectIff` and `BatchDeletion.ReadTooEarlyStays`, with an example in
  `StaleRows.BatchTeamDeleteLeavesStaleRow`.
* Two cache nodes with the same non-empty host id ignore each other's invalidations
  (`CacheCluster.SafeIffDistinctHosts`).
* A node without a host id drops what it has just written (`CacheCluster.WriteKeptIffNamed`).
* Starting a process removes the fallback marker without clearing either store
  (`FallbackCache.RestartSafeIff`).
* An assignment whose object cannot be loaded is cached without a target, and removing it
  looks for a system-wide assignment of the role, of which there is none: the assignment
  stays although users are to be removed (`Reconcile.ReconcileUser.ApplyPermissions`).
* A role map that gives an organization role together with a team passes the role check and
  is claimed in the team (`RoleMaps.KeyByKind`). Giving it raises; the error is logged, and
  the entries that come later are not carried out (`Login.MisfitIsRefused`, `Login.LogIn`).
  The same happens with a system role where the setting forbids them to users.
* A value that holds expansion syntax itself captures a later substitution, so a hole of the
  template stays unfilled (`Expansion.AllFilledIff`).
* A claimed role with an empty object list keeps its key in the received hashed form and
  loses it in the local one (`ClaimsSync.HashesAgreeIff`).

## Model

| member | source | states |
|---|---|---|
| `Membership.OneHopIsClosure` | ansible_base/rbac/prefetch.py:88-115 | over every team-of-team graph, cycles included: the role itself plus the roles held by the teams it is stored as a member role of are exactly the least set of roles closed under "a role makes you a member of a team, the team holds a role" |
| `Membership.MemberIffImplied` | ansible_base/rbac/caching.py:296-325 | a role belongs in member_roles of a team exactly when some role in its closure confers membership of that team directly |
| `Membership.MemberRolesSolveEquation` | ansible_base/rbac/caching.py:316-323 | member_roles solves M(t) = direct roles of t plus M of every parent of t |
| `Membership.MemberRolesAreLeast` | ansible_base/rbac/caching.py:316-323 | and is contained in every other solution of those inclusions |
| `Membership.OutOfScopeUnchanged` | ansible_base/rbac/caching.py:327-350 | a team that is neither listed nor a descendant of a listed team has the same member roles before and after, if every team whose direct roles or parents changed is listed |
| `Membership.UntouchedClosure` | ansible_base/rbac/caching.py:67-74 | a role above none of the teams whose holdings changed keeps its whole closure |
| `RbacModel.ExpectedIsGranted` | ansible_base/rbac/prefetch.py:88-115 | with member_roles right, what one hop finds for a role is exactly what its closure confers |
| `RbacModel.MemberPermIsTarget` | ansible_base/rbac/models/role.py:609-681 | a role confers the team permission on a team exactly when it is a member-giving role whose target is the team or the organization of the team |
| `RbacModel.EvalsNameMembers` | ansible_base/rbac/caching.py:67-74 | with evaluations right, a row for the team permission on a team exists exactly for the member roles of that team |
| `RbacModel.AncestorsCoverMembers` | ansible_base/rbac/caching.py:67-74 | so bulk_ancestor_roles, read from stored evaluations, covers every role above the given teams |
| `Permissions.DirectMeans` | ansible_base/rbac/models/role.py:609-681 | what a role confers, permission by permission: a row on the target for a permission of its type, one that adds, or any when parent permissions are cached; and rows on everything below the target that is of the type of the permission, or, for one that adds, of the type under which that type sits |
| `Permissions.RowsByType` | ansible_base/rbac/models/role.py:646-681 | for a codename listed once: a permission that adds is held on an object under which its type sits exactly when that object is the target or below it, any other likewise on an object of its type, and elsewhere only on the target |
| `Permissions.CachingAdds` | ansible_base/rbac/models/role.py:646-661 | caching parent permissions adds rows on the target only |
| `Permissions.AddPermMeans` | ansible_base/lib/utils/models.py:52-62 | a codename adds if it begins with add_, or does so after a service name and a single dot |
| `Refresh.GlobalRecomputeIsCorrect` | ansible_base/rbac/caching.py:462-484 | rewriting both tables in full gives their from-scratch meaning |
| `Refresh.ScopedEqualsGlobal` | ansible_base/rbac/caching.py:327-350 | from a correct member_roles table of the old state, rewriting only the listed teams and their descendants in the new graph makes the whole table correct |
| `Refresh.ScopedEvaluationsCorrect` | ansible_base/rbac/caching.py:438-459 | recomputing a set of roles makes all evaluations correct when every other role was left alone: above no touched team, same rows, same permissions |
| `Refresh.DeleteUnheldKeepsCorrect` | ansible_base/rbac/pipeline.py:345-357 | deleting roles that no team holds, after the recompute, commutes with the membership closure |
| `Assignments.UncollectedTeamsSame` | ansible_base/rbac/pipeline.py:244-254 | every team whose direct member roles or parents an assignment changes is among the collected team ids |
| `Assignments.GiveKeepsTablesCorrect` | ansible_base/rbac/pipeline.py:265-287 | after any batch of assignments, new roles and new team-of-team edges included, the partial recompute of the touched roles, their descendants and the ancestors read from the old evaluations leaves both tables as a full recompute would |
| `Assignments.RemoveRecomputeCorrect` | ansible_base/rbac/pipeline.py:307-330 | the same after deleting assignments, with ancestors read from evaluations that are still the old ones |
| `Assignments.RemoveKeepsTablesCorrect` | ansible_base/rbac/pipeline.py:307-357 | and still after the roles left without actors are deleted |
| `Creation.CreationFlushCorrect` | ansible_base/rbac/triggers.py:183-222 | a batch of created objects recomputed once, through the roles on their parent chains and the roles one hop above those, leaves both tables correct |
| `Creation.CreateOneCorrect` | ansible_base/rbac/triggers.py:324-348 | one created object, recomputed only for rows on that object, leaves both tables correct |
| `Creation.NarrowAgreesOnObject` | ansible_base/rbac/models/role.py:633-643 | on that object the narrowed recompute finds exactly what the full one does, and elsewhere nothing the full one does not |
| `Creation.NarrowProposesStoredRow` | ansible_base/rbac/models/role.py:633-643 | the narrowed recompute proposes a row that is already stored exactly when an implied role sits on another object of the type of the new object; ignoring conflicts on insert is needed exactly then |
| `Deletion.ObjectDeleteCorrectIff` | ansible_base/rbac/triggers.py:410-437 | deleting objects with everything under them leaves both tables correct if and only if every row on one of them is on a type with a parent field or belongs to a role on one of them |
| `Deletion.TeamDeleteMembers` | ansible_base/rbac/triggers.py:399-425 | rewriting member_roles for what all the deleted teams stashed makes the whole table right |
| `Deletion.TeamDeleteKeepsTablesCorrect` | ansible_base/rbac/triggers.py:399-437 | deleting one team, using only what was stashed before the delete, leaves both tables correct if and only if the team type has a parent field or no surviving role leads to a role on the team |
| `Deletion.RowsLeftIff` | ansible_base/rbac/triggers.py:432-437 | without a parent field, rows on the deleted team stay behind exactly when a role that survives still leads to a role on it |
| `Deletion.DeleteRolesOnGoneObjects` | ansible_base/rbac/triggers.py:410-431 | roles on objects that are gone can be dropped without changing any row on another object |
| `Deletion.UserDeleteCorrect` | ansible_base/rbac/triggers.py:507-513 | deleting a user, whose assignments go by cascade, and then the roles nobody holds keeps both tables correct |
| `BatchDeletion.BatchDeleteCorrectIff` | ansible_base/rbac/triggers.py:399-437 | deleting any set of teams by one query, all of them gone before the first of their handlers runs, in a given order of the handlers: both tables end correct if and only if, for every surviving role, the rows it has after the last handler that recomputes it are granted or are cleared with a deleted team; which handler that is and what it reads are computed from the tables before the handlers alone |
| `BatchDeletion.StatesAreExact` | ansible_base/rbac/triggers.py:399-437 | before every handler the member rows are the old ones, corrected below every stash handled so far, the rows of each role are those of its last reading, and exactly the roles nobody holds and those on handled teams are gone |
| `BatchDeletion.BatchDeleteCorrect` | ansible_base/rbac/triggers.py:399-437 | in every order both tables end correct, up to rows on the deleted teams that nothing clears, if no handler, run first, would read an outdated row that makes it write a wrong one |
| `BatchDeletion.BatchDeleteIff` | ansible_base/rbac/triggers.py:399-437 | the tables end correct in every order of the handlers if and only if the last readings are right in every order |
| `BatchDeletion.RecomputesRightIff` | ansible_base/rbac/triggers.py:399-437 | every single recompute of every handler is right in every order if and only if no handler, run first, reads an outdated row |
| `BatchDeletion.ReadTooEarlyStays` | ansible_base/rbac/triggers.py:399-437 | the failing family: what the first handler reads too early for a role that no later handler names again stays, a row nothing grants, to the end of every run |
| `BatchDeletion.NoSurvivorLosesParent` | ansible_base/rbac/triggers.py:399-407 | no handler reads an outdated row when everything stashed is deleted too, that is when no surviving team loses a parent |
| `BatchDeletion.OneTeamSeesRight` | ansible_base/rbac/triggers.py:399-425 | nor when a single team is deleted |
| `Cascades.StashKept` | ansible_base/rbac/triggers.py:399-407 | deleting what sits under the teams first does not change what their handlers stash |
| `Cascades.ObjectDeleteFromIff` | ansible_base/rbac/triggers.py:410-437 | deleting objects from tables that hold rows nothing grants: they end correct if and only if all such rows go with the objects or their roles and no row on the objects is left |
| `Cascades.CascadeDeleteCorrectIff` | ansible_base/rbac/triggers.py:399-437 | a cascading delete (objects below the teams, the teams, then the rest, such as the organization) leaves both tables correct if and only if the last readings of the team handlers are right apart from roles on the rest, where rows on the rest must be on a type with a parent field |
| `StaleRows.OrganizationDeleteLeavesStaleRow` | ansible_base/rbac/triggers.py:432-437 | the failing case on a concrete database: a role reaches an organization through a team, the organization is deleted, the row stays |
| `StaleRows.BatchTeamDeleteLeavesStaleRow` | ansible_base/rbac/triggers.py:399-437 | a correct database on which two teams can be deleted by one query so that every run beginning with the handler of the first leaves a user with a permission nothing grants |
| `Runs.CorrectIffFromScratch` | ansible_base/rbac/caching.py:462-484 | the tables are correct exactly when they equal the tables computed from the base tables alone |
| `Runs.StepKeepsCorrect` | ansible_base/rbac/pipeline.py:332-376 | every step from a correct state ends in a correct state: giving, removing, creating, flushing a created batch, deleting a user, and those deletes of objects and teams that meet the exact conditions above |
| `Runs.RunsEqualFromScratch` | ansible_base/rbac/caching.py:462-484 | in every run of such steps from any correct state, of any length, every state equals its own from-scratch recompute |
| `Runs.AccessMeansChain` | ansible_base/rbac/models/role.py:783-800 | in every state of such a run a user has a permission through the stored rows exactly when a finite chain of roles leads there: the first held by the user, each next one by a team on which its predecessor confers the team permission, the last conferring the permission |
| `Hierarchy.ParentIdsAreAncestors` | ansible_base/rbac/triggers.py:304-321 | get_parent_ids terminates on an acyclic registry and lists exactly the ancestors of the object |
| `Hierarchy.FollowIffAncestor` | ansible_base/rbac/permission_registry.py:61-86 | following a returned filter path from an object reaches the parent exactly when the parent is in its upward chain |
| `Hierarchy.PathAgreesIffTopIsNotAboveItself` | ansible_base/rbac/permission_registry.py:61-86 | a path is a faithful filter on all databases if and only if the parent type is not above itself |
| `Walks.CollectReachable` | ansible_base/rbac/caching.py:128-148 | each call with the shared set returns what it newly added, all of it reachable, and leaves the set closed but for nodes still being expanded; terminates on cycles |
| `Walks.AllReachable` | ansible_base/rbac/caching.py:128-169 | the outer call returns exactly the teams one or more edges away |
| `Walks.BreadthFirst` | ansible_base/rbac/validators.py:47-64 | the queue search terminates and lists every descendent type exactly once |
| `Walks.GetChildModels` | ansible_base/rbac/permission_registry.py:61-86 | lists every type below the parent exactly once, each with a valid filter path |
| `Walks.WalksAgree` | ansible_base/rbac/permission_registry.py:61-86 | on one database, the upward walk from an object meets x exactly when some filter listed for the type of x has the type of the object and leads from it to x |
| `Walks.DescendentsAgree` | ansible_base/rbac/validators.py:47-64 | when the database mirrors the registry both walks list the same types |
| `RolePermissions.PermissionsAllowedForRole` | ansible_base/rbac/validators.py:34-92 | the permission lists per type: own permissions but those that add, then all permissions of each descendent type; for a system-wide role all but those that change teams; error exactly for untracked types |
| `RolePermissions.LocalPermissionsAllowedForRole` | ansible_base/rbac/validators.py:307-323 | the same from the model classes |
| `RolePermissions.SameAllowed` | ansible_base/rbac/validators.py:294-323 | both agree type by type, and allow a codename exactly below the type, or on the type itself when it does not add; system-wide exactly when it is not a team permission other than view |
| `MemberCache.GetOrgTeamMapping` | ansible_base/rbac/caching.py:172-188 | the dictionary lists the teams of every organization |
| `MemberCache.GetDirectTeamMemberRoles` | ansible_base/rbac/caching.py:191-216 | a role is listed for a team exactly when it gives membership of it directly |
| `MemberCache.GetParentTeamsOfTeams` | ansible_base/rbac/caching.py:219-243 | the dictionary is the parent graph of the role assignments |
| `MemberCache.BuildMemberRoles` | ansible_base/rbac/caching.py:316-323 | looping over the keys of direct_member_roles loses no team: a team that gets no entry has no member roles |
| `MemberCache.ExpandScope` | ansible_base/rbac/caching.py:327-337 | the expanded ids are the given teams and their descendants |
| `MemberCache.ComputeTeamMemberRoles` | ansible_base/rbac/caching.py:296-350 | rewrites exactly the scoped rows and leaves the others; for None the whole table ends right |
| `EvalCache.GetChildFilters` | ansible_base/rbac/models/role.py:571-607 | finds the child type and path a permission is evaluated on, or none, as the registry says |
| `EvalCache.ExpectedDirectPermissions` | ansible_base/rbac/models/role.py:609-681 | computes exactly the permissions the role confers by itself, said permission by permission; with a look-ahead object only those on it, or on the target when that is of the same type |
| `EvalCache.NeededCacheUpdates` | ansible_base/rbac/models/role.py:721-770 | the two differences between stored and expected rows, the same from queries and from prefetched dictionaries |
| `EvalCache.AppliedAsSpecified` | ansible_base/rbac/caching.py:381-435 | applying the collected differences rewrites the rows of exactly the collected roles |
| `EvalCache.RecomputeRoleEvaluations` | ansible_base/rbac/caching.py:438-459 | rewrites the evaluations of the given roles in full, or on the look-ahead object only |
| `RecomputeAll.FromRoles` | ansible_base/rbac/prefetch.py:94-117 | the batched loaders hold for every role of the chunk what the tables hold |
| `RecomputeAll.BatchedIsPerRole` | ansible_base/rbac/prefetch.py:128-149 | going through the two batched dictionaries finds the roles the per-role query finds |
| `RecomputeAll.NextChunk` | ansible_base/rbac/caching.py:466-476 | the next keyset page: the smallest keys above the last one, at most the chunk size |
| `RecomputeAll.ChunkAdvances` | ansible_base/rbac/caching.py:466-476 | a page moves the start key past exactly the roles it contains |
| `RecomputeAll.RecomputeAllRoleEvaluations` | ansible_base/rbac/caching.py:462-484 | terminates for every positive chunk size, visits each role with a positive key exactly once, in order, and rewrites exactly their rows |
| `RecomputeAll.FullRunCorrectIff` | ansible_base/rbac/caching.py:462-484 | the run leaves all evaluations right if and only if the rows of roles with non-positive keys were right already |
| `RecomputeAll.SecondRunFindsNothing` | ansible_base/rbac/caching.py:462-484 | a second run has nothing to add and nothing to delete |
| `Pipeline.EnsureObjectRoles` | ansible_base/rbac/pipeline.py:116-153 | every request finds the one role of its definition on its object; only missing roles are created, old ones are untouched |
| `Pipeline.CreateAssignments` | ansible_base/rbac/pipeline.py:183-241 | each request gives its actor the role that was looked up for its own definition and object; rows already there stay |
| `Pipeline.CollectRecomputeTeamIds` | ansible_base/rbac/pipeline.py:244-254 | collects the target teams of the member-giving roles |
| `Pipeline.RecomputeAfterGive` | ansible_base/rbac/pipeline.py:257-287 | refuses exactly while deferred creations are pending, else performs exactly the narrow recompute |
| `Pipeline.GiveAssignments` | ansible_base/rbac/pipeline.py:360-376 | the whole operation: afterwards an actor holds a role exactly if it did before or a request of that actor names the definition and object of the role; roles are created only for requests, old ones stay; correct tables stay correct |
| `Pipeline.RemoveAssignments` | ansible_base/rbac/pipeline.py:307-357 | the whole operation: rows removed; a role goes exactly when one of the removed assignments, of a user or of a team, was of it and nobody holds it any more; correct tables stay correct |
| `Triggers.RolesForCreated` | ansible_base/rbac/caching.py:116-125 | the roles found through the chain above each created object |
| `Triggers.PostSaveUpdate` | ansible_base/rbac/triggers.py:324-348 | a save of a new object leaves both tables correct |
| `Triggers.CreateObject` | ansible_base/rbac/triggers.py:367-396 | inside a deferral block a creation is recorded and the tables stay; outside they are correct at once |
| `Triggers.ExitDefer` | ansible_base/rbac/triggers.py:114-180 | leaving a block of creations resets the state and ends with both tables correct |
| `Triggers.CreateInBlock` | ansible_base/rbac/triggers.py:114-180 | a whole block: refused inside another block without any change, otherwise every object saved in it is there with its parent, everybody holds what they held, roles nobody holds go if something was recorded, and both tables are correct when it is left |
| `Triggers.RootObjectsNeedNothing` | ansible_base/rbac/triggers.py:367-396 | objects of types without a parent field can be created without any recompute |
| `Triggers.TeamPreDelete` | ansible_base/rbac/triggers.py:399-407 | what is stashed before the delete: the teams provided by member-giving roles the team holds, and the roles giving membership of it |
| `Triggers.DeleteTeam` | ansible_base/rbac/triggers.py:399-437 | the delete handlers of one team in order: the objects, roles and assignments left, row by row, and the if-and-only-if above for both derived tables |
| `Triggers.DeleteTeams` | ansible_base/rbac/triggers.py:399-437 | all stashes, then the delete, then the handlers one by one: the objects, roles and assignments left, row by row, and the if-and-only-if above for the order of the handlers |
| `Triggers.DeleteObjects` | ansible_base/rbac/triggers.py:410-437 | the handlers for objects of other types: what is left of every table, row by row, and the if-and-only-if above |
| `Triggers.DeleteUser` | ansible_base/rbac/triggers.py:507-513 | the delete of a user takes the assignments of the user and the roles nobody else holds, row by row, and keeps correct tables correct |
| `Triggers.CleanupOrphanedObjectRoles` | ansible_base/rbac/caching.py:108-113 | drops exactly the roles that neither a user nor a team holds, takes no assignment along, and spoils no row |
| `ClaimsEncoding.ClaimsObjects.Position` | ansible_base/rbac/claims.py:159-172 | an object gets the next position when it is new and its old one otherwise; the index maps stay exact |
| `ClaimsEncoding.ClaimsObjects.ResolveTeamOrganizationReferences` | ansible_base/rbac/claims.py:65-122 | every team with a known organization points at it, organizations are only appended, and exactly the missing ones |
| `ClaimsEncoding.PointersSurvive` | ansible_base/rbac/claims.py:102-122 | appending organizations invalidates no position given out before |
| `ClaimsEncoding.BuildObjectsAndRoles` | ansible_base/rbac/claims.py:125-184 | the indexes of each role stand, in order, for the ids it is held on; no object is listed twice; no organization beyond those of the assignments and of their teams; every object carries the name it came with |
| `ClaimsEncoding.GetUserClaimsHashableForm` | ansible_base/rbac/claims.py:439-484 | decodes indexes, skips those out of range and objects without id, sorts |
| `ClaimsEncoding.DecodedMeans` | ansible_base/rbac/claims.py:471-480 | decoding goes index by index: the id of the object, or its other id when that is absent, nothing when both are or the index is out of range |
| `ClaimsEncoding.RoundTrip` | ansible_base/rbac/claims.py:125-184 | decoding what was built gives, per role, the sorted ids of the original assignments |
| `ClaimsEncoding.GetUserClaims` | ansible_base/rbac/claims.py:204-244 | the claims of a user hash as the assignments they were built from |
| `ClaimsEncoding.OrderDoesNotMatter` | ansible_base/rbac/claims.py:439-484 | the hashed form is the same for every order of the assignments |
| `ClaimsEncoding.SameFormSameContents` | ansible_base/rbac/claims.py:439-484 | and equal hashed forms mean the same global roles, the same roles and the same objects with the same multiplicity |
| `SortedText.AtMostMeans` | ansible_base/rbac/claims.py:461-482 | the order is lexicographic: a text precedes another if it begins it or has the smaller character where they first differ |
| `SortedText.SameSortedIffSameContents` | ansible_base/rbac/claims.py:471-484 | two lists sort alike if and only if they have the same contents |
| `ClaimsSync.Database.GetOrCreateResource` | ansible_base/rbac/claims.py:317-361 | finds a known id, creates an unknown organization or team (its organization first), finds nothing for other types; what was known stays |
| `ClaimsSync.Database.ResolveClaims` | ansible_base/rbac/claims.py:385-409 | pass 1 resolves exactly the ids of the applicable roles |
| `ClaimsSync.Database.RemoveStale` | ansible_base/rbac/claims.py:415-436 | pass 3 removes exactly the managed assignments that are neither kept nor desired, although it compares only role and primary key |
| `ClaimsSync.Database.SaveUserClaims` | ansible_base/rbac/claims.py:364-436 | managed assignments end exactly as claimed, unmanaged ones as before; nothing but claimed organizations and teams is created |
| `ClaimsSync.SavedMeans` | ansible_base/rbac/claims.py:364-436 | after saving, a managed assignment on an object is there exactly when the role exists here and an index claimed for it leads to an id known to be that object; a system-wide one exactly when it is claimed; unmanaged ones are as before |
| `ClaimsSync.CreatedIff` | ansible_base/rbac/claims.py:317-361 | the id a claimed index leads to is known after saving exactly if it was before or is of an organization or a team |
| `ClaimsSync.OnlyClaimedNew` | ansible_base/rbac/claims.py:317-361 | known ids keep what they name, and every new one is claimed and names an organization or a team |
| `ClaimsSync.SavingAgainChangesNothing` | ansible_base/rbac/claims.py:364-436 | two saves of the same claims, one after the other: the second is allowed, creates nothing and changes no assignment, unknown ids that cannot be created included |
| `ClaimsSync.HashesAgreeIff` | ansible_base/rbac/claims.py:364-484 | after saving, the hash form computed here equals that of the claims received if and only if every claimed role applies here, is claimed on at least one object, and nothing is claimed twice or out of reach |
| `Attributes.ProcessUserAttributes` | ansible_base/authentication/utils/claims.py:424-470 | names, trigger values and the join are folded first; then, with all early exits, the answer is that of the unshortened any or all over every test |
| `Attributes.FinalVerdict` | ansible_base/authentication/utils/claims.py:481-489 | once an early exit is taken no further test could change the verdict |
| `Attributes.InBySets` | ansible_base/authentication/utils/claims.py:524-555 | the set comparison of the in operator equals the per-value membership loop |
| `Attributes.ProcessScalarOperator` | ansible_base/authentication/utils/claims.py:557-579 | the per-value loop that stops early gives the verdict of the full loop |
| `Attributes.OrderDoesNotMatter` | ansible_base/authentication/utils/claims.py:424-470 | neither the order of attributes nor order or repetition of values changes the answer |
| `Attributes.GrantedMeans` | ansible_base/authentication/utils/claims.py:424-470 | "or" is granted exactly when some attribute passes, "and" exactly when none fails and some passes, so a trigger that asks nothing grants nothing |
| `Attributes.HoldsMeans` | ansible_base/authentication/utils/claims.py:491-601 | the first operator present decides: equal text, a match, a part with something before and after it, an end with something before it, or a listed text that folds alike |
| `Attributes.PreparedTriggerMeans` | ansible_base/authentication/utils/claims.py:321-335 | of the conditions on attributes whose names differ only in case the last one counts, once |
| `Attributes.CaseDoesNotMatter` | ansible_base/authentication/utils/claims.py:388-405 | names, trigger values, the join and the values of the user may be in any case without changing the answer |
| `Expansion.ExpandStrings` | ansible_base/authentication/utils/authenticator_map.py:113-124 | the nested loops substitute at the first hole, value by value |
| `Expansion.ExpandedCounts` | ansible_base/authentication/utils/authenticator_map.py:113-124 | there are as many strings as the numbers of values multiply to |
| `Expansion.ExpandedSubstitutes` | ansible_base/authentication/utils/authenticator_map.py:113-124 | every expanded string is one choice of values, substituted one after the other at the first hole there then is, and every choice gives one |
| `Expansion.HolesLeft` | ansible_base/authentication/utils/authenticator_map.py:113-124 | with one substitution per hole of the template, exactly as many holes are left as the chosen values brought along |
| `Expansion.AllFilledIff` | ansible_base/authentication/utils/authenticator_map.py:113-124 | every hole of every expanded string is filled if and only if no value of an attribute used has a hole |
| `Expansion.AllFillings` | ansible_base/authentication/utils/authenticator_map.py:113-124 | when only values for the last hole may have holes, the result is exactly all independent fillings of the holes |
| `Expansion.RenderMeans` | ansible_base/authentication/utils/authenticator_map.py:113-124 | a template reads token by token, an unfilled hole as the expansion syntax it was written with |
| `Expansion.ReplacedAt` | ansible_base/authentication/utils/authenticator_map.py:113-124 | a substitution puts the value in the place of the first hole and moves nothing else |
| `Expansion.CannotExpandIff` | ansible_base/authentication/utils/authenticator_map.py:43-110 | a field cannot be expanded exactly when it names an attribute that is missing, empty or not text, or names none and has something malformed |
| `Expansion.NormalizeAttributes` | ansible_base/authentication/utils/authenticator_map.py:127-173 | succeeds exactly when every attribute used has values and all of them are text |
| `Expansion.DictCartesianProduct` | ansible_base/lib/utils/collection.py:32-78 | nothing for an empty dictionary, otherwise exactly every combination, as many as the lengths multiply to |
| `Expansion.ExpandSyntax` | ansible_base/authentication/utils/authenticator_map.py:43-110 | expands exactly the fields that can be expanded and combines them |
| `Expansion.FieldTextsAreFillings` | ansible_base/authentication/utils/authenticator_map.py:43-110 | the texts of a field are the fillings of its template, at least one, under the same condition |
| `RoleMaps.GroupsMean` | ansible_base/authentication/utils/claims.py:218-264 | names compare folded and the first key present decides: with has_or some listed name must match a group of the user, with has_and every one, with has_not none; otherwise the trigger is skipped, and it never denies |
| `RoleMaps.VerdictMeans` | ansible_base/authentication/utils/claims.py:69-112 | the last trigger of a map counts; a disabled map or one with an invalid trigger says nothing; the revoke flag turns silence into a refusal and changes nothing else |
| `RoleMaps.KeyByKind` | ansible_base/authentication/utils/claims.py:128-155 | what each map type claims, by the kind of role named: an organization role that a role map gives together with a team is claimed in the team |
| `RoleMaps.TouchesMeans` | ansible_base/authentication/utils/claims.py:128-155 | which maps bear on a role, a team membership or an organization membership: those with an expansion that is understood and names it |
| `RoleMaps.ClaimsInProgress.AddRole` | ansible_base/authentication/utils/claims.py:178-215 | one entry of the nested dictionaries changes and every other lookup stays |
| `RoleMaps.ClaimsInProgress.ApplyMap` | ansible_base/authentication/utils/claims.py:128-155 | an applicable map changes exactly the roles and memberships one of its expansions is about |
| `RoleMaps.TriggersResult` | ansible_base/authentication/utils/claims.py:86-98 | a map with several triggers goes by the last one |
| `RoleMaps.CreateClaims` | ansible_base/authentication/utils/claims.py:40-170 | the nested role maps, memberships, superuser flag and access answer every question as the last applicable map about it |
| `RoleMaps.AnswerIsOfTheLast` | ansible_base/authentication/utils/claims.py:69-155 | the answer is the verdict of the map after which no applicable map is about the question |
| `RoleMaps.NoAnswerIff` | ansible_base/authentication/utils/claims.py:69-155 | there is no answer exactly when no applicable map is about it |
| `Reconcile.RoleUserAssignmentsCache.CacheExisting` | ansible_base/authentication/utils/claims.py:946-1046 | caches exactly system-wide assignments and those on local objects with numeric ids |
| `Reconcile.FirstClaimWins` | ansible_base/authentication/utils/claims.py:1086-1118 | whatever follows, the first claim about an assignment decides its status |
| `Reconcile.MarkedInTurn` | ansible_base/authentication/utils/claims.py:798-833 | claims marked list after list are marked as one list |
| `Reconcile.ReconcileUser.ComputePermissions` | ansible_base/authentication/utils/claims.py:776-833 | system, organization and team claims are marked in this order; organizations and teams that do not exist are skipped |
| `Reconcile.ReconcileUser.ApplyPermissions` | ansible_base/authentication/utils/claims.py:835-885 | for every order of the entries, the assignments end as wanted if and only if every newly claimed role fits its target and, when users are removed, no held, unclaimed assignment has an object that cannot be loaded; a call raises exactly when some role does not fit; without one all is as wanted but for such assignments, which stay; in any case every assignment is as before or as wanted |
| `Reconcile.ReconcileUser.ManagePermissions` | ansible_base/authentication/utils/claims.py:776-856 | the whole reconciliation: claimed true present, claimed false absent, unclaimed kept exactly if remove_users is off, all others untouched, under the conditions above; nothing is given or taken when all is already so |
| `Reconcile.SecondRunIsQuiet` | ansible_base/authentication/utils/claims.py:776-856 | the outcome is a fixed point, so a second run finds all already so |
| `Login.FirstIsAnswer` | ansible_base/authentication/utils/claims.py:776-833 | what the flattened claims say first about the system or an existing organization or team is what the nested role maps answer |
| `Login.AnswerNamesRole` | ansible_base/authentication/utils/claims.py:128-155 | a role is claimed only where its type allows, except that an organization role may be claimed in a team |
| `Login.SayMeans` | ansible_base/authentication/utils/claims.py:776-833 | what the maps say about an assignment of a role in the system, in an organization or in a team: the answer of the last applicable map, or kept unless users are removed |
| `Login.SayElsewhere` | ansible_base/authentication/utils/claims.py:835-856 | assignments on anything else are kept, unless users are removed and the assignment is on a local object with a numeric id |
| `Login.MisfitIsRefused` | ansible_base/authentication/utils/claims.py:872-885 | no grant is refused exactly when the maps claim no organization role in an existing team and, where users may not have system roles, no system role the user does not hold |
| `Login.LogIn` | ansible_base/authentication/utils/claims.py:630-677 | a login from end to end: denied, it changes nothing; allowed, every assignment ends as the last applicable map about it says, or is kept when there is none and users are not removed, if and only if no grant is refused and, when users are removed, nothing local that is held has lost its object; without a refusal exactly what is lost stays; in any case every assignment ends as it was or as the maps say |
| `RedisCache.DabRedisCache.BroadcastInvalidation` | ansible_base/lib/cache/redis_cache.py:75-118 | publishes one message with the keys and the host id exactly when broadcasting is on, outside the guard and with a dispatcher |
| `RedisCache.DabRedisCache.Add` | ansible_base/lib/cache/redis_cache.py:120-127 | writes and publishes only when the key was absent |
| `RedisCache.DabRedisCache.Set` | ansible_base/lib/cache/redis_cache.py:139-143 | writes and publishes |
| `RedisCache.DabRedisCache.Delete` | ansible_base/lib/cache/redis_cache.py:149-153 | the key is gone, every other key keeps its presence and value, and the deletion is published, present or not |
| `RedisCache.ClearCache` | ansible_base/lib/cache/tasks.py:11-50 | removes the given keys and all that the resolver yields for them, one level deep, up to a failure of the resolver for a key; every other key keeps its presence and value; the hook is told exactly those removed |
| `RedisCache.ReceiveInvalidation` | ansible_base/lib/cache/tasks.py:77-97 | a node drops the keys of every message that is not its own, and nothing else |
| `CacheCluster.Perform` | ansible_base/lib/cache/redis_cache.py:120-153 | the methods of one node make the steps of the cluster: same store, and one copy of what is published for every node |
| `CacheCluster.StepEffect` | ansible_base/lib/cache/redis_cache.py:120-153 | a value leaves a store only by a delete at its node or by a delivered message that names its key and is not of its own host id; it enters and changes only by a write at its node |
| `CacheCluster.FlightEffect` | ansible_base/lib/cache/redis_cache.py:75-118 | a write puts one copy for every node in flight, a delivery takes one out, nothing else moves |
| `CacheCluster.LatestEffect` | ansible_base/lib/cache/redis_cache.py:120-153 | the recorded last write of a key changes exactly at a write or delete of that key that takes place, an add of an absent key included |
| `CacheCluster.SafeIffDistinctHosts` | ansible_base/lib/cache/redis_cache.py:75-153 | in every run a node that holds a superseded or deleted value still has an invalidation for that key in flight, if and only if no two nodes share a non-empty host id |
| `CacheCluster.DrainedClusterAgrees` | ansible_base/lib/cache/redis_cache.py:75-153 | with nothing in flight at most one node holds a key, and it holds the last write |
| `CacheCluster.DeliveryShrinksFlight` | ansible_base/lib/cache/tasks.py:77-97 | delivery creates no message |
| `CacheCluster.Drain` | ansible_base/lib/cache/tasks.py:77-97 | so every reachable cluster drains, in as many deliveries as there are messages |
| `CacheCluster.WriteKeptIffNamed` | ansible_base/lib/cache/tasks.py:77-97 | after a write into a drained cluster and deliveries that drain it again, in any order, the writer still holds what it wrote if and only if its host id is not empty |
| `FallbackCache.GetIsMissOrLatest` | ansible_base/lib/cache/fallback_cache.py:67-113 | in every run of operations, failures, recoveries, expiries and restarts in harmless states (no marker, or an outage that left no user data in the fallback and no outdated entry in the primary) a get answers a miss or the latest write |
| `FallbackCache.RunKeepsInv` | ansible_base/lib/cache/fallback_cache.py:67-113 | without the marker the fallback holds no user data and the primary nothing outdated, in every state of such a run |
| `FallbackCache.StoreLaws` | ansible_base/lib/cache/fallback_cache.py:52-65 | what later gets see of an add, set, delete or clear, key by key, and what the operation answers |
| `FallbackCache.BeliefFollowsStore` | ansible_base/lib/cache/fallback_cache.py:52-65 | what a client believes after the reply it got is what a store holds that held exactly what was believed before |
| `FallbackCache.CheckEndsOutageIff` | ansible_base/lib/cache/fallback_cache.py:99-113 | a check ends the outage exactly when the primary answers, with both stores empty; otherwise marker and stores stay and the next operation may queue another check |
| `FallbackCache.QueuesCheckIff` | ansible_base/lib/cache/fallback_cache.py:89-97 | an operation during an outage queues a recovery check exactly when no other process claims the recovery and no check is marked as running, or when it clears those entries itself |
| `FallbackCache.OutageEndsIff` | ansible_base/lib/cache/fallback_cache.py:89-113 | with the primary back, one operation and one check end the outage exactly when a check was queued already or the operation queues one |
| `FallbackCache.OutageEndsAfterExpiry` | ansible_base/lib/cache/fallback_cache.py:89-113 | and always once the claim and the mark of a process that died have expired |
| `FallbackCache.RestartSafeIff` | ansible_base/lib/cache/fallback_cache.py:32-46 | after a restart in a reachable state all gets of all later runs answer a miss or the latest write, if and only if that state is harmless |
| `FallbackCache.RestartServesStaleValue` | ansible_base/lib/cache/fallback_cache.py:32-46 | a concrete run in which a restart during an outage serves an overwritten value |
| `FallbackCache.DabCacheWithFallback.OpWithFallback` | ansible_base/lib/cache/fallback_cache.py:67-87 | the operation as coded is the step of the model and keeps the invariant: the fallback answers with the marker, the primary without it, and a failure of the primary sets the marker and answers from the fallback |
| `FallbackCache.DabCacheWithFallback.CheckPrimaryCache` | ansible_base/lib/cache/fallback_cache.py:99-113 | the recovery check as coded is the step of the model: with the primary back it clears both stores and removes the marker, otherwise it leaves both stores and the marker, and in either case the mark of a running check goes |

## Left out

- Object roles on remote objects, and the part of the code that resolves them.
- Django's ORM, SQL, transactions, locks, and the savepoint retries of `_safe_m2m_add` and `_safe_bulk_create_evaluations`.
- Moving an object to another parent, and editing the permissions of a role definition: both lean on state that signals stash on instances.
- Deletions inside a deferral block, which the code documents as possibly leaving stale evaluations; errors raised while flushing.
- `needed_updates_on_assignment` and `update_after_assignment`, which nothing calls.
- Validation of a new assignment (enabled roles, content types of actors): the pipeline starts from resolved requests that passed it.
- Global assignments and permissions through singleton roles, in the tables of the first part.
- Registry registration and managed role constructors; audit lines, activity stream, reverse synchronisation, signals to other applications.
- RolePermissions.PermissionsAllowedForRole: permissions of remote types are not modelled, and the database is taken to list the codenames of a type in the order the model class does.
- ClaimsEncoding.GetUserClaimsHashableForm: indexes are natural numbers; negative indexes, which Python would read from the end, are not modelled, nor are JSON serialisation and SHA-256.
- ClaimsSync.Database.GetOrCreateResource: a missing organization or team is created under an unused name; the recovery by natural key after a name clash, and the skip after an integrity error, are not modelled.
- ClaimsSync.Database.SaveUserClaims: constructing a managed role definition that is missing counts as finding it; claims on which the code raises are excluded: positions out of range and roles of another type among the roles that apply, ids of another type, unknown teams without an organization, system roles where users may not have any.
- Attributes.ProcessUserAttributes: trigger values of the scalar operators are text, and conditions are dictionaries; other shapes make the code raise. The join condition is a parameter of its own, not an entry among the attributes.
- Expansion.ExpandStrings: templates are sequences of literal, hole and broken tokens, so backslash escapes in a value and holes that appear only by joining a value with the text around it are not modelled.
- RoleMaps.CreateClaims: rule responses, log lines and the case without the RBAC application.
- Reconcile.ReconcileUser.ManagePermissions: giving a role fails for the reasons above only; creating organizations and teams before the reconciliation is not modelled.
- Login.LogIn: saving the claims and the superuser flag on the user, and creating missing organizations and teams beforehand, are not modelled.
- Expiry, key versions, bulk writes, increments and exceptions swallowed by the Redis cache wrapper; lost messages.
- Check-then-act races between processes around the fallback marker: operations are atomic.
- Authenticator plugins, serializers, views, migrations and settings.
