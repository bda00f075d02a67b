# bx_cm content migration — a Dafny model

This project models the decision logic of a tool that migrates content between two
organisations of a hosted GIS platform. The tool snapshots users and groups to local files. It
matches source users to target users by email. It replays source groups onto the target, and on
the way it rewrites their access level to suit the target's deployment mode (single-tenant or
multi-tenant). It also decides whether to reuse, replace or create items and published layers.

Everything remote is abstract. The platform's answers (user lists, group searches, member lists,
deployment properties) are parameters. Its content is a sequence of items. The calls that
replay a group are returned as a list of actions: `Create(def)`, `ReassignTo(owner)`,
`AddUsers(users)`.

Modules, one per component:

- `Wrappers` (wrappers.dfy): `Option`, `Result`, `Outcome`, and the exceptions of the source as
  an `Error` datatype.
- `Text` (text.dfy): Python's `str.split` on one character, and `join`.
- `Identity` (identity.dfy): `Group` and `User` construction from platform records.
- `Snapshot` (snapshot.dfy): the per-organisation store. It maps a file name to the records in
  that file, and every backup replaces the file.
- `Matching` (matching.dfy): `match_users`.
- `GroupMigration` (group_migration.dfy): `_migrate_group` and `migrate_groups`.
- `Content` (content.dfy): the item helpers of `ArcGISOnlineHelper`.

Behaviour of the code that is easy to misread:

- An empty `full_name` does not fail. Splitting `""` on `,` gives one empty piece, so first and
  last name are both empty. The raise branch of the name parser cannot be reached
  (`Identity.ParseName`).
- The public-to-org rule looks up the key `portalModel`, as the code spells it. A missing key is
  a KeyError. A public group from a single-tenant source therefore aborts the run when the
  target has no `portalModel` key (`GroupMigration.PublicWithoutPortalModelKey`).
- `migrate_groups` catches nothing. The first failing group, through an empty live search or a
  missing property, ends the run. The calls already made for the earlier groups (create,
  reassign, add) stay made (`GroupMigration.MigrateEachStopsAtFirstFailure`).
- `publish_item` with `over_write` deletes every Feature Layer of the same title, not only the
  first one (`Content.PublishReplaces`).
- `backup_users` deletes its file before fetching, so a failed fetch leaves an empty snapshot.
  `backup_groups` fetches first, so a failed fetch keeps the old snapshot.

## Model

| member | source | states |
|---|---|---|
| Text.Split | python/migration_helper.py:45 | `full_name.split(',')` always yields at least one piece |
| Text.SplitNoSep | python/migration_helper.py:45 | no piece of a split contains the separator |
| Text.JoinSplit | python/migration_helper.py:45 | joining the pieces with the separator gives back the original string |
| Text.SplitJoin | python/migration_helper.py:45 | splitting a join of separator-free pieces gives back the pieces, so split is a bijection onto separator-free non-empty lists |
| Identity.NewGroupStoresTagsAsSnippet | python/migration_helper.py:8-16 | a constructed group has `snippet == tags`; the snippet argument has no effect; every other field is stored as passed |
| Identity.FromApiGroupFields | python/migration_helper.py:19-21 | converting a platform group keeps id, title, description, tags, phone, access and invitation flag, and stores its tags as its snippet, whatever its snippet was |
| Identity.NewGroup | python/migration_helper.py:8-16 | the constructed group holds `tags` both as its tags and as its snippet, and every other argument as passed |
| Identity.FromApiGroup | python/migration_helper.py:19-21 | a converted platform group has snippet equal to the record's tags, and the record's id, title, description, phone, access and invitation flag |
| Identity.ParseName | python/migration_helper.py:45-57 | name derivation never reaches the raise branch |
| Identity.ParseNameOuterPieces | python/migration_helper.py:45-55 | in all three branches the last name is the first comma piece and the first name is the final piece |
| Identity.ParseNameSegments | python/migration_helper.py:45-55 | the last name is the text before the first comma, or the whole name; the first name is the text after the final comma, or the whole name; neither contains a comma; a name without a comma gives itself twice; nothing is trimmed |
| Identity.ParseNameExamples | python/migration_helper.py:45-55 | "Doe, John" gives last "Doe" and first " John"; "" gives two empty names; "Smith" gives "Smith" twice; "a,b,c" gives "a" and "c" |
| Identity.NewUser | python/migration_helper.py:26-57 | a constructed user has credits -1 and the given groups, id, username, full name, email, role, org and favourite group; its last name is the first comma piece of the full name and its first name the final piece, neither containing a comma |
| Identity.ConvertGroups | python/migration_helper.py:64-69 | a user's groups are the record's groups converted one for one in order, and none when the record has no `groups` |
| Identity.FromApiUser | python/migration_helper.py:60-71 | a stored user has the default credits, the record's id, email and full name, its converted groups and the parsed names |
| Identity.FromApiUserSpec | python/migration_helper.py:26-71 | credits are -1; groups are converted in order (snippet becoming tags) or empty without a `groups` key; every profile field is copied; names are the outer comma pieces of the full name |
| Snapshot.Replace | python/migration_helper.py:123-129 | delete-then-insert leaves exactly one record in the file and changes no other file |
| Snapshot.ReadFirst | python/migration_helper.py:166-167 | `store.all()[0]` fails exactly when the file is absent or empty, and otherwise returns its first record |
| Snapshot.ReadUsers | python/migration_helper.py:165-167 | reading the users snapshot succeeds exactly when `users.json` has a first record and that record holds users, and then returns them; a first record without `users` is a KeyError |
| Snapshot.ReadGroups | python/migration_helper.py:210-213 | reading the groups snapshot succeeds exactly when `groups.json` has a first record and that record holds groups, and then returns them; a first record without `groups` is a KeyError |
| Snapshot.ConvertUsers | python/migration_helper.py:107-109 | the saved users are the fetched users converted one for one in order |
| Snapshot.ConvertApiGroups | python/migration_helper.py:119-121 | the saved groups are the fetched groups converted one for one in order |
| Snapshot.BackupUsers | python/migration_helper.py:98-112 | the backup fails exactly when the fetch fails; after a successful fetch the snapshot reads back as the converted users; after a failed one it cannot be read; no other file changes |
| Snapshot.BackupGroups | python/migration_helper.py:115-129 | the backup fails exactly when the search fails, and then leaves the store unchanged; after a successful search the snapshot reads back as the converted groups; no other file changes |
| Snapshot.BackupUsersReadBack | python/migration_helper.py:98-112 | after a successful users backup, the snapshot reads back as exactly the fetched users converted in order, and no other file changes |
| Snapshot.BackupUsersFailureWipes | python/migration_helper.py:101-107 | a failed user fetch still leaves `users.json` unreadable, because the file was deleted first |
| Snapshot.BackupGroupsReadBack | python/migration_helper.py:115-129 | after a successful groups backup, N groups read back field for field, each with snippet equal to its tags, and no other file changes |
| Snapshot.BackupGroupsFailureKeeps | python/migration_helper.py:117-125 | a failed group search leaves the store, old snapshot included, unchanged |
| Snapshot.BackupsReplace | python/migration_helper.py:98-129 | a second backup's store does not depend on the first backup, so backing up the same data twice equals backing it up once |
| Snapshot.BackupUnfinished | python/migration_helper.py:86-96 | the unfinished `backup` removes `users.json`, keeps every other file, and fails exactly when the fetch fails |
| Snapshot.BackupUnfinishedLeavesNoUsers | python/migration_helper.py:86-96 | after `backup` no users snapshot can be read |
| Matching.FirstEmailMatch | python/migration_helper.py:175-178 | the inner loop stops at the earliest target with an equal email, and finds none exactly when no target has that email |
| Matching.MatchUsers | python/migration_helper.py:173-180 | there are no more pairs than source users, and a first source user that has an equal-email target is paired first, with a target of its email |
| Matching.MatchUsersPairs | python/migration_helper.py:173-180 | every pair has equal emails (case-sensitive) and a target from the target snapshot; there are at most as many pairs as source users |
| Matching.MatchUsersEarliest | python/migration_helper.py:174-178 | each pair's target is the first target in target order with the source's email |
| Matching.MatchedSourcesPairs | python/migration_helper.py:174-177 | there is one pair per matched source position, and each pair's source is the user at that position |
| Matching.MatchedSourcesIncreasing | python/migration_helper.py:174-177 | the matched source positions are in range and strictly increasing, so sources keep their order and appear at most once |
| Matching.MatchedSourcesMembers | python/migration_helper.py:174-177 | a source position is matched exactly when the user there shares its email with some target |
| Matching.MatchUsersSpec | python/migration_helper.py:173-180 | pairs follow source order; each source user appears at most once; a source user is paired exactly when some target shares its email, and then with the earliest such target |
| Matching.MatchUsersLoop | python/migration_helper.py:173-180 | the nested loop with `break` computes the same pairs as the reference definition |
| Matching.MatchStores | python/migration_helper.py:165-180 | matching fails exactly when either users snapshot is missing, and otherwise returns the pairs of the two snapshots |
| Matching.MatchUsersExamples | python/migration_helper.py:173-180 | two sources with one email both pair with the one target; of two equal-email targets only the first is used |
| GroupMigration.Lookup | python/migration_helper.py:192 | a property lookup succeeds exactly when the key is present and fails with a KeyError otherwise |
| GroupMigration.CopyProperties | python/migration_helper.py:185-190 | the definition carries the seven copied properties of the live group unchanged |
| GroupMigration.TranslateAccess | python/migration_helper.py:192-198 | the access rewrite fails exactly when a property it reads is missing; `org` becomes `public` when the org-to-public rule applies, `public` becomes `org` when the public-to-org rule applies, and access changes in no other way |
| GroupMigration.PublicToOrgRule | python/migration_helper.py:195-198 | the `elif` raises exactly when access is `public` and the source `portalMode`, or for a single-tenant source the target `portalModel`, is missing; it yields `org` for a non-`org` access exactly when the public-to-org rule applies, and keeps access otherwise |
| GroupMigration.TranslateGroup | python/migration_helper.py:185-198 | translation fails exactly when a property the rules read is missing; a translated definition differs from the copied properties in at most its access |
| GroupMigration.TranslateGroupSpec | python/migration_helper.py:185-198 | translation fails exactly when a property the rules read is missing; otherwise the six other properties are copied verbatim, `org` becomes `public` for a single-tenant target, `public` becomes `org` under the `portalModel` rule, and access is unchanged in every other case |
| GroupMigration.TranslateAccessChanges | python/migration_helper.py:192-198 | access only ever changes from `org` to `public` or from `public` to `org` |
| GroupMigration.PublicWithoutPortalModelKey | python/migration_helper.py:195-198 | when the target has no `portalModel` key, the public-to-org rule never fires; a public group from a single-tenant source raises a KeyError, and from a multi-tenant source keeps its access |
| GroupMigration.MigrateGroup | python/migration_helper.py:182-206 | a group's calls are produced exactly when its translation succeeds, and a failed translation raises before anything is created |
| GroupMigration.GroupActionsSpec | python/migration_helper.py:200-205 | the create comes first and only once; a reassign to the owner happens exactly when the owner is not the migration admin, and before any add; one add of exactly the members happens exactly when there are members |
| GroupMigration.GroupActionsCreateOnce | python/migration_helper.py:200 | each migrated group issues exactly one create, with its translated definition |
| GroupMigration.GroupActions | python/migration_helper.py:200-205 | one to three calls, the first the create of the definition and no later one a create |
| GroupMigration.PlanFor | python/migration_helper.py:217 | an empty live search for a snapshot id raises an IndexError |
| GroupMigration.MigrateGroups | python/migration_helper.py:210-214 | a missing or unreadable groups snapshot ends the run with no calls |
| GroupMigration.MigrateEach | python/migration_helper.py:216-218 | the run ends without an exception exactly when every group's search and translation succeed; an exception that ends it is the failure of one of the groups |
| GroupMigration.MigrateEachRun | python/migration_helper.py:200-218 | when the first k entries' plans succeed and entry k's fails (or k is the end), the run's calls are exactly the planned calls of the first k entries in order, and it ends with entry k's error (or with none) |
| GroupMigration.PlannedCreates | python/migration_helper.py:200-218 | among the planned calls of the first n entries, the creates are those entries' translated definitions, one per entry, in snapshot order |
| GroupMigration.MigrateEachAllSucceed | python/migration_helper.py:200-218 | when every search and translation succeeds, the run ends normally and its calls are, entry by entry in snapshot order, the create of the translated first live hit followed by that group's reassign and add; so one group is created per entry, in order |
| GroupMigration.MigrateEachStopsAtFirstFailure | python/migration_helper.py:200-218 | when group k is the first to fail, the run ends with its error after making exactly the calls of the k groups before it, in order: each one's create, reassign and add |
| GroupMigration.MigrateAfterBackup | python/migration_helper.py:208-218 | migrating right after a groups backup walks the backed-up groups' ids in their order |
| Content.NewHelper | python/aol_helper.py:10-20 | constructing the helper leaves the platform's content unchanged, and the folders afterwards are the old ones plus the analysis folder when its name is non-empty, and nothing else |
| Content.NewHelperSpec | python/aol_helper.py:10-20 | `common_tags` is kept exactly when it is a non-empty list, and is `[]` otherwise; the analysis folder is kept and created exactly when a non-empty name is given; otherwise the platform is left exactly as it was |
| Content.UploadTags | python/aol_helper.py:84-87 | upload tags are the common tags followed by the given tags when those are a list, and the common tags alone otherwise |
| Content.Search | python/aol_helper.py:29-33 | the search returns platform items of the requested type, all of them |
| Content.FirstTitled | python/aol_helper.py:35-38 | the loop returns the first result whose title is exactly the requested one, and None exactly when there is none |
| Content.FirstTitledLoop | python/aol_helper.py:35-38 | the loop with its early return computes the same selection |
| Content.FirstMatch | python/aol_helper.py:22-38 | the first platform item with the exact title and requested type, and None exactly when there is none |
| Content.SearchThenSelect | python/aol_helper.py:29-38 | selecting from the typed search is the same as taking the first matching platform item |
| Content.GetItemIsFirstMatch | python/aol_helper.py:26-38 | with a title given, `get_item` returns the first platform item that has that exact title and the requested type |
| Content.GetItemSpec | python/aol_helper.py:22-38 | `get_item` fails exactly when no title is given; otherwise it returns the first platform item with that exact title and type, or None when there is none |
| Content.GetItem | python/aol_helper.py:22-38 | `get_item` fails exactly when no title is given, with the title exception; a returned item is a platform item with that exact title and the requested type |
| Content.Add | python/aol_helper.py:51 | an added item gets a fresh id, the given title, type, folder and tags, and goes at the end of the content |
| Content.Without | python/aol_helper.py:47 | deleting an item removes it and keeps every other item |
| Content.Delete | python/aol_helper.py:47 | a deleted item is no longer on the platform, every other item still is, and folders and the next id are unchanged |
| Content.DeleteKeepsValid | python/aol_helper.py:58-62 | deleting keeps item ids distinct |
| Content.AddKeepsValid | python/aol_helper.py:51 | adding keeps item ids distinct and below the next id |
| Content.GetOrSaveItem | python/aol_helper.py:40-52 | fails exactly when no title is given; reports creation exactly when no item was found or `delete_existing` is set; an item reused is a platform item and nothing changes; a created item has the requested title and a fresh id |
| Content.GetOrSaveReuses | python/aol_helper.py:44-49 | an existing item without `delete_existing` is returned with False, and nothing changes |
| Content.GetOrSaveCreates | python/aol_helper.py:44-52 | otherwise the existing item, if any, is deleted; a new item with the requested title, type and tags is added to the analysis folder and returned with True; ids stay distinct |
| Content.DeleteIfExistsItem | python/aol_helper.py:54-62 | returns True and deletes exactly when `get_item` finds an item; returns False and changes nothing otherwise; fails when no title is given |
| Content.ScanOverwrite | python/aol_helper.py:69-72 | with `over_write`, the scan deletes exactly the exact-title results |
| Content.ScanKeep | python/aol_helper.py:69-74 | without `over_write`, the scan deletes nothing and stops at the first exact-title result |
| Content.WithoutLayers | python/aol_helper.py:68-72 | the kept items are exactly those that are not Feature Layers of the title |
| Content.PublishScan | python/aol_helper.py:68-74 | the scan stops with an existing layer only when `over_write` is off, and that layer is a result with the exact title; without `over_write` a finished scan deleted nothing; folders and the next id never change |
| Content.PublishItem | python/aol_helper.py:64-77 | the returned layer has the item's title and is a Feature Layer; when none is published, `over_write` was off, nothing changed and the layer is an existing item; a published layer has a fresh id and comes last |
| Content.PublishReuses | python/aol_helper.py:64-74 | when a Feature Layer of the same title exists and `over_write` is false, the first one is returned with False and nothing is published or deleted |
| Content.PublishReplaces | python/aol_helper.py:64-77 | otherwise every Feature Layer of that title is gone, all other items keep their order, and the new layer comes last, returned with True; ids stay distinct |
| Content.UploadCsv | python/aol_helper.py:83-91 | the CSV is added outside any folder with the layer name, the merged tags and the type the platform infers from the file, then published as a Feature Layer with the same title and tags, with no existence check |
| Content.UploadShapefile | python/aol_helper.py:103-110 | the zip is added outside any folder as a Shapefile with the layer name and the merged tags, then published directly as a Feature Layer with the same title and tags |

## Left out

- The platform client and every remote call. Search results, member lists and deployment
  properties are inputs. Creates, reassigns, adds, deletes and publishes are actions or state
  changes that always succeed. A remote rejection (RemoteOperationError) is modelled only as a
  failed user or group fetch during backup.
- The server-side meaning of the query strings. This covers the group filter
  `"!owner:esri_* & !Basemaps"`, the `"id:%s"` group search and the `"title:%s"` item search.
  The group search is a function from id to results, of which the code uses the first. The item
  search returns every item of the requested type in platform order. The exact-title check,
  which the code does itself, is modelled.
- The layer a publish produces is given the source item's title, folder and tags, and the type
  Feature Layer. What the platform really sets is not visible in the code.
- jsonpickle and TinyDB encoding. A record stores the entity values themselves, so decoding an
  encoded value is the identity here.
- Opening a TinyDB file for reading creates an empty file. The model does not track this,
  because `ReadFirst` treats an absent file and an empty one the same way.
- File-system calls: creating the data folder in `MigrationHelper.__init__`, path joins,
  `os.remove` (its effect is part of `Replace`). Logging.
- `backup_user_content`. Its folders and items are opaque platform objects.
- `move_to_analysis_folder`. Its result is a remote reply dict.
- The zip packaging in `upload_shapefile`. The model starts after it, and the zip itself is not
  represented because the item's type is given explicitly.
- File paths and file contents. A data file is known only by the type the platform infers for
  it when the item properties give none.
- The `isinstance` check at the top of `match_users`. It is a Python typing check.
- The script `content_migrator.py`. It only wires credentials, helpers and logging.
- Python `None` in string fields: a `None` full name raises AttributeError, and `layer_name`
  defaults to `None`. Non-string deployment-property values are also left out. All such fields
  are strings here.
- Python truthiness of platform items. The code tests `if existing_item:`, and a returned item is
  always treated as true.
