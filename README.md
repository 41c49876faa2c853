# laravel-role: permission registry, guard resolution and the role commands

A Dafny model of the core of `laravel-role`, a Laravel package that stores
permissions and roles per *guard* (an authentication context such as `web` or
`api`). The model covers:

- **The permission registry** (`src/Models/Permission.php`). A permission is a
  record `(permission_id, name, guard_name)`. Every lookup is a guard-scoped
  filter over the cached permission collection, and `(name, guard_name)` is
  unique. `findByName` and `findById` fail with `PermissionDoesNotExist`;
  `create` fails with `PermissionAlreadyExists`; `findOrCreate` returns the
  present record or inserts one. A guard left null is replaced by
  `Guard::getDefaultName` of the model class.
  - The pure part: `Table`, `CreateStep` and `FindOrCreateStep` in module
    `PermissionRegistry`.
  - The stateful part: class `PermissionStore`. It holds the stored rows and
    the cache register's snapshot of them (`Option<seq<Record>>`). The
    snapshot is loaded on the first lookup and dropped after every insert.
- **Guard resolution** (`src/Common/Guard.php`). The object's own `guard_name`
  comes first, then the class's default `guard_name` property, then the keys
  of the configured `auth.guards` whose provider model is the class. Failing
  all of those, `auth.defaults.guard` is used. The configuration and the
  reflection result are inputs (`GuardResolver.Env`).
- **`permission:show`** (`src/Commands/Show.php`). It selects which guards to
  show, then builds one table per guard: a header of role names and one row
  per permission, with a ✔ or · cell per role. The database reads are inputs.
  The guard list is plucked without `orderBy`, so it walks the rows in the
  database's own order. The per-guard reads are in `orderBy('name')` order.
  `ShowMatrix.Show` takes both orders as separate inputs.
- **`permission:CreateComponents-role`** (`src/Commands/CreateRole.php`, the
  command that creates a role). `makePermissions`
  splits the `|`-separated argument, trims every piece and calls
  `findOrCreate` on each piece in order. `handle` finds or creates the role
  first, then grants it the permissions.

PHP semantics the model spells out:

- Truthiness: `""` and `"0"` are false.
- `empty()` holds for null, `""` and `"0"`.
- `trim()` strips space, `\t`, `\n`, `\r`, NUL and vertical tab.
- `explode()` keeps empty pieces.
- `??` tests for null only.
- `Collection::unique()` keeps first occurrences.
- `mapWithKeys` keeps a repeated key at its first position, holding the last
  value written for it.

Files:

- `wrappers.dfy`: `Option` and `Result`.
- `php_strings.dfy`: the string built-ins.
- `guard.dfy`: guard resolution.
- `registry.dfy`: the permission registry.
- `show.dfy`: `permission:show`.
- `create_role.dfy`: `permission:CreateComponents-role`.

## Model

| member | source | states |
|---|---|---|
| PhpStrings.Trim | src/Commands/CreateRole.php:61 | the result is a contiguous part of the input, only trimmable characters were removed at either end, and neither end of the result is trimmable |
| PhpStrings.TrimIdempotent | src/Commands/CreateRole.php:61 | trimming a trimmed piece changes nothing |
| PhpStrings.TrimKeepsCharacters | src/Commands/CreateRole.php:61 | trimming introduces no character that was not in the piece |
| PhpStrings.Explode | src/Commands/CreateRole.php:56 | one piece more than there are separators (empty pieces kept), and no piece contains the separator |
| PhpStrings.ImplodeExplode | src/Commands/CreateRole.php:56 | joining the pieces with the separator gives back the argument, so nothing is lost by the split |
| PhpStrings.ExplodeImplode | src/Commands/CreateRole.php:56 | splitting joined separator-free pieces gives back exactly those pieces |
| GuardResolver.ConfigMatches | src/Common/Guard.php:50-61 | the result is exactly the keys of the configured guards whose provider model is the given class, and it has no more entries than there are guards |
| GuardResolver.ConfigMatchesConcat | src/Common/Guard.php:50-61 | the config fallback keeps configuration order: it distributes over concatenation of the guard list |
| GuardResolver.NoMatchNoKeys | src/Common/Guard.php:50-61 | when no guard's provider model is the class, the fallback is empty |
| GuardResolver.ClassAsWritten | src/Common/Guard.php:40-44 | the `$class` the filter compares against is null exactly for an object whose `guard_name` is set, and otherwise the subject's class |
| GuardResolver.GetNamesAsWritten | src/Common/Guard.php:34-62 | `getNames` as written: a truthy declared `guard_name` is the whole answer; otherwise the keys whose provider model is `===` to `$class`, which is the class, or null for an object whose `guard_name` is set |
| GuardResolver.GetNames | src/Common/Guard.php:34-62 | a truthy declared `guard_name` (object attribute, else class default) is the whole answer; otherwise a key is returned iff that guard has a provider whose configured model is the class, so a guard without a provider is never returned |
| GuardResolver.GetDefaultName | src/Common/Guard.php:22-27 | `getDefaultName` is a truthy name that `getNames` as written returns, or else `auth.defaults.guard` cast to string (null becomes "") |
| GuardResolver.GuardOrDefault | src/Models/Permission.php:140 | a guard the caller gives is kept; a null one becomes `Guard::getDefaultName` of the model class, so a truthy class default `guard_name` is used, and otherwise a resolved name or the configured default |
| GuardResolver.InstanceGuardWins | src/Common/Guard.php:36-47 | an object's own truthy `guard_name` is the only name and the default name, whatever the class default and the configuration say |
| GuardResolver.ClassDefaultUsed | src/Common/Guard.php:40-47 | without an object attribute, a truthy class default `guard_name` is the only name and the default name |
| GuardResolver.DefaultNameFromConfig | src/Common/Guard.php:22-27 | with no truthy `guard_name` declared (none, or `""`/`"0"`), `getDefaultName` is the key of the first guard whose provider model is `$class` (the class, or null for an object whose falsy `guard_name` is set), or `auth.defaults.guard` when that key is falsy |
| GuardResolver.DefaultNameFallsBack | src/Common/Guard.php:22-27 | with no truthy `guard_name` declared and no guard whose provider model is `$class`, `getDefaultName` is `auth.defaults.guard` cast to string (null becomes "") |
| GuardResolver.AsWrittenAgrees | src/Common/Guard.php:36-61 | for a class name, or an object whose attribute is null or truthy, the code as written and `GetNames` give the same names |
| GuardResolver.ProviderlessGuardReturnedAsWritten | src/Common/Guard.php:36-61 | an object with `guard_name` "" gets a provider-less guard from the code as written, and none from `GetNames`; its `getDefaultName` is then that guard, not `auth.defaults.guard` |
| PermissionRegistry.Filter | src/Models/Permission.php:154-157 | `getPermissions($params)` returns exactly the stored records matching the name-or-id and the guard, no more than are stored |
| PermissionRegistry.First | src/Models/Permission.php:141 | `->first()` is a match that is stored, it is absent iff no stored record matches, and no earlier record matches |
| PermissionRegistry.FirstIsHeadOfFilter | src/Models/Permission.php:141 | the first match is the head of the filtered collection, or null when that is empty |
| PermissionRegistry.GuardRows | src/Models/Permission.php:141 | the rows kept are exactly the stored rows of that guard |
| PermissionRegistry.LookupIsGuardScoped | src/Models/Permission.php:138-147 | a lookup over all rows answers as it does over the rows of its guard alone |
| PermissionRegistry.OtherGuardInvisible | src/Models/Permission.php:168-173 | a row of another guard, appended, changes no lookup |
| PermissionRegistry.LookupByName | src/Models/Permission.php:138-147 | success returns a stored record with that name and guard; failure happens iff no stored record has them, and it is `PermissionDoesNotExist` for that name and guard (never null) |
| PermissionRegistry.LookupById | src/Models/Permission.php:195-205 | success returns a stored record with that id and guard; failure happens iff none has them, and it is `PermissionDoesNotExist` with that id |
| PermissionRegistry.Construct | src/Models/Permission.php:120-127 | the constructor keeps a given `guard_name` and takes `auth.defaults.guard` (possibly null) when none is given |
| PermissionRegistry.ConstructorDefaultIgnoresClassGuard | src/Models/Permission.php:122 | the constructor's default is the configured default, not the class's declared guard that `getDefaultName` would give |
| PermissionRegistry.CreateStep | src/Models/Permission.php:164-184 | `PermissionAlreadyExists(name, guard)` iff the pair is stored, and then nothing is written; otherwise exactly one row carrying the name and guard is appended |
| PermissionRegistry.FindOrCreateStep | src/Models/Permission.php:216-226 | the record returned carries the name and guard and is stored; a present pair is returned without a write, an absent one is appended |
| PermissionRegistry.CountKeyUnique | src/Models/Permission.php:164-184 | with `(name, guard)` unique, a pair is counted once when stored and zero times otherwise |
| PermissionRegistry.AppendFreshKeepsWellFormed | src/Models/Permission.php:183 | inserting an absent pair under the next id keeps `(name, guard)` unique and ids below the next id |
| PermissionRegistry.CreateKeepsWellFormed | src/Models/Permission.php:164-184 | `create` preserves the uniqueness invariant |
| PermissionRegistry.FindOrCreateKeepsWellFormed | src/Models/Permission.php:216-226 | `findOrCreate` preserves the uniqueness invariant |
| PermissionRegistry.CreateAddsExactlyOne | src/Models/Permission.php:166-183 | a fresh pair succeeds, grows the table by one row, and leaves exactly one row with that pair |
| PermissionRegistry.CreateTwiceFails | src/Models/Permission.php:168-177 | creating the same pair twice fails the second time with `PermissionAlreadyExists`, writes nothing then, and leaves one row |
| PermissionRegistry.FindOrCreateKeepsRow | src/Models/Permission.php:216-226 | `findOrCreate` leaves every stored row at its position |
| PermissionRegistry.FindOrCreateIdempotent | src/Models/Permission.php:216-226 | a second `findOrCreate` returns the same record, writes nothing, and exactly one row has the pair |
| PermissionRegistry.GuardIsolation | src/Models/Permission.php:168-173 | creating or finding-or-creating a name under one guard changes no lookup of that name under another guard |
| PermissionRegistry.PermissionStore.constructor | src/Models/Permission.php:154-157 | the store starts from a well-formed table with no snapshot loaded |
| PermissionRegistry.PermissionStore.Forget | src/Models/Permission.php:93 | dropping the snapshot leaves the rows and the invariant intact |
| PermissionRegistry.PermissionStore.GetPermissions | src/Models/Permission.php:154-157 | the answer is the filter of the stored rows; the snapshot is loaded and equals the rows afterwards |
| PermissionRegistry.PermissionStore.Insert | src/Models/Permission.php:183 | an absent pair is stored under the next id, the invariant is kept, and the snapshot is dropped |
| PermissionRegistry.PermissionStore.FindByName | src/Models/Permission.php:138-147 | the answer is `LookupByName` under the given guard or, when null, `getDefaultName` of the model class; no row is written |
| PermissionRegistry.PermissionStore.FindById | src/Models/Permission.php:195-205 | the answer is `LookupById` under the given or defaulted guard; no row is written |
| PermissionRegistry.PermissionStore.Create | src/Models/Permission.php:164-184 | result and new rows are `CreateStep` under the given or defaulted guard; the snapshot is dropped only when a row was inserted |
| PermissionRegistry.PermissionStore.FindOrCreate | src/Models/Permission.php:216-226 | result and new rows are `FindOrCreateStep` under the given or defaulted guard, and the invariant is kept |
| ShowMatrix.Unique | src/Commands/Show.php:42 | `unique()` has no duplicates and holds exactly the values of its input |
| ShowMatrix.UniqueAppend | src/Commands/Show.php:42 | a value already seen is dropped and a new one goes last, so first occurrences keep their order |
| ShowMatrix.UniqueOfDistinct | src/Commands/Show.php:42 | `unique()` leaves a duplicate-free sequence as it is |
| ShowMatrix.PermissionGuards | src/Commands/Show.php:42 | `pluck('guard_name')` has one entry per permission, entry i being permission i's guard, so the permissions' order is kept |
| ShowMatrix.RoleGuards | src/Commands/Show.php:42 | the same for roles |
| ShowMatrix.GuardsToShow | src/Commands/Show.php:39-43 | a truthy guard argument is the only guard; otherwise the guards are duplicate-free and exactly those used by a permission or a role of the rows it is given |
| ShowMatrix.RolesOf | src/Commands/Show.php:48 | exactly the roles of the guard |
| ShowMatrix.RolesOfConcat | src/Commands/Show.php:48 | `whereGuardName` keeps the given (name) order: it distributes over concatenation |
| ShowMatrix.RolesOfOneGuard | src/Commands/Show.php:48 | roles all of the guard are all kept, once each and in order |
| ShowMatrix.RolesOfOtherGuards | src/Commands/Show.php:48 | roles of other guards are all dropped |
| ShowMatrix.PermissionNamesOf | src/Commands/Show.php:52 | exactly the names of the guard's permissions |
| ShowMatrix.PermissionNamesOfConcat | src/Commands/Show.php:52 | the permission names keep the given (name) order: the pluck distributes over concatenation |
| ShowMatrix.PermissionNamesOfOneGuard | src/Commands/Show.php:52 | permissions all of the guard give one name each, in order |
| ShowMatrix.PermissionNamesOfCount | src/Commands/Show.php:52 | there are as many names as permission rows of the guard |
| ShowMatrix.LastWithName | src/Commands/Show.php:48-50 | a value exists for a name iff some role has that name |
| ShowMatrix.LastWithNameIsLast | src/Commands/Show.php:48-50 | the value found for a name is the permission names of a role with that name after which no role has it, as `mapWithKeys` overwrites |
| ShowMatrix.MapWithKeys | src/Commands/Show.php:48-50 | the keys are the role names in first-occurrence order, without duplicates, each with a value, and each value comes from the last role with that name |
| ShowMatrix.LastWithNameOfDistinct | src/Commands/Show.php:48-50 | with distinct names, the value for role j's name is role j's permission names |
| ShowMatrix.MapWithKeysOfDistinct | src/Commands/Show.php:48-50 | with distinct names, the keys are the role names in order |
| ShowMatrix.KeyedValueOf | src/Commands/Show.php:48-50 | keys that are the role names, with last-role values, give role j's permission names under role j's name |
| ShowMatrix.MapWithKeysValueOfDistinct | src/Commands/Show.php:48-50 | with distinct names, the value under role j's name is role j's permission names |
| ShowMatrix.Cell | src/Commands/Show.php:56 | a cell is ✔ or ·, and ✔ iff the role's permission names contain the permission |
| ShowMatrix.Row | src/Commands/Show.php:54-58 | a row is the permission name followed by one cell per role key; a cell is ✔ or ·, and ✔ iff that role's names contain the permission |
| ShowMatrix.Layout | src/Commands/Show.php:54-61 | the header is an empty corner cell and the keys; there is one body row per permission name, row i being that name's row |
| ShowMatrix.LayoutCells | src/Commands/Show.php:54-61 | every row is as long as the header and starts with its permission; each cell is ✔ iff the column's role holds the row's permission |
| ShowMatrix.BuildTable | src/Commands/Show.php:48-61 | the header is an empty cell followed by the guard's distinct role names in order; there is one body row per permission of the guard, in order, each as long as the header and labelled with its permission name |
| ShowMatrix.CellMeaning | src/Commands/Show.php:54-61 | in a guard's table, every row matches the header's length and is labelled with its permission; each cell is ✔ or ·, and ✔ iff the column role's permission names contain the row's permission |
| ShowMatrix.CellFollowsRole | src/Commands/Show.php:48-58 | with distinctly named roles, cell (i, j+1) is ✔ iff role j grants permission i |
| ShowMatrix.CellsFollowRoles | src/Commands/Show.php:48-61 | with distinctly named roles, the header is the roles' names in order and every cell follows its role's grants |
| ShowMatrix.ListedNamesAreRoles | src/Commands/Show.php:48-61 | every name after the corner cell is the name of a role of the guard |
| ShowMatrix.HeaderOnlyGuardRoles | src/Commands/Show.php:48-61 | only roles of the guard appear as columns |
| ShowMatrix.BodyOnlyGuardPermissions | src/Commands/Show.php:52-58 | every row is labelled with a permission of the guard |
| ShowMatrix.Show | src/Commands/Show.php:39-61 | one table per guard shown, the guards walked in first-occurrence order of the rows as the database returns them, table i being the guard table of guard i over the name-ordered rows; with a truthy guard argument, exactly one table, for that guard |
| CreateRoleCommand.PermissionNames | src/Commands/CreateRole.php:56-61 | one name per piece, empty pieces included |
| CreateRoleCommand.PermissionNameShape | src/Commands/CreateRole.php:56-61 | no name contains the separator, and a non-empty name neither starts nor ends with a trimmable character |
| CreateRoleCommand.FindOrCreateAll | src/Commands/CreateRole.php:58-62 | one record per name |
| CreateRoleCommand.FindOrCreateAllKeepsRows | src/Commands/CreateRole.php:58-62 | the rows stored before stay in front, unchanged |
| CreateRoleCommand.AnswersSnoc | src/Commands/CreateRole.php:58-62 | appending a record for the last name extends a per-name answer for the preceding names |
| CreateRoleCommand.FindOrCreateAllNames | src/Commands/CreateRole.php:58-64 | record i carries name i and the guard, for every i: order is input order |
| CreateRoleCommand.FindOrCreateAllStored | src/Commands/CreateRole.php:58-62 | every returned record is stored afterwards |
| CreateRoleCommand.FindOrCreateAllMeaning | src/Commands/CreateRole.php:58-62 | record i carries name i and the guard and is stored afterwards |
| CreateRoleCommand.FindOrCreateAllKeepsWellFormed | src/Commands/CreateRole.php:58-62 | the calls keep `(name, guard)` unique |
| CreateRoleCommand.FindOrCreateFindsStored | src/Models/Permission.php:219-225 | a stored record is what `findOrCreate` returns for its own pair, without a write |
| CreateRoleCommand.FindOrCreateAllOfStored | src/Commands/CreateRole.php:58-62 | when every name's record is already stored, those records are returned in order and nothing is written |
| CreateRoleCommand.RerunAddsNothing | src/Commands/CreateRole.php:56-62 | running the permission part again with the same argument writes nothing and returns the same records |
| CreateRoleCommand.EveryNameStoredOnce | src/Commands/CreateRole.php:56-62 | afterwards every name is stored exactly once under the guard |
| CreateRoleCommand.GrantEdges | src/Commands/CreateRole.php:39 | the assumed effect of the unseen `givePermissionTo`: a grant edge (role, permission) exists iff the permission is in the given collection; a null collection grants nothing |
| CreateRoleCommand.RoleStore.constructor | src/Commands/CreateRole.php:35 | the role store starts from a well-formed roles table and the given grants |
| CreateRoleCommand.RoleStore.FindOrCreate | src/Commands/CreateRole.php:37 | the role and new roles table are `FindOrCreateStep` under the given or defaulted guard, so an existing role is not duplicated |
| CreateRoleCommand.RoleStore.GivePermissionTo | src/Commands/CreateRole.php:39 | the grants grow by exactly the edges for the given permissions; the roles table is unchanged |
| CreateRoleCommand.FindOrCreatePieces | src/Commands/CreateRole.php:58-62 | the loop's records and new rows are `FindOrCreateAll` of the trimmed pieces, in order, under the given or defaulted guard |
| CreateRoleCommand.MakePermissions | src/Commands/CreateRole.php:48-65 | an `empty()` argument returns nothing and writes nothing; otherwise the records and new rows are `FindOrCreateAll` of the trimmed pieces |
| CreateRoleCommand.Handle | src/Commands/CreateRole.php:33-42 | the role is found or created, then the permissions; the grants grow by role × permissions; with a guard argument every permission has the role's guard |

## Left out

- Eloquent relations (`role`, `users`, `route`), the table-name setting and the Lumen/old-version branch of `create` are not modelled. Both branches of that branch insert the same row.
- The cache register (`RoleRegister`) is modelled only as a snapshot of the stored rows.
- The model assumes, without proof, that the `RefreshRoleCache` trait forgets the snapshot after every save. That trait's body is not part of this model.
- The Role model and the `HasRoles` trait are not part of this model.
  - `RoleStore` stands in for the Role model: its `findOrCreate` behaves as the permission one does, with `(id, name, guard)` records.
  - `givePermissionTo` adds one grant edge per permission and none for null.
- Other attributes passed to `create` (anything besides `name` and `guard_name`) and soft deletes are not modelled.
- Ids come from a counter standing in for the database auto-increment.
- `Collection::contains` and `unique` compare loosely (`==`) in PHP. The model compares exactly.
- The string keys `mapWithKeys` builds are taken as PHP array keys, without PHP's conversion of numeric strings to integer keys.
- Database ordering and collation (`orderBy('name')`) are not modelled. Rows are inputs taken in the order given, once in the database's own order (the guard pluck) and once in name order (the per-guard reads); the model does not relate the two.
- A class `guard_name` property holding an array of guards is not modelled. `guard_name` is a single string or null.
- Console argument parsing, `info` output and table styles are not modelled.
- `CreatePermission` and `CacheReset` are thin wrappers around `findOrCreate` and the register, and are not modelled.
- The configuration, the reflection lookup of a class's default `guard_name` and the container are inputs (`GuardResolver.Env`).
- CreateRoleCommand.Handle: with no guard argument, the role's guard and the permissions' guard are each `getDefaultName` of their own model class. The model states the two agree only when a guard argument is given.
- CreateRoleCommand.FindOrCreateAll: its own contract states only the length. What it computes is stated by the lemmas that follow it: order, guard, storage and idempotence.
- GuardResolver.GetNamesAsWritten: in the written code, an undefined `$class` is read as null with a warning. Laravel's error handler may turn that warning into an exception. The model takes the plain-PHP null.

## Findings

| source | as written | input that shows it | evidently intended | confidence | as-written member | corrected member |
|---|---|---|---|---|---|---|
| src/Common/Guard.php:36-61 | `$class` is assigned only inside `if (!isset($guard_name))`. An object whose `guard_name` is set but falsy (`""` or `"0"`) skips that block and then fails `if ($guard_name)`. The filter at line 60 then compares against an unbound `$class` (null), so every guard without a provider, or without a configured model, is returned. | an object of class `App\User` with `guard_name = ""` and `auth.guards = ['worker' => []]`: the answer is `['worker']` | the keys of the guards whose provider model is the object's class; here none | not executed | GuardResolver.ProviderlessGuardReturnedAsWritten | GuardResolver.GetNames |

`GetDefaultName` follows the code as written, because `getDefaultName` calls
`getNames` itself. On the input above it gives `worker`, not the configured
default. Every caller in the package passes a class name (`static::class`).
For a class name the written and the corrected `getNames` agree
(`GuardResolver.AsWrittenAgrees`), so the registry and the commands see the
corrected behaviour.
