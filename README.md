# A verified model of the logging server, its database configuration and its user migrations

The repository is a small Node.js service. Its server (server.js) takes JSON log
events from browsers on `POST /log` and appends them to `logs/app.log`. Once
that file grows past 5 MiB it is renamed to a timestamped name. The log file is
read back through `GET /logs` and deleted through `POST /clear-logs`. A
roles.json file holds one role per user id. The log and role routes that
administer the service sit behind an HTTP Basic authentication guard. db.js
decides from the environment whether a MySQL pool exists. Two scripts copy
users.json into a Redis key-value store and into MySQL tables. Two browser
scripts (logger.js and init-users.js) give every locally stored user an id;
logger.js also builds the event bodies that the server stores.

This Dafny project models all of these pieces and proves what they promise:

- `js.dfy` (module `Js`): the JavaScript built-ins the code relies on, given
  their exact semantics. This covers truthiness and `||`, template
  interpolation of `undefined`, and `indexOf`. It also covers `split`/`join`,
  `slice` with negative indices, `substr`, `trim`, `replace(/:/g, …)`,
  `toUpperCase` on ASCII, `filter` and `reverse`. JSON values are a datatype;
  looking up a repeated member returns its last occurrence, and
  `JSON.stringify` drops `undefined` members.
- `auth.dfy` (`BasicAuth`): the `requireAuth` guard.
- `logquery.dfy` (`LogQuery`): the `GET /logs` pipeline, as a pure function of
  the file's text.
- `logfile.dfy` (`LogFile`): the log directory, as a class. Its methods are
  rotation, append, clear and the guarded read.
- `roles.dfy` (`Roles`): roles.json and its two routes. The role change is a
  class method.
- `dbconfig.dfy` (`DbConfig`): `getDbConfigFromEnv` and the pool predicate.
- `users.dfy` (`UserRecords`): the user record that the migrations and the
  browser scripts share.
- `redismigration.dfy` (`RedisMigration`): the Redis migration loop, run
  against a store class.
- `mysqlmigration.dfy` (`MysqlMigration`): the MySQL migration loop, run
  against table and pool classes.
- `clientusers.dfy` (`ClientUsers`): the user-id backfill. logger.js:4-17 and
  init-users.js:4-19 run the same code, so one model covers both. The backfill
  works in place on an array, and a localStorage class holds the list.
- `clientlog.dfy` (`ClientLog`): the `logEvent`/`logError` bodies. Its lemmas
  connect these bodies to the server's type filter.

Parameters stand in for the outside world:

- base64 decoding, `JSON.parse`, `JSON.stringify`, `new URL` and `parseInt`;
- clock readings and `Math.random().toString(36)`;
- the outcome of each file-system or database call.

State changes are methods with `modifies` clauses. Each loop is proved against
a specification function, and the lemmas prove the listed properties about
those functions.

Details of the code the model depends on:

- The decoded credentials are a JavaScript string, so `indexOf` and `slice`
  count UTF-16 code units. `BasicAuth` keeps that text as code units
  (`Js.CodeUnit`, `Js.Utf16`). Without a colon, `slice(0, -1)` drops one code
  unit, which is half of the last character when that character lies outside
  the Basic Multilingual Plane.
- The generated id suffix is `substr(2, 9)` of the random number's base-36
  text, which can be shorter than nine characters. `ClientUsers.NewId` states
  exactly that: at most 14 characters in all, and exactly 14 when the random
  text has at least 11 characters.
- migrate-users-to-redis.js imports redis-client.js. That module exports only
  `client()` and `isConnected()` (redis-client.js:26), yet the script calls
  `redis.hSet`, `redis.set` and `redis.quit` on it. As written, the first such
  call throws a `TypeError`, the `catch` exits with code 1, and nothing is
  written. That includes the missing-file path, which calls `quit` first. The
  model runs the commands against a store; "## Left out" records the
  difference under `RedisMigration.MigrateUsersToRedis`.

## Model

| member | source | states |
|---|---|---|
| Js.OrChainIsFirstTruthy | db.js:25-28 | `a \|\| b \|\| c` is the first truthy of the three, or the last operand when none is truthy |
| Js.OrYieldsAnOperand | db.js:8 | `a \|\| b` yields one of its operands, the left one exactly when it is truthy, and is truthy iff one operand is |
| Js.Interpolate | migrate-users-to-redis.js:24 | `${v}` prints a string as it is and `undefined` as the text `undefined` |
| Js.IndexOf | server.js:30 | the result is -1 exactly when the character is absent; otherwise it is the position of its first occurrence |
| Js.Split | server.js:27 | `split` on one character: no part contains the separator, there is at least one part, and joining the parts rebuilds the text |
| Js.SplitJoin | server.js:27 | splitting the join of separator-free parts gives those parts back |
| Js.Slice | server.js:31-32 | never longer than the input; with ordered indices inside the input it is the plain subsequence; an end at or before the start gives nothing |
| Js.Substr | logger.js:9 | at most `length` characters, and exactly the `length` characters from `start` when they lie inside the text |
| Js.ReplaceAll | server.js:56 | every occurrence of the character is replaced, nothing else changes, and none remains |
| Js.ToUpperAscii | logger.js:9 | lower-case ASCII letters are upper-cased and other characters kept, so no lower-case ASCII letter remains |
| Js.Reverse | server.js:102 | same length, with element `k` taken from position `n - 1 - k` |
| Js.Trim | server.js:90 | the result is the text with its leading and trailing ECMAScript white space removed: it is `s[a..b]` with everything before `a` and from `b` on white space, and its own ends are not white space |
| Js.TrimExact | server.js:90 | white space, then a part whose ends are not white space, then white space again, trims to exactly that part |
| Js.Filter | server.js:90 | an element is kept exactly when it is in the input and satisfies the predicate |
| Js.FilterAppend | server.js:90 | filtering a concatenation filters each part and keeps their order |
| Js.FilterOne | server.js:90 | one element is kept iff it satisfies the predicate |
| Js.FilterAll | server.js:90 | when every element satisfies the predicate, the result is the input |
| Js.Utf16 | server.js:29-32 | the text as JavaScript string code units: never fewer units than characters (`Utf16Char`: one unit below U+10000, else a surrogate pair that encodes the character) |
| Js.Utf16Append | server.js:29-32 | encoding distributes over concatenation |
| Js.Utf16Colon | server.js:30 | the colon's code unit occurs in an encoded text iff `:` occurs in the text |
| Js.PropertyOfObject | logger.js:24 | in an object literal with distinct names, reading a name gives the value written for it, and a left-out name reads as `undefined` |
| BasicAuth.AdminFromEnv | server.js:18-19 | the administrator is `ADMIN_USER`/`ADMIN_PASS` when set and non-empty, else `admin`/`uhq123`; neither is ever empty |
| BasicAuth.SplitCredentials | server.js:30-32 | the user part never contains a colon; with a colon the text is user, colon, password; without one the password is the whole text and the user all but its last code unit |
| BasicAuth.CredentialsAccepted | server.js:33 | credentials can be accepted only for an administrator whose user name contains no colon |
| BasicAuth.RequireAuth | server.js:21-36 | a refused request gets status 400 or 401, with the challenge header exactly when the status is 401 |
| BasicAuth.BasicHeaderShape | server.js:27-28 | the header splits into exactly `["Basic", token]` iff it is `Basic ` followed by a token without spaces |
| BasicAuth.MissingHeaderIsChallenged | server.js:22-26 | a missing or empty header gets 401 "Authentication required" with the challenge, and the route is never reached |
| BasicAuth.MalformedHeaderIsRejected | server.js:27-28 | a header of any other shape gets 400 "Bad Authorization header", whatever the credentials |
| BasicAuth.GrantIff | server.js:27-35 | access is granted iff the header is well formed and its decoded credentials name the administrator; every other well-formed header gets 401 "Invalid credentials" |
| BasicAuth.ColonCredentials | server.js:30-33 | credentials with a colon are cut at the first colon, so the password may contain colons; they are accepted iff they are exactly `user:password` |
| BasicAuth.NoColonCredentials | server.js:30-32 | without a colon, the user is the text minus its last UTF-16 code unit and the password is the whole text |
| BasicAuth.AcceptedCredentials | server.js:30-33 | the accepted credentials are exactly the `user:password` form, or the colon-less text that is the password and whose code units minus the last one are the user name |
| BasicAuth.AcceptedColonIsRfc7617 | server.js:30-33 | accepted credentials that contain a colon are `user:password` with a colon-free user |
| BasicAuth.Rfc7617IsAccepted | server.js:30-33 | `user:password` with a colon-free user is accepted |
| BasicAuth.BareTextQuirk | server.js:21-35 | for a password that is the user name plus one character, the bare password is granted iff that character is one code unit (below U+10000), and otherwise refused with 401 |
| BasicAuth.NoColonQuirkExample | server.js:30-33 | for user `admin` with password `admin!`, the bare credentials `admin!` are let through |
| BasicAuth.AstralQuirkRefused | server.js:30-35 | for user `admin` with password `admin` followed by U+1F600, the bare credentials are refused with 401 |
| BasicAuth.EmptyCredentialsRejected | server.js:18-19 | for any environment, empty credentials are never accepted |
| LogQuery.EffectiveLimit | server.js:83 | the limit is what `parseInt` gave, and 100 when that is NaN or 0 |
| LogQuery.NonBlankLines | server.js:90 | every kept line is non-empty and contains no line break |
| LogQuery.NonBlankLinesOfLog | server.js:90 | the text `POST /log` writes for a list of lines gives back exactly those lines, in file order |
| LogQuery.LogTextAppend | server.js:71 | appending a line to the file appends it and a newline to the text |
| LogQuery.LogTextIsJoin | server.js:71 | a non-empty file's text is its lines joined by newlines, followed by one newline |
| LogQuery.ParsedEntries | server.js:90-96 | the entries are exactly the non-null values that the lines parse to, never more than there are lines |
| LogQuery.ParsedEntriesAppend | server.js:90-96 | the entries of two line lists, one after the other, are each list's entries in order |
| LogQuery.ParsedEntriesOne | server.js:90-96 | a line gives its parse, or nothing when it fails to parse or parses to `null` |
| LogQuery.ByType | server.js:98-100 | with a type, exactly the entries whose `body.type` is that type are kept; the filter throws exactly when some entry has no body |
| LogQuery.ByTypeAppend | server.js:98-100 | the filter on a concatenation throws iff it throws on a part, and otherwise keeps each part's entries in order |
| LogQuery.ByTypeOne | server.js:98-100 | the filter on one entry: kept without a type, a throw without a body, kept iff its type matches |
| LogQuery.Selected | server.js:89-100 | the selection fails only when a type is asked for; it holds no `null`, and with a type only entries of that type |
| LogQuery.NewestFirst | server.js:102 | the result is the reverse of the selection, cut to `limit` (the `slice` rule for negative limits included) |
| LogQuery.GetLogs | server.js:81-104 | a missing file gives `{logs: [], total: 0}`; `total` is the number of entries returned; a positive limit bounds the count; no entry is null; with a type, every entry matches it |
| LogQuery.ListsNewestFirst | server.js:98-103 | the answer is the selected entries newest first, their count given per limit sign, and it fails exactly when the type filter throws |
| LogQuery.ListedEntriesComeFromTheFile | server.js:89-100 | every listed entry is what some non-blank line of the file parses to, and it has the requested type |
| LogQuery.EmptyLogSelectsNothing | server.js:89-100 | an empty log file selects nothing, whatever the type |
| LogQuery.SelectedOfLog | server.js:89-100 | the selection of a log file is the type filter over its lines' parses, in file order |
| LogQuery.SelectOneMoreLine | server.js:90-100 | one more line adds its entry at the end of the selection when it parses to a non-null value of the requested type; a line that does not parse adds nothing; with a type, an entry without a body makes the request fail |
| LogQuery.SelectedAfterAppend | server.js:71-100 | the same for a line `POST /log` appends to the file text |
| LogQuery.SelectedAfterPost | server.js:71-100 | a post whose entry the query selects adds exactly that entry at the end of the selection |
| LogQuery.NewestListedFirst | server.js:98-103 | a selection that ends in an entry is answered with that entry first, for a positive limit |
| LogQuery.NewestPostListedFirst | server.js:71-103 | after a post whose entry the query selects, `GET /logs` with a positive limit lists that entry first |
| LogFile.Utf8LengthAppend | server.js:54-55 | the byte size of two concatenated texts is the sum of their sizes |
| LogFile.Utf8Bounds | server.js:54-55 | a text of n characters takes between n and 4n bytes |
| LogFile.ShouldRotate | server.js:53-55 | only an existing file rotates, and only when it has more than a quarter of 5 MiB characters; every file of more than 5 MiB characters rotates |
| LogFile.RotationSuffix | server.js:56 | the suffix contains no `:` and no `.`, and it is a prefix of the timestamp with colons turned into dashes |
| LogFile.RotationSuffixOfTimestamp | server.js:56-57 | for an ISO timestamp, the suffix is the part before the first `.` with its colons turned into dashes |
| LogFile.RotatedName | server.js:56-57 | the name is `app.log.` followed by a suffix without `:` or `.` |
| LogFile.SameSecondSameName | server.js:56-58 | two rotations within the same second get the same name |
| LogFile.Entry | server.js:66-69 | the stored record's `body` is the request body and its `timestamp` is the clock reading |
| LogFile.LogDirectory.RotateIfNeeded | server.js:52-62 | the file is renamed exactly when it exists and is larger than 5·1024·1024 bytes; afterwards the live file is within that size |
| LogFile.LogDirectory.PostLog | server.js:64-78 | rotate if needed, then append the entry line, creating the file when missing; the rotated files change only by that rotation |
| LogFile.LogDirectory.ClearLogs | server.js:106-116 | `requireAuth` decides on the request's Authorization header; a refused request changes nothing; otherwise the live file is deleted, or 500 when the unlink fails; rotated files stay |
| LogFile.LogDirectory.GetLogs | server.js:81-104 | `requireAuth` decides on the request's Authorization header; a refused request gets its answer; otherwise the answer is `LogQuery.GetLogs` on the live file |
| Roles.IsValidRole | server.js:148 | exactly `admin`, `moderator` and `user` are valid, so a valid role is never empty |
| Roles.LoadRoles | server.js:121-130 | the stored map, or `{}` when the file is missing or does not parse |
| Roles.WithRole | server.js:152-153 | the loaded map with the user's entry set to the role; every other entry stays as loaded |
| Roles.RoleOf | server.js:140 | the answered role is never empty |
| Roles.RolesStore.GetRole | server.js:121-141 | the answer is the stored role, defaulting to `user` |
| Roles.RolesStore.SetRole | server.js:144-157 | `requireAuth` decides on the request's Authorization header; a refused request, or a role outside admin/moderator/user, leaves the file unchanged; a valid role rewrites the file with that one entry set |
| Roles.ReadYourWrite | server.js:137-156 | after a change, reading the user's role gives the new role |
| Roles.OtherUsersUnchanged | server.js:152-154 | a change leaves every other user's role as it read before |
| Roles.SetRoleIdempotent | server.js:152-154 | setting the same role twice gives the same file as setting it once |
| Roles.DefaultRole | server.js:121-140 | a user without an entry, and every user while the file is missing or corrupt, reads as `user` |
| Roles.CorruptFileIsReplaced | server.js:125-154 | saving over a corrupt file keeps only the entry being set |
| Roles.ValidRolesStayValid | server.js:148-154 | a file written only through the route holds and answers only the three allowed roles |
| DbConfig.DatabaseFromPath | db.js:16 | one leading `/` is removed from the pathname, and nothing else changes |
| DbConfig.ConfigFromEnv | db.js:6-31 | the URL branch is taken when a URL is configured and parses; otherwise the discrete variables are used |
| DbConfig.ConfigFromUrl | db.js:9-18 | the host is the URL's hostname; user, password and database are truthy iff the URL part or one of its two fallbacks is; the port is `Number(port)` iff the URL names a port |
| DbConfig.ConfigFromVariables | db.js:24-30 | each field is truthy iff one of its three alias variables is; the port is always a number or 3306, never a variable's raw text |
| DbConfig.CreatesPool | db.js:34 | a pool is created iff all four of host, user, password and database are truthy |
| DbConfig.Pool | db.js:33-47 | a pool exists iff host, user, password and database are all non-empty; it carries those values and the port, waits for connections and allows 10 of them |
| DbConfig.UrlPrecedence | db.js:8-13 | `MYSQL_URL` wins over `MYSQL_PUBLIC_URL`; a URL is used iff one of them is non-empty; when it parses, the host is its hostname |
| DbConfig.UrlBranchFallbacks | db.js:14-17 | in the URL branch, user, password and database fall back to `MYSQLUSER`/`DB_USER`, `MYSQLPASSWORD`/`DB_PASS` and `MYSQLDATABASE`/`DB_NAME` only when the URL part is empty; the port is the URL's, else `MYSQLPORT \|\| DB_PORT \|\| 3306` |
| DbConfig.DiscreteBranchAliases | db.js:24-30 | each discrete field is the first non-empty of `DB_*`, `MYSQL*`, `MYSQL_*`; the port is `DB_PORT`, else `MYSQLPORT`, else 3306 |
| DbConfig.PortDoesNotMatter | db.js:34 | the port plays no part in whether a pool exists |
| DbConfig.NoConfigurationNoPool | db.js:3-34 | with no URL and no host variable set, `pool` stays null |
| DbConfig.UrlBranchIgnoresUnderscoreUser | db.js:14-34 | a parsed URL without a user name gets its user only from `MYSQLUSER`/`DB_USER`; with neither set there is no pool |
| RedisMigration.HashFields | migrate-users-to-redis.js:21-30 | the hash's id is `userId \|\| user_id`; username falls back user → username → `''`, email → `''`, password pass → password → `''`, created_at createdAt → created_at → now |
| RedisMigration.RoleFor | migrate-users-to-redis.js:33 | index 0 is `admin` whatever its own role; any other record gets `u.role`, defaulting to `user` |
| RedisMigration.RecordWrites | migrate-users-to-redis.js:19-38 | a record issues four commands: one `hSet`, then three `set`s |
| RedisMigration.LookupsPointToHash | migrate-users-to-redis.js:21-38 | the hash is stored under `user:` and the id it records, the role key is that key plus `:role`, and both lookup keys map to the same id |
| RedisMigration.Plan | migrate-users-to-redis.js:19-39 | the plan holds four commands per record |
| RedisMigration.ParseUsers | migrate-users-to-redis.js:16 | an empty users.json does not parse |
| RedisMigration.RedisStore.WriteHash | migrate-users-to-redis.js:24-30 | `HSET` merges the fields into the hash, and fails without a change on a key holding a string |
| RedisMigration.RedisStore.WriteString | migrate-users-to-redis.js:34-38 | `SET` replaces the key's value |
| RedisMigration.WriteRecord | migrate-users-to-redis.js:19-39 | one iteration issues the record's four commands in order; a failing `hSet` skips the three `set`s |
| RedisMigration.HashThenSets | migrate-users-to-redis.js:24-38 | a record's block (one `hSet`, three `set`s) after a successful run: a failing `hSet` leaves the store as it was and fails the run; otherwise the three keys are replaced in order |
| RedisMigration.MigrateUsersToRedis | migrate-users-to-redis.js:7-47 | a missing file writes nothing (exit 0); an unparseable file writes nothing (exit 1); otherwise the store ends as the plan's run leaves it, with exit 0 iff every command succeeded |
| RedisMigration.FailureIsFinal | migrate-users-to-redis.js:42-45 | after a failed command, further commands change nothing |
| RedisMigration.FailureStopsPlan | migrate-users-to-redis.js:19-45 | once a record fails, the rest of the file adds nothing |
| RedisMigration.FailureKeepsEarlierWrites | migrate-users-to-redis.js:42-45 | a failed run leaves the store exactly as the successful commands before the failing one left it |
| RedisMigration.RunShowsLastWrite | migrate-users-to-redis.js:19-39 | after a successful run, each key holds what the last command addressing it wrote, and untouched keys keep their old value |
| RedisMigration.KeyFamiliesDisjoint | migrate-users-to-redis.js:24-38 | `user:`, `username:` and `email:` keys never coincide, and a record's hash key differs from its role key |
| RedisMigration.PlanLastWrite | migrate-users-to-redis.js:19-39 | records are applied in file order: the last command on a key comes from the last record addressing that key |
| RedisMigration.LastRecordDecides | migrate-users-to-redis.js:19-39 | after a successful run, a key that no later record addresses holds what its last record's last command on it wrote |
| RedisMigration.LaterUsernameWins | migrate-users-to-redis.js:19-39 | the `username:` key, built from `user \|\| username` without lower-casing, maps to the id of the last record with that name |
| RedisMigration.LaterEmailWins | migrate-users-to-redis.js:19-39 | the `email:` key maps to the id of the last record with that email |
| RedisMigration.RoleStored | migrate-users-to-redis.js:33-34 | after the run, a record's role key holds `admin` for index 0 and `role \|\| 'user'` otherwise |
| RedisMigration.HashStored | migrate-users-to-redis.js:24-30 | after the run, a record's hash holds its fields with their fallbacks |
| MysqlMigration.NewRow | legacy-db/migrate-users-to-mysql.js:25 | a new row keeps the name as it is, defaults email and password to `''`, and defaults the creation time to now |
| MysqlMigration.MigrateOne | legacy-db/migrate-users-to-mysql.js:20-31 | one record keeps every existing id and adds at most its own; when it succeeds, its id has a row |
| MysqlMigration.Migrated | legacy-db/migrate-users-to-mysql.js:19-34 | existing ids keep their rows; after a successful run every record's id has a row |
| MysqlMigration.ParseUsers | legacy-db/migrate-users-to-mysql.js:17 | an empty file is an empty list |
| MysqlMigration.Database.SelectUser | legacy-db/migrate-users-to-mysql.js:22 | a row is found iff the id is not NULL and is in the table |
| MysqlMigration.Database.Insert | legacy-db/migrate-users-to-mysql.js:25 | the row is added iff the query succeeds, the id is not NULL and the id is new |
| MysqlMigration.Database.UpsertRole | legacy-db/migrate-users-to-mysql.js:29 | the role is set whether or not an entry exists |
| MysqlMigration.ConnectionPool.GetConnection | legacy-db/migrate-users-to-mysql.js:18 | a successful acquisition leases one connection |
| MysqlMigration.ConnectionPool.Release | legacy-db/migrate-users-to-mysql.js:36 | release returns the connection |
| MysqlMigration.MigrateRecord | legacy-db/migrate-users-to-mysql.js:21-30 | one iteration: lookup, skip an existing id, insert, and grant admin for index 0 |
| MysqlMigration.Migrate | legacy-db/migrate-users-to-mysql.js:5-39 | no pool, no file, an unparseable file or no connection exit 1 with nothing written; otherwise the tables end as the loop leaves them, the connection is released and the exit code is 0 even after a failure |
| MysqlMigration.FailureStopsMigration | legacy-db/migrate-users-to-mysql.js:19-34 | after the first error the remaining records change nothing |
| MysqlMigration.SuccessfulPrefix | legacy-db/migrate-users-to-mysql.js:19-34 | a run that succeeds succeeded on every prefix |
| MysqlMigration.MigrateOneKeeps | legacy-db/migrate-users-to-mysql.js:22-30 | one record never removes or changes a row, and changes a role only to `admin` |
| MysqlMigration.RowsPersist | legacy-db/migrate-users-to-mysql.js:22-34 | existing rows are never overwritten, and rows inserted before a failure remain |
| MysqlMigration.RowsComeFromRecords | legacy-db/migrate-users-to-mysql.js:25 | every added row belongs to the id of some record |
| MysqlMigration.FirstOccurrenceWins | legacy-db/migrate-users-to-mysql.js:19-37 | within one file, the row for a new id is built from the first record carrying it, once the run gets through that record, whether or not a later query fails |
| MysqlMigration.AdminOnlyFirst | legacy-db/migrate-users-to-mysql.js:23-30 | the roles table changes at most by making record 0's id `admin`, and only when that record was newly inserted |
| MysqlMigration.FirstNewUserIsAdmin | legacy-db/migrate-users-to-mysql.js:19-37 | when record 0 is migrated without error and its id is new, the roles table ends with exactly that id made `admin`, whatever happens to later records |
| MysqlMigration.RolesPersistAdmin | legacy-db/migrate-users-to-mysql.js:20-31 | once record 0 is `admin`, later records keep it |
| ClientUsers.NewId | logger.js:9 | a new id is `USER_` followed by at most nine characters with no lower-case ASCII letter, and it is truthy |
| ClientUsers.Fill | logger.js:8-12 | a user with a truthy id is unchanged; any other user gets a new id; a truthy `createdAt` is kept and a missing one becomes now |
| ClientUsers.Backfilled | logger.js:7-13 | each user of the list is filled with its own random draw and clock reading |
| ClientUsers.NeedsSave | init-users.js:8-16 | a save is needed iff some user's id is missing or empty |
| ClientUsers.BackfillUserIds | init-users.js:8-14 | the in-place `forEach` leaves the backfilled list, and `needsSave` holds iff some user lacked a truthy id |
| ClientUsers.StoredUsers | init-users.js:5 | a missing or empty `usersList` is an empty list |
| ClientUsers.InitUserIds | init-users.js:4-19 | storage is rewritten with the backfilled list iff the list parses and some user lacked an id; otherwise it is unchanged |
| ClientUsers.BackfillGivesEveryoneAnId | logger.js:7-13 | afterwards every user has a truthy id, users that had one are unchanged, and new ids start with `USER_` |
| ClientUsers.BackfillKeepsOtherFields | init-users.js:9-12 | only `userId` and `createdAt` change, and a truthy `createdAt` is kept |
| ClientUsers.BackfillIdempotent | logger.js:7-17 | a second backfill changes nothing and needs no save |
| ClientUsers.NothingToBackfill | init-users.js:16-19 | a list in which every user has an id is left as it is |
| ClientLog.EventBody | logger.js:24 | the body has the given `type`, `payload`, `ts` and `url`, and `undefined` members are left out |
| ClientLog.ErrorPayload | logger.js:31-32 | the payload has the message, the context (defaulting to `{}`) and the url |
| ClientLog.ErrorBody | logger.js:31-33 | `logError` sends type `error` with that payload |
| ClientLog.EventEntryMatchesItsType | logger.js:19-33 | a stored event is kept by the type filter for exactly the type it was sent with |
| ClientLog.ErrorEntriesAreErrors | logger.js:31-33 | a stored `logError` event is listed by `GET /logs?type=error` |
| ClientLog.UntypedEventMatchesNoType | logger.js:24 | an event without a type does not make the filter throw, but no type filter keeps it |

## Left out

- Express wiring is not modelled: CORS, static files, `sendFile`, `listen`, and the creation of the log directory (server.js:1-15, 38-49, 159). Routes are modelled as functions and methods of their inputs.
- Real I/O is not modelled. Files are values: the live log file, the rotated files by name, roles.json, users.json and the `usersList` item. Whether `appendFile`, `unlinkSync` or a database query fails is a parameter.
- Concurrency is not modelled: neither concurrent requests nor interleavings of the asynchronous `appendFile` callbacks.
- Library behaviour enters as parameters: base64 decoding, `JSON.parse`, `JSON.stringify`, `new URL`, `parseInt`, `new Date().toISOString()` and `Math.random().toString(36)`.
- JSON numbers are integers, because no floating point is modelled. Reading a property of an array or a string gives `undefined`, and prototype properties (`constructor`, `__proto__` and the like) are not modelled.
- redis-client.js, scripts/inspect-redis-keys.js and scripts/seed-redis-users.js are not part of this model.
- The window `error` listener (logger.js:39-41) and the `window` exports are not part of this model.
- RedisMigration.MigrateUsersToRedis: the model runs the commands against a real store. As written, the script calls `hSet`, `set` and `quit` on a module that has none of them, so it would exit with code 1 before writing anything.
- RedisMigration.HashFields, RedisMigration.RecordWrites: for a record with neither `userId` nor `user_id`, the script hands the client the value `undefined` as the hash's `user_id` field (migrate-users-to-redis.js:25) and as the value of the `username:` and `email:` keys (lines 37-38). The model writes the text `undefined` there. A real client rejects an `undefined` argument, so that command would throw and the run would end with exit code 1. Inside keys (lines 24, 34, 37, 38) the template literal does print `undefined`, as modelled.
- RedisMigration.ApplyWrite: the only store error modelled is `HSET` on a key holding a string (WRONGTYPE). Connection errors are not modelled.
- MysqlMigration.Migrate: the table schema is not in the repository. The model assumes `user_id` is the key, so inserting a NULL or duplicate id fails. Every other error is given by a failure oracle (`fails(i, query)`).
- MysqlMigration.Migrate: a file that does not parse, or a failed `getConnection`, rejects the script's promise outside its `try`. The model takes Node's default for an unhandled rejection, exit code 1.
- MysqlMigration.NewRow: `created_at` is the clock's text. For a missing `createdAt` the code passes a `Date` object to the driver, and that conversion is not modelled.
- ClientUsers.Backfilled: the random draw and the clock reading are indexed by the user's position rather than by the order of the calls. Both are arbitrary parameters, so this loses nothing.
- ClientUsers.NewId: upper-casing is modelled for ASCII letters only. The base-36 text of a number contains nothing else.
- ClientUsers.InitUserIds: a stored list that does not parse, or is not an array, makes the script throw, and storage stays unchanged. The console messages are not modelled.
- ClientLog.EventBody: `fetch` and the `console.warn` on a failed send are not modelled. `logEvent` is a total function, so it cannot throw to its caller. The body reaches the server unchanged, because `JSON.stringify` followed by `express.json()` is taken as the identity.
- Roles.RolesStore.SetRole: the role is a string. A request body whose `role` is missing or not a string is not modelled, except that a missing role is rejected like any invalid one. A roles.json that parses to something other than an object (such as `null`, which would make the route throw) is not modelled.
- RedisMigration.ParseUsers: users.json is taken to be an array of objects whose fields are strings or absent. A `null` field is not modelled: `${null}` prints `null`, so `{"userId": null}` gives the key `user:null`, where the model can only give `user:undefined`. Number fields are not modelled either. A `null` element makes `u.userId` throw (migrate-users-to-redis.js:21): exit 1, earlier writes kept, as for any failed command. An element that is some other non-object reads every field as `undefined`, which is the record with no fields.
- MysqlMigration.ParseUsers: users.json is taken to be an array of objects whose fields are strings or absent. A `null` field behaves as a missing one (the driver sends NULL), but number fields are not modelled. A `null` element makes `u.userId` throw inside the `try` (legacy-db/migrate-users-to-mysql.js:22): the loop stops, earlier rows stay and the script exits 0 from `finally`. That is the outcome of a failed lookup for that record, which the model reaches only through the failure oracle, not from the element itself.
- ClientUsers.StoredUsers: the stored list is taken to hold objects whose fields are strings or absent. A `null` element makes `user.userId` throw (logger.js:8, init-users.js:9), so storage stays unchanged; a number field is not modelled.
- Roles.RoleOf: stored values are strings. A stored non-string role (a number, say) is not modelled.
- BasicAuth.RequireAuth: decoding of the credentials is a parameter, so invalid base64 is modelled only through what the decoder returns.
- Strings other than the decoded credentials are sequences of characters (code points), not UTF-16 code units. The other code paths that count or cut text (`trim`, `split` on `\n` or `.`, `substr(2, 9)` of base-36 text, the ISO timestamp) behave identically either way on the texts they receive.
