# crewee core, modelled in Dafny

This project models the pure logic at the centre of the crewee repository:

- **The region-data migration generator** (`scripts/generate_region_diff_migration.py`).
  - It compares the previous snapshot of the local-government-code list with the current one.
  - The comparison yields added, updated and deleted rows, keyed by code; a later duplicate row overwrites an earlier one.
  - Each row's region type is decided, and a municipality's parent prefecture is found by the two-digit prefix of its JIS X 0402 code.
  - Names are escaped as SQL character string literals by doubling single quotes (ISO/IEC 9075-2, section 5.3).
  - The generator writes an up and a down migration and picks the next migration number from the names of the migration files already present.
- **The backend's error envelope and central error handler** (`backend/internal/middleware/error.go`). They map an HTTP error status, or any other error, to a reply status and an `APIError` code, following the status classes of RFC 9110, sections 15.5 and 15.6.1.
- **The region and sport handlers** (`backend/internal/handlers`). They choose exactly one service call from the query parameters, map its result to 200, 404 or 500, and build the success envelopes.
- **The configuration loader** (`backend/internal/config/config.go`). It covers `getEnv` and `getEnvInt` over an environment map, the defaults in `Load`, and the single-element `AllowedOrigins` list.

Modules:

| file | module | what |
|---|---|---|
| wrappers.dfy | `Wrappers` | `Option`, `Result` |
| decimal.dfy | `Decimal` | numerals, `str(int)`, `format(n, "03d")`, `str.zfill` |
| sql_literal.dfy | `SqlLiteral` | quote doubling and a reader for SQL string literals |
| region_records.dfy | `RegionRecords` | the CSV row, keyed lookup, the hash content, the parent-prefecture search |
| region_diff.dfy | `RegionDiff` | `detect_changes` |
| migration_sql.dfy | `MigrationSql` | the up and down scripts, as statements and as text |
| migration_apply.dfy | `MigrationApply` | what the scripts do to the `regions` table; down undoes up |
| migration_number.dfy | `MigrationNumber` | `get_next_migration_number` |
| migration_plan.dfy | `MigrationPlan` | `generate_diff_migration_sql` without its I/O |
| error_middleware.dfy | `ErrorMiddleware` | `APIResponse`, `APIError`, `ErrorCode`, `newErrorResponse`, `ErrorHandler` |
| handlers.dfy | `Handlers` | success envelopes, `GetRegions`, `GetRegionByCode`, `GetSports`, `GetSportByID` |
| config.dfy | `Config` | `getEnv`, `getEnvInt`, `strconv.Atoi`, `Load` |

A CSV row is a `Record` with five string fields. The code column is kept as the text `str()` gives for the integer pandas reads, so several lemmas assume canonical numerals (no leading zeros). Python's set iteration order is unspecified, so `DetectChanges` is a method that picks set elements with `:|`. Its contract, `IsDiff`, says which rows each list holds, not their order. The md5 comparison of `record_hash` is modelled as equality of the hashed text.

The scripts are modelled in two ways. As structured statements, they are given a meaning over a table (`map<string, Row>`); an INSERT on an existing key aborts the transaction. They are also rendered to the exact text the script writes.

## Model

| member | source | states |
|---|---|---|
| Decimal.FromNat | scripts/generate_region_diff_migration.py:32 | `str(n)`: a canonical numeral whose value is `n`, one digit exactly when `n < 10` |
| Decimal.CanonicalIsFromNat | scripts/generate_region_diff_migration.py:177 | a canonical numeral is `str()` of its own value, so equal values mean equal code texts |
| Decimal.ZeroPad | scripts/generate_region_diff_migration.py:32 | `f"{n:03d}"` gives digits only, with the value `n`, exactly as many characters as the larger of the width and the length of `str(n)` |
| Decimal.ZFillShape | scripts/generate_region_diff_migration.py:177 | `zfill(6)` reaches the width; removing the zeros it inserts, after a sign if there is one, gives back the input |
| Decimal.ZFillValue | scripts/generate_region_diff_migration.py:177 | padding a numeral keeps its value |
| Decimal.ZFillInjective | scripts/generate_region_diff_migration.py:177 | two canonical codes pad to the same six-character code only if they are equal |
| Decimal.ValueBound | scripts/generate_region_diff_migration.py:24 | a numeral of k digits is below 10^k, so a three-digit group is at most 999 |
| SqlLiteral.EscapeChangesOnlyQuotes | scripts/generate_region_diff_migration.py:178-184 | `replace("'", "''")` adds one character per quote, doubles the quote count and keeps every other character in order |
| SqlLiteral.UnescapeEscape | scripts/generate_region_diff_migration.py:214-218 | escaped text has every quote doubled, and undoubling gives back the input |
| SqlLiteral.EscapeUnescape | scripts/generate_region_diff_migration.py:214-218 | every text with doubled quotes is the escape of exactly one text |
| SqlLiteral.ScanLiteralOfEscaped | scripts/generate_region_diff_migration.py:197 | an SQL reader recovers exactly the name from `'escaped'` followed by any non-quote, so no name can end its literal early |
| RegionRecords.Index | scripts/generate_region_diff_migration.py:119-120 | the code-keyed dict has exactly the snapshot's codes, each mapped to a row of the snapshot with that code |
| RegionRecords.IndexLastWins | scripts/generate_region_diff_migration.py:119-120 | for a duplicated code, the last row carrying it wins |
| RegionRecords.JisCodeLength | scripts/generate_region_diff_migration.py:177 | a padded code has at least six characters, so it never equals the sentinel `NULL` |
| RegionRecords.FindPrefecture | scripts/generate_region_diff_migration.py:372-386 | `NULL` exactly when no prefecture row's padded code starts with the two-character prefix; otherwise the padded code of the first such row, which starts with the prefix |
| RegionDiff.CollectRows | scripts/generate_region_diff_migration.py:126-131 | the list comprehension over a set of codes lists each selected row exactly once, in some order |
| RegionDiff.CollectUpdated | scripts/generate_region_diff_migration.py:134-138 | exactly the new rows of common codes whose hashed content changed, each once |
| RegionDiff.DetectChanges | scripts/generate_region_diff_migration.py:115-140 | the result is a diff: added lists the new rows of new-only codes, deleted the old rows of old-only codes, updated the new rows of changed common codes |
| RegionDiff.DiffCodes | scripts/generate_region_diff_migration.py:122-131 | added codes are new codes minus old codes, and deleted codes are old codes minus new codes |
| RegionDiff.DiffUpdated | scripts/generate_region_diff_migration.py:134-152 | a common code is updated iff the concatenated four name fields differ, code excluded; the entry is the new row |
| RegionDiff.DiffDisjoint | scripts/generate_region_diff_migration.py:119-138 | the three lists are pairwise disjoint by code and none repeats a code |
| RegionDiff.SelfDiffIsEmpty | scripts/generate_region_diff_migration.py:115-140 | diffing a snapshot against itself finds nothing, so no migration is written |
| RegionDiff.FirstRun | scripts/generate_region_diff_migration.py:56-63 | with no backup every row is added and nothing is updated or deleted |
| MigrationSql.ParentOf | scripts/generate_region_diff_migration.py:189-191 | the parent clause is NULL exactly when the search returned the sentinel, and otherwise the code found |
| MigrationSql.InsertRowFor | scripts/generate_region_diff_migration.py:176-199 | a row is a municipality iff it has a municipality name; a prefecture has no parent; a municipality's parent is the first prefecture of the same batch with its prefix, or none if there is no such prefecture |
| MigrationSql.Restores | scripts/generate_region_diff_migration.py:289-315 | every restoring UPDATE targets a padded code present in the old snapshot and writes that old row's names |
| MigrationSql.ValuesTupleNames | scripts/generate_region_diff_migration.py:196-199 | in an inserted tuple, both names scan back exactly from their literals, with the rest of the tuple left over |
| MigrationSql.UpdateLineNames | scripts/generate_region_diff_migration.py:220-226 | in an UPDATE line, both names scan back exactly from their literals |
| MigrationApply.UpStatements | scripts/generate_region_diff_migration.py:155-257 | the up script inserts the added rows, renames the updated rows and deletes the deleted codes; each section appears only when its list is non-empty |
| MigrationApply.DownStatements | scripts/generate_region_diff_migration.py:260-369 | the down script deletes exactly the added codes, restores the updated names only when there is an old snapshot, and re-inserts the deleted rows, their parents looked up where the chosen source says |
| MigrationApply.InsertFresh | scripts/generate_region_diff_migration.py:170-201 | an INSERT of fresh, distinct keys adds exactly those rows and keeps all others |
| MigrationApply.SetNamesEffect | scripts/generate_region_diff_migration.py:210-226 | UPDATEs on distinct keys rename exactly the rows they name |
| MigrationApply.InsertBatch | scripts/generate_region_diff_migration.py:166-202 | the INSERT section, present only for a non-empty list, adds for each padded code not yet in the table the tuple built for its row, and keeps all other rows |
| MigrationApply.DeleteBatch | scripts/generate_region_diff_migration.py:231-246 | the DELETE section removes exactly the padded codes of the batch, and is a no-op for an empty batch |
| MigrationApply.RenameBatch | scripts/generate_region_diff_migration.py:205-228 | the UPDATE section keeps the keys, renames each updated row present in the table, and leaves other rows alone |
| MigrationApply.RestoreBatch | scripts/generate_region_diff_migration.py:284-317 | the restoring UPDATEs keep the keys and give each updated row found in the old snapshot that row's names |
| MigrationApply.JisCodeInjective | scripts/generate_region_diff_migration.py:177 | canonical codes with the same padded code are the same code |
| MigrationApply.UpEffect | scripts/generate_region_diff_migration.py:155-257 | on a table lacking the added codes, up succeeds: keys become old + added − deleted, each added code holds the tuple built for its row, updated rows carry the new names, and nothing else changes |
| MigrationApply.DownEffect | scripts/generate_region_diff_migration.py:260-369 | on a table lacking the deleted codes, down succeeds: added codes go, deleted rows come back with the parent found in the chosen source, and updated rows carry the old names |
| MigrationApply.DownUndoesUp | scripts/generate_region_diff_migration.py:155-369 | for separate lists, on a table lacking the added codes, holding the old names of the updated codes and, for each deleted code, exactly the row the down script re-inserts, running up then down gives back the table |
| MigrationApply.AsWrittenLosesParent | scripts/generate_region_diff_migration.py:336-338 | as written, a deleted municipality whose prefecture is not among the deleted rows comes back with a NULL parent, so a table where it had a parent is not restored |
| MigrationApply.AsWrittenParentCounterexample | scripts/generate_region_diff_migration.py:336-338 | Sapporo deleted while Hokkaido stays: as written, up then down leaves Sapporo without its parent; with the parent looked up in the old snapshot, the table comes back |
| MigrationApply.DiffIsSeparate | scripts/generate_region_diff_migration.py:115-140 | with canonical codes, no padded code appears twice across the three lists of a diff |
| MigrationApply.PaddedIndexAgrees | scripts/generate_region_diff_migration.py:289-291 | with canonical codes, the padded-code dict of the down script finds the same row as the raw-code dict of the diff |
| MigrationApply.DownRestoresOldNames | scripts/generate_region_diff_migration.py:293-315 | for each updated row, the down script finds its old row and restores the old snapshot's names |
| MigrationApply.MigrationRoundTrip | scripts/generate_region_diff_migration.py:155-369 | with parents looked up in the old snapshot, the pair is reversible: for a diff of canonical snapshots, down after up restores a table that lacks the added codes and holds the old snapshot's rows for the deleted codes and its names for the updated ones |
| MigrationNumber.LeadingDigits | scripts/generate_region_diff_migration.py:24 | the run that `^\d+` consumes: only digits, and followed by a non-digit or the end |
| MigrationNumber.GroupIffSplits | scripts/generate_region_diff_migration.py:24-27 | the deterministic scan finds a group exactly when the name splits into digits, `_`, the group, `_` and a tail accepted by `.*\.sql$` |
| MigrationNumber.MaxNumber | scripts/generate_region_diff_migration.py:23-30 | at least every matched number, and either 0 or one of them |
| MigrationNumber.MaxNumberAppend | scripts/generate_region_diff_migration.py:23-30 | the running maximum over two parts of the listing is the larger of their maxima, so listing order does not matter |
| MigrationNumber.Next | scripts/generate_region_diff_migration.py:17-32 | "001" when the directory is missing; otherwise the largest matched number plus one, written with three digits or, past 999, with exactly its own digits |
| MigrationNumber.NextExceedsListed | scripts/generate_region_diff_migration.py:17-32 | the issued number is greater than every matched number |
| MigrationNumber.EmptyListingStartsAtOne | scripts/generate_region_diff_migration.py:20-32 | an empty directory and a missing one both give "001" |
| MigrationNumber.FirstNumberIsOne | scripts/generate_region_diff_migration.py:20-21 | a missing directory gives the number 1 |
| MigrationNumber.WrittenFileNumber | scripts/generate_region_diff_migration.py:24-29 | a file the script writes is read back with its own number, if the pattern accepts the number's width |
| MigrationNumber.AsWrittenIncreasesBelow1000 | scripts/generate_region_diff_migration.py:24-32 | with `\d{3}`, while the issued number is below 1000 its files are read back and the next run issues the following number |
| MigrationNumber.AsWrittenRepeatsFrom1000 | scripts/generate_region_diff_migration.py:24-32 | with `\d{3}`, once 1000 is issued, its files are not matched and 1000 is issued again |
| MigrationNumber.AsWrittenCounterexample | scripts/generate_region_diff_migration.py:24-32 | with the files of migration 999 present, 1000 is issued, and after its files are written, 1000 again |
| MigrationNumber.IssuedNumberIncreases | scripts/generate_region_diff_migration.py:17-32 | with `\d{3,}`, after the issued files are written the next run issues the following number, past 999 too |
| MigrationPlan.IssuedFileNumbers | scripts/generate_region_diff_migration.py:17-32 | both files carry the issued number: 1 for a missing directory, and otherwise above every listed number |
| MigrationPlan.PlanMigration | scripts/generate_region_diff_migration.py:35-105 | a diff against the backup, or a first run; no migration iff nothing changed; otherwise the up and down scripts and the names `<timestamp>_<number>_update_regions_data.up.sql` and `.down.sql`, whose number reads back as the largest matched number plus one, or 1 for a missing directory |
| ErrorMiddleware.CodeNameRoundTrip | backend/internal/middleware/error.go:30-39 | the five code strings are distinct and read back as their codes |
| ErrorMiddleware.CodeNameInjective | backend/internal/middleware/error.go:33-39 | no two codes are sent as the same string |
| ErrorMiddleware.NewError | backend/internal/middleware/error.go:41-55 | the envelope's error reads back as the given code, keeps the message, and its Details is the first variadic argument or empty |
| ErrorMiddleware.MapError | backend/internal/middleware/error.go:58-104 | the status is the HTTP error's own (500 for another error); the code and fixed message follow the decision table |
| ErrorMiddleware.CodeIffStatus | backend/internal/middleware/error.go:64-97 | each code stands for exactly its status, in both directions: 404 NOT_FOUND, 401 UNAUTHORIZED, 403 FORBIDDEN, 400 VALIDATION_ERROR, anything else INTERNAL_ERROR |
| ErrorMiddleware.OtherStatusKept | backend/internal/middleware/error.go:92-97 | another status, such as 409, stays on the wire but is reported as INTERNAL_ERROR with no details |
| ErrorMiddleware.DetailsOnlyForBadRequest | backend/internal/middleware/error.go:82-91 | details are non-empty only for a 400 with a string message, and then they are that message |
| ErrorMiddleware.HandleError | backend/internal/middleware/error.go:106-114 | nothing is written iff the response is committed; otherwise the mapped reply is |
| Handlers.NewSuccessResponse | backend/internal/handlers/response.go:6-10 | Data is the argument unchanged; Error and Meta are absent |
| Handlers.NewSuccessResponseWithMeta | backend/internal/handlers/response.go:13-17 | Data and Meta are passed through; Error is absent |
| Handlers.SuccessAndErrorDisjoint | backend/internal/handlers/response.go:6-18 | no success envelope equals an error envelope |
| Handlers.RegionCallPrecedence | backend/internal/handlers/regions.go:31-47 | hierarchy == "true" wins; then type == "prefecture"; then a non-empty prefecture, for that code; else all regions; each stated in both directions |
| Handlers.GetRegions | backend/internal/handlers/regions.go:27-55 | success of the one chosen call iff 200 with that result as Data; failure raises 500 "Failed to fetch regions" |
| Handlers.GetRegionByCode | backend/internal/handlers/regions.go:58-69 | success iff 200 with a success envelope holding the region as Data, no Error and no Meta; any failure raises 404 "Region not found" |
| Handlers.SportsCallChoice | backend/internal/handlers/sports.go:31-40 | active == "true" exactly selects the active-sports query; otherwise all sports |
| Handlers.GetSports | backend/internal/handlers/sports.go:27-48 | success iff 200 with the result as Data; failure raises 500 "Failed to fetch sports" |
| Handlers.GetSportByID | backend/internal/handlers/sports.go:51-62 | success iff 200 with a success envelope holding the sport as Data, no Error and no Meta; any failure, a malformed id included, raises 404 "Sport not found" |
| Handlers.Serve | backend/internal/middleware/error.go:58-115 | a reply goes out as is; a raised error is dropped iff the response is committed, and otherwise goes out as the mapped status with an envelope holding only the mapped error |
| Handlers.RegionsReplyIsOneOf | backend/internal/handlers/regions.go:49-54 | every reply that reaches the client carries exactly one of Data and Error |
| Handlers.RegionByCodeReplyIsOneOf | backend/internal/handlers/regions.go:58-69 | every reply of the lookup by code carries exactly one of Data and Error |
| Handlers.SportsReplyIsOneOf | backend/internal/handlers/sports.go:27-48 | every reply of the sports list carries exactly one of Data and Error |
| Handlers.SportByIDReplyIsOneOf | backend/internal/handlers/sports.go:51-62 | every reply of the lookup by id carries exactly one of Data and Error |
| Handlers.RegionsFailureOnWire | backend/internal/handlers/regions.go:49-50 | a failed list query reaches the client as 500 INTERNAL_ERROR with the fixed message, not the handler's own |
| Handlers.RegionByCodeFailureOnWire | backend/internal/handlers/regions.go:62-65 | a failed lookup reaches the client as 404 NOT_FOUND with the fixed message and no Data |
| Handlers.SportsFailuresOnWire | backend/internal/handlers/sports.go:42-61 | a sports list failure reaches the client as 500 INTERNAL_ERROR, and a lookup failure as 404 NOT_FOUND |
| Config.GetEnv | backend/internal/config/config.go:101-106 | the value when it is set and non-empty, else the default |
| Config.EmptyIsUnset | backend/internal/config/config.go:101-106 | a variable set to "" reads like an unset one: the default |
| Config.Atoi | backend/internal/config/config.go:110 | what `strconv.Atoi` accepts fits in 64 bits |
| Config.AtoiFormatInt | backend/internal/config/config.go:110 | every 64-bit integer, negative ones included, is read back from its decimal text |
| Config.AtoiAccepts | backend/internal/config/config.go:110 | an accepted text is an optional sign followed by digits, and the result is their signed value |
| Config.AtoiRejectsOverflow | backend/internal/config/config.go:110 | a value beyond 64 bits is rejected |
| Config.GetEnvInt | backend/internal/config/config.go:108-115 | the parsed value when the variable parses, else the default: unset, empty and unparsable alike |
| Config.GetEnvIntReadsBack | backend/internal/config/config.go:108-115 | any 64-bit integer written to the variable is what is read, with no range check beyond 64 bits |
| Config.WrapInt64 | backend/internal/config/config.go:70 | the 64-bit result of an integer, congruent modulo 2^64 and unchanged when it fits |
| Config.SecondsExact | backend/internal/config/config.go:70 | within about 292 years, the lifetime is the number of seconds times 10^9 nanoseconds |
| Config.AllowedOrigins | backend/internal/config/config.go:92-96 | empty iff the variable is unset or empty; otherwise one element, the raw value, commas included |
| Config.Load | backend/internal/config/config.go:59-99 | never fails, and carries the origin list |
| Config.EmptyEnvironmentDefaults | backend/internal/config/config.go:59-90 | with nothing set, every field is its declared default: 25, 5, 300 s, 1000, 3600 and the listed strings |
| Config.LifetimeIsSeconds | backend/internal/config/config.go:70 | `DB_CONN_MAX_LIFETIME` set to n gives a lifetime of n seconds |

## Left out

- File and CSV I/O, pandas and its NaN filling, the UTC clock, `create_backup`, the printed messages and `sys.exit`. The snapshots, the directory listing and the timestamp are parameters of `PlanMigration`.
- The md5 digest: rows are compared by the hashed text itself, so md5 collisions are not modelled.
- `scripts/convert_lgcode_to_csv.py` is not part of this model.
- `\d` is restricted to ASCII digits. Python's `\d` and `int()` also accept other Unicode decimal digits, which migration file names do not contain.
- `pathlib.glob("*.sql")` is modelled as a filter on names ending in `.sql`. Directory order is irrelevant because only the maximum is kept.
- FindPrefecture: the municipality code it receives is treated as arbitrary text; the script always passes a padded code.
- DownUndoesUp: the `created_at`/`updated_at` timestamps and foreign-key checks on `parent_jis_code` are not modelled, because `NOW()` and the schema constraints are not part of the generated text's logic.
- MigrationRoundTrip: the first run (no backup) is not covered. Its added list may repeat a code, and that makes the up script's INSERT fail.
- MigrationRoundTrip: it is stated for the corrected down script, which looks up a re-inserted municipality's parent in the whole old snapshot, and for a table whose deleted codes hold the rows the old snapshot describes. A table filled by earlier differential migrations can hold NULL where the up script found no prefecture among its added rows; such a table is not covered.
- DownUndoesUp: for the down script as written, its premise requires each deleted municipality's stored parent to be the one found among the deleted rows. That excludes a municipality deleted while its prefecture stays; AsWrittenLosesParent shows that such a table is not restored.
- UpScript: kept as written. A municipality added under a prefecture that is not itself added is inserted with a NULL parent, because the parent is looked up among the added rows only. The round trip does not depend on this.
- MigrationPlan.PlanMigration: it reads migration numbers with the corrected pattern `\d{3,}` and writes the corrected down script, as the findings below describe; with the script's own `\d{3}` it would issue 1000 again and again.
- The services (`backend/internal/services`) and the generated query layer are abstracted as `Result` values and functions inside `RegionsService` and `SportsService`. `uuid.Parse` is folded into `sportByID`.
- JSON encoding and `omitempty` are left out: an absent field is `None`, and an empty `Details` stands for an omitted one. Echo's logger and the request context are left out too.
- `router.go`, `cmd/server/main.go`, `cors.go` and `logger.go` are framework wiring and are not modelled.
- Config.Load: its contract names only the origin list. The other fields are stated by EmptyEnvironmentDefaults and LifetimeIsSeconds, because a per-field contract would repeat the body.
- The `int` of the Go code is taken to be 64 bits wide.

## Findings

| source | as written | input that shows it | evidently intended | confidence | as-written member | corrected member |
|---|---|---|---|---|---|---|
| scripts/generate_region_diff_migration.py:336-338 | the down script looks for a re-inserted municipality's parent prefecture only among the deleted rows | old snapshot: Hokkaido `10006` and Sapporo `11002`; new snapshot: Hokkaido only. On the table holding the old snapshot, Sapporo's parent is `010006`. Up deletes Sapporo, and down re-inserts it with a NULL parent, so the table is not restored, against the script's own heading "This will undo the differential migration" | the parent the row had, found in the old snapshot | medium; not executed | MigrationApply.AsWrittenParentCounterexample | MigrationApply.MigrationRoundTrip |
| scripts/generate_region_diff_migration.py:24 | the pattern `^\d+_(\d{3})_.*\.sql$` matches only three-digit numbers, while line 32 formats 1000 and beyond with four digits | with `20250101000000_999_update_regions_data.up.sql` and its down file present, the script issues 1000. After `…_1000_update_regions_data.up.sql` is written, the next run issues 1000 again, and so on forever | a number of three or more digits, `(\d{3,})`, so that the issued numbers keep increasing | medium; not executed | MigrationNumber.AsWrittenCounterexample | MigrationNumber.IssuedNumberIncreases |

`PlanMigration` uses the corrected pattern (`Widened`) and the corrected down script (`AmongOld`). `Next(AsWritten, …)` is the pattern as written. It agrees with the corrected one while every listed group has exactly three digits. `AsWrittenIncreasesBelow1000` shows that below 1000 it reads back the script's own files. `DownScript(…, AmongDeleted)` is the down script as written.
