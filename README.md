# Public-share migration to EOS version folders

`cernbox-migration-database` re-points the public file shares of the
`oc_share` table at the *version folder* of the shared file. For a file
`/dir/name`, the version folder is the sibling `/dir/.sys.v#.name`. For each
share record the tool does four things:

1. It resolves the shared inode with `eos file info inode:<n> -m`, and parses
   the one-line answer into a `Metadata` record (`parseFileInfo`).
2. It classifies the resolved path. A share already on a version folder is
   skipped, and so is a share on a file outside the users' home tree. A share
   on a version of a file (inside a version folder) targets that folder. Any
   other share targets the file's version folder.
3. It finds the version folder (`getVersionsFolderMetadata`). When the lookup
   exits with status 2, the tool creates the folder as the file's owner, then
   looks it up again, at most 5 times.
4. It rewrites the row (`updateShareTable`):
   - `item_source` becomes the folder's inode, in decimal;
   - `item_target` becomes `/` followed by that inode;
   - `file_source` becomes the same inode;
   - `file_target` becomes `/` followed by the folder's name;
   - nothing is written in dry-run mode (`-notouchdb`);
   - the update fails unless exactly one row was affected.

The model is split into seven modules:

- `GoStrings` (`go_strings.dfy`): Go's `strings.Split`, `strings.HasPrefix`,
  `strconv.ParseInt(s, 10, 64)` and `%d` formatting, as far as the tool uses
  them.
- `Common` (`common.dfy`): `Option`, `Result` and the errors a record can
  fail with.
- `EosPath` (`eos_path.dfy`): clean absolute paths, `path.Base`, `path.Dir`,
  `path.Join`, and the version-folder path of a file.
- `FileInfo` (`file_info.dfy`): `parseFileInfo`, both as a function and as
  its token loop, step by step.
- `Backend` (`backend.dfy`): the `eos` lookups and the creation command, and
  `getVersionsFolderMetadata` with its retry loop.
- `ShareStore` (`share_store.dfy`): the share row, the update plan, and
  `updateShareTable`.
- `Reconcile` (`reconcile.dfy`): the classification, and the per-record body
  of the migration.

The outside world is given as inputs, never run:

- **Path lookups.** What `eos` answers to the k-th path lookup of a record is
  `lookups(k)`.
- **Version creation.** What the creation command gives is a `CmdOutcome`
  turned into an optional error.
- **Database.** What the database answers to the UPDATE is a `DbResponse`.

A Go slice out of range panics. Nothing recovers that panic, so it stops the
whole migration. Here it is the ordinary error `SliceOutOfRange` (see "Left out").

## Model

| member | source | states |
|---|---|---|
| GoStrings.Split | main.go:184-186 | `strings.Split` always gives at least one piece; its meaning is stated by `JoinSplit`, `SplitJoin` and `SplitConcat` |
| GoStrings.JoinSplit | main.go:184 | joining the pieces of `strings.Split` with the separator gives back the split string |
| GoStrings.SplitJoin | main.go:186 | splitting a join of separator-free pieces gives back exactly those pieces |
| GoStrings.SplitConcat | main.go:184 | a separator between two strings splits them apart: the pieces are those of each side, in order |
| GoStrings.ScanDigits | main.go:193 | the base-10 digit loop succeeds only on all-digit input, with a value within `uint64`; a syntax error yields 0 and implies a non-digit in the input; a range error yields the largest `uint64` |
| GoStrings.ScanDigitsSyntax | main.go:193 | a non-digit reached before the value overflows gives a syntax error with value 0 |
| GoStrings.ScanDigitsValue | main.go:193 | on all-digit input whose value fits in `uint64`, the loop succeeds with exactly the digits' value |
| GoStrings.ScanDigitsOverflow | main.go:193 | on all-digit input whose value exceeds `uint64`, the loop gives a range error with the largest `uint64` |
| GoStrings.ParseInt | main.go:193 | the value is always within `int64`; success implies an optional sign followed by digits, and such input is never a syntax error; a syntax error yields 0; a range error yields the `int64` bound; no digits after the optional sign (`""`, `"+"`, `"-"`), or a first character that is neither a sign nor a digit, is a syntax error with value 0 |
| GoStrings.ParseIntSyntax | main.go:193 | text whose digits, after an optional sign, run into a non-digit before the value overflows gives a syntax error with value 0 |
| GoStrings.ParseIntDecimal | main.go:193-204 | for an optional sign followed by digits: the signed value of the digits, without error, when it fits in `int64`; otherwise a range error with the bound on the value's side |
| GoStrings.HasPrefix | main.go:280-288 | `strings.HasPrefix`; its body is Go's definition, a length test and a slice comparison |
| GoStrings.HasPrefixAppend | main.go:280-288 | a string has a prefix iff it is that prefix followed by the rest of the string; anything appended to a prefix has it, which is how `VersionFolderIsSkipped` sees the version prefix |
| GoStrings.FormatInt | main.go:228 | `%d` of an integer; `ParseFormatInt` states that it reads back as that integer |
| GoStrings.ParseFormatInt | main.go:228 | parsing the `%d` text of any `int64` gives that number back without error |
| EosPath.Base | main.go:144 | `path.Base` is never empty; it is `/`, `.`, or a string without `/` |
| EosPath.FilePathCut | main.go:143-144 | a clean file path is its directory part, a `/`, and its base name, which is a single path segment; the directory part is the root or itself a clean path |
| EosPath.Dir | main.go:143 | `path.Dir` of a clean file path is the root or a clean path |
| EosPath.Join | main.go:145 | `path.Join(dir, name)` is a clean file path whose `Dir` is `dir` and whose `Base` is `name` |
| EosPath.JoinDirBase | main.go:143-145 | joining the `Dir` and the `Base` of a clean file path gives it back |
| EosPath.BaseTrailingSlash | main.go:280 | a clean path followed by a folder's trailing `/` is a listed path, and `path.Base` gives the same name with or without that `/` |
| EosPath.VersionsPath | main.go:142-145 | the version folder of a file is a clean path in the same directory as the file, named with the prefix `.sys.v#.` followed by the file's name |
| FileInfo.Parse | main.go:182-207 | success iff the `keylength.file` value parses, the path slice is in range and `ino` parses; a bad `size` never fails; on success the path is the raw line's slice at offset 14 + the length text + 7, and the inode is the parsed `ino`; uid and gid are the raw tokens, or empty when absent; the size is the value of `ParseInt` on the `size` text, its error ignored: a missing or non-numeric size (a syntax error) is 0, an out-of-range one is the `int64` bound; a missing `keylength.file` is a syntax error on "" |
| FileInfo.ParseFileInfo | main.go:182-207 | the token loop, the length check, the path slice and the number parsing, step by step, give what `Parse` gives |
| FileInfo.Enter | main.go:186-189 | one token entered into the map; its meaning is stated by `KeyValuesLastWins` and `KeyValuesUndeclared` |
| FileInfo.KeyValues | main.go:183-190 | the map built from the tokens in order; `ReadKeyValues` states that the loop builds it and `KeyValuesLastWins` what it holds |
| FileInfo.ReadKeyValues | main.go:183-190 | the loop over space-separated tokens builds the map of `KeyValues`, in token order |
| FileInfo.KeyValuesLastWins | main.go:185-190 | a key is in the map iff some token splits on `=` into exactly that key and one value; its value is the one from the last such token |
| FileInfo.KeyValuesUndeclared | main.go:185-190 | tokens that do not declare a key leave that key's entry as it was |
| FileInfo.ParseRecoversPath | main.go:191-198 | for a line `keylength.file=<n> file=<path><rest>` with an `n`-character path, the parsed path is exactly `path`, even when it has spaces; parsing can then fail only on `ino` |
| FileInfo.LeadingKeyLength | main.go:192 | a line starting with `keylength.file=<digits>` announces those digits when no later token declares the key again |
| FileInfo.KeyValueToken | main.go:186-188 | a `key=value` token without another `=` splits into exactly the key and the value |
| Backend.CommandError | main.go:208-216 | a command gives an error exactly when it did not exit with status 0 |
| Backend.Lookup | main.go:119-137 | a lookup's result is an exit-status error iff the command exited non-zero, and then it carries that status; a successful run is the parse of its output; a command that could not be run is the "not run" error; a lookup succeeds only when its command exited 0 |
| Backend.Repeat | main.go:162-168 | the calls of `n` rounds of the retry loop are `n` copies of the same lookup |
| Backend.Retry | main.go:158-168 | the retry loop makes 1 to `budget` lookups; every lookup before the last failed; the result is the last lookup's; a failed result means the whole budget was used |
| Backend.RetryUnique | main.go:162-168 | only one outcome stops at the first success and gives up after `budget` failures, namely the one `Retry` gives |
| Backend.VersionsFolder | main.go:141-180 | `getVersionsFolderMetadata` on given answers; its protocol is stated by `VersionsFolderProtocol` |
| Backend.VersionsFolderProtocol | main.go:141-180 | the first call looks the version folder up; creation, as the file's owner, happens iff that lookup exits with status 2; any other first answer, and a creation error, is returned with no further lookup; after creation, 1 to 5 lookups of the same path follow, stopping at the first success; after 5 failures the last error is returned |
| Backend.RetryLookups | main.go:158-168 | the loop that counts `maxRetries` down from the placeholder error makes exactly the lookups `Retry` describes and ends with the same result |
| Backend.GetVersionsFolderMetadata | main.go:141-180 | the method's result and calls are those of `VersionsFolder` |
| Backend.FoundOnSecondRetry | main.go:146-172 | lookup missing (status 2), creation, a failed retry, then a successful one: exactly four calls and the found folder |
| ShareStore.FileSourceInode | main.go:272 | the inode looked up for a share is its `file_source`, or 0 when that is NULL; `ReconcileShare` states that it is the record's first call |
| ShareStore.PlanFor | main.go:218-228 | the values bound to the UPDATE; stated by `PlanForValues` |
| ShareStore.PlanForValues | main.go:228 | `item_source` is the decimal inode and reads back as that inode; `item_target` is `/` + `item_source`; `file_source` is the inode; `file_target` starts with `/`, and for a clean path, with or without a folder's trailing `/`, it is the folder's name directly under the root; the row is the share's id |
| ShareStore.PlanTargetsFolder | main.go:228 | `/` + `path.Base(p)` is at least two characters long; for a clean path, with or without a folder's trailing `/`, it is that path's name under the root |
| ShareStore.NameAtRoot | main.go:228 | for a clean file path, `/` + its base name is a clean path directly under the root with the same base name |
| ShareStore.UpdateShareTable | main.go:217-240 | dry run: success and no write; otherwise a failed prepare, exec or row count is a database error; a row count is success iff it is neither 0 nor more than 1, and otherwise is the "share no longer exists" error for this id |
| Reconcile.LastPiece | main.go:278 | the last piece of a clean file path split on `/` is its base name |
| Reconcile.JoinedParent | main.go:278-279 | split on `/`, a name joined to a directory comes right after that directory's own name (after "" for the root) |
| Reconcile.ParentDirName | main.go:278-279 | `parts[len(parts)-2]` exists for every clean file path and is the name of its directory, or "" under the root |
| Reconcile.ParentDir | main.go:278-279 | the per-record goroutine's `parentDir` is the base name of `path.Dir`, or "" under the root |
| Reconcile.Classify | main.go:278-303 | the four-way decision of the per-record body; its meaning is stated by `ClassifyMeaning` |
| Reconcile.ClassifyMeaning | main.go:280-304 | first match wins: a version-prefixed name is "already points to the version folder", even outside the home tree; else a path outside the user prefix is "not under home"; else a version-prefixed parent (not the root) is "points to a version"; else the file needs its version folder |
| Reconcile.Apply | main.go:297-301 | the share is updated with the plan for the folder iff the run is dry or exactly one row was affected; a dry run is reported as not written; a failure is a database error or "share vanished" for this id |
| Reconcile.Proceed | main.go:280-315 | the body after the classification; stated by `ProceedSkips` and, through `ReconcileFile`, by `ReconcileFileVersion` and `ReconcileFilePlain` |
| Reconcile.ReconcileFile | main.go:278-315 | the per-record body for a resolved file; stated by `ReconcileFileSkips`, `ReconcileFileVersion` and `ReconcileFilePlain` |
| Reconcile.ProceedSkips | main.go:280-287 | only the two skip decisions skip, and they make no call |
| Reconcile.ReconcileFileSkips | main.go:280-287 | a record is skipped iff its path is a version folder or lies outside the home tree; a skip makes no `eos` call and no update |
| Reconcile.ReconcileFileVersion | main.go:288-303 | a version of a file looks up its directory, the folder, in one call; a failed lookup is the record's error, and a found folder is applied |
| Reconcile.ReconcileFilePlain | main.go:304-315 | a plain file makes the calls of `getVersionsFolderMetadata`; its error is the record's error, and a found folder is applied |
| Reconcile.ReconcileShare | main.go:272-276 | every record starts with the inode lookup; a failed inode lookup ends the record with its error after that one call; otherwise the rest is the reconciliation of the resolved file |
| Reconcile.VersionFolderIsSkipped | main.go:280-283 | the version folder of any file is classified as already pointing to a version folder; its listed form, with the trailing `/`, has the same base name, which carries the version prefix |
| Reconcile.VersionAndFileShareOneFolder | main.go:288-291 | a share on a file under home needs its version folder; a share on a version inside that folder points into it, and its target directory is that same folder |
| Reconcile.DryRunFile | main.go:219-221 | for a resolved file, with `-notouchdb`, the database's answer changes nothing, and every update is reported as not written |
| Reconcile.DryRunWritesNothing | main.go:219-221 | with `-notouchdb`, a record's outcome and calls do not depend on the database's answer, and no update is written |
| Reconcile.CreatedFolderIsUsed | main.go:304-315 | a plain file whose version folder is created and found on the second retry is re-pointed at that folder after exactly four `eos` calls |
| Reconcile.OneRowWritten | main.go:236-239 | exactly one affected row updates the share with the plan; it is written unless the run is dry |

## Left out

- Running `eos` and the database (main.go:107-137, 208-216, 222-235) is not modelled. Their answers are inputs to the functions: command outcomes, lookup results and a `DbResponse`. Only the exit status of a failed command is kept.
- `getAllShares`, the MySQL connection and the SQL text (main.go:78-97) are not modelled. Reconciliation works on one `ShareInfo` at a time.
- The slice panic of `parseFileInfo` (main.go:198) is not recovered: the goroutine defers only `wg.Done` and the throttle release (main.go:268-271). In Go it stops the whole process and every other record, and the final line (main.go:320) is never printed. In the model it is the ordinary error `SliceOutOfRange`. On the inode lookup and on the lookup of a version's folder, that error fails only that record. Inside the retry loop (main.go:162-168), it is retried like any other failed lookup, so a later success still updates the record (`Backend.FoundOnSecondRetry` and `Reconcile.CreatedFolderIsUsed` admit it as the failed retry). In Go the first such answer ends the process.
- The goroutines, the throttle channel and the `WaitGroup` (main.go:260-319) are not modelled. Records are independent, so one is modelled at a time.
- Flag parsing, `GLOBAL_FLAGS`, `EOS_MGM_URL`, the debug output and all `RECORD:` / stderr logging (main.go:23-53, 113-115, 218, 243, 277) are not modelled. `userPrefix` and `noTouchDb` are the fields of `Reconcile.Config`.
- Reconcile.ReconcileShare: requires the resolved path to be a clean absolute path below the root. A folder, which `eos` lists with a trailing `/`, is outside that domain. Go's full `path.Clean` (`.`, `..`, repeated or trailing slashes) is not modelled. Neither is the index panic of `parts[len(parts)-2]` for a path without `/`, such as an empty path.
- FileInfo.ParseRecoversPath: requires that no later token on the line declares `keylength.file` again. The token map keeps the last declaration, so otherwise the offset would use another length. For `keylength.file=19 file=/a keylength.file=1 ino=7`, the slice is the single character at offset 22, `=`.
- Reconcile.VersionFolderIsSkipped: the whole-record skip is proved for the version folder's clean path. For the form `eos` lists, with the trailing `/`, only the first rule's test is proved: `path.Base` gives a name with the version prefix. The driver's domain is clean paths.
- FileInfo.Parse: characters stand for the bytes of Go strings. `keylength.file` counts bytes, so a path with multi-byte characters is not modelled.
- FileInfo.Parse: `start + length` is an unbounded integer, whereas Go computes it in `int64`. A sum that wraps in Go becomes negative, below `start`, so it panics there as here.
- ShareStore.UpdateShareTable: a negative row count is accepted, as `updateShareTable`'s test `n == 0 || n > 1` does. A driver reports no negative counts.
- Backend.Lookup: a command killed by a signal is an `ExitStatus` like any other exit, with whatever status is given.
- The `defer stmt.Close()` of the prepared statement is not modelled: it changes no outcome.
