# starter-app core, modelled in Dafny

This project models the parts of the starter-app web backend that carry real logic, and
proves properties of them:

- **Authorization** (`auth.dfy`, module `Auth`): `extractUser`, the gate that reads the
  authenticated subject from the token stored in the request context; and
  `handleOauthCallback`, the OAuth 2.0 authorization-code callback (section 4.1 of
  RFC 6749). The callback checks the anti-forgery `state` value (section 10.12 of RFC 6749),
  exchanges the code and reads the provider's identity claims. It then builds the
  application's claim set (`sub`, `iat`, `exp`, `jti` from section 4.1 of RFC 7519, plus
  `name` and `domain`) and signs it with HS256 (section 3.2 of RFC 7518).
- **Filesystem object store** (`objectstore.dfy`, module `ObjectStore`, over
  `filesystem.dfy`, module `FileSystem`). Each object is a data file at
  `path.Join(baseDir, key)`, with an optional `<path>.meta` file holding its JSON-encoded
  metadata. The filesystem is the class `Disk`, holding a map from path to contents and a
  set of directories. The store is the class `FsStore`. Its methods `PutObject`,
  `GetObject` and `DeleteObject` are proved equal to the functions `Put`, `Get` and
  `Delete` over the filesystem's value `FsState`. The round-trip, stale-metadata,
  idempotence and error properties are lemmas about those functions. `DeleteObject` does
  not refuse an empty key, in the source as in the model: `path.Join(baseDir, "")` is the
  base directory, so it removes `<baseDir>.meta` if that file exists and then fails with
  "cannot remove file", because the base directory is not a regular file.
- **Latest migration version** (`migrations.dfy`, module `Migrations`). The file names the
  unanchored pattern `(\d+)_migration.*` matches are kept. They are sorted in place as
  strings, by an insertion sort over an `array`. The digits the pattern captures in the
  last name are read with `strconv.Atoi` (`decimal.dfy`). Go's string order is in
  `strings.dfy`.
- **Repository checker** (`repochecker.dfy`, module `RepoChecker`): `findNextPage`, which
  follows GitHub pagination through the `Link` header (a simplified form of section 3 of
  RFC 8288) with the pattern `<([^>]+)>;\s*rel="([^"]+)"`; and the filter loop of
  `getExtraAdmins`, which lists the admins that are not organisation owners.
- Go error values (`errors.New`, `errors.Wrap`, `*os.PathError`) and their texts are in
  `errors.dfy`.

Collaborators the source calls but whose code is not part of this model are parameters:
- the OAuth2 code exchange, `ParseUnverified` and HS256 signing are the three function
  fields of `Auth.Provider`;
- the wall clock reading (in nanoseconds) and the fresh UUID are arguments of the callback;
- JSON encoding and decoding of metadata is the `ObjectStore.MetaCodec` given to the store.
  The lemmas that read metadata back take its round trip as a hypothesis (`RoundTrips`).

## Model

| member | source | states |
|---|---|---|
| Auth.ExtractUser | app/controller/auth.go:51-61 | The result is "JWT token missing or invalid" exactly when there is no `*jwt.Token` under "user". It is "failed to cast claims as jwt.MapClaims" exactly when the token's claims are not `jwtCustomClaims`. Otherwise it succeeds with the token's subject. |
| Auth.NumericDate | app/controller/auth.go:100-101 | A JWT date is the time rounded down to a whole second: at most the time, less than a second before it. |
| Auth.NewClaims | app/controller/auth.go:91-104 | The minted claims copy `email` to the subject, `name` to the name and `hd` to the domain unchanged. Their id is the fresh UUID. `iat` is `now` rounded down to the second. `exp` is exactly 15 minutes after `iat`. |
| Auth.HandleOauthCallback | app/controller/auth.go:72-114 | A wrong `state` gives 401 "state token does not match", and 401 comes only then. A failed exchange gives 500 with the error wrapped as "problem exchanging oauth code for token". A failed `ParseUnverified` gives 500 with the parser's error text, and so does a failed signing with the signer's. The status is always 200, 401 or 500. 200 comes exactly when the state matched, the exchange, parse and signing succeeded, and the body is the one-entry map {"token:": signed token}. |
| Auth.QueryParam | app/controller/auth.go:74-75 | `c.QueryParam` gives the first value given for the name, or "" when there is none. |
| Auth.StateCheckPrecedesExchange | app/controller/auth.go:74-77 | With a wrong `state` the answer does not depend on the provider, the key, the clock or the UUID, so nothing is exchanged before the check. |
| Auth.MintedClaimsAuthorize | app/controller/auth.go:51-61 | A token that carries the claims the callback mints passes `extractUser` as the provider's `email`. |
| FileSystem.FsState.Stat | app/objectstore/fs.go:151-153 | `os.Stat` reports a regular file, a directory, or the not-exist `PathError` that `os.IsNotExist` recognises. |
| FileSystem.FsState.WriteFile | app/objectstore/fs.go:37 | `os.WriteFile` fails exactly on the empty path ("no such file or directory") or a directory ("is a directory"), and then changes nothing. Otherwise it sets the file's contents. It keeps files and directories apart, and the empty path out of both. |
| FileSystem.FsState.Remove | app/objectstore/fs.go:143 | `os.Remove` of a regular file removes that path and keeps every other file and directory. |
| FileSystem.FsState.MkdirAll | app/objectstore/fs.go:170 | `os.MkdirAll` fails exactly when a regular file stands on the way, and then changes nothing. Otherwise it adds the directory and all its ancestors. |
| FileSystem.Ancestors | app/objectstore/fs.go:170 | The directories `MkdirAll` creates are prefixes of the path, and the path itself is among them. |
| FileSystem.Dir | app/objectstore/fs.go:170 | `filepath.Dir` is "." for a path without '/'. Otherwise it is everything before the last '/', or "/" when that slash is the first character. |
| FileSystem.Disk.WriteFile | app/objectstore/fs.go:37 | The in-place write leaves the disk in the state `FsState.WriteFile` describes and returns its error. |
| FileSystem.Disk.ReadFile | app/objectstore/fs.go:77 | `os.ReadFile` of a regular file returns its contents. |
| FileSystem.Disk.Remove | app/objectstore/fs.go:143 | The in-place removal leaves the disk in the state `FsState.Remove` describes. |
| FileSystem.Disk.MkdirAll | app/objectstore/fs.go:170 | The in-place `MkdirAll` leaves the disk in the state `FsState.MkdirAll` describes and returns its error. |
| ObjectStore.Join | app/objectstore/fs.go:110 | `path.Join` of clean components is empty only when both are, and ends with the key. |
| ObjectStore.MetaFilePath | app/objectstore/fs.go:189-191 | The metadata path is the data path followed by ".meta". |
| ObjectStore.MetaFilePathDistinct | app/objectstore/fs.go:189-191 | A data path is never its own metadata path, and distinct data paths have distinct metadata paths. |
| ObjectStore.GetFullPath | app/objectstore/fs.go:127-137 | The empty key, and only it, is refused with "object key is empty". Any other key gives the non-empty `path.Join(baseDir, key)`. |
| ObjectStore.CheckFileExists | app/objectstore/fs.go:150-164 | The answer is true for a regular file and false when nothing is there. A directory at the path is the error "not a regular file", not "absent". |
| ObjectStore.CheckBaseDirExists | app/objectstore/fs.go:173-187 | The check succeeds exactly when the base is a directory. A regular file gives "not a directory". A missing base gives the not-exist error wrapped as "base directory does not exist". |
| ObjectStore.EnsureDirEffect | app/objectstore/fs.go:166-171 | It succeeds exactly when the base is a directory and no directory `MkdirAll` must make is a regular file. On success the parent directories of the file now exist. On failure nothing changed. Files are never touched. |
| ObjectStore.RemoveFileEffect | app/objectstore/fs.go:139-148 | The call succeeds exactly when the path is not a directory. It then removes the file if there was one and nothing else. On failure nothing changed. |
| ObjectStore.Put | app/objectstore/fs.go:27-53 | On success the key was non-empty and the base a directory. The data is written at the full path. The encoded metadata is written at the meta path only when metadata is given. The parent directories are made. The result is the object as given under the key. The empty key fails without touching the disk. A put succeeds exactly when the key is non-empty, the base is a directory, no parent to be made is a regular file, and neither the data path nor (with metadata) the meta path is a directory. The steps run in the source's order: when a put fails after the directories were made, they stay, and when only the meta write fails, the new data file stays too. |
| ObjectStore.Get | app/objectstore/fs.go:59-103 | On success the base is a directory, the key non-empty and the data file present. The data is that file's contents. The metadata is nil without a meta file, or what the meta file decodes to. A missing base directory always fails. A get succeeds exactly when the base is a directory, the key is non-empty, the data file exists, the meta path is not a directory, and a meta file that exists decodes. |
| ObjectStore.Delete | app/objectstore/fs.go:105-125 | On success the data file and the meta file are gone and nothing else changed. With no base directory it fails and changes nothing. Directories are never touched. A delete succeeds exactly when the base is a directory, the full path is non-empty, and neither the data path nor the meta path is a directory, so absent files are skipped. The meta file is removed first: when the data path is a directory, the delete fails with the meta file already gone. |
| ObjectStore.PutThenGet | app/objectstore/fs.go:37-99 | After a successful put with metadata, a get returns the same data and metadata under the key. |
| ObjectStore.PutWithoutMetadataKeepsStaleMetadata | app/objectstore/fs.go:41-84 | A put without metadata leaves an existing meta file alone, so a get returns the new data with the old metadata. |
| ObjectStore.PutWithoutMetadataThenGet | app/objectstore/fs.go:41-84 | A put without metadata on a key with no meta file reads back with nil metadata. |
| ObjectStore.GetNeedsDataFile | app/objectstore/fs.go:86-102 | Without a data file a get fails with "object does not exist", even when a meta file is there. |
| ObjectStore.DeleteTwice | app/objectstore/fs.go:105-148 | After a successful delete, deleting again succeeds and changes nothing. |
| ObjectStore.GetAfterDelete | app/objectstore/fs.go:59-125 | After a successful delete, a get fails with "object does not exist". |
| ObjectStore.NoBaseDirectory | app/objectstore/fs.go:60-62 | Without a base directory, put, get and delete all fail, and the disk is unchanged. |
| ObjectStore.FsStore.constructor | app/objectstore/fs.go:21-25 | The store is made over the given base directory. |
| ObjectStore.FsStore.GetDownloadURL | app/objectstore/fs.go:55-57 | The URL is always "http://localhost:9000/" followed by the key, and the call never fails. |
| ObjectStore.FsStore.EnsureDir | app/objectstore/fs.go:166-171 | The in-place `ensureDir` changes the disk and answers as `EnsureDirEffect` says. |
| ObjectStore.FsStore.RemoveFile | app/objectstore/fs.go:139-148 | The in-place `removeFile` changes the disk and answers as `RemoveFileEffect` says. |
| ObjectStore.FsStore.PutObject | app/objectstore/fs.go:27-53 | The in-place `PutObject` leaves the disk in the state `Put` gives and returns its result. |
| ObjectStore.FsStore.GetObject | app/objectstore/fs.go:59-103 | The result is what `Get` gives for the disk. On success the data is the data file's contents. |
| ObjectStore.FsStore.DeleteObject | app/objectstore/fs.go:105-125 | The in-place `DeleteObject` leaves the disk in the state `Delete` gives and returns its error. |
| Decimal.Format | app/objectstore/fs.go:56 | `%d` of a non-negative number prints a non-empty run of digits. |
| Decimal.FormatValue | app/objectstore/fs.go:56 | `%d` prints digits whose value is the number printed. |
| Decimal.Atoi | db/embed.go:40-43 | `strconv.Atoi` of a digit string succeeds exactly when its value fits in a 64-bit `int`, with that value. Otherwise the error reads `strconv.Atoi: parsing "<s>": value out of range`. |
| Decimal.AtoiFormat | db/embed.go:40 | `Atoi` reads back what `%d` prints, for every non-negative value an `int` holds. |
| Errors.Text | app/controller/auth.go:81-82 | `err.Error()` of `errors.New(msg)` is `msg`. For `errors.Wrap(cause, msg)` it is `msg`, then ": ", then the cause's text. A `*os.PathError` starts with its operation and then names its path. |
| Errors.IsNotExist | app/objectstore/fs.go:153 | `os.IsNotExist` recognises exactly the path errors whose reason reads "no such file or directory". |
| Strings.LessMeans | db/embed.go:36 | Go's `<` on strings holds exactly for a proper prefix, or when the first differing character is smaller. |
| Strings.LessIrreflexive | db/embed.go:35-37 | No name sorts before itself. |
| Strings.LessTransitive | db/embed.go:35-37 | The string order is transitive. |
| Strings.LessTotal | db/embed.go:35-37 | Of two distinct names, one sorts before the other. |
| Strings.LessAsymmetric | db/embed.go:35-37 | Two names never sort before each other. |
| Migrations.FindSubmatchFrom | db/embed.go:20 | The capture is the digit run of the first position where the pattern matches: no earlier position matches. It is non-empty and all digits. No match means the pattern matches nowhere. |
| Migrations.FindSubmatch | db/embed.go:39 | `pathRE.FindSubmatch` finds a capture exactly when the pattern matches somewhere in the name, and the capture is a non-empty run of digits. |
| Migrations.Match | db/embed.go:33 | `pathRE.Match` holds exactly when the pattern matches at some position of the name. |
| Migrations.OccurrenceMatches | db/embed.go:20 | Wherever a run of digits is followed by "_migration", the pattern matches at the start of that run. |
| Migrations.MatchMeans | db/embed.go:20 | A name matches exactly when, somewhere in it, a non-empty run of digits is immediately followed by "_migration". |
| Migrations.CaptureIsLeftmost | db/embed.go:39 | The captured digits are followed by "_migration" and preceded by no digit, and no run of digits followed by "_migration" starts before them. |
| Migrations.FilterMatching | db/embed.go:32-34 | The kept names are exactly the listed names that match. |
| Migrations.SortByName | db/embed.go:35-37 | The in-place sort leaves the array in string order and a permutation of what it held. |
| Migrations.SortedLastIsGreatest | db/embed.go:35-39 | In a sorted list no name comes after the last one. |
| Migrations.Greatest | db/embed.go:35-39 | The greatest name is one of the names. |
| Migrations.GreatestIsGreatest | db/embed.go:35-39 | No name comes after the greatest name in string order. |
| Migrations.LessEqAntisymmetric | db/embed.go:35-39 | Two names that each sort no later than the other are equal. |
| Migrations.SortedEndsWithGreatest | db/embed.go:35-39 | After the sort, the last name is the greatest of the matching names. |
| Migrations.LatestVersion | db/embed.go:27-30 | A listing error is returned wrapped as "problem listing paths". |
| Migrations.VersionIsCapturedValue | db/embed.go:39-43 | The version is the value of the digits captured in the chosen name when it fits in an `int`. Otherwise the result is `Atoi`'s range error. |
| Migrations.LatestIsGreatestMatching | db/embed.go:32-39 | The chosen name is a listed, matching name, and no matching name comes after it. |
| Migrations.LatestVersionIgnoresOrder | db/embed.go:27-39 | Two listings with the same names give the same result, whatever their order. |
| Migrations.LatestMigrationVersion | db/embed.go:26-46 | The method (filter, in-place sort, last name, capture, `Atoi`) returns exactly `LatestVersion` of the listing. |
| Migrations.StringOrderNotNumeric | db/embed.go:35-40 | Names are ordered as strings, not numbers: from "10_migration.sql" and "9_migration.sql" the version reported is 9. |
| RepoChecker.MatchAt | scripts/repo-checker/main.go:22 | A match of `linkRE` at a position ends after it and within the text. |
| RepoChecker.EntryMatches | scripts/repo-checker/main.go:22 | Every entry `<url>;` + spaces + `rel="value"` is matched where it is written, with its URL and rel value captured. The URL is non-empty without `>`, and the rel value non-empty without `"`. |
| RepoChecker.MatchIsEntry | scripts/repo-checker/main.go:22 | Whatever `linkRE` matches is such an entry. The URL sits between `<` and `>`, and nothing comes between `>` and `;`. |
| RepoChecker.FindAllIsLeftmost | scripts/repo-checker/main.go:83 | `FindAllStringSubmatch` finds nothing from a position exactly when the pattern matches nowhere from there. Otherwise its first match is the pattern's match at the leftmost position where it matches, and the rest are the matches found from the end of that one. |
| RepoChecker.HeaderLinks | scripts/repo-checker/main.go:82-83 | A `Link` header of well-formed entries joined by ", " is read back entry by entry: the captured URLs and rel values are those of the entries, in order. |
| RepoChecker.HeaderGet | scripts/repo-checker/main.go:83 | `http.Header.Get` gives the first value under the key, or "" when there is none. |
| RepoChecker.FindNextPage | scripts/repo-checker/main.go:82-89 | With ok, the URL is that of the first entry whose rel value is exactly "next". Without it, the answer is ("", false), exactly when no entry's rel value is "next". |
| RepoChecker.GetExtraAdmins | scripts/repo-checker/main.go:150-160 | The loop returns the in-order filter `ExtraAdminsOf` of the collaborators with the owners. No owner is in the result. |
| RepoChecker.ExtraAdminsMembership | scripts/repo-checker/main.go:150-159 | A login is in the result exactly when some collaborator with that login has role "admin" and is not an owner. |
| RepoChecker.NoOwnerIsExtraAdmin | scripts/repo-checker/main.go:155-157 | No owner's login is ever in the result. |
| RepoChecker.ExtraAdminsAppend | scripts/repo-checker/main.go:151-159 | The filter keeps the input order: filtering two lists in turn gives the two results in turn. |
| RepoChecker.NoExtraAdmins | scripts/repo-checker/main.go:150-160 | The result is the empty list exactly when no collaborator qualifies. |

## Left out

- I/O faults are not modelled. These are a `Stat` that fails other than "does not exist" (the "error getting file information" branches of `checkFileExists` and `checkBaseDirExists`), a `ReadFile` or `Remove` that fails on a regular file, and a `WriteFile` whose parent directory is missing or unwritable. The modelled filesystem only fails where its state says so.
- The directory tree is flat. A file may exist without its parent directories, and the error path of a failing `MkdirAll` is the requested directory rather than the ancestor that is in the way. A path below a regular file names nothing here, where `os.Stat` reports "not a directory", which `os.IsNotExist` rejects (app/objectstore/fs.go:151-156). For a key below an existing data file, `GetObject` in the source answers "error checking meta file exists: error getting file information: …" and `DeleteObject` fails, while the model answers "object does not exist" and deletes nothing, successfully.
- `path.Join` is modelled on clean components only. Lexical cleaning ("..", ".", repeated and trailing slashes) is not modelled. "/" and "." are ordinary names here.
- The "cannot construct object path" branches of `getFullPath` and `DeleteObject` are modelled but cannot be reached. `path.Join` of a non-empty key is never empty, and in `DeleteObject` an empty join needs an empty base directory, which the base check has already refused: the empty path is never a directory (`os.Stat("")` reports "no such file or directory").
- JSON encoding of metadata is a parameter. `json.Marshal` of a `map[string]string` cannot fail, so the "cannot marshal object metadata" branch is left out.
- Metadata is `None` for a nil map and `Some` of a map otherwise, so an empty map is `Some` of the empty map. `PutObject` writes a meta file only for a non-nil map, as the source does (app/objectstore/fs.go:41). How `json.Marshal` prints each (`null` for nil, `{}` for an empty map) belongs to the codec parameter.
- `LocalFileServer` (the HTTP file server), `newFS`'s caller in `factory.go`, and the contexts passed around are not modelled.
- Cryptography is not modelled. The OAuth2 exchange, `ParseUnverified`, HS256 signing, UUID generation and the clock are parameters or fields of `Auth.Provider`. Signature verification by echo's JWT middleware is not modelled.
- Auth.HandleOauthCallback: the type assertions at app/controller/auth.go:85 and 92-96 panic rather than answer, so they are the precondition `CallbackDoesNotPanic`. A nil `*jwt.Token` under "user" is not modelled either.
- Auth.HandleOauthCallback: JSON rendering of the response and the "successful login" log line are not modelled. The body is a value.
- Auth.NumericDate: `jwt.NewNumericDate` truncates to the library's default precision of one second, so `iat` is `now` rounded down, not `now` itself.
- Migrations.LatestMigrationVersion: with no matching name the source panics on `paths[-1]`, so at least one matching name is a precondition. Reading the embedded directory is a parameter: a listing or an error.
- Migrations.LatestVersion: the `int` of the source is taken to be 64 bits wide.
- Migrations.SortByName: `sort.Slice` is not stable and its algorithm is not specified. It is modelled by an insertion sort with the same postcondition (sorted, and a permutation).
- RepoChecker.GetExtraAdmins: the collaborators request and its error return are not modelled. The method filters the collaborators already fetched. Go's distinction between a nil and an empty slice is not modelled; the result starts as the empty list, as in the source.
- RepoChecker.FindNextPage: `http.Header.Get` is modelled on a header already keyed by its canonical name "Link". The `len(m) > 2` test always holds for a match of a pattern with two groups.
- The pagination loop of `getRepos`, the other network fetches and the table output of the repository checker are not modelled.
