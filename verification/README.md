# buildrone registry core in Dafny

A model of the in-memory core of buildrone, a small artifact server that sits
next to a Drone CI engine. Repositories are kept in a storage map keyed by
"namespace/name". Each repository owns its builds, keyed by commit hash, and
each build owns its release tags. The model covers four parts:

- **Tag store and read-side handlers** (api.go):
  - `SetTag` with its field-wise merge rules, and `GetTag`;
  - `roundPageCount`;
  - `getBuilds`: the key slice filled in map order, sorted newest first by
    `sort.Sort` and cut into one page;
  - `getRepos`: the newest-commit loop;
  - `LatestCommit`;
  - `findLatest`: the first matching file name, compared case-insensitively.
- **Reconciliation with the CI engine** (main.go):
  - `loadBuilds`, `loadRepos` and `loadAllBuilds`;
  - the secret rule of `NewKey`;
  - the unit loop of `fileSize`;
  - `getRepo`, which drops the "" commit key.
- **Credential claims** (auth.go):
  - the bearer/refresh pairs of `newBuildToken` and `newWebTokens`;
  - the check chains of `validateBuildToken`, `validateWebToken`,
    `getBuildToken` and `getWebToken`.
- **Timestamp JSON codec** (time.go): `MarshalJSON` and `UnmarshalJSON`.

Files (one module each):

| file | module | contents |
|---|---|---|
| outcomes.dfy | `Outcomes` | `Option`, `Result`, and `Reply`, which is what a handler answers: success, an HTTP error status with its message, or a panic |
| strconv.dfy | `Strconv` | `FormatInt` / `ParseInt` (base 10, int64) and their round trip |
| text.dfy | `Text` | `strings.SplitN(s, sep, 2)`, `Contains`, `ToLower`, `TrimPrefix` / `TrimSuffix` |
| jsontime.dfy | `JsonTime` | the `Time` codec |
| registry.dfy | `Registry` | tags, builds, repositories, the storage map, CI records, directory listings |
| auth.dfy | `Auth` | token pairs, check chains, revocation and renewal lemmas |
| reconcile.dfy | `Reconcile` | `fileSize`, the build views, `getRepo`, `loadBuilds`, `loadRepos`, `loadAllBuilds` specifications |
| api.dfy | `Api` | tags, paging, `getBuilds`, `getRepos`, `LatestCommit`, `findLatest` |
| server.dfy | `Server` | class `App`, whose `storage` field the mutating handlers update |

How the model represents the program:

- **Handlers:** a handler that changes the storage map is a method of class
  `Server.App`. Its postcondition gives the new storage and the reply.
- **Loops:** loops in the source are loops here: `fileSize`, the key-slice
  fill, the insertion sort, the newest-commit loop, the file search, and
  the reconciliation loops. Each is proved against a function that states
  what it computes.
- **Map iteration order:** Go leaves it unspecified. `IterationOrder`
  yields the keys in an order the model does not fix, and every property
  proved holds for any order.
- **Times:** `time.Time{}` and `time.Unix(x, 0)` never compare equal with
  `==`, so the zero time is its own constructor `Zero`. `After` compares
  instants: the zero time is Unix second -62135596800.
- **Requests:** only a handler's inputs, outputs and storage effects are
  modelled.
  - A handler takes its request parameters as strings.
  - The outcomes of the CI client, the filesystem and persistence arrive
    as inputs.
  - Directory listings are a map from relative path to entries. An absent
    path is a directory that cannot be read.
  - `now` is whole Unix seconds.
- **Signing:** signing is abstract. A token records its claims, whether an
  HMAC method signed it, and its key. It verifies exactly when the
  verifier's key equals that key.

Where the behaviour described for the system and the code differ, the model
follows the code:

- **Page 0:** a page index of 0 passes the range check of `getBuilds`
  (api.go:285). It then slices from a negative index, which panics: the
  reply is `Panic`. A negative index wraps to a huge unsigned number and is
  refused as an invalid page index.
- **Dropped builds:** main.go's `loadBuilds` builds a fresh map from the CI
  list alone. A build the CI engine no longer lists is dropped, and rebuilt
  builds carry over only `Files`, not tags.
- **`NewKey` reply:** `NewKey` answers with the *refresh* half of a new pair
  (the second result of `newBuildToken`).
- **The "" commit key:** `getBuilds` does not leave it out of the slice
  count. It still takes a slot, which stays "". `sort.Sort` sorts only the
  first `len(sb.builds)` slots, so with a "" commit, or with a build whose
  directory cannot be read, the tail of the slice is not sorted. The page
  count and the pages are cut from the whole slice.
  `Api.Arrangement` states exactly what the slice holds.
  `Api.WellFormedListing` proves that without "" keys and unreadable
  directories the slice is every commit once, newest first.

## Model

| member | source | states |
|---|---|---|
| JsonTime.MarshalJSON | time.go:22-27 | the zero time encodes as the two characters `""`; any other time as a quote, its decimal Unix seconds, a quote |
| JsonTime.UnmarshalJSON | time.go:13-20 | fails exactly when the text, with one trailing and then one leading quote removed, does not parse as a base-10 int64; otherwise the decoded value is the non-zero time `time.Unix` of the parsed second |
| JsonTime.Decode | time.go:13-20 | a failed parse leaves the receiver exactly as it was; a successful one replaces it by the decoded time |
| JsonTime.RoundTrip | time.go:13-27 | decoding the encoding of any non-zero time gives back the same Unix second |
| JsonTime.ZeroDoesNotRoundTrip | time.go:13-27 | the zero time's encoding does not decode, so a receiver decoding it keeps its old value |
| JsonTime.QuotesAreOptional | time.go:14 | a run of digits decodes the same with or without its surrounding quotes |
| JsonTime.DoubleQuotesRejected | time.go:14 | only one quote is stripped at each end: a doubly quoted number is a decoding error |
| Strconv.ParseInt | time.go:14 | a successful parse is an int64, of text that is an optional sign followed by one or more digits, and is negative only after a minus sign |
| Strconv.ParseFormatRoundTrip | time.go:14-26 | `ParseInt(FormatInt(n), 10, 64)` gives back every int64 `n` |
| Text.Cut | auth.go:119-125 | `SplitN(s, sep, 2)` has two parts exactly when `sep` occurs; they rejoin around `sep` to `s`, the first holding no occurrence of `sep` |
| Text.CutJoined | auth.go:119-125 | a header made of a prefix, "Bearer " and a token splits back into exactly that prefix and token when no earlier "Bearer " starts inside the prefix |
| Auth.Sign | auth.go:45-46 | a token signed with a key verifies with that key and with no other key |
| Auth.ExpiryRoundTrip | auth.go:136 | an expiry written with `FormatInt` parses back to the same second |
| Auth.BuildTokens | auth.go:36-58 | both halves verify with the repository secret and carry the same claim names; they agree on every claim but `exp` and `type`; they name the repository; bearer expires 20 minutes after issue and refresh `Auth.BuildRefreshLifetime(TOKEN_PERIOD)` seconds after |
| Auth.Wrap64 | auth.go:50 | Go's 64-bit arithmetic: a value already in the int64 range is unchanged, and every result is congruent to its input modulo 2^64 |
| Auth.RefreshLifetimeIsDuration | auth.go:50 | the refresh lifetime in seconds is Go's wrapping int64-nanosecond `time.Duration` `time.Hour * time.Duration(24*TOKEN_PERIOD)` divided by 10^9 rounded down, for every `TOKEN_PERIOD`; within ±106751 days it is `TOKEN_PERIOD * 24 * 3600` |
| Auth.RefreshLifetimeWraps | auth.go:50 | at `TOKEN_PERIOD` = 106752 the duration wraps, and the refresh token expires 9223371274 seconds (about 292 years) before it is issued |
| Auth.NewBuildToken | auth.go:36-58 | signing one claims map, then rewriting its `exp` and `type` and signing again, yields exactly that pair |
| Auth.WebTokens | auth.go:60-81 | both halves verify with the web secret and name no repository; bearer expires after 20 minutes and refresh after 24 hours |
| Auth.NewWebTokens | auth.go:60-81 | the imperative double signing yields exactly that admin pair |
| Auth.CheckToken | auth.go:129-147 | a token is granted iff it parsed, verifies with the secret, passes jwt-go's claim validation at now (no numeric `exp` in the past, no numeric `iat`/`nbf` in the future), has an `exp` that parses, has the expected `type` and expires strictly after now; a panic needs a verified token that passes that claim validation |
| Auth.IssuedTokensPassValidation | auth.go:36-81 | the claim validation `jwt.Parse` runs never rejects a repository or admin token issued here, at any time: their `exp` is a string |
| Auth.NumericExpiry | auth.go:129-137 | a signed token whose `exp` is a JSON number is never admitted: in the past the library refuses it (401), otherwise the string assertion on `exp` panics |
| Auth.CheckScope | auth.go:148-152 | the claims are granted iff their `namespace` and `repo` equal the stored repository's |
| Auth.Answer | auth.go:115-153 | every refusal after the repository lookup is the same 401 "Unauthorized" |
| Auth.ValidateBuildTokenAsWritten | auth.go:112-154 | admits iff all hold: the repository exists, the header holds "Bearer ", and the token after it verifies with the repository's secret, passes jwt-go's claim validation at now, has a parsable `exp` later than now, is of type bearer and names the stored namespace and name; for a known repository every other answer is 401 "Unauthorized" or a panic |
| Auth.ValidateBuildToken | auth.go:112-154 | corrected: never admits for a repository whose secret is empty; identical to the code wherever the secret is set |
| Auth.ValidateWebTokenAsWritten | auth.go:156-177 | admits iff the header holds "Bearer " and the token after it is granted by `Auth.CheckToken` as an admin bearer token (signature, claim validation, parsable `exp` later than now); a header without "Bearer " panics |
| Auth.ValidateWebToken | auth.go:156-177 | corrected: a header without "Bearer " is 401; otherwise identical to the code |
| Auth.GetBuildTokenAsWritten | auth.go:179-220 | succeeds iff the repository-scoped refresh checks pass (`Auth.CheckToken` for kind refresh, including jwt-go's claim validation, then the scope check); the reply is then a new pair issued now with the repository's secret; a header without "Bearer " panics |
| Auth.GetBuildToken | auth.go:179-220 | corrected: a header without "Bearer ", or a repository without a secret, is 401; otherwise identical to the code |
| Auth.GetWebTokenAsWritten | auth.go:222-271 | any success is a new admin pair issued now, and only after either a passed password check (credentials splitting into two non-empty parts) or a refresh cookie that `Auth.CheckToken` grants; a header without "Basic " panics; credentials after "Basic " that do not decode as base64 are 401 "Unauthorized" |
| Auth.GetWebToken | auth.go:222-271 | corrected: a header without "Basic " is 401; otherwise identical to the code |
| Auth.FreshBearerAdmitted | auth.go:136-147 | a bearer token just issued with the repository's secret is admitted strictly before issue + 20 minutes and refused from that second on |
| Auth.RotationRevokes | auth.go:127-134 | a token signed with any key other than the repository's current secret is refused by `validateBuildToken` and `getBuildToken`, as written and corrected, however fresh it is |
| Auth.RefreshIsNotBearer | auth.go:143 | a repository refresh token is never admitted by `validateBuildToken` |
| Auth.BearerIsNotRefresh | auth.go:204 | a repository bearer token never buys a new pair from `getBuildToken` |
| Auth.RefreshRenews | auth.go:204-219 | an unexpired refresh token issued with the current secret buys the pair issued now with that secret |
| Auth.PasswordPathDecides | auth.go:231-239 | when the Basic credentials split at the first ':' into two non-empty parts, the answer is the password check alone and the cookie plays no part |
| Auth.CookiePathDecides | auth.go:240-263 | otherwise the account plays no part: the answer is the refresh-cookie check |
| Auth.WebRefreshRenews | auth.go:258-264 | the admin refresh cookie renews the session strictly before 24 hours after issue and is refused from then on |
| Auth.MissingHeader | auth.go:157-158 | without an Authorization header, `validateWebToken`, `getBuildToken` and `getWebToken` panic as written; the corrected handlers answer 401 |
| Auth.EmptySecretForgery | auth.go:127-129 | for a repository whose secret is still empty, a bearer token anyone signs with the empty key is admitted as written and refused by the correction |
| Reconcile.SizeLabelOf | main.go:84-95 | below 1000 the plain byte count; otherwise `div` is the largest power of 1000 with `div <= l < 1000 * div`, and its unit letter comes from "KMGTPE" at an index proved in range for every int64 |
| Reconcile.ScaleExponentBounds | main.go:90-93 | the number of divisions by 1000 the loop makes is the exponent `e` with `1000^e <= n < 1000^(e+1)` |
| Reconcile.FileSize | main.go:84-95 | the division loop ends with the unit and divisor of `SizeLabelOf` |
| Reconcile.IterationOrder | main.go:372 | a `range` over a map visits each key exactly once |
| Reconcile.ListFiles | main.go:284-290 | one file DTO per directory entry, in listing order, each with its name and its size label |
| Reconcile.Described | main.go:272-291 | a build is described iff its directory is absent or readable, and the description is its view |
| Reconcile.Describe | main.go:272-291 | the per-build step of both listings yields exactly `Described` |
| Reconcile.BuildView | api.go:294-314 | the DTO copies id, name, link, date and branch; it has no files without a directory and one entry per listed file with one |
| Reconcile.ListedBuilds | api.go:293-320 | the listed commits are exactly the stored ones other than "" whose directory is absent or readable |
| Reconcile.VisibleBuilds | main.go:271-295 | `getRepo` shows exactly the listed commits; each shows its build's view without the branch |
| Reconcile.GetRepo | main.go:258-297 | an unknown repository is 400 "Repository not found"; otherwise the view holds exactly the visible builds, whatever the map order |
| Reconcile.Record | main.go:328-339 | a rebuilt build takes id, title, link and `Unix(updated)` from the CI record and `Files` from the previous build of that commit ("" if none); it has no tags |
| Reconcile.LoadBuilds | main.go:322-342 | a failed CI call returns its error; otherwise the result is the reconciliation of the CI list against the previous builds |
| Reconcile.ReconciledKeys | main.go:327-340 | the rebuilt map holds exactly the commits the CI engine listed |
| Reconcile.ReconciledLastWins | main.go:339 | a commit listed more than once ends up with its last record |
| Reconcile.ReconciledFiles | main.go:336-338 | every rebuilt build carries its commit's previous `Files`, or none |
| Reconcile.ReconcileIdempotent | main.go:322-342 | reconciling twice against the same CI list gives what reconciling once gives |
| Reconcile.NewRepo | main.go:108-114 | a new repository copies namespace, name and link and has an empty secret and no builds |
| Reconcile.ActiveReposKeys | main.go:102-117 | after `loadRepos` the storage keys are the old keys plus the ids of the active CI repositories |
| Reconcile.ActiveReposKeepStored | main.go:107 | `loadRepos` never overwrites a stored repository, so its secret is preserved |
| Reconcile.ActiveReposFresh | main.go:103-116 | each added repository comes from an active CI record and is a new repository |
| Reconcile.Reloaded | main.go:374-378 | a repository whose CI list cannot be fetched keeps its builds; otherwise its builds are the reconciliation of that list |
| Reconcile.ReloadAll | main.go:371-381 | `loadAllBuilds` keeps the set of repositories; a repository whose CI call fails is left unchanged |
| Api.MergeTag | api.go:87-99 | a new tag is the request; an existing tag's version and release date change only to a non-empty version and a non-zero date; `ready` is always the request's |
| Api.MergeTagIdempotent | api.go:87-99 | storing the same request twice stores what storing it once did |
| Api.WithTag | api.go:100-104 | only tag `tagName` of build `commit` changes; other commits, other fields and other tags are untouched; a build without tags gets a map holding the new tag |
| Api.GetTag | api.go:110-133 | unknown repository: 400; "latest" resolves to the latest build; unknown commit: 400 "Couldn't get build"; a missing tag reads as the zero tag; otherwise the stored tag |
| Api.TagReadBack | api.go:100-132 | after a tag is stored on a commit, `GetTag` on that commit reads back the merged tag |
| Api.RoundPageCount | api.go:197-200 | the fewest whole pages whose room holds `c` builds; zero pages exactly for zero builds |
| Api.PageCountIsCeiling | api.go:197-200 | the page count equals `ceil(c / perPage)` computed in integers |
| Api.PageBounds | api.go:323-327 | every valid page starts inside the listing; a page before the last fits entirely; the last holds at most a page |
| Api.PageSlice | api.go:322-327 | a page before the last has exactly `perPage` commits; the last has the non-empty remainder; page entries are the listing's entries at the page's offset |
| Api.PageCovers | api.go:321-327 | every position of the listing is on some page |
| Api.PagesDisjoint | api.go:321-327 | on a listing without repeats, two different pages share no commit |
| Api.PageBuilds | api.go:328-333 | the page's map has exactly the page's commits, each with its listed DTO, or the zero DTO when it has none |
| Api.PageMap | api.go:330-333 | the loop over the page builds exactly `PageBuilds` |
| Api.FilledArrangement | api.go:292-320 | after the fill loop, the slice has one slot per build and holds each listed commit exactly once and no other non-empty commit; without a "" commit, the slots after the listed count are "" |
| Api.FillKeys | api.go:289-320 | the fill loop leaves the used slots in visiting order followed by blanks, and the DTO map of every listed commit |
| Api.ArrangeKeys | api.go:289-320 | whatever the map order, the filled slice is an arrangement and the DTO map is exactly the listed builds |
| Api.Swap | api.go:236 | `Swap` exchanges two keys and keeps the multiset |
| Api.InsertByRank | api.go:237-241 | one insertion step extends the newest-first prefix by one key, keeping the multiset and the tail |
| Api.SortNewestFirst | api.go:321 | sorting the first `Len()` keys orders them newest first (by `Less`), is a permutation of them, and leaves the rest of the slice alone |
| Api.ArrangementKept | api.go:321 | permuting the sorted prefix keeps the arrangement |
| Api.WellFormedListing | api.go:289-321 | with no "" commit and every directory readable, the sorted slice holds every stored commit exactly once, newest first |
| Api.GetBuilds | api.go:271-335 | the checks return, in order: a page that does not parse is 400 "Invalid page"; an unknown repository is 400; a negative page or one past the page count is 400 "Invalid page index"; page 0 panics. Otherwise the reply is the page's slice of a newest-first arrangement, with its DTOs |
| Api.NewestCommit | api.go:210-217 | the loop picks a commit dated after the zero time that no build is newer than, or "" when none is; it is strictly newer than every commit visited before it |
| Api.Summary | api.go:205-224 | the summary copies namespace and name, reports whether a secret is set, and names the newest commit; the latest push is that build's id, link and date, or the zero push when the commit is missing |
| Api.NewestPushUnique | api.go:219-224 | whichever newest commit the map order selects, the reported latest push is at the same instant |
| Api.GetRepos | api.go:202-228 | one summary per stored repository, each naming a newest commit of that repository |
| Api.LatestCommit | api.go:354-374 | unknown repository: 400; a latest non-empty build missing from the builds: 500; otherwise its id, name, link, date and branch, with no files |
| Api.FirstMatch | api.go:399-404 | the index of the first entry whose lower-cased name contains the search, in listing order; none iff no entry matches |
| Api.FindLatest | api.go:376-406 | an empty search is 400; an unknown repository is 400; a missing latest build is 500; an unreadable directory is 500; no match is 500; otherwise the first match in listing order |
| Server.Refreshed | api.go:77 | the reload replaces builds, branches and both latest keys and keeps identity, link and secret |
| Server.Rekeyed | main.go:151-154 | the secret is replaced iff a new one is requested or the stored one is empty |
| Server.RekeyedSecret | main.go:151-154 | after `NewKey` the secret is never empty; it changes only on request or when it was empty |
| Server.RekeyRevokes | main.go:151-160 | storing a regenerated secret makes both build-token checks refuse every token signed with the old key |
| Server.App.LoadRepos | main.go:97-119 | a failed CI call returns its error and changes nothing; otherwise the storage becomes `WithActiveRepos` of the list |
| Server.App.LoadAllBuilds | main.go:371-381 | the storage becomes `ReloadAll` of the old storage, whatever the map order |
| Server.App.SetTag | api.go:64-108 | unknown repository, failed reload and unknown commit each give their error and store nothing; otherwise the refreshed repository is stored with only the merged tag changed, and the reply is "Tag stored" |
| Server.App.NewKey | main.go:129-172 | a binding error is 400; a failed repository load is 500; an unknown repository is 400. Otherwise the secret is rekeyed and stored, and the reply is a store error or the refresh token signed with the stored secret |

## Left out

- HTTP routing and gin plumbing are not modelled: parameters, JSON binding, cookies and headers. A handler takes its inputs as values and returns a `Reply`.
- The filesystem is an input map from directory path to entries, in the name order `os.ReadDir` returns. Creating directories, saving uploads and serving files are not modelled.
- Drone client calls (`RepoList`, `BuildList`) are inputs: a record list or an error.
- The gob persistence of `store`/`read` and the ini configuration are not modelled. `NewKey` takes the store error as an input; `SetTag` ignores it, as the source does.
- JWT encoding, HMAC and base64 are abstract: a token's decoding is a function parameter. bcrypt's `checkHash` is a function in the account record.
- Signing errors in `newBuildToken`/`newWebTokens` and their 500/401 answers are left out: abstract signing cannot fail.
- The binding error of `SetTag`'s `BindJSON` is ignored, as in the source. The request is then whatever was bound.
- `addFiles`, `getBuild` and `getFile` are out of scope. So are main.go's `getRepos` and api.go's `getRepo` and `NewKey`. api.go's `NewKey` is the same code as main.go's `NewKey`, which is modelled; the other two are revisions of handlers modelled from the other file.
- api.go's five-result `loadBuilds` (branches, latest build, retention) is not among the modelled files. `SetTag` takes its outcome as a `Reload` input.
- The background sweep goroutine of `main` is concurrency and is not modelled.
- Reconcile.FileSize: returns the unit and divisor only; the `%.1f` float formatting of the quotient is not modelled.
- Api.RoundPageCount: computes `ceil(c / BUILDSPERPAGE)` in integers instead of `math.Ceil` on a float64 quotient; the two agree for build counts far below 2^53.
- `BUILDSPERPAGE` is defined outside the modelled files, so it is the parameter `perPage > 0`.
- Api.GetBuilds: the error text appended to "Invalid page" by `strconv.Atoi` is left out.
- Api.SortNewestFirst: proved for insertion sort. `sort.Sort` may order equally dated builds differently; every contract here holds for any order of ties.
- Text.ToLower lowers ASCII letters only; Go's `strings.ToLower` also folds other Unicode letters.
- `time.Now()` is the parameter `now` in whole Unix seconds. This is exact for comparing against whole-second expiries.
- Auth.BuildRefreshLifetime: takes the clock's sub-second part as zero. When the duration wraps to a value that is not a whole number of seconds, Go's `Add(...).Unix()` can land one second later, depending on that sub-second part.
- Auth.CheckToken: a JSON number claim is a whole number of seconds. jwt-go decodes it as a float64 and truncates it to int64; fractional values and values beyond 2^53 are not modelled.
- Go's `range` order over maps is `Reconcile.IterationOrder`: any order, never a particular one.

## Findings

| source | as written | input that shows it | evidently intended | confidence | as-written member | corrected member |
|---|---|---|---|---|---|---|
| auth.go:157-158 | `validateWebToken` reads `header[1]` of `SplitN(..., "Bearer ", 2)` without checking its length | a request without an Authorization header | answer 401 "Unauthorized", as `validateBuildToken` does | high; not executed | Auth.ValidateWebTokenAsWritten, Auth.MissingHeader | Auth.ValidateWebToken |
| auth.go:186-187 | `getBuildToken` reads `header[1]` unchecked | a token request for a known repository without an Authorization header | answer 401 "Unauthorized" | high; not executed | Auth.GetBuildTokenAsWritten, Auth.MissingHeader | Auth.GetBuildToken |
| auth.go:224-225 | `getWebToken` reads `header[1]` of the "Basic " split unchecked | a cookie-only refresh request with no Authorization header | answer 401, or fall through to the cookie path | high; not executed | Auth.GetWebTokenAsWritten, Auth.MissingHeader | Auth.GetWebToken |
| auth.go:127-129 | the key function hands the verifier the repository secret even when it is "" (never generated) | a repository added by `loadRepos` and never keyed, with a bearer token signed with the empty key | a repository without a secret admits no token | medium (depends on the JWT library accepting an empty HMAC key); not executed | Auth.ValidateBuildTokenAsWritten, Auth.EmptySecretForgery | Auth.ValidateBuildToken |
