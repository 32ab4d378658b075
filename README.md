# got: package resolution and vendoring, modelled in Dafny

`got` is a Go vendoring tool. For each import path it finds the repository that
holds the package and checks that repository out at a pinned revision. It then
copies the repository's files into a vendor directory, leaving out tests,
hidden files and other noise. This project models the core of its `imports`
package and proves properties of the model.

- **Wrappers** (`wrappers.dfy`): `Option` and `Result`.
- **Text** (`text.dfy`): the parts of Go's `strings` and `path/filepath` the
  core relies on: prefix, suffix and substring tests, ASCII lower-casing,
  `EqualFold`, `Fields`, splitting on a separator, `Ext` and `Base`.
- **Filter** (`filter.dfy`): `ignoreDir`, `ignoreFile` and `isLegalFile`. These
  decide which directories and files of a checkout reach the vendor directory.
- **CopyTree** (`copytree.dfy`): `copyDir`.
  - The source checkout is a tree value.
  - The destination file system is a `Disk` object holding a map from paths
    to nodes, which the walk updates in place.
  - `Mkdir` needs its parent to exist, and file creation is exclusive.
  - The walk is proved against `CopyPlan`, a function that gives the set of
    paths a successful copy creates.
- **GoGet** (`goget.dfy`): `cacheKey`, the choice of repository kind in
  `newRepo`, and `goGet`.
  - Each step of `goGet` is modelled as a call that can fail: entering the
    cache directory, creating the repository, checking for a local clone,
    cloning, updating to the revision, updating, and retrying. An oracle
    answers each call.
  - `goGet` is proved against a `Session` function that lists the calls in
    order and gives the error the run stops with.
- **Patterns** (`patterns.dfy`): the ten root-package regular expressions of
  `vcsList`, each written as a scanner that returns the pattern's first
  capture group.
- **Imports** (`imports.dfy`):
  - `pkgMeta` and `importMeta`;
  - the go-get discovery URL and the status check of the package-level
    `fetchImportMeta`;
  - `parseImportMeta` over an XML token stream, read through a `Decoder`
    object, together with `attrValue` and `charsetReader`.
- **Resolver** (`resolver.dfy`): the `resolver` object.
  - It holds the cached results and the packages with a query in flight.
  - Its `fetchImportMeta` has a lookup half (`Begin`) and a completion half
    (`Finish`).
- **Manifest** (`manifest.dfy`): `parseGodeps`.
  - It groups the dependency records by revision; a later record for the same
    revision wins.
  - It then looks up one import path per revision.

Behaviour of the code that the model keeps as written:

- The resolver never consults the static `importMeta` table. It always issues
  the discovery request.
- The cache and the deduplication of in-flight queries use plain string
  prefixes, not path-component prefixes. For example, a cached root
  `github.com/a/b` also answers `github.com/a/bc`.
- Two sibling packages of one repository root are not deduplicated when
  neither path is a prefix of the other.
- The `bitbucket.org` and `go.googlesource.com` entries of `vcsList` have an
  empty VCS field. The Google Code Subversion entry has `"svc"`. All three are
  modelled as written, so `newRepo` falls back to detecting the repository
  kind itself.

## Model

| member | source | states |
|---|---|---|
| Text.Contains | imports/goget.go:226 | `strings.Contains` holds exactly when the substring occurs at some position |
| Text.ToLower | imports/goget.go:219 | lower-casing keeps the length and lowers each character |
| Text.Fields | imports/imports.go:211 | every field `strings.Fields` returns is a non-empty run without white space |
| Text.FieldsOfUnwords | imports/imports.go:211 | splitting words joined by single spaces gives back exactly those words |
| Text.FieldsSkipsSpace | imports/imports.go:211 | white space in front of a string adds no fields |
| Text.FieldsOfWord | imports/imports.go:211 | a non-empty string with no white space is a single field, itself |
| Text.FieldsSplitAt | imports/imports.go:211 | any white-space character separates: the fields of `a + [c] + b` are the fields of `a` followed by the fields of `b` |
| Text.Split | imports/imports.go:157-160 | a split has at least one part, no part holds the separator, and joining the parts rebuilds the string |
| Text.Ext | imports/goget.go:177 | the extension is empty or starts with '.', ends the name, and holds no other '.' or '/' |
| Text.ExtOf | imports/goget.go:177 | a name ending in a '.' followed by characters that are neither '.' nor '/' has exactly that ending as its extension |
| Text.Base | imports/goget.go:219 | the base name is never empty, and a name without '/' is its own base |
| Filter.IgnoreDir | imports/goget.go:152-161 | a directory is ignored exactly when it is `testdata` or `vendor` or its name starts with '.' or '_' |
| Filter.EqualsAnyFoldExists | imports/goget.go:171-175 | the version-file test holds exactly when some entry of the list matches case-insensitively |
| Filter.HasAnyPrefixExists | imports/goget.go:220-224 | the prefix loop succeeds exactly when some listed prefix matches |
| Filter.ContainsAnyExists | imports/goget.go:225-229 | the substring loop succeeds exactly when some listed substring occurs |
| Filter.LicensePrefixesSpelled | imports/goget.go:195-202 | the six licence prefixes, spelled out |
| Filter.LegalSubstringsSpelled | imports/goget.go:207-214 | the six legal substrings, spelled out |
| Filter.VersionFilesTest | imports/goget.go:163-175 | a file is a version file exactly when its name is `godeps.json` or `glide.yaml`, ignoring case |
| Filter.IgnoreFileCases | imports/goget.go:170-188 | ignoreFile's decision order: version files are kept; `.s` and `.c` files are kept; a `.go` file is ignored exactly when it ends in `_test.go`; any other file is ignored exactly when it is not a legal file |
| Filter.LegalSpelled | imports/goget.go:195-231 | a file is legal exactly when its lower-cased base name starts with one of "licence", "license", "copying", "unlicense", "copyright", "copyleft" or contains one of "legal", "notice", "disclaimer", "patent", "third-party", "thirdparty" |
| Filter.IgnoredByDefault | imports/goget.go:187 | a file that is not a version file, has none of the three extensions and is not legal is ignored |
| Filter.KeptAsLegal | imports/goget.go:187 | a legal file with another extension is kept |
| Filter.ExampleGo | imports/goget.go:182-184 | `<stem>.go` is ignored exactly when the stem ends in `_test` |
| Filter.ExampleByExt | imports/goget.go:178-181 | any `.s` or `.c` file is kept |
| Filter.IgnoreFileAsmExample | imports/goget_test.go:31 | `asm_darwin_386.s` is kept |
| Filter.IgnoreFileCExample | imports/goget_test.go:32 | `gccgo_c.c` is kept |
| Filter.IgnoreFileGoSourceExample | imports/goget_test.go:33 | `errors.go` is kept |
| Filter.IgnoreFilePyExample | imports/goget_test.go:34 | `errors.py` is ignored |
| Filter.IgnoreFileGoTestExample | imports/goget_test.go:35 | `errors_test.go` is ignored |
| Filter.IgnoreFileLicenseExample | imports/goget_test.go:36 | `LICENSE` is kept |
| Filter.IgnoreFileLicenseTxtExample | imports/goget_test.go:37 | `LICENSE.txt` is kept |
| Filter.LicenseIsLegal | imports/goget.go:218-224 | `LICENSE` and `LICENSE.txt` are legal files, by the `license` prefix |
| Filter.PyNotLegal | imports/goget.go:218-231 | `errors.py` matches no licence prefix and contains no legal substring |
| CopyTree.NodeOf | imports/goget.go:113-148 | a copied directory becomes a directory, and a copied file becomes a file with the same contents |
| CopyTree.CopiedExactly | imports/goget.go:96-150 | a successful copy holds a path exactly when the entry is below the source root, is admitted by ignoreDir or ignoreFile, and has no ignored ancestor directory; it holds that entry's kind and contents |
| CopyTree.CopiedExactlyBy | imports/goget.go:96-150 | the same, for any admission rule that judges directories by name |
| CopyTree.PrunedSubtree | imports/goget.go:114-116 | nothing below an ignored directory is copied (SkipDir) |
| CopyTree.Disk.Mkdir | imports/goget.go:123-125 | os.Mkdir succeeds exactly when the target is absent and its parent is a directory, and adds only that directory |
| CopyTree.Disk.CreateExclusive | imports/goget.go:139-147 | an O_CREATE\|O_EXCL open succeeds exactly when the target is absent and its parent is a directory; it adds only that file, with the source contents |
| CopyTree.CopyDir | imports/goget.go:89-150 | the copy fails exactly when some planned target already exists (or the destination is missing); on success the disk is the old disk plus the whole plan; on failure every new entry is planned, and the error names a planned target as a directory error exactly when that target is a directory |
| CopyTree.ExistingTargetFails | imports/goget.go:139-142 | copying onto a destination that already holds one of the copy's targets fails |
| CopyTree.SecondCopyFails | imports/goget.go:123-142 | copying the same tree to the same place twice fails unless it copies nothing |
| GoGet.CacheKey | imports/goget.go:16-27 | the key has the remote's length; ASCII letters and digits are kept and every other character becomes '-' |
| GoGet.CacheKeyAlphabet | imports/goget.go:16-27 | a key holds only ASCII letters, digits and '-' |
| GoGet.CacheKeyIdempotent | imports/goget.go:16-27 | a key is its own key |
| GoGet.CacheKeyHttpsExample | imports/goget_test.go:15 | `https://github.com/camlistore/go4` maps to `https---github-com-camlistore-go4` |
| GoGet.CacheKeyScpExample | imports/goget_test.go:16 | `git@github.com:foo/bar` maps to `git-github-com-foo-bar` |
| GoGet.KindOf | imports/goget.go:72-87 | newRepo falls back to detecting the kind exactly when the VCS is none of git, svn, bzr and hg |
| GoGet.UpdatesAppend | imports/goget.go:56-64 | the calls that move the working copy, taken over two call lists, are those of each list in turn |
| GoGet.SetupNoUpdates | imports/goget.go:41-54 | entering the cache, creating the repository and cloning never move the working copy |
| GoGet.RetryAllUpdates | imports/goget.go:56-64 | every call of the revision phase moves the working copy |
| GoGet.SessionEntersCacheFirst | imports/goget.go:41 | the first call enters the cache directory named by the cache key of the remote |
| GoGet.RetryShape | imports/goget.go:56-64 | the revision phase is UpdateVersion; when that fails, Update; when Update succeeds, UpdateVersion once more. It succeeds exactly when its last UpdateVersion does, and each failure is the error for the step that failed |
| GoGet.SetupFailures | imports/goget.go:41-54 | the setup phase fails only with a cache, creating-repo or cloning error |
| GoGet.RetryProtocol | imports/goget.go:41-64 | a failed setup moves nothing and ends the run; otherwise the run's working-copy moves and its error are exactly those of the revision phase |
| GoGet.CloneOnlyWhenMissing | imports/goget.go:47-54 | the repository is cloned exactly when CheckLocal says no clone is there |
| GoGet.Repo.Perform | imports/goget.go:42-63 | a repository call gets the oracle's answer, and the call and its answer are appended to the log |
| GoGet.RunSetup | imports/goget.go:41-54 | the calls made and the error returned are those of the Setup function |
| GoGet.RunRetry | imports/goget.go:56-64 | the calls made and the error returned are those of the Retry function |
| GoGet.GoGetPackage | imports/goget.go:36-70 | an empty version fails with no call and no change to the disk; otherwise the session's calls are made in order; a failed session leaves the disk unchanged; after a successful one, the outcome is CopyDir's outcome for the checked-out tree |
| Patterns.SpanIs | imports/imports.go:256 | a run of class characters ended by another character or the end is the span |
| Patterns.SpanRun | imports/imports.go:256 | a span holds only class characters and stops before one outside the class |
| Patterns.SegSpan | imports/imports.go:256 | a segment followed by a non-segment character is the span that starts there |
| Patterns.TailShift | imports/imports.go:256 | whether `(/seg)*$` matches depends only on what follows its start |
| Patterns.TailOfSuffix | imports/imports.go:256 | the tail test at a position is the tail test of the suffix from there |
| Patterns.TailCons | imports/imports.go:256 | a '/' and a segment in front of a tail make a tail |
| Patterns.TwoSegsOf | imports/imports.go:254-263 | for github.com and bitbucket.org, prefix + owner/repo + a tail has prefix + owner/repo as its capture |
| Patterns.TwoSegsSplits | imports/imports.go:254-263 | conversely, a capture is the prefix and two segments, and the rest of the path is a tail |
| Patterns.GoogleSourceOf | imports/imports.go:279-282 | a go.googlesource.com path of one segment, with or without a trailing '/', is its own capture |
| Patterns.LaunchpadSeriesOf | imports/imports.go:264-268 | launchpad.net/project/series + a tail has launchpad.net/project/series as its capture |
| Patterns.LaunchpadProjectOf | imports/imports.go:264-268 | launchpad.net/project is its own capture |
| Patterns.LazyRepoShortest | imports/imports.go:301 | the lazy `[...]*?` stops at the first position where a `.bzr`, `.git`, `.hg` or `.svn` suffix followed by a tail begins, having crossed only path characters |
| Patterns.GenericSplits | imports/imports.go:300-302 | a generic capture is a dotted host of `[a-z0-9.\-]` characters, then either nothing or ':' and one or more digits, then '/', then `[A-Za-z0-9_.\-/]` characters up to the first position where a VCS suffix followed by a tail begins, then that suffix; the rest of the path is a tail |
| Imports.FirstMeta | imports/imports.go:50-67 | a result has a non-empty root, and its remote is "https://" followed by the root |
| Imports.FirstMetaIsFirst | imports/imports.go:50-67 | importMeta returns nothing exactly when no entry of the list accepts the path; otherwise it returns the metadata of the first accepting entry |
| Imports.FirstMetaAt | imports/imports.go:50-67 | when entry i is the first to accept, importMeta returns its metadata |
| Imports.ImportMetaGitHub | imports/imports.go:254-258 | github.com/owner/repo + a tail resolves to that root, remote "https://" + root, and vcs git |
| Imports.ImportMetaBitbucket | imports/imports.go:259-263 | bitbucket.org/owner/repo + a tail resolves to that root, with an empty vcs |
| Imports.ImportMetaGitHubPath | imports/imports.go:50-67 | the GitHub rule, for a path given together with its pieces |
| Imports.ImportMetaCobraExample | imports/imports_test.go:59-64 | `github.com/spf13/cobra` is its own root, over https, with git |
| Imports.ImportMetaDnsutilExample | imports/imports_test.go:65-70 | `github.com/miekg/dns/dnsutil` has root `github.com/miekg/dns` |
| Imports.GoGetUrl | imports/imports.go:156-161 | the discovery URL starts with "https://" followed by the package path |
| Imports.QueryStart | imports/imports.go:157 | finds the first '?', and finds nothing exactly when there is none |
| Imports.QueryStartOf | imports/imports.go:157-160 | adding '?' to an address without one starts the query there |
| Imports.QueryStartAppend | imports/imports.go:157-158 | appending to a URL that already has a query leaves its start alone |
| Imports.QueryAppend | imports/imports.go:157-158 | appending to a URL with a query keeps the address and extends the query |
| Imports.SplitAppend | imports/imports.go:158 | splitting at a separator splits both sides |
| Imports.SplitNoSep | imports/imports.go:158 | a string without the separator is one part |
| Imports.GoGetUrlExtendsQuery | imports/imports.go:157-158 | for a path with a query, the URL keeps the address and appends "&go-get=1" to the query |
| Imports.GoGetUrlAddsQuery | imports/imports.go:159-160 | for a path without a query, the URL's address is "https://" + pkg and its query is exactly "go-get=1" |
| Imports.GoGetUrlLastParam | imports/imports.go:156-161 | in either case the last query parameter is "go-get=1" |
| Imports.StatusOk | imports/imports.go:173-175 | a status passes `StatusCode/100 == 2` (Go's truncating division) exactly when it is 200 to 299 |
| Imports.AttrValueMissing | imports/imports.go:230-237 | when no attribute matches the name case-insensitively, the value is "" |
| Imports.AttrValueFirst | imports/imports.go:230-237 | otherwise the value is that of the first matching attribute |
| Imports.CharsetReader | imports/imports.go:221-228 | a charset is accepted exactly when it is "ascii" in any case; every other charset fails with an error naming it |
| Imports.NextToken | imports/imports.go:189-197 | the decoder yields the next token, then end of input exactly when no tokens and no error remain, else the pending error, after which it stays failed |
| Imports.Decoder.Token | imports/imports.go:189 | one Token call moves the decoder exactly as NextToken says |
| Imports.MetaIsNotBody | imports/imports.go:198-207 | one element name cannot fold to both "meta" and "body" |
| Imports.ParseImportMeta | imports/imports.go:184-219 | the scan returns ParsedMeta of the decoder's remaining input |
| Imports.ParsedMetaAt | imports/imports.go:188-218 | after tokens that decide nothing, the first deciding token gives the result: `<body>` or `</head>` fails with "no go-import", a go-import meta with three fields succeeds |
| Imports.ParsedMetaAtEnd | imports/imports.go:188-197 | when no token decides, the result is "no go-import" at end of input, or the decoder's error |
| Imports.ParsedMetaSuccess | imports/imports.go:184-219 | the scan succeeds exactly when a go-import meta with three fields comes before any deciding token, and its metadata is read from that element |
| Imports.ParsedMetaFound | imports/imports.go:211-216 | a success is read from the first deciding go-import element: root, vcs and remote are its three fields |
| Imports.GoImportPage | imports/imports_test.go:104-124 | a page whose first deciding element is `<meta name="go-import" content="root vcs remote">` yields that metadata, with vcs the second field and remote the third |
| Imports.BodyEndsScan | imports/imports.go:198-200 | reaching `<body>` first gives "no go-import" |
| Imports.WrongFieldCountSkipped | imports/imports.go:211-217 | a go-import meta without exactly three fields is skipped |
| Imports.CharsetRefused | imports/imports.go:186 | an XML declaration naming an encoding other than utf-8 or ascii fails the parse with the charset error |
| Imports.CharsetAscii | imports/imports.go:221-224 | an ascii declaration is accepted and the scan goes on |
| Imports.FetchImportMeta | imports/imports.go:155-182 | fetches the discovery URL exactly once and returns FetchOutcome of the reply |
| Imports.FetchOutcomeSuccess | imports/imports.go:167-181 | the fetch succeeds exactly when a reply arrives with a 2xx status and a page that parses, and its metadata is the page's |
| Resolver.FirstCached | imports/imports.go:96-104 | a cache hit is a recorded result whose root is a prefix of the package |
| Resolver.FirstOverlap | imports/imports.go:107-121 | an in-flight match is a query that is a prefix of the package, or of which the package is a prefix |
| Resolver.Without | imports/imports.go:141-149 | removing the package's queries never lengthens the list |
| Resolver.Resolver.constructor | imports/imports.go:71-78 | a new resolver has no results and no queries in flight |
| Resolver.Resolver.Begin | imports/imports.go:93-127 | the lookup half returns PlanFor of the old state: the first cache hit, else the first overlapping query, else ownership; only ownership adds the package to the in-flight list, and the results are untouched |
| Resolver.Resolver.Finish | imports/imports.go:136-150 | the completion half records the result only on success and removes every in-flight entry for the package, keeping the others in order |
| Resolver.Resolver.FetchImportMeta | imports/imports.go:92-153 | a cache hit is returned unchanged; a waiter gets the owner's published result; an owner fetches once, records a success, and leaves the in-flight list as it found it |
| Resolver.OverlapsSelf | imports/imports.go:108 | every query overlaps itself |
| Resolver.FirstCachedAt | imports/imports.go:96-104 | the earliest covering result is the one returned |
| Resolver.FirstCachedNone | imports/imports.go:96-104 | there is no cache hit exactly when no recorded root is a prefix of the package |
| Resolver.FirstOverlapNone | imports/imports.go:107-121 | there is no in-flight match exactly when no query in flight overlaps the package |
| Resolver.OwnerWhenUncovered | imports/imports.go:123-127 | a query becomes the owner exactly when neither the cache nor the in-flight list covers it |
| Resolver.SecondQueryWaits | imports/imports.go:107-121 | while a package is in flight, no overlapping query becomes a second owner |
| Resolver.NoOverlapUnrelated | imports/imports.go:123-126 | adding an owner keeps the in-flight queries pairwise unrelated |
| Resolver.WithoutUnrelated | imports/imports.go:141-149 | compaction keeps them unrelated |
| Resolver.WithoutSubset | imports/imports.go:141-149 | compaction keeps exactly the entries other than the package |
| Resolver.WithoutAppend | imports/imports.go:141-149 | compaction works piece by piece |
| Resolver.WithoutSnoc | imports/imports.go:142-147 | one loop step keeps an entry exactly when it is not the package |
| Resolver.WithoutAbsent | imports/imports.go:141-149 | compaction changes nothing when the package is not in flight |
| Resolver.WithoutRemovesOne | imports/imports.go:141-149 | among unrelated queries, compaction removes exactly the package's own entry |
| Resolver.LoneQueryRestores | imports/imports.go:123-149 | registering and then completing a query restores the in-flight list |
| Manifest.Group | imports/manifest.go:47-57 | the grouping loop computes GroupOf |
| Manifest.GroupFromLast | imports/manifest.go:49-57 | when every counted record has a revision, grouping succeeds and gives each revision the import path of its last record, keeping earlier entries otherwise |
| Manifest.GroupIsLastWins | imports/manifest.go:47-57 | the grouped map holds exactly the revisions of counted records, each mapped to its last record's import path |
| Manifest.LastForSome | imports/manifest.go:49-56 | a revision has a last record exactly when some record with an import path carries it |
| Manifest.LastForIsLast | imports/manifest.go:56 | that record is the last such record carrying the revision |
| Manifest.GroupFromFails | imports/manifest.go:53-55 | grouping fails exactly when some record with an import path has no revision, and it reports the first such record |
| Manifest.ResolveAll | imports/manifest.go:66-83 | the lookups visit every revision exactly once, in some order; the packages are the successes in that order, paired with their revision; the error is the first failure in that order |
| Manifest.LookupStep | imports/manifest.go:69-79 | one lookup adds its package on success, or sets the error if it is the first failure |
| Manifest.OrderStep | imports/manifest.go:66 | taking one more revision from those left keeps the visit order distinct and complete |
| Manifest.ParseGodeps | imports/manifest.go:19-84 | a failed grouping returns no packages and the grouping error; otherwise the result is that of ResolveAll over the grouped map |
| Manifest.PinnedInExactly | imports/manifest.go:69-79 | every returned package is a successful lookup of a visited revision, and every successful lookup is returned |
| Manifest.PinnedInAll | imports/manifest.go:69-79 | when every lookup succeeds, there is one package per visited revision, in order |
| Manifest.FirstFailureNone | imports/manifest.go:69-83 | there is no error exactly when every lookup succeeds; otherwise the error is a failed lookup's, wrapped with its import path |
| Manifest.PackagesOfOrder | imports/manifest.go:66-83 | with every lookup succeeding, there are as many packages as revisions |
| Manifest.OnePackagePerRev | imports/manifest.go:33-83 | when all lookups succeed: one package per distinct revision; the versions are distinct; each package is the lookup of its revision's last import path; and a revision appears exactly when some record carries it |
| Manifest.GroupCons | imports/manifest.go:49-56 | one pinned record updates the map and grouping goes on |
| Manifest.SevenRecordsThreeRevs | imports/manifest_test.go:22-54 | the test's seven records, under three revisions, group into three entries, each naming its revision's last record |
| Manifest.SevenRecordsThreePackages | imports/manifest_test.go:65-101 | when the three lookups succeed they give three packages whose revisions are exactly the three revisions, each with the metadata looked up for its revision's last path |

## Left out

- The HTTP client: the request, its context and any transport or
  request-construction error are a function from URL to an optional
  (status, page) reply. No reply stands for every error before a status.
- The XML tokenizer, its non-strict mode and its reading from the body: the
  decoder is the token sequence it would produce plus the error, if any, that
  follows the last token. A declared charset is checked at its `<?xml?>`
  token through `charsetReader`.
- The regular-expression engine: each vcsList pattern is a hand-written
  scanner that takes each greedy repetition's whole run of class characters.
  Most repetitions are followed by a character outside their class. Two are
  not: the googlecode host `[a-z0-9_\-.]+\.googlecode\.com` and the generic
  host `([a-z0-9.\-]+\.)+[a-z0-9.\-]+`. Both are followed by '/' or ':', which
  is outside the class, so every match covers the whole run and the scanner
  checks how the run ends. The one lazy repetition is scanned shortest-first.
- Symbolic links: `filepath.Walk` reports a link through `Lstat` without
  following it, and `copyDir` then opens it as if it were a file. The tree
  model has only files and directories.
- Patterns.Launchpad, Patterns.GitLaunchpad, Patterns.Jazz, Patterns.CodeGoogle, Patterns.GoogleCodeSvn, Patterns.GoogleCodeGitHg: modelled as scanners, but only the Launchpad project and series forms have lemmas of their own; the `~user` forms and the other hosts rest on the definitions alone.
- Imports.ImportMetaBitbucket: proved for every owner/repo, but the literal test case `bitbucket.org/bertimus9/systemstat` is not restated as its own example.
- Concurrency:
  - The resolver's mutex and `done` channel: a waiter's answer is the
    `published` parameter, the result the owner reports for that key.
  - Cancelling a wait through the context.
  - The errgroup in `parseGodeps` and its context cancellation.
- Manifest.ResolveAll: Go's map iteration order is unspecified, so the order
  of the lookups is a ghost output. The error is the first failure in that
  order, while errgroup reports whichever failing goroutine returns first.
  The model does not capture that `return packages, group.Wait()` may read
  `packages` before the group has finished.
- `json.Unmarshal` of the Godeps file: the input is the list of decoded
  records, and decoding errors are not modelled.
- The comment field of a dependency, which the source ignores.
- `cache.dir` and the version-control library (Masterminds/vcs): each call
  (enter the cache, create the repository, CheckLocal, Get, UpdateVersion,
  Update) is answered by an oracle over the call history. The checked-out
  tree for a version is a function of that version. Remote-error message
  formatting is not modelled.
- `filepath.Walk` specifics: the walk visits children in a directory's
  sequence order rather than lexical order. Stat and open errors of the
  source, file modes and `io.Copy` failures are not modelled.
- Text.Fields: its own contract says only that every field is a word. How a
  string is split is stated by Text.FieldsOfWord, Text.FieldsSplitAt and
  Text.FieldsSkipsSpace, which together fix the result on every string.
- Text.ToLower, Text.EqualFold: ASCII case folding only. Go's Unicode simple
  folding and invalid UTF-8 are not modelled.
- `loadImports`, `cache.go`, the `log` package and the `app` command are not
  part of this model.
