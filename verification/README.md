# zubbi indexer core, modelled in Dafny

zubbi indexes Zuul jobs and Ansible roles. Its scraper reads a tenant
configuration to learn which repositories belong to which tenants. It
checks out the Zuul files and role directories of each repository, parses
them into job and role documents, and writes those to Elasticsearch
together with one document per repository. Afterwards it deletes whatever
is older than the run. It keeps an in-memory repository cache so that
stale repositories can be re-scraped, and GitHub webhook events
(`installation`, `installation_repositories`, `push`) start runs. The web
side escapes and boosts search queries, validates search parameters,
computes pagination, verifies webhooks and caches view results.

The model keeps that logic and turns everything outside it into
parameters:

- YAML loading (with the loader's line annotations), Sphinx and markdown
  rendering, sha1, HMAC digests, the GitHub REST and GraphQL answers, and
  the clock are given functions or values.
- The search index is a map from (document kind, id) to the document's
  repository and scrape time.
- Python dicts whose insertion order matters are sequences of pairs
  (`OrderedMap`).
- A repository is an in-memory value: listings, file contents, history and
  blame (`Repository`). This is the abstract interface of
  `zubbi/scraper/repos/__init__.py`.
- Python exceptions are the `Failure` side of a `Result`. A run carries
  the state it had written when an exception stopped it.
- Python mapping keys read with `[]` or `in` are `Key` values: absent, an
  explicit `None`, or given.

One Dafny module per source file:

| module | source |
|---|---|
| `Config` | `zubbi/config.py` |
| `Doc` | `zubbi/doc.py` |
| `Exceptions` | `zubbi/scraper/exceptions.py` |
| `Extensions` | `zubbi/extensions.py` |
| `Helpers` | `zubbi/helpers.py` |
| `Models` | `zubbi/models.py` |
| `Utils` | `zubbi/utils.py` |
| `Views` | `zubbi/views.py` |
| `GitConnection` | `zubbi/scraper/connections/git.py` |
| `GerritConnection` | `zubbi/scraper/connections/gerrit.py` |
| `GitHubConnection` | `zubbi/scraper/connections/github.py` |
| `GitRepo` | `zubbi/scraper/repos/git.py` |
| `GerritRepo` | `zubbi/scraper/repos/gerrit.py` |
| `GitHubRepo` | `zubbi/scraper/repos/github.py` |
| `Scraper` | `zubbi/scraper/scraper.py` |
| `TenantParser` | `zubbi/scraper/tenant_parser.py` |
| `RepoParser` | `zubbi/scraper/repo_parser.py` |
| `ScraperMain` | `zubbi/scraper/main.py` |

Shared helpers:

- `Wrappers`: `Option`, `Result`, `Key`.
- `Text`: Python string methods on `seq<char>`.
- `OrderedMap`.
- `Repository`.

Behaviours of the code that the model keeps as written:

- A tenant project drops its jobs only when its `exclude` list holds the
  literal string `"jobs"` (zubbi/scraper/tenant_parser.py:74).
- A role's README is the first file of the role directory, in listing
  order, whose name is on the README whitelist
  (zubbi/scraper/scraper.py:114-127).
- Gerrit file and directory links use the gitweb URL scheme only
  (zubbi/scraper/repos/gerrit.py:28-44).
- The job files are `zuul.yaml`, `.zuul.yaml` and the direct entries of
  `zuul.d` and `.zuul.d`; deeper levels are not read, and no `.yaml`
  suffix is required (zubbi/scraper/scraper.py:50-82).
- An `installation_repositories` event deletes the data of the
  repositories listed in `repositories_added` (zubbi/scraper/main.py:551).

## Model

| member | source | states |
|---|---|---|
| Config.SetDefaultsMeaning | zubbi/config.py:43-47 | After `_default_configuration` every key the configuration had keeps its value. Every key added is an upper-case default name holding its default value. Every upper-case default name is present. |
| Config.SetFromEnvironmentMeaning | zubbi/config.py:50-54 | A whitelisted variable that is set holds its environment value as a string. No other key is added or removed, and every other key keeps its value. |
| Config.InitConfigurationPrecedence | zubbi/config.py:37-54 | Where each setting comes from after `init_configuration`. A whitelisted variable that is set wins, then a value the configuration already had, then an upper-case default. Any other key stays absent. |
| Config.OtherVariablesIgnored | zubbi/config.py:19-32 | Setting an environment variable outside `ENVIRONMENT_VARIABLES_AVAILABLE` does not change the configuration. |
| Doc.DirectiveRun | zubbi/doc.py:41-49 | Without an argument a directive logs nothing. With one, it logs one message per comma-separated piece (at least one). |
| Doc.SplitLines | zubbi/doc.py:108-110 | `readlines` cuts the log text after every newline. The lines concatenate back to the text, every line but the last ends in its only newline, and no line is empty. |
| Doc.SplitLogLines | zubbi/doc.py:108-110 | Messages without a newline of their own come back out of the log as exactly their own lines. |
| Doc.StatusMessageSpansLines | zubbi/doc.py:108-110 | A status message containing a newline is read back as two lines. |
| Doc.StatusMessageAddsPlatform | zubbi/doc.py:110-113 | A Sphinx status message whose second line looks like a `supported_os` line adds that platform, just as the directive would. |
| Doc.SupportedOsArgumentOverLines | zubbi/doc.py:41-113 | For a `supported_os` argument whose second piece starts on a new line (such as `Linux,\nWindows`), the platforms are the first piece's and an empty one. The text after the newline is lost. |
| Doc.ArgumentOverLinesLog | zubbi/doc.py:41-110 | The log lines of such an argument are the first piece's line, the second piece's line cut at its newline, and the rest of the piece. |
| Doc.ArgumentPieces | zubbi/doc.py:44 | An argument `a,\nb` whose parts hold no comma splits into `a` and `\nb`. |
| Doc.NoDirectiveLine | zubbi/doc.py:111-112 | A logged line without a `:` adds no platform. |
| Doc.StatusLogOfDirective | zubbi/doc.py:41-110 | For an argument without a newline, the status log of one directive use is exactly its messages, one line each. |
| Doc.MessagesWithoutNewline | zubbi/doc.py:47 | A message built from a name and a piece that hold no newline holds none. |
| Doc.ExtractWithCollects | zubbi/doc.py:106-115 | The loop's platforms are the start list followed by every line's contribution, in order. |
| Doc.ExtractPlatforms | zubbi/doc.py:106-115 | The extraction loop collects the platform of every `supported_os` line, in order. |
| Doc.ExtractWithKeeps | zubbi/doc.py:107-115 | Lines that never set the flag leave it at its start value. |
| Doc.ExtractWithLast | zubbi/doc.py:107-115 | The last line that sets the flag decides it. |
| Doc.ExtractReusableUnset | zubbi/doc.py:107-115 | Without a `reusable` line, `reusable` stays at its start value (`False`). |
| Doc.ExtractReusableLast | zubbi/doc.py:114-115 | The last `reusable` line decides the flag: true exactly for `true` or `yes`, after stripping and lower-casing. |
| Doc.DirectiveLineRoundTrip | zubbi/doc.py:47-111 | `partition(":")` of a logged message recovers the directive name and the logged value. |
| Doc.DirectiveLineReadBack | zubbi/doc.py:47-115 | A logged message is recognised as the directive that logged it and no other, and its value reads back as the platform or flag of the piece. |
| Doc.PlatformsOfMessages | zubbi/doc.py:41-113 | The lines a `supported_os` directive logs yield each piece, stripped and lower-cased. A `reusable` directive's lines yield no platform. |
| Doc.PlatformsOf | zubbi/doc.py:113 | Each piece is stripped and lower-cased, in order. |
| Doc.SupportedOsRoundTrip | zubbi/doc.py:41-113 | `supported_os: Linux, Windows` yields `linux` and `windows`: each comma-separated piece of an argument without a newline, stripped and lower-cased, in order. |
| Doc.ReusableOfMessages | zubbi/doc.py:114-115 | Of the lines a `reusable` directive logs, the last piece decides the flag. |
| Doc.ReusableLastPieceWins | zubbi/doc.py:41-115 | For an argument without a newline, `reusable` is decided by the last comma-separated piece. |
| Doc.RenderSphinx | zubbi/doc.py:64-119 | A build succeeds exactly when its status code is 0. A `LookupError` is told apart from a build error. The result carries the body, and the platforms and the reusable flag that the directives of the status log set. |
| Doc.RenderedReusable | zubbi/doc.py:105-118 | The reusable flag of a successful build is the value of the last `reusable` line of the status log, and false when there is none. |
| Doc.RenderFile | zubbi/doc.py:129-154 | The lower-cased extension picks the renderer. `.rst` gives what the Sphinx build gives, so a Sphinx document exactly when the build succeeds. `.md` gives markdown. Anything else gives nothing. |
| Doc.RenderedFileCarriesDirectives | zubbi/doc.py:129-154 | A successfully built `.rst` file renders to a Sphinx document whose platforms are those of the `supported_os` lines of the status log, and whose reusable flag is set by its last `reusable` line. |
| Doc.UpperCaseExtensionRendered | zubbi/doc.py:133 | `README.RST` is rendered by Sphinx, because the extension is compared lower-cased. |
| Exceptions.NewCheckoutError | zubbi/scraper/exceptions.py:22-28 | A `CheckoutError` is a `RepositoryError`. Without an explicit message its message is `Failed to check out '<path>': <cause>`. |
| Exceptions.ConfigurationErrorIsNotRepositoryError | zubbi/scraper/exceptions.py:16-34 | A `ScraperConfigurationError` is not a `RepositoryError`, and a `CheckoutError` is one. |
| Exceptions.CheckoutMessageRoundTrip | zubbi/scraper/exceptions.py:26-27 | The default checkout message can be parsed back into its path and cause (for a path without `'`). |
| Exceptions.ParseCheckoutMessage | zubbi/scraper/exceptions.py:26-27 | Whatever the parser returns rebuilds the message exactly. |
| Extensions.Expiry | zubbi/extensions.py:45 | A positive timeout expires after `now`, zero never expires, and a negative timeout is already expired. |
| Extensions.Set | zubbi/extensions.py:45 | `set` stores the value with its expiry under the key and changes no other key. A `NullCache` stays empty. |
| Extensions.SetThenGet | zubbi/extensions.py:41-45 | A stored value is read back until it expires, and not after. |
| Extensions.SecondCallIsServedFromCache | zubbi/extensions.py:33-46 | After a call that missed and computed a value, a second call before expiry does not run the function again and returns the same value. |
| Extensions.ExpiredValueIsRecomputed | zubbi/extensions.py:33-46 | Once the timeout has passed, the next call runs the function again. |
| Extensions.NoneIsNeverServed | zubbi/extensions.py:41-44 | A function result of `None` is stored but never served, so the next call runs the function again. |
| Extensions.NullCacheAlwaysRuns | zubbi/extensions.py:41-56 | With the debug `NullCache` every call runs the function and the cache stays empty. |
| Extensions.OneCachePerApplication | zubbi/extensions.py:57-61 | Two `get_cache` calls outside debug mode return the same cache. |
| GerritConnection.AuthPart | zubbi/scraper/connections/gerrit.py:36 | Credentials are always written as `<user>:<password>@`, so the part always ends in `@`. |
| GerritConnection.RemoteUrl | zubbi/scraper/connections/gerrit.py:33-38 | The remote URL ends in `/<repository>`, and with a scheme it is `<scheme>://<user>:<password>@<rest>/<repository>`. |
| GerritConnection.CredentialsAlwaysPresent | zubbi/scraper/connections/gerrit.py:33-38 | Unlike the git connection, missing credentials still produce an auth part, starting with `None:`. |
| GerritRepo.EndLineIgnored | zubbi/scraper/repos/gerrit.py:28-38 | The end line never changes a Gerrit file link. |
| GerritRepo.FileAndDirectoryLinksDifferInAction | zubbi/scraper/repos/gerrit.py:28-44 | The file and directory links of a path differ only in the `blob`/`tree` action. |
| GerritRepo.UrlForFileExample | zubbi/scraper/repos/gerrit.py:28-38 | A concrete file link with a highlighted start line matches the documented shape. |
| GerritRepo.UrlForDirectoryExample | zubbi/scraper/repos/gerrit.py:40-44 | A concrete directory link matches the documented shape. |
| GitConnection.WithAuth | zubbi/scraper/connections/git.py:50-56 | The auth part is inserted right after `://`. Without a scheme it is appended after `://`. |
| GitConnection.WithoutAuthKeepsUrl | zubbi/scraper/connections/git.py:50-56 | Inserting an empty auth part into a URL with a scheme leaves it unchanged. |
| GitConnection.AuthUrlShape | zubbi/scraper/connections/git.py:44-59 | The remote URL ends in `/<repository>`, and with a scheme and an auth part it starts with `<scheme>://<auth>`. |
| GitConnection.RemoteUrl | zubbi/scraper/connections/git.py:44-59 | The remote URL always ends in `/<repository>`, and with a scheme and a user it carries the credentials after `://`. |
| GitConnection.RemoteUrlWithoutUser | zubbi/scraper/connections/git.py:44-59 | Without a user the remote URL is the host URL joined with the repository name. |
| GitConnection.RemoteUrlPlain | zubbi/scraper/connections/git.py:44-59 | For a clean host URL and repository name without a user, the remote URL is `<host>/<repository>`. |
| GitRepo.ListCommand | zubbi/scraper/repos/git.py:58-76 | `git ls-tree --name-only master` lists the root for `/`, and any other directory with exactly one trailing slash. |
| GitRepo.ListCommandTrailingSlash | zubbi/scraper/repos/git.py:58-76 | A trailing slash on the directory does not change the command. |
| GitRepo.Basename | zubbi/scraper/repos/git.py:70-74 | A listed name holds no `/`, and is the tail of the path with its trailing slashes stripped that is either the whole of it or preceded by a `/`: the part after the last `/`. |
| GitRepo.BasenameOfPath | zubbi/scraper/repos/git.py:70-74 | The name listed for `dir/name` is `name`, for any name without a `/`. |
| GitRepo.BasenameOfPlainName | zubbi/scraper/repos/git.py:70-74 | A path without `/` is its own name. |
| GitRepo.ListingUnlisted | zubbi/scraper/repos/git.py:66-76 | A name that no listed path ends in is not in the listing. |
| GitRepo.ListingLastWins | zubbi/scraper/repos/git.py:66-76 | When two listed paths share a name, the later one's entry is kept. |
| GitRepo.RevisionSpec | zubbi/scraper/repos/git.py:53-56 | `git show master:<path>`: the revision spec splits back at its first `:` into the branch and the path. |
| GitRepo.RevisionSpecInjective | zubbi/scraper/repos/git.py:53-56 | Different paths give different revision specs. |
| GitHubConnection.TokenReusedUntilExpiry | zubbi/scraper/connections/github.py:98-131 | After a token is obtained, asking again before it expires returns the same token without a request. |
| GitHubConnection.RecordAppend | zubbi/scraper/connections/github.py:133-183 | Writing two batches of installation entries is writing their concatenation. |
| GitHubConnection.RecordUnwritten | zubbi/scraper/connections/github.py:133-183 | A repository no write mentions keeps its entry. |
| GitHubConnection.RecordLastWrite | zubbi/scraper/connections/github.py:133-183 | A repository's entry is its last write. |
| GitHubConnection.PrimeFromMap | zubbi/scraper/connections/github.py:133-183 | Priming writes every repository of every installation page, in order, into the installation map. |
| GitHubConnection.PrimeAtMostOnce | zubbi/scraper/connections/github.py:81-131 | A project still unknown after repriming gives the empty token after exactly one priming. |
| GitHubConnection.ProjectOverridesInstallId | zubbi/scraper/connections/github.py:81-97 | With a project name the installation id argument makes no difference. |
| GitHubConnection.UnknownRepositoryHasNoClient | zubbi/scraper/connections/github.py:185-197 | A repository that is not in the installation map gets no client and changes nothing. |
| GitHubConnection.GetReposForInstallation | zubbi/scraper/connections/github.py:207-212 | Exactly the repositories whose installation id matches are listed. |
| GitHubConnection.MatchingIndices | zubbi/scraper/connections/github.py:207-212 | The positions of the installation map whose entry names the installation: every such position, each once, in increasing order. |
| GitHubConnection.ReposOfConcat | zubbi/scraper/connections/github.py:207-212 | The comprehension distributes over concatenated maps: the repositories of `a + b` are those of `a` followed by those of `b`. |
| GitHubConnection.ReposFollowMapOrder | zubbi/scraper/connections/github.py:207-212 | The `j`-th repository listed is the key at the `j`-th matching position of the map. Each matching entry thus gives exactly one repository, in map order. |
| GitHubConnection.ReposForInstallationMeaning | zubbi/scraper/connections/github.py:207-212 | With distinct keys, a repository is listed exactly when its entry in the map carries the installation id. |
| GitHubConnection.Repos | zubbi/scraper/connections/github.py:200-201 | `repos` is exactly the key set of the installation map. |
| GitHubRepo.FileContentsFailsAsCheckout | zubbi/scraper/repos/github.py:58-70 | A failure of `file_contents` is a `CheckoutError`, and so caught by a `RepositoryError` handler, exactly when the file is not a non-empty one whose bytes are not UTF-8. The `UnicodeDecodeError` of `.decode("utf-8")` escapes both. |
| GitHubRepo.EndWithoutStartIgnored | zubbi/scraper/repos/github.py:157-166 | An end line without a start line is ignored. |
| GitHubRepo.StartLineRecoverable | zubbi/scraper/repos/github.py:157-166 | Different start lines give different links. |
| GitHubRepo.UrljoinSegmentAndPath | zubbi/scraper/repos/github.py:168-169 | Joining the repository URL with `tree/master` and a path is `<url>/tree/master/<path>`, without doubled slashes. |
| GitHubRepo.UrlForDirectory | zubbi/scraper/repos/github.py:168-169 | A directory link is `<url>/tree/master/<path>`. |
| GitHubRepo.FlattenRanges | zubbi/scraper/repos/github.py:128-142 | The blame keeps the ranges up to the first one that misses a key, each as its start, end and commit date. The `KeyError` ends the loop but keeps what was collected. |
| GitHubRepo.CompleteRangesAllKept | zubbi/scraper/repos/github.py:128-142 | When every range is complete, all of them are kept. |
| GitHubRepo.BlameOwnerRepo | zubbi/scraper/repos/github.py:101 | `split("/", 1)` splits the repository name at its first `/` into owner and repository. A name without `/` raises. |
| GitHubRepo.RepoObjectName | zubbi/scraper/repos/github.py:145-155 | The repository object exists only with a client and a name of exactly two `/`-separated parts, which rebuild the name. |
| Helpers.Range | zubbi/helpers.py:60 | `range(start, end + 1)` lists the integers from start to end. |
| Helpers.CalculatePagination | zubbi/helpers.py:46-66 | The steps are an optional `[0]` group, the window around the current page, and an optional `[last_page]` group. The gaps are opened exactly under the code's conditions. |
| Helpers.PaginationFlat | zubbi/helpers.py:46-66 | The pages shown are the leading `0`, the window, and the trailing last page, in this order. |
| Helpers.PageAt | zubbi/helpers.py:46-66 | Indexes into the shown pages: the leading `0`, then the window, then the last page. |
| Helpers.PaginationIncreasing | zubbi/helpers.py:46-66 | For a current page within the pages, the pages shown are strictly increasing. |
| Helpers.PagePairIncreasing | zubbi/helpers.py:46-66 | Any two positions of the shown pages are in increasing order. |
| Helpers.PaginationPages | zubbi/helpers.py:46-66 | Exactly these pages are shown: 0, the last page, and every page within the step size of the current page. |
| Models.Escape | zubbi/models.py:50-91 | The translation table leaves no `<` or `>` and at most doubles the query's length. |
| Models.EscapeRoundTrip | zubbi/models.py:50-91 | Unescaping undoes the escape on any query without `<` or `>`, because `\` is itself reserved. |
| Models.EscapeInjective | zubbi/models.py:50-91 | Different queries without angle brackets escape differently. |
| Models.EscapeKeepsPlainText | zubbi/models.py:50-91 | Text without reserved or removed characters is left as it is. |
| Models.SearchQueryRecoversQuery | zubbi/models.py:254 | The raw query can be recovered from the query string of a non-exact search. |
| Models.ReusableBlocksBoosted | zubbi/models.py:257-263 | A search without extra filters lets every block through and adds a score of 2 exactly to the reusable ones. |
| Models.HtmlEscape | zubbi/models.py:171-175 | The raw fallback holds no angle bracket. |
| Models.FallbackHasOnlyWrapperTags | zubbi/models.py:171-175 | The only `<` of the fallback are those of `<pre>` and `</pre>`. |
| Models.BlockType | zubbi/models.py:296-301 | Roles and jobs have a block type. Tenants and repositories raise `ValueError`. |
| Models.ClassFromBlockType | zubbi/models.py:304-309 | `role` and `job` name a document class. Any other type raises with the documented message. |
| Models.BlockTypeRoundTrip | zubbi/models.py:296-309 | The class of a class's block type is that class. |
| Models.ClassFromBlockTypeRoundTrip | zubbi/models.py:296-309 | The block type of a type's class is that type. |
| Models.ApplyIndexPrefix | zubbi/models.py:374-383 | A truthy prefix, without its trailing dashes, renames every index to `<prefix>-<Index.name>`. No prefix renames nothing. |
| Models.PrefixedIndicesDistinct | zubbi/models.py:374-383 | After a prefix is applied, the four document classes still have four different indices. |
| Models.IndexPrefixTrailingDash | zubbi/models.py:375-377 | A trailing `-` on the prefix makes no difference. |
| Models.SelectIndexCoversBlocks | zubbi/models.py:233-238 | A search without explicit indices covers the requested block class and only role and job indices. |
| Models.TlsDefaultsNeutral | zubbi/models.py:37-41 | A TLS mapping changes nothing exactly when it does not enable TLS, does not turn hostname checking off, and sets no verify mode other than `CERT_REQUIRED`. The defaults are merged at lines 347-351. |
| Models.TlsSettingOverrides | zubbi/models.py:347-351 | A key set in the TLS mapping overrides the default (the `ChainMap` lookup order), leaving the other keys alone. |
| Models.DisabledTlsIgnored | zubbi/models.py:346-354 | Two TLS mappings that do not enable TLS open the same connection. |
| Models.TlsRejected | zubbi/models.py:346-354 | Opening the connection fails exactly when TLS is enabled and the verify mode is not an `ssl` verify constant, or is `CERT_NONE` while host names are still checked. |
| Models.CredentialsArePaired | zubbi/models.py:338-341 | Unless user and password are both truthy, the connection is the one without credentials. |
| Models.DefaultPortImplicit | zubbi/models.py:342-343 | A missing port is the same as port 9200. |
| Models.FlatKeysMatchBlock | zubbi/models.py:312-323 | A configuration with flat `ES_*` keys opens the same connection as the equivalent `ELASTICSEARCH` block. |
| Models.BlockShadowsFlatKeys | zubbi/models.py:313-314 | With an `ELASTICSEARCH` block, the flat keys make no difference. |
| RepoParser.RenderDescription | zubbi/scraper/repo_parser.py:98-111 | No description renders nothing. A null description raises. A `LookupError` propagates. A build error is swallowed and leaves the HTML empty. |
| RepoParser.NullDescriptionRaises | zubbi/scraper/repo_parser.py:98-101 | A job whose description is an explicit null makes the parse raise, because `render_sphinx` gets `None`. |
| RepoParser.SameNameSameId | zubbi/scraper/repo_parser.py:79-81 | Two jobs of the same name in the same repository get the same id, wherever they are defined. |
| RepoParser.DescriptionOnlyAffectsDescription | zubbi/scraper/repo_parser.py:98-114 | The description touches only the description, HTML, platforms and reusable fields. In a reusable repository every job is reusable. |
| RepoParser.ElementJobsSpec | zubbi/scraper/repo_parser.py:74-122 | On well-formed elements, the loop gives exactly one job per job mapping, in order, each built from its own mapping. |
| RepoParser.ElementJobsStamped | zubbi/scraper/repo_parser.py:79-114 | Every job of a file carries the repository's id scheme, name, tenants, visibility and scrape time, and is reusable in a reusable repository. |
| RepoParser.StampedAppend | zubbi/scraper/repo_parser.py:57 | The stamp of two job lists carries over to their concatenation. |
| RepoParser.ParseJobFilesStamped | zubbi/scraper/repo_parser.py:50-65 | Every job of a repository is stamped with that repository's data. |
| RepoParser.ParseJobFilesAppend | zubbi/scraper/repo_parser.py:50-65 | Parsing two file lists is parsing each and concatenating, and the first exception wins. |
| RepoParser.ParseErrorIsolated | zubbi/scraper/repo_parser.py:68-72 | A file with a YAML error contributes nothing and does not stop the others. |
| RepoParser.RoleOf | zubbi/scraper/repo_parser.py:124-164 | A role's id, name, repository, tenants, visibility, URL, scrape time and last change come from the repository and its files. The raw README and changelog are stored, and their HTML is set exactly when they render. `reusable` is set in a reusable repository or by the README's directive. |
| RepoParser.ChangelogOnlyAffectsChangelog | zubbi/scraper/repo_parser.py:153-159 | The changelog never affects anything but the two changelog fields. |
| RepoParser.ReusableRepoMakesAllReusable | zubbi/scraper/repo_parser.py:113-162 | In a repository configured as reusable, every job and every role is reusable. |
| Scraper.FetchJobFile | zubbi/scraper/scraper.py:59-66 | A file is collected exactly when its history lookup succeeds and it checks out. A `CheckoutError` skips it, and any other error propagates. |
| Scraper.AddJobFile | zubbi/scraper/scraper.py:59-66 | Adding a file overwrites its entry or skips it, and fails only on a non-checkout error. |
| Scraper.PresentFiles | zubbi/scraper/scraper.py:71-74 | The Zuul files tried are exactly those listed at the root. |
| Scraper.AddPathsAppend | zubbi/scraper/scraper.py:45-84 | Trying two lists of files is trying the first and then, if nothing fatal happened, the second. |
| Scraper.AddDirectoriesIsAddPaths | zubbi/scraper/scraper.py:50-69 | The directory loop is the file loop over the files of the listed Zuul directories. |
| Scraper.AddRootFilesIsAddPaths | zubbi/scraper/scraper.py:70-82 | The root-file loop is the file loop over the present Zuul files. |
| Scraper.CheckOutJobFilesIsAddPaths | zubbi/scraper/scraper.py:45-84 | `check_out_job_files` is the file loop over the candidates in `check_out_job_files`'s order: Zuul directories first, then root files. |
| Scraper.AddPathsSucceeds | zubbi/scraper/scraper.py:59-66 | The file loop succeeds exactly when no file has a fatal history error. |
| Scraper.AddPathsContent | zubbi/scraper/scraper.py:59-66 | After the loop a path holds its file exactly when it was tried and is fetchable. Other paths keep their entries. |
| Scraper.CheckOutJobFiles | zubbi/scraper/scraper.py:45-48 | A repository without a root listing raises a `CheckoutError`. |
| Scraper.CheckOutJobFilesSpec | zubbi/scraper/scraper.py:45-84 | The collected job files are exactly the fetchable candidates, and collection fails exactly on a fatal error. |
| Scraper.FindMatchingFile | zubbi/scraper/scraper.py:114-127 | The result is the first entry, in listing order, whose name is in the filter and whose file checks out. There is none exactly when no entry matches. |
| Scraper.ReadmeFollowsListingOrder | zubbi/scraper/scraper.py:114-127 | `README.txt` listed before `README.md` wins, whatever the filter's order. The filter is the list at line 26. |
| Scraper.RoleStep | zubbi/scraper/scraper.py:92-108 | A role is collected exactly when its history lookup succeeds and its directory is listed and not empty. Only a non-checkout error propagates. |
| Scraper.CheckOutRoleFiles | zubbi/scraper/scraper.py:86-112 | A repository without `roles` has no roles. |
| Scraper.AddRolesSucceeds | zubbi/scraper/scraper.py:91-108 | The role loop succeeds exactly when no role has a fatal history error. |
| Scraper.AddRolesOther | zubbi/scraper/scraper.py:91-108 | A name not listed under `roles` keeps its entry. |
| Scraper.AddRolesContent | zubbi/scraper/scraper.py:91-108 | A listed role holds the files its step collects, or keeps its entry when the step collects nothing. |
| TenantParser.UpdateRepoMap | zubbi/scraper/tenant_parser.py:64-76 | The project gains the tenant for roles, and for jobs unless it excludes `jobs`. A new entry takes the connection name. No other project changes. |
| TenantParser.UpdateIsStep | zubbi/scraper/tenant_parser.py:64-76 | One update changes only the named project's entry, by one step. |
| TenantParser.ParseCharacterization | zubbi/scraper/tenant_parser.py:46-76 | Against a reference definition, a project is in the repository map exactly when some tenant mentions it. Its entry lists every mentioning tenant for roles, those not excluding jobs for jobs, and the first connection that mentioned it. |
| TenantParser.ApplyMatchesExpected | zubbi/scraper/tenant_parser.py:51-60 | Applying occurrences in order gives the reference entry for every project. |
| TenantParser.FirstConnection | zubbi/scraper/tenant_parser.py:68-71 | A project has a connection exactly when some occurrence mentions it. |
| TenantParser.FirstConnectionIsFirst | zubbi/scraper/tenant_parser.py:68-71 | The connection is the one of the first occurrence (the `setdefault`). |
| TenantParser.ExpectedSkip | zubbi/scraper/tenant_parser.py:64-76 | An occurrence of another project leaves the reference entry alone. |
| TenantParser.TakeLists | zubbi/scraper/tenant_parser.py:74-76 | An occurrence of the project adds its tenant to roles, and to jobs unless jobs are excluded. |
| TenantParser.ExpectedTakeSome | zubbi/scraper/tenant_parser.py:64-76 | For an existing entry, the reference definition agrees with one update step. |
| TenantParser.ExpectedTakeNone | zubbi/scraper/tenant_parser.py:64-76 | For a new entry, the reference definition agrees with one update step. |
| TenantParser.JobsSubsetOfRoles | zubbi/scraper/tenant_parser.py:74-76 | A project never lists more job tenants than role tenants, and without exclusions the two lists are equal. |
| TenantParser.SingleOccurrence | zubbi/scraper/tenant_parser.py:51-60 | One tenant with one project yields one occurrence. |
| TenantParser.ExclusionExample | zubbi/scraper/tenant_parser.py:64-85 | A repository in two tenants, the second excluding jobs, lists both tenants for roles, only the first for jobs, and the first connection. |
| TenantParser.LoadedTenant | zubbi/scraper/tenant_parser.py:105-130 | A tenant is loaded exactly when both of its files check out. |
| TenantParser.LoadTenants | zubbi/scraper/tenant_parser.py:104-131 | At most one source per listed tenant. |
| TenantParser.LoadTenantsAppend | zubbi/scraper/tenant_parser.py:104-131 | Loading two tenant lists is loading each and concatenating. |
| TenantParser.LoadTenantIsolation | zubbi/scraper/tenant_parser.py:123-130 | A tenant whose files do not check out is skipped without affecting the others. A loadable one contributes exactly its source, in place. |
| TenantParser.LoadTenantSourcesFromRepo | zubbi/scraper/tenant_parser.py:93-131 | A repository without `tenants` raises the documented configuration error. Otherwise the tenants are loaded in listing order. |
| Text.ParseInt | zubbi/views.py:124-128 | `int()` on text succeeds exactly when the stripped text is an optional sign followed by ASCII digits. The magnitude is the value of those digits, and the result is negative only under a written `-`. |
| Text.IntRoundTrip | zubbi/views.py:124-128 | `int(str(i)) == i` for every integer. |
| Text.JoinSplit | zubbi/doc.py:44 | The comma-separated pieces of an argument join back to the argument. |
| Text.PartitionChar | zubbi/doc.py:111 | `partition(":")` splits at the first `:` exactly when there is one, and otherwise returns the line and two empty parts. |
| Text.PartitionCharRecovers | zubbi/doc.py:111 | Partitioning `a:b` where `a` holds no `:` gives back `a` and `b`. |
| Text.StripLogValue | zubbi/doc.py:113 | The space and newline a log line adds around a value do not change what `strip()` keeps. |
| Text.RStripChar | zubbi/models.py:377 | `rstrip("-")` keeps a prefix that does not end in `-`, and drops only dashes. |
| Text.LexLeTotal | zubbi/utils.py:30 | The order the blame dates are sorted by is total. |
| Text.LexLeTransitive | zubbi/utils.py:30 | The order is transitive. |
| Text.LexLeAntisymmetric | zubbi/utils.py:30 | The order is antisymmetric. |
| Utils.Urljoin | zubbi/utils.py:21-23 | The result starts with the base without trailing slashes. Each part adds a `/`. |
| Utils.UrljoinAppend | zubbi/utils.py:21-23 | One more part appends `/<part without surrounding slashes>`. |
| Utils.UrljoinBaseSlash | zubbi/utils.py:21-23 | A trailing slash on the base makes no difference. |
| Utils.UrljoinConcat | zubbi/utils.py:21-23 | Joining two part lists is joining the first and appending the second's stripped parts. |
| Utils.UrljoinEndsClean | zubbi/utils.py:21-23 | A join whose last part is not all slashes does not end in `/`. |
| Utils.UrljoinNested | zubbi/utils.py:21-23 | Joining a joined URL again is one join of all parts. |
| Utils.UrljoinExample | zubbi/utils.py:21-23 | A concrete URL join matches the documented result. |
| Utils.GlueAppend | zubbi/utils.py:23 | Gluing parts distributes over concatenation. |
| Utils.IntersectsIffSharesLine | zubbi/utils.py:33-40 | The interval test is exactly the set intersection of the two line ranges. |
| Utils.LastChangedFromBlameRange | zubbi/utils.py:26-41 | There is no date exactly when no blame range shares a line with the range. Otherwise the date is that of an intersecting range, and no intersecting date is later. |
| Utils.LastChangedUnique | zubbi/utils.py:26-41 | The date of an intersecting range that no intersecting date exceeds is the answer. |
| Utils.LastChangedOrderIrrelevant | zubbi/utils.py:30 | The order of the blame ranges does not matter. |
| Utils.EmptyRangeHasNoDate | zubbi/utils.py:33 | A range whose end is before its start has no date. |
| Utils.PickLatest | zubbi/utils.py:26-41 | With two candidate dates, the later one is picked. |
| Utils.BlameCaseSingleRange | zubbi/utils.py:26-41 | A range inside a single blame range gets that range's date. |
| Utils.BlameCaseNewestWins | zubbi/utils.py:26-41 | A range over three blame ranges gets the newest date. |
| Utils.BlameCaseAdjacent | zubbi/utils.py:26-41 | A range touching an adjacent blame range by one line takes that range's newer date. |
| Views.JsonAbortReadsBack | zubbi/views.py:46-50 | The abort body reads back `error` as the status, and `msg` as the message exactly when one is given. No other key is present. |
| Views.Lookup | zubbi/views.py:46-50 | A key is found exactly when the body holds it. |
| Views.BlockFilterClass | zubbi/views.py:118-123 | Exactly one filter naming a block type, in any case, selects a class. Exactly one other filter is a 400. More or fewer filters select nothing. |
| Views.ValidateSearch | zubbi/views.py:117-144 | The request is valid exactly when the block filter, `from`, `size` and fields all validate, and every failure is a 400. `from` defaults to 0. `size` is the given or configured batch size, capped by the limit. The fields are the given or default ones, expanded. |
| Views.SearchFieldsAreIndexed | zubbi/views.py:129-141 | The searched fields are indexed fields. By default they are the two names and the description. The defaults are at lines 39-40. |
| Views.SearchShowsOnlyPublic | zubbi/views.py:151-154 | The search started by the view lets through exactly the blocks that are not private, and boosts the reusable ones by 2. |
| Views.FloorDiv | zubbi/views.py:169 | Python's `//` rounds down, also for negative operands. |
| Views.PageNumbers | zubbi/views.py:168-171 | A zero size raises (`ZeroDivisionError`). Otherwise the page numbers come from `from // size` and `ceil(total / size) - 1`, floored at 0. |
| Views.PageNumbersMeaning | zubbi/views.py:168-171 | The current page contains `from`, and the last page contains the last hit (0 when there are none). |
| Views.Search | zubbi/views.py:99-189 | No query gives the form. An invalid request is a 400. A negative slice fails with `ValueError`. A single hit on the first page redirects to it. Any other valid request with a non-zero size renders results with the pagination of its pages. |
| Views.Webhook | zubbi/views.py:269-307 | A payload that is missing, not JSON or falsy JSON (`{}`, `[]`, `0`), or a missing delivery id, is a 400 and a wrong signature is a 401. A verified webhook publishes the event exactly when it passes `check_event`. |
| ScraperMain.WebhookEventsAreHandled | zubbi/scraper/main.py:455-466 | The events the webhook lets through (`WEBHOOK_EVENTS`, `zubbi/views.py:43`) are exactly those `handle_event` has a handler for. |
| ScraperMain.DeleteOutdated | zubbi/scraper/main.py:434-449 | Exactly the documents of the given kinds scraped before the time for the listed repositories are deleted. Nothing else changes. (See also `zubbi/models.py:100-107`.) |
| ScraperMain.SaveAll | zubbi/scraper/main.py:427-431 | Saving job or role ids upserts exactly those documents with the repository and time, and changes nothing else. |
| ScraperMain.SaveRepos | zubbi/scraper/main.py:368-392 | The repository documents saved are exactly those with an id hashed from a scraped name, each with the scrape time and a name hashing to its id. Nothing else changes. |
| ScraperMain.HashesToCons | zubbi/scraper/main.py:369 | An id is hashed from a list of names exactly when it is the first name's hash or hashed from the rest. |
| ScraperMain.InitializeRepoCache | zubbi/scraper/main.py:112-138 | The repository cache has one entry per name. |
| ScraperMain.RepoCacheNames | zubbi/scraper/main.py:123-136 | The cache holds exactly the names of the repository documents. |
| ScraperMain.PutName | zubbi/scraper/main.py:133-136 | Writing one more hit adds its name to the names the cache holds. |
| ScraperMain.RepoCacheEntries | zubbi/scraper/main.py:123-136 | A cached repository has provider `github` exactly when the GitHub connection lists it, and a scrape time of one of its documents. |
| ScraperMain.Stale | zubbi/scraper/main.py:279-284 | A repository is stale exactly when a cache entry for it is older than the threshold and has a provider. |
| ScraperMain.StaleMeaning | zubbi/scraper/main.py:279-284 | With distinct keys, a name is stale exactly when its cache entry is older than the threshold and has a provider. |
| ScraperMain.GetFindsEntry | zubbi/scraper/main.py:281 | With distinct keys, the lookup finds exactly the entry stored under the name. |
| ScraperMain.OutdatedRunRefreshesStale | zubbi/scraper/main.py:275-298 | After a successful `scrape_outdated`, each stale repository the tenant configuration knows has its cache entry refreshed to the run's time with its provider kept. Every other entry is unchanged. |
| ScraperMain.NothingOutdatedNothingRuns | zubbi/scraper/main.py:286-298 | When no entry is stale, `scrape_outdated` changes nothing. |
| ScraperMain.NoneStale | zubbi/scraper/main.py:281-284 | When no entry is both old and provided, the stale list is empty. |
| ScraperMain.Touch | zubbi/scraper/main.py:375-385 | `setdefault` followed by the time update: an existing entry keeps its provider, a new one gets `github`, and no other entry changes. |
| ScraperMain.ScrapeOne | zubbi/scraper/main.py:357-388 | A repository the tenant configuration does not know is skipped. A known one is touched in the cache, recorded as scraped, and fails exactly when scraping it raises. |
| ScraperMain.ScrapeOneIndex | zubbi/scraper/main.py:357-431 | One step keeps every document. It only writes documents of the known repository scraped at the run's time, and scrapes nothing else. |
| ScraperMain.LoopIndex | zubbi/scraper/main.py:357-388 | The loop only adds or overwrites job and role documents of listed, known repositories, scraped at the run's time. It scrapes no other repository. |
| ScraperMain.LoopCacheUntouched | zubbi/scraper/main.py:357-388 | A repository that is not listed, or not known, keeps its cache entry. |
| ScraperMain.LoopCacheTouched | zubbi/scraper/main.py:375-385 | After a loop without an error, a listed known repository has been touched and scraped. |
| ScraperMain.ScrapedGrows | zubbi/scraper/main.py:357-388 | The scraped list only grows. |
| ScraperMain.LoopSavesScraped | zubbi/scraper/main.py:414-431 | After a loop without an error, every job and role the scraping of a listed known repository returned is in the index with the run's time. |
| ScraperMain.PrimingFailureKeepsIndexAndCache | zubbi/scraper/main.py:332 | A failed priming leaves the index and cache unchanged and ends the run with the error. |
| ScraperMain.RunSkipsUnknownRepository | zubbi/scraper/main.py:360-366 | A repository the tenant configuration does not know keeps its cache entry and its documents. |
| ScraperMain.RunRecordsKnownRepository | zubbi/scraper/main.py:368-392 | After a successful run, a listed known repository has its repository document at the run's time and its cache entry touched. |
| ScraperMain.RunKeepsScrapedDocuments | zubbi/scraper/main.py:406-431 | After a successful run, every job and role scraped for a listed known repository is in the index with the run's time. The final delete does not remove them. |
| ScraperMain.RunSweepsOutdated | zubbi/scraper/main.py:393-411 | After a successful run, no outdated document of the swept kinds of a listed repository is left. Every other document survives, unchanged or rewritten at the run's time. |
| ScraperMain.DeleteOnlyForgetsRepositories | zubbi/scraper/main.py:393-404 | A delete-only run reads neither the tenant configuration nor any repository, and forgets exactly the listed repositories in the cache. |
| ScraperMain.FullNames | zubbi/scraper/main.py:487 | The names list succeeds exactly when every repository has a `full_name`, and keeps them in order. |
| ScraperMain.DeletedUnknownInstallationDoesNothing | zubbi/scraper/main.py:501-509 | Deleting an installation with no known repositories changes nothing. |
| ScraperMain.NoRepositoriesWithoutEntries | zubbi/scraper/main.py:501 | An installation id no entry carries has no repositories. |
| ScraperMain.DeletedInstallationForgetsItsRepositories | zubbi/scraper/main.py:491-513 | Deleting an installation forgets exactly its repositories in the cache. |
| ScraperMain.RemovalAloneDoesNothing | zubbi/scraper/main.py:544-553 | A payload that only removes repositories raises `TypeError` (iterating over `None`) and changes nothing. |
| ScraperMain.AddedRepositoriesForgottenAgain | zubbi/scraper/main.py:518-553 | With both lists present, the added repositories are scraped and then every one of them ends up forgotten in the cache, because the removal takes its names from `repositories_added`, as the code is written. |
| ScraperMain.RefBranch | zubbi/scraper/main.py:573-574 | `split("/", 2)[2]`: the branch is what follows the second `/`. There is none when the ref has fewer than two slashes. |
| ScraperMain.RefBranchOf | zubbi/scraper/main.py:573-574 | `refs/heads/<branch>` gives back the branch, even when it contains `/`. |
| ScraperMain.EventPush | zubbi/scraper/main.py:556-587 | A push triggers a run only for a known repository whose default branch is the pushed branch. |
| ScraperMain.PushToBranch | zubbi/scraper/main.py:556-587 | A push to the default branch scrapes exactly that repository, and a push to another branch does nothing. |

## Left out

- I/O and external services are parameters, and their own behaviour is
  not modelled:
  - YAML parsing, Sphinx and markdown rendering, sha1 and the HMAC digest;
  - the Elasticsearch client, the GitHub REST and GraphQL APIs, JWT
    signing and `git` subprocesses;
  - ZeroMQ sockets and logging.
- Timestamps are integers (seconds), so time zones and `datetime` are not
  modelled.
- `math.ceil` over a float is modelled as exact integer ceiling division.
- The views outside search and webhooks (detail, autocomplete, how-to,
  lmzify and the index page) and template rendering are not modelled.
- Cloning a repository and reading its files from disk are not
  modelled.
- Python's `Path.name` and `os.path.join` are modelled only for the paths
  the scraper builds.
- Several `main.py` call sites do not match the code they call:
  - `TenantParser(scrape_time=...)`;
  - `parse()` returning `None`.

  The model follows the evident data flow instead. The remaining
  mismatches are listed one by one below.
- ScraperMain.Env: `scrape_repo` obtains its client through
  `_create_github_client` (zubbi/scraper/main.py:415), which may refresh
  the installation-token cache. Scraping is a given function of the
  repository, so that token refresh is not threaded into the run's
  GitHub connection.
- ScraperMain.Index: the index holds only job, role and repository
  documents. `ZuulTenant.bulk_save(tenant_list)`
  (zubbi/scraper/main.py:353) is not modelled.
- RepoParser.Context: `urlForFile` and `urlForDirectory` are total
  functions. The `NotFoundError` GitHub's `url_for_file` can raise is not
  modelled.
- RepoParser.JobDef: a job name given as an explicit null is not
  modelled, and a missing name raises `KeyError`.
- GitHubRepo.BlameFromResponse: a JSON `null` for `startingLine`,
  `endingLine` or the commit date is treated like a missing key. GitHub's
  GraphQL schema declares these fields non-null.
- Models.MergeTls: a TLS key set to an explicit null is treated as
  absent.
- Models.EsParameters: an `ELASTICSEARCH` block without `host`, or with
  keys `init_elasticsearch_con` does not accept, raises `TypeError` in the
  code. The model's block always has a host field and no other keys.
- Models.EsParameters: the flat configuration reads `ES_USER`, while the
  environment whitelist sets `ES_USERNAME`. Both are reproduced as
  written.
- Extensions.Set: `SimpleCache`'s pruning once it holds more than 500
  entries is not modelled, so the model's cache never evicts a live
  entry.
- Text.Lower: only ASCII letters are case-folded, whereas Python's
  `str.lower()` folds all of Unicode. This matters for the extension
  tests, the platform names and the block filter only on non-ASCII text.
- Text.ParseInt: `int()` also accepts `_` between digits and non-ASCII
  decimal digits. The model rejects both.
- Doc.SupportedOsRoundTrip: proved for arguments without a newline.
  Arguments and status messages that span lines are covered by
  Doc.SupportedOsArgumentOverLines and Doc.StatusMessageAddsPlatform.
- Doc.ReusableLastPieceWins: proved for arguments without a newline, for
  the same reason.
- Models.InitElasticsearchCon: `getattr(ssl, verify_mode)` accepts any
  attribute of the `ssl` module; the model accepts only the three verify
  constants `CERT_NONE`, `CERT_OPTIONAL` and `CERT_REQUIRED` and treats every
  other name as the `AttributeError`.
- Models.ReusableBlocksBoosted: the relevance score of the `must` query
  is not modelled; only the filter and the `should` boost are.
- Config.IsUpper: only ASCII letters count as cased, whereas Python's
  `str.isupper()` considers all of Unicode.
- ScraperMain.Payload: a key holding JSON `null` is treated like a missing
  key.
- Repository.BlameOf: blame is total; a failed blame request is not
  modelled.
- The call `GitHubRepository(repo_name, gh, gh_con)` at
  zubbi/scraper/main.py:419 passes three arguments, while the constructor
  at zubbi/scraper/repos/github.py:53 takes two. The model builds the
  repository from the name and the connection.
- `GitHubRepository` does not define the abstract `check_out_file` and
  `list_directory` of zubbi/scraper/repos/__init__.py, which the scraper
  calls. The model scrapes every repository through
  Repository.CheckOutFile and Repository.ListDirectory, whose GitHub
  counterparts are GitHubRepo.FileContents and
  GitHubRepo.DirectoryContents.
- Repository.CheckOutFile: every failure is a `CheckoutError`. The
  `UnicodeDecodeError` GitHubRepo.FileContents raises for a file that is
  not UTF-8, which would end the scrape of the whole repository, is not
  carried into the scraper.
- The call to `RepoParser` at zubbi/scraper/main.py:423-425 omits the
  `is_reusable_repo` argument that zubbi/scraper/repo_parser.py:33-35
  requires. The model passes it.
- zubbi/scraper/main.py passes the whole repository-map entry, a mapping
  with `tenants` and `connection_name` (zubbi/scraper/tenant_parser.py:68-71),
  as `tenants`, while zubbi/scraper/repo_parser.py:86 and 135 read
  `tenants["jobs"]` and `tenants["roles"]` from it, a `KeyError` as
  written. The model passes the inner `tenants` mapping.
- Views.Search: the Elasticsearch query itself is not executed. The hits
  and the total are parameters.
