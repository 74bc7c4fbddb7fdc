# Scope cache and file classifier

This project models, in Dafny, the `Scope` class of `data_extraction.py`: an
in-memory cache wrapped around one user, organisation or team of a hosted
source-control platform. For each repository it caches the closed issues,
the closed pull requests, the commits, and seven lists of files classified
by path suffix (Python, JavaScript, Java, C, C++, "typed", "untyped"). Each
cached list sits beside the instant it was stored. For issues, pull
requests, commits and the Python, JavaScript and typed files, an entry older
than one day is refetched in full and overwritten. For the Java, C, C++ and
untyped files a cached entry makes the getter raise instead (see Findings).
The repository list itself has one cached slot and one timestamp.

Modelling choices:

- The platform is fixed, immutable data (`Platform.Remote`): a listing of
  repositories, each with its closed issues, closed pull requests, commits
  and directory tree (`Platform.Entry`, an inductive datatype).
- The clock is an explicit integer `now`, in seconds, passed to every
  method. The time-to-live is `TtlCache.TTL` = 86400 seconds.
- The per-repository freshness rule is stated once, as the pure function
  `TtlCache.Get`. The getters change their fields in place, and each
  postcondition ties the new fields and the result to a pure definition of
  the old fields:
  - the single-repository getters for issues, pull requests and commits
    to `Get`;
  - `GetIssues` and `GetPullRequests` to `TtlCache.RefreshAll`, which is
    `Get` applied to each listed repository in turn;
  - the file getters to `DataExtraction.FileLookup`, which is `Get` for
    PY, JS and TYPED and the failing hit test for the other four tags.
  `GetRepositories` has its own rule, since the repository list is one
  slot that is refetched when it is empty or stale.
- The seven `*_files` dictionaries and their seven `*_files_last_updated`
  dictionaries are two fields, `files` and `filesLastUpdated`, keyed by
  `Language`. `Language` is the enumeration of `utils.py:12-19`.
- The breadth-first walk of `populate_cache_with_file_content` is a `while`
  loop over a queue held in a sequence. Its result is proved equal to
  `Classifier.LevelOrder`, a level-by-level reference definition. That
  reference is proved to keep exactly the matching non-directory entries of
  the whole tree.
- The file getter raises `TypeError` in two cases: when it is given
  something that is not a `Language`, and in the defective branches
  described under Findings. Both are `Err` outcomes of
  `DataExtraction.Result`. `DataExtraction.LanguageArg` stands for the
  dynamically typed argument.

Two details of the code that the model keeps:

- The expiry test is `stamp < now - 86400`, so an entry exactly one day old
  is still fresh.
- `PY_EXTENSIONS = (".py")`, `JAVA_EXTENSIONS` and `C_EXTENSIONS` are plain
  strings, not tuples, and `str.endswith` with a string is an ordinary
  suffix test. The model treats each of them as a one-element suffix group.

## Model

| member | source | states |
|---|---|---|
| TtlCache.IsCacheExpired | data_extraction.py:313-317 | An entry is expired iff more than one day (86400 seconds) has passed since its timestamp. |
| TtlCache.ExpiredStaysExpired | data_extraction.py:313-317 | An expired entry stays expired at every later instant, and an entry fresh at some instant was fresh at every earlier one. |
| TtlCache.Get | data_extraction.py:95-103 | After a lookup the key is cached and stamped, and the returned list is the cached one. Only the looked-up key can change. Either the cache is untouched, or the fetched list was stored with timestamp `now`. Every cached key keeps a timestamp. |
| TtlCache.FreshHit | data_extraction.py:95-103 | A present, unexpired entry is returned as it is, and the cache does not change. |
| TtlCache.MissOverwrites | data_extraction.py:98-101 | A missing or stale entry is replaced by the fetched list, not merged with it, and stamped `now`. |
| TtlCache.SecondLookup | data_extraction.py:313-317 | After a lookup that fetched at `t0`, a lookup at `t1` is served from the cache with nothing changed iff `t1 <= t0 + 86400`. Otherwise it refetches and restamps at `t1`. |
| TtlCache.RefreshAll | data_extraction.py:82-87 | Looking up a list of repositories in turn keeps every cached key stamped. |
| TtlCache.RefreshAllDomain | data_extraction.py:82-89 | After the walk every listed key is cached and stamped, and no key outside the list or the starting cache appears. |
| TtlCache.RefreshAllUnchanged | data_extraction.py:82-89 | A key outside the list keeps its entry and its timestamp through the walk. |
| TtlCache.RefreshAllPerKey | data_extraction.py:82-89 | With distinct repository names, the walk leaves each repository exactly as a single lookup of it on the starting cache would. |
| DataExtraction.ListedRepositoriesCached | data_extraction.py:82-89 | After the walk, every repository of the list has a cached entry and a timestamp. |
| DataExtraction.IssuesWalkMatchesSingle | data_extraction.py:78-103 | With unique repository names, `get_issues` over the whole listing leaves each repository's issues and timestamp exactly as `get_issues_from_repo` on the same starting cache would. |
| DataExtraction.PullsWalkMatchesSingle | data_extraction.py:105-128 | With unique repository names, `get_pull_requests` over the whole listing leaves each repository's pull requests and timestamp exactly as `get_prs_from_repo` on the same starting cache would. |
| DataExtraction.Language | utils.py:12-19 | The seven language tags PY, JS, JAVA, C, CPP, TYPED and UNTYPED, as distinct values. |
| DataExtraction.Extensions | data_extraction.py:15-42 | Each language tag has a non-empty suffix group. The groups are the constants of the class, with each single parenthesised string as a one-suffix group. |
| DataExtraction.SubGroups | data_extraction.py:15-42 | Every Java, C and C++ suffix is also a typed suffix, and the Python suffix is also an untyped one. |
| DataExtraction.ClassifiedWithinGroup | data_extraction.py:15-42 | Every entry the Java, C or C++ getter classifies in a tree is also classified by the typed getter. Every entry the Python getter classifies is also classified by the untyped getter. |
| DataExtraction.HitTest | data_extraction.py:148-217 | The file getter's hit test fails iff the tag is UNTYPED, JAVA, C or CPP and the repository is already cached. A hit implies the repository is cached. |
| DataExtraction.FileLookup | data_extraction.py:148-224 | For PY, JS and TYPED one call of the file getter is exactly the shared freshness rule. For the other four, a call for a cached repository fails, and a first call is the shared rule. |
| DataExtraction.SecondFileLookup | data_extraction.py:182-191 | After a first call classifies a repository, a second call fails iff the tag is defective. For PY, JS and TYPED a second call within a day returns the same list and changes nothing. |
| DataExtraction.Scope.constructor | data_extraction.py:44-67 | A new scope has an empty repository list with no timestamp. The issue, pull-request, commit and seven file caches are empty, and so are their timestamp maps. The scope satisfies `Valid`. |
| DataExtraction.Scope.Valid | data_extraction.py:95-103 | The invariant every getter keeps, because each write stores an entry together with its timestamp. A non-empty repository list has a timestamp. Every cached repository of every cache has a timestamp. Every language tag has a file cache. |
| DataExtraction.Scope.GetRepositories | data_extraction.py:69-76 | The repository list is refetched and stamped `now` when it is empty or stale, otherwise it is returned unchanged. An empty list is never served from the cache. The timestamp is read only when the list is non-empty. |
| DataExtraction.Scope.GetIssues | data_extraction.py:78-89 | Fetches the repository list by the rule above. Then each listed repository is looked up with its own closed issues: the issue cache becomes the walk `RefreshAll`, and the whole map is returned. |
| DataExtraction.Scope.WalkIssues | data_extraction.py:82-87 | The loop over the repository list changes only the issue cache. It leaves that cache equal to the walk `RefreshAll` of the list's names and closed issues. |
| DataExtraction.Scope.GetIssuesFromRepo | data_extraction.py:91-103 | The issue cache and the returned list are those of `Get` with the repository's closed issues as the fetched list. The invariant that every cached key has a timestamp is kept. |
| DataExtraction.Scope.GetPrsFromRepo | data_extraction.py:105-115 | The same contract as the issue getter, over the pull-request cache. |
| DataExtraction.Scope.GetPullRequests | data_extraction.py:117-128 | The same contract as `GetIssues`, over the pull-request cache. |
| DataExtraction.Scope.WalkPullRequests | data_extraction.py:121-126 | The loop over the repository list changes only the pull-request cache. It leaves that cache equal to the walk `RefreshAll` of the list's names and closed pull requests. |
| DataExtraction.Scope.GetIssuesByTime | data_extraction.py:130-135 | Performs the cached issue lookup. The result is the time window of the list that the lookup returns. |
| DataExtraction.Scope.GetPrsByTime | data_extraction.py:137-142 | Performs the cached pull-request lookup. The result is the time window of the list that the lookup returns. |
| DataExtraction.Scope.GetFilesByLanguage | data_extraction.py:144-228 | A non-`Language` argument fails with nothing changed. For a `Language`, the result and the new cache of that tag are those of `FileLookup` with the classifier's list. No other tag's cache changes. |
| DataExtraction.Scope.GetPythonFiles | data_extraction.py:230-234 | Never fails. The result and the new cache follow the shared freshness rule for PY. |
| DataExtraction.Scope.GetJavascriptFiles | data_extraction.py:236-240 | Never fails. The result and the new cache follow the shared freshness rule for JS. |
| DataExtraction.Scope.GetJavaFiles | data_extraction.py:242-246 | Fails with nothing changed when the repository is already cached. Otherwise it stores and returns the classified Java files, stamped `now`. |
| DataExtraction.Scope.GetCFiles | data_extraction.py:248-252 | Fails with nothing changed when the repository is already cached. Otherwise it stores and returns the classified C files, stamped `now`. |
| DataExtraction.Scope.GetCppFiles | data_extraction.py:254-258 | Fails with nothing changed when the repository is already cached. Otherwise it stores and returns the classified C++ files, stamped `now`. |
| DataExtraction.Scope.GetCommitsByTime | data_extraction.py:260-265 | Returns exactly the repository's commits dated within `[since, until]`, namely the platform's range listing `CommitsBetween`. It has no `modifies` clause, so no cache changes. |
| DataExtraction.Scope.GetAllCommitsInRepo | data_extraction.py:267-277 | The commit cache and the returned list are those of `Get` with all of the repository's commits as the fetched list. |
| DataExtraction.Scope.GetTypedFiles | data_extraction.py:279-283 | Never fails. The result and the new cache follow the shared freshness rule for TYPED. |
| DataExtraction.Scope.GetUntypedFiles | data_extraction.py:285-289 | Fails with nothing changed when the repository is already cached. Otherwise it stores and returns the classified untyped files, stamped `now`. |
| DataExtraction.Scope.PopulateCacheWithFileContent | data_extraction.py:291-302 | The slot for `repo` is overwritten, with earlier contents discarded, by the breadth-first list of the tree's kept entries. Every other key is unchanged, and no key is added besides `repo`. |
| Classifier.Matching | data_extraction.py:297-301 | Only non-directory entries whose path ends with one of the suffixes are kept from a listing. |
| Classifier.WalkFront | data_extraction.py:295-298 | Walking a queue `q + r` first emits the kept entries of `q`. It then continues with `r` followed by the listings of `q`'s directories. |
| Classifier.WalkIsLevelOrder | data_extraction.py:294-301 | The queue-driven walk yields exactly level-by-level (breadth-first) order. |
| Classifier.LevelOrderCount | data_extraction.py:291-302 | Completeness and soundness: at any depth, each entry appears in the classified list as many times as in the whole tree when it is a matching file, and never otherwise. |
| Classifier.LevelOrderMembers | data_extraction.py:291-302 | An entry is classified iff it lies in the tree, is not a directory, and its path ends with one of the suffixes. So directories are never included. |
| TimeWindow.Window | data_extraction.py:304-305 | Every item of the view lies in the list, was created at or after `before` and closed at or before `after`. |
| TimeWindow.WindowCount | data_extraction.py:135 | Every in-range item is kept, as often as it occurs. Out-of-range items are dropped. |
| TimeWindow.WindowAppend | data_extraction.py:142 | The view keeps the list's order: the view of a concatenation is the concatenation of the views. |
| TimeWindow.GetValuesInRange | data_extraction.py:304-305 | An item in range was created no earlier than `before` and closed no later than `after`. So its time to close is at most `after - before`. |
| TimeWindow.GetTimeTaken | data_extraction.py:307-311 | The time taken, added to the opening instant, gives the closing instant. It is non-negative iff the item closed no earlier than it opened. |
| Platform.Remote.GetRepo | data_extraction.py:98 | The stand-in for `get_repo`: for a known name it returns a repository of the listing with that name. |
| Platform.Remote.GetRepoOfListed | data_extraction.py:98 | With unique names, looking a listed repository up by its name returns that very repository. |
| Platform.CommitsBetween | data_extraction.py:265 | The stand-in for `get_commits(since=..., until=...)`: a commit is listed iff it is one of the repository's commits and dated within `[since, until]`. |
| Platform.CommitsBetweenCount | data_extraction.py:265 | Each in-range commit is listed as often as it occurs, and no other commit is listed. |
| Platform.CommitsBetweenAppend | data_extraction.py:265 | The range listing keeps the commits' order: the listing of a concatenation is the concatenation of the listings. |

## Findings

| source | as written | input that shows it | evidently intended | confidence | as-written member | corrected member |
|---|---|---|---|---|---|---|
| data_extraction.py:182-217 | For UNTYPED, JAVA, C and CPP, the hit test passes the cached list (`self.java_files[repo]` etc.) to `is_cache_expired` instead of its timestamp, with the condition inverted. | Two calls `get_java_files("r")` for the same repository. The second compares a list with a `datetime` and raises `TypeError`, whatever the time. | The test of the PY, JS and TYPED branches: the repository is cached and its timestamp has not expired. A second call within a day would return the cached list. | high, from reading; not executed | DataExtraction.SecondFileLookup | TtlCache.SecondLookup |

The model keeps the code's behaviour. `DataExtraction.HitTest` models the
defective branches, and `GetFilesByLanguage` and its four wrappers return
`Err(ListComparedWithTimestamp)` for them. The intended rule is
`TtlCache.Get`. The PY, JS and TYPED branches use it, as do the
single-repository getters for issues, pull requests and commits, and the
walks of `GetIssues` and `GetPullRequests` through `RefreshAll`.
`TtlCache.SecondLookup` proves its within-a-day behaviour.

## Left out

- Remote calls (`get_repos`, `get_repo`, `get_issues`, `get_pulls`, `get_commits`, `get_contents`) are replaced by the given data of `Platform.Remote`. Pagination, authentication, rate limits and network failures are not modelled.
- Names the platform does not know are not modelled. Every method that calls `get_repo` requires `scope.Known(repo)`, because the platform client raises for an unknown name.
- A failure partway through `populate_cache_with_file_content` is not modelled. In Python the slot is emptied before the platform is called, which would leave a slot without a timestamp.
- `populate_cache_with_file_content` mutates and returns the very dictionary the caller passes, and the caller reassigns the field to it. The model returns the updated map and the caller assigns it. With no failure path the two are the same.
- `datetime.now(timezone.utc)` and time zones are replaced by the integer parameter `now`. `timedelta(days=1)` becomes 86400 seconds.
- Clock reads during a call are not modelled. One `now` serves a whole call. Python reads the clock at every expiry test and at every stamp (lines 83-87 and 122-126). So during one walk of `get_issues` or `get_pull_requests`, each repository is tested and stamped at its own instant. In the model they all share one instant.
- Aliasing of returned objects is not modelled. Python returns the live cached objects: `get_issues` and `get_pull_requests` return `self.issues` and `self.prs` themselves (lines 89 and 128), and the other getters return the cached list object. A caller that mutates a returned object changes the cache. The model returns values, so no caller can change the cache.
- The insertion order of the returned dictionaries is not modelled. The model returns a Dafny `map`, which has no order.
- The `since`/`until` filtering of `get_commits` is the platform's. `Platform.CommitsBetween` takes it as inclusive on both ends, in listing order.
- The platform keeps repository names unique within one owner. `Platform.Remote` does not enforce this. `Platform.Remote.UniqueNames` states it, and the lemmas relating the walks to the single-repository getters assume it.
- Platform.Entry: every non-directory entry (file, link, submodule) is a `File`. Path strings are not checked against the tree's structure.
- `data_processing.py` is not part of this model. Its metrics depend on the wall clock, calendar-month arithmetic and floating-point rounding, or are unimplemented stubs, and its entry point builds a network client.
- The `Content` enumeration of `utils.py` is not used by the modelled code.
