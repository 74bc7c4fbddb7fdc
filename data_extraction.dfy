/**
 * The scope cache: a wrapper around one user, organisation or team on the
 * platform that caches, per repository, the closed issues, the closed pull
 * requests, the commits and seven classified file lists, each beside the
 * instant it was stored, and refetches an entry in full once it is older
 * than one day. The clock is the explicit parameter `now` of each method.
 */
module DataExtraction {
  import opened Platform
  import opened TtlCache
  import opened Classifier
  import opened TimeWindow

  /** The language tags a caller passes to the file getters. */
  datatype Language = PY | JS | JAVA | C | CPP | TYPED | UNTYPED

  /**
   * The argument of the file getter: `get_files_by_language` checks at run
   * time that it is a member of the enumeration, so a value of any other
   * type is possible.
   */
  datatype LanguageArg = Member(lang: Language) | Other

  datatype Error =
    | NotALanguage               // the explicit TypeError for an argument that is not a Language
    | ListComparedWithTimestamp  // the TypeError of comparing a cached list with an instant

  datatype Result<T> = Ok(value: T) | Err(error: Error)

  const JS_EXTENSIONS: seq<string> := [".js", ".jsx", ".ts", ".tsx"]
  // A parenthesised single string: `endswith` tests it as one plain suffix.
  const PY_EXTENSIONS: seq<string> := [".py"]
  const JAVA_EXTENSIONS: seq<string> := [".java"]
  const C_EXTENSIONS: seq<string> := [".c"]
  const CPP_EXTENSIONS: seq<string> := [".cpp", ".c++"]
  const TYPED_EXTENSIONS: seq<string> := [
    ".java", ".ts", ".tsx", ".c", ".cs", ".cpp", ".c++", ".cc", ".cp", ".cxx",
    ".h", ".h++", ".hh", ".hpp", ".hxx", ".inc", ".inl", ".ipp", ".tcc", ".tpp"]
  const UNTYPED_EXTENSIONS: seq<string> := [".js", ".jsx", ".py", ".rb", ".ruby", ".perl"]

  /** The suffix group of a language tag; a tag never has an empty group. */
  function Extensions(lang: Language): (r: seq<string>)
    ensures r != []
  {
    match lang
    case PY => PY_EXTENSIONS
    case JS => JS_EXTENSIONS
    case JAVA => JAVA_EXTENSIONS
    case C => C_EXTENSIONS
    case CPP => CPP_EXTENSIONS
    case TYPED => TYPED_EXTENSIONS
    case UNTYPED => UNTYPED_EXTENSIONS
  }

  /**
   * The Java, C and C++ suffixes are all typed suffixes, and the Python
   * suffix is an untyped one.
   */
  lemma SubGroups(lang: Language)
    ensures (lang == JAVA || lang == C || lang == CPP) ==> forall x :: x in Extensions(lang) ==> x in Extensions(TYPED)
    ensures lang == PY ==> forall x :: x in Extensions(lang) ==> x in Extensions(UNTYPED)
  {
  }

  /**
   * Whatever the Java, C or C++ getter classifies in a tree, the typed getter
   * classifies too; whatever the Python getter classifies, the untyped one does.
   */
  lemma ClassifiedWithinGroup(q: seq<Entry>, lang: Language, x: Entry)
    requires lang == JAVA || lang == C || lang == CPP || lang == PY
    ensures x in LevelOrder(q, Extensions(lang)) ==>
              x in LevelOrder(q, Extensions(if lang == PY then UNTYPED else TYPED))
  {
    var wider := if lang == PY then UNTYPED else TYPED;
    LevelOrderMembers(q, Extensions(lang), x);
    LevelOrderMembers(q, Extensions(wider), x);
    SubGroups(lang);
  }

  /** The four branches whose hit test passes the cached list, not its timestamp, to the expiry check. */
  predicate Defective(lang: Language) {
    lang == UNTYPED || lang == JAVA || lang == C || lang == CPP
  }

  /**
   * The file getter's hit test as written. For PY, JS and TYPED it is the
   * freshness rule; for the defective branches a cached entry makes the
   * expiry check compare a list with an instant, which raises, and a
   * missing one short-circuits to a miss.
   */
  function HitTest(lang: Language, c: Cache<Entry>, key: string, now: int): (r: Result<bool>)
    requires key in c.entries ==> key in c.stamps
    ensures r.Err? <==> Defective(lang) && key in c.entries
    ensures r.Ok? && r.value ==> key in c.entries
  {
    if !Defective(lang) then Ok(c.FreshAt(key, now))
    else if key in c.entries then Err(ListComparedWithTimestamp)
    else Ok(false)
  }

  /** One call of the file getter for `lang`, given the list the classifier would produce. */
  function FileLookup(lang: Language, c: Cache<Entry>, key: string, now: int, classified: seq<Entry>): (r: Result<Lookup<Entry>>)
    requires key in c.entries ==> key in c.stamps
    ensures !Defective(lang) ==> r == Ok(Get(c, key, now, classified))
    ensures Defective(lang) ==> r == if key in c.entries then Err(ListComparedWithTimestamp) else Ok(Get(c, key, now, classified))
  {
    match HitTest(lang, c, key, now)
    case Err(e) => Err(e)
    case Ok(hit) =>
      if hit then Ok(Lookup(c, c.entries[key]))
      else Ok(Lookup(Cache(c.entries[key := classified], c.stamps[key := now]), classified))
  }

  /**
   * For PY, JS and TYPED a second call within one day of a call that
   * classified the repository returns the same list and changes nothing;
   * for UNTYPED, JAVA, C and CPP every second call fails, at any time.
   */
  lemma SecondFileLookup(lang: Language, c: Cache<Entry>, key: string, t0: int, f0: seq<Entry>, t1: int, f1: seq<Entry>)
    requires key !in c.entries && c.Stamped()
    ensures FileLookup(lang, c, key, t0, f0).Ok?
    ensures var first := FileLookup(lang, c, key, t0, f0).value;
            var second := FileLookup(lang, first.cache, key, t1, f1);
            (!Defective(lang) && t1 <= t0 + TTL ==> second == Ok(Lookup(first.cache, f0)))
            && (Defective(lang) <==> second == Err(ListComparedWithTimestamp))
  {
    SecondLookup(c, key, t0, f0, t1, f1);
  }

  /** True when the repository list must be fetched: it is empty, or stale. */
  predicate RepositoriesStale(repos: seq<Repository>, stamp: Option<int>, now: int)
    requires repos != [] ==> stamp.Some?
  {
    repos == [] || IsCacheExpired(stamp.value, now)
  }

  datatype Option<T> = None | Some(value: T)

  function Names(rs: seq<Repository>): seq<string>
  {
    seq(|rs|, i requires 0 <= i < |rs| => rs[i].name)
  }

  function IssueLists(rs: seq<Repository>): seq<seq<ClosedItem>>
  {
    seq(|rs|, i requires 0 <= i < |rs| => rs[i].issues)
  }

  function PullLists(rs: seq<Repository>): seq<seq<ClosedItem>>
  {
    seq(|rs|, i requires 0 <= i < |rs| => rs[i].pulls)
  }

  /**
   * A walk over a repository list leaves every repository of the list with
   * a cached entry and a timestamp.
   */
  lemma ListedRepositoriesCached<T>(c: Cache<T>, rs: seq<Repository>, lists: seq<seq<T>>, now: int)
    requires |lists| == |rs| && c.Stamped()
    ensures var after := RefreshAll(c, Names(rs), lists, now);
            forall rp :: rp in rs ==> rp.name in after.entries && rp.name in after.stamps
  {
    RefreshAllDomain(c, Names(rs), lists, now);
    forall rp | rp in rs
      ensures rp.name in Names(rs)
    {
      var j :| 0 <= j < |rs| && rs[j] == rp;
      assert Names(rs)[j] == rp.name;
    }
  }

  /**
   * Every language tag has a file cache and a timestamp map, and every
   * repository cached for a tag has a timestamp for that tag.
   */
  ghost predicate FilesStamped(files: map<Language, map<string, seq<Entry>>>, stamps: map<Language, map<string, int>>) {
    forall l :: l in files && l in stamps && files[l].Keys <= stamps[l].Keys
  }

  /** Replacing one tag's cache by a stamped cache keeps every tag stamped. */
  lemma FilesStampedUpdate(files: map<Language, map<string, seq<Entry>>>, stamps: map<Language, map<string, int>>,
                           lang: Language, c: Cache<Entry>)
    requires FilesStamped(files, stamps) && c.Stamped()
    ensures FilesStamped(files[lang := c.entries], stamps[lang := c.stamps])
  {
  }

  /** Unique listing names are distinct keys for a walk. */
  lemma UniqueNamesDistinct(remote: Remote)
    requires remote.UniqueNames()
    ensures Distinct(Names(remote.listing))
  {
    var rs := remote.listing;
    forall a, b | 0 <= a < b < |rs| ensures Names(rs)[a] != Names(rs)[b] {
      assert Names(rs)[a] == rs[a].name && Names(rs)[b] == rs[b].name;
    }
  }

  /**
   * With unique repository names, the walk of `get_issues` over the whole
   * listing leaves each repository's issues, and their timestamp, exactly
   * as `get_issues_from_repo` on the starting cache would.
   */
  lemma IssuesWalkMatchesSingle(c: Cache<ClosedItem>, remote: Remote, i: int, now: int)
    requires c.Stamped() && remote.UniqueNames() && 0 <= i < |remote.listing|
    ensures remote.Known(remote.listing[i].name)
    ensures var name := remote.listing[i].name;
            var all := RefreshAll(c, Names(remote.listing), IssueLists(remote.listing), now);
            var single := Get(c, name, now, remote.GetRepo(name).issues);
            && name in all.entries && name in all.stamps
            && all.entries[name] == single.value
            && all.stamps[name] == single.cache.stamps[name]
  {
    var rs := remote.listing;
    remote.GetRepoOfListed(i);
    UniqueNamesDistinct(remote);
    RefreshAllPerKey(c, Names(rs), IssueLists(rs), now, i);
    assert Names(rs)[i] == rs[i].name && IssueLists(rs)[i] == rs[i].issues;
  }

  /** The same agreement for the walk of `get_pull_requests` and `get_prs_from_repo`. */
  lemma PullsWalkMatchesSingle(c: Cache<ClosedItem>, remote: Remote, i: int, now: int)
    requires c.Stamped() && remote.UniqueNames() && 0 <= i < |remote.listing|
    ensures remote.Known(remote.listing[i].name)
    ensures var name := remote.listing[i].name;
            var all := RefreshAll(c, Names(remote.listing), PullLists(remote.listing), now);
            var single := Get(c, name, now, remote.GetRepo(name).pulls);
            && name in all.entries && name in all.stamps
            && all.entries[name] == single.value
            && all.stamps[name] == single.cache.stamps[name]
  {
    var rs := remote.listing;
    remote.GetRepoOfListed(i);
    UniqueNamesDistinct(remote);
    RefreshAllPerKey(c, Names(rs), PullLists(rs), now, i);
    assert Names(rs)[i] == rs[i].name && PullLists(rs)[i] == rs[i].pulls;
  }

  class Scope {
    /** The platform entity this scope wraps. */
    const scope: Remote

    var repos: seq<Repository>
    var reposLastUpdated: Option<int>
    var issues: map<string, seq<ClosedItem>>
    var issuesLastUpdated: map<string, int>
    var prs: map<string, seq<ClosedItem>>
    var prsLastUpdated: map<string, int>
    var commits: map<string, seq<Commit>>
    var commitsLastUpdated: map<string, int>
    /** The seven per-language file caches, one per tag. */
    var files: map<Language, map<string, seq<Entry>>>
    var filesLastUpdated: map<Language, map<string, int>>

    /**
     * The invariant every getter keeps: a timestamp exists for the
     * repository list once it is non-empty, and for every cached key.
     */
    ghost predicate Valid()
      reads this
    {
      && (repos != [] ==> reposLastUpdated.Some?)
      && IssuesCache().Stamped()
      && PrsCache().Stamped()
      && CommitsCache().Stamped()
      && FilesStamped(files, filesLastUpdated)
    }

    ghost function IssuesCache(): Cache<ClosedItem> reads this {
      Cache(issues, issuesLastUpdated)
    }

    ghost function PrsCache(): Cache<ClosedItem> reads this {
      Cache(prs, prsLastUpdated)
    }

    ghost function CommitsCache(): Cache<Commit> reads this {
      Cache(commits, commitsLastUpdated)
    }

    ghost function FilesCache(lang: Language): Cache<Entry>
      reads this
      requires lang in files && lang in filesLastUpdated
    {
      Cache(files[lang], filesLastUpdated[lang])
    }

    /** The list the classifier produces for `repo` and `lang`. */
    ghost function Classified(repo: string, lang: Language): seq<Entry>
      requires scope.Known(repo)
    {
      LevelOrder(scope.GetRepo(repo).root, Extensions(lang))
    }

    constructor (scope: Remote)
      ensures Valid() && this.scope == scope
      ensures repos == [] && reposLastUpdated == None
      ensures issues == map[] && prs == map[] && commits == map[]
      ensures issuesLastUpdated == map[] && prsLastUpdated == map[] && commitsLastUpdated == map[]
      ensures forall l :: files[l] == map[] && filesLastUpdated[l] == map[]
    {
      this.scope := scope;
      repos := [];
      reposLastUpdated := None;
      issues, issuesLastUpdated := map[], map[];
      prs, prsLastUpdated := map[], map[];
      commits, commitsLastUpdated := map[], map[];
      files := map[PY := map[], JS := map[], JAVA := map[], C := map[], CPP := map[], TYPED := map[], UNTYPED := map[]];
      filesLastUpdated := map[PY := map[], JS := map[], JAVA := map[], C := map[], CPP := map[], TYPED := map[], UNTYPED := map[]];
      new;
      forall l: Language ensures l in files && l in filesLastUpdated {
        assert l == PY || l == JS || l == JAVA || l == C || l == CPP || l == TYPED || l == UNTYPED;
      }
    }

    /**
     * All repositories of the scope. An empty list is never served from
     * the cache; the timestamp is read only when the list is non-empty.
     */
    method GetRepositories(now: int) returns (r: seq<Repository>)
      requires Valid()
      modifies this`repos, this`reposLastUpdated
      ensures Valid() && r == repos
      ensures old(RepositoriesStale(repos, reposLastUpdated, now)) ==>
                repos == scope.listing && reposLastUpdated == Some(now)
      ensures !old(RepositoriesStale(repos, reposLastUpdated, now)) ==>
                repos == old(repos) && reposLastUpdated == old(reposLastUpdated)
    {
      if repos == [] || IsCacheExpired(reposLastUpdated.value, now) {
        repos := scope.listing;
        reposLastUpdated := Some(now);
      }
      r := repos;
    }

    /**
     * The closed issues of every repository of the scope: each repository
     * of the list is looked up in turn, with its own issues as the answer.
     */
    method GetIssues(now: int) returns (r: map<string, seq<ClosedItem>>)
      requires Valid()
      modifies this`repos, this`reposLastUpdated, this`issues, this`issuesLastUpdated
      ensures Valid() && r == issues
      ensures old(RepositoriesStale(repos, reposLastUpdated, now)) ==>
                repos == scope.listing && reposLastUpdated == Some(now)
      ensures !old(RepositoriesStale(repos, reposLastUpdated, now)) ==>
                repos == old(repos) && reposLastUpdated == old(reposLastUpdated)
      ensures IssuesCache() == RefreshAll(old(IssuesCache()), Names(repos), IssueLists(repos), now)
    {
      var rs := GetRepositories(now);
      WalkIssues(rs, now);
      r := issues;
    }

    /** The loop of the getter above: each repository of `rs` is looked up in turn. */
    method WalkIssues(rs: seq<Repository>, now: int)
      requires IssuesCache().Stamped()
      modifies this`issues, this`issuesLastUpdated
      ensures IssuesCache() == RefreshAll(old(IssuesCache()), Names(rs), IssueLists(rs), now)
    {
      ghost var keys, lists, start := Names(rs), IssueLists(rs), IssuesCache();
      var i := 0;
      while i < |rs|
        modifies this`issues, this`issuesLastUpdated
        invariant 0 <= i <= |rs| && |keys| == |lists| == |rs|
        invariant Cache(issues, issuesLastUpdated) == RefreshAll(start, keys[..i], lists[..i], now)
      {
        var repo := rs[i];
        RefreshAllNext(start, keys, lists, now, i, issues, issuesLastUpdated);
        assert keys[i] == repo.name && lists[i] == repo.issues;
        if repo.name !in issues || IsCacheExpired(issuesLastUpdated[repo.name], now) {
          issues := issues[repo.name := repo.issues];
          issuesLastUpdated := issuesLastUpdated[repo.name := now];
        }
        i := i + 1;
      }
      assert keys[..i] == keys && lists[..i] == lists;
    }

    /** The closed issues of one repository, through the cache. */
    method GetIssuesFromRepo(repo: string, now: int) returns (r: seq<ClosedItem>)
      requires Valid() && scope.Known(repo)
      modifies this`issues, this`issuesLastUpdated
      ensures Valid()
      ensures Lookup(IssuesCache(), r) == Get(old(IssuesCache()), repo, now, scope.GetRepo(repo).issues)
    {
      if repo !in issues || IsCacheExpired(issuesLastUpdated[repo], now) {
        var repository := scope.GetRepo(repo);
        var fetched := repository.issues;
        issues := issues[repo := fetched];
        issuesLastUpdated := issuesLastUpdated[repo := now];
      }
      r := issues[repo];
    }

    /** The closed pull requests of one repository, through the cache. */
    method GetPrsFromRepo(repo: string, now: int) returns (r: seq<ClosedItem>)
      requires Valid() && scope.Known(repo)
      modifies this`prs, this`prsLastUpdated
      ensures Valid()
      ensures Lookup(PrsCache(), r) == Get(old(PrsCache()), repo, now, scope.GetRepo(repo).pulls)
    {
      if repo !in prs || IsCacheExpired(prsLastUpdated[repo], now) {
        var repository := scope.GetRepo(repo);
        var fetched := repository.pulls;
        prs := prs[repo := fetched];
        prsLastUpdated := prsLastUpdated[repo := now];
      }
      r := prs[repo];
    }

    /**
     * The closed pull requests of every repository of the scope: each
     * repository of the list is looked up in turn, with its own pull
     * requests as the answer.
     */
    method GetPullRequests(now: int) returns (r: map<string, seq<ClosedItem>>)
      requires Valid()
      modifies this`repos, this`reposLastUpdated, this`prs, this`prsLastUpdated
      ensures Valid() && r == prs
      ensures old(RepositoriesStale(repos, reposLastUpdated, now)) ==>
                repos == scope.listing && reposLastUpdated == Some(now)
      ensures !old(RepositoriesStale(repos, reposLastUpdated, now)) ==>
                repos == old(repos) && reposLastUpdated == old(reposLastUpdated)
      ensures PrsCache() == RefreshAll(old(PrsCache()), Names(repos), PullLists(repos), now)
    {
      var rs := GetRepositories(now);
      WalkPullRequests(rs, now);
      r := prs;
    }

    /** The loop of the getter above: each repository of `rs` is looked up in turn. */
    method WalkPullRequests(rs: seq<Repository>, now: int)
      requires PrsCache().Stamped()
      modifies this`prs, this`prsLastUpdated
      ensures PrsCache() == RefreshAll(old(PrsCache()), Names(rs), PullLists(rs), now)
    {
      ghost var keys, lists, start := Names(rs), PullLists(rs), PrsCache();
      var i := 0;
      while i < |rs|
        modifies this`prs, this`prsLastUpdated
        invariant 0 <= i <= |rs| && |keys| == |lists| == |rs|
        invariant Cache(prs, prsLastUpdated) == RefreshAll(start, keys[..i], lists[..i], now)
      {
        var repo := rs[i];
        RefreshAllNext(start, keys, lists, now, i, prs, prsLastUpdated);
        assert keys[i] == repo.name && lists[i] == repo.pulls;
        if repo.name !in prs || IsCacheExpired(prsLastUpdated[repo.name], now) {
          prs := prs[repo.name := repo.pulls];
          prsLastUpdated := prsLastUpdated[repo.name := now];
        }
        i := i + 1;
      }
      assert keys[..i] == keys && lists[..i] == lists;
    }

    /** The issues of one repository inside the window, after the cached lookup. */
    method GetIssuesByTime(repo: string, before: int, after: int, now: int) returns (r: seq<ClosedItem>)
      requires Valid() && scope.Known(repo)
      modifies this`issues, this`issuesLastUpdated
      ensures Valid()
      ensures var g := Get(old(IssuesCache()), repo, now, scope.GetRepo(repo).issues);
              IssuesCache() == g.cache && r == Window(g.value, before, after)
    {
      var all := GetIssuesFromRepo(repo, now);
      r := Window(all, before, after);
    }

    /** The pull requests of one repository inside the window, after the cached lookup. */
    method GetPrsByTime(repo: string, before: int, after: int, now: int) returns (r: seq<ClosedItem>)
      requires Valid() && scope.Known(repo)
      modifies this`prs, this`prsLastUpdated
      ensures Valid()
      ensures var g := Get(old(PrsCache()), repo, now, scope.GetRepo(repo).pulls);
              PrsCache() == g.cache && r == Window(g.value, before, after)
    {
      var all := GetPrsFromRepo(repo, now);
      r := Window(all, before, after);
    }

    /**
     * The files of one repository for a language tag. Only the cache of
     * that tag may change; anything but a member of the enumeration fails.
     */
    method GetFilesByLanguage(repo: string, language: LanguageArg, now: int) returns (r: Result<seq<Entry>>)
      requires Valid() && scope.Known(repo)
      modifies this`files, this`filesLastUpdated
      ensures Valid()
      ensures language.Other? ==> r == Err(NotALanguage)
      ensures language.Other? ==> files == old(files) && filesLastUpdated == old(filesLastUpdated)
      ensures language.Member? ==>
                var lang := language.lang;
                var out := FileLookup(lang, old(FilesCache(lang)), repo, now, Classified(repo, lang));
                && (out.Err? ==> r == Err(out.error) && files == old(files) && filesLastUpdated == old(filesLastUpdated))
                && (out.Ok? ==> r == Ok(out.value.value)
                                && files == old(files)[lang := out.value.cache.entries]
                                && filesLastUpdated == old(filesLastUpdated)[lang := out.value.cache.stamps])
    {
      match language
      case Other =>
        r := Err(NotALanguage);
      case Member(lang) =>
        var c := Cache(files[lang], filesLastUpdated[lang]);
        var hit := HitTest(lang, c, repo, now);
        if hit.Err? {
          r := Err(hit.error);
        } else if hit.value {
          r := Ok(c.entries[repo]);
          assert files == files[lang := c.entries];
          assert filesLastUpdated == filesLastUpdated[lang := c.stamps];
        } else {
          var cache := PopulateCacheWithFileContent(repo, Extensions(lang), c.entries);
          var next := Cache(cache, c.stamps[repo := now]);
          assert cache == c.entries[repo := Classified(repo, lang)];
          FilesStampedUpdate(files, filesLastUpdated, lang, next);
          files := files[lang := next.entries];
          filesLastUpdated := filesLastUpdated[lang := next.stamps];
          r := Ok(cache[repo]);
        }
    }

    method GetPythonFiles(repo: string, now: int) returns (r: Result<seq<Entry>>)
      requires Valid() && scope.Known(repo)
      modifies this`files, this`filesLastUpdated
      ensures Valid()
      ensures var out := FileLookup(PY, old(FilesCache(PY)), repo, now, Classified(repo, PY));
              out.Ok? && r == Ok(out.value.value)
              && files == old(files)[PY := out.value.cache.entries]
              && filesLastUpdated == old(filesLastUpdated)[PY := out.value.cache.stamps]
    {
      r := GetFilesByLanguage(repo, Member(PY), now);
    }

    method GetJavascriptFiles(repo: string, now: int) returns (r: Result<seq<Entry>>)
      requires Valid() && scope.Known(repo)
      modifies this`files, this`filesLastUpdated
      ensures Valid()
      ensures var out := FileLookup(JS, old(FilesCache(JS)), repo, now, Classified(repo, JS));
              out.Ok? && r == Ok(out.value.value)
              && files == old(files)[JS := out.value.cache.entries]
              && filesLastUpdated == old(filesLastUpdated)[JS := out.value.cache.stamps]
    {
      r := GetFilesByLanguage(repo, Member(JS), now);
    }

    method GetTypedFiles(repo: string, now: int) returns (r: Result<seq<Entry>>)
      requires Valid() && scope.Known(repo)
      modifies this`files, this`filesLastUpdated
      ensures Valid()
      ensures var out := FileLookup(TYPED, old(FilesCache(TYPED)), repo, now, Classified(repo, TYPED));
              out.Ok? && r == Ok(out.value.value)
              && files == old(files)[TYPED := out.value.cache.entries]
              && filesLastUpdated == old(filesLastUpdated)[TYPED := out.value.cache.stamps]
    {
      r := GetFilesByLanguage(repo, Member(TYPED), now);
    }

    /** The defective branches: a call for a repository already cached fails and changes nothing. */
    method GetJavaFiles(repo: string, now: int) returns (r: Result<seq<Entry>>)
      requires Valid() && scope.Known(repo)
      modifies this`files, this`filesLastUpdated
      ensures Valid()
      ensures repo in old(files[JAVA]) ==>
                r == Err(ListComparedWithTimestamp)
                && files == old(files) && filesLastUpdated == old(filesLastUpdated)
      ensures repo !in old(files[JAVA]) ==>
                r == Ok(Classified(repo, JAVA))
                && files == old(files)[JAVA := old(files[JAVA])[repo := Classified(repo, JAVA)]]
                && filesLastUpdated == old(filesLastUpdated)[JAVA := old(filesLastUpdated[JAVA])[repo := now]]
    {
      r := GetFilesByLanguage(repo, Member(JAVA), now);
    }

    method GetCFiles(repo: string, now: int) returns (r: Result<seq<Entry>>)
      requires Valid() && scope.Known(repo)
      modifies this`files, this`filesLastUpdated
      ensures Valid()
      ensures repo in old(files[C]) ==>
                r == Err(ListComparedWithTimestamp)
                && files == old(files) && filesLastUpdated == old(filesLastUpdated)
      ensures repo !in old(files[C]) ==>
                r == Ok(Classified(repo, C))
                && files == old(files)[C := old(files[C])[repo := Classified(repo, C)]]
                && filesLastUpdated == old(filesLastUpdated)[C := old(filesLastUpdated[C])[repo := now]]
    {
      r := GetFilesByLanguage(repo, Member(C), now);
    }

    method GetCppFiles(repo: string, now: int) returns (r: Result<seq<Entry>>)
      requires Valid() && scope.Known(repo)
      modifies this`files, this`filesLastUpdated
      ensures Valid()
      ensures repo in old(files[CPP]) ==>
                r == Err(ListComparedWithTimestamp)
                && files == old(files) && filesLastUpdated == old(filesLastUpdated)
      ensures repo !in old(files[CPP]) ==>
                r == Ok(Classified(repo, CPP))
                && files == old(files)[CPP := old(files[CPP])[repo := Classified(repo, CPP)]]
                && filesLastUpdated == old(filesLastUpdated)[CPP := old(filesLastUpdated[CPP])[repo := now]]
    {
      r := GetFilesByLanguage(repo, Member(CPP), now);
    }

    method GetUntypedFiles(repo: string, now: int) returns (r: Result<seq<Entry>>)
      requires Valid() && scope.Known(repo)
      modifies this`files, this`filesLastUpdated
      ensures Valid()
      ensures repo in old(files[UNTYPED]) ==>
                r == Err(ListComparedWithTimestamp)
                && files == old(files) && filesLastUpdated == old(filesLastUpdated)
      ensures repo !in old(files[UNTYPED]) ==>
                r == Ok(Classified(repo, UNTYPED))
                && files == old(files)[UNTYPED := old(files[UNTYPED])[repo := Classified(repo, UNTYPED)]]
                && filesLastUpdated == old(filesLastUpdated)[UNTYPED := old(filesLastUpdated[UNTYPED])[repo := now]]
    {
      r := GetFilesByLanguage(repo, Member(UNTYPED), now);
    }

    /**
     * The commits of one repository between two instants, straight from the
     * platform: no cache is read or written.
     */
    method GetCommitsByTime(repo: string, since: int, until: int) returns (r: seq<Commit>)
      requires scope.Known(repo)
      ensures forall c :: c in r <==> c in scope.GetRepo(repo).commits && since <= c.date <= until
      ensures r == CommitsBetween(scope.GetRepo(repo).commits, since, until)
    {
      var repository := scope.GetRepo(repo);
      r := CommitsBetween(repository.commits, since, until);
    }

    /** All commits of one repository, through the cache. */
    method GetAllCommitsInRepo(repo: string, now: int) returns (r: seq<Commit>)
      requires Valid() && scope.Known(repo)
      modifies this`commits, this`commitsLastUpdated
      ensures Valid()
      ensures Lookup(CommitsCache(), r) == Get(old(CommitsCache()), repo, now, scope.GetRepo(repo).commits)
    {
      if repo !in commits || IsCacheExpired(commitsLastUpdated[repo], now) {
        var repository := scope.GetRepo(repo);
        commits := commits[repo := repository.commits];
        commitsLastUpdated := commitsLastUpdated[repo := now];
      }
      r := commits[repo];
    }

    /**
     * Walks the repository's tree breadth-first with a queue and stores,
     * under `repo`, the non-directory entries whose path ends with one of
     * `fileExtensions`, discarding what was stored there before.
     */
    method PopulateCacheWithFileContent(repo: string, fileExtensions: seq<string>, cache: map<string, seq<Entry>>)
      returns (result: map<string, seq<Entry>>)
      requires scope.Known(repo)
      ensures result.Keys == cache.Keys + {repo}
      ensures forall k :: k in cache && k != repo ==> result[k] == cache[k]
      ensures result[repo] == LevelOrder(scope.GetRepo(repo).root, fileExtensions)
    {
      result := cache[repo := []];
      var repository := scope.GetRepo(repo);
      var contents := repository.root;
      while contents != []
        invariant result.Keys == cache.Keys + {repo}
        invariant forall k :: k in cache && k != repo ==> result[k] == cache[k]
        invariant result[repo] + Walk(contents, fileExtensions) == Walk(repository.root, fileExtensions)
        decreases Size(contents)
      {
        var fileContent := contents[0];
        SizeAppend(contents[1..], if fileContent.Dir? then fileContent.children else []);
        contents := contents[1..];
        if fileContent.Dir? {
          contents := contents + fileContent.children;
        } else if EndsWithAny(fileContent.path, fileExtensions) {
          result := result[repo := result[repo] + [fileContent]];
        }
      }
      WalkIsLevelOrder(repository.root, fileExtensions);
    }
  }
}
