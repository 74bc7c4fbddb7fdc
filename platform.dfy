/**
 * The hosted platform as the scope cache sees it: fixed, immutable data.
 * Repositories, their closed issues and pull requests, their commits and
 * their file trees are given values; network access, pagination and
 * authentication belong to the platform client and are not modelled.
 * Every instant is an integer number of seconds.
 */
module Platform {

  /** A closed issue or a closed pull request: only its two instants matter here. */
  datatype ClosedItem = ClosedItem(title: string, createdAt: int, closedAt: int)

  datatype Commit = Commit(sha: string, date: int)

  /**
   * One entry of a repository's directory listing. A `Dir` carries the
   * listing the client returns for its path; everything that is not a
   * directory (files, links, submodules) is a `File`.
   */
  datatype Entry = File(path: string) | Dir(path: string, children: seq<Entry>)

  datatype Repository = Repository(
    name: string,
    issues: seq<ClosedItem>,   // the closed issues
    pulls: seq<ClosedItem>,    // the closed pull requests
    commits: seq<Commit>,      // the commits to the default branch
    root: seq<Entry>)          // the listing of the root directory

  /** The user, organisation or team a scope wraps, with its repository listing. */
  datatype Remote = Remote(listing: seq<Repository>) {

    predicate Known(name: string) {
      exists i :: 0 <= i < |listing| && listing[i].name == name
    }

    /** The client's lookup of one repository by name. */
    function GetRepo(name: string): (r: Repository)
      requires Known(name)
      ensures r.name == name && r in listing
    {
      FirstNamed(listing, name)
    }

    /** No two repositories of the listing share a name, as on the platform. */
    predicate UniqueNames() {
      forall i, j :: 0 <= i < j < |listing| ==> listing[i].name != listing[j].name
    }

    /** With unique names, looking a listed repository up by its name gives that very repository. */
    lemma GetRepoOfListed(i: int)
      requires UniqueNames() && 0 <= i < |listing|
      ensures Known(listing[i].name) && GetRepo(listing[i].name) == listing[i]
    {
      FirstNamedUnique(listing, i);
    }
  }

  function FirstNamed(rs: seq<Repository>, name: string): (r: Repository)
    requires exists i :: 0 <= i < |rs| && rs[i].name == name
    ensures r.name == name && r in rs
  {
    if rs[0].name == name then rs[0]
    else
      assert exists i :: 0 <= i < |rs[1..]| && rs[1..][i].name == name by {
        var i :| 1 <= i < |rs| && rs[i].name == name;
        assert rs[1..][i - 1] == rs[i];
      }
      FirstNamed(rs[1..], name)
  }

  lemma {:induction false} FirstNamedUnique(rs: seq<Repository>, i: int)
    requires 0 <= i < |rs|
    requires forall a, b :: 0 <= a < b < |rs| ==> rs[a].name != rs[b].name
    ensures exists j :: 0 <= j < |rs| && rs[j].name == rs[i].name
    ensures FirstNamed(rs, rs[i].name) == rs[i]
    decreases i
  {
    assert rs[i].name == rs[i].name;
    if i > 0 {
      assert rs[0].name != rs[i].name;
      assert rs[1..][i - 1] == rs[i];
      forall a, b | 0 <= a < b < |rs[1..]| ensures rs[1..][a].name != rs[1..][b].name {
        assert rs[1..][a] == rs[a + 1] && rs[1..][b] == rs[b + 1];
      }
      FirstNamedUnique(rs[1..], i - 1);
    }
  }

  /**
   * The client's commit listing bounded by a time range: the commits whose
   * date lies between `since` and `until`, both inclusive, in listing order.
   */
  function CommitsBetween(commits: seq<Commit>, since: int, until: int): (r: seq<Commit>)
    ensures forall c :: c in r <==> c in commits && since <= c.date <= until
  {
    if commits == [] then []
    else
      var rest := CommitsBetween(commits[1..], since, until);
      assert forall c :: c in commits <==> c == commits[0] || c in commits[1..];
      if since <= commits[0].date <= until then [commits[0]] + rest else rest
  }

  /** Every commit in the range is listed as often as it occurs; others are not listed. */
  lemma {:induction false} CommitsBetweenCount(commits: seq<Commit>, since: int, until: int, c: Commit)
    ensures multiset(CommitsBetween(commits, since, until))[c]
            == if since <= c.date <= until then multiset(commits)[c] else 0
  {
    if commits != [] {
      assert commits == [commits[0]] + commits[1..];
      CommitsBetweenCount(commits[1..], since, until, c);
    }
  }

  /** The range listing keeps the commits' order: it distributes over concatenation. */
  lemma {:induction false} CommitsBetweenAppend(a: seq<Commit>, b: seq<Commit>, since: int, until: int)
    ensures CommitsBetween(a + b, since, until) == CommitsBetween(a, since, until) + CommitsBetween(b, since, until)
  {
    if a == [] {
      assert a + b == b;
    } else {
      assert (a + b)[0] == a[0] && (a + b)[1..] == a[1..] + b;
      CommitsBetweenAppend(a[1..], b, since, until);
    }
  }
}
