/**
 * The server endpoint of server/api/github-repo.get.ts: it validates the
 * `repo` query parameter, reduces a GitHub URL to `owner/name`, asks the
 * GitHub API for that repository and answers with four of its fields, or
 * passes an upstream error status on.
 */
module GithubRepo {
  import opened Wrappers
  import opened Strings

  /** A query parameter as the server framework reads it: absent, one string, or repeated. */
  datatype QueryValue = Absent | Single(s: string) | Repeated(values: seq<string>)

  /** A JSON value of the upstream record; nested arrays and objects are not inspected. */
  datatype Json = JNull | JBool(b: bool) | JNumber(n: int) | JString(s: string) | JComposite

  /** What the upstream request gives: the decoded record, or an error with the response's status and text if any. */
  datatype Upstream = Fetched(record: map<string, Json>) | UpstreamError(status: Option<int>, statusText: Option<string>)

  /** The fields sent back; a field the upstream record lacks is `undefined` (`None`). */
  datatype RepoSummary = RepoSummary(name: Option<Json>, description: Option<Json>, url: Option<Json>, stars: Option<Json>)

  datatype Reply = Ok(summary: RepoSummary) | HttpError(statusCode: int, statusMessage: string)

  const HttpsPrefix := "https://github.com/"
  const HttpPrefix := "http://github.com/"

  predicate HasPrefix(s: string, p: string) {
    |p| <= |s| && s[..|p|] == p
  }

  /** `repo.replace(/^https?:\/\/github\.com\//, '')`. */
  function StripGithubPrefix(repo: string): string {
    if HasPrefix(repo, HttpsPrefix) then repo[|HttpsPrefix|..]
    else if HasPrefix(repo, HttpPrefix) then repo[|HttpPrefix|..]
    else repo
  }

  /** `.replace(/\/$/, '')`. */
  function StripTrailingSlash(s: string): string {
    if |s| > 0 && s[|s| - 1] == '/' then s[..|s| - 1] else s
  }

  /** `r` is `repo` without its first `k` and its last `m` characters. */
  predicate CutFrom(repo: string, r: string, k: int, m: int) {
    0 <= k && 0 <= m && k + m <= |repo| && r == repo[k..|repo| - m]
  }

  /**
   * `cleanRepo`: the GitHub URL prefix, when present, and then one trailing
   * slash, when present, are removed; the text between is kept as it is.
   */
  function CleanRepo(repo: string): (r: string)
    ensures exists k, m :: (k == 0 || k == |HttpPrefix| || k == |HttpsPrefix|) && (m == 0 || m == 1) && CutFrom(repo, r, k, m)
    ensures !HasPrefix(repo, HttpsPrefix) && !HasPrefix(repo, HttpPrefix) && (repo == [] || repo[|repo| - 1] != '/') ==> r == repo
  {
    var p := StripGithubPrefix(repo);
    var k := |repo| - |p|;
    var m := if |p| > 0 && p[|p| - 1] == '/' then 1 else 0;
    assert CutFrom(repo, StripTrailingSlash(p), k, m);
    StripTrailingSlash(p)
  }

  lemma StripGithubPrefixOf(prefix: string, rest: string)
    requires prefix == HttpsPrefix || prefix == HttpPrefix
    ensures StripGithubPrefix(prefix + rest) == rest
  {
    assert (prefix + rest)[..|prefix|] == prefix;
    if prefix == HttpPrefix {
      assert (prefix + rest)[4] != HttpsPrefix[4];
    }
  }

  /** Exactly one trailing slash is removed, whatever precedes it; a text without one is kept. */
  lemma StripTrailingSlashOf(path: string)
    ensures StripTrailingSlash(path + "/") == path
    ensures path == [] || path[|path| - 1] != '/' ==> StripTrailingSlash(path) == path
  {
    assert (path + "/")[..|path + "/"| - 1] == path;
  }

  /**
   * A repository path, with or without the `https://` or `http://` GitHub
   * prefix, loses exactly one trailing slash, and one that does not end in
   * `/` is cleaned to itself.
   */
  lemma CleanRepoOfUrl(path: string)
    requires !HasPrefix(path + "/", HttpsPrefix) && !HasPrefix(path + "/", HttpPrefix)
    ensures CleanRepo(path + "/") == path
    ensures CleanRepo(HttpsPrefix + path + "/") == path && CleanRepo(HttpPrefix + path + "/") == path
    ensures path == [] || path[|path| - 1] != '/' ==>
      CleanRepo(path) == path && CleanRepo(HttpsPrefix + path) == path && CleanRepo(HttpPrefix + path) == path
  {
    StripTrailingSlashOf(path);
    NoPrefixBeforeSlash(path, HttpsPrefix);
    NoPrefixBeforeSlash(path, HttpPrefix);
    CleanRepoWithPrefix(HttpsPrefix, path);
    CleanRepoWithPrefix(HttpPrefix, path);
  }

  lemma NoPrefixBeforeSlash(path: string, prefix: string)
    requires !HasPrefix(path + "/", prefix)
    ensures !HasPrefix(path, prefix)
  {
    if |prefix| <= |path| {
      assert (path + "/")[..|prefix|] == path[..|prefix|];
    }
  }

  /** After either prefix, exactly one trailing slash is removed; a path without one is kept. */
  lemma CleanRepoWithPrefix(prefix: string, path: string)
    requires prefix == HttpsPrefix || prefix == HttpPrefix
    ensures CleanRepo(prefix + path + "/") == path
    ensures path == [] || path[|path| - 1] != '/' ==> CleanRepo(prefix + path) == path
  {
    StripTrailingSlashOf(path);
    StripGithubPrefixOf(prefix, path);
    StripGithubPrefixOf(prefix, path + "/");
    assert prefix + path + "/" == prefix + (path + "/");
  }

  /** Only the last of several trailing slashes is removed. */
  lemma CleanRepoDoubleSlash()
    ensures CleanRepo("a//") == "a/"
    ensures CleanRepo(HttpsPrefix + "o/r//") == "o/r/"
  {
    assert "a//" == "a/" + "/";
    assert !HasPrefix("a//", HttpsPrefix) && !HasPrefix("a//", HttpPrefix);
    CleanRepoOfUrl("a/");
    assert HttpsPrefix + "o/r//" == HttpsPrefix + "o/r/" + "/";
    CleanRepoWithPrefix(HttpsPrefix, "o/r/");
  }

  /** The projection of the upstream record onto the four fields sent back. */
  function Project(record: map<string, Json>): (r: RepoSummary)
    ensures r.name.Some? <==> "full_name" in record
    ensures r.description.Some? <==> "description" in record
    ensures r.url.Some? <==> "html_url" in record
    ensures r.stars.Some? <==> "stargazers_count" in record
    ensures r.name.Some? ==> r.name.value == record["full_name"]
    ensures r.description.Some? ==> r.description.value == record["description"]
    ensures r.url.Some? ==> r.url.value == record["html_url"]
    ensures r.stars.Some? ==> r.stars.value == record["stargazers_count"]
  {
    RepoSummary(Get(record, "full_name"), Get(record, "description"), Get(record, "html_url"), Get(record, "stargazers_count"))
  }

  function Get(record: map<string, Json>, key: string): Option<Json> {
    if key in record then Some(record[key]) else None
  }

  /** No other field of the upstream record reaches the reply. */
  lemma ProjectIgnoresOtherFields(a: map<string, Json>, b: map<string, Json>)
    requires forall k :: k in {"full_name", "description", "html_url", "stargazers_count"} ==>
      (k in a <==> k in b) && (k in a ==> a[k] == b[k])
    ensures Project(a) == Project(b)
  {
    assert "full_name" in {"full_name", "description", "html_url", "stargazers_count"};
    assert "description" in {"full_name", "description", "html_url", "stargazers_count"};
    assert "html_url" in {"full_name", "description", "html_url", "stargazers_count"};
    assert "stargazers_count" in {"full_name", "description", "html_url", "stargazers_count"};
  }

  /**
   * The reply for an upstream outcome: the projection on success; on
   * failure the upstream status when it is truthy (else 500) and the
   * upstream status text when it is truthy (else "GitHub API Error").
   */
  function Respond(upstream: Upstream): (r: Reply)
    ensures upstream.Fetched? ==> r == Ok(Project(upstream.record))
    ensures upstream.UpstreamError? ==> r.HttpError?
    ensures upstream.UpstreamError? && upstream.status.Some? && upstream.status.value != 0 ==>
      r.statusCode == upstream.status.value
    ensures upstream.UpstreamError? && (upstream.status.None? || upstream.status.value == 0) ==>
      r.statusCode == 500
    ensures upstream.UpstreamError? && upstream.statusText.Some? && upstream.statusText.value != "" ==>
      r.statusMessage == upstream.statusText.value
    ensures upstream.UpstreamError? && (upstream.statusText.None? || upstream.statusText.value == "") ==>
      r.statusMessage == "GitHub API Error"
  {
    match upstream
    case Fetched(record) => Ok(Project(record))
    case UpstreamError(status, statusText) =>
      HttpError(
        if status.Some? && status.value != 0 then status.value else 500,
        if statusText.Some? && statusText.value != "" then statusText.value else "GitHub API Error")
  }

  /**
   * The handler: a missing, empty or repeated `repo` is answered with 400
   * before any request; otherwise GitHub is asked for the cleaned name.
   */
  function Handle(repo: QueryValue, fetchRepo: string -> Upstream): (r: Reply)
    ensures !(repo.Single? && repo.s != "") ==> r == HttpError(400, "Missing repo parameter")
    ensures repo.Single? && repo.s != "" ==> r == Respond(fetchRepo(CleanRepo(repo.s)))
  {
    match repo
    case Single(s) =>
      if s == "" then HttpError(400, "Missing repo parameter")
      else Respond(fetchRepo(CleanRepo(s)))
    case _ => HttpError(400, "Missing repo parameter")
  }
}
