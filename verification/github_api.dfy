/**
 The hosting API as the release verifier sees it. Each GET yields an `Answer`:
 an HTTP status with its decoded body, or an exception (timeout, connection
 failure, undecodable JSON). `Classify` sorts an answer into the three outcomes
 of `_call_github_api`. The remote repository is a value of immutable tables, one
 per endpoint the verifier uses. A key missing from a table stands for a
 resource the service reports as not found.
 */
module GitHubApi {
  import opened Options

  /** The constants of the API configuration block that the decision logic reads. */
  datatype ApiSettings = ApiSettings(
    successStatus: int,
    notFoundStatus: int,
    perPage: int,
    mergeParentCount: int)

  /** The values the script ships with. */
  const DefaultSettings := ApiSettings(200, 404, 100, 1)

  /** One request's raw result: a status and body, or an exception. */
  datatype Answer<+T> = Response(status: int, body: T) | Raised

  /** The three outcomes of one API call. */
  datatype Lookup<+T> = Found(value: T) | NotFound | Error {

    /** What every caller keeps: the body on success, nothing otherwise. */
    function ToOption(): Option<T> {
      match this
      case Found(v) => Some(v)
      case _ => None
    }
  }

  /** `_call_github_api`: the success status gives the body, then the not-found
      status gives `NotFound`, and any other status or an exception gives `Error`. */
  function Classify<T>(s: ApiSettings, a: Answer<T>): (r: Lookup<T>)
    ensures r.Found? <==> a.Response? && a.status == s.successStatus
    ensures r.Found? ==> r.value == a.body
    ensures r.NotFound? <==> a.Response? && a.status != s.successStatus && a.status == s.notFoundStatus
    ensures r.Error? <==> a.Raised? || (a.status != s.successStatus && a.status != s.notFoundStatus)
  {
    match a
    case Raised => Error
    case Response(code, body) =>
      if code == s.successStatus then Found(body)
      else if code == s.notFoundStatus then NotFound
      else Error
  }

  /** Callers cannot tell a missing resource from a failed call: every answer
      other than the success status collapses to `None`. */
  lemma CollapseForgetsErrorKind<T>(s: ApiSettings, a: Answer<T>, b: Answer<T>)
    requires !(a.Response? && a.status == s.successStatus)
    requires !(b.Response? && b.status == s.successStatus)
    ensures Classify(s, a).ToOption() == Classify(s, b).ToOption() == None
  {
  }

  /* ---------------- bodies of the endpoints used ---------------- */

  /** An entry of the pull-request listing. A missing title reads as "". */
  datatype PrSummary = PrSummary(number: int, title: string, mergedAt: Option<string>)

  /** A page of the pull-request listing: a JSON list, or some other JSON value. */
  datatype PageBody = PrList(prs: seq<PrSummary>) | NotAList

  /** The fields of a single pull request the verifier reads. */
  datatype PrDetail = PrDetail(baseRef: Option<string>, mergeCommitSha: Option<string>)

  /** A commit: the empty JSON object, or an object whose absent `parents`
      reads as [] and whose absent message reads as "". */
  datatype CommitBody = EmptyObject | Commit(parents: seq<string>, message: string)

  /** A file-contents response, already base64- and UTF-8-decoded. `Undecodable`
      covers an empty JSON object and a body whose content would not decode. */
  datatype FileBody = Decoded(text: string) | Undecodable

  /** The remote repository, one table per endpoint. `pullPages` is keyed by the
      (state, base) filter of the listing and holds the pages in order. */
  datatype Remote = Remote(
    branches: map<string, Answer<()>>,
    files: map<(string, string), Answer<FileBody>>,
    pullPages: map<(string, string), seq<Answer<PageBody>>>,
    pulls: map<int, Answer<PrDetail>>,
    commits: map<string, Answer<CommitBody>>)

  /** One call against a table: a key the table lacks is a not-found resource. */
  function Fetch<K, T>(s: ApiSettings, table: map<K, Answer<T>>, key: K): (r: Lookup<T>)
    ensures key !in table ==> r.NotFound?
    ensures r.Found? <==> key in table && table[key].Response? && table[key].status == s.successStatus
  {
    if key in table then Classify(s, table[key]) else NotFound
  }

  /* ---------------- the per-endpoint readers ---------------- */

  /** `_check_branch_exists`: true exactly when the branch lookup succeeds,
      whatever the body. */
  function BranchExists(s: ApiSettings, remote: Remote, name: string): (b: bool)
    ensures b <==> name in remote.branches && remote.branches[name].Response?
                   && remote.branches[name].status == s.successStatus
  {
    Fetch(s, remote.branches, name).Found?
  }

  /** `_get_file_content`: the decoded text of `path` at `ref`, or nothing when
      the lookup fails, the body is empty or the content does not decode. */
  function FileContent(s: ApiSettings, remote: Remote, path: string, ref: string): (r: Option<string>)
    ensures r.Some? <==> Fetch(s, remote.files, (path, ref)).Found? && Fetch(s, remote.files, (path, ref)).value.Decoded?
    ensures r.Some? ==> Fetch(s, remote.files, (path, ref)) == Found(Decoded(r.value))
  {
    var l: Lookup<FileBody> := Fetch(s, remote.files, (path, ref));
    match l
    case Found(Decoded(text)) => Some(text)
    case _ => None
  }

  /** The pages of the listing filtered by `state` and `base`, in server order. */
  function PullPages(remote: Remote, state: string, base: string): seq<Answer<PageBody>>
  {
    if (state, base) in remote.pullPages then remote.pullPages[(state, base)] else []
  }

  /** `GET pulls/{number}` as callers use it: the detail, or nothing. */
  function PullDetail(s: ApiSettings, remote: Remote, number: int): (r: Option<PrDetail>)
    ensures r.Some? <==> Fetch(s, remote.pulls, number).Found?
    ensures r.Some? ==> remote.pulls[number].body == r.value
  {
    Fetch(s, remote.pulls, number).ToOption()
  }

  /** `GET commits/{sha}` as `_verify_squash_merge` uses it: a successful,
      non-empty commit object, or nothing. */
  function CommitDetail(s: ApiSettings, remote: Remote, sha: string): (r: Option<CommitBody>)
    ensures r.Some? ==> r.value.Commit? && Fetch(s, remote.commits, sha) == Found(r.value)
    ensures r.None? <==> !Fetch(s, remote.commits, sha).Found? || remote.commits[sha].body.EmptyObject?
  {
    var l: Lookup<CommitBody> := Fetch(s, remote.commits, sha);
    match l
    case Found(Commit(parents, message)) => Some(Commit(parents, message))
    case _ => None
  }
}
