/**
 The pull-request half of the release verifier: the paginated search for the
 merged release pull request (`_find_merged_pr`), the merge-method classifier
 (`_verify_squash_merge`) and the merge-target comparison that is only logged.
 */
module PullRequests {
  import opened Options
  import opened Text
  import opened GitHubApi

  /* ---------------- the merged-PR search ---------------- */

  /** The test applied to each listed pull request: the lower-cased title
      contains the lower-cased keyword, and `merged_at` is truthy. */
  predicate Matches(keyword: string, pr: PrSummary) {
    Contains(Lower(pr.title), Lower(keyword)) && Truthy(pr.mergedAt)
  }

  /** The position of the first matching entry of a page, if any. */
  function FirstMatchIndex(keyword: string, prs: seq<PrSummary>): (r: Option<nat>)
    ensures r.None? <==> forall j :: 0 <= j < |prs| ==> !Matches(keyword, prs[j])
    ensures r.Some? ==> && r.value < |prs|
                        && Matches(keyword, prs[r.value])
                        && forall j :: 0 <= j < r.value ==> !Matches(keyword, prs[j])
  {
    if prs == [] then None
    else if Matches(keyword, prs[0]) then Some(0)
    else
      match FirstMatchIndex(keyword, prs[1..])
      case None => None
      case Some(i) => Some(i + 1)
  }

  /** The inner `for pr in pr_list` loop: the first matching entry, in list order. */
  function FirstMatch(keyword: string, prs: seq<PrSummary>): (r: Option<PrSummary>)
    ensures r.None? <==> forall j :: 0 <= j < |prs| ==> !Matches(keyword, prs[j])
    ensures r.Some? ==> r.value in prs && Matches(keyword, r.value)
    ensures r.Some? ==> exists i :: 0 <= i < |prs| && prs[i] == r.value
                                    && forall j :: 0 <= j < i ==> !Matches(keyword, prs[j])
  {
    match FirstMatchIndex(keyword, prs)
    case None => None
    case Some(i) => Some(prs[i])
  }

  /** The first match in a concatenation lies in its first part when that part
      has one, and otherwise is the first match of the second part, shifted. */
  lemma {:induction false} FirstMatchIndexAppend(keyword: string, a: seq<PrSummary>, b: seq<PrSummary>)
    ensures FirstMatchIndex(keyword, a + b)
            == match FirstMatchIndex(keyword, a)
               case Some(i) => Some(i)
               case None =>
                 match FirstMatchIndex(keyword, b)
                 case Some(j) => Some(|a| + j)
                 case None => None
    decreases |a|
  {
    if a == [] {
      assert a + b == b;
    } else {
      assert (a + b)[0] == a[0];
      assert (a + b)[1..] == a[1..] + b;
      FirstMatchIndexAppend(keyword, a[1..], b);
    }
  }

  /** The first match of a concatenation is the first match of its first part,
      or failing that, of its second part. */
  lemma FirstMatchAppend(keyword: string, a: seq<PrSummary>, b: seq<PrSummary>)
    ensures FirstMatch(keyword, a + b)
            == if FirstMatch(keyword, a).Some? then FirstMatch(keyword, a) else FirstMatch(keyword, b)
  {
    FirstMatchIndexAppend(keyword, a, b);
    var ia := FirstMatchIndex(keyword, a);
    var ib := FirstMatchIndex(keyword, b);
    if ia.Some? {
      assert (a + b)[ia.value] == a[ia.value];
    } else if ib.Some? {
      assert (a + b)[|a| + ib.value] == b[ib.value];
    }
  }

  /** What a listing page offers the scan: its entries when the call succeeded
      with a non-empty JSON list, and nothing when it failed, was empty or was
      not a list (each of which ends the search). */
  function PageEntries(s: ApiSettings, a: Answer<PageBody>): (r: Option<seq<PrSummary>>)
    ensures r.Some? <==> a.Response? && a.status == s.successStatus && a.body.PrList? && a.body.prs != []
    ensures r.Some? ==> r.value == a.body.prs
  {
    var l: Lookup<PageBody> := Classify(s, a);
    match l
    case Found(PrList(prs)) => if prs == [] then None else Some(prs)
    case _ => None
  }

  /** A page that lets the scan go on: usable, at least `perPage` long, no match. */
  predicate PassesOver(s: ApiSettings, keyword: string, a: Answer<PageBody>) {
    var e := PageEntries(s, a);
    e.Some? && |e.value| >= s.perPage && FirstMatch(keyword, e.value).None?
  }

  /** The `while True` loop of `_find_merged_pr` from page index `page` (0-based)
      on. The page table is finite; a page past its end answers with an empty
      list, which ends the search. */
  function ScanPages(s: ApiSettings, keyword: string, pages: seq<Answer<PageBody>>, page: nat): (r: Option<PrSummary>)
    ensures r.Some? ==> Matches(keyword, r.value)
    decreases |pages| - page
  {
    if page >= |pages| then None
    else
      match PageEntries(s, pages[page])
      case None => None
      case Some(prs) =>
        match FirstMatch(keyword, prs)
        case Some(pr) => Some(pr)
        case None => if |prs| < s.perPage then None else ScanPages(s, keyword, pages, page + 1)
  }

  /** `_find_merged_pr`: search the listing filtered by `state` and `base`. */
  function FindMergedPr(s: ApiSettings, remote: Remote, keyword: string, base: string, state: string): (r: Option<PrSummary>)
    ensures r.Some? ==> Truthy(r.value.mergedAt)
    ensures r.Some? ==> Contains(Lower(r.value.title), Lower(keyword))
  {
    ScanPages(s, keyword, PullPages(remote, state, base), 0)
  }

  /** Reference reading of the listing: the entries of every page the search
      would read when nothing matched, concatenated in page order. Reading
      stops after a short page and before a page that failed, was empty or was
      not a list. */
  function Scanned(s: ApiSettings, pages: seq<Answer<PageBody>>, page: nat): seq<PrSummary>
    decreases |pages| - page
  {
    if page >= |pages| then []
    else
      match PageEntries(s, pages[page])
      case None => []
      case Some(prs) => prs + (if |prs| < s.perPage then [] else Scanned(s, pages, page + 1))
  }

  /** The paginated search returns exactly the first match of the flattened
      listing: page order, then list order. */
  lemma {:induction false} ScanIsFirstMatchOfListing(s: ApiSettings, keyword: string, pages: seq<Answer<PageBody>>, page: nat)
    ensures ScanPages(s, keyword, pages, page) == FirstMatch(keyword, Scanned(s, pages, page))
    decreases |pages| - page
  {
    if page < |pages| {
      match PageEntries(s, pages[page])
      case None =>
      case Some(prs) =>
        if |prs| < s.perPage {
          assert prs + [] == prs;
        } else {
          ScanIsFirstMatchOfListing(s, keyword, pages, page + 1);
          FirstMatchAppend(keyword, prs, Scanned(s, pages, page + 1));
        }
        FirstMatchAppend(keyword, prs, []);
    }
  }

  /** Full pages without a match are passed over: the search from `page`
      behaves as the search from `j` when every page in between passes over. */
  lemma {:induction false} SkipFullPages(s: ApiSettings, keyword: string, pages: seq<Answer<PageBody>>, page: nat, j: nat)
    requires page <= j <= |pages|
    requires forall k | page <= k < j :: PassesOver(s, keyword, pages[k])
    ensures ScanPages(s, keyword, pages, page) == ScanPages(s, keyword, pages, j)
    decreases j - page
  {
    if page < j {
      assert PassesOver(s, keyword, pages[j - 1]);
      SkipFullPages(s, keyword, pages, page, j - 1);
      StepOverPage(s, keyword, pages, j - 1);
    }
  }

  /** One page that passes over hands the search on to the next page. */
  lemma StepOverPage(s: ApiSettings, keyword: string, pages: seq<Answer<PageBody>>, page: nat)
    requires page < |pages| && PassesOver(s, keyword, pages[page])
    ensures ScanPages(s, keyword, pages, page) == ScanPages(s, keyword, pages, page + 1)
  {
  }

  /** A failed, empty or non-list page ends the search with nothing, even after
      earlier full pages. */
  lemma UnusablePageEndsSearch(s: ApiSettings, keyword: string, pages: seq<Answer<PageBody>>, j: nat)
    requires j < |pages| && PageEntries(s, pages[j]).None?
    requires forall k :: 0 <= k < j ==> PassesOver(s, keyword, pages[k])
    ensures ScanPages(s, keyword, pages, 0).None?
  {
    SkipFullPages(s, keyword, pages, 0, j);
  }

  /** A short page without a match ends the search with nothing. */
  lemma ShortPageEndsSearch(s: ApiSettings, keyword: string, pages: seq<Answer<PageBody>>, j: nat)
    requires j < |pages| && PageEntries(s, pages[j]).Some?
    requires |PageEntries(s, pages[j]).value| < s.perPage
    requires FirstMatch(keyword, PageEntries(s, pages[j]).value).None?
    requires forall k :: 0 <= k < j ==> PassesOver(s, keyword, pages[k])
    ensures ScanPages(s, keyword, pages, 0).None?
  {
    SkipFullPages(s, keyword, pages, 0, j);
  }

  /** Keywords that agree once lower-cased find the same pull request. */
  lemma {:induction false} SameLoweredKeywordSameScan(s: ApiSettings, pages: seq<Answer<PageBody>>, k1: string, k2: string, page: nat)
    requires Lower(k1) == Lower(k2)
    ensures ScanPages(s, k1, pages, page) == ScanPages(s, k2, pages, page)
    decreases |pages| - page
  {
    assert forall pr :: Matches(k1, pr) == Matches(k2, pr);
    forall prs: seq<PrSummary> ensures FirstMatchIndex(k1, prs) == FirstMatchIndex(k2, prs) {
      FirstMatchIndexSameTest(k1, k2, prs);
    }
    if page < |pages| {
      SameLoweredKeywordSameScan(s, pages, k1, k2, page + 1);
    }
  }

  /** Case of the keyword does not matter to the search: upper-casing or
      lower-casing it finds the same pull request. */
  lemma KeywordCaseIrrelevant(s: ApiSettings, pages: seq<Answer<PageBody>>, keyword: string, page: nat)
    ensures ScanPages(s, keyword, pages, page) == ScanPages(s, Lower(keyword), pages, page)
    ensures ScanPages(s, keyword, pages, page) == ScanPages(s, Upper(keyword), pages, page)
  {
    LowerForgetsCase(keyword);
    SameLoweredKeywordSameScan(s, pages, keyword, Lower(keyword), page);
    SameLoweredKeywordSameScan(s, pages, keyword, Upper(keyword), page);
  }

  /** Two keywords that match the same pull requests give the same first match. */
  lemma {:induction false} FirstMatchIndexSameTest(k1: string, k2: string, prs: seq<PrSummary>)
    requires forall pr :: Matches(k1, pr) == Matches(k2, pr)
    ensures FirstMatchIndex(k1, prs) == FirstMatchIndex(k2, prs)
    decreases |prs|
  {
    if prs != [] {
      FirstMatchIndexSameTest(k1, k2, prs[1..]);
    }
  }

  /* ---------------- merge-method classification ---------------- */

  datatype MergeMethod = SquashMerge | OtherMethod | MethodNotFound

  /** The label the report prints for each method. */
  function MethodLabel(m: MergeMethod): string {
    match m
    case SquashMerge => "Squash and Merge"
    case OtherMethod => "OTHER"
    case MethodNotFound => "not found"
  }

  /** The classifier's answer: a method and the merge commit's parent count. */
  datatype MergeEvidence = MergeEvidence(mergeMethod: MergeMethod, parents: int)

  /** The textual reference to a pull request that a squash commit carries. */
  function PrReference(number: int): string {
    "#" + IntToString(number)
  }

  /** The merge commit reached from pull request `number`: its detail must be
      found, name a truthy `merge_commit_sha`, and that commit must be found. */
  function MergeCommit(s: ApiSettings, remote: Remote, number: int): (r: Option<CommitBody>)
    ensures r.Some? ==> r.value.Commit?
    ensures r.Some? <==>
              && PullDetail(s, remote, number).Some?
              && Truthy(PullDetail(s, remote, number).value.mergeCommitSha)
              && CommitDetail(s, remote, PullDetail(s, remote, number).value.mergeCommitSha.value).Some?
    ensures r.Some? ==> r == CommitDetail(s, remote, PullDetail(s, remote, number).value.mergeCommitSha.value)
  {
    match PullDetail(s, remote, number)
    case None => None
    case Some(detail) =>
      if Truthy(detail.mergeCommitSha) then CommitDetail(s, remote, detail.mergeCommitSha.value) else None
  }

  /** `_verify_squash_merge`. */
  function ClassifyMerge(s: ApiSettings, remote: Remote, number: int): (e: MergeEvidence)
    ensures MergeCommit(s, remote, number).None? <==> e == MergeEvidence(MethodNotFound, 0)
    ensures MergeCommit(s, remote, number).Some? ==> e.parents == |MergeCommit(s, remote, number).value.parents|
    ensures e.mergeMethod == SquashMerge <==>
              && MergeCommit(s, remote, number).Some?
              && |MergeCommit(s, remote, number).value.parents| == s.mergeParentCount
              && Contains(MergeCommit(s, remote, number).value.message, PrReference(number))
    ensures e.mergeMethod == OtherMethod <==>
              && MergeCommit(s, remote, number).Some?
              && !(&& |MergeCommit(s, remote, number).value.parents| == s.mergeParentCount
                   && Contains(MergeCommit(s, remote, number).value.message, PrReference(number)))
    ensures e.mergeMethod == SquashMerge ==> e.parents == s.mergeParentCount
  {
    var detail := PullDetail(s, remote, number);
    if detail.None? || !Truthy(detail.value.mergeCommitSha) then
      MergeEvidence(MethodNotFound, 0)
    else
      match CommitDetail(s, remote, detail.value.mergeCommitSha.value)
      case None => MergeEvidence(MethodNotFound, 0)
      case Some(commit) =>
        var count := |commit.parents|;
        if count == s.mergeParentCount && Contains(commit.message, PrReference(number)) then
          MergeEvidence(SquashMerge, count)
        else
          MergeEvidence(OtherMethod, count)
  }

  /** With the shipped expectation of one parent, a two-parent merge commit is
      `OTHER` whatever its message says. */
  lemma TwoParentsIsOther(s: ApiSettings, remote: Remote, number: int)
    requires s.mergeParentCount == 1
    requires MergeCommit(s, remote, number).Some? && |MergeCommit(s, remote, number).value.parents| == 2
    ensures ClassifyMerge(s, remote, number) == MergeEvidence(OtherMethod, 2)
  {
  }

  /** The reference test is a plain substring test, so `#n` is found inside
      the reference to any pull request whose number extends `n` by a digit:
      `#4` occurs in `#42`. */
  lemma ReferenceFoundInLongerNumber(n: nat, d: nat)
    requires 1 <= n && d < 10
    ensures Contains(PrReference(10 * n + d), PrReference(n))
  {
    var m := 10 * n + d;
    assert m / 10 == n && m % 10 == d;
    assert PrReference(m) == PrReference(n) + [DigitChar(d)];
    ContainsInContext("", PrReference(n), [DigitChar(d)]);
    assert "" + PrReference(n) + [DigitChar(d)] == PrReference(m);
  }

  /** Hence a one-parent commit whose message cites `#42` is taken as the squash
      merge of pull request 4. */
  lemma LongerReferenceClassifiesAsSquash(s: ApiSettings, remote: Remote, n: nat, d: nat, pre: string, post: string)
    requires 1 <= n && d < 10
    requires MergeCommit(s, remote, n).Some?
    requires |MergeCommit(s, remote, n).value.parents| == s.mergeParentCount
    requires MergeCommit(s, remote, n).value.message == pre + PrReference(10 * n + d) + post
    ensures ClassifyMerge(s, remote, n).mergeMethod == SquashMerge
  {
    ReferenceFoundInLongerNumber(n, d);
    ContainsWithinContext(pre, PrReference(10 * n + d), post, PrReference(n));
  }

  /* ---------------- merge target ---------------- */

  /** The merge-target comparison of `run_verification`: true when the detail
      was fetched and its `base.ref` differs from the configured base branch.
      It is only logged. */
  function MergeTargetMismatch(s: ApiSettings, remote: Remote, number: int, base: string): (b: bool)
    ensures b ==> PullDetail(s, remote, number).Some?
    ensures PullDetail(s, remote, number).Some? ==> (b <==> PullDetail(s, remote, number).value.baseRef != Some(base))
  {
    match PullDetail(s, remote, number)
    case None => false
    case Some(detail) => detail.baseRef != Some(base)
  }
}
