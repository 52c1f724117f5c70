# Release verification, modelled in Dafny

`verify_release.py` checks that a release of a repository on a Git hosting
service was done properly. It reads two credentials from the environment and
checks that the release and base branches exist. It then checks that each
configured file exists at its branch, is large enough and contains the
required strings. It looks for the merged pull request whose title carries
the release keyword and checks that this request was merged by squash. It
writes a seven-line report and returns a verdict.

This project models the decision logic of that script as pure Dafny functions
over an immutable snapshot of the remote repository, and proves what the
script promises about it.

- `options.dfy` (`Options`): the optional-value type and Python truthiness of an optional string.
- `text.dfy` (`Text`): Python's substring test, ASCII `lower()`, `str(int)`, `join`, `split` and newline replacement. Each comes with a reference definition or an inverse.
- `github_api.dfy` (`GitHubApi`): `_call_github_api`'s three outcomes, the remote as one table per endpoint, and the readers for branches, file contents, pull requests and commits.
- `required_files.dfy` (`RequiredFiles`): `_verify_required_files` as a method with a loop, plus the per-file check and the failed-path list.
- `pull_requests.dfy` (`PullRequests`): the paginated search `_find_merged_pr`, the classifier `_verify_squash_merge` and the merge-target comparison.
- `verification.dfy` (`Verification`): `_verify_branches` and `run_verification`, covering the verdict, the early exits and the seven report lines.

Modelling decisions:

- An API answer is either a status with a decoded body, or an exception. A key missing from a table of the remote stands for a 404.
- The API constants (200, 404, 100, 1) are fields of `ApiSettings`, as shipped in `DefaultSettings`.
- The configuration is a value passed in. This matches `run_verification(cfg)`, which replaces the global configuration with its argument.
- An optional string counts as "truthy" only when it is present and non-empty. This applies to the token, the organisation, `merged_at` and `merge_commit_sha`.
- The search reads the listing filtered by state and base. It is a finite sequence of pages, and a page past its end answers with an empty list.
- The timestamp is a parameter.

Points of the script's behaviour that the model keeps:

- Paging continues after any matchless page of at least `per_page` entries, because the loop stops only when `len(pr_list) < per_page`.
- A missing release branch ends the branch check before the base branch is looked up.
- The files line separates the count from the failed list with two spaces.
- A file's size is the length of its decoded text in characters.
- After missing credentials the organisation is always printed as `UNKNOWN`, because the environment check returns no organisation on either failure.

## Model

| member | source | states |
|---|---|---|
| GitHubApi.Classify | verify_release.py:123-137 | The success status yields the body, and only then does the not-found status yield "not found". Every other status, and any exception, is an error. Each outcome is stated in both directions. |
| GitHubApi.CollapseForgetsErrorKind | verify_release.py:127-137 | A 404, any other failing status and an exception all reach the caller as the same `(False, None)`. |
| GitHubApi.BranchExists | verify_release.py:140-142 | A branch exists exactly when its lookup returns the success status, whatever the body. |
| GitHubApi.FileContent | verify_release.py:145-154 | File text is present exactly when the contents lookup succeeded with a decodable body, and then it is that body's decoded text. |
| GitHubApi.PullDetail | verify_release.py:187-189 | The pull-request detail is available exactly when its lookup succeeded, and it is the returned body. |
| GitHubApi.CommitDetail | verify_release.py:193-195 | A commit is available only when its lookup succeeded with a non-empty object. A failed lookup or an empty object gives nothing. |
| Text.ContainsIffOccurs | verify_release.py:258 | Python's `x in s` on strings holds exactly when `x` occurs at some offset of `s`. |
| Text.ContainsWithinContext | verify_release.py:199 | A substring of a string is a substring of any longer message that contains that string. |
| Text.Lower | verify_release.py:172 | Lower-casing keeps the length and maps each character independently. |
| Text.LowerIdempotent | verify_release.py:172 | Lower-casing leaves no upper-case letter, so applying it twice is the same as once. |
| Text.Upper | verify_release.py:172 | ASCII upper-casing keeps the length and maps each character independently. It exists to state what case-insensitivity means. |
| Text.LowerForgetsCase | verify_release.py:172 | A string, its upper-cased form and its lower-cased form all lower-case to the same text. |
| Text.IntToStringRoundTrip | verify_release.py:370 | The decimal rendering of a PR number parses back to that number, so distinct numbers print distinctly. |
| Text.NatToStringRoundTrip | verify_release.py:382 | The digits printed for a count read back as that count. |
| Text.SplitJoin | verify_release.py:302 | Splitting a `"\n".join` of line-free pieces on the separator gives the pieces back. |
| Text.SpaceNewlines | verify_release.py:369 | Replacing newlines keeps the length, turns every newline into a space, keeps every other character, and leaves no newline. |
| RequiredFiles.MissingFrom | verify_release.py:264 | The missing list holds exactly the listed strings that the text does not contain. |
| RequiredFiles.CheckTextMeaning | verify_release.py:245-277 | A file passes exactly when its text is non-empty, at least `min_size` long, and contains every string of all three content keys. Empty or absent text is the "unreadable" failure. A too-small failure means the text was non-empty but short. A content failure names only required strings that are absent. |
| RequiredFiles.CheckText | verify_release.py:245-277 | Judging a file's text never yields the skip outcome; skipping happens only before the lookup. The full meaning is `CheckTextMeaning`. |
| RequiredFiles.CheckFile | verify_release.py:242-245 | A requirement is skipped exactly when its path is `.DS_Store` or `Thumbs.db`. |
| RequiredFiles.CheckFileMeaning | verify_release.py:239-277 | A configured file passes exactly when it is no OS artifact and its text at the configured branch is acceptable. |
| RequiredFiles.FailedPaths | verify_release.py:237-278 | The failed list is never longer than the requirements and is empty exactly when no requirement fails. |
| RequiredFiles.FailedPathsMembers | verify_release.py:242-276 | Every failing requirement's path is listed, and every listed path belongs to a failing requirement. So a skipped OS artifact is never listed. |
| RequiredFiles.FailedPathsAppend | verify_release.py:239-276 | Failures keep configuration order: the failures of a concatenation are those of its first part followed by those of its second. |
| RequiredFiles.FailedPathsSnoc | verify_release.py:239-276 | One more requirement appends its path exactly when it fails, so each requirement contributes at most one entry. |
| RequiredFiles.FailedPathsOfSingleFailure | verify_release.py:239-276 | When exactly one requirement fails, the failed list is that one path. |
| RequiredFiles.VerifyRequiredFiles | verify_release.py:234-278 | The loop checks every requirement without stopping early. Its list is the ordered failed-path list, and `ok` holds exactly when that list is empty, which is exactly when no requirement fails. |
| RequiredFiles.PassedNumeratorCountsSkipped | verify_release.py:388-390 | The numerator "total minus failed" equals the passed requirements plus the skipped OS artifacts. |
| PullRequests.Matches | verify_release.py:170-172 | The per-entry test: the lower-cased title contains the lower-cased keyword and `merged_at` is truthy. A missing title is the empty string. |
| PullRequests.FirstMatchIndex | verify_release.py:169-173 | The index found is the first entry whose lower-cased title contains the lower-cased keyword and whose `merged_at` is truthy. None means no entry matches. |
| PullRequests.FirstMatch | verify_release.py:169-173 | Nothing is returned exactly when no entry of the page matches. A returned entry is on the page, matches, and no entry before it matches. |
| PullRequests.FirstMatchAppend | verify_release.py:169-177 | The first match of two pages read in order comes from the first page when it has one, and otherwise from the second. |
| PullRequests.PageEntries | verify_release.py:164-168 | A page is usable exactly when the call succeeded with a non-empty JSON list. Its entries are that list. |
| PullRequests.ScanPages | verify_release.py:159-178 | The `while True` loop from a given page on: whatever it returns matches the keyword and has a truthy `merged_at`. |
| PullRequests.FindMergedPr | verify_release.py:157-178 | A found pull request has a truthy `merged_at` and a title containing the keyword, ignoring case. |
| PullRequests.ScanIsFirstMatchOfListing | verify_release.py:157-178 | The paginated search returns exactly the first match of the pages it reads, concatenated in page order. |
| PullRequests.SkipFullPages | verify_release.py:174-177 | Any run of full, usable, matchless pages is passed over: the search continues at the page after them. |
| PullRequests.StepOverPage | verify_release.py:175-177 | One full page without a match hands the search to the next page. |
| PullRequests.UnusablePageEndsSearch | verify_release.py:164-168 | A failed, empty or non-list page after full matchless pages ends the search with nothing. |
| PullRequests.ShortPageEndsSearch | verify_release.py:174-176 | A page shorter than `per_page` without a match ends the search with nothing. |
| PullRequests.SameLoweredKeywordSameScan | verify_release.py:172 | Two keywords with the same ASCII lower-cased form find the same pull request. |
| PullRequests.KeywordCaseIrrelevant | verify_release.py:172 | ASCII upper-casing or lower-casing the keyword does not change which pull request is found. |
| PullRequests.FirstMatchIndexSameTest | verify_release.py:169-173 | Two keywords that accept the same pull requests find the same first match. |
| PullRequests.MergeCommit | verify_release.py:187-195 | A merge commit is found exactly when the pull-request detail is found, its `merge_commit_sha` is truthy, and the commit at that sha is found and non-empty. It is then that commit. |
| PullRequests.ClassifyMerge | verify_release.py:181-201 | The result is "not found" with 0 parents exactly when the detail, its truthy merge sha or the commit is unavailable. Otherwise the parent count is the commit's. The method is squash exactly when the count equals the expected one and the message contains `#N`. It is OTHER exactly when a merge commit was found but fails that test. |
| PullRequests.TwoParentsIsOther | verify_release.py:196-201 | With one expected parent, a two-parent merge commit is OTHER whatever its message says. |
| PullRequests.ReferenceFoundInLongerNumber | verify_release.py:199 | The reference test is a substring test, so `#4` is found in `#42`. |
| PullRequests.LongerReferenceClassifiesAsSquash | verify_release.py:199-200 | A one-parent commit whose message cites `#42` counts as the squash merge of pull request 4. |
| PullRequests.MergeTargetMismatch | verify_release.py:373-379 | A mismatch needs a fetched detail, and it is then exactly a `base.ref` different from the configured base branch. |
| Verification.EnvironmentReady | verify_release.py:207-219 | The environment is usable exactly when both the token and the organisation are set and non-empty. |
| Verification.ShippedConfigSkipsNothing | verify_release.py:54-90 | None of the four shipped requirement paths is `.DS_Store` or `Thumbs.db`. |
| Verification.ShippedNumeratorCountsPasses | verify_release.py:54-90 | The shipped configuration names no OS artifact, so its passed numerator counts exactly the requirements that passed, whatever the remote holds. |
| Verification.VerifyBranches | verify_release.py:221-231 | Both branches are present exactly when both exist. The release branch is reported missing exactly when it does not exist. |
| Verification.BaseNotConsultedWhenReleaseMissing | verify_release.py:224-226 | When the release branch is missing, no answer about the base branch changes the result. |
| Verification.PrLine | verify_release.py:367-370 | The PR line never contains a newline, whatever the title. |
| Verification.MergeLine | verify_release.py:382 | The merge line never contains a newline. |
| Verification.FilesLine | verify_release.py:390 | The files line contains no newline when no failed path does. |
| Verification.ReportLines | verify_release.py:400-408 | The report has exactly seven lines. |
| Verification.EarlyExit | verify_release.py:319-354 | An early exit fails, with no pull request, no merge commit, no failed files and a report with zero files. |
| Verification.ReleasePr | verify_release.py:281-290 | The release PR the run uses is the search with the configured keyword, base branch and state, so a found PR matches the configured keyword and has a truthy `merged_at`. |
| Verification.CompletedRun | verify_release.py:356-408 | Once the branches exist, the run lists every failing file, searches for the PR, and classifies the PR's merge only if a PR was found. It passes exactly when no file fails, a PR was found and its merge is a squash. |
| Verification.RunVerification | verify_release.py:310-426 | The run stops at the environment exactly when a credential is missing. It completes exactly when the credentials are present and both branches exist. Early stops use the fixed failing lines, and the environment stop prints `UNKNOWN` as the organisation. A completed run without a PR has no merge commit, so its merge line reads `not found`, 0 parents. The run passes exactly when it completed, no file fails, a PR was found and its merge is a squash. |
| Verification.VerdictLineText | verify_release.py:398-401 | The verdict line is `verification result: PASS` exactly when passed and `verification result: FAIL` exactly when not. |
| Verification.VerdictLineReflectsVerdict | verify_release.py:398-401 | The first report line is `verification result: PASS` exactly when the run passed, and `verification result: FAIL` exactly when it did not. |
| Verification.NoMergeLine | verify_release.py:327 | Without a merge commit the merge line reads `merge method: not found  parents: 0`. |
| Verification.NoFilesLine | verify_release.py:328 | With no files checked the files line reads `files checked: 0/0  failed files: none`. |
| Verification.EarlyExitReport | verify_release.py:322-330 | An early exit prints FAIL, no PR, no merge method and zero files checked. |
| Verification.FailedPathsReadOnlyFiles | verify_release.py:245 | The file checks depend only on the file-contents endpoint. |
| Verification.ClassifyMergeIgnoresBaseRef | verify_release.py:187-201 | The merge classification ignores the pull request's `base.ref`. |
| Verification.TargetMismatchOnlyLogged | verify_release.py:372-379 | Rewriting the found pull request's `base.ref` changes neither the verdict nor any report line. |
| Verification.ReportLinesHaveNoNewline | verify_release.py:400-408 | No report line contains a newline when the configured names, organisation, paths and timestamp have none. |
| Verification.ReportReadsBackAsSevenLines | verify_release.py:302 | Under those conditions the written report splits back into exactly the seven lines. |
| Verification.FailedListReadsBack | verify_release.py:390 | The comma-joined failed list splits back into the failing paths when no path contains a comma. |
| Verification.SingleFailingFile | verify_release.py:357-398 | When exactly one file requirement fails, the run fails and the files line lists exactly that path, whatever the pull-request outcome. |

## Left out

- HTTP transport, request headers, the timeout and the URL construction are left out. The remote is a snapshot of answers per endpoint. No retry exists in the script either.
- Loading `.mcp_env` and reading the environment are left out. The two variables are an input value.
- Base64 and UTF-8 decoding of file contents are left out. A contents body is either decoded text or undecodable.
- Writing the report file, creating its directory and the `OUTPUT_DIR` condition are left out. The model produces the seven lines that would be written.
- All console and standard-error logging, the separator, the success banner and the step labels are left out. None of them affects the verdict.
- Reading the clock and the `%Y-%m-%dT%H:%M:%SZ` formatting are left out. The timestamp is a parameter.
- The process exit code (`sys.exit`) is left out. It is a direct image of the verdict.
- The configured label `required_merge_method` is left out. The script never reads it and compares against the literal "Squash and Merge" instead.
- `src/encoding.rs` and `src/registry.rs` are not part of this model. They are the files the script inspects, not logic.
- Text.Lower: models `str.lower()` on ASCII letters only, because Unicode case mapping has no counterpart here.
- Text.Upper: models `str.upper()` on ASCII letters only, for the same reason; it is used only to state case-insensitivity.
- GitHubApi.FileContent: does not model base64 decoding with replacement characters. The decoded text is part of the input.
- PullRequests.ScanPages: the listing is finite, and a page past its end answers with an empty list. A server that returns full pages forever is not modelled.
- PullRequests.MergeTargetMismatch: treats an empty JSON object as a detail without `base.ref`, while the script skips the comparison for it. The comparison only affects a log line.
- PullRequests.FindMergedPr: an entry without a `number` or with a null title is not modelled. The script would print `#None` for the first and raise on `.lower()` for the second. Entries are records with a number, a title (an absent title reads as "") and an optional `merged_at`.
- PullRequests.MergeTargetMismatch: a detail whose `base` is JSON `null` is not modelled. The script raises on `.get("ref")` at line 375, and the exception escapes `run_verification`.
- PullRequests.ClassifyMerge: a commit whose `parents` or `commit` is JSON `null` is not modelled. A null `parents` raises at line 196 and a null `commit` raises at line 197, and the exception escapes `run_verification`. A null `message` raises at line 199 only when the parent count equals the expected count. Otherwise the `and` short-circuits and the script returns OTHER with the parent count, which the model gives for any message. An absent field reads as `[]` or `""` and is modelled.
- Verification.RunVerification: the crash when a branch is missing and `OUTPUT_DIR` is empty or absent is not modelled. Line 353 writes the report without the `if out_dir` guard, and `os.makedirs("")` at line 298 raises outside the `try`. The model returns the failing report in that case.
