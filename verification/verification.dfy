/**
 The orchestration of a verification run (`run_verification`) and the seven
 report lines it assembles. A run stops early with a failing report when the
 credentials are missing or a configured branch does not exist. Otherwise it
 always checks every file requirement, searches for the release pull request
 and classifies its merge. The verdict is the conjunction of those three
 results. The merge-target comparison is computed but only logged.
 */
module Verification {
  import opened Options
  import opened Text
  import opened GitHubApi
  import opened RequiredFiles
  import opened PullRequests

  /** The parts of the configuration the decision logic reads, passed in as a
      value instead of the process-wide dictionary. */
  datatype Config = Config(
    repo: string,
    releaseBranch: string,
    baseBranch: string,
    requirements: seq<FileRequirement>,
    prTitleKeyword: string,
    prState: string,
    api: ApiSettings)

  /** The configuration the script ships with. */
  const DefaultConfig := Config(
    "my-project",
    "main",
    "main",
    [ FileRequirement("编码配置文件", "src/encoding.rs", "main", 500,
        Some("FormattingToken::MetaSep => \"<|meta_sep|>\""), None, None),
      FileRequirement("注册表文件", "src/registry.rs", "main", 500,
        None,
        Some(["(FormattingToken::MetaSep, \"<|meta_sep|>\")", "(FormattingToken::MetaEnd, \"<|meta_end|>\")"]),
        None),
      FileRequirement("版本配置文件", "Cargo.toml", "main", 200,
        Some("version = \"1.1.0\""), None, None),
      FileRequirement("变更日志", "CHANGELOG.md", "main", 300,
        None, None,
        Some(["## [1.1.0] - 2025-08-07", "MetaSep token mapping bug", "Fixed MetaSep token"])) ],
    "Release v1.1.0",
    "closed",
    DefaultSettings)

  /** The shipped configuration names no OS artifact, so its files line counts
      exactly the requirements that passed, whatever the remote holds. */
  lemma ShippedNumeratorCountsPasses(remote: Remote)
    ensures var reqs := DefaultConfig.requirements;
            |reqs| - |FailedPaths(DefaultSettings, remote, reqs)| == CountPassed(DefaultSettings, remote, reqs)
  {
    PassedNumeratorCountsSkipped(DefaultSettings, remote, DefaultConfig.requirements);
    ShippedConfigSkipsNothing();
  }

  /** None of the shipped paths is an OS artifact. */
  lemma ShippedConfigSkipsNothing()
    ensures CountSkipped(DefaultConfig.requirements) == 0
  {
    var reqs := DefaultConfig.requirements;
    assert forall i :: 0 <= i < |reqs| ==> reqs[i].path !in OsArtifacts;
    NoArtifactsNoSkips(reqs);
  }

  /** The two environment variables, as read. */
  datatype Environment = Environment(token: Option<string>, org: Option<string>)

  /** `_verify_environment`: both the token and the organization are set and non-empty. */
  predicate EnvironmentReady(env: Environment) {
    Truthy(env.token) && Truthy(env.org)
  }

  /* ---------------- branches ---------------- */

  datatype BranchCheck = BranchesPresent | ReleaseMissing | BaseMissing

  /** `_verify_branches`: the release branch first; the base branch is looked up
      only when the release branch exists. */
  function VerifyBranches(cfg: Config, remote: Remote): (r: BranchCheck)
    ensures r.BranchesPresent? <==>
              BranchExists(cfg.api, remote, cfg.releaseBranch) && BranchExists(cfg.api, remote, cfg.baseBranch)
    ensures r.ReleaseMissing? <==> !BranchExists(cfg.api, remote, cfg.releaseBranch)
  {
    if !BranchExists(cfg.api, remote, cfg.releaseBranch) then ReleaseMissing
    else if !BranchExists(cfg.api, remote, cfg.baseBranch) then BaseMissing
    else BranchesPresent
  }

  /** When the release branch is missing, whatever the service would say about
      the base branch is irrelevant: it is never asked. */
  lemma BaseNotConsultedWhenReleaseMissing(cfg: Config, remote: Remote, answer: Answer<()>)
    requires cfg.releaseBranch != cfg.baseBranch
    requires !BranchExists(cfg.api, remote, cfg.releaseBranch)
    ensures VerifyBranches(cfg, remote.(branches := remote.branches[cfg.baseBranch := answer])) == ReleaseMissing
  {
  }

  /* ---------------- report lines ---------------- */

  function VerdictLine(passed: bool): string {
    "verification result: " + (if passed then "PASS" else "FAIL")
  }

  function RepositoryLine(org: string, repo: string): string {
    "repository: " + org + "/" + repo
  }

  function BranchesLine(cfg: Config): string {
    "release branch: " + cfg.releaseBranch + "  base branch: " + cfg.baseBranch
  }

  /** The PR line. Newlines in the title become spaces, so the line never
      breaks, whatever the title. */
  function PrLine(pr: Option<PrSummary>): (r: string)
    ensures '\n' !in r
  {
    match pr
    case None => "release PR: not found"
    case Some(p) =>
      IntToStringHasNoNewline(p.number);
      "release PR: #" + IntToString(p.number) + "  title: " + SpaceNewlines(p.title)
  }

  /** The merge line: the method label and the parent count, on one line. */
  function MergeLine(e: MergeEvidence): (r: string)
    ensures '\n' !in r
  {
    IntToStringHasNoNewline(e.parents);
    assert '\n' !in MethodLabel(e.mergeMethod);
    "merge method: " + MethodLabel(e.mergeMethod) + "  parents: " + IntToString(e.parents)
  }

  /** The failed-file list as printed: comma-joined, or "none". */
  function FailedList(failed: seq<string>): string {
    if failed == [] then "none" else Join(failed, ",")
  }

  /** The printed list is on one line whenever the failed paths are. */
  lemma FailedListAvoids(failed: seq<string>)
    ensures (forall i :: 0 <= i < |failed| ==> '\n' !in failed[i]) ==> '\n' !in FailedList(failed)
  {
    if forall i :: 0 <= i < |failed| ==> '\n' !in failed[i] {
      JoinAvoids(failed, ",", '\n');
    }
  }

  /** `files checked: {total - |failed|}/{total}  failed files: ...`; on one
      line whenever no failed path has a line break. */
  function FilesLine(total: int, failed: seq<string>): (r: string)
    ensures (forall i :: 0 <= i < |failed| ==> '\n' !in failed[i]) ==> '\n' !in r
  {
    var passedText, totalText, list := IntToString(total - |failed|), IntToString(total), FailedList(failed);
    IntToStringHasNoNewline(total - |failed|);
    IntToStringHasNoNewline(total);
    FailedListAvoids(failed);
    var head := "files checked: " + passedText + "/";
    assert '\n' !in head;
    assert '\n' !in "  failed files: ";
    head + totalText + "  failed files: " + list
  }

  function TimestampLine(timestamp: string): string {
    "timestamp: " + timestamp
  }

  /** The fixed order of the report: verdict, repository, branches, PR, merge,
      files, timestamp. */
  function ReportLines(passed: bool, org: string, cfg: Config, pr: Option<PrSummary>, merge: MergeEvidence,
                       total: int, failed: seq<string>, timestamp: string): (lines: seq<string>)
    ensures |lines| == 7
  {
    [ VerdictLine(passed),
      RepositoryLine(org, cfg.repo),
      BranchesLine(cfg),
      PrLine(pr),
      MergeLine(merge),
      FilesLine(total, failed),
      TimestampLine(timestamp) ]
  }

  /* ---------------- the run ---------------- */

  /** Where the run ended. */
  datatype Stage = EnvironmentMissing | BranchMissing | Completed

  /** Everything a run decides, with the report lines it would write. */
  datatype Outcome = Outcome(
    stage: Stage,
    passed: bool,
    failedFiles: seq<string>,
    pr: Option<PrSummary>,
    merge: MergeEvidence,
    targetMismatch: bool,
    lines: seq<string>)

  const NoMerge := MergeEvidence(MethodNotFound, 0)

  /** The release pull request the run looks for (`_verify_release_pr`). */
  function ReleasePr(cfg: Config, remote: Remote): (r: Option<PrSummary>)
    ensures r.Some? ==> Matches(cfg.prTitleKeyword, r.value)
  {
    FindMergedPr(cfg.api, remote, cfg.prTitleKeyword, cfg.baseBranch, cfg.prState)
  }

  /** The outcome of a run that stopped before the file checks: a failing
      report with no pull request, no merge commit and no files counted. */
  function EarlyExit(stage: Stage, orgText: string, cfg: Config, timestamp: string): (o: Outcome)
    requires stage != Completed
    ensures o.stage == stage && !o.passed
    ensures o.pr.None? && o.merge == NoMerge && o.failedFiles == [] && !o.targetMismatch
    ensures o.lines == ReportLines(false, orgText, cfg, None, NoMerge, 0, [], timestamp)
  {
    Outcome(stage, false, [], None, NoMerge, false, ReportLines(false, orgText, cfg, None, NoMerge, 0, [], timestamp))
  }

  /** The outcome of a run that got past the branch check: every file
      requirement is checked, the pull request is searched for, its merge is
      classified, and the verdict is the conjunction of the three. */
  function CompletedRun(cfg: Config, org: string, remote: Remote, timestamp: string): (o: Outcome)
    ensures o.stage == Completed
    ensures o.failedFiles == FailedPaths(cfg.api, remote, cfg.requirements)
    ensures o.pr == ReleasePr(cfg, remote)
    ensures o.pr.None? ==> o.merge == NoMerge && !o.targetMismatch
    ensures o.pr.Some? ==> o.merge == ClassifyMerge(cfg.api, remote, o.pr.value.number)
    ensures o.pr.Some? ==> o.targetMismatch == MergeTargetMismatch(cfg.api, remote, o.pr.value.number, cfg.baseBranch)
    ensures o.passed <==>
              && (forall i :: 0 <= i < |cfg.requirements| ==> !Fails(cfg.api, remote, cfg.requirements[i]))
              && o.pr.Some?
              && o.merge.mergeMethod == SquashMerge
    ensures o.lines == ReportLines(o.passed, org, cfg, o.pr, o.merge, |cfg.requirements|, o.failedFiles, timestamp)
  {
    var failed := FailedPaths(cfg.api, remote, cfg.requirements);
    var filesOk := failed == [];
    var pr := ReleasePr(cfg, remote);
    var mismatch := pr.Some? && MergeTargetMismatch(cfg.api, remote, pr.value.number, cfg.baseBranch);
    var merge := if pr.Some? then ClassifyMerge(cfg.api, remote, pr.value.number) else NoMerge;
    var passed := filesOk && pr.Some? && merge.mergeMethod == SquashMerge;
    var lines := ReportLines(passed, org, cfg, pr, merge, |cfg.requirements|, failed, timestamp);
    Outcome(Completed, passed, failed, pr, merge, mismatch, lines)
  }

  /** `run_verification`, with the timestamp passed in. */
  function RunVerification(cfg: Config, env: Environment, remote: Remote, timestamp: string): (o: Outcome)
    ensures |o.lines| == 7
    ensures o.stage == EnvironmentMissing <==> !EnvironmentReady(env)
    ensures o.stage == Completed <==>
              && EnvironmentReady(env)
              && BranchExists(cfg.api, remote, cfg.releaseBranch)
              && BranchExists(cfg.api, remote, cfg.baseBranch)
    ensures o.stage == EnvironmentMissing ==>
              o.lines == ReportLines(false, "UNKNOWN", cfg, None, NoMerge, 0, [], timestamp)
    ensures o.stage == BranchMissing ==>
              o.lines == ReportLines(false, env.org.value, cfg, None, NoMerge, 0, [], timestamp)
    ensures o.stage != Completed ==> !o.passed && o.pr.None? && o.merge == NoMerge && o.failedFiles == []
    ensures o.stage == Completed ==>
              && o.failedFiles == FailedPaths(cfg.api, remote, cfg.requirements)
              && o.pr == ReleasePr(cfg, remote)
              && (o.pr.Some? ==> o.merge == ClassifyMerge(cfg.api, remote, o.pr.value.number))
              && (o.pr.None? ==> o.merge == NoMerge)
              && o.lines == ReportLines(o.passed, env.org.value, cfg, o.pr, o.merge,
                                        |cfg.requirements|, o.failedFiles, timestamp)
    ensures o.passed <==>
              && o.stage == Completed
              && (forall i :: 0 <= i < |cfg.requirements| ==> !Fails(cfg.api, remote, cfg.requirements[i]))
              && o.pr.Some?
              && ClassifyMerge(cfg.api, remote, o.pr.value.number).mergeMethod == SquashMerge
  {
    if !EnvironmentReady(env) then EarlyExit(EnvironmentMissing, "UNKNOWN", cfg, timestamp)
    else if !VerifyBranches(cfg, remote).BranchesPresent? then EarlyExit(BranchMissing, env.org.value, cfg, timestamp)
    else CompletedRun(cfg, env.org.value, remote, timestamp)
  }

  /* ---------------- properties of the run ---------------- */

  /** The verdict line says PASS exactly when the run passed, and FAIL otherwise. */
  lemma VerdictLineReflectsVerdict(cfg: Config, env: Environment, remote: Remote, timestamp: string)
    ensures var o := RunVerification(cfg, env, remote, timestamp);
            && (o.lines[0] == "verification result: PASS" <==> o.passed)
            && (o.lines[0] == "verification result: FAIL" <==> !o.passed)
  {
    var o := RunVerification(cfg, env, remote, timestamp);
    VerdictLineText(o.passed);
  }

  /** The two verdict lines are distinct texts. */
  lemma VerdictLineText(passed: bool)
    ensures VerdictLine(passed) == "verification result: PASS" <==> passed
    ensures VerdictLine(passed) == "verification result: FAIL" <==> !passed
  {
    assert "verification result: PASS"[21] != "verification result: FAIL"[21];
  }

  /** The merge line of a run that found no merge commit. */
  lemma NoMergeLine()
    ensures MergeLine(NoMerge) == "merge method: not found  parents: 0"
  {
    assert IntToString(0) == "0";
  }

  /** The files line of a run that checked no files. */
  lemma NoFilesLine()
    ensures FilesLine(0, []) == "files checked: 0/0  failed files: none"
  {
    assert IntToString(0) == "0";
  }

  /** An early exit reports no pull request, no merge commit and no files. */
  lemma EarlyExitReport(cfg: Config, env: Environment, remote: Remote, timestamp: string)
    requires RunVerification(cfg, env, remote, timestamp).stage != Completed
    ensures var lines := RunVerification(cfg, env, remote, timestamp).lines;
            && lines[0] == "verification result: FAIL"
            && lines[3] == "release PR: not found"
            && lines[4] == "merge method: not found  parents: 0"
            && lines[5] == "files checked: 0/0  failed files: none"
  {
    NoMergeLine();
    NoFilesLine();
  }

  /** The file checks read only the file-contents table. */
  lemma {:induction false} FailedPathsReadOnlyFiles(s: ApiSettings, r1: Remote, r2: Remote, reqs: seq<FileRequirement>)
    requires r1.files == r2.files
    ensures FailedPaths(s, r1, reqs) == FailedPaths(s, r2, reqs)
  {
    if reqs != [] {
      assert CheckFile(s, r1, reqs[0]) == CheckFile(s, r2, reqs[0]);
      FailedPathsReadOnlyFiles(s, r1, r2, reqs[1..]);
    }
  }

  /** `remote` with the `base.ref` of pull request `number` rewritten to `ref`. */
  function WithBaseRef(remote: Remote, number: int, ref: Option<string>): Remote
    requires number in remote.pulls && remote.pulls[number].Response?
  {
    remote.(pulls := remote.pulls[number :=
      Response(remote.pulls[number].status, remote.pulls[number].body.(baseRef := ref))])
  }

  /** The merge classification reads the merge-commit sha of the detail, never its base. */
  lemma ClassifyMergeIgnoresBaseRef(s: ApiSettings, remote: Remote, number: int, ref: Option<string>, n: int)
    requires number in remote.pulls && remote.pulls[number].Response?
    ensures ClassifyMerge(s, WithBaseRef(remote, number, ref), n) == ClassifyMerge(s, remote, n)
  {
    assert MergeCommit(s, WithBaseRef(remote, number, ref), n) == MergeCommit(s, remote, n);
  }

  /** The pull request's `base.ref` is never part of the verdict or the report:
      rewriting it in the pull-request detail changes neither. */
  lemma TargetMismatchOnlyLogged(cfg: Config, env: Environment, remote: Remote, timestamp: string,
                                 number: int, ref: Option<string>)
    requires number in remote.pulls && remote.pulls[number].Response?
    ensures var o := RunVerification(cfg, env, remote, timestamp);
            var o' := RunVerification(cfg, env, WithBaseRef(remote, number, ref), timestamp);
            o'.passed == o.passed && o'.lines == o.lines
  {
    var changed := WithBaseRef(remote, number, ref);
    FailedPathsReadOnlyFiles(cfg.api, remote, changed, cfg.requirements);
    assert ReleasePr(cfg, changed) == ReleasePr(cfg, remote);
    var pr := ReleasePr(cfg, remote);
    if pr.Some? {
      ClassifyMergeIgnoresBaseRef(cfg.api, remote, number, ref, pr.value.number);
    }
  }

  lemma FixedLinesHaveNoNewline(passed: bool, org: string, cfg: Config, timestamp: string)
    requires '\n' !in org && '\n' !in cfg.repo && '\n' !in cfg.releaseBranch && '\n' !in cfg.baseBranch
    requires '\n' !in timestamp
    ensures '\n' !in VerdictLine(passed)
    ensures '\n' !in RepositoryLine(org, cfg.repo)
    ensures '\n' !in BranchesLine(cfg)
    ensures '\n' !in TimestampLine(timestamp)
  {
  }

  /** The seven report lines are free of line breaks when the inputs they
      print are; the pull-request title needs no condition, since its newlines
      become spaces. */
  lemma ReportLinesHaveNoNewline(passed: bool, org: string, cfg: Config, pr: Option<PrSummary>,
                                 merge: MergeEvidence, total: int, failed: seq<string>, timestamp: string)
    requires '\n' !in org && '\n' !in cfg.repo && '\n' !in cfg.releaseBranch && '\n' !in cfg.baseBranch
    requires forall i :: 0 <= i < |failed| ==> '\n' !in failed[i]
    requires '\n' !in timestamp
    ensures var lines := ReportLines(passed, org, cfg, pr, merge, total, failed, timestamp);
            forall k :: 0 <= k < |lines| ==> '\n' !in lines[k]
  {
    FixedLinesHaveNoNewline(passed, org, cfg, timestamp);
  }

  /** The report file holds the seven lines joined by "\n". When the
      configured names, the organization, the configured paths and the
      timestamp have no line break, it reads back as exactly those seven
      lines. */
  lemma ReportReadsBackAsSevenLines(cfg: Config, env: Environment, remote: Remote, timestamp: string)
    requires '\n' !in cfg.repo && '\n' !in cfg.releaseBranch && '\n' !in cfg.baseBranch
    requires forall i :: 0 <= i < |cfg.requirements| ==> '\n' !in cfg.requirements[i].path
    requires env.org.Some? ==> '\n' !in env.org.value
    requires '\n' !in timestamp
    ensures var lines := RunVerification(cfg, env, remote, timestamp).lines;
            |lines| == 7 && Split(Join(lines, "\n"), '\n') == lines
  {
    var o := RunVerification(cfg, env, remote, timestamp);
    var org := if o.stage == EnvironmentMissing then "UNKNOWN" else env.org.value;
    var total := if o.stage == Completed then |cfg.requirements| else 0;
    FailedPathsMembers(cfg.api, remote, cfg.requirements);
    forall k | 0 <= k < |o.failedFiles| ensures '\n' !in o.failedFiles[k] {
      assert o.failedFiles[k] in o.failedFiles;
    }
    ReportLinesHaveNoNewline(o.passed, org, cfg, o.pr, o.merge, total, o.failedFiles, timestamp);
    SplitJoin(o.lines, '\n');
  }

  /** The failed-file list printed on the files line reads back as the list of
      failing paths, provided none of them contains a comma. */
  lemma FailedListReadsBack(failed: seq<string>)
    requires failed != []
    requires forall i :: 0 <= i < |failed| ==> ',' !in failed[i]
    ensures Split(FailedList(failed), ',') == failed
  {
    SplitJoin(failed, ',');
  }

  /** A requirement that alone fails makes the run fail and is the one path the
      files line lists, whatever the pull-request outcome. */
  lemma SingleFailingFile(cfg: Config, env: Environment, remote: Remote, timestamp: string, i: nat)
    requires EnvironmentReady(env)
    requires BranchExists(cfg.api, remote, cfg.releaseBranch) && BranchExists(cfg.api, remote, cfg.baseBranch)
    requires i < |cfg.requirements| && Fails(cfg.api, remote, cfg.requirements[i])
    requires forall k :: 0 <= k < |cfg.requirements| && k != i ==> !Fails(cfg.api, remote, cfg.requirements[k])
    ensures var o := RunVerification(cfg, env, remote, timestamp);
            && !o.passed
            && o.failedFiles == [cfg.requirements[i].path]
            && o.lines[5] == FilesLine(|cfg.requirements|, [cfg.requirements[i].path])
  {
    FailedPathsOfSingleFailure(cfg.api, remote, cfg.requirements, i);
  }
}
