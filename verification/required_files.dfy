/**
 The file-requirement check of the release verifier (`_verify_required_files`).
 Each configured requirement names a file at a branch. The file passes when its
 decoded text is non-empty, at least `minSize` characters long, and contains
 verbatim every string listed under any of the three content keys. The check
 runs over every requirement, never stopping early, and reports the overall
 boolean and the ordered list of failing paths.
 */
module RequiredFiles {
  import opened Options
  import opened Text
  import opened GitHubApi

  /** One configured file requirement. The three content keys are independent
      and each may be absent: `required_content` (one string),
      `required_contents` (a list) and `required_keywords` (a list). */
  datatype FileRequirement = FileRequirement(
    name: string,
    path: string,
    branch: string,
    minSize: int,
    requiredContent: Option<string>,
    requiredContents: Option<seq<string>>,
    requiredKeywords: Option<seq<string>>)

  /** Why a requirement failed; `MissingContent` lists what the first failing key missed. */
  datatype FileFailure = Unreadable | TooSmall(size: nat) | MissingContent(missing: seq<string>)

  datatype FileResult = Skipped | Passed | Failed(reason: FileFailure)

  /** Operating-system metadata files that are skipped without a lookup. */
  const OsArtifacts: seq<string> := [".DS_Store", "Thumbs.db"]

  /** Every string the requirement asks for, over all three keys, in key order. */
  function RequiredStrings(req: FileRequirement): seq<string>
  {
    (if req.requiredContent.Some? then [req.requiredContent.value] else [])
    + req.requiredContents.GetOr([])
    + req.requiredKeywords.GetOr([])
  }

  /** What a requirement demands of a file's decoded text. */
  predicate Acceptable(req: FileRequirement, text: string) {
    && text != ""
    && |text| >= req.minSize
    && forall x :: x in RequiredStrings(req) ==> Contains(text, x)
  }

  /** `[c for c in items if c not in text]`. */
  function MissingFrom(text: string, items: seq<string>): (m: seq<string>)
    ensures |m| <= |items|
    ensures forall x :: x in m <==> x in items && !Contains(text, x)
  {
    if items == [] then []
    else
      var rest := MissingFrom(text, items[1..]);
      assert forall x :: x in items <==> x == items[0] || x in items[1..];
      (if Contains(text, items[0]) then [] else [items[0]]) + rest
  }

  /** The loop body of `_verify_required_files` after the lookup: unreadable
      (absent or empty) text first, then the size, then `required_content`,
      `required_contents` and `required_keywords` in that order. */
  function CheckText(req: FileRequirement, content: Option<string>): (r: FileResult)
    ensures !r.Skipped?
  {
    if content.None? || content.value == "" then Failed(Unreadable)
    else
      var text := content.value;
      if |text| < req.minSize then Failed(TooSmall(|text|))
      else if req.requiredContent.Some? && !Contains(text, req.requiredContent.value) then
        Failed(MissingContent([req.requiredContent.value]))
      else if req.requiredContents.Some? && MissingFrom(text, req.requiredContents.value) != [] then
        Failed(MissingContent(MissingFrom(text, req.requiredContents.value)))
      else if req.requiredKeywords.Some? && MissingFrom(text, req.requiredKeywords.value) != [] then
        Failed(MissingContent(MissingFrom(text, req.requiredKeywords.value)))
      else
        Passed
  }

  /** A file passes exactly when its text is acceptable: present and non-empty,
      long enough, and containing every string of all three keys. A failure
      names its first failing step; empty text is unreadable even when the
      minimum size is 0. */
  lemma CheckTextMeaning(req: FileRequirement, content: Option<string>)
    ensures CheckText(req, content).Passed? <==> content.Some? && Acceptable(req, content.value)
    ensures CheckText(req, content) == Failed(Unreadable) <==> content.None? || content.value == ""
    ensures (CheckText(req, content).Failed? && CheckText(req, content).reason.TooSmall?)
            <==> content.Some? && content.value != "" && |content.value| < req.minSize
    ensures var r := CheckText(req, content);
            r.Failed? && r.reason.MissingContent? ==>
              && r.reason.missing != []
              && forall x :: x in r.reason.missing ==> x in RequiredStrings(req) && !Contains(content.value, x)
  {
    if content.Some? && content.value != "" {
      var text := content.value;
      var contents := req.requiredContents.GetOr([]);
      var keywords := req.requiredKeywords.GetOr([]);
      var one := if req.requiredContent.Some? then [req.requiredContent.value] else [];
      assert RequiredStrings(req) == one + contents + keywords;
      var r := CheckText(req, content);
      if r.Failed? && r.reason.MissingContent? {
        assert r.reason.missing[0] in RequiredStrings(req);
      } else if r.Passed? {
        assert forall x :: x in contents ==> Contains(text, x);
        assert forall x :: x in keywords ==> Contains(text, x);
      }
    }
  }

  /** One requirement against the remote: OS artifacts are skipped before any
      lookup, everything else is judged on the file's decoded text. */
  function CheckFile(s: ApiSettings, remote: Remote, req: FileRequirement): (r: FileResult)
    ensures r.Skipped? <==> req.path in OsArtifacts
  {
    if req.path in OsArtifacts then Skipped
    else CheckText(req, FileContent(s, remote, req.path, req.branch))
  }

  /** A configured file passes exactly when it is not an OS artifact and its
      decoded text at the configured branch is acceptable. */
  lemma CheckFileMeaning(s: ApiSettings, remote: Remote, req: FileRequirement)
    ensures CheckFile(s, remote, req).Passed? <==>
              && req.path !in OsArtifacts
              && FileContent(s, remote, req.path, req.branch).Some?
              && Acceptable(req, FileContent(s, remote, req.path, req.branch).value)
  {
    CheckTextMeaning(req, FileContent(s, remote, req.path, req.branch));
  }

  predicate Fails(s: ApiSettings, remote: Remote, req: FileRequirement) {
    CheckFile(s, remote, req).Failed?
  }

  /** The failed-path list: each failing requirement contributes its path, in
      configuration order. */
  function FailedPaths(s: ApiSettings, remote: Remote, reqs: seq<FileRequirement>): (failed: seq<string>)
    ensures |failed| <= |reqs|
    ensures failed == [] <==> forall i :: 0 <= i < |reqs| ==> !Fails(s, remote, reqs[i])
  {
    if reqs == [] then []
    else
      var rest := FailedPaths(s, remote, reqs[1..]);
      assert forall i :: 1 <= i < |reqs| ==> reqs[i] == reqs[1..][i - 1];
      (if Fails(s, remote, reqs[0]) then [reqs[0].path] else []) + rest
  }

  /** Every failing requirement's path is listed, and every listed path is the
      path of a failing requirement, so never that of a skipped OS artifact. */
  lemma {:induction false} FailedPathsMembers(s: ApiSettings, remote: Remote, reqs: seq<FileRequirement>)
    ensures forall i :: 0 <= i < |reqs| && Fails(s, remote, reqs[i]) ==> reqs[i].path in FailedPaths(s, remote, reqs)
    ensures forall p :: p in FailedPaths(s, remote, reqs) ==>
              exists i :: 0 <= i < |reqs| && Fails(s, remote, reqs[i]) && reqs[i].path == p
    ensures forall p :: p in FailedPaths(s, remote, reqs) ==> p !in OsArtifacts
  {
    if reqs != [] {
      FailedPathsMembers(s, remote, reqs[1..]);
      assert forall i :: 1 <= i < |reqs| ==> reqs[i] == reqs[1..][i - 1];
    }
  }

  /** Order is preserved: the failures of a concatenation are the failures of
      its first part followed by those of its second. */
  lemma {:induction false} FailedPathsAppend(s: ApiSettings, remote: Remote, a: seq<FileRequirement>, b: seq<FileRequirement>)
    ensures FailedPaths(s, remote, a + b) == FailedPaths(s, remote, a) + FailedPaths(s, remote, b)
    decreases |a|
  {
    if a == [] {
      assert a + b == b;
    } else {
      var head := if Fails(s, remote, a[0]) then [a[0].path] else [];
      assert (a + b)[0] == a[0];
      assert (a + b)[1..] == a[1..] + b;
      assert FailedPaths(s, remote, a + b) == head + FailedPaths(s, remote, a[1..] + b);
      FailedPathsAppend(s, remote, a[1..], b);
    }
  }

  /** One more requirement adds its path at the end exactly when it fails. */
  lemma FailedPathsSnoc(s: ApiSettings, remote: Remote, a: seq<FileRequirement>, f: FileRequirement)
    ensures FailedPaths(s, remote, a + [f])
            == FailedPaths(s, remote, a) + (if Fails(s, remote, f) then [f.path] else [])
  {
    FailedPathsAppend(s, remote, a, [f]);
    assert FailedPaths(s, remote, [f]) == (if Fails(s, remote, f) then [f.path] else []) + FailedPaths(s, remote, []);
  }

  /** When exactly one requirement fails, its path is the whole failed list. */
  lemma FailedPathsOfSingleFailure(s: ApiSettings, remote: Remote, reqs: seq<FileRequirement>, i: nat)
    requires i < |reqs| && Fails(s, remote, reqs[i])
    requires forall k :: 0 <= k < |reqs| && k != i ==> !Fails(s, remote, reqs[k])
    ensures FailedPaths(s, remote, reqs) == [reqs[i].path]
  {
    var before := reqs[..i];
    var after := reqs[i + 1..];
    forall k | 0 <= k < |before| ensures !Fails(s, remote, before[k]) {
      assert before[k] == reqs[k];
    }
    forall k | 0 <= k < |after| ensures !Fails(s, remote, after[k]) {
      assert after[k] == reqs[i + 1 + k];
    }
    var none := FailedPaths(s, remote, before);
    assert none == [];
    assert FailedPaths(s, remote, after) == [];
    FailedPathsSnoc(s, remote, before, reqs[i]);
    var upTo := before + [reqs[i]];
    assert FailedPaths(s, remote, upTo) == [reqs[i].path];
    FailedPathsAppend(s, remote, upTo, after);
    assert reqs == upTo + after;
  }

  /** `_verify_required_files`: every requirement is checked, failures accumulate
      and never stop the loop. */
  method VerifyRequiredFiles(s: ApiSettings, remote: Remote, reqs: seq<FileRequirement>)
    returns (ok: bool, failed: seq<string>)
    ensures failed == FailedPaths(s, remote, reqs)
    ensures ok <==> failed == []
    ensures ok <==> forall i :: 0 <= i < |reqs| ==> !Fails(s, remote, reqs[i])
  {
    ok := true;
    failed := [];
    var k := 0;
    while k < |reqs|
      invariant 0 <= k <= |reqs|
      invariant failed == FailedPaths(s, remote, reqs[..k])
      invariant ok <==> failed == []
    {
      var f := reqs[k];
      FailedPathsSnoc(s, remote, reqs[..k], f);
      assert reqs[..k + 1] == reqs[..k] + [f];
      k := k + 1;
      var r := CheckFile(s, remote, f);
      if r.Failed? {
        ok := false;
        failed := failed + [f.path];
      }
    }
    assert reqs[..k] == reqs;
  }

  /** How many requirements passed. */
  function CountPassed(s: ApiSettings, remote: Remote, reqs: seq<FileRequirement>): nat
  {
    if reqs == [] then 0
    else (if CheckFile(s, remote, reqs[0]).Passed? then 1 else 0) + CountPassed(s, remote, reqs[1..])
  }

  /** How many requirements were skipped as OS artifacts. */
  function CountSkipped(reqs: seq<FileRequirement>): nat
  {
    if reqs == [] then 0
    else (if reqs[0].path in OsArtifacts then 1 else 0) + CountSkipped(reqs[1..])
  }

  /** The report's "passed" numerator, total minus failed, counts the skipped
      OS-artifact requirements together with the ones that passed. */
  lemma {:induction false} PassedNumeratorCountsSkipped(s: ApiSettings, remote: Remote, reqs: seq<FileRequirement>)
    ensures |reqs| - |FailedPaths(s, remote, reqs)| == CountPassed(s, remote, reqs) + CountSkipped(reqs)
  {
    if reqs != [] {
      PassedNumeratorCountsSkipped(s, remote, reqs[1..]);
    }
  }

  /** Without OS-artifact paths nothing is skipped. */
  lemma {:induction false} NoArtifactsNoSkips(reqs: seq<FileRequirement>)
    requires forall i :: 0 <= i < |reqs| ==> reqs[i].path !in OsArtifacts
    ensures CountSkipped(reqs) == 0
  {
    if reqs != [] {
      assert reqs[0].path !in OsArtifacts;
      NoArtifactsNoSkips(reqs[1..]);
    }
  }
}
