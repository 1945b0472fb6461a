/** The decision at the heart of the checkExpectedBranchVersion task: given the
    project version and the current branch name, is the branch a maintenance
    branch `major.minor.x`, and if so does the version belong to it? */
module BranchVersionCheck {
  import opened JavaString

  // ---------------------------------------------------------------------------
  // The branch pattern ^[0-9]+\.[0-9]+\.x$
  // ---------------------------------------------------------------------------

  predicate IsDigit(c: char) {
    '0' <= c <= '9'
  }

  /** `[0-9]+`: one or more ASCII digits. */
  predicate IsDigits(s: string) {
    |s| > 0 && forall i :: 0 <= i < |s| ==> IsDigit(s[i])
  }

  /** Position of the first dot in s, or |s| when there is none. */
  function FirstDot(s: string): (k: nat)
    ensures k <= |s|
    ensures '.' !in s[..k]
    ensures k < |s| ==> s[k] == '.'
  {
    if |s| == 0 || s[0] == '.' then 0 else 1 + FirstDot(s[1..])
  }

  lemma {:induction false} FirstDotOf(a: string, rest: string)
    requires '.' !in a
    ensures FirstDot(a + "." + rest) == |a|
  {
    if a != [] {
      assert (a + "." + rest)[1..] == a[1..] + "." + rest;
      FirstDotOf(a[1..], rest);
    }
  }

  /** The name of the maintenance branch of a major and a minor version. */
  function BranchOf(major: string, minor: string): string {
    major + "." + minor + ".x"
  }

  /** Whether s matches the anchored pattern ^[0-9]+\.[0-9]+\.x$ as a whole:
      it ends in ".x", and what comes before is digits, one dot, digits. */
  predicate IsBranchVersion(s: string) {
    |s| >= 2 && s[|s| - 2..] == ".x" &&
    var body := s[..|s| - 2];
    var k := FirstDot(body);
    k < |body| && IsDigits(body[..k]) && IsDigits(body[k + 1..])
  }

  /** The major part of a maintenance branch name. */
  function Major(s: string): string
    requires IsBranchVersion(s)
  {
    s[..FirstDot(s[..|s| - 2])]
  }

  /** The minor part of a maintenance branch name. */
  function Minor(s: string): string
    requires IsBranchVersion(s)
  {
    s[FirstDot(s[..|s| - 2]) + 1..|s| - 2]
  }

  /** Every name the pattern accepts is major.minor.x with two runs of digits. */
  lemma BranchVersionShape(s: string)
    requires IsBranchVersion(s)
    ensures IsDigits(Major(s)) && IsDigits(Minor(s))
    ensures s == BranchOf(Major(s), Minor(s))
  {
  }

  /** ... and the pattern accepts every such name, reading back the same two
      runs of digits. */
  lemma BranchOfIsBranchVersion(major: string, minor: string)
    requires IsDigits(major) && IsDigits(minor)
    ensures IsBranchVersion(BranchOf(major, minor))
    ensures Major(BranchOf(major, minor)) == major
    ensures Minor(BranchOf(major, minor)) == minor
  {
    var s := BranchOf(major, minor);
    var body := major + "." + minor;
    assert s[..|s| - 2] == body;
    assert s[|s| - 2..] == ".x";
    assert '.' !in major by { assert !IsDigit('.'); }
    FirstDotOf(major, minor);
    var k := FirstDot(body);
    assert body[..k] == major;
    assert body[k + 1..] == minor;
  }

  /** A name the pattern accepts splits into exactly three segments, the major
      digits, the minor digits and "x"; so the branch-side "fewer than two
      segments" guard of versionsMatch can never fire behind the pattern. */
  lemma BranchVersionSplit(s: string)
    requires IsBranchVersion(s)
    ensures Split(s) == [Major(s), Minor(s), "x"]
  {
    BranchVersionShape(s);
    var ps := [Major(s), Minor(s), "x"];
    assert forall i :: 0 <= i < 3 ==> '.' !in ps[i] by {
      assert '.' !in Major(s) by { assert !IsDigit('.'); }
      assert '.' !in Minor(s) by { assert !IsDigit('.'); }
    }
    assert ps[1..] == [Minor(s), "x"] && ps[1..][1..] == ["x"];
    assert Join(ps[1..]) == Minor(s) + "." + "x";
    assert Join(ps) == Major(s) + "." + (Minor(s) + "." + "x");
    assert Join(ps) == s;
    SplitJoin(ps);
  }

  // ---------------------------------------------------------------------------
  // versionsMatch
  // ---------------------------------------------------------------------------

  /** versionsMatch: both strings split on dots into at least two segments,
      and the first two are equal character for character. */
  predicate VersionsMatch(projectVersion: string, branchVersion: string)
    ensures VersionsMatch(projectVersion, branchVersion) ==>
      '.' in projectVersion && '.' in branchVersion
  {
    var projectParts := Split(projectVersion);
    var branchParts := Split(branchVersion);
    if |projectParts| < 2 || |branchParts| < 2 then false
    else projectParts[0] == branchParts[0] && projectParts[1] == branchParts[1]
  }

  /** Against a maintenance branch major.minor.x, a version matches exactly
      when it is major.minor itself or starts with "major.minor.": the two
      leading segments compare as text, with no numeric normalisation. */
  lemma VersionsMatchBranch(version: string, branch: string)
    requires IsBranchVersion(branch)
    ensures VersionsMatch(version, branch)
        <==> (version == Major(branch) + "." + Minor(branch)
              || Major(branch) + "." + Minor(branch) + "." <= version)
  {
    BranchVersionShape(branch);
    BranchVersionSplit(branch);
    assert '.' !in Major(branch) && '.' !in Minor(branch) by {
      assert !IsDigit('.');
    }
    SplitFirstTwo(version, Major(branch), Minor(branch));
  }

  /** A version with no minor segment never matches anything: no dot at all,
      or a single trailing dot which split drops ("" and "6." both give one
      segment, "." gives none). */
  lemma VersionWithoutMinor(major: string, branch: string)
    requires '.' !in major
    ensures !VersionsMatch(major, branch)
    ensures !VersionsMatch(major + ".", branch)
  {
    var s := major + ".";
    PiecesCons(major, "");
    assert s == major + "." + "";
    PiecesNoDot("");
    assert Pieces(s) == [major, ""];
    assert s[|major|] == '.';
    assert DropTrailingEmpty([major, ""]) == DropTrailingEmpty([major]);
  }

  // ---------------------------------------------------------------------------
  // The outcome of one run
  // ---------------------------------------------------------------------------

  /** The three ways a run can end. */
  datatype Outcome =
    | Skipped(branch: string)                      // not a maintenance branch
    | Matched(version: string)                     // version belongs to the branch
    | Mismatched(version: string, branch: string)  // it does not

  /** The decision of CheckExpectedBranchVersionTask.run on its two inputs. */
  function Check(version: string, branchName: string): Outcome
  {
    var branchVersion := Trim(branchName);
    if !IsBranchVersion(branchVersion) then Skipped(branchVersion)
    else if !VersionsMatch(version, branchVersion) then Mismatched(version, branchVersion)
    else Matched(version)
  }

  function SkipMessage(branchVersion: string): string {
    "Branch version [" + branchVersion + "] does not match *.x, ignoring"
  }

  function MismatchMessage(version: string, branchVersion: string): string {
    "Project version [" + version + "] does not match branch version ["
    + branchVersion + "]. Please verify that the branch contains the right version."
  }

  /** The text written to the output file for each outcome. */
  function Message(o: Outcome): string {
    match o
    case Skipped(b) => SkipMessage(b)
    case Matched(v) => v
    case Mismatched(v, b) => MismatchMessage(v, b)
  }

  /** What a run decides, stated without the helpers: the trimmed branch name
      is used throughout; a name outside the pattern is skipped whatever the
      version; a maintenance branch major.minor.x is matched exactly by the
      versions "major.minor" and "major.minor.<anything>"; every other version
      is a mismatch. */
  lemma CheckOutcome(version: string, branchName: string)
    ensures var b := Trim(branchName);
      && (!IsBranchVersion(b) ==> Check(version, branchName) == Skipped(b))
      && (IsBranchVersion(b) ==>
            var prefix := Major(b) + "." + Minor(b);
            && (version == prefix || prefix + "." <= version ==>
                  Check(version, branchName) == Matched(version))
            && (!(version == prefix || prefix + "." <= version) ==>
                  Check(version, branchName) == Mismatched(version, b)))
  {
    var b := Trim(branchName);
    if IsBranchVersion(b) {
      VersionsMatchBranch(version, b);
    }
  }

  /** On a branch outside the pattern the version is never looked at: any two
      versions give the same outcome and the same output text. */
  lemma SkipIgnoresVersion(version1: string, version2: string, branchName: string)
    requires !IsBranchVersion(Trim(branchName))
    ensures Check(version1, branchName) == Check(version2, branchName)
    ensures Message(Check(version1, branchName)) == SkipMessage(Trim(branchName))
  {
  }

  /** Surrounding blanks of the branch name do not change the outcome. */
  lemma CheckIgnoresSurroundingBlanks(version: string, pre: string, branchName: string, suf: string)
    requires AllTrimmable(pre) && AllTrimmable(suf)
    ensures Check(version, pre + branchName + suf) == Check(version, branchName)
  {
    TrimShape(branchName);
    var i := LeadingBlanks(branchName);
    var t := Trim(branchName);
    var left := branchName[..i];
    var right := branchName[i + |t|..];
    assert pre + branchName + suf == (pre + left) + t + (right + suf);
    assert AllTrimmable(pre + left);
    assert AllTrimmable(right + suf);
    TrimOf(pre + left, t, right + suf);
  }
}
