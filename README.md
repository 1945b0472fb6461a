# Branch/version consistency check, modelled in Dafny

This project models the `checkExpectedBranchVersion` task of the Spring Security
build (`CheckExpectedBranchVersionPlugin`). The task takes the project version
and the current branch name. It decides one of three outcomes:

- **Skipped**: the trimmed branch name is not a maintenance branch `major.minor.x`.
- **Matched**: the first two dot-separated segments of the version equal those of the branch.
- **Mismatched**: anything else.

It writes one output file whose content depends on the outcome. On a mismatch it
fails the build, but only after the file has been written. A Gradle `onlyIf`
gate decides first whether the task runs at all. It runs only when the
`skipCheckExpectedBranchVersion` property is absent or equals `"false"` ignoring case.

Files:

- `java_string.dfy` (module `JavaString`): the three `java.lang.String` operations the task relies on.
  - `trim()` drops characters at or below U+0020 at both ends.
  - `split("\\.")` returns the whole string when it has no dot, and otherwise drops trailing empty segments.
  - `equalsIgnoreCase()` compares character by character: equal, or equal in upper case, or equal in the lower case of the upper case.
- `branch_version_check.dfy` (module `BranchVersionCheck`): the branch pattern `^[0-9]+\.[0-9]+\.x$` as a hand-written predicate, `versionsMatch`, the `Outcome` of a run and the text written for it.
- `plugin.dfy` (module `CheckExpectedBranchVersionPlugin`): the `onlyIf` gate, the task as a class with an `output` field, its `run` action, gated execution and worked examples.

Where the documentation and the code disagree, the model follows the code:

- The Javadoc of `onlyIfCheck` (line 60) says it returns true when the property is present with a value other than `false`. The code returns true, meaning "run the task", when the property is absent or equals `false` ignoring case. The model follows the code.
- "Ignoring case" is Java's `equalsIgnoreCase`. Because Java upper-cases the long s (U+017F) to `S`, the value `"falſe"` also lets the task run (`OnlyIfCheckRuns`).
- "Trimmed" is Java's `trim`. It removes every character at or below U+0020, control characters included. It does not remove other Unicode white space.

## Model

| member | source | states |
|---|---|---|
| `JavaString.TrimShape` | buildSrc/src/main/java/org/springframework/security/CheckExpectedBranchVersionPlugin.java:87 | The trimmed branch name is a contiguous piece of the input. Everything dropped before and after it is at or below U+0020. The piece starts and ends with a character above U+0020. |
| `JavaString.TrimOf` | buildSrc/src/main/java/org/springframework/security/CheckExpectedBranchVersionPlugin.java:87 | Conversely, a piece framed by characters at or below U+0020, with no such character at its own ends, is exactly what trim returns. |
| `JavaString.TrimIdempotent` | buildSrc/src/main/java/org/springframework/security/CheckExpectedBranchVersionPlugin.java:87 | Trimming an already trimmed branch name changes nothing. |
| `JavaString.Split` | buildSrc/src/main/java/org/springframework/security/CheckExpectedBranchVersionPlugin.java:113-114 | No segment of `split("\\.")` contains a dot. When the string has a dot, the segments are a prefix of the pieces between its dots. |
| `JavaString.JoinPieces` | buildSrc/src/main/java/org/springframework/security/CheckExpectedBranchVersionPlugin.java:113-114 | Joining the pieces between the dots with dots gives back the original string. |
| `JavaString.SplitJoin` | buildSrc/src/main/java/org/springframework/security/CheckExpectedBranchVersionPlugin.java:113-114 | `split("\\.")` inverts joining dot-free pieces with dots, whenever the last piece is non-empty or there is only one piece. |
| `JavaString.SplitFirstTwo` | buildSrc/src/main/java/org/springframework/security/CheckExpectedBranchVersionPlugin.java:113-118 | For dot-free `a` and non-empty dot-free `b`: split gives at least two segments starting with `a`, `b` exactly when the string is `a.b` or starts with `a.b.`. |
| `BranchVersionCheck.BranchVersionShape` | buildSrc/src/main/java/org/springframework/security/CheckExpectedBranchVersionPlugin.java:88 | Every name the pattern accepts is `major.minor.x`, where major and minor are non-empty runs of ASCII digits. |
| `BranchVersionCheck.BranchOfIsBranchVersion` | buildSrc/src/main/java/org/springframework/security/CheckExpectedBranchVersionPlugin.java:88 | The pattern accepts every `major.minor.x` built from two digit runs, and reads the same major and minor back. |
| `BranchVersionCheck.BranchVersionSplit` | buildSrc/src/main/java/org/springframework/security/CheckExpectedBranchVersionPlugin.java:114-115 | A name the pattern accepts splits into exactly `[major, minor, "x"]`. So the branch-side "fewer than two segments" guard can never fire after the pattern check. |
| `BranchVersionCheck.VersionsMatch` | buildSrc/src/main/java/org/springframework/security/CheckExpectedBranchVersionPlugin.java:112-119 | `versionsMatch` is true only if both strings contain a dot. A dotless string splits into one segment, which the length guard rejects. |
| `BranchVersionCheck.VersionsMatchBranch` | buildSrc/src/main/java/org/springframework/security/CheckExpectedBranchVersionPlugin.java:112-119 | Against branch `major.minor.x`, a version matches exactly when it is `major.minor` or starts with `major.minor.`. The comparison is textual, with no numeric normalisation. |
| `BranchVersionCheck.VersionWithoutMinor` | buildSrc/src/main/java/org/springframework/security/CheckExpectedBranchVersionPlugin.java:113-117 | A version with no dot, or with only a trailing dot (`""`, `"6"`, `"6."`, `"."`), never matches any branch. Split drops the trailing empty segment and the length guard answers false. |
| `BranchVersionCheck.CheckOutcome` | buildSrc/src/main/java/org/springframework/security/CheckExpectedBranchVersionPlugin.java:86-102 | The decision uses the trimmed branch name throughout. A name outside the pattern gives Skipped carrying that name. A maintenance branch gives Matched exactly for versions `major.minor` or `major.minor.*`, and Mismatched with the version and trimmed branch otherwise. |
| `BranchVersionCheck.SkipIgnoresVersion` | buildSrc/src/main/java/org/springframework/security/CheckExpectedBranchVersionPlugin.java:88-93 | On a branch outside the pattern, the outcome and the message do not depend on the version. The message is the skip message quoting the trimmed branch. |
| `BranchVersionCheck.CheckIgnoresSurroundingBlanks` | buildSrc/src/main/java/org/springframework/security/CheckExpectedBranchVersionPlugin.java:87 | Adding characters at or below U+0020 around the branch name never changes the outcome. |
| `CheckExpectedBranchVersionPlugin.OnlyIfCheckRuns` | buildSrc/src/main/java/org/springframework/security/CheckExpectedBranchVersionPlugin.java:62-70 | The gate opens exactly when the property is absent, or is five characters spelling `false` in any case (U+017F allowed for the `s`). Any other value, including `""`, keeps the task from running. |
| `CheckExpectedBranchVersionPlugin.CheckExpectedBranchVersionTask.constructor` | buildSrc/src/main/java/org/springframework/security/CheckExpectedBranchVersionPlugin.java:75-82 | The task holds its version and branch name inputs and the current content of its output file. |
| `CheckExpectedBranchVersionPlugin.CheckExpectedBranchVersionTask.WriteExpectedVersionOutput` | buildSrc/src/main/java/org/springframework/security/CheckExpectedBranchVersionPlugin.java:104-110 | A write either replaces the file content and counts one write, or fails as an I/O error and leaves the file unchanged. |
| `CheckExpectedBranchVersionPlugin.CheckExpectedBranchVersionTask.Run` | buildSrc/src/main/java/org/springframework/security/CheckExpectedBranchVersionPlugin.java:85-102 | When writing succeeds, the file holds the outcome's message after exactly one write. The result is success for Skipped and Matched, and a verification failure for Mismatched. A verification failure carries the message that was already written. A failed write gives an execution failure and leaves the file unchanged. |
| `CheckExpectedBranchVersionPlugin.Execute` | buildSrc/src/main/java/org/springframework/security/CheckExpectedBranchVersionPlugin.java:48 | A closed gate skips the task: no output is written and nothing fails. An open gate runs the action with the outcomes stated for `Run`. |
| `CheckExpectedBranchVersionPlugin.MatchedExample` | buildSrc/src/main/java/org/springframework/security/CheckExpectedBranchVersionPlugin.java:101 | Version `6.3.1` on branch `6.3.x` is Matched. The output is `6.3.1` and the action succeeds. |
| `CheckExpectedBranchVersionPlugin.MismatchedExample` | buildSrc/src/main/java/org/springframework/security/CheckExpectedBranchVersionPlugin.java:94-99 | Version `6.4.0` on branch `6.3.x` is Mismatched, and the action fails with the mismatch message. |
| `CheckExpectedBranchVersionPlugin.NoNumericNormalisation` | buildSrc/src/main/java/org/springframework/security/CheckExpectedBranchVersionPlugin.java:118 | Version `06.3.1` does not match branch `6.3.x`, because segments compare as text. |
| `CheckExpectedBranchVersionPlugin.SkippedExample` | buildSrc/src/main/java/org/springframework/security/CheckExpectedBranchVersionPlugin.java:87-93 | Branch `" main\n"` is trimmed to `main` and Skipped. The skip message quotes `main` and the action succeeds. |

## Left out

- Gradle wiring (lines 44-54) is not modelled: task registration, group and description, `dependsOn` from `check`, and the provider conventions. `Execute` stands for Gradle applying the `onlyIf` gate before the action.
- Running `git symbolic-ref --short HEAD` is an external process. The branch name is an input string.
- The file system is reduced to an `output` string and a write counter. Whether a write succeeds is a boolean parameter. A failed write is modelled as leaving the old content; a partly written file is not modelled.
- The translation of an `IOException` into a `TaskExecutionException` appears only as the distinct `ExecutionFailure` result.
- Logging of the skip warning (line 90) is not modelled. It has no effect on the outcome or the output.
- The `@CacheableTask`, `@Input` and `@OutputFile` annotations are Gradle caching metadata with no behaviour.
- No general regular-expression engine is modelled. The one fixed pattern is the predicate `IsBranchVersion`.
- JavaString.EqualsIgnoreCase: its case tables cover the ASCII letters plus the four non-ASCII characters whose upper or lower case is an ASCII letter (U+0130, U+0131, U+017F, U+212A). Other Unicode case pairs, such as `é`/`É`, compare unequal here. This is exact for the only use, comparison against `"false"`.
- Java strings are sequences of UTF-16 code units; here a `char` is a Unicode scalar value. A character outside the Basic Multilingual Plane counts once here and twice in Java. This cannot change any result: no such character is at or below U+0020, is a dot, a digit or `x`, or folds to a letter of `false`.
