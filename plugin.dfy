/** The checkExpectedBranchVersion task: its onlyIf gate and its action,
    which writes one output file and fails the build on a mismatch. */
module CheckExpectedBranchVersionPlugin {
  import opened JavaString
  import opened BranchVersionCheck

  datatype Option<T> = None | Some(value: T)

  // ---------------------------------------------------------------------------
  // The onlyIf gate
  // ---------------------------------------------------------------------------

  /** onlyIfCheck: the value of the skipCheckExpectedBranchVersion property,
      "false" when it is absent, compared with "false" ignoring case. The task
      runs exactly when this is true. */
  predicate OnlyIfCheck(skipProperty: Option<string>)
  {
    var value := match skipProperty
      case None => "false"
      case Some(v) => v;
    EqualsIgnoreCase("false", value)
  }

  /** The gate lets the task run exactly when the property is absent or is
      five characters spelling "false" in any mix of cases; Java's case
      mapping also lets the long s (U+017F) stand for the 's'. Every other
      value, the empty string included, skips the task. */
  lemma OnlyIfCheckRuns(skipProperty: Option<string>)
    ensures OnlyIfCheck(skipProperty) <==>
      (skipProperty.None? ||
       var v := skipProperty.value;
       && |v| == 5
       && (v[0] == 'f' || v[0] == 'F')
       && (v[1] == 'a' || v[1] == 'A')
       && (v[2] == 'l' || v[2] == 'L')
       && (v[3] == 's' || v[3] == 'S' || v[3] == '\U{017F}')
       && (v[4] == 'e' || v[4] == 'E'))
  {
  }

  // ---------------------------------------------------------------------------
  // The task action
  // ---------------------------------------------------------------------------

  /** How the action ends: normally, with a VerificationException (the check
      failed), or with a TaskExecutionException (the output could not be
      written). */
  datatype TaskResult =
    | Success
    | VerificationFailure(message: string)
    | ExecutionFailure

  /** The result the action reports for an outcome once its output is written. */
  function ResultOf(o: Outcome): TaskResult {
    if o.Mismatched? then VerificationFailure(Message(o)) else Success
  }

  /** CheckExpectedBranchVersionTask. Its two inputs are fixed when the action
      runs; the output file is a string field, and `writes` counts the writes
      that reached it. Whether the file system accepts a write is a parameter. */
  class CheckExpectedBranchVersionTask {
    const version: string
    const branchName: string
    var output: string
    var writes: nat

    constructor (version: string, branchName: string, output: string)
      ensures this.version == version && this.branchName == branchName
      ensures this.output == output && writes == 0
    {
      this.version := version;
      this.branchName := branchName;
      this.output := output;
      writes := 0;
    }

    /** writeExpectedVersionOutput: replaces the file content, or fails with
        an I/O error and leaves it as it was. */
    method WriteExpectedVersionOutput(fileContent: string, ioOk: bool) returns (ok: bool)
      modifies this`output, this`writes
      ensures ok == ioOk
      ensures ok ==> output == fileContent && writes == old(writes) + 1
      ensures !ok ==> output == old(output) && writes == old(writes)
    {
      ok := ioOk;
      if ok {
        output := fileContent;
        writes := writes + 1;
      }
    }

    /** run: the output file receives the message of the outcome, written
        once; a mismatch is reported only after that write, carrying the
        same message; a failed write ends the action with an execution
        failure instead and the file is untouched. */
    method Run(ioOk: bool) returns (r: TaskResult)
      modifies this`output, this`writes
      ensures ioOk ==> output == Message(Check(version, branchName))
      ensures ioOk ==> writes == old(writes) + 1
      ensures ioOk ==> r == ResultOf(Check(version, branchName))
      ensures !ioOk ==> r == ExecutionFailure
      ensures !ioOk ==> output == old(output) && writes == old(writes)
      ensures r.VerificationFailure? ==> output == r.message && writes == old(writes) + 1
    {
      var branchVersion := Trim(branchName);
      if !IsBranchVersion(branchVersion) {
        var msg := SkipMessage(branchVersion);
        var ok := WriteExpectedVersionOutput(msg, ioOk);
        if !ok {
          return ExecutionFailure;
        }
        return Success;
      }
      if !VersionsMatch(version, branchVersion) {
        var msg := MismatchMessage(version, branchVersion);
        var ok := WriteExpectedVersionOutput(msg, ioOk);
        if !ok {
          return ExecutionFailure;
        }
        return VerificationFailure(msg);
      }
      var ok := WriteExpectedVersionOutput(version, ioOk);
      if !ok {
        return ExecutionFailure;
      }
      return Success;
    }
  }

  /** What the build sees of the task: skipped by its onlyIf gate, or run. */
  datatype Execution = SkippedByGate | Executed(result: TaskResult)

  /** The task as Gradle executes it: the onlyIf gate first, then the action.
      A closed gate leaves the output file alone and fails nothing. */
  method Execute(task: CheckExpectedBranchVersionTask, skipProperty: Option<string>, ioOk: bool)
    returns (e: Execution)
    modifies task`output, task`writes
    ensures !OnlyIfCheck(skipProperty) ==> e == SkippedByGate
    ensures !OnlyIfCheck(skipProperty) ==> task.output == old(task.output) && task.writes == old(task.writes)
    ensures OnlyIfCheck(skipProperty) && ioOk ==>
      e == Executed(ResultOf(Check(task.version, task.branchName)))
      && task.output == Message(Check(task.version, task.branchName))
      && task.writes == old(task.writes) + 1
    ensures OnlyIfCheck(skipProperty) && !ioOk ==>
      e == Executed(ExecutionFailure)
      && task.output == old(task.output) && task.writes == old(task.writes)
  {
    if !OnlyIfCheck(skipProperty) {
      return SkippedByGate;
    }
    var r := task.Run(ioOk);
    return Executed(r);
  }

  // ---------------------------------------------------------------------------
  // Worked examples
  // ---------------------------------------------------------------------------

  /** A matching version is written as it is and the action succeeds. */
  lemma MatchedExample(version: string, branchName: string)
    requires version == "6.3.1" && branchName == "6.3.x"
    ensures Check(version, branchName) == Matched(version)
    ensures Message(Check(version, branchName)) == "6.3.1"
    ensures ResultOf(Check(version, branchName)) == Success
  {
    MaintenanceBranch63(branchName);
    CheckOutcome(version, branchName);
    assert "6.3." <= version;
  }

  /** A different minor version is a verification failure with the message. */
  lemma MismatchedExample(version: string, branchName: string)
    requires version == "6.4.0" && branchName == "6.3.x"
    ensures Check(version, branchName) == Mismatched(version, branchName)
    ensures ResultOf(Check(version, branchName)) == VerificationFailure(MismatchMessage(version, branchName))
  {
    MaintenanceBranch63(branchName);
    CheckOutcome(version, branchName);
    assert version[2] != "6.3."[2];
  }

  /** The leading segments compare as text: "06" is not "6". */
  lemma NoNumericNormalisation(version: string, branchName: string)
    requires version == "06.3.1" && branchName == "6.3.x"
    ensures Check(version, branchName) == Mismatched(version, branchName)
  {
    MaintenanceBranch63(branchName);
    CheckOutcome(version, branchName);
    assert version[0] != "6.3."[0];
  }

  /** "6.3.x" is the maintenance branch of major "6", minor "3", already trimmed. */
  lemma MaintenanceBranch63(branchName: string)
    requires branchName == "6.3.x"
    ensures Trim(branchName) == branchName
    ensures IsBranchVersion(branchName) && Major(branchName) == "6" && Minor(branchName) == "3"
  {
  }

  /** A branch outside the pattern is skipped with a message, and the branch
      name is trimmed before it is tested and quoted. */
  lemma SkippedExample(version: string, branchName: string, trimmed: string)
    requires version == "6.3.1" && branchName == " main\n" && trimmed == "main"
    ensures Check(version, branchName) == Skipped(trimmed)
    ensures Message(Check(version, branchName)) == SkipMessage(trimmed)
    ensures ResultOf(Check(version, branchName)) == Success
  {
    assert branchName == " " + trimmed + "\n";
    assert AllTrimmable(" ") && AllTrimmable("\n");
    assert TrimmedEnds(trimmed);
    TrimOf(" ", trimmed, "\n");
    assert !IsBranchVersion(trimmed) by {
      assert trimmed[2..] != ".x";
    }
    CheckOutcome(version, branchName);
  }
}
