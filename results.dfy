/**
 * The records `mkarchi-cli.js` resolves with, and the mapping from what the
 * child process reported to those records. The process itself is an opaque
 * outcome: whether `exec` handed its callback an error (and that error's
 * message), and the captured standard output and standard error.
 */
module ProcessResults {
  import opened Wrappers
  import opened Text

  /** What `exec`'s callback receives: `failure` is `Some(error.message)` when `error` is set */
  datatype ExecOutcome = ExecOutcome(failure: Option<string>, stdout: string, stderr: string)

  /** `checkInstallation`'s record */
  datatype ToolStatus = ToolStatus(installed: bool, version: Option<string>, error: Option<string>)

  /** The record `executeApply` and `executeGive` resolve with */
  datatype InvocationResult = InvocationResult(success: bool, output: string, error: Option<string>)

  const NotInstalledMessage := "mkarchi is not installed or not in PATH"
  const ApplySuccessMessage := "Project created successfully!"

  /** Every status is either "installed, with a version and no error" or "not installed, with an error and no version" */
  predicate WellFormedStatus(s: ToolStatus) {
    s.installed == s.version.Some? && s.installed == s.error.None?
  }

  /** A result carries an error exactly when it reports failure */
  predicate WellFormedResult(r: InvocationResult) {
    r.success == r.error.None?
  }

  /** `checkInstallation`'s callback: a failed `mkarchi --version` means not installed */
  function StatusOf(o: ExecOutcome): (s: ToolStatus)
    ensures WellFormedStatus(s)
    ensures s.installed <==> o.failure.None?
  {
    if o.failure.Some? then ToolStatus(false, None, Some(NotInstalledMessage))
    else ToolStatus(true, Some(Trim(o.stdout)), None)
  }

  /** The failure branch both invokers share: `{success: false, output: stdout || '', error: stderr || error.message}` */
  function FailureResult(o: ExecOutcome): (r: InvocationResult)
    requires o.failure.Some?
    ensures WellFormedResult(r) && !r.success && r.output == o.stdout
    ensures r.error == Some(o.stderr) || r.error == o.failure
  {
    InvocationResult(false, o.stdout, Some(if o.stderr != "" then o.stderr else o.failure.value))
  }

  /** `executeApply`'s callback, once the temporary file has been dealt with */
  function ApplyResult(o: ExecOutcome): (r: InvocationResult)
    ensures WellFormedResult(r)
    ensures r.success <==> o.failure.None?
  {
    if o.failure.Some? then FailureResult(o)
    else InvocationResult(true, if o.stdout != "" then o.stdout else ApplySuccessMessage, None)
  }

  /** `executeGive`'s callback */
  function GiveResult(o: ExecOutcome): (r: InvocationResult)
    ensures WellFormedResult(r)
    ensures r.success <==> o.failure.None?
  {
    if o.failure.Some? then FailureResult(o)
    else InvocationResult(true, o.stdout, None)
  }

  /** What `executeApply` returns when writing the temporary file threw */
  function WriteFailureResult(message: string): InvocationResult
  {
    InvocationResult(false, "", Some(message))
  }

  // ----- properties of the mappings -----

  /** A missing tool is always reported with the same message */
  lemma StatusOfShape(o: ExecOutcome)
    ensures !StatusOf(o).installed ==> StatusOf(o).error == Some(NotInstalledMessage)
  {
  }

  /** A reported version is stdout without surrounding whitespace, so trimming it again changes nothing */
  lemma StatusVersionTrimmed(o: ExecOutcome)
    requires o.failure.None?
    ensures StatusOf(o).version == Some(Trim(o.stdout))
    ensures Trim(StatusOf(o).version.value) == StatusOf(o).version.value
  {
    TrimIdempotent(o.stdout);
  }

  /** The reported version is empty exactly when stdout held nothing but whitespace */
  lemma StatusVersionEmptyIff(o: ExecOutcome)
    requires o.failure.None?
    ensures StatusOf(o).version == Some("") <==> AllWhitespace(o.stdout)
  {
    TrimEmptyIff(o.stdout);
  }

  /** On failure the error is stderr when there is any, otherwise the error's message,
      and the output is whatever stdout held */
  lemma FailureCarriesDiagnostics(o: ExecOutcome)
    requires o.failure.Some?
    ensures ApplyResult(o) == GiveResult(o)
    ensures ApplyResult(o).output == o.stdout
    ensures o.stderr != "" ==> ApplyResult(o).error == Some(o.stderr)
    ensures o.stderr == "" ==> ApplyResult(o).error == o.failure
  {
  }

  /** The two invokers differ only when the process succeeded silently:
      apply then reports its default message, give an empty output */
  lemma ApplyGiveDifferOnlyOnSilentSuccess(o: ExecOutcome)
    ensures ApplyResult(o) != GiveResult(o) <==> o.failure.None? && o.stdout == ""
    ensures o.failure.None? && o.stdout == "" ==>
      ApplyResult(o).output == ApplySuccessMessage && GiveResult(o).output == ""
  {
  }

  /** Give always passes stdout through unchanged; apply does too whenever stdout is non-empty */
  lemma OutputPreservesStdout(o: ExecOutcome)
    ensures GiveResult(o).output == o.stdout
    ensures o.stdout != "" ==> ApplyResult(o).output == o.stdout
    ensures ApplyResult(o).success ==> ApplyResult(o).output != ""
  {
  }
}
