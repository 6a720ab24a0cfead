/**
 * `mkarchi-cli.js` against the machine it runs on. The host holds the files
 * this layer creates and removes, the commands it has started (with the
 * directory each runs in and the files it could see), and the lines written
 * to the error console. A child process, the clock and filesystem faults are
 * inputs: the outcome `exec` reports, the `Date.now()` reading, and whether
 * a write or an unlink throws (and with which message).
 */
module MkarchiCli {
  import opened Wrappers
  import opened Text
  import opened ProcessResults
  import opened GiveCommand

  /** One command started through `exec`: its text, its working directory (`None` to inherit),
      and the files present when it started */
  datatype Spawn = Spawn(command: string, cwd: Option<string>, visible: map<string, string>)

  const VersionCommand := "mkarchi --version"
  const TempPrefix := "mkarchi-tree-"
  const TempSuffix := ".txt"
  const UnlinkFailurePrefix := "Failed to delete temp file: "

  /** `path.join(os.tmpdir(), `mkarchi-tree-${Date.now()}.txt`)` */
  function TempFilePath(tmpDir: string, now: nat): (path: string)
    ensures |tmpDir| < |path| && path[..|tmpDir| + 1] == tmpDir + "/"
    ensures forall i :: |tmpDir| < i < |path| ==> path[i] != '/'
  {
    var name := TempPrefix + ToDecimal(now) + TempSuffix;
    assert forall i :: 0 <= i < |name| ==> name[i] != '/' by {
      assert AllDigits(ToDecimal(now));
    }
    assert tmpDir + "/" + TempPrefix + ToDecimal(now) + TempSuffix == tmpDir + "/" + name;
    tmpDir + "/" + name
  }

  /** `mkarchi apply "<file>"` */
  function ApplyCommand(tempFile: string): (command: string)
    ensures |command| == |tempFile| + 16 && command[..15] == "mkarchi apply \""
    ensures command[15..|command| - 1] == tempFile && command[|command| - 1] == '"'
  {
    "mkarchi apply \"" + tempFile + "\""
  }

  /** A write that throws: its message, and what it left behind at the path, if anything */
  datatype WriteFault = WriteFault(message: string, leftover: Option<string>)

  /** The files after a thrown write */
  function AfterFailedWrite(before: map<string, string>, path: string, leftover: Option<string>): map<string, string> {
    if leftover.Some? then before[path := leftover.value] else before
  }

  /** The message Node gives an unlink of a missing file */
  function MissingFileMessage(path: string): string {
    "ENOENT: no such file or directory, unlink '" + path + "'"
  }

  /** Two different clock readings name two different temporary files */
  lemma TempFilePathInjective(tmpDir: string, m: nat, n: nat)
    requires TempFilePath(tmpDir, m) == TempFilePath(tmpDir, n)
    ensures m == n
  {
    var p := tmpDir + "/" + TempPrefix;
    var s := TempFilePath(tmpDir, m);
    var dm, dn := ToDecimal(m), ToDecimal(n);
    assert s == p + dm + TempSuffix;
    assert s == p + dn + TempSuffix;
    assert |dm| == |dn|;
    assert s[|p|..|p| + |dm|] == dm;
    assert s[|p|..|p| + |dn|] == dn;
    ToDecimalInjective(m, n);
  }

  /** The apply command names exactly one file */
  lemma ApplyCommandInjective(a: string, b: string)
    requires ApplyCommand(a) == ApplyCommand(b)
    ensures a == b
  {
    var p := "mkarchi apply \"";
    assert ApplyCommand(a) == p + a + "\"";
    assert |a| == |b|;
    assert ApplyCommand(a)[|p|..|p| + |a|] == a;
    assert ApplyCommand(b)[|p|..|p| + |b|] == b;
  }

  class Host {
    var files: map<string, string>
    var spawned: seq<Spawn>
    var errorLog: seq<string>

    constructor(initial: map<string, string>)
      ensures files == initial && spawned == [] && errorLog == []
    {
      files := initial;
      spawned := [];
      errorLog := [];
    }

    /** `fs.writeFile`. When it throws, `fault` gives the message and what the failed write left
        at `path`: `None` when it failed before touching the file, otherwise the content it had
        written so far into the created or truncated file */
    method WriteFile(path: string, content: string, fault: Option<WriteFault>) returns (error: Option<string>)
      modifies this
      ensures fault.None? ==> error.None? && files == old(files)[path := content]
      ensures fault.Some? ==>
        error == Some(fault.value.message) && files == AfterFailedWrite(old(files), path, fault.value.leftover)
      ensures spawned == old(spawned) && errorLog == old(errorLog)
    {
      if fault.None? {
        error := None;
        files := files[path := content];
      } else {
        error := Some(fault.value.message);
        files := AfterFailedWrite(files, path, fault.value.leftover);
      }
    }

    /** `fs.unlink`: a missing file or an injected `fault` makes it throw, leaving the files as they were */
    method Unlink(path: string, fault: Option<string>) returns (error: Option<string>)
      modifies this
      ensures path !in old(files) ==> error == Some(MissingFileMessage(path)) && files == old(files)
      ensures path in old(files) ==> error == fault
      ensures path in old(files) && fault.None? ==> files == old(files) - {path}
      ensures path in old(files) && fault.Some? ==> files == old(files)
      ensures spawned == old(spawned) && errorLog == old(errorLog)
    {
      if path !in files {
        error := Some(MissingFileMessage(path));
      } else {
        error := fault;
        if fault.None? {
          files := files - {path};
        }
      }
    }

    /** `exec`: records the command and hands back the outcome the process produced */
    method Exec(command: string, cwd: Option<string>, outcome: ExecOutcome) returns (o: ExecOutcome)
      modifies this
      ensures o == outcome
      ensures spawned == old(spawned) + [Spawn(command, cwd, old(files))]
      ensures files == old(files) && errorLog == old(errorLog)
    {
      spawned := spawned + [Spawn(command, cwd, files)];
      o := outcome;
    }

    /** `checkInstallation`: runs `mkarchi --version` and maps its outcome */
    method CheckInstallation(outcome: ExecOutcome) returns (status: ToolStatus)
      modifies this
      ensures status == StatusOf(outcome)
      ensures spawned == old(spawned) + [Spawn(VersionCommand, None, old(files))]
      ensures files == old(files) && errorLog == old(errorLog)
    {
      var o := Exec(VersionCommand, None, outcome);
      status := StatusOf(o);
    }

    /** `executeGive`: builds the command from the options and runs it in the source folder */
    method ExecuteGive(sourcePath: string, options: GiveOptions, outcome: ExecOutcome) returns (r: InvocationResult)
      modifies this
      ensures r == GiveResult(outcome)
      ensures spawned == old(spawned) + [Spawn(CommandLine(GiveFlags(options)), Some(sourcePath), old(files))]
      ensures files == old(files) && errorLog == old(errorLog)
    {
      var command := GiveCommandLine(options);
      var o := Exec(command, Some(sourcePath), outcome);
      r := GiveResult(o);
    }

    /** `executeApply`: writes the tree to a fresh temporary file, runs `mkarchi apply` on it in the
        destination folder, removes the file whatever the outcome, and logs a failed removal */
    method ExecuteApply(treeContent: string, destination: string, tmpDir: string, now: nat,
                        writeFault: Option<WriteFault>, outcome: ExecOutcome, unlinkFault: Option<string>)
      returns (r: InvocationResult)
      modifies this
      ensures var temp := TempFilePath(tmpDir, now);
        if writeFault.Some? then
          r == WriteFailureResult(writeFault.value.message) &&
          files == AfterFailedWrite(old(files), temp, writeFault.value.leftover) &&
          spawned == old(spawned) && errorLog == old(errorLog)
        else
          r == ApplyResult(outcome) &&
          spawned == old(spawned) + [Spawn(ApplyCommand(temp), Some(destination), old(files)[temp := treeContent])] &&
          (unlinkFault.None? ==> files == old(files) - {temp} && errorLog == old(errorLog)) &&
          (unlinkFault.Some? ==>
            files == old(files)[temp := treeContent] &&
            errorLog == old(errorLog) + [UnlinkFailurePrefix + unlinkFault.value])
    {
      var tempFile := TempFilePath(tmpDir, now);
      var writeError := WriteFile(tempFile, treeContent, writeFault);
      if writeError.Some? {
        return WriteFailureResult(writeError.value);
      }
      var o := Exec(ApplyCommand(tempFile), Some(destination), outcome);
      var unlinkError := Unlink(tempFile, unlinkFault);
      if unlinkError.Some? {
        errorLog := errorLog + [UnlinkFailurePrefix + unlinkError.value];
      }
      r := ApplyResult(o);
    }
  }

  /** A thrown write touches no file but the temporary one, which it may leave behind: the error
      path returns before the removal, so a partly written file stays in the temporary directory */
  lemma FailedWriteTouchesOnlyTemp(before: map<string, string>, temp: string, leftover: Option<string>)
    ensures forall p :: p != temp ==>
      (p in AfterFailedWrite(before, temp, leftover) <==> p in before) &&
      (p in before ==> AfterFailedWrite(before, temp, leftover)[p] == before[p])
    ensures temp in AfterFailedWrite(before, temp, leftover) <==> temp in before || leftover.Some?
  {
  }

  /** Removing the temporary file again touches no other file: every other path keeps its content */
  lemma CleanupTouchesOnlyTemp(before: map<string, string>, temp: string, content: string)
    ensures forall p :: p != temp ==>
      (p in before[temp := content] - {temp} <==> p in before) &&
      (p in before ==> (before[temp := content] - {temp})[p] == before[p])
    ensures temp !in before[temp := content] - {temp}
  {
  }
}
