# mkarchi desktop: version gating, command building and result shaping

This project models the logic of the mkarchi desktop application that sits between its
window and the `mkarchi` command-line generator, and proves what that logic promises.

- **Version comparison and feature gating.** This part comes from the renderer.
  - `compareVersions` pulls the ASCII digit runs out of two version strings. It compares
    them component by component, a missing component counting as 0. It returns 0 when
    either argument is empty or absent.
  - The renderer uses the result three ways:
    - it prompts for an upgrade below 0.1.6;
    - it shows the size-limit controls from 0.1.7 on;
    - its extract handler puts `noMax` and `maxSize` into the options only when a version
      is known and is at least 0.1.7.
- **The generator wrapper.** This part comes from `mkarchi-cli.js`.
  - `checkInstallation` maps the outcome of `mkarchi --version` to a status record.
  - `executeGive` builds `mkarchi give` plus guarded flags in a fixed order, runs it in
    the source folder and maps its outcome.
  - `executeApply` does four things in order:
    - it writes the tree to `<tmpdir>/mkarchi-tree-<now>.txt`;
    - it runs `mkarchi apply "<file>"` in the destination folder;
    - it removes the file whatever the outcome, and a failed removal is only logged;
    - it maps the outcome.

## Modules

- `Wrappers` (wrappers.dfy): `Option`.
- `Text` (text.dfy): ASCII digits, and natural numbers rendered and parsed in decimal.
  It also defines JavaScript's `String.prototype.trim`. Trimming is written once for any
  class of characters and proved once; `Trim` instantiates it with the ECMAScript
  whitespace and line-terminator code points.
- `VersionCompare` (versions.dfy):
  - the digit-run extraction;
  - the lexicographic comparison `Compare` on `seq<nat>`, where missing components are 0;
  - its laws;
  - `VersionOrder`, the answer `compareVersions` gives;
  - the method `CompareVersions`, the source's index loop with early returns, proved
    equal to `VersionOrder`.
- `ProcessResults` (results.dfy):
  - the records `ToolStatus` and `InvocationResult`;
  - the process outcome `ExecOutcome`;
  - the pure mappings from an outcome to a record.
- `GiveCommand` (give_command.dfy):
  - the options object and the flags it calls for (`GiveFlags`);
  - their rendering (`CommandLine`);
  - the method `GiveCommandLine`, which builds the text with guarded `+=` steps as the
    source does;
  - a decoder, with a proof that the command text determines its flags when no ignore
    pattern holds a double quote.
- `FeatureGates` (gates.dfy):
  - the three version thresholds of the renderer;
  - the extract handler's options object (`ExtractOptions`);
  - the method `BuildGiveOptions`, which assigns the fields step by step.
- `MkarchiCli` (host.dfy): class `Host` holds three fields that its methods update:
  - the files this layer creates and removes, as a `map`;
  - the commands it has started, with the working directory and the files each one saw;
  - the error console.

  `CheckInstallation`, `ExecuteGive` and `ExecuteApply` are methods on it.

The child process is an input value: whether `exec` reported an error (and its message),
stdout and stderr. So are the clock reading and the filesystem faults. An unlink fault is
the message the unlink throws with. A write fault is the message, together with what the
failed write left at the path: nothing, or the part of the content it had written.

The model follows the code:

- On success `checkInstallation` reports `stdout.trim()` as the version
  (electron/mkarchi-cli.js:22).
- `compareVersions` compares as many components as either string has
  (electron/renderer.js:74).

## Model

| member | source | states |
|---|---|---|
| VersionCompare.DigitRuns | electron/renderer.js:72-73 | defines the components as the values of the maximal digit runs, left to right, and none for a string without digits; its properties are the lemmas below |
| VersionCompare.DigitRunsOfDotted | electron/renderer.js:72-73 | the digit runs of a dotted rendering of a component list are that list, so extraction inverts `parts.join('.')` |
| VersionCompare.DigitRunsSkipsSeparators | electron/renderer.js:72-73 | a prefix without digits contributes no component |
| VersionCompare.SeparatorSplits | electron/renderer.js:72-73 | one non-digit splits the string: the components of `a + [c] + b` are those of `a` followed by those of `b` |
| VersionCompare.DigitRunsOfRun | electron/renderer.js:72-73 | a maximal run of digits becomes one component with its decimal value, and the scan goes on after it |
| VersionCompare.Compare | electron/renderer.js:74-80 | the component comparison answers only -1, 0 or 1 |
| VersionCompare.CompareZeroIff | electron/renderer.js:74-80 | the comparison is 0 exactly when the two lists agree at every index, a missing component counting as 0 |
| VersionCompare.CompareLessIff | electron/renderer.js:74-80 | the comparison is -1 exactly when, at the first index where the lists differ, the first is smaller |
| VersionCompare.FirstDifferenceGivesLess | electron/renderer.js:74-80 | agreement below k and a smaller component at k make the answer -1 |
| VersionCompare.LessGivesFirstDifference | electron/renderer.js:74-80 | an answer of -1 comes with an index where the first list is smaller and the lists agree below it |
| VersionCompare.CompareAntisymmetric | electron/renderer.js:74-79 | swapping the lists negates the answer |
| VersionCompare.CompareReflexive | electron/renderer.js:74-80 | a list compares equal to itself |
| VersionCompare.CompareTransitive | electron/renderer.js:74-80 | "below" is transitive |
| VersionCompare.CompareCongruent | electron/renderer.js:74-80 | lists that compare equal compare the same way against any third list |
| VersionCompare.ComparePadding | electron/renderer.js:75-76 | appending a zero component changes no answer |
| VersionCompare.VersionOrder | electron/renderer.js:70-81 | the answer is -1, 0 or 1, and it is 0 whenever either argument is empty or absent |
| VersionCompare.CompareVersions | electron/renderer.js:70-81 | the loop over `max(len)` indices with early returns answers `VersionOrder`, which is one of -1, 0, 1, and 0 whenever either argument is empty or absent |
| VersionCompare.VersionOrderAntisymmetric | electron/renderer.js:71-80 | `compareVersions(b, a) == -compareVersions(a, b)` for all arguments, empty and absent ones included |
| VersionCompare.VersionOrderReflexive | electron/renderer.js:71-80 | `compareVersions(a, a) == 0` |
| VersionCompare.VersionOrderByRuns | electron/renderer.js:71-80 | two non-empty strings with the same digit runs compare equal, and the same way against every other argument, empty and absent ones included |
| VersionCompare.VersionOrderZeroPadding | electron/renderer.js:75-76 | a dotted version with ".0" appended compares like the version itself |
| VersionCompare.ExampleNewer | electron/renderer.js:66-68 | "0.1.7" is newer than "0.1.6" (answer 1), and the reverse answers -1 |
| VersionCompare.ExamplePadding | electron/renderer.js:75-76 | "1.2" and "1.2.0" compare equal |
| VersionCompare.ExampleTagged | electron/renderer.js:72-73 | "mkarchi 0.1.7" compares equal to "0.1.7" |
| FeatureGates.NeedsUpgrade | electron/renderer.js:103 | an empty version never prompts an upgrade |
| FeatureGates.ShowsSizeLimitOptions | electron/renderer.js:116 | an empty version keeps the size-limit controls visible |
| FeatureGates.SendsSizeLimitOptions | electron/renderer.js:339 | the size limits are only sent for a known version whose controls are shown |
| FeatureGates.ExtractOptions | electron/renderer.js:332-345 | the options never carry ignore patterns, always carry `deleteAfter`, and carry `noMax` exactly when they carry `maxSize` |
| FeatureGates.NeedsUpgradeIff | electron/renderer.js:103 | the upgrade prompt appears exactly for a non-empty version whose components are below 0, 1, 6 |
| FeatureGates.SendsSizeLimitOptionsIff | electron/renderer.js:339 | the size limits are sent exactly for a known, non-empty version whose components reach 0, 1, 7 |
| FeatureGates.ShowsSizeLimitOptionsNoUpgrade | electron/renderer.js:103-122 | a version that gets the size-limit controls is never prompted to upgrade |
| FeatureGates.SendsIffShownAndNonEmpty | electron/renderer.js:339-342 | sending the size limits is showing their controls plus a non-empty version; the empty version shows them but never sends them, and an unknown version never sends them |
| FeatureGates.ExampleAtUpgradeThreshold | electron/renderer.js:103-116 | exactly 0.1.6 needs no upgrade and gets no size-limit controls |
| FeatureGates.BlankVersionOutput | electron/renderer.js:97-122 | a `--version` output of only whitespace yields an installed status with version "", which prompts nothing and shows the controls without sending them |
| FeatureGates.BuildGiveOptions | electron/renderer.js:332-345 | the field-by-field assignments, with `compareVersions` run only for a truthy version, produce `ExtractOptions` |
| FeatureGates.ExtractOptionsFields | electron/renderer.js:332-345 | the two checkboxes are copied; `maxDepth` is the parse or 0; no ignore patterns; `noMax` and `maxSize` are present exactly when the version gate passes; `deleteAfter` is always set |
| FeatureGates.ExtractSizeFlags | electron/renderer.js:339-342 | an old or unknown generator never gets `--no-max` or `-max=`; a recent one gets `--no-max` exactly when the box is ticked, and otherwise `-max=N` for a positive size |
| FeatureGates.ExtractNoIgnoreFlag | electron/renderer.js:332-345 | commands built from the extract form carry no `--ignore` flag |
| ProcessResults.StatusOf | electron/mkarchi-cli.js:13-27 | the status is installed exactly when the probe succeeded, and carries a version exactly when installed and an error exactly when not |
| ProcessResults.StatusOfShape | electron/mkarchi-cli.js:13-19 | a missing tool is reported with the not-installed message |
| ProcessResults.StatusVersionTrimmed | electron/mkarchi-cli.js:22-27 | the reported version is trimmed stdout, and trimming it again changes nothing |
| ProcessResults.StatusVersionEmptyIff | electron/mkarchi-cli.js:22-27 | the reported version is empty exactly when stdout is all whitespace |
| ProcessResults.FailureResult | electron/mkarchi-cli.js:61-67 | a failed run gives a failed result carrying an error, with stdout as output and either stderr or the error's message as error |
| ProcessResults.ApplyResult | electron/mkarchi-cli.js:61-74 | apply succeeds exactly when the process succeeded, and carries an error exactly when it fails |
| ProcessResults.GiveResult | electron/mkarchi-cli.js:130-143 | give succeeds exactly when the process succeeded, and carries an error exactly when it fails |
| ProcessResults.FailureCarriesDiagnostics | electron/mkarchi-cli.js:61-67 | on failure, apply and give agree: output is stdout, error is stderr when non-empty and the error's message otherwise |
| ProcessResults.ApplyGiveDifferOnlyOnSilentSuccess | electron/mkarchi-cli.js:70-74 | apply and give differ exactly on a success with empty stdout, where apply says "Project created successfully!" and give returns "" |
| ProcessResults.OutputPreservesStdout | electron/mkarchi-cli.js:139-143 | give passes stdout through unchanged; apply passes non-empty stdout through, and never succeeds with an empty output |
| GiveCommand.GiveFlags | electron/mkarchi-cli.js:103-123 | at most five flags, one per guarded step |
| GiveCommand.FlagText | electron/mkarchi-cli.js:103-123 | every flag's text is non-empty and starts with the space that separates it from what precedes it |
| GiveCommand.CommandLine | electron/mkarchi-cli.js:100-123 | the command starts with "mkarchi give", is exactly that when there are no flags, and otherwise continues with a space |
| GiveCommand.GiveFlagsInFixedOrder | electron/mkarchi-cli.js:100-123 | the flags always come in the order -c, --depth, --ignore, --no-max/-max=, --no-ignore, so none appears twice |
| GiveCommand.GiveFlagsPresence | electron/mkarchi-cli.js:103-123 | each flag appears exactly when its guard holds, with the option's value as argument |
| GiveCommand.ContentAndDepthPresence | electron/mkarchi-cli.js:103-123 | `-c` appears iff `includeContent`, `--depth N` iff `maxDepth > 0` with N the depth, `--no-ignore` iff `noIgnore` |
| GiveCommand.IgnorePresence | electron/mkarchi-cli.js:111-113 | `--ignore "p"` appears iff the patterns are non-empty after trimming, and p is the untrimmed text |
| GiveCommand.SizePresence | electron/mkarchi-cli.js:115-119 | `--no-max` appears iff `noMax`; `-max=N` appears iff not `noMax` and `maxSize > 0`, with N the size |
| GiveCommand.SizeFlagsExclusive | electron/mkarchi-cli.js:115-119 | `--no-max` and `-max=` never appear together |
| GiveCommand.FlagsTextSnoc | electron/mkarchi-cli.js:100-123 | appending one flag appends its text to the command line |
| GiveCommand.GiveCommandLine | electron/mkarchi-cli.js:100-123 | the guarded `+=` steps build exactly `CommandLine(GiveFlags(options))` |
| GiveCommand.ReadFlagOf | electron/mkarchi-cli.js:103-123 | every flag's text, followed by the end or a space, reads back as that flag, when an ignore pattern holds no double quote |
| GiveCommand.DecodeFlagsText | electron/mkarchi-cli.js:100-123 | decoding the flag text of flags whose ignore patterns hold no double quote gives back those flags |
| GiveCommand.GiveCommandDecodes | electron/mkarchi-cli.js:100-123 | the command starts with "mkarchi give" and names exactly `GiveFlags(options)`, when the ignore patterns hold no double quote |
| GiveCommand.NoMaxWinsExample | electron/mkarchi-cli.js:115-119 | with `noMax` and a size of 50 the command is exactly "mkarchi give --no-max" |
| Text.ParseToDecimal | electron/renderer.js:72 | `Number` of the decimal rendering of n is n |
| Text.ToDecimalInjective | electron/mkarchi-cli.js:42 | different numbers render differently |
| Text.DigitSpanOfRun | electron/renderer.js:72 | a digit run ends at the first non-digit |
| Text.Trim | electron/mkarchi-cli.js:22 | `trim()` never lengthens the string, and a non-empty result starts and ends with a character that is not whitespace |
| Text.TrimByCut | electron/mkarchi-cli.js:22 | trimming returns a factor of the string, and everything cut from either end belongs to the stripped class |
| Text.TrimByEnds | electron/mkarchi-cli.js:22 | a non-empty trimmed string starts and ends outside the stripped class |
| Text.TrimIdempotent | electron/mkarchi-cli.js:22 | trimming twice is trimming once |
| Text.TrimEmptyIff | electron/mkarchi-cli.js:111 | `trim()` is empty exactly when the string is all whitespace |
| MkarchiCli.TempFilePath | electron/mkarchi-cli.js:41-42 | the temporary file lies directly in the temporary directory: the path is the directory, a "/", and a name without "/" |
| MkarchiCli.ApplyCommand | electron/mkarchi-cli.js:47 | the apply command is `mkarchi apply ` followed by the file name between double quotes |
| MkarchiCli.TempFilePathInjective | electron/mkarchi-cli.js:41-42 | two clock readings name the same temporary file only if they are equal |
| MkarchiCli.ApplyCommandInjective | electron/mkarchi-cli.js:47 | the apply command determines the file it names |
| MkarchiCli.CleanupTouchesOnlyTemp | electron/mkarchi-cli.js:54-59 | writing and then removing the temporary file leaves every other path and its content as it was, and the temporary path absent |
| MkarchiCli.FailedWriteTouchesOnlyTemp | electron/mkarchi-cli.js:44 | a thrown write changes no path but its own, and leaves that path present whenever it wrote anything |
| MkarchiCli.Host.WriteFile | electron/mkarchi-cli.js:44 | a write adds or replaces exactly one file; a thrown write reports its message and leaves at the path whatever it had written, if anything |
| MkarchiCli.Host.Unlink | electron/mkarchi-cli.js:56 | an unlink removes exactly the named file; it throws on a missing file or an injected fault and then changes nothing |
| MkarchiCli.Host.Exec | electron/mkarchi-cli.js:49-53 | a command is recorded with its working directory and the files it could see, and its outcome is handed back |
| MkarchiCli.Host.CheckInstallation | electron/mkarchi-cli.js:10-29 | runs `mkarchi --version` and reports `StatusOf` its outcome, touching no file |
| MkarchiCli.Host.ExecuteGive | electron/mkarchi-cli.js:98-146 | runs `CommandLine(GiveFlags(options))` in the source folder and reports `GiveResult` of the outcome, touching no file |
| MkarchiCli.Host.ExecuteApply | electron/mkarchi-cli.js:36-84 | a thrown write gives a failed result with empty output and the thrown message as error, and runs nothing; a partly written temporary file is left behind, because the error path returns before the removal. Otherwise the apply command runs in the destination while the temporary file holds the tree, and the result is `ApplyResult` of the outcome. Afterwards the temporary file is gone and nothing else changed; if removal failed, the file stays and one console line records the failure |

## Left out

- electron/main.js and electron/preload.js are not part of this model. They are window
  lifecycle, IPC registration, dialogs and clipboard wiring that forward to `mkarchi-cli.js`.
- The renderer's DOM work is not modelled. That covers tabs, logs, toasts, keyboard
  shortcuts, the confirm dialog after the upgrade check and the installation flow. Only the
  decisions it takes from the version are modelled.
- `child_process.exec`, `maxBuffer`, the environment merge and the promise plumbing are not
  modelled. The process is an `ExecOutcome` value supplied by the caller.
- `Date.now()` is not modelled; the reading is a parameter. `os.tmpdir()` is a parameter too.
- `path.join` is modelled as joining with "/". It does not normalise separators or `..`.
- VersionCompare.CompareVersions: the components are unbounded naturals. JavaScript's `Number` loses
  precision on digit runs longer than about 15 digits; that is not modelled.
- `parseInt`'s partial parsing ("12abc" is 12) is not modelled. The
  form's number fields arrive already parsed, `None` standing for NaN.
- GiveCommand.GiveCommandLine: a JavaScript number is rendered by its decimal digits, with
  no sign. `maxDepth` is only rendered when positive, so that loses nothing. `maxSize` is
  rendered only when positive as well. A template literal prints numbers of 1e21 and above
  in exponent form ("1e+21"); the model writes out all their digits.
- GiveCommand.GiveCommandDecodes: the round trip holds only for ignore patterns without a
  double quote. `executeGive` does not escape the patterns, so a quote in them changes what
  the shell sees. The model does not describe shell parsing.
- `options.deleteAfter` is set by the renderer and ignored by `executeGive`. The model
  carries the field and builds no flag from it.
- The renderer never fills in `options.ignorePatterns`. The ignore-patterns input it looks
  up is read nowhere, so `ExtractOptions` leaves the field absent. `executeGive`'s handling
  of it is still modelled for callers that do set it.
- The files the generator itself creates or reads in the destination or source folder are
  not modelled. The generator's tree syntax is out of scope, and so are the installer
  (`installMkarchi` is called from main.js but is not defined in `mkarchi-cli.js`) and
  `structure.txt` handling. `Host.files` holds only what this layer writes and removes.
- The text that `console.error` prints for an error object is modelled as its message after
  "Failed to delete temp file: ".
