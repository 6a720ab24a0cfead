/**
 * What the renderer decides from the installed generator's version: whether
 * to prompt for an upgrade (below 0.1.6), whether to show the size-limit
 * controls (from 0.1.7 on), and which fields the extract handler puts into
 * the options object it hands to `executeGive`.
 */
module FeatureGates {
  import opened Wrappers
  import opened Text
  import opened VersionCompare
  import opened ProcessResults
  import opened GiveCommand

  /** The oldest generator the application accepts without prompting */
  const UpgradeThreshold := "0.1.6"

  /** The first generator that understands `--no-max` and `-max=` */
  const SizeLimitThreshold := "0.1.7"

  /** The installation check prompts for an upgrade */
  predicate NeedsUpgrade(version: string)
    ensures NeedsUpgrade(version) ==> version != ""
  {
    VersionOrder(Some(version), Some(UpgradeThreshold)) < 0
  }

  /** The installation check shows the max-size and no-max controls */
  predicate ShowsSizeLimitOptions(version: string)
    ensures version == "" ==> ShowsSizeLimitOptions(version)
  {
    !(VersionOrder(Some(version), Some(SizeLimitThreshold)) < 0)
  }

  /** The extract handler adds `noMax` and `maxSize` to the options; `current` is
      `currentMkarchiVersion`, `None` until an installation has been detected */
  predicate SendsSizeLimitOptions(current: Option<string>)
    ensures SendsSizeLimitOptions(current) ==> current.Some? && ShowsSizeLimitOptions(current.value)
  {
    Truthy(current) && VersionOrder(current, Some(SizeLimitThreshold)) >= 0
  }

  // ----- the thresholds in terms of digit runs -----

  /** The upgrade prompt appears exactly for a non-empty version whose digit runs are below 0, 1, 6 */
  lemma NeedsUpgradeIff(version: string)
    ensures NeedsUpgrade(version) <==> version != "" && Compare(DigitRuns(version), [0, 1, 6]) == -1
  {
    RunsOf016();
  }

  /** The size-limit options are sent exactly for a non-empty version whose digit runs reach 0, 1, 7 */
  lemma SendsSizeLimitOptionsIff(current: Option<string>)
    ensures SendsSizeLimitOptions(current) <==>
      current.Some? && current.value != "" && Compare(DigitRuns(current.value), [0, 1, 7]) >= 0
  {
    RunsOf017();
  }

  /** A generator recent enough for the size-limit controls is never asked to upgrade */
  lemma ShowsSizeLimitOptionsNoUpgrade(version: string)
    requires ShowsSizeLimitOptions(version)
    ensures !NeedsUpgrade(version)
  {
    if version != "" {
      var runs := DigitRuns(version);
      RunsOf016();
      RunsOf017();
      Compare017And016();
      CompareAntisymmetric([0, 1, 7], [0, 1, 6]);
      if Compare(runs, [0, 1, 7]) == 0 {
        CompareCongruent(runs, [0, 1, 7], [0, 1, 6]);
      } else {
        CompareAntisymmetric(runs, [0, 1, 7]);
        CompareTransitive([0, 1, 6], [0, 1, 7], runs);
        CompareAntisymmetric([0, 1, 6], runs);
      }
    }
  }

  /** The controls shown and the options sent agree, except for an empty version string:
      `compareVersions` makes no claim about it, so the controls stay visible while the
      handler, testing the string's truthiness first, sends nothing */
  lemma SendsIffShownAndNonEmpty(version: string)
    ensures SendsSizeLimitOptions(Some(version)) <==> version != "" && ShowsSizeLimitOptions(version)
    ensures ShowsSizeLimitOptions("") && !SendsSizeLimitOptions(Some(""))
    ensures !SendsSizeLimitOptions(None)
  {
  }

  /** Exactly 0.1.6 is accepted without a prompt but gets no size-limit controls */
  lemma ExampleAtUpgradeThreshold()
    ensures !NeedsUpgrade("0.1.6") && !ShowsSizeLimitOptions("0.1.6")
  {
    RunsOf016();
    RunsOf017();
    CompareReflexive([0, 1, 6]);
    Compare017And016();
    CompareAntisymmetric([0, 1, 7], [0, 1, 6]);
  }

  /** `mkarchi --version` printing only whitespace yields the version "", which prompts
      no upgrade and shows the controls but never sends them */
  lemma BlankVersionOutput(o: ExecOutcome)
    requires o.failure.None? && AllWhitespace(o.stdout)
    ensures StatusOf(o).installed && StatusOf(o).version == Some("")
    ensures !NeedsUpgrade(StatusOf(o).version.value)
    ensures ShowsSizeLimitOptions(StatusOf(o).version.value)
    ensures !SendsSizeLimitOptions(StatusOf(o).version)
  {
    StatusVersionEmptyIff(o);
  }

  // ----- the extract handler's options object -----

  /** The extract form's controls as the handler reads them; a number field is the result
      of `parseInt` on its text, `None` when that is `NaN` */
  datatype ExtractForm = ExtractForm(
    includeContent: bool,
    noIgnore: bool,
    maxDepth: Option<int>,
    noMax: bool,
    maxSize: Option<int>,
    deleteAfter: bool)

  /** `parseInt(text) || 0`: `NaN` and `0` both become 0 */
  function OrZero(parsed: Option<int>): int {
    if parsed.Some? then parsed.value else 0
  }

  /** The options object the handler passes to `executeGive` */
  function ExtractOptions(form: ExtractForm, current: Option<string>): (o: GiveOptions)
    ensures o.ignorePatterns.None? && o.deleteAfter.Some?
    ensures o.noMax.Some? <==> o.maxSize.Some?
  {
    GiveOptions(
      form.includeContent,
      form.noIgnore,
      OrZero(form.maxDepth),
      None,
      if SendsSizeLimitOptions(current) then Some(form.noMax) else None,
      if SendsSizeLimitOptions(current) then Some(OrZero(form.maxSize)) else None,
      Some(form.deleteAfter))
  }

  /** The handler's assignments: three fields at once, the size limits behind the version
      gate, `deleteAfter` always */
  method BuildGiveOptions(form: ExtractForm, current: Option<string>) returns (options: GiveOptions)
    ensures options == ExtractOptions(form, current)
  {
    options := GiveOptions(form.includeContent, form.noIgnore, OrZero(form.maxDepth), None, None, None, None);
    if Truthy(current) {
      var order := CompareVersions(current, Some(SizeLimitThreshold));
      if order >= 0 {
        options := options.(noMax := Some(form.noMax));
        options := options.(maxSize := Some(OrZero(form.maxSize)));
      }
    }
    options := options.(deleteAfter := Some(form.deleteAfter));
  }

  /** Each field of the options object, as the handler fills it in */
  lemma ExtractOptionsFields(form: ExtractForm, current: Option<string>)
    ensures var o := ExtractOptions(form, current);
      o.includeContent == form.includeContent && o.noIgnore == form.noIgnore &&
      o.maxDepth == OrZero(form.maxDepth) && o.ignorePatterns.None? &&
      (o.noMax.Some? <==> SendsSizeLimitOptions(current)) &&
      (o.maxSize.Some? <==> SendsSizeLimitOptions(current)) &&
      o.deleteAfter == Some(form.deleteAfter)
  {
  }

  /** End to end: an older or unknown generator never receives `--no-max` or `-max=`; a recent one
      receives `--no-max` exactly when the box is ticked, and otherwise `-max=N` for a positive size */
  lemma ExtractSizeFlags(form: ExtractForm, current: Option<string>)
    ensures var flags := GiveFlags(ExtractOptions(form, current));
      (NoMax in flags <==> SendsSizeLimitOptions(current) && form.noMax) &&
      (forall n :: MaxSize(n) in flags <==>
        SendsSizeLimitOptions(current) && !form.noMax && OrZero(form.maxSize) > 0 && n == OrZero(form.maxSize))
  {
    SizePresence(ExtractOptions(form, current));
  }

  /** The renderer never fills in `ignorePatterns`, so its commands carry no `--ignore` */
  lemma ExtractNoIgnoreFlag(form: ExtractForm, current: Option<string>)
    ensures forall p :: Ignore(p) !in GiveFlags(ExtractOptions(form, current))
  {
    IgnorePresence(ExtractOptions(form, current));
  }
}
