/**
 * `executeGive`'s command line: `mkarchi give` followed by one flag per
 * populated option, in the fixed order -c, --depth, --ignore, --no-max or
 * -max=, --no-ignore. The flags are first described as values, then
 * rendered; a decoder proves that the rendered text determines the flags.
 */
module GiveCommand {
  import opened Wrappers
  import opened Text

  /** The options object `executeGive` receives. `None` is a field the object does not carry */
  datatype GiveOptions = GiveOptions(
    includeContent: bool,
    noIgnore: bool,
    maxDepth: int,
    ignorePatterns: Option<string>,
    noMax: Option<bool>,
    maxSize: Option<int>,
    deleteAfter: Option<bool>)

  /** One flag of the generator's `give` operation */
  datatype Flag =
    | Content
    | Depth(levels: nat)
    | Ignore(patterns: string)
    | NoMax
    | MaxSize(kilobytes: nat)
    | NoIgnore

  /** Position of a flag in the fixed order; --no-max and -max= share a slot */
  function Rank(f: Flag): nat {
    match f
    case Content => 0
    case Depth(_) => 1
    case Ignore(_) => 2
    case NoMax => 3
    case MaxSize(_) => 3
    case NoIgnore => 4
  }

  predicate InFixedOrder(flags: seq<Flag>) {
    forall i, j :: 0 <= i < j < |flags| ==> Rank(flags[i]) < Rank(flags[j])
  }

  /** `options.ignorePatterns && options.ignorePatterns.trim()` */
  predicate HasIgnorePatterns(o: GiveOptions) {
    o.ignorePatterns.Some? && Trim(o.ignorePatterns.value) != ""
  }

  /** `options.maxSize && options.maxSize > 0` */
  predicate HasMaxSize(o: GiveOptions) {
    o.maxSize.Some? && o.maxSize.value > 0
  }

  function ContentPart(o: GiveOptions): seq<Flag> {
    if o.includeContent then [Content] else []
  }

  function DepthPart(o: GiveOptions): seq<Flag> {
    if o.maxDepth > 0 then [Depth(o.maxDepth)] else []
  }

  function IgnorePart(o: GiveOptions): seq<Flag> {
    if HasIgnorePatterns(o) then [Ignore(o.ignorePatterns.value)] else []
  }

  /** `--no-max` wins over an explicit size */
  function SizePart(o: GiveOptions): seq<Flag> {
    if o.noMax == Some(true) then [NoMax]
    else if HasMaxSize(o) then [MaxSize(o.maxSize.value)] else []
  }

  function NoIgnorePart(o: GiveOptions): seq<Flag> {
    if o.noIgnore then [NoIgnore] else []
  }

  /** The flags `executeGive` appends for `o`, in order */
  function GiveFlags(o: GiveOptions): (flags: seq<Flag>)
    ensures |flags| <= 5
  {
    ContentPart(o) + DepthPart(o) + IgnorePart(o) + SizePart(o) + NoIgnorePart(o)
  }

  /** Every flag of `flags` ranks below `k` */
  predicate RanksBelow(flags: seq<Flag>, k: nat) {
    forall f :: f in flags ==> Rank(f) < k
  }

  /** Appending at most one flag of rank `k` after flags ranked below `k` keeps the order */
  lemma AppendPart(a: seq<Flag>, b: seq<Flag>, k: nat)
    requires InFixedOrder(a) && RanksBelow(a, k)
    requires |b| <= 1 && forall f :: f in b ==> Rank(f) == k
    ensures InFixedOrder(a + b) && RanksBelow(a + b, k + 1)
  {
    if b == [] {
      assert a + b == a;
    } else {
      forall i, j | 0 <= i < j < |a + b| ensures Rank((a + b)[i]) < Rank((a + b)[j]) {
        assert (a + b)[i] == a[i] && a[i] in a;
        if j < |a| {
          assert (a + b)[j] == a[j];
        } else {
          assert (a + b)[j] == b[0] && b[0] in b;
        }
      }
    }
  }

  /** The flags always come in the fixed order -c, --depth, --ignore, --no-max/-max=, --no-ignore,
      so none appears twice */
  lemma GiveFlagsInFixedOrder(o: GiveOptions)
    ensures InFixedOrder(GiveFlags(o))
  {
    var c, d, i, z, n := ContentPart(o), DepthPart(o), IgnorePart(o), SizePart(o), NoIgnorePart(o);
    assert [] + c == c;
    AppendPart([], c, 0);
    AppendPart(c, d, 1);
    AppendPart(c + d, i, 2);
    AppendPart(c + d + i, z, 3);
    AppendPart(c + d + i + z, n, 4);
  }

  /** Which flags are present, and with which arguments */
  lemma GiveFlagsPresence(o: GiveOptions)
    ensures Content in GiveFlags(o) <==> o.includeContent
    ensures forall n :: Depth(n) in GiveFlags(o) <==> o.maxDepth > 0 && n == o.maxDepth
    ensures forall p :: Ignore(p) in GiveFlags(o) <==> HasIgnorePatterns(o) && p == o.ignorePatterns.value
    ensures NoMax in GiveFlags(o) <==> o.noMax == Some(true)
    ensures forall n :: MaxSize(n) in GiveFlags(o) <==> o.noMax != Some(true) && HasMaxSize(o) && n == o.maxSize.value
    ensures NoIgnore in GiveFlags(o) <==> o.noIgnore
  {
    ContentAndDepthPresence(o);
    IgnorePresence(o);
    SizePresence(o);
  }

  lemma ContentAndDepthPresence(o: GiveOptions)
    ensures Content in GiveFlags(o) <==> o.includeContent
    ensures forall n :: Depth(n) in GiveFlags(o) <==> o.maxDepth > 0 && n == o.maxDepth
    ensures NoIgnore in GiveFlags(o) <==> o.noIgnore
  {
    InGiveFlags(o);
  }

  lemma IgnorePresence(o: GiveOptions)
    ensures forall p :: Ignore(p) in GiveFlags(o) <==> HasIgnorePatterns(o) && p == o.ignorePatterns.value
  {
    InGiveFlags(o);
  }

  lemma SizePresence(o: GiveOptions)
    ensures NoMax in GiveFlags(o) <==> o.noMax == Some(true)
    ensures forall n :: MaxSize(n) in GiveFlags(o) <==> o.noMax != Some(true) && HasMaxSize(o) && n == o.maxSize.value
  {
    InGiveFlags(o);
  }

  lemma InGiveFlags(o: GiveOptions)
    ensures forall f :: f in GiveFlags(o) <==>
      f in ContentPart(o) || f in DepthPart(o) || f in IgnorePart(o) || f in SizePart(o) || f in NoIgnorePart(o)
  {
  }

  /** `--no-max` and `-max=` never appear together */
  lemma SizeFlagsExclusive(o: GiveOptions)
    ensures !(NoMax in GiveFlags(o) && exists n :: MaxSize(n) in GiveFlags(o))
  {
    GiveFlagsPresence(o);
  }

  // ----- rendering -----

  const GivePrefix := "mkarchi give"

  /** The text `executeGive` appends for one flag, leading space included */
  function FlagText(f: Flag): (s: string)
    ensures |s| > 0 && s[0] == ' '
  {
    match f
    case Content => " -c"
    case Depth(n) => " --depth " + ToDecimal(n)
    case Ignore(p) => " --ignore \"" + p + "\""
    case NoMax => " --no-max"
    case MaxSize(n) => " -max=" + ToDecimal(n)
    case NoIgnore => " --no-ignore"
  }

  function FlagsText(flags: seq<Flag>): (s: string)
    ensures s == [] || s[0] == ' '
    ensures s == [] <==> flags == []
  {
    if flags == [] then "" else FlagText(flags[0]) + FlagsText(flags[1..])
  }

  function CommandLine(flags: seq<Flag>): (line: string)
    ensures |GivePrefix| <= |line| && line[..|GivePrefix|] == GivePrefix
    ensures line == GivePrefix <==> flags == []
    ensures flags != [] ==> line[|GivePrefix|] == ' '
  {
    GivePrefix + FlagsText(flags)
  }

  lemma {:induction false} FlagsTextAppend(a: seq<Flag>, b: seq<Flag>)
    ensures FlagsText(a + b) == FlagsText(a) + FlagsText(b)
  {
    if a == [] {
      assert a + b == b;
    } else {
      assert (a + b)[1..] == a[1..] + b;
      FlagsTextAppend(a[1..], b);
      ConcatAssoc(FlagText(a[0]), FlagsText(a[1..]), FlagsText(b));
    }
  }

  lemma {:induction false} FlagsTextSnoc(flags: seq<Flag>, f: Flag)
    ensures CommandLine(flags + [f]) == CommandLine(flags) + FlagText(f)
  {
    FlagsTextAppend(flags, [f]);
    assert [f][1..] == [];
    assert FlagsText([f]) == FlagText(f);
    ConcatAssoc(GivePrefix, FlagsText(flags), FlagText(f));
  }

  // Each step below states what one guarded `command += ...` of `executeGive` does to the text.

  lemma ContentStep(command: string, flags: seq<Flag>, o: GiveOptions)
    requires command == CommandLine(flags)
    ensures CommandLine(flags + ContentPart(o)) == if o.includeContent then command + " -c" else command
  {
    if o.includeContent {
      FlagsTextSnoc(flags, Content);
    } else {
      assert flags + [] == flags;
    }
  }

  lemma DepthStep(command: string, flags: seq<Flag>, o: GiveOptions)
    requires command == CommandLine(flags)
    ensures CommandLine(flags + DepthPart(o)) ==
      if o.maxDepth > 0 then command + " --depth " + ToDecimal(o.maxDepth) else command
  {
    if o.maxDepth > 0 {
      FlagsTextSnoc(flags, Depth(o.maxDepth));
      ConcatAssoc(command, " --depth ", ToDecimal(o.maxDepth));
    } else {
      assert flags + [] == flags;
    }
  }

  lemma IgnoreStep(command: string, flags: seq<Flag>, o: GiveOptions)
    requires command == CommandLine(flags)
    ensures CommandLine(flags + IgnorePart(o)) ==
      if HasIgnorePatterns(o) then command + " --ignore \"" + o.ignorePatterns.value + "\"" else command
  {
    if HasIgnorePatterns(o) {
      var p := o.ignorePatterns.value;
      FlagsTextSnoc(flags, Ignore(p));
      ConcatAssoc(command, " --ignore \"" + p, "\"");
      ConcatAssoc(command, " --ignore \"", p);
    } else {
      assert flags + [] == flags;
    }
  }

  lemma SizeStep(command: string, flags: seq<Flag>, o: GiveOptions)
    requires command == CommandLine(flags)
    ensures CommandLine(flags + SizePart(o)) ==
      if o.noMax == Some(true) then command + " --no-max"
      else if HasMaxSize(o) then command + " -max=" + ToDecimal(o.maxSize.value)
      else command
  {
    if o.noMax == Some(true) {
      FlagsTextSnoc(flags, NoMax);
    } else if HasMaxSize(o) {
      FlagsTextSnoc(flags, MaxSize(o.maxSize.value));
      ConcatAssoc(command, " -max=", ToDecimal(o.maxSize.value));
    } else {
      assert flags + [] == flags;
    }
  }

  lemma NoIgnoreStep(command: string, flags: seq<Flag>, o: GiveOptions)
    requires command == CommandLine(flags)
    ensures CommandLine(flags + NoIgnorePart(o)) == if o.noIgnore then command + " --no-ignore" else command
  {
    if o.noIgnore {
      FlagsTextSnoc(flags, NoIgnore);
    } else {
      assert flags + [] == flags;
    }
  }

  /** `executeGive`'s `command += ...` steps */
  method GiveCommandLine(options: GiveOptions) returns (command: string)
    ensures command == CommandLine(GiveFlags(options))
  {
    ghost var flags: seq<Flag> := [];
    command := GivePrefix;
    assert command == CommandLine(flags);

    ContentStep(command, flags, options);
    flags := flags + ContentPart(options);
    if options.includeContent {
      command := command + " -c";
    }

    DepthStep(command, flags, options);
    flags := flags + DepthPart(options);
    if options.maxDepth > 0 {
      command := command + " --depth " + ToDecimal(options.maxDepth);
    }

    IgnoreStep(command, flags, options);
    flags := flags + IgnorePart(options);
    if options.ignorePatterns.Some? && Trim(options.ignorePatterns.value) != "" {
      command := command + " --ignore \"" + options.ignorePatterns.value + "\"";
    }

    SizeStep(command, flags, options);
    flags := flags + SizePart(options);
    if options.noMax == Some(true) {
      command := command + " --no-max";
    } else if options.maxSize.Some? && options.maxSize.value > 0 {
      command := command + " -max=" + ToDecimal(options.maxSize.value);
    }

    NoIgnoreStep(command, flags, options);
    flags := flags + NoIgnorePart(options);
    if options.noIgnore {
      command := command + " --no-ignore";
    }
    assert [] + ContentPart(options) == ContentPart(options);
  }

  // ----- decoding: the command line determines its flags -----

  /** Index of the first double quote in `s`, or `|s|` when there is none */
  function QuoteIndex(s: string): (k: nat)
    ensures k <= |s| && '"' !in s[..k]
    ensures k < |s| ==> s[k] == '"'
  {
    if s == [] || s[0] == '"' then 0
    else
      var k' := QuoteIndex(s[1..]);
      assert s[..k' + 1] == [s[0]] + s[1..][..k'];
      k' + 1
  }

  lemma {:induction false} QuoteIndexOf(p: string, rest: string)
    requires '"' !in p
    ensures QuoteIndex(p + "\"" + rest) == |p|
  {
    if p != [] {
      assert (p + "\"" + rest)[1..] == p[1..] + "\"" + rest;
      QuoteIndexOf(p[1..], rest);
    }
  }

  /** The value of the digit run that starts `d`, and what follows it */
  function ReadNumber(d: string): (r: Option<(nat, string)>)
    ensures r.Some? ==> |r.value.1| < |d|
  {
    var k := DigitSpan(d);
    if k == 0 then None else Some((ParseDecimal(d[..k]), d[k..]))
  }

  /** The text up to the next double quote, and what follows that quote */
  function ReadQuoted(p: string): (r: Option<(string, string)>)
    ensures r.Some? ==> |r.value.1| < |p|
  {
    var k := QuoteIndex(p);
    if k == |p| then None else Some((p[..k], p[k + 1..]))
  }

  /** Recognises the flag that starts `t`, and returns it with the text after it */
  function ReadFlag(t: string): (r: Option<(Flag, string)>)
    ensures r.Some? ==> |r.value.1| < |t|
  {
    if " -c" <= t then Some((Content, t[3..]))
    else if " --depth " <= t then
      match ReadNumber(t[9..])
      case Some((n, rest)) => Some((Depth(n), rest))
      case None => None
    else if " --ignore \"" <= t then
      match ReadQuoted(t[11..])
      case Some((p, rest)) => Some((Ignore(p), rest))
      case None => None
    else if " --no-max" <= t then Some((NoMax, t[9..]))
    else if " -max=" <= t then
      match ReadNumber(t[6..])
      case Some((n, rest)) => Some((MaxSize(n), rest))
      case None => None
    else if " --no-ignore" <= t then Some((NoIgnore, t[12..]))
    else None
  }

  /** Reads back the flags from the text after `mkarchi give` */
  function DecodeFlags(s: string): Option<seq<Flag>>
    decreases |s|
  {
    if s == [] then Some([])
    else
      match ReadFlag(s)
      case None => None
      case Some((f, rest)) =>
        match DecodeFlags(rest)
        case None => None
        case Some(fs) => Some([f] + fs)
  }

  function DecodeCommand(s: string): Option<seq<Flag>> {
    if GivePrefix <= s then DecodeFlags(s[|GivePrefix|..]) else None
  }

  /** A flag whose text can be read back: an ignore pattern must not contain a double quote,
      which the command line does not escape */
  predicate Unambiguous(f: Flag) {
    !f.Ignore? || '"' !in f.patterns
  }

  /** A decimal number followed by `r` reads back as that number, leaving `r` */
  lemma ReadNumberOf(n: nat, r: string)
    requires r == [] || r[0] == ' '
    ensures ReadNumber(ToDecimal(n) + r) == Some((n, r))
  {
    DigitSpanOfRun(ToDecimal(n), r);
    ParseToDecimal(n);
    assert (ToDecimal(n) + r)[..|ToDecimal(n)|] == ToDecimal(n);
    assert (ToDecimal(n) + r)[|ToDecimal(n)|..] == r;
  }

  lemma ReadQuotedOf(p: string, r: string)
    requires '"' !in p
    ensures ReadQuoted(p + "\"" + r) == Some((p, r))
  {
    QuoteIndexOf(p, r);
    assert (p + "\"" + r)[..|p|] == p;
    assert (p + "\"" + r)[|p| + 1..] == r;
  }

  lemma ReadContentOf(r: string)
    ensures ReadFlag(" -c" + r) == Some((Content, r))
  {
    PrefixOfConcat(" -c", r);
  }

  lemma ReadDepthOf(n: nat, r: string)
    requires r == [] || r[0] == ' '
    ensures ReadFlag(" --depth " + (ToDecimal(n) + r)) == Some((Depth(n), r))
  {
    var t := " --depth " + (ToDecimal(n) + r);
    NotPrefixAt(" -c", t, 2);
    PrefixOfConcat(" --depth ", ToDecimal(n) + r);
    ReadNumberOf(n, r);
  }

  lemma ReadIgnoreOf(p: string, r: string)
    requires '"' !in p
    ensures ReadFlag(" --ignore \"" + (p + "\"" + r)) == Some((Ignore(p), r))
  {
    var t := " --ignore \"" + (p + "\"" + r);
    NotPrefixAt(" -c", t, 2);
    NotPrefixAt(" --depth ", t, 3);
    PrefixOfConcat(" --ignore \"", p + "\"" + r);
    ReadQuotedOf(p, r);
  }

  lemma ReadNoMaxOf(r: string)
    ensures ReadFlag(" --no-max" + r) == Some((NoMax, r))
  {
    var t := " --no-max" + r;
    NotPrefixAt(" -c", t, 2);
    NotPrefixAt(" --depth ", t, 3);
    NotPrefixAt(" --ignore \"", t, 3);
    PrefixOfConcat(" --no-max", r);
  }

  lemma ReadMaxSizeOf(n: nat, r: string)
    requires r == [] || r[0] == ' '
    ensures ReadFlag(" -max=" + (ToDecimal(n) + r)) == Some((MaxSize(n), r))
  {
    var t := " -max=" + (ToDecimal(n) + r);
    NotPrefixAt(" -c", t, 2);
    NotPrefixAt(" --depth ", t, 2);
    NotPrefixAt(" --ignore \"", t, 2);
    NotPrefixAt(" --no-max", t, 2);
    PrefixOfConcat(" -max=", ToDecimal(n) + r);
    ReadNumberOf(n, r);
  }

  lemma ReadNoIgnoreOf(r: string)
    ensures ReadFlag(" --no-ignore" + r) == Some((NoIgnore, r))
  {
    var t := " --no-ignore" + r;
    NotPrefixAt(" -c", t, 2);
    NotPrefixAt(" --depth ", t, 3);
    NotPrefixAt(" --ignore \"", t, 3);
    NotPrefixAt(" --no-max", t, 6);
    NotPrefixAt(" -max=", t, 2);
    PrefixOfConcat(" --no-ignore", r);
  }

  /** Each flag's text, followed by the end or a space, is recognised as that flag */
  lemma ReadFlagOf(f: Flag, r: string)
    requires Unambiguous(f)
    requires r == [] || r[0] == ' '
    ensures ReadFlag(FlagText(f) + r) == Some((f, r))
  {
    match f
    case Content => ReadContentOf(r);
    case Depth(n) =>
      ConcatAssoc(" --depth ", ToDecimal(n), r);
      ReadDepthOf(n, r);
    case Ignore(p) =>
      ConcatAssoc(" --ignore \"" + p, "\"", r);
      ConcatAssoc(" --ignore \"", p, "\"" + r);
      ConcatAssoc(p, "\"", r);
      ReadIgnoreOf(p, r);
    case NoMax => ReadNoMaxOf(r);
    case MaxSize(n) =>
      ConcatAssoc(" -max=", ToDecimal(n), r);
      ReadMaxSizeOf(n, r);
    case NoIgnore => ReadNoIgnoreOf(r);
  }

  /** Decoding undoes rendering for flags with unambiguous text */
  lemma {:induction false} DecodeFlagsText(flags: seq<Flag>)
    requires forall i :: 0 <= i < |flags| ==> Unambiguous(flags[i])
    ensures DecodeFlags(FlagsText(flags)) == Some(flags)
  {
    if flags != [] {
      var r := FlagsText(flags[1..]);
      ReadFlagOf(flags[0], r);
      DecodeFlagsText(flags[1..]);
      assert flags == [flags[0]] + flags[1..];
    }
  }

  /** The command `executeGive` runs names exactly the flags its options call for,
      so every presence/absence property of `GiveFlags` holds of the command text itself */
  lemma GiveCommandDecodes(o: GiveOptions)
    requires o.ignorePatterns.Some? ==> '"' !in o.ignorePatterns.value
    ensures DecodeCommand(CommandLine(GiveFlags(o))) == Some(GiveFlags(o))
  {
    var flags := GiveFlags(o);
    GiveFlagsPresence(o);
    forall i | 0 <= i < |flags| ensures Unambiguous(flags[i]) {
      if flags[i].Ignore? {
        assert Ignore(flags[i].patterns) in flags;
      }
    }
    DecodeFlagsText(flags);
    assert CommandLine(flags)[|GivePrefix|..] == FlagsText(flags);
  }

  /** With `noMax` set, an explicit size is dropped: the command is `mkarchi give --no-max` */
  lemma NoMaxWinsExample()
    ensures var o := GiveOptions(false, false, 0, None, Some(true), Some(50), None);
      GiveFlags(o) == [NoMax] && CommandLine(GiveFlags(o)) == "mkarchi give --no-max"
  {
  }
}
