/**
 * The renderer's `compareVersions(v1, v2)`: every run of decimal digits in
 * each string is read as a number, and the two lists are compared position by
 * position, a missing position counting as 0. Either argument being empty or
 * absent makes no ordering claim: the answer is then 0.
 */
module VersionCompare {
  import opened Wrappers
  import opened Text

  // ----- digit runs: `v.match(/(\d+)/g)?.map(Number) || []` -----

  /** The numbers spelled by the maximal digit runs of `s`, left to right */
  function DigitRuns(s: string): seq<nat>
    decreases |s|
  {
    if s == [] then []
    else if !IsDigit(s[0]) then DigitRuns(s[1..])
    else
      var k := DigitSpan(s);
      [ParseDecimal(s[..k])] + DigitRuns(s[k..])
  }

  /** Characters other than digits only separate runs: a digit-free prefix contributes nothing */
  lemma {:induction false} DigitRunsSkipsSeparators(sep: string, s: string)
    requires forall i :: 0 <= i < |sep| ==> !IsDigit(sep[i])
    ensures DigitRuns(sep + s) == DigitRuns(s)
    decreases |sep|
  {
    if sep != [] {
      var t := sep + s;
      assert t != [] && t[0] == sep[0] && !IsDigit(t[0]);
      assert t[1..] == sep[1..] + s;
      assert DigitRuns(t) == DigitRuns(t[1..]);
      DigitRunsSkipsSeparators(sep[1..], s);
    } else {
      assert sep + s == s;
    }
  }

  /** A digit run followed by the end or by a non-digit is read as one component */
  lemma DigitRunsOfRun(d: string, rest: string)
    requires d != [] && AllDigits(d)
    requires rest == [] || !IsDigit(rest[0])
    ensures DigitRuns(d + rest) == [ParseDecimal(d)] + DigitRuns(rest)
  {
    DigitSpanOfRun(d, rest);
    assert (d + rest)[..|d|] == d;
    assert (d + rest)[|d|..] == rest;
  }

  /** A single non-digit splits the string in two: the runs on either side are read separately */
  lemma {:induction false} SeparatorSplits(a: string, c: char, b: string)
    requires !IsDigit(c)
    ensures DigitRuns(a + [c] + b) == DigitRuns(a) + DigitRuns(b)
    decreases |a|
  {
    if a == [] {
      assert a + [c] + b == [c] + b;
      DigitRunsSkipsSeparators([c], b);
    } else if !IsDigit(a[0]) {
      var t := a + [c] + b;
      assert t[0] == a[0] && t[1..] == a[1..] + [c] + b;
      SeparatorSplits(a[1..], c, b);
    } else {
      var k := DigitSpan(a);
      var d, r := a[..k], a[k..];
      assert a == d + r;
      assert a + [c] + b == d + (r + [c] + b);
      assert (r + [c] + b)[0] == if r == [] then c else r[0];
      DigitRunsOfRun(d, r);
      DigitRunsOfRun(d, r + [c] + b);
      SeparatorSplits(r, c, b);
    }
  }

  /** The dotted spelling of a list of components, such as "0.1.7" */
  function Dotted(parts: seq<nat>): string
  {
    if parts == [] then ""
    else if |parts| == 1 then ToDecimal(parts[0])
    else ToDecimal(parts[0]) + "." + Dotted(parts[1..])
  }

  /** Reading back the components of a dotted version gives the same list */
  lemma {:induction false} DigitRunsOfDotted(parts: seq<nat>)
    ensures DigitRuns(Dotted(parts)) == parts
  {
    if |parts| == 1 {
      DigitRunsOfRun(ToDecimal(parts[0]), "");
      assert ToDecimal(parts[0]) + "" == ToDecimal(parts[0]);
      ParseToDecimal(parts[0]);
    } else if |parts| > 1 {
      var d, rest := ToDecimal(parts[0]), Dotted(parts[1..]);
      assert Dotted(parts) == d + ("." + rest);
      DigitRunsOfRun(d, "." + rest);
      ParseToDecimal(parts[0]);
      DigitRunsSkipsSeparators(".", rest);
      DigitRunsOfDotted(parts[1..]);
    }
  }

  // ----- component-wise comparison with zero padding -----

  /** Component `i`, or 0 past the end (`parts[i] || 0`) */
  function At(parts: seq<nat>, i: nat): nat {
    if i < |parts| then parts[i] else 0
  }

  function Rest(parts: seq<nat>): seq<nat> {
    if parts == [] then [] else parts[1..]
  }

  /** Lexicographic comparison of two component lists padded with zeros to equal length */
  function Compare(p: seq<nat>, q: seq<nat>): (r: int)
    ensures r == -1 || r == 0 || r == 1
    decreases |p| + |q|
  {
    if p == [] && q == [] then 0
    else if At(p, 0) < At(q, 0) then -1
    else if At(p, 0) > At(q, 0) then 1
    else Compare(Rest(p), Rest(q))
  }

  lemma AtRest(p: seq<nat>, k: nat)
    ensures At(Rest(p), k) == At(p, k + 1)
  {
  }

  /** The two lists agree at every position once padded with zeros */
  ghost predicate PaddedEqual(p: seq<nat>, q: seq<nat>) {
    forall k: nat :: At(p, k) == At(q, k)
  }

  /** The padded lists agree at every position below `k` */
  ghost predicate AgreeBelow(p: seq<nat>, q: seq<nat>, k: nat) {
    forall j: nat :: j < k ==> At(p, j) == At(q, j)
  }

  /** There is a first position where the padded lists differ, and `p` is smaller there */
  ghost predicate FirstDifferenceBelow(p: seq<nat>, q: seq<nat>) {
    exists k: nat :: At(p, k) < At(q, k) && AgreeBelow(p, q, k)
  }

  lemma AgreeBelowRest(p: seq<nat>, q: seq<nat>, k: nat)
    ensures AgreeBelow(p, q, k + 1) <==> At(p, 0) == At(q, 0) && AgreeBelow(Rest(p), Rest(q), k)
  {
    if AgreeBelow(p, q, k + 1) {
      forall j: nat | j < k ensures At(Rest(p), j) == At(Rest(q), j) {
        AtRest(p, j);
        AtRest(q, j);
      }
    }
    if At(p, 0) == At(q, 0) && AgreeBelow(Rest(p), Rest(q), k) {
      forall j: nat | j < k + 1 ensures At(p, j) == At(q, j) {
        if j > 0 {
          AtRest(p, j - 1);
          AtRest(q, j - 1);
        }
      }
    }
  }

  /** 0 means the lists are equal up to trailing zeros, and nothing else */
  lemma {:induction false} CompareZeroIff(p: seq<nat>, q: seq<nat>)
    ensures Compare(p, q) == 0 <==> PaddedEqual(p, q)
    decreases |p| + |q|
  {
    if p == [] && q == [] {
    } else if At(p, 0) != At(q, 0) {
    } else {
      CompareZeroIff(Rest(p), Rest(q));
      if PaddedEqual(Rest(p), Rest(q)) {
        forall k: nat ensures At(p, k) == At(q, k) {
          if k > 0 {
            AtRest(p, k - 1);
            AtRest(q, k - 1);
          }
        }
      } else {
        var k: nat :| At(Rest(p), k) != At(Rest(q), k);
        AtRest(p, k);
        AtRest(q, k);
      }
    }
  }

  /** A first difference where `p` is smaller makes the answer -1 */
  lemma {:induction false} FirstDifferenceGivesLess(p: seq<nat>, q: seq<nat>, k: nat)
    requires At(p, k) < At(q, k) && AgreeBelow(p, q, k)
    ensures Compare(p, q) == -1
    decreases k
  {
    if k > 0 {
      AgreeBelowRest(p, q, k - 1);
      AtRest(p, k - 1);
      AtRest(q, k - 1);
      FirstDifferenceGivesLess(Rest(p), Rest(q), k - 1);
    }
  }

  /** An answer of -1 comes from a first difference where `p` is smaller */
  lemma {:induction false} LessGivesFirstDifference(p: seq<nat>, q: seq<nat>) returns (k: nat)
    requires Compare(p, q) == -1
    ensures At(p, k) < At(q, k) && AgreeBelow(p, q, k)
    decreases |p| + |q|
  {
    if At(p, 0) < At(q, 0) {
      k := 0;
    } else {
      var k' := LessGivesFirstDifference(Rest(p), Rest(q));
      k := k' + 1;
      AgreeBelowRest(p, q, k');
      AtRest(p, k');
      AtRest(q, k');
    }
  }

  /** -1 means `p` is below `q` at the first position where they differ, and nothing else */
  lemma CompareLessIff(p: seq<nat>, q: seq<nat>)
    ensures Compare(p, q) == -1 <==> FirstDifferenceBelow(p, q)
  {
    if Compare(p, q) == -1 {
      var k := LessGivesFirstDifference(p, q);
    }
    if FirstDifferenceBelow(p, q) {
      var k: nat :| At(p, k) < At(q, k) && AgreeBelow(p, q, k);
      FirstDifferenceGivesLess(p, q, k);
    }
  }

  /** Swapping the arguments negates the answer */
  lemma {:induction false} CompareAntisymmetric(p: seq<nat>, q: seq<nat>)
    ensures Compare(q, p) == -Compare(p, q)
    decreases |p| + |q|
  {
    if !(p == [] && q == []) && At(p, 0) == At(q, 0) {
      CompareAntisymmetric(Rest(p), Rest(q));
    }
  }

  /** Every list is equal to itself */
  lemma {:induction false} CompareReflexive(p: seq<nat>)
    ensures Compare(p, p) == 0
    decreases |p|
  {
    if p != [] {
      CompareReflexive(Rest(p));
    }
  }

  /** Below is transitive */
  lemma {:induction false} CompareTransitive(p: seq<nat>, q: seq<nat>, r: seq<nat>)
    requires Compare(p, q) == -1 && Compare(q, r) == -1
    ensures Compare(p, r) == -1
    decreases |p| + |q| + |r|
  {
    if At(p, 0) == At(q, 0) == At(r, 0) {
      CompareTransitive(Rest(p), Rest(q), Rest(r));
    }
  }

  /** Lists equal up to trailing zeros compare the same way against every third list */
  lemma CompareCongruent(p: seq<nat>, p': seq<nat>, q: seq<nat>)
    requires Compare(p, p') == 0
    ensures Compare(p, q) == Compare(p', q)
  {
    CompareZeroIff(p, p');
    CompareLessIff(p, q);
    CompareLessIff(p', q);
    CompareZeroIff(p, q);
    CompareZeroIff(p', q);
  }

  /** Trailing zero components change nothing: "1.2" and "1.2.0" are the same version */
  lemma ComparePadding(p: seq<nat>, q: seq<nat>)
    ensures Compare(p + [0], q) == Compare(p, q)
  {
    assert forall k: nat :: At(p + [0], k) == At(p, k);
    CompareZeroIff(p + [0], p);
    CompareCongruent(p + [0], p, q);
  }

  // ----- compareVersions itself -----

  /** JavaScript truthiness of a string argument: present and non-empty */
  predicate Truthy(v: Option<string>) {
    v.Some? && v.value != ""
  }

  /** The answer `compareVersions(a, b)` gives */
  function VersionOrder(a: Option<string>, b: Option<string>): (r: int)
    ensures -1 <= r <= 1
    ensures r != 0 ==> Truthy(a) && Truthy(b)
  {
    if !Truthy(a) || !Truthy(b) then 0
    else Compare(DigitRuns(a.value), DigitRuns(b.value))
  }

  /** `parts[i..]`, empty once `i` is past the end */
  function Drop(parts: seq<nat>, i: nat): seq<nat> {
    if i <= |parts| then parts[i..] else []
  }

  lemma DropStep(p: seq<nat>, q: seq<nat>, i: nat)
    requires i < |p| || i < |q|
    ensures Compare(Drop(p, i), Drop(q, i)) ==
      if At(p, i) < At(q, i) then -1
      else if At(p, i) > At(q, i) then 1
      else Compare(Drop(p, i + 1), Drop(q, i + 1))
  {
    assert At(Drop(p, i), 0) == At(p, i);
    assert At(Drop(q, i), 0) == At(q, i);
    assert Rest(Drop(p, i)) == Drop(p, i + 1);
    assert Rest(Drop(q, i)) == Drop(q, i + 1);
  }

  /** `compareVersions(v1, v2)`: the index loop with early returns */
  method CompareVersions(v1: Option<string>, v2: Option<string>) returns (r: int)
    ensures r == VersionOrder(v1, v2)
    ensures r == -1 || r == 0 || r == 1
    ensures !Truthy(v1) || !Truthy(v2) ==> r == 0
  {
    if !Truthy(v1) || !Truthy(v2) {
      return 0;
    }
    var parts1 := DigitRuns(v1.value);
    var parts2 := DigitRuns(v2.value);
    var n := if |parts1| > |parts2| then |parts1| else |parts2|;
    var i := 0;
    while i < n
      invariant 0 <= i <= n
      invariant Compare(parts1, parts2) == Compare(Drop(parts1, i), Drop(parts2, i))
    {
      var p1 := if i < |parts1| then parts1[i] else 0;
      var p2 := if i < |parts2| then parts2[i] else 0;
      DropStep(parts1, parts2, i);
      if p1 < p2 {
        return -1;
      }
      if p1 > p2 {
        return 1;
      }
      i := i + 1;
    }
    return 0;
  }

  // ----- the laws at the level of version strings -----

  /** Antisymmetry holds for every pair of arguments, empty or absent ones included */
  lemma VersionOrderAntisymmetric(a: Option<string>, b: Option<string>)
    ensures VersionOrder(b, a) == -VersionOrder(a, b)
  {
    if Truthy(a) && Truthy(b) {
      CompareAntisymmetric(DigitRuns(a.value), DigitRuns(b.value));
    }
  }

  /** Every version equals itself */
  lemma VersionOrderReflexive(a: Option<string>)
    ensures VersionOrder(a, a) == 0
  {
    if Truthy(a) {
      CompareReflexive(DigitRuns(a.value));
    }
  }

  /** A string's verdict depends only on its digit runs */
  lemma VersionOrderByRuns(a: string, b: string, c: Option<string>)
    requires a != "" && b != ""
    requires DigitRuns(a) == DigitRuns(b)
    ensures VersionOrder(Some(a), c) == VersionOrder(Some(b), c)
    ensures VersionOrder(Some(a), Some(b)) == 0
  {
    CompareReflexive(DigitRuns(a));
  }

  /** Appending ".0" to a dotted version does not change how it compares */
  lemma VersionOrderZeroPadding(parts: seq<nat>, other: string)
    requires parts != []
    ensures VersionOrder(Some(Dotted(parts + [0])), Some(other)) ==
            VersionOrder(Some(Dotted(parts)), Some(other))
  {
    DigitRunsOfDotted(parts);
    DigitRunsOfDotted(parts + [0]);
    ComparePadding(parts, DigitRuns(other));
  }

  lemma RunsOf016()
    ensures DigitRuns("0.1.6") == [0, 1, 6]
  {
    assert Dotted([0, 1, 6]) == "0.1.6" by {
      assert ToDecimal(0) == "0" && ToDecimal(1) == "1" && ToDecimal(6) == "6";
      assert [0, 1, 6][1..] == [1, 6] && [1, 6][1..] == [6];
    }
    DigitRunsOfDotted([0, 1, 6]);
  }

  lemma RunsOf017()
    ensures DigitRuns("0.1.7") == [0, 1, 7]
  {
    assert Dotted([0, 1, 7]) == "0.1.7" by {
      assert ToDecimal(0) == "0" && ToDecimal(1) == "1" && ToDecimal(7) == "7";
      assert [0, 1, 7][1..] == [1, 7] && [1, 7][1..] == [7];
    }
    DigitRunsOfDotted([0, 1, 7]);
  }

  lemma RunsOf12()
    ensures DigitRuns("1.2") == [1, 2]
    ensures DigitRuns("1.2.0") == [1, 2, 0]
  {
    assert Dotted([1, 2]) == "1.2" by {
      assert ToDecimal(1) == "1" && ToDecimal(2) == "2";
      assert [1, 2][1..] == [2];
    }
    assert Dotted([1, 2, 0]) == "1.2.0" by {
      assert ToDecimal(1) == "1" && ToDecimal(2) == "2" && ToDecimal(0) == "0";
      assert [1, 2, 0][1..] == [2, 0] && [2, 0][1..] == [0];
    }
    DigitRunsOfDotted([1, 2]);
    DigitRunsOfDotted([1, 2, 0]);
  }

  lemma RunsOfTaggedVersion()
    ensures DigitRuns("mkarchi " + "0.1.7") == [0, 1, 7]
  {
    RunsOf017();
    DigitRunsSkipsSeparators("mkarchi ", "0.1.7");
  }

  lemma Compare017And016()
    ensures Compare([0, 1, 7], [0, 1, 6]) == 1
  {
    assert Rest([0, 1, 7]) == [1, 7] && Rest([1, 7]) == [7];
    assert Rest([0, 1, 6]) == [1, 6] && Rest([1, 6]) == [6];
  }

  /** The doc-comment example: "0.1.7" is newer than "0.1.6", and the reverse */
  lemma ExampleNewer()
    ensures VersionOrder(Some("0.1.7"), Some("0.1.6")) == 1
    ensures VersionOrder(Some("0.1.6"), Some("0.1.7")) == -1
  {
    RunsOf016();
    RunsOf017();
    Compare017And016();
    CompareAntisymmetric([0, 1, 7], [0, 1, 6]);
  }

  /** "1.2" and "1.2.0" are the same version */
  lemma ExamplePadding()
    ensures VersionOrder(Some("1.2"), Some("1.2.0")) == 0
  {
    RunsOf12();
    CompareReflexive([1, 2]);
    ComparePadding([1, 2], [1, 2]);
    assert [1, 2] + [0] == [1, 2, 0];
    CompareAntisymmetric([1, 2], [1, 2, 0]);
  }

  /** Text around the digits does not matter: "mkarchi 0.1.7" is "0.1.7" */
  lemma ExampleTagged()
    ensures VersionOrder(Some("mkarchi " + "0.1.7"), Some("0.1.7")) == 0
  {
    RunsOfTaggedVersion();
    RunsOf017();
    CompareReflexive([0, 1, 7]);
  }
}
