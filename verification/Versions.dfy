/** Version strings: the release at their front, the key they are sorted by, and the two series filters. */
module Versions {
  import opened Orders
  import opened Strings

  predicate AllDigits(s: string) {
    s != [] && forall i :: 0 <= i < |s| ==> IsDigit(s[i])
  }

  /** Dot-separated decimal components. */
  predicate IsDotted(s: string) {
    forall part :: part in SplitOn('.', s) ==> AllDigits(part)
  }

  function DigitCount(s: string): (n: nat)
    ensures n <= |s|
    ensures forall i :: 0 <= i < n ==> IsDigit(s[i])
    ensures n < |s| ==> !IsDigit(s[n])
  {
    if s == [] || !IsDigit(s[0]) then 0 else 1 + DigitCount(s[1..])
  }

  /** How much of `s` the greedy pattern `\d+(\.\d+)*` takes; 0 when it does not match. */
  function ReleaseLength(s: string): (n: nat)
    ensures n <= |s|
    decreases |s|
  {
    var n := DigitCount(s);
    if n == 0 then 0
    else if n < |s| && s[n] == '.' && DigitCount(s[n + 1..]) > 0 then n + 1 + ReleaseLength(s[n + 1..])
    else n
  }

  function Release(s: string): string {
    s[..ReleaseLength(s)]
  }

  lemma DottedSingle(s: string)
    requires '.' !in s
    ensures IsDotted(s) <==> AllDigits(s)
  {
    SplitNone('.', s);
  }

  lemma DottedConcat(a: string, b: string)
    ensures IsDotted(a + ['.'] + b) <==> IsDotted(a) && IsDotted(b)
  {
    SplitConcat('.', a, b);
    var pa, pb := SplitOn('.', a), SplitOn('.', b);
    assert forall p :: p in pa + pb <==> p in pa || p in pb;
  }

  lemma FirstPieceDigits(s: string, n: nat)
    requires n < |s| && '.' !in s[..n + 1] && !IsDigit(s[n])
    ensures !IsDotted(s)
  {
    FirstPiece('.', s, n);
    assert SplitOn('.', s)[0] in SplitOn('.', s);
  }

  lemma DigitsOnly(s: string, n: nat)
    requires n <= DigitCount(s)
    ensures '.' !in s[..n]
    ensures IsDotted(s[..n]) <==> n > 0
  {
    assert forall i :: 0 <= i < n ==> s[..n][i] == s[i];
    DottedSingle(s[..n]);
  }

  lemma {:induction false} DottedAtDot(s: string, n: nat)
    requires n == DigitCount(s) && n < |s| && s[n] == '.'
    ensures IsDotted(s) <==> n > 0 && IsDotted(s[n + 1..])
  {
    DigitsOnly(s, n);
    DottedConcat(s[..n], s[n + 1..]);
    assert s == s[..n] + ['.'] + s[n + 1..];
  }

  lemma {:induction false} DottedAtOther(s: string, n: nat)
    requires n == DigitCount(s) && n < |s| && s[n] != '.'
    ensures !IsDotted(s)
  {
    DigitsOnly(s, n);
    assert s[..n + 1] == s[..n] + [s[n]];
    FirstPieceDigits(s, n);
  }

  lemma {:induction false} DottedStep(s: string)
    ensures var n := DigitCount(s);
            IsDotted(s) <==> n > 0 && (n == |s| || (s[n] == '.' && IsDotted(s[n + 1..])))
  {
    var n := DigitCount(s);
    if n == |s| {
      DigitsOnly(s, n);
      assert s[..n] == s;
    } else if s[n] == '.' {
      DottedAtDot(s, n);
    } else {
      DottedAtOther(s, n);
    }
  }

  lemma {:induction false} PrefixDigits(s: string, k: nat)
    requires k <= |s|
    ensures DigitCount(s[..k]) == if k <= DigitCount(s) then k else DigitCount(s)
  {
    if k > 0 && IsDigit(s[0]) {
      PrefixDigits(s[1..], k - 1);
      assert s[..k][1..] == s[1..][..k - 1];
    }
  }

  lemma ReleaseStep(s: string)
    ensures var n := DigitCount(s);
            ReleaseLength(s) == if 0 < n < |s| && s[n] == '.' && ReleaseLength(s[n + 1..]) > 0
                                then n + 1 + ReleaseLength(s[n + 1..]) else n
  {
    hide DigitCount;
  }

  /** Beyond the digits at its front, a dotted prefix is dotted after the dot. */
  lemma DottedPrefix(s: string, k: nat)
    requires k <= |s|
    ensures var n := DigitCount(s);
            && (k <= n ==> (IsDotted(s[..k]) <==> k > 0))
            && (k > n ==> (IsDotted(s[..k]) <==> n > 0 && s[n] == '.' && IsDotted(s[n + 1..][..k - n - 1])))
  {
    hide DigitCount, IsDotted;
    var n := DigitCount(s);
    DottedStep(s[..k]);
    PrefixDigits(s, k);
    if k > n {
      assert s[..k][n] == s[n];
      assert s[..k][n + 1..] == s[n + 1..][..k - n - 1];
    }
  }

  /** The release is the longest dotted prefix. */
  lemma {:induction false} ReleaseLongest(s: string, k: nat)
    requires k <= |s|
    ensures ReleaseLength(s) > 0 ==> IsDotted(Release(s))
    ensures IsDotted(s[..k]) ==> k <= ReleaseLength(s)
    decreases |s|
  {
    hide IsDotted, DigitCount, ReleaseLength;
    var n := DigitCount(s);
    DottedPrefix(s, k);
    DottedPrefix(s, ReleaseLength(s));
    ReleaseStep(s);
    if 0 < n < |s| && s[n] == '.' {
      var rest := s[n + 1..];
      ReleaseLongest(rest, if k > n then k - n - 1 else 0);
      DottedPrefix(rest, 0);
    }
  }

  lemma {:induction false} ReleaseCharacters(s: string)
    ensures forall i :: 0 <= i < ReleaseLength(s) ==> IsDigit(s[i]) || s[i] == '.'
    ensures 0 < ReleaseLength(s) < |s| ==> !IsDigit(s[ReleaseLength(s)])
    decreases |s|
  {
    var n := DigitCount(s);
    if 0 < n < |s| {
      ReleaseCharacters(s[n + 1..]);
    }
  }

  // ----- Series filters -----

  /** `in_rocm_series`: component by component; `.` in a pattern does not match a newline. */
  predicate InRocmSeries(version: string, series: string) {
    && IsDotted(series)
    && ReleaseLength(version) > 0
    && '\n' !in version
    && SplitOn('.', series) <= SplitOn('.', Release(version))
  }

  /** The filter of the tarball updater: `^series(?!\d)` with the series taken literally. */
  predicate MatchesSeriesPattern(version: string, series: string) {
    series <= version && (|version| > |series| ==> !IsDigit(version[|series|]))
  }

  lemma PatternImpliesSeries(version: string, series: string)
    requires IsDotted(series) && '\n' !in version && MatchesSeriesPattern(version, series)
    ensures InRocmSeries(version, series)
  {
    hide ReleaseLength, SplitOn, DigitCount, IsDotted;
    var n := |series|;
    assert version[..n] == series;
    ReleaseLongest(version, n);
    ReleaseCharacters(version);
    DottedStep(series);
    var release := Release(version);
    if |release| > n {
      assert release[n] == '.';
      assert release == series + ['.'] + release[n + 1..];
      SplitConcat('.', series, release[n + 1..]);
    } else {
      assert release == series;
    }
  }

  lemma SeriesImpliesPattern(version: string, series: string)
    requires InRocmSeries(version, series)
    ensures MatchesSeriesPattern(version, series)
  {
    hide SplitOn, IsDotted, ReleaseLength;
    ReleaseCharacters(version);
    SplitPrefix('.', series, Release(version));
  }

  /**
   The two filters accept the same versions of a dotted series. In general they agree exactly when
   the series is dotted and the version has no newline, or the pattern rejects.
   */
  lemma SeriesFiltersAgree(version: string, series: string)
    ensures IsDotted(series) && '\n' !in version ==>
              (MatchesSeriesPattern(version, series) <==> InRocmSeries(version, series))
    ensures (MatchesSeriesPattern(version, series) <==> InRocmSeries(version, series)) <==>
            (IsDotted(series) && '\n' !in version) || !MatchesSeriesPattern(version, series)
  {
    if IsDotted(series) && '\n' !in version && MatchesSeriesPattern(version, series) {
      PatternImpliesSeries(version, series);
    }
    if InRocmSeries(version, series) {
      SeriesImpliesPattern(version, series);
    }
  }

  lemma SeriesIsDotted(version: string, series: string)
    requires InRocmSeries(version, series)
    ensures IsDotted(series) && '\n' !in version
  {
  }

  /** A version is in a series exactly when it is the series, or the series and then no further digit. */
  lemma SeriesExactly(version: string, series: string)
    ensures InRocmSeries(version, series) <==>
            && IsDotted(series) && '\n' !in version
            && (version == series
                || exists c, rest :: version == series + [c] + rest && c !in "0123456789")
  {
    hide InRocmSeries, IsDotted;
    SeriesFiltersAgree(version, series);
    if InRocmSeries(version, series) {
      SeriesIsDotted(version, series);
    }
    if series <= version && |version| > |series| {
      assert version == series + [version[|series|]] + version[|series| + 1..];
    }
    forall c, rest | version == series + [c] + rest
      ensures |version| > |series| && version[|series|] == c && series <= version
    {
    }
    assert forall c: char :: IsDigit(c) <==> c in "0123456789";
  }

  lemma PatternTakesSeries(series: string)
    ensures MatchesSeriesPattern(series, series)
  {
  }

  lemma DottedHasNoNewline(s: string)
    requires IsDotted(s)
    ensures '\n' !in s
  {
    hide IsDotted, ReleaseLength;
    ReleaseLongest(s, |s|);
    assert s[..|s|] == s;
    ReleaseCharacters(s);
  }

  lemma NewlineNotMatched(v: string, series: string)
    requires '\n' !in v && '\n' in series
    ensures !MatchesSeriesPattern(v, series)
  {
    assert series <= v ==> forall c :: c in series ==> c in v;
  }

  /**
   What a series must be like: the two filters agree on every version without a newline exactly when the
   series is dotted, or has a newline itself, in which case both reject everything.
   */
  lemma SeriesFiltersAgreeFor(series: string)
    ensures (forall v :: '\n' !in v ==> (MatchesSeriesPattern(v, series) <==> InRocmSeries(v, series))) <==>
            IsDotted(series) || '\n' in series
  {
    forall v | '\n' !in v
      ensures IsDotted(series) ==> (MatchesSeriesPattern(v, series) <==> InRocmSeries(v, series))
      ensures '\n' in series ==> !MatchesSeriesPattern(v, series) && !InRocmSeries(v, series)
    {
      SeriesFiltersAgree(v, series);
      if IsDotted(series) {
        DottedHasNoNewline(series);
      }
      if '\n' in series {
        NewlineNotMatched(v, series);
      }
    }
    PatternTakesSeries(series);
  }

  /** A prerelease taken for a series: the pattern accepts the very version, the component prefix nothing at all. */
  lemma SeriesFiltersDiffer()
    ensures MatchesSeriesPattern("7.0rc1", "7.0rc1") && !InRocmSeries("7.0rc1", "7.0rc1")
  {
    hide SplitOn, IsDotted;
    assert "7.0rc1" == "7" + ['.'] + "0rc1";
    DottedConcat("7", "0rc1");
    DottedSingle("0rc1");
    assert !IsDigit("0rc1"[1]);
  }

  // ----- The sort key -----

  datatype Scalar = Num(n: nat) | Text(s: string)

  datatype RawPart = RawPart(tag: nat, value: Scalar)

  /** A piece of a suffix: tag 1 goes with a number, tag 0 with a word. */
  type Part = p: RawPart | (p.tag == 1 && p.value.Num?) || (p.tag == 0 && p.value.Text?)
    witness RawPart(0, Text(""))

  datatype Key = Key(release: seq<int>, final: int, suffix: seq<Part>)

  function ToNat(s: string): nat
    requires forall i :: 0 <= i < |s| ==> IsDigit(s[i])
  {
    if |s| == 0 then 0
    else
      assert IsDigit(s[|s| - 1]);
      ToNat(s[..|s| - 1]) * 10 + (s[|s| - 1] as int - '0' as int)
  }

  function LetterCount(s: string): (n: nat)
    ensures n <= |s|
  {
    if s == [] || !IsLetter(s[0]) then 0 else 1 + LetterCount(s[1..])
  }

  /** The numbers and words of a suffix, everything else being skipped. */
  function SuffixParts(s: string): seq<Part>
    decreases |s|
  {
    if s == [] then []
    else if DigitCount(s) > 0 then
      [RawPart(1, Num(ToNat(s[..DigitCount(s)])))] + SuffixParts(s[DigitCount(s)..])
    else if LetterCount(s) > 0 then
      [RawPart(0, Text(Lower(s[..LetterCount(s)])))] + SuffixParts(s[LetterCount(s)..])
    else SuffixParts(s[1..])
  }

  function Numbers(parts: seq<string>): seq<int>
    requires forall i :: 0 <= i < |parts| ==> AllDigits(parts[i])
  {
    seq(|parts|, i requires 0 <= i < |parts| => assert AllDigits(parts[i]); ToNat(parts[i]))
  }

  function VersionKey(version: string): Key {
    var n := ReleaseLength(version);
    if n == 0 || '\n' in version then Key([], 0, [RawPart(0, Text(Lower(version)))])
    else
      ReleaseLongest(version, 0);
      Key(Numbers(SplitOn('.', Release(version))), if n == |version| then 1 else 0, SuffixParts(version[n..]))
  }

  /** Comparing a number with a word would raise; the tags keep that from happening. */
  function CompareScalar(a: Scalar, b: Scalar): int
    requires a.Num? <==> b.Num?
  {
    if a.Num? then CompareInt(a.n, b.n) else CompareString(a.s, b.s)
  }

  function ComparePart(a: Part, b: Part): int {
    if a.tag != b.tag then CompareInt(a.tag, b.tag) else CompareScalar(a.value, b.value)
  }

  function CompareKey(a: Key, b: Key): int {
    if CompareSeq(CompareInt, a.release, b.release) != 0 then CompareSeq(CompareInt, a.release, b.release)
    else if a.final != b.final then CompareInt(a.final, b.final)
    else CompareSeq(ComparePart, a.suffix, b.suffix)
  }

  lemma ComparePartIsComparison()
    ensures IsComparison(ComparePart)
  {
    CompareStringIsComparison();
    forall a: Part, b: Part
      ensures ComparePart(a, b) == 0 <==> a == b
      ensures ComparePart(a, b) < 0 <==> ComparePart(b, a) > 0
    {
      if a.value.Text? && b.value.Text? {
        assert CompareString(a.value.s, b.value.s) == 0 <==> a.value.s == b.value.s;
        assert CompareString(a.value.s, b.value.s) < 0 <==> CompareString(b.value.s, a.value.s) > 0;
      }
    }
    forall a: Part, b: Part, c: Part | ComparePart(a, b) <= 0 && ComparePart(b, c) <= 0
      ensures ComparePart(a, c) <= 0
    {
      if a.value.Text? && b.value.Text? && c.value.Text? {
        assert CompareString(a.value.s, b.value.s) <= 0 && CompareString(b.value.s, c.value.s) <= 0;
      }
    }
  }

  lemma CompareKeyPair(a: Key, b: Key)
    ensures CompareKey(a, b) == 0 <==> a == b
    ensures CompareKey(a, b) < 0 <==> CompareKey(b, a) > 0
  {
    ComparePartIsComparison();
    CompareSeqEqual(CompareInt, a.release, b.release);
    CompareSeqEqual(CompareInt, b.release, a.release);
    CompareSeqEqual(ComparePart, a.suffix, b.suffix);
    CompareSeqEqual(ComparePart, b.suffix, a.suffix);
  }

  lemma CompareKeyTransitive(a: Key, b: Key, c: Key)
    requires CompareKey(a, b) <= 0 && CompareKey(b, c) <= 0
    ensures CompareKey(a, c) <= 0
  {
    ComparePartIsComparison();
    CompareSeqEqual(CompareInt, a.release, b.release);
    CompareSeqEqual(CompareInt, b.release, c.release);
    CompareSeqEqual(CompareInt, a.release, c.release);
    CompareSeqTransitive(CompareInt, a.release, b.release, c.release);
    if a.release == c.release {
      CompareSeqEqual(CompareInt, c.release, b.release);
      if a.final == b.final == c.final {
        CompareSeqTransitive(ComparePart, a.suffix, b.suffix, c.suffix);
      }
    }
  }

  /** Keys are totally ordered. */
  lemma CompareKeyIsComparison()
    ensures IsComparison(CompareKey)
  {
    forall a: Key, b: Key
      ensures CompareKey(a, b) == 0 <==> a == b
      ensures CompareKey(a, b) < 0 <==> CompareKey(b, a) > 0
    {
      CompareKeyPair(a, b);
    }
    forall a: Key, b: Key, c: Key | CompareKey(a, b) <= 0 && CompareKey(b, c) <= 0
      ensures CompareKey(a, c) <= 0
    {
      CompareKeyTransitive(a, b, c);
    }
  }

  predicate VersionLeq(a: string, b: string) {
    CompareKey(VersionKey(a), VersionKey(b)) <= 0
  }

  /** Versions are totally preordered by their keys: `01.0` and `1.0` tie. */
  lemma VersionLeqIsPreorder()
    ensures IsTotalPreorder(VersionLeq)
  {
    CompareKeyIsComparison();
    forall a: string, b: string
      ensures VersionLeq(a, b) || VersionLeq(b, a)
    {
      assert CompareKey(VersionKey(a), VersionKey(b)) < 0 <==> CompareKey(VersionKey(b), VersionKey(a)) > 0;
    }
  }

  /** A suffix that would lengthen a release in front of it: it begins with a digit, or with a dot and a digit. */
  predicate Continues(suffix: string) {
    suffix != "" && (IsDigit(suffix[0]) || (suffix[0] == '.' && |suffix| > 1 && IsDigit(suffix[1])))
  }

  /** Inside a release every dot is followed by a digit. */
  lemma {:induction false} ReleaseEnds(s: string)
    ensures forall i :: 0 <= i < ReleaseLength(s) && s[i] == '.' ==> i + 1 < ReleaseLength(s) && IsDigit(s[i + 1])
    decreases |s|
  {
    var n := DigitCount(s);
    if 0 < n < |s| && s[n] == '.' && DigitCount(s[n + 1..]) > 0 {
      ReleaseEnds(s[n + 1..]);
      assert forall i :: n < i < |s| ==> s[i] == s[n + 1..][i - n - 1];
    }
  }

  lemma {:induction false} ReleaseOfSuffixed(release: string, suffix: string)
    requires IsDotted(release) && !Continues(suffix)
    ensures ReleaseLength(release + suffix) == |release| > 0
  {
    var v, n := release + suffix, |release|;
    assert v[..n] == release;
    ReleaseLongest(v, n);
    DottedStep(release);
    ReleaseCharacters(v);
    ReleaseEnds(v);
    if suffix != "" {
      assert v[n] == suffix[0];
      assert |suffix| > 1 ==> v[n + 1] == suffix[1];
    }
  }

  // ----- Numbers in versions -----

  function Pow10(n: nat): nat {
    if n == 0 then 1 else 10 * Pow10(n - 1)
  }

  predicate NoLeadingZero(s: string) {
    AllDigits(s) && (|s| > 1 ==> s[0] != '0')
  }

  lemma {:induction false} ToNatBounds(s: string)
    requires AllDigits(s)
    ensures ToNat(s) < Pow10(|s|)
    ensures s[0] != '0' ==> ToNat(s) >= Pow10(|s| - 1)
  {
    assert IsDigit(s[|s| - 1]);
    if |s| > 1 {
      ToNatBounds(s[..|s| - 1]);
    } else {
      assert s[..0] == [];
    }
  }

  lemma {:induction false} Pow10Monotone(m: nat, n: nat)
    requires m <= n
    ensures Pow10(m) <= Pow10(n)
    decreases n
  {
    if m < n {
      Pow10Monotone(m, n - 1);
    }
  }

  lemma FewerDigits(a: string, b: string)
    requires NoLeadingZero(a) && NoLeadingZero(b) && |a| < |b|
    ensures ToNat(a) < ToNat(b)
  {
    hide ToNat;
    ToNatBounds(a);
    ToNatBounds(b);
    Pow10Monotone(|a|, |b| - 1);
  }

  /** Strings of one length are compared by their last characters once the rest agrees. */
  lemma {:induction false} CompareLast(a: string, b: string)
    requires |a| == |b| > 0
    ensures CompareString(a, b)
         == if CompareString(a[..|a| - 1], b[..|b| - 1]) != 0 then CompareString(a[..|a| - 1], b[..|b| - 1])
            else CompareChar(a[|a| - 1], b[|b| - 1])
    decreases |a|
  {
    if |a| > 1 {
      CompareLast(a[1..], b[1..]);
      assert a[1..][..|a| - 2] == a[..|a| - 1][1..] && b[1..][..|b| - 2] == b[..|b| - 1][1..];
    } else {
      assert a[1..] == b[1..] == a[..0] == b[..0] == [];
    }
  }

  lemma {:induction false} SameDigits(a: string, b: string)
    requires |a| == |b| && forall i :: 0 <= i < |a| ==> IsDigit(a[i]) && IsDigit(b[i])
    ensures ToNat(a) < ToNat(b) <==> CompareString(a, b) < 0
    ensures ToNat(a) == ToNat(b) <==> CompareString(a, b) == 0
    decreases |a|
  {
    if a != [] {
      assert IsDigit(a[|a| - 1]) && IsDigit(b[|b| - 1]);
      SameDigits(a[..|a| - 1], b[..|b| - 1]);
      CompareLast(a, b);
    }
  }

  /** Numbers without leading zeros are ordered by their number of digits first, then as strings. */
  lemma NumbersOrder(a: string, b: string)
    requires NoLeadingZero(a) && NoLeadingZero(b)
    ensures ToNat(a) < ToNat(b) <==> |a| < |b| || (|a| == |b| && CompareString(a, b) < 0)
  {
    hide ToNat, CompareString;
    if |a| < |b| {
      FewerDigits(a, b);
    } else if |a| > |b| {
      FewerDigits(b, a);
    } else {
      SameDigits(a, b);
    }
  }

  lemma {:induction false} CompareAtDifference(a: seq<int>, b: seq<int>, n: nat)
    requires n < |a| && n < |b| && a[..n] == b[..n] && a[n] < b[n]
    ensures CompareSeq(CompareInt, a, b) < 0
  {
    if n > 0 {
      assert a[0] == a[..n][0] == b[..n][0] == b[0];
      assert a[1..][..n - 1] == a[..n][1..] == b[..n][1..] == b[1..][..n - 1];
      CompareAtDifference(a[1..], b[1..], n - 1);
    }
  }

  lemma DottedKey(v: string)
    requires IsDotted(v)
    ensures forall i :: 0 <= i < |SplitOn('.', v)| ==> AllDigits(SplitOn('.', v)[i])
    ensures VersionKey(v) == Key(Numbers(SplitOn('.', v)), 1, [])
  {
    assert v + "" == v;
    ReleaseOfSuffixed(v, "");
    ReleaseCharacters(v);
    assert Release(v) == v;
    forall i | 0 <= i < |SplitOn('.', v)|
      ensures AllDigits(SplitOn('.', v)[i])
    {
      assert SplitOn('.', v)[i] in SplitOn('.', v);
    }
  }

  /** Releases rank by their first differing component, compared as a number: 10.0.9 comes before 10.0.10. */
  lemma ReleasesRankNumerically(v: string, w: string, n: nat)
    requires IsDotted(v) && IsDotted(w)
    requires n < |SplitOn('.', v)| && n < |SplitOn('.', w)| && SplitOn('.', v)[..n] == SplitOn('.', w)[..n]
    requires AllDigits(SplitOn('.', v)[n]) && AllDigits(SplitOn('.', w)[n])
    requires ToNat(SplitOn('.', v)[n]) < ToNat(SplitOn('.', w)[n])
    ensures VersionLeq(v, w) && !VersionLeq(w, v)
  {
    hide IsDotted, SplitOn, ToNat, VersionKey, AllDigits;
    DottedKey(v);
    DottedKey(w);
    var a, b := Numbers(SplitOn('.', v)), Numbers(SplitOn('.', w));
    forall i | 0 <= i < n
      ensures a[i] == b[i]
    {
      assert SplitOn('.', v)[i] == SplitOn('.', v)[..n][i] == SplitOn('.', w)[..n][i] == SplitOn('.', w)[i];
    }
    CompareAtDifference(a, b, n);
    CompareSeqEqual(CompareInt, a, b);
  }

  /** Read off the digits: where two releases first differ, fewer digits come first, then the smaller string. */
  lemma ReleasesRankByDigits(v: string, w: string, n: nat)
    requires IsDotted(v) && IsDotted(w)
    requires n < |SplitOn('.', v)| && n < |SplitOn('.', w)| && SplitOn('.', v)[..n] == SplitOn('.', w)[..n]
    requires NoLeadingZero(SplitOn('.', v)[n]) && NoLeadingZero(SplitOn('.', w)[n])
    requires SplitOn('.', v)[n] != SplitOn('.', w)[n]
    ensures var a, b := SplitOn('.', v)[n], SplitOn('.', w)[n];
            VersionLeq(v, w) <==> |a| < |b| || (|a| == |b| && CompareString(a, b) < 0)
  {
    hide SplitOn, VersionLeq, ToNat, CompareString;
    var a, b := SplitOn('.', v)[n], SplitOn('.', w)[n];
    NumbersOrder(a, b);
    NumbersOrder(b, a);
    CompareStringIsComparison();
    assert CompareString(a, b) != 0;
    if ToNat(a) < ToNat(b) {
      ReleasesRankNumerically(v, w, n);
    } else {
      assert CompareString(b, a) < 0 || CompareString(a, b) < 0;
      ReleasesRankNumerically(w, v, n);
    }
  }

  lemma DottedCharacters(release: string)
    requires IsDotted(release)
    ensures forall i :: 0 <= i < |release| ==> IsDigit(release[i]) || release[i] == '.'
  {
    hide IsDotted, ReleaseLength;
    ReleaseOfSuffixed(release, "");
    assert release + "" == release;
    ReleaseCharacters(release);
  }

  lemma SuffixedKey(release: string, suffix: string)
    requires IsDotted(release) && suffix != "" && !Continues(suffix) && '\n' !in release + suffix
    ensures forall i :: 0 <= i < |SplitOn('.', release)| ==> AllDigits(SplitOn('.', release)[i])
    ensures VersionKey(release + suffix) == Key(Numbers(SplitOn('.', release)), 0, SuffixParts(suffix))
  {
    hide IsDotted, SplitOn, ReleaseLength, SuffixParts, Continues, Numbers;
    ReleaseOfSuffixed(release, suffix);
    DottedKey(release);
    var v := release + suffix;
    assert Release(v) == release && v[|release|..] == suffix;
  }

  lemma KeysDecide(v: string, w: string)
    requires CompareKey(VersionKey(v), VersionKey(w)) < 0
    ensures VersionLeq(v, w) && !VersionLeq(w, v)
  {
    hide VersionKey;
    CompareKeyPair(VersionKey(v), VersionKey(w));
  }

  lemma NewlineKey(v: string)
    requires '\n' in v
    ensures VersionKey(v) == Key([], 0, [RawPart(0, Text(Lower(v)))])
  {
  }

  /** A release ranks strictly above itself followed by any suffix that does not continue it. */
  lemma ReleaseAboveSuffixed(release: string, suffix: string)
    requires IsDotted(release) && suffix != "" && !Continues(suffix)
    ensures !VersionLeq(release, release + suffix)
  {
    hide IsDotted, SplitOn, Continues, Numbers, SuffixParts, ReleaseLength, VersionKey;
    DottedKey(release);
    if '\n' !in release + suffix {
      SuffixedKey(release, suffix);
    } else {
      NewlineKey(release + suffix);
    }
    var a := VersionKey(release);
    CompareSeqEqual(CompareInt, a.release, a.release);
  }
}
