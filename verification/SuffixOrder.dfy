/** How versions of one release rank by their suffixes, read off the strings. */
module SuffixOrder {
  import opened Orders
  import opened Strings
  import opened Versions

  predicate IsWord(s: string) {
    s != "" && forall i :: 0 <= i < |s| ==> IsLetter(s[i])
  }

  predicate IsRun(s: string) {
    IsWord(s) || AllDigits(s)
  }

  predicate SameClass(a: char, b: char) {
    (IsLetter(a) && IsLetter(b)) || (IsDigit(a) && IsDigit(b))
  }

  /** No word and no number reaches from `a` into `b`. */
  predicate Boundary(a: string, b: string) {
    a != "" && b != "" ==> !SameClass(a[|a| - 1], b[0])
  }

  /** Words come before numbers, words in dictionary order whatever their case, numbers by value. */
  ghost predicate RunBefore(u: string, v: string) {
    || (IsWord(u) && AllDigits(v))
    || (IsWord(u) && IsWord(v) && Before(Lower(u), Lower(v)))
    || (AllDigits(u) && AllDigits(v) && ToNat(u) < ToNat(v))
  }

  predicate IsSeparator(s: string) {
    forall i :: 0 <= i < |s| ==> !IsAlnum(s[i])
  }

  /** A suffix of a release: it is there, does not lengthen the release, and has no newline. */
  predicate IsSuffix(s: string) {
    s != "" && !Continues(s) && '\n' !in s
  }

  // ----- The parts of a suffix -----

  lemma {:induction false} LetterCountIs(s: string, n: nat)
    requires n <= |s| && forall i :: 0 <= i < n ==> IsLetter(s[i])
    requires n == |s| || !IsLetter(s[n])
    ensures LetterCount(s) == n
  {
    if n > 0 {
      LetterCountIs(s[1..], n - 1);
    }
  }

  lemma DigitCountIs(s: string, n: nat)
    requires n <= |s| && forall i :: 0 <= i < n ==> IsDigit(s[i])
    requires n == |s| || !IsDigit(s[n])
    ensures DigitCount(s) == n
  {
    hide DigitCount, IsDigit;
    var k := DigitCount(s);
    assert k < |s| ==> !IsDigit(s[k]);
  }

  function RunPart(u: string): Part
    requires IsRun(u)
  {
    if AllDigits(u) then RawPart(1, Num(ToNat(u))) else RawPart(0, Text(Lower(u)))
  }

  lemma TakeRun(u: string, x: string)
    ensures (u + x)[..|u|] == u && (u + x)[|u|..] == x
  {
  }

  lemma WordFirst(u: string, x: string)
    requires IsWord(u) && Boundary(u, x)
    ensures SuffixParts(u + x) == [RawPart(0, Text(Lower(u)))] + SuffixParts(x)
  {
    var s := u + x;
    assert x != "" ==> s[|u|] == x[0];
    assert u[|u| - 1] == s[|u| - 1];
    LetterCountIs(s, |u|);
    assert !IsDigit(s[0]);
    DigitCountIs(s, 0);
    hide LetterCount, DigitCount, IsLetter, IsDigit, Lower;
    TakeRun(u, x);
  }

  lemma NumberFirst(u: string, x: string)
    requires AllDigits(u) && Boundary(u, x)
    ensures SuffixParts(u + x) == [RawPart(1, Num(ToNat(u)))] + SuffixParts(x)
  {
    var s := u + x;
    assert x != "" ==> s[|u|] == x[0];
    DigitCountIs(s, |u|);
    hide LetterCount, DigitCount, IsLetter, IsDigit, ToNat;
    TakeRun(u, x);
  }

  lemma RunFirst(u: string, x: string)
    requires IsRun(u) && Boundary(u, x)
    ensures SuffixParts(u + x) == [RunPart(u)] + SuffixParts(x)
  {
    hide SuffixParts, Boundary, Lower, ToNat;
    if AllDigits(u) {
      NumberFirst(u, x);
    } else {
      WordFirst(u, x);
    }
  }

  lemma SeparatorFirst(c: char, x: string)
    requires !IsAlnum(c)
    ensures SuffixParts([c] + x) == SuffixParts(x)
  {
    DigitCountIs([c] + x, 0);
    LetterCountIs([c] + x, 0);
    hide LetterCount, DigitCount, IsLetter, IsDigit;
    assert ([c] + x)[1..] == x;
  }

  /** The first run of a string, or one character that is skipped. */
  function FirstLength(s: string): (n: nat)
    requires s != ""
    ensures 0 < n <= |s|
  {
    if DigitCount(s) > 0 then DigitCount(s) else if LetterCount(s) > 0 then LetterCount(s) else 1
  }

  lemma {:induction false} LettersCounted(s: string)
    ensures forall i :: 0 <= i < LetterCount(s) ==> IsLetter(s[i])
    ensures LetterCount(s) < |s| ==> !IsLetter(s[LetterCount(s)])
  {
    if s != "" && IsLetter(s[0]) {
      LettersCounted(s[1..]);
    }
  }

  lemma FirstIs(s: string)
    requires s != ""
    ensures var n := FirstLength(s);
            && (IsRun(s[..n]) || (n == 1 && !IsAlnum(s[0])))
            && Boundary(s[..n], s[n..])
            && (s[..n] + s[n..] == s)
  {
    LettersCounted(s);
    var n := FirstLength(s);
    hide LetterCount, DigitCount;
    assert s[..n] + s[n..] == s;
  }

  lemma BoundaryInside(a: string, n: nat, b: string)
    requires n <= |a| && Boundary(a, b)
    ensures Boundary(a[n..], b)
    ensures Boundary(a[..n], a[n..]) ==> Boundary(a[..n], a[n..] + b)
    ensures a + b == a[..n] + (a[n..] + b)
  {
    hide SameClass;
    assert n < |a| ==> a[n..][|a| - n - 1] == a[|a| - 1];
    assert n == |a| ==> a[..n] == a && a[n..] + b == b;
    assert n < |a| ==> (a[n..] + b)[0] == a[n..][0];
  }

  lemma FirstParts(u: string, x: string)
    requires Boundary(u, x) && (IsRun(u) || (|u| == 1 && !IsAlnum(u[0])))
    ensures SuffixParts(u + x) == (if IsRun(u) then [RunPart(u)] else []) + SuffixParts(x)
  {
    hide SuffixParts, Boundary, RunPart;
    if IsRun(u) {
      RunFirst(u, x);
    } else {
      assert u == [u[0]];
      SeparatorFirst(u[0], x);
    }
  }

  /** Over a boundary the parts of a string are those of its two sides. */
  lemma {:induction false} PartsConcat(a: string, b: string)
    requires Boundary(a, b)
    ensures SuffixParts(a + b) == SuffixParts(a) + SuffixParts(b)
    decreases |a|
  {
    if a == "" {
      assert a + b == b;
    } else {
      hide *;
      var n := FirstLength(a);
      FirstIs(a);
      BoundaryInside(a, n, b);
      FirstParts(a[..n], a[n..]);
      FirstParts(a[..n], a[n..] + b);
      PartsConcat(a[n..], b);
      Associative(if IsRun(a[..n]) then [RunPart(a[..n])] else [], SuffixParts(a[n..]), SuffixParts(b));
    }
  }

  lemma NoParts()
    ensures SuffixParts("") == []
  {
  }

  lemma {:induction false} SeparatorParts(s: string)
    requires IsSeparator(s)
    ensures SuffixParts(s) == []
  {
    if s != "" {
      hide SuffixParts, IsAlnum;
      SeparatorParts(s[1..]);
      SeparatorFirst(s[0], s[1..]);
      assert [s[0]] + s[1..] == s;
    } else {
      NoParts();
    }
  }

  // ----- Comparing parts -----

  lemma WordIsNoNumber(u: string)
    ensures IsWord(u) ==> !AllDigits(u)
  {
    assert u != "" ==> !(IsLetter(u[0]) && IsDigit(u[0]));
  }

  lemma RunsCompare(u: string, v: string)
    requires IsRun(u) && IsRun(v) && RunBefore(u, v)
    ensures ComparePart(RunPart(u), RunPart(v)) < 0
  {
    hide ToNat, Lower, CompareString, Before;
    if IsWord(u) && IsWord(v) {
      CompareStringIsDictionary(Lower(u), Lower(v));
    }
    WordIsNoNumber(u);
    WordIsNoNumber(v);
  }

  lemma {:induction false} FirstPartDecides(c: seq<Part>, p: Part, x: seq<Part>, q: Part, y: seq<Part>)
    requires ComparePart(p, q) < 0
    ensures CompareSeq(ComparePart, c + ([p] + x), c + ([q] + y)) < 0
  {
    if c == [] {
      assert c + ([p] + x) == [p] + x && c + ([q] + y) == [q] + y;
    } else {
      ComparePartIsComparison();
      assert ComparePart(c[0], c[0]) == 0;
      assert (c + ([p] + x))[1..] == c[1..] + ([p] + x) && (c + ([q] + y))[1..] == c[1..] + ([q] + y);
      FirstPartDecides(c[1..], p, x, q, y);
    }
  }

  lemma {:induction false} FurtherPartDecides(c: seq<Part>, q: Part, y: seq<Part>)
    ensures CompareSeq(ComparePart, c, c + ([q] + y)) < 0
  {
    if c == [] {
      assert c + ([q] + y) == [q] + y;
    } else {
      ComparePartIsComparison();
      assert ComparePart(c[0], c[0]) == 0;
      assert (c + ([q] + y))[1..] == c[1..] + ([q] + y);
      FurtherPartDecides(c[1..], q, y);
    }
  }

  // ----- The rank of the versions -----

  lemma SuffixedVersion(release: string, s: string)
    requires IsDotted(release) && IsSuffix(s)
    ensures forall i :: 0 <= i < |SplitOn('.', release)| ==> AllDigits(SplitOn('.', release)[i])
    ensures VersionKey(release + s) == Key(Numbers(SplitOn('.', release)), 0, SuffixParts(s))
  {
    DottedCharacters(release);
    assert '\n' !in release + s by {
      assert forall c :: c in release ==> c != '\n';
    }
    hide *;
    SuffixedKey(release, s);
  }

  lemma SuffixesDecide(release: string, s: string, t: string)
    requires IsDotted(release) && IsSuffix(s) && IsSuffix(t)
    ensures CompareSeq(ComparePart, SuffixParts(s), SuffixParts(t)) < 0 ==>
              VersionLeq(release + s, release + t) && !VersionLeq(release + t, release + s)
    ensures SuffixParts(s) == SuffixParts(t) ==>
              VersionLeq(release + s, release + t) && VersionLeq(release + t, release + s)
  {
    hide IsDotted, IsSuffix, VersionKey, SuffixParts, Numbers, SplitOn;
    SuffixedVersion(release, s);
    SuffixedVersion(release, t);
    var numbers := Numbers(SplitOn('.', release));
    CompareSeqEqual(CompareInt, numbers, numbers);
    if CompareSeq(ComparePart, SuffixParts(s), SuffixParts(t)) < 0 {
      KeysDecide(release + s, release + t);
    }
    if SuffixParts(s) == SuffixParts(t) {
      CompareKeyPair(VersionKey(release + s), VersionKey(release + t));
      CompareKeyPair(VersionKey(release + t), VersionKey(release + s));
    }
  }

  lemma PartsOfThree(c: string, u: string, x: string)
    requires IsRun(u) && Boundary(c, u) && Boundary(u, x)
    ensures SuffixParts(c + (u + x)) == SuffixParts(c) + ([RunPart(u)] + SuffixParts(x))
  {
    assert Boundary(c, u + x) by {
      assert u != "" && (u + x)[0] == u[0];
    }
    hide *;
    PartsConcat(c, u + x);
    RunFirst(u, x);
  }

  /**
   Behind the same beginning the first word or number that differs decides: a word comes before a number,
   words go by the dictionary whatever their case, numbers by their value; what follows has no say.
   */
  lemma FirstRunDecides(release: string, c: string, u: string, x: string, v: string, y: string)
    requires IsDotted(release) && IsRun(u) && IsRun(v) && RunBefore(u, v)
    requires Boundary(c, u) && Boundary(c, v) && Boundary(u, x) && Boundary(v, y)
    requires IsSuffix(c + (u + x)) && IsSuffix(c + (v + y))
    ensures VersionLeq(release + (c + (u + x)), release + (c + (v + y)))
    ensures !VersionLeq(release + (c + (v + y)), release + (c + (u + x)))
  {
    hide *;
    PartsOfThree(c, u, x);
    PartsOfThree(c, v, y);
    RunsCompare(u, v);
    FirstPartDecides(SuffixParts(c), RunPart(u), SuffixParts(x), RunPart(v), SuffixParts(y));
    SuffixesDecide(release, c + (u + x), c + (v + y));
  }

  /** A suffix with a further word or number ranks above the suffix without it. */
  lemma FurtherRunRanksAbove(release: string, c: string, v: string, y: string)
    requires IsDotted(release) && IsRun(v) && Boundary(c, v) && Boundary(v, y)
    requires IsSuffix(c) && IsSuffix(c + (v + y))
    ensures VersionLeq(release + c, release + (c + (v + y))) && !VersionLeq(release + (c + (v + y)), release + c)
  {
    hide *;
    PartsOfThree(c, v, y);
    FurtherPartDecides(SuffixParts(c), RunPart(v), SuffixParts(y));
    SuffixesDecide(release, c, c + (v + y));
  }

  lemma SeparatedParts(a: string, separator: string, b: string)
    requires separator != "" && IsSeparator(separator)
    ensures SuffixParts(a + (separator + b)) == SuffixParts(a) + SuffixParts(b)
  {
    assert Boundary(separator, b) && Boundary(a, separator + b) by {
      assert !IsAlnum(separator[0]) && !IsAlnum(separator[|separator| - 1]);
      assert (separator + b)[0] == separator[0];
    }
    hide IsAlnum, SuffixParts, Boundary;
    PartsConcat(a, separator + b);
    PartsConcat(separator, b);
    SeparatorParts(separator);
  }

  /** Between two words or numbers that do not run together, separators make no difference. */
  lemma SeparatorsAreIgnored(release: string, a: string, separator: string, b: string)
    requires IsDotted(release) && Boundary(a, b) && IsSeparator(separator)
    requires IsSuffix(a + b) && IsSuffix(a + (separator + b))
    ensures VersionLeq(release + (a + b), release + (a + (separator + b)))
    ensures VersionLeq(release + (a + (separator + b)), release + (a + b))
  {
    hide *;
    PartsConcat(a, b);
    if separator == "" {
      assert separator + b == b;
    } else {
      SeparatedParts(a, separator, b);
    }
    SuffixesDecide(release, a + b, a + (separator + b));
  }

  lemma SamePart(u: string, v: string)
    requires IsWord(u) && IsWord(v) && Lower(u) == Lower(v)
    ensures RunPart(u) == RunPart(v)
  {
  }

  /** The case of a word makes no difference. */
  lemma CaseIsIgnored(release: string, c: string, u: string, v: string, x: string)
    requires IsDotted(release) && IsWord(u) && IsWord(v) && Lower(u) == Lower(v)
    requires Boundary(c, u) && Boundary(c, v) && Boundary(u, x) && Boundary(v, x)
    requires IsSuffix(c + (u + x)) && IsSuffix(c + (v + x))
    ensures VersionLeq(release + (c + (u + x)), release + (c + (v + x)))
    ensures VersionLeq(release + (c + (v + x)), release + (c + (u + x)))
  {
    assert IsRun(u) && IsRun(v);
    hide *;
    SamePart(u, v);
    PartsOfThree(c, u, x);
    PartsOfThree(c, v, x);
    SuffixesDecide(release, c + (u + x), c + (v + x));
  }

  lemma WordSuffix(word: string, digits: string)
    requires IsWord(word) && AllDigits(digits)
    ensures IsSuffix(word + (digits + "")) && Boundary(word, digits) && digits + "" == digits
  {
    assert digits + "" == digits;
    assert (word + digits)[0] == word[0];
    assert forall c :: c in word ==> c != '\n';
    assert forall c :: c in digits ==> c != '\n';
  }

  /** Prereleases of one release and kind rank by their number: rc2 comes before rc10. */
  lemma PrereleasesRankNumerically(release: string, word: string, a: string, b: string)
    requires IsDotted(release) && IsWord(word)
    requires AllDigits(a) && AllDigits(b) && ToNat(a) < ToNat(b)
    ensures VersionLeq(release + (word + a), release + (word + b))
    ensures !VersionLeq(release + (word + b), release + (word + a))
  {
    assert RunBefore(a, b) && IsRun(a) && IsRun(b) && Boundary(a, "") && Boundary(b, "");
    WordSuffix(word, a);
    WordSuffix(word, b);
    hide *;
    FirstRunDecides(release, word, a, "", b, "");
  }

  /** Prereleases of one release rank by their words: a2 comes before rc1. */
  lemma PrereleasesRankByWord(release: string, u: string, a: string, v: string, b: string)
    requires IsDotted(release) && IsWord(u) && IsWord(v) && AllDigits(a) && AllDigits(b)
    requires Before(Lower(u), Lower(v))
    ensures VersionLeq(release + (u + a), release + (v + b)) && !VersionLeq(release + (v + b), release + (u + a))
  {
    assert RunBefore(u, v) && IsRun(u) && IsRun(v) && Boundary("", u) && Boundary("", v);
    WordSuffix(u, a);
    WordSuffix(v, b);
    hide *;
    FirstRunDecides(release, "", u, a, v, b);
    assert "" + (u + a) == u + a && "" + (v + b) == v + b;
  }

  // ----- Versions of different releases -----

  predicate ReleasesDiffer(a: seq<string>, b: seq<string>, n: nat) {
    && n <= |a| && n < |b|
    && (forall i :: 0 <= i < n ==> AllDigits(a[i]) && AllDigits(b[i]) && ToNat(a[i]) == ToNat(b[i]))
    && (n < |a| ==> AllDigits(a[n]) && AllDigits(b[n]) && ToNat(a[n]) < ToNat(b[n]))
  }

  /** Where two releases first differ, a number is smaller or one of them ends. */
  ghost predicate ReleaseBefore(r: string, q: string)
    requires IsDotted(r) && IsDotted(q)
  {
    exists n :: ReleasesDiffer(SplitOn('.', r), SplitOn('.', q), n)
  }

  lemma PrefixCompares(a: seq<int>, b: seq<int>)
    requires |a| < |b| && b[..|a|] == a
    ensures CompareSeq(CompareInt, a, b) < 0
    decreases |a|
  {
    if a != [] {
      assert b[..|a|][1..] == b[1..][..|a| - 1];
      assert a[0] == b[..|a|][0] == b[0];
      PrefixCompares(a[1..], b[1..]);
    }
  }

  lemma NumbersCompare(a: seq<string>, b: seq<string>, n: nat)
    requires forall i :: 0 <= i < |a| ==> AllDigits(a[i])
    requires forall i :: 0 <= i < |b| ==> AllDigits(b[i])
    requires ReleasesDiffer(a, b, n)
    ensures CompareSeq(CompareInt, Numbers(a), Numbers(b)) < 0
  {
    hide ToNat, AllDigits, CompareSeq;
    assert Numbers(a)[..n] == Numbers(b)[..n];
    if n == |a| {
      assert Numbers(a)[..n] == Numbers(a);
      PrefixCompares(Numbers(a), Numbers(b));
    } else {
      CompareAtDifference(Numbers(a), Numbers(b), n);
    }
  }

  lemma VersionRelease(r: string, s: string)
    requires IsDotted(r) && (s == "" || IsSuffix(s))
    ensures forall i :: 0 <= i < |SplitOn('.', r)| ==> AllDigits(SplitOn('.', r)[i])
    ensures VersionKey(r + s).release == Numbers(SplitOn('.', r))
  {
    hide *;
    if s == "" {
      DottedKey(r);
      assert r + s == r;
    } else {
      SuffixedVersion(r, s);
    }
  }

  /** The release decides before any suffix: by its first differing number, or by going on where the other ends. */
  lemma ReleaseDecides(r: string, s: string, q: string, t: string)
    requires IsDotted(r) && IsDotted(q) && ReleaseBefore(r, q)
    requires (s == "" || IsSuffix(s)) && (t == "" || IsSuffix(t))
    ensures VersionLeq(r + s, q + t) && !VersionLeq(q + t, r + s)
  {
    hide IsDotted, IsSuffix, VersionKey, Numbers, SplitOn, ReleasesDiffer, CompareSeq;
    VersionRelease(r, s);
    VersionRelease(q, t);
    var n :| ReleasesDiffer(SplitOn('.', r), SplitOn('.', q), n);
    NumbersCompare(SplitOn('.', r), SplitOn('.', q), n);
    KeysDecide(r + s, q + t);
  }

  // ----- Versions without a release in front -----

  predicate HasRelease(v: string) {
    ReleaseLength(v) > 0 && '\n' !in v
  }

  lemma ReleaseNumbers(v: string)
    requires HasRelease(v)
    ensures VersionKey(v).release != []
  {
  }

  lemma NoReleaseKey(v: string)
    requires !HasRelease(v)
    ensures VersionKey(v) == Key([], 0, [RawPart(0, Text(Lower(v)))])
  {
  }

  /** A version that does not begin with a release, or has a newline, ranks below all that do. */
  lemma ReleaseRanksAbove(v: string, w: string)
    requires !HasRelease(v) && HasRelease(w)
    ensures VersionLeq(v, w) && !VersionLeq(w, v)
  {
    NoReleaseKey(v);
    ReleaseNumbers(w);
    hide VersionKey, HasRelease;
    KeysDecide(v, w);
  }

  lemma OnePart(a: string, b: string)
    ensures CompareKey(Key([], 0, [RawPart(0, Text(a))]), Key([], 0, [RawPart(0, Text(b))])) < 0
       <==> CompareString(a, b) < 0
  {
    hide CompareString;
    CompareStringIsComparison();
    var p: Part, q: Part := RawPart(0, Text(a)), RawPart(0, Text(b));
    assert [p][1..] == [] && [q][1..] == [];
    assert CompareSeq(ComparePart, [p], [q]) == if ComparePart(p, q) != 0 then ComparePart(p, q) else 0;
  }

  /** Such versions go by the dictionary, whatever their case. */
  lemma OthersRankAsStrings(v: string, w: string)
    requires !HasRelease(v) && !HasRelease(w)
    ensures !VersionLeq(w, v) <==> Before(Lower(v), Lower(w))
  {
    NoReleaseKey(v);
    NoReleaseKey(w);
    CompareStringIsDictionary(Lower(v), Lower(w));
    OnePart(Lower(v), Lower(w));
    hide VersionKey, HasRelease, CompareString, Lower, Before;
    CompareKeyPair(VersionKey(v), VersionKey(w));
  }
}
