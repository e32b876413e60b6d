/** The names of the generated flake inputs. */
module InputNames {
  import opened Orders
  import opened Strings

  // ----- Slugs -----

  /** Replaces every maximal run of other characters by one dash. */
  function DashRuns(s: string): string
    decreases |s|
  {
    if s == [] then []
    else if IsAlnum(s[0]) then [s[0]] + DashRuns(s[1..])
    else if |s| > 1 && !IsAlnum(s[1]) then DashRuns(s[1..])
    else "-" + DashRuns(s[1..])
  }

  function StripLeft(s: string): string {
    if s != [] && s[0] == '-' then StripLeft(s[1..]) else s
  }

  function StripRight(s: string): string {
    if s != [] && s[|s| - 1] == '-' then StripRight(s[..|s| - 1]) else s
  }

  function Slug(path: string): string {
    var slug := Lower(StripRight(StripLeft(DashRuns(path))));
    if |slug| > 64 then StripRight(slug[..64]) else slug
  }

  /** Words of lower-case letters and digits with single dashes between them. */
  ghost predicate IsSlug(s: string) {
    && (forall i :: 0 <= i < |s| ==> IsLower(s[i]) || IsDigit(s[i]) || s[i] == '-')
    && (forall i :: 0 <= i < |s| - 1 ==> s[i] != '-' || s[i + 1] != '-')
    && (s != [] ==> s[0] != '-' && s[|s| - 1] != '-')
  }

  ghost predicate SingleDashes(s: string) {
    && (forall i :: 0 <= i < |s| ==> IsAlnum(s[i]) || s[i] == '-')
    && (forall i :: 0 <= i < |s| - 1 ==> s[i] != '-' || s[i + 1] != '-')
  }

  lemma {:induction false} DashRunsShape(s: string)
    ensures SingleDashes(DashRuns(s))
    ensures s != [] ==> DashRuns(s) != [] && (DashRuns(s)[0] == '-' <==> !IsAlnum(s[0]))
    decreases |s|
  {
    if s != [] {
      DashRunsShape(s[1..]);
    }
  }

  lemma {:induction false} StripLeftShape(s: string)
    requires SingleDashes(s)
    ensures SingleDashes(StripLeft(s))
    ensures StripLeft(s) != [] ==> StripLeft(s)[0] != '-'
  {
    if s != [] && s[0] == '-' {
      StripLeftShape(s[1..]);
    }
  }

  lemma {:induction false} StripRightShape(s: string)
    ensures StripRight(s) <= s
    ensures StripRight(s) != [] ==> StripRight(s)[|StripRight(s)| - 1] != '-'
  {
    if s != [] && s[|s| - 1] == '-' {
      StripRightShape(s[..|s| - 1]);
    }
  }

  lemma LowerShape(s: string)
    requires SingleDashes(s) && (s != [] ==> s[0] != '-' && s[|s| - 1] != '-')
    ensures IsSlug(Lower(s))
  {
  }

  /** Truncation included, a slug has single inner dashes only and at most 64 characters. */
  lemma SlugShape(path: string)
    ensures IsSlug(Slug(path)) && |Slug(path)| <= 64
  {
    hide DashRuns, StripLeft, StripRight, Lower;
    DashRunsShape(path);
    var left := StripLeft(DashRuns(path));
    StripLeftShape(DashRuns(path));
    StripRightShape(left);
    LowerShape(StripRight(left));
    var slug := Lower(StripRight(left));
    if |slug| > 64 {
      StripRightShape(slug[..64]);
    } else {
      assert Slug(path) == slug;
    }
  }

  function Letters(s: string): string {
    if s == [] then [] else (if IsAlnum(s[0]) then [s[0]] else []) + Letters(s[1..])
  }

  lemma {:induction false} LettersConcat(a: string, b: string)
    ensures Letters(a + b) == Letters(a) + Letters(b)
  {
    if a == [] {
      assert a + b == b;
    } else {
      assert (a + b)[1..] == a[1..] + b && (a + b)[0] == a[0];
      LettersConcat(a[1..], b);
      Associative(if IsAlnum(a[0]) then [a[0]] else [], Letters(a[1..]), Letters(b));
    }
  }

  lemma {:induction false} DashRunsLetters(s: string)
    ensures Letters(DashRuns(s)) == Letters(s)
    decreases |s|
  {
    if s != [] {
      DashRunsLetters(s[1..]);
      if IsAlnum(s[0]) {
        LettersConcat([s[0]], DashRuns(s[1..]));
      } else {
        LettersConcat("-", DashRuns(s[1..]));
      }
    }
  }

  lemma {:induction false} StripLeftLetters(s: string)
    ensures Letters(StripLeft(s)) == Letters(s)
  {
    if s != [] && s[0] == '-' {
      StripLeftLetters(s[1..]);
    }
  }

  lemma {:induction false} StripRightLetters(s: string)
    ensures Letters(StripRight(s)) == Letters(s)
  {
    if s != [] && s[|s| - 1] == '-' {
      StripRightLetters(s[..|s| - 1]);
      assert s == s[..|s| - 1] + [s[|s| - 1]];
      LettersConcat(s[..|s| - 1], [s[|s| - 1]]);
    }
  }

  lemma LowerCons(c: char, rest: string)
    ensures Lower([c] + rest) == Lower([c]) + Lower(rest)
    ensures IsAlnum(Lower([c])[0]) <==> IsAlnum(c)
  {
  }

  lemma LettersCons(c: string, rest: string)
    requires |c| == 1
    ensures Letters(c + rest) == (if IsAlnum(c[0]) then c else []) + Letters(rest)
  {
    assert (c + rest)[1..] == rest && c == [c[0]];
  }

  lemma {:induction false} LowerLetters(s: string)
    ensures Letters(Lower(s)) == Lower(Letters(s))
  {
    if s != [] {
      LowerLetters(s[1..]);
      hide Lower, IsAlnum;
      LowerCons(s[0], s[1..]);
      LowerCons(s[0], Letters(s[1..]));
      assert [s[0]] + s[1..] == s;
      assert |Lower([s[0]])| == 1;
      LettersCons(Lower([s[0]]), Lower(s[1..]));
    }
  }

  /** The letters and digits of a slug are those of the path in lower case, all of them unless it is cut short. */
  lemma SlugKeepsLetters(path: string)
    ensures Letters(Slug(path)) <= Lower(Letters(path))
    ensures |Lower(StripRight(StripLeft(DashRuns(path))))| <= 64 ==> Letters(Slug(path)) == Lower(Letters(path))
  {
    var left := StripLeft(DashRuns(path));
    var slug := Lower(StripRight(left));
    DashRunsLetters(path);
    StripLeftLetters(DashRuns(path));
    StripRightLetters(left);
    LowerLetters(StripRight(left));
    if |slug| > 64 {
      StripRightLetters(slug[..64]);
      assert slug == slug[..64] + slug[64..];
      LettersConcat(slug[..64], slug[64..]);
    }
  }

  // ----- A slug, word by word -----

  /** The maximal runs of letters and digits. */
  function Words(s: string): (r: seq<string>)
    ensures s != "" && IsAlnum(s[0]) ==> r != []
  {
    if s == "" then []
    else if !IsAlnum(s[0]) then Words(s[1..])
    else if |s| > 1 && IsAlnum(s[1]) then [[s[0]] + Words(s[1..])[0]] + Words(s[1..])[1..]
    else [[s[0]]] + Words(s[1..])
  }

  function Hyphenated(words: seq<string>): string {
    if words == [] then "" else JoinWith('-', words)
  }

  lemma {:induction false} DashRunsWords(s: string)
    ensures Words(DashRuns(s)) == Words(s)
    decreases |s|
  {
    if s != "" {
      DashRunsWords(s[1..]);
      DashRunsShape(s[1..]);
      var rest := DashRuns(s[1..]);
      assert ([s[0]] + rest)[1..] == rest && ("-" + rest)[1..] == rest;
    }
  }

  lemma {:induction false} StripLeftWords(s: string)
    ensures Words(StripLeft(s)) == Words(s)
  {
    if s != "" && s[0] == '-' {
      StripLeftWords(s[1..]);
    }
  }

  lemma {:induction false} DashBehind(s: string)
    ensures Words(s + "-") == Words(s)
  {
    if s == "" {
      assert s + "-" == "-" && "-"[1..] == "";
    } else {
      DashBehind(s[1..]);
      assert (s + "-")[1..] == s[1..] + "-" && (s + "-")[0] == s[0];
    }
  }

  lemma {:induction false} StripRightWords(s: string)
    ensures Words(StripRight(s)) == Words(s)
  {
    if s != "" && s[|s| - 1] == '-' {
      StripRightWords(s[..|s| - 1]);
      assert s == s[..|s| - 1] + "-";
      DashBehind(s[..|s| - 1]);
    }
  }

  lemma {:induction false} HyphenatedWords(s: string)
    requires SingleDashes(s) && (s != "" ==> s[0] != '-' && s[|s| - 1] != '-')
    ensures Hyphenated(Words(s)) == s
    decreases |s|
  {
    if |s| == 1 {
      assert s[1..] == "" && s == [s[0]];
    } else if |s| > 1 && IsAlnum(s[1]) {
      HyphenatedWords(s[1..]);
      JoinGrows('-', s[0], Words(s[1..]));
      assert s == [s[0]] + s[1..];
    } else if |s| > 1 {
      assert |s| > 2 && s[1..][1..] == s[2..];
      HyphenatedWords(s[2..]);
      JoinCons('-', [s[0]], Words(s[2..]));
      assert s == [s[0]] + "-" + s[2..];
    }
  }

  lemma CutSlug(slug: string)
    requires IsSlug(slug) && |slug| > 64
    ensures StripRight(slug[..64]) == if slug[63] == '-' then slug[..63] else slug[..64]
  {
    assert slug[..64][..63] == slug[..63];
  }

  /**
   A slug consists of the words of the path in lower case with dashes between them, cut behind 64
   characters, or behind 63 where the last would be a dash.
   */
  lemma SlugExactly(path: string)
    ensures var full := Lower(Hyphenated(Words(path)));
            && (|full| <= 64 ==> Slug(path) == full)
            && (|full| > 64 ==> Slug(path) == if full[63] == '-' then full[..63] else full[..64])
  {
    hide DashRuns, StripLeft, StripRight, Lower, Words, Hyphenated;
    DashRunsShape(path);
    var left := StripLeft(DashRuns(path));
    StripLeftShape(DashRuns(path));
    StripRightShape(left);
    DashRunsWords(path);
    StripLeftWords(DashRuns(path));
    StripRightWords(left);
    HyphenatedWords(StripRight(left));
    LowerShape(StripRight(left));
    if |Lower(StripRight(left))| > 64 {
      CutSlug(Lower(StripRight(left)));
    }
  }

  // ----- Names -----

  function DashDots(series: string): string {
    seq(|series|, i requires 0 <= i < |series| => if series[i] == '.' then '-' else series[i])
  }

  /** `digest` stands for the first eight hexadecimal digits of the path's SHA-1. */
  function InputName(digest: string -> string, series: string, target: string, path: string): string {
    var prefix := "therock-src-" + DashDots(series) + "-" + target;
    if path == "" then prefix + "-root" else prefix + "-" + Slug(path) + "-" + digest(path)
  }

  ghost predicate HexDigests(digest: string -> string) {
    forall p :: |digest(p)| == 8 && forall c :: c in digest(p) ==> IsDigit(c) || 'a' <= c <= 'f'
  }

  lemma LastDiffers(a: string, b: string)
    requires |a| > 0 && |b| > 0 && a[|a| - 1] != b[|b| - 1]
    ensures a != b
  {
  }

  lemma SplitEqual(a: string, b: string, c: string, d: string)
    requires (|a| == |c| || |b| == |d|) && a + b == c + d
    ensures a == c && b == d
  {
    assert |a + b| == |c + d|;
    assert a == (a + b)[..|a|] && c == (c + d)[..|c|];
    assert b == (a + b)[|a|..] && d == (c + d)[|c|..];
  }

  /** Two names of one target coincide exactly when the paths are both the root's or share slug and digest. */
  lemma {:induction false} InputNamesCoincide(digest: string -> string, series: string, target: string, p: string,
                                              q: string)
    requires HexDigests(digest)
    ensures InputName(digest, series, target, p) == InputName(digest, series, target, q) <==>
            (p == "" && q == "") || (p != "" && q != "" && Slug(p) == Slug(q) && digest(p) == digest(q))
  {
    var prefix := "therock-src-" + DashDots(series) + "-" + target;
    var np, nq := InputName(digest, series, target, p), InputName(digest, series, target, q);
    if p != "" && q != "" {
      if np == nq {
        SplitEqual(prefix + "-" + Slug(p) + "-", digest(p), prefix + "-" + Slug(q) + "-", digest(q));
        var hp, hq := prefix + "-" + Slug(p), prefix + "-" + Slug(q);
        SplitEqual(hp, "-", hq, "-");
        SplitEqual(prefix + "-", Slug(p), prefix + "-", Slug(q));
      }
    } else if p != "" {
      assert np[|np| - 1] == digest(p)[7] && digest(p)[7] in digest(p);
      LastDiffers(np, nq);
    } else if q != "" {
      assert nq[|nq| - 1] == digest(q)[7] && digest(q)[7] in digest(q);
      LastDiffers(np, nq);
    }
  }

  lemma {:induction false} DashedSeries(series: string)
    requires '-' !in series
    ensures SplitOn('-', DashDots(series)) == SplitOn('.', series)
  {
    if series != "" {
      DashedSeries(series[1..]);
      assert DashDots(series)[1..] == DashDots(series[1..]);
    }
  }

  lemma OpeningParts()
    ensures SplitOn('-', "therock-src") == ["therock", "src"]
  {
    hide SplitOn;
    SplitNone('-', "therock");
    SplitNone('-', "src");
    SplitConcat('-', "therock", "src");
    assert "therock" + "-" + "src" == "therock-src";
  }

  lemma PrefixParts(series: string, target: string)
    requires '-' !in series && '-' !in target
    ensures SplitOn('-', "therock-src-" + DashDots(series) + "-" + target)
         == ["therock", "src"] + SplitOn('.', series) + [target]
  {
    hide *;
    OpeningParts();
    DashedSeries(series);
    SplitNone('-', target);
    SplitConcat('-', "therock-src", DashDots(series));
    SplitConcat('-', "therock-src" + "-" + DashDots(series), target);
    assert "therock-src" + "-" == "therock-src-";
  }

  lemma NameOf(digest: string -> string, series: string, target: string, path: string)
    ensures var prefix := "therock-src-" + DashDots(series) + "-" + target;
            InputName(digest, series, target, path)
            == if path == "" then prefix + "-" + "root" else prefix + "-" + Slug(path) + "-" + digest(path)
  {
    hide Slug, DashDots;
    assert "-" + "root" == "-root";
  }

  lemma DigestUndashed(digest: string -> string, path: string)
    requires HexDigests(digest)
    ensures '-' !in digest(path)
  {
  }

  lemma RootPart()
    ensures SplitOn('-', "root") == ["root"]
  {
    SplitNone('-', "root");
  }

  /**
   Split at its dashes, a name lists the two words of the prefix, the components of the series, the
   target, and either `root` or the words of the slug and the digest.
   */
  lemma InputNameParts(digest: string -> string, series: string, target: string, path: string)
    requires HexDigests(digest) && '-' !in series && '-' !in target
    ensures SplitOn('-', InputName(digest, series, target, path))
         == ["therock", "src"] + SplitOn('.', series) + [target]
            + if path == "" then ["root"] else SplitOn('-', Slug(path)) + [digest(path)]
  {
    hide *;
    PrefixParts(series, target);
    NameOf(digest, series, target, path);
    var prefix := "therock-src-" + DashDots(series) + "-" + target;
    if path == "" {
      RootPart();
      SplitConcat('-', prefix, "root");
    } else {
      DigestUndashed(digest, path);
      SplitNone('-', digest(path));
      SplitConcat('-', prefix, Slug(path));
      SplitConcat('-', prefix + "-" + Slug(path), digest(path));
      Associative(SplitOn('-', prefix), SplitOn('-', Slug(path)), [digest(path)]);
    }
  }

  /** A dot stands in a name only where the target has one. */
  lemma InputNameDots(digest: string -> string, series: string, target: string, path: string)
    requires HexDigests(digest)
    ensures '.' in InputName(digest, series, target, path) <==> '.' in target
  {
    hide Slug;
    SlugShape(path);
    assert '.' !in DashDots(series);
    assert '.' !in Slug(path);
    assert '.' !in digest(path);
  }
}
