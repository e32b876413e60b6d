/** Text and its lines, as Python's `str.splitlines` and writing lines back with newlines see them. */
module TextLines {

  /** The characters at which `str.splitlines` ends a line; `\r\n` counts once. */
  predicate IsLineEnd(c: char) {
    '\n' <= c <= '\r' || '\U{1c}' <= c <= '\U{1e}' || c == '\U{85}' || c == '\U{2028}' || c == '\U{2029}'
  }

  predicate OneLine(s: string) {
    forall i :: 0 <= i < |s| ==> !IsLineEnd(s[i])
  }

  function LineLength(s: string): (n: nat)
    ensures n <= |s|
    ensures forall i :: 0 <= i < n ==> !IsLineEnd(s[i])
    ensures n < |s| ==> IsLineEnd(s[n])
  {
    if s == "" || IsLineEnd(s[0]) then 0 else 1 + LineLength(s[1..])
  }

  /** The length of the first line with what ends it. */
  function FirstLength(s: string): (n: nat)
    requires s != ""
    ensures LineLength(s) <= n <= |s| && n > 0
    ensures LineLength(s) < |s| ==> n > LineLength(s)
  {
    var n := LineLength(s);
    if n == |s| then n else if s[n] == '\r' && n + 1 < |s| && s[n + 1] == '\n' then n + 2 else n + 1
  }

  /** `str.splitlines`; the translation of `\r` and `\r\n` on reading a file makes no difference to it. */
  function SplitLines(s: string): seq<string>
    decreases |s|
  {
    if s == "" then [] else [s[..LineLength(s)]] + SplitLines(s[FirstLength(s)..])
  }

  /** Every line with a newline behind it. */
  function Unlines(lines: seq<string>): string {
    if lines == [] then "" else lines[0] + "\n" + Unlines(lines[1..])
  }

  lemma {:induction false} SplitLinesAre(s: string)
    ensures forall l :: l in SplitLines(s) ==> OneLine(l)
    decreases |s|
  {
    if s != "" {
      SplitLinesAre(s[FirstLength(s)..]);
    }
  }

  lemma FirstOfUnlines(line: string, rest: string)
    requires OneLine(line)
    ensures var s := line + "\n" + rest;
            LineLength(s) == |line| && FirstLength(s) == |line| + 1
            && s[..|line|] == line && s[|line| + 1..] == rest
  {
    var s := line + "\n" + rest;
    assert forall i :: 0 <= i < |line| ==> s[i] == line[i];
    assert s[|line|] == '\n';
  }

  lemma CutAtEnd(line: string, end: string, rest: string)
    requires OneLine(line) && end != "" && IsLineEnd(end[0])
    ensures var s := line + end + rest;
            && LineLength(s) == |line| && s[..|line|] == line && s[|line| + |end|..] == rest && s[|line|] == end[0]
            && (|end| > 1 ==> s[|line| + 1] == end[1])
            && (|end| == 1 && rest != "" ==> s[|line| + 1] == rest[0])
  {
    var s := line + end + rest;
    assert forall i :: 0 <= i < |line| ==> s[i] == line[i];
    assert s[|line|] == end[0];
  }

  lemma LineEndsAre(c: char)
    ensures IsLineEnd(c) <==> c in "\n\r\U{b}\U{c}\U{1c}\U{1d}\U{1e}\U{85}\U{2028}\U{2029}"
  {
  }

  lemma NothingSplit()
    ensures SplitLines("") == []
  {
  }

  lemma SplitStep(s: string)
    requires s != ""
    ensures SplitLines(s) == [s[..LineLength(s)]] + SplitLines(s[FirstLength(s)..])
  {
  }

  /**
   What a text's lines are: each of ten single characters ends a line, so does a return with a newline
   behind it, and a last line need not be ended.
   */
  lemma SplitLinesExactly(line: string, c: char, rest: string)
    requires OneLine(line)
    ensures SplitLines("") == [] && (line != "" ==> SplitLines(line) == [line])
    ensures c in "\n\r\U{b}\U{c}\U{1c}\U{1d}\U{1e}\U{85}\U{2028}\U{2029}"
            && !(c == '\r' && rest != "" && rest[0] == '\n') ==>
              SplitLines(line + [c] + rest) == [line] + SplitLines(rest)
    ensures SplitLines(line + "\r\n" + rest) == [line] + SplitLines(rest)
  {
    hide SplitLines, LineLength, IsLineEnd;
    LineEndsAre(c);
    LineEndsAre('\r');
    NothingSplit();
    if line != "" {
      assert LineLength(line) == |line|;
      SplitStep(line);
      assert line[..|line|] == line && line[|line|..] == "";
    }
    CutAtEnd(line, "\r\n", rest);
    SplitStep(line + "\r\n" + rest);
    if IsLineEnd(c) {
      CutAtEnd(line, [c], rest);
      SplitStep(line + [c] + rest);
    }
  }

  /** Reading back lines that were written gives the same lines. */
  lemma {:induction false} SplitUnlines(lines: seq<string>)
    requires forall l :: l in lines ==> OneLine(l)
    ensures SplitLines(Unlines(lines)) == lines
    decreases |lines|
  {
    if lines != [] {
      hide OneLine, LineLength, FirstLength;
      FirstOfUnlines(lines[0], Unlines(lines[1..]));
      SplitUnlines(lines[1..]);
      assert lines == [lines[0]] + lines[1..];
    }
  }

  lemma {:induction false} UnlinesConcat(a: seq<string>, b: seq<string>)
    ensures Unlines(a + b) == Unlines(a) + Unlines(b)
  {
    if a == [] {
      assert a + b == b;
    } else {
      assert (a + b)[1..] == a[1..] + b;
      UnlinesConcat(a[1..], b);
    }
  }

  // ----- Rewriting a text line by line -----

  /** Every line ends in a newline, the last one included. */
  predicate Plain(s: string) {
    && (forall i :: 0 <= i < |s| && IsLineEnd(s[i]) ==> s[i] == '\n')
    && (s != "" ==> s[|s| - 1] == '\n')
  }

  function Rewritten(s: string): string {
    Unlines(SplitLines(s))
  }

  lemma RewrittenStep(s: string)
    requires s != ""
    ensures var n := LineLength(s);
            && Rewritten(s) == s[..n] + "\n" + Rewritten(s[FirstLength(s)..])
            && |Rewritten(s)| > n && Rewritten(s)[n] == '\n'
  {
    var rest := SplitLines(s[FirstLength(s)..]);
    assert ([s[..LineLength(s)]] + rest)[1..] == rest;
  }

  lemma PlainEnds(s: string)
    requires Plain(s) && s != ""
    ensures LineLength(s) < |s| && s[LineLength(s)] == '\n'
  {
    hide LineLength;
    assert IsLineEnd('\n');
  }

  lemma PlainTail(s: string, n: nat)
    requires Plain(s) && n < |s|
    ensures Plain(s[n + 1..])
  {
    hide IsLineEnd;
    var rest := s[n + 1..];
    assert forall i :: 0 <= i < |rest| ==> rest[i] == s[n + 1 + i];
  }

  lemma PlainCons(s: string, n: nat)
    requires n < |s| && s[n] == '\n' && Plain(s[n + 1..])
    requires forall i :: 0 <= i < n ==> !IsLineEnd(s[i])
    ensures Plain(s)
  {
    hide IsLineEnd;
    var rest := s[n + 1..];
    forall i | 0 <= i < |s| && IsLineEnd(s[i])
      ensures s[i] == '\n'
    {
      assert i > n ==> s[i] == rest[i - n - 1];
    }
    assert rest != "" ==> s[|s| - 1] == rest[|rest| - 1];
  }

  lemma PlainStep(s: string)
    requires s != ""
    ensures var n := LineLength(s);
            Plain(s) <==> n < |s| && s[n] == '\n' && Plain(s[n + 1..])
  {
    hide LineLength, Plain;
    var n := LineLength(s);
    if Plain(s) {
      PlainEnds(s);
      PlainTail(s, n);
    } else if n < |s| && s[n] == '\n' && Plain(s[n + 1..]) {
      PlainCons(s, n);
    }
  }

  lemma CutBehind(a: string, x: string, y: string)
    requires a + x == a + y
    ensures x == y
  {
    assert x == (a + x)[|a|..] && y == (a + y)[|a|..];
  }

  lemma Apart(s: string, n: nat)
    requires n < |s| && s[n] == '\n'
    ensures s == s[..n] + "\n" + s[n + 1..]
  {
  }

  lemma Regroup(a: string, b: string, c: string)
    ensures (a + b) + c == a + (b + c)
  {
  }

  lemma FirstLineKept(s: string, x: string, y: string)
    requires s != "" && LineLength(s) < |s| && Rewritten(s) + x == s + y
    ensures var n := LineLength(s);
            && s[n] == '\n' && FirstLength(s) == n + 1
            && Rewritten(s[n + 1..]) + x == s[n + 1..] + y
  {
    hide Rewritten, LineLength;
    var n := LineLength(s);
    RewrittenStep(s);
    assert (Rewritten(s) + x)[n] == '\n' && (s + y)[n] == s[n];
    Apart(s, n);
    hide *;
    Regroup(s[..n] + "\n", Rewritten(s[n + 1..]), x);
    Regroup(s[..n] + "\n", s[n + 1..], y);
    CutBehind(s[..n] + "\n", Rewritten(s[n + 1..]) + x, s[n + 1..] + y);
  }

  /** No characters, or a line end last. */
  predicate Ended(s: string) {
    s != "" ==> IsLineEnd(s[|s| - 1])
  }

  lemma EndedTail(s: string, n: nat)
    requires Ended(s) && n <= |s|
    ensures Ended(s[n..])
  {
    hide IsLineEnd;
  }

  lemma EndedLength(s: string)
    requires Ended(s) && s != ""
    ensures LineLength(s) < |s|
  {
    hide LineLength, IsLineEnd;
  }

  /** An ended text begins like its rewriting only if it is plain. */
  lemma {:induction false} PlainIfKept(s: string, x: string, y: string)
    requires Ended(s) && Rewritten(s) + x == s + y
    ensures Plain(s)
    decreases |s|
  {
    if s != "" {
      hide *;
      var n := LineLength(s);
      EndedLength(s);
      FirstLineKept(s, x, y);
      EndedTail(s, n + 1);
      PlainIfKept(s[n + 1..], x, y);
      PlainStep(s);
    }
  }

  lemma NewlineLength(s: string)
    requires s != "" && LineLength(s) < |s| && s[LineLength(s)] == '\n'
    ensures FirstLength(s) == LineLength(s) + 1
  {
    hide LineLength;
  }

  lemma {:induction false} KeptIfPlain(s: string)
    requires Plain(s)
    ensures Rewritten(s) == s
    decreases |s|
  {
    if s != "" {
      hide *;
      PlainStep(s);
      NewlineLength(s);
      KeptIfPlain(s[LineLength(s) + 1..]);
      RewrittenStep(s);
      Apart(s, LineLength(s));
    }
  }

  lemma {:induction false} RewrittenEnded(s: string)
    ensures Ended(Rewritten(s))
    decreases |s|
  {
    if s != "" {
      hide SplitLines, LineLength, FirstLength;
      RewrittenEnded(s[FirstLength(s)..]);
      RewrittenStep(s);
      var rest := Rewritten(s[FirstLength(s)..]);
      hide Rewritten, Unlines;
      assert rest != "" ==> Rewritten(s)[|Rewritten(s)| - 1] == rest[|rest| - 1];
    }
  }

  /** Rewriting keeps a text exactly when it is plain. */
  lemma RewrittenIsSame(s: string)
    ensures Rewritten(s) == s <==> Plain(s)
  {
    hide *;
    RewrittenEnded(s);
    if Rewritten(s) == s {
      PlainIfKept(s, "", "");
    }
    if Plain(s) {
      KeptIfPlain(s);
    }
  }

  // ----- The text of the first lines -----

  /** Where the first `k` lines end. */
  function Offset(s: string, k: nat): (n: nat)
    requires k <= |SplitLines(s)|
    ensures n <= |s|
    decreases k
  {
    if k == 0 then 0 else FirstLength(s) + Offset(s[FirstLength(s)..], k - 1)
  }

  lemma SameLine(s: string, p: string)
    requires |p| <= |s| && forall i :: 0 <= i < |p| ==> p[i] == s[i]
    requires LineLength(s) < |p| || LineLength(s) == |p| == |s|
    ensures LineLength(p) == LineLength(s)
  {
    hide LineLength, IsLineEnd;
    assert LineLength(s) < |p| ==> p[LineLength(s)] == s[LineLength(s)];
  }

  lemma SameFirstLine(s: string, p: string)
    requires |p| <= |s| && forall i :: 0 <= i < |p| ==> p[i] == s[i]
    requires s != "" && FirstLength(s) <= |p|
    ensures LineLength(p) == LineLength(s) && FirstLength(p) == FirstLength(s)
  {
    hide LineLength, IsLineEnd;
    SameLine(s, p);
  }

  lemma FirstLineOfPrefix(s: string, k: nat)
    requires s != "" && FirstLength(s) <= k <= |s|
    ensures LineLength(s[..k]) == LineLength(s) && FirstLength(s[..k]) == FirstLength(s)
  {
    hide FirstLength;
    SameFirstLine(s, s[..k]);
  }

  lemma SlicesOfPrefix(s: string, n: nat, k: nat)
    requires n <= k <= |s|
    ensures s[..k][..n] == s[..n] && s[..k][n..] == s[n..][..k - n]
    ensures s[n..][k - n..] == s[k..]
  {
  }

  lemma OffsetStep(s: string, k: nat)
    requires 0 < k <= |SplitLines(s)|
    ensures s != "" && k - 1 <= |SplitLines(s[FirstLength(s)..])|
    ensures Offset(s, k) == FirstLength(s) + Offset(s[FirstLength(s)..], k - 1)
  {
  }

  lemma TakeCons<T>(x: T, s: seq<T>, k: nat)
    requires 0 < k <= |s| + 1
    ensures ([x] + s)[..k] == [x] + s[..k - 1] && ([x] + s)[k..] == s[k - 1..]
  {
  }

  lemma NoLines(s: string)
    ensures Offset(s, 0) == 0
    ensures SplitLines(s[..0]) == SplitLines(s)[..0] && SplitLines(s[0..]) == SplitLines(s)[0..]
  {
    assert s[..0] == "" && s[0..] == s;
  }

  lemma LinesBeforeStep(s: string, k: nat, end: nat)
    requires s != "" && 0 < k <= |SplitLines(s)| && FirstLength(s) <= end <= |s|
    requires SplitLines(s[FirstLength(s)..][..end - FirstLength(s)]) == SplitLines(s[FirstLength(s)..])[..k - 1]
    ensures SplitLines(s[..end]) == SplitLines(s)[..k]
  {
    hide *;
    SplitStep(s);
    FirstLineOfPrefix(s, end);
    SplitStep(s[..end]);
    SlicesOfPrefix(s, FirstLength(s), end);
    SlicesOfPrefix(s, LineLength(s), end);
    TakeCons(s[..LineLength(s)], SplitLines(s[FirstLength(s)..]), k);
  }

  lemma LinesAfterStep(s: string, k: nat, end: nat)
    requires s != "" && 0 < k <= |SplitLines(s)| && FirstLength(s) <= end <= |s|
    requires SplitLines(s[FirstLength(s)..][end - FirstLength(s)..]) == SplitLines(s[FirstLength(s)..])[k - 1..]
    ensures SplitLines(s[end..]) == SplitLines(s)[k..]
  {
    hide *;
    SplitStep(s);
    SlicesOfPrefix(s, FirstLength(s), end);
    TakeCons(s[..LineLength(s)], SplitLines(s[FirstLength(s)..]), k);
  }

  lemma {:induction false} LinesAround(s: string, k: nat)
    requires k <= |SplitLines(s)|
    ensures SplitLines(s[..Offset(s, k)]) == SplitLines(s)[..k]
    ensures SplitLines(s[Offset(s, k)..]) == SplitLines(s)[k..]
    decreases k
  {
    hide *;
    if k == 0 {
      NoLines(s);
    } else {
      OffsetStep(s, k);
      LinesAround(s[FirstLength(s)..], k - 1);
      LinesBeforeStep(s, k, Offset(s, k));
      LinesAfterStep(s, k, Offset(s, k));
    }
  }

  lemma FirstEnded(s: string)
    requires s != "" && SplitLines(s[FirstLength(s)..]) != []
    ensures Ended(s[..FirstLength(s)])
  {
    hide LineLength;
    assert s[FirstLength(s)..] != "";
  }

  lemma EndedParts(s: string, n: nat, k: nat)
    requires n + k <= |s| && Ended(s[..n]) && Ended(s[n..][..k])
    ensures Ended(s[..n + k])
  {
    hide IsLineEnd;
    var a, b, c := s[..n], s[n..][..k], s[..n + k];
    assert k > 0 ==> b[k - 1] == c[n + k - 1];
    assert k == 0 ==> a == c;
  }

  lemma EndedStep(s: string, k: nat)
    requires 0 < k < |SplitLines(s)|
    requires s != "" && k - 1 < |SplitLines(s[FirstLength(s)..])|
    requires Ended(s[FirstLength(s)..][..Offset(s[FirstLength(s)..], k - 1)])
    ensures Ended(s[..Offset(s, k)])
  {
    hide *;
    OffsetStep(s, k);
    FirstEnded(s);
    EndedParts(s, FirstLength(s), Offset(s[FirstLength(s)..], k - 1));
  }

  lemma NoneEnded(s: string)
    ensures Ended(s[..Offset(s, 0)])
  {
  }

  /** Lines that others follow are ended. */
  lemma {:induction false} EndedBefore(s: string, k: nat)
    requires k < |SplitLines(s)|
    ensures Ended(s[..Offset(s, k)])
    decreases k
  {
    hide *;
    if k == 0 {
      NoneEnded(s);
    } else {
      OffsetStep(s, k);
      SplitStep(s);
      EndedBefore(s[FirstLength(s)..], k - 1);
      EndedStep(s, k);
    }
  }
}
