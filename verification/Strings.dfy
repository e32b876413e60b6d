/** Character classes, and splitting on a separator as Python's `str.split(sep)` does. */
module Strings {

  predicate IsDigit(c: char) { '0' <= c <= '9' }

  predicate IsLower(c: char) { 'a' <= c <= 'z' }

  predicate IsUpper(c: char) { 'A' <= c <= 'Z' }

  predicate IsLetter(c: char) { IsLower(c) || IsUpper(c) }

  predicate IsAlnum(c: char) { IsLetter(c) || IsDigit(c) }

  /** The characters that Python counts as white space, and `str.strip` removes. */
  predicate IsSpace(c: char) {
    || '\t' <= c <= '\r' || '\U{1c}' <= c <= ' ' || c == '\U{85}' || c == '\U{a0}' || c == '\U{1680}'
    || '\U{2000}' <= c <= '\U{200a}' || c == '\U{2028}' || c == '\U{2029}' || c == '\U{202f}'
    || c == '\U{205f}' || c == '\U{3000}'
  }

  /** `str.lower` on ASCII. */
  function Lower(s: string): (r: string)
    ensures |r| == |s|
  {
    seq(|s|, i requires 0 <= i < |s| => if IsUpper(s[i]) then s[i] - 'A' + 'a' else s[i])
  }

  function SplitOn(sep: char, s: string): (r: seq<string>)
    ensures |r| >= 1
  {
    if s == [] then [[]]
    else
      var rest := SplitOn(sep, s[1..]);
      if s[0] == sep then [[]] + rest else [[s[0]] + rest[0]] + rest[1..]
  }

  function JoinWith(sep: char, parts: seq<string>): string
    requires |parts| >= 1
  {
    if |parts| == 1 then parts[0] else parts[0] + [sep] + JoinWith(sep, parts[1..])
  }

  function Count(c: char, s: string): nat {
    if s == [] then 0 else (if s[0] == c then 1 else 0) + Count(c, s[1..])
  }

  lemma JoinCons(sep: char, piece: string, rest: seq<string>)
    requires |rest| >= 1
    ensures JoinWith(sep, [piece] + rest) == piece + [sep] + JoinWith(sep, rest)
  {
    assert ([piece] + rest)[1..] == rest;
  }

  lemma JoinGrows(sep: char, c: char, parts: seq<string>)
    requires |parts| >= 1
    ensures JoinWith(sep, [[c] + parts[0]] + parts[1..]) == [c] + JoinWith(sep, parts)
  {
    var grown := [[c] + parts[0]] + parts[1..];
    assert grown[1..] == parts[1..];
  }

  lemma SplitStep(sep: char, s: string)
    requires s != []
    ensures var rest := SplitOn(sep, s[1..]);
            SplitOn(sep, s) == if s[0] == sep then [[]] + rest else [[s[0]] + rest[0]] + rest[1..]
  {
  }

  lemma HeadAndTail(s: string)
    requires s != []
    ensures [s[0]] + s[1..] == s && [] + [s[0]] + s[1..] == s
  {
  }

  lemma {:induction false} JoinSplit(sep: char, s: string)
    ensures JoinWith(sep, SplitOn(sep, s)) == s
  {
    if s != [] {
      hide *;
      JoinSplit(sep, s[1..]);
      SplitStep(sep, s);
      var rest := SplitOn(sep, s[1..]);
      if s[0] == sep {
        JoinCons(sep, [], rest);
      } else {
        JoinGrows(sep, s[0], rest);
      }
      HeadAndTail(s);
    }
  }

  /** Splitting loses nothing. */
  lemma SplitInjective(sep: char, a: string, b: string)
    requires SplitOn(sep, a) == SplitOn(sep, b)
    ensures a == b
  {
    JoinSplit(sep, a);
    JoinSplit(sep, b);
  }

  lemma GrowConcat(c: char, a: seq<string>, b: seq<string>)
    requires |a| >= 1
    ensures [[c] + (a + b)[0]] + (a + b)[1..] == ([[c] + a[0]] + a[1..]) + b
    ensures [[]] + (a + b) == ([[]] + a) + b
  {
  }

  lemma ConcatTail(sep: char, a: string, b: string)
    requires a != []
    ensures (a + [sep] + b)[1..] == a[1..] + [sep] + b && (a + [sep] + b)[0] == a[0]
  {
  }

  lemma {:induction false} SplitConcat(sep: char, a: string, b: string)
    ensures SplitOn(sep, a + [sep] + b) == SplitOn(sep, a) + SplitOn(sep, b)
  {
    if a == [] {
      assert (a + [sep] + b)[1..] == b;
    } else {
      hide *;
      SplitConcat(sep, a[1..], b);
      ConcatTail(sep, a, b);
      SplitStep(sep, a);
      SplitStep(sep, a + [sep] + b);
      GrowConcat(a[0], SplitOn(sep, a[1..]), SplitOn(sep, b));
    }
  }

  lemma {:induction false} SplitLength(sep: char, s: string)
    ensures |SplitOn(sep, s)| == Count(sep, s) + 1
  {
    if s != [] {
      SplitLength(sep, s[1..]);
    }
  }

  lemma {:induction false} JoinAppend(sep: char, a: seq<string>, b: seq<string>)
    requires |a| >= 1 && |b| >= 1
    ensures JoinWith(sep, a + b) == JoinWith(sep, a) + [sep] + JoinWith(sep, b)
  {
    if |a| > 1 {
      assert (a + b)[1..] == a[1..] + b;
      JoinAppend(sep, a[1..], b);
    } else {
      assert (a + b)[1..] == b;
    }
  }

  lemma JoinPrefix(sep: char, parts: seq<string>, all: seq<string>)
    requires |parts| >= 1 && parts <= all
    ensures all == parts || JoinWith(sep, all) == JoinWith(sep, parts) + [sep] + JoinWith(sep, all[|parts|..])
  {
    hide JoinWith;
    assert all == parts + all[|parts|..];
    if |all| > |parts| {
      JoinAppend(sep, parts, all[|parts|..]);
    }
  }

  lemma ConcatPrefix(a: string, sep: char, rest: string)
    ensures a <= a + [sep] + rest && (a + [sep] + rest)[|a|] == sep
  {
  }

  /** A prefix of the components is a prefix of the string, up to its end or a separator. */
  lemma SplitPrefix(sep: char, a: string, b: string)
    requires SplitOn(sep, a) <= SplitOn(sep, b)
    ensures a <= b && (|b| > |a| ==> b[|a|] == sep)
  {
    hide *;
    var parts, all := SplitOn(sep, a), SplitOn(sep, b);
    JoinSplit(sep, a);
    JoinSplit(sep, b);
    JoinPrefix(sep, parts, all);
    if all != parts {
      ConcatPrefix(a, sep, JoinWith(sep, all[|parts|..]));
    }
  }

  lemma {:induction false} SplitNone(sep: char, s: string)
    requires sep !in s
    ensures SplitOn(sep, s) == [s]
  {
    if s != [] {
      assert sep !in s[1..];
      SplitNone(sep, s[1..]);
      assert [s[0]] + s[1..] == s;
    }
  }

  /** Up to its first separator the string is the first piece. */
  lemma {:induction false} FirstPiece(sep: char, s: string, i: nat)
    requires i < |s| && sep !in s[..i + 1]
    ensures i < |SplitOn(sep, s)[0]| && SplitOn(sep, s)[0][i] == s[i]
  {
    assert s[0] == s[..i + 1][0];
    if i > 0 {
      assert forall c :: c in s[1..][..i] ==> c in s[..i + 1];
      FirstPiece(sep, s[1..], i - 1);
    }
  }

  /** A piece is made of the string's characters. */
  lemma {:induction false} PieceCharacters(sep: char, s: string)
    ensures forall p, c :: p in SplitOn(sep, s) && c in p ==> c in s
  {
    if s != [] {
      PieceCharacters(sep, s[1..]);
      assert forall c :: c in s[1..] ==> c in s;
    }
  }

  /** No piece contains the separator. */
  lemma {:induction false} PiecesHaveNoSeparator(sep: char, s: string)
    ensures forall p :: p in SplitOn(sep, s) ==> sep !in p
  {
    if s != [] {
      PiecesHaveNoSeparator(sep, s[1..]);
    }
  }
}
