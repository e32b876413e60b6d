/** String literals: written by `json.dumps`, read by Nix. */
module NixStrings {
  import opened Wrappers
  import opened Orders
  import opened TextLines

  // ----- Writing -----

  function HexDigit(n: nat): char
    requires n < 16
  {
    if n < 10 then '0' + n as char else 'a' + (n - 10) as char
  }

  /** A code unit as four hexadecimal digits. */
  function CodeUnit(n: nat): (r: string)
    requires n < 0x10000
    ensures |r| == 6 && r[0] == '\\' && r[1] == 'u' && forall c :: c in r ==> ' ' <= c <= '~'
  {
    ['\\', 'u', HexDigit(n / 0x1000), HexDigit(n / 0x100 % 0x10), HexDigit(n / 0x10 % 0x10), HexDigit(n % 0x10)]
  }

  /** A character inside a literal; one that is not printable ASCII as code units of UTF-16. */
  function Escaped(c: char): string {
    if c == '"' then "\\\""
    else if c == '\\' then "\\\\"
    else if c == '\n' then "\\n"
    else if c == '\r' then "\\r"
    else if c == '\t' then "\\t"
    else if c as int == 0x08 then "\\b"
    else if c as int == 0x0C then "\\f"
    else if ' ' <= c <= '~' then [c]
    else if c as int < 0x10000 then CodeUnit(c as int)
    else
      var n := c as int - 0x10000;
      CodeUnit(0xD800 + n / 0x400) + CodeUnit(0xDC00 + n % 0x400)
  }

  function Inner(s: string): string {
    if s == "" then "" else Escaped(s[0]) + Inner(s[1..])
  }

  /** `nix_string`. */
  function Quoted(s: string): string {
    "\"" + Inner(s) + "\""
  }

  lemma EscapedShape(c: char)
    ensures forall d :: d in Escaped(c) ==> ' ' <= d <= '~'
  {
  }

  lemma {:induction false} InnerShape(s: string)
    ensures forall d :: d in Inner(s) ==> ' ' <= d <= '~'
  {
    if s != "" {
      hide Escaped;
      EscapedShape(s[0]);
      InnerShape(s[1..]);
    }
  }

  /** A literal is a single line of printable ASCII that opens with a quote. */
  lemma QuotedShape(s: string)
    ensures |Quoted(s)| > 0 && Quoted(s)[0] == '"' && OneLine(Quoted(s))
    ensures forall d :: d in Quoted(s) ==> ' ' <= d <= '~'
  {
    hide Inner;
    InnerShape(s);
    var q := Quoted(s);
    forall i | 0 <= i < |q|
      ensures ' ' <= q[i] <= '~' && !IsLineEnd(q[i])
    {
      assert q[i] in Inner(s) || q[i] == '"';
    }
  }

  // ----- Reading -----

  /** What a backslash and a character stand for in Nix: only three letters have a meaning of their own. */
  function Meaning(c: char): char {
    if c == 'n' then '\n' else if c == 'r' then '\r' else if c == 't' then '\t' else c
  }

  function Prepend(c: char, rest: Option<string>): Option<string> {
    if rest.None? then None else Some([c] + rest.value)
  }

  /**
   The rest of a literal that ends where the text ends, `dollar` telling whether a dollar that is not
   paired with another stands before it; with such a dollar a brace opens an interpolation.
   */
  function Lexed(t: string, dollar: bool): Option<string> {
    if t == "" then None
    else if t[0] == '"' then if |t| == 1 then Some("") else None
    else if t[0] == '\\' then if |t| == 1 then None else Prepend(Meaning(t[1]), Lexed(t[2..], false))
    else if t[0] == '{' && dollar then None
    else Prepend(t[0], Lexed(t[1..], t[0] == '$' && !dollar))
  }

  /** The string for which a literal stands, if the text is a literal without interpolations. */
  function Unquoted(t: string): Option<string> {
    if t != "" && t[0] == '"' then Lexed(t[1..], false) else None
  }

  // ----- Which strings are read as written -----

  /** Printable ASCII, and the three characters whose escapes Nix knows. */
  predicate IsReadable(c: char) {
    ' ' <= c <= '~' || c == '\n' || c == '\r' || c == '\t'
  }

  function DollarsBefore(s: string, i: nat): nat
    requires i <= |s|
  {
    if i > 0 && s[i - 1] == '$' then 1 + DollarsBefore(s, i - 1) else 0
  }

  predicate OpensInterpolation(s: string, i: nat)
    requires i < |s|
  {
    s[i] == '{' && DollarsBefore(s, i) % 2 == 1
  }

  /** No character that Nix would read differently, and no brace behind an odd number of dollars. */
  ghost predicate Readable(s: string) {
    && (forall i :: 0 <= i < |s| ==> IsReadable(s[i]))
    && (forall i :: 0 <= i < |s| ==> !OpensInterpolation(s, i))
  }

  ghost predicate ReadableFrom(s: string, k: nat) {
    && (forall i :: k <= i < |s| ==> IsReadable(s[i]))
    && (forall i :: k <= i < |s| ==> !OpensInterpolation(s, i))
  }

  lemma LexedReadable(c: char, rest: string, dollar: bool)
    requires IsReadable(c)
    ensures Lexed(Escaped(c) + rest, dollar)
         == if c == '{' && dollar then None else Prepend(c, Lexed(rest, c == '$' && !dollar))
  {
    var t := Escaped(c) + rest;
    if |Escaped(c)| == 2 {
      assert t[2..] == rest;
    } else {
      assert t[1..] == rest;
    }
  }

  lemma LexedOther(c: char, rest: string, dollar: bool)
    requires !IsReadable(c)
    ensures var r := Lexed(Escaped(c) + rest, dollar);
            r.Some? ==> r.value != "" && r.value[0] != c
  {
    var t := Escaped(c) + rest;
    assert t[0] == '\\' && t[1] in "bfu";
  }

  lemma DollarsStep(s: string, k: nat)
    requires k < |s|
    ensures (s[k] == '$' && DollarsBefore(s, k) % 2 == 0) <==> DollarsBefore(s, k + 1) % 2 == 1
  {
  }

  lemma ReadableStep(s: string, k: nat)
    requires k < |s|
    ensures ReadableFrom(s, k) <==> IsReadable(s[k]) && !OpensInterpolation(s, k) && ReadableFrom(s, k + 1)
  {
  }

  lemma LexedEnd(s: string)
    ensures s[|s|..] == "" && Lexed(Inner(s[|s|..]) + "\"", DollarsBefore(s, |s|) % 2 == 1) == Some("")
    ensures ReadableFrom(s, |s|)
  {
  }

  lemma {:induction false} LexedInner(s: string, k: nat)
    requires k <= |s|
    ensures Lexed(Inner(s[k..]) + "\"", DollarsBefore(s, k) % 2 == 1) == Some(s[k..]) <==> ReadableFrom(s, k)
    decreases |s| - k
  {
    hide Lexed, Escaped, DollarsBefore, ReadableFrom, IsReadable;
    if k == |s| {
      LexedEnd(s);
    } else {
      var rest := Inner(s[k + 1..]) + "\"";
      assert s[k..] == [s[k]] + s[k + 1..];
      Associative(Escaped(s[k]), Inner(s[k + 1..]), "\"");
      assert Inner(s[k..]) + "\"" == Escaped(s[k]) + rest;
      ReadableStep(s, k);
      if IsReadable(s[k]) {
        DollarsStep(s, k);
        LexedReadable(s[k], rest, DollarsBefore(s, k) % 2 == 1);
        LexedInner(s, k + 1);
      } else {
        LexedOther(s[k], rest, DollarsBefore(s, k) % 2 == 1);
      }
    }
  }

  /** A string is read as it was written exactly when it is readable. */
  lemma QuotedReadsBack(s: string)
    ensures Unquoted(Quoted(s)) == Some(s) <==> Readable(s)
  {
    hide Lexed, Inner, OpensInterpolation;
    LexedInner(s, 0);
    assert s[0..] == s && Quoted(s)[1..] == Inner(s) + "\"";
  }

  /** A letter outside ASCII and a brace behind one dollar are read differently, a brace behind two is not. */
  lemma MisreadStrings()
    ensures Unquoted(Quoted("\U{e9}")) != Some("\U{e9}")
    ensures Unquoted(Quoted("${x}")) != Some("${x}") && Unquoted(Quoted("$${x}")) == Some("$${x}")
  {
    hide Unquoted, Quoted;
    QuotedReadsBack("\U{e9}");
    QuotedReadsBack("${x}");
    QuotedReadsBack("$${x}");
    assert !IsReadable("\U{e9}"[0]);
    assert DollarsBefore("${x}", 1) == 1 && OpensInterpolation("${x}", 1);
    assert DollarsBefore("$${x}", 2) == 2;
  }

  /** Two texts that meet neither behind a dollar nor before a dollar or a brace. */
  predicate MeetPlainly(a: string, b: string) {
    || a == "" || a[|a| - 1] != '$'
    || (b != "" && b[0] != '$' && b[0] != '{')
  }

  lemma {:induction false} DollarsOfFirst(a: string, b: string, i: nat)
    requires i <= |a|
    ensures DollarsBefore(a + b, i) == DollarsBefore(a, i)
  {
    if i > 0 {
      DollarsOfFirst(a, b, i - 1);
    }
  }

  lemma {:induction false} DollarsOfSecond(a: string, b: string, j: nat)
    requires j <= |b| && MeetPlainly(a, b)
    ensures j > 0 || a == "" || a[|a| - 1] != '$' ==> DollarsBefore(a + b, |a| + j) == DollarsBefore(b, j)
  {
    if j > 0 {
      DollarsOfSecond(a, b, j - 1);
      assert (a + b)[|a| + j - 1] == b[j - 1];
    }
  }

  lemma InterpolationsOfParts(a: string, b: string, i: nat)
    requires MeetPlainly(a, b) && i < |a| + |b|
    ensures OpensInterpolation(a + b, i)
        <==> if i < |a| then OpensInterpolation(a, i) else OpensInterpolation(b, i - |a|)
  {
    if i < |a| {
      DollarsOfFirst(a, b, i);
    } else {
      DollarsOfSecond(a, b, i - |a|);
    }
  }

  /** Texts that meet plainly are readable together exactly when each is. */
  lemma ReadableConcat(a: string, b: string)
    requires MeetPlainly(a, b)
    ensures Readable(a + b) <==> Readable(a) && Readable(b)
  {
    hide IsReadable, OpensInterpolation, MeetPlainly;
    var s := a + b;
    forall i | 0 <= i < |s|
      ensures s[i] == (if i < |a| then a[i] else b[i - |a|])
      ensures OpensInterpolation(s, i)
          <==> if i < |a| then OpensInterpolation(a, i) else OpensInterpolation(b, i - |a|)
    {
      InterpolationsOfParts(a, b, i);
    }
    forall i | 0 <= i < |b|
      ensures b[i] == s[|a| + i] && (OpensInterpolation(s, |a| + i) <==> OpensInterpolation(b, i))
    {
      InterpolationsOfParts(a, b, |a| + i);
    }
  }

  /** A text without a brace is readable when its characters are. */
  lemma ReadableCharacters(s: string)
    requires '{' !in s && forall c :: c in s ==> IsReadable(c)
    ensures Readable(s)
  {
  }
}
