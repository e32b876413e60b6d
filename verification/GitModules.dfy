/** Reading `.gitmodules` from what `git config --get-regexp` prints. */
module GitModules {
  import opened Wrappers
  import opened Strings
  import opened TextLines

  datatype Submodule = Submodule(name: string, path: string, url: string)

  /** A variable of the file, below `submodule.<section>`; one without a value is read like one with an empty value. */
  datatype Variable = Variable(section: string, key: string, value: string)

  type Config = seq<Variable>

  type Pair = (string, string)

  // ----- What git prints -----

  function FullKey(section: string, key: string): string {
    "submodule" + ['.'] + (section + ['.'] + key)
  }

  /** The pattern `submodule\..*\.field`: the field's name follows some dot behind the first. */
  predicate Matches(v: Variable, field: string) {
    var pieces := SplitOn('.', v.section + ['.'] + v.key);
    exists k :: 1 <= k < |pieces| && field <= pieces[k]
  }

  function Printed(v: Variable): string {
    FullKey(v.section, v.key) + " " + v.value
  }

  function Output(config: Config, field: string): seq<string> {
    if config == [] then []
    else
      var v := config[|config| - 1];
      Output(config[..|config| - 1], field) + if Matches(v, field) then [Printed(v)] else []
  }

  // ----- What the script reads -----

  function SkipSpace(s: string): string {
    if s != "" && IsSpace(s[0]) then SkipSpace(s[1..]) else s
  }

  function WordLength(s: string): (n: nat)
    ensures n <= |s|
    ensures forall i :: 0 <= i < n ==> !IsSpace(s[i])
    ensures n < |s| ==> IsSpace(s[n])
  {
    if s == "" || IsSpace(s[0]) then 0 else 1 + WordLength(s[1..])
  }

  /** `key, value = line.split(None, 1)`, which raises unless there are two parts. */
  function CutLine(line: string): Option<Pair> {
    var s := SkipSpace(line);
    var rest := SkipSpace(s[WordLength(s)..]);
    if rest == "" then None else Some((s[..WordLength(s)], rest))
  }

  /** Assigning to a dictionary: a known key keeps its position. */
  function Put<T>(key: T -> string, entries: seq<T>, x: T): seq<T> {
    if entries == [] then [x]
    else if key(entries[0]) == key(x) then [x] + entries[1..]
    else [entries[0]] + Put(key, entries[1..], x)
  }

  function KeyOf(p: Pair): string {
    p.0
  }

  function NameOf(m: Submodule): string {
    m.name
  }

  function Lookup(pairs: seq<Pair>, key: string): Option<string> {
    if pairs == [] then None
    else if pairs[|pairs| - 1].0 == key then Some(pairs[|pairs| - 1].1)
    else Lookup(pairs[..|pairs| - 1], key)
  }

  /** One line into the dictionary `values`; blank lines are skipped. */
  function AddLine(pairs: seq<Pair>, line: string): Option<seq<Pair>> {
    if SkipSpace(line) == "" then Some(pairs)
    else
      match CutLine(line)
      case None => None
      case Some(pair) => Some(Put(KeyOf, pairs, pair))
  }

  function ReadPairs(lines: seq<string>): Option<seq<Pair>> {
    if lines == [] then Some([])
    else
      match ReadPairs(lines[..|lines| - 1])
      case None => None
      case Some(pairs) => AddLine(pairs, lines[|lines| - 1])
  }

  /** `git_config_blob`; None when a line raises. */
  function ConfigBlob(config: Config, field: string): Option<seq<Pair>> {
    ReadPairs(SplitLines(Unlines(Output(config, field))))
  }

  /** One path into the dictionary `by_name`; `key.split(".")[1]` raises for a key without a dot. */
  function AddNamed(ms: seq<Submodule>, pair: Pair, urls: seq<Pair>): Option<seq<Submodule>> {
    var pieces := SplitOn('.', pair.0);
    if |pieces| < 2 then None
    else
      match Lookup(urls, FullKey(pieces[1], "url"))
      case None => Some(ms)
      case Some(url) => Some(Put(NameOf, ms, Submodule(pieces[1], pair.1, url)))
  }

  function ByName(paths: seq<Pair>, urls: seq<Pair>): Option<seq<Submodule>> {
    if paths == [] then Some([])
    else
      match ByName(paths[..|paths| - 1], urls)
      case None => None
      case Some(ms) => AddNamed(ms, paths[|paths| - 1], urls)
  }

  /** `submodules`. */
  function Submodules(config: Config): Option<seq<Submodule>> {
    match ConfigBlob(config, "path")
    case None => None
    case Some(paths) =>
      match ConfigBlob(config, "url")
      case None => None
      case Some(urls) => ByName(paths, urls)
  }

  // ----- The loops -----

  lemma {:induction false} UnreadStays(lines: seq<string>, n: nat)
    requires n <= |lines| && ReadPairs(lines[..n]).None?
    ensures ReadPairs(lines).None?
  {
    if n == |lines| {
      assert lines[..n] == lines;
    } else {
      assert lines[..|lines| - 1][..n] == lines[..n];
      UnreadStays(lines[..|lines| - 1], n);
    }
  }

  method ReadConfigBlob(config: Config, field: string) returns (values: Option<seq<Pair>>)
    ensures values == ConfigBlob(config, field)
  {
    hide Output, SplitLines, Unlines, CutLine, SkipSpace;
    var lines := SplitLines(Unlines(Output(config, field)));
    var pairs: seq<Pair> := [];
    for i := 0 to |lines|
      invariant ReadPairs(lines[..i]) == Some(pairs)
    {
      assert lines[..i + 1][..i] == lines[..i];
      if SkipSpace(lines[i]) == "" {
        continue;
      }
      var pair := CutLine(lines[i]);
      if pair.None? {
        UnreadStays(lines, i + 1);
        return None;
      }
      pairs := Put(KeyOf, pairs, pair.value);
    }
    assert lines[..|lines|] == lines;
    return Some(pairs);
  }

  lemma {:induction false} UnnamedStays(paths: seq<Pair>, urls: seq<Pair>, n: nat)
    requires n <= |paths| && ByName(paths[..n], urls).None?
    ensures ByName(paths, urls).None?
  {
    if n == |paths| {
      assert paths[..n] == paths;
    } else {
      assert paths[..|paths| - 1][..n] == paths[..n];
      UnnamedStays(paths[..|paths| - 1], urls, n);
    }
  }

  method ReadSubmodules(config: Config) returns (byName: Option<seq<Submodule>>)
    ensures byName == Submodules(config)
  {
    hide ConfigBlob, FullKey, SplitOn, Lookup;
    var paths := ReadConfigBlob(config, "path");
    if paths.None? {
      return None;
    }
    var urls := ReadConfigBlob(config, "url");
    if urls.None? {
      return None;
    }
    var ms: seq<Submodule> := [];
    for i := 0 to |paths.value|
      invariant ByName(paths.value[..i], urls.value) == Some(ms)
    {
      assert paths.value[..i + 1][..i] == paths.value[..i];
      var pieces := SplitOn('.', paths.value[i].0);
      if |pieces| < 2 {
        UnnamedStays(paths.value, urls.value, i + 1);
        return None;
      }
      var url := Lookup(urls.value, FullKey(pieces[1], "url"));
      if url.None? {
        continue;
      }
      ms := Put(NameOf, ms, Submodule(pieces[1], paths.value[i].1, url.value));
    }
    assert paths.value[..|paths.value|] == paths.value;
    return Some(ms);
  }

  // ----- Dictionaries -----

  ghost predicate DistinctBy<T>(key: T -> string, entries: seq<T>) {
    forall i, j :: 0 <= i < j < |entries| ==> key(entries[i]) != key(entries[j])
  }

  lemma {:induction false} PutNew<T>(key: T -> string, entries: seq<T>, x: T)
    requires forall e :: e in entries ==> key(e) != key(x)
    ensures Put(key, entries, x) == entries + [x]
  {
    if entries != [] {
      PutNew(key, entries[1..], x);
      assert entries == [entries[0]] + entries[1..];
    }
  }

  lemma {:induction false} PutMembers<T>(key: T -> string, entries: seq<T>, x: T)
    ensures forall e :: e in Put(key, entries, x) ==> e in entries || e == x
  {
    if entries != [] {
      PutMembers(key, entries[1..], x);
    }
  }

  lemma ConsDistinct<T>(key: T -> string, head: T, tail: seq<T>)
    requires DistinctBy(key, tail) && forall e :: e in tail ==> key(e) != key(head)
    ensures DistinctBy(key, [head] + tail)
  {
  }

  lemma TailDistinct<T>(key: T -> string, entries: seq<T>)
    requires DistinctBy(key, entries) && entries != []
    ensures DistinctBy(key, entries[1..]) && forall e :: e in entries[1..] ==> key(e) != key(entries[0])
  {
  }

  lemma {:induction false} PutDistinct<T>(key: T -> string, entries: seq<T>, x: T)
    requires DistinctBy(key, entries)
    ensures DistinctBy(key, Put(key, entries, x))
  {
    if entries != [] {
      hide DistinctBy;
      TailDistinct(key, entries);
      if key(entries[0]) == key(x) {
        ConsDistinct(key, x, entries[1..]);
      } else {
        PutDistinct(key, entries[1..], x);
        PutMembers(key, entries[1..], x);
        ConsDistinct(key, entries[0], Put(key, entries[1..], x));
      }
    } else {
      ConsDistinct(key, x, []);
    }
  }

  lemma {:induction false} LookupIsMember(pairs: seq<Pair>, key: string)
    ensures Lookup(pairs, key).Some? ==> (key, Lookup(pairs, key).value) in pairs
  {
    if pairs != [] {
      LookupIsMember(pairs[..|pairs| - 1], key);
    }
  }

  lemma {:induction false} LookupFinds(pairs: seq<Pair>, i: nat)
    requires DistinctBy(KeyOf, pairs) && i < |pairs|
    ensures Lookup(pairs, pairs[i].0) == Some(pairs[i].1)
  {
    if i < |pairs| - 1 {
      assert KeyOf(pairs[i]) != KeyOf(pairs[|pairs| - 1]);
      LookupFinds(pairs[..|pairs| - 1], i);
    }
  }

  // ----- What can be read -----

  predicate Spaceless(s: string) {
    forall i :: 0 <= i < |s| ==> !IsSpace(s[i])
  }

  predicate CleanName(name: string) {
    '.' !in name && Spaceless(name)
  }

  predicate CleanValue(value: string) {
    value != "" && !IsSpace(value[0]) && OneLine(value)
  }

  predicate Clean(m: Submodule) {
    CleanName(m.name) && CleanValue(m.path) && CleanValue(m.url)
  }

  /** A file with the given sections, a path and a url in each. */
  function Written(sections: seq<Submodule>): Config {
    if sections == [] then []
    else
      var s := sections[|sections| - 1];
      Written(sections[..|sections| - 1]) + [Variable(s.name, "path", s.path), Variable(s.name, "url", s.url)]
  }

  // Whatever is read is clean.

  lemma {:induction false} SkipSpaceIs(s: string)
    ensures SkipSpace(s) != "" ==> !IsSpace(SkipSpace(s)[0])
    ensures |SkipSpace(s)| <= |s| && SkipSpace(s) == s[|s| - |SkipSpace(s)|..]
  {
    if s != "" && IsSpace(s[0]) {
      SkipSpaceIs(s[1..]);
    }
  }

  lemma SuffixOneLine(s: string, n: nat)
    requires OneLine(s) && n <= |s|
    ensures OneLine(s[n..])
  {
    hide IsLineEnd;
  }

  predicate CleanPair(p: Pair) {
    Spaceless(p.0) && CleanValue(p.1)
  }

  lemma CutLineIsClean(line: string)
    requires OneLine(line) && CutLine(line).Some?
    ensures CleanPair(CutLine(line).value)
  {
    hide SkipSpace, WordLength, IsSpace, OneLine;
    var s := SkipSpace(line);
    var n := WordLength(s);
    SkipSpaceIs(line);
    SuffixOneLine(line, |line| - |s|);
    SuffixOneLine(s, n);
    SkipSpaceIs(s[n..]);
    SuffixOneLine(s[n..], |s[n..]| - |SkipSpace(s[n..])|);
  }

  lemma {:induction false} ReadPairsAreClean(lines: seq<string>)
    requires ReadPairs(lines).Some? && forall l :: l in lines ==> OneLine(l)
    ensures forall p :: p in ReadPairs(lines).value ==> CleanPair(p)
  {
    hide OneLine, CutLine, SkipSpace, CleanPair;
    if lines != [] {
      var init, line := lines[..|lines| - 1], lines[|lines| - 1];
      ReadPairsAreClean(init);
      if SkipSpace(line) != "" {
        CutLineIsClean(line);
        PutMembers(KeyOf, ReadPairs(init).value, CutLine(line).value);
      }
    }
  }

  lemma ConfigBlobIsClean(config: Config, field: string)
    requires ConfigBlob(config, field).Some?
    ensures forall p :: p in ConfigBlob(config, field).value ==> CleanPair(p)
  {
    hide Output, SplitLines, Unlines, ReadPairs, OneLine, CleanPair;
    SplitLinesAre(Unlines(Output(config, field)));
    ReadPairsAreClean(SplitLines(Unlines(Output(config, field))));
  }

  lemma KeyPieceIsClean(p: Pair)
    requires CleanPair(p) && |SplitOn('.', p.0)| >= 2
    ensures CleanName(SplitOn('.', p.0)[1])
  {
    hide IsSpace, SplitOn;
    var piece := SplitOn('.', p.0)[1];
    PieceCharacters('.', p.0);
    PiecesHaveNoSeparator('.', p.0);
    forall i | 0 <= i < |piece|
      ensures !IsSpace(piece[i])
    {
      assert piece[i] in piece;
      assert piece[i] in p.0;
    }
  }

  lemma {:induction false} ByNameIsClean(paths: seq<Pair>, urls: seq<Pair>)
    requires ByName(paths, urls).Some?
    requires (forall p :: p in paths ==> CleanPair(p)) && forall p :: p in urls ==> CleanPair(p)
    ensures forall m :: m in ByName(paths, urls).value ==> Clean(m)
    ensures DistinctBy(NameOf, ByName(paths, urls).value)
  {
    hide SplitOn, CleanName, CleanValue, FullKey, IsSpace, Lookup;
    if paths != [] {
      var init, pair := paths[..|paths| - 1], paths[|paths| - 1];
      ByNameIsClean(init, urls);
      var ms := ByName(init, urls).value;
      var name := SplitOn('.', pair.0)[1];
      var url := Lookup(urls, FullKey(name, "url"));
      LookupIsMember(urls, FullKey(name, "url"));
      if url.Some? {
        KeyPieceIsClean(pair);
        PutMembers(NameOf, ms, Submodule(name, pair.1, url.value));
        PutDistinct(NameOf, ms, Submodule(name, pair.1, url.value));
      }
    }
  }

  /** Whatever the file, all that is read has a clean name, path and url, and no name comes twice. */
  lemma ReadIsClean(config: Config)
    requires Submodules(config).Some?
    ensures forall m :: m in Submodules(config).value ==> Clean(m)
    ensures DistinctBy(NameOf, Submodules(config).value)
  {
    hide ConfigBlob, ByName, Clean, CleanPair, DistinctBy;
    ConfigBlobIsClean(config, "path");
    ConfigBlobIsClean(config, "url");
    ByNameIsClean(ConfigBlob(config, "path").value, ConfigBlob(config, "url").value);
  }

  // Clean sections are read as they are.

  function Field(m: Submodule, field: string): string {
    if field == "path" then m.path else m.url
  }

  function PairOf(m: Submodule, field: string): Pair {
    (FullKey(m.name, field), Field(m, field))
  }

  function Pairs(sections: seq<Submodule>, field: string): (r: seq<Pair>)
    ensures |r| == |sections|
  {
    seq(|sections|, i requires 0 <= i < |sections| => PairOf(sections[i], field))
  }

  function PairLine(p: Pair): string {
    p.0 + " " + p.1
  }

  function PairLines(pairs: seq<Pair>): (r: seq<string>)
    ensures |r| == |pairs|
  {
    seq(|pairs|, i requires 0 <= i < |pairs| => PairLine(pairs[i]))
  }

  /** Nothing behind a dot of the name looks like one of the two fields. */
  predicate Ordinary(name: string) {
    var pieces := SplitOn('.', name);
    forall k :: 1 <= k < |pieces| ==> !("path" <= pieces[k]) && !("url" <= pieces[k])
  }

  lemma UndottedIsOrdinary(name: string)
    requires '.' !in name
    ensures Ordinary(name)
  {
    SplitNone('.', name);
  }

  lemma MatchesOwn(name: string, key: string, value: string, field: string)
    requires Ordinary(name) && '.' !in key && (field == "path" || field == "url")
    ensures Matches(Variable(name, key, value), field) <==> field <= key
  {
    SplitConcat('.', name, key);
    SplitNone('.', key);
    var pieces := SplitOn('.', name) + [key];
    assert pieces[|pieces| - 1] == key;
    assert forall k :: 0 <= k < |pieces| - 1 ==> pieces[k] == SplitOn('.', name)[k];
  }

  lemma OutputTwo(config: Config, v: Variable, w: Variable, field: string)
    ensures Output(config + [v, w], field)
         == Output(config, field) + (if Matches(v, field) then [Printed(v)] else [])
            + if Matches(w, field) then [Printed(w)] else []
  {
    hide Matches, Printed;
    assert (config + [v, w])[..|config| + 1] == config + [v];
    assert (config + [v])[..|config|] == config;
  }

  lemma PairLinesLast(sections: seq<Submodule>, field: string)
    requires sections != []
    ensures PairLines(Pairs(sections, field))
         == PairLines(Pairs(sections[..|sections| - 1], field)) + [PairLine(PairOf(sections[|sections| - 1], field))]
  {
    hide PairLine, PairOf;
  }

  lemma FieldsDiffer()
    ensures !("path" <= "url") && !("url" <= "path") && "path" <= "path" && "url" <= "url"
    ensures '.' !in "path" && '.' !in "url"
  {
    assert "path"[0] != "url"[0];
  }

  /** Of a section with an ordinary name, each search finds its own variable. */
  lemma OutputOfSection(config: Config, s: Submodule, field: string)
    requires Ordinary(s.name) && (field == "path" || field == "url")
    ensures Output(config + [Variable(s.name, "path", s.path), Variable(s.name, "url", s.url)], field)
         == Output(config, field) + [PairLine(PairOf(s, field))]
  {
    FieldsDiffer();
    hide Output, Matches, Ordinary, FullKey;
    var v, w := Variable(s.name, "path", s.path), Variable(s.name, "url", s.url);
    OutputTwo(config, v, w, field);
    MatchesOwn(s.name, "path", s.path, field);
    MatchesOwn(s.name, "url", s.url, field);
  }

  lemma {:induction false} OutputOfWritten(sections: seq<Submodule>, field: string)
    requires forall s :: s in sections ==> Ordinary(s.name)
    requires field == "path" || field == "url"
    ensures Output(Written(sections), field) == PairLines(Pairs(sections, field))
  {
    if sections != [] {
      hide Output, PairLine, PairLines, Pairs, PairOf, Ordinary;
      var init, s := sections[..|sections| - 1], sections[|sections| - 1];
      assert s in sections;
      OutputOfWritten(init, field);
      OutputOfSection(Written(init), s, field);
      PairLinesLast(sections, field);
    }
  }

  lemma LineEndsAreSpace(c: char)
    ensures IsLineEnd(c) ==> IsSpace(c)
  {
  }

  lemma WordOneLine(key: string)
    requires Spaceless(key)
    ensures OneLine(key)
  {
    forall i | 0 <= i < |key|
      ensures !IsLineEnd(key[i])
    {
      LineEndsAreSpace(key[i]);
    }
  }

  lemma BlankOneLine()
    ensures OneLine(" ")
  {
  }

  lemma PairLineOneLine(p: Pair)
    requires CleanPair(p)
    ensures OneLine(PairLine(p))
  {
    WordOneLine(p.0);
    hide IsSpace, IsLineEnd;
    assert OneLine(" ") by {
      LineEndsAreSpace(' ');
      BlankOneLine();
    }
  }

  lemma WordLengthIs(s: string, n: nat)
    requires n < |s| && IsSpace(s[n]) && forall i :: 0 <= i < n ==> !IsSpace(s[i])
    ensures WordLength(s) == n
  {
    hide WordLength, IsSpace;
  }

  lemma NothingToSkip(s: string)
    requires s != "" && !IsSpace(s[0])
    ensures SkipSpace(s) == s
  {
  }

  lemma OneToSkip(s: string)
    requires s != "" && !IsSpace(s[0])
    ensures SkipSpace(" " + s) == s
  {
    assert (" " + s)[1..] == s;
  }

  lemma BlankIsSpace()
    ensures IsSpace(' ')
  {
  }

  lemma CutPairLine(p: Pair)
    requires CleanPair(p) && p.0 != ""
    ensures SkipSpace(PairLine(p)) != "" && CutLine(PairLine(p)) == Some(p)
  {
    hide SkipSpace, WordLength;
    var s := PairLine(p);
    assert s[0] == p.0[0] && s[|p.0|] == ' ';
    assert forall i :: 0 <= i < |p.0| ==> s[i] == p.0[i];
    hide IsSpace, OneLine;
    BlankIsSpace();
    NothingToSkip(s);
    WordLengthIs(s, |p.0|);
    OneToSkip(p.1);
    assert s[|p.0|..] == " " + p.1 && s[..|p.0|] == p.0;
  }

  lemma ReadPairsLast(lines: seq<string>, line: string)
    ensures ReadPairs(lines + [line])
         == match ReadPairs(lines)
            case None => None
            case Some(pairs) => AddLine(pairs, line)
  {
    hide AddLine;
    assert (lines + [line])[..|lines|] == lines;
  }

  lemma PairLinesGrow(pairs: seq<Pair>)
    requires pairs != []
    ensures PairLines(pairs) == PairLines(pairs[..|pairs| - 1]) + [PairLine(pairs[|pairs| - 1])]
  {
    hide PairLine;
  }

  lemma InitDistinct(pairs: seq<Pair>)
    requires DistinctBy(KeyOf, pairs) && pairs != []
    ensures DistinctBy(KeyOf, pairs[..|pairs| - 1])
    ensures forall e :: e in pairs[..|pairs| - 1] ==> KeyOf(e) != KeyOf(pairs[|pairs| - 1])
    ensures pairs[..|pairs| - 1] + [pairs[|pairs| - 1]] == pairs
  {
  }

  lemma AddPairLine(pairs: seq<Pair>, p: Pair)
    requires CleanPair(p) && p.0 != "" && forall e :: e in pairs ==> KeyOf(e) != KeyOf(p)
    ensures AddLine(pairs, PairLine(p)) == Some(pairs + [p])
  {
    hide CutLine, SkipSpace, PairLine, CleanPair, Put;
    CutPairLine(p);
    PutNew(KeyOf, pairs, p);
  }

  lemma {:induction false} ReadPairLines(pairs: seq<Pair>)
    requires DistinctBy(KeyOf, pairs) && forall p :: p in pairs ==> CleanPair(p) && p.0 != ""
    ensures ReadPairs(PairLines(pairs)) == Some(pairs)
  {
    if pairs != [] {
      hide AddLine, PairLine, CleanPair, PairLines, ReadPairs, DistinctBy;
      var init, p := pairs[..|pairs| - 1], pairs[|pairs| - 1];
      InitDistinct(pairs);
      ReadPairLines(init);
      PairLinesGrow(pairs);
      ReadPairsLast(PairLines(init), PairLine(p));
      AddPairLine(init, p);
    } else {
      assert PairLines(pairs) == [];
    }
  }

  lemma FullKeyIsClean(name: string, field: string)
    requires Spaceless(name) && (field == "path" || field == "url")
    ensures FullKey(name, field) != "" && Spaceless(FullKey(name, field))
  {
    assert forall i :: 0 <= i < 9 ==> !IsSpace("submodule"[i]);
    assert forall i :: 0 <= i < |field| ==> !IsSpace(field[i]);
    assert !IsSpace('.');
    hide IsSpace;
  }

  lemma FullKeyInjective(a: string, b: string, field: string)
    requires FullKey(a, field) == FullKey(b, field)
    ensures a == b
  {
    var x, y := FullKey(a, field), FullKey(b, field);
    assert |x| == |y|;
    assert a == x[10..10 + |a|] && b == y[10..10 + |b|];
  }

  lemma PairsAreClean(sections: seq<Submodule>, field: string)
    requires DistinctBy(NameOf, sections) && forall s :: s in sections ==> Clean(s)
    requires field == "path" || field == "url"
    ensures DistinctBy(KeyOf, Pairs(sections, field))
    ensures forall p :: p in Pairs(sections, field) ==> CleanPair(p) && p.0 != ""
  {
    hide FullKey, Spaceless, CleanValue, IsSpace;
    var pairs := Pairs(sections, field);
    forall i | 0 <= i < |pairs|
      ensures CleanPair(pairs[i]) && pairs[i].0 != ""
    {
      assert sections[i] in sections;
      FullKeyIsClean(sections[i].name, field);
    }
    forall i, j | 0 <= i < j < |pairs|
      ensures KeyOf(pairs[i]) != KeyOf(pairs[j])
    {
      assert NameOf(sections[i]) != NameOf(sections[j]);
      if KeyOf(pairs[i]) == KeyOf(pairs[j]) {
        FullKeyInjective(sections[i].name, sections[j].name, field);
      }
    }
  }

  lemma BlobIs(config: Config, field: string, pairs: seq<Pair>)
    requires Output(config, field) == PairLines(pairs)
    requires DistinctBy(KeyOf, pairs) && forall p :: p in pairs ==> CleanPair(p) && p.0 != ""
    ensures ConfigBlob(config, field) == Some(pairs)
  {
    hide Output, SplitLines, Unlines, ReadPairs, DistinctBy, CleanPair, OneLine, PairLine;
    forall l | l in PairLines(pairs)
      ensures OneLine(l)
    {
      var i :| 0 <= i < |pairs| && PairLines(pairs)[i] == l;
      PairLineOneLine(pairs[i]);
    }
    SplitUnlines(PairLines(pairs));
    ReadPairLines(pairs);
  }

  lemma CleanBlob(sections: seq<Submodule>, field: string)
    requires DistinctBy(NameOf, sections) && forall s :: s in sections ==> Clean(s)
    requires field == "path" || field == "url"
    ensures ConfigBlob(Written(sections), field) == Some(Pairs(sections, field))
  {
    hide Output, DistinctBy, CleanPair, CleanValue, Pairs, PairLines, Ordinary, Written, ConfigBlob;
    forall s | s in sections
      ensures Ordinary(s.name)
    {
      UndottedIsOrdinary(s.name);
    }
    OutputOfWritten(sections, field);
    PairsAreClean(sections, field);
    BlobIs(Written(sections), field, Pairs(sections, field));
  }

  lemma FieldUndotted(field: string)
    requires field == "path" || field == "url"
    ensures '.' !in field && '.' !in "submodule"
  {
  }

  lemma FullKeyPieces(name: string, field: string)
    requires field == "path" || field == "url"
    ensures SplitOn('.', FullKey(name, field)) == ["submodule"] + (SplitOn('.', name) + [field])
  {
    hide SplitOn;
    FieldUndotted(field);
    SplitConcat('.', "submodule", name + ['.'] + field);
    SplitConcat('.', name, field);
    SplitNone('.', "submodule");
    SplitNone('.', field);
  }

  lemma ByNameLast(paths: seq<Pair>, p: Pair, urls: seq<Pair>)
    ensures ByName(paths + [p], urls)
         == match ByName(paths, urls)
            case None => None
            case Some(ms) => AddNamed(ms, p, urls)
  {
    hide AddNamed;
    assert (paths + [p])[..|paths|] == paths;
  }

  lemma AddOwn(ms: seq<Submodule>, m: Submodule, urls: seq<Pair>, i: nat)
    requires '.' !in m.name && forall o :: o in ms ==> NameOf(o) != m.name
    requires DistinctBy(KeyOf, urls) && i < |urls| && urls[i] == PairOf(m, "url")
    ensures AddNamed(ms, PairOf(m, "path"), urls) == Some(ms + [m])
  {
    FullKeyPieces(m.name, "path");
    SplitNone('.', m.name);
    LookupFinds(urls, i);
    PutNew(NameOf, ms, m);
    hide SplitOn, FullKey, Lookup, Put;
  }

  lemma InitNames(sections: seq<Submodule>, n: nat)
    requires DistinctBy(NameOf, sections) && n < |sections|
    ensures forall o :: o in sections[..n] ==> NameOf(o) != sections[n].name
    ensures sections[..n + 1] == sections[..n] + [sections[n]]
    ensures Pairs(sections, "path")[..n + 1] == Pairs(sections, "path")[..n] + [PairOf(sections[n], "path")]
  {
    hide PairOf;
    forall i | 0 <= i < n
      ensures NameOf(sections[i]) != sections[n].name
    {
      assert NameOf(sections[i]) != NameOf(sections[n]);
    }
  }

  lemma ByNameStep(sections: seq<Submodule>, n: nat)
    requires DistinctBy(NameOf, sections) && n < |sections| && '.' !in sections[n].name
    requires DistinctBy(KeyOf, Pairs(sections, "url"))
    requires ByName(Pairs(sections, "path")[..n], Pairs(sections, "url")) == Some(sections[..n])
    ensures ByName(Pairs(sections, "path")[..n + 1], Pairs(sections, "url")) == Some(sections[..n + 1])
  {
    assert Pairs(sections, "url")[n] == PairOf(sections[n], "url");
    hide *;
    InitNames(sections, n);
    ByNameLast(Pairs(sections, "path")[..n], PairOf(sections[n], "path"), Pairs(sections, "url"));
    AddOwn(sections[..n], sections[n], Pairs(sections, "url"), n);
  }

  lemma {:induction false} ByNameOfPairs(sections: seq<Submodule>, n: nat)
    requires DistinctBy(NameOf, sections) && n <= |sections| && forall s :: s in sections ==> '.' !in s.name
    requires DistinctBy(KeyOf, Pairs(sections, "url"))
    ensures ByName(Pairs(sections, "path")[..n], Pairs(sections, "url")) == Some(sections[..n])
  {
    if n > 0 {
      hide *;
      ByNameOfPairs(sections, n - 1);
      ByNameStep(sections, n - 1);
    }
  }

  lemma CleanIsUndotted(sections: seq<Submodule>)
    requires forall s :: s in sections ==> Clean(s)
    ensures forall s :: s in sections ==> '.' !in s.name
  {
    hide CleanValue, IsSpace;
  }

  /**
   A file is read back as written exactly when its section names are distinct and free of dots and white
   space, and its paths and urls are single lines that are not empty and do not begin with white space.
   */
  lemma SectionsReadExactly(sections: seq<Submodule>)
    ensures Submodules(Written(sections)) == Some(sections) <==>
            DistinctBy(NameOf, sections) && forall s :: s in sections ==> Clean(s)
  {
    hide ConfigBlob, ByName, Clean, DistinctBy, Pairs, Written;
    if Submodules(Written(sections)) == Some(sections) {
      ReadIsClean(Written(sections));
    }
    if DistinctBy(NameOf, sections) && forall s :: s in sections ==> Clean(s) {
      CleanBlob(sections, "path");
      CleanBlob(sections, "url");
      PairsAreClean(sections, "url");
      CleanIsUndotted(sections);
      ByNameOfPairs(sections, |sections|);
      assert Pairs(sections, "path")[..|sections|] == Pairs(sections, "path") && sections[..|sections|] == sections;
    }
  }

  // ----- Names that are not read as written -----

  lemma TwoWritten(s: Submodule, t: Submodule, field: string)
    requires Ordinary(s.name) && Ordinary(t.name) && (field == "path" || field == "url")
    ensures Output(Written([s, t]), field) == PairLines([PairOf(s, field), PairOf(t, field)])
  {
    hide Output, PairLine, PairOf, Ordinary, Written;
    OutputOfWritten([s, t], field);
    assert Pairs([s, t], field) == [PairOf(s, field), PairOf(t, field)];
  }

  lemma ByNameTwo(p: Pair, q: Pair, urls: seq<Pair>)
    requires AddNamed([], p, urls).Some?
    ensures ByName([p, q], urls) == AddNamed(AddNamed([], p, urls).value, q, urls)
  {
    hide AddNamed;
    assert [p, q] == [p] + [q] && [p] == [] + [p];
    ByNameLast([], p, urls);
    ByNameLast([p], q, urls);
  }

  lemma PutOver<T>(key: T -> string, x: T, y: T)
    ensures Put(key, [], y) == [y]
    ensures key(x) == key(y) ==> Put(key, [x], y) == [y]
  {
  }

  /**
   With the second name cut back to the first, the two sections become one that has the path read last and
   the url of the first section.
   */
  lemma MixedSections(first: string, p: Pair, q: Pair, u: Pair, w: Pair)
    requires |SplitOn('.', p.0)| >= 2 && SplitOn('.', p.0)[1] == first
    requires |SplitOn('.', q.0)| >= 2 && SplitOn('.', q.0)[1] == first
    requires u.0 == FullKey(first, "url") && w.0 != u.0
    ensures ByName([p, q], [u, w]) == Some([Submodule(first, q.1, u.1)])
  {
    hide SplitOn, FullKey;
    assert [u, w][..1] == [u];
    assert Lookup([u, w], u.0) == Lookup([u], u.0) == Some(u.1);
    hide Lookup, ByName, Put;
    var m := Submodule(first, p.1, u.1);
    PutOver(NameOf, m, m);
    PutOver(NameOf, m, Submodule(first, q.1, u.1));
    ByNameTwo(p, q, [u, w]);
  }

  lemma CleanPairOf(m: Submodule, field: string)
    requires Spaceless(m.name) && CleanValue(Field(m, field)) && (field == "path" || field == "url")
    ensures CleanPair(PairOf(m, field)) && PairOf(m, field).0 != ""
  {
    hide Spaceless, CleanValue, FullKey;
    FullKeyIsClean(m.name, field);
  }

  lemma TwoDistinct(p: Pair, q: Pair)
    requires |p.0| != |q.0|
    ensures DistinctBy(KeyOf, [p, q])
  {
  }

  lemma SpacelessConcat(a: string, b: string)
    requires Spaceless(a) && Spaceless(b)
    ensures Spaceless(a + ['.'] + b)
  {
    assert !IsSpace('.');
    hide IsSpace;
  }

  lemma FirstOfDotted(a: string, b: string, field: string)
    requires '.' !in a && (field == "path" || field == "url")
    ensures |SplitOn('.', FullKey(a, field))| >= 2 && SplitOn('.', FullKey(a, field))[1] == a
    ensures |SplitOn('.', FullKey(a + ['.'] + b, field))| >= 2 && SplitOn('.', FullKey(a + ['.'] + b, field))[1] == a
  {
    hide SplitOn, FullKey;
    FullKeyPieces(a, field);
    FullKeyPieces(a + ['.'] + b, field);
    SplitNone('.', a);
    SplitConcat('.', a, b);
  }

  lemma DottedPairs(s: Submodule, t: Submodule, field: string)
    requires Ordinary(s.name) && Ordinary(t.name) && |s.name| != |t.name| && Spaceless(s.name) && Spaceless(t.name)
    requires (field == "path" || field == "url") && CleanValue(Field(s, field)) && CleanValue(Field(t, field))
    ensures ConfigBlob(Written([s, t]), field) == Some([PairOf(s, field), PairOf(t, field)])
  {
    assert |PairOf(s, field).0| != |PairOf(t, field).0|;
    hide *;
    TwoWritten(s, t, field);
    CleanPairOf(s, field);
    CleanPairOf(t, field);
    TwoDistinct(PairOf(s, field), PairOf(t, field));
    BlobIs(Written([s, t]), field, [PairOf(s, field), PairOf(t, field)]);
  }

  /** A section `a.b` is taken for `a`: the one read has the path of the second and the url of the first. */
  lemma DottedNameMixesSections(s: Submodule, b: string, path: string, url: string)
    requires Clean(s) && Clean(Submodule(b, path, url)) && Ordinary(s.name + ['.'] + b)
    ensures Submodules(Written([s, Submodule(s.name + ['.'] + b, path, url)])) == Some([Submodule(s.name, path, s.url)])
  {
    var t := Submodule(s.name + ['.'] + b, path, url);
    UndottedIsOrdinary(s.name);
    SpacelessConcat(s.name, b);
    FirstOfDotted(s.name, b, "path");
    assert PairOf(t, "url").0 != PairOf(s, "url").0 by {
      assert |PairOf(t, "url").0| != |PairOf(s, "url").0|;
    }
    hide SplitOn, FullKey, IsSpace, OneLine, Ordinary, ConfigBlob, Written;
    DottedPairs(s, t, "path");
    DottedPairs(s, t, "url");
    MixedSections(s.name, PairOf(s, "path"), PairOf(t, "path"), PairOf(s, "url"), PairOf(t, "url"));
  }

  /** The key that is left of a name with white space, and the value that begins with the rest of the name. */
  function CutPair(a: string, b: string, field: string, value: string): Pair {
    ("submodule" + ['.'] + a, b + ['.'] + field + " " + value)
  }

  lemma SpacedLine(a: string, b: string, field: string, value: string)
    ensures PairLine((FullKey(a + " " + b, field), value)) == PairLine(CutPair(a, b, field, value))
  {
  }

  lemma CutPairIsClean(a: string, b: string, field: string, value: string)
    requires Spaceless(a) && OneLine(b) && OneLine(value) && (b != "" ==> !IsSpace(b[0]))
    requires field == "path" || field == "url"
    ensures CleanPair(CutPair(a, b, field, value)) && CutPair(a, b, field, value).0 != ""
  {
    assert Spaceless("submodule") && OneLine(['.'] + field) && OneLine(" ") && !IsSpace('.');
    hide IsSpace, IsLineEnd;
    SpacelessConcat("submodule", a);
    var v := CutPair(a, b, field, value).1;
    assert v[0] == if b != "" then b[0] else '.';
    assert b + ['.'] + field == b + (['.'] + field);
  }

  lemma FirstOfCut(a: string, b: string, field: string, value: string)
    requires '.' !in a
    ensures SplitOn('.', CutPair(a, b, field, value).0) == ["submodule", a]
  {
    FieldUndotted("url");
    hide SplitOn;
    SplitConcat('.', "submodule", a);
    SplitNone('.', "submodule");
    SplitNone('.', a);
  }

  /** The rest of a name behind its first white space. */
  predicate IsRest(b: string) {
    '.' !in b && OneLine(b) && (b != "" ==> !IsSpace(b[0]))
  }

  lemma SpacedOrdinary(a: string, b: string)
    requires '.' !in a && '.' !in b
    ensures Ordinary(a + " " + b)
  {
    UndottedIsOrdinary(a + " " + b);
  }

  lemma SpacedBlob(a: string, b: string, path: string, url: string, field: string)
    requires CleanName(a) && IsRest(b) && OneLine(path) && OneLine(url) && (field == "path" || field == "url")
    ensures ConfigBlob(Written([Submodule(a + " " + b, path, url)]), field)
         == Some([CutPair(a, b, field, if field == "path" then path else url)])
  {
    var s := Submodule(a + " " + b, path, url);
    var value := Field(s, field);
    hide SplitOn, FullKey, IsSpace, IsLineEnd, Ordinary, ConfigBlob, PairLine, CutPair, Output, Written;
    SpacedOrdinary(a, b);
    OutputOfWritten([s], field);
    SpacedLine(a, b, field, value);
    CutPairIsClean(a, b, field, value);
    assert PairLines(Pairs([s], field)) == PairLines([CutPair(a, b, field, value)]);
    BlobIs(Written([s]), field, [CutPair(a, b, field, value)]);
  }

  lemma LookupMissing(p: Pair, key: string)
    requires p.0 != key
    ensures Lookup([p], key) == None
  {
    assert [p][..0] == [];
  }

  lemma NothingNamed(urls: seq<Pair>)
    ensures ByName([], urls) == Some([])
  {
  }

  /** A section `a b` on its own is dropped: its url is looked for under `a`. */
  lemma SpacedNameIsDropped(a: string, b: string, path: string, url: string)
    requires CleanName(a) && IsRest(b) && OneLine(path) && OneLine(url)
    ensures Submodules(Written([Submodule(a + " " + b, path, url)])) == Some([])
  {
    var p, u := CutPair(a, b, "path", path), CutPair(a, b, "url", url);
    assert |u.0| < |FullKey(a, "url")|;
    hide SplitOn, FullKey, IsSpace, OneLine, ConfigBlob, CutPair, Written;
    SpacedBlob(a, b, path, url, "path");
    SpacedBlob(a, b, path, url, "url");
    FirstOfCut(a, b, "path", path);
    LookupMissing(u, FullKey(a, "url"));
    hide ByName;
    ByNameLast([], p, [u]);
    assert [] + [p] == [p];
    NothingNamed([u]);
  }

  lemma MixedBlob(s: Submodule, b: string, path: string, url: string, field: string)
    requires Clean(s) && IsRest(b) && OneLine(path) && OneLine(url) && (field == "path" || field == "url")
    ensures ConfigBlob(Written([s, Submodule(s.name + " " + b, path, url)]), field)
         == Some([PairOf(s, field), CutPair(s.name, b, field, if field == "path" then path else url)])
  {
    var t := Submodule(s.name + " " + b, path, url);
    var q := CutPair(s.name, b, field, Field(t, field));
    assert |q.0| != |PairOf(s, field).0|;
    hide SplitOn, FullKey, IsSpace, IsLineEnd, Ordinary, ConfigBlob, PairLine, CutPair, Output, Written;
    UndottedIsOrdinary(s.name);
    SpacedOrdinary(s.name, b);
    TwoWritten(s, t, field);
    SpacedLine(s.name, b, field, Field(t, field));
    CleanPairOf(s, field);
    CutPairIsClean(s.name, b, field, Field(t, field));
    TwoDistinct(PairOf(s, field), q);
    assert PairLines([PairOf(s, field), PairOf(t, field)]) == PairLines([PairOf(s, field), q]);
    BlobIs(Written([s, t]), field, [PairOf(s, field), q]);
  }

  /** A section `a b` behind a section `a` gives that one the path `b.path` with its own path behind a blank. */
  lemma SpacedNameMixesSections(s: Submodule, b: string, path: string, url: string)
    requires Clean(s) && IsRest(b) && OneLine(path) && OneLine(url)
    ensures Submodules(Written([s, Submodule(s.name + " " + b, path, url)]))
         == Some([Submodule(s.name, b + ['.'] + "path" + " " + path, s.url)])
  {
    var p, u := PairOf(s, "path"), PairOf(s, "url");
    var q, w := CutPair(s.name, b, "path", path), CutPair(s.name, b, "url", url);
    assert |w.0| != |u.0|;
    hide SplitOn, FullKey, IsSpace, OneLine, ConfigBlob, Written;
    MixedBlob(s, b, path, url, "path");
    MixedBlob(s, b, path, url, "url");
    FirstOfDotted(s.name, "", "path");
    FirstOfCut(s.name, b, "path", path);
    MixedSections(s.name, p, q, u, w);
  }

  /** For instance `a.b` behind `a`. */
  lemma MisreadDotted()
    ensures Submodules(Written([Submodule("a", "p", "u"), Submodule("a" + ['.'] + "b", "q", "v")]))
         == Some([Submodule("a", "q", "u")])
  {
    assert Clean(Submodule("a", "p", "u")) && Clean(Submodule("b", "q", "v"));
    SplitConcat('.', "a", "b");
    SplitNone('.', "a");
    SplitNone('.', "b");
    assert Ordinary("a" + ['.'] + "b");
    hide *;
    DottedNameMixesSections(Submodule("a", "p", "u"), "b", "q", "v");
  }

  /** For instance `third party`, on its own and behind `third`. */
  lemma MisreadSpaced()
    ensures Submodules(Written([Submodule("third" + " " + "party", "libs", "u")])) == Some([])
    ensures Submodules(Written([Submodule("third", "p", "u"), Submodule("third" + " " + "party", "libs", "v")]))
         == Some([Submodule("third", "party" + ['.'] + "path" + " " + "libs", "u")])
  {
    assert Clean(Submodule("third", "p", "u")) && IsRest("party") && OneLine("libs") && OneLine("u") && OneLine("v");
    hide *;
    SpacedNameIsDropped("third", "party", "libs", "u");
    SpacedNameMixesSections(Submodule("third", "p", "u"), "party", "libs", "v");
  }
}
