/** The tree file, and what the build reads in it and in the generated block. */
module TreeFile {
  import opened Wrappers
  import opened InputNames
  import opened NixStrings
  import opened SourceGraph
  import opened TextLines
  import opened FlakeInputs

  // ----- The tree file -----

  function RootReference(name: string): string {
    "    root = inputs." + Quoted(name) + ";"
  }

  function SourceReference(name: string): string {
    "        source = inputs." + Quoted(name) + ";"
  }

  function SubmoduleItem(e: SourceEntry): seq<string> {
    [ "      {",
      "        path = " + Quoted(e.path) + ";",
      SourceReference(e.inputName),
      "      }" ]
  }

  function SubmoduleLines(entries: Entries): seq<string> {
    if entries == [] then [] else SubmoduleItem(entries[0]) + SubmoduleLines(entries[1..])
  }

  function OpeningLines(target: string, version: string): seq<string> {
    [ HEADER,
      "{ inputs }:",
      "{",
      "  " + Quoted(target) + " = {",
      "    version = " + Quoted(version) + ";" ]
  }

  function ClosingLines(): seq<string> {
    [ "    ];", "  };", "}" ]
  }

  function TreeLines(target: string, version: string, root: SourceEntry, submodules: Entries)
    : seq<string>
  {
    OpeningLines(target, version)
    + [ RootReference(root.inputName), "    submodules = [" ]
    + SubmoduleLines(submodules)
    + ClosingLines()
  }

  lemma SliceBehind<T>(first: seq<T>, rest: seq<T>, i: nat, j: nat)
    requires i <= j <= |rest|
    ensures (first + rest)[|first| + i..|first| + j] == rest[i..j]
    ensures (first + rest)[..|first|] == first
  {
  }

  lemma AllEntryLinesStep(url: (string, string) -> string, entries: Entries)
    requires entries != []
    ensures AllEntryLines(url, entries) == EntryLines(url, entries[0]) + AllEntryLines(url, entries[1..])
    ensures |EntryLines(url, entries[0])| == 5
  {
  }

  lemma NoEntryLines(url: (string, string) -> string)
    ensures AllEntryLines(url, []) == []
  {
  }

  lemma {:induction false} EntryLinesLength(url: (string, string) -> string, entries: Entries)
    ensures |AllEntryLines(url, entries)| == 5 * |entries|
  {
    hide *;
    if entries == [] {
      NoEntryLines(url);
    } else {
      AllEntryLinesStep(url, entries);
      EntryLinesLength(url, entries[1..]);
    }
  }

  /** Entry `i` of the block takes five lines behind those of each entry before it. */
  lemma {:induction false} EntryLinesAt(url: (string, string) -> string, entries: Entries, i: nat)
    requires i < |entries|
    ensures |AllEntryLines(url, entries)| == 5 * |entries|
    ensures AllEntryLines(url, entries)[5 * i..5 * i + 5] == EntryLines(url, entries[i])
    decreases i
  {
    hide *;
    EntryLinesLength(url, entries);
    AllEntryLinesStep(url, entries);
    var first, rest := EntryLines(url, entries[0]), AllEntryLines(url, entries[1..]);
    if i == 0 {
      SliceBehind(first, rest, 0, 0);
    } else {
      EntryLinesAt(url, entries[1..], i - 1);
      SliceBehind(first, rest, 5 * (i - 1), 5 * (i - 1) + 5);
    }
  }

  /** The block declares the root and every submodule, in order, each with the url of its own commit. */
  lemma BlockLayout(url: (string, string) -> string, root: SourceEntry, submodules: Entries, i: nat)
    requires i <= |submodules|
    ensures var e := if i == 0 then root else submodules[i - 1];
            var block := InputLines(url, root, submodules);
            && |block| == 3 + 5 * (1 + |submodules|)
            && block[..2] == [BEGIN_INPUTS, "    " + HEADER] && block[|block| - 1] == END_INPUTS
            && block[2 + 5 * i..7 + 5 * i]
               == [ "    " + Quoted(e.inputName) + " = {",
                    "      url = " + Quoted(url(e.url, e.rev)) + ";",
                    "      flake = false;",
                    "    };",
                    "" ]
  {
    hide AllEntryLines, Quoted;
    var all := [root] + submodules;
    var inner, block := AllEntryLines(url, all), InputLines(url, root, submodules);
    EntryLinesAt(url, all, i);
    assert block[2 + 5 * i..7 + 5 * i] == inner[5 * i..5 * i + 5];
  }

  lemma SubmoduleLinesStep(entries: Entries)
    requires entries != []
    ensures SubmoduleLines(entries) == SubmoduleItem(entries[0]) + SubmoduleLines(entries[1..])
    ensures |SubmoduleItem(entries[0])| == 4
  {
  }

  lemma NoSubmoduleLines()
    ensures SubmoduleLines([]) == []
  {
  }

  lemma {:induction false} SubmoduleLinesLength(entries: Entries)
    ensures |SubmoduleLines(entries)| == 4 * |entries|
  {
    hide *;
    if entries == [] {
      NoSubmoduleLines();
    } else {
      SubmoduleLinesStep(entries);
      SubmoduleLinesLength(entries[1..]);
    }
  }

  lemma {:induction false} SubmoduleLinesAt(entries: Entries, i: nat)
    requires i < |entries|
    ensures |SubmoduleLines(entries)| == 4 * |entries|
    ensures SubmoduleLines(entries)[4 * i..4 * i + 4] == SubmoduleItem(entries[i])
    decreases i
  {
    hide *;
    SubmoduleLinesLength(entries);
    SubmoduleLinesStep(entries);
    var first, rest := SubmoduleItem(entries[0]), SubmoduleLines(entries[1..]);
    if i == 0 {
      SliceBehind(first, rest, 0, 0);
    } else {
      SubmoduleLinesAt(entries[1..], i - 1);
      SliceBehind(first, rest, 4 * (i - 1), 4 * (i - 1) + 4);
    }
  }

  /** The tree file names the root's input, and for every submodule, in order, its own path and its own input. */
  lemma TreeLayout(target: string, version: string, root: SourceEntry, submodules: Entries)
    ensures var lines := TreeLines(target, version, root, submodules);
            && |lines| == 10 + 4 * |submodules|
            && lines[..7]
               == [ HEADER, "{ inputs }:", "{", "  " + Quoted(target) + " = {",
                    "    version = " + Quoted(version) + ";",
                    "    root = inputs." + Quoted(root.inputName) + ";",
                    "    submodules = [" ]
            && lines[|lines| - 3..] == [ "    ];", "  };", "}" ]
            && forall i :: 0 <= i < |submodules| ==>
                 lines[7 + 4 * i..11 + 4 * i]
                 == [ "      {",
                      "        path = " + Quoted(submodules[i].path) + ";",
                      "        source = inputs." + Quoted(submodules[i].inputName) + ";",
                      "      }" ]
  {
    hide Quoted;
    var lines, inner := TreeLines(target, version, root, submodules), SubmoduleLines(submodules);
    if submodules != [] {
      SubmoduleLinesAt(submodules, 0);
    }
    forall i | 0 <= i < |submodules|
      ensures lines[7 + 4 * i..11 + 4 * i] == SubmoduleItem(submodules[i])
    {
      SubmoduleLinesAt(submodules, i);
      assert lines[7 + 4 * i..11 + 4 * i] == inner[4 * i..4 * i + 4];
    }
  }

  lemma DeclarationsPresent(url: (string, string) -> string, entries: Entries, e: SourceEntry)
    requires e in entries
    ensures Declaration(e.inputName) in AllEntryLines(url, entries)
  {
    var i :| 0 <= i < |entries| && entries[i] == e;
    EntryLinesAt(url, entries, i);
    assert AllEntryLines(url, entries)[5 * i] == AllEntryLines(url, entries)[5 * i..5 * i + 5][0];
  }

  /** The two kinds of references stand out by single characters. */
  predicate LikeRoot(l: string) {
    |l| > 8 && l[2] == ' ' && l[4] == 'r'
  }

  predicate LikeSource(l: string) {
    |l| > 8 && l[2] == ' ' && l[4] == ' ' && l[8] == 's'
  }

  lemma ReferenceShapes(name: string)
    ensures LikeRoot(RootReference(name)) && LikeSource(SourceReference(name))
  {
  }

  lemma OpeningShapes(target: string, version: string, l: string)
    requires l in OpeningLines(target, version)
    ensures !LikeRoot(l) && !LikeSource(l)
  {
    assert HEADER[2] == 'G' && "{ inputs }:"[2] == 'i';
    assert ("  " + Quoted(target) + " = {")[2] == '"';
    assert ("    version = " + Quoted(version) + ";")[4] == 'v';
  }

  lemma ClosingShapes(l: string)
    requires l in ["    submodules = ["] + ClosingLines()
    ensures !LikeRoot(l) && !LikeSource(l)
  {
    assert "    submodules = ["[4] == 's';
  }

  lemma PathLineShape(path: string)
    ensures !LikeRoot("        path = " + Quoted(path) + ";")
    ensures !LikeSource("        path = " + Quoted(path) + ";")
  {
  }

  lemma {:induction false} SubmoduleReferences(entries: Entries, l: string)
    requires l in SubmoduleLines(entries)
    ensures !LikeRoot(l)
    ensures LikeSource(l) ==> exists e :: e in entries && l == SourceReference(e.inputName)
  {
    if l in SubmoduleLines(entries[1..]) {
      SubmoduleReferences(entries[1..], l);
    } else {
      ReferenceShapes(entries[0].inputName);
      PathLineShape(entries[0].path);
      assert entries[0] in entries;
      assert "      {"[4] == "      }"[4] == ' ';
      hide SourceReference;
    }
  }

  lemma TreeLineKinds(target: string, version: string, root: SourceEntry, submodules: Entries,
                      l: string)
    requires l in TreeLines(target, version, root, submodules)
    ensures || l in OpeningLines(target, version) || l in ["    submodules = ["] + ClosingLines()
            || l == RootReference(root.inputName) || l in SubmoduleLines(submodules)
  {
    hide OpeningLines, ClosingLines, RootReference, SubmoduleLines;
  }

  lemma SameReference(before: string, a: string, b: string)
    requires before + a + ";" == before + b + ";"
    ensures a == b
  {
    SplitEqual(before + a, ";", before + b, ";");
    SplitEqual(before, a, before, b);
  }

  lemma RootReferenceIs(target: string, version: string, root: SourceEntry, submodules: Entries,
                        name: string)
    requires RootReference(name) in TreeLines(target, version, root, submodules)
    ensures Quoted(name) == Quoted(root.inputName)
  {
    hide TreeLines, OpeningLines, ClosingLines, SubmoduleLines, LikeRoot, LikeSource;
    var l := RootReference(name);
    ReferenceShapes(name);
    TreeLineKinds(target, version, root, submodules, l);
    if l in OpeningLines(target, version) {
      OpeningShapes(target, version, l);
    } else if l in ["    submodules = ["] + ClosingLines() {
      ClosingShapes(l);
    } else if l in SubmoduleLines(submodules) {
      SubmoduleReferences(submodules, l);
    } else {
      SameReference("    root = inputs.", Quoted(name), Quoted(root.inputName));
    }
  }

  lemma NotBoth(l: string)
    ensures !(LikeRoot(l) && LikeSource(l))
  {
  }

  lemma SourceReferenceIs(target: string, version: string, root: SourceEntry, submodules: Entries,
                          name: string)
    requires SourceReference(name) in TreeLines(target, version, root, submodules)
    ensures exists e :: e in submodules && Quoted(name) == Quoted(e.inputName)
  {
    hide TreeLines, OpeningLines, ClosingLines, SubmoduleLines, LikeRoot, LikeSource, RootReference;
    var l := SourceReference(name);
    ReferenceShapes(name);
    ReferenceShapes(root.inputName);
    TreeLineKinds(target, version, root, submodules, l);
    if l in OpeningLines(target, version) {
      OpeningShapes(target, version, l);
    } else if l in ["    submodules = ["] + ClosingLines() {
      ClosingShapes(l);
    } else if l in SubmoduleLines(submodules) {
      SubmoduleReferences(submodules, l);
      var e :| e in submodules && l == SourceReference(e.inputName);
      SameReference("        source = inputs.", Quoted(name), Quoted(e.inputName));
    } else {
      NotBoth(l);
    }
  }

  /** Every input the tree file refers to is declared in the generated block. */
  lemma ReferencesDeclared(url: (string, string) -> string, target: string, version: string, root: SourceEntry,
                           submodules: Entries, name: string)
    requires var lines := TreeLines(target, version, root, submodules);
             RootReference(name) in lines || SourceReference(name) in lines
    ensures Declaration(name) in InputLines(url, root, submodules)
  {
    hide TreeLines, RootReference, SourceReference, AllEntryLines;
    var e := root;
    if RootReference(name) in TreeLines(target, version, root, submodules) {
      RootReferenceIs(target, version, root, submodules, name);
    } else {
      SourceReferenceIs(target, version, root, submodules, name);
      e :| e in submodules && Quoted(name) == Quoted(e.inputName);
    }
    DeclarationsPresent(url, [root] + submodules, e);
  }

  // ----- Reading both back -----

  datatype Declared = Declared(name: string, url: string)

  datatype Listed = Listed(path: string, input: string)

  datatype TreeInputs = TreeInputs(target: string, version: string, root: string, submodules: seq<Listed>)

  /** The string that stands as a literal between two given texts. */
  function Field(before: string, after: string, l: string): Option<string> {
    if |before| + |after| <= |l| && before <= l && l[|l| - |after|..] == after
    then Unquoted(l[|before|..|l| - |after|])
    else None
  }

  function ReadDeclarations(lines: seq<string>): Option<seq<Declared>> {
    if lines == [] then Some([])
    else if |lines| < 5 || lines[2..5] != ["      flake = false;", "    };", ""] then None
    else
      var name, url, rest := Field("    ", " = {", lines[0]), Field("      url = ", ";", lines[1]),
                             ReadDeclarations(lines[5..]);
      if name.None? || url.None? || rest.None? then None else Some([Declared(name.value, url.value)] + rest.value)
  }

  /** What a generated block declares. */
  function ReadBlock(block: seq<string>): Option<seq<Declared>> {
    if |block| < 3 || block[0] != BEGIN_INPUTS || block[|block| - 1] != END_INPUTS then None
    else ReadDeclarations(block[2..|block| - 1])
  }

  function ReadSubmodules(lines: seq<string>): Option<seq<Listed>> {
    if lines == [] then Some([])
    else if |lines| < 4 || lines[0] != "      {" || lines[3] != "      }" then None
    else
      var path, input := Field("        path = ", ";", lines[1]), Field("        source = inputs.", ";", lines[2]);
      var rest := ReadSubmodules(lines[4..]);
      if path.None? || input.None? || rest.None? then None else Some([Listed(path.value, input.value)] + rest.value)
  }

  function ReadTree(lines: seq<string>): Option<TreeInputs> {
    if |lines| < 10 || lines[1..3] != ["{ inputs }:", "{"] || lines[6] != "    submodules = ["
       || lines[|lines| - 3..] != ["    ];", "  };", "}"] then None
    else
      var target, version, root := Field("  ", " = {", lines[3]), Field("    version = ", ";", lines[4]),
                                   Field("    root = inputs.", ";", lines[5]);
      var submodules := ReadSubmodules(lines[7..|lines| - 3]);
      if target.None? || version.None? || root.None? || submodules.None? then None
      else Some(TreeInputs(target.value, version.value, root.value, submodules.value))
  }

  function DeclaredOf(url: (string, string) -> string, entries: Entries): seq<Declared> {
    seq(|entries|, i requires 0 <= i < |entries| => Declared(entries[i].inputName, url(entries[i].url, entries[i].rev)))
  }

  function ListedOf(entries: Entries): seq<Listed> {
    seq(|entries|, i requires 0 <= i < |entries| => Listed(entries[i].path, entries[i].inputName))
  }

  ghost predicate ReadableInputs(url: (string, string) -> string, entries: Entries) {
    forall i :: 0 <= i < |entries| ==> Readable(entries[i].inputName) && Readable(url(entries[i].url, entries[i].rev))
  }

  ghost predicate ReadableListing(entries: Entries) {
    forall i :: 0 <= i < |entries| ==> Readable(entries[i].path) && Readable(entries[i].inputName)
  }

  lemma FieldReads(before: string, s: string, after: string)
    ensures Field(before, after, before + Quoted(s) + after) == Some(s) <==> Readable(s)
  {
    hide Quoted, Unquoted, Readable;
    QuotedReadsBack(s);
    var l := before + Quoted(s) + after;
    assert before <= l && l[|l| - |after|..] == after && l[|before|..|l| - |after|] == Quoted(s);
  }

  lemma ReadableHead(url: (string, string) -> string, entries: Entries)
    requires entries != []
    ensures var e := entries[0];
            && (ReadableInputs(url, entries) <==>
                Readable(e.inputName) && Readable(url(e.url, e.rev)) && ReadableInputs(url, entries[1..]))
            && (ReadableListing(entries) <==>
                Readable(e.path) && Readable(e.inputName) && ReadableListing(entries[1..]))
  {
    hide Readable;
    assert forall i :: 0 < i < |entries| ==> entries[i] == entries[1..][i - 1];
    assert forall i :: 0 <= i < |entries| - 1 ==> entries[1..][i] == entries[i + 1];
  }

  lemma ListedCons(url: (string, string) -> string, entries: Entries)
    requires entries != []
    ensures var e := entries[0];
            && DeclaredOf(url, entries) == [Declared(e.inputName, url(e.url, e.rev))] + DeclaredOf(url, entries[1..])
            && ListedOf(entries) == [Listed(e.path, e.inputName)] + ListedOf(entries[1..])
  {
  }

  lemma ConsEqual<T>(x: T, s: seq<T>, y: T, t: seq<T>)
    ensures [x] + s == [y] + t <==> x == y && s == t
  {
    if [x] + s == [y] + t {
      assert ([x] + s)[0] == ([y] + t)[0] && ([x] + s)[1..] == ([y] + t)[1..];
    }
  }

  lemma ReadDeclarationsStep(url: (string, string) -> string, e: SourceEntry, rest: seq<string>)
    ensures var name, u := Field("    ", " = {", "    " + Quoted(e.inputName) + " = {"),
                           Field("      url = ", ";", "      url = " + Quoted(url(e.url, e.rev)) + ";");
            ReadDeclarations(EntryLines(url, e) + rest)
            == if name.None? || u.None? || ReadDeclarations(rest).None? then None
               else Some([Declared(name.value, u.value)] + ReadDeclarations(rest).value)
  {
    hide Field, Quoted;
    var lines := EntryLines(url, e) + rest;
    assert lines[5..] == rest && lines[2..5] == ["      flake = false;", "    };", ""];
  }

  lemma {:induction false} DeclarationsReadBack(url: (string, string) -> string, entries: Entries)
    ensures ReadDeclarations(AllEntryLines(url, entries)) == Some(DeclaredOf(url, entries))
            <==> ReadableInputs(url, entries)
  {
    if entries == [] {
      assert DeclaredOf(url, entries) == [];
    } else {
      hide *;
      var e := entries[0];
      AllEntryLinesStep(url, entries);
      ReadDeclarationsStep(url, e, AllEntryLines(url, entries[1..]));
      DeclarationsReadBack(url, entries[1..]);
      ReadableHead(url, entries);
      ListedCons(url, entries);
      FieldReads("    ", e.inputName, " = {");
      FieldReads("      url = ", url(e.url, e.rev), ";");
      var name, u := Field("    ", " = {", "    " + Quoted(e.inputName) + " = {"),
                     Field("      url = ", ";", "      url = " + Quoted(url(e.url, e.rev)) + ";");
      var rest := ReadDeclarations(AllEntryLines(url, entries[1..]));
      if name.Some? && u.Some? && rest.Some? {
        ConsEqual(Declared(name.value, u.value), rest.value,
                  Declared(e.inputName, url(e.url, e.rev)), DeclaredOf(url, entries[1..]));
      }
    }
  }

  /** The block is read back as the list of root and submodules exactly when its names and urls are readable. */
  lemma BlockReadsBack(url: (string, string) -> string, root: SourceEntry, submodules: Entries)
    ensures ReadBlock(InputLines(url, root, submodules)) == Some(DeclaredOf(url, [root] + submodules))
            <==> ReadableInputs(url, [root] + submodules)
  {
    hide AllEntryLines, ReadDeclarations, ReadableInputs, DeclaredOf;
    DeclarationsReadBack(url, [root] + submodules);
    var block := InputLines(url, root, submodules);
    assert block[2..|block| - 1] == AllEntryLines(url, [root] + submodules);
  }

  lemma ReadSubmodulesStep(entries: Entries)
    requires entries != []
    ensures var e := entries[0];
            var rest := ReadSubmodules(SubmoduleLines(entries[1..]));
            var path, input := Field("        path = ", ";", "        path = " + Quoted(e.path) + ";"),
                               Field("        source = inputs.", ";", SourceReference(e.inputName));
            ReadSubmodules(SubmoduleLines(entries))
            == if path.None? || input.None? || rest.None? then None
               else Some([Listed(path.value, input.value)] + rest.value)
  {
    hide Field, Quoted, SourceReference;
    var lines := SubmoduleLines(entries);
    assert lines[4..] == SubmoduleLines(entries[1..]);
  }

  lemma SourceReferenceText(name: string)
    ensures SourceReference(name) == "        source = inputs." + Quoted(name) + ";"
  {
  }

  lemma {:induction false} SubmodulesReadBack(entries: Entries)
    ensures ReadSubmodules(SubmoduleLines(entries)) == Some(ListedOf(entries)) <==> ReadableListing(entries)
  {
    if entries == [] {
      assert ListedOf(entries) == [];
    } else {
      hide *;
      var e := entries[0];
      ReadSubmodulesStep(entries);
      SubmodulesReadBack(entries[1..]);
      ReadableHead((u, r) => u, entries);
      ListedCons((u, r) => u, entries);
      FieldReads("        path = ", e.path, ";");
      FieldReads("        source = inputs.", e.inputName, ";");
      SourceReferenceText(e.inputName);
      var path, input := Field("        path = ", ";", "        path = " + Quoted(e.path) + ";"),
                         Field("        source = inputs.", ";", SourceReference(e.inputName));
      var rest := ReadSubmodules(SubmoduleLines(entries[1..]));
      if path.Some? && input.Some? && rest.Some? {
        ConsEqual(Listed(path.value, input.value), rest.value, Listed(e.path, e.inputName), ListedOf(entries[1..]));
      }
    }
  }

  /**
   The tree file is read back as it was generated, every submodule with its own path and input, exactly
   when the strings in it are readable.
   */
  lemma TreeReadsBack(target: string, version: string, root: SourceEntry, submodules: Entries)
    ensures ReadTree(TreeLines(target, version, root, submodules))
            == Some(TreeInputs(target, version, root.inputName, ListedOf(submodules)))
            <==> Readable(target) && Readable(version) && Readable(root.inputName) && ReadableListing(submodules)
  {
    hide SubmoduleLines, ReadSubmodules, ReadableListing, ListedOf, Field, Quoted, Readable;
    SubmodulesReadBack(submodules);
    FieldReads("  ", target, " = {");
    FieldReads("    version = ", version, ";");
    FieldReads("    root = inputs.", root.inputName, ";");
    var lines := TreeLines(target, version, root, submodules);
    assert lines[1..3] == ["{ inputs }:", "{"] && lines[|lines| - 3..] == ["    ];", "  };", "}"];
    assert lines[7..|lines| - 3] == SubmoduleLines(submodules);
  }

  // ----- The declared inputs -----

  /** What each name is pinned to; Nix refuses a name that is declared twice. */
  function Pins(declared: seq<Declared>): Option<map<string, string>> {
    if declared == [] then Some(map[])
    else
      var rest := Pins(declared[1..]);
      if rest.None? || declared[0].name in rest.value then None
      else Some(rest.value[declared[0].name := declared[0].url])
  }

  ghost predicate DistinctNames(declared: seq<Declared>) {
    forall i, j :: 0 <= i < j < |declared| ==> declared[i].name != declared[j].name
  }

  lemma DistinctHead(declared: seq<Declared>)
    requires declared != []
    ensures DistinctNames(declared) <==>
            DistinctNames(declared[1..]) && forall j :: 0 < j < |declared| ==> declared[0].name != declared[j].name
  {
    assert forall i :: 0 <= i < |declared| - 1 ==> declared[1..][i] == declared[i + 1];
    assert forall i :: 0 < i < |declared| ==> declared[i] == declared[1..][i - 1];
  }

  lemma NoneDeclared()
    ensures DistinctNames([])
  {
  }

  /** Exactly when no name is declared twice, every one is pinned to its own url. */
  lemma {:induction false} PinsExactly(declared: seq<Declared>)
    ensures Pins(declared).Some? <==> DistinctNames(declared)
    ensures Pins(declared).Some? ==>
              var pins := Pins(declared).value;
              && (forall i :: 0 <= i < |declared| ==>
                    declared[i].name in pins && pins[declared[i].name] == declared[i].url)
              && forall x :: x in pins ==> exists i :: 0 <= i < |declared| && declared[i].name == x
  {
    hide DistinctNames;
    if declared == [] {
      NoneDeclared();
    } else {
      var rest := declared[1..];
      DistinctHead(declared);
      PinsExactly(rest);
      assert forall i :: 0 <= i < |rest| ==> rest[i] == declared[i + 1];
      assert forall i :: 0 < i < |declared| ==> declared[i] == rest[i - 1];
    }
  }

  // ----- What the build reads -----

  /** The declared inputs and the entry of the tree file. */
  datatype LockFiles = LockFiles(pins: map<string, string>, tree: TreeInputs)

  /** The inputs that the first marked block of the flake declares. */
  function ReadFlake(lines: seq<string>): Option<map<string, string>> {
    var begin, end := IndexOf(lines, BEGIN_INPUTS), IndexOf(lines, END_INPUTS);
    if begin.None? || end.None? || begin.value >= end.value then None
    else
      var declared := ReadBlock(lines[begin.value..end.value + 1]);
      if declared.None? then None else Pins(declared.value)
  }

  function ReadFiles(flake: string, tree: string): Option<LockFiles> {
    var pins, inputs := ReadFlake(SplitLines(flake)), ReadTree(SplitLines(tree));
    if pins.None? || inputs.None? then None else Some(LockFiles(pins.value, inputs.value))
  }

  lemma OpenLines()
    ensures OneLine("{ inputs }:") && OneLine("{") && OneLine("    submodules = [")
  {
  }

  lemma CloseLines()
    ensures OneLine("      {") && OneLine("      }") && OneLine("    ];") && OneLine("  };") && OneLine("}")
  {
  }

  lemma FrameLines(l: string)
    ensures l in ["      {", "      }", "{ inputs }:", "{", "    submodules = ["] + ClosingLines() ==> OneLine(l)
  {
    hide OneLine;
    OpenLines();
    CloseLines();
  }

  lemma SubmoduleTexts()
    ensures OneLine("        path = ") && OneLine("        source = inputs.") && OneLine(";")
  {
  }

  lemma {:induction false} SubmoduleLinesOneLine(entries: Entries, l: string)
    requires l in SubmoduleLines(entries)
    ensures OneLine(l)
  {
    hide OneLine, Quoted;
    if l in SubmoduleLines(entries[1..]) {
      SubmoduleLinesOneLine(entries[1..], l);
    } else {
      FrameLines(l);
      SubmoduleTexts();
      QuotedLine("        path = ", entries[0].path, ";");
      QuotedLine("        source = inputs.", entries[0].inputName, ";");
    }
  }

  lemma TargetTexts()
    ensures OneLine("  ") && OneLine(" = {") && OneLine("    version = ") && OneLine("    root = inputs.")
  {
  }

  lemma HeaderAlone()
    ensures OneLine(HEADER)
  {
    HeaderOneLine();
    hide IsLineEnd;
    assert forall i :: 0 <= i < |HEADER| ==> ("    " + HEADER)[4 + i] == HEADER[i];
  }

  lemma TreeLinesAreLines(target: string, version: string, root: SourceEntry, submodules: Entries)
    ensures AreLines(TreeLines(target, version, root, submodules))
  {
    hide OneLine, Quoted, SubmoduleLines;
    SubmoduleTexts();
    TargetTexts();
    HeaderAlone();
    QuotedLine("  ", target, " = {");
    QuotedLine("    version = ", version, ";");
    QuotedLine("    root = inputs.", root.inputName, ";");
    forall l | l in TreeLines(target, version, root, submodules)
      ensures OneLine(l)
    {
      FrameLines(l);
      if l in SubmoduleLines(submodules) {
        SubmoduleLinesOneLine(submodules, l);
      }
    }
  }

  lemma TreeLinesSplit(target: string, version: string, root: SourceEntry, submodules: Entries)
    ensures var lines := TreeLines(target, version, root, submodules);
            SplitLines(Unlines(lines)) == lines
  {
    hide TreeLines, SplitLines, Unlines, OneLine;
    TreeLinesAreLines(target, version, root, submodules);
    SplitUnlines(TreeLines(target, version, root, submodules));
  }

  /** The tree file as text reads back. */
  lemma TreeTextReadsBack(target: string, version: string, root: SourceEntry, submodules: Entries)
    requires Readable(target) && Readable(version) && Readable(root.inputName) && ReadableListing(submodules)
    ensures ReadTree(SplitLines(Unlines(TreeLines(target, version, root, submodules))))
         == Some(TreeInputs(target, version, root.inputName, ListedOf(submodules)))
  {
    hide *;
    TreeLinesSplit(target, version, root, submodules);
    TreeReadsBack(target, version, root, submodules);
  }

  lemma UpdatedFlakeLines(flake: string, block: seq<string>, begin: nat, end: nat)
    requires Marked(SplitLines(flake), begin, end) && AreLines(block)
    ensures SpliceText(flake, block).Ok?
    ensures SplitLines(SpliceText(flake, block).value) == Replaced(SplitLines(flake), begin, end, block)
  {
    hide SplitLines, Unlines, OneLine;
    var lines := SplitLines(flake);
    SplitLinesAre(flake);
    SpliceIsReplaced(lines, block, begin, end);
    SplitUnlines(Replaced(lines, begin, end, block));
  }

  lemma BlockBetweenMarkers(lines: seq<string>, block: seq<string>, begin: nat, end: nat)
    requires Marked(lines, begin, end) && IsBlock(block)
    ensures ReadFlake(Replaced(lines, begin, end, block))
         == if ReadBlock(block).None? then None else Pins(ReadBlock(block).value)
  {
    var r := Replaced(lines, begin, end, block);
    ReplacedIsMarked(lines, block, begin, end);
    ReplacedParts(lines, block, begin, end);
    hide Replaced, Marked, IsBlock, ReadBlock, Pins, IndexOf;
    MarkersUnique(r, begin, begin + |block| - 1);
  }

  /** Whatever flake is updated, its generated inputs read back as those of the root and the submodules. */
  lemma FlakeReadsBack(flake: string, begin: nat, end: nat, url: (string, string) -> string, root: SourceEntry,
                       submodules: Entries)
    requires Marked(SplitLines(flake), begin, end) && ReadableInputs(url, [root] + submodules)
    ensures SpliceText(flake, InputLines(url, root, submodules)).Ok?
    ensures ReadFlake(SplitLines(SpliceText(flake, InputLines(url, root, submodules)).value))
         == Pins(DeclaredOf(url, [root] + submodules))
  {
    hide *;
    var block := InputLines(url, root, submodules);
    InputLinesAreLines(url, root, submodules);
    InputLinesAreBlock(url, root, submodules);
    BlockReadsBack(url, root, submodules);
    UpdatedFlakeLines(flake, block, begin, end);
    BlockBetweenMarkers(SplitLines(flake), block, begin, end);
  }

  // ----- Readable names -----

  lemma {:induction false} DashedDollars(series: string, i: nat)
    requires i <= |series|
    ensures DollarsBefore(DashDots(series), i) == DollarsBefore(series, i)
  {
    if i > 0 {
      DashedDollars(series, i - 1);
    }
  }

  lemma DashedReadable(series: string)
    ensures Readable(DashDots(series)) <==> Readable(series)
  {
    var dashed := DashDots(series);
    forall i | 0 <= i < |series|
      ensures IsReadable(dashed[i]) <==> IsReadable(series[i])
      ensures OpensInterpolation(dashed, i) <==> OpensInterpolation(series, i)
    {
      DashedDollars(series, i);
    }
  }

  lemma SlugReadable(digest: string -> string, path: string)
    requires HexDigests(digest)
    ensures Readable("-" + Slug(path) + "-" + digest(path)) && Readable("-root")
  {
    hide Slug;
    SlugShape(path);
    ReadableCharacters("-" + Slug(path) + "-" + digest(path));
    ReadableCharacters("-root");
  }

  lemma NameTail(digest: string -> string, series: string, target: string, path: string)
    ensures var tail := if path == "" then "-root" else "-" + Slug(path) + "-" + digest(path);
            InputName(digest, series, target, path)
            == "therock-src-" + (DashDots(series) + ("-" + (target + tail)))
  {
    hide Slug, DashDots;
  }

  lemma OpeningReadable()
    ensures Readable("therock-src-") && Readable("-")
  {
    ReadableCharacters("therock-src-");
  }

  lemma BehindDash(a: string, b: string)
    ensures Readable(a + ("-" + b)) <==> Readable(a) && Readable(b)
    ensures Readable("therock-src-" + a) <==> Readable(a)
  {
    hide Readable;
    OpeningReadable();
    ReadableConcat("-", b);
    ReadableConcat(a, "-" + b);
    ReadableConcat("therock-src-", a);
  }

  lemma DashFirst(tail: string, target: string)
    requires tail != "" && tail[0] == '-' && Readable(tail)
    ensures Readable(target + tail) <==> Readable(target)
  {
    hide Readable;
    ReadableConcat(target, tail);
  }

  /** A name is readable exactly when series and target are. */
  lemma NameReadable(digest: string -> string, series: string, target: string, path: string)
    requires HexDigests(digest)
    ensures Readable(InputName(digest, series, target, path)) <==> Readable(series) && Readable(target)
  {
    hide *;
    var tail := if path == "" then "-root" else "-" + Slug(path) + "-" + digest(path);
    SlugReadable(digest, path);
    DashedReadable(series);
    NameTail(digest, series, target, path);
    DashFirst(tail, target);
    BehindDash(DashDots(series), target + tail);
    BehindDash(DashDots(series) + ("-" + (target + tail)), "");
  }
}
