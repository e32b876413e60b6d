/** The generated block of flake inputs: its lines, and splicing it into the flake. */
module FlakeInputs {
  import opened Wrappers
  import opened NixStrings
  import opened SourceGraph
  import opened TextLines

  // ----- The generated block -----

  const BEGIN_INPUTS := "    # BEGIN generated TheRock source inputs"
  const END_INPUTS := "    # END generated TheRock source inputs"
  const HEADER :=
    "# Generated" + " by pkgs/therock/scripts/" + "update-source-tree.py;" + " do not edit by hand."

  function Declaration(name: string): string {
    "    " + Quoted(name) + " = {"
  }

  function EntryLines(url: (string, string) -> string, e: SourceEntry): seq<string> {
    [ Declaration(e.inputName),
      "      url = " + Quoted(url(e.url, e.rev)) + ";",
      "      flake = false;",
      "    };",
      "" ]
  }

  function AllEntryLines(url: (string, string) -> string, entries: Entries): seq<string> {
    if entries == [] then [] else EntryLines(url, entries[0]) + AllEntryLines(url, entries[1..])
  }

  function InputLines(url: (string, string) -> string, root: SourceEntry, submodules: Entries): seq<string> {
    [BEGIN_INPUTS, "    " + HEADER] + AllEntryLines(url, [root] + submodules) + [END_INPUTS]
  }

  /** A block opens and closes with the markers and has no other marker. */
  ghost predicate IsBlock(block: seq<string>) {
    && |block| >= 2
    && block[0] == BEGIN_INPUTS && block[|block| - 1] == END_INPUTS
    && forall i :: 0 < i < |block| - 1 ==> block[i] != BEGIN_INPUTS && block[i] != END_INPUTS
  }

  predicate IsMarker(l: string) {
    l == BEGIN_INPUTS || l == END_INPUTS
  }

  lemma NoMarker(l: string)
    requires |l| <= 4 || l[4] != '#' || (|l| > 6 && l[6] == 'G')
    ensures !IsMarker(l)
  {
    assert BEGIN_INPUTS[4] == '#' && END_INPUTS[4] == '#';
    assert BEGIN_INPUTS[6] == 'B' && END_INPUTS[6] == 'E';
  }

  lemma EntryLineUnmarked(url: (string, string) -> string, e: SourceEntry, l: string)
    requires l in EntryLines(url, e)
    ensures !IsMarker(l)
  {
    hide IsMarker, Inner;
    assert Declaration(e.inputName)[4] == '"';
    assert EntryLines(url, e)[1][4] == ' ' && EntryLines(url, e)[2][4] == ' ';
    assert EntryLines(url, e)[3][4] == '}';
    NoMarker(l);
  }

  lemma {:induction false} EntryLinesUnmarked(url: (string, string) -> string, entries: Entries, l: string)
    requires l in AllEntryLines(url, entries)
    ensures !IsMarker(l)
  {
    hide IsMarker, EntryLines;
    if l in EntryLines(url, entries[0]) {
      EntryLineUnmarked(url, entries[0], l);
    } else {
      EntryLinesUnmarked(url, entries[1..], l);
    }
  }

  lemma HeaderUnmarked()
    ensures !IsMarker("    " + HEADER)
  {
    assert HEADER[2] == 'G';
    NoMarker("    " + HEADER);
  }

  lemma EnclosedIsBlock(inner: seq<string>)
    requires forall l :: l in inner ==> !IsMarker(l)
    ensures IsBlock([BEGIN_INPUTS] + inner + [END_INPUTS])
  {
    var block := [BEGIN_INPUTS] + inner + [END_INPUTS];
    forall i | 0 < i < |block| - 1
      ensures !IsMarker(block[i])
    {
      assert block[i] == inner[i - 1];
    }
  }

  lemma InputLinesAreBlock(url: (string, string) -> string, root: SourceEntry, submodules: Entries)
    ensures IsBlock(InputLines(url, root, submodules))
  {
    hide IsMarker, IsBlock, AllEntryLines;
    var entryLines := AllEntryLines(url, [root] + submodules);
    var inner := ["    " + HEADER] + entryLines;
    forall l | l in inner
      ensures !IsMarker(l)
    {
      if l in entryLines {
        EntryLinesUnmarked(url, [root] + submodules, l);
      } else {
        HeaderUnmarked();
      }
    }
    EnclosedIsBlock(inner);
    assert InputLines(url, root, submodules) == [BEGIN_INPUTS] + inner + [END_INPUTS];
  }

  // ----- Splicing -----

  datatype SpliceError = MissingMarkers | MarkerOrder

  function IndexOf(lines: seq<string>, x: string): (r: Option<nat>)
    ensures r.Some? ==> r.value < |lines| && lines[r.value] == x && forall i :: 0 <= i < r.value ==> lines[i] != x
    ensures r.None? ==> x !in lines
  {
    if lines == [] then None
    else if lines[0] == x then Some(0)
    else
      match IndexOf(lines[1..], x)
      case None => None
      case Some(i) => Some(i + 1)
  }

  function Splice(lines: seq<string>, block: seq<string>): Result<seq<string>, SpliceError> {
    var begin, end := IndexOf(lines, BEGIN_INPUTS), IndexOf(lines, END_INPUTS);
    if begin.None? || end.None? then Err(MissingMarkers)
    else if begin.value >= end.value then Err(MarkerOrder)
    else Ok(lines[..begin.value] + block + lines[end.value + 1..])
  }

  /** The first begin marker stands before the first end marker. */
  ghost predicate Marked(lines: seq<string>, begin: nat, end: nat) {
    && begin < end < |lines|
    && lines[begin] == BEGIN_INPUTS && lines[end] == END_INPUTS
    && (forall i :: 0 <= i < begin ==> lines[i] != BEGIN_INPUTS)
    && (forall i :: 0 <= i < end ==> lines[i] != END_INPUTS)
  }

  lemma MarkersUnique(lines: seq<string>, begin: nat, end: nat)
    requires Marked(lines, begin, end)
    ensures IndexOf(lines, BEGIN_INPUTS) == Some(begin) && IndexOf(lines, END_INPUTS) == Some(end)
  {
    var b, e := IndexOf(lines, BEGIN_INPUTS), IndexOf(lines, END_INPUTS);
    assert b.Some? && e.Some?;
    assert b.value <= begin && e.value <= end;
  }

  /** Splicing succeeds exactly on marked files. */
  lemma SpliceSucceeds(lines: seq<string>, block: seq<string>)
    ensures Splice(lines, block).Ok? <==> exists begin, end :: Marked(lines, begin, end)
  {
    if begin, end :| Marked(lines, begin, end) {
      MarkersUnique(lines, begin, end);
    }
    if Splice(lines, block).Ok? {
      assert Marked(lines, IndexOf(lines, BEGIN_INPUTS).value, IndexOf(lines, END_INPUTS).value);
    }
  }

  /** The lines with those from `begin` to `end` replaced by the block. */
  function Replaced(lines: seq<string>, begin: nat, end: nat, block: seq<string>): seq<string>
    requires begin <= end < |lines|
  {
    lines[..begin] + block + lines[end + 1..]
  }

  lemma SpliceIsReplaced(lines: seq<string>, block: seq<string>, begin: nat, end: nat)
    requires Marked(lines, begin, end)
    ensures Splice(lines, block) == Ok(Replaced(lines, begin, end, block))
  {
    MarkersUnique(lines, begin, end);
  }

  lemma ReplacedIsMarked(lines: seq<string>, block: seq<string>, begin: nat, end: nat)
    requires Marked(lines, begin, end) && IsBlock(block)
    ensures Marked(Replaced(lines, begin, end, block), begin, begin + |block| - 1)
  {
    var r := Replaced(lines, begin, end, block);
    assert forall i :: 0 <= i < begin ==> r[i] == lines[i];
    assert forall i :: 0 <= i < |block| ==> r[begin + i] == block[i];
    forall i | begin <= i < begin + |block| - 1
      ensures r[i] != END_INPUTS
    {
      assert r[i] == block[i - begin];
    }
  }

  lemma ReplacedParts(lines: seq<string>, block: seq<string>, begin: nat, end: nat)
    requires begin <= end < |lines|
    ensures var r := Replaced(lines, begin, end, block);
            && r[..begin] == lines[..begin]
            && r[begin..begin + |block|] == block
            && r[begin + |block|..] == lines[end + 1..]
  {
    var before, after := lines[..begin], lines[end + 1..];
    assert (before + block + after)[begin..begin + |block|] == block;
    assert (before + block + after)[begin + |block|..] == after;
  }

  /** Only the marked region changes: it becomes the block, and what stands before and after it is kept. */
  lemma SpliceKeepsOutside(lines: seq<string>, block: seq<string>, begin: nat, end: nat)
    requires Marked(lines, begin, end)
    ensures Splice(lines, block).Ok?
    ensures var r := Splice(lines, block).value;
            && r[..begin] == lines[..begin]
            && r[begin..begin + |block|] == block
            && r[begin + |block|..] == lines[end + 1..]
  {
    hide Splice, Replaced;
    SpliceIsReplaced(lines, block, begin, end);
    ReplacedParts(lines, block, begin, end);
  }

  lemma ReplacedTwice(lines: seq<string>, first: seq<string>, second: seq<string>, begin: nat, end: nat)
    requires begin <= end < |lines| && |first| > 0
    ensures Replaced(Replaced(lines, begin, end, first), begin, begin + |first| - 1, second)
         == Replaced(lines, begin, end, second)
  {
    ReplacedParts(lines, first, begin, end);
  }

  /** A second splice overrides the first; with the same block it changes nothing. */
  lemma SpliceOverrides(lines: seq<string>, first: seq<string>, second: seq<string>, begin: nat, end: nat)
    requires Marked(lines, begin, end) && IsBlock(first)
    ensures Splice(lines, first).Ok?
    ensures var r := Splice(lines, first).value;
            Splice(r, second) == Splice(lines, second) && Splice(r, first) == Ok(r)
  {
    hide Splice, Replaced;
    SpliceIsReplaced(lines, first, begin, end);
    SpliceIsReplaced(lines, second, begin, end);
    ReplacedIsMarked(lines, first, begin, end);
    var r := Replaced(lines, begin, end, first);
    SpliceIsReplaced(r, first, begin, begin + |first| - 1);
    SpliceIsReplaced(r, second, begin, begin + |first| - 1);
    ReplacedTwice(lines, first, first, begin, end);
    ReplacedTwice(lines, first, second, begin, end);
  }

  lemma Rejoined(lines: seq<string>, i: nat, j: nat)
    requires i <= j <= |lines|
    ensures lines[..i] + lines[i..j] + lines[j..] == lines
  {
  }

  /** Splicing in the region that is already there changes nothing. */
  lemma SpliceSame(lines: seq<string>, begin: nat, end: nat)
    requires Marked(lines, begin, end)
    ensures Splice(lines, lines[begin..end + 1]) == Ok(lines)
  {
    SpliceIsReplaced(lines, lines[begin..end + 1], begin, end);
    hide *;
    Rejoined(lines, begin, end + 1);
  }

  // ----- The flake as text -----

  /** `update_flake_inputs` on the contents of the file. */
  function SpliceText(text: string, block: seq<string>): Result<string, SpliceError> {
    match Splice(SplitLines(text), block)
    case Err(e) => Err(e)
    case Ok(lines) => Ok(Unlines(lines))
  }

  function TextBefore(text: string, begin: nat): string
    requires begin <= |SplitLines(text)|
  {
    text[..Offset(text, begin)]
  }

  function TextAfter(text: string, end: nat): string
    requires end < |SplitLines(text)|
  {
    text[Offset(text, end + 1)..]
  }

  lemma SpliceTextIs(text: string, block: seq<string>, begin: nat, end: nat)
    requires Marked(SplitLines(text), begin, end)
    ensures SpliceText(text, block)
         == Ok(Rewritten(TextBefore(text, begin)) + Unlines(block) + Rewritten(TextAfter(text, end)))
  {
    hide SplitLines, Unlines, Splice, Offset;
    var lines := SplitLines(text);
    SpliceIsReplaced(lines, block, begin, end);
    LinesAround(text, begin);
    LinesAround(text, end + 1);
    UnlinesConcat(lines[..begin] + block, lines[end + 1..]);
    UnlinesConcat(lines[..begin], block);
  }

  lemma SameAround(a: string, b: string, x: string, c: string, d: string)
    requires a == b && c == d
    ensures a + x + c == b + x + d
  {
  }

  lemma PlainAround(before: string, x: string, after: string)
    requires Ended(before)
    requires Rewritten(before) + x + Rewritten(after) == before + x + after
    ensures Plain(before) && Plain(after)
  {
    hide *;
    Regroup(Rewritten(before), x, Rewritten(after));
    Regroup(before, x, after);
    PlainIfKept(before, x + Rewritten(after), x + after);
    RewrittenIsSame(before);
    CutBehind(before, x + Rewritten(after), x + after);
    CutBehind(x, Rewritten(after), after);
    RewrittenIsSame(after);
  }

  /**
   What stands before and after the markers is kept, character for character, exactly when each of its
   lines ends in a newline; any other line end becomes a newline, and a missing one is added.
   */
  lemma SpliceTextKeeps(text: string, block: seq<string>, begin: nat, end: nat)
    requires Marked(SplitLines(text), begin, end)
    ensures var before, after := TextBefore(text, begin), TextAfter(text, end);
            && SplitLines(before) == SplitLines(text)[..begin] && SplitLines(after) == SplitLines(text)[end + 1..]
            && (SpliceText(text, block) == Ok(before + Unlines(block) + after) <==> Plain(before) && Plain(after))
  {
    hide SplitLines, Unlines, SpliceText, Offset, Rewritten, Plain;
    LinesAround(text, begin);
    LinesAround(text, end + 1);
    SpliceTextIs(text, block, begin, end);
    EndedBefore(text, begin);
    var before, after := TextBefore(text, begin), TextAfter(text, end);
    hide *;
    if Rewritten(before) + Unlines(block) + Rewritten(after) == before + Unlines(block) + after {
      PlainAround(before, Unlines(block), after);
    }
    if Plain(before) && Plain(after) {
      RewrittenIsSame(before);
      RewrittenIsSame(after);
      SameAround(Rewritten(before), before, Unlines(block), Rewritten(after), after);
    }
  }

  ghost predicate AreLines(lines: seq<string>) {
    forall l :: l in lines ==> OneLine(l)
  }

  /** On the file as well a second splice overrides the first, and the same one again changes nothing. */
  lemma SpliceTextOverrides(text: string, first: seq<string>, second: seq<string>, begin: nat, end: nat)
    requires Marked(SplitLines(text), begin, end) && IsBlock(first) && AreLines(first)
    ensures SpliceText(text, first).Ok?
    ensures var r := SpliceText(text, first).value;
            SpliceText(r, second) == SpliceText(text, second) && SpliceText(r, first) == Ok(r)
  {
    hide SplitLines, Unlines, Splice, OneLine, IsBlock;
    var lines := SplitLines(text);
    SplitLinesAre(text);
    SpliceIsReplaced(lines, first, begin, end);
    SpliceOverrides(lines, first, second, begin, end);
    SplitUnlines(Replaced(lines, begin, end, first));
  }

  lemma ConcatOneLine(a: string, b: string)
    requires OneLine(a) && OneLine(b)
    ensures OneLine(a + b)
  {
    hide IsLineEnd;
  }

  lemma QuotedLine(before: string, s: string, after: string)
    requires OneLine(before) && OneLine(after)
    ensures OneLine(before + Quoted(s) + after)
  {
    hide OneLine, Quoted;
    QuotedShape(s);
    ConcatOneLine(before, Quoted(s));
    ConcatOneLine(before + Quoted(s), after);
  }

  lemma EntryLinesOneLine(url: (string, string) -> string, e: SourceEntry, l: string)
    requires l in EntryLines(url, e)
    ensures OneLine(l)
  {
    QuotedLine("    ", e.inputName, " = {");
    QuotedLine("      url = ", url(e.url, e.rev), ";");
  }

  lemma {:induction false} AllEntryLinesOneLine(url: (string, string) -> string, entries: Entries, l: string)
    requires l in AllEntryLines(url, entries)
    ensures OneLine(l)
  {
    hide OneLine, EntryLines;
    if l in EntryLines(url, entries[0]) {
      EntryLinesOneLine(url, entries[0], l);
    } else {
      AllEntryLinesOneLine(url, entries[1..], l);
    }
  }

  lemma BeginOneLine()
    ensures OneLine(BEGIN_INPUTS)
  {
  }

  lemma EndOneLine()
    ensures OneLine(END_INPUTS)
  {
  }

  lemma HeaderStart()
    ensures OneLine("# Generated" + " by pkgs/therock/scripts/")
  {
    ConcatOneLine("# Generated", " by pkgs/therock/scripts/");
  }

  lemma HeaderEnd()
    ensures OneLine("update-source-tree.py;") && OneLine(" do not edit by hand.") && OneLine("    ")
  {
  }

  lemma HeaderOneLine()
    ensures OneLine("    " + HEADER)
  {
    hide OneLine;
    HeaderStart();
    HeaderEnd();
    var first := "# Generated" + " by pkgs/therock/scripts/";
    ConcatOneLine(first, "update-source-tree.py;");
    ConcatOneLine(first + "update-source-tree.py;", " do not edit by hand.");
    ConcatOneLine("    ", HEADER);
  }

  /** The generated block consists of single lines, so that the laws above hold of it. */
  lemma InputLinesAreLines(url: (string, string) -> string, root: SourceEntry, submodules: Entries)
    ensures AreLines(InputLines(url, root, submodules))
  {
    hide AllEntryLines, OneLine;
    BeginOneLine();
    EndOneLine();
    HeaderOneLine();
    forall l | l in AllEntryLines(url, [root] + submodules)
      ensures OneLine(l)
    {
      AllEntryLinesOneLine(url, [root] + submodules, l);
    }
  }
}
