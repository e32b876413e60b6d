/** Assembling one assistant message from the fragments of a streamed chat completion. */
module ToolCalls {
  import opened Wrappers
  import opened Orders

  /** A piece of the tool call with the given index; absent strings are empty. */
  datatype Fragment = Fragment(index: int, id: string, name: string, arguments: string)

  datatype Choice = Choice(content: string, reasoning: string, fragments: seq<Fragment>, finish: Option<string>)

  /** A line of the response; reading a broken one raises. */
  datatype Line = Other | DoneMarker | Broken | Event(usage: Option<int>, choices: seq<Choice>)

  datatype Call = Call(id: string, name: string, arguments: string)

  datatype Answer = Answer(content: string, reasoning: string, toolCalls: Option<seq<Call>>, finish: Option<string>,
                           usage: Option<int>)

  // ----- What a message is made of -----

  /** The call with index `i`: its own fragments, joined field by field. */
  function CallFor(frs: seq<Fragment>, i: int): Call {
    if frs == [] then Call("", "", "")
    else
      var c, f := CallFor(frs[..|frs| - 1], i), frs[|frs| - 1];
      if f.index == i then Call(c.id + f.id, c.name + f.name, c.arguments + f.arguments) else c
  }

  /** The indices in the order of their first fragments, as the dictionary keeps its keys. */
  function FirstSeen(frs: seq<Fragment>): seq<int> {
    if frs == [] then []
    else
      var before, x := FirstSeen(frs[..|frs| - 1]), frs[|frs| - 1].index;
      if x in before then before else before + [x]
  }

  ghost predicate Occurs(frs: seq<Fragment>, x: int) {
    exists k :: 0 <= k < |frs| && frs[k].index == x
  }

  lemma {:induction false} FirstSeenAre(frs: seq<Fragment>)
    ensures NoDuplicates(FirstSeen(frs))
    ensures forall x :: x in FirstSeen(frs) <==> Occurs(frs, x)
  {
    if frs != [] {
      var init, f := frs[..|frs| - 1], frs[|frs| - 1];
      FirstSeenAre(init);
      forall x
        ensures Occurs(frs, x) <==> Occurs(init, x) || f.index == x
      {
        if k :| 0 <= k < |init| && init[k].index == x {
          assert frs[k] == init[k];
        }
        if k :| 0 <= k < |frs| && frs[k].index == x {
          assert k < |init| ==> init[k] == frs[k];
        }
      }
    }
  }

  function SortedIndices(frs: seq<Fragment>): seq<int> {
    Sort(IntLeq, FirstSeen(frs))
  }

  function AssembledCalls(frs: seq<Fragment>): Option<seq<Call>> {
    var indices := SortedIndices(frs);
    if indices == [] then None
    else Some(seq(|indices|, k requires 0 <= k < |indices| => CallFor(frs, indices[k])))
  }

  function Fragments(choices: seq<Choice>): seq<Fragment> {
    if choices == [] then [] else Fragments(choices[..|choices| - 1]) + choices[|choices| - 1].fragments
  }

  function Contents(choices: seq<Choice>): string {
    if choices == [] then "" else Contents(choices[..|choices| - 1]) + choices[|choices| - 1].content
  }

  function Reasonings(choices: seq<Choice>): string {
    if choices == [] then "" else Reasonings(choices[..|choices| - 1]) + choices[|choices| - 1].reasoning
  }

  function LastFinish(choices: seq<Choice>): Option<string> {
    if choices == [] then None
    else if choices[|choices| - 1].finish.Some? then choices[|choices| - 1].finish
    else LastFinish(choices[..|choices| - 1])
  }

  /** The lines that are read: those before the first done marker. */
  function ReadLines(lines: seq<Line>): (r: seq<Line>)
    ensures r <= lines && DoneMarker !in r
    ensures |r| < |lines| ==> lines[|r|] == DoneMarker
  {
    if lines == [] || lines[0] == DoneMarker then [] else [lines[0]] + ReadLines(lines[1..])
  }

  function ChoicesOf(lines: seq<Line>): seq<Choice> {
    if lines == [] then []
    else ChoicesOf(lines[..|lines| - 1]) + (if lines[|lines| - 1].Event? then lines[|lines| - 1].choices else [])
  }

  function LastUsage(lines: seq<Line>): Option<int> {
    if lines == [] then None
    else if lines[|lines| - 1].Event? && lines[|lines| - 1].usage.Some? then lines[|lines| - 1].usage
    else LastUsage(lines[..|lines| - 1])
  }

  function AnswerFrom(choices: seq<Choice>, usage: Option<int>): Answer {
    Answer(Contents(choices), Reasonings(choices), AssembledCalls(Fragments(choices)), LastFinish(choices), usage)
  }

  /** What `chat` returns; a broken line before the done marker raises. */
  function ChatAnswer(lines: seq<Line>): Option<Answer> {
    var read := ReadLines(lines);
    if Broken in read then None else Some(AnswerFrom(ChoicesOf(read), LastUsage(read)))
  }

  // ----- The loops of `chat` -----

  /** The dictionary `calls` after the given fragments. */
  ghost predicate Represents(calls: map<int, Call>, order: seq<int>, frs: seq<Fragment>) {
    && order == FirstSeen(frs)
    && (forall i :: i in calls <==> i in order)
    && forall i :: i in calls ==> calls[i] == CallFor(frs, i)
  }

  lemma {:induction false} UnseenCall(frs: seq<Fragment>, i: int)
    requires i !in FirstSeen(frs)
    ensures CallFor(frs, i) == Call("", "", "")
  {
    if frs != [] {
      UnseenCall(frs[..|frs| - 1], i);
    }
  }

  function Extend(c: Call, f: Fragment): Call {
    Call(c.id + f.id, c.name + f.name, c.arguments + f.arguments)
  }

  lemma CallForStep(frs: seq<Fragment>, f: Fragment, i: int)
    ensures CallFor(frs + [f], i) == if f.index == i then Extend(CallFor(frs, i), f) else CallFor(frs, i)
    ensures FirstSeen(frs + [f]) == if f.index in FirstSeen(frs) then FirstSeen(frs) else FirstSeen(frs) + [f.index]
  {
    assert (frs + [f])[..|frs|] == frs;
  }

  method AddFragment(calls: map<int, Call>, order: seq<int>, part: Fragment, ghost frs: seq<Fragment>)
      returns (all: map<int, Call>, keys: seq<int>)
    requires Represents(calls, order, frs)
    ensures Represents(all, keys, frs + [part])
  {
    all, keys := calls, order;
    if part.index !in all {
      UnseenCall(frs, part.index);
      all := all[part.index := Call("", "", "")];
      keys := keys + [part.index];
    }
    var call := all[part.index];
    if part.id != "" {
      call := call.(id := call.id + part.id);
    }
    call := call.(name := call.name + part.name);
    call := call.(arguments := call.arguments + part.arguments);
    assert call == Extend(CallFor(frs, part.index), part);
    all := all[part.index := call];
    forall i
      ensures CallFor(frs + [part], i) == if i == part.index then call else CallFor(frs, i)
    {
      CallForStep(frs, part, i);
    }
    CallForStep(frs, part, part.index);
  }

  method AddFragments(calls: map<int, Call>, order: seq<int>, parts: seq<Fragment>, ghost frs: seq<Fragment>)
      returns (all: map<int, Call>, keys: seq<int>)
    requires Represents(calls, order, frs)
    ensures Represents(all, keys, frs + parts)
  {
    all, keys := calls, order;
    assert frs + parts[..0] == frs;
    for k := 0 to |parts|
      invariant Represents(all, keys, frs + parts[..k])
    {
      assert frs + parts[..k + 1] == frs + parts[..k] + [parts[k]];
      all, keys := AddFragment(all, keys, parts[k], frs + parts[..k]);
    }
    assert parts[..|parts|] == parts;
  }

  /** The variables of the loop after the given choices. */
  datatype Progress = Progress(calls: map<int, Call>, order: seq<int>, content: string, reasoning: string,
                               finish: Option<string>)

  ghost predicate Reached(p: Progress, seen: seq<Choice>) {
    && Represents(p.calls, p.order, Fragments(seen))
    && p.content == Contents(seen) && p.reasoning == Reasonings(seen) && p.finish == LastFinish(seen)
  }

  method AddChoice(p: Progress, choice: Choice, ghost seen: seq<Choice>) returns (next: Progress)
    requires Reached(p, seen)
    ensures Reached(next, seen + [choice])
  {
    assert (seen + [choice])[..|seen|] == seen;
    var content := p.content + choice.content;
    var reasoning := p.reasoning + choice.reasoning;
    var finish := if choice.finish.Some? then choice.finish else p.finish;
    var calls, order := AddFragments(p.calls, p.order, choice.fragments, Fragments(seen));
    return Progress(calls, order, content, reasoning, finish);
  }

  method AddChoices(p: Progress, choices: seq<Choice>, ghost seen: seq<Choice>) returns (next: Progress)
    requires Reached(p, seen)
    ensures Reached(next, seen + choices)
  {
    next := p;
    assert seen + choices[..0] == seen;
    for k := 0 to |choices|
      invariant Reached(next, seen + choices[..k])
    {
      assert seen + choices[..k + 1] == seen + choices[..k] + [choices[k]];
      next := AddChoice(next, choices[k], seen + choices[..k]);
    }
    assert choices[..|choices|] == choices;
  }

  lemma SortedIndicesAre(frs: seq<Fragment>)
    ensures forall x :: x in SortedIndices(frs) <==> x in FirstSeen(frs)
    ensures Increasing(SortedIndices(frs))
  {
    FirstSeenAre(frs);
    SortIncreases(FirstSeen(frs));
  }

  lemma LinesStep(lines: seq<Line>, line: Line)
    ensures ChoicesOf(lines + [line]) == if line.Event? then ChoicesOf(lines) + line.choices else ChoicesOf(lines)
    ensures LastUsage(lines + [line]) == if line.Event? && line.usage.Some? then line.usage else LastUsage(lines)
  {
    assert (lines + [line])[..|lines|] == lines;
  }

  /** The message built once the lines are read. */
  method Finish(p: Progress, usage: Option<int>, ghost seen: seq<Choice>) returns (answer: Answer)
    requires Reached(p, seen)
    ensures answer == AnswerFrom(seen, usage)
  {
    var toolCalls: Option<seq<Call>> := None;
    if p.order != [] {
      var indices := Sort(IntLeq, p.order);
      SortedIndicesAre(Fragments(seen));
      assert forall k :: 0 <= k < |indices| ==> indices[k] in indices && indices[k] in p.calls;
      toolCalls := Some(seq(|indices|, k requires 0 <= k < |indices| && indices[k] in p.calls => p.calls[indices[k]]));
      assert toolCalls.value == AssembledCalls(Fragments(seen)).value;
    }
    return Answer(p.content, p.reasoning, toolCalls, p.finish, usage);
  }

  lemma NothingReached(p: Progress)
    requires p == Progress(map[], [], "", "", None)
    ensures ChoicesOf([]) == [] && LastUsage([]) == None && Reached(p, [])
  {
  }

  /** The streaming branch of `chat`. */
  method Chat(lines: seq<Line>) returns (answer: Option<Answer>)
    ensures answer == ChatAnswer(lines)
  {
    var p := Progress(map[], [], "", "", None);
    var usage: Option<int> := None;
    ghost var read := ReadLines(lines);
    NothingReached(p);
    hide ReadLines, ChoicesOf, LastUsage, Reached, AnswerFrom;
    var i := 0;
    while i < |lines|
      invariant 0 <= i <= |read| && Broken !in read[..i]
      invariant usage == LastUsage(read[..i]) && Reached(p, ChoicesOf(read[..i]))
    {
      var line := lines[i];
      if line == DoneMarker {
        break;
      }
      assert i < |read| && read[..i + 1] == read[..i] + [line];
      LinesStep(read[..i], line);
      if line == Broken {
        assert read[i] in read;
        return None;
      }
      if line.Event? {
        if line.usage.Some? {
          usage := line.usage;
        }
        p := AddChoices(p, line.choices, ChoicesOf(read[..i]));
      }
      i := i + 1;
    }
    assert read[..|read|] == read;
    var message := Finish(p, usage, ChoicesOf(read));
    return Some(message);
  }

  // ----- What the message depends on -----

  /** Two fragment sequences with the same indices and, index by index, the same joined fields assemble alike. */
  lemma CallsDetermined(a: seq<Fragment>, b: seq<Fragment>)
    requires forall x :: x in FirstSeen(a) <==> x in FirstSeen(b)
    requires forall i :: CallFor(a, i) == CallFor(b, i)
    ensures AssembledCalls(a) == AssembledCalls(b)
  {
    SortedIndicesAre(a);
    SortedIndicesAre(b);
    IncreasingUnique(SortedIndices(a), SortedIndices(b));
    if SortedIndices(a) != [] {
      assert AssembledCalls(a).value == AssembledCalls(b).value;
    }
  }

  /** The fragments of one index, in their order. */
  function Own(frs: seq<Fragment>, i: int): seq<Fragment> {
    if frs == [] then []
    else Own(frs[..|frs| - 1], i) + (if frs[|frs| - 1].index == i then [frs[|frs| - 1]] else [])
  }

  lemma {:induction false} CallForOwn(frs: seq<Fragment>, i: int)
    ensures CallFor(frs, i) == CallFor(Own(frs, i), i)
    ensures Own(frs, i) != [] <==> i in FirstSeen(frs)
  {
    if frs != [] {
      var init, f := frs[..|frs| - 1], frs[|frs| - 1];
      CallForOwn(init, i);
      if f.index == i {
        assert (Own(init, i) + [f])[..|Own(init, i)|] == Own(init, i);
      } else {
        assert Own(frs, i) == Own(init, i);
      }
    }
  }

  /** The tool calls depend only on each index's own subsequence of fragments. */
  lemma OwnSubsequencesSuffice(a: seq<Fragment>, b: seq<Fragment>)
    requires forall i :: Own(a, i) == Own(b, i)
    ensures AssembledCalls(a) == AssembledCalls(b)
  {
    forall i
      ensures CallFor(a, i) == CallFor(b, i) && (i in FirstSeen(a) <==> i in FirstSeen(b))
    {
      CallForOwn(a, i);
      CallForOwn(b, i);
    }
    CallsDetermined(a, b);
  }

  lemma {:induction false} CallForConcat(a: seq<Fragment>, b: seq<Fragment>, i: int)
    ensures var c, d, r := CallFor(a, i), CallFor(b, i), CallFor(a + b, i);
            r == Call(c.id + d.id, c.name + d.name, c.arguments + d.arguments)
  {
    if b == [] {
      assert a + b == a;
    } else {
      assert (a + b)[..|a + b| - 1] == a + b[..|b| - 1];
      CallForConcat(a, b[..|b| - 1], i);
    }
  }

  lemma {:induction false} OwnConcat(a: seq<Fragment>, b: seq<Fragment>, i: int)
    ensures Own(a + b, i) == Own(a, i) + Own(b, i)
  {
    if b == [] {
      assert a + b == a;
    } else {
      assert (a + b)[..|a + b| - 1] == a + b[..|b| - 1];
      OwnConcat(a, b[..|b| - 1], i);
    }
  }

  lemma OwnSingle(f: Fragment, i: int)
    ensures f.index != i ==> Own([f], i) == []
  {
    assert [f][..0] == [];
  }

  lemma SwapOwn(a: seq<Fragment>, x: Fragment, y: Fragment, b: seq<Fragment>, i: int)
    requires x.index != y.index
    ensures Own(a + [x, y] + b, i) == Own(a + [y, x] + b, i)
  {
    hide Own;
    OwnConcat(a + [x, y], b, i);
    OwnConcat(a + [y, x], b, i);
    OwnConcat(a, [x, y], i);
    OwnConcat(a, [y, x], i);
    OwnConcat([x], [y], i);
    OwnConcat([y], [x], i);
    assert [x, y] == [x] + [y] && [y, x] == [y] + [x];
    OwnSingle(x, i);
    OwnSingle(y, i);
  }

  /** Adjacent fragments of different calls may be swapped. */
  lemma SwapFragments(a: seq<Fragment>, x: Fragment, y: Fragment, b: seq<Fragment>)
    requires x.index != y.index
    ensures AssembledCalls(a + [x, y] + b) == AssembledCalls(a + [y, x] + b)
  {
    forall i
      ensures Own(a + [x, y] + b, i) == Own(a + [y, x] + b, i)
    {
      SwapOwn(a, x, y, b, i);
    }
    OwnSubsequencesSuffice(a + [x, y] + b, a + [y, x] + b);
  }

  lemma SingleFragment(f: Fragment, i: int)
    ensures CallFor([f], i) == if f.index == i then Call(f.id, f.name, f.arguments) else Call("", "", "")
  {
    assert [f][..0] == [];
  }

  lemma SplitCallFor(a: seq<Fragment>, x: Fragment, y: Fragment, whole: Fragment, b: seq<Fragment>, i: int)
    requires x.index == y.index
    requires whole == Fragment(x.index, x.id + y.id, x.name + y.name, x.arguments + y.arguments)
    ensures CallFor(a + [x, y] + b, i) == CallFor(a + [whole] + b, i)
  {
    CallForConcat(a + [x, y], b, i);
    CallForConcat(a + [whole], b, i);
    CallForConcat(a, [x, y], i);
    CallForConcat(a, [whole], i);
    assert [x, y] == [x] + [y];
    CallForConcat([x], [y], i);
    SingleFragment(x, i);
    SingleFragment(y, i);
    SingleFragment(whole, i);
    var c, d := CallFor(a, i), CallFor(b, i);
    assert x.index == i ==> c.id + (x.id + y.id) == c.id + x.id + y.id;
  }

  lemma OccursConcat(a: seq<Fragment>, b: seq<Fragment>, x: int)
    ensures Occurs(a + b, x) <==> Occurs(a, x) || Occurs(b, x)
  {
    if k :| 0 <= k < |a| && a[k].index == x {
      assert (a + b)[k] == a[k];
    }
    if k :| 0 <= k < |b| && b[k].index == x {
      assert (a + b)[|a| + k] == b[k];
    }
  }

  lemma SameOccurrences(a: seq<Fragment>, mid: seq<Fragment>, b: seq<Fragment>, x: int)
    ensures Occurs(a + mid + b, x) <==> Occurs(a, x) || Occurs(mid, x) || Occurs(b, x)
  {
    OccursConcat(a + mid, b, x);
    OccursConcat(a, mid, x);
  }

  /** A fragment may be split in two, each of its fields anywhere. */
  lemma SplitFragment(a: seq<Fragment>, x: Fragment, y: Fragment, b: seq<Fragment>)
    requires x.index == y.index
    ensures var whole := Fragment(x.index, x.id + y.id, x.name + y.name, x.arguments + y.arguments);
            AssembledCalls(a + [x, y] + b) == AssembledCalls(a + [whole] + b)
  {
    var whole := Fragment(x.index, x.id + y.id, x.name + y.name, x.arguments + y.arguments);
    var two, one := a + [x, y] + b, a + [whole] + b;
    FirstSeenAre(two);
    FirstSeenAre(one);
    forall i
      ensures CallFor(two, i) == CallFor(one, i) && (i in FirstSeen(two) <==> i in FirstSeen(one))
    {
      SplitCallFor(a, x, y, whole, b, i);
      SameOccurrences(a, [x, y], b, i);
      SameOccurrences(a, [whole], b, i);
      assert [x, y][0].index == [whole][0].index == [x, y][1].index;
    }
    CallsDetermined(two, one);
  }

  /** The fragments that arrive before the done marker, whatever choices and events carry them. */
  function ReceivedFragments(lines: seq<Line>): seq<Fragment> {
    Fragments(ChoicesOf(ReadLines(lines)))
  }

  /** Two responses that differ at most in their tool-call fragments and in how events and choices divide the texts. */
  ghost predicate SameApart(lines: seq<Line>, others: seq<Line>) {
    var a, b := ReadLines(lines), ReadLines(others);
    && (Broken in a <==> Broken in b)
    && LastUsage(a) == LastUsage(b)
    && Contents(ChoicesOf(a)) == Contents(ChoicesOf(b))
    && Reasonings(ChoicesOf(a)) == Reasonings(ChoicesOf(b))
    && LastFinish(ChoicesOf(a)) == LastFinish(ChoicesOf(b))
  }

  /**
   The answer depends only on the joined texts, the last finish reason and usage, and each index's own
   subsequence of fragments: fragments of different calls may move past each other and across events.
   */
  lemma AnswerDetermined(lines: seq<Line>, others: seq<Line>)
    requires SameApart(lines, others)
    requires forall i :: Own(ReceivedFragments(lines), i) == Own(ReceivedFragments(others), i)
    ensures ChatAnswer(lines) == ChatAnswer(others)
  {
    OwnSubsequencesSuffice(ReceivedFragments(lines), ReceivedFragments(others));
  }

  /** Swapping adjacent fragments of different calls leaves the answer as it is. */
  lemma SwappedAnswer(lines: seq<Line>, others: seq<Line>, a: seq<Fragment>, x: Fragment, y: Fragment,
                      b: seq<Fragment>)
    requires SameApart(lines, others) && x.index != y.index
    requires ReceivedFragments(lines) == a + [x, y] + b && ReceivedFragments(others) == a + [y, x] + b
    ensures ChatAnswer(lines) == ChatAnswer(others)
  {
    SwapFragments(a, x, y, b);
  }

  /** Splitting a fragment in two, even across choices or events, leaves the answer as it is. */
  lemma SplitAnswer(lines: seq<Line>, others: seq<Line>, a: seq<Fragment>, x: Fragment, y: Fragment,
                    b: seq<Fragment>)
    requires SameApart(lines, others) && x.index == y.index
    requires var whole := Fragment(x.index, x.id + y.id, x.name + y.name, x.arguments + y.arguments);
             ReceivedFragments(lines) == a + [x, y] + b && ReceivedFragments(others) == a + [whole] + b
    ensures ChatAnswer(lines) == ChatAnswer(others)
  {
    SplitFragment(a, x, y, b);
  }

  /** The calls of a message are listed by strictly increasing index, one for every index that occurs. */
  lemma CallsInIndexOrder(frs: seq<Fragment>)
    ensures AssembledCalls(frs).None? <==> frs == []
    ensures AssembledCalls(frs).Some? ==>
              var indices := SortedIndices(frs);
              && |AssembledCalls(frs).value| == |indices|
              && Increasing(indices)
              && (forall x :: x in indices <==> Occurs(frs, x))
              && forall k :: 0 <= k < |indices| ==> AssembledCalls(frs).value[k] == CallFor(frs, indices[k])
  {
    SortedIndicesAre(frs);
    FirstSeenAre(frs);
    if frs != [] {
      assert Occurs(frs, frs[0].index);
    }
  }

  lemma {:induction false} ReadLinesStop(lines: seq<Line>, more: seq<Line>)
    ensures ReadLines(lines + [DoneMarker] + more) == ReadLines(lines)
  {
    if lines == [] {
      assert (lines + [DoneMarker] + more)[0] == DoneMarker;
    } else if lines[0] != DoneMarker {
      assert (lines + [DoneMarker] + more)[1..] == lines[1..] + [DoneMarker] + more;
      ReadLinesStop(lines[1..], more);
    }
  }

  /** Lines after the done marker have no effect, and a missing marker does no harm. */
  lemma AnswerStops(lines: seq<Line>, more: seq<Line>)
    ensures ChatAnswer(lines + [DoneMarker] + more) == ChatAnswer(lines)
  {
    ReadLinesStop(lines, more);
  }

  // ----- The message, line by line -----

  /** Without a line the message is empty: no text, no call, no finish reason and no usage. */
  lemma EmptyAnswer()
    ensures ChatAnswer([]) == Some(Answer("", "", None, None, None)) && ReceivedFragments([]) == []
    ensures forall i :: CallFor([], i) == Call("", "", "")
  {
    SortedIndicesAre([]);
    assert SortedIndices([]) == [];
  }

  lemma {:induction false} AllRead(lines: seq<Line>)
    requires DoneMarker !in lines
    ensures ReadLines(lines) == lines
  {
    if lines != [] {
      AllRead(lines[1..]);
    }
  }

  lemma ReadWith(lines: seq<Line>, line: Line)
    requires DoneMarker !in lines && line != DoneMarker
    ensures ReadLines(lines) == lines && ReadLines(lines + [line]) == lines + [line]
    ensures Broken in lines + [line] <==> Broken in lines || line == Broken
  {
    AllRead(lines);
    AllRead(lines + [line]);
  }

  lemma ChoicesWith(choices: seq<Choice>, choice: Choice)
    ensures Contents(choices + [choice]) == Contents(choices) + choice.content
    ensures Reasonings(choices + [choice]) == Reasonings(choices) + choice.reasoning
    ensures Fragments(choices + [choice]) == Fragments(choices) + choice.fragments
    ensures LastFinish(choices + [choice]) == if choice.finish.Some? then choice.finish else LastFinish(choices)
  {
    assert (choices + [choice])[..|choices|] == choices;
  }

  /**
   An event with one choice, read before a done marker, extends each text of the message by that choice's
   own text and the fragments by its own; its finish reason and its usage win where it has them.
   */
  lemma EventExtends(lines: seq<Line>, usage: Option<int>, choice: Choice)
    requires DoneMarker !in lines
    ensures var more := lines + [Event(usage, [choice])];
            && ReceivedFragments(more) == ReceivedFragments(lines) + choice.fragments
            && (ChatAnswer(more).None? <==> ChatAnswer(lines).None?)
            && (ChatAnswer(lines).Some? ==>
                  var before := ChatAnswer(lines).value;
                  ChatAnswer(more).value
                  == Answer(before.content + choice.content, before.reasoning + choice.reasoning,
                            AssembledCalls(ReceivedFragments(lines) + choice.fragments),
                            if choice.finish.Some? then choice.finish else before.finish,
                            if usage.Some? then usage else before.usage))
  {
    hide ReadLines, ChoicesOf, LastUsage, Contents, Reasonings, Fragments, LastFinish, AssembledCalls;
    ReadWith(lines, Event(usage, [choice]));
    LinesStep(lines, Event(usage, [choice]));
    ChoicesWith(ChoicesOf(lines), choice);
  }

  /** An event without a choice brings its usage at most, and any other line that is not broken nothing. */
  lemma LinesWithoutChoice(lines: seq<Line>, usage: Option<int>)
    requires DoneMarker !in lines
    ensures ChatAnswer(lines + [Other]) == ChatAnswer(lines)
    ensures ChatAnswer(lines + [Event(usage, [])])
         == if ChatAnswer(lines).None? || usage.None? then ChatAnswer(lines)
            else Some(ChatAnswer(lines).value.(usage := usage))
    ensures ChatAnswer(lines + [Broken]) == None
  {
    hide ReadLines, ChoicesOf, LastUsage, AssembledCalls;
    ReadWith(lines, Other);
    ReadWith(lines, Broken);
    ReadWith(lines, Event(usage, []));
    LinesStep(lines, Other);
    LinesStep(lines, Event(usage, []));
    assert ChoicesOf(lines) + [] == ChoicesOf(lines);
  }

  /** Several choices count the same in one event as in two. */
  lemma EventDivides(lines: seq<Line>, usage: Option<int>, some: seq<Choice>, others: seq<Choice>)
    requires DoneMarker !in lines
    ensures ChatAnswer(lines + [Event(usage, some + others)])
         == ChatAnswer(lines + [Event(usage, some)] + [Event(None, others)])
  {
    hide ReadLines, ChoicesOf, LastUsage, AnswerFrom;
    var first, second := Event(usage, some), Event(None, others);
    ReadWith(lines, Event(usage, some + others));
    ReadWith(lines, first);
    ReadWith(lines + [first], second);
    LinesStep(lines, Event(usage, some + others));
    LinesStep(lines, first);
    LinesStep(lines + [first], second);
    assert ChoicesOf(lines) + (some + others) == ChoicesOf(lines) + some + others;
  }

  /** A fragment extends the three fields of its own call, each by its own, and no other call. */
  lemma FragmentExtends(frs: seq<Fragment>, f: Fragment, i: int)
    ensures var before, after := CallFor(frs, i), CallFor(frs + [f], i);
            && (f.index != i ==> after == before)
            && (f.index == i ==> after.id == before.id + f.id && after.name == before.name + f.name
                                 && after.arguments == before.arguments + f.arguments)
  {
    CallForStep(frs, f, i);
  }
}
