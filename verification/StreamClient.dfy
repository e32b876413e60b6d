/** The streaming benchmark client: consuming one event stream, and aggregating the concurrent requests. */
module StreamClient {
  import opened Wrappers
  import opened Statistics

  /** A usage that is no object is kept like any other, and raises when its counts are read. */
  datatype Usage = Usage(promptTokens: Option<int>, completionTokens: Option<int>) | NoObject

  /**
   The text of a choice. JSON also brings strings with lone surrogates and values that are no strings;
   unless empty, those are kept too and raise when the texts are joined and encoded.
   */
  datatype Piece = Text(s: string) | Unencodable

  /**
   A line of the response body. Only `data:` lines count; an `Event` is a JSON object with its top-level
   error and usage, if not null, and the texts of its choices. Any other JSON raises when it is read.
   */
  datatype Line = Other | DoneMarker | Malformed | NotAnEvent
                | Event(error: Option<string>, usage: Option<Usage>, texts: seq<Piece>)

  /** A line and the clock when it is handled. */
  datatype TimedLine = TimedLine(line: Line, at: real)

  datatype Failure = StreamError(message: string) | MalformedData | Raised | NoDone(bytes: nat)

  datatype Row = OkRow(duration: real, ttft: Option<real>, decode: Option<real>, promptTokens: Option<int>,
                       completionTokens: Option<int>, textBytes: nat)
               | BadRow(failure: Failure)

  // ----- One stream -----

  /** The length of a text in UTF-8. */
  function Utf8Length(s: string): (n: nat)
    ensures n == 0 <==> s == ""
  {
    if s == [] then 0
    else
      var c := s[0] as int;
      (if c < 0x80 then 1 else if c < 0x800 then 2 else if c < 0x10000 then 3 else 4) + Utf8Length(s[1..])
  }

  /** Lines at which the loop stops. */
  predicate Stops(line: Line) {
    line.DoneMarker? || line.Malformed? || line.NotAnEvent? || (line.Event? && line.error.Some?)
  }

  function StopIndex(lines: seq<TimedLine>): (n: nat)
    ensures n <= |lines|
    ensures forall i :: 0 <= i < n ==> !Stops(lines[i].line)
    ensures n < |lines| ==> Stops(lines[n].line)
  {
    if lines == [] || Stops(lines[0].line) then 0 else 1 + StopIndex(lines[1..])
  }

  /** The pieces kept: those that are not empty. */
  function Kept(texts: seq<Piece>): seq<Piece> {
    if texts == [] then []
    else Kept(texts[..|texts| - 1]) + if texts[|texts| - 1] == Text("") then [] else [texts[|texts| - 1]]
  }

  /** The kept pieces as one string, if all of them can be encoded. */
  function Joined(pieces: seq<Piece>): Option<string> {
    if pieces == [] then Some("")
    else
      match pieces[|pieces| - 1]
      case Unencodable => None
      case Text(s) =>
        match Joined(pieces[..|pieces| - 1])
        case None => None
        case Some(before) => Some(before + s)
  }

  function PiecesOf(line: Line): seq<Piece> {
    if line.Event? then Kept(line.texts) else []
  }

  function PiecesUpTo(lines: seq<TimedLine>, n: nat): seq<Piece>
    requires n <= |lines|
  {
    if n == 0 then [] else PiecesUpTo(lines, n - 1) + PiecesOf(lines[n - 1].line)
  }

  function UsageUpTo(lines: seq<TimedLine>, n: nat): Usage
    requires n <= |lines|
  {
    if n == 0 then Usage(None, None)
    else
      var line := lines[n - 1].line;
      if line.Event? && line.usage.Some? then line.usage.value else UsageUpTo(lines, n - 1)
  }

  function FirstTextUpTo(lines: seq<TimedLine>, n: nat): Option<real>
    requires n <= |lines|
  {
    if n == 0 then None
    else
      var before := FirstTextUpTo(lines, n - 1);
      if before.Some? || PiecesOf(lines[n - 1].line) == [] then before else Some(lines[n - 1].at)
  }

  function Max0(r: real): real {
    if r > 0.0 then r else 0.0
  }

  /** What follows the done marker: reading the token counts, then encoding the text; either may raise. */
  function Completed(usage: Usage, pieces: seq<Piece>, first: Option<real>, start: real, end: real): Row {
    var text := Joined(pieces);
    if usage.NoObject? || text.None? then BadRow(Raised)
    else
      OkRow(end - start,
            if first.Some? then Some(first.value - start) else None,
            if first.Some? then Some(Max0((end - start) - (first.value - start))) else None,
            usage.promptTokens, usage.completionTokens, Utf8Length(text.value))
  }

  /** Without a done marker the text received is still encoded, for the message. */
  function Unfinished(pieces: seq<Piece>): Failure {
    match Joined(pieces)
    case None => Raised
    case Some(text) => NoDone(Utf8Length(text))
  }

  /** What is wrong with the line at which the loop stopped, if anything. */
  function StopFailure(line: Line): Option<Failure>
    requires Stops(line)
  {
    match line
    case DoneMarker => None
    case Malformed => Some(MalformedData)
    case Event(error, _, _) => Some(StreamError(error.value))
    case _ => Some(Raised)
  }

  /** The row of a stream, from the line at which it stopped. */
  function StreamRow(lines: seq<TimedLine>, start: real, end: real): Row {
    var n := StopIndex(lines);
    if n == |lines| then BadRow(Unfinished(PiecesUpTo(lines, n)))
    else if StopFailure(lines[n].line).Some? then BadRow(StopFailure(lines[n].line).value)
    else Completed(UsageUpTo(lines, n), PiecesUpTo(lines, n), FirstTextUpTo(lines, n), start, end)
  }

  method AddTexts(texts: seq<Piece>, at: real, firstToken: Option<real>, parts: seq<Piece>)
      returns (first: Option<real>, all: seq<Piece>)
    ensures all == parts + Kept(texts)
    ensures first == if firstToken.Some? || Kept(texts) == [] then firstToken else Some(at)
  {
    first, all := firstToken, parts;
    for i := 0 to |texts|
      invariant all == parts + Kept(texts[..i])
      invariant first == if firstToken.Some? || Kept(texts[..i]) == [] then firstToken else Some(at)
    {
      assert texts[..i + 1][..i] == texts[..i];
      if texts[i] != Text("") {
        if first.None? {
          first := Some(at);
        }
        all := all + [texts[i]];
      }
    }
    assert texts[..|texts|] == texts;
  }

  lemma StopsHere(lines: seq<TimedLine>, i: nat)
    requires i < |lines| && i <= StopIndex(lines)
    ensures Stops(lines[i].line) <==> StopIndex(lines) == i
    ensures !Stops(lines[i].line) ==> i < StopIndex(lines)
  {
  }

  lemma UpToStart(lines: seq<TimedLine>)
    ensures PiecesUpTo(lines, 0) == [] && UsageUpTo(lines, 0) == Usage(None, None)
    ensures FirstTextUpTo(lines, 0) == None
  {
  }

  lemma UpToStep(lines: seq<TimedLine>, i: nat)
    requires i < |lines|
    ensures var line := lines[i].line;
            && PiecesUpTo(lines, i + 1) == PiecesUpTo(lines, i) + PiecesOf(line)
            && UsageUpTo(lines, i + 1)
               == (if line.Event? && line.usage.Some? then line.usage.value else UsageUpTo(lines, i))
            && FirstTextUpTo(lines, i + 1)
               == if FirstTextUpTo(lines, i).Some? || PiecesOf(line) == [] then FirstTextUpTo(lines, i)
                  else Some(lines[i].at)
  {
  }

  /** The loop of `consume_stream`. */
  method ReadStream(lines: seq<TimedLine>)
      returns (firstToken: Option<real>, usage: Usage, parts: seq<Piece>, sawDone: bool, error: Option<Failure>)
    ensures var n := StopIndex(lines);
            && firstToken == FirstTextUpTo(lines, n)
            && usage == UsageUpTo(lines, n)
            && parts == PiecesUpTo(lines, n)
            && error == (if n == |lines| then None else StopFailure(lines[n].line))
            && (sawDone <==> n < |lines| && error.None?)
  {
    hide StopIndex, PiecesUpTo, UsageUpTo, FirstTextUpTo, Kept;
    firstToken, usage, parts, sawDone, error := None, Usage(None, None), [], false, None;
    var i := 0;
    UpToStart(lines);
    while i < |lines|
      invariant 0 <= i <= StopIndex(lines) && !sawDone && error.None?
      invariant firstToken == FirstTextUpTo(lines, i)
      invariant usage == UsageUpTo(lines, i)
      invariant parts == PiecesUpTo(lines, i)
    {
      var line := lines[i].line;
      StopsHere(lines, i);
      UpToStep(lines, i);
      if line.DoneMarker? {
        sawDone := true;
        break;
      }
      if line.Malformed? {
        error := Some(MalformedData);
        break;
      }
      if line.NotAnEvent? {
        error := Some(Raised);
        break;
      }
      if line.Event? {
        if line.error.Some? {
          error := Some(StreamError(line.error.value));
          break;
        }
        if line.usage.Some? {
          usage := line.usage.value;
        }
        firstToken, parts := AddTexts(line.texts, lines[i].at, firstToken, parts);
      }
      i := i + 1;
    }
  }

  /** `consume_stream`, within `stream_one` that turns an exception into a failed row. */
  method ConsumeStream(lines: seq<TimedLine>, start: real, end: real) returns (row: Row)
    ensures row == StreamRow(lines, start, end)
  {
    hide StopIndex, PiecesUpTo, UsageUpTo, FirstTextUpTo, Joined, Utf8Length, StopFailure;
    var firstToken, usage, parts, sawDone, error := ReadStream(lines);
    if error.Some? {
      return BadRow(error.value);
    }
    var text := Joined(parts);
    if !sawDone {
      return BadRow(if text.None? then Raised else NoDone(Utf8Length(text.value)));
    }
    if usage.NoObject? {
      return BadRow(Raised);
    }
    var duration := end - start;
    var ttft := if firstToken.None? then None else Some(firstToken.value - start);
    var decode := if ttft.None? then None else Some(Max0(duration - ttft.value));
    if text.None? {
      return BadRow(Raised);
    }
    return OkRow(duration, ttft, decode, usage.promptTokens, usage.completionTokens, Utf8Length(text.value));
  }

  lemma InInitOrLast<T>(s: seq<T>, x: T)
    requires s != []
    ensures x in s <==> x in s[..|s| - 1] || x == s[|s| - 1]
  {
    assert s == s[..|s| - 1] + [s[|s| - 1]];
  }

  lemma {:induction false} KeptAre(texts: seq<Piece>, piece: Piece)
    ensures piece in Kept(texts) <==> piece in texts && piece != Text("")
  {
    if texts != [] {
      KeptAre(texts[..|texts| - 1], piece);
      InInitOrLast(texts, piece);
    }
  }

  lemma {:induction false} JoinedSucceeds(pieces: seq<Piece>)
    ensures Joined(pieces).Some? <==> Unencodable !in pieces
    ensures Text("") !in pieces && Joined(pieces).Some? ==> (Joined(pieces).value == "" <==> pieces == [])
  {
    if pieces != [] {
      JoinedSucceeds(pieces[..|pieces| - 1]);
      InInitOrLast(pieces, Unencodable);
      InInitOrLast(pieces, Text(""));
    }
  }

  function TextsOf(line: Line): seq<Piece> {
    if line.Event? then line.texts else []
  }

  lemma {:induction false} PiecesUpToAre(lines: seq<TimedLine>, n: nat, piece: Piece)
    requires n <= |lines|
    ensures piece in PiecesUpTo(lines, n) <==>
            piece != Text("") && exists i :: 0 <= i < n && piece in TextsOf(lines[i].line)
  {
    hide Kept;
    if n > 0 {
      PiecesUpToAre(lines, n - 1, piece);
      KeptAre(TextsOf(lines[n - 1].line), piece);
      assert piece in PiecesUpTo(lines, n) <==>
          piece in PiecesUpTo(lines, n - 1) || piece in PiecesOf(lines[n - 1].line);
      if piece in TextsOf(lines[n - 1].line) {
        assert piece in TextsOf(lines[n - 1].line);
      }
    }
  }

  ghost predicate BringsUsage(line: Line, usage: Usage) {
    line.Event? && line.usage == Some(usage)
  }

  /** The last usage before line `n` is no object. */
  ghost predicate EndsWithoutObject(lines: seq<TimedLine>, n: nat)
    requires n <= |lines|
  {
    exists i :: 0 <= i < n && BringsUsage(lines[i].line, NoObject)
                && forall j :: i < j < n ==> lines[j].line.Event? ==> lines[j].line.usage.None?
  }

  lemma {:induction false} UsageUpToIs(lines: seq<TimedLine>, n: nat)
    requires n <= |lines|
    ensures UsageUpTo(lines, n).NoObject? <==> EndsWithoutObject(lines, n)
  {
    if n > 0 {
      var line := lines[n - 1].line;
      if line.Event? && line.usage.Some? {
        assert BringsUsage(line, NoObject) <==> line.usage.value.NoObject?;
        assert EndsWithoutObject(lines, n) <==> BringsUsage(lines[n - 1].line, NoObject);
      } else {
        UsageUpToIs(lines, n - 1);
        assert EndsWithoutObject(lines, n) <==> EndsWithoutObject(lines, n - 1);
      }
    }
  }

  /** Lines that leave a stream on its way to success. */
  predicate Harmless(line: Line) {
    line.Other? || (line.Event? && line.error.None? && Unencodable !in line.texts)
  }

  /** The stream may end well at `d`: a done marker after harmless lines of which the last usage is an object. */
  ghost predicate EndsWell(lines: seq<TimedLine>, d: nat)
    requires d < |lines|
  {
    && lines[d].line.DoneMarker?
    && (forall i :: 0 <= i < d ==> Harmless(lines[i].line))
    && !EndsWithoutObject(lines, d)
  }

  lemma EndsWellAtStop(lines: seq<TimedLine>, d: nat)
    requires d < |lines| && EndsWell(lines, d)
    ensures d == StopIndex(lines)
  {
    var n := StopIndex(lines);
    assert n <= d;
    assert n < d ==> Harmless(lines[n].line);
  }

  lemma HarmlessUpToStop(lines: seq<TimedLine>)
    ensures var n := StopIndex(lines);
            (forall i :: 0 <= i < n ==> Harmless(lines[i].line)) <==> Unencodable !in PiecesUpTo(lines, n)
  {
    hide StopIndex, PiecesUpTo;
    var n := StopIndex(lines);
    PiecesUpToAre(lines, n, Unencodable);
    forall i | 0 <= i < n
      ensures Harmless(lines[i].line) <==> Unencodable !in TextsOf(lines[i].line)
    {
      assert !Stops(lines[i].line);
    }
  }

  /**
   A stream is ok exactly when a done marker comes, nothing before it is malformed, an error or a text that
   cannot be encoded, and the last usage before it, if there is one, is an object.
   */
  lemma {:induction false} OkExactly(lines: seq<TimedLine>, start: real, end: real)
    ensures StreamRow(lines, start, end).OkRow? <==> exists d :: 0 <= d < |lines| && EndsWell(lines, d)
  {
    hide StopIndex, PiecesUpTo, UsageUpTo, FirstTextUpTo, Joined, Utf8Length, EndsWithoutObject, Harmless;
    var n := StopIndex(lines);
    JoinedSucceeds(PiecesUpTo(lines, n));
    UsageUpToIs(lines, n);
    HarmlessUpToStop(lines);
    if d :| 0 <= d < |lines| && EndsWell(lines, d) {
      EndsWellAtStop(lines, d);
    }
    assert n < |lines| ==> (StreamRow(lines, start, end).OkRow? <==> EndsWell(lines, n));
  }

  lemma StopIndexPrefix(lines: seq<TimedLine>, k: nat)
    requires k <= |lines|
    ensures StopIndex(lines[..k]) == if k <= StopIndex(lines) then k else StopIndex(lines)
  {
    hide StopIndex, Stops;
    var n, p := StopIndex(lines), StopIndex(lines[..k]);
    assert p < k ==> Stops(lines[p].line);
    assert n < k ==> lines[..k][n] == lines[n];
  }

  lemma {:induction false} UpToPrefix(lines: seq<TimedLine>, k: nat, n: nat)
    requires n <= k <= |lines|
    ensures PiecesUpTo(lines[..k], n) == PiecesUpTo(lines, n)
    ensures UsageUpTo(lines[..k], n) == UsageUpTo(lines, n)
    ensures FirstTextUpTo(lines[..k], n) == FirstTextUpTo(lines, n)
  {
    if n > 0 {
      UpToPrefix(lines, k, n - 1);
    }
  }

  /**
   What an ok stream yields is settled at its done marker: a stream cut before it fails, and one cut
   anywhere after it, or continued in any way, gives the same row.
   */
  lemma {:induction false} CutStream(lines: seq<TimedLine>, k: nat, start: real, end: real)
    requires StreamRow(lines, start, end).OkRow? && k <= |lines|
    ensures k <= StopIndex(lines) ==> StreamRow(lines[..k], start, end).BadRow?
    ensures k > StopIndex(lines) ==> StreamRow(lines[..k], start, end) == StreamRow(lines, start, end)
  {
    hide StopIndex, PiecesUpTo, UsageUpTo, FirstTextUpTo, Utf8Length;
    StopIndexPrefix(lines, k);
    if k > StopIndex(lines) {
      UpToPrefix(lines, k, StopIndex(lines));
    }
  }

  lemma {:induction false} FirstTextTime(lines: seq<TimedLine>, n: nat, low: real, high: real)
    requires n <= |lines| && forall i :: 0 <= i < n ==> low <= lines[i].at <= high
    ensures FirstTextUpTo(lines, n).Some? ==> low <= FirstTextUpTo(lines, n).value <= high
    ensures FirstTextUpTo(lines, n).Some? <==> PiecesUpTo(lines, n) != []
  {
    hide PiecesOf;
    if n > 0 {
      FirstTextTime(lines, n - 1, low, high);
      UpToStep(lines, n - 1);
    }
  }

  /** With a clock that never steps back, the two times add up to the duration, exactly when text arrived. */
  lemma {:induction false} TimesAddUp(lines: seq<TimedLine>, start: real, end: real)
    requires StreamRow(lines, start, end).OkRow?
    requires start <= end && forall i :: 0 <= i < |lines| ==> start <= lines[i].at <= end
    ensures var row := StreamRow(lines, start, end);
            && (row.ttft.Some? <==> row.textBytes > 0)
            && (row.ttft.Some? <==> row.decode.Some?)
            && (row.ttft.Some? ==> row.ttft.value >= 0.0 && row.ttft.value + row.decode.value == row.duration)
  {
    hide StopIndex, PiecesUpTo, UsageUpTo, FirstTextUpTo, Joined, Utf8Length;
    var n := StopIndex(lines);
    FirstTextTime(lines, n, start, end);
    PiecesUpToAre(lines, n, Text(""));
    JoinedSucceeds(PiecesUpTo(lines, n));
  }

  // ----- All concurrent requests -----

  datatype RunStatus = AllOk | Partial | AllFailed

  /** The aggregated columns of the result row. */
  datatype Summary = Summary(promptTokensPerRequest: Option<real>, requestsOk: nat, requestsFailed: nat,
                             status: RunStatus, totalPrompt: real, totalCompletion: real, totalRate: Option<real>,
                             ttftMean: Option<real>, ttftP50: Option<real>, ttftP95: Option<real>,
                             decodeMean: Option<real>, decodeRateMean: Option<real>, outputRateMean: Option<real>,
                             errors: seq<Failure>)

  function OkPart(row: Row): Option<Row> {
    if row.OkRow? then Some(row) else None
  }

  function BadPart(row: Row): Option<Failure> {
    if row.BadRow? then Some(row.failure) else None
  }

  function ToReal(n: Option<int>): Option<real> {
    if n.Some? then Some(n.value as real) else None
  }

  function PromptTokens(row: Row): Option<real> {
    if row.OkRow? then ToReal(row.promptTokens) else None
  }

  function CompletionTokens(row: Row): Option<real> {
    if row.OkRow? then ToReal(row.completionTokens) else None
  }

  function Ttft(row: Row): Option<real> {
    if row.OkRow? then row.ttft else None
  }

  function Decode(row: Row): Option<real> {
    if row.OkRow? then row.decode else None
  }

  function OutputRate(row: Row): Option<real> {
    if row.OkRow? && row.completionTokens.Some? && row.duration > 0.0
    then Some(row.completionTokens.value as real / row.duration) else None
  }

  function DecodeRate(row: Row): Option<real> {
    if row.OkRow? && row.completionTokens.Some? && row.decode.Some? && row.decode.value > 0.0
    then Some(Max0((row.completionTokens.value - 1) as real) / row.decode.value) else None
  }

  function StatusOf(ok: nat, failed: nat): RunStatus {
    if ok > 0 && failed == 0 then AllOk else if ok > 0 then Partial else AllFailed
  }

  function Summarize(rows: seq<Row>, wall: real): Summary {
    var ok, bad := Collect(OkPart, rows), Collect(BadPart, rows);
    var completion := Sum(Collect(CompletionTokens, rows));
    var ttfts := Collect(Ttft, rows);
    Summary(Median(Collect(PromptTokens, rows)), |ok|, |bad|, StatusOf(|ok|, |bad|),
            Sum(Collect(PromptTokens, rows)), completion, if wall > 0.0 then Some(completion / wall) else None,
            Mean(ttfts), Percentile(ttfts, 50.0), Percentile(ttfts, 95.0), Mean(Collect(Decode, rows)),
            Mean(Collect(DecodeRate, rows)), Mean(Collect(OutputRate, rows)), bad)
  }

  lemma {:induction false} CollectOkOnly<B>(f: Row -> Option<B>, rows: seq<Row>)
    requires forall r: Row :: r.BadRow? ==> f(r).None?
    ensures Collect(f, Collect(OkPart, rows)) == Collect(f, rows)
  {
    if rows != [] {
      CollectOkOnly(f, rows[1..]);
      var rest := Collect(OkPart, rows[1..]);
      assert Collect(OkPart, rows) == if rows[0].OkRow? then [rows[0]] + rest else rest;
      assert rows[0].OkRow? ==> ([rows[0]] + rest)[1..] == rest;
    }
  }

  lemma CollectStep<A, B>(f: A -> Option<B>, s: seq<A>, i: nat)
    requires i < |s|
    ensures Collect(f, s[..i + 1]) == Collect(f, s[..i]) + (if f(s[i]).Some? then [f(s[i]).value] else [])
  {
    assert s[..i + 1] == s[..i] + [s[i]];
    CollectConcat(f, s[..i], [s[i]]);
  }

  /** The loop over the ok rows that collects the rates. */
  method Rates(okRows: seq<Row>) returns (decodeRates: seq<real>, outputRates: seq<real>)
    requires forall i :: 0 <= i < |okRows| ==> okRows[i].OkRow?
    ensures decodeRates == Collect(DecodeRate, okRows) && outputRates == Collect(OutputRate, okRows)
  {
    decodeRates, outputRates := [], [];
    for i := 0 to |okRows|
      invariant decodeRates == Collect(DecodeRate, okRows[..i])
      invariant outputRates == Collect(OutputRate, okRows[..i])
    {
      hide Collect;
      var row := okRows[i];
      CollectStep(DecodeRate, okRows, i);
      CollectStep(OutputRate, okRows, i);
      if row.completionTokens.None? {
        continue;
      }
      var tokens := row.completionTokens.value;
      if row.duration > 0.0 {
        outputRates := outputRates + [tokens as real / row.duration];
      }
      if row.decode.Some? && row.decode.value > 0.0 {
        decodeRates := decodeRates + [Max0((tokens - 1) as real) / row.decode.value];
      }
    }
    assert okRows[..|okRows|] == okRows;
  }

  /** All columns but counts and errors are collected from the ok rows alone. */
  lemma OkRowsSuffice(rows: seq<Row>)
    ensures var ok := Collect(OkPart, rows);
            && Collect(PromptTokens, ok) == Collect(PromptTokens, rows)
            && Collect(CompletionTokens, ok) == Collect(CompletionTokens, rows)
            && Collect(Ttft, ok) == Collect(Ttft, rows)
            && Collect(Decode, ok) == Collect(Decode, rows)
            && Collect(DecodeRate, ok) == Collect(DecodeRate, rows)
            && Collect(OutputRate, ok) == Collect(OutputRate, rows)
  {
    hide Collect;
    CollectOkOnly(PromptTokens, rows);
    CollectOkOnly(CompletionTokens, rows);
    CollectOkOnly(Ttft, rows);
    CollectOkOnly(Decode, rows);
    CollectOkOnly(DecodeRate, rows);
    CollectOkOnly(OutputRate, rows);
  }

  lemma {:induction false} OkRowsAreOk(rows: seq<Row>)
    ensures forall i :: 0 <= i < |Collect(OkPart, rows)| ==> Collect(OkPart, rows)[i].OkRow?
  {
    if rows != [] {
      OkRowsAreOk(rows[1..]);
    }
  }

  /** `aggregate`, given the results in the order of their completion and the elapsed wall time. */
  method Aggregate(completed: seq<Row>, wall: real) returns (summary: Summary)
    ensures summary == Summarize(completed, wall)
  {
    var rows: seq<Row> := [];
    for i := 0 to |completed|
      invariant rows == completed[..i]
    {
      rows := rows + [completed[i]];
    }
    assert rows == completed;
    hide Collect, Sum, Mean, Median, Percentile;
    var okRows, badRows := Collect(OkPart, rows), Collect(BadPart, rows);
    OkRowsAreOk(rows);
    OkRowsSuffice(rows);
    var promptTokens := Collect(PromptTokens, okRows);
    var completionTokens := Collect(CompletionTokens, okRows);
    var ttfts := Collect(Ttft, okRows);
    var decodes := Collect(Decode, okRows);
    var decodeRates, outputRates := Rates(okRows);
    var total := Sum(completionTokens);
    summary := Summary(Median(promptTokens), |okRows|, |badRows|, StatusOf(|okRows|, |badRows|),
                       Sum(promptTokens), total, if wall > 0.0 then Some(total / wall) else None,
                       Mean(ttfts), Percentile(ttfts, 50.0), Percentile(ttfts, 95.0), Mean(decodes),
                       Mean(decodeRates), Mean(outputRates), badRows);
  }

  lemma {:induction false} OkOrBad(rows: seq<Row>)
    ensures |Collect(OkPart, rows)| + |Collect(BadPart, rows)| == |rows|
  {
    if rows != [] {
      OkOrBad(rows[1..]);
    }
  }

  /** Every request is counted once, as ok or as failed. */
  lemma EveryRequestCounted(rows: seq<Row>, wall: real)
    ensures Summarize(rows, wall).requestsOk + Summarize(rows, wall).requestsFailed == |rows|
  {
    hide Collect, Sum, Mean, Median, Percentile;
    OkOrBad(rows);
  }

  lemma StatisticsPermutation(xs: seq<real>, ys: seq<real>)
    requires multiset(xs) == multiset(ys)
    ensures Mean(xs) == Mean(ys) && Median(xs) == Median(ys) && Sum(xs) == Sum(ys)
    ensures Percentile(xs, 50.0) == Percentile(ys, 50.0) && Percentile(xs, 95.0) == Percentile(ys, 95.0)
  {
    SortedPermutation(xs, ys);
    SumPermutation(xs, ys);
  }

  lemma CollectedStatistics(f: Row -> Option<real>, rows: seq<Row>, others: seq<Row>)
    requires multiset(rows) == multiset(others)
    ensures var xs, ys := Collect(f, rows), Collect(f, others);
            && Mean(xs) == Mean(ys) && Median(xs) == Median(ys) && Sum(xs) == Sum(ys)
            && Percentile(xs, 50.0) == Percentile(ys, 50.0) && Percentile(xs, 95.0) == Percentile(ys, 95.0)
  {
    CollectPermutes(f, rows, others);
    StatisticsPermutation(Collect(f, rows), Collect(f, others));
  }

  /** In whatever order the requests complete, all columns but the order of the errors are the same. */
  lemma {:induction false} CompletionOrderIrrelevant(rows: seq<Row>, others: seq<Row>, wall: real)
    requires multiset(rows) == multiset(others)
    ensures Summarize(rows, wall).(errors := []) == Summarize(others, wall).(errors := [])
    ensures multiset(Summarize(rows, wall).errors) == multiset(Summarize(others, wall).errors)
  {
    CollectPermutes(OkPart, rows, others);
    CollectPermutes(BadPart, rows, others);
    assert |multiset(Collect(OkPart, rows))| == |multiset(Collect(OkPart, others))|;
    assert |multiset(Collect(BadPart, rows))| == |multiset(Collect(BadPart, others))|;
    CollectedStatistics(PromptTokens, rows, others);
    CollectedStatistics(CompletionTokens, rows, others);
    CollectedStatistics(Ttft, rows, others);
    CollectedStatistics(Decode, rows, others);
    CollectedStatistics(DecodeRate, rows, others);
    CollectedStatistics(OutputRate, rows, others);
  }

  lemma {:induction false} NoneBad(rows: seq<Row>)
    ensures Collect(BadPart, Collect(OkPart, rows)) == []
  {
    if rows != [] {
      NoneBad(rows[1..]);
      var rest := Collect(OkPart, rows[1..]);
      assert Collect(OkPart, rows) == if rows[0].OkRow? then [rows[0]] + rest else rest;
      assert rows[0].OkRow? ==> ([rows[0]] + rest)[1..] == rest;
    }
  }

  /** Leaving the failed requests out changes only their count, the status and the errors. */
  lemma {:induction false} FailedContributeNothing(rows: seq<Row>, wall: real)
    ensures var all := Summarize(rows, wall);
            Summarize(Collect(OkPart, rows), wall)
            == all.(requestsFailed := 0, errors := [], status := StatusOf(all.requestsOk, 0))
  {
    hide Collect, Sum, Mean, Median, Percentile;
    CollectOkOnly(OkPart, rows);
    OkRowsSuffice(rows);
    NoneBad(rows);
  }
}
