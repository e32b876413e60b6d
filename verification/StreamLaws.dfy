/** What every column of a stream's row and of the aggregated summary says, column by column. */
module StreamLaws {
  import opened Wrappers
  import opened Orders
  import opened Statistics
  import opened StreamClient

  // ----- UTF-8 -----

  /** The bytes of a character, as in section 3 of RFC 3629. */
  function Encoded(c: char): (bytes: seq<int>)
    ensures 1 <= |bytes| <= 4 && forall i :: 0 <= i < |bytes| ==> 0 <= bytes[i] < 256
  {
    var n := c as int;
    if n < 0x80 then [n]
    else if n < 0x800 then [0xC0 + n / 0x40, 0x80 + n % 0x40]
    else
      var m := n / 0x40;
      if n < 0x10000 then [0xE0 + m / 0x40, 0x80 + m % 0x40, 0x80 + n % 0x40]
      else [0xF0 + m / 0x40 / 0x40, 0x80 + m / 0x40 % 0x40, 0x80 + m % 0x40, 0x80 + n % 0x40]
  }

  /** The code point that the bytes spell: the payload bits behind the marks. */
  function Decoded(bytes: seq<int>): int
    requires 1 <= |bytes| <= 4
  {
    if |bytes| == 1 then bytes[0]
    else if |bytes| == 2 then (bytes[0] - 0xC0) * 0x40 + (bytes[1] - 0x80)
    else if |bytes| == 3 then ((bytes[0] - 0xE0) * 0x40 + (bytes[1] - 0x80)) * 0x40 + (bytes[2] - 0x80)
    else (((bytes[0] - 0xF0) * 0x40 + (bytes[1] - 0x80)) * 0x40 + (bytes[2] - 0x80)) * 0x40 + (bytes[3] - 0x80)
  }

  lemma LastSix(n: nat)
    ensures n == n / 0x40 * 0x40 + n % 0x40
  {
  }

  lemma EncodedDecodes(c: char)
    ensures Decoded(Encoded(c)) == c as int
  {
    var n := c as int;
    LastSix(n);
    LastSix(n / 0x40);
    LastSix(n / 0x40 / 0x40);
    if n < 0x80 {
      assert Encoded(c) == [n];
    } else if n < 0x800 {
      assert |Encoded(c)| == 2;
    } else if n < 0x10000 {
      assert |Encoded(c)| == 3;
    } else {
      assert |Encoded(c)| == 4;
    }
  }

  function EncodedText(s: string): seq<int> {
    if s == "" then [] else Encoded(s[0]) + EncodedText(s[1..])
  }

  /** The length counted for a text is the number of bytes of its encoding. */
  lemma {:induction false} Utf8LengthIs(s: string)
    ensures Utf8Length(s) == |EncodedText(s)|
  {
    if s != "" {
      Utf8LengthIs(s[1..]);
    }
  }

  // ----- The row of one stream -----

  /** The texts of an event, one after the other. */
  function Concatenated(texts: seq<Piece>): string {
    if texts == [] then ""
    else (if texts[0].Text? then texts[0].s else "") + Concatenated(texts[1..])
  }

  function TextBefore(lines: seq<TimedLine>, n: nat): string
    requires n <= |lines|
  {
    if n == 0 then "" else TextBefore(lines, n - 1) + Concatenated(TextsOf(lines[n - 1].line))
  }

  lemma NothingKept()
    ensures Kept([]) == [] && Joined([]) == Some("") && Concatenated([]) == ""
  {
  }

  lemma ConcatenatedStep(texts: seq<Piece>)
    requires texts != []
    ensures Concatenated(texts) == (if texts[0].Text? then texts[0].s else "") + Concatenated(texts[1..])
  {
  }

  lemma {:induction false} ConcatenatedLast(texts: seq<Piece>, p: Piece)
    ensures Concatenated(texts + [p]) == Concatenated(texts) + if p.Text? then p.s else ""
  {
    hide Concatenated;
    if texts == [] {
      assert texts + [p] == [p];
      ConcatenatedStep([p]);
      NothingKept();
      assert [p][1..] == [];
    } else {
      assert (texts + [p])[1..] == texts[1..] + [p];
      assert (texts + [p])[0] == texts[0];
      ConcatenatedLast(texts[1..], p);
      ConcatenatedStep(texts);
      ConcatenatedStep(texts + [p]);
      Associative(if texts[0].Text? then texts[0].s else "", Concatenated(texts[1..]), if p.Text? then p.s else "");
    }
  }

  lemma JoinedLast(pieces: seq<Piece>, p: Piece)
    ensures Joined(pieces + [p])
         == if p.Unencodable? || Joined(pieces).None? then None else Some(Joined(pieces).value + p.s)
  {
    assert (pieces + [p])[..|pieces|] == pieces;
  }

  lemma NothingAdded(s: string)
    ensures s + "" == s
  {
  }

  lemma {:induction false} JoinedConcat(a: seq<Piece>, b: seq<Piece>)
    requires Joined(a + b).Some?
    ensures Joined(a).Some? && Joined(b).Some? && Joined(a + b).value == Joined(a).value + Joined(b).value
  {
    hide Joined;
    NothingKept();
    if b == [] {
      assert a + b == a;
      NothingAdded(Joined(a).value);
    } else {
      var init, p := b[..|b| - 1], b[|b| - 1];
      assert a + b == (a + init) + [p] && b == init + [p];
      JoinedLast(a + init, p);
      JoinedLast(init, p);
      JoinedConcat(a, init);
      Associative(Joined(a).value, Joined(init).value, p.s);
    }
  }

  lemma KeptLast(texts: seq<Piece>, p: Piece)
    ensures Kept(texts + [p]) == if p == Text("") then Kept(texts) else Kept(texts) + [p]
  {
    assert (texts + [p])[..|texts|] == texts;
  }

  lemma {:induction false} JoinedKept(texts: seq<Piece>)
    requires Joined(Kept(texts)).Some?
    ensures Joined(Kept(texts)).value == Concatenated(texts)
  {
    hide *;
    NothingKept();
    if texts != [] {
      var init, p := texts[..|texts| - 1], texts[|texts| - 1];
      assert texts == init + [p];
      ConcatenatedLast(init, p);
      KeptLast(init, p);
      JoinedLast(Kept(init), p);
      JoinedKept(init);
      NothingAdded(Concatenated(init));
    }
  }

  lemma TextBeforeStep(lines: seq<TimedLine>, n: nat)
    requires n < |lines|
    ensures TextBefore(lines, n + 1) == TextBefore(lines, n) + Concatenated(TextsOf(lines[n].line))
  {
  }

  lemma NoTextBefore(lines: seq<TimedLine>)
    ensures TextBefore(lines, 0) == ""
  {
  }

  lemma PiecesAreKept(line: Line)
    ensures PiecesOf(line) == Kept(TextsOf(line))
  {
  }

  lemma {:induction false} JoinedUpTo(lines: seq<TimedLine>, n: nat)
    requires n <= |lines| && Joined(PiecesUpTo(lines, n)).Some?
    ensures Joined(PiecesUpTo(lines, n)).value == TextBefore(lines, n)
  {
    hide *;
    if n == 0 {
      NothingKept();
      UpToStart(lines);
      NoTextBefore(lines);
    } else {
      UpToStep(lines, n - 1);
      TextBeforeStep(lines, n - 1);
      JoinedConcat(PiecesUpTo(lines, n - 1), PiecesOf(lines[n - 1].line));
      JoinedUpTo(lines, n - 1);
      PiecesAreKept(lines[n - 1].line);
      JoinedKept(TextsOf(lines[n - 1].line));
    }
  }

  /** Line `i` is the first that brings text. */
  ghost predicate FirstText(lines: seq<TimedLine>, n: nat, i: nat)
    requires n <= |lines|
  {
    i < n && PiecesOf(lines[i].line) != [] && forall j :: 0 <= j < i ==> PiecesOf(lines[j].line) == []
  }

  lemma {:induction false} FirstTextIs(lines: seq<TimedLine>, n: nat)
    requires n <= |lines|
    ensures FirstTextUpTo(lines, n).None? <==> forall j :: 0 <= j < n ==> PiecesOf(lines[j].line) == []
    ensures forall i: nat :: FirstText(lines, n, i) ==> FirstTextUpTo(lines, n) == Some(lines[i].at)
  {
    hide PiecesOf;
    if n > 0 {
      FirstTextIs(lines, n - 1);
      forall i: nat | FirstText(lines, n, i)
        ensures FirstTextUpTo(lines, n) == Some(lines[i].at)
      {
        if i < n - 1 {
          assert FirstText(lines, n - 1, i);
        }
      }
    }
  }

  /** Line `i` brings the last usage before line `n`. */
  ghost predicate LastUsageAt(lines: seq<TimedLine>, n: nat, i: nat)
    requires n <= |lines|
  {
    && i < n && lines[i].line.Event? && lines[i].line.usage.Some?
    && forall j :: i < j < n ==> lines[j].line.Event? ==> lines[j].line.usage.None?
  }

  lemma {:induction false} LastUsageIs(lines: seq<TimedLine>, n: nat, i: nat)
    requires n <= |lines| && LastUsageAt(lines, n, i)
    ensures lines[i].line.usage == Some(UsageUpTo(lines, n))
  {
    if i < n - 1 {
      LastUsageIs(lines, n - 1, i);
    }
  }

  lemma {:induction false} NoUsage(lines: seq<TimedLine>, n: nat)
    requires n <= |lines| && forall i :: 0 <= i < n && lines[i].line.Event? ==> lines[i].line.usage.None?
    ensures UsageUpTo(lines, n) == Usage(None, None)
  {
    if n > 0 {
      NoUsage(lines, n - 1);
    }
  }

  lemma UsageIs(lines: seq<TimedLine>, n: nat)
    requires n <= |lines|
    ensures forall i: nat :: LastUsageAt(lines, n, i) ==> lines[i].line.usage == Some(UsageUpTo(lines, n))
    ensures (forall i :: 0 <= i < n && lines[i].line.Event? ==> lines[i].line.usage.None?) ==>
              UsageUpTo(lines, n) == Usage(None, None)
  {
    hide UsageUpTo;
    forall i: nat | LastUsageAt(lines, n, i)
      ensures lines[i].line.usage == Some(UsageUpTo(lines, n))
    {
      LastUsageIs(lines, n, i);
    }
    if forall i :: 0 <= i < n && lines[i].line.Event? ==> lines[i].line.usage.None? {
      NoUsage(lines, n);
    }
  }

  lemma OkRowCompletes(lines: seq<TimedLine>, start: real, end: real, d: nat)
    requires d < |lines| && EndsWell(lines, d)
    ensures StreamRow(lines, start, end).OkRow?
    ensures StreamRow(lines, start, end)
         == Completed(UsageUpTo(lines, d), PiecesUpTo(lines, d), FirstTextUpTo(lines, d), start, end)
  {
    hide StopIndex, PiecesUpTo, UsageUpTo, FirstTextUpTo, Completed, EndsWithoutObject, Harmless;
    OkExactly(lines, start, end);
    EndsWellAtStop(lines, d);
  }

  /**
   The columns of an ok row, from the lines before the first done marker: the duration, the bytes of all
   texts, and the token counts of the last usage.
   */
  lemma OkRowExactly(lines: seq<TimedLine>, start: real, end: real, d: nat)
    requires d < |lines| && EndsWell(lines, d)
    ensures var row := StreamRow(lines, start, end);
            && row.OkRow? && row.duration == end - start
            && row.textBytes == |EncodedText(TextBefore(lines, d))|
            && (forall i: nat :: LastUsageAt(lines, d, i) ==>
                  lines[i].line.usage == Some(Usage(row.promptTokens, row.completionTokens)))
            && ((forall i :: 0 <= i < d && lines[i].line.Event? ==> lines[i].line.usage.None?) ==>
                  row.promptTokens == None && row.completionTokens == None)
  {
    hide StreamRow, PiecesUpTo, UsageUpTo, FirstTextUpTo, Joined, Utf8Length, EndsWell, EncodedText, TextBefore;
    OkRowCompletes(lines, start, end, d);
    JoinedUpTo(lines, d);
    Utf8LengthIs(TextBefore(lines, d));
    UsageIs(lines, d);
  }

  /** The times of an ok row: from the start to the first line that brings text, and from there to the end. */
  lemma OkRowTimes(lines: seq<TimedLine>, start: real, end: real, d: nat)
    requires d < |lines| && EndsWell(lines, d)
    ensures var row := StreamRow(lines, start, end);
            && row.OkRow?
            && (row.ttft.None? <==> forall j :: 0 <= j < d ==> PiecesOf(lines[j].line) == [])
            && (row.decode.None? <==> row.ttft.None?)
            && forall i: nat :: FirstText(lines, d, i) ==>
                 row.ttft == Some(lines[i].at - start) && row.decode == Some(Max0(end - lines[i].at))
  {
    hide StreamRow, PiecesUpTo, UsageUpTo, FirstTextUpTo, Joined, Utf8Length, EndsWell, PiecesOf, FirstText;
    OkRowCompletes(lines, start, end, d);
    FirstTextIs(lines, d);
  }

  lemma StopIndexIs(lines: seq<TimedLine>, n: nat)
    requires n <= |lines| && forall i :: 0 <= i < n ==> !Stops(lines[i].line)
    requires n == |lines| || Stops(lines[n].line)
    ensures StopIndex(lines) == n
  {
    hide StopIndex, Stops;
    var m := StopIndex(lines);
    assert m < |lines| ==> Stops(lines[m].line);
  }

  /** Why a stream fails: what stands on the first line that stops it, or that no line does. */
  lemma FailureExactly(lines: seq<TimedLine>, start: real, end: real, n: nat)
    requires n <= |lines| && forall i :: 0 <= i < n ==> !Stops(lines[i].line)
    ensures n < |lines| && lines[n].line.Malformed? ==> StreamRow(lines, start, end) == BadRow(MalformedData)
    ensures n < |lines| && lines[n].line.NotAnEvent? ==> StreamRow(lines, start, end) == BadRow(Raised)
    ensures n < |lines| && lines[n].line.Event? && lines[n].line.error.Some? ==>
              StreamRow(lines, start, end) == BadRow(StreamError(lines[n].line.error.value))
    ensures n < |lines| && lines[n].line.DoneMarker? && StreamRow(lines, start, end).BadRow? ==>
              StreamRow(lines, start, end) == BadRow(Raised)
    ensures n == |lines| ==>
              StreamRow(lines, start, end)
              == BadRow(if exists i :: 0 <= i < n && Unencodable in TextsOf(lines[i].line) then Raised
                        else NoDone(|EncodedText(TextBefore(lines, n))|))
  {
    hide StopIndex, PiecesUpTo, UsageUpTo, FirstTextUpTo, Joined, Utf8Length;
    if n == |lines| || Stops(lines[n].line) {
      StopIndexIs(lines, n);
    }
    if n == |lines| {
      PiecesUpToAre(lines, n, Unencodable);
      JoinedSucceeds(PiecesUpTo(lines, n));
      if Joined(PiecesUpTo(lines, n)).Some? {
        JoinedUpTo(lines, n);
        Utf8LengthIs(TextBefore(lines, n));
      }
    }
  }

  // ----- The summary -----

  lemma CollectSingle<B>(f: Row -> Option<B>, row: Row)
    ensures Collect(f, [row]) == if f(row).Some? then [f(row).value] else []
  {
    assert [row][1..] == [];
  }

  lemma StatisticsOfNone()
    ensures Sum([]) == 0.0 && Mean([]) == None && Median([]) == None
    ensures Percentile([], 50.0) == None && Percentile([], 95.0) == None
  {
  }

  lemma StatisticsOfOne(x: real)
    ensures Sum([x]) == x && Mean([x]) == Some(x) && Median([x]) == Some(x)
    ensures Percentile([x], 50.0) == Some(x) && Percentile([x], 95.0) == Some(x)
  {
    assert [x][1..] == [];
    assert Sorted([x]) == [x];
  }

  lemma OneColumn(f: Row -> Option<real>, row: Row)
    ensures var xs := Collect(f, [row]);
            && Sum(xs) == (if f(row).Some? then f(row).value else 0.0)
            && Mean(xs) == Median(xs) == Percentile(xs, 50.0) == Percentile(xs, 95.0) == f(row)
  {
    hide Collect, Sum, Mean, Median, Percentile;
    CollectSingle(f, row);
    StatisticsOfNone();
    if f(row).Some? {
      StatisticsOfOne(f(row).value);
    }
  }

  /** With a single request, an ok one, every column is its own value. */
  lemma SingleOkRow(row: Row, wall: real)
    requires row.OkRow?
    ensures var s := Summarize([row], wall);
            && s.requestsOk == 1 && s.requestsFailed == 0 && s.status == AllOk && s.errors == []
            && s.promptTokensPerRequest
               == (if row.promptTokens.Some? then Some(row.promptTokens.value as real) else None)
            && s.totalPrompt == (if row.promptTokens.Some? then row.promptTokens.value as real else 0.0)
            && s.totalCompletion == (if row.completionTokens.Some? then row.completionTokens.value as real else 0.0)
            && s.totalRate == (if wall > 0.0 then Some(s.totalCompletion / wall) else None)
            && s.ttftMean == s.ttftP50 == s.ttftP95 == row.ttft && s.decodeMean == row.decode
    ensures var s := Summarize([row], wall);
            && (s.outputRateMean.Some? <==> row.completionTokens.Some? && row.duration > 0.0)
            && (s.outputRateMean.Some? ==>
                  s.outputRateMean.value == row.completionTokens.value as real / row.duration)
            && (s.decodeRateMean.Some? <==>
                  row.completionTokens.Some? && row.decode.Some? && row.decode.value > 0.0)
            && (s.decodeRateMean.Some? ==>
                  s.decodeRateMean.value
                  == (if row.completionTokens.value > 1 then (row.completionTokens.value - 1) as real else 0.0)
                     / row.decode.value)
  {
    hide Collect, Sum, Mean, Median, Percentile;
    CollectSingle(OkPart, row);
    CollectSingle(BadPart, row);
    OneColumn(PromptTokens, row);
    OneColumn(CompletionTokens, row);
    OneColumn(Ttft, row);
    OneColumn(Decode, row);
    OneColumn(OutputRate, row);
    OneColumn(DecodeRate, row);
  }

  /** Counts and totals add up over two groups of requests, and the errors stand one after the other. */
  lemma TotalsAdd(rows: seq<Row>, more: seq<Row>, wall: real)
    ensures var s, t, u := Summarize(rows, wall), Summarize(more, wall), Summarize(rows + more, wall);
            && u.requestsOk == s.requestsOk + t.requestsOk && u.requestsFailed == s.requestsFailed + t.requestsFailed
            && u.totalPrompt == s.totalPrompt + t.totalPrompt
            && u.totalCompletion == s.totalCompletion + t.totalCompletion
            && u.errors == s.errors + t.errors
            && u.totalRate == (if wall > 0.0 then Some(u.totalCompletion / wall) else None)
  {
    hide Collect, Sum, Mean, Median, Percentile;
    CollectConcat(OkPart, rows, more);
    CollectConcat(BadPart, rows, more);
    CollectConcat(PromptTokens, rows, more);
    CollectConcat(CompletionTokens, rows, more);
    SumConcat(Collect(PromptTokens, rows), Collect(PromptTokens, more));
    SumConcat(Collect(CompletionTokens, rows), Collect(CompletionTokens, more));
  }

  /** A failed request alone leaves all columns but the count of failures and the errors empty. */
  lemma SingleBadRow(failure: Failure, wall: real)
    ensures var s := Summarize([BadRow(failure)], wall);
            && s.requestsOk == 0 && s.requestsFailed == 1 && s.errors == [failure]
            && s.totalPrompt == 0.0 && s.totalCompletion == 0.0
            && s.promptTokensPerRequest == s.ttftMean == s.ttftP50 == s.ttftP95 == None
            && s.decodeMean == s.decodeRateMean == s.outputRateMean == None
  {
    hide Collect, Sum, Mean, Median, Percentile;
    var row := BadRow(failure);
    CollectSingle(OkPart, row);
    CollectSingle(BadPart, row);
    OneColumn(PromptTokens, row);
    OneColumn(CompletionTokens, row);
    OneColumn(Ttft, row);
    OneColumn(Decode, row);
    OneColumn(OutputRate, row);
    OneColumn(DecodeRate, row);
  }

  /** The status of the whole: ok without failures, partial with some of both, failed without an ok request. */
  lemma StatusExactly(rows: seq<Row>, wall: real)
    ensures var s := Summarize(rows, wall);
            && (s.status == AllFailed <==> s.requestsOk == 0)
            && (s.status == AllOk <==> s.requestsOk > 0 && s.requestsFailed == 0)
            && (s.status == Partial <==> s.requestsOk > 0 && s.requestsFailed > 0)
  {
    hide Collect, Sum, Mean, Median, Percentile;
  }

  /** `x` is the mean of the values that `f` finds in the rows. */
  ghost predicate IsMeanOf(x: Option<real>, f: Row -> Option<real>, rows: seq<Row>) {
    && (x.None? <==> forall i :: 0 <= i < |rows| ==> f(rows[i]).None?)
    && (x.Some? ==> x.value * |Collect(f, rows)| as real == Sum(Collect(f, rows)))
  }

  lemma {:induction false} NothingCollected(f: Row -> Option<real>, rows: seq<Row>)
    ensures Collect(f, rows) == [] <==> forall i :: 0 <= i < |rows| ==> f(rows[i]).None?
  {
    if rows != [] {
      NothingCollected(f, rows[1..]);
      assert forall i :: 0 < i < |rows| ==> rows[i] == rows[1..][i - 1];
      assert forall i :: 0 <= i < |rows| - 1 ==> rows[1..][i] == rows[i + 1];
    }
  }

  lemma MeanOf(f: Row -> Option<real>, rows: seq<Row>)
    ensures IsMeanOf(Mean(Collect(f, rows)), f, rows)
  {
    hide Collect, Sum, Mean;
    MeanExactly(Collect(f, rows), [], 0.0);
    NothingCollected(f, rows);
  }

  /** Of the four means each is that of its own times or rates. */
  lemma MeansExactly(rows: seq<Row>, wall: real)
    ensures var s := Summarize(rows, wall);
            && IsMeanOf(s.ttftMean, Ttft, rows) && IsMeanOf(s.decodeMean, Decode, rows)
            && IsMeanOf(s.decodeRateMean, DecodeRate, rows) && IsMeanOf(s.outputRateMean, OutputRate, rows)
  {
    hide Collect, Sum, Mean, Median, Percentile, IsMeanOf;
    MeanOf(Ttft, rows);
    MeanOf(Decode, rows);
    MeanOf(DecodeRate, rows);
    MeanOf(OutputRate, rows);
  }

  /** The 50th percentile of the first-token times is their median, and the 95th is not below it. */
  lemma PercentilesOrdered(rows: seq<Row>, wall: real)
    ensures var s, ttfts := Summarize(rows, wall), Collect(Ttft, rows);
            && s.ttftP50 == Median(ttfts) && (s.ttftP50.None? <==> s.ttftP95.None?)
            && (s.ttftP50.Some? ==> s.ttftP50.value <= s.ttftP95.value)
  {
    hide Collect, Sum, Mean, Median;
    var ttfts := Collect(Ttft, rows);
    PercentileFiftyIsMedian(ttfts);
    if ttfts != [] {
      PercentileMonotone(ttfts, 50.0, 95.0);
    }
  }

  lemma NoWeight(x: real, y: real)
    ensures (1.0 - 0.0) * x + 0.0 * y == x
  {
  }

  /** Of 21 first-token times in ascending order the 95th percentile is the 20th, and the 50th the 11th. */
  lemma PercentilesOfTwentyOne(rows: seq<Row>, wall: real, sorted: seq<real>)
    requires SortedBy(RealLeq, sorted) && multiset(sorted) == multiset(Collect(Ttft, rows)) && |sorted| == 21
    ensures Summarize(rows, wall).ttftP95 == Some(sorted[19]) && Summarize(rows, wall).ttftP50 == Some(sorted[10])
  {
    hide Collect, Sum, Mean, Median, Percentile;
    PercentileExactly(Collect(Ttft, rows), sorted, 19, 0.0);
    PercentileExactly(Collect(Ttft, rows), sorted, 10, 0.0);
    NoWeight(sorted[19], sorted[20]);
    NoWeight(sorted[10], sorted[11]);
  }

  /** The prompt tokens per request are the median of those of the ok requests. */
  lemma PromptMedian(rows: seq<Row>, wall: real)
    ensures Summarize(rows, wall).promptTokensPerRequest == Percentile(Collect(PromptTokens, rows), 50.0)
  {
    hide Collect, Sum, Mean, Median, Percentile;
    PercentileFiftyIsMedian(Collect(PromptTokens, rows));
  }
}
