/** Reference selection of the pooled index check: the best groups of a row, their tokens, and the live tail. */
module PooledSelection {
  import opened Orders

  function At(scores: seq<real>, i: int): real {
    if 0 <= i < |scores| then scores[i] else 0.0
  }

  /** The sort key `(-score, i)`: higher scores first, ties by lower index. */
  predicate Better(scores: seq<real>, start: nat, a: int, b: int) {
    At(scores, start + a) > At(scores, start + b) || (At(scores, start + a) == At(scores, start + b) && a <= b)
  }

  function Ranking(scores: seq<real>, start: nat): (int, int) -> bool {
    (a, b) => Better(scores, start, a, b)
  }

  function Range(low: int, high: int): seq<int> {
    if low >= high then [] else seq(high - low, i => low + i)
  }

  function Min(a: nat, b: nat): nat {
    if a <= b then a else b
  }

  function Ranked(scores: seq<real>, start: nat, length: nat): seq<int> {
    Sort(Ranking(scores, start), Range(0, length))
  }

  /** The groups kept: the best `k` of the row's window, in ascending order. */
  function SelectedGroups(scores: seq<real>, start: nat, length: nat, k: nat): seq<int> {
    Sort(IntLeq, Ranked(scores, start, length)[..Min(k, |Ranked(scores, start, length)|)])
  }

  /** A higher score wins, and of equal scores the lower index. */
  predicate Beats(scores: seq<real>, start: nat, g: int, h: int) {
    At(scores, start + g) > At(scores, start + h) || (At(scores, start + g) == At(scores, start + h) && g < h)
  }

  /** What a selection of `k` groups has to be. */
  ghost predicate IsTopSelection(groups: seq<int>, scores: seq<real>, start: nat, length: nat, k: nat) {
    && Increasing(groups)
    && |groups| == Min(k, length)
    && (forall g :: g in groups ==> 0 <= g < length)
    && forall g, h :: g in groups && h !in groups && 0 <= h < length ==> Beats(scores, start, g, h)
  }

  lemma RankingIsPreorder(scores: seq<real>, start: nat)
    ensures IsTotalPreorder(Ranking(scores, start))
  {
  }

  lemma RankedIs(scores: seq<real>, start: nat, length: nat)
    ensures var r := Ranked(scores, start, length);
            && |r| == length
            && (forall i, j :: 0 <= i < j < |r| ==> r[i] != r[j] && Better(scores, start, r[i], r[j]))
            && (forall x :: x in r <==> 0 <= x < length)
  {
    var r, base := Ranked(scores, start, length), Range(0, length);
    RankingIsPreorder(scores, start);
    SortSorts(Ranking(scores, start), base);
    SortPermutes(Ranking(scores, start), base);
    SameElements(r, base);
    NoDuplicatesPermutes(base, r);
    forall i, j | 0 <= i < j < |r|
      ensures Better(scores, start, r[i], r[j])
    {
      assert Ranking(scores, start)(r[i], r[j]);
    }
    forall x | 0 <= x < length
      ensures x in base
    {
      assert base[x] == x;
    }
  }

  /** The groups kept are `min(k, length)` many, and each beats every group left out. */
  lemma SelectedAreTop(scores: seq<real>, start: nat, length: nat, k: nat)
    ensures IsTopSelection(SelectedGroups(scores, start, length, k), scores, start, length, k)
  {
    var r := Ranked(scores, start, length);
    RankedIs(scores, start, length);
    var n := Min(k, |r|);
    var groups := SelectedGroups(scores, start, length, k);
    var top := r[..n];
    SortIncreases(top);
    forall g, h | g in groups && h !in groups && 0 <= h < length
      ensures Beats(scores, start, g, h)
    {
      assert g in top && h in r;
      var i :| 0 <= i < n && r[i] == g;
      var j :| 0 <= j < |r| && r[j] == h;
      assert j < n ==> h in top;
      assert Better(scores, start, r[i], r[j]) && r[i] != r[j];
    }
    forall g | g in groups
      ensures 0 <= g < length
    {
      assert g in top;
      assert g in r;
    }
  }

  function ToSet(s: seq<int>): set<int> {
    set x | x in s
  }

  lemma {:induction false} IncreasingSetSize(s: seq<int>)
    requires Increasing(s)
    ensures |ToSet(s)| == |s|
  {
    if s != [] {
      IncreasingSetSize(s[1..]);
      assert s == [s[0]] + s[1..];
      assert ToSet(s) == {s[0]} + ToSet(s[1..]);
      assert s[0] !in ToSet(s[1..]);
    }
  }

  lemma SubsetOfSameSize(a: set<int>, b: set<int>)
    requires a <= b && |a| == |b|
    ensures a == b
  {
    assert |b - a| == |b| - |a|;
  }

  lemma SelectionsCross(s: seq<int>, t: seq<int>, scores: seq<real>, start: nat, length: nat, k: nat, g: int, h: int)
    requires IsTopSelection(s, scores, start, length, k) && IsTopSelection(t, scores, start, length, k)
    requires g in s && h in t
    ensures g in t || h in s
  {
  }

  /** That determines them: no other list of groups is a top selection. */
  lemma TopSelectionUnique(s: seq<int>, t: seq<int>, scores: seq<real>, start: nat, length: nat, k: nat)
    requires IsTopSelection(s, scores, start, length, k) && IsTopSelection(t, scores, start, length, k)
    ensures s == t
  {
    var a, b := ToSet(s), ToSet(t);
    IncreasingSetSize(s);
    IncreasingSetSize(t);
    forall g, h | g in a && h in b
      ensures g in b || h in a
    {
      SelectionsCross(s, t, scores, start, length, k, g, h);
    }
    if a <= b {
      SubsetOfSameSize(a, b);
    } else {
      assert b <= a;
      SubsetOfSameSize(b, a);
    }
    assert forall x :: x in s <==> x in a;
    assert forall x :: x in t <==> x in b;
    IncreasingUnique(s, t);
  }

  lemma SameInWindow(scores: seq<real>, others: seq<real>, start: nat, length: nat, a: int, b: int)
    requires start + length <= |scores| && start + length <= |others|
    requires scores[start..start + length] == others[start..start + length]
    requires 0 <= a < length && 0 <= b < length
    ensures Beats(scores, start, a, b) == Beats(others, start, a, b)
  {
    assert scores[start..start + length][a] == others[start..start + length][a];
    assert scores[start..start + length][b] == others[start..start + length][b];
  }

  /** Scores outside the row's window have no effect. */
  lemma OutsideScoresIrrelevant(scores: seq<real>, others: seq<real>, start: nat, length: nat, k: nat)
    requires start + length <= |scores| && start + length <= |others|
    requires scores[start..start + length] == others[start..start + length]
    ensures SelectedGroups(scores, start, length, k) == SelectedGroups(others, start, length, k)
  {
    var s := SelectedGroups(scores, start, length, k);
    SelectedAreTop(scores, start, length, k);
    SelectedAreTop(others, start, length, k);
    forall g, h | g in s && h !in s && 0 <= h < length
      ensures Beats(others, start, g, h)
    {
      SameInWindow(scores, others, start, length, g, h);
    }
    TopSelectionUnique(s, SelectedGroups(others, start, length, k), others, start, length, k);
  }

  // ----- Tokens -----

  /** The tokens of each group's slots. */
  function Expand(groups: seq<int>, pool: nat): seq<int> {
    if groups == [] then [] else Range(groups[0] * pool, groups[0] * pool + pool) + Expand(groups[1..], pool)
  }

  /** The tokens of a row: those of the selected groups, then the tail that fills no group yet. */
  function Tokens(scores: seq<real>, start: nat, length: nat, k: nat, pool: nat, seqLen: nat): seq<int> {
    Expand(SelectedGroups(scores, start, length, k), pool) + Range(length * pool, seqLen)
  }

  lemma {:induction false} ExpandLength(groups: seq<int>, pool: nat)
    ensures |Expand(groups, pool)| == |groups| * pool
  {
    if groups != [] {
      ExpandLength(groups[1..], pool);
      assert |groups| * pool == pool + (|groups| - 1) * pool;
    }
  }

  ghost predicate Within(s: seq<int>, low: int, high: int) {
    forall i :: 0 <= i < |s| ==> low <= s[i] < high
  }

  lemma ConcatIncreasing(a: seq<int>, b: seq<int>, low: int, middle: int, high: int)
    requires Increasing(a) && Within(a, low, middle) && Increasing(b) && Within(b, middle, high)
    requires low <= middle <= high
    ensures Increasing(a + b) && Within(a + b, low, high)
  {
  }

  lemma GroupTokens(first: int, pool: nat, low: int)
    requires low <= first
    ensures Increasing(Range(first, first + pool)) && Within(Range(first, first + pool), low, first + pool)
  {
  }

  lemma NextGroup(g: int, pool: nat)
    ensures (g + 1) * pool == g * pool + pool
  {
  }

  lemma ScaleMonotone(a: int, b: int, pool: nat)
    requires a <= b
    ensures a * pool <= b * pool
  {
    assert (b - a) * pool >= 0;
  }

  lemma {:induction false} ExpandIncreasing(groups: seq<int>, pool: nat, low: int, high: int)
    requires Increasing(groups) && Within(groups, low, high) && low <= high
    ensures Increasing(Expand(groups, pool)) && Within(Expand(groups, pool), low * pool, high * pool)
  {
    if groups != [] {
      var g, rest := groups[0], groups[1..];
      assert Within(rest, g + 1, high) by {
        assert forall i :: 0 <= i < |rest| ==> rest[i] == groups[i + 1];
      }
      ExpandIncreasing(rest, pool, g + 1, high);
      NextGroup(g, pool);
      ScaleMonotone(low, g, pool);
      ScaleMonotone(g + 1, high, pool);
      GroupTokens(g * pool, pool, low * pool);
      hide Increasing, Within, Range;
      ConcatIncreasing(Range(g * pool, g * pool + pool), Expand(rest, pool), low * pool, g * pool + pool, high * pool);
    }
  }

  /** The tokens are strictly increasing positions of the sequence: `min(k, length)` pools of them and the tail. */
  lemma TokensAre(scores: seq<real>, start: nat, length: nat, k: nat, pool: nat, seqLen: nat)
    requires length * pool <= seqLen
    ensures Increasing(Tokens(scores, start, length, k, pool, seqLen))
    ensures Within(Tokens(scores, start, length, k, pool, seqLen), 0, seqLen)
    ensures |Tokens(scores, start, length, k, pool, seqLen)| == Min(k, length) * pool + (seqLen - length * pool)
  {
    hide SelectedGroups, Expand;
    SelectedAreTop(scores, start, length, k);
    var groups := SelectedGroups(scores, start, length, k);
    ExpandLength(groups, pool);
    assert forall i :: 0 <= i < |groups| ==> groups[i] in groups;
    ExpandIncreasing(groups, pool, 0, length);
    ConcatIncreasing(Expand(groups, pool), Range(length * pool, seqLen), 0, length * pool, seqLen);
  }

  lemma GroupOfToken(g: int, token: int, pool: nat)
    requires pool > 0
    ensures g * pool <= token < g * pool + pool <==> token / pool == g
  {
    if token / pool < g {
      ScaleMonotone(token / pool + 1, g, pool);
      NextGroup(token / pool, pool);
    } else if token / pool > g {
      ScaleMonotone(g + 1, token / pool, pool);
      NextGroup(g, pool);
    }
  }

  lemma InRange(token: int, low: int, high: int)
    ensures token in Range(low, high) <==> low <= token < high
  {
    if low <= token < high {
      assert Range(low, high)[token - low] == token;
    }
  }

  lemma {:induction false} InExpand(groups: seq<int>, pool: nat, token: int)
    requires pool > 0
    ensures token in Expand(groups, pool) <==> token / pool in groups
  {
    if groups != [] {
      hide Range;
      InExpand(groups[1..], pool, token);
      GroupOfToken(groups[0], token, pool);
      InRange(token, groups[0] * pool, groups[0] * pool + pool);
      assert token / pool in groups <==> token / pool == groups[0] || token / pool in groups[1..];
    }
  }

  /** A token is selected exactly when its group is one of the top groups, or it stands in the tail. */
  lemma TokensExactly(scores: seq<real>, start: nat, length: nat, k: nat, pool: nat, seqLen: nat,
                      groups: seq<int>, token: int)
    requires pool > 0 && length * pool <= seqLen && IsTopSelection(groups, scores, start, length, k)
    ensures token in Tokens(scores, start, length, k, pool, seqLen) <==>
            token / pool in groups || length * pool <= token < seqLen
  {
    hide IsTopSelection, SelectedGroups, Expand, Range;
    SelectedAreTop(scores, start, length, k);
    TopSelectionUnique(SelectedGroups(scores, start, length, k), groups, scores, start, length, k);
    InExpand(groups, pool, token);
    InRange(token, length * pool, seqLen);
  }

  /** While the tail is shorter than a pool, the tokens fit a row of `k * pool + pool - 1` columns. */
  lemma TokensFit(scores: seq<real>, start: nat, length: nat, k: nat, pool: nat, seqLen: nat)
    requires length * pool <= seqLen < length * pool + pool
    ensures |Tokens(scores, start, length, k, pool, seqLen)| <= k * pool + pool - 1
  {
    TokensAre(scores, start, length, k, pool, seqLen);
    ScaleMonotone(Min(k, length), k, pool);
  }

  lemma ExpandHead(low: nat, high: nat, pool: nat)
    requires low < high
    ensures Expand(Range(low, high), pool) == Range(low * pool, low * pool + pool) + Expand(Range(low + 1, high), pool)
  {
    assert Range(low, high)[1..] == Range(low + 1, high);
  }

  lemma JoinRanges(a: int, b: int, c: int)
    requires a <= b <= c
    ensures Range(a, b) + Range(b, c) == Range(a, c)
  {
  }

  lemma {:induction false} ExpandRange(low: nat, high: nat, pool: nat)
    requires low <= high
    ensures Expand(Range(low, high), pool) == Range(low * pool, high * pool)
    decreases high - low
  {
    if low < high {
      ExpandHead(low, high, pool);
      ExpandRange(low + 1, high, pool);
      hide *;
      NextGroup(low, pool);
      ScaleMonotone(low, low + 1, pool);
      ScaleMonotone(low + 1, high, pool);
      JoinRanges(low * pool, (low + 1) * pool, high * pool);
    }
  }

  /** With no more groups than are kept, every token of the sequence is selected. */
  lemma FewGroupsSelectAll(scores: seq<real>, start: nat, length: nat, k: nat, pool: nat, seqLen: nat)
    requires length <= k && length * pool <= seqLen
    ensures Tokens(scores, start, length, k, pool, seqLen) == Range(0, seqLen)
  {
    SelectedAreTop(scores, start, length, k);
    var all := Range(0, length);
    assert IsTopSelection(all, scores, start, length, k) by {
      forall h | 0 <= h < length
        ensures h in all
      {
        assert all[h] == h;
      }
    }
    TopSelectionUnique(SelectedGroups(scores, start, length, k), all, scores, start, length, k);
    ExpandRange(0, length, pool);
    JoinRanges(0, length * pool, seqLen);
  }

  // ----- Mapping and padding -----

  datatype Mode = Logical | Offset | Page | PageRowIndex

  datatype RowInput = RowInput(scores: seq<real>, start: nat, length: nat, seqLen: nat, offset: int, pageRow: nat)

  function PageRow(mode: Mode, input: RowInput, row: nat): nat {
    if mode.PageRowIndex? then input.pageRow else row
  }

  /** What the check's own data satisfy: the tail is shorter than a pool, and paged rows cover the sequence. */
  predicate IsValid(mode: Mode, input: RowInput, row: nat, pool: nat, pages: seq<seq<int>>) {
    && input.length * pool <= input.seqLen < input.length * pool + pool
    && (mode.Page? || mode.PageRowIndex? ==>
          PageRow(mode, input, row) < |pages| && input.seqLen <= |pages[PageRow(mode, input, row)]|)
  }

  function MapToken(mode: Mode, input: RowInput, row: nat, pool: nat, pages: seq<seq<int>>, token: int): int
    requires IsValid(mode, input, row, pool, pages) && 0 <= token < input.seqLen
  {
    match mode
    case Logical => token
    case Offset => token + input.offset
    case _ => pages[PageRow(mode, input, row)][token]
  }

  function LogicalTokens(input: RowInput, k: nat, pool: nat): seq<int> {
    Tokens(input.scores, input.start, input.length, k, pool, input.seqLen)
  }

  function RowTokens(mode: Mode, input: RowInput, row: nat, k: nat, pool: nat, pages: seq<seq<int>>): (r: seq<int>)
    requires IsValid(mode, input, row, pool, pages)
    ensures |r| == |LogicalTokens(input, k, pool)| <= k * pool + pool - 1
  {
    TokensAre(input.scores, input.start, input.length, k, pool, input.seqLen);
    TokensFit(input.scores, input.start, input.length, k, pool, input.seqLen);
    var tokens := LogicalTokens(input, k, pool);
    seq(|tokens|, i requires 0 <= i < |tokens| => MapToken(mode, input, row, pool, pages, tokens[i]))
  }

  function Filler(n: nat): seq<int> {
    seq(n, _ => -1)
  }

  /** The tokens at the front of a row, the rest filled with -1. */
  function PaddedRow(mode: Mode, input: RowInput, row: nat, k: nat, pool: nat, pages: seq<seq<int>>): (r: seq<int>)
    requires IsValid(mode, input, row, pool, pages)
    ensures |r| == k * pool + pool - 1
  {
    var tokens := RowTokens(mode, input, row, k, pool, pages);
    tokens + Filler(k * pool + pool - 1 - |tokens|)
  }

  /** The mapped tokens of a row are distinct: always, or when its page-table row lists distinct locations. */
  lemma MappedTokensDistinct(mode: Mode, input: RowInput, row: nat, k: nat, pool: nat, pages: seq<seq<int>>)
    requires IsValid(mode, input, row, pool, pages)
    requires mode.Page? || mode.PageRowIndex? ==> NoDuplicates(pages[PageRow(mode, input, row)])
    ensures NoDuplicates(RowTokens(mode, input, row, k, pool, pages))
  {
    hide Tokens;
    TokensAre(input.scores, input.start, input.length, k, pool, input.seqLen);
    var tokens, mapped := LogicalTokens(input, k, pool), RowTokens(mode, input, row, k, pool, pages);
    forall i, j | 0 <= i < j < |mapped|
      ensures mapped[i] != mapped[j]
    {
      assert 0 <= tokens[i] < tokens[j] < input.seqLen;
      assert mapped[i] == MapToken(mode, input, row, pool, pages, tokens[i]);
      assert mapped[j] == MapToken(mode, input, row, pool, pages, tokens[j]);
    }
  }

  /** What a cell says for a token, by the mode of the check. */
  ghost predicate CellFor(mode: Mode, input: RowInput, row: nat, pages: seq<seq<int>>, token: int, cell: int) {
    match mode
    case Logical => cell == token
    case Offset => cell == token + input.offset
    case Page => row < |pages| && 0 <= token < |pages[row]| && cell == pages[row][token]
    case PageRowIndex =>
      input.pageRow < |pages| && 0 <= token < |pages[input.pageRow]| && cell == pages[input.pageRow][token]
  }

  /**
   A row of the expected table: in front the cells of the selected tokens in increasing order, which are
   those of the top groups and of the tail, and -1 behind.
   */
  lemma PaddedRowExactly(mode: Mode, input: RowInput, row: nat, k: nat, pool: nat, pages: seq<seq<int>>,
                         groups: seq<int>) returns (tokens: seq<int>)
    requires pool > 0 && IsValid(mode, input, row, pool, pages)
    requires IsTopSelection(groups, input.scores, input.start, input.length, k)
    ensures Increasing(tokens)
    ensures forall token :: token in tokens <==>
              token / pool in groups || input.length * pool <= token < input.seqLen
    ensures var r := PaddedRow(mode, input, row, k, pool, pages);
            && |tokens| <= |r| == k * pool + pool - 1
            && (forall i :: 0 <= i < |tokens| ==> CellFor(mode, input, row, pages, tokens[i], r[i]))
            && forall i :: |tokens| <= i < |r| ==> r[i] == -1
  {
    hide Tokens, IsTopSelection;
    tokens := LogicalTokens(input, k, pool);
    TokensAre(input.scores, input.start, input.length, k, pool, input.seqLen);
    forall token
      ensures token in tokens <==> token / pool in groups || input.length * pool <= token < input.seqLen
    {
      TokensExactly(input.scores, input.start, input.length, k, pool, input.seqLen, groups, token);
    }
    var mapped := RowTokens(mode, input, row, k, pool, pages);
    forall i | 0 <= i < |tokens|
      ensures CellFor(mode, input, row, pages, tokens[i], mapped[i])
    {
      assert 0 <= tokens[i] < input.seqLen;
      assert mapped[i] == MapToken(mode, input, row, pool, pages, tokens[i]);
    }
  }

  lemma FillRow(tokens: seq<int>, width: nat)
    requires |tokens| <= width
    ensures tokens + Filler(width)[|tokens|..] == tokens + Filler(width - |tokens|)
  {
  }

  /** The row loop that fills `expected`; rows beyond the inputs keep their filling. */
  method FillExpected(mode: Mode, inputs: seq<RowInput>, outRows: nat, k: nat, pool: nat, pages: seq<seq<int>>)
      returns (expected: seq<seq<int>>)
    requires |inputs| <= outRows && pool > 0
    requires forall row :: 0 <= row < |inputs| ==> IsValid(mode, inputs[row], row, pool, pages)
    ensures |expected| == outRows
    ensures forall row :: 0 <= row < |inputs| ==> expected[row] == PaddedRow(mode, inputs[row], row, k, pool, pages)
    ensures forall row :: |inputs| <= row < outRows ==> expected[row] == Filler(k * pool + pool - 1)
  {
    var width := k * pool + pool - 1;
    expected := seq(outRows, _ => Filler(width));
    for row := 0 to |inputs|
      invariant |expected| == outRows
      invariant forall r :: 0 <= r < row ==> expected[r] == PaddedRow(mode, inputs[r], r, k, pool, pages)
      invariant forall r :: row <= r < outRows ==> expected[r] == Filler(width)
    {
      hide RowTokens;
      var input := inputs[row];
      var tokens := RowTokens(mode, input, row, k, pool, pages);
      FillRow(tokens, width);
      expected := expected[row := tokens + expected[row][|tokens|..]];
    }
  }
}
