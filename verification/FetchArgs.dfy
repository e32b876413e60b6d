/** The nested-submodule specifications among the fetch arguments. */
module FetchArgs {
  import opened Wrappers
  import opened Orders
  import opened Strings

  const NESTED := "--nested-submodules"

  /** `project, values = argument.split(":", 1)` raises without a colon. */
  datatype ArgsError = NoColon(arg: string)

  type Spec = (string, seq<string>)

  function Strip(s: string): string {
    if s != [] && IsSpace(s[0]) then Strip(s[1..])
    else if s != [] && IsSpace(s[|s| - 1]) then Strip(s[..|s| - 1])
    else s
  }

  function StripAll(values: seq<string>): seq<string> {
    if values == [] then []
    else (if Strip(values[0]) == "" then [] else [Strip(values[0])]) + StripAll(values[1..])
  }

  /** What stands before and after the first separator. */
  function Cut(sep: char, s: string): (r: Option<(string, string)>)
    ensures r.None? <==> sep !in s
    ensures r.Some? ==> s == r.value.0 + [sep] + r.value.1 && sep !in r.value.0
  {
    if s == [] then None
    else if s[0] == sep then Some(([], s[1..]))
    else
      match Cut(sep, s[1..])
      case None => None
      case Some((before, after)) => Some(([s[0]] + before, after))
  }

  function ParseSpec(arg: string): Result<Spec, ArgsError> {
    match Cut(':', arg)
    case None => Err(NoColon(arg))
    case Some((project, values)) => Ok((project, StripAll(SplitOn(',', values))))
  }

  /** Parses from left to right; the first argument without a colon is the error. */
  function ParseAll(args: seq<string>): Result<seq<Spec>, ArgsError> {
    if args == [] then Ok([])
    else
      match ParseAll(args[..|args| - 1])
      case Err(e) => Err(e)
      case Ok(specs) =>
        match ParseSpec(args[|args| - 1])
        case Err(e) => Err(e)
        case Ok(spec) => Ok(specs + [spec])
  }

  predicate OpensScope(arg: string) {
    arg == NESTED
  }

  predicate IsFlag(arg: string) {
    "--" <= arg
  }

  /** The latest flag before position `j` is `--nested-submodules`, and `j` itself is not a flag. */
  ghost predicate InScope(args: seq<string>, j: nat)
    requires j < |args|
  {
    exists i :: 0 <= i < j && OpensScope(args[i]) && forall k :: i < k <= j ==> !IsFlag(args[k])
  }

  ghost function Scoped(args: seq<string>, n: nat): seq<string>
    requires n <= |args|
  {
    if n == 0 then []
    else if InScope(args, n - 1) then Scoped(args, n - 1) + [args[n - 1]]
    else Scoped(args, n - 1)
  }

  lemma {:induction false} ScopedErrorsPersist(args: seq<string>, m: nat, n: nat)
    requires m <= n <= |args| && ParseAll(Scoped(args, m)).Err?
    ensures ParseAll(Scoped(args, n)) == ParseAll(Scoped(args, m))
    decreases n
  {
    if m < n {
      ScopedErrorsPersist(args, m, n - 1);
      hide InScope, ParseSpec;
      var before := Scoped(args, n - 1);
      assert (before + [args[n - 1]])[..|before|] == before;
    }
  }

  lemma NoScopeOpens(args: seq<string>, j: nat)
    requires 0 < j < |args| && !OpensScope(args[j - 1]) && !InScope(args, j - 1)
    ensures !InScope(args, j)
  {
  }

  lemma FlagClosesScope(args: seq<string>, j: nat)
    requires j < |args| && IsFlag(args[j])
    ensures !InScope(args, j)
  {
  }

  lemma ScopedSkip(args: seq<string>, j: nat)
    requires j < |args| && !InScope(args, j)
    ensures Scoped(args, j + 1) == Scoped(args, j)
  {
  }

  lemma ScopeReaches(args: seq<string>, flag: nat, j: nat)
    requires flag < j < |args| && OpensScope(args[flag])
    requires forall k :: flag < k <= j ==> !IsFlag(args[k])
    ensures InScope(args, j)
  {
  }

  lemma ScopedStep(args: seq<string>, j: nat)
    requires j < |args| && InScope(args, j) && ParseAll(Scoped(args, j)).Ok?
    ensures ParseAll(Scoped(args, j + 1))
         == match ParseSpec(args[j])
            case Err(e) => Err(e)
            case Ok(spec) => Ok(ParseAll(Scoped(args, j)).value + [spec])
  {
    var before := Scoped(args, j);
    assert (before + [args[j]])[..|before|] == before;
  }

  /** The inner loop: the arguments up to the next flag. */
  method ReadScope(args: seq<string>, flag: nat, before: seq<Spec>)
      returns (index: nat, specs: seq<Spec>, error: Option<ArgsError>)
    requires flag < |args| && OpensScope(args[flag])
    requires ParseAll(Scoped(args, flag + 1)) == Ok(before)
    ensures error.None? ==>
              && flag < index <= |args| && ParseAll(Scoped(args, index)) == Ok(specs)
              && (index < |args| ==> !InScope(args, index))
    ensures error.Some? ==> ParseAll(Scoped(args, |args|)) == Err(error.value)
  {
    hide *;
    index, specs := flag + 1, before;
    while index < |args| && !IsFlag(args[index])
      invariant flag < index <= |args|
      invariant forall k :: flag < k < index ==> !IsFlag(args[k])
      invariant ParseAll(Scoped(args, index)) == Ok(specs)
    {
      ScopeReaches(args, flag, index);
      ScopedStep(args, index);
      var spec := ParseSpec(args[index]);
      if spec.Err? {
        ScopedErrorsPersist(args, index + 1, |args|);
        return index, specs, Some(spec.error);
      }
      specs := specs + [spec.value];
      index := index + 1;
    }
    if index < |args| {
      FlagClosesScope(args, index);
    }
    return index, specs, None;
  }

  lemma NothingScoped(args: seq<string>)
    ensures ParseAll(Scoped(args, 0)) == Ok([])
    ensures args != [] ==> !InScope(args, 0)
  {
  }

  /** The specifications are exactly the arguments in the scope of the flag, in order. */
  method NestedSpecs(args: seq<string>) returns (result: Result<seq<Spec>, ArgsError>)
    ensures result == ParseAll(Scoped(args, |args|))
  {
    hide *;
    var specs: seq<Spec> := [];
    var index := 0;
    NothingScoped(args);
    while index < |args|
      invariant 0 <= index <= |args|
      invariant ParseAll(Scoped(args, index)) == Ok(specs)
      invariant index < |args| ==> !InScope(args, index)
    {
      var arg := args[index];
      ScopedSkip(args, index);
      index := index + 1;
      if OpensScope(arg) {
        var error: Option<ArgsError>;
        index, specs, error := ReadScope(args, index - 1, specs);
        if error.Some? {
          return Err(error.value);
        }
      } else if index < |args| {
        NoScopeOpens(args, index);
      }
    }
    return Ok(specs);
  }

  lemma {:induction false} StripShape(s: string)
    ensures Strip(s) != "" ==> !IsSpace(Strip(s)[0]) && !IsSpace(Strip(s)[|Strip(s)| - 1])
    ensures forall c :: c in Strip(s) ==> c in s
  {
    if s != [] && IsSpace(s[0]) {
      StripShape(s[1..]);
    } else if s != [] && IsSpace(s[|s| - 1]) {
      StripShape(s[..|s| - 1]);
    }
  }

  lemma {:induction false} StripAllShape(values: seq<string>, p: string)
    requires p in StripAll(values)
    ensures p != "" && exists v :: v in values && Strip(v) == p
  {
    hide Strip;
    if p in StripAll(values[1..]) {
      StripAllShape(values[1..], p);
      var v :| v in values[1..] && Strip(v) == p;
      assert v in values;
    } else {
      assert values[0] in values && Strip(values[0]) == p;
    }
  }

  /** A specification cuts its argument at the first colon; its paths are the trimmed, non-empty pieces of the rest. */
  lemma SpecShape(arg: string)
    requires ParseSpec(arg).Ok?
    ensures var (project, paths) := ParseSpec(arg).value;
            && ':' !in project && project + ":" <= arg
            && forall p :: p in paths ==> p != "" && ',' !in p && !IsSpace(p[0]) && !IsSpace(p[|p| - 1])
  {
    hide IsSpace, Strip, SplitOn, StripAll;
    var (project, values) := Cut(':', arg).value;
    hide Cut;
    PiecesHaveNoSeparator(',', values);
    forall p | p in StripAll(SplitOn(',', values))
      ensures p != "" && ',' !in p && !IsSpace(p[0]) && !IsSpace(p[|p| - 1])
    {
      StripAllShape(SplitOn(',', values), p);
      var v :| v in SplitOn(',', values) && Strip(v) == p;
      StripShape(v);
    }
  }

  predicate IsBlank(s: string) {
    forall i :: 0 <= i < |s| ==> IsSpace(s[i])
  }

  predicate Around(v: string, p: string, i: nat, j: nat) {
    i <= j <= |v| && p == v[i..j] && IsBlank(v[..i]) && IsBlank(v[j..])
  }

  /** `p` is `v` without the white space around it. */
  ghost predicate IsTrimmed(v: string, p: string) {
    && (p != "" ==> !IsSpace(p[0]) && !IsSpace(p[|p| - 1]))
    && exists i, j :: Around(v, p, i, j)
  }

  lemma AroundTail(v: string, p: string, i: nat, j: nat)
    requires v != "" && IsSpace(v[0]) && Around(v[1..], p, i, j)
    ensures Around(v, p, i + 1, j + 1)
  {
    hide IsSpace;
    assert v[..i + 1] == [v[0]] + v[1..][..i];
    assert v[j + 1..] == v[1..][j..] && v[i + 1..j + 1] == v[1..][i..j];
  }

  lemma AroundInit(v: string, p: string, i: nat, j: nat)
    requires v != "" && IsSpace(v[|v| - 1]) && Around(v[..|v| - 1], p, i, j)
    ensures Around(v, p, i, j)
  {
    hide IsSpace;
    var init := v[..|v| - 1];
    assert v[..i] == init[..i] && v[i..j] == init[i..j];
    assert v[j..] == init[j..] + [v[|v| - 1]];
  }

  lemma WholeAround(v: string)
    ensures Around(v, v, 0, |v|)
  {
  }

  lemma {:induction false} StripCuts(v: string) returns (i: nat, j: nat)
    ensures Around(v, Strip(v), i, j)
  {
    hide IsSpace, Around;
    if v != "" && IsSpace(v[0]) {
      i, j := StripCuts(v[1..]);
      AroundTail(v, Strip(v), i, j);
      i, j := i + 1, j + 1;
    } else if v != "" && IsSpace(v[|v| - 1]) {
      i, j := StripCuts(v[..|v| - 1]);
      AroundInit(v, Strip(v), i, j);
    } else {
      i, j := 0, |v|;
      WholeAround(v);
    }
  }

  lemma BlankParts(v: string, i: nat)
    requires i <= |v| && IsBlank(v[..i]) && IsBlank(v[i..])
    ensures IsBlank(v)
  {
    hide IsSpace;
    forall k | 0 <= k < |v|
      ensures IsSpace(v[k])
    {
      assert if k < i then v[k] == v[..i][k] else v[k] == v[i..][k - i];
    }
  }

  lemma NotBlank(v: string, p: string, i: nat, j: nat)
    requires Around(v, p, i, j) && p != "" && !IsSpace(p[0])
    ensures !IsBlank(v)
  {
    assert v[i] == p[0];
  }

  lemma NothingLeft(v: string, i: nat, j: nat)
    requires Around(v, "", i, j)
    ensures IsBlank(v)
  {
    hide IsBlank;
    assert i == j by {
      assert |v[i..j]| == j - i;
    }
    BlankParts(v, i);
  }

  lemma StripTrims(v: string)
    ensures IsTrimmed(v, Strip(v)) && (Strip(v) == "" <==> IsBlank(v))
  {
    hide IsSpace, Around, Strip, IsBlank;
    StripShape(v);
    var i, j := StripCuts(v);
    if Strip(v) == "" {
      NothingLeft(v, i, j);
    } else {
      NotBlank(v, Strip(v), i, j);
    }
  }

  /** The paths are the pieces that are not blank, trimmed, in their order; `at` says which piece each path is. */
  ghost predicate ArePaths(pieces: seq<string>, paths: seq<string>, at: seq<int>) {
    && Increasing(at) && |at| == |paths|
    && (forall i :: 0 <= i < |at| ==>
          0 <= at[i] < |pieces| && paths[i] != "" && IsTrimmed(pieces[at[i]], paths[i]))
    && forall k :: 0 <= k < |pieces| && k !in at ==> IsBlank(pieces[k])
  }

  function Shifted(at: seq<int>): (r: seq<int>)
    ensures |r| == |at|
  {
    seq(|at|, i requires 0 <= i < |at| => at[i] + 1)
  }

  lemma ShiftedHas(at: seq<int>, k: int)
    ensures k in Shifted(at) <==> k - 1 in at
  {
    if k - 1 in at {
      var i :| 0 <= i < |at| && at[i] == k - 1;
      assert Shifted(at)[i] == k;
    }
  }

  lemma PathsSkip(pieces: seq<string>, paths: seq<string>, at: seq<int>)
    requires pieces != [] && IsBlank(pieces[0]) && ArePaths(pieces[1..], paths, at)
    ensures ArePaths(pieces, paths, Shifted(at))
  {
    hide IsTrimmed, IsBlank;
    forall k | 0 <= k < |pieces| && k !in Shifted(at)
      ensures IsBlank(pieces[k])
    {
      ShiftedHas(at, k);
      assert k > 0 ==> pieces[k] == pieces[1..][k - 1];
    }
  }

  lemma ZeroFirst(at: seq<int>)
    requires Increasing(at) && forall i :: 0 <= i < |at| ==> at[i] >= 0
    ensures Increasing([0] + Shifted(at))
    ensures forall k :: k in [0] + Shifted(at) <==> k == 0 || k - 1 in at
  {
    forall k
      ensures k in Shifted(at) <==> k - 1 in at
    {
      ShiftedHas(at, k);
    }
  }

  lemma PathsTake(pieces: seq<string>, p: string, paths: seq<string>, at: seq<int>)
    requires pieces != [] && IsTrimmed(pieces[0], p) && p != "" && ArePaths(pieces[1..], paths, at)
    ensures ArePaths(pieces, [p] + paths, [0] + Shifted(at))
  {
    hide IsTrimmed, IsBlank;
    ZeroFirst(at);
    var all := [0] + Shifted(at);
    forall i | 0 <= i < |all|
      ensures 0 <= all[i] < |pieces| && ([p] + paths)[i] != "" && IsTrimmed(pieces[all[i]], ([p] + paths)[i])
    {
      assert i > 0 ==> all[i] == at[i - 1] + 1 && pieces[all[i]] == pieces[1..][at[i - 1]];
    }
    forall k | 0 <= k < |pieces| && k !in all
      ensures IsBlank(pieces[k])
    {
      assert pieces[k] == pieces[1..][k - 1];
    }
  }

  lemma {:induction false} StripAllIs(pieces: seq<string>) returns (at: seq<int>)
    ensures ArePaths(pieces, StripAll(pieces), at)
  {
    if pieces == [] {
      at := [];
    } else {
      hide Strip, IsTrimmed, IsBlank, ArePaths;
      at := StripAllIs(pieces[1..]);
      StripTrims(pieces[0]);
      if Strip(pieces[0]) == "" {
        PathsSkip(pieces, StripAll(pieces[1..]), at);
        at := Shifted(at);
        assert StripAll(pieces) == [] + StripAll(pieces[1..]) == StripAll(pieces[1..]);
      } else {
        PathsTake(pieces, Strip(pieces[0]), StripAll(pieces[1..]), at);
        at := [0] + Shifted(at);
      }
    }
  }

  /**
   A specification is the project before the first colon, with all pieces of the rest between commas that
   are not blank, trimmed and in order.
   */
  lemma SpecExactly(arg: string) returns (values: string, at: seq<int>)
    requires ParseSpec(arg).Ok?
    ensures var (project, paths) := ParseSpec(arg).value;
            && ':' !in project && arg == project + ":" + values
            && ArePaths(SplitOn(',', values), paths, at)
  {
    hide StripAll, SplitOn, ArePaths;
    values := Cut(':', arg).value.1;
    at := StripAllIs(SplitOn(',', values));
  }
}
