/** The transport benchmark: planning the cases, driving one run, and resuming from the rows of earlier runs. */
module TransportMatrix {
  import opened Wrappers
  import opened Orders

  datatype Case = Case(transport: string, model: string, concurrency: int, maxTokens: int)

  datatype Status = StatusOk | StatusSkipped | StatusPartial | StatusFailed | StatusOther

  /** A line of the result file; `about` is absent when its key columns are missing or no numbers. */
  datatype Row = Row(about: Option<Case>, status: Status)

  datatype Config = Config(transports: seq<string>, models: seq<string>, concurrencies: seq<int>, maxTokens: int)

  // ----- The plan -----

  function Done(csv: seq<Row>): set<Case> {
    set i | 0 <= i < |csv| && csv[i].about.Some? && (csv[i].status.StatusOk? || csv[i].status.StatusSkipped?)
      :: csv[i].about.value
  }

  function OverConcurrencies(transport: string, model: string, concurrencies: seq<int>, maxTokens: int): seq<Case> {
    seq(|concurrencies|, i requires 0 <= i < |concurrencies| => Case(transport, model, concurrencies[i], maxTokens))
  }

  function OverModels(transport: string, models: seq<string>, concurrencies: seq<int>, maxTokens: int): seq<Case> {
    if models == [] then []
    else OverConcurrencies(transport, models[0], concurrencies, maxTokens)
         + OverModels(transport, models[1..], concurrencies, maxTokens)
  }

  /** `itertools.product`, the last axis advancing fastest. */
  function Product(transports: seq<string>, models: seq<string>, concurrencies: seq<int>, maxTokens: int): seq<Case> {
    if transports == [] then []
    else OverModels(transports[0], models, concurrencies, maxTokens)
         + Product(transports[1..], models, concurrencies, maxTokens)
  }

  function AllCases(config: Config): seq<Case> {
    Product(config.transports, config.models, config.concurrencies, config.maxTokens)
  }

  function NotDone(cases: seq<Case>, done: set<Case>): seq<Case> {
    if cases == [] then []
    else (if cases[0] in done then [] else [cases[0]]) + NotDone(cases[1..], done)
  }

  /** Where a dictionary built by enumeration puts a name: its last position. */
  function LastIndex(names: seq<string>, name: string): (i: int)
    ensures i < |names|
    ensures name in names <==> i >= 0
    ensures i >= 0 ==> names[i] == name
  {
    if names == [] then -1
    else if names[|names| - 1] == name then |names| - 1
    else LastIndex(names[..|names| - 1], name)
  }

  predicate CaseLeq(config: Config, a: Case, b: Case) {
    var ta, tb := LastIndex(config.transports, a.transport), LastIndex(config.transports, b.transport);
    var ma, mb := LastIndex(config.models, a.model), LastIndex(config.models, b.model);
    ta < tb || (ta == tb && (ma < mb || (ma == mb && a.concurrency <= b.concurrency)))
  }

  function PlanOrder(config: Config): (Case, Case) -> bool {
    (a, b) => CaseLeq(config, a, b)
  }

  /** The sampled positions: any selection of `sample` distinct positions; `random` makes one of them. */
  ghost predicate IsSample(picks: seq<nat>, sample: nat, n: nat) {
    && |picks| == sample
    && (forall i :: 0 <= i < |picks| ==> picks[i] < n)
    && NoDuplicates(picks)
  }

  function OpenCases(config: Config, resume: bool, csv: seq<Row>): seq<Case> {
    if resume then NotDone(AllCases(config), Done(csv)) else AllCases(config)
  }

  function Picked(open: seq<Case>, picks: seq<nat>): seq<Case>
    requires forall i :: 0 <= i < |picks| ==> picks[i] < |open|
  {
    seq(|picks|, i requires 0 <= i < |picks| => open[picks[i]])
  }

  /** A sample is taken only when it is smaller than what remains. */
  function Choose(open: seq<Case>, sample: int, picks: seq<nat>): seq<Case>
    requires 0 < sample < |open| ==> IsSample(picks, sample, |open|)
  {
    if 0 < sample < |open| then Picked(open, picks) else open
  }

  /** `make_plan`. */
  function MakePlan(config: Config, resume: bool, csv: seq<Row>, sample: int, picks: seq<nat>): seq<Case>
    requires 0 < sample < |OpenCases(config, resume, csv)| ==>
               IsSample(picks, sample, |OpenCases(config, resume, csv)|)
  {
    Sort(PlanOrder(config), Choose(OpenCases(config, resume, csv), sample, picks))
  }

  type Pair = (string, string)

  function PairOf(c: Case): Pair {
    (c.transport, c.model)
  }

  /** Cases of one transport and model stand together. */
  ghost predicate Grouped(plan: seq<Case>) {
    forall i, j, k :: 0 <= i < j < k < |plan| && PairOf(plan[i]) == PairOf(plan[k]) ==>
      PairOf(plan[j]) == PairOf(plan[i])
  }

  ghost predicate InConfig(config: Config, c: Case) {
    && c.transport in config.transports && c.model in config.models
    && c.concurrency in config.concurrencies && c.maxTokens == config.maxTokens
  }

  lemma {:induction false} OverModelsAre(transport: string, models: seq<string>, concurrencies: seq<int>,
                                         maxTokens: int, c: Case)
    ensures c in OverModels(transport, models, concurrencies, maxTokens) <==>
            c.transport == transport && c.model in models && c.concurrency in concurrencies && c.maxTokens == maxTokens
  {
    if models != [] {
      OverModelsAre(transport, models[1..], concurrencies, maxTokens, c);
      var here := OverConcurrencies(transport, models[0], concurrencies, maxTokens);
      if c == Case(transport, models[0], c.concurrency, maxTokens) && c.concurrency in concurrencies {
        var i :| 0 <= i < |concurrencies| && concurrencies[i] == c.concurrency;
        assert here[i] == c;
      }
      assert models == [models[0]] + models[1..];
    }
  }

  lemma {:induction false} ProductIs(transports: seq<string>, models: seq<string>, concurrencies: seq<int>,
                                     maxTokens: int, c: Case)
    ensures c in Product(transports, models, concurrencies, maxTokens) <==>
            c.transport in transports && c.model in models && c.concurrency in concurrencies && c.maxTokens == maxTokens
  {
    if transports != [] {
      ProductIs(transports[1..], models, concurrencies, maxTokens, c);
      OverModelsAre(transports[0], models, concurrencies, maxTokens, c);
      assert transports == [transports[0]] + transports[1..];
    }
  }

  lemma {:induction false} NotDoneAre(cases: seq<Case>, done: set<Case>)
    ensures forall c :: c in NotDone(cases, done) <==> c in cases && c !in done
    ensures forall c :: multiset(NotDone(cases, done))[c] == if c in done then 0 else multiset(cases)[c]
  {
    if cases != [] {
      NotDoneAre(cases[1..], done);
      assert cases == [cases[0]] + cases[1..];
    }
  }

  lemma PlanOrderIsPreorder(config: Config)
    ensures IsTotalPreorder(PlanOrder(config))
  {
  }

  lemma SortedIsGrouped(config: Config, plan: seq<Case>)
    requires SortedBy(PlanOrder(config), plan)
    requires forall c :: c in plan ==> c.transport in config.transports && c.model in config.models
    ensures Grouped(plan)
  {
    hide LastIndex;
    forall i, j, k | 0 <= i < j < k < |plan| && PairOf(plan[i]) == PairOf(plan[k])
      ensures PairOf(plan[j]) == PairOf(plan[i])
    {
      var a, b, c := plan[i], plan[j], plan[k];
      assert PlanOrder(config)(a, b) && PlanOrder(config)(b, c);
      assert a in plan && b in plan;
      assert LastIndex(config.transports, a.transport) == LastIndex(config.transports, b.transport);
      assert LastIndex(config.models, a.model) == LastIndex(config.models, b.model);
    }
  }

  lemma OpenCasesAre(config: Config, resume: bool, csv: seq<Row>)
    ensures forall c :: c in OpenCases(config, resume, csv) <==> InConfig(config, c) && (resume ==> c !in Done(csv))
  {
    NotDoneAre(AllCases(config), Done(csv));
    forall c
      ensures c in AllCases(config) <==> InConfig(config, c)
    {
      ProductIs(config.transports, config.models, config.concurrencies, config.maxTokens, c);
    }
  }

  lemma SortedPlan(config: Config, cases: seq<Case>)
    ensures var plan := Sort(PlanOrder(config), cases);
            && SortedBy(PlanOrder(config), plan) && multiset(plan) == multiset(cases)
            && forall c :: c in plan <==> c in cases
  {
    PlanOrderIsPreorder(config);
    SortSorts(PlanOrder(config), cases);
    SortPermutes(PlanOrder(config), cases);
    SameElements(Sort(PlanOrder(config), cases), cases);
  }

  lemma WithoutPosition(s: seq<nat>, k: nat)
    requires k < |s| && NoDuplicates(s)
    ensures NoDuplicates(s[..k] + s[k + 1..]) && s[k] !in s[..k] + s[k + 1..]
  {
  }

  lemma TakenApart<T>(s: seq<T>, k: nat)
    requires k < |s|
    ensures multiset(s) == multiset(s[..k] + s[k + 1..]) + multiset{s[k]}
  {
    assert s == s[..k] + [s[k]] + s[k + 1..];
  }

  lemma PickedWithout(open: seq<Case>, picks: seq<nat>, k: nat)
    requires k < |picks| && forall i :: 0 <= i < |picks| ==> picks[i] < |open|
    ensures multiset(Picked(open, picks))
         == multiset(Picked(open, picks[..k] + picks[k + 1..])) + multiset{open[picks[k]]}
  {
    var all := Picked(open, picks);
    TakenApart(all, k);
    assert Picked(open, picks[..k] + picks[k + 1..]) == all[..k] + all[k + 1..];
  }

  lemma PickedFromInit(open: seq<Case>, picks: seq<nat>)
    requires open != [] && forall i :: 0 <= i < |picks| ==> picks[i] < |open| - 1
    ensures Picked(open, picks) == Picked(open[..|open| - 1], picks)
    ensures multiset(open) == multiset(open[..|open| - 1]) + multiset{open[|open| - 1]}
  {
    assert open == open[..|open| - 1] + [open[|open| - 1]];
  }

  /** Distinct positions pick no case more often than it is there. */
  lemma {:induction false} PickedAreThere(open: seq<Case>, picks: seq<nat>)
    requires NoDuplicates(picks) && forall i :: 0 <= i < |picks| ==> picks[i] < |open|
    ensures multiset(Picked(open, picks)) <= multiset(open)
    decreases |open|
  {
    if open != [] {
      hide Picked;
      var n := |open| - 1;
      if k :| 0 <= k < |picks| && picks[k] == n {
        var others := picks[..k] + picks[k + 1..];
        WithoutPosition(picks, k);
        PickedWithout(open, picks, k);
        PickedAreThere(open[..n], others);
        PickedFromInit(open, others);
      } else {
        PickedAreThere(open[..n], picks);
        PickedFromInit(open, picks);
      }
    }
  }

  lemma {:induction false} LastIndexUnique(names: seq<string>, i: nat)
    requires NoDuplicates(names) && i < |names|
    ensures LastIndex(names, names[i]) == i
  {
    var last := LastIndex(names, names[i]);
    assert names[last] == names[i];
  }

  /**
   A plan goes through the transports in their given order, for each through the models in theirs, and
   for each of these by concurrency.
   */
  lemma PlanOrdered(config: Config, resume: bool, csv: seq<Row>, sample: int, picks: seq<nat>, i: nat, j: nat,
                    t: nat, u: nat, m: nat, n: nat)
    requires 0 < sample < |OpenCases(config, resume, csv)| ==>
               IsSample(picks, sample, |OpenCases(config, resume, csv)|)
    requires NoDuplicates(config.transports) && NoDuplicates(config.models)
    requires i < j < |MakePlan(config, resume, csv, sample, picks)|
    requires t < |config.transports| && u < |config.transports| && m < |config.models| && n < |config.models|
    requires var a, b := MakePlan(config, resume, csv, sample, picks)[i],
                         MakePlan(config, resume, csv, sample, picks)[j];
             && a.transport == config.transports[t] && b.transport == config.transports[u]
             && a.model == config.models[m] && b.model == config.models[n]
    ensures var a, b := MakePlan(config, resume, csv, sample, picks)[i],
                        MakePlan(config, resume, csv, sample, picks)[j];
            t < u || (t == u && (m < n || (m == n && a.concurrency <= b.concurrency)))
  {
    hide LastIndex;
    var plan := MakePlan(config, resume, csv, sample, picks);
    SortedPlan(config, Choose(OpenCases(config, resume, csv), sample, picks));
    assert PlanOrder(config)(plan[i], plan[j]);
    LastIndexUnique(config.transports, t);
    LastIndexUnique(config.transports, u);
    LastIndexUnique(config.models, m);
    LastIndexUnique(config.models, n);
  }

  /**
   Sampled or not, a plan lists cases of the configuration that are not done, none more often than it is
   open, grouped by transport and model.
   */
  lemma PlanProperties(config: Config, resume: bool, csv: seq<Row>, sample: int, picks: seq<nat>)
    requires 0 < sample < |OpenCases(config, resume, csv)| ==>
               IsSample(picks, sample, |OpenCases(config, resume, csv)|)
    ensures Grouped(MakePlan(config, resume, csv, sample, picks))
    ensures var open := |OpenCases(config, resume, csv)|;
            |MakePlan(config, resume, csv, sample, picks)| == if 0 < sample < open then sample else open
    ensures multiset(MakePlan(config, resume, csv, sample, picks)) <= multiset(OpenCases(config, resume, csv))
    ensures forall c :: c in MakePlan(config, resume, csv, sample, picks) ==>
              InConfig(config, c) && (resume ==> c !in Done(csv))
  {
    var open := OpenCases(config, resume, csv);
    var chosen := Choose(open, sample, picks);
    OpenCasesAre(config, resume, csv);
    SortedPlan(config, chosen);
    if 0 < sample < |open| {
      PickedAreThere(open, picks);
    }
    assert forall c :: c in chosen ==> c in open;
    SortedIsGrouped(config, Sort(PlanOrder(config), chosen));
  }

  // ----- One run -----

  /** How a benchmark client ends: with a row, whose status decides its exit code, or without one. */
  datatype Outcome = Finished(status: Status) | Crashed

  /** What the outside world does at each position of the plan. */
  datatype Environment = Environment(startOk: nat -> bool, skipRecorded: nat -> bool, outcome: nat -> Outcome)

  datatype Event = Start(pair: Pair, ok: bool) | Skip(about: Case, recorded: bool) | Run(about: Case, outcome: Outcome)

  /** `lastKey` is absent before the first case; a set `aborted` means that the script has exited. */
  datatype State = State(lastKey: Option<Pair>, startFailed: bool, trace: seq<Event>, csv: seq<Row>, aborted: bool)

  function Initial(csv: seq<Row>): State {
    State(None, false, [], csv, false)
  }

  function EnsureServer(st: State, c: Case, i: nat, env: Environment): State {
    if st.lastKey == Some(PairOf(c)) then st
    else
      var ok := env.startOk(i);
      st.(lastKey := Some(PairOf(c)), startFailed := !ok, trace := st.trace + [Start(PairOf(c), ok)])
  }

  /** One pass of the plan-reading loop; under `set -e` a failing command ends the script. */
  function Step(st: State, c: Case, i: nat, env: Environment): State {
    var s := EnsureServer(st, c, i, env);
    if s.startFailed then
      if env.skipRecorded(i) then
        s.(trace := s.trace + [Skip(c, true)], csv := s.csv + [Row(Some(c), StatusSkipped)])
      else s.(trace := s.trace + [Skip(c, false)], aborted := true)
    else
      var outcome := env.outcome(i);
      var t := s.(trace := s.trace + [Run(c, outcome)]);
      match outcome
      case Crashed => t.(aborted := true)
      case Finished(status) =>
        t.(csv := t.csv + [Row(Some(c), status)], aborted := !(status.StatusOk? || status.StatusPartial?))
  }

  /** The run from position `i` of the plan on. */
  function Drive(plan: seq<Case>, env: Environment, i: nat, st: State): State
    requires i <= |plan|
    decreases |plan| - i
  {
    if i == |plan| || st.aborted then st else Drive(plan, env, i + 1, Step(st, plan[i], i, env))
  }

  lemma DriveOnce(plan: seq<Case>, env: Environment, i: nat, st: State)
    requires i < |plan| && !st.aborted
    ensures Drive(plan, env, i, st) == Drive(plan, env, i + 1, Step(st, plan[i], i, env))
  {
    hide Step;
  }

  lemma DriveEnds(plan: seq<Case>, env: Environment, i: nat, st: State)
    requires i <= |plan| && (i == |plan| || st.aborted)
    ensures Drive(plan, env, i, st) == st
  {
  }

  /** The global variables of the driver script, with what it has done so far. */
  class Driver {
    const env: Environment
    var lastKey: Option<Pair>
    var startFailed: bool
    var trace: seq<Event>
    var csv: seq<Row>

    constructor (env: Environment, csv: seq<Row>)
      ensures this.env == env && lastKey == None && !startFailed && trace == [] && this.csv == csv
    {
      this.env, this.csv := env, csv;
      lastKey, startFailed, trace := None, false, [];
    }

    ghost function Now(aborted: bool): State
      reads this
    {
      State(lastKey, startFailed, trace, csv, aborted)
    }

    method StartServer(pair: Pair, i: nat) returns (ok: bool)
      modifies this`trace
      ensures ok == env.startOk(i) && trace == old(trace) + [Start(pair, ok)]
    {
      ok := env.startOk(i);
      trace := trace + [Start(pair, ok)];
    }

    method AppendSkip(c: Case, i: nat) returns (exitCode: int)
      modifies this`trace, this`csv
      ensures trace == old(trace) + [Skip(c, env.skipRecorded(i))]
      ensures exitCode == 0 <==> env.skipRecorded(i)
      ensures csv == if exitCode == 0 then old(csv) + [Row(Some(c), StatusSkipped)] else old(csv)
    {
      var recorded := env.skipRecorded(i);
      trace := trace + [Skip(c, recorded)];
      if !recorded {
        return 1;
      }
      csv := csv + [Row(Some(c), StatusSkipped)];
      return 0;
    }

    method RunCase(c: Case, i: nat) returns (exitCode: int)
      modifies this`trace, this`csv
      ensures trace == old(trace) + [Run(c, env.outcome(i))]
      ensures exitCode == 0 <==> env.outcome(i) == Finished(StatusOk) || env.outcome(i) == Finished(StatusPartial)
      ensures csv == match env.outcome(i)
                     case Crashed => old(csv)
                     case Finished(status) => old(csv) + [Row(Some(c), status)]
    {
      var outcome := env.outcome(i);
      trace := trace + [Run(c, outcome)];
      if outcome.Crashed? {
        return 1;
      }
      csv := csv + [Row(Some(c), outcome.status)];
      return if outcome.status.StatusOk? || outcome.status.StatusPartial? then 0 else 1;
    }

    /** The first half of a pass: a new transport and model gets a server, which may fail to start. */
    method SwitchServer(c: Case, i: nat)
      modifies this
      ensures Now(false) == EnsureServer(old(Now(false)), c, i, env)
    {
      if lastKey != Some(PairOf(c)) {
        startFailed := false;
        var ok := StartServer(PairOf(c), i);
        if !ok {
          startFailed := true;
        }
        lastKey := Some(PairOf(c));
      }
    }

    /** One pass of the main loop. */
    method HandleCase(c: Case, i: nat) returns (exitCode: int)
      modifies this
      ensures Now(exitCode != 0) == Step(old(Now(false)), c, i, env)
    {
      SwitchServer(c, i);
      hide EnsureServer;
      if startFailed {
        exitCode := AppendSkip(c, i);
      } else {
        exitCode := RunCase(c, i);
      }
    }

    /** The main loop of the script. */
    method DrivePlan(plan: seq<Case>) returns (aborted: bool)
      requires lastKey == None && !startFailed && trace == []
      modifies this
      ensures Now(aborted) == Drive(plan, env, 0, Initial(old(csv)))
    {
      hide Drive, Step;
      for i := 0 to |plan|
        invariant Drive(plan, env, i, Now(false)) == Drive(plan, env, 0, Initial(old(csv)))
      {
        DriveOnce(plan, env, i, Now(false));
        var exitCode := HandleCase(plan[i], i);
        if exitCode != 0 {
          DriveEnds(plan, env, i + 1, Now(true));
          return true;
        }
      }
      DriveEnds(plan, env, |plan|, Now(false));
      return false;
    }
  }

  // ----- What every run does -----

  function Starts(trace: seq<Event>): seq<Pair> {
    if trace == [] then []
    else Starts(trace[..|trace| - 1]) + (if trace[|trace| - 1].Start? then [trace[|trace| - 1].pair] else [])
  }

  function Processed(trace: seq<Event>): seq<Case> {
    if trace == [] then []
    else Processed(trace[..|trace| - 1]) + (if trace[|trace| - 1].Start? then [] else [trace[|trace| - 1].about])
  }

  function LatestStart(trace: seq<Event>): Option<Event> {
    if trace == [] then None
    else if trace[|trace| - 1].Start? then Some(trace[|trace| - 1])
    else LatestStart(trace[..|trace| - 1])
  }

  /** Clients run only on a server that was started, successfully and last, for their own transport and model. */
  ghost predicate Guarded(trace: seq<Event>) {
    forall n :: 0 <= n < |trace| ==>
      match trace[n]
      case Start(_, _) => true
      case Run(c, _) => LatestStart(trace[..n]) == Some(Start(PairOf(c), true))
      case Skip(c, _) => LatestStart(trace[..n]) == Some(Start(PairOf(c), false))
  }

  /** The pairs started are those of the first `n` cases. */
  ghost predicate StartsMatch(trace: seq<Event>, plan: seq<Case>, n: nat)
    requires n <= |plan|
  {
    && (forall k :: 0 <= k < n ==> PairOf(plan[k]) in Starts(trace))
    && forall p :: p in Starts(trace) ==> exists k :: 0 <= k < n && PairOf(plan[k]) == p
  }

  /** What holds after the first `i` cases of the plan. */
  ghost predicate Consistent(st: State, plan: seq<Case>, i: nat)
    requires i <= |plan|
  {
    && Guarded(st.trace)
    && Processed(st.trace) == plan[..i]
    && NoDuplicates(Starts(st.trace))
    && StartsMatch(st.trace, plan, i)
    && st.lastKey == (if i == 0 then None else Some(PairOf(plan[i - 1])))
    && (i > 0 ==> LatestStart(st.trace) == Some(Start(PairOf(plan[i - 1]), !st.startFailed)))
  }

  lemma TraceGrows(trace: seq<Event>, e: Event)
    ensures var t := trace + [e];
            && Starts(t) == Starts(trace) + (if e.Start? then [e.pair] else [])
            && Processed(t) == Processed(trace) + (if e.Start? then [] else [e.about])
            && LatestStart(t) == (if e.Start? then Some(e) else LatestStart(trace))
  {
    assert (trace + [e])[..|trace|] == trace;
  }

  lemma {:induction false} GuardedGrows(trace: seq<Event>, e: Event)
    requires Guarded(trace)
    requires e.Run? ==> LatestStart(trace) == Some(Start(PairOf(e.about), true))
    requires e.Skip? ==> LatestStart(trace) == Some(Start(PairOf(e.about), false))
    ensures Guarded(trace + [e])
  {
    var t := trace + [e];
    forall n | 0 <= n < |t|
      ensures n < |trace| ==> t[n] == trace[n] && t[..n] == trace[..n]
      ensures n == |trace| ==> t[..n] == trace
    {
    }
  }

  lemma GroupedBetween(plan: seq<Case>, i: nat, j: nat, k: nat)
    requires Grouped(plan) && i < j < k < |plan|
    ensures PairOf(plan[i]) == PairOf(plan[k]) ==> PairOf(plan[j]) == PairOf(plan[k])
  {
  }

  lemma PairIsNew(trace: seq<Event>, plan: seq<Case>, i: nat)
    requires Grouped(plan) && i < |plan| && StartsMatch(trace, plan, i)
    requires i > 0 ==> PairOf(plan[i - 1]) != PairOf(plan[i])
    ensures PairOf(plan[i]) !in Starts(trace)
  {
    forall k | 0 <= k < i
      ensures PairOf(plan[k]) != PairOf(plan[i])
    {
      if k < i - 1 {
        GroupedBetween(plan, k, i - 1, i);
      }
    }
  }

  lemma StartsMatchGrows(trace: seq<Event>, plan: seq<Case>, i: nat, e: Event)
    requires i < |plan| && StartsMatch(trace, plan, i) && e.Start? && e.pair == PairOf(plan[i])
    ensures StartsMatch(trace + [e], plan, i + 1)
  {
    TraceGrows(trace, e);
    var before, after := Starts(trace), Starts(trace + [e]);
    assert after[|before|] == e.pair;
    forall k | 0 <= k < i
      ensures PairOf(plan[k]) in after
    {
      assert PairOf(plan[k]) in before;
    }
  }

  lemma PairIsOld(trace: seq<Event>, plan: seq<Case>, i: nat)
    requires 0 < i < |plan| && StartsMatch(trace, plan, i) && PairOf(plan[i - 1]) == PairOf(plan[i])
    ensures StartsMatch(trace, plan, i + 1)
  {
  }

  /** Making sure of the server starts one exactly when the pair has not been seen; here grouping is needed. */
  lemma EnsureServerConsistent(st: State, plan: seq<Case>, i: nat, env: Environment)
    requires Grouped(plan) && i < |plan| && Consistent(st, plan, i)
    ensures var s := EnsureServer(st, plan[i], i, env);
            && Guarded(s.trace) && Processed(s.trace) == plan[..i] && NoDuplicates(Starts(s.trace))
            && StartsMatch(s.trace, plan, i + 1)
            && s.lastKey == Some(PairOf(plan[i]))
            && LatestStart(s.trace) == Some(Start(PairOf(plan[i]), !s.startFailed))
  {
    hide Starts, Processed, LatestStart, Guarded, StartsMatch;
    var pair := PairOf(plan[i]);
    if st.lastKey != Some(pair) {
      var e := Start(pair, env.startOk(i));
      TraceGrows(st.trace, e);
      GuardedGrows(st.trace, e);
      PairIsNew(st.trace, plan, i);
      StartsMatchGrows(st.trace, plan, i, e);
    } else {
      PairIsOld(st.trace, plan, i);
    }
  }

  lemma StepShape(st: State, c: Case, i: nat, env: Environment)
    ensures var s, r := EnsureServer(st, c, i, env), Step(st, c, i, env);
            && r.lastKey == s.lastKey && r.startFailed == s.startFailed
            && r.trace == s.trace + [if s.startFailed then Skip(c, env.skipRecorded(i)) else Run(c, env.outcome(i))]
  {
  }

  lemma ClientConsistent(s: State, r: State, plan: seq<Case>, i: nat, e: Event)
    requires i < |plan| && !e.Start? && e.about == plan[i]
    requires Guarded(s.trace) && Processed(s.trace) == plan[..i] && NoDuplicates(Starts(s.trace))
    requires StartsMatch(s.trace, plan, i + 1)
    requires s.lastKey == Some(PairOf(plan[i]))
    requires LatestStart(s.trace) == Some(Start(PairOf(plan[i]), !s.startFailed))
    requires e.Skip? <==> s.startFailed
    requires r.lastKey == s.lastKey && r.startFailed == s.startFailed && r.trace == s.trace + [e]
    ensures Consistent(r, plan, i + 1)
  {
    TraceGrows(s.trace, e);
    GuardedGrows(s.trace, e);
    assert plan[..i + 1] == plan[..i] + [plan[i]];
  }

  lemma {:induction false} StepConsistent(st: State, plan: seq<Case>, i: nat, env: Environment)
    requires Grouped(plan) && i < |plan| && Consistent(st, plan, i)
    ensures Consistent(Step(st, plan[i], i, env), plan, i + 1)
  {
    EnsureServerConsistent(st, plan, i, env);
    StepShape(st, plan[i], i, env);
    var s := EnsureServer(st, plan[i], i, env);
    var e := if s.startFailed then Skip(plan[i], env.skipRecorded(i)) else Run(plan[i], env.outcome(i));
    ClientConsistent(s, Step(st, plan[i], i, env), plan, i, e);
  }

  lemma {:induction false} DriveConsistent(plan: seq<Case>, env: Environment, i: nat, st: State) returns (n: nat)
    requires Grouped(plan) && i <= |plan| && Consistent(st, plan, i)
    ensures i <= n <= |plan| && Consistent(Drive(plan, env, i, st), plan, n)
    ensures !Drive(plan, env, i, st).aborted ==> n == |plan|
    decreases |plan| - i
  {
    hide *;
    if i == |plan| || st.aborted {
      n := i;
      DriveEnds(plan, env, i, st);
    } else {
      StepConsistent(st, plan, i, env);
      DriveOnce(plan, env, i, st);
      n := DriveConsistent(plan, env, i + 1, Step(st, plan[i], i, env));
    }
  }

  /**
   Every run of every plan: the processed cases are a prefix of the plan with one outcome each; no
   transport and model is started twice, and each of the plan is started once when the plan is
   exhausted; clients run only on their own, successfully started, latest server.
   */
  lemma RunProperties(config: Config, resume: bool, csv: seq<Row>, sample: int, picks: seq<nat>, env: Environment)
    requires 0 < sample < |OpenCases(config, resume, csv)| ==>
               IsSample(picks, sample, |OpenCases(config, resume, csv)|)
    ensures var plan := MakePlan(config, resume, csv, sample, picks);
            var end := Drive(plan, env, 0, Initial(csv));
            && Guarded(end.trace)
            && Processed(end.trace) <= plan
            && NoDuplicates(Starts(end.trace))
            && (!end.aborted ==>
                  Processed(end.trace) == plan
                  && StartsMatch(end.trace, plan, |plan|))
  {
    var plan := MakePlan(config, resume, csv, sample, picks);
    PlanProperties(config, resume, csv, sample, picks);
    var n := DriveConsistent(plan, env, 0, Initial(csv));
    assert plan[..|plan|] == plan;
  }

  /** The rows an event has added to the result file. */
  function RowOf(e: Event): seq<Row> {
    if e.Skip? && e.recorded then [Row(Some(e.about), StatusSkipped)]
    else if e.Run? && e.outcome.Finished? then [Row(Some(e.about), e.outcome.status)]
    else []
  }

  /** Events after which the script exits. */
  predicate Fails(e: Event) {
    || (e.Skip? && !e.recorded)
    || (e.Run? && e.outcome != Finished(StatusOk) && e.outcome != Finished(StatusPartial))
  }

  function RowsOf(trace: seq<Event>): seq<Row> {
    if trace == [] then [] else RowsOf(trace[..|trace| - 1]) + RowOf(trace[|trace| - 1])
  }

  /** All rows come from the trace, and the script has exited exactly when the last event of the trace failed. */
  ghost predicate Accounted(st: State, csv: seq<Row>) {
    && st.csv == csv + RowsOf(st.trace)
    && (st.aborted <==> st.trace != [] && Fails(st.trace[|st.trace| - 1]))
  }

  lemma EventAccounted(st: State, r: State, e: Event, csv: seq<Row>)
    requires st.csv == csv + RowsOf(st.trace)
    requires r.trace == st.trace + [e] && r.csv == st.csv + RowOf(e) && r.aborted == Fails(e)
    ensures Accounted(r, csv)
  {
    assert r.trace[..|st.trace|] == st.trace;
  }

  lemma {:induction false} StepAccounted(st: State, c: Case, i: nat, env: Environment, csv: seq<Row>)
    requires Accounted(st, csv) && !st.aborted
    ensures Accounted(Step(st, c, i, env), csv)
  {
    var s := EnsureServer(st, c, i, env);
    if st.lastKey != Some(PairOf(c)) {
      EventAccounted(st, s, Start(PairOf(c), env.startOk(i)), csv);
    }
    var e := if s.startFailed then Skip(c, env.skipRecorded(i)) else Run(c, env.outcome(i));
    EventAccounted(s, Step(st, c, i, env), e, csv);
  }

  /** The rows a run adds are the recorded outcomes of its trace, in order; it exits early only after a failure. */
  lemma {:induction false} RowsMatchTrace(plan: seq<Case>, env: Environment, i: nat, st: State, csv: seq<Row>)
    requires i <= |plan| && Accounted(st, csv)
    ensures Accounted(Drive(plan, env, i, st), csv)
    decreases |plan| - i
  {
    hide *;
    if i < |plan| && !st.aborted {
      DriveOnce(plan, env, i, st);
      StepAccounted(st, plan[i], i, env, csv);
      RowsMatchTrace(plan, env, i + 1, Step(st, plan[i], i, env), csv);
    } else {
      DriveEnds(plan, env, i, st);
    }
  }

  // ----- Resumed runs -----

  /** The plan of a run that resumes and does not sample. */
  function ResumedPlan(config: Config, csv: seq<Row>): seq<Case> {
    MakePlan(config, true, csv, 0, [])
  }

  /** That plan is the product minus the done cases, each as often as the product has it. */
  lemma ResumedPlanIsOpenProduct(config: Config, csv: seq<Row>)
    ensures forall c :: multiset(ResumedPlan(config, csv))[c]
                     == if c in Done(csv) then 0 else multiset(AllCases(config))[c]
    ensures forall c :: c in ResumedPlan(config, csv) <==> InConfig(config, c) && c !in Done(csv)
  {
    NotDoneAre(AllCases(config), Done(csv));
    SortedPlan(config, OpenCases(config, true, csv));
    OpenCasesAre(config, true, csv);
  }

  /** A resumed plan has a case of the configuration exactly when no row says that it went well or was skipped. */
  lemma PlannedExactly(config: Config, csv: seq<Row>, c: Case)
    ensures c in ResumedPlan(config, csv) <==>
            && c.transport in config.transports && c.model in config.models
            && c.concurrency in config.concurrencies && c.maxTokens == config.maxTokens
            && forall i :: 0 <= i < |csv| && csv[i].about == Some(c) ==>
                 csv[i].status != StatusOk && csv[i].status != StatusSkipped
  {
    ResumedPlanIsOpenProduct(config, csv);
    hide ResumedPlan, AllCases;
    if c !in Done(csv) {
      forall i | 0 <= i < |csv| && csv[i].about == Some(c)
        ensures csv[i].status != StatusOk && csv[i].status != StatusSkipped
      {
        assert csv[i].about.value !in Done(csv);
      }
    }
  }

  /** What an interrupted run has written: it was stopped after the first `cut` cases of its plan, or earlier. */
  function RunState(config: Config, csv: seq<Row>, env: Environment, cut: nat): State {
    var plan := ResumedPlan(config, csv);
    Drive(if cut < |plan| then plan[..cut] else plan, env, 0, Initial(csv))
  }

  function RunRows(config: Config, csv: seq<Row>, env: Environment, cut: nat): seq<Row> {
    RunState(config, csv, env, cut).csv
  }

  /** The events that settle a case: its client reported success or a skip, or its skip was recorded. */
  predicate Settles(e: Event, c: Case) {
    e == Run(c, Finished(StatusOk)) || e == Run(c, Finished(StatusSkipped)) || e == Skip(c, true)
  }

  lemma StepAppends(st: State, c: Case, i: nat, env: Environment)
    ensures var csv := Step(st, c, i, env).csv;
            st.csv <= csv && forall k :: |st.csv| <= k < |csv| ==> csv[k].about == Some(c)
  {
  }

  lemma {:induction false} DriveAppends(plan: seq<Case>, env: Environment, i: nat, st: State)
    requires i <= |plan|
    ensures var csv := Drive(plan, env, i, st).csv;
            && st.csv <= csv
            && forall k :: |st.csv| <= k < |csv| ==> csv[k].about.Some? && csv[k].about.value in plan
    decreases |plan| - i
  {
    hide *;
    if i < |plan| && !st.aborted {
      DriveOnce(plan, env, i, st);
      StepAppends(st, plan[i], i, env);
      DriveAppends(plan, env, i + 1, Step(st, plan[i], i, env));
    } else {
      DriveEnds(plan, env, i, st);
    }
  }

  lemma DoneGrows(csv: seq<Row>, more: seq<Row>)
    requires csv <= more
    ensures Done(csv) <= Done(more)
  {
    forall c | c in Done(csv)
      ensures c in Done(more)
    {
      var i :| 0 <= i < |csv| && csv[i].about == Some(c) && (csv[i].status.StatusOk? || csv[i].status.StatusSkipped?);
      assert more[i] == csv[i];
    }
  }

  /** The run wrote a row that counts as done. */
  ghost predicate Productive(csv: seq<Row>, more: seq<Row>) {
    exists k :: |csv| <= k < |more| && (more[k].status.StatusOk? || more[k].status.StatusSkipped?)
  }

  lemma LostElement<T>(a: multiset<T>, b: multiset<T>, x: T)
    requires a <= b && a[x] < b[x]
    ensures |a| < |b|
  {
    assert b == a + (b - a);
    assert x in b - a;
  }

  predicate IsDoneRow(r: Row, c: Case) {
    r.about == Some(c) && (r.status == StatusOk || r.status == StatusSkipped)
  }

  ghost predicate HasDoneRow(rows: seq<Row>, c: Case) {
    exists i :: 0 <= i < |rows| && IsDoneRow(rows[i], c)
  }

  ghost predicate Settled(trace: seq<Event>, c: Case) {
    exists k :: 0 <= k < |trace| && Settles(trace[k], c)
  }

  lemma SettlingRow(e: Event, c: Case)
    ensures HasDoneRow(RowOf(e), c) <==> Settles(e, c)
  {
    if Settles(e, c) {
      assert IsDoneRow(RowOf(e)[0], c);
    }
  }

  lemma DoneRowOfConcat(a: seq<Row>, b: seq<Row>, c: Case)
    ensures HasDoneRow(a + b, c) <==> HasDoneRow(a, c) || HasDoneRow(b, c)
  {
    var all := a + b;
    hide IsDoneRow;
    if i :| 0 <= i < |a| && IsDoneRow(a[i], c) {
      assert all[i] == a[i];
    }
    if i :| 0 <= i < |b| && IsDoneRow(b[i], c) {
      assert all[|a| + i] == b[i];
    }
    if i :| 0 <= i < |all| && IsDoneRow(all[i], c) {
      assert if i < |a| then all[i] == a[i] else all[i] == b[i - |a|];
    }
  }

  lemma SettledLast(trace: seq<Event>, c: Case)
    requires trace != []
    ensures Settled(trace, c) <==> Settled(trace[..|trace| - 1], c) || Settles(trace[|trace| - 1], c)
  {
    hide Settles;
    var init := trace[..|trace| - 1];
    if k :| 0 <= k < |init| && Settles(init[k], c) {
      assert trace[k] == init[k];
    }
    if k :| 0 <= k < |trace| && Settles(trace[k], c) {
      assert k < |init| ==> init[k] == trace[k];
    }
  }

  lemma {:induction false} RowsOfTrace(trace: seq<Event>, c: Case)
    ensures HasDoneRow(RowsOf(trace), c) <==> Settled(trace, c)
  {
    if trace != [] {
      hide HasDoneRow, Settled, Settles, RowOf;
      var init, e := trace[..|trace| - 1], trace[|trace| - 1];
      RowsOfTrace(init, c);
      SettlingRow(e, c);
      DoneRowOfConcat(RowsOf(init), RowOf(e), c);
      SettledLast(trace, c);
    }
  }

  lemma PlannedUnlessDone(config: Config, csv: seq<Row>, c: Case)
    ensures c in ResumedPlan(config, csv) <==> InConfig(config, c) && !HasDoneRow(csv, c)
  {
    PlannedExactly(config, csv, c);
    hide ResumedPlan;
    if HasDoneRow(csv, c) {
      var i :| 0 <= i < |csv| && IsDoneRow(csv[i], c);
    } else {
      assert forall i :: 0 <= i < |csv| ==> !IsDoneRow(csv[i], c);
    }
  }

  lemma RunAccounted(config: Config, csv: seq<Row>, env: Environment, cut: nat)
    ensures RunRows(config, csv, env, cut) == csv + RowsOf(RunState(config, csv, env, cut).trace)
  {
    var plan := ResumedPlan(config, csv);
    RowsMatchTrace(if cut < |plan| then plan[..cut] else plan, env, 0, Initial(csv), csv);
    hide Drive, ResumedPlan, RowsOf;
  }

  /** The next plan has exactly the cases of this one that no event of the run has settled. */
  lemma NextPlanExactly(config: Config, csv: seq<Row>, env: Environment, cut: nat, c: Case)
    ensures c in ResumedPlan(config, RunRows(config, csv, env, cut)) <==>
            && c in ResumedPlan(config, csv)
            && forall k :: 0 <= k < |RunState(config, csv, env, cut).trace| ==>
                 !Settles(RunState(config, csv, env, cut).trace[k], c)
  {
    var trace := RunState(config, csv, env, cut).trace;
    assert Settled(trace, c) <==> !forall k :: 0 <= k < |trace| ==> !Settles(trace[k], c);
    hide *;
    RunAccounted(config, csv, env, cut);
    PlannedUnlessDone(config, csv, c);
    PlannedUnlessDone(config, RunRows(config, csv, env, cut), c);
    RowsOfTrace(trace, c);
    DoneRowOfConcat(csv, RowsOf(trace), c);
  }

  /**
   A run only appends, about cases of its own plan; done cases stay done; the next plan is part of this
   one, and smaller when the run wrote an ok or a skipped row.
   */
  lemma ResumedRun(config: Config, csv: seq<Row>, env: Environment, cut: nat)
    ensures var more := RunRows(config, csv, env, cut);
            && csv <= more
            && Done(csv) <= Done(more)
            && multiset(ResumedPlan(config, more)) <= multiset(ResumedPlan(config, csv))
            && (Productive(csv, more) ==> |ResumedPlan(config, more)| < |ResumedPlan(config, csv)|)
  {
    hide ResumedPlan, Drive, AllCases;
    var plan := ResumedPlan(config, csv);
    var part := if cut < |plan| then plan[..cut] else plan;
    var more := RunRows(config, csv, env, cut);
    DriveAppends(part, env, 0, Initial(csv));
    DoneGrows(csv, more);
    ResumedPlanIsOpenProduct(config, csv);
    ResumedPlanIsOpenProduct(config, more);
    var before, after := multiset(plan), multiset(ResumedPlan(config, more));
    assert after <= before;
    if k :| |csv| <= k < |more| && (more[k].status.StatusOk? || more[k].status.StatusSkipped?) {
      var c := more[k].about.value;
      assert c in part && c in plan && c in Done(more);
      assert before[c] > 0 && after[c] == 0;
      LostElement(after, before, c);
    }
  }

  /** The result file after `k` resumed runs. */
  function History(config: Config, csv: seq<Row>, envs: seq<Environment>, cuts: seq<nat>, k: nat): seq<Row>
    requires k <= |envs| == |cuts|
  {
    if k == 0 then csv
    else RunRows(config, History(config, csv, envs, cuts, k - 1), envs[k - 1], cuts[k - 1])
  }

  /** Over any sequence of interrupted runs the done set only grows, and a done case is never planned again. */
  lemma {:induction false} DoneStaysDone(config: Config, csv: seq<Row>, envs: seq<Environment>, cuts: seq<nat>,
                                         j: nat, k: nat)
    requires j <= k <= |envs| == |cuts|
    ensures Done(History(config, csv, envs, cuts, j)) <= Done(History(config, csv, envs, cuts, k))
    ensures forall c :: c in Done(History(config, csv, envs, cuts, j)) ==>
              c !in ResumedPlan(config, History(config, csv, envs, cuts, k))
    decreases k
  {
    hide Done, ResumedPlan, RunRows;
    if j < k {
      DoneStaysDone(config, csv, envs, cuts, j, k - 1);
      ResumedRun(config, History(config, csv, envs, cuts, k - 1), envs[k - 1], cuts[k - 1]);
    }
    ResumedPlanIsOpenProduct(config, History(config, csv, envs, cuts, k));
  }

  /** There are at most as many productive runs as cases to begin with: resuming comes to an end. */
  lemma {:induction false} ProductiveRunsBounded(config: Config, csv: seq<Row>, envs: seq<Environment>,
                                                 cuts: seq<nat>, k: nat)
    requires k <= |envs| == |cuts|
    requires forall i :: 0 <= i < k ==>
               Productive(History(config, csv, envs, cuts, i), History(config, csv, envs, cuts, i + 1))
    ensures |ResumedPlan(config, History(config, csv, envs, cuts, k))| + k <= |ResumedPlan(config, csv)|
  {
    hide ResumedPlan, RunRows, Productive;
    if k > 0 {
      ProductiveRunsBounded(config, csv, envs, cuts, k - 1);
      ResumedRun(config, History(config, csv, envs, cuts, k - 1), envs[k - 1], cuts[k - 1]);
      assert Productive(History(config, csv, envs, cuts, k - 1), History(config, csv, envs, cuts, k - 1 + 1));
    }
  }
}
