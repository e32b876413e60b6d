/** Choosing the ROCm version shared by all wheel projects, and one distribution of each. */
module ReleaseSelection {
  import opened Wrappers
  import opened Orders
  import opened Strings
  import opened Versions

  datatype Distribution = Distribution(packageVersion: string, rocmVersion: Option<string>, pythonTag: string,
                                       abiTag: string, platformTag: string, isWheel: bool)

  type Index = map<string, seq<Distribution>>

  /** The arguments that stay fixed during a selection. */
  datatype Request = Request(series: string, pythonTag: string, packageVersions: map<string, string>)

  datatype SelectionError = NoneInSeries(project: string) | NoCommonVersion | NoDistribution | EmptyProject

  function NormalizeProject(project: string): string {
    Lower(seq(|project|, i requires 0 <= i < |project| => if project[i] == '_' then '-' else project[i]))
  }

  predicate MatchesPython(d: Distribution, pythonTag: string) {
    d.pythonTag == "py3" || d.pythonTag == "source" || (d.pythonTag == pythonTag && d.abiTag == pythonTag)
  }

  predicate MatchesPlatform(d: Distribution) {
    d.platformTag == "linux_x86_64" || d.platformTag == "any" || d.platformTag == "source"
  }

  /** The part of a version before the first plus sign. */
  function PublicVersion(version: string): string {
    SplitOn('+', version)[0]
  }

  predicate Usable(d: Distribution, request: Request, project: string) {
    var name := NormalizeProject(project);
    && MatchesPython(d, request.pythonTag)
    && MatchesPlatform(d)
    && (name in request.packageVersions ==> PublicVersion(d.packageVersion) == request.packageVersions[name])
  }

  /** `name` is the project in lower case with dashes for underscores, character by character. */
  ghost predicate NamesProject(name: string, project: string) {
    && |name| == |project|
    && forall i :: 0 <= i < |name| ==>
         if project[i] == '_' || project[i] == '-' then name[i] == '-'
         else if 'A' <= project[i] <= 'Z' then name[i] as int - 'a' as int == project[i] as int - 'A' as int
         else name[i] == project[i]
  }

  lemma NormalizedName(name: string, project: string)
    ensures NamesProject(name, project) <==> name == NormalizeProject(project)
  {
    var normal := NormalizeProject(project);
    forall i | 0 <= i < |project| && |name| == |project|
      ensures name[i] == normal[i] <==>
              if project[i] == '_' || project[i] == '-' then name[i] == '-'
              else if 'A' <= project[i] <= 'Z' then name[i] as int - 'a' as int == project[i] as int - 'A' as int
              else name[i] == project[i]
    {
    }
  }

  /** `public` is the version itself, or all of it before its first plus sign. */
  ghost predicate IsPublicPart(public: string, version: string) {
    && public <= version
    && (forall i :: 0 <= i < |public| ==> version[i] != '+')
    && (|public| == |version| || version[|public|] == '+')
  }

  lemma FirstIsPublic(version: string)
    ensures IsPublicPart(PublicVersion(version), version)
  {
    hide SplitOn;
    var pieces := SplitOn('+', version);
    PiecesHaveNoSeparator('+', version);
    assert pieces[0] in pieces;
    JoinSplit('+', version);
    if |pieces| == 1 {
      assert pieces == [pieces[0]];
    } else {
      assert pieces == [pieces[0]] + pieces[1..];
      JoinCons('+', pieces[0], pieces[1..]);
    }
  }

  lemma OnePublicPart(a: string, b: string, version: string)
    requires IsPublicPart(a, version) && IsPublicPart(b, version)
    ensures a == b
  {
    assert |a| == |b|;
  }

  lemma PublicParts(public: string, version: string)
    ensures IsPublicPart(public, version) <==> public == PublicVersion(version)
  {
    hide IsPublicPart, PublicVersion;
    FirstIsPublic(version);
    if IsPublicPart(public, version) {
      OnePublicPart(public, PublicVersion(version), version);
    }
  }

  /**
   A distribution is usable exactly when its Python and platform tags fit and its public version is the
   one configured for the project, if one is.
   */
  lemma UsableExactly(d: Distribution, request: Request, project: string)
    ensures Usable(d, request, project) <==>
            && (d.pythonTag in {"py3", "source"} || d.pythonTag == d.abiTag == request.pythonTag)
            && d.platformTag in {"linux_x86_64", "any", "source"}
            && forall name :: name in request.packageVersions && NamesProject(name, project) ==>
                 IsPublicPart(request.packageVersions[name], d.packageVersion)
  {
    hide NormalizeProject, PublicVersion, NamesProject, IsPublicPart;
    forall name
      ensures NamesProject(name, project) <==> name == NormalizeProject(project)
    {
      NormalizedName(name, project);
    }
    forall public
      ensures IsPublicPart(public, d.packageVersion) <==> public == PublicVersion(d.packageVersion)
    {
      PublicParts(public, d.packageVersion);
    }
  }

  predicate Tagged(ds: seq<Distribution>) {
    exists i :: 0 <= i < |ds| && ds[i].rocmVersion.Some?
  }

  /** `version` is offered in the series by a usable distribution of the project. */
  predicate Offers(request: Request, project: string, ds: seq<Distribution>, version: string) {
    exists i :: 0 <= i < |ds| && ds[i].rocmVersion == Some(version) && InRocmSeries(version, request.series)
                && Usable(ds[i], request, project)
  }

  /** Some project is ROCm-tagged, and all tagged projects offer `version`. */
  ghost predicate Shared(request: Request, index: Index, version: string) {
    && (exists p :: p in index && Tagged(index[p]))
    && forall p :: p in index && Tagged(index[p]) ==> Offers(request, p, index[p], version)
  }

  lemma OffersStep(request: Request, project: string, ds: seq<Distribution>, i: nat, v: string)
    requires i < |ds|
    ensures Offers(request, project, ds[..i + 1], v) <==>
            Offers(request, project, ds[..i], v) ||
            (ds[i].rocmVersion == Some(v) && InRocmSeries(v, request.series) && Usable(ds[i], request, project))
  {
    var init, more := ds[..i], ds[..i + 1];
    if Offers(request, project, init, v) {
      var k :| 0 <= k < |init| && init[k].rocmVersion == Some(v) && InRocmSeries(v, request.series)
               && Usable(init[k], request, project);
      assert more[k] == init[k];
    }
    if Offers(request, project, more, v) {
      var k :| 0 <= k < |more| && more[k].rocmVersion == Some(v) && InRocmSeries(v, request.series)
               && Usable(more[k], request, project);
      assert k < i ==> init[k] == more[k];
    }
    assert more[i] == ds[i];
  }

  /** The versions a project offers, as the set comprehension collects them. */
  method OfferedVersions(request: Request, project: string, ds: seq<Distribution>) returns (versions: set<string>)
    ensures forall v :: v in versions <==> Offers(request, project, ds, v)
  {
    versions := {};
    for i := 0 to |ds|
      invariant forall v :: v in versions <==> Offers(request, project, ds[..i], v)
    {
      var d := ds[i];
      forall v
        ensures Offers(request, project, ds[..i + 1], v) <==>
                Offers(request, project, ds[..i], v) ||
                (d.rocmVersion == Some(v) && InRocmSeries(v, request.series) && Usable(d, request, project))
      {
        OffersStep(request, project, ds, i, v);
      }
      if d.rocmVersion.Some? && InRocmSeries(d.rocmVersion.value, request.series) && Usable(d, request, project) {
        versions := versions + {d.rocmVersion.value};
      }
    }
    assert ds[..|ds|] == ds;
  }

  /** Python lists a set in an order of its own. */
  method ListSet(s: set<string>) returns (listing: seq<string>)
    ensures forall v :: v in listing <==> v in s
    ensures s != {} ==> listing != []
  {
    listing := [];
    var rest := s;
    while rest != {}
      invariant rest <= s
      invariant forall v :: v in listing <==> v in s && v !in rest
    {
      var v :| v in rest;
      listing := listing + [v];
      rest := rest - {v};
    }
    if listing == [] {
      assert forall v :: v in s ==> v in listing;
    }
  }

  ghost predicate AnyTagged(index: Index, projects: seq<string>, n: nat)
    requires n <= |projects| && forall p :: p in projects ==> p in index
  {
    exists k :: 0 <= k < n && Tagged(index[projects[k]])
  }

  /** Every tagged project among the first `n` offers `v`. */
  ghost predicate AllOffer(request: Request, index: Index, projects: seq<string>, n: nat, v: string)
    requires n <= |projects| && forall p :: p in projects ==> p in index
  {
    forall k :: 0 <= k < n && Tagged(index[projects[k]]) ==> Offers(request, projects[k], index[projects[k]], v)
  }

  lemma SharedByAll(request: Request, index: Index, projects: seq<string>, v: string)
    requires forall p :: p in projects <==> p in index
    ensures Shared(request, index, v) <==>
            AnyTagged(index, projects, |projects|) && AllOffer(request, index, projects, |projects|, v)
  {
    forall p | p in index
      ensures exists k :: 0 <= k < |projects| && projects[k] == p
    {
      assert p in projects;
    }
    forall k | 0 <= k < |projects|
      ensures projects[k] in index
    {
      assert projects[k] in projects;
    }
  }

  ghost predicate OffersNothing(request: Request, project: string, ds: seq<Distribution>) {
    forall v :: !Offers(request, project, ds, v)
  }

  lemma NoneOffered(request: Request, project: string, ds: seq<Distribution>, versions: set<string>)
    requires forall v :: v in versions <==> Offers(request, project, ds, v)
    ensures versions == {} <==> OffersNothing(request, project, ds)
  {
    if versions != {} {
      var v :| v in versions;
      assert Offers(request, project, ds, v);
    }
  }

  lemma NothingTaggedYet(index: Index, projects: seq<string>)
    requires forall p :: p in projects ==> p in index
    ensures !AnyTagged(index, projects, 0)
  {
  }

  lemma UntaggedStep(request: Request, index: Index, projects: seq<string>, i: nat)
    requires i < |projects| && (forall p :: p in projects ==> p in index) && !Tagged(index[projects[i]])
    ensures AnyTagged(index, projects, i + 1) <==> AnyTagged(index, projects, i)
    ensures forall v :: AllOffer(request, index, projects, i + 1, v) <==> AllOffer(request, index, projects, i, v)
  {
    hide Tagged, Offers;
  }

  lemma TaggedStep(request: Request, index: Index, projects: seq<string>, i: nat)
    requires i < |projects| && (forall p :: p in projects ==> p in index) && Tagged(index[projects[i]])
    ensures AnyTagged(index, projects, i + 1)
    ensures forall v :: AllOffer(request, index, projects, i + 1, v) <==>
              AllOffer(request, index, projects, i, v) && Offers(request, projects[i], index[projects[i]], v)
  {
    hide Tagged, Offers;
  }

  lemma NoneTagged(request: Request, index: Index, projects: seq<string>, i: nat)
    requires i <= |projects| && (forall p :: p in projects ==> p in index) && !AnyTagged(index, projects, i)
    ensures forall v :: AllOffer(request, index, projects, i, v)
  {
    hide Tagged, Offers;
  }

  /** The loop of the selection: the intersection of the versions offered by the tagged projects. */
  method CommonVersions(request: Request, index: Index, projects: seq<string>)
      returns (result: Result<Option<set<string>>, SelectionError>)
    requires forall p :: p in projects ==> p in index
    ensures result.Ok? ==>
              && (result.value.Some? <==> AnyTagged(index, projects, |projects|))
              && (result.value.Some? ==>
                    forall v :: v in result.value.value <==> AllOffer(request, index, projects, |projects|, v))
              && forall p :: p in projects && Tagged(index[p]) ==> !OffersNothing(request, p, index[p])
    ensures result.Err? ==>
              && result.error.NoneInSeries? && result.error.project in projects
              && Tagged(index[result.error.project])
              && OffersNothing(request, result.error.project, index[result.error.project])
  {
    hide Tagged, Offers, OffersNothing, AnyTagged, AllOffer;
    var common: Option<set<string>> := None;
    NothingTaggedYet(index, projects);
    for i := 0 to |projects|
      invariant common.Some? <==> AnyTagged(index, projects, i)
      invariant common.Some? ==> forall v :: v in common.value <==> AllOffer(request, index, projects, i, v)
      invariant forall k :: 0 <= k < i && Tagged(index[projects[k]]) ==>
                  !OffersNothing(request, projects[k], index[projects[k]])
    {
      var project := projects[i];
      var versions := OfferedVersions(request, project, index[project]);
      NoneOffered(request, project, index[project], versions);
      if !Tagged(index[project]) {
        UntaggedStep(request, index, projects, i);
        continue;
      }
      if versions == {} {
        return Err(NoneInSeries(project));
      }
      TaggedStep(request, index, projects, i);
      if common.None? {
        NoneTagged(request, index, projects, i);
      }
      common := Some(if common.None? then versions else common.value * versions);
    }
    return Ok(common);
  }

  /** `sorted(versions, key=version_key)[-1]`. */
  method LatestVersion(versions: set<string>) returns (latest: string)
    requires versions != {}
    ensures latest in versions && forall v :: v in versions ==> VersionLeq(v, latest)
  {
    var listing := ListSet(versions);
    VersionLeqIsPreorder();
    ghost var last := SortLast(VersionLeq, listing);
    assert listing[last] in listing;
    return Sort(VersionLeq, listing)[|listing| - 1];
  }

  /**
   Succeeds exactly when the tagged projects share a version in the series, with one that no other
   shared version outranks; the order of the projects has no say in either.
   */
  method ChooseRocmVersion(request: Request, index: Index, projects: seq<string>)
      returns (result: Result<string, SelectionError>)
    requires forall p :: p in projects <==> p in index
    ensures result.Ok? <==> exists v :: Shared(request, index, v)
    ensures result.Ok? ==>
              && Shared(request, index, result.value)
              && forall v :: Shared(request, index, v) ==> VersionLeq(v, result.value)
    ensures result.Err? ==>
              match result.error
              case NoneInSeries(p) => p in index && Tagged(index[p]) && OffersNothing(request, p, index[p])
              case NoCommonVersion =>
                forall p :: p in index && Tagged(index[p]) ==> !OffersNothing(request, p, index[p])
              case _ => false
  {
    var common := CommonVersions(request, index, projects);
    forall v {
      SharedByAll(request, index, projects, v);
    }
    if common.Err? {
      return Err(common.error);
    }
    if common.value.None? || common.value.value == {} {
      assert common.value.Some? ==> forall v :: v !in common.value.value;
      return Err(NoCommonVersion);
    }
    var latest := LatestVersion(common.value.value);
    return Ok(latest);
  }

  // ----- One distribution of each project -----

  predicate Candidate(d: Distribution, request: Request, project: string, rocmVersion: string) {
    (d.rocmVersion == None || d.rocmVersion == Some(rocmVersion)) && Usable(d, request, project)
  }

  function Candidates(ds: seq<Distribution>, request: Request, project: string, rocmVersion: string)
    : seq<Distribution>
  {
    if ds == [] then []
    else
      (if Candidate(ds[0], request, project, rocmVersion) then [ds[0]] else [])
      + Candidates(ds[1..], request, project, rocmVersion)
  }

  /** Wheels over source distributions, then the newer public package version. */
  predicate DistributionLeq(a: Distribution, b: Distribution) {
    if a.isWheel != b.isWheel then b.isWheel
    else VersionLeq(PublicVersion(a.packageVersion), PublicVersion(b.packageVersion))
  }

  lemma VersionLeqTransitive(a: string, b: string, c: string)
    requires VersionLeq(a, b) && VersionLeq(b, c)
    ensures VersionLeq(a, c)
  {
    VersionLeqIsPreorder();
  }

  lemma {:induction false} DistributionLeqIsPreorder()
    ensures IsTotalPreorder(DistributionLeq)
  {
    VersionLeqIsPreorder();
    forall a: Distribution, b: Distribution, c: Distribution | DistributionLeq(a, b) && DistributionLeq(b, c)
      ensures DistributionLeq(a, c)
    {
      if a.isWheel == b.isWheel == c.isWheel {
        VersionLeqTransitive(PublicVersion(a.packageVersion), PublicVersion(b.packageVersion),
                             PublicVersion(c.packageVersion));
      }
    }
  }

  /** The failing branch reads the project of the first distribution, so an empty project raises differently. */
  function ChooseDistribution(ds: seq<Distribution>, request: Request, project: string, rocmVersion: string)
    : Result<Distribution, SelectionError>
  {
    var candidates := Candidates(ds, request, project, rocmVersion);
    if candidates != [] then Ok(Sort(DistributionLeq, candidates)[|candidates| - 1])
    else if ds == [] then Err(EmptyProject)
    else Err(NoDistribution)
  }

  lemma {:induction false} CandidatesAre(ds: seq<Distribution>, request: Request, project: string, rocmVersion: string)
    ensures forall d :: d in Candidates(ds, request, project, rocmVersion) <==>
                        d in ds && Candidate(d, request, project, rocmVersion)
  {
    if ds != [] {
      CandidatesAre(ds[1..], request, project, rocmVersion);
      assert ds == [ds[0]] + ds[1..];
    }
  }

  /** The choice is the last candidate that no candidate outranks. */
  lemma ChosenIsLastBest(ds: seq<Distribution>, request: Request, project: string, rocmVersion: string)
      returns (i: nat)
    requires ChooseDistribution(ds, request, project, rocmVersion).Ok?
    ensures var cs := Candidates(ds, request, project, rocmVersion);
            && i < |cs| && ChooseDistribution(ds, request, project, rocmVersion) == Ok(cs[i])
            && cs[i] in ds && Candidate(cs[i], request, project, rocmVersion)
            && (forall j :: 0 <= j < |cs| ==> DistributionLeq(cs[j], cs[i]))
            && forall j :: i < j < |cs| ==> !DistributionLeq(cs[i], cs[j])
  {
    hide Candidates, Candidate, DistributionLeq, Sort;
    var cs := Candidates(ds, request, project, rocmVersion);
    DistributionLeqIsPreorder();
    CandidatesAre(ds, request, project, rocmVersion);
    i := SortLast(DistributionLeq, cs);
    assert cs[i] in cs;
  }

  /**
   The choice is a wheel exactly when some candidate is, and no candidate of its kind has a newer public
   version; without a candidate it depends on whether the project has distributions at all.
   */
  lemma ChoiceExactly(ds: seq<Distribution>, request: Request, project: string, rocmVersion: string)
    ensures var choice := ChooseDistribution(ds, request, project, rocmVersion);
            && (choice == Err(EmptyProject) <==> ds == [])
            && (choice == Err(NoDistribution) <==>
                ds != [] && forall d :: d in ds ==> !Candidate(d, request, project, rocmVersion))
            && (choice.Ok? ==>
                  && choice.value in ds && Candidate(choice.value, request, project, rocmVersion)
                  && (choice.value.isWheel <==>
                      exists d :: d in ds && Candidate(d, request, project, rocmVersion) && d.isWheel)
                  && forall d :: d in ds && Candidate(d, request, project, rocmVersion)
                                 && d.isWheel == choice.value.isWheel ==>
                       VersionLeq(PublicVersion(d.packageVersion), PublicVersion(choice.value.packageVersion)))
  {
    hide Candidate, VersionLeq, PublicVersion, Sort;
    var cs := Candidates(ds, request, project, rocmVersion);
    CandidatesAre(ds, request, project, rocmVersion);
    if cs != [] {
      var i := ChosenIsLastBest(ds, request, project, rocmVersion);
      forall d | d in cs
        ensures DistributionLeq(d, cs[i])
      {
        var j :| 0 <= j < |cs| && cs[j] == d;
      }
    } else {
      assert forall d :: d in ds ==> d !in cs;
    }
  }

  /** A candidate exists exactly when the choice succeeds. */
  lemma ChoiceSucceeds(ds: seq<Distribution>, request: Request, project: string, rocmVersion: string)
    ensures ChooseDistribution(ds, request, project, rocmVersion).Ok? <==>
            exists d :: d in ds && Candidate(d, request, project, rocmVersion)
  {
    CandidatesAre(ds, request, project, rocmVersion);
    var cs := Candidates(ds, request, project, rocmVersion);
    if cs != [] {
      assert cs[0] in cs;
    }
  }

  /**
   The distribution chosen need not carry the chosen version's tag. It does exactly when some tagged
   candidate outranks every untagged candidate, or ties with it and is listed later.
   */
  lemma ChosenIsTagged(ds: seq<Distribution>, request: Request, project: string, rocmVersion: string)
    requires ChooseDistribution(ds, request, project, rocmVersion).Ok?
    ensures var cs := Candidates(ds, request, project, rocmVersion);
            ChooseDistribution(ds, request, project, rocmVersion).value.rocmVersion.Some? <==>
            exists t :: 0 <= t < |cs| && cs[t].rocmVersion.Some? &&
              forall u :: 0 <= u < |cs| && cs[u].rocmVersion.None? ==>
                DistributionLeq(cs[u], cs[t]) && (u > t ==> !DistributionLeq(cs[t], cs[u]))
  {
    var cs := Candidates(ds, request, project, rocmVersion);
    var i := ChosenIsLastBest(ds, request, project, rocmVersion);
    if cs[i].rocmVersion.None? {
      forall t | 0 <= t < |cs| && cs[t].rocmVersion.Some?
        ensures !(DistributionLeq(cs[i], cs[t]) && (i > t ==> !DistributionLeq(cs[t], cs[i])))
      {
        assert t != i && DistributionLeq(cs[t], cs[i]);
      }
    }
  }

  /** Whatever the version, an untagged wheel is pinned in place of a tagged source distribution. */
  lemma UntaggedCanWin(request: Request, project: string, version: string, tagged: Distribution,
                       untagged: Distribution)
    requires InRocmSeries(version, request.series)
    requires tagged.rocmVersion == Some(version) && Usable(tagged, request, project) && !tagged.isWheel
    requires untagged.rocmVersion == None && Usable(untagged, request, project) && untagged.isWheel
    ensures Shared(request, map[project := [tagged, untagged]], version)
    ensures ChooseDistribution([tagged, untagged], request, project, version) == Ok(untagged)
  {
    var ds := [tagged, untagged];
    assert ds[0] == tagged;
    assert Offers(request, project, ds, version);
    var index: Index := map[project := ds];
    assert project in index && Tagged(index[project]);
    assert ds[1..] == [untagged] && ds[1..][1..] == [];
    assert Candidates(ds[1..], request, project, version) == [untagged];
    assert Candidates(ds, request, project, version) == ds;
    var i := ChosenIsLastBest(ds, request, project, version);
    assert DistributionLeq(ds[1], ds[i]);
  }

  // ----- The pins -----

  datatype Pin = Pin(distribution: Distribution, rocmVersion: string)

  /** What the pin file records for a project; an untagged distribution is recorded under the chosen version. */
  function PinFor(request: Request, index: Index, project: string, rocmVersion: string): Result<Pin, SelectionError>
    requires project in index
  {
    match ChooseDistribution(index[project], request, project, rocmVersion)
    case Err(e) => Err(e)
    case Ok(d) => Ok(Pin(d, if d.rocmVersion.Some? then d.rocmVersion.value else rocmVersion))
  }

  /** A project can be pinned exactly when it has a candidate, and is pinned under the one chosen version. */
  lemma PinRecordsChosenVersion(request: Request, index: Index, project: string, rocmVersion: string)
    requires project in index
    ensures PinFor(request, index, project, rocmVersion).Ok? <==>
            exists d :: d in index[project] && Candidate(d, request, project, rocmVersion)
    ensures PinFor(request, index, project, rocmVersion).Ok? ==>
            var pin := PinFor(request, index, project, rocmVersion).value;
            pin.rocmVersion == rocmVersion && pin.distribution in index[project]
            && Candidate(pin.distribution, request, project, rocmVersion)
  {
    ChoiceSucceeds(index[project], request, project, rocmVersion);
    if PinFor(request, index, project, rocmVersion).Ok? {
      var i := ChosenIsLastBest(index[project], request, project, rocmVersion);
    }
  }

  /** Once a shared version is chosen, every tagged project is pinned, and under that version. */
  lemma SharedVersionChoosable(request: Request, index: Index, rocmVersion: string, project: string)
    requires Shared(request, index, rocmVersion)
    requires project in index && Tagged(index[project])
    ensures PinFor(request, index, project, rocmVersion).Ok?
    ensures PinFor(request, index, project, rocmVersion).value.rocmVersion == rocmVersion
  {
    var ds := index[project];
    var i :| 0 <= i < |ds| && ds[i].rocmVersion == Some(rocmVersion) && Usable(ds[i], request, project);
    assert ds[i] in ds && Candidate(ds[i], request, project, rocmVersion);
    PinRecordsChosenVersion(request, index, project, rocmVersion);
  }

  /** The pin loop of `main`: all projects are pinned, or the first that cannot be stops it. */
  method PinPackages(request: Request, index: Index, projects: seq<string>, rocmVersion: string)
      returns (result: Result<map<string, Pin>, SelectionError>)
    requires forall p :: p in projects ==> p in index
    ensures result.Ok? ==> forall p :: p in result.value <==> p in projects
    ensures result.Ok? ==> forall p :: p in result.value ==>
              PinFor(request, index, p, rocmVersion) == Ok(result.value[p])
    ensures result.Err? ==> exists p :: p in projects && PinFor(request, index, p, rocmVersion) == Err(result.error)
  {
    var pins: map<string, Pin> := map[];
    for i := 0 to |projects|
      invariant forall p :: p in pins <==> p in projects[..i]
      invariant forall p :: p in pins ==> p in index && PinFor(request, index, p, rocmVersion) == Ok(pins[p])
    {
      var project := projects[i];
      var pin := PinFor(request, index, project, rocmVersion);
      if pin.Err? {
        assert project in projects;
        return Err(pin.error);
      }
      pins := pins[project := pin.value];
    }
    assert projects[..|projects|] == projects;
    return Ok(pins);
  }

  // ----- The tarball updater -----

  function Matching(versions: seq<string>, series: string): seq<string> {
    if versions == [] then []
    else (if MatchesSeriesPattern(versions[0], series) then [versions[0]] else []) + Matching(versions[1..], series)
  }

  /** `find_version` once the index is parsed: sort, filter by series if one is given, take the last. */
  function FindVersion(versions: seq<string>, series: Option<string>): Option<string> {
    var sorted := Sort(VersionLeq, versions);
    var kept := if series.Some? then Matching(sorted, series.value) else sorted;
    if kept == [] then None else Some(kept[|kept| - 1])
  }

  lemma ConsSorted(head: string, tail: seq<string>, kept: seq<string>)
    requires SortedBy(VersionLeq, [head] + tail) && SortedBy(VersionLeq, kept) && forall v :: v in kept ==> v in tail
    ensures SortedBy(VersionLeq, [head] + kept)
  {
    hide VersionLeq;
    var all := [head] + tail;
    forall i | 0 <= i < |kept|
      ensures VersionLeq(head, kept[i])
    {
      assert kept[i] in kept;
      var j :| 0 <= j < |tail| && tail[j] == kept[i];
      assert VersionLeq(all[0], all[1 + j]);
    }
  }

  lemma {:induction false} MatchingAre(versions: seq<string>, series: string)
    ensures forall v :: v in Matching(versions, series) <==> v in versions && MatchesSeriesPattern(v, series)
    ensures SortedBy(VersionLeq, versions) ==> SortedBy(VersionLeq, Matching(versions, series))
  {
    hide MatchesSeriesPattern, VersionLeq;
    if versions != [] {
      MatchingAre(versions[1..], series);
      assert forall v :: v in versions <==> v == versions[0] || v in versions[1..];
      if SortedBy(VersionLeq, versions) {
        assert versions == [versions[0]] + versions[1..];
        ConsSorted(versions[0], versions[1..], Matching(versions[1..], series));
      }
    }
  }

  /** What the tarball updater keeps: everything, or what matches the pattern of the given series. */
  predicate Admitted(version: string, series: Option<string>) {
    series.Some? ==> MatchesSeriesPattern(version, series.value)
  }

  lemma KeptVersions(versions: seq<string>, series: Option<string>) returns (kept: seq<string>)
    ensures forall v :: v in kept <==> v in versions && Admitted(v, series)
    ensures forall i, j :: 0 <= i < j < |kept| ==> VersionLeq(kept[i], kept[j])
    ensures FindVersion(versions, series) == if kept == [] then None else Some(kept[|kept| - 1])
  {
    hide VersionLeq, MatchesSeriesPattern;
    var sorted := Sort(VersionLeq, versions);
    VersionLeqIsPreorder();
    SortSorts(VersionLeq, versions);
    SortPermutes(VersionLeq, versions);
    SameElements(sorted, versions);
    kept := sorted;
    if series.Some? {
      MatchingAre(sorted, series.value);
      kept := Matching(sorted, series.value);
    }
  }

  lemma VersionLeqReflexive(v: string)
    ensures VersionLeq(v, v)
  {
    hide VersionLeq;
    VersionLeqIsPreorder();
  }

  /** With or without a series, the tarball updater finds an admitted version that none outranks, if there is one. */
  lemma FindVersionIsLatest(versions: seq<string>, series: Option<string>)
    ensures var r := FindVersion(versions, series);
            && (r.Some? <==> exists v :: v in versions && Admitted(v, series))
            && (r.Some? ==> r.value in versions && Admitted(r.value, series)
                            && forall v :: v in versions && Admitted(v, series) ==> VersionLeq(v, r.value))
  {
    hide VersionLeq, Admitted, FindVersion;
    var kept := KeptVersions(versions, series);
    if kept != [] {
      var last := kept[|kept| - 1];
      assert last in kept;
      VersionLeqReflexive(last);
      forall v | v in kept
        ensures VersionLeq(v, last)
      {
        var i :| 0 <= i < |kept| && kept[i] == v;
      }
    }
  }

  /** For a dotted series these are the versions that the wheel updater would take for the series. */
  lemma FindVersionOfSeries(versions: seq<string>, series: string)
    requires IsDotted(series) && forall v :: v in versions ==> '\n' !in v
    ensures var r := FindVersion(versions, Some(series));
            && (r.Some? <==> exists v :: v in versions && InRocmSeries(v, series))
            && (r.Some? ==> r.value in versions && InRocmSeries(r.value, series)
                            && forall v :: v in versions && InRocmSeries(v, series) ==> VersionLeq(v, r.value))
  {
    hide VersionLeq, FindVersion, InRocmSeries, MatchesSeriesPattern, IsDotted;
    FindVersionIsLatest(versions, Some(series));
    forall v | v in versions
      ensures Admitted(v, Some(series)) <==> InRocmSeries(v, series)
    {
      SeriesFiltersAgree(v, series);
    }
  }
}
