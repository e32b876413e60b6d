/** Why every entry of the source graph is there, that every requested submodule is, and when the graph is built. */
module GraphJustification {
  import opened Wrappers
  import opened SourceGraph

  /** `e` is the submodule of the pinned root commit at a root path that was asked for. */
  ghost predicate FromRoot(naming: string -> string, c: Checkout, wanted: Selection, e: SourceEntry) {
    && e.path in wanted.rootPaths
    && Resolve(c, e.path, false).Ok?
    && e.url == Resolve(c, e.path, false).value.url
    && e.path in c.links && e.rev == c.links[e.path]
    && e.inputName == naming(e.path)
  }

  /** `e` is what `selector` resolves to in the commit at which `p` is pinned. */
  ghost predicate FromSelector(naming: string -> string, world: World, p: SourceEntry, preferName: bool,
                               selector: string, e: SourceEntry) {
    && SourceOf(p) in world
    && var c := world[SourceOf(p)];
       Resolve(c, selector, preferName).Ok?
       && var m := Resolve(c, selector, preferName).value;
          && m.path in c.links && e.path == p.path + "/" + m.path
          && e == SourceEntry(e.path, m.url, c.links[m.path], naming(e.path))
  }

  /** A nested specification of `p` lists `selector` (names preferred), or a deep item does (paths preferred). */
  ghost predicate AskedBelow(c: Checkout, wanted: Selection, p: SourceEntry, preferName: bool, selector: string) {
    if preferName then
      exists spec :: spec in wanted.specs && selector in spec.1
                     && Resolve(c, spec.0, true).Ok? && Resolve(c, spec.0, true).value.path == p.path
    else exists item :: item in wanted.deep && item.parent == p.path && selector in item.paths
  }

  ghost predicate FromParent(naming: string -> string, world: World, root: GitSource, wanted: Selection,
                             p: SourceEntry, e: SourceEntry)
    requires root in world
  {
    exists preferName, selector ::
      AskedBelow(world[root], wanted, p, preferName, selector)
      && FromSelector(naming, world, p, preferName, selector, e)
  }

  /** Every entry stems from the root or from an entry added before it. */
  ghost predicate Grounded(naming: string -> string, world: World, root: GitSource, wanted: Selection, es: Entries)
    requires root in world
  {
    forall i :: 0 <= i < |es| ==>
      || FromRoot(naming, world[root], wanted, es[i])
      || exists j :: 0 <= j < i && FromParent(naming, world, root, wanted, es[j], es[i])
  }

  ghost predicate Sound(naming: string -> string, world: World, root: GitSource, wanted: Selection, es: Entries)
    requires root in world
  {
    Distinct(es) && Grounded(naming, world, root, wanted, es)
  }

  lemma AddKeepsSound(naming: string -> string, world: World, root: GitSource, wanted: Selection, es: Entries,
                      e: SourceEntry)
    requires root in world && Sound(naming, world, root, wanted, es)
    requires || FromRoot(naming, world[root], wanted, e)
             || exists p :: p in es && FromParent(naming, world, root, wanted, p, e)
    ensures Sound(naming, world, root, wanted, Add(es, e))
  {
    hide FromRoot, FromParent;
    FindSpec(es, e.path);
    var r := Add(es, e);
    if r != es {
      forall i | 0 <= i < |r|
        ensures || FromRoot(naming, world[root], wanted, r[i])
                || exists j :: 0 <= j < i && FromParent(naming, world, root, wanted, r[j], r[i])
      {
        if i < |es| {
          assert r[i] == es[i];
          if j :| 0 <= j < i && FromParent(naming, world, root, wanted, es[j], es[i]) {
            assert r[j] == es[j];
          }
        } else if p :| p in es && FromParent(naming, world, root, wanted, p, e) {
          var j :| 0 <= j < |es| && es[j] == p;
          assert r[j] == p;
        }
      }
    }
  }

  lemma FindAdded(es: Entries, e: SourceEntry)
    ensures Find(Add(es, e), e.path).Some?
  {
    FindSpec(es, e.path);
    FindSpec(Add(es, e), e.path);
  }

  lemma FindPersists(es: Entries, r: Entries, path: string)
    requires es <= r && Find(es, path).Some?
    ensures Find(r, path) == Find(es, path)
  {
    assert r == es + r[|es|..];
    FindAppend(es, r[|es|..], path);
  }

  lemma {:induction false} AddRootsSound(naming: string -> string, world: World, root: GitSource, wanted: Selection,
                                         es: Entries, selectors: seq<string>)
    requires root in world && Sound(naming, world, root, wanted, es)
    requires forall e :: e in es ==> FromRoot(naming, world[root], wanted, e)
    requires forall s :: s in selectors ==> s in wanted.rootPaths
    requires AddRoots(naming, world[root], es, selectors).Ok?
    ensures var r := AddRoots(naming, world[root], es, selectors).value;
            && Sound(naming, world, root, wanted, r)
            && (forall e :: e in r ==> FromRoot(naming, world[root], wanted, e))
            && (forall s :: s in selectors ==> Find(r, s).Some?)
    decreases |selectors|
  {
    hide Resolve, Sound;
    if selectors != [] {
      var c, s := world[root], selectors[0];
      var e := SourceEntry(s, Resolve(c, s, false).value.url, c.links[s], naming(s));
      var next := AddRoot(naming, c, es, s).value;
      AddKeepsSound(naming, world, root, wanted, es, e);
      AddRootsSound(naming, world, root, wanted, next, selectors[1..]);
      FindAdded(es, e);
      FindPersists(next, AddRoots(naming, c, es, selectors).value, s);
    }
  }

  /** `selector`, resolved in the checkout of `p`, has its entry. */
  ghost predicate Covered(world: World, p: SourceEntry, preferName: bool, selector: string, es: Entries) {
    && SourceOf(p) in world
    && Resolve(world[SourceOf(p)], selector, preferName).Ok?
    && Find(es, p.path + "/" + Resolve(world[SourceOf(p)], selector, preferName).value.path).Some?
  }

  lemma {:induction false} AddChildrenSound(naming: string -> string, world: World, root: GitSource,
                                            wanted: Selection, p: SourceEntry, preferName: bool, es: Entries,
                                            selectors: seq<string>)
    requires root in world && Sound(naming, world, root, wanted, es)
    requires p in es && SourceOf(p) in world
    requires forall s :: s in selectors ==> AskedBelow(world[root], wanted, p, preferName, s)
    requires AddChildren(naming, world[SourceOf(p)], p.path, preferName, es, selectors).Ok?
    ensures var r := AddChildren(naming, world[SourceOf(p)], p.path, preferName, es, selectors).value;
            && Sound(naming, world, root, wanted, r)
            && forall s :: s in selectors ==> Covered(world, p, preferName, s, r)
    decreases |selectors|
  {
    hide Sound, AskedBelow, Resolve;
    if selectors != [] {
      var c, s := world[SourceOf(p)], selectors[0];
      var m := Resolve(c, s, preferName).value;
      var path := p.path + "/" + m.path;
      var e := SourceEntry(path, m.url, c.links[m.path], naming(path));
      assert FromParent(naming, world, root, wanted, p, e) by {
        assert FromSelector(naming, world, p, preferName, s, e);
      }
      AddKeepsSound(naming, world, root, wanted, es, e);
      var next := AddChild(naming, c, p.path, preferName, es, s).value;
      AddChildrenSound(naming, world, root, wanted, p, preferName, next, selectors[1..]);
      FindAdded(es, e);
      FindPersists(next, AddChildren(naming, c, p.path, preferName, es, selectors).value, path);
    }
  }

  /** A nested specification is met when its parent had been added by then. */
  ghost predicate SpecMet(world: World, root: GitSource, spec: (string, seq<string>), before: Entries, es: Entries)
    requires root in world
  {
    && Resolve(world[root], spec.0, true).Ok?
    && var parent := Find(before, Resolve(world[root], spec.0, true).value.path);
       parent.Some? ==> forall s :: s in spec.1 ==> Covered(world, parent.value, true, s, es)
  }

  lemma CoveredPersists(world: World, p: SourceEntry, preferName: bool, s: string, es: Entries, r: Entries)
    requires es <= r && Covered(world, p, preferName, s, es)
    ensures Covered(world, p, preferName, s, r)
  {
    FindPersists(es, r, p.path + "/" + Resolve(world[SourceOf(p)], s, preferName).value.path);
  }

  lemma {:induction false} AddAllNestedSound(naming: string -> string, world: World, root: GitSource,
                                             wanted: Selection, before: Entries, es: Entries,
                                             specs: seq<(string, seq<string>)>)
    requires root in world && Sound(naming, world, root, wanted, es) && before <= es
    requires forall spec :: spec in specs ==> spec in wanted.specs
    requires AddAllNested(naming, world, root, es, specs).Ok?
    ensures var r := AddAllNested(naming, world, root, es, specs).value;
            && Sound(naming, world, root, wanted, r)
            && forall spec :: spec in specs ==> SpecMet(world, root, spec, before, r)
    decreases |specs|
  {
    hide Sound, Covered, Resolve;
    if specs != [] {
      var spec := specs[0];
      var parent := Resolve(world[root], spec.0, true).value.path;
      var next := AddNested(naming, world, root, es, spec).value;
      FindSpec(es, parent);
      if Find(es, parent).Some? {
        AddChildrenSound(naming, world, root, wanted, Find(es, parent).value, true, es, spec.1);
      }
      AddAllNestedSound(naming, world, root, wanted, before, next, specs[1..]);
      var r := AddAllNested(naming, world, root, es, specs).value;
      if Find(before, parent).Some? {
        FindPersists(before, es, parent);
        forall s | s in spec.1
          ensures Covered(world, Find(before, parent).value, true, s, r)
        {
          CoveredPersists(world, Find(es, parent).value, true, s, next, r);
        }
      }
      assert SpecMet(world, root, spec, before, r);
    }
  }

  ghost predicate ItemMet(world: World, item: DeepItem, es: Entries) {
    && Find(es, item.parent).Some?
    && forall s :: s in item.paths ==> Covered(world, Find(es, item.parent).value, false, s, es)
  }

  lemma {:induction false} AddAllDeepSound(naming: string -> string, world: World, root: GitSource,
                                           wanted: Selection, es: Entries, items: seq<DeepItem>)
    requires root in world && Sound(naming, world, root, wanted, es)
    requires forall item :: item in items ==> item in wanted.deep
    requires AddAllDeep(naming, world, es, items).Ok?
    ensures var r := AddAllDeep(naming, world, es, items).value;
            && Sound(naming, world, root, wanted, r)
            && forall item :: item in items ==> ItemMet(world, item, r)
    decreases |items|
  {
    hide Sound, Covered, Resolve;
    if items != [] {
      var item := items[0];
      var next := AddDeep(naming, world, es, item).value;
      FindSpec(es, item.parent);
      var p := Find(es, item.parent).value;
      AddChildrenSound(naming, world, root, wanted, p, false, es, item.paths);
      AddAllDeepSound(naming, world, root, wanted, next, items[1..]);
      var r := AddAllDeep(naming, world, es, items).value;
      FindPersists(es, r, item.parent);
      forall s | s in item.paths
        ensures Covered(world, p, false, s, r)
      {
        CoveredPersists(world, p, false, s, next, r);
      }
      assert ItemMet(world, item, r);
    }
  }

  /**
   Paths are pairwise distinct. Every entry is a root path that was asked for, or what a selector asked for
   below an earlier entry resolves to.
   */
  lemma GraphSound(naming: string -> string, world: World, root: GitSource, wanted: Selection)
    requires root in world
    requires Graph(naming, world, root, wanted).Ok?
    ensures Sound(naming, world, root, wanted, Graph(naming, world, root, wanted).value)
  {
    AddRootsSound(naming, world, root, wanted, [], wanted.rootPaths);
    var roots := AddRoots(naming, world[root], [], wanted.rootPaths).value;
    AddAllNestedSound(naming, world, root, wanted, roots, roots, wanted.specs);
    var nested := AddAllNested(naming, world, root, roots, wanted.specs).value;
    AddAllDeepSound(naming, world, root, wanted, nested, wanted.deep);
  }

  lemma NothingIsSound(naming: string -> string, world: World, root: GitSource, wanted: Selection)
    requires root in world
    ensures Sound(naming, world, root, wanted, [])
  {
  }

  /** Every enabled root path, every nested path of a fetched root submodule and every deep path has its entry. */
  lemma GraphComplete(naming: string -> string, world: World, root: GitSource, wanted: Selection)
    requires root in world
    requires Graph(naming, world, root, wanted).Ok?
    ensures var es := Graph(naming, world, root, wanted).value;
            && (forall s :: s in wanted.rootPaths ==>
                  Find(es, s).Some? && FromRoot(naming, world[root], wanted, Find(es, s).value))
            && (forall spec, s :: spec in wanted.specs && s in spec.1 ==>
                  Resolve(world[root], spec.0, true).Ok? &&
                  var parent := Resolve(world[root], spec.0, true).value.path;
                  parent in wanted.rootPaths ==> Covered(world, Find(es, parent).value, true, s, es))
            && (forall item :: item in wanted.deep ==> ItemMet(world, item, es))
  {
    hide Sound, Covered, Resolve;
    NothingIsSound(naming, world, root, wanted);
    AddRootsSound(naming, world, root, wanted, [], wanted.rootPaths);
    var roots := AddRoots(naming, world[root], [], wanted.rootPaths).value;
    AddAllNestedSound(naming, world, root, wanted, roots, roots, wanted.specs);
    var nested := AddAllNested(naming, world, root, roots, wanted.specs).value;
    AddAllDeepSound(naming, world, root, wanted, nested, wanted.deep);
    var es := Graph(naming, world, root, wanted).value;
    forall s | s in wanted.rootPaths
      ensures Find(es, s) == Find(roots, s) && Find(es, s).Some?
      ensures FromRoot(naming, world[root], wanted, Find(es, s).value)
    {
      FindPersists(roots, es, s);
      FindSpec(roots, s);
    }
    forall spec, s | spec in wanted.specs && s in spec.1
      ensures Resolve(world[root], spec.0, true).Ok?
      ensures var parent := Resolve(world[root], spec.0, true).value.path;
              parent in wanted.rootPaths ==> Covered(world, Find(es, parent).value, true, s, es)
    {
      assert SpecMet(world, root, spec, roots, nested);
      var parent := Resolve(world[root], spec.0, true).value.path;
      if parent in wanted.rootPaths {
        CoveredPersists(world, Find(roots, parent).value, true, s, nested, es);
      }
    }
  }

  /** A chain of gitlinks from the pinned root down to its last entry. */
  ghost predicate IsChain(naming: string -> string, world: World, root: GitSource, wanted: Selection,
                          chain: seq<SourceEntry>)
    requires root in world
  {
    && |chain| > 0
    && FromRoot(naming, world[root], wanted, chain[0])
    && forall k :: 0 < k < |chain| ==> FromParent(naming, world, root, wanted, chain[k - 1], chain[k])
  }

  lemma {:induction false} ChainFor(naming: string -> string, world: World, root: GitSource, wanted: Selection,
                                    es: Entries, i: nat) returns (chain: seq<SourceEntry>)
    requires root in world && Grounded(naming, world, root, wanted, es) && i < |es|
    ensures IsChain(naming, world, root, wanted, chain) && chain[|chain| - 1] == es[i]
    ensures forall e :: e in chain ==> e in es
    decreases i
  {
    hide FromRoot, FromParent;
    if FromRoot(naming, world[root], wanted, es[i]) {
      chain := [es[i]];
    } else {
      var j :| 0 <= j < i && FromParent(naming, world, root, wanted, es[j], es[i]);
      chain := ChainFor(naming, world, root, wanted, es, j);
      chain := chain + [es[i]];
    }
  }

  /** Every returned entry ends a chain of returned entries that starts at the pinned root. */
  lemma {:induction false} GraphChains(naming: string -> string, world: World, root: GitSource, wanted: Selection,
                                       e: SourceEntry)
    requires root in world
    requires Graph(naming, world, root, wanted).Ok?
    requires e in Graph(naming, world, root, wanted).value
    ensures exists chain: seq<SourceEntry> ::
              && IsChain(naming, world, root, wanted, chain) && chain[|chain| - 1] == e
              && forall x :: x in chain ==> x in Graph(naming, world, root, wanted).value
  {
    hide Graph;
    GraphSound(naming, world, root, wanted);
    var es := Graph(naming, world, root, wanted).value;
    var i :| 0 <= i < |es| && es[i] == e;
    var chain := ChainFor(naming, world, root, wanted, es, i);
  }

  // ----- When the graph is built -----

  predicate RootReady(c: Checkout, selector: string) {
    Resolve(c, selector, false).Ok? && selector in c.links
  }

  predicate SelectorReady(c: Checkout, preferName: bool, selector: string) {
    Resolve(c, selector, preferName).Ok? && Resolve(c, selector, preferName).value.path in c.links
  }

  /** The commit of `p` can be fetched, and every selector resolves in it to a path that is a gitlink. */
  predicate ParentReady(world: World, p: SourceEntry, preferName: bool, selectors: seq<string>) {
    && SourceOf(p) in world
    && forall s :: s in selectors ==> SelectorReady(world[SourceOf(p)], preferName, s)
  }

  /** The parent's name resolves; what it lists matters only if the parent is among the entries. */
  predicate SpecReady(world: World, root: GitSource, spec: (string, seq<string>), es: Entries)
    requires root in world
  {
    && Resolve(world[root], spec.0, true).Ok?
    && var parent := Find(es, Resolve(world[root], spec.0, true).value.path);
       parent.Some? ==> ParentReady(world, parent.value, true, spec.1)
  }

  predicate ItemReady(world: World, item: DeepItem, es: Entries) {
    Find(es, item.parent).Some? && ParentReady(world, Find(es, item.parent).value, false, item.paths)
  }

  lemma {:induction false} AddRootsSucceeds(naming: string -> string, c: Checkout, es: Entries,
                                            selectors: seq<string>)
    ensures AddRoots(naming, c, es, selectors).Ok? <==> forall s :: s in selectors ==> RootReady(c, s)
    decreases |selectors|
  {
    hide Resolve;
    if selectors != [] {
      assert forall s :: s in selectors <==> s == selectors[0] || s in selectors[1..];
      if RootReady(c, selectors[0]) {
        AddRootsSucceeds(naming, c, AddRoot(naming, c, es, selectors[0]).value, selectors[1..]);
      }
    }
  }

  lemma {:induction false} AddChildrenSucceeds(naming: string -> string, c: Checkout, parent: string,
                                               preferName: bool, es: Entries, selectors: seq<string>)
    ensures AddChildren(naming, c, parent, preferName, es, selectors).Ok? <==>
            forall s :: s in selectors ==> SelectorReady(c, preferName, s)
    decreases |selectors|
  {
    hide Resolve;
    if selectors != [] {
      assert forall s :: s in selectors <==> s == selectors[0] || s in selectors[1..];
      if SelectorReady(c, preferName, selectors[0]) {
        var next := AddChild(naming, c, parent, preferName, es, selectors[0]).value;
        AddChildrenSucceeds(naming, c, parent, preferName, next, selectors[1..]);
      }
    }
  }

  lemma AddBelowSucceeds(naming: string -> string, world: World, p: SourceEntry, preferName: bool, es: Entries,
                         selectors: seq<string>)
    ensures AddBelow(naming, world, p, preferName, es, selectors).Ok? <==> ParentReady(world, p, preferName, selectors)
  {
    if SourceOf(p) in world {
      AddChildrenSucceeds(naming, world[SourceOf(p)], p.path, preferName, es, selectors);
    }
  }

  lemma AddNestedSucceeds(naming: string -> string, world: World, root: GitSource, es: Entries,
                          spec: (string, seq<string>))
    requires root in world
    ensures AddNested(naming, world, root, es, spec).Ok? <==> SpecReady(world, root, spec, es)
  {
    hide Resolve, AddBelow, ParentReady;
    if Resolve(world[root], spec.0, true).Ok? {
      var parent := Find(es, Resolve(world[root], spec.0, true).value.path);
      if parent.Some? {
        AddBelowSucceeds(naming, world, parent.value, true, es, spec.1);
      }
    }
  }

  lemma AddDeepSucceeds(naming: string -> string, world: World, es: Entries, item: DeepItem)
    ensures AddDeep(naming, world, es, item).Ok? <==> ItemReady(world, item, es)
  {
    hide AddBelow, ParentReady;
    if Find(es, item.parent).Some? {
      AddBelowSucceeds(naming, world, Find(es, item.parent).value, false, es, item.paths);
    }
  }

  lemma {:induction false} AddAllNestedLast(naming: string -> string, world: World, root: GitSource, es: Entries,
                                            specs: seq<(string, seq<string>)>, last: (string, seq<string>))
    requires root in world
    ensures AddAllNested(naming, world, root, es, specs + [last])
         == match AddAllNested(naming, world, root, es, specs)
            case Err(e) => Err(e)
            case Ok(next) => AddNested(naming, world, root, next, last)
    decreases |specs|
  {
    hide AddNested;
    if specs == [] {
      assert (specs + [last])[1..] == [];
    } else {
      assert (specs + [last])[1..] == specs[1..] + [last];
      match AddNested(naming, world, root, es, specs[0])
      case Err(_) =>
      case Ok(next) => AddAllNestedLast(naming, world, root, next, specs[1..], last);
    }
  }

  lemma {:induction false} AddAllDeepLast(naming: string -> string, world: World, es: Entries,
                                          items: seq<DeepItem>, last: DeepItem)
    ensures AddAllDeep(naming, world, es, items + [last])
         == match AddAllDeep(naming, world, es, items)
            case Err(e) => Err(e)
            case Ok(next) => AddDeep(naming, world, next, last)
    decreases |items|
  {
    hide AddDeep;
    if items == [] {
      assert (items + [last])[1..] == [];
    } else {
      assert (items + [last])[1..] == items[1..] + [last];
      match AddDeep(naming, world, es, items[0])
      case Err(_) =>
      case Ok(next) => AddAllDeepLast(naming, world, next, items[1..], last);
    }
  }

  /** The entries once the root paths and the first `n` nested specifications are added. */
  function AfterSpecs(naming: string -> string, world: World, root: GitSource, wanted: Selection, n: nat)
    : Result<Entries, GraphError>
    requires root in world && n <= |wanted.specs|
  {
    Graph(naming, world, root, wanted.(specs := wanted.specs[..n], deep := []))
  }

  /** The entries once, moreover, all nested specifications and the first `n` deep items are added. */
  function AfterItems(naming: string -> string, world: World, root: GitSource, wanted: Selection, n: nat)
    : Result<Entries, GraphError>
    requires root in world && n <= |wanted.deep|
  {
    Graph(naming, world, root, wanted.(deep := wanted.deep[..n]))
  }

  lemma NoSpecsSucceed(naming: string -> string, world: World, root: GitSource, wanted: Selection)
    requires root in world
    ensures AfterSpecs(naming, world, root, wanted, 0).Ok? <==>
            forall s :: s in wanted.rootPaths ==> RootReady(world[root], s)
  {
    hide AddRoots, RootReady;
    AddRootsSucceeds(naming, world[root], [], wanted.rootPaths);
  }

  lemma AfterSpecsLast(naming: string -> string, world: World, root: GitSource, wanted: Selection, n: nat)
    requires root in world && 0 < n <= |wanted.specs|
    ensures AfterSpecs(naming, world, root, wanted, n)
         == match AfterSpecs(naming, world, root, wanted, n - 1)
            case Err(e) => Err(e)
            case Ok(es) => AddNested(naming, world, root, es, wanted.specs[n - 1])
  {
    hide AddNested, AddRoots;
    assert wanted.specs[..n] == wanted.specs[..n - 1] + [wanted.specs[n - 1]];
    match AddRoots(naming, world[root], [], wanted.rootPaths)
    case Err(_) =>
    case Ok(roots) =>
      AddAllNestedLast(naming, world, root, roots, wanted.specs[..n - 1], wanted.specs[n - 1]);
  }

  lemma {:induction false} SpecsSucceed(naming: string -> string, world: World, root: GitSource, wanted: Selection,
                                        n: nat)
    requires root in world && n <= |wanted.specs|
    ensures AfterSpecs(naming, world, root, wanted, n).Ok? <==>
            && (forall s :: s in wanted.rootPaths ==> RootReady(world[root], s))
            && forall i :: 0 <= i < n ==>
                 AfterSpecs(naming, world, root, wanted, i).Ok? ==>
                   SpecReady(world, root, wanted.specs[i], AfterSpecs(naming, world, root, wanted, i).value)
  {
    hide AddNested, SpecReady, RootReady, AfterSpecs;
    if n == 0 {
      NoSpecsSucceed(naming, world, root, wanted);
    } else {
      SpecsSucceed(naming, world, root, wanted, n - 1);
      if AfterSpecs(naming, world, root, wanted, n - 1).Ok? {
        var before := AfterSpecs(naming, world, root, wanted, n - 1).value;
        AddNestedSucceeds(naming, world, root, before, wanted.specs[n - 1]);
      }
      AfterSpecsLast(naming, world, root, wanted, n);
    }
  }

  lemma AfterItemsLast(naming: string -> string, world: World, root: GitSource, wanted: Selection, n: nat)
    requires root in world && 0 < n <= |wanted.deep|
    ensures AfterItems(naming, world, root, wanted, n)
         == match AfterItems(naming, world, root, wanted, n - 1)
            case Err(e) => Err(e)
            case Ok(es) => AddDeep(naming, world, es, wanted.deep[n - 1])
  {
    hide AddDeep, AddRoots, AddAllNested;
    assert wanted.deep[..n] == wanted.deep[..n - 1] + [wanted.deep[n - 1]];
    match AddRoots(naming, world[root], [], wanted.rootPaths)
    case Err(_) =>
    case Ok(roots) =>
      match AddAllNested(naming, world, root, roots, wanted.specs)
      case Err(_) =>
      case Ok(nested) => AddAllDeepLast(naming, world, nested, wanted.deep[..n - 1], wanted.deep[n - 1]);
  }

  lemma {:induction false} ItemsSucceed(naming: string -> string, world: World, root: GitSource, wanted: Selection,
                                        n: nat)
    requires root in world && n <= |wanted.deep|
    ensures AfterItems(naming, world, root, wanted, n).Ok? <==>
            && AfterItems(naming, world, root, wanted, 0).Ok?
            && forall i :: 0 <= i < n ==>
                 AfterItems(naming, world, root, wanted, i).Ok? ==>
                   ItemReady(world, wanted.deep[i], AfterItems(naming, world, root, wanted, i).value)
  {
    hide AddDeep, ItemReady, AfterItems;
    if n > 0 {
      ItemsSucceed(naming, world, root, wanted, n - 1);
      if AfterItems(naming, world, root, wanted, n - 1).Ok? {
        AddDeepSucceeds(naming, world, AfterItems(naming, world, root, wanted, n - 1).value, wanted.deep[n - 1]);
      }
      AfterItemsLast(naming, world, root, wanted, n);
    }
  }

  /**
   The graph is built exactly when every root path resolves and is a gitlink, the parent of every nested
   specification resolves, every deep item's parent is among the entries by then, and, for each parent that
   is, its commit can be fetched and every selector below it resolves to a gitlink. A specification or item
   is looked at only if nothing before it failed.
   */
  lemma {:induction false} GraphSucceeds(naming: string -> string, world: World, root: GitSource, wanted: Selection)
    requires root in world
    ensures Graph(naming, world, root, wanted).Ok? <==>
            && (forall s :: s in wanted.rootPaths ==> RootReady(world[root], s))
            && (forall i :: 0 <= i < |wanted.specs| ==>
                  AfterSpecs(naming, world, root, wanted, i).Ok? ==>
                    SpecReady(world, root, wanted.specs[i], AfterSpecs(naming, world, root, wanted, i).value))
            && forall i :: 0 <= i < |wanted.deep| ==>
                 AfterItems(naming, world, root, wanted, i).Ok? ==>
                   ItemReady(world, wanted.deep[i], AfterItems(naming, world, root, wanted, i).value)
  {
    hide SpecReady, ItemReady, RootReady, Graph;
    SpecsSucceed(naming, world, root, wanted, |wanted.specs|);
    ItemsSucceed(naming, world, root, wanted, |wanted.deep|);
    assert wanted.(specs := wanted.specs[..|wanted.specs|], deep := []) == wanted.(deep := wanted.deep[..0]);
    assert wanted.(deep := wanted.deep[..|wanted.deep|]) == wanted;
  }
}
