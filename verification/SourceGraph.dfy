/**
 The source graph: which submodules, nested submodules and deep-nested submodules of the pinned root
 are fetched, and at which revisions.
 */
module SourceGraph {
  import opened Wrappers
  import opened GitModules
  import opened Orders
  import opened Strings

  datatype GitSource = GitSource(url: string, rev: string)

  datatype SourceEntry = SourceEntry(path: string, url: string, rev: string, inputName: string)

  /** A fetched commit: its `.gitmodules` and the gitlinks of its tree. */
  datatype Checkout = Checkout(config: Config, links: map<string, string>)

  /** The commits that can be fetched. */
  type World = map<GitSource, Checkout>

  /** `UnreadableModules` stands for the errors that reading `.gitmodules` raises. */
  datatype GraphError = UnreadableModules | Unresolved(selector: string) | NoGitlink(at: string)
                      | CannotFetch(source: GitSource) | ParentNotFetched(path: string)

  datatype DeepItem = DeepItem(parent: string, paths: seq<string>)

  /** The submodules asked for: root paths, nested ones by parent and selectors, and deep-nested items. */
  datatype Selection = Selection(rootPaths: seq<string>, specs: seq<(string, seq<string>)>, deep: seq<DeepItem>)

  // ----- Resolving a selector -----

  function Named(ms: seq<Submodule>, name: string): Option<Submodule> {
    if ms == [] then None
    else if ms[|ms| - 1].name == name then Some(ms[|ms| - 1])
    else Named(ms[..|ms| - 1], name)
  }

  function At(ms: seq<Submodule>, path: string): Option<Submodule> {
    if ms == [] then None
    else if ms[|ms| - 1].path == path then Some(ms[|ms| - 1])
    else At(ms[..|ms| - 1], path)
  }

  function Resolve(c: Checkout, selector: string, preferName: bool): Result<Submodule, GraphError> {
    match Submodules(c.config)
    case None => Err(UnreadableModules)
    case Some(ms) =>
      var named, at := Named(ms, selector), At(ms, selector);
      if preferName && named.Some? then Ok(named.value)
      else if at.Some? then Ok(at.value)
      else if named.Some? then Ok(named.value)
      else Err(Unresolved(selector))
  }

  /** The submodules of a commit, as far as the script reads them. */
  ghost predicate Lists(c: Checkout, m: Submodule) {
    Submodules(c.config).Some? && m in Submodules(c.config).value
  }

  lemma {:induction false} NamedIsMember(ms: seq<Submodule>, name: string)
    ensures Named(ms, name).Some? <==> exists m :: m in ms && m.name == name
    ensures Named(ms, name).Some? ==> Named(ms, name).value in ms && Named(ms, name).value.name == name
  {
    if ms != [] {
      NamedIsMember(ms[..|ms| - 1], name);
      assert ms == ms[..|ms| - 1] + [ms[|ms| - 1]];
    }
  }

  lemma {:induction false} AtIsMember(ms: seq<Submodule>, path: string)
    ensures At(ms, path).Some? <==> exists m :: m in ms && m.path == path
    ensures At(ms, path).Some? ==> At(ms, path).value in ms && At(ms, path).value.path == path
  {
    if ms != [] {
      AtIsMember(ms[..|ms| - 1], path);
      assert ms == ms[..|ms| - 1] + [ms[|ms| - 1]];
    }
  }

  lemma ResolveSpec(c: Checkout, selector: string, preferName: bool)
    ensures Resolve(c, selector, preferName).Ok? <==>
            exists m :: Lists(c, m) && (m.name == selector || m.path == selector)
    ensures Resolve(c, selector, preferName).Ok? ==>
              var m := Resolve(c, selector, preferName).value;
              && Lists(c, m) && (m.name == selector || m.path == selector)
              && (if preferName then m.name == selector <==> exists o :: Lists(c, o) && o.name == selector
                  else m.path == selector <==> exists o :: Lists(c, o) && o.path == selector)
  {
    hide Submodules;
    if Submodules(c.config).Some? {
      NamedIsMember(Submodules(c.config).value, selector);
      AtIsMember(Submodules(c.config).value, selector);
    }
  }

  /** A selector resolves exactly when it names a submodule or is the path of one; a nested one prefers the name. */
  lemma NestedSelectorPrefersName(c: Checkout, selector: string)
    ensures forall preferName :: Resolve(c, selector, preferName).Ok? <==>
              exists m :: Lists(c, m) && (m.name == selector || m.path == selector)
    ensures Resolve(c, selector, true).Ok? ==>
              (Resolve(c, selector, true).value.name == selector <==>
               exists m :: Lists(c, m) && m.name == selector)
  {
    hide Resolve, Lists;
    ResolveSpec(c, selector, true);
    ResolveSpec(c, selector, false);
  }

  lemma {:induction false} LastIsFound(ms: seq<Submodule>, selector: string, i: nat)
    requires i < |ms|
    ensures ms[i].path == selector && (forall j :: i < j < |ms| ==> ms[j].path != selector) ==>
              At(ms, selector) == Some(ms[i])
    ensures ms[i].name == selector && (forall j :: i < j < |ms| ==> ms[j].name != selector) ==>
              Named(ms, selector) == Some(ms[i])
  {
    if i < |ms| - 1 {
      LastIsFound(ms[..|ms| - 1], selector, i);
    }
  }

  /** Of several submodules at one path the last counts, and so it does for a name that a nested selector gives. */
  lemma SelectorTakesLast(c: Checkout, selector: string, i: nat)
    requires Submodules(c.config).Some? && i < |Submodules(c.config).value|
    ensures var ms := Submodules(c.config).value;
            && (ms[i].path == selector && (forall j :: i < j < |ms| ==> ms[j].path != selector) ==>
                  Resolve(c, selector, false) == Ok(ms[i]))
            && (ms[i].name == selector && (forall j :: i < j < |ms| ==> ms[j].name != selector) ==>
                  Resolve(c, selector, true) == Ok(ms[i]))
  {
    hide Submodules;
    LastIsFound(Submodules(c.config).value, selector, i);
  }

  // ----- The graph as a function of the fetched commits -----

  type Entries = seq<SourceEntry>

  function Find(entries: Entries, path: string): Option<SourceEntry> {
    if entries == [] then None
    else if entries[0].path == path then Some(entries[0])
    else Find(entries[1..], path)
  }

  /** The first entry added for a path stays. */
  function Add(entries: Entries, e: SourceEntry): (r: Entries)
    ensures entries <= r
  {
    if Find(entries, e.path).Some? then entries else entries + [e]
  }

  function AddRoot(naming: string -> string, c: Checkout, entries: Entries, selector: string)
    : (r: Result<Entries, GraphError>)
    ensures r.Ok? ==> entries <= r.value
  {
    match Resolve(c, selector, false)
    case Err(e) => Err(e)
    case Ok(m) =>
      if selector !in c.links then Err(NoGitlink(selector))
      else Ok(Add(entries, SourceEntry(selector, m.url, c.links[selector], naming(selector))))
  }

  /**
   The entry of a new root selector stands at the selector and is pinned to the gitlink there. Its url is
   that of a submodule configured at that path exactly when there is one; else it is the url of a
   submodule that is only named so and configured at another path.
   */
  lemma RootSelectorIsPath(naming: string -> string, c: Checkout, entries: Entries, selector: string)
      returns (m: Submodule)
    requires AddRoot(naming, c, entries, selector).Ok? && Find(entries, selector).None?
    ensures selector in c.links && Lists(c, m)
    ensures AddRoot(naming, c, entries, selector)
         == Ok(entries + [SourceEntry(selector, m.url, c.links[selector], naming(selector))])
    ensures m.path == selector <==> exists o :: Lists(c, o) && o.path == selector
    ensures m.path != selector ==> m.name == selector
  {
    hide Lists;
    m := Resolve(c, selector, false).value;
    ResolveSpec(c, selector, false);
  }

  lemma ResolveOnly(c: Checkout, m: Submodule)
    requires Submodules(c.config) == Some([m]) && m.name != m.path
    ensures Resolve(c, m.name, false) == Ok(m)
  {
    hide Submodules;
    assert At([m], m.name) == At([m][..0], m.name) == None;
  }

  lemma AddFirstRoot(naming: string -> string, c: Checkout, selector: string, m: Submodule)
    requires Resolve(c, selector, false) == Ok(m) && selector in c.links
    ensures AddRoot(naming, c, [], selector)
         == Ok([SourceEntry(selector, m.url, c.links[selector], naming(selector))])
  {
    hide Resolve;
    var e := SourceEntry(selector, m.url, c.links[selector], naming(selector));
    assert Add([], e) == [] + [e] == [e];
    assert Find([], selector) == None;
  }

  lemma SingleDistinct(m: Submodule)
    ensures DistinctBy(NameOf, [m])
  {
  }

  /** A root selector that is only a name: the url is that of the submodule at `y`, the revision the gitlink at `x`. */
  lemma RootSelectorMixesSubmodules(naming: string -> string)
    ensures var c := Checkout(Written([Submodule("x", "y", "u")]), map["x" := "r", "y" := "s"]);
            AddRoot(naming, c, [], "x") == Ok([SourceEntry("x", "u", "r", naming("x"))])
  {
    var m := Submodule("x", "y", "u");
    var c := Checkout(Written([m]), map["x" := "r", "y" := "s"]);
    assert Clean(m) && m.name != m.path && c.links["x"] == "r";
    hide *;
    SingleDistinct(m);
    SectionsReadExactly([m]);
    ResolveOnly(c, m);
    AddFirstRoot(naming, c, "x", m);
  }

  function AddChild(naming: string -> string, c: Checkout, parent: string, preferName: bool, entries: Entries,
                    selector: string): (r: Result<Entries, GraphError>)
    ensures r.Ok? ==> entries <= r.value
  {
    match Resolve(c, selector, preferName)
    case Err(e) => Err(e)
    case Ok(m) =>
      if m.path !in c.links then Err(NoGitlink(m.path))
      else
        var path := parent + "/" + m.path;
        Ok(Add(entries, SourceEntry(path, m.url, c.links[m.path], naming(path))))
  }

  function AddRoots(naming: string -> string, c: Checkout, entries: Entries, selectors: seq<string>)
    : (r: Result<Entries, GraphError>)
    ensures r.Ok? ==> entries <= r.value
    decreases |selectors|
  {
    if selectors == [] then Ok(entries)
    else
      match AddRoot(naming, c, entries, selectors[0])
      case Err(e) => Err(e)
      case Ok(next) => AddRoots(naming, c, next, selectors[1..])
  }

  function AddChildren(naming: string -> string, c: Checkout, parent: string, preferName: bool, entries: Entries,
                       selectors: seq<string>): (r: Result<Entries, GraphError>)
    ensures r.Ok? ==> entries <= r.value
    decreases |selectors|
  {
    if selectors == [] then Ok(entries)
    else
      match AddChild(naming, c, parent, preferName, entries, selectors[0])
      case Err(e) => Err(e)
      case Ok(next) => AddChildren(naming, c, parent, preferName, next, selectors[1..])
  }

  function SourceOf(e: SourceEntry): GitSource {
    GitSource(e.url, e.rev)
  }

  function AddBelow(naming: string -> string, world: World, p: SourceEntry, preferName: bool, entries: Entries,
                    selectors: seq<string>): (r: Result<Entries, GraphError>)
    ensures r.Ok? ==> entries <= r.value
  {
    if SourceOf(p) !in world then Err(CannotFetch(SourceOf(p)))
    else AddChildren(naming, world[SourceOf(p)], p.path, preferName, entries, selectors)
  }

  /** One nested specification; it is skipped when its parent is not among the entries. */
  function AddNested(naming: string -> string, world: World, root: GitSource, entries: Entries,
                     spec: (string, seq<string>)): (r: Result<Entries, GraphError>)
    requires root in world
    ensures r.Ok? ==> entries <= r.value
  {
    match Resolve(world[root], spec.0, true)
    case Err(e) => Err(e)
    case Ok(m) =>
      match Find(entries, m.path)
      case None => Ok(entries)
      case Some(p) => AddBelow(naming, world, p, true, entries, spec.1)
  }

  function AddAllNested(naming: string -> string, world: World, root: GitSource, entries: Entries,
                        specs: seq<(string, seq<string>)>): (r: Result<Entries, GraphError>)
    requires root in world
    ensures r.Ok? ==> entries <= r.value
    decreases |specs|
  {
    if specs == [] then Ok(entries)
    else
      match AddNested(naming, world, root, entries, specs[0])
      case Err(e) => Err(e)
      case Ok(next) => AddAllNested(naming, world, root, next, specs[1..])
  }

  /** One deep item; a parent that is not among the entries is an error here. */
  function AddDeep(naming: string -> string, world: World, entries: Entries, item: DeepItem)
    : (r: Result<Entries, GraphError>)
    ensures r.Ok? ==> entries <= r.value
  {
    match Find(entries, item.parent)
    case None => Err(ParentNotFetched(item.parent))
    case Some(p) => AddBelow(naming, world, p, false, entries, item.paths)
  }

  function AddAllDeep(naming: string -> string, world: World, entries: Entries, items: seq<DeepItem>)
    : (r: Result<Entries, GraphError>)
    ensures r.Ok? ==> entries <= r.value
    decreases |items|
  {
    if items == [] then Ok(entries)
    else
      match AddDeep(naming, world, entries, items[0])
      case Err(e) => Err(e)
      case Ok(next) => AddAllDeep(naming, world, next, items[1..])
  }

  /** The entries of the source graph, in the order of their addition. */
  function Graph(naming: string -> string, world: World, root: GitSource, wanted: Selection)
    : Result<Entries, GraphError>
    requires root in world
  {
    match AddRoots(naming, world[root], [], wanted.rootPaths)
    case Err(e) => Err(e)
    case Ok(roots) =>
      match AddAllNested(naming, world, root, roots, wanted.specs)
      case Err(e) => Err(e)
      case Ok(nested) => AddAllDeep(naming, world, nested, wanted.deep)
  }

  // ----- The order of the generated list -----

  /** The sort key: the number of slashes, then the path. */
  predicate EntryLeq(a: SourceEntry, b: SourceEntry) {
    var da, db := Count('/', a.path), Count('/', b.path);
    da < db || (da == db && CompareString(a.path, b.path) <= 0)
  }

  lemma EntryLeqIsPreorder()
    ensures IsTotalPreorder(EntryLeq)
  {
    CompareStringIsComparison();
    forall a: SourceEntry, b: SourceEntry, c: SourceEntry | EntryLeq(a, b) && EntryLeq(b, c)
      ensures EntryLeq(a, c)
    {
      assert CompareString(a.path, b.path) <= 0 && CompareString(b.path, c.path) <= 0 ==>
          CompareString(a.path, c.path) <= 0;
    }
    forall a: SourceEntry, b: SourceEntry
      ensures EntryLeq(a, b) || EntryLeq(b, a)
    {
      assert CompareString(a.path, b.path) < 0 <==> CompareString(b.path, a.path) > 0;
    }
  }

  lemma TiesShareThePath(a: SourceEntry, b: SourceEntry)
    requires EntryLeq(a, b) && EntryLeq(b, a)
    ensures a.path == b.path
  {
    hide CompareString;
    CompareStringIsComparison();
    assert CompareString(a.path, b.path) < 0 <==> CompareString(b.path, a.path) > 0;
  }

  ghost predicate Distinct(entries: Entries) {
    forall i, j :: 0 <= i < j < |entries| ==> entries[i].path != entries[j].path
  }

  lemma PathsDiffer(s: Entries, i: nat, j: nat)
    requires Distinct(s) && i < j < |s|
    ensures s[i].path != s[j].path
  {
  }

  lemma DistinctPermutes(entries: Entries, s: Entries)
    requires Distinct(entries) && multiset(entries) == multiset(s)
    ensures Distinct(s)
  {
    SameElements(s, entries);
    NoDuplicatesPermutes(entries, s);
    forall i, j | 0 <= i < j < |s|
      ensures s[i].path != s[j].path
    {
      assert s[i] in s && s[j] in s;
      var k :| 0 <= k < |entries| && entries[k] == s[i];
      var l :| 0 <= l < |entries| && entries[l] == s[j];
    }
  }

  /** The list goes by the number of slashes, and among equals in dictionary order of the paths. */
  lemma SortedByDepthThenPath(entries: Entries, i: nat, j: nat)
    requires Distinct(entries) && i < j < |entries|
    ensures var s := Sort(EntryLeq, entries);
            Count('/', s[i].path) < Count('/', s[j].path)
            || (Count('/', s[i].path) == Count('/', s[j].path) && Before(s[i].path, s[j].path))
  {
    hide Sort, CompareString, Before, Distinct;
    var s := Sort(EntryLeq, entries);
    EntryLeqIsPreorder();
    SortSorts(EntryLeq, entries);
    SortPermutes(EntryLeq, entries);
    DistinctPermutes(entries, s);
    assert EntryLeq(s[i], s[j]);
    PathsDiffer(s, i, j);
    CompareStringIsComparison();
    assert CompareString(s[i].path, s[j].path) == 0 <==> s[i].path == s[j].path;
    CompareStringIsDictionary(s[i].path, s[j].path);
  }

  /** The order of the dictionary does not show: entries with distinct paths have one sorted listing. */
  lemma SortedEntriesUnique(entries: Entries, others: Entries)
    requires Distinct(entries) && multiset(entries) == multiset(others)
    ensures Sort(EntryLeq, entries) == Sort(EntryLeq, others)
  {
    hide EntryLeq, Sort;
    var s, t := Sort(EntryLeq, entries), Sort(EntryLeq, others);
    EntryLeqIsPreorder();
    SortSorts(EntryLeq, entries);
    SortSorts(EntryLeq, others);
    SortPermutes(EntryLeq, entries);
    SortPermutes(EntryLeq, others);
    SameElements(s, entries);
    forall k, l | 0 <= k < |s| && 0 <= l < |s| && EntryLeq(s[k], s[l]) && EntryLeq(s[l], s[k])
      ensures s[k] == s[l]
    {
      TiesShareThePath(s[k], s[l]);
      assert s[k] in s && s[l] in s;
      var i :| 0 <= i < |entries| && entries[i] == s[k];
      var j :| 0 <= j < |entries| && entries[j] == s[l];
    }
    SortedUnique(EntryLeq, s, t);
  }

  // ----- The builder -----

  lemma {:induction false} FindSpec(entries: Entries, path: string)
    ensures Find(entries, path).Some? <==> exists e :: e in entries && e.path == path
    ensures Find(entries, path).Some? ==> Find(entries, path).value in entries && Find(entries, path).value.path == path
  {
    if entries != [] {
      FindSpec(entries[1..], path);
      assert entries == [entries[0]] + entries[1..];
    }
  }

  lemma {:induction false} FindAppend(entries: Entries, more: Entries, path: string)
    ensures Find(entries + more, path) == if Find(entries, path).Some? then Find(entries, path) else Find(more, path)
  {
    if entries == [] {
      assert entries + more == more;
    } else {
      assert (entries + more)[1..] == entries[1..] + more;
      FindAppend(entries[1..], more, path);
    }
  }

  /** The dictionaries that `build_graph` fills, and the fetches it has made. */
  class GraphBuilder {
    const naming: string -> string
    const world: World
    const root: GitSource
    var entries: map<string, SourceEntry>
    var order: Entries  // the values of `entries` in insertion order
    var repos: map<GitSource, Checkout>
    var fetched: seq<GitSource>

    ghost predicate Valid()
      reads this
    {
      && root in world
      && root in repos
      && (forall p :: p in entries <==> Find(order, p).Some?)
      && (forall p :: p in entries ==> Find(order, p) == Some(entries[p]))
      && (forall g :: g in repos ==> g in world && repos[g] == world[g])
      && (forall g :: g in repos <==> g == root || g in fetched)
      // No repository is fetched twice, and the root is not fetched again.
      && root !in fetched
      && NoDuplicates(fetched)
      // Only repositories of entries are fetched.
      && (forall g :: g in fetched ==> exists e :: e in order && SourceOf(e) == g)
    }

    constructor (naming: string -> string, world: World, root: GitSource)
      requires root in world
      ensures Valid() && order == [] && fetched == []
      ensures this.naming == naming && this.world == world && this.root == root
    {
      this.naming, this.world, this.root := naming, world, root;
      entries, order := map[], [];
      repos, fetched := map[root := world[root]], [];
    }

    method RepoFor(g: GitSource) returns (repo: Option<Checkout>)
      requires Valid() && exists e :: e in order && SourceOf(e) == g
      modifies this`repos, this`fetched
      ensures Valid()
      ensures repo == if g in world then Some(world[g]) else None
      ensures fetched == if g == root || g in old(fetched) || g !in world then old(fetched) else old(fetched) + [g]
    {
      if g !in repos {
        if g !in world {
          return None;
        }
        fetched := fetched + [g];
        repos := repos[g := world[g]];
      }
      return Some(repos[g]);
    }

    method AddEntry(path: string, url: string, rev: string)
      requires Valid()
      modifies this`entries, this`order
      ensures Valid()
      ensures order == Add(old(order), SourceEntry(path, url, rev, naming(path)))
      ensures forall p :: p in old(entries) ==> p in entries && entries[p] == old(entries[p])
    {
      if path in entries {
        return;
      }
      var entry := SourceEntry(path, url, rev, naming(path));
      forall p: string
        ensures Find(order + [entry], p) == if p == path then Some(entry) else Find(order, p)
      {
        FindAppend(order, [entry], p);
      }
      entries := entries[path := entry];
      order := order + [entry];
    }

    /** The shared loop of the two nested phases. */
    method AddBelowParent(p: SourceEntry, preferName: bool, selectors: seq<string>)
        returns (error: Option<GraphError>)
      requires Valid() && p in order
      modifies this
      ensures Valid()
      ensures AddBelow(naming, world, p, preferName, old(order), selectors)
           == if error.Some? then Err(error.value) else Ok(order)
    {
      var repo := RepoFor(SourceOf(p));
      if repo.None? {
        return Some(CannotFetch(SourceOf(p)));
      }
      for i := 0 to |selectors|
        invariant Valid() && old(order) <= order
        invariant AddChildren(naming, repo.value, p.path, preferName, order, selectors[i..])
               == AddBelow(naming, world, p, preferName, old(order), selectors)
      {
        assert selectors[i..][1..] == selectors[i + 1..];
        var meta := Resolve(repo.value, selectors[i], preferName);
        if meta.Err? {
          return Some(meta.error);
        }
        var m := meta.value;
        if m.path !in repo.value.links {
          return Some(NoGitlink(m.path));
        }
        AddEntry(p.path + "/" + m.path, m.url, repo.value.links[m.path]);
      }
      return None;
    }

    /** The first phase: submodules of the root commit. */
    method AddRootPaths(rootPaths: seq<string>) returns (error: Option<GraphError>)
      requires Valid()
      modifies this`entries, this`order
      ensures Valid()
      ensures AddRoots(naming, world[root], old(order), rootPaths)
           == if error.Some? then Err(error.value) else Ok(order)
    {
      hide Resolve, Add;
      for i := 0 to |rootPaths|
        invariant Valid()
        invariant AddRoots(naming, world[root], order, rootPaths[i..])
               == AddRoots(naming, world[root], old(order), rootPaths)
      {
        var path := rootPaths[i];
        assert rootPaths[i..][1..] == rootPaths[i + 1..];
        var meta := Resolve(world[root], path, false);
        if meta.Err? {
          return Some(meta.error);
        }
        if path !in world[root].links {
          return Some(NoGitlink(path));
        }
        AddEntry(path, meta.value.url, world[root].links[path]);
      }
      return None;
    }

    /** The second phase: nested submodules of the fetched submodules. */
    method AddNestedSpecs(specs: seq<(string, seq<string>)>) returns (error: Option<GraphError>)
      requires Valid()
      modifies this
      ensures Valid()
      ensures AddAllNested(naming, world, root, old(order), specs)
           == if error.Some? then Err(error.value) else Ok(order)
    {
      hide Resolve, AddBelow;
      for i := 0 to |specs|
        invariant Valid()
        invariant AddAllNested(naming, world, root, order, specs[i..])
               == AddAllNested(naming, world, root, old(order), specs)
      {
        assert specs[i..][1..] == specs[i + 1..];
        var meta := Resolve(world[root], specs[i].0, true);
        if meta.Err? {
          return Some(meta.error);
        }
        if meta.value.path in entries {
          FindSpec(order, meta.value.path);
          error := AddBelowParent(entries[meta.value.path], true, specs[i].1);
          if error.Some? {
            return;
          }
        }
      }
      return None;
    }

    /** The third phase: submodules below any entry. */
    method AddDeepItems(items: seq<DeepItem>) returns (error: Option<GraphError>)
      requires Valid()
      modifies this
      ensures Valid()
      ensures AddAllDeep(naming, world, old(order), items)
           == if error.Some? then Err(error.value) else Ok(order)
    {
      hide AddBelow;
      for i := 0 to |items|
        invariant Valid()
        invariant AddAllDeep(naming, world, order, items[i..]) == AddAllDeep(naming, world, old(order), items)
      {
        assert items[i..][1..] == items[i + 1..];
        var parent := items[i].parent;
        if parent !in entries {
          return Some(ParentNotFetched(parent));
        }
        FindSpec(order, parent);
        error := AddBelowParent(entries[parent], false, items[i].paths);
        if error.Some? {
          return;
        }
      }
      return None;
    }

    method BuildGraph(wanted: Selection) returns (result: Result<Entries, GraphError>)
      requires Valid() && order == []
      modifies this
      ensures Valid()
      ensures result == match Graph(naming, world, root, wanted)
                        case Err(e) => Err(e)
                        case Ok(es) => Ok(Sort(EntryLeq, es))
      ensures result.Ok? ==> multiset(result.value) == multiset(order)
    {
      hide AddRoots, AddAllNested, AddAllDeep, Sort;
      var error := AddRootPaths(wanted.rootPaths);
      if error.None? {
        error := AddNestedSpecs(wanted.specs);
      }
      if error.None? {
        error := AddDeepItems(wanted.deep);
      }
      if error.Some? {
        return Err(error.value);
      }
      SortPermutes(EntryLeq, order);
      return Ok(Sort(EntryLeq, order));
    }
  }
}
