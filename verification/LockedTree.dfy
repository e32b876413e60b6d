/** From the source graph over the written files to the assembled tree, in full and for the compiler. */
module LockedTree {
  import opened Wrappers
  import opened Orders
  import opened Strings
  import opened TextLines
  import opened InputNames
  import opened NixStrings
  import opened SourceGraph
  import opened GraphJustification
  import opened FlakeInputs
  import opened TreeFile
  import opened SourceAssembly

  /** Components that git allows in a tree and the file system does not reinterpret. */
  predicate NormalPath(path: string) {
    forall c :: c in SplitOn('/', path) ==> c != "" && c != "." && c != ".."
  }

  ghost predicate NormalWorld(world: World) {
    forall g, path :: g in world && path in world[g].links ==> NormalPath(path)
  }

  lemma NormalBelow(parent: string, path: string)
    requires NormalPath(parent) && NormalPath(path)
    ensures NormalPath(parent + "/" + path)
  {
    SplitConcat('/', parent, path);
  }

  lemma ParentGitlinkNormal(naming: string -> string, world: World, root: GitSource, wanted: Selection,
                            p: SourceEntry, e: SourceEntry)
    requires root in world && NormalWorld(world) && NormalPath(p.path)
    requires FromParent(naming, world, root, wanted, p, e)
    ensures NormalPath(e.path) && e.inputName == naming(e.path)
  {
    var preferName, selector :| AskedBelow(world[root], wanted, p, preferName, selector)
                                && FromSelector(naming, world, p, preferName, selector, e);
    NormalBelow(p.path, Resolve(world[SourceOf(p)], selector, preferName).value.path);
  }

  lemma {:induction false} GroundedPathsNormal(naming: string -> string, world: World, root: GitSource,
                                               wanted: Selection, es: Entries, i: nat)
    requires root in world && NormalWorld(world)
    requires Grounded(naming, world, root, wanted, es) && i < |es|
    ensures NormalPath(es[i].path) && es[i].inputName == naming(es[i].path)
    decreases i
  {
    hide FromParent, NormalPath;
    if !FromRoot(naming, world[root], wanted, es[i]) {
      var j :| 0 <= j < i && FromParent(naming, world, root, wanted, es[j], es[i]);
      GroundedPathsNormal(naming, world, root, wanted, es, j);
      ParentGitlinkNormal(naming, world, root, wanted, es[j], es[i]);
    }
  }

  // ----- From the list in the tree file to placements -----

  function Place(fetch: string -> Tree, pins: map<string, string>, l: Listed): Placement
    requires l.input in pins
  {
    Placement(SplitOn('/', l.path), fetch(pins[l.input]))
  }

  predicate Declares(pins: map<string, string>, listed: seq<Listed>) {
    forall l :: l in listed ==> l.input in pins
  }

  /** The submodule list of the tree file, its sources looked up among the declared inputs. */
  function Placements(fetch: string -> Tree, pins: map<string, string>, listed: seq<Listed>): seq<Placement>
    requires Declares(pins, listed)
  {
    seq(|listed|, i requires 0 <= i < |listed| => Place(fetch, pins, listed[i]))
  }

  /** The paths are distinct and their slash counts never decrease. */
  ghost predicate ByDepth(listed: seq<Listed>) {
    forall i, j :: 0 <= i < j < |listed| ==>
      listed[i].path != listed[j].path && Count('/', listed[i].path) <= Count('/', listed[j].path)
  }

  lemma ListingByDepth(entries: Entries)
    requires Distinct(entries) && SortedBy(EntryLeq, entries)
    ensures ByDepth(ListedOf(entries))
  {
    var listed := ListedOf(entries);
    forall i, j | 0 <= i < j < |listed|
      ensures listed[i].path != listed[j].path && Count('/', listed[i].path) <= Count('/', listed[j].path)
    {
      assert EntryLeq(entries[i], entries[j]);
    }
  }

  /** Sorting by slash count makes the list depth-sorted, component by component. */
  lemma SortedPlacements(fetch: string -> Tree, pins: map<string, string>, listed: seq<Listed>)
    requires Declares(pins, listed) && ByDepth(listed)
    ensures var ps := Placements(fetch, pins, listed);
            DistinctPaths(ps) && DepthSorted(ps) && ParentsFirst(ps)
  {
    var ps := Placements(fetch, pins, listed);
    forall i, j | 0 <= i < j < |ps|
      ensures ps[i].path != ps[j].path && |ps[i].path| <= |ps[j].path|
    {
      SplitLength('/', listed[i].path);
      SplitLength('/', listed[j].path);
      if ps[i].path == ps[j].path {
        SplitInjective('/', listed[i].path, listed[j].path);
      }
    }
    DepthSortedParentsFirst(ps);
  }

  // ----- The whole path from the graph to the tree -----

  /** No two of the paths share both the slug and the digest. */
  ghost predicate ToldApart(digest: string -> string, entries: Entries) {
    forall i, j :: 0 <= i < j < |entries| ==>
      Slug(entries[i].path) != Slug(entries[j].path) || digest(entries[i].path) != digest(entries[j].path)
  }

  /** The names are those of the paths; only the root has the empty path. */
  ghost predicate NamedByPath(digest: string -> string, series: string, target: string, root: SourceEntry,
                        entries: Entries) {
    && root.path == "" && root.inputName == InputName(digest, series, target, "")
    && forall e :: e in entries ==> e.path != "" && e.inputName == InputName(digest, series, target, e.path)
  }

  lemma TwoNames(digest: string -> string, series: string, target: string, root: SourceEntry, entries: Entries,
                 i: nat, j: nat)
    requires HexDigests(digest) && NamedByPath(digest, series, target, root, entries)
    requires i < j < |entries|
    ensures entries[i].inputName == entries[j].inputName <==>
            Slug(entries[i].path) == Slug(entries[j].path) && digest(entries[i].path) == digest(entries[j].path)
  {
    hide Slug, InputName, HexDigests;
    var e, f := entries[i], entries[j];
    assert e in entries && f in entries;
    InputNamesCoincide(digest, series, target, e.path, f.path);
  }

  lemma RootNameDiffers(digest: string -> string, series: string, target: string, root: SourceEntry,
                        entries: Entries, i: nat)
    requires HexDigests(digest) && NamedByPath(digest, series, target, root, entries) && i < |entries|
    ensures entries[i].inputName != root.inputName
  {
    hide Slug, InputName, HexDigests;
    assert entries[i] in entries;
    InputNamesCoincide(digest, series, target, "", entries[i].path);
  }

  ghost predicate DistinctInputNames(entries: Entries) {
    forall i, j :: 0 <= i < j < |entries| ==> entries[i].inputName != entries[j].inputName
  }

  lemma RootApart(root: SourceEntry, entries: Entries)
    requires forall i :: 0 <= i < |entries| ==> entries[i].inputName != root.inputName
    ensures DistinctInputNames([root] + entries) <==> DistinctInputNames(entries)
  {
    var all := [root] + entries;
    assert forall i :: 0 <= i < |entries| ==> all[1 + i] == entries[i];
  }

  /** Input names, the root's included, are pairwise distinct exactly when slugs and digests tell the paths apart. */
  lemma InputNamesDistinct(digest: string -> string, series: string, target: string, root: SourceEntry,
                           entries: Entries)
    requires HexDigests(digest) && NamedByPath(digest, series, target, root, entries)
    ensures DistinctInputNames([root] + entries) <==> ToldApart(digest, entries)
  {
    hide Slug, HexDigests, NamedByPath;
    forall i | 0 <= i < |entries|
      ensures entries[i].inputName != root.inputName
    {
      RootNameDiffers(digest, series, target, root, entries, i);
    }
    RootApart(root, entries);
    forall i, j | 0 <= i < j < |entries|
      ensures entries[i].inputName == entries[j].inputName <==>
              Slug(entries[i].path) == Slug(entries[j].path) && digest(entries[i].path) == digest(entries[j].path)
    {
      TwoNames(digest, series, target, root, entries, i, j);
    }
  }

  lemma SortedSound(digest: string -> string, es: Entries, sorted: Entries)
    requires Distinct(es) && ToldApart(digest, es) && sorted == Sort(EntryLeq, es)
    ensures SortedBy(EntryLeq, sorted) && Distinct(sorted) && ToldApart(digest, sorted)
    ensures forall e :: e in sorted <==> e in es
  {
    hide Slug, EntryLeq;
    EntryLeqIsPreorder();
    SortSorts(EntryLeq, es);
    SortPermutes(EntryLeq, es);
    SameElements(sorted, es);
    NoDuplicatesPermutes(es, sorted);
    forall i, j | 0 <= i < j < |sorted|
      ensures sorted[i].path != sorted[j].path
      ensures Slug(sorted[i].path) != Slug(sorted[j].path) || digest(sorted[i].path) != digest(sorted[j].path)
    {
      assert sorted[i] in es && sorted[j] in es;
      var k :| 0 <= k < |es| && es[k] == sorted[i];
      var l :| 0 <= l < |es| && es[l] == sorted[j];
      assert k != l;
    }
  }

  lemma GraphNamed(digest: string -> string, series: string, target: string, world: World, root: SourceEntry,
                   wanted: Selection, es: Entries)
    requires SourceOf(root) in world && NormalWorld(world)
    requires root.path == "" && root.inputName == InputName(digest, series, target, "")
    requires Grounded(path => InputName(digest, series, target, path), world, SourceOf(root), wanted, es)
    ensures NamedByPath(digest, series, target, root, es)
  {
    hide InputName, Grounded;
    forall e | e in es
      ensures e.path != "" && e.inputName == InputName(digest, series, target, e.path)
    {
      var i :| 0 <= i < |es| && es[i] == e;
      GroundedPathsNormal(path => InputName(digest, series, target, path), world, SourceOf(root), wanted, es, i);
      assert "" in SplitOn('/', "");
    }
  }

  /** What the build takes from its inputs: the root's tree and the installs in list order. */
  datatype Locked = Locked(root: Tree, submodules: seq<Placement>)

  /** The sources that the tree file names, looked up among the declared inputs and fetched by their urls. */
  function Lookup(fetch: string -> Tree, files: LockFiles): Option<Locked> {
    if files.tree.root !in files.pins || !Declares(files.pins, files.tree.submodules) then None
    else Some(Locked(fetch(files.pins[files.tree.root]), Placements(fetch, files.pins, files.tree.submodules)))
  }

  /** The inputs of the full build, from the text of the flake and of the tree file. */
  function FullInputs(fetch: string -> Tree, flake: string, tree: string): Option<Locked> {
    var files := ReadFiles(flake, tree);
    if files.None? then None else Lookup(fetch, files.value)
  }

  /** The installation that a submodule stands for: the tree at its own url and revision, at its own path. */
  function OwnPlacement(fetch: string -> Tree, url: (string, string) -> string, e: SourceEntry): Placement {
    Placement(SplitOn('/', e.path), fetch(url(e.url, e.rev)))
  }

  function OwnPlacements(fetch: string -> Tree, url: (string, string) -> string, chosen: set<SourceEntry>)
    : set<Placement>
  {
    set e | e in chosen :: OwnPlacement(fetch, url, e)
  }

  function EntrySet(entries: Entries): set<SourceEntry> {
    set e | e in entries
  }

  /** The build succeeds exactly when no file of the overlay is in the way, and then builds it. */
  ghost predicate BuildsOverlay(locked: Locked, root: Tree, all: set<Placement>) {
    && locked.root == root && Elements(locked.submodules) == all
    && DistinctPaths(locked.submodules) && ParentsFirst(locked.submodules)
    && (Assemble(root, locked.submodules).Ok? <==> NothingInTheWay(root, all))
    && (Assemble(root, locked.submodules).Ok? ==> IsOverlay(Assemble(root, locked.submodules).value, root, all))
  }

  ghost predicate OwnPins(url: (string, string) -> string, pins: map<string, string>, entries: Entries) {
    forall e :: e in entries ==> e.inputName in pins && pins[e.inputName] == url(e.url, e.rev)
  }

  lemma NamesDeclared(url: (string, string) -> string, entries: Entries)
    requires DistinctInputNames(entries)
    ensures Pins(DeclaredOf(url, entries)).Some? && OwnPins(url, Pins(DeclaredOf(url, entries)).value, entries)
  {
    var declared := DeclaredOf(url, entries);
    hide Pins;
    PinsExactly(declared);
    assert forall i :: 0 <= i < |entries| ==>
        declared[i].name == entries[i].inputName && declared[i].url == url(entries[i].url, entries[i].rev);
  }

  /** The entries that a list names. */
  ghost predicate Lists(listed: seq<Listed>, chosen: set<SourceEntry>) {
    forall l :: l in listed <==> exists e :: e in chosen && l == Listed(e.path, e.inputName)
  }

  lemma PlacementsListed(fetch: string -> Tree, url: (string, string) -> string, pins: map<string, string>,
                         entries: Entries, listed: seq<Listed>, chosen: set<SourceEntry>)
    requires OwnPins(url, pins, entries) && Lists(listed, chosen) && forall e :: e in chosen ==> e in entries
    ensures Declares(pins, listed)
    ensures Elements(Placements(fetch, pins, listed)) == OwnPlacements(fetch, url, chosen)
  {
    hide SplitOn;
    var ps, own := Elements(Placements(fetch, pins, listed)), OwnPlacements(fetch, url, chosen);
    forall e | e in chosen
      ensures Listed(e.path, e.inputName) in listed
      ensures Place(fetch, pins, Listed(e.path, e.inputName)) == OwnPlacement(fetch, url, e)
    {
    }
    forall p | p in ps
      ensures p in own
    {
      var i :| 0 <= i < |listed| && p == Place(fetch, pins, listed[i]);
      assert listed[i] in listed;
      var e :| e in chosen && listed[i] == Listed(e.path, e.inputName);
    }
    forall p | p in own
      ensures p in ps
    {
      var e :| e in chosen && p == OwnPlacement(fetch, url, e);
      var i :| 0 <= i < |listed| && listed[i] == Listed(e.path, e.inputName);
      assert Placements(fetch, pins, listed)[i] == p;
    }
  }

  lemma LookupBuilds(fetch: string -> Tree, url: (string, string) -> string, files: LockFiles, root: SourceEntry,
                     entries: Entries, chosen: set<SourceEntry>)
    requires OwnPins(url, files.pins, [root] + entries) && files.tree.root == root.inputName
    requires Lists(files.tree.submodules, chosen) && forall e :: e in chosen ==> e in entries
    requires ByDepth(files.tree.submodules)
    ensures Lookup(fetch, files).Some?
    ensures BuildsOverlay(Lookup(fetch, files).value, fetch(url(root.url, root.rev)),
                          OwnPlacements(fetch, url, chosen))
  {
    hide Lists, ByDepth, IsOverlay, NothingInTheWay, Assemble, DistinctPaths, ParentsFirst, Placements;
    assert root in [root] + entries;
    PlacementsListed(fetch, url, files.pins, [root] + entries, files.tree.submodules, chosen);
    SortedPlacements(fetch, files.pins, files.tree.submodules);
    AssembleIsOverlay(fetch(url(root.url, root.rev)), Placements(fetch, files.pins, files.tree.submodules));
  }

  lemma EntriesListed(entries: Entries)
    ensures Lists(ListedOf(entries), EntrySet(entries))
  {
    var listed := ListedOf(entries);
    forall l
      ensures l in listed <==> exists e :: e in entries && l == Listed(e.path, e.inputName)
    {
      if l in listed {
        var i :| 0 <= i < |listed| && listed[i] == l;
        assert entries[i] in entries;
      }
      if e :| e in entries && l == Listed(e.path, e.inputName) {
        var i :| 0 <= i < |entries| && entries[i] == e;
        assert listed[i] == l;
      }
    }
  }

  /** Literals that Nix reads as they were written. */
  ghost predicate ReadableEntries(url: (string, string) -> string, root: SourceEntry, entries: Entries) {
    && Readable(url(root.url, root.rev))
    && forall e :: e in entries ==> Readable(e.path) && Readable(url(e.url, e.rev))
  }

  lemma FilesReadable(digest: string -> string, series: string, target: string, url: (string, string) -> string,
                      root: SourceEntry, entries: Entries)
    requires HexDigests(digest) && NamedByPath(digest, series, target, root, entries)
    requires Readable(series) && Readable(target) && ReadableEntries(url, root, entries)
    ensures Readable(root.inputName) && ReadableInputs(url, [root] + entries) && ReadableListing(entries)
  {
    hide Readable, InputName, HexDigests;
    NameReadable(digest, series, target, "");
    forall i | 0 <= i < |entries|
      ensures Readable(entries[i].path) && Readable(entries[i].inputName)
      ensures Readable(url(entries[i].url, entries[i].rev))
    {
      assert entries[i] in entries;
      NameReadable(digest, series, target, entries[i].path);
    }
  }

  lemma BothRead(flake: string, tree: string)
    ensures var pins, inputs := ReadFlake(SplitLines(flake)), ReadTree(SplitLines(tree));
            ReadFiles(flake, tree)
            == if pins.None? || inputs.None? then None else Some(LockFiles(pins.value, inputs.value))
  {
  }

  /** What the two files hold once the updater has written them. */
  lemma WrittenFiles(digest: string -> string, series: string, target: string, url: (string, string) -> string,
                     root: SourceEntry, entries: Entries, flake: string, begin: nat, end: nat)
    requires HexDigests(digest) && NamedByPath(digest, series, target, root, entries) && ToldApart(digest, entries)
    requires Readable(series) && Readable(target) && ReadableEntries(url, root, entries)
    requires Marked(SplitLines(flake), begin, end)
    ensures SpliceText(flake, InputLines(url, root, entries)).Ok?
    ensures var files := ReadFiles(SpliceText(flake, InputLines(url, root, entries)).value,
                                   Unlines(TreeLines(target, series, root, entries)));
            && files.Some?
            && files.value.tree == TreeInputs(target, series, root.inputName, ListedOf(entries))
            && OwnPins(url, files.value.pins, [root] + entries)
  {
    hide *;
    InputNamesDistinct(digest, series, target, root, entries);
    FilesReadable(digest, series, target, url, root, entries);
    NamesDeclared(url, [root] + entries);
    FlakeReadsBack(flake, begin, end, url, root, entries);
    TreeTextReadsBack(target, series, root, entries);
    BothRead(SpliceText(flake, InputLines(url, root, entries)).value,
             Unlines(TreeLines(target, series, root, entries)));
  }

  /** The updater's run: the graph is walked, and no two of its paths or strings get in each other's way. */
  ghost predicate Updated(digest: string -> string, series: string, target: string, world: World, root: SourceEntry,
                          wanted: Selection, url: (string, string) -> string, es: Entries)
  {
    && SourceOf(root) in world && NormalWorld(world)
    && root.path == "" && root.inputName == InputName(digest, series, target, "")
    && Graph(path => InputName(digest, series, target, path), world, SourceOf(root), wanted) == Ok(es)
    && HexDigests(digest) && ToldApart(digest, es)
    && Readable(series) && Readable(target) && ReadableEntries(url, root, es)
  }

  lemma SortedGraph(digest: string -> string, series: string, target: string, world: World, root: SourceEntry,
                    wanted: Selection, url: (string, string) -> string, es: Entries)
    requires Updated(digest, series, target, world, root, wanted, url, es)
    ensures var sorted := Sort(EntryLeq, es);
            && NamedByPath(digest, series, target, root, sorted) && ToldApart(digest, sorted)
            && ReadableEntries(url, root, sorted) && ByDepth(ListedOf(sorted))
            && HexDigests(digest) && Readable(series) && Readable(target)
            && forall e :: e in sorted <==> e in es
  {
    hide Graph, InputName, Grounded, HexDigests, ToldApart, Distinct, EntryLeq, Readable, ByDepth;
    var sorted := Sort(EntryLeq, es);
    GraphSound(path => InputName(digest, series, target, path), world, SourceOf(root), wanted);
    GraphNamed(digest, series, target, world, root, wanted, es);
    SortedSound(digest, es, sorted);
    ListingByDepth(sorted);
  }

  lemma FullInputsAre(fetch: string -> Tree, flake: string, tree: string)
    ensures FullInputs(fetch, flake, tree)
         == if ReadFiles(flake, tree).None? then None else Lookup(fetch, ReadFiles(flake, tree).value)
  {
  }

  lemma SameEntries(sorted: Entries, es: Entries)
    requires forall e :: e in sorted <==> e in es
    ensures EntrySet(sorted) == EntrySet(es)
  {
  }

  lemma InEntrySet(entries: Entries)
    ensures forall e :: e in EntrySet(entries) <==> e in entries
  {
  }

  /**
   What the updater writes, the build reads: for any flake with the markers, the generated list replayed
   over the root builds the overlay in which every file comes from the deepest submodule above it, each at
   the revision its gitlink pins; it fails exactly when a file of that overlay stands where a directory is
   needed.
   */
  lemma LockedTreeIsOverlay(digest: string -> string, series: string, target: string, world: World,
                            root: SourceEntry, wanted: Selection, url: (string, string) -> string,
                            fetch: string -> Tree, flake: string, begin: nat, end: nat, es: Entries)
    requires Updated(digest, series, target, world, root, wanted, url, es)
    requires Marked(SplitLines(flake), begin, end)
    ensures var sorted := Sort(EntryLeq, es);
            var updated := SpliceText(flake, InputLines(url, root, sorted));
            && updated.Ok?
            && var inputs := FullInputs(fetch, updated.value, Unlines(TreeLines(target, series, root, sorted)));
               && inputs.Some?
               && BuildsOverlay(inputs.value, fetch(url(root.url, root.rev)), OwnPlacements(fetch, url, EntrySet(es)))
  {
    hide *;
    var sorted := Sort(EntryLeq, es);
    SortedGraph(digest, series, target, world, root, wanted, url, es);
    SameEntries(sorted, es);
    WrittenFiles(digest, series, target, url, root, sorted, flake, begin, end);
    EntriesListed(sorted);
    ghost var flakeText := SpliceText(flake, InputLines(url, root, sorted)).value;
    ghost var treeText := Unlines(TreeLines(target, series, root, sorted));
    FullInputsAre(fetch, flakeText, treeText);
    InEntrySet(sorted);
    LookupBuilds(fetch, url, ReadFiles(flakeText, treeText).value, root, sorted, EntrySet(sorted));
  }

  // ----- The compiler profile -----

  const PROFILER_PREFIX := "rocm-systems/projects/rocprofiler-"

  predicate Kept(l: Listed) {
    !(PROFILER_PREFIX <= l.path)
  }

  function CompilerSubmodules(listed: seq<Listed>): seq<Listed> {
    if listed == [] then []
    else (if Kept(listed[0]) then [listed[0]] else []) + CompilerSubmodules(listed[1..])
  }

  /** The inputs of the compiler's build. */
  function CompilerInputs(fetch: string -> Tree, flake: string, tree: string): Option<Locked> {
    var files := ReadFiles(flake, tree);
    if files.None? then None
    else
      var inputs := files.value.tree;
      Lookup(fetch, files.value.(tree := inputs.(submodules := CompilerSubmodules(inputs.submodules))))
  }

  lemma {:induction false} CompilerSubmodulesAre(listed: seq<Listed>, l: Listed)
    ensures l in CompilerSubmodules(listed) <==> l in listed && Kept(l)
  {
    hide Kept;
    if listed != [] {
      CompilerSubmodulesAre(listed[1..], l);
      assert l in listed <==> l == listed[0] || l in listed[1..];
    }
  }

  lemma HeadFirst(listed: seq<Listed>, l: Listed)
    requires listed != [] && ByDepth(listed) && l in listed[1..]
    ensures listed[0].path != l.path && Count('/', listed[0].path) <= Count('/', l.path)
  {
    var k :| 0 <= k < |listed| - 1 && listed[1..][k] == l;
    assert listed[k + 1] == l;
  }

  lemma {:induction false} CompilerSubmodulesByDepth(listed: seq<Listed>)
    requires ByDepth(listed)
    ensures ByDepth(CompilerSubmodules(listed))
  {
    hide Kept, Count;
    if listed != [] {
      var head, rest := listed[0], CompilerSubmodules(listed[1..]);
      CompilerSubmodulesByDepth(listed[1..]);
      forall i | 0 <= i < |rest|
        ensures head.path != rest[i].path && Count('/', head.path) <= Count('/', rest[i].path)
      {
        CompilerSubmodulesAre(listed[1..], rest[i]);
        HeadFirst(listed, rest[i]);
      }
      assert CompilerSubmodules(listed) == if Kept(head) then [head] + rest else rest;
    }
  }

  /** The entries that stay: those whose path does not begin with the profilers' prefix. */
  function CompilerEntries(entries: Entries): set<SourceEntry> {
    set e | e in entries && !("rocm-systems/projects/rocprofiler-" <= e.path)
  }

  lemma CompilerEntriesListed(entries: Entries)
    ensures Lists(CompilerSubmodules(ListedOf(entries)), CompilerEntries(entries))
  {
    EntriesListed(entries);
    hide CompilerSubmodules, ListedOf;
    forall l
      ensures l in CompilerSubmodules(ListedOf(entries))
          <==> exists e :: e in CompilerEntries(entries) && l == Listed(e.path, e.inputName)
    {
      CompilerSubmodulesAre(ListedOf(entries), l);
      if e :| e in EntrySet(entries) && l == Listed(e.path, e.inputName) && Kept(l) {
        assert e in CompilerEntries(entries);
      }
      if e :| e in CompilerEntries(entries) && l == Listed(e.path, e.inputName) {
        assert e in EntrySet(entries);
      }
    }
  }

  lemma CompilerInputsAre(fetch: string -> Tree, flake: string, tree: string, files: LockFiles)
    requires ReadFiles(flake, tree) == Some(files)
    ensures CompilerInputs(fetch, flake, tree)
         == Lookup(fetch, LockFiles(files.pins, files.tree.(submodules := CompilerSubmodules(files.tree.submodules))))
  {
  }

  lemma SameCompilerEntries(sorted: Entries, es: Entries)
    requires forall e :: e in sorted <==> e in es
    ensures CompilerEntries(sorted) == CompilerEntries(es)
    ensures forall e :: e in CompilerEntries(sorted) ==> e in sorted
  {
  }

  lemma CompilerEntriesAre(entries: Entries)
    ensures CompilerEntries(entries) == set e | e in entries && !("rocm-systems/projects/rocprofiler-" <= e.path)
  {
  }

  /** The compiler's tree is the overlay of exactly the submodules whose path does not begin with that prefix. */
  lemma CompilerTreeIsOverlay(digest: string -> string, series: string, target: string, world: World,
                              root: SourceEntry, wanted: Selection, url: (string, string) -> string,
                              fetch: string -> Tree, flake: string, begin: nat, end: nat, es: Entries)
    requires Updated(digest, series, target, world, root, wanted, url, es)
    requires Marked(SplitLines(flake), begin, end)
    ensures var sorted := Sort(EntryLeq, es);
            var updated := SpliceText(flake, InputLines(url, root, sorted));
            && updated.Ok?
            && var inputs := CompilerInputs(fetch, updated.value, Unlines(TreeLines(target, series, root, sorted)));
               && inputs.Some?
               && BuildsOverlay(inputs.value, fetch(url(root.url, root.rev)),
                                OwnPlacements(fetch, url,
                                              set e | e in es && !("rocm-systems/projects/rocprofiler-" <= e.path)))
  {
    hide *;
    var sorted := Sort(EntryLeq, es);
    SortedGraph(digest, series, target, world, root, wanted, url, es);
    SameCompilerEntries(sorted, es);
    WrittenFiles(digest, series, target, url, root, sorted, flake, begin, end);
    CompilerEntriesListed(sorted);
    ghost var flakeText := SpliceText(flake, InputLines(url, root, sorted)).value;
    ghost var treeText := Unlines(TreeLines(target, series, root, sorted));
    ghost var files := ReadFiles(flakeText, treeText).value;
    CompilerInputsAre(fetch, flakeText, treeText, files);
    CompilerSubmodulesByDepth(files.tree.submodules);
    LookupBuilds(fetch, url,
                 LockFiles(files.pins, files.tree.(submodules := CompilerSubmodules(files.tree.submodules))),
                 root, sorted, CompilerEntries(sorted));
    CompilerEntriesAre(es);
  }

  lemma PrefixTransitive(a: string, b: string, c: string)
    requires a <= b && b <= c
    ensures a <= c
  {
  }

  /** Although the filter compares strings, it never drops a submodule and keeps one below it. */
  lemma FilterDropsSubtrees(p: Listed, d: Listed)
    requires SplitOn('/', d.path) <= SplitOn('/', p.path) && Kept(p)
    ensures Kept(d)
  {
    SplitPrefix('/', d.path, p.path);
    if PROFILER_PREFIX <= d.path {
      PrefixTransitive(PROFILER_PREFIX, d.path, p.path);
    }
  }

  ghost predicate UnderDroppedSubmodule(listed: seq<Listed>, q: FsPath) {
    exists d :: d in listed && !Kept(d) && SplitOn('/', d.path) <= q
  }

  lemma PlacementsAre(fetch: string -> Tree, pins: map<string, string>, listed: seq<Listed>, d: Placement)
    requires Declares(pins, listed)
    ensures d in Elements(Placements(fetch, pins, listed)) <==>
            exists l :: l in listed && Place(fetch, pins, l) == d
  {
    var ps := Placements(fetch, pins, listed);
    if d in ps {
      var i :| 0 <= i < |ps| && ps[i] == d;
      assert listed[i] in listed;
    }
    if l :| l in listed && Place(fetch, pins, l) == d {
      var i :| 0 <= i < |listed| && listed[i] == l;
      assert ps[i] == d;
    }
  }

  lemma FilteredPlacements(fetch: string -> Tree, pins: map<string, string>, listed: seq<Listed>, kept: seq<Listed>)
    requires Declares(pins, listed)
    requires forall l :: l in kept <==> l in listed && Kept(l)
    ensures Declares(pins, kept)
    ensures DropsSubtrees(Elements(Placements(fetch, pins, listed)), Elements(Placements(fetch, pins, kept)))
    ensures forall d :: d in Elements(Placements(fetch, pins, listed)) && d !in Elements(Placements(fetch, pins, kept))
              ==> exists l :: l in listed && !Kept(l) && Place(fetch, pins, l) == d
  {
    var ps, ks := Elements(Placements(fetch, pins, listed)), Elements(Placements(fetch, pins, kept));
    forall d: Placement
      ensures d in ps <==> exists l :: l in listed && Place(fetch, pins, l) == d
      ensures d in ks <==> exists l :: l in kept && Place(fetch, pins, l) == d
    {
      PlacementsAre(fetch, pins, listed, d);
      PlacementsAre(fetch, pins, kept, d);
    }
    forall p, d | p in ks && d in ps && d.path <= p.path
      ensures d in ks
    {
      var lp :| lp in kept && Place(fetch, pins, lp) == p;
      var ld :| ld in listed && Place(fetch, pins, ld) == d;
      FilterDropsSubtrees(lp, ld);
    }
  }

  /** If the full tree builds, so does the compiler's, and they agree outside the dropped submodules. */
  lemma CompilerTreeAgrees(fetch: string -> Tree, pins: map<string, string>, root: Tree, listed: seq<Listed>)
    requires Declares(pins, listed) && ByDepth(listed)
    requires Assemble(root, Placements(fetch, pins, listed)).Ok?
    ensures Declares(pins, CompilerSubmodules(listed))
    ensures var full := Assemble(root, Placements(fetch, pins, listed));
            var compiler := Assemble(root, Placements(fetch, pins, CompilerSubmodules(listed)));
            && compiler.Ok?
            && forall q :: !UnderDroppedSubmodule(listed, q) ==> Get(compiler.value, q) == Get(full.value, q)
  {
    var kept := CompilerSubmodules(listed);
    CompilerSubmodulesByDepth(listed);
    forall l
      ensures l in kept <==> l in listed && Kept(l)
    {
      CompilerSubmodulesAre(listed, l);
    }
    FilteredPlacements(fetch, pins, listed, kept);
    var ps, ks := Placements(fetch, pins, listed), Placements(fetch, pins, kept);
    SortedPlacements(fetch, pins, listed);
    SortedPlacements(fetch, pins, kept);
    ReducedTreeAgrees(root, ps, ks);
    assert forall q :: UnderDropped(Elements(ps), Elements(ks), q) ==> UnderDroppedSubmodule(listed, q);
  }
}
