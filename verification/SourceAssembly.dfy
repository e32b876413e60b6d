/**
 The locked source tree: a root checkout over which every submodule is installed in list order, each
 installation first removing whatever lies at or under its destination.
 */
module SourceAssembly {
  import opened Wrappers

  type Content = string

  /** A location below the output directory, as its path components. */
  type FsPath = seq<string>

  /** The files of a directory; which maps are trees of files, `IsFileTree` says. */
  type Tree = map<FsPath, Content>

  datatype Placement = Placement(path: FsPath, source: Tree)

  /** The shell runs under `set -e`: a failing command ends the build. */
  datatype BuildError = CannotMakeDirectory(path: FsPath)

  function Get(tree: Tree, q: FsPath): Option<Content> {
    if q in tree then Some(tree[q]) else None
  }

  /** `mkdir -p` fails when a proper ancestor of the directory is a file. */
  predicate Blocked(tree: Tree, path: FsPath) {
    exists k :: 0 <= k < |path| && path[..k] in tree
  }

  function Without(tree: Tree, path: FsPath): Tree {
    map q | q in tree && !(path <= q) :: tree[q]
  }

  function Relocated(source: Tree, path: FsPath): Tree {
    var moved := set f | f in source :: path + f;
    map q | q in moved :: source[q[|path|..]]
  }

  /** The tree once `source` has replaced all there was at or under `path`. */
  function Overwrite(tree: Tree, path: FsPath, source: Tree): Tree {
    Without(tree, path) + Relocated(source, path)
  }

  /** Overwriting changes exactly the region under `path`. */
  lemma OverwriteAt(tree: Tree, path: FsPath, source: Tree, q: FsPath)
    ensures Get(Overwrite(tree, path, source), q)
         == if path <= q then Get(source, q[|path|..]) else Get(tree, q)
  {
    if path <= q {
      assert path + q[|path|..] == q;
    }
  }

  /** The build as a function: the placements are replayed in list order over the root. */
  function Assemble(root: Tree, ps: seq<Placement>): Result<Tree, BuildError> {
    if ps == [] then Ok(root)
    else
      match Assemble(root, ps[..|ps| - 1])
      case Err(e) => Err(e)
      case Ok(tree) =>
        var p := ps[|ps| - 1];
        if Blocked(tree, p.path) then Err(CannotMakeDirectory(p.path))
        else Ok(Overwrite(tree, p.path, p.source))
  }

  lemma {:induction false} ErrorsPersist(root: Tree, ps: seq<Placement>, n: nat)
    requires n <= |ps| && Assemble(root, ps[..n]).Err?
    ensures Assemble(root, ps) == Assemble(root, ps[..n])
  {
    if n == |ps| {
      assert ps[..n] == ps;
    } else {
      assert ps[..|ps| - 1][..n] == ps[..n];
      ErrorsPersist(root, ps[..|ps| - 1], n);
    }
  }

  /** The output directory while the build script runs. */
  class Builder {
    var out: Tree

    constructor ()
      ensures out == map[]
    {
      out := map[];
    }

    method InstallSource(destination: FsPath, source: Tree) returns (done: bool)
      modifies this
      ensures done == !Blocked(old(out), destination)
      ensures out == if done then Overwrite(old(out), destination, source) else old(out)
    {
      if Blocked(out, destination) {
        return false;
      }
      out := Without(out, destination);
      out := out + Relocated(source, destination);
      return true;
    }

    /** Afterwards the directory is what `Assemble` says; a failed build keeps what it had reached. */
    method MkLockedSource(root: Tree, submodules: seq<Placement>) returns (result: Result<Tree, BuildError>)
      requires out == map[]
      modifies this
      ensures result == Assemble(root, submodules)
      ensures result.Ok? ==> out == result.value
    {
      out := root;
      assert submodules[..0] == [];
      for i := 0 to |submodules|
        invariant Assemble(root, submodules[..i]) == Ok(out)
      {
        assert submodules[..i + 1][..i] == submodules[..i];
        var done := InstallSource(submodules[i].path, submodules[i].source);
        if !done {
          ErrorsPersist(root, submodules, i + 1);
          return Err(CannotMakeDirectory(submodules[i].path));
        }
      }
      assert submodules[..|submodules|] == submodules;
      return Ok(out);
    }
  }

  // ----- Files stay files -----

  /** The directory itself is no file, and no file stands above another. */
  predicate IsFileTree(tree: Tree) {
    [] !in tree && forall a, b :: a in tree && b in tree && a <= b ==> a == b
  }

  lemma AboveIsBlocked(tree: Tree, path: FsPath, a: FsPath, b: FsPath)
    requires a in tree && a <= b && path <= b && |a| < |path|
    ensures Blocked(tree, path)
  {
    assert a == path[..|a|];
  }

  lemma OverwrittenPair(tree: Tree, path: FsPath, source: Tree, a: FsPath, b: FsPath)
    requires IsFileTree(tree) && IsFileTree(source) && !Blocked(tree, path)
    requires a in Overwrite(tree, path, source) && b in Overwrite(tree, path, source) && a <= b
    ensures a == b
  {
    OverwriteAt(tree, path, source, a);
    OverwriteAt(tree, path, source, b);
    hide Overwrite, Blocked;
    if path <= a {
      var x, y := a[|path|..], b[|path|..];
      assert x in source && y in source && x <= y;
      assert a == path + x && b == path + y;
    } else if path <= b {
      AboveIsBlocked(tree, path, a, b);
    }
  }

  lemma OverwriteKeepsFileTree(tree: Tree, path: FsPath, source: Tree)
    requires IsFileTree(tree) && IsFileTree(source) && !Blocked(tree, path)
    ensures IsFileTree(Overwrite(tree, path, source))
  {
    var r := Overwrite(tree, path, source);
    OverwriteAt(tree, path, source, []);
    hide Overwrite, Blocked;
    forall a, b | a in r && b in r && a <= b
      ensures a == b
    {
      OverwrittenPair(tree, path, source, a, b);
    }
  }

  /** From a root and sources in which no file stands above another, a finished build is such a tree too. */
  lemma {:induction false} AssembleKeepsFileTrees(root: Tree, ps: seq<Placement>)
    requires IsFileTree(root) && forall p :: p in ps ==> IsFileTree(p.source)
    requires Assemble(root, ps).Ok?
    ensures IsFileTree(Assemble(root, ps).value)
  {
    hide IsFileTree, Overwrite, Blocked;
    if ps != [] {
      AssembleKeepsFileTrees(root, ps[..|ps| - 1]);
      var p := ps[|ps| - 1];
      assert p in ps;
      OverwriteKeepsFileTree(Assemble(root, ps[..|ps| - 1]).value, p.path, p.source);
    }
  }

  // ----- What a replay yields, whatever the order -----

  /** The last placement in the list whose destination is at or above `q`. */
  function LastWriter(ps: seq<Placement>, q: FsPath): (w: Option<Placement>)
    ensures w.Some? ==> w.value in ps && w.value.path <= q
    ensures w.None? ==> forall p :: p in ps ==> !(p.path <= q)
  {
    if ps == [] then None
    else if ps[|ps| - 1].path <= q then Some(ps[|ps| - 1])
    else LastWriter(ps[..|ps| - 1], q)
  }

  function ReplayAt(root: Tree, ps: seq<Placement>, q: FsPath): Option<Content> {
    match LastWriter(ps, q)
    case None => Get(root, q)
    case Some(p) => Get(p.source, q[|p.path|..])
  }

  /** Each file of a finished replay comes from the last installation at or above it. */
  lemma {:induction false} ReplayContents(root: Tree, ps: seq<Placement>, q: FsPath)
    requires Assemble(root, ps).Ok?
    ensures Get(Assemble(root, ps).value, q) == ReplayAt(root, ps, q)
  {
    if ps != [] {
      var init, p := ps[..|ps| - 1], ps[|ps| - 1];
      ReplayContents(root, init, q);
      OverwriteAt(Assemble(root, init).value, p.path, p.source, q);
    }
  }

  // ----- The overlay: the deepest placement owns a file -----

  function Elements(ps: seq<Placement>): set<Placement> {
    set p | p in ps
  }

  ghost predicate IsOwner(ps: set<Placement>, p: Placement, q: FsPath) {
    && p in ps
    && p.path <= q
    && forall o :: o in ps && o.path <= q ==> |o.path| <= |p.path|
  }

  /** The file at `q` when every file belongs to the deepest placement above it, else to the root. */
  ghost function OverlayAt(root: Tree, ps: set<Placement>, q: FsPath): Option<Content> {
    if exists p :: IsOwner(ps, p, q) then
      var p :| IsOwner(ps, p, q);
      Get(p.source, q[|p.path|..])
    else Get(root, q)
  }

  ghost predicate IsOverlay(tree: Tree, root: Tree, ps: set<Placement>) {
    forall q :: Get(tree, q) == OverlayAt(root, ps, q)
  }

  ghost predicate DistinctPaths(ps: seq<Placement>) {
    forall i, j :: 0 <= i < j < |ps| ==> ps[i].path != ps[j].path
  }

  /** No installation wipes out an earlier one. */
  ghost predicate ParentsFirst(ps: seq<Placement>) {
    forall i, j :: 0 <= i < j < |ps| ==> !(ps[j].path <= ps[i].path)
  }

  ghost predicate DepthSorted(ps: seq<Placement>) {
    forall i, j :: 0 <= i < j < |ps| ==> |ps[i].path| <= |ps[j].path|
  }

  lemma DepthSortedParentsFirst(ps: seq<Placement>)
    requires DistinctPaths(ps) && DepthSorted(ps)
    ensures ParentsFirst(ps)
  {
    forall i, j | 0 <= i < j < |ps|
      ensures !(ps[j].path <= ps[i].path)
    {
      assert |ps[i].path| <= |ps[j].path| && ps[i].path != ps[j].path;
    }
  }

  lemma PrefixesNest(a: FsPath, b: FsPath, q: FsPath)
    requires a <= q && b <= q && |a| <= |b|
    ensures a <= b
  {
    assert a == q[..|a|] && b == q[..|b|];
  }

  lemma {:induction false} LastWriterIsOwner(ps: seq<Placement>, q: FsPath)
    requires ParentsFirst(ps)
    ensures LastWriter(ps, q).Some? ==> IsOwner(Elements(ps), LastWriter(ps, q).value, q)
  {
    if ps != [] {
      var init, p := ps[..|ps| - 1], ps[|ps| - 1];
      if p.path <= q {
        forall o | o in ps && o.path <= q
          ensures |o.path| <= |p.path|
        {
          var i :| 0 <= i < |ps| && ps[i] == o;
          if |p.path| <= |o.path| {
            PrefixesNest(p.path, o.path, q);
          }
        }
      } else {
        LastWriterIsOwner(init, q);
      }
    }
  }

  lemma LastWriterIndex(ps: seq<Placement>, q: FsPath, j: nat)
    requires j < |ps| && ps[j].path <= q
    ensures exists k :: j <= k < |ps| && LastWriter(ps, q) == Some(ps[k])
  {
    if !(ps[|ps| - 1].path <= q) {
      LastWriterIndex(ps[..|ps| - 1], q, j);
    }
  }

  /** The orders in which the last writer of every file is its owner are exactly those with parents first. */
  lemma RightOrders(ps: seq<Placement>)
    requires DistinctPaths(ps)
    ensures ParentsFirst(ps) <==>
            forall q :: LastWriter(ps, q).Some? ==> IsOwner(Elements(ps), LastWriter(ps, q).value, q)
  {
    if ParentsFirst(ps) {
      forall q {
        LastWriterIsOwner(ps, q);
      }
    } else {
      var i, j :| 0 <= i < j < |ps| && ps[j].path <= ps[i].path;
      var q := ps[i].path;
      LastWriterIndex(ps, q, j);
      var k :| j <= k < |ps| && LastWriter(ps, q) == Some(ps[k]);
      assert ps[i].path != ps[k].path && ps[k].path <= q;
      assert ps[i] in Elements(ps) && ps[i].path <= q && |ps[k].path| < |q|;
    }
  }

  lemma OwnersAgree(ps: seq<Placement>, p: Placement, o: Placement, q: FsPath)
    requires DistinctPaths(ps)
    requires IsOwner(Elements(ps), p, q) && IsOwner(Elements(ps), o, q)
    ensures p == o
  {
    PrefixesNest(p.path, o.path, q);
    var i :| 0 <= i < |ps| && ps[i] == p;
    var j :| 0 <= j < |ps| && ps[j] == o;
  }

  lemma ReplayIsOverlayAt(root: Tree, ps: seq<Placement>, q: FsPath)
    requires DistinctPaths(ps) && ParentsFirst(ps)
    ensures ReplayAt(root, ps, q) == OverlayAt(root, Elements(ps), q)
  {
    LastWriterIsOwner(ps, q);
    if LastWriter(ps, q).Some? {
      var p := LastWriter(ps, q).value;
      var o :| IsOwner(Elements(ps), o, q) && OverlayAt(root, Elements(ps), q) == Get(o.source, q[|o.path|..]);
      OwnersAgree(ps, p, o, q);
    }
  }

  // ----- When the build succeeds -----

  /** No directory to be made has a file of the overlay for an ancestor. */
  ghost predicate NothingInTheWay(root: Tree, ps: set<Placement>) {
    forall p, k :: p in ps && 0 <= k < |p.path| ==> OverlayAt(root, ps, p.path[..k]).None?
  }

  lemma LastWriterSkips(ps: seq<Placement>, n: nat, q: FsPath)
    requires n <= |ps| && forall j :: n <= j < |ps| ==> !(ps[j].path <= q)
    ensures LastWriter(ps, q) == LastWriter(ps[..n], q)
  {
    if n == |ps| {
      assert ps[..n] == ps;
    } else {
      assert ps[..|ps| - 1][..n] == ps[..n];
      LastWriterSkips(ps[..|ps| - 1], n, q);
    }
  }

  /** Nothing that the first `i` placements leave is a file among the ancestors of the next destination. */
  ghost predicate StepClear(root: Tree, ps: seq<Placement>, i: nat)
    requires i < |ps|
  {
    forall k :: 0 <= k < |ps[i].path| ==> ReplayAt(root, ps[..i], ps[i].path[..k]).None?
  }

  lemma BlockedByReplay(root: Tree, ps: seq<Placement>, path: FsPath)
    requires Assemble(root, ps).Ok?
    ensures Blocked(Assemble(root, ps).value, path) <==>
            exists k :: 0 <= k < |path| && ReplayAt(root, ps, path[..k]).Some?
  {
    hide Assemble, ReplayAt;
    var tree := Assemble(root, ps).value;
    forall k | 0 <= k < |path|
      ensures path[..k] in tree <==> ReplayAt(root, ps, path[..k]).Some?
    {
      ReplayContents(root, ps, path[..k]);
    }
  }

  lemma StepClearInit(root: Tree, ps: seq<Placement>, i: nat)
    requires i < |ps| - 1
    ensures StepClear(root, ps[..|ps| - 1], i) <==> StepClear(root, ps, i)
  {
    hide ReplayAt;
    assert ps[..|ps| - 1][..i] == ps[..i];
  }

  lemma AssembleLast(root: Tree, ps: seq<Placement>)
    requires ps != []
    ensures var init := Assemble(root, ps[..|ps| - 1]);
            Assemble(root, ps).Ok? <==> init.Ok? && !Blocked(init.value, ps[|ps| - 1].path)
  {
    hide Blocked, Overwrite;
  }

  lemma LastStepClear(root: Tree, ps: seq<Placement>)
    requires ps != [] && Assemble(root, ps[..|ps| - 1]).Ok?
    ensures StepClear(root, ps, |ps| - 1) <==> !Blocked(Assemble(root, ps[..|ps| - 1]).value, ps[|ps| - 1].path)
  {
    hide Assemble, ReplayAt, Blocked;
    BlockedByReplay(root, ps[..|ps| - 1], ps[|ps| - 1].path);
  }

  /** A replay succeeds exactly when no step finds a file among the ancestors of its destination. */
  lemma {:induction false} ReplaySucceeds(root: Tree, ps: seq<Placement>)
    ensures Assemble(root, ps).Ok? <==> forall i :: 0 <= i < |ps| ==> StepClear(root, ps, i)
  {
    if ps != [] {
      hide Assemble, StepClear;
      var n := |ps| - 1;
      ReplaySucceeds(root, ps[..n]);
      AssembleLast(root, ps);
      forall i | 0 <= i < n
        ensures StepClear(root, ps[..n], i) <==> StepClear(root, ps, i)
      {
        StepClearInit(root, ps, i);
      }
      if Assemble(root, ps[..n]).Ok? {
        LastStepClear(root, ps);
      }
    }
  }

  /** Above the destination of a placement nothing changes any more from that placement on. */
  lemma AncestorsOfDestination(root: Tree, ps: seq<Placement>, i: nat, k: nat)
    requires DistinctPaths(ps) && ParentsFirst(ps) && i < |ps| && k < |ps[i].path|
    ensures ReplayAt(root, ps[..i], ps[i].path[..k]) == OverlayAt(root, Elements(ps), ps[i].path[..k])
  {
    hide OverlayAt;
    var q := ps[i].path[..k];
    forall j | i <= j < |ps|
      ensures !(ps[j].path <= q)
    {
      assert q <= ps[i].path && |q| < |ps[i].path|;
      assert j > i ==> !(ps[j].path <= ps[i].path);
    }
    LastWriterSkips(ps, i, q);
    ReplayIsOverlayAt(root, ps, q);
  }

  lemma AllStepsClear(root: Tree, ps: seq<Placement>)
    requires DistinctPaths(ps) && ParentsFirst(ps)
    ensures (forall i :: 0 <= i < |ps| ==> StepClear(root, ps, i)) <==> NothingInTheWay(root, Elements(ps))
  {
    hide OverlayAt, ReplayAt, DistinctPaths, ParentsFirst;
    forall i, k | 0 <= i < |ps| && 0 <= k < |ps[i].path|
      ensures ReplayAt(root, ps[..i], ps[i].path[..k]) == OverlayAt(root, Elements(ps), ps[i].path[..k])
    {
      AncestorsOfDestination(root, ps, i, k);
    }
    forall i | 0 <= i < |ps|
      ensures ps[i] in Elements(ps)
    {
    }
    forall p | p in Elements(ps)
      ensures exists i :: 0 <= i < |ps| && ps[i] == p
    {
    }
    if !NothingInTheWay(root, Elements(ps)) {
      var p, k :| p in Elements(ps) && 0 <= k < |p.path| && OverlayAt(root, Elements(ps), p.path[..k]).Some?;
      var i :| 0 <= i < |ps| && ps[i] == p;
      assert !StepClear(root, ps, i);
    }
  }

  /**
   With distinct destinations and parents first, the build succeeds exactly when nothing of the
   overlay is in the way, and then the tree is that overlay.
   */
  lemma {:induction false} AssembleIsOverlay(root: Tree, ps: seq<Placement>)
    requires DistinctPaths(ps) && ParentsFirst(ps)
    ensures Assemble(root, ps).Ok? <==> NothingInTheWay(root, Elements(ps))
    ensures Assemble(root, ps).Ok? ==> IsOverlay(Assemble(root, ps).value, root, Elements(ps))
  {
    hide Assemble, OverlayAt, ReplayAt, NothingInTheWay, StepClear;
    ReplaySucceeds(root, ps);
    AllStepsClear(root, ps);
    if Assemble(root, ps).Ok? {
      forall q
        ensures Get(Assemble(root, ps).value, q) == OverlayAt(root, Elements(ps), q)
      {
        ReplayContents(root, ps, q);
        ReplayIsOverlayAt(root, ps, q);
      }
    }
  }

  lemma OverlayUnique(s: Tree, t: Tree, root: Tree, ps: set<Placement>)
    requires IsOverlay(s, root, ps) && IsOverlay(t, root, ps)
    ensures s == t
  {
    forall q
      ensures Get(s, q) == Get(t, q)
    {
      assert Get(s, q) == OverlayAt(root, ps, q);
    }
    assert forall q :: q in s <==> Get(s, q).Some?;
    assert forall q :: q in t <==> Get(t, q).Some?;
    forall q | q in s
      ensures s[q] == t[q]
    {
      assert Get(s, q) == Get(t, q);
    }
  }

  /** Every depth-nondecreasing order of the same placements builds the same tree. */
  lemma DepthOrderIrrelevant(root: Tree, ps: seq<Placement>, qs: seq<Placement>)
    requires DistinctPaths(ps) && DepthSorted(ps)
    requires DistinctPaths(qs) && DepthSorted(qs)
    requires Elements(ps) == Elements(qs)
    ensures Assemble(root, ps).Ok? <==> Assemble(root, qs).Ok?
    ensures Assemble(root, ps).Ok? ==> Assemble(root, ps) == Assemble(root, qs)
  {
    DepthSortedParentsFirst(ps);
    DepthSortedParentsFirst(qs);
    AssembleIsOverlay(root, ps);
    AssembleIsOverlay(root, qs);
    if Assemble(root, ps).Ok? {
      OverlayUnique(Assemble(root, ps).value, Assemble(root, qs).value, root, Elements(ps));
    }
  }

  // ----- Dropping submodules -----

  /** `ks` keeps some of `ps`, and keeps a placement only together with all placements above it. */
  ghost predicate DropsSubtrees(ps: set<Placement>, ks: set<Placement>) {
    && ks <= ps
    && forall p, d :: p in ks && d in ps && d.path <= p.path ==> d in ks
  }

  ghost predicate UnderDropped(ps: set<Placement>, ks: set<Placement>, q: FsPath) {
    exists d :: d in ps && d !in ks && d.path <= q
  }

  lemma SameOwners(ps: set<Placement>, ks: set<Placement>, q: FsPath)
    requires ks <= ps && !UnderDropped(ps, ks, q)
    ensures forall p :: IsOwner(ps, p, q) <==> IsOwner(ks, p, q)
  {
  }

  lemma DroppedOverlayAt(root: Tree, ps: seq<Placement>, ks: set<Placement>, q: FsPath)
    requires DistinctPaths(ps) && ks <= Elements(ps)
    requires !UnderDropped(Elements(ps), ks, q)
    ensures OverlayAt(root, Elements(ps), q) == OverlayAt(root, ks, q)
  {
    SameOwners(Elements(ps), ks, q);
    hide UnderDropped;
    if o :| IsOwner(ks, o, q) && OverlayAt(root, ks, q) == Get(o.source, q[|o.path|..]) {
      var p :| IsOwner(Elements(ps), p, q) && OverlayAt(root, Elements(ps), q) == Get(p.source, q[|p.path|..]);
      OwnersAgree(ps, p, o, q);
    }
  }

  /**
   Leaving out whole subtrees of submodules: if the full tree builds, so does the reduced one, and the
   two agree on every file that is not at or under a dropped submodule.
   */
  lemma {:induction false} ReducedTreeAgrees(root: Tree, ps: seq<Placement>, ks: seq<Placement>)
    requires DistinctPaths(ps) && ParentsFirst(ps) && Assemble(root, ps).Ok?
    requires DistinctPaths(ks) && ParentsFirst(ks)
    requires DropsSubtrees(Elements(ps), Elements(ks))
    ensures Assemble(root, ks).Ok?
    ensures forall q :: !UnderDropped(Elements(ps), Elements(ks), q) ==>
              Get(Assemble(root, ks).value, q) == Get(Assemble(root, ps).value, q)
  {
    AssembleIsOverlay(root, ps);
    AssembleIsOverlay(root, ks);
    forall p, k | p in Elements(ks) && 0 <= k < |p.path|
      ensures OverlayAt(root, Elements(ks), p.path[..k]).None?
    {
      assert forall d :: d in ps && d.path <= p.path[..k] ==> d.path <= p.path;
      DroppedOverlayAt(root, ps, Elements(ks), p.path[..k]);
    }
    forall q | !UnderDropped(Elements(ps), Elements(ks), q)
      ensures Get(Assemble(root, ks).value, q) == Get(Assemble(root, ps).value, q)
    {
      DroppedOverlayAt(root, ps, Elements(ks), q);
    }
  }
}
