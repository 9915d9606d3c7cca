/**
 * `rmdirRecursive` (create.js:22-34): depth-first removal of a directory
 * over an abstract file system of directories, regular files and symbolic
 * links, as `lstat` reports them.
 */
module RemoveTree {

  /** A path as its components below the file-system root. */
  type Path = seq<string>

  /** What `lstat` reports for an entry; a symbolic link is not followed. */
  datatype Kind = Directory | RegularFile | SymbolicLink

  /** One removal performed: `unlink` of a non-directory or `rmdir` of a directory. */
  datatype Removal = Unlinked(path: Path) | RemovedDir(path: Path)

  predicate IsPrefix(p: Path, q: Path)
  {
    |p| <= |q| && q[..|p|] == p
  }

  /** `p` is a directory above `q`. */
  predicate StrictAncestor(p: Path, q: Path)
  {
    |p| < |q| && q[..|p|] == p
  }

  /** The entries at `p` and below it. */
  function Under(entries: map<Path, Kind>, p: Path): set<Path>
  {
    set q | q in entries && IsPrefix(p, q)
  }

  /** The entries directly inside `p`: what `readdir(p)` lists. */
  function Children(entries: map<Path, Kind>, p: Path): set<Path>
  {
    set q | q in entries && |q| == |p| + 1 && q[..|p|] == p
  }

  /** The file system without the subtree at `p`. */
  function Prune(entries: map<Path, Kind>, p: Path): map<Path, Kind>
  {
    map q | q in entries && !IsPrefix(p, q) :: entries[q]
  }

  /** Tree shape: every entry lies below the root, inside a directory entry or the root itself. */
  predicate IsTree(entries: map<Path, Kind>)
  {
    forall q :: q in entries ==>
      |q| > 0 && (|q| > 1 ==> q[..|q| - 1] in entries && entries[q[..|q| - 1]] == Directory)
  }

  /** In a tree, every directory above an entry is present. */
  lemma {:induction false} AncestorPresent(entries: map<Path, Kind>, q: Path, k: nat)
    requires IsTree(entries) && q in entries && 0 < k < |q|
    ensures q[..k] in entries && entries[q[..k]] == Directory
    decreases |q| - k
  {
    var parent := q[..|q| - 1];
    if k < |q| - 1 {
      AncestorPresent(entries, parent, k);
      assert parent[..k] == q[..k];
    }
  }

  /** Removing an absent path changes nothing: nothing can lie below it. */
  lemma PruneAbsent(entries: map<Path, Kind>, p: Path)
    requires IsTree(entries) && |p| > 0 && p !in entries
    ensures Prune(entries, p) == entries
  {
    forall q | q in entries ensures !IsPrefix(p, q) {
      assert IsPrefix(p, q) && |p| == |q| ==> q == p;
      if IsPrefix(p, q) && |p| < |q| {
        AncestorPresent(entries, q, |p|);
      }
    }
  }

  /** Removing a subtree leaves a tree. */
  lemma PruneKeepsTree(entries: map<Path, Kind>, p: Path)
    requires IsTree(entries)
    ensures IsTree(Prune(entries, p))
  {
    var r := Prune(entries, p);
    forall q | q in r && |q| > 1
      ensures q[..|q| - 1] in r
    {
      var parent := q[..|q| - 1];
      assert |p| <= |parent| ==> q[..|p|] == parent[..|p|];
    }
  }

  /** Removing the same subtree twice is removing it once. */
  lemma PruneIdempotent(entries: map<Path, Kind>, p: Path)
    ensures Prune(Prune(entries, p), p) == Prune(entries, p)
  {
  }

  /** The paths a sequence of removals touched. */
  function PathsOf(t: seq<Removal>): set<Path>
  {
    set i | 0 <= i < |t| :: t[i].path
  }

  predicate DistinctPaths(t: seq<Removal>)
  {
    forall i, j :: 0 <= i < j < |t| ==> t[i].path != t[j].path
  }

  /** Directories are removed with `rmdir`, everything else with `unlink`. */
  predicate KindsMatch(t: seq<Removal>, entries: map<Path, Kind>)
  {
    forall i :: 0 <= i < |t| ==> t[i].path in entries && (t[i].RemovedDir? <==> entries[t[i].path] == Directory)
  }

  /** Everything below a directory is removed before the directory. */
  predicate ChildrenFirst(t: seq<Removal>)
  {
    forall i, j :: 0 <= i < |t| && 0 <= j < |t| && StrictAncestor(t[j].path, t[i].path) ==> i < j
  }

  /** What the removal of the directory `p` from `entries` consists of. */
  predicate RemovesSubtree(t: seq<Removal>, entries: map<Path, Kind>, p: Path)
  {
    && PathsOf(t) == Under(entries, p)
    && DistinctPaths(t)
    && KindsMatch(t, entries)
    && ChildrenFirst(t)
  }

  /**
   * Removals of present entries that follow removals of absent ones keep
   * children first: in a tree, the directories above a present entry are
   * present, so none of them was removed before.
   */
  lemma ConcatChildrenFirst(a: seq<Removal>, b: seq<Removal>, entries: map<Path, Kind>)
    requires IsTree(entries)
    requires ChildrenFirst(a) && ChildrenFirst(b)
    requires forall i :: 0 <= i < |a| ==> |a[i].path| > 0 && a[i].path !in entries
    requires forall i :: 0 <= i < |b| ==> b[i].path in entries
    ensures ChildrenFirst(a + b)
  {
    var t := a + b;
    forall i, j | 0 <= i < |t| && 0 <= j < |t| && StrictAncestor(t[j].path, t[i].path)
      ensures i < j
    {
      if j < |a| && i >= |a| {
        assert t[i] == b[i - |a|] && t[j] == a[j];
        AncestorPresent(entries, t[i].path, |t[j].path|);
      } else if i >= |a| {
        assert t[i] == b[i - |a|] && t[j] == b[j - |a|];
      }
    }
  }

  /** Below a child of `folder`, there is less than below `folder`. */
  lemma SubtreeShrinks(e0: map<Path, Kind>, entries: map<Path, Kind>, folder: Path, child: Path)
    requires forall q :: q in entries ==> q in e0
    requires folder in e0 && |child| == |folder| + 1 && child[..|folder|] == folder
    ensures Under(entries, child) < Under(e0, folder)
  {
    forall q | q in Under(entries, child) ensures q in Under(e0, folder) {
      assert q[..|folder|] == child[..|folder|];
    }
    assert folder in Under(e0, folder) && folder !in Under(entries, child);
  }

  /** Nothing lies below an entry that is not a directory. */
  lemma LeafOnly(entries: map<Path, Kind>, p: Path)
    requires IsTree(entries) && p in entries && entries[p] != Directory
    ensures forall q :: q in entries ==> !StrictAncestor(p, q)
  {
    forall q | q in entries && StrictAncestor(p, q) ensures false {
      AncestorPresent(entries, q, |p|);
    }
  }

  /** The directory tree the tool removes from: a map from paths to entry kinds. */
  class FileSystem {
    var entries: map<Path, Kind>

    ghost predicate Valid()
      reads this
    {
      IsTree(entries)
    }

    /**
     * `rmdirRecursive(folder)`: nothing happens when `folder` does not
     * exist; a regular file makes `readdir` fail; a directory is removed
     * with everything below it, children first. Returns false on failure.
     */
    method RmdirRecursive(folder: Path) returns (ok: bool, removed: seq<Removal>)
      requires Valid() && |folder| > 0
      requires folder in entries ==> entries[folder] != SymbolicLink
      modifies this
      ensures Valid()
      ensures folder !in old(entries) ==> ok && entries == old(entries) && removed == []
      ensures folder in old(entries) && old(entries)[folder] == RegularFile ==>
        !ok && entries == old(entries) && removed == []
      ensures folder in old(entries) && old(entries)[folder] == Directory ==>
        ok && entries == Prune(old(entries), folder) && RemovesSubtree(removed, old(entries), folder)
    {
      if folder !in entries {
        return true, [];
      }
      if entries[folder] == RegularFile {
        return false, [];
      }
      removed := RemoveDir(folder);
      ok := true;
    }

    /** The recursion of `rmdirRecursive` on an existing directory. */
    method RemoveDir(folder: Path) returns (removed: seq<Removal>)
      requires Valid() && folder in entries && entries[folder] == Directory
      modifies this
      ensures Valid()
      ensures entries == Prune(old(entries), folder)
      ensures RemovesSubtree(removed, old(entries), folder)
      decreases Under(entries, folder)
    {
      ghost var e0 := entries;
      var pending := Children(entries, folder);
      removed := [];
      ProgressStart(e0, folder);
      while pending != {}
        invariant Progress(e0, entries, folder, pending, removed)
        decreases pending
      {
        var child :| child in pending;
        assert child[..|folder| + 1] == child;
        ghost var before := entries;
        if entries[child] == Directory {
          SubtreeShrinks(e0, entries, folder, child);
          var sub := RemoveDir(child);
          ProgressDirectory(e0, before, entries, folder, pending, child, removed, sub);
          removed := removed + sub;
        } else {
          entries := entries - {child};
          ProgressLeaf(e0, before, folder, pending, child, removed);
          removed := removed + [Unlinked(child)];
        }
        pending := pending - {child};
      }
      ProgressFinish(e0, entries, folder, removed);
      entries := entries - {folder};
      removed := removed + [RemovedDir(folder)];
    }
  }

  /**
   * The state of the loop over `readdir(folder)`: the children still
   * pending are intact, the subtrees of the others are gone, and `removed`
   * lists exactly what is gone.
   */
  ghost predicate Progress(e0: map<Path, Kind>, entries: map<Path, Kind>, folder: Path,
                           pending: set<Path>, removed: seq<Removal>)
  {
    && IsTree(entries)
    && pending <= Children(e0, folder)
    && folder in entries && entries[folder] == Directory
    && (forall q :: q in entries ==> q in e0 && entries[q] == e0[q])
    && (forall q :: q in e0 && !StrictAncestor(folder, q) ==> q in entries)
    && (forall q :: q in e0 && StrictAncestor(folder, q) ==>
          (q in entries <==> q[..|folder| + 1] in pending))
    && (forall i :: 0 <= i < |removed| ==>
          StrictAncestor(folder, removed[i].path) && removed[i].path !in entries)
    && PathsOf(removed) == Gone(e0, entries, folder)
    && DistinctPaths(removed)
    && KindsMatch(removed, e0)
    && ChildrenFirst(removed)
  }

  /** The entries strictly below `folder` that are no longer present. */
  ghost function Gone(e0: map<Path, Kind>, entries: map<Path, Kind>, folder: Path): set<Path>
  {
    set q | q in e0 && StrictAncestor(folder, q) && q !in entries
  }

  lemma PathsOfConcat(a: seq<Removal>, b: seq<Removal>)
    ensures PathsOf(a + b) == PathsOf(a) + PathsOf(b)
  {
    var t := a + b;
    forall q | q in PathsOf(t) ensures q in PathsOf(a) + PathsOf(b) {
      var i :| 0 <= i < |t| && t[i].path == q;
      if i >= |a| {
        assert b[i - |a|].path == q;
      }
    }
    forall q | q in PathsOf(a) + PathsOf(b) ensures q in PathsOf(t) {
      if q in PathsOf(a) {
        var i :| 0 <= i < |a| && a[i].path == q;
        assert t[i].path == q;
      } else {
        var i :| 0 <= i < |b| && b[i].path == q;
        assert t[i + |a|].path == q;
      }
    }
  }

  lemma PathsOfSingle(r: Removal)
    ensures PathsOf([r]) == {r.path}
  {
    assert [r][0].path == r.path;
    forall q | q in PathsOf([r]) ensures q == r.path {
      var i :| 0 <= i < 1 && [r][i].path == q;
    }
  }

  lemma ProgressStart(e0: map<Path, Kind>, folder: Path)
    requires IsTree(e0) && folder in e0 && e0[folder] == Directory
    ensures Progress(e0, e0, folder, Children(e0, folder), [])
  {
    forall q | q in e0 && StrictAncestor(folder, q)
      ensures q[..|folder| + 1] in Children(e0, folder)
    {
      if |q| > |folder| + 1 {
        AncestorPresent(e0, q, |folder| + 1);
      } else {
        assert q[..|folder| + 1] == q;
      }
      assert q[..|folder| + 1][..|folder|] == folder;
    }
    assert Gone(e0, e0, folder) == {};
  }

  /** One pending child that is a directory has been removed with its subtree. */
  lemma ProgressDirectory(e0: map<Path, Kind>, before: map<Path, Kind>, after: map<Path, Kind>,
                          folder: Path, pending: set<Path>, child: Path,
                          removed: seq<Removal>, sub: seq<Removal>)
    requires Progress(e0, before, folder, pending, removed)
    requires child in pending && child in before && before[child] == Directory
    requires IsTree(after) && after == Prune(before, child)
    requires RemovesSubtree(sub, before, child)
    ensures Progress(e0, after, folder, pending - {child}, removed + sub)
  {
    var t := removed + sub;
    assert |child| == |folder| + 1 && child[..|folder|] == folder;
    forall q | q in Under(before, child)
      ensures StrictAncestor(folder, q) && q !in after
    {
      assert q[..|folder|] == child[..|folder|];
    }
    forall i | 0 <= i < |t|
      ensures StrictAncestor(folder, t[i].path) && t[i].path !in after
    {
      if i >= |removed| {
        assert t[i] == sub[i - |removed|];
        assert t[i].path in PathsOf(sub);
      }
    }
    PathsOfConcat(removed, sub);
    assert PathsOf(t) == Gone(e0, after, folder) by {
      forall q | q in Gone(e0, after, folder) ensures q in PathsOf(t) {
        if q in before {
          assert q[..|folder| + 1] == child;
          assert q in Under(before, child);
        }
      }
    }
    forall i, j | 0 <= i < j < |t| ensures t[i].path != t[j].path {
      if i < |removed| && j >= |removed| {
        assert t[j] == sub[j - |removed|];
        assert t[j].path in PathsOf(sub);
      } else if i >= |removed| {
        assert t[i] == sub[i - |removed|] && t[j] == sub[j - |removed|];
      }
    }
    forall i | 0 <= i < |t|
      ensures t[i].path in e0 && (t[i].RemovedDir? <==> e0[t[i].path] == Directory)
    {
      if i >= |removed| {
        assert t[i] == sub[i - |removed|];
      }
    }
    forall i | 0 <= i < |removed| ensures |removed[i].path| > 0 && removed[i].path !in before {
    }
    forall i | 0 <= i < |sub| ensures sub[i].path in before {
      assert sub[i].path in PathsOf(sub);
    }
    ConcatChildrenFirst(removed, sub, before);
  }

  /** One pending child that is not a directory has been unlinked. */
  lemma ProgressLeaf(e0: map<Path, Kind>, before: map<Path, Kind>, folder: Path,
                     pending: set<Path>, child: Path, removed: seq<Removal>)
    requires Progress(e0, before, folder, pending, removed)
    requires child in pending && child in before && before[child] != Directory
    ensures Progress(e0, before - {child}, folder, pending - {child}, removed + [Unlinked(child)])
  {
    var after := before - {child};
    LeafOnly(before, child);
    assert |child| == |folder| + 1 && child[..|folder|] == folder;
    forall q | q in e0 && StrictAncestor(folder, q)
      ensures q in after <==> q[..|folder| + 1] in pending - {child}
    {
      assert q[..|folder| + 1] == child && q != child ==> StrictAncestor(child, q);
    }
    assert IsTree(after) by {
      forall q | q in after && |q| > 1 ensures q[..|q| - 1] != child {
        assert q[..|q| - 1] == child ==> StrictAncestor(child, q);
      }
    }
    LeafTrace(e0, before, folder, pending, child, removed);
  }

  /** The removals after unlinking one pending child that is not a directory. */
  lemma LeafTrace(e0: map<Path, Kind>, before: map<Path, Kind>, folder: Path,
                  pending: set<Path>, child: Path, removed: seq<Removal>)
    requires Progress(e0, before, folder, pending, removed)
    requires child in pending && child in before && before[child] != Directory
    ensures var after := before - {child};
      var t := removed + [Unlinked(child)];
      && (forall i :: 0 <= i < |t| ==> StrictAncestor(folder, t[i].path) && t[i].path !in after)
      && PathsOf(t) == Gone(e0, after, folder)
      && DistinctPaths(t) && KindsMatch(t, e0) && ChildrenFirst(t)
  {
    var after := before - {child};
    var t := removed + [Unlinked(child)];
    LeafOnly(before, child);
    assert |child| == |folder| + 1 && child[..|folder|] == folder;
    PathsOfConcat(removed, [Unlinked(child)]);
    PathsOfSingle(Unlinked(child));
    assert PathsOf(t) == Gone(e0, after, folder);
    ConcatChildrenFirst(removed, [Unlinked(child)], before);
  }

  /** With no child pending, only the directory itself is left to remove. */
  lemma ProgressFinish(e0: map<Path, Kind>, entries: map<Path, Kind>, folder: Path,
                       removed: seq<Removal>)
    requires Progress(e0, entries, folder, {}, removed)
    ensures IsTree(entries - {folder})
    ensures entries - {folder} == Prune(e0, folder)
    ensures RemovesSubtree(removed + [RemovedDir(folder)], e0, folder)
  {
    FinishEntries(e0, entries, folder, removed);
    FinishRemovals(e0, entries, folder, removed);
  }

  /** The entries left once the directory itself is removed. */
  lemma FinishEntries(e0: map<Path, Kind>, entries: map<Path, Kind>, folder: Path,
                      removed: seq<Removal>)
    requires Progress(e0, entries, folder, {}, removed)
    ensures IsTree(entries - {folder})
    ensures entries - {folder} == Prune(e0, folder)
  {
    var after := entries - {folder};
    assert IsTree(after) by {
      forall q | q in after && |q| > 1 ensures q[..|q| - 1] != folder {
        assert q[..|q| - 1] == folder ==> StrictAncestor(folder, q);
      }
    }
    forall q | q in e0 ensures (q in after <==> !IsPrefix(folder, q)) {
      assert IsPrefix(folder, q) && |q| == |folder| ==> q == folder;
    }
  }

  /** The removals, closed by removing the directory itself. */
  lemma FinishRemovals(e0: map<Path, Kind>, entries: map<Path, Kind>, folder: Path,
                       removed: seq<Removal>)
    requires Progress(e0, entries, folder, {}, removed)
    ensures RemovesSubtree(removed + [RemovedDir(folder)], e0, folder)
  {
    var t := removed + [RemovedDir(folder)];
    PathsOfConcat(removed, [RemovedDir(folder)]);
    PathsOfSingle(RemovedDir(folder));
    assert PathsOf(t) == Under(e0, folder) by {
      forall q | q in Under(e0, folder) ensures q in PathsOf(t) {
        assert IsPrefix(folder, q) && |q| == |folder| ==> q == folder;
      }
    }
    forall i | 0 <= i < |removed| ensures |removed[i].path| > 0 && removed[i].path !in entries {
    }
    ConcatChildrenFirst(removed, [RemovedDir(folder)], entries);
  }
}
