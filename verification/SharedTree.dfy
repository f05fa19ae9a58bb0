/**
 The tree of shared files: `SharedFile` (src/shared_file.rs), the search in it (src/utils.rs) and
 its construction from the disk (src/config.rs).
 */
module SharedTree {
  import opened Common

  datatype SharedFile = SharedFile(path: string, isDirectory: bool, files: seq<SharedFile>, fileSize: nat)

  // ---------------------------------------------------------------- search

  function GetFileByPath(choice: string, f: SharedFile): Option<SharedFile> {
    if f.path == choice then Some(f) else FindIn(choice, f.files)
  }

  /** The loop over the children, with its early return. */
  function FindIn(choice: string, files: seq<SharedFile>): Option<SharedFile> {
    if files == [] then None
    else
      var found := GetFileByPath(choice, files[0]);
      if found.Some? then found else FindIn(choice, files[1..])
  }

  /** All nodes of a tree, parents before children and siblings in order. */
  function Preorder(f: SharedFile): seq<SharedFile> {
    [f] + Forest(f.files)
  }

  function Forest(files: seq<SharedFile>): seq<SharedFile> {
    if files == [] then [] else Preorder(files[0]) + Forest(files[1..])
  }

  function FirstWith(nodes: seq<SharedFile>, path: string): Option<SharedFile> {
    if nodes == [] then None
    else if nodes[0].path == path then Some(nodes[0])
    else FirstWith(nodes[1..], path)
  }

  lemma {:induction false} FirstWithAppend(a: seq<SharedFile>, b: seq<SharedFile>, path: string)
    ensures FirstWith(a + b, path) == if FirstWith(a, path).Some? then FirstWith(a, path) else FirstWith(b, path)
  {
    if a == [] {
      assert a + b == b;
    } else {
      assert (a + b)[1..] == a[1..] + b;
      FirstWithAppend(a[1..], b, path);
    }
  }

  /** The search finds the first node with this path in preorder, and misses none. */
  lemma {:induction false} SearchIsFirstInPreorder(choice: string, f: SharedFile)
    ensures GetFileByPath(choice, f) == FirstWith(Preorder(f), choice)
  {
    ForestSearch(choice, f.files);
    FirstWithAppend([f], Forest(f.files), choice);
  }

  lemma {:induction false} ForestSearch(choice: string, files: seq<SharedFile>)
    ensures FindIn(choice, files) == FirstWith(Forest(files), choice)
  {
    if files == [] {
    } else {
      SearchIsFirstInPreorder(choice, files[0]);
      ForestSearch(choice, files[1..]);
      FirstWithAppend(Preorder(files[0]), Forest(files[1..]), choice);
    }
  }

  lemma {:induction false} FirstWithIs(nodes: seq<SharedFile>, path: string)
    ensures FirstWith(nodes, path).Some? ==>
      FirstWith(nodes, path).value in nodes && FirstWith(nodes, path).value.path == path
    ensures FirstWith(nodes, path).None? ==> forall i :: 0 <= i < |nodes| ==> nodes[i].path != path
  {
    if nodes != [] && nodes[0].path != path {
      FirstWithIs(nodes[1..], path);
    }
  }

  /** What is found is a node of the tree with the path that was asked for. */
  lemma FoundIsNode(choice: string, f: SharedFile)
    requires GetFileByPath(choice, f).Some?
    ensures GetFileByPath(choice, f).value in Preorder(f)
    ensures GetFileByPath(choice, f).value.path == choice
  {
    SearchIsFirstInPreorder(choice, f);
    FirstWithIs(Preorder(f), choice);
  }

  // ---------------------------------------------------------------- distinct paths

  ghost predicate DistinctPaths(nodes: seq<SharedFile>) {
    forall i, j :: 0 <= i < j < |nodes| ==> nodes[i].path != nodes[j].path
  }

  ghost predicate SegmentAt(part: seq<SharedFile>, all: seq<SharedFile>, i: int) {
    0 <= i && i + |part| <= |all| && all[i..i + |part|] == part
  }

  /** The nodes of a subtree are a stretch of the nodes of the tree. */
  lemma {:induction false} SubtreeIsSegment(f: SharedFile, g: SharedFile) returns (i: int)
    requires g in Preorder(f)
    ensures SegmentAt(Preorder(g), Preorder(f), i)
  {
    if g == f {
      i := 0;
    } else {
      assert g in Forest(f.files);
      i := ForestSegment(f.files, g);
      assert Preorder(f)[i + 1..i + 1 + |Preorder(g)|] == Forest(f.files)[i..i + |Preorder(g)|];
      i := i + 1;
    }
  }

  lemma {:induction false} ForestSegment(files: seq<SharedFile>, g: SharedFile) returns (i: int)
    requires g in Forest(files)
    ensures SegmentAt(Preorder(g), Forest(files), i)
  {
    hide Preorder, SegmentAt;
    var first, rest := Preorder(files[0]), Forest(files[1..]);
    if g in first {
      i := SubtreeIsSegment(files[0], g);
      SegmentOfSum(Preorder(g), first, rest, i);
    } else {
      i := ForestSegment(files[1..], g);
      SegmentOfRest(Preorder(g), first, rest, i);
      i := |first| + i;
    }
  }

  lemma SegmentOfSum(part: seq<SharedFile>, a: seq<SharedFile>, b: seq<SharedFile>, i: int)
    requires SegmentAt(part, a, i)
    ensures SegmentAt(part, a + b, i)
  {
    assert (a + b)[i..i + |part|] == a[i..i + |part|];
  }

  lemma SegmentOfRest(part: seq<SharedFile>, a: seq<SharedFile>, b: seq<SharedFile>, i: int)
    requires SegmentAt(part, b, i)
    ensures SegmentAt(part, a + b, |a| + i)
  {
    assert (a + b)[|a| + i..|a| + i + |part|] == b[i..i + |part|];
  }

  /** In a tree with distinct paths, no proper descendant of a node has the node's path. */
  lemma DescendantsDiffer(f: SharedFile, g: SharedFile)
    requires DistinctPaths(Preorder(f)) && g in Preorder(f)
    ensures forall h :: h in Forest(g.files) ==> h.path != g.path
  {
    var i := SubtreeIsSegment(f, g);
    forall h | h in Forest(g.files)
      ensures h.path != g.path
    {
      var k :| 0 <= k < |Forest(g.files)| && Forest(g.files)[k] == h;
      assert Preorder(g)[0] == g == Preorder(f)[i];
      assert Preorder(g)[k + 1] == h == Preorder(f)[i + k + 1];
    }
  }

  // ---------------------------------------------------------------- files with the path of a directory above them

  ghost predicate FileAt(nodes: seq<SharedFile>, path: string) {
    exists i :: 0 <= i < |nodes| && !nodes[i].isDirectory && nodes[i].path == path
  }

  /** Nowhere in the tree does a directory contain, at any depth, a file with the directory's own path. */
  ghost predicate NoOwnFiles(f: SharedFile) {
    && (f.isDirectory ==> !FileAt(Forest(f.files), f.path))
    && forall i :: 0 <= i < |f.files| ==> NoOwnFiles(f.files[i])
  }

  lemma FileAtSplit(a: seq<SharedFile>, b: seq<SharedFile>, path: string)
    ensures FileAt(a + b, path) <==> FileAt(a, path) || FileAt(b, path)
  {
    var all := a + b;
    if FileAt(all, path) {
      var i :| 0 <= i < |all| && !all[i].isDirectory && all[i].path == path;
      assert if i < |a| then all[i] == a[i] else all[i] == b[i - |a|];
    }
    if FileAt(a, path) {
      var i :| 0 <= i < |a| && !a[i].isDirectory && a[i].path == path;
      assert all[i] == a[i];
    }
    if FileAt(b, path) {
      var i :| 0 <= i < |b| && !b[i].isDirectory && b[i].path == path;
      assert all[|a| + i] == b[i];
    }
  }

  lemma {:induction false} NoOwnEverywhere(f: SharedFile, g: SharedFile)
    requires NoOwnFiles(f) && g in Preorder(f) && g.isDirectory
    ensures !FileAt(Forest(g.files), g.path)
  {
    if g != f {
      NoOwnInForest(f.files, g);
    }
  }

  lemma {:induction false} NoOwnInForest(files: seq<SharedFile>, g: SharedFile)
    requires (forall i :: 0 <= i < |files| ==> NoOwnFiles(files[i])) && g in Forest(files) && g.isDirectory
    ensures !FileAt(Forest(g.files), g.path)
  {
    if g in Preorder(files[0]) {
      NoOwnEverywhere(files[0], g);
    } else {
      NoOwnInForest(files[1..], g);
    }
  }

  /** Distinct paths are more than enough; a listing with nested shares has some paths twice. */
  lemma {:induction false} DistinctIsEnough(t: SharedFile, f: SharedFile)
    requires DistinctPaths(Preorder(t)) && f in Preorder(t)
    ensures NoOwnFiles(f)
  {
    hide Preorder, Forest, DistinctPaths;
    DescendantsDiffer(t, f);
    forall i | 0 <= i < |f.files|
      ensures NoOwnFiles(f.files[i])
    {
      ChildIsNode(t, f, i);
      DistinctIsEnough(t, f.files[i]);
    }
  }

  lemma {:induction false} ChildIsNode(t: SharedFile, f: SharedFile, i: nat)
    requires f in Preorder(t) && i < |f.files|
    ensures f.files[i] in Preorder(t)
  {
    ForestOf(f.files, i);
    assert Preorder(f.files[i])[0] == f.files[i];
    assert f.files[i] in Forest(f.files);
    var k := SubtreeIsSegment(t, f);
    var j :| 0 <= j < |Forest(f.files)| && Forest(f.files)[j] == f.files[i];
    assert Preorder(f)[j + 1] == f.files[i];
    assert Preorder(t)[k..k + |Preorder(f)|][j + 1] == f.files[i];
  }

  lemma {:induction false} ForestSnoc(files: seq<SharedFile>, f: SharedFile)
    ensures Forest(files + [f]) == Forest(files) + Preorder(f)
  {
    hide Preorder;
    if files == [] {
      assert files + [f] == [f];
      assert [f][1..] == [];
    } else {
      assert (files + [f])[1..] == files[1..] + [f];
      ForestSnoc(files[1..], f);
    }
  }

  lemma {:induction false} ForestOf(files: seq<SharedFile>, k: nat)
    requires k < |files|
    ensures forall h :: h in Preorder(files[k]) ==> h in Forest(files)
  {
    if k > 0 {
      ForestOf(files[1..], k - 1);
      assert files[1..][k - 1] == files[k];
    }
  }

  // ---------------------------------------------------------------- sizes

  /** The sizes of all files below, which is what a directory's size means. */
  function LeafSum(f: SharedFile): nat {
    if f.isDirectory then LeafSums(f.files) else f.fileSize
  }

  function LeafSums(files: seq<SharedFile>): nat {
    if files == [] then 0 else LeafSum(files[0]) + LeafSums(files[1..])
  }

  lemma {:induction false} LeafSumsAppend(a: seq<SharedFile>, f: SharedFile)
    ensures LeafSums(a + [f]) == LeafSums(a) + LeafSum(f)
  {
    if a == [] {
      assert a + [f] == [f];
    } else {
      assert (a + [f])[1..] == a[1..] + [f];
      LeafSumsAppend(a[1..], f);
    }
  }

  // ---------------------------------------------------------------- removing invalid files

  function Kept(ok: string -> bool, files: seq<SharedFile>): seq<SharedFile> {
    if files == [] then []
    else (if ok(files[0].path) then [files[0]] else []) + Kept(ok, files[1..])
  }

  /** `remove_invalid_files`: filter the children of a directory, then clean those that are left. */
  function Cleaned(ok: string -> bool, f: SharedFile): SharedFile
    decreases f, 1
  {
    if f.isDirectory then f.(files := CleanedAll(ok, f.files)) else f
  }

  function CleanedAll(ok: string -> bool, files: seq<SharedFile>): seq<SharedFile>
    decreases files, 0
  {
    if files == [] then []
    else (if ok(files[0].path) then [Cleaned(ok, files[0])] else []) + CleanedAll(ok, files[1..])
  }

  lemma {:induction false} CleanedAllAppend(ok: string -> bool, a: seq<SharedFile>, f: SharedFile)
    ensures CleanedAll(ok, a + [f]) == CleanedAll(ok, a) + if ok(f.path) then [Cleaned(ok, f)] else []
  {
    if a == [] {
      assert a + [f] == [f];
    } else {
      assert (a + [f])[1..] == a[1..] + [f];
      CleanedAllAppend(ok, a[1..], f);
    }
  }

  lemma {:induction false} KeptAppend(ok: string -> bool, a: seq<SharedFile>, f: SharedFile)
    ensures Kept(ok, a + [f]) == Kept(ok, a) + if ok(f.path) then [f] else []
  {
    if a == [] {
      assert a + [f] == [f];
    } else {
      assert (a + [f])[1..] == a[1..] + [f];
      KeptAppend(ok, a[1..], f);
    }
  }

  lemma {:induction false} CleanedKept(ok: string -> bool, files: seq<SharedFile>)
    ensures CleanedAll(ok, Kept(ok, files)) == CleanedAll(ok, files)
    ensures forall i :: 0 <= i < |Kept(ok, files)| ==> ok(Kept(ok, files)[i].path) && Kept(ok, files)[i] in files
  {
    if files == [] {
    } else {
      CleanedKept(ok, files[1..]);
      if ok(files[0].path) {
        assert Kept(ok, files)[1..] == Kept(ok, files[1..]);
      } else {
        assert Kept(ok, files) == Kept(ok, files[1..]);
      }
    }
  }

  /** `retain`. */
  method Retain(ok: string -> bool, files: seq<SharedFile>) returns (kept: seq<SharedFile>)
    ensures kept == Kept(ok, files)
  {
    kept := [];
    var i := 0;
    while i < |files|
      invariant 0 <= i <= |files|
      invariant kept == Kept(ok, files[..i])
    {
      assert files[..i + 1] == files[..i] + [files[i]];
      KeptAppend(ok, files[..i], files[i]);
      if ok(files[i].path) {
        kept := kept + [files[i]];
      }
      i := i + 1;
    }
    assert files[..i] == files;
  }

  /** The children that are valid are retained, and then cleaned one by one. */
  method RemoveInvalidFiles(ok: string -> bool, f: SharedFile) returns (r: SharedFile)
    ensures r == Cleaned(ok, f)
    decreases f
  {
    hide Kept, CleanedAll;
    if !f.isDirectory {
      return f;
    }
    var kept := Retain(ok, f.files);
    CleanedKept(ok, f.files);
    var cleaned := [];
    var i := 0;
    CleanedNone(ok);
    while i < |kept|
      invariant 0 <= i <= |kept|
      invariant cleaned == CleanedAll(ok, kept[..i])
    {
      assert kept[i] in f.files;
      var c := RemoveInvalidFiles(ok, kept[i]);
      assert kept[..i + 1] == kept[..i] + [kept[i]];
      CleanedAllAppend(ok, kept[..i], kept[i]);
      cleaned := cleaned + [c];
      i := i + 1;
    }
    assert kept[..i] == kept;
    return f.(files := cleaned);
  }

  lemma CleanedNone(ok: string -> bool)
    ensures CleanedAll(ok, []) == []
  {
  }

  /** Files have no children. */
  predicate WellFormed(f: SharedFile) {
    (!f.isDirectory ==> f.files == []) && forall i :: 0 <= i < |f.files| ==> WellFormed(f.files[i])
  }

  predicate WellFormedAll(files: seq<SharedFile>) {
    forall i :: 0 <= i < |files| ==> WellFormed(files[i])
  }

  /** After cleaning, every proper descendant of a well-formed tree has a valid path. */
  lemma {:induction false} CleanedIsValid(ok: string -> bool, f: SharedFile)
    requires WellFormed(f)
    ensures WellFormed(Cleaned(ok, f))
    ensures forall g :: g in Forest(Cleaned(ok, f).files) ==> ok(g.path)
    decreases f, 1
  {
    if f.isDirectory {
      CleanedForestIsValid(ok, f.files);
    }
  }

  lemma {:induction false} CleanedForestIsValid(ok: string -> bool, files: seq<SharedFile>)
    requires WellFormedAll(files)
    ensures WellFormedAll(CleanedAll(ok, files))
    ensures forall g :: g in Forest(CleanedAll(ok, files)) ==> ok(g.path)
    decreases files, 0
  {
    if files == [] {
    } else {
      CleanedForestIsValid(ok, files[1..]);
      var rest := CleanedAll(ok, files[1..]);
      if ok(files[0].path) {
        CleanedIsValid(ok, files[0]);
        assert CleanedAll(ok, files)[1..] == rest;
      } else {
        assert CleanedAll(ok, files) == rest;
      }
    }
  }

  /** A second pass changes nothing. */
  lemma {:induction false} CleaningIsIdempotent(ok: string -> bool, f: SharedFile)
    ensures Cleaned(ok, Cleaned(ok, f)) == Cleaned(ok, f)
    decreases f, 1
  {
    if f.isDirectory {
      CleaningAllIsIdempotent(ok, f.files);
    }
  }

  lemma {:induction false} CleaningAllIsIdempotent(ok: string -> bool, files: seq<SharedFile>)
    ensures CleanedAll(ok, CleanedAll(ok, files)) == CleanedAll(ok, files)
    decreases files, 0
  {
    if files == [] {
    } else {
      CleaningAllIsIdempotent(ok, files[1..]);
      if ok(files[0].path) {
        CleaningIsIdempotent(ok, files[0]);
        assert CleanedAll(ok, files)[1..] == CleanedAll(ok, files[1..]);
      } else {
        assert CleanedAll(ok, files) == CleanedAll(ok, files[1..]);
      }
    }
  }

  /** A node is kept exactly when its own path and those of its ancestors below the root are valid. */
  function KeptNodes(ok: string -> bool, f: SharedFile): seq<string>
    decreases f, 1
  {
    [f.path] + if f.isDirectory then KeptForest(ok, f.files) else PathsOf(Forest(f.files))
  }

  function KeptForest(ok: string -> bool, files: seq<SharedFile>): seq<string>
    decreases files, 0
  {
    if files == [] then []
    else (if ok(files[0].path) then KeptNodes(ok, files[0]) else []) + KeptForest(ok, files[1..])
  }

  function PathsOf(nodes: seq<SharedFile>): seq<string> {
    seq(|nodes|, i requires 0 <= i < |nodes| => nodes[i].path)
  }

  lemma PathsOfAppend(a: seq<SharedFile>, b: seq<SharedFile>)
    ensures PathsOf(a + b) == PathsOf(a) + PathsOf(b)
  {
  }

  /** The nodes that are left, in their old order. */
  lemma {:induction false} CleanedNodes(ok: string -> bool, f: SharedFile)
    ensures PathsOf(Preorder(Cleaned(ok, f))) == KeptNodes(ok, f)
    decreases f, 1
  {
    var c := Cleaned(ok, f);
    PathsOfAppend([c], Forest(c.files));
    if f.isDirectory {
      CleanedForestNodes(ok, f.files);
    }
  }

  lemma {:induction false} CleanedForestNodes(ok: string -> bool, files: seq<SharedFile>)
    ensures PathsOf(Forest(CleanedAll(ok, files))) == KeptForest(ok, files)
    decreases files, 0
  {
    if files == [] {
    } else {
      CleanedForestNodes(ok, files[1..]);
      if ok(files[0].path) {
        CleanedNodes(ok, files[0]);
        var all := CleanedAll(ok, files);
        assert all[1..] == CleanedAll(ok, files[1..]);
        PathsOfAppend(Preorder(all[0]), Forest(all[1..]));
      } else {
        assert CleanedAll(ok, files) == CleanedAll(ok, files[1..]);
      }
    }
  }

  lemma {:induction false} KeptWasThere(ok: string -> bool, f: SharedFile, path: string)
    ensures path in KeptNodes(ok, f) ==> path in PathsOf(Preorder(f))
    decreases f, 1
  {
    PathsOfAppend([f], Forest(f.files));
    assert PathsOf([f])[0] == f.path;
    KeptForestWasThere(ok, f.files, path);
  }

  lemma {:induction false} KeptForestWasThere(ok: string -> bool, files: seq<SharedFile>, path: string)
    ensures path in KeptForest(ok, files) ==> path in PathsOf(Forest(files))
    decreases files, 0
  {
    if files != [] {
      PathsOfAppend(Preorder(files[0]), Forest(files[1..]));
      KeptWasThere(ok, files[0], path);
      KeptForestWasThere(ok, files[1..], path);
    }
  }

  /** What is not listed is not found after cleaning either. */
  lemma MissingStaysMissing(ok: string -> bool, f: SharedFile, path: string)
    requires forall g :: g in Preorder(f) ==> g.path != path
    ensures GetFileByPath(path, Cleaned(ok, f)).None?
  {
    hide Preorder, KeptNodes, Cleaned;
    var c := Cleaned(ok, f);
    CleanedNodes(ok, f);
    KeptWasThere(ok, f, path);
    if GetFileByPath(path, c).Some? {
      FoundIsNode(path, c);
      var g := GetFileByPath(path, c).value;
      var i :| 0 <= i < |Preorder(c)| && Preorder(c)[i] == g;
      assert PathsOf(Preorder(c))[i] == path;
      NodeOfPath(Preorder(f), path);
      assert false;
    }
  }

  lemma NodeOfPath(nodes: seq<SharedFile>, path: string)
    requires path in PathsOf(nodes)
    ensures exists g :: g in nodes && g.path == path
  {
    var i :| 0 <= i < |PathsOf(nodes)| && PathsOf(nodes)[i] == path;
    assert nodes[i] in nodes;
  }

  /** What is left of the files below was there before. */
  lemma {:induction false} CleanedFileAt(ok: string -> bool, f: SharedFile, path: string)
    requires FileAt(Preorder(Cleaned(ok, f)), path)
    ensures FileAt(Preorder(f), path)
    decreases f, 1
  {
    hide FileAt;
    var c := Cleaned(ok, f);
    FileAtSplit([f], Forest(f.files), path);
    FileAtSplit([c], Forest(c.files), path);
    FileAtOne(f, c, path);
    if f.isDirectory && FileAt(Forest(c.files), path) {
      CleanedForestFileAt(ok, f.files, path);
    }
  }

  lemma FileAtOne(f: SharedFile, g: SharedFile, path: string)
    requires f.path == g.path && f.isDirectory == g.isDirectory
    ensures FileAt([f], path) <==> FileAt([g], path)
    ensures FileAt([f], path) <==> !f.isDirectory && f.path == path
  {
    assert [f][0] == f && [g][0] == g;
  }

  lemma {:induction false} CleanedForestFileAt(ok: string -> bool, files: seq<SharedFile>, path: string)
    requires FileAt(Forest(CleanedAll(ok, files)), path)
    ensures FileAt(Forest(files), path)
    decreases files, 0
  {
    hide FileAt;
    if files == [] {
    } else {
      var all := CleanedAll(ok, files);
      FileAtSplit(Preorder(files[0]), Forest(files[1..]), path);
      if ok(files[0].path) {
        assert all[1..] == CleanedAll(ok, files[1..]);
        FileAtSplit(Preorder(all[0]), Forest(all[1..]), path);
        if FileAt(Preorder(all[0]), path) {
          CleanedFileAt(ok, files[0], path);
        } else {
          CleanedForestFileAt(ok, files[1..], path);
        }
      } else {
        assert all == CleanedAll(ok, files[1..]);
        CleanedForestFileAt(ok, files[1..], path);
      }
    }
  }

  /** Cleaning puts no file below a directory of its path. */
  lemma {:induction false} CleaningKeepsNoOwn(ok: string -> bool, f: SharedFile)
    requires NoOwnFiles(f)
    ensures NoOwnFiles(Cleaned(ok, f))
    decreases f, 1
  {
    hide FileAt;
    if f.isDirectory {
      CleaningAllKeepsNoOwn(ok, f.files);
      if FileAt(Forest(CleanedAll(ok, f.files)), f.path) {
        CleanedForestFileAt(ok, f.files, f.path);
        assert false;
      }
    }
  }

  lemma {:induction false} CleaningAllKeepsNoOwn(ok: string -> bool, files: seq<SharedFile>)
    requires forall i :: 0 <= i < |files| ==> NoOwnFiles(files[i])
    ensures forall i :: 0 <= i < |CleanedAll(ok, files)| ==> NoOwnFiles(CleanedAll(ok, files)[i])
    decreases files, 0
  {
    hide NoOwnFiles;
    if files == [] {
    } else {
      CleaningAllKeepsNoOwn(ok, files[1..]);
      if ok(files[0].path) {
        CleaningKeepsNoOwn(ok, files[0]);
      }
    }
  }

  /** Cleaning never adds to what is below a directory, whose own size it leaves alone. */
  lemma {:induction false} CleaningShrinks(ok: string -> bool, f: SharedFile)
    ensures LeafSum(Cleaned(ok, f)) <= LeafSum(f)
    ensures Cleaned(ok, f).fileSize == f.fileSize
    decreases f, 1
  {
    if f.isDirectory {
      CleaningAllShrinks(ok, f.files);
    }
  }

  lemma {:induction false} CleaningAllShrinks(ok: string -> bool, files: seq<SharedFile>)
    ensures LeafSums(CleanedAll(ok, files)) <= LeafSums(files)
    decreases files, 0
  {
    if files == [] {
    } else {
      CleaningAllShrinks(ok, files[1..]);
      if ok(files[0].path) {
        CleaningShrinks(ok, files[0]);
        assert CleanedAll(ok, files)[1..] == CleanedAll(ok, files[1..]);
      } else {
        assert CleanedAll(ok, files) == CleanedAll(ok, files[1..]);
      }
    }
  }

  /** Every directory's listed size is at least the sum of the files below it. */
  ghost predicate Covers(f: SharedFile) {
    LeafSum(f) <= f.fileSize && CoversAll(f.files)
  }

  ghost predicate CoversAll(files: seq<SharedFile>) {
    forall i :: 0 <= i < |files| ==> Covers(files[i])
  }

  /** It stays so when files are removed, at every directory of the tree. */
  lemma {:induction false} CleaningKeepsCover(ok: string -> bool, f: SharedFile)
    requires Covers(f)
    ensures Covers(Cleaned(ok, f))
    decreases f, 1
  {
    CleaningShrinks(ok, f);
    if f.isDirectory {
      CleaningAllKeepsCover(ok, f.files);
    }
  }

  lemma {:induction false} CleaningAllKeepsCover(ok: string -> bool, files: seq<SharedFile>)
    requires CoversAll(files)
    ensures CoversAll(CleanedAll(ok, files))
    decreases files, 0
  {
    if files == [] {
    } else {
      CleaningAllKeepsCover(ok, files[1..]);
      if ok(files[0].path) {
        CleaningKeepsCover(ok, files[0]);
      }
    }
  }

  lemma {:induction false} CoverEverywhere(f: SharedFile)
    requires Covers(f)
    ensures forall g :: g in Preorder(f) ==> LeafSum(g) <= g.fileSize
  {
    ForestCoverEverywhere(f.files);
  }

  lemma {:induction false} ForestCoverEverywhere(files: seq<SharedFile>)
    requires CoversAll(files)
    ensures forall g :: g in Forest(files) ==> LeafSum(g) <= g.fileSize
  {
    if files == [] {
    } else {
      CoverEverywhere(files[0]);
      ForestCoverEverywhere(files[1..]);
    }
  }
}
