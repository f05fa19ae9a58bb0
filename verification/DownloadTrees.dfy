/**
 Where the files of a shared tree go on the local disk, and how many bytes of them are there: the
 bookkeeping behind `active_downloaded_current_bytes` (src/outgoing_downloader.rs).
 */
module DownloadTrees {
  import opened Common
  import opened SharedTree

  type Disk = map<string, seq<u8>>

  /** One file of a tree: its path at the peer, its destination here, and its listed size. */
  datatype Leaf = Leaf(path: string, dest: string, size: nat)

  /** `nameOf`: `get_sanitized_disk_file_name`; None is its error return. */
  datatype Naming = Naming(nameOf: string -> Option<string>, separator: char)

  function NameOr(w: Naming, path: string): string {
    match w.nameOf(path) case Some(name) => name case None => ""
  }

  function SubDir(w: Naming, f: SharedFile, dir: string): string {
    dir + NameOr(w, f.path) + [w.separator]
  }

  function Leaves(w: Naming, f: SharedFile, dir: string): seq<Leaf>
    decreases f, 1
  {
    if f.isDirectory then AllLeaves(w, f.files, SubDir(w, f, dir))
    else [Leaf(f.path, dir + NameOr(w, f.path), f.fileSize)]
  }

  function AllLeaves(w: Naming, files: seq<SharedFile>, dir: string): seq<Leaf>
    decreases files, 0
  {
    if files == [] then [] else AllLeaves(w, files[..|files| - 1], dir) + Leaves(w, files[|files| - 1], dir)
  }

  /** From a node of the listing down to a file below it, or to itself. */
  ghost predicate WayDown(nodes: seq<SharedFile>) {
    && nodes != [] && !nodes[|nodes| - 1].isDirectory
    && forall i :: 0 <= i < |nodes| - 1 ==> nodes[i].isDirectory && nodes[i + 1] in nodes[i].files
  }

  /** The local names on this way, with a separator between them. */
  function LocalPath(w: Naming, nodes: seq<SharedFile>): string {
    if nodes == [] then ""
    else NameOr(w, nodes[0].path) + if |nodes| == 1 then "" else [w.separator] + LocalPath(w, nodes[1..])
  }

  /** The file at the end of this way, and its place below the directory that the tree goes to. */
  ghost predicate EndsAt(w: Naming, f: SharedFile, dir: string, nodes: seq<SharedFile>, leaf: Leaf) {
    && WayDown(nodes) && nodes[0] == f
    && var file := nodes[|nodes| - 1];
    leaf == Leaf(file.path, dir + LocalPath(w, nodes), file.fileSize)
  }

  lemma {:induction false} LeafHasWay(w: Naming, f: SharedFile, dir: string, leaf: Leaf)
    returns (nodes: seq<SharedFile>)
    requires leaf in Leaves(w, f, dir)
    ensures EndsAt(w, f, dir, nodes, leaf)
    decreases f, 1
  {
    if f.isDirectory {
      nodes := LeafAmongHasWay(w, f.files, SubDir(w, f, dir), leaf);
      WayFrom(w, f, dir, nodes, leaf);
      nodes := [f] + nodes;
    } else {
      nodes := [f];
    }
  }

  lemma WayDownFrom(f: SharedFile, nodes: seq<SharedFile>)
    requires f.isDirectory && nodes != [] && nodes[0] in f.files
    ensures WayDown(nodes) <==> WayDown([f] + nodes)
  {
    var all := [f] + nodes;
    if WayDown(all) {
      forall i | 0 <= i < |nodes| - 1
        ensures nodes[i].isDirectory && nodes[i + 1] in nodes[i].files
      {
        assert nodes[i] == all[i + 1] && nodes[i + 1] == all[i + 2];
      }
    }
    if WayDown(nodes) {
      forall i | 0 <= i < |all| - 1
        ensures all[i].isDirectory && all[i + 1] in all[i].files
      {
        assert all[i + 1] == nodes[i];
        if i > 0 {
          assert all[i] == nodes[i - 1];
        }
      }
    }
  }

  /** A way from an entry of a directory is one from the directory. */
  lemma WayFrom(w: Naming, f: SharedFile, dir: string, nodes: seq<SharedFile>, leaf: Leaf)
    requires f.isDirectory && nodes != [] && nodes[0] in f.files
    ensures EndsAt(w, nodes[0], SubDir(w, f, dir), nodes, leaf) <==> EndsAt(w, f, dir, [f] + nodes, leaf)
  {
    var all := [f] + nodes;
    assert all[1..] == nodes;
    assert LocalPath(w, all) == NameOr(w, f.path) + ([w.separator] + LocalPath(w, nodes));
    assert dir + LocalPath(w, all) == SubDir(w, f, dir) + LocalPath(w, nodes);
    WayDownFrom(f, nodes);
  }

  lemma {:induction false} LeafAmongHasWay(w: Naming, files: seq<SharedFile>, dir: string, leaf: Leaf)
    returns (nodes: seq<SharedFile>)
    requires leaf in AllLeaves(w, files, dir)
    ensures nodes != [] && nodes[0] in files && EndsAt(w, nodes[0], dir, nodes, leaf)
    decreases files, 0
  {
    hide Leaves, EndsAt;
    assert files != [];
    var init, last := files[..|files| - 1], files[|files| - 1];
    if leaf in AllLeaves(w, init, dir) {
      nodes := LeafAmongHasWay(w, init, dir, leaf);
    } else {
      nodes := LeafHasWay(w, last, dir, leaf);
      EndsBeginAt(w, last, dir, nodes, leaf);
    }
  }

  lemma EndsBeginAt(w: Naming, f: SharedFile, dir: string, nodes: seq<SharedFile>, leaf: Leaf)
    requires EndsAt(w, f, dir, nodes, leaf)
    ensures nodes != [] && nodes[0] == f
    ensures |nodes| > 1 <==> f.isDirectory
    ensures |nodes| > 1 ==> nodes[1] in f.files
  {
  }

  lemma {:induction false} WayHasLeaf(w: Naming, f: SharedFile, dir: string, nodes: seq<SharedFile>, leaf: Leaf)
    requires EndsAt(w, f, dir, nodes, leaf)
    ensures leaf in Leaves(w, f, dir)
    decreases |nodes|
  {
    EndsBeginAt(w, f, dir, nodes, leaf);
    if f.isDirectory {
      var rest := nodes[1..];
      assert nodes == [f] + rest;
      WayFrom(w, f, dir, rest, leaf);
      WayHasLeaf(w, rest[0], SubDir(w, f, dir), rest, leaf);
      LeafOfEntry(w, f.files, SubDir(w, f, dir), rest[0], leaf);
    } else {
      assert nodes == [f];
      assert LocalPath(w, [f]) == NameOr(w, f.path);
      assert leaf in [leaf];
    }
  }

  lemma {:induction false} LeafOfEntry(w: Naming, files: seq<SharedFile>, dir: string, entry: SharedFile, leaf: Leaf)
    requires entry in files && leaf in Leaves(w, entry, dir)
    ensures leaf in AllLeaves(w, files, dir)
  {
    hide Leaves;
    if entry != files[|files| - 1] {
      LeafOfEntry(w, files[..|files| - 1], dir, entry, leaf);
    }
  }

  /**
   Destinations: the files of a tree go exactly to the local names of the nodes on the way down to
   them, with separators between them, below the directory that the tree goes to.
   */
  lemma LeavesAreFiles(w: Naming, f: SharedFile, dir: string, leaf: Leaf)
    ensures leaf in Leaves(w, f, dir) <==> exists nodes :: EndsAt(w, f, dir, nodes, leaf)
  {
    hide EndsAt, Leaves;
    if leaf in Leaves(w, f, dir) {
      var nodes := LeafHasWay(w, f, dir, leaf);
    }
    if nodes :| EndsAt(w, f, dir, nodes, leaf) {
      WayHasLeaf(w, f, dir, nodes, leaf);
    }
  }

  /** Different files go to different places. */
  ghost predicate Distinct(ls: seq<Leaf>) {
    forall i, j :: 0 <= i < j < |ls| ==> ls[i].dest != ls[j].dest
  }

  ghost predicate GoesTo(ls: seq<Leaf>, dest: string) {
    exists i :: 0 <= i < |ls| && ls[i].dest == dest
  }

  function Len(d: Disk, dest: string): nat {
    if dest in d then |d[dest]| else 0
  }

  /** The length a file has once it is through: longer files are left alone. */
  function Through(d: Disk, l: Leaf): nat {
    if Len(d, l.dest) > l.size then Len(d, l.dest) else l.size
  }

  function Tally(d: Disk, ls: seq<Leaf>): nat {
    if ls == [] then 0 else Tally(d, ls[..|ls| - 1]) + Through(d, ls[|ls| - 1])
  }

  function Sizes(ls: seq<Leaf>): nat {
    if ls == [] then 0 else Sizes(ls[..|ls| - 1]) + ls[|ls| - 1].size
  }

  /** Files only grow at their end, and only these. */
  ghost predicate Grew(before: Disk, after: Disk, ls: seq<Leaf>) {
    && (forall p :: p in before ==> p in after && before[p] <= after[p])
    && (forall p :: p in after && !GoesTo(ls, p) ==> p in before && after[p] == before[p])
  }

  /** Every one of these files is through. */
  ghost predicate Complete(before: Disk, after: Disk, ls: seq<Leaf>) {
    forall i :: 0 <= i < |ls| ==> ls[i].dest in after && Len(after, ls[i].dest) == Through(before, ls[i])
  }

  lemma GrewNot(d: Disk, ls: seq<Leaf>)
    ensures Grew(d, d, ls)
  {
  }

  lemma GrewMore(a: Disk, b: Disk, c: Disk, ls: seq<Leaf>, more: seq<Leaf>)
    requires Grew(a, b, ls) && Grew(b, c, more)
    ensures Grew(a, c, ls + more)
  {
    forall p | p in c && !GoesTo(ls + more, p)
      ensures p in a && c[p] == a[p]
    {
      assert forall i :: 0 <= i < |ls| ==> (ls + more)[i] == ls[i];
      assert forall i :: 0 <= i < |more| ==> (ls + more)[|ls| + i] == more[i];
      assert !GoesTo(ls, p) && !GoesTo(more, p);
    }
  }

  lemma GrewWider(a: Disk, b: Disk, ls: seq<Leaf>, more: seq<Leaf>)
    requires Grew(a, b, ls)
    ensures Grew(a, b, ls + more) && Grew(a, b, more + ls)
  {
    forall p | p in b && !GoesTo(ls + more, p)
      ensures p in a && b[p] == a[p]
    {
      assert forall i :: 0 <= i < |ls| ==> (ls + more)[i] == ls[i];
      assert !GoesTo(ls, p);
    }
    forall p | p in b && !GoesTo(more + ls, p)
      ensures p in a && b[p] == a[p]
    {
      assert forall i :: 0 <= i < |ls| ==> (more + ls)[|more| + i] == ls[i];
      assert !GoesTo(ls, p);
    }
  }

  /** Where other files went does not matter for these. */
  lemma {:induction false} TallyOfUntouched(a: Disk, b: Disk, ls: seq<Leaf>, more: seq<Leaf>)
    requires Grew(a, b, ls) && Distinct(ls + more)
    ensures Tally(b, more) == Tally(a, more)
    ensures forall i :: 0 <= i < |more| ==> Len(a, more[i].dest) == Len(b, more[i].dest)
  {
    forall i | 0 <= i < |more|
      ensures Len(a, more[i].dest) == Len(b, more[i].dest)
    {
      Apart(ls, more, i);
    }
    SameTally(a, b, more);
  }

  lemma Apart(ls: seq<Leaf>, more: seq<Leaf>, i: nat)
    requires Distinct(ls + more) && i < |more|
    ensures !GoesTo(ls, more[i].dest)
  {
    assert (ls + more)[|ls| + i] == more[i];
    assert forall j :: 0 <= j < |ls| ==> (ls + more)[j] == ls[j];
  }

  lemma {:induction false} SameTally(a: Disk, b: Disk, ls: seq<Leaf>)
    requires forall i :: 0 <= i < |ls| ==> Len(a, ls[i].dest) == Len(b, ls[i].dest)
    ensures Tally(a, ls) == Tally(b, ls)
  {
    if ls != [] {
      SameTally(a, b, ls[..|ls| - 1]);
    }
  }

  lemma {:induction false} TallyAppend(d: Disk, ls: seq<Leaf>, more: seq<Leaf>)
    ensures Tally(d, ls + more) == Tally(d, ls) + Tally(d, more)
  {
    if more == [] {
      assert ls + more == ls;
    } else {
      assert (ls + more)[..|ls + more| - 1] == ls + more[..|more| - 1];
      TallyAppend(d, ls, more[..|more| - 1]);
    }
  }

  /** Files that are through stay through while others grow. */
  lemma CompleteMore(a: Disk, b: Disk, c: Disk, ls: seq<Leaf>, more: seq<Leaf>)
    requires Distinct(ls + more) && Grew(a, b, ls) && Grew(b, c, more)
    requires Complete(a, b, ls) && Complete(b, c, more)
    ensures Complete(a, c, ls + more)
  {
    var all := ls + more;
    forall i | 0 <= i < |all|
      ensures all[i].dest in c && Len(c, all[i].dest) == Through(a, all[i])
    {
      if i < |ls| {
        assert all[i] == ls[i];
        forall j | 0 <= j < |more|
          ensures more[j].dest != ls[i].dest
        {
          assert all[|ls| + j] == more[j];
        }
        assert !GoesTo(more, ls[i].dest);
      } else {
        assert all[i] == more[i - |ls|];
        Apart(ls, more, i - |ls|);
      }
    }
  }

  lemma DistinctParts(ls: seq<Leaf>, more: seq<Leaf>)
    requires Distinct(ls + more)
    ensures Distinct(ls) && Distinct(more)
  {
    assert forall i :: 0 <= i < |ls| ==> (ls + more)[i] == ls[i];
    assert forall i :: 0 <= i < |more| ==> (ls + more)[|ls| + i] == more[i];
  }

  lemma {:induction false} AllLeavesAppend(w: Naming, files: seq<SharedFile>, i: nat, dir: string)
    returns (rest: seq<Leaf>)
    requires i <= |files|
    ensures AllLeaves(w, files, dir) == AllLeaves(w, files[..i], dir) + rest
    decreases |files| - i
  {
    if i == |files| {
      assert files[..i] == files;
      rest := [];
    } else {
      rest := AllLeavesAppend(w, files, i + 1, dir);
      assert files[..i + 1][..i] == files[..i];
      rest := Leaves(w, files[i], dir) + rest;
    }
  }

  lemma AllLeavesSnoc(w: Naming, files: seq<SharedFile>, i: nat, dir: string)
    requires i < |files|
    ensures AllLeaves(w, files[..i + 1], dir) == AllLeaves(w, files[..i], dir) + Leaves(w, files[i], dir)
  {
    assert files[..i + 1][..i] == files[..i];
  }

  /** No destination exceeds its listed size. */
  ghost predicate NoneTooLong(d: Disk, ls: seq<Leaf>) {
    forall i :: 0 <= i < |ls| ==> Len(d, ls[i].dest) <= ls[i].size
  }

  /** Then the tally of a tree is the sum of its listed sizes. */
  lemma {:induction false} TallyIsSizes(d: Disk, ls: seq<Leaf>)
    requires NoneTooLong(d, ls)
    ensures Tally(d, ls) == Sizes(ls)
  {
    if ls != [] {
      TallyIsSizes(d, ls[..|ls| - 1]);
    }
  }

  /** The destinations' sizes add up to the leaves of the shared tree. */
  lemma {:induction false} LeavesSum(w: Naming, f: SharedFile, dir: string)
    ensures Sizes(Leaves(w, f, dir)) == LeafSum(f)
    decreases f, 1
  {
    if f.isDirectory {
      AllLeavesSum(w, f.files, SubDir(w, f, dir));
    } else {
      var l := Leaf(f.path, dir + NameOr(w, f.path), f.fileSize);
      assert [l][..0] == [];
    }
  }

  lemma {:induction false} AllLeavesSum(w: Naming, files: seq<SharedFile>, dir: string)
    ensures Sizes(AllLeaves(w, files, dir)) == LeafSums(files)
    decreases files, 0
  {
    if files == [] {
    } else {
      var init, last := files[..|files| - 1], files[|files| - 1];
      AllLeavesSum(w, init, dir);
      LeavesSum(w, last, dir);
      SizesAppend(AllLeaves(w, init, dir), Leaves(w, last, dir));
      assert files == init + [last];
      LeafSumsAppend(init, last);
    }
  }

  lemma {:induction false} SizesAppend(ls: seq<Leaf>, more: seq<Leaf>)
    ensures Sizes(ls + more) == Sizes(ls) + Sizes(more)
  {
    if more == [] {
      assert ls + more == ls;
    } else {
      assert (ls + more)[..|ls + more| - 1] == ls + more[..|more| - 1];
      SizesAppend(ls, more[..|more| - 1]);
    }
  }

  // ---------------------------------------------------------------- the running byte counter

  /**
   The counter stands at the files that are through, the first `done` of them, possibly with the
   bytes of the one after them.
   */
  ghost predicate Accounted(before: Disk, after: Disk, ls: seq<Leaf>, start: nat, bytes: nat, done: nat) {
    && done <= |ls|
    && (|| bytes == start + Tally(before, ls[..done])
        || (done < |ls| && bytes == start + Tally(before, ls[..done]) + Len(after, ls[done].dest)))
  }

  /** Accounts of a part continue to the account of the whole. */
  lemma AccountedOn(a: Disk, b: Disk, c: Disk, ls: seq<Leaf>, part: seq<Leaf>, rest: seq<Leaf>, start: nat, bytes: nat,
                    done: nat)
    requires Distinct(ls + part) && Grew(a, b, ls)
    requires Accounted(b, c, part, start + Tally(a, ls), bytes, done)
    ensures Accounted(a, c, ls + part + rest, start, bytes, |ls| + done)
  {
    var all := ls + part + rest;
    var first := part[..done];
    assert all[..|ls| + done] == ls + first;
    TallyAppend(a, ls, first);
    forall i | 0 <= i < |first|
      ensures Len(a, first[i].dest) == Len(b, first[i].dest)
    {
      TallyOfUntouched(a, b, ls, part);
      assert first[i] == part[i];
    }
    SameTally(a, b, first);
    if done < |part| {
      assert all[|ls| + done] == part[done];
    }
  }

  lemma {:induction false} TallyMonotone(d: Disk, ls: seq<Leaf>, k: nat)
    requires k <= |ls|
    ensures Tally(d, ls[..k]) <= Tally(d, ls)
    decreases |ls| - k
  {
    if k == |ls| {
      assert ls[..k] == ls;
    } else {
      assert ls[..k + 1][..k] == ls[..k];
      TallyMonotone(d, ls, k + 1);
    }
  }

  /**
   While the peer sends no more of a file than it listed, the counter never exceeds the tally,
   which for destinations that were not too long is the sum of the listed sizes.
   */
  lemma NeverExceeds(before: Disk, after: Disk, ls: seq<Leaf>, start: nat, bytes: nat, done: nat)
    requires Accounted(before, after, ls, start, bytes, done) && NoneTooLong(before, ls) && NoneTooLong(after, ls)
    ensures bytes <= start + Sizes(ls)
  {
    TallyIsSizes(before, ls);
    TallyMonotone(before, ls, done);
    if done < |ls| {
      assert ls[..done + 1][..done] == ls[..done];
      TallyMonotone(before, ls, done + 1);
    }
  }
}
