/**
 What a peer is offered and what it is sent: the tree that src/config.rs builds from the shares
 and the disk (`get_everything_file`, `process_shared_file`), and the selections it serves.
 */
module Listings {
  import opened Common
  import opened CoreConsts
  import opened SharedTree
  import opened Protocol
  import opened ProtocolProofs
  import opened Replies

  /** What is on the disk at a path: broken entries have no metadata, locked directories no entries. */
  datatype Fs =
    | Broken
    | Locked
    | RegularFile(size: u64)
    | Folder(entries: seq<Entry>)

  datatype Entry = Entry(name: string, fs: Fs)

  predicate IsDir(fs: Fs) {
    fs.Folder? || fs.Locked?
  }

  /** Our own config directory and the path separator of the platform. */
  datatype Site = Site(configDir: string, separator: char)

  datatype ConfigSharedFile = ConfigSharedFile(path: string, sharedWith: seq<string>)

  /** `DirEntry::path`. */
  function ChildPath(site: Site, dir: string, name: string): string {
    if dir != "" && dir[|dir| - 1] == site.separator then dir + name else dir + [site.separator] + name
  }

  /** `str::contains`. */
  predicate Contains(s: string, part: string) {
    exists i :: 0 <= i <= |s| - |part| && OccursAt(s, part, i)
  }

  predicate OccursAt(s: string, part: string, i: int)
    requires 0 <= i <= |s| - |part|
  {
    s[i..i + |part|] == part
  }

  // ---------------------------------------------------------------- building the tree

  /** The tree of one path; None when something in it cannot be read. */
  function Listed(site: Site, path: string, fs: Fs): Option<SharedFile>
    decreases fs, 1
  {
    match fs
    case Broken => None
    case Locked => None
    case RegularFile(size) => Some(SharedFile(path, false, [], size))
    case Folder(entries) =>
      match ListedAll(site, path, entries)
      case None => None
      case Some(files) => Some(SharedFile(path, true, files, Sizes(files)))
  }

  /** Its children, in the order of the directory, without our own config directory. */
  function ListedAll(site: Site, dir: string, entries: seq<Entry>): Option<seq<SharedFile>>
    decreases entries, 0
  {
    if entries == [] then Some([])
    else
      match ListedAll(site, dir, entries[..|entries| - 1])
      case None => None
      case Some(files) =>
        var last := entries[|entries| - 1];
        var path := ChildPath(site, dir, last.name);
        if Contains(path, site.configDir) then Some(files)
        else
          match Listed(site, path, last.fs)
          case None => None
          case Some(f) => Some(files + [f])
  }

  function Sizes(files: seq<SharedFile>): nat {
    if files == [] then 0 else Sizes(files[..|files| - 1]) + files[|files| - 1].fileSize
  }

  /** `process_shared_file`, for a node that is at first empty: None is its error return. */
  method ProcessSharedFile(site: Site, f: SharedFile, fs: Fs) returns (r: Option<SharedFile>)
    requires f == SharedFile(f.path, IsDir(fs), [], if fs.RegularFile? then fs.size else 0) && !fs.Broken?
    ensures r == Listed(site, f.path, fs)
    decreases fs
  {
    hide Contains, ChildPath, ListedAll, Listed, Sizes;
    ListedIs(site, f.path, fs);
    if !f.isDirectory {
      return Some(f);
    }
    if fs.Locked? {
      return None;
    }
    var files, size := [], 0;
    var i := 0;
    NothingListed(site, f.path);
    while i < |fs.entries|
      invariant 0 <= i <= |fs.entries|
      invariant ListedAll(site, f.path, fs.entries[..i]) == Some(files)
      invariant size == Sizes(files)
    {
      ghost var before := fs.entries[..i];
      assert fs.entries[..i + 1] == before + [fs.entries[i]];
      var Entry(name, entry) := fs.entries[i];
      ListedAllSnoc(site, f.path, before, name, entry);
      var path := ChildPath(site, f.path, name);
      i := i + 1;
      if Contains(path, site.configDir) {
        continue;
      }
      ListedIs(site, path, entry);
      if entry.Broken? {
        ListedAllFails(site, f.path, fs.entries, i);
        return None;
      }
      var child := ProcessSharedFile(site, SharedFile(path, IsDir(entry), [],
                                                      if entry.RegularFile? then entry.size else 0), entry);
      if child.None? {
        ListedAllFails(site, f.path, fs.entries, i);
        return None;
      }
      SizesSnoc(files, child.value);
      size := size + child.value.fileSize;
      files := files + [child.value];
    }
    assert fs.entries[..i] == fs.entries;
    return Some(f.(files := files, fileSize := size));
  }

  lemma ListedIs(site: Site, path: string, fs: Fs)
    ensures Listed(site, path, fs) ==
      match fs
      case Broken => None
      case Locked => None
      case RegularFile(size) => Some(SharedFile(path, false, [], size))
      case Folder(entries) =>
        match ListedAll(site, path, entries)
        case None => None
        case Some(files) => Some(SharedFile(path, true, files, Sizes(files)))
  {
  }

  lemma NothingListed(site: Site, dir: string)
    ensures ListedAll(site, dir, []) == Some([]) && Sizes([]) == 0
  {
  }

  lemma SizesSnoc(files: seq<SharedFile>, f: SharedFile)
    ensures Sizes(files + [f]) == Sizes(files) + f.fileSize
  {
    assert (files + [f])[..|files + [f]| - 1] == files;
  }

  lemma ListedAllSnoc(site: Site, dir: string, entries: seq<Entry>, name: string, fs: Fs)
    ensures ListedAll(site, dir, entries + [Entry(name, fs)]) ==
      match ListedAll(site, dir, entries)
      case None => None
      case Some(files) =>
        var path := ChildPath(site, dir, name);
        if Contains(path, site.configDir) then Some(files)
        else match Listed(site, path, fs) case None => None case Some(f) => Some(files + [f])
  {
    var all := entries + [Entry(name, fs)];
    assert all[..|all| - 1] == entries;
  }

  lemma {:induction false} ListedAllFails(site: Site, dir: string, entries: seq<Entry>, i: nat)
    requires i <= |entries| && ListedAll(site, dir, entries[..i]).None?
    ensures ListedAll(site, dir, entries).None?
    decreases |entries|
  {
    if i == |entries| {
      assert entries[..i] == entries;
    } else {
      assert entries[..|entries| - 1][..i] == entries[..i];
      ListedAllFails(site, dir, entries[..|entries| - 1], i);
    }
  }

  /** The shares of one user that are there, each with its tree. */
  function Offered(site: Site, shares: seq<ConfigSharedFile>, disk: map<string, Fs>,
                   nickname: string): Option<seq<SharedFile>> {
    if shares == [] then Some([])
    else
      match Offered(site, shares[..|shares| - 1], disk, nickname)
      case None => None
      case Some(files) =>
        var share := shares[|shares| - 1];
        if !Offers(share, disk, nickname) then Some(files)
        else
          match Listed(site, share.path, disk[share.path])
          case None => None
          case Some(f) => Some(files + [f])
  }

  /** The share is for this user, and `metadata` of its path succeeds. */
  predicate Offers(share: ConfigSharedFile, disk: map<string, Fs>, nickname: string) {
    nickname in share.sharedWith && share.path in disk && !disk[share.path].Broken?
  }

  function Everything(files: seq<SharedFile>): SharedFile {
    SharedFile("everything/", true, files, Sizes(files))
  }

  /** `get_everything_file`. */
  method GetEverythingFile(site: Site, shares: seq<ConfigSharedFile>, disk: map<string, Fs>, nickname: string)
    returns (r: Option<SharedFile>)
    ensures Offered(site, shares, disk, nickname).None? <==> r.None?
    ensures r.Some? ==> r.value == Everything(Offered(site, shares, disk, nickname).value)
  {
    hide Listed, Offers, Offered;
    var everything := SharedFile("everything/", true, [], 0);
    var i := 0;
    NothingOffered(site, disk, nickname);
    while i < |shares|
      invariant 0 <= i <= |shares|
      invariant Offered(site, shares[..i], disk, nickname) == Some(everything.files)
      invariant everything == Everything(everything.files)
    {
      var share := shares[i];
      assert shares[..i + 1] == shares[..i] + [share];
      OfferedSnoc(site, shares[..i], disk, nickname, share);
      i := i + 1;
      if nickname !in share.sharedWith {
        OffersIs(share, disk, nickname);
        continue;
      }
      OffersIs(share, disk, nickname);
      if share.path !in disk || disk[share.path].Broken? {
        continue;
      }
      var fs := disk[share.path];
      var node := SharedFile(share.path, IsDir(fs), [], if fs.RegularFile? then fs.size else 0);
      var f := ProcessSharedFile(site, node, fs);
      if f.None? {
        OfferedFails(site, shares, disk, nickname, i);
        return None;
      }
      everything := everything.(fileSize := everything.fileSize + f.value.fileSize,
                                files := everything.files + [f.value]);
    }
    assert shares[..i] == shares;
    return Some(everything);
  }

  lemma NothingOffered(site: Site, disk: map<string, Fs>, nickname: string)
    ensures Offered(site, [], disk, nickname) == Some([])
  {
  }

  lemma OffersIs(share: ConfigSharedFile, disk: map<string, Fs>, nickname: string)
    ensures Offers(share, disk, nickname)
      <==> nickname in share.sharedWith && share.path in disk && !disk[share.path].Broken?
  {
  }

  lemma OfferedSnoc(site: Site, shares: seq<ConfigSharedFile>, disk: map<string, Fs>, nickname: string,
                    share: ConfigSharedFile)
    ensures Offered(site, shares + [share], disk, nickname) ==
      match Offered(site, shares, disk, nickname)
      case None => None
      case Some(files) =>
        if !Offers(share, disk, nickname) then Some(files)
        else match Listed(site, share.path, disk[share.path]) case None => None case Some(f) => Some(files + [f])
  {
    var all := shares + [share];
    assert all[..|all| - 1] == shares;
  }

  lemma {:induction false} OfferedFails(site: Site, shares: seq<ConfigSharedFile>, disk: map<string, Fs>,
                                        nickname: string, i: nat)
    requires i <= |shares| && Offered(site, shares[..i], disk, nickname).None?
    ensures Offered(site, shares, disk, nickname).None?
    decreases |shares|
  {
    if i == |shares| {
      assert shares[..i] == shares;
    } else {
      assert shares[..|shares| - 1][..i] == shares[..i];
      OfferedFails(site, shares[..|shares| - 1], disk, nickname, i);
    }
  }

  // ---------------------------------------------------------------- sizes and shape

  /** Every node's size is the sum of the files below it. */
  ghost predicate Exact(f: SharedFile) {
    f.fileSize == LeafSum(f) && AllExact(f.files)
  }

  ghost predicate AllExact(files: seq<SharedFile>) {
    forall i :: 0 <= i < |files| ==> Exact(files[i])
  }

  lemma {:induction false} ExactSizes(files: seq<SharedFile>)
    requires AllExact(files)
    ensures Sizes(files) == LeafSums(files)
  {
    if files == [] {
    } else {
      var last := files[|files| - 1];
      ExactSizes(files[..|files| - 1]);
      LeafSumsAppend(files[..|files| - 1], last);
      assert files == files[..|files| - 1] + [last];
      assert Exact(last);
    }
  }

  lemma {:induction false} ExactCovers(f: SharedFile)
    requires Exact(f)
    ensures Covers(f)
  {
    forall i | 0 <= i < |f.files|
      ensures Covers(f.files[i])
    {
      ExactCovers(f.files[i]);
    }
  }

  /** A built tree is well formed, with exact sizes at every node. */
  lemma {:induction false} ListedShape(site: Site, path: string, fs: Fs)
    requires Listed(site, path, fs).Some?
    ensures var f := Listed(site, path, fs).value;
      f.path == path && WellFormed(f) && Exact(f)
    decreases fs, 1
  {
    hide Contains, ChildPath;
    if fs.Folder? {
      ListedAllShape(site, path, fs.entries);
      ExactSizes(Listed(site, path, fs).value.files);
    }
  }

  lemma {:induction false} ListedAllShape(site: Site, dir: string, entries: seq<Entry>)
    requires ListedAll(site, dir, entries).Some?
    ensures WellFormedAll(ListedAll(site, dir, entries).value) && AllExact(ListedAll(site, dir, entries).value)
    decreases entries, 0
  {
    hide Contains, ChildPath, WellFormed, Exact;
    if entries == [] {
    } else {
      var last := entries[|entries| - 1];
      ListedAllShape(site, dir, entries[..|entries| - 1]);
      var path := ChildPath(site, dir, last.name);
      if !Contains(path, site.configDir) {
        ListedShape(site, path, last.fs);
      }
    }
  }

  lemma {:induction false} OfferedShape(site: Site, shares: seq<ConfigSharedFile>, disk: map<string, Fs>,
                                        nickname: string)
    requires Offered(site, shares, disk, nickname).Some?
    ensures var files := Offered(site, shares, disk, nickname).value;
      WellFormedAll(files) && AllExact(files)
  {
    hide Listed, WellFormed, Exact;
    if shares == [] {
    } else {
      OfferedShape(site, shares[..|shares| - 1], disk, nickname);
      var share := shares[|shares| - 1];
      if Offers(share, disk, nickname) {
        ListedShape(site, share.path, disk[share.path]);
      }
    }
  }

  /** The whole listing is well formed, and the size of each of its nodes is the sum of the files below it. */
  lemma EverythingShape(site: Site, shares: seq<ConfigSharedFile>, disk: map<string, Fs>, nickname: string)
    requires Offered(site, shares, disk, nickname).Some?
    ensures var f := Everything(Offered(site, shares, disk, nickname).value);
      WellFormed(f) && Exact(f)
  {
    OfferedShape(site, shares, disk, nickname);
    ExactSizes(Offered(site, shares, disk, nickname).value);
  }

  // ---------------------------------------------------------------- what is offered

  /**
   There is a file of this size at p, at or below this path, and no entry on the way down to it is
   in our config directory.
   */
  ghost predicate HasFile(site: Site, path: string, fs: Fs, p: string, size: nat)
    decreases fs
  {
    match fs
    case RegularFile(n) => p == path && size == n
    case Folder(entries) => exists i :: 0 <= i < |entries| && HasBelow(site, path, entries[i], p, size)
    case _ => false
  }

  ghost predicate HasBelow(site: Site, dir: string, entry: Entry, p: string, size: nat)
    decreases entry
  {
    var path := ChildPath(site, dir, entry.name);
    !Contains(path, site.configDir) && HasFile(site, path, entry.fs, p, size)
  }

  ghost predicate HasAmong(site: Site, dir: string, entries: seq<Entry>, p: string, size: nat) {
    exists i :: 0 <= i < |entries| && HasBelow(site, dir, entries[i], p, size)
  }

  function Leaf(p: string, size: nat): SharedFile {
    SharedFile(p, false, [], size)
  }

  /** The files of a built tree are exactly the visible files of the disk, with their paths and sizes. */
  lemma {:induction false} ListedFiles(site: Site, path: string, fs: Fs, p: string, size: nat)
    requires Listed(site, path, fs).Some?
    ensures Leaf(p, size) in Preorder(Listed(site, path, fs).value) <==> HasFile(site, path, fs, p, size)
    decreases fs, 1
  {
    hide Contains, ChildPath;
    match fs {
      case Folder(entries) =>
        ListedAllFiles(site, path, entries, p, size);
      case _ =>
    }
  }

  lemma {:induction false} ListedAllFiles(site: Site, dir: string, entries: seq<Entry>, p: string, size: nat)
    requires ListedAll(site, dir, entries).Some?
    ensures Leaf(p, size) in Forest(ListedAll(site, dir, entries).value) <==> HasAmong(site, dir, entries, p, size)
    decreases entries, 0
  {
    hide Contains, ChildPath, HasFile, Listed, Forest, Preorder;
    if entries == [] {
      NoForest();
    } else {
      var init, last := entries[..|entries| - 1], entries[|entries| - 1];
      ListedAllFiles(site, dir, init, p, size);
      var path := ChildPath(site, dir, last.name);
      if !Contains(path, site.configDir) {
        ListedFiles(site, path, last.fs, p, size);
        ForestSnoc(ListedAll(site, dir, init).value, Listed(site, path, last.fs).value);
      }
      AmongSnoc(site, dir, entries, p, size);
    }
  }

  lemma NoForest()
    ensures Forest([]) == []
  {
  }

  lemma AmongSnoc(site: Site, dir: string, entries: seq<Entry>, p: string, size: nat)
    requires entries != []
    ensures HasAmong(site, dir, entries, p, size)
      <==> (HasAmong(site, dir, entries[..|entries| - 1], p, size)
            || HasBelow(site, dir, entries[|entries| - 1], p, size))
  {
    hide HasBelow;
    var init := entries[..|entries| - 1];
    if HasAmong(site, dir, init, p, size) {
      var i :| 0 <= i < |init| && HasBelow(site, dir, init[i], p, size);
      assert entries[i] == init[i];
    }
    if HasAmong(site, dir, entries, p, size) {
      var i :| 0 <= i < |entries| && HasBelow(site, dir, entries[i], p, size);
      assert i < |init| ==> init[i] == entries[i];
    }
  }

  /** A visible file is at the path itself or below it, where it is not in our config directory. */
  lemma {:induction false} HasFileBelow(site: Site, path: string, fs: Fs, p: string, size: nat)
    requires HasFile(site, path, fs, p, size)
    ensures path <= p
    ensures p == path || !Contains(p, site.configDir)
    decreases fs
  {
    hide Contains;
    if fs.Folder? {
      var i :| 0 <= i < |fs.entries| && HasBelow(site, path, fs.entries[i], p, size);
      HasFileBelow(site, ChildPath(site, path, fs.entries[i].name), fs.entries[i].fs, p, size);
    }
  }

  // ---------------------------------------------------------------- paths

  /** What these names add to a path: a separator before each. */
  function Trail(separator: char, names: seq<string>): string {
    if names == [] then "" else [separator] + names[0] + Trail(separator, names[1..])
  }

  /** Following these names from here leads to a file of this size. */
  ghost predicate Reaches(fs: Fs, names: seq<string>, size: nat)
    decreases names
  {
    if names == [] then fs.RegularFile? && fs.size == size
    else fs.Folder? && exists i :: 0 <= i < |fs.entries| && EntryReaches(fs.entries[i], names, size)
  }

  ghost predicate EntryReaches(entry: Entry, names: seq<string>, size: nat)
    requires names != []
    decreases names, 0
  {
    entry.name == names[0] && Reaches(entry.fs, names[1..], size)
  }

  /** Names of entries are not empty and contain no separator. */
  ghost predicate Plain(separator: char, fs: Fs) {
    fs.Folder? ==> forall i :: 0 <= i < |fs.entries| ==>
      fs.entries[i].name != "" && separator !in fs.entries[i].name && Plain(separator, fs.entries[i].fs)
  }

  predicate EndsIn(s: string, c: char) {
    s != "" && s[|s| - 1] == c
  }

  lemma PlainChild(site: Site, dir: string, name: string)
    requires !EndsIn(dir, site.separator) && name != "" && site.separator !in name
    ensures ChildPath(site, dir, name) == dir + [site.separator] + name
    ensures !EndsIn(ChildPath(site, dir, name), site.separator)
  {
    var path := ChildPath(site, dir, name);
    assert path[|path| - 1] == name[|name| - 1];
  }

  lemma ContainsMore(s: string, t: string, part: string)
    requires s <= t && Contains(s, part)
    ensures Contains(t, part)
  {
    var i :| 0 <= i <= |s| - |part| && OccursAt(s, part, i);
    assert OccursAt(t, part, i);
  }

  /** A visible file lies where the names of the directories above it and its own lead. */
  lemma {:induction false} FileLiesAt(site: Site, path: string, fs: Fs, p: string, size: nat)
    returns (names: seq<string>)
    requires HasFile(site, path, fs, p, size) && Plain(site.separator, fs) && !EndsIn(path, site.separator)
    ensures Reaches(fs, names, size) && p == path + Trail(site.separator, names)
    decreases fs
  {
    hide Contains, ChildPath, EndsIn;
    if fs.Folder? {
      var i :| 0 <= i < |fs.entries| && HasBelow(site, path, fs.entries[i], p, size);
      var name := fs.entries[i].name;
      PlainChild(site, path, name);
      var below := FileLiesAt(site, ChildPath(site, path, name), fs.entries[i].fs, p, size);
      names := [name] + below;
      assert names[1..] == below;
      assert EntryReaches(fs.entries[i], names, size);
      assert path + [site.separator] + name + Trail(site.separator, below)
        == path + ([site.separator] + name + Trail(site.separator, below));
    } else {
      names := [];
    }
  }

  /** And every file that names lead to is visible, unless its path contains our config directory. */
  lemma {:induction false} FileIsVisible(site: Site, path: string, fs: Fs, names: seq<string>, size: nat)
    requires Reaches(fs, names, size) && Plain(site.separator, fs) && !EndsIn(path, site.separator)
    requires !Contains(path + Trail(site.separator, names), site.configDir)
    ensures HasFile(site, path, fs, path + Trail(site.separator, names), size)
    decreases names
  {
    hide Contains, ChildPath, EndsIn;
    var p := path + Trail(site.separator, names);
    if names == [] {
    } else {
      var i :| 0 <= i < |fs.entries| && EntryReaches(fs.entries[i], names, size);
      var name, rest := names[0], Trail(site.separator, names[1..]);
      PlainChild(site, path, name);
      var child := ChildPath(site, path, name);
      assert p == child + rest;
      if Contains(child, site.configDir) {
        ContainsMore(child, p, site.configDir);
      }
      FileIsVisible(site, child, fs.entries[i].fs, names[1..], size);
      assert HasBelow(site, path, fs.entries[i], p, size);
    }
  }

  /**
   The files of a shared path, on a disk whose names are plain: outside our config directory they are
   exactly those that some names lead to, with the names behind the path, a separator before each.
   */
  lemma FilesOnDisk(site: Site, path: string, fs: Fs, p: string, size: nat)
    requires Plain(site.separator, fs) && !EndsIn(path, site.separator) && !Contains(p, site.configDir)
    ensures HasFile(site, path, fs, p, size)
      <==> exists names :: Reaches(fs, names, size) && p == path + Trail(site.separator, names)
  {
    hide HasFile, Reaches, Plain, EndsIn, Contains;
    if HasFile(site, path, fs, p, size) {
      var names := FileLiesAt(site, path, fs, p, size);
    }
    if names :| Reaches(fs, names, size) && p == path + Trail(site.separator, names) {
      FileIsVisible(site, path, fs, names, size);
    }
  }

  /** One of the shares for this user has this file. */
  ghost predicate SharedWith(site: Site, shares: seq<ConfigSharedFile>, disk: map<string, Fs>, nickname: string,
                             p: string, size: nat) {
    exists i :: 0 <= i < |shares| && ShareHas(site, shares[i], disk, nickname, p, size)
  }

  ghost predicate ShareHas(site: Site, share: ConfigSharedFile, disk: map<string, Fs>, nickname: string, p: string,
                           size: nat) {
    nickname in share.sharedWith && share.path in disk && HasFile(site, share.path, disk[share.path], p, size)
  }

  lemma SharedSnoc(site: Site, shares: seq<ConfigSharedFile>, disk: map<string, Fs>, nickname: string, p: string,
                   size: nat)
    requires shares != []
    ensures SharedWith(site, shares, disk, nickname, p, size)
      <==> (SharedWith(site, shares[..|shares| - 1], disk, nickname, p, size)
            || ShareHas(site, shares[|shares| - 1], disk, nickname, p, size))
  {
    hide ShareHas;
    var init := shares[..|shares| - 1];
    if SharedWith(site, init, disk, nickname, p, size) {
      var i :| 0 <= i < |init| && ShareHas(site, init[i], disk, nickname, p, size);
      assert shares[i] == init[i];
    }
    if SharedWith(site, shares, disk, nickname, p, size) {
      var i :| 0 <= i < |shares| && ShareHas(site, shares[i], disk, nickname, p, size);
      assert i < |init| ==> init[i] == shares[i];
    }
  }

  /**
   Served content, as a listing: a user is offered exactly the visible files at or below the paths
   that are shared with that user.
   */
  lemma {:induction false} OfferedFiles(site: Site, shares: seq<ConfigSharedFile>, disk: map<string, Fs>,
                                        nickname: string, p: string, size: nat)
    requires Offered(site, shares, disk, nickname).Some?
    ensures Leaf(p, size) in Preorder(Everything(Offered(site, shares, disk, nickname).value))
      <==> SharedWith(site, shares, disk, nickname, p, size)
  {
    OfferedForest(site, shares, disk, nickname, p, size);
    hide Offered, SharedWith;
    var files := Offered(site, shares, disk, nickname).value;
    assert Preorder(Everything(files)) == [Everything(files)] + Forest(files);
  }

  lemma {:induction false} OfferedForest(site: Site, shares: seq<ConfigSharedFile>, disk: map<string, Fs>,
                                         nickname: string, p: string, size: nat)
    requires Offered(site, shares, disk, nickname).Some?
    ensures Leaf(p, size) in Forest(Offered(site, shares, disk, nickname).value)
      <==> SharedWith(site, shares, disk, nickname, p, size)
  {
    hide Listed, Forest, Preorder;
    if shares == [] {
      NoForest();
    } else {
      var init, share := shares[..|shares| - 1], shares[|shares| - 1];
      OfferedForest(site, init, disk, nickname, p, size);
      SharedSnoc(site, shares, disk, nickname, p, size);
      if Offers(share, disk, nickname) {
        ListedFiles(site, share.path, disk[share.path], p, size);
        ForestSnoc(Offered(site, init, disk, nickname).value, Listed(site, share.path, disk[share.path]).value);
      }
    }
  }

  // ---------------------------------------------------------------- what the asking end may rely on

  /** No directory entry has an empty name. */
  ghost predicate NamesOk(fs: Fs) {
    fs.Folder? ==> forall i :: 0 <= i < |fs.entries| ==> fs.entries[i].name != "" && NamesOk(fs.entries[i].fs)
  }

  ghost predicate AllNamesOk(entries: seq<Entry>) {
    forall i :: 0 <= i < |entries| ==> entries[i].name != "" && NamesOk(entries[i].fs)
  }

  /** No path in this forest is shorter than that. */
  ghost predicate AtLeast(nodes: seq<SharedFile>, length: nat) {
    forall i :: 0 <= i < |nodes| ==> |nodes[i].path| >= length
  }

  /** A child's path is longer than its directory's, so no directory has its path again below it. */
  lemma {:induction false} ListedNoOwn(site: Site, path: string, fs: Fs)
    requires Listed(site, path, fs).Some? && NamesOk(fs)
    ensures var f := Listed(site, path, fs).value;
      && NoOwnFiles(f) && AtLeast(Preorder(f), |path|)
    decreases fs, 1
  {
    hide Contains, ChildPath;
    if fs.Folder? {
      ListedAllNoOwn(site, path, fs.entries);
    }
  }

  lemma {:induction false} ListedAllNoOwn(site: Site, dir: string, entries: seq<Entry>)
    requires ListedAll(site, dir, entries).Some? && AllNamesOk(entries)
    ensures var files := ListedAll(site, dir, entries).value;
      && (forall i :: 0 <= i < |files| ==> NoOwnFiles(files[i])) && AtLeast(Forest(files), |dir| + 1)
    decreases entries, 0
  {
    hide Contains, NoOwnFiles, NamesOk, Listed;
    if entries == [] {
    } else {
      var init, last := entries[..|entries| - 1], entries[|entries| - 1];
      ListedAllNoOwn(site, dir, init);
      var path := ChildPath(site, dir, last.name);
      if !Contains(path, site.configDir) {
        ListedNoOwn(site, path, last.fs);
        ForestSnoc(ListedAll(site, dir, init).value, Listed(site, path, last.fs).value);
      }
    }
  }

  /** The disk has no empty names, and no share is called like the root of the listing or a beginning of it. */
  ghost predicate Proper(shares: seq<ConfigSharedFile>, disk: map<string, Fs>, nickname: string) {
    forall i :: 0 <= i < |shares| && Offers(shares[i], disk, nickname) ==>
      NamesOk(disk[shares[i].path]) && !(shares[i].path <= "everything/")
  }

  lemma {:induction false} OfferedNoOwn(site: Site, shares: seq<ConfigSharedFile>, disk: map<string, Fs>,
                                        nickname: string)
    requires Offered(site, shares, disk, nickname).Some? && Proper(shares, disk, nickname)
    ensures var files := Offered(site, shares, disk, nickname).value;
      forall i :: 0 <= i < |files| ==> NoOwnFiles(files[i])
  {
    hide Listed, NoOwnFiles, Offers;
    if shares == [] {
    } else {
      var share := shares[|shares| - 1];
      OfferedNoOwn(site, shares[..|shares| - 1], disk, nickname);
      if Offers(share, disk, nickname) {
        OffersIs(share, disk, nickname);
        ListedNoOwn(site, share.path, disk[share.path]);
      }
    }
  }

  lemma LeafIsWhole(nodes: seq<SharedFile>, path: string) returns (size: nat)
    requires FileAt(nodes, path) && forall g :: g in nodes ==> WellFormed(g)
    ensures Leaf(path, size) in nodes
  {
    var i :| 0 <= i < |nodes| && !nodes[i].isDirectory && nodes[i].path == path;
    size := nodes[i].fileSize;
    assert nodes[i] in nodes;
  }

  /** Not even the root has its path again, as every file is at or below a share. */
  lemma EverythingNoOwn(site: Site, shares: seq<ConfigSharedFile>, disk: map<string, Fs>, nickname: string)
    requires Offered(site, shares, disk, nickname).Some? && Proper(shares, disk, nickname)
    ensures NoOwnFiles(Everything(Offered(site, shares, disk, nickname).value))
  {
    hide Offered, WellFormed, HasFile, Preorder, Forest;
    var files := Offered(site, shares, disk, nickname).value;
    OfferedNoOwn(site, shares, disk, nickname);
    EverythingShape(site, shares, disk, nickname);
    if FileAt(Forest(files), "everything/") {
      OfferedShape(site, shares, disk, nickname);
      WellFormedForest(files);
      var size := LeafIsWhole(Forest(files), "everything/");
      OfferedForest(site, shares, disk, nickname, "everything/", size);
      var i :| 0 <= i < |shares| && ShareHas(site, shares[i], disk, nickname, "everything/", size);
      HasFileBelow(site, shares[i].path, disk[shares[i].path], "everything/", size);
      HasFileIsThere(site, shares[i].path, disk[shares[i].path], "everything/", size);
      assert false;
    }
  }

  lemma HasFileIsThere(site: Site, path: string, fs: Fs, p: string, size: nat)
    requires HasFile(site, path, fs, p, size)
    ensures !fs.Broken?
  {
  }

  /**
   What an honest peer's listing is like when it has been received and cleaned: no directory has a
   file of its own path below it, and every directory's size covers the files that are left in it.
   */
  lemma HonestListing(site: Site, shares: seq<ConfigSharedFile>, disk: map<string, Fs>, nickname: string,
                      valid: string -> bool, g: SharedFile)
    requires Offered(site, shares, disk, nickname).Some? && Proper(shares, disk, nickname)
    requires g in Preorder(Cleaned(valid, Everything(Offered(site, shares, disk, nickname).value)))
    ensures NoOwnFiles(Cleaned(valid, Everything(Offered(site, shares, disk, nickname).value)))
    ensures LeafSum(g) <= g.fileSize
  {
    hide Offered, Proper, Cleaned, Preorder, NoOwnFiles, Exact, Covers;
    var everything := Everything(Offered(site, shares, disk, nickname).value);
    EverythingNoOwn(site, shares, disk, nickname);
    CleaningKeepsNoOwn(valid, everything);
    EverythingShape(site, shares, disk, nickname);
    ExactCovers(everything);
    CleaningKeepsCover(valid, everything);
    CoverEverywhere(Cleaned(valid, everything));
  }

  // ---------------------------------------------------------------- what is served

  /** The serving thread's view of a selection: `name` reads its bytes as UTF-8, `read` is the disk. */
  function Lookup(tree: SharedFile, name: seq<u8> -> string, read: string -> seq<u8>): seq<u8> -> Target {
    (path: seq<u8>) =>
      match GetFileByPath(name(path), tree)
      case None => Missing
      case Some(f) => if f.isDirectory then Directory else Regular(read(name(path)), f.fileSize)
  }

  lemma {:induction false} WellFormedNodes(f: SharedFile)
    requires WellFormed(f)
    ensures forall g :: g in Preorder(f) ==> WellFormed(g)
  {
    WellFormedForest(f.files);
  }

  lemma {:induction false} WellFormedForest(files: seq<SharedFile>)
    requires WellFormedAll(files)
    ensures forall g :: g in Forest(files) ==> WellFormed(g)
  {
    if files == [] {
    } else {
      WellFormedNodes(files[0]);
      WellFormedForest(files[1..]);
    }
  }

  /**
   Refusals: a selection is refused as invalid exactly if no node of the tree has the path, as a
   directory exactly if the first node that has it is one, and is otherwise answered with file frames.
   */
  lemma RefusedExactly(tree: SharedFile, name: seq<u8> -> string, read: string -> seq<u8>, listing: seq<u8>,
                       payload: seq<u8>, lens: seq<nat>)
    requires |payload| >= 8
    ensures var p := name(payload[8..]);
      var r := Reply(listing, Lookup(tree, name, read), MSG_FILE_SELECTION_CONTINUE, payload, lens);
      var first := FirstWith(Preorder(tree), p);
      && r.Some?
      && ((forall g :: g in Preorder(tree) ==> g.path != p) <==> r.value == [Item(MSG_FILE_INVALID_FILE, [])])
      && (first.Some? && first.value.isDirectory <==> r.value == [Item(MSG_CANNOT_SELECT_DIRECTORY, [])])
      && (first.Some? && !first.value.isDirectory
          <==> r.value[0].msg == MSG_FILE_CHUNK || r.value[0].msg == MSG_FILE_FINISHED)
  {
    hide FromBE, FileRead, Preorder, FirstWith;
    var p := name(payload[8..]);
    SearchIsFirstInPreorder(p, tree);
    FirstWithIs(Preorder(tree), p);
  }

  /**
   Served content: whenever an answer to a selection carries a file frame, the selected path is a
   visible file at or below a path that is shared with this very user, and the bytes are a stretch
   of that file from the requested position on.
   */
  lemma ServedContent(site: Site, shares: seq<ConfigSharedFile>, disk: map<string, Fs>, nickname: string,
                      name: seq<u8> -> string, read: string -> seq<u8>, listing: seq<u8>, payload: seq<u8>,
                      lens: seq<nat>)
    returns (size: nat)
    requires Offered(site, shares, disk, nickname).Some?
    requires |payload| >= 8
    ensures var tree := Everything(Offered(site, shares, disk, nickname).value);
      var r := Reply(listing, Lookup(tree, name, read), MSG_FILE_SELECTION_CONTINUE, payload, lens).value;
      var p, pos := name(payload[8..]), FromBE(payload[..8]);
      (r[0].msg == MSG_FILE_CHUNK || r[0].msg == MSG_FILE_FINISHED) ==>
        && SharedWith(site, shares, disk, nickname, p, size)
        && r == FileReply(read(p), size, pos, lens)
        && (pos <= |read(p)| ==>
              && pos + |AllPayload(r)| <= |read(p)|
              && AllPayload(r) == read(p)[pos..pos + |AllPayload(r)|])
  {
    hide Offered, SharedWith, FileReply, FromBE, Preorder;
    var tree := Everything(Offered(site, shares, disk, nickname).value);
    var p, pos := name(payload[8..]), FromBE(payload[..8]);
    size := 0;
    var found := GetFileByPath(p, tree);
    if found.Some? && !found.value.isDirectory {
      var f := found.value;
      size := f.fileSize;
      FoundIsNode(p, tree);
      EverythingShape(site, shares, disk, nickname);
      WellFormedNodes(tree);
      assert WellFormed(f) && f == Leaf(p, size);
      OfferedFiles(site, shares, disk, nickname, p, size);
      FileReplyShape(read(p), size, pos, lens);
    }
  }
}
