/**
 What the operations of src/config.rs do to the configuration, element by element: which shares and
 users they change and how, and what they leave alone.
 */
module ConfigLaws {
  import opened Common
  import Q = QueueFile
  import opened Listings
  import opened Configs

  /** The first of these keys that is this one. */
  ghost predicate First(keys: seq<string>, key: string, i: int) {
    0 <= i < |keys| && keys[i] == key && forall j :: 0 <= j < i ==> keys[j] != key
  }

  lemma FirstIsUnique(keys: seq<string>, key: string)
    ensures key in keys <==> FirstIndex(keys, key) < |keys|
    ensures forall i :: First(keys, key, i) <==> i == FirstIndex(keys, key) < |keys|
  {
  }

  /** This change of the file list, and nothing else. */
  ghost predicate OnlyFiles(c: ConfigFile, n: ConfigFile) {
    n == c.(sharedFiles := n.sharedFiles)
  }

  ghost predicate OnlyUsers(c: ConfigFile, n: ConfigFile) {
    n == c.(sharedUsers := n.sharedUsers)
  }

  /**
   Sharing a file with a user: it fails exactly if there is no user of that name or no file of that
   path, does nothing exactly if the file is shared with the user already, and otherwise adds the name to
   the names of the first file of that path.
   */
  lemma SharesThatFile(p: Platform, c: ConfigFile, nickname: string, path: string)
    ensures var r := Candidate(p, c, AddUserToShared(nickname, path));
      var users, paths := Nicknames(c.sharedUsers), Paths(c.sharedFiles);
      && (r == Err(NoSuchUser) <==> nickname !in users)
      && (r == Err(NoSuchFile) <==> nickname in users && path !in paths)
      && (r.Ok? <==> nickname in users && path in paths)
      && (r.Ok? ==>
        && (r.value.None? <==>
          exists i :: First(paths, path, i) && i < |c.sharedFiles| && nickname in c.sharedFiles[i].sharedWith)
        && (r.value.Some? ==>
          var n := r.value.value;
          && OnlyFiles(c, n) && |n.sharedFiles| == |c.sharedFiles|
          && forall i :: 0 <= i < |c.sharedFiles| ==>
            var f := c.sharedFiles[i];
            n.sharedFiles[i] == if First(paths, path, i) then f.(sharedWith := f.sharedWith + [nickname]) else f))
  {
    hide FirstIndex;
    FirstIsUnique(Nicknames(c.sharedUsers), nickname);
    FirstIsUnique(Paths(c.sharedFiles), path);
  }

  /** Changing a user changes the first one of that name, in what was asked for and nothing else. */
  lemma ChangesThatUser(p: Platform, c: ConfigFile, op: Op)
    requires op.UpdateUser? || op.SetUserIsAllowedState?
    ensures var r := Candidate(p, c, op);
      && (r.Ok? <==> op.nickname in Nicknames(c.sharedUsers)) && (r.Err? ==> r.error.NoSuchUser?)
      && (r.Ok? ==>
        && r.value.Some?
        && var n := r.value.value;
        && OnlyUsers(c, n) && |n.sharedUsers| == |c.sharedUsers|
        && forall i :: 0 <= i < |c.sharedUsers| ==>
          var before, after := c.sharedUsers[i], n.sharedUsers[i];
          if !First(Nicknames(c.sharedUsers), op.nickname, i) then after == before
          else if op.SetUserIsAllowedState? then after == before.(allowed := op.allowed)
          else after == SharedUser(op.nickname, op.publicId, op.ip, op.port, before.allowed))
  {
    hide FirstIndex;
    FirstIsUnique(Nicknames(c.sharedUsers), op.nickname);
  }

  /** A new user comes last, allowed, with what was asked for; a setter sets one thing; all else stays. */
  lemma AddsOrSets(p: Platform, c: ConfigFile, op: Op)
    requires op.AddNewUser? || op.SetPort? || op.SetPathDownloadsDir? || op.SetIgnoreIncoming?
             || op.SetReverseConnection? || op.CreateNewId?
    ensures var r := Candidate(p, c, op);
      && r.Ok? && r.value.Some?
      && var n := r.value.value;
      && n.sharedFiles == c.sharedFiles
      && n.sharedUsers
         == c.sharedUsers + (if op.AddNewUser? then
                               [SharedUser(op.user.nickname, op.user.publicId, op.user.ip, op.user.port, true)]
                             else [])
      && n.sharingPort == (if op.SetPort? then op.port else c.sharingPort)
      && n.pathDownloads == (if op.SetPathDownloadsDir? then op.path else c.pathDownloads)
      && n.ignoreIncoming == (if op.SetIgnoreIncoming? then op.state else c.ignoreIncoming)
      && n.reverseConnection == (if op.SetReverseConnection? then op.state else c.reverseConnection)
      && n.myPrivateId == (if op.CreateNewId? then op.privateId else c.myPrivateId)
  {
    assert c.sharedUsers + [] == c.sharedUsers;
  }

  /** These positions, in their order. */
  ghost predicate Rising(at: seq<nat>, limit: nat) {
    (forall k :: 0 <= k < |at| ==> at[k] < limit) && forall j, k :: 0 <= j < k < |at| ==> at[j] < at[k]
  }

  lemma {:induction false} FilesThatStay(files: seq<ConfigSharedFile>, path: string, from: nat) returns (at: seq<nat>)
    requires from <= |files|
    ensures Rising(at, |files|) && |WithoutFile(files[from..], path)| == |at|
    ensures forall k :: 0 <= k < |at| ==> from <= at[k] && WithoutFile(files[from..], path)[k] == files[at[k]]
    ensures forall i :: from <= i < |files| ==> (i in at <==> files[i].path != path)
    decreases |files| - from
  {
    if from == |files| {
      at := [];
    } else {
      assert files[from..][1..] == files[from + 1..];
      var rest := FilesThatStay(files, path, from + 1);
      at := if files[from].path == path then rest else [from] + rest;
    }
  }

  /** Giving up a share keeps exactly the files of other paths, in their order. */
  lemma RemovesThatFile(p: Platform, c: ConfigFile, path: string) returns (at: seq<nat>)
    ensures var r := Candidate(p, c, RemoveFileFromSharing(path));
      && r.Ok? && r.value.Some?
      && var n := r.value.value;
      && OnlyFiles(c, n) && Rising(at, |c.sharedFiles|) && |n.sharedFiles| == |at|
      && (forall k :: 0 <= k < |at| ==> n.sharedFiles[k] == c.sharedFiles[at[k]])
      && (forall i :: 0 <= i < |c.sharedFiles| ==> (i in at <==> c.sharedFiles[i].path != path))
  {
    at := FilesThatStay(c.sharedFiles, path, 0);
    assert c.sharedFiles[0..] == c.sharedFiles;
  }

  /** These names without this one, as often as before. */
  ghost predicate OthersOf(names: seq<string>, nickname: string, left: seq<string>) {
    multiset(left) == multiset(names)[nickname := 0]
  }

  lemma {:induction false} WithoutCounts(names: seq<string>, nickname: string)
    ensures OthersOf(names, nickname, Without(names, nickname))
  {
    if names != [] {
      WithoutCounts(names[1..], nickname);
      assert names == [names[0]] + names[1..];
    }
  }

  lemma {:induction false} WithoutUserCounts(users: seq<SharedUser>, nickname: string, u: SharedUser)
    ensures multiset(WithoutUser(users, nickname))[u] == if u.nickname == nickname then 0 else multiset(users)[u]
  {
    if users != [] {
      WithoutUserCounts(users[1..], nickname, u);
      assert users == [users[0]] + users[1..];
    }
  }

  /** This name is taken off the files of this path, or off all of them, and off no others. */
  ghost predicate TakenOff(before: seq<ConfigSharedFile>, after: seq<ConfigSharedFile>, nickname: string,
                           path: Option<string>) {
    && |after| == |before|
    && forall i :: 0 <= i < |before| ==>
      && after[i].path == before[i].path
      && if path.None? || before[i].path == path.value then
           OthersOf(before[i].sharedWith, nickname, after[i].sharedWith)
         else
           after[i].sharedWith == before[i].sharedWith
  }

  lemma UnsharedIsTakenOff(files: seq<ConfigSharedFile>, nickname: string, path: Option<string>)
    ensures TakenOff(files, Unshared(files, nickname, path), nickname, path)
  {
    hide OthersOf, Without;
    forall i | 0 <= i < |files|
      ensures OthersOf(files[i].sharedWith, nickname, Without(files[i].sharedWith, nickname))
    {
      WithoutCounts(files[i].sharedWith, nickname);
    }
  }

  /**
   Taking a user off a share leaves every other user on it and every other share alone; removing a user
   takes him off every share and leaves every user of another name.
   */
  lemma TakesOffThatUser(p: Platform, c: ConfigFile, nickname: string, path: string)
    ensures var r := Candidate(p, c, RemoveUserFromSharing(nickname, path));
      && r.Ok? && r.value.Some? && OnlyFiles(c, r.value.value)
      && TakenOff(c.sharedFiles, r.value.value.sharedFiles, nickname, Some(path))
    ensures var r := Candidate(p, c, RemoveUser(nickname));
      && r.Ok? && r.value.Some?
      && var n := r.value.value;
      && n == c.(sharedFiles := n.sharedFiles, sharedUsers := n.sharedUsers)
      && TakenOff(c.sharedFiles, n.sharedFiles, nickname, None)
      && forall u :: multiset(n.sharedUsers)[u] == if u.nickname == nickname then 0 else multiset(c.sharedUsers)[u]
  {
    hide TakenOff, Unshared, WithoutUser;
    UnsharedIsTakenOff(c.sharedFiles, nickname, Some(path));
    UnsharedIsTakenOff(c.sharedFiles, nickname, None);
    forall u
      ensures multiset(WithoutUser(c.sharedUsers, nickname))[u]
        == if u.nickname == nickname then 0 else multiset(c.sharedUsers)[u]
    {
      WithoutUserCounts(c.sharedUsers, nickname, u);
    }
  }

  /** The path as it is kept: without the `file://` in front of it, and on windows with backslashes only. */
  ghost predicate KeptAs(p: Platform, raw: string, path: string) {
    var from := if |raw| >= 7 && raw[..7] == "file://" then 7 else 0;
    && |path| == |raw| - from
    && forall i :: 0 <= i < |path| ==> path[i] == if p.windows && raw[from + i] == '/' then '\\' else raw[from + i]
  }

  lemma NormalizedIsKept(p: Platform, raw: string)
    ensures KeptAs(p, raw, Normalized(p, raw))
  {
    if |raw| >= 7 {
      assert (FILE_PREFIX <= raw) <==> raw[..7] == FILE_PREFIX;
    }
  }

  /** One new share, with nobody, for each of these positions among the files that are added. */
  ghost predicate Adds(p: Platform, shared: seq<ConfigSharedFile>, files: seq<string>, at: seq<nat>,
                       n: seq<ConfigSharedFile>) {
    && |n| == |shared| + |at| && shared <= n
    && forall k :: 0 <= k < |at| ==>
      at[k] < |files| && n[|shared| + k] == ConfigSharedFile(Normalized(p, files[at[k]]), [])
  }

  /** The positions below m of the files that are not shared yet. */
  ghost predicate News(p: Platform, shared: seq<ConfigSharedFile>, files: seq<string>, at: seq<nat>, m: nat) {
    && Rising(at, m) && m <= |files|
    && forall i :: 0 <= i < m ==> (i in at <==> Normalized(p, files[i]) !in Paths(shared))
  }

  lemma NewsOn(p: Platform, shared: seq<ConfigSharedFile>, files: seq<string>, at: seq<nat>, m: nat)
    requires News(p, shared, files, at, m) && m < |files|
    ensures Normalized(p, files[m]) in Paths(shared) ==> News(p, shared, files, at, m + 1)
    ensures Normalized(p, files[m]) !in Paths(shared) ==> News(p, shared, files, at + [m], m + 1)
  {
    hide Normalized, Paths;
    assert m !in at;
    assert forall i :: i in at + [m] <==> i in at || i == m;
  }

  lemma {:induction false} AddedFiles(p: Platform, shared: seq<ConfigSharedFile>, files: seq<string>, m: nat)
    returns (at: seq<nat>)
    requires m <= |files|
    ensures News(p, shared, files, at, m) && Adds(p, shared, files, at, WithFiles(p, shared, files[..m]))
    decreases m
  {
    hide Normalized, Paths, News;
    if m == 0 {
      at := [];
      assert News(p, shared, files, at, 0) by { NoNews(p, shared, files); }
    } else {
      assert files[..m][..m - 1] == files[..m - 1];
      at := AddedFiles(p, shared, files, m - 1);
      NewsOn(p, shared, files, at, m - 1);
      if Normalized(p, files[m - 1]) !in Paths(shared) {
        at := at + [m - 1];
      }
    }
  }

  lemma NoNews(p: Platform, shared: seq<ConfigSharedFile>, files: seq<string>)
    ensures News(p, shared, files, [], 0)
  {
  }

  /**
   Sharing files appends one share for each file that is not shared yet, in their order, under its
   normalized path and with nobody.
   */
  lemma SharesNewFiles(p: Platform, c: ConfigFile, files: seq<string>) returns (at: seq<nat>)
    ensures var r := Candidate(p, c, AddFiles(files));
      && r.Ok? && r.value.Some? && OnlyFiles(c, r.value.value) && Rising(at, |files|)
      && Adds(p, c.sharedFiles, files, at, r.value.value.sharedFiles)
    ensures forall i :: 0 <= i < |files| ==>
      KeptAs(p, files[i], Normalized(p, files[i])) && (i in at <==> Normalized(p, files[i]) !in Paths(c.sharedFiles))
  {
    hide Normalized, WithFiles, KeptAs, Paths, Adds;
    at := AddedFiles(p, c.sharedFiles, files, |files|);
    assert files[..|files|] == files;
    forall i | 0 <= i < |files|
      ensures KeptAs(p, files[i], Normalized(p, files[i]))
    {
      NormalizedIsKept(p, files[i]);
    }
  }

  /**
   Sanitation, element by element: a share keeps its place under its normalized path, with the trimmed
   names of its users in order; the users are those that were there, trimmed; the switches stay.
   */
  lemma SanitizedElements(p: Platform, c: ConfigFile)
    ensures var n := Sanitize(p, c);
      && n.ignoreIncoming == c.ignoreIncoming && n.reverseConnection == c.reverseConnection
      && |n.sharedFiles| == |c.sharedFiles|
      && (forall i :: 0 <= i < |c.sharedFiles| ==>
            && KeptAs(p, Q.Trim(c.sharedFiles[i].path), n.sharedFiles[i].path)
            && multiset(n.sharedFiles[i].sharedWith) == multiset(Map(Q.Trim, c.sharedFiles[i].sharedWith))
            && Sorted(n.sharedFiles[i].sharedWith, Itself))
      && multiset(n.sharedUsers) == multiset(Map(TrimUser, c.sharedUsers))
  {
    hide Q.Trim, Normalized, Sort, KeptAs, TrimUser, Sorted;
    forall i | 0 <= i < |c.sharedFiles|
      ensures KeptAs(p, Q.Trim(c.sharedFiles[i].path), CleanFile(p, c.sharedFiles[i]).path)
      ensures multiset(CleanFile(p, c.sharedFiles[i]).sharedWith) == multiset(Map(Q.Trim, c.sharedFiles[i].sharedWith))
      ensures Sorted(CleanFile(p, c.sharedFiles[i]).sharedWith, Itself)
    {
      NormalizedIsKept(p, Q.Trim(c.sharedFiles[i].path));
      SortSorts(Map(Q.Trim, c.sharedFiles[i].sharedWith), Itself);
    }
    SortedElements(TrimUser, c.sharedUsers);
  }

  lemma {:induction false} InsertedElements(f: SharedUser -> SharedUser, x: SharedUser, s: seq<SharedUser>)
    ensures multiset(Map(f, Insert(x, s, ByNickname))) == multiset(Map(f, s)) + multiset{f(x)}
  {
    hide Map, Le;
    if s == [] || Le(ByNickname(x), ByNickname(s[0])) {
      MapCons(f, x, s);
    } else {
      InsertedElements(f, x, s[1..]);
      assert s == [s[0]] + s[1..];
      MapCons(f, s[0], s[1..]);
      MapCons(f, s[0], Insert(x, s[1..], ByNickname));
    }
  }

  lemma {:induction false} SortedElements(f: SharedUser -> SharedUser, s: seq<SharedUser>)
    ensures multiset(Map(f, Sort(s, ByNickname))) == multiset(Map(f, s))
  {
    hide Map, Insert;
    if s != [] {
      SortedElements(f, s[1..]);
      assert s == [s[0]] + s[1..];
      MapCons(f, s[0], s[1..]);
      InsertedElements(f, s[0], Sort(s[1..], ByNickname));
    }
  }

  /** A port that is written as a number is accepted exactly up to 65535. */
  lemma PortsUpTo65535(n: nat)
    ensures PortOk(Q.PrintNat(n)) <==> n <= 65535
  {
    Q.PrintNatValue(n);
    assert Q.IsDigit(Q.PrintNat(n)[0]);
  }
}
