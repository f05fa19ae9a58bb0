/**
 src/config.rs: the configuration, its sanitation and validation, and the operations on it. Every
 operation works on a copy, which replaces the configuration only once it is sanitized, validated
 and written.
 */
module Configs {
  import opened Common
  import opened CoreConsts
  import opened QueueFile
  import opened Listings

  datatype SharedUser = SharedUser(nickname: string, publicId: string, ip: string, port: string, allowed: bool)

  datatype ConfigFile = ConfigFile(myPrivateId: string, sharedUsers: seq<SharedUser>,
                                   sharedFiles: seq<ConfigSharedFile>, sharingPort: string, ignoreIncoming: bool,
                                   reverseConnection: bool, pathDownloads: string)

  /**
   What the platform and its libraries decide: `to_lowercase`, whether a private or public id is
   well formed, `file_contains_only_valid_chars`, and where the configuration is kept.
   */
  datatype Platform = Platform(lower: string -> string, privateIdOk: string -> bool, publicIdOk: string -> bool,
                               pathOk: string -> bool, configDir: string, windows: bool)

  // ---------------------------------------------------------------- sorting

  /** Strings in the order of their characters. */
  predicate Le(a: string, b: string) {
    a == "" || (b != "" && (a[0] < b[0] || (a[0] == b[0] && Le(a[1..], b[1..]))))
  }

  lemma {:induction false} LeTotal(a: string, b: string)
    ensures Le(a, b) || Le(b, a)
  {
    if a != "" && b != "" {
      LeTotal(a[1..], b[1..]);
    }
  }

  lemma {:induction false} LeTransitive(a: string, b: string, c: string)
    requires Le(a, b) && Le(b, c)
    ensures Le(a, c)
  {
    if a != "" && a[0] == b[0] == c[0] {
      LeTransitive(a[1..], b[1..], c[1..]);
    }
  }

  function Insert<T>(x: T, s: seq<T>, key: T -> string): seq<T> {
    if s == [] || Le(key(x), key(s[0])) then [x] + s else [s[0]] + Insert(x, s[1..], key)
  }

  /** A stable sort: `sort_by_key`, and `sort` with the identity as key. */
  function Sort<T>(s: seq<T>, key: T -> string): seq<T> {
    if s == [] then [] else Insert(s[0], Sort(s[1..], key), key)
  }

  ghost predicate Sorted<T>(s: seq<T>, key: T -> string) {
    forall i, j :: 0 <= i < j < |s| ==> Le(key(s[i]), key(s[j]))
  }

  /** What is in order stays as it is. */
  lemma {:induction false} SortFixes<T>(s: seq<T>, key: T -> string)
    requires Sorted(s, key)
    ensures Sort(s, key) == s
  {
    if s != [] {
      SortFixes(s[1..], key);
      assert |s| > 1 ==> Le(key(s[0]), key(s[1]));
    }
  }

  lemma {:induction false} InsertSorts<T>(x: T, s: seq<T>, key: T -> string)
    requires Sorted(s, key)
    ensures Sorted(Insert(x, s, key), key)
    ensures multiset(Insert(x, s, key)) == multiset(s) + multiset{x}
  {
    hide Le;
    var r := Insert(x, s, key);
    if s == [] {
    } else if Le(key(x), key(s[0])) {
      forall j | 0 < j < |r|
        ensures Le(key(x), key(r[j]))
      {
        if j > 1 {
          LeTransitive(key(x), key(s[0]), key(s[j - 1]));
        }
      }
    } else {
      LeTotal(key(x), key(s[0]));
      InsertSorts(x, s[1..], key);
      assert s == [s[0]] + s[1..];
      forall j | 0 < j < |r|
        ensures Le(key(s[0]), key(r[j]))
      {
        assert r[j] in multiset(Insert(x, s[1..], key));
        assert r[j] == x || r[j] in s[1..];
      }
    }
  }

  lemma {:induction false} SortSorts<T>(s: seq<T>, key: T -> string)
    ensures Sorted(Sort(s, key), key)
    ensures multiset(Sort(s, key)) == multiset(s)
  {
    hide Le, Insert;
    if s != [] {
      SortSorts(s[1..], key);
      InsertSorts(s[0], Sort(s[1..], key), key);
      assert s == [s[0]] + s[1..];
    }
  }

  /** Sorting by one key neither repeats nor loses another. */
  lemma {:induction false} InsertDistinct<T>(x: T, s: seq<T>, key: T -> string, id: T -> string)
    ensures forall y :: y in Map(id, Insert(x, s, key)) <==> y == id(x) || y in Map(id, s)
    ensures NoDup(Map(id, s)) && id(x) !in Map(id, s) ==> NoDup(Map(id, Insert(x, s, key)))
  {
    hide NoDup, Map, Le;
    if s == [] || Le(key(x), key(s[0])) {
      MapCons(id, x, s);
      if NoDup(Map(id, s)) && id(x) !in Map(id, s) {
        NoDupCons(id(x), Map(id, s));
      }
    } else {
      var rest := Insert(x, s[1..], key);
      InsertDistinct(x, s[1..], key, id);
      assert s == [s[0]] + s[1..];
      MapCons(id, s[0], s[1..]);
      MapCons(id, s[0], rest);
      if NoDup(Map(id, s)) && id(x) !in Map(id, s) {
        NoDupTail(Map(id, s));
        assert Map(id, s)[1..] == Map(id, s[1..]);
        NoDupCons(id(s[0]), Map(id, rest));
      }
    }
  }

  lemma {:induction false} SortDistinct<T>(s: seq<T>, key: T -> string, id: T -> string)
    ensures forall y :: y in Map(id, Sort(s, key)) <==> y in Map(id, s)
    ensures NoDup(Map(id, s)) ==> NoDup(Map(id, Sort(s, key)))
  {
    hide NoDup, Map, Insert;
    if s != [] {
      SortDistinct(s[1..], key, id);
      InsertDistinct(s[0], Sort(s[1..], key), key, id);
      assert s == [s[0]] + s[1..];
      MapCons(id, s[0], s[1..]);
      if NoDup(Map(id, s)) {
        NoDupTail(Map(id, s));
        assert Map(id, s)[1..] == Map(id, s[1..]);
      }
    }
  }

  lemma NoDupCons<T>(x: T, s: seq<T>)
    requires NoDup(s) && x !in s
    ensures NoDup([x] + s)
  {
  }

  lemma NoDupTail<T>(s: seq<T>)
    requires NoDup(s) && s != []
    ensures NoDup(s[1..]) && s[0] !in s[1..]
  {
  }

  lemma MapCons<T, U>(f: T -> U, x: T, s: seq<T>)
    ensures Map(f, [x] + s) == [f(x)] + Map(f, s)
  {
  }

  function Map<T, U>(f: T -> U, s: seq<T>): (r: seq<U>)
    ensures |r| == |s| && forall i :: 0 <= i < |s| ==> r[i] == f(s[i])
  {
    seq(|s|, i requires 0 <= i < |s| => f(s[i]))
  }

  // ---------------------------------------------------------------- sanitation

  function TrimUser(u: SharedUser): SharedUser {
    u.(nickname := Trim(u.nickname), publicId := Trim(u.publicId), ip := Trim(u.ip), port := Trim(u.port))
  }

  const FILE_PREFIX := "file://"

  function Slashes(p: Platform, path: string): string {
    if p.windows then Map(c => if c == '/' then '\\' else c, path) else path
  }

  /** Strip one `file://`, and on windows turn slashes into backslashes. */
  function Normalized(p: Platform, path: string): string {
    Slashes(p, if FILE_PREFIX <= path then path[|FILE_PREFIX|..] else path)
  }

  const ByNickname := (u: SharedUser) => u.nickname
  const Itself := (s: string) => s

  function CleanFile(p: Platform, f: ConfigSharedFile): ConfigSharedFile {
    ConfigSharedFile(Normalized(p, Trim(f.path)), Sort(Map(Trim, f.sharedWith), Itself))
  }

  /** `sanitize_config`: users are sorted before they are trimmed. */
  function Sanitize(p: Platform, c: ConfigFile): ConfigFile {
    c.(myPrivateId := Trim(c.myPrivateId), sharingPort := Trim(c.sharingPort), pathDownloads := Trim(c.pathDownloads),
       sharedUsers := Map(TrimUser, Sort(c.sharedUsers, ByNickname)),
       sharedFiles := Map(f => CleanFile(p, f), c.sharedFiles))
  }

  /** Everything but the shared paths is trimmed. */
  ghost predicate Settled(c: ConfigFile) {
    && Trim(c.myPrivateId) == c.myPrivateId && Trim(c.sharingPort) == c.sharingPort
    && Trim(c.pathDownloads) == c.pathDownloads
    && (forall i :: 0 <= i < |c.sharedUsers| ==> TrimUser(c.sharedUsers[i]) == c.sharedUsers[i])
    && (forall i :: 0 <= i < |c.sharedFiles| ==> NamesSettled(c.sharedFiles[i]))
  }

  ghost predicate NamesSettled(f: ConfigSharedFile) {
    forall i :: 0 <= i < |f.sharedWith| ==> Trim(f.sharedWith[i]) == f.sharedWith[i]
  }

  lemma {:induction false} TrimTwice(s: string)
    ensures Trim(Trim(s)) == Trim(s)
  {
    var t := TrimEnd(TrimStart(s));
    if t != "" {
      assert t[0] == TrimStart(s)[0];
      TrimNothing(t);
    }
  }

  /** Whatever is sanitized is settled: so is every configuration that the program ever holds. */
  lemma SanitizeSettles(p: Platform, c: ConfigFile)
    ensures Settled(Sanitize(p, c))
  {
    hide Trim, Normalized, Sort, NamesSettled, CleanFile;
    TrimTwice(c.myPrivateId);
    TrimTwice(c.sharingPort);
    TrimTwice(c.pathDownloads);
    var users := Sort(c.sharedUsers, ByNickname);
    forall i | 0 <= i < |users|
      ensures TrimUser(TrimUser(users[i])) == TrimUser(users[i])
    {
      TrimTwice(users[i].nickname);
      TrimTwice(users[i].publicId);
      TrimTwice(users[i].ip);
      TrimTwice(users[i].port);
    }
    forall i | 0 <= i < |c.sharedFiles|
      ensures NamesSettled(CleanFile(p, c.sharedFiles[i]))
    {
      CleanFileSettles(p, c.sharedFiles[i]);
    }
  }

  lemma CleanFileSettles(p: Platform, f: ConfigSharedFile)
    ensures NamesSettled(CleanFile(p, f))
  {
    hide Trim, Normalized, Sort;
    var names := Map(Trim, f.sharedWith);
    var sorted := Sort(names, Itself);
    SortSorts(names, Itself);
    forall i | 0 <= i < |sorted|
      ensures Trim(sorted[i]) == sorted[i]
    {
      assert sorted[i] in multiset(names);
      var j :| 0 <= j < |names| && names[j] == sorted[i];
      TrimTwice(f.sharedWith[j]);
    }
  }

  // ---------------------------------------------------------------- validation

  /** `parse::<i32>`. */
  function ParseI32(s: string): Option<int> {
    var signed := s != "" && (s[0] == '+' || s[0] == '-');
    var digits := if signed then s[1..] else s;
    if digits == "" || exists i :: 0 <= i < |digits| && !IsDigit(digits[i]) then None
    else
      var v: int := DigitsValue(digits);
      var n := if signed && s[0] == '-' then -v else v;
      if -0x8000_0000 <= n < 0x8000_0000 then Some(n) else None
  }

  /** `verify_config_port`: there is no lower bound. */
  predicate PortOk(port: string) {
    ParseI32(port).Some? && ParseI32(port).value <= 65535
  }

  const BLOCKED_PATH_CHARS := "*?\"<>|"
  const BLOCKED_NAME_CHARS := BLOCKED_PATH_CHARS + "\\:/"
  const BLOCKED_USER_CHARS := BLOCKED_NAME_CHARS + ".{}"

  predicate Has(s: string, chars: string) {
    exists i :: 0 <= i < |s| && s[i] in chars
  }

  predicate UserOk(p: Platform, u: SharedUser) {
    && u.nickname != "" && !Has(u.nickname, BLOCKED_USER_CHARS) && !Contains(p.lower(u.nickname), "transmitic")
    && u.port != "" && PortOk(u.port)
    && u.publicId != "" && p.publicIdOk(u.publicId)
    && u.ip != ""
  }

  predicate FileOk(p: Platform, f: ConfigSharedFile) {
    !(p.configDir <= f.path) && !Has(f.path, BLOCKED_PATH_CHARS) && p.pathOk(f.path)
  }

  function Nicknames(users: seq<SharedUser>): seq<string> {
    Map((u: SharedUser) => u.nickname, users)
  }

  function LowerNicknames(p: Platform, users: seq<SharedUser>): seq<string> {
    Map((u: SharedUser) => p.lower(u.nickname), users)
  }

  function PublicIds(users: seq<SharedUser>): seq<string> {
    Map((u: SharedUser) => u.publicId, users)
  }

  function Paths(files: seq<ConfigSharedFile>): seq<string> {
    Map((f: ConfigSharedFile) => f.path, files)
  }

  ghost predicate UsersOk(p: Platform, users: seq<SharedUser>) {
    && NoDup(LowerNicknames(p, users)) && NoDup(PublicIds(users))
    && forall i :: 0 <= i < |users| ==> UserOk(p, users[i])
  }

  ghost predicate Known(nicknames: seq<string>, f: ConfigSharedFile) {
    forall i :: 0 <= i < |f.sharedWith| ==> f.sharedWith[i] in nicknames
  }

  ghost predicate FilesOk(p: Platform, users: seq<SharedUser>, files: seq<ConfigSharedFile>) {
    && NoDup(Paths(files))
    && (forall i :: 0 <= i < |files| ==> Known(Nicknames(users), files[i]))
    && (forall i :: 0 <= i < |files| ==> FileOk(p, files[i]))
  }

  /**
   What validation stands for: nicknames are distinct ignoring case, public ids and shared paths are
   distinct, everything is shared with existing users only, and connections are not both ignored and
   reversed.
   */
  ghost predicate ConfigOk(p: Platform, c: ConfigFile) {
    && PortOk(c.sharingPort) && p.privateIdOk(c.myPrivateId)
    && UsersOk(p, c.sharedUsers) && FilesOk(p, c.sharedUsers, c.sharedFiles)
    && !(c.ignoreIncoming && c.reverseConnection)
  }

  datatype Refusal =
    | RepeatedNickname(nickname: string, times: nat)
    | RepeatedPublicId(publicId: string, times: nat)
    | RepeatedFile(path: string, times: nat)
    | BadUser(nickname: string)
    | UnknownUser(path: string, nickname: string)
    | BadFile(path: string)
    | BadPort
    | BadPrivateId
    | IgnoreAndReverse
    | NoSuchUser
    | NoSuchFile
    | WriteFailed

  function Count(keys: seq<string>, key: string): nat {
    if keys == [] then 0 else Count(keys[..|keys| - 1], key) + if keys[|keys| - 1] == key then 1 else 0
  }

  lemma {:induction false} CountPositive(keys: seq<string>, i: nat)
    requires i < |keys|
    ensures Count(keys, keys[i]) >= 1
  {
    if i < |keys| - 1 {
      CountPositive(keys[..|keys| - 1], i);
    }
  }

  lemma {:induction false} CountTwice(keys: seq<string>, i: nat, j: nat)
    requires i < j < |keys| && keys[i] == keys[j]
    ensures Count(keys, keys[i]) >= 2
  {
    var init := keys[..|keys| - 1];
    if j < |keys| - 1 {
      CountTwice(init, i, j);
    } else {
      CountPositive(init, i);
    }
  }

  lemma {:induction false} CountOnce(keys: seq<string>, key: string)
    requires NoDup(keys)
    ensures Count(keys, key) <= 1
    ensures key !in keys ==> Count(keys, key) == 0
  {
    if keys != [] {
      var init := keys[..|keys| - 1];
      CountOnce(init, key);
      if keys[|keys| - 1] == key {
        assert key !in init;
      }
    }
  }

  /** Counting every key finds exactly the duplicates. */
  lemma CountsFindDuplicates(keys: seq<string>)
    ensures NoDup(keys) <==> forall i :: 0 <= i < |keys| ==> Count(keys, keys[i]) <= 1
  {
    if NoDup(keys) {
      forall i | 0 <= i < |keys|
        ensures Count(keys, keys[i]) <= 1
      {
        CountOnce(keys, keys[i]);
      }
    }
    if forall i :: 0 <= i < |keys| ==> Count(keys, keys[i]) <= 1 {
      forall i, j | 0 <= i < j < |keys|
        ensures keys[i] != keys[j]
      {
        if keys[i] == keys[j] {
          CountTwice(keys, i, j);
        }
      }
    }
  }

  /** The inner loop of the duplicate checks. */
  method CountKey(keys: seq<string>, key: string) returns (n: nat)
    ensures n == Count(keys, key)
  {
    n := 0;
    var j := 0;
    while j < |keys|
      invariant 0 <= j <= |keys| && n == Count(keys[..j], key)
    {
      assert keys[..j + 1][..j] == keys[..j];
      if keys[j] == key {
        n := n + 1;
      }
      j := j + 1;
    }
    assert keys[..j] == keys;
  }

  method VerifyConfigSharedUsers(p: Platform, users: seq<SharedUser>) returns (r: Result<(), Refusal>)
    ensures r.Ok? <==> UsersOk(p, users)
    ensures r.Err? && r.error.RepeatedNickname? ==>
      r.error.times == Count(LowerNicknames(p, users), p.lower(r.error.nickname)) > 1
    ensures r.Err? && r.error.RepeatedPublicId? ==> r.error.times == Count(PublicIds(users), r.error.publicId) > 1
  {
    hide UserOk, Count, NoDup;
    var names, ids := LowerNicknames(p, users), PublicIds(users);
    CountsFindDuplicates(names);
    CountsFindDuplicates(ids);
    var i := 0;
    while i < |users|
      invariant 0 <= i <= |users|
      invariant forall k :: 0 <= k < i ==> Count(names, names[k]) <= 1 && Count(ids, ids[k]) <= 1
    {
      var userCount := CountKey(names, names[i]);
      var publicIdCount := CountKey(ids, ids[i]);
      if userCount > 1 {
        return Err(RepeatedNickname(users[i].nickname, userCount));
      }
      if publicIdCount > 1 {
        return Err(RepeatedPublicId(users[i].publicId, publicIdCount));
      }
      i := i + 1;
    }
    i := 0;
    while i < |users|
      invariant 0 <= i <= |users|
      invariant forall k :: 0 <= k < i ==> UserOk(p, users[k])
    {
      if !UserOk(p, users[i]) {
        return Err(BadUser(users[i].nickname));
      }
      i := i + 1;
    }
    return Ok(());
  }

  method VerifyConfigSharedFiles(p: Platform, users: seq<SharedUser>, files: seq<ConfigSharedFile>)
    returns (r: Result<(), Refusal>)
    ensures r.Ok? <==> FilesOk(p, users, files)
    ensures r.Err? && r.error.RepeatedFile? ==> r.error.times == Count(Paths(files), r.error.path) > 1
  {
    hide FileOk, Count, NoDup, Known;
    var paths := Paths(files);
    CountsFindDuplicates(paths);
    var i := 0;
    while i < |files|
      invariant 0 <= i <= |files|
      invariant forall k :: 0 <= k < i ==> Count(paths, paths[k]) <= 1
    {
      var fileCount := CountKey(paths, files[i].path);
      if fileCount > 1 {
        return Err(RepeatedFile(files[i].path, fileCount));
      }
      i := i + 1;
    }
    var nicknames := Nicknames(users);
    i := 0;
    while i < |files|
      invariant 0 <= i <= |files|
      invariant forall k :: 0 <= k < i ==> Known(nicknames, files[k])
    {
      r := VerifySharedWith(nicknames, files[i]);
      if r.Err? {
        return r;
      }
      i := i + 1;
    }
    i := 0;
    while i < |files|
      invariant 0 <= i <= |files|
      invariant forall k :: 0 <= k < i ==> FileOk(p, files[k])
    {
      if !FileOk(p, files[i]) {
        return Err(BadFile(files[i].path));
      }
      i := i + 1;
    }
    return Ok(());
  }

  method VerifySharedWith(nicknames: seq<string>, f: ConfigSharedFile) returns (r: Result<(), Refusal>)
    ensures r.Ok? <==> Known(nicknames, f)
    ensures r.Err? ==> r.error.UnknownUser?
  {
    var i := 0;
    while i < |f.sharedWith|
      invariant 0 <= i <= |f.sharedWith|
      invariant forall k :: 0 <= k < i ==> f.sharedWith[k] in nicknames
    {
      if f.sharedWith[i] !in nicknames {
        return Err(UnknownUser(f.path, f.sharedWith[i]));
      }
      i := i + 1;
    }
    return Ok(());
  }

  /** `verify_config`, after the sanitation. */
  method VerifyConfig(p: Platform, c: ConfigFile) returns (r: Result<(), Refusal>)
    ensures r.Ok? <==> ConfigOk(p, c)
  {
    hide UsersOk, FilesOk, PortOk;
    if !PortOk(c.sharingPort) {
      return Err(BadPort);
    }
    if !p.privateIdOk(c.myPrivateId) {
      return Err(BadPrivateId);
    }
    r := VerifyConfigSharedUsers(p, c.sharedUsers);
    if r.Err? {
      return r;
    }
    r := VerifyConfigSharedFiles(p, c.sharedUsers, c.sharedFiles);
    if r.Err? {
      return r;
    }
    if c.ignoreIncoming && c.reverseConnection {
      return Err(IgnoreAndReverse);
    }
    return Ok(());
  }

  // ---------------------------------------------------------------- operations

  datatype Op =
    | AddFiles(files: seq<string>)
    | AddNewUser(user: SharedUser)
    | AddUserToShared(nickname: string, path: string)
    | RemoveFileFromSharing(path: string)
    | RemoveUserFromSharing(nickname: string, path: string)
    | RemoveUser(nickname: string)
    | SetPort(port: string)
    | SetPathDownloadsDir(path: string)
    | SetIgnoreIncoming(state: bool)
    | SetReverseConnection(state: bool)
    | SetUserIsAllowedState(nickname: string, allowed: bool)
    | UpdateUser(nickname: string, publicId: string, ip: string, port: string)
    | CreateNewId(privateId: string)

  /** The new shares at the end of the list; a path that was shared before the call is skipped. */
  function WithFiles(p: Platform, shared: seq<ConfigSharedFile>, files: seq<string>): seq<ConfigSharedFile> {
    if files == [] then shared
    else
      var path := Normalized(p, files[|files| - 1]);
      var before := WithFiles(p, shared, files[..|files| - 1]);
      if path in Paths(shared) then before else before + [ConfigSharedFile(path, [])]
  }

  function Without(names: seq<string>, nickname: string): seq<string> {
    if names == [] then []
    else (if names[0] == nickname then [] else [names[0]]) + Without(names[1..], nickname)
  }

  function WithoutFile(files: seq<ConfigSharedFile>, path: string): seq<ConfigSharedFile> {
    if files == [] then []
    else (if files[0].path == path then [] else [files[0]]) + WithoutFile(files[1..], path)
  }

  function WithoutUser(users: seq<SharedUser>, nickname: string): seq<SharedUser> {
    if users == [] then []
    else (if users[0].nickname == nickname then [] else [users[0]]) + WithoutUser(users[1..], nickname)
  }

  /** Nobody of this name shares the files any more; `path` limits that to one of them. */
  function Unshared(files: seq<ConfigSharedFile>, nickname: string, path: Option<string>): seq<ConfigSharedFile> {
    Map((f: ConfigSharedFile) =>
      if path.None? || f.path == path.value then f.(sharedWith := Without(f.sharedWith, nickname)) else f, files)
  }

  /** The first position of a key, or the number of keys. */
  function FirstIndex(keys: seq<string>, key: string): (k: nat)
    ensures k <= |keys| && (k < |keys| ==> keys[k] == key)
    ensures forall i :: 0 <= i < k ==> keys[i] != key
  {
    if keys == [] || keys[0] == key then 0 else 1 + FirstIndex(keys[1..], key)
  }

  function FirstUser(users: seq<SharedUser>, nickname: string): nat {
    FirstIndex(Nicknames(users), nickname)
  }

  function FirstFile(files: seq<ConfigSharedFile>, path: string): nat {
    FirstIndex(Paths(files), path)
  }

  /** What an operation would write: an error, nothing, or a changed copy. */
  function Candidate(p: Platform, c: ConfigFile, op: Op): Result<Option<ConfigFile>, Refusal> {
    match op
    case AddFiles(files) => Ok(Some(c.(sharedFiles := WithFiles(p, c.sharedFiles, files))))
    case AddNewUser(user) => Ok(Some(c.(sharedUsers := c.sharedUsers + [user.(allowed := true)])))
    case AddUserToShared(nickname, path) =>
      var k := FirstFile(c.sharedFiles, path);
      if FirstUser(c.sharedUsers, nickname) == |c.sharedUsers| then Err(NoSuchUser)
      else if k == |c.sharedFiles| then Err(NoSuchFile)
      else if nickname in c.sharedFiles[k].sharedWith then Ok(None)
      else
        var names := c.sharedFiles[k].sharedWith + [nickname];
        Ok(Some(c.(sharedFiles := c.sharedFiles[k := c.sharedFiles[k].(sharedWith := names)])))
    case RemoveFileFromSharing(path) => Ok(Some(c.(sharedFiles := WithoutFile(c.sharedFiles, path))))
    case RemoveUserFromSharing(nickname, path) =>
      Ok(Some(c.(sharedFiles := Unshared(c.sharedFiles, nickname, Some(path)))))
    case RemoveUser(nickname) =>
      Ok(Some(c.(sharedFiles := Unshared(c.sharedFiles, nickname, None),
                 sharedUsers := WithoutUser(c.sharedUsers, nickname))))
    case SetPort(port) => Ok(Some(c.(sharingPort := port)))
    case SetPathDownloadsDir(path) => Ok(Some(c.(pathDownloads := path)))
    case SetIgnoreIncoming(state) => Ok(Some(c.(ignoreIncoming := state)))
    case SetReverseConnection(state) => Ok(Some(c.(reverseConnection := state)))
    case SetUserIsAllowedState(nickname, allowed) =>
      var k := FirstUser(c.sharedUsers, nickname);
      if k == |c.sharedUsers| then Err(NoSuchUser)
      else Ok(Some(c.(sharedUsers := c.sharedUsers[k := c.sharedUsers[k].(allowed := allowed)])))
    case UpdateUser(nickname, publicId, ip, port) =>
      var k := FirstUser(c.sharedUsers, nickname);
      if k == |c.sharedUsers| then Err(NoSuchUser)
      else
        var user := c.sharedUsers[k].(publicId := publicId, ip := ip, port := port);
        Ok(Some(c.(sharedUsers := c.sharedUsers[k := user])))
    case CreateNewId(privateId) => Ok(Some(c.(myPrivateId := privateId)))
  }

  /** The configuration after an operation, given whether the file could be written. */
  ghost function After(p: Platform, c: ConfigFile, op: Op, written: bool): ConfigFile {
    match Candidate(p, c, op)
    case Ok(Some(n)) => if ConfigOk(p, Sanitize(p, n)) && written then Sanitize(p, n) else c
    case _ => c
  }

  datatype Step = Step(op: Op, written: bool)

  ghost function Run(p: Platform, c: ConfigFile, steps: seq<Step>): ConfigFile
    decreases |steps|
  {
    if steps == [] then c else Run(p, After(p, c, steps[0].op, steps[0].written), steps[1..])
  }

  /**
   Config invariant: over every sequence of operations and failing writes the configuration in memory
   is valid, and settled as sanitation leaves it.
   */
  lemma {:induction false} RunKeeps(p: Platform, c: ConfigFile, steps: seq<Step>)
    requires ConfigOk(p, c) && Settled(c)
    ensures ConfigOk(p, Run(p, c, steps)) && Settled(Run(p, c, steps))
    decreases |steps|
  {
    hide ConfigOk, Candidate, Sanitize, Settled;
    if steps != [] {
      AfterKeeps(p, c, steps[0].op, steps[0].written);
      RunKeeps(p, After(p, c, steps[0].op, steps[0].written), steps[1..]);
    }
  }

  lemma AfterKeeps(p: Platform, c: ConfigFile, op: Op, written: bool)
    requires ConfigOk(p, c) && Settled(c)
    ensures ConfigOk(p, After(p, c, op, written)) && Settled(After(p, c, op, written))
  {
    hide ConfigOk, Candidate, Sanitize, Settled;
    match Candidate(p, c, op) {
      case Ok(Some(n)) => SanitizeSettles(p, n);
      case _ =>
    }
  }

  lemma {:induction false} RunSnoc(p: Platform, c: ConfigFile, steps: seq<Step>, step: Step)
    ensures Run(p, c, steps + [step]) == After(p, Run(p, c, steps), step.op, step.written)
    decreases |steps|
  {
    hide After;
    if steps == [] {
      assert steps + [step] == [step];
      assert [step][1..] == [];
    } else {
      assert (steps + [step])[1..] == steps[1..] + [step];
      RunSnoc(p, After(p, c, steps[0].op, steps[0].written), steps[1..], step);
    }
  }

  class Config {
    const platform: Platform
    var configFile: ConfigFile
    var password: Option<string>
    var nonce: nat
    /** Whether the successive writes of the file succeed, and the last configuration that was written. */
    var writes: seq<bool>
    var saved: ConfigFile

    ghost predicate Valid()
      reads this
    {
      ConfigOk(platform, configFile) && Settled(configFile) && saved == configFile && nonce <= NONCE_MAX
    }

    function Writable(): bool
      reads this`writes
    {
      writes != [] && writes[0]
    }

    /** `Config::new`, for a file that was read; what is read is validated in its sanitized form. */
    constructor (platform: Platform, file: ConfigFile, password: Option<string>, nonce: nat, writes: seq<bool>)
      requires ConfigOk(platform, Sanitize(platform, file)) && nonce <= NONCE_MAX
      ensures Valid() && this.platform == platform && configFile == Sanitize(platform, file)
      ensures this.password == password && this.nonce == nonce && this.writes == writes
    {
      this.platform := platform;
      this.configFile := Sanitize(platform, file);
      this.password := password;
      this.nonce := nonce;
      this.writes := writes;
      this.saved := Sanitize(platform, file);
      SanitizeSettles(platform, file);
    }

    /** `write_and_set_config`: nothing but the nonce changes unless everything succeeds. */
    method WriteAndSetConfig(n: ConfigFile) returns (r: Result<(), Refusal>)
      requires Valid()
      modifies this`configFile, this`nonce, this`writes, this`saved
      ensures Valid()
      ensures r.Ok? <==> ConfigOk(platform, Sanitize(platform, n)) && old(Writable())
      ensures configFile == if r.Ok? then Sanitize(platform, n) else old(configFile)
      ensures nonce == if password.None? then old(nonce) else if old(nonce) >= NONCE_MAX then 0 else old(nonce) + 1
    {
      hide ConfigOk, Sanitize, Settled;
      SanitizeSettles(platform, n);
      if password.Some? {
        if nonce >= NONCE_MAX {
          nonce := 0;
        } else {
          nonce := nonce + 1;
        }
      }
      var c := Sanitize(platform, n);
      r := VerifyConfig(platform, c);
      if r.Err? {
        return r;
      }
      var written := Writable();
      writes := if writes == [] then [] else writes[1..];
      if !written {
        return Err(WriteFailed);
      }
      saved := c;
      configFile := c;
      return Ok(());
    }

    method AddFiles(files: seq<string>) returns (r: Result<(), Refusal>)
      requires Valid()
      modifies this`configFile, this`nonce, this`writes, this`saved
      ensures Valid() && Done(platform, old(configFile), Op.AddFiles(files), old(Writable()), r.Ok?, configFile)
    {
      hide ConfigOk, Sanitize, Settled;
      var existing := Paths(configFile.sharedFiles);
      var shared := configFile.sharedFiles;
      var i := 0;
      while i < |files|
        invariant 0 <= i <= |files|
        invariant shared == WithFiles(platform, configFile.sharedFiles, files[..i])
      {
        assert files[..i + 1][..i] == files[..i];
        var file := files[i];
        if FILE_PREFIX <= file {
          file := file[|FILE_PREFIX|..];
        }
        file := Slashes(platform, file);
        i := i + 1;
        if file in existing {
          continue;
        }
        shared := shared + [ConfigSharedFile(file, [])];
      }
      assert files[..i] == files;
      r := WriteAndSetConfig(configFile.(sharedFiles := shared));
    }

    method AddNewUser(nickname: string, publicId: string, ip: string, port: string) returns (r: Result<(), Refusal>)
      requires Valid()
      modifies this`configFile, this`nonce, this`writes, this`saved
      ensures Valid() && Done(platform, old(configFile), Op.AddNewUser(SharedUser(nickname, publicId, ip, port, true)),
                              old(Writable()), r.Ok?, configFile)
    {
      hide ConfigOk, Sanitize, Settled;
      var user := SharedUser(nickname, publicId, ip, port, true);
      r := WriteAndSetConfig(configFile.(sharedUsers := configFile.sharedUsers + [user]));
    }

    method AddUserToShared(nickname: string, path: string) returns (r: Result<(), Refusal>)
      requires Valid()
      modifies this`configFile, this`nonce, this`writes, this`saved
      ensures Valid() && Done(platform, old(configFile), Op.AddUserToShared(nickname, path), old(Writable()), r.Ok?,
                              configFile)
    {
      hide ConfigOk, Sanitize, Settled;
      var k := FindUser(nickname);
      if k == |configFile.sharedUsers| {
        return Err(NoSuchUser);
      }
      var i := 0;
      while i < |configFile.sharedFiles|
        invariant 0 <= i <= |configFile.sharedFiles|
        invariant configFile == old(configFile) && Valid() && writes == old(writes)
        invariant forall k :: 0 <= k < i ==> configFile.sharedFiles[k].path != path
      {
        var f := configFile.sharedFiles[i];
        if f.path == path {
          FirstIndexIs(Paths(configFile.sharedFiles), path, i);
          if nickname in f.sharedWith {
            return Ok(());
          }
          var shared := f.(sharedWith := f.sharedWith + [nickname]);
          r := WriteAndSetConfig(configFile.(sharedFiles := configFile.sharedFiles[i := shared]));
          return r;
        }
        i := i + 1;
      }
      FirstIndexIs(Paths(configFile.sharedFiles), path, i);
      return Err(NoSuchFile);
    }

    method RemoveFileFromSharing(path: string) returns (r: Result<(), Refusal>)
      requires Valid()
      modifies this`configFile, this`nonce, this`writes, this`saved
      ensures Valid() && Done(platform, old(configFile), Op.RemoveFileFromSharing(path), old(Writable()), r.Ok?,
                              configFile)
    {
      hide ConfigOk, Sanitize, Settled;
      r := WriteAndSetConfig(configFile.(sharedFiles := WithoutFile(configFile.sharedFiles, path)));
    }

    method RemoveUserFromSharing(nickname: string, path: string) returns (r: Result<(), Refusal>)
      requires Valid()
      modifies this`configFile, this`nonce, this`writes, this`saved
      ensures Valid() && Done(platform, old(configFile), Op.RemoveUserFromSharing(nickname, path), old(Writable()),
                              r.Ok?, configFile)
    {
      hide ConfigOk, Sanitize, Settled;
      var files := UnshareLoop(configFile.sharedFiles, nickname, Some(path));
      r := WriteAndSetConfig(configFile.(sharedFiles := files));
    }

    /** Afterwards nobody of this name is left, neither as a user nor on a share. */
    method RemoveUser(nickname: string) returns (r: Result<(), Refusal>)
      requires Valid()
      modifies this`configFile, this`nonce, this`writes, this`saved
      ensures Valid() && Done(platform, old(configFile), Op.RemoveUser(nickname), old(Writable()), r.Ok?, configFile)
      ensures r.Ok? ==>
        && nickname !in Nicknames(configFile.sharedUsers)
        && forall i :: 0 <= i < |configFile.sharedFiles| ==> nickname !in configFile.sharedFiles[i].sharedWith
    {
      hide ConfigOk, Sanitize, Settled;
      var files := UnshareLoop(configFile.sharedFiles, nickname, None);
      RemovedIsGone(platform, configFile, nickname);
      r := WriteAndSetConfig(configFile.(sharedFiles := files,
                                         sharedUsers := WithoutUser(configFile.sharedUsers, nickname)));
    }

    method SetPort(port: string) returns (r: Result<(), Refusal>)
      requires Valid()
      modifies this`configFile, this`nonce, this`writes, this`saved
      ensures Valid() && Done(platform, old(configFile), Op.SetPort(port), old(Writable()), r.Ok?, configFile)
    {
      hide ConfigOk, Sanitize, Settled;
      r := WriteAndSetConfig(configFile.(sharingPort := port));
    }

    method SetPathDownloadsDir(path: string) returns (r: Result<(), Refusal>)
      requires Valid()
      modifies this`configFile, this`nonce, this`writes, this`saved
      ensures Valid() && Done(platform, old(configFile), Op.SetPathDownloadsDir(path), old(Writable()), r.Ok?,
                              configFile)
    {
      hide ConfigOk, Sanitize, Settled;
      r := WriteAndSetConfig(configFile.(pathDownloads := path));
    }

    method SetIgnoreIncoming(state: bool) returns (r: Result<(), Refusal>)
      requires Valid()
      modifies this`configFile, this`nonce, this`writes, this`saved
      ensures Valid() && Done(platform, old(configFile), Op.SetIgnoreIncoming(state), old(Writable()), r.Ok?,
                              configFile)
    {
      hide ConfigOk, Sanitize, Settled;
      r := WriteAndSetConfig(configFile.(ignoreIncoming := state));
    }

    method SetReverseConnection(state: bool) returns (r: Result<(), Refusal>)
      requires Valid()
      modifies this`configFile, this`nonce, this`writes, this`saved
      ensures Valid() && Done(platform, old(configFile), Op.SetReverseConnection(state), old(Writable()), r.Ok?,
                              configFile)
    {
      hide ConfigOk, Sanitize, Settled;
      r := WriteAndSetConfig(configFile.(reverseConnection := state));
    }

    /** The loop over the users stops at the first of this name. */
    method FindUser(nickname: string) returns (k: nat)
      ensures k == FirstUser(configFile.sharedUsers, nickname)
    {
      k := 0;
      while k < |configFile.sharedUsers| && configFile.sharedUsers[k].nickname != nickname
        invariant 0 <= k <= |configFile.sharedUsers|
        invariant forall i :: 0 <= i < k ==> configFile.sharedUsers[i].nickname != nickname
      {
        k := k + 1;
      }
      FirstIndexIs(Nicknames(configFile.sharedUsers), nickname, k);
    }

    method SetUserIsAllowedState(nickname: string, allowed: bool) returns (r: Result<(), Refusal>)
      requires Valid()
      modifies this`configFile, this`nonce, this`writes, this`saved
      ensures Valid() && Done(platform, old(configFile), Op.SetUserIsAllowedState(nickname, allowed), old(Writable()),
                              r.Ok?, configFile)
    {
      hide ConfigOk, Sanitize, Settled;
      var k := FindUser(nickname);
      if k == |configFile.sharedUsers| {
        return Err(NoSuchUser);
      }
      var user := configFile.sharedUsers[k].(allowed := allowed);
      r := WriteAndSetConfig(configFile.(sharedUsers := configFile.sharedUsers[k := user]));
    }

    method UpdateUser(nickname: string, publicId: string, ip: string, port: string) returns (r: Result<(), Refusal>)
      requires Valid()
      modifies this`configFile, this`nonce, this`writes, this`saved
      ensures Valid() && Done(platform, old(configFile), Op.UpdateUser(nickname, publicId, ip, port), old(Writable()),
                              r.Ok?, configFile)
    {
      hide ConfigOk, Sanitize, Settled;
      var k := FindUser(nickname);
      if k == |configFile.sharedUsers| {
        return Err(NoSuchUser);
      }
      var user := configFile.sharedUsers[k].(publicId := publicId, ip := ip, port := port);
      r := WriteAndSetConfig(configFile.(sharedUsers := configFile.sharedUsers[k := user]));
    }

    /** The new id is generated by the caller here; its public half is not part of the configuration. */
    method CreateNewId(privateId: string) returns (r: Result<(), Refusal>)
      requires Valid()
      modifies this`configFile, this`nonce, this`writes, this`saved
      ensures Valid() && Done(platform, old(configFile), Op.CreateNewId(privateId), old(Writable()), r.Ok?, configFile)
    {
      hide ConfigOk, Sanitize, Settled;
      r := WriteAndSetConfig(configFile.(myPrivateId := privateId));
    }

    /** Any operation of the app on the configuration. */
    method Perform(op: Op) returns (r: Result<(), Refusal>)
      requires Valid()
      modifies this`configFile, this`nonce, this`writes, this`saved
      ensures Valid() && Done(platform, old(configFile), op, old(Writable()), r.Ok?, configFile)
    {
      hide ConfigOk, Sanitize, Settled, Done;
      match op {
        case AddFiles(files) => r := AddFiles(files);
        case AddNewUser(user) =>
          r := AddNewUser(user.nickname, user.publicId, user.ip, user.port);
          StartsAllowed(platform, old(configFile), user, old(Writable()), r.Ok?, configFile);
        case AddUserToShared(nickname, path) => r := AddUserToShared(nickname, path);
        case RemoveFileFromSharing(path) => r := RemoveFileFromSharing(path);
        case RemoveUserFromSharing(nickname, path) => r := RemoveUserFromSharing(nickname, path);
        case RemoveUser(nickname) => r := RemoveUser(nickname);
        case SetPort(port) => r := SetPort(port);
        case SetPathDownloadsDir(path) => r := SetPathDownloadsDir(path);
        case SetIgnoreIncoming(state) => r := SetIgnoreIncoming(state);
        case SetReverseConnection(state) => r := SetReverseConnection(state);
        case SetUserIsAllowedState(nickname, allowed) => r := SetUserIsAllowedState(nickname, allowed);
        case UpdateUser(nickname, publicId, ip, port) => r := UpdateUser(nickname, publicId, ip, port);
        case CreateNewId(privateId) => r := CreateNewId(privateId);
      }
    }

    /** A whole session: the configuration in memory is that of the run, whatever fails, and stays valid. */
    method PerformAll(ops: seq<Op>) returns (ghost steps: seq<Step>)
      requires Valid()
      modifies this`configFile, this`nonce, this`writes, this`saved
      ensures Valid() && configFile == Run(platform, old(configFile), steps)
      ensures |steps| == |ops| && forall i :: 0 <= i < |ops| ==> steps[i].op == ops[i]
    {
      hide After, Valid;
      steps := [];
      var i := 0;
      while i < |ops|
        invariant 0 <= i <= |ops| && Valid()
        invariant configFile == Run(platform, old(configFile), steps)
        invariant |steps| == i && forall k :: 0 <= k < i ==> steps[k].op == ops[k]
      {
        ghost var step := Step(ops[i], Writable());
        RunSnoc(platform, old(configFile), steps, step);
        var r := Perform(ops[i]);
        steps := steps + [step];
        i := i + 1;
      }
    }

    /** `decrypt_config` and `encrypt_config` rewrite the same configuration, and restore the password on failure. */
    method SetPassword(newPassword: Option<string>) returns (r: Result<(), Refusal>)
      requires Valid() && password.Some? != newPassword.Some?
      modifies this
      ensures Valid() && password == if r.Ok? then newPassword else old(password)
      ensures r.Err? ==> configFile == old(configFile)
    {
      hide ConfigOk, Sanitize, Settled;
      var backup := password;
      password := newPassword;
      r := WriteAndSetConfig(configFile);
      if r.Err? {
        password := backup;
      }
    }
  }

  /** An operation succeeds exactly when it has nothing to write or writes a valid configuration. */
  ghost predicate Done(p: Platform, before: ConfigFile, op: Op, written: bool, ok: bool, after: ConfigFile) {
    && after == After(p, before, op, written)
    && (ok <==> match Candidate(p, before, op)
                case Err(_) => false
                case Ok(None) => true
                case Ok(Some(n)) => ConfigOk(p, Sanitize(p, n)) && written)
  }

  /** A new user is allowed, whatever was asked for. */
  lemma StartsAllowed(p: Platform, before: ConfigFile, user: SharedUser, written: bool, ok: bool, after: ConfigFile)
    requires Done(p, before, Op.AddNewUser(user.(allowed := true)), written, ok, after)
    ensures Done(p, before, Op.AddNewUser(user), written, ok, after)
  {
  }

  /** The loop that takes a user off the shares. */
  method UnshareLoop(files: seq<ConfigSharedFile>, nickname: string, path: Option<string>)
    returns (r: seq<ConfigSharedFile>)
    ensures r == Unshared(files, nickname, path)
  {
    r := files;
    var i := 0;
    while i < |files|
      invariant 0 <= i <= |files| == |r|
      invariant forall k :: 0 <= k < i ==> r[k] == Unshared(files, nickname, path)[k]
      invariant forall k :: i <= k < |files| ==> r[k] == files[k]
    {
      if path.None? || files[i].path == path.value {
        r := r[i := files[i].(sharedWith := Without(files[i].sharedWith, nickname))];
      }
      i := i + 1;
    }
  }

  lemma FirstIndexIs(keys: seq<string>, key: string, k: nat)
    requires k <= |keys| && (k < |keys| ==> keys[k] == key)
    requires forall i :: 0 <= i < k ==> keys[i] != key
    ensures FirstIndex(keys, key) == k
  {
  }

  // ---------------------------------------------------------------- removals

  /** Trimmed, sorted, and without a `file://` that could still be stripped. */
  ghost predicate Stable(p: Platform, c: ConfigFile) {
    && Trim(c.myPrivateId) == c.myPrivateId && Trim(c.sharingPort) == c.sharingPort
      && Trim(c.pathDownloads) == c.pathDownloads
    && Sorted(c.sharedUsers, ByNickname)
    && (forall i :: 0 <= i < |c.sharedUsers| ==> TrimUser(c.sharedUsers[i]) == c.sharedUsers[i])
    && (forall i :: 0 <= i < |c.sharedFiles| ==> StableFile(p, c.sharedFiles[i]))
  }

  ghost predicate StableFile(p: Platform, f: ConfigSharedFile) {
    && Normalized(p, Trim(f.path)) == f.path
    && Sorted(f.sharedWith, Itself)
    && forall i :: 0 <= i < |f.sharedWith| ==> Trim(f.sharedWith[i]) == f.sharedWith[i]
  }

  lemma StableFileIsFixed(p: Platform, f: ConfigSharedFile)
    requires StableFile(p, f)
    ensures CleanFile(p, f) == f
  {
    hide Trim, Normalized, Sorted, Sort;
    assert Map(Trim, f.sharedWith) == f.sharedWith;
    SortFixes(f.sharedWith, Itself);
  }

  /** Sanitation leaves a stable configuration alone. */
  lemma StableIsFixed(p: Platform, c: ConfigFile)
    requires Stable(p, c)
    ensures Sanitize(p, c) == c
  {
    hide Trim, Normalized, Sorted, Sort, StableFile, CleanFile, TrimUser;
    SortFixes(c.sharedUsers, ByNickname);
    assert Map(TrimUser, c.sharedUsers) == c.sharedUsers;
    forall i | 0 <= i < |c.sharedFiles|
      ensures CleanFile(p, c.sharedFiles[i]) == c.sharedFiles[i]
    {
      StableFileIsFixed(p, c.sharedFiles[i]);
    }
    assert Map(f => CleanFile(p, f), c.sharedFiles) == c.sharedFiles;
  }

  lemma FixedFileIsStable(p: Platform, f: ConfigSharedFile)
    requires CleanFile(p, f) == f
    ensures StableFile(p, f)
  {
    hide Trim, Normalized, Sorted, Sort;
    var names := Map(Trim, f.sharedWith);
    SortSorts(names, Itself);
    forall i | 0 <= i < |f.sharedWith|
      ensures Trim(f.sharedWith[i]) == f.sharedWith[i]
    {
      assert f.sharedWith[i] in multiset(names);
      var j :| 0 <= j < |names| && names[j] == f.sharedWith[i];
      TrimTwice(f.sharedWith[j]);
    }
  }

  /** Conversely, only stable configurations are left alone. */
  lemma FixedIsStable(p: Platform, c: ConfigFile)
    requires Sanitize(p, c) == c
    ensures Stable(p, c)
  {
    hide Trim, Normalized, Sorted, Sort, StableFile, CleanFile;
    var sorted := Sort(c.sharedUsers, ByNickname);
    SortSorts(c.sharedUsers, ByNickname);
    forall i | 0 <= i < |c.sharedUsers|
      ensures TrimUser(c.sharedUsers[i]) == c.sharedUsers[i]
    {
      assert c.sharedUsers[i] == TrimUser(sorted[i]);
      TrimTwice(sorted[i].nickname);
      TrimTwice(sorted[i].publicId);
      TrimTwice(sorted[i].ip);
      TrimTwice(sorted[i].port);
    }
    forall i | 0 <= i < |sorted|
      ensures TrimUser(sorted[i]) == sorted[i]
    {
      assert sorted[i] in multiset(c.sharedUsers);
    }
    assert Map(TrimUser, sorted) == sorted;
    forall i | 0 <= i < |c.sharedFiles|
      ensures StableFile(p, c.sharedFiles[i])
    {
      FixedFileIsStable(p, c.sharedFiles[i]);
    }
  }

  lemma {:induction false} WithoutMembers(names: seq<string>, nickname: string)
    ensures forall n :: n in Without(names, nickname) <==> n in names && n != nickname
  {
    if names != [] {
      WithoutMembers(names[1..], nickname);
      assert names == [names[0]] + names[1..];
    }
  }

  lemma {:induction false} WithoutSorted(names: seq<string>, nickname: string)
    requires Sorted(names, Itself)
    ensures Sorted(Without(names, nickname), Itself)
  {
    hide Le;
    if names != [] {
      WithoutSorted(names[1..], nickname);
      WithoutMembers(names[1..], nickname);
      var rest := Without(names[1..], nickname);
      assert names == [names[0]] + names[1..];
      forall j | 0 <= j < |rest|
        ensures Le(names[0], rest[j])
      {
        assert rest[j] in rest;
        var k :| 0 <= k < |names[1..]| && names[1..][k] == rest[j];
        assert Le(Itself(names[0]), Itself(names[k + 1]));
      }
    }
  }

  lemma {:induction false} WithoutUserKeeps(users: seq<SharedUser>, nickname: string)
    ensures forall u :: u in WithoutUser(users, nickname) <==> u in users && u.nickname != nickname
  {
    if users != [] {
      WithoutUserKeeps(users[1..], nickname);
      assert users == [users[0]] + users[1..];
    }
  }

  lemma {:induction false} WithoutUserSorted(users: seq<SharedUser>, nickname: string)
    ensures Sorted(users, ByNickname) ==> Sorted(WithoutUser(users, nickname), ByNickname)
  {
    hide Le;
    if users != [] {
      WithoutUserSorted(users[1..], nickname);
      WithoutUserKeeps(users[1..], nickname);
      var rest := WithoutUser(users[1..], nickname);
      assert users == [users[0]] + users[1..];
      if Sorted(users, ByNickname) {
        forall j | 0 <= j < |rest|
          ensures Le(ByNickname(users[0]), ByNickname(rest[j]))
        {
          assert rest[j] in rest;
          var k :| 0 <= k < |users[1..]| && users[1..][k] == rest[j];
          assert Le(ByNickname(users[0]), ByNickname(users[k + 1]));
        }
      }
    }
  }

  lemma MapMembers<T, U>(f: T -> U, a: seq<T>, b: seq<T>)
    requires forall x :: x in a ==> x in b
    ensures forall y :: y in Map(f, a) ==> y in Map(f, b)
  {
    forall y | y in Map(f, a)
      ensures y in Map(f, b)
    {
      var i :| 0 <= i < |a| && Map(f, a)[i] == y;
      assert a[i] in b;
      var j :| 0 <= j < |b| && b[j] == a[i];
      assert Map(f, b)[j] == y;
    }
  }

  lemma {:induction false} FewerUsersDistinct(users: seq<SharedUser>, nickname: string, key: SharedUser -> string)
    requires NoDup(Map(key, users))
    ensures NoDup(Map(key, WithoutUser(users, nickname)))
  {
    hide NoDup, Map;
    if users != [] {
      var rest := WithoutUser(users[1..], nickname);
      assert users == [users[0]] + users[1..];
      MapCons(key, users[0], users[1..]);
      NoDupTail(Map(key, users));
      assert Map(key, users)[1..] == Map(key, users[1..]);
      FewerUsersDistinct(users[1..], nickname, key);
      WithoutUserKeeps(users[1..], nickname);
      MapMembers(key, rest, users[1..]);
      MapCons(key, users[0], rest);
      NoDupCons(key(users[0]), Map(key, rest));
      assert [] + rest == rest;
    }
  }

  const ByPath := (f: ConfigSharedFile) => f.path

  lemma {:induction false} WithoutFileKeeps(files: seq<ConfigSharedFile>, path: string)
    requires NoDup(Map(ByPath, files))
    ensures NoDup(Map(ByPath, WithoutFile(files, path)))
    ensures forall f :: f in WithoutFile(files, path) <==> f in files && f.path != path
  {
    hide NoDup, Map;
    if files != [] {
      var rest := WithoutFile(files[1..], path);
      assert files == [files[0]] + files[1..];
      MapCons(ByPath, files[0], files[1..]);
      NoDupTail(Map(ByPath, files));
      assert Map(ByPath, files)[1..] == Map(ByPath, files[1..]);
      WithoutFileKeeps(files[1..], path);
      MapMembers(ByPath, rest, files[1..]);
      MapCons(ByPath, files[0], rest);
      NoDupCons(ByPath(files[0]), Map(ByPath, rest));
      assert [] + rest == rest;
    }
  }

  predicate Removes(op: Op) {
    op.RemoveFileFromSharing? || op.RemoveUserFromSharing? || op.RemoveUser?
  }

  lemma FileRemovalKeeps(p: Platform, c: ConfigFile, path: string)
    requires ConfigOk(p, c) && Stable(p, c)
    ensures var n := c.(sharedFiles := WithoutFile(c.sharedFiles, path));
      ConfigOk(p, n) && Stable(p, n)
  {
    hide PortOk, UsersOk, FileOk, Known, StableFile, Trim, Sorted, NoDup;
    var files := WithoutFile(c.sharedFiles, path);
    assert Paths(c.sharedFiles) == Map(ByPath, c.sharedFiles) && Paths(files) == Map(ByPath, files);
    WithoutFileKeeps(c.sharedFiles, path);
    forall i | 0 <= i < |files|
      ensures FileOk(p, files[i]) && StableFile(p, files[i]) && Known(Nicknames(c.sharedUsers), files[i])
    {
      assert files[i] in files;
    }
  }

  lemma UnsharedKeeps(p: Platform, c: ConfigFile, nickname: string, path: Option<string>)
    requires ConfigOk(p, c) && Stable(p, c)
    ensures var files := Unshared(c.sharedFiles, nickname, path);
      && NoDup(Paths(files))
      && (forall i :: 0 <= i < |files| ==>
            FileOk(p, files[i]) && StableFile(p, files[i]) && Known(Nicknames(c.sharedUsers), files[i]))
      && (path.None? ==> forall i :: 0 <= i < |files| ==> nickname !in files[i].sharedWith)
  {
    hide PortOk, UsersOk, NoDup, Normalized, Sorted;
    var files := Unshared(c.sharedFiles, nickname, path);
    assert Paths(files) == Paths(c.sharedFiles);
    forall i | 0 <= i < |files|
      ensures FileOk(p, files[i]) && StableFile(p, files[i]) && Known(Nicknames(c.sharedUsers), files[i])
      ensures path.None? ==> nickname !in files[i].sharedWith
    {
      UnsharedFile(p, Nicknames(c.sharedUsers), c.sharedFiles[i], nickname);
    }
  }

  lemma UnsharedFile(p: Platform, nicknames: seq<string>, f: ConfigSharedFile, nickname: string)
    requires FileOk(p, f) && StableFile(p, f) && Known(nicknames, f)
    ensures var g := f.(sharedWith := Without(f.sharedWith, nickname));
      FileOk(p, g) && StableFile(p, g) && Known(nicknames, g) && nickname !in g.sharedWith
  {
    hide Sorted, Normalized, Trim, Has;
    WithoutSorted(f.sharedWith, nickname);
    WithoutMembers(f.sharedWith, nickname);
    var names := Without(f.sharedWith, nickname);
    forall i | 0 <= i < |names|
      ensures Trim(names[i]) == names[i] && names[i] in nicknames
    {
      assert names[i] in names;
    }
  }

  lemma FewerUsersOk(p: Platform, users: seq<SharedUser>, nickname: string)
    requires UsersOk(p, users)
    ensures UsersOk(p, WithoutUser(users, nickname))
  {
    hide NoDup, UserOk;
    var left := WithoutUser(users, nickname);
    WithoutUserKeeps(users, nickname);
    FewerUsersDistinct(users, nickname, (u: SharedUser) => p.lower(u.nickname));
    FewerUsersDistinct(users, nickname, (u: SharedUser) => u.publicId);
    assert LowerNicknames(p, left) == Map((u: SharedUser) => p.lower(u.nickname), left);
    forall i | 0 <= i < |left|
      ensures UserOk(p, left[i])
    {
      assert left[i] in left;
    }
  }

  lemma UserRemovalKeeps(p: Platform, c: ConfigFile, nickname: string)
    requires ConfigOk(p, c) && Stable(p, c)
    ensures var n := c.(sharedFiles := Unshared(c.sharedFiles, nickname, None),
                        sharedUsers := WithoutUser(c.sharedUsers, nickname));
      ConfigOk(p, n) && Stable(p, n)
  {
    hide PortOk, FileOk, StableFile, Trim, Sorted, NoDup, UsersOk, TrimUser, Unshared;
    UnsharedKeeps(p, c, nickname, None);
    WithoutUserKeeps(c.sharedUsers, nickname);
    WithoutUserSorted(c.sharedUsers, nickname);
    FewerUsersOk(p, c.sharedUsers, nickname);
    var users, files := WithoutUser(c.sharedUsers, nickname), Unshared(c.sharedFiles, nickname, None);
    forall i | 0 <= i < |users|
      ensures TrimUser(users[i]) == users[i]
    {
      assert users[i] in users;
    }
    forall i | 0 <= i < |files|
      ensures Known(Nicknames(users), files[i])
    {
      StillKnown(c.sharedUsers, nickname, files[i]);
    }
  }

  lemma StillKnown(users: seq<SharedUser>, nickname: string, f: ConfigSharedFile)
    requires Known(Nicknames(users), f) && nickname !in f.sharedWith
    ensures Known(Nicknames(WithoutUser(users, nickname)), f)
  {
    WithoutUserKeeps(users, nickname);
    var left := WithoutUser(users, nickname);
    forall i | 0 <= i < |f.sharedWith|
      ensures f.sharedWith[i] in Nicknames(left)
    {
      var k :| 0 <= k < |users| && Nicknames(users)[k] == f.sharedWith[i];
      assert users[k] in left;
      var j :| 0 <= j < |left| && left[j] == users[k];
      assert Nicknames(left)[j] == f.sharedWith[i];
    }
  }

  /** Exactly the stable configurations are left alone by sanitation. */
  lemma {:induction false} StableExactly(p: Platform, c: ConfigFile)
    ensures Stable(p, c) <==> Sanitize(p, c) == c
  {
    hide Stable, Sanitize;
    if Stable(p, c) {
      StableIsFixed(p, c);
    }
    if Sanitize(p, c) == c {
      FixedIsStable(p, c);
    }
  }

  /** Removals from a valid configuration that sanitation leaves alone never fail validation, and keep it so. */
  lemma {:induction false} RemovalsSucceed(p: Platform, c: ConfigFile, op: Op)
    requires Removes(op) && Stable(p, c) && ConfigOk(p, c)
    ensures Candidate(p, c, op) == Ok(Some(After(p, c, op, true)))
    ensures Stable(p, After(p, c, op, true)) && ConfigOk(p, After(p, c, op, true))
    ensures forall written, after :: Done(p, c, op, written, written, after) <==> after == After(p, c, op, written)
  {
    hide ConfigOk, Sanitize, Stable;
    match op {
      case RemoveFileFromSharing(path) => FileRemovalKeeps(p, c, path);
      case RemoveUserFromSharing(nickname, path) => UserUnsharedKeeps(p, c, nickname, path);
      case RemoveUser(nickname) => UserRemovalKeeps(p, c, nickname);
    }
    StableIsFixed(p, Candidate(p, c, op).value.value);
  }

  lemma UserUnsharedKeeps(p: Platform, c: ConfigFile, nickname: string, path: string)
    requires ConfigOk(p, c) && Stable(p, c)
    ensures var n := c.(sharedFiles := Unshared(c.sharedFiles, nickname, Some(path)));
      ConfigOk(p, n) && Stable(p, n)
  {
    hide PortOk, UsersOk, FileOk, StableFile, Trim, Sorted, NoDup, Unshared, TrimUser, Known;
    UnsharedKeeps(p, c, nickname, Some(path));
  }

  // ---------------------------------------------------------------- exactly when a removal succeeds

  function CleanPath(p: Platform, f: ConfigSharedFile): string {
    Normalized(p, Trim(f.path))
  }

  /** Sanitized once more, these paths are still distinct and acceptable. */
  ghost predicate CleansWell(p: Platform, files: seq<ConfigSharedFile>) {
    && NoDup(Map(f => CleanPath(p, f), files))
    && forall i :: 0 <= i < |files| ==> FileOk(p, CleanFile(p, files[i]))
  }

  /** The files that are shared after a removal. */
  function StillShared(c: ConfigFile, op: Op): seq<ConfigSharedFile> {
    if op.RemoveFileFromSharing? then WithoutFile(c.sharedFiles, op.path) else c.sharedFiles
  }

  /**
   Exactly when a removal from a configuration that the program holds succeeds: the file can be
   written, and the paths that stay are distinct and acceptable when they are sanitized once more.
   */
  lemma RemovalSucceedsExactly(p: Platform, c: ConfigFile, op: Op, written: bool, ok: bool, after: ConfigFile)
    requires Removes(op) && ConfigOk(p, c) && Settled(c)
    ensures Done(p, c, op, written, ok, after)
      <==> after == After(p, c, op, written) && ok == (written && CleansWell(p, StillShared(c, op)))
  {
    hide ConfigOk, Sanitize, Settled, CleansWell, Unshared, WithoutFile, WithoutUser;
    match op {
      case RemoveFileFromSharing(path) => FileRemovalIsValid(p, c, path);
      case RemoveUserFromSharing(nickname, path) => UnsharingIsValid(p, c, nickname, path);
      case RemoveUser(nickname) => UserRemovalIsValid(p, c, nickname);
    }
  }

  lemma FileRemovalIsValid(p: Platform, c: ConfigFile, path: string)
    requires ConfigOk(p, c) && Settled(c)
    ensures ConfigOk(p, Sanitize(p, c.(sharedFiles := WithoutFile(c.sharedFiles, path))))
      <==> CleansWell(p, WithoutFile(c.sharedFiles, path))
  {
    hide PortOk, UsersOk, FileOk, Known, Trim, NoDup, CleansWell, Sanitize, NamesSettled, TrimUser;
    var files := WithoutFile(c.sharedFiles, path);
    DistinctPaths(p, c);
    WithoutFileKeeps(c.sharedFiles, path);
    forall i | 0 <= i < |files|
      ensures NamesSettled(files[i]) && Known(Nicknames(c.sharedUsers), files[i])
    {
      assert files[i] in files;
    }
    SettledIsValid(p, c.(sharedFiles := files));
  }

  lemma UnsharingIsValid(p: Platform, c: ConfigFile, nickname: string, path: string)
    requires ConfigOk(p, c) && Settled(c)
    ensures ConfigOk(p, Sanitize(p, c.(sharedFiles := Unshared(c.sharedFiles, nickname, Some(path)))))
      <==> CleansWell(p, c.sharedFiles)
  {
    hide PortOk, UsersOk, FileOk, Known, Trim, NoDup, CleansWell, Sanitize, NamesSettled, TrimUser, Unshared;
    UnsharedSettles(p, c, nickname, Some(path));
    SettledIsValid(p, c.(sharedFiles := Unshared(c.sharedFiles, nickname, Some(path))));
  }

  lemma UserRemovalIsValid(p: Platform, c: ConfigFile, nickname: string)
    requires ConfigOk(p, c) && Settled(c)
    ensures var files, users := Unshared(c.sharedFiles, nickname, None), WithoutUser(c.sharedUsers, nickname);
      ConfigOk(p, Sanitize(p, c.(sharedFiles := files, sharedUsers := users))) <==> CleansWell(p, c.sharedFiles)
  {
    hide PortOk, UsersOk, FileOk, Known, Trim, NoDup, CleansWell, Sanitize, NamesSettled, TrimUser, Unshared;
    var files, users := Unshared(c.sharedFiles, nickname, None), WithoutUser(c.sharedUsers, nickname);
    UnsharedSettles(p, c, nickname, None);
    FewerUsersOk(p, c.sharedUsers, nickname);
    WithoutUserKeeps(c.sharedUsers, nickname);
    forall i | 0 <= i < |users|
      ensures TrimUser(users[i]) == users[i]
    {
      assert users[i] in users;
    }
    forall i | 0 <= i < |files|
      ensures Known(Nicknames(users), files[i])
    {
      StillKnown(c.sharedUsers, nickname, files[i]);
    }
    SettledIsValid(p, c.(sharedFiles := files, sharedUsers := users));
  }

  /** Taking names off shares concerns neither the paths nor what else is trimmed or known. */
  lemma UnsharedSettles(p: Platform, c: ConfigFile, nickname: string, path: Option<string>)
    requires ConfigOk(p, c) && Settled(c)
    ensures var files := Unshared(c.sharedFiles, nickname, path);
      && (CleansWell(p, files) <==> CleansWell(p, c.sharedFiles))
      && (forall i :: 0 <= i < |files| ==> NamesSettled(files[i]) && Known(Nicknames(c.sharedUsers), files[i]))
      && (path.None? ==> forall i :: 0 <= i < |files| ==> nickname !in files[i].sharedWith)
  {
    hide PortOk, UsersOk, NoDup, Normalized, Trim, Has, Sort, Without;
    var files := Unshared(c.sharedFiles, nickname, path);
    assert Map(f => CleanPath(p, f), files) == Map(f => CleanPath(p, f), c.sharedFiles);
    forall i | 0 <= i < |files|
      ensures FileOk(p, CleanFile(p, files[i])) <==> FileOk(p, CleanFile(p, c.sharedFiles[i]))
      ensures NamesSettled(files[i]) && Known(Nicknames(c.sharedUsers), files[i])
      ensures path.None? ==> nickname !in files[i].sharedWith
    {
      WithoutMembers(c.sharedFiles[i].sharedWith, nickname);
      FewerNames(Nicknames(c.sharedUsers), c.sharedFiles[i], nickname);
    }
  }

  lemma FewerNames(nicknames: seq<string>, f: ConfigSharedFile, nickname: string)
    requires NamesSettled(f) && Known(nicknames, f)
    ensures var g := f.(sharedWith := Without(f.sharedWith, nickname));
      NamesSettled(g) && Known(nicknames, g) && nickname !in g.sharedWith
  {
    hide Trim;
    WithoutMembers(f.sharedWith, nickname);
    var names := Without(f.sharedWith, nickname);
    forall i | 0 <= i < |names|
      ensures Trim(names[i]) == names[i] && names[i] in nicknames
    {
      assert names[i] in names;
    }
  }

  /** Of a settled configuration that is valid but for its paths, sanitation can only spoil the paths. */
  lemma SettledIsValid(p: Platform, n: ConfigFile)
    requires Settled(n) && PortOk(n.sharingPort) && p.privateIdOk(n.myPrivateId) && UsersOk(p, n.sharedUsers)
    requires !(n.ignoreIncoming && n.reverseConnection)
    requires forall i :: 0 <= i < |n.sharedFiles| ==> Known(Nicknames(n.sharedUsers), n.sharedFiles[i])
    ensures ConfigOk(p, Sanitize(p, n)) <==> CleansWell(p, n.sharedFiles)
  {
    hide PortOk, UsersOk, FileOk, Known, Trim, NoDup, Normalized, TrimUser, Sort, NamesSettled, CleanFile;
    var c := Sanitize(p, n);
    SortedUsersOk(p, n.sharedUsers);
    forall i | 0 <= i < |n.sharedFiles|
      ensures Known(Nicknames(c.sharedUsers), c.sharedFiles[i])
      ensures c.sharedFiles[i].path == CleanPath(p, n.sharedFiles[i])
    {
      CleanFileKnown(p, Nicknames(n.sharedUsers), Nicknames(c.sharedUsers), n.sharedFiles[i]);
    }
    assert Paths(c.sharedFiles) == Map(f => CleanPath(p, f), n.sharedFiles);
  }

  lemma SortedUsersOk(p: Platform, users: seq<SharedUser>)
    requires UsersOk(p, users) && forall i :: 0 <= i < |users| ==> TrimUser(users[i]) == users[i]
    ensures var r := Map(TrimUser, Sort(users, ByNickname));
      && UsersOk(p, r) && (forall name :: name in Nicknames(r) <==> name in Nicknames(users))
      && (forall u :: u in r <==> u in users)
  {
    hide NoDup, UserOk, TrimUser, Sort;
    var r := Sort(users, ByNickname);
    SortSorts(users, ByNickname);
    forall i | 0 <= i < |r|
      ensures r[i] in users && TrimUser(r[i]) == r[i] && UserOk(p, r[i])
    {
      assert r[i] in multiset(users);
    }
    forall u | u in users
      ensures u in r
    {
      assert u in multiset(r);
    }
    assert Map(TrimUser, r) == r;
    var byName, byLower, byId :=
      (u: SharedUser) => u.nickname, (u: SharedUser) => p.lower(u.nickname), (u: SharedUser) => u.publicId;
    SortDistinct(users, ByNickname, byName);
    SortDistinct(users, ByNickname, byLower);
    SortDistinct(users, ByNickname, byId);
    assert Nicknames(r) == Map(byName, r) && Nicknames(users) == Map(byName, users);
    assert LowerNicknames(p, r) == Map(byLower, r) && LowerNicknames(p, users) == Map(byLower, users);
    assert PublicIds(r) == Map(byId, r) && PublicIds(users) == Map(byId, users);
  }

  lemma CleanFileKnown(p: Platform, before: seq<string>, after: seq<string>, f: ConfigSharedFile)
    requires Known(before, f) && NamesSettled(f) && forall name :: name in before ==> name in after
    ensures Known(after, CleanFile(p, f)) && CleanFile(p, f).path == CleanPath(p, f)
    ensures forall name :: name in CleanFile(p, f).sharedWith <==> name in f.sharedWith
  {
    hide Trim, Normalized, Sort;
    assert Map(Trim, f.sharedWith) == f.sharedWith;
    var names := Sort(f.sharedWith, Itself);
    SortSorts(f.sharedWith, Itself);
    forall name
      ensures name in names <==> name in f.sharedWith
    {
      assert name in multiset(names) <==> name in multiset(f.sharedWith);
    }
    forall i | 0 <= i < |names|
      ensures names[i] in after
    {
      assert names[i] in names;
    }
  }

  /** Sanitation does not bring a removed user back. */
  lemma RemovedIsGone(p: Platform, c: ConfigFile, nickname: string)
    requires ConfigOk(p, c) && Settled(c)
    ensures var files, users := Unshared(c.sharedFiles, nickname, None), WithoutUser(c.sharedUsers, nickname);
      var n := Sanitize(p, c.(sharedFiles := files, sharedUsers := users));
      && nickname !in Nicknames(n.sharedUsers)
      && forall i :: 0 <= i < |n.sharedFiles| ==> nickname !in n.sharedFiles[i].sharedWith
  {
    hide PortOk, UsersOk, FileOk, Known, Trim, NoDup, CleansWell, NamesSettled, TrimUser, Unshared, CleanFile, Sort;
    var files, users := Unshared(c.sharedFiles, nickname, None), WithoutUser(c.sharedUsers, nickname);
    UnsharedSettles(p, c, nickname, None);
    FewerUsersOk(p, c.sharedUsers, nickname);
    WithoutUserKeeps(c.sharedUsers, nickname);
    forall i | 0 <= i < |users|
      ensures TrimUser(users[i]) == users[i]
    {
      assert users[i] in users;
    }
    SortedUsersOk(p, users);
    NobodyNamed(users, nickname);
    forall i | 0 <= i < |files|
      ensures nickname !in CleanFile(p, files[i]).sharedWith
    {
      CleanFileKnown(p, Nicknames(c.sharedUsers), Nicknames(c.sharedUsers), files[i]);
    }
  }

  lemma NobodyNamed(users: seq<SharedUser>, nickname: string)
    requires forall u :: u in users ==> u.nickname != nickname
    ensures nickname !in Nicknames(users)
  {
    forall i | 0 <= i < |users|
      ensures Nicknames(users)[i] != nickname
    {
      assert users[i] in users;
    }
  }

  // ---------------------------------------------------------------- where sanitation is not stable

  /** The operation fails and changes nothing. */
  ghost predicate Refused(p: Platform, c: ConfigFile, op: Op, written: bool) {
    Done(p, c, op, written, false, c)
  }

  /** Two shared paths that the next sanitation makes equal: then no file can be removed but one of the two. */
  lemma {:induction false} CollisionBlocksRemoval(p: Platform, c: ConfigFile, f: ConfigSharedFile, g: ConfigSharedFile,
                                                  path: string, written: bool)
    requires ConfigOk(p, c) && f in c.sharedFiles && g in c.sharedFiles && f != g
    requires Normalized(p, Trim(f.path)) == Normalized(p, Trim(g.path))
    requires path != f.path && path != g.path
    ensures Refused(p, c, Op.RemoveFileFromSharing(path), written)
  {
    hide ConfigOk, Normalized, Trim, Sanitize, NoDup;
    DistinctPaths(p, c);
    WithoutFileKeeps(c.sharedFiles, path);
    NotValidOnceSanitized(p, c.(sharedFiles := WithoutFile(c.sharedFiles, path)), f, g);
  }

  lemma DistinctPaths(p: Platform, c: ConfigFile)
    requires ConfigOk(p, c)
    ensures NoDup(Map(ByPath, c.sharedFiles))
  {
    assert Paths(c.sharedFiles) == Map(ByPath, c.sharedFiles);
  }

  lemma NotValidOnceSanitized(p: Platform, c: ConfigFile, f: ConfigSharedFile, g: ConfigSharedFile)
    requires f in c.sharedFiles && g in c.sharedFiles && f != g
    requires Normalized(p, Trim(f.path)) == Normalized(p, Trim(g.path))
    ensures !ConfigOk(p, Sanitize(p, c))
  {
    hide PortOk, UsersOk, Normalized, Trim, FileOk, Known, TrimUser, Sort;
    var i :| 0 <= i < |c.sharedFiles| && c.sharedFiles[i] == f;
    var j :| 0 <= j < |c.sharedFiles| && c.sharedFiles[j] == g;
    var paths := Paths(Sanitize(p, c).sharedFiles);
    assert paths[i] == paths[j];
    assert !NoDup(paths);
  }

  /** A platform with which only the rules of this file itself refuse anything. */
  function Permissive(): Platform {
    Platform((s: string) => s, (s: string) => true, (s: string) => true, (s: string) => true,
             "/transmitic_config", false)
  }

  function Sharing(files: seq<ConfigSharedFile>): ConfigFile {
    ConfigFile("id", [], files, "1", false, false, "")
  }

  lemma SpaceIsTrimmed()
    ensures Trim(" a") == "a" == Trim("a")
  {
    assert " a"[1..] == "a";
    assert TrimStart(" a") == TrimStart("a") == "a";
    TrimNothing("a");
  }

  /**
   So a removal can fail: the app adds the path `file://file:// a`, of which one prefix is stripped when
   it is added and the other when it is sanitized. What is left is trimmed only the next time, and then
   it is a path that is shared already.
   */
  lemma RemovalCanFail(written: bool)
    ensures var p := Permissive();
      var start := Sharing([ConfigSharedFile("a", [])]);
      var c := Sharing([ConfigSharedFile("a", []), ConfigSharedFile(" a", [])]);
      && ConfigOk(p, start) && Settled(start)
      && c == Run(p, start, [Step(Op.AddFiles(["file://file:// a"]), true)])
      && ConfigOk(p, c)
      && (forall path :: path != "a" && path != " a" ==> Refused(p, c, Op.RemoveFileFromSharing(path), written))
      && (forall nickname :: Refused(p, c, Op.RemoveUser(nickname), written))
  {
    hide ConfigOk, Sanitize, Trim, Candidate, CleanFile, Has, Contains, Settled, CleansWell;
    var p := Permissive();
    var f, g := ConfigSharedFile("a", []), ConfigSharedFile(" a", []);
    var start, c := Sharing([f]), Sharing([f, g]);
    OneFileOk();
    TwoFilesOk();
    SharingOk([f]);
    SharingOk([f, g]);
    SharingSettled([f]);
    SharingSettled([f, g]);
    AddedTwice();
    SpaceIsTrimmed();
    assert f in c.sharedFiles && g in c.sharedFiles;
    forall path | path != "a" && path != " a"
      ensures Refused(p, c, Op.RemoveFileFromSharing(path), written)
    {
      CollisionBlocksRemoval(p, c, f, g, path, written);
    }
    DoesNotClean();
    forall nickname
      ensures Refused(p, c, Op.RemoveUser(nickname), written)
    {
      var op := Op.RemoveUser(nickname);
      RemovalSucceedsExactly(p, c, op, written, false, After(p, c, op, written));
      RefusedIsAfter(p, c, op, written);
    }
  }

  lemma RefusedIsAfter(p: Platform, c: ConfigFile, op: Op, written: bool)
    requires Done(p, c, op, written, false, After(p, c, op, written))
    ensures Refused(p, c, op, written)
  {
  }

  lemma AddedTwice()
    requires ConfigOk(Permissive(), Sharing([ConfigSharedFile("a", []), ConfigSharedFile(" a", [])]))
    ensures Run(Permissive(), Sharing([ConfigSharedFile("a", [])]), [Step(Op.AddFiles(["file://file:// a"]), true)])
      == Sharing([ConfigSharedFile("a", []), ConfigSharedFile(" a", [])])
  {
    hide ConfigOk, Sanitize, Trim, WithFiles;
    var p, start := Permissive(), Sharing([ConfigSharedFile("a", [])]);
    var op := Op.AddFiles(["file://file:// a"]);
    OnePrefixIsStripped(p);
    SecondPrefixIsStripped(p);
    var steps := [Step(op, true)];
    assert |steps[1..]| == 0;
    assert Run(p, start, steps) == After(p, start, op, true);
  }

  lemma OnePrefixIsStripped(p: Platform)
    requires !p.windows
    ensures WithFiles(p, [ConfigSharedFile("a", [])], ["file://file:// a"])
      == [ConfigSharedFile("a", []), ConfigSharedFile("file:// a", [])]
  {
    var raw, shared := "file://file:// a", [ConfigSharedFile("a", [])];
    assert raw[..7] == FILE_PREFIX && raw[7..] == "file:// a";
    assert Normalized(p, raw) == "file:// a";
    assert |"a"| != |"file:// a"|;
    assert Paths(shared) == ["a"];
    var none: seq<string> := [];
    assert [raw][..0] == none;
    assert WithFiles(p, shared, [raw]) == WithFiles(p, shared, none) + [ConfigSharedFile("file:// a", [])];
  }

  lemma SecondPrefixIsStripped(p: Platform)
    requires !p.windows
    ensures Sanitize(p, Sharing([ConfigSharedFile("a", []), ConfigSharedFile("file:// a", [])]))
      == Sharing([ConfigSharedFile("a", []), ConfigSharedFile(" a", [])])
  {
    hide Trim, CleanFile;
    WordsAreTrimmed();
    var f, h, g := ConfigSharedFile("a", []), ConfigSharedFile("file:// a", []), ConfigSharedFile(" a", []);
    PrefixIsStripped(p);
    assert Map(f => CleanFile(p, f), [f, h]) == [f, g];
    var nobody: seq<SharedUser> := [];
    assert Map(TrimUser, Sort(nobody, ByNickname)) == nobody;
  }

  lemma WordsAreTrimmed()
    ensures Trim("id") == "id" && Trim("1") == "1" && Trim("") == "" && Trim("a") == "a"
  {
    TrimNothing("id");
    TrimNothing("1");
    TrimNothing("a");
  }

  lemma SharingSettled(files: seq<ConfigSharedFile>)
    requires forall i :: 0 <= i < |files| ==> files[i].sharedWith == []
    ensures Settled(Sharing(files))
  {
    hide Trim;
    WordsAreTrimmed();
  }

  /** Sanitized once more, the two paths are the same. */
  lemma DoesNotClean()
    ensures !CleansWell(Permissive(), [ConfigSharedFile("a", []), ConfigSharedFile(" a", [])])
  {
    hide Trim, FileOk, CleanFile;
    var p, files := Permissive(), [ConfigSharedFile("a", []), ConfigSharedFile(" a", [])];
    SpaceIsTrimmed();
    var paths := Map(f => CleanPath(p, f), files);
    assert paths[0] == paths[1];
  }

  lemma PrefixIsStripped(p: Platform)
    requires !p.windows
    ensures CleanFile(p, ConfigSharedFile("file:// a", [])) == ConfigSharedFile(" a", [])
    ensures CleanFile(p, ConfigSharedFile("a", [])) == ConfigSharedFile("a", [])
  {
    var raw := "file:// a";
    TrimNothing(raw);
    TrimNothing("a");
    assert raw[..7] == FILE_PREFIX && raw[7..] == " a";
  }

  lemma OneFileOk()
    ensures FilesOk(Permissive(), [], [ConfigSharedFile("a", [])])
  {
  }

  lemma TwoFilesOk()
    ensures FilesOk(Permissive(), [], [ConfigSharedFile("a", []), ConfigSharedFile(" a", [])])
  {
    assert |"a"| != |" a"|;
  }

  lemma SharingOk(files: seq<ConfigSharedFile>)
    requires FilesOk(Permissive(), [], files)
    ensures ConfigOk(Permissive(), Sharing(files))
  {
    hide FilesOk;
    assert "1"[..0] == "" && DigitsValue("1") == 1;
  }
}
