/**
 The upload manager and its threads, `UploaderManager` and `SingleUploader` of
 src/incoming_uploader.rs, as an interleaving system. Threads are numbered in the order in which
 they are spawned, the reverse file list caches in the order in which they are allocated; dropping
 an `Arc` or a sender only forgets a number.
 */
module UploadSystem {
  import opened Common
  import opened CoreConsts
  import opened Uploads

  datatype SharingState = Off | Local | Internet

  /** What the manager and the listing depend on in a configuration; `loopback` are the users at this very machine. */
  datatype Config = Config(users: seq<string>, loopback: set<string>, reverse: bool, shares: seq<(string, seq<string>)>)

  /** Where a thread is; line numbers of src/incoming_uploader.rs. */
  datatype Pc =
    | Connect        // 651: reverse: about to connect and announce itself
    | Identify       // 655, 673: learn who is there, build the listing
    | Top            // 678: look into the mailbox
    | Read           // 724: read a request
    | Got            // 726: look into the mailbox, then dispatch
    | Piece          // 756: about to write a listing piece
    | PieceSent      // 758: look into the mailbox
    | Publish        // 765: about to enter the nickname into the cache
    | Chunk          // 850: about to write file bytes
    | ChunkSent      // 876: look into the mailbox
    | Deny           // 799, 810: about to refuse
    | Ended

  datatype Request = AskList | AskFile | AskWrong | AskNothing

  /**
   One thread. `config` and `cache` are the clones it was given. `mailbox` and `orphan` (the
   sender is gone) are what its receiver sees. History: `told` says that it was sent ShutdownConn
   or orphaned, `late` counts the writes it has begun since, `wrote` is what it has written of
   the listing in the current reply.
   */
  datatype Thread = Thread(config: Config, cache: nat, dialled: bool, nickname: string,
                           mailbox: seq<UploaderMessage>, orphan: bool, pc: Pc, request: Request,
                           listing: seq<u8>, wrote: seq<u8>, told: bool, late: nat)
  {
    predicate Alive() { pc != Ended }
  }

  /** A nickname in a cache, and how it came to be there. */
  datatype Entry = Entry(nickname: string, config: Config, listing: seq<u8>, wrote: seq<u8>)

  datatype Manager = Manager(config: Config, sharing: SharingState, uploaders: seq<nat>,
                             rev: map<string, nat>, cache: nat, stopIncoming: bool)

  datatype World = World(mgr: Manager, threads: seq<Thread>, caches: seq<seq<Entry>>)

  /** `get_everything_file` and its JSON, for a configuration, a nickname and a state of the disk. */
  datatype Env = Env(build: (Config, string, nat) -> seq<u8>)

  datatype Action =
    | SetSharing(sharing: SharingState)
    | SetConfig(config: Config)
    | NewRound
    | RemoveDead
    | Accept
    | Dial(nickname: string)
    | Announce(tid: nat, ok: bool)
    | Learn(tid: nat, who: string, disk: nat)
    | Look(tid: nat)
    | Receive(tid: nat, request: Request)
    | WritePiece(tid: nat, ok: bool)
    | EnterCache(tid: nat)
    | WriteChunk(tid: nat, ok: bool, last: bool)
    | WriteDenial(tid: nat, ok: bool)
    | Die(tid: nat)

  // ---------------------------------------------------------------- the manager

  predicate Held(m: Manager, tid: nat) {
    tid in m.uploaders || tid in m.rev.Values
  }

  function Delivered(t: Thread, msg: UploaderMessage): Thread {
    t.(mailbox := t.mailbox + [msg], told := t.told || msg == ShutdownConn)
  }

  /** `send` to every held thread; it succeeds exactly while the thread has its receiver. */
  function Deliver(w: World, msg: UploaderMessage): seq<Thread> {
    seq(|w.threads|, i requires 0 <= i < |w.threads| =>
      if Held(w.mgr, i) && w.threads[i].Alive() then Delivered(w.threads[i], msg) else w.threads[i])
  }

  predicate AliveAt(threads: seq<Thread>, tid: nat) {
    tid < |threads| && threads[tid].Alive()
  }

  function Retained(threads: seq<Thread>, tids: seq<nat>): seq<nat> {
    if tids == [] then []
    else Retained(threads, tids[..|tids| - 1])
         + if AliveAt(threads, tids[|tids| - 1]) then [tids[|tids| - 1]] else []
  }

  /** `send_message_to_all_uploaders`. */
  function SendAll(w: World, msg: UploaderMessage): World {
    World(w.mgr.(uploaders := Retained(w.threads, w.mgr.uploaders),
                 rev := map n | n in w.mgr.rev && AliveAt(w.threads, w.mgr.rev[n]) :: w.mgr.rev[n]),
          Deliver(w, msg), w.caches)
  }

  /** Dropping the senders that are left. */
  function Orphaned(m: Manager, threads: seq<Thread>): seq<Thread> {
    seq(|threads|, i requires 0 <= i < |threads| =>
      if Held(m, i) then threads[i].(orphan := true, told := true) else threads[i])
  }

  /** `reset_connections`, with the new configuration already in place. */
  function Reset(w: World): World {
    var sent := SendAll(w, ShutdownConn);
    World(sent.mgr.(uploaders := [], rev := map[], cache := |w.caches|, stopIncoming := true),
          Orphaned(sent.mgr, sent.threads),
          w.caches + [[]])
  }

  function Spawn(m: Manager, dialled: bool, nickname: string): Thread {
    Thread(m.config, m.cache, dialled, nickname, [], false, if dialled then Connect else Identify,
           AskNothing, [], [], false, 0)
  }

  function AcceptStep(w: World): World {
    if w.mgr.sharing == Off || w.mgr.stopIncoming || w.mgr.config.reverse then w
    else
      var v := SendAll(w, DoNothing);
      v.(mgr := v.mgr.(uploaders := v.mgr.uploaders + [|v.threads|]),
         threads := v.threads + [Spawn(v.mgr, false, "")])
  }

  function DialStep(w: World, nickname: string): World {
    if w.mgr.sharing == Off || w.mgr.stopIncoming || !w.mgr.config.reverse || nickname !in w.mgr.config.users then w
    else if nickname in w.mgr.rev then w
    else if w.mgr.sharing == Local && nickname !in w.mgr.config.loopback then w
    else
      w.(mgr := w.mgr.(rev := w.mgr.rev[nickname := |w.threads|]),
         threads := w.threads + [Spawn(w.mgr, true, nickname)])
  }

  // ---------------------------------------------------------------- a thread

  /** Beginning a write counts against the thread once it has been told to stop. */
  function Writing(t: Thread, ok: bool, next: Pc): Thread {
    t.(pc := if ok then next else Ended, late := if t.told then t.late + 1 else t.late)
  }

  function LookStep(t: Thread): Thread {
    var stop := ShutdownConn in t.mailbox || t.orphan;
    var next := match t.pc
      case Top => Read
      case Got =>
        (match t.request
         case AskList => Piece
         case AskFile => Chunk
         case AskWrong => Deny
         case AskNothing => Ended)
      case PieceSent => if |t.wrote| == |t.listing| then Publish else Piece
      case ChunkSent => Chunk
      case _ => t.pc;
    if t.pc.Top? || t.pc.Got? || t.pc.PieceSent? || t.pc.ChunkSent? then
      t.(mailbox := [], pc := if stop then Ended else next,
         wrote := if t.pc.Got? then [] else t.wrote)
    else t
  }

  function PieceStep(t: Thread, ok: bool): Thread {
    if !t.pc.Piece? || |t.wrote| > |t.listing| then t
    else
      var left := |t.listing| - |t.wrote|;
      var piece := if left <= MAX_DATA_SIZE then t.listing[|t.wrote|..]
                   else t.listing[|t.wrote|..|t.wrote| + MAX_DATA_SIZE];
      Writing(t.(wrote := if ok then t.wrote + piece else t.wrote), ok, PieceSent)
  }

  function ThreadStep(e: Env, t: Thread, a: Action): Thread {
    match a
    case Announce(_, ok) => if t.pc.Connect? then Writing(t, ok, Identify) else t
    case Learn(_, who, disk) =>
      if !t.pc.Identify? then t
      else
        var name := if t.dialled then t.nickname else who;
        t.(nickname := name, listing := e.build(t.config, name, disk), pc := Top)
    case Look(_) => LookStep(t)
    case Receive(_, request) => if t.pc.Read? then t.(request := request, pc := Got) else t
    case WritePiece(_, ok) => PieceStep(t, ok)
    case WriteChunk(_, ok, last) => if t.pc.Chunk? then Writing(t, ok, if last then Top else ChunkSent) else t
    case WriteDenial(_, ok) => if t.pc.Deny? then Writing(t, ok, Top) else t
    case Die(_) => t.(pc := Ended)
    case _ => t
  }

  function EnterStep(w: World, tid: nat): World {
    if !(tid < |w.threads|) || !w.threads[tid].pc.Publish? || !(w.threads[tid].cache < |w.caches|) then w
    else
      var t := w.threads[tid];
      var names := w.caches[t.cache];
      w.(threads := w.threads[tid := t.(pc := Top)],
         caches := if InCache(names, t.nickname) then w.caches
                   else w.caches[t.cache := names + [Entry(t.nickname, t.config, t.listing, t.wrote)]])
  }

  predicate InCache(names: seq<Entry>, nickname: string) {
    exists i :: 0 <= i < |names| && names[i].nickname == nickname
  }

  function Step(e: Env, w: World, a: Action): World {
    match a
    case SetSharing(s) => Reset(w.(mgr := w.mgr.(sharing := s)))
    case SetConfig(c) => Reset(w.(mgr := w.mgr.(config := c)))
    case NewRound => w.(mgr := w.mgr.(stopIncoming := false))
    case RemoveDead => SendAll(w, DoNothing)
    case Accept => AcceptStep(w)
    case Dial(nickname) => DialStep(w, nickname)
    case EnterCache(tid) => EnterStep(w, tid)
    case _ => if a.tid < |w.threads| then w.(threads := w.threads[a.tid := ThreadStep(e, w.threads[a.tid], a)]) else w
  }

  function Init(config: Config): World {
    World(Manager(config, Off, [], map[], 0, false), [], [[]])
  }

  function Run(e: Env, w: World, actions: seq<Action>): World
    decreases |actions|
  {
    if actions == [] then w else Run(e, Step(e, w, actions[0]), actions[1..])
  }

  // ---------------------------------------------------------------- the invariant

  /** A thread that was told will see it at its next look; until then it writes at most once. */
  predicate ThreadOk(t: Thread) {
    && (t.Alive() && t.told ==> ShutdownConn in t.mailbox || t.orphan)
    && (ShutdownConn in t.mailbox || t.orphan ==> t.told)
    && t.late <= 1
    && (!t.told ==> t.late == 0)
    && (t.pc.Connect? || t.pc.Piece? || t.pc.Chunk? || t.pc.Deny? ==> t.late == 0)
    && (t.pc.Publish? || t.pc.Read? ==> t.late == 0)
  }

  /**
   It answers what it was asked; what it has written is the beginning of its listing, and all of it
   when it enters the cache.
   */
  predicate WroteOk(t: Thread) {
    && (t.pc.Piece? || t.pc.PieceSent? || t.pc.Publish? ==> t.request.AskList?)
    && (t.pc.Chunk? || t.pc.ChunkSent? ==> t.request.AskFile?)
    && (t.pc.Deny? ==> t.request.AskWrong?)
    && (t.pc.Piece? || t.pc.PieceSent? || t.pc.Publish? ==> t.wrote <= t.listing)
    && (t.pc.Publish? ==> t.wrote == t.listing)
  }

  ghost predicate ListingOk(e: Env, t: Thread) {
    t.Alive() && !t.pc.Connect? && !t.pc.Identify? ==> exists disk :: t.listing == e.build(t.config, t.nickname, disk)
  }

  /** A complete listing, built from this configuration, was written before the entry was made. */
  ghost predicate EntryOk(e: Env, config: Config, x: Entry) {
    x.config == config && x.wrote == x.listing && exists disk :: x.listing == e.build(config, x.nickname, disk)
  }

  /** The manager's threads are those of its epoch; all others know that they must stop. */
  ghost predicate Placed(m: Manager, i: nat, t: Thread) {
    && (t.cache == m.cache ==> t.config == m.config)
    && (t.Alive() && t.cache == m.cache ==> Held(m, i))
    && (t.Alive() && t.cache != m.cache ==> t.told)
    && (t.Alive() && t.cache == m.cache && t.dialled ==> t.nickname in m.rev && m.rev[t.nickname] == i)
  }

  ghost predicate EachThread(e: Env, w: World) {
    forall i :: 0 <= i < |w.threads| ==>
      var t := w.threads[i];
      ThreadOk(t) && WroteOk(t) && ListingOk(e, t) && t.cache < |w.caches| && Placed(w.mgr, i, t)
  }

  ghost predicate Inv(e: Env, w: World) {
    && w.mgr.cache < |w.caches|
    && (forall i :: 0 <= i < |w.mgr.uploaders| ==> w.mgr.uploaders[i] < |w.threads|)
    && (forall n :: n in w.mgr.rev ==> w.mgr.rev[n] < |w.threads|)
    && EachThread(e, w)
    && (forall k :: 0 <= k < |w.caches[w.mgr.cache]| ==> EntryOk(e, w.mgr.config, w.caches[w.mgr.cache][k]))
  }

  lemma {:induction false} RetainedIs(threads: seq<Thread>, tids: seq<nat>, tid: nat)
    ensures tid in Retained(threads, tids) <==> tid in tids && AliveAt(threads, tid)
  {
    if tids == [] {
    } else {
      RetainedIs(threads, tids[..|tids| - 1], tid);
      assert tids == tids[..|tids| - 1] + [tids[|tids| - 1]];
    }
  }

  /** Sending a message drops exactly the threads that have ended. */
  lemma StillHeld(w: World, msg: UploaderMessage, tid: nat)
    ensures Held(SendAll(w, msg).mgr, tid) <==> Held(w.mgr, tid) && AliveAt(w.threads, tid)
  {
    RetainedIs(w.threads, w.mgr.uploaders, tid);
    var rev := SendAll(w, msg).mgr.rev;
    if tid in w.mgr.rev.Values && AliveAt(w.threads, tid) {
      var n :| n in w.mgr.rev && w.mgr.rev[n] == tid;
      assert n in rev && rev[n] == tid;
    }
  }

  lemma SendAllKeeps(e: Env, w: World)
    requires Inv(e, w)
    ensures Inv(e, SendAll(w, DoNothing))
  {
    hide ListingOk, EntryOk, Retained, Held;
    var v := SendAll(w, DoNothing);
    forall i | 0 <= i < |v.mgr.uploaders|
      ensures v.mgr.uploaders[i] < |v.threads|
    {
      RetainedIs(w.threads, w.mgr.uploaders, v.mgr.uploaders[i]);
    }
    forall i | 0 <= i < |v.threads|
      ensures var t := v.threads[i];
        ThreadOk(t) && WroteOk(t) && ListingOk(e, t) && t.cache < |v.caches| && Placed(v.mgr, i, t)
    {
      StillHeld(w, DoNothing, i);
      DeliveredListing(e, w.threads[i], DoNothing);
    }
  }

  lemma DeliveredListing(e: Env, t: Thread, msg: UploaderMessage)
    ensures ListingOk(e, Delivered(t, msg)) == ListingOk(e, t)
    ensures ListingOk(e, t.(orphan := true, told := true)) == ListingOk(e, t)
    ensures ListingOk(e, Delivered(t, msg).(orphan := true, told := true)) == ListingOk(e, t)
  {
  }

  /**
   A reset tells every live thread to stop: those of the ending epoch because the manager still
   holds their senders, the others because an earlier reset has told them.
   */
  lemma ResetKeeps(e: Env, w: World, v: World)
    requires Inv(e, w)
    requires v.threads == w.threads && v.caches == w.caches
    requires v.mgr.uploaders == w.mgr.uploaders && v.mgr.rev == w.mgr.rev && v.mgr.cache == w.mgr.cache
    ensures Inv(e, Reset(v))
    ensures forall i :: 0 <= i < |w.threads| && w.threads[i].Alive() ==> Reset(v).threads[i].told
  {
    hide ListingOk, EntryOk, Retained, Held;
    var u := Reset(v);
    forall i | 0 <= i < |u.threads|
      ensures var t := u.threads[i];
        && ThreadOk(t) && WroteOk(t) && ListingOk(e, t) && t.cache < |u.caches| && Placed(u.mgr, i, t)
        && (t.Alive() ==> t.told)
    {
      StillHeld(v, ShutdownConn, i);
      HeldSame(w.mgr, v.mgr, i);
      DeliveredListing(e, w.threads[i], ShutdownConn);
    }
  }

  lemma HeldSame(m: Manager, n: Manager, tid: nat)
    requires m.uploaders == n.uploaders && m.rev == n.rev
    ensures Held(m, tid) == Held(n, tid)
  {
  }

  /** It stays well, and nothing changes that places it. */
  ghost predicate StaysWell(e: Env, t: Thread, u: Thread) {
    && ThreadOk(u) && WroteOk(u) && ListingOk(e, u)
    && u.config == t.config && u.cache == t.cache && u.dialled == t.dialled && u.told == t.told
    && (u.Alive() ==> t.Alive())
    && (t.dialled ==> u.nickname == t.nickname)
  }

  lemma LookKeeps(e: Env, t: Thread)
    requires ThreadOk(t) && WroteOk(t) && ListingOk(e, t)
    ensures StaysWell(e, t, LookStep(t))
  {
  }

  lemma PieceKeeps(e: Env, t: Thread, ok: bool)
    requires ThreadOk(t) && WroteOk(t) && ListingOk(e, t)
    ensures StaysWell(e, t, PieceStep(t, ok))
  {
  }

  /** A thread's own step. */
  lemma ThreadStepKeeps(e: Env, t: Thread, a: Action)
    requires ThreadOk(t) && WroteOk(t) && ListingOk(e, t)
    ensures StaysWell(e, t, ThreadStep(e, t, a))
  {
    hide LookStep, PieceStep;
    LookKeeps(e, t);
    match a
    case WritePiece(_, ok) => PieceKeeps(e, t, ok);
    case _ =>
  }

  lemma OneThreadKeeps(e: Env, w: World, tid: nat, u: Thread)
    requires Inv(e, w) && tid < |w.threads|
    requires StaysWell(e, w.threads[tid], u)
    ensures Inv(e, w.(threads := w.threads[tid := u]))
  {
    hide ListingOk, EntryOk, ThreadOk, WroteOk, Held;
  }

  /** Only a thread of the current epoch can add to the current cache, and only a true entry. */
  lemma EnterKeeps(e: Env, w: World, tid: nat)
    requires Inv(e, w)
    ensures Inv(e, EnterStep(w, tid))
  {
    if tid < |w.threads| && w.threads[tid].pc.Publish? && w.threads[tid].cache < |w.caches| {
      var t := w.threads[tid];
      OneThreadKeeps(e, w, tid, t.(pc := Top));
      var v := w.(threads := w.threads[tid := t.(pc := Top)]);
      var x := Entry(t.nickname, t.config, t.listing, t.wrote);
      if t.cache == w.mgr.cache {
        assert ListingOk(e, t) && Placed(w.mgr, tid, t);
        assert EntryOk(e, w.mgr.config, x);
      }
      hide ListingOk, EntryOk, ThreadOk, WroteOk, Placed;
    }
  }

  lemma AddThreadKeeps(e: Env, w: World, m: Manager, t: Thread)
    requires Inv(e, w)
    requires m.config == w.mgr.config && m.cache == w.mgr.cache
    requires t == Spawn(w.mgr, t.dialled, t.nickname)
    requires
      if t.dialled then t.nickname !in w.mgr.rev && m.uploaders == w.mgr.uploaders
        && m.rev == w.mgr.rev[t.nickname := |w.threads|]
      else m.uploaders == w.mgr.uploaders + [|w.threads|] && m.rev == w.mgr.rev
    ensures Inv(e, w.(mgr := m, threads := w.threads + [t]))
  {
    hide EntryOk;
    var v := w.(mgr := m, threads := w.threads + [t]);
    forall i | 0 <= i < |v.threads|
      ensures Placed(m, i, v.threads[i])
    {
      if i < |w.threads| {
        assert Placed(w.mgr, i, w.threads[i]);
        HeldGrows(w.mgr, m, |w.threads|, t.nickname, i);
      } else if t.dialled {
        assert m.rev[t.nickname] == i;
      }
    }
  }

  lemma HeldGrows(m: Manager, n: Manager, tid: nat, nickname: string, i: nat)
    requires
      || (n.uploaders == m.uploaders + [tid] && n.rev == m.rev)
      || (n.uploaders == m.uploaders && nickname !in m.rev && n.rev == m.rev[nickname := tid])
    ensures Held(m, i) ==> Held(n, i)
  {
    if i in m.rev.Values && n.rev != m.rev {
      var k :| k in m.rev && m.rev[k] == i;
      assert k in n.rev && n.rev[k] == i;
    }
  }

  lemma StepKeeps(e: Env, w: World, a: Action)
    requires Inv(e, w)
    ensures Inv(e, Step(e, w, a))
  {
    hide SendAll, Reset, ThreadStep, EnterStep, ListingOk, EntryOk, ThreadOk, WroteOk, Spawn, Held;
    match a
    case SetSharing(s) => ResetKeeps(e, w, w.(mgr := w.mgr.(sharing := s)));
    case SetConfig(c) => ResetKeeps(e, w, w.(mgr := w.mgr.(config := c)));
    case NewRound => NewRoundKeeps(e, w);
    case RemoveDead => SendAllKeeps(e, w);
    case Accept =>
      SendAllKeeps(e, w);
      var v := SendAll(w, DoNothing);
      SpawnIs(v.mgr, false, "");
      AddThreadKeeps(e, v, v.mgr.(uploaders := v.mgr.uploaders + [|v.threads|]), Spawn(v.mgr, false, ""));
    case Dial(nickname) =>
      if nickname !in w.mgr.rev {
        SpawnIs(w.mgr, true, nickname);
        AddThreadKeeps(e, w, w.mgr.(rev := w.mgr.rev[nickname := |w.threads|]), Spawn(w.mgr, true, nickname));
      }
    case EnterCache(tid) => EnterKeeps(e, w, tid);
    case _ =>
      if a.tid < |w.threads| {
        ThreadStepKeeps(e, w.threads[a.tid], a);
        OneThreadKeeps(e, w, a.tid, ThreadStep(e, w.threads[a.tid], a));
      }
  }

  lemma SpawnIs(m: Manager, dialled: bool, nickname: string)
    ensures var t := Spawn(m, dialled, nickname); t.dialled == dialled && t.nickname == nickname
  {
  }

  lemma NewRoundKeeps(e: Env, w: World)
    requires Inv(e, w)
    ensures Inv(e, w.(mgr := w.mgr.(stopIncoming := false)))
  {
    hide ListingOk, EntryOk, ThreadOk, WroteOk;
  }

  lemma {:induction false} RunKeeps(e: Env, w: World, actions: seq<Action>)
    requires Inv(e, w)
    ensures Inv(e, Run(e, w, actions))
    decreases |actions|
  {
    hide Inv, Step;
    if actions == [] {
    } else {
      StepKeeps(e, w, actions[0]);
      RunKeeps(e, Step(e, w, actions[0]), actions[1..]);
    }
  }

  // ---------------------------------------------------------------- main results

  /**
   Epoch safety. In every interleaving, a nickname in the manager's current cache was put there by
   a thread that holds the manager's current configuration, after that thread had written the
   complete listing built from that configuration for that nickname.
   */
  lemma EpochSafety(e: Env, config: Config, actions: seq<Action>, x: Entry)
    requires var w := Run(e, Init(config), actions);
      w.mgr.cache < |w.caches| && x in w.caches[w.mgr.cache]
    ensures var m := Run(e, Init(config), actions).mgr;
      && x.config == m.config
      && x.wrote == x.listing
      && exists disk :: x.listing == e.build(m.config, x.nickname, disk)
  {
    RunKeeps(e, Init(config), actions);
    var w := Run(e, Init(config), actions);
    var k :| 0 <= k < |w.caches[w.mgr.cache]| && w.caches[w.mgr.cache][k] == x;
    assert EntryOk(e, w.mgr.config, w.caches[w.mgr.cache][k]);
  }

  /**
   Bounded revocation. In every interleaving, a thread that has been told to stop begins at most
   one more write; a live thread whose epoch is over has been told, and the manager can still
   tell every other.
   */
  lemma BoundedRevocation(e: Env, config: Config, actions: seq<Action>, tid: nat)
    requires tid < |Run(e, Init(config), actions).threads|
    ensures var w := Run(e, Init(config), actions);
      var t := w.threads[tid];
      && t.late <= 1
      && (t.Alive() && t.cache != w.mgr.cache ==> t.told)
      && (t.Alive() && t.config != w.mgr.config ==> t.told)
      && (t.Alive() && t.cache == w.mgr.cache ==> Held(w.mgr, tid))
  {
    RunKeeps(e, Init(config), actions);
    var w := Run(e, Init(config), actions);
    assert ThreadOk(w.threads[tid]) && Placed(w.mgr, tid, w.threads[tid]);
  }

  /** A change of configuration or sharing state tells every thread that is alive at that moment. */
  lemma ResetReachesAll(e: Env, config: Config, actions: seq<Action>, a: Action, tid: nat)
    requires a.SetSharing? || a.SetConfig?
    requires var w := Run(e, Init(config), actions); tid < |w.threads| && w.threads[tid].Alive()
    ensures var v := Step(e, Run(e, Init(config), actions), a);
      && tid < |v.threads| && v.threads[tid].told
      && v.caches[v.mgr.cache] == [] && v.mgr.uploaders == [] && v.mgr.rev == map[]
  {
    RunKeeps(e, Init(config), actions);
    var w := Run(e, Init(config), actions);
    hide Run, Inv;
    match a
    case SetSharing(s) => ResetKeeps(e, w, w.(mgr := w.mgr.(sharing := s)));
    case SetConfig(c) => ResetKeeps(e, w, w.(mgr := w.mgr.(config := c)));
  }

  /** In one epoch at most one live thread dials any given user. */
  lemma OneDialPerUser(e: Env, config: Config, actions: seq<Action>, i: nat, j: nat)
    requires var w := Run(e, Init(config), actions);
      && i < |w.threads| && j < |w.threads|
      && w.threads[i].Alive() && w.threads[j].Alive()
      && w.threads[i].cache == w.threads[j].cache == w.mgr.cache
      && w.threads[i].dialled && w.threads[j].dialled
      && w.threads[i].nickname == w.threads[j].nickname
    ensures i == j
  {
    RunKeeps(e, Init(config), actions);
    var w := Run(e, Init(config), actions);
    assert Placed(w.mgr, i, w.threads[i]) && Placed(w.mgr, j, w.threads[j]);
  }

  // ---------------------------------------------------------------- the settings

  ghost predicate NoSharing(actions: seq<Action>) {
    forall i :: 0 <= i < |actions| ==> !actions[i].SetSharing?
  }

  ghost predicate NoConfig(actions: seq<Action>) {
    forall i :: 0 <= i < |actions| ==> !actions[i].SetConfig?
  }

  lemma {:induction false} RunAppend(e: Env, w: World, a: seq<Action>, b: seq<Action>)
    ensures Run(e, w, a + b) == Run(e, Run(e, w, a), b)
    decreases |a|
  {
    hide Step;
    if a == [] {
      assert a + b == b;
    } else {
      assert (a + b)[1..] == a[1..] + b;
      RunAppend(e, Step(e, w, a[0]), a[1..], b);
    }
  }

  lemma RunOne(e: Env, w: World, a: Action)
    ensures Run(e, w, [a]) == Step(e, w, a)
  {
    hide Step;
    assert |[a][1..]| == 0;
  }

  /** A setting takes effect at once, and nothing else touches it. */
  lemma StepSettings(e: Env, w: World, a: Action)
    ensures var v := Step(e, w, a);
      && v.mgr.sharing == (if a.SetSharing? then a.sharing else w.mgr.sharing)
      && v.mgr.config == (if a.SetConfig? then a.config else w.mgr.config)
      && (a.SetSharing? || a.SetConfig? ==> v.mgr.stopIncoming)
  {
    hide Deliver, Orphaned, ThreadStep, Retained;
  }

  lemma {:induction false} SettingsStay(e: Env, w: World, actions: seq<Action>)
    ensures NoSharing(actions) ==> Run(e, w, actions).mgr.sharing == w.mgr.sharing
    ensures NoConfig(actions) ==> Run(e, w, actions).mgr.config == w.mgr.config
    decreases |actions|
  {
    hide Step;
    if actions != [] {
      StepSettings(e, w, actions[0]);
      SettingsStay(e, Step(e, w, actions[0]), actions[1..]);
    }
  }

  /** In every run, the sharing state and the configuration are those that were set last. */
  lemma SettingsFollow(e: Env, w: World, before: seq<Action>, a: Action, after: seq<Action>)
    ensures var v := Run(e, w, before + [a] + after);
      && (a.SetSharing? && NoSharing(after) ==> v.mgr.sharing == a.sharing)
      && (a.SetConfig? && NoConfig(after) ==> v.mgr.config == a.config)
  {
    hide Step, Run;
    RunAppend(e, w, before + [a], after);
    RunAppend(e, w, before, [a]);
    RunOne(e, Run(e, w, before), a);
    StepSettings(e, Run(e, w, before), a);
    SettingsStay(e, Run(e, w, before + [a]), after);
  }

  /** This thread is one that the manager would begin with its present settings. */
  predicate Suits(m: Manager, t: Thread) {
    && m.sharing != Off
    && t.dialled == m.config.reverse
    && (t.dialled ==> t.nickname in m.config.users && (m.sharing == Local ==> t.nickname in m.config.loopback))
  }

  ghost predicate EpochSuits(w: World) {
    forall i :: 0 <= i < |w.threads| && w.threads[i].cache == w.mgr.cache ==> Suits(w.mgr, w.threads[i])
  }

  lemma StepSuits(e: Env, w: World, a: Action)
    requires Inv(e, w) && EpochSuits(w)
    ensures EpochSuits(Step(e, w, a))
  {
    hide ThreadStep, ListingOk, EntryOk, ThreadOk, WroteOk, Retained, Held;
    match a
    case SetSharing(s) => ResetIsNewEpoch(w.(mgr := w.mgr.(sharing := s)));
    case SetConfig(c) => ResetIsNewEpoch(w.(mgr := w.mgr.(config := c)));
    case NewRound =>
    case RemoveDead =>
    case Accept =>
    case Dial(nickname) =>
    case EnterCache(tid) =>
    case _ =>
      if a.tid < |w.threads| {
        ThreadStepKeeps(e, w.threads[a.tid], a);
      }
  }

  lemma ResetIsNewEpoch(w: World)
    requires forall i :: 0 <= i < |w.threads| ==> w.threads[i].cache < |w.caches|
    ensures forall i :: 0 <= i < |Reset(w).threads| ==> Reset(w).threads[i].cache < Reset(w).mgr.cache
  {
    hide Retained, Held;
  }

  lemma {:induction false} RunSuits(e: Env, w: World, actions: seq<Action>)
    requires Inv(e, w) && EpochSuits(w)
    ensures EpochSuits(Run(e, w, actions))
    decreases |actions|
  {
    hide Inv, Step, EpochSuits;
    if actions == [] {
    } else {
      StepKeeps(e, w, actions[0]);
      StepSuits(e, w, actions[0]);
      RunSuits(e, Step(e, w, actions[0]), actions[1..]);
    }
  }

  /**
   In every interleaving, a live thread that has not been told to stop is one that the present settings
   allow: sharing is not off, it was accepted or dialled as the configuration says, and a dialled user
   is one of the configuration's, at this very machine if sharing is local. It has the configuration.
   */
  lemma ServesAsSet(e: Env, config: Config, actions: seq<Action>, tid: nat)
    requires var w := Run(e, Init(config), actions);
      tid < |w.threads| && w.threads[tid].Alive() && !w.threads[tid].told
    ensures var w := Run(e, Init(config), actions);
      Suits(w.mgr, w.threads[tid]) && w.threads[tid].config == w.mgr.config
  {
    RunKeeps(e, Init(config), actions);
    RunSuits(e, Init(config), actions);
    var w := Run(e, Init(config), actions);
    assert Placed(w.mgr, tid, w.threads[tid]);
  }

  /** What a thread writes answers the request that it read. */
  lemma AnswersRequest(e: Env, config: Config, actions: seq<Action>, tid: nat)
    requires tid < |Run(e, Init(config), actions).threads|
    ensures var t := Run(e, Init(config), actions).threads[tid];
      && (t.pc.Piece? || t.pc.Publish? ==> t.request == AskList)
      && (t.pc.Chunk? ==> t.request == AskFile)
      && (t.pc.Deny? ==> t.request == AskWrong)
  {
    RunKeeps(e, Init(config), actions);
    var w := Run(e, Init(config), actions);
    assert WroteOk(w.threads[tid]);
  }

  /** Exactly when a thread is added, and which. */
  lemma BeginsExactly(e: Env, w: World, a: Action)
    ensures var v := Step(e, w, a);
      var m := w.mgr;
      var begins := m.sharing != Off && !m.stopIncoming
        && ((a.Accept? && !m.config.reverse)
            || (a.Dial? && m.config.reverse && a.nickname in m.config.users && a.nickname !in m.rev
                && (m.sharing == Local ==> a.nickname in m.config.loopback)));
      && |v.threads| == |w.threads| + (if begins then 1 else 0)
      && (begins ==>
        var t := v.threads[|w.threads|];
        && t.Alive() && !t.told && t.mailbox == [] && t.config == m.config && t.cache == m.cache
        && t.dialled == a.Dial? && (a.Dial? ==> t.nickname == a.nickname) && Held(v.mgr, |w.threads|))
  {
    hide ThreadStep, Retained;
    if a.Dial? && |Step(e, w, a).threads| > |w.threads| {
      assert Step(e, w, a).mgr.rev[a.nickname] == |w.threads|;
    }
  }

  ghost predicate AllTold(w: World) {
    forall i :: 0 <= i < |w.threads| && w.threads[i].Alive() ==> w.threads[i].told
  }

  lemma StepOff(e: Env, w: World, a: Action)
    requires Inv(e, w) && w.mgr.sharing == Off && AllTold(w) && !a.SetSharing?
    ensures var v := Step(e, w, a);
      v.mgr.sharing == Off && AllTold(v) && |v.threads| == |w.threads|
  {
    hide ThreadStep, ListingOk, EntryOk, ThreadOk, WroteOk, Retained, Held;
    match a
    case SetSharing(_) =>
    case SetConfig(c) => ResetKeeps(e, w, w.(mgr := w.mgr.(config := c)));
    case NewRound =>
    case RemoveDead =>
    case Accept =>
    case Dial(nickname) =>
    case EnterCache(tid) =>
    case _ =>
      if a.tid < |w.threads| {
        ThreadStepKeeps(e, w.threads[a.tid], a);
      }
  }

  lemma {:induction false} RunOff(e: Env, w: World, actions: seq<Action>)
    requires Inv(e, w) && w.mgr.sharing == Off && AllTold(w) && NoSharing(actions)
    ensures var v := Run(e, w, actions);
      v.mgr.sharing == Off && AllTold(v) && |v.threads| == |w.threads|
    decreases |actions|
  {
    hide Inv, Step, AllTold;
    if actions == [] {
    } else {
      StepKeeps(e, w, actions[0]);
      StepOff(e, w, actions[0]);
      RunOff(e, Step(e, w, actions[0]), actions[1..]);
    }
  }

  /**
   Switching sharing off, in every interleaving: from then on, until the sharing state is set again,
   no thread begins, and every thread that is still alive has been told to stop.
   */
  lemma OffRevokes(e: Env, config: Config, before: seq<Action>, after: seq<Action>)
    requires NoSharing(after)
    ensures var v := Run(e, Init(config), before + [SetSharing(Off)] + after);
      v.mgr.sharing == Off && AllTold(v) && |v.threads| == |Run(e, Init(config), before).threads|
  {
    hide Run, Step, Inv, AllTold;
    var w := Run(e, Init(config), before);
    InitIsGood(e, config);
    RunKeeps(e, Init(config), before);
    RunAppend(e, Init(config), before + [SetSharing(Off)], after);
    RunAppend(e, Init(config), before, [SetSharing(Off)]);
    RunOne(e, w, SetSharing(Off));
    StepKeeps(e, w, SetSharing(Off));
    SwitchedOff(e, w);
    RunOff(e, Step(e, w, SetSharing(Off)), after);
  }

  lemma InitIsGood(e: Env, config: Config)
    ensures Inv(e, Init(config))
  {
  }

  lemma SwitchedOff(e: Env, w: World)
    requires Inv(e, w)
    ensures var v := Step(e, w, SetSharing(Off));
      v.mgr.sharing == Off && AllTold(v) && |v.threads| == |w.threads|
  {
    hide Retained, Held, ListingOk, EntryOk, ThreadOk, WroteOk;
    ResetKeeps(e, w, w.(mgr := w.mgr.(sharing := Off)));
  }
}
