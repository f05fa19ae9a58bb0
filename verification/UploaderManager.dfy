/**
 `UploaderManager` of src/incoming_uploader.rs with its fields, updated in place. Its methods are
 proved against the manager's steps of UploadSystem. The mailboxes and caches it shares with the
 threads are part of its state here.
 */
module UploaderManagers {
  import opened Common
  import opened Uploads
  import opened UploadSystem

  datatype MessageUploadManager = SharingStateMsg(sharing: SharingState) | NewConfig(config: Config)

  function Handled(w: World, m: MessageUploadManager): World {
    match m
    case SharingStateMsg(s) => Reset(w.(mgr := w.mgr.(sharing := s)))
    case NewConfig(c) => Reset(w.(mgr := w.mgr.(config := c)))
  }

  function HandledAll(w: World, ms: seq<MessageUploadManager>): World {
    if ms == [] then w else Handled(HandledAll(w, ms[..|ms| - 1]), ms[|ms| - 1])
  }

  /** The sender of a thread is in one place only, and belongs to a thread that was spawned. */
  ghost predicate HeldOnce(uploaders: seq<nat>, rev: map<string, nat>, spawned: nat) {
    && NoDup(uploaders)
    && (forall i :: 0 <= i < |uploaders| ==> uploaders[i] < spawned)
    && (forall n :: n in rev ==> rev[n] < spawned && rev[n] !in uploaders)
    && (forall m, n :: m in rev && n in rev && m != n ==> rev[m] != rev[n])
  }

  /** The threads after a message went to those of them in `some`. */
  function DeliverTo(threads: seq<Thread>, some: set<nat>, msg: UploaderMessage): seq<Thread> {
    seq(|threads|, i requires 0 <= i < |threads| =>
      if i in some && threads[i].Alive() then Delivered(threads[i], msg) else threads[i])
  }

  class UploaderManager {
    var config: Config
    var sharingState: SharingState
    var singleUploaders: seq<nat>
    var singleUploadersRev: map<string, nat>
    var reverseFileListCache: nat
    var stopIncoming: bool
    var threads: seq<Thread>
    var caches: seq<seq<Entry>>

    ghost predicate Valid()
      reads this
    {
      HeldOnce(singleUploaders, singleUploadersRev, |threads|)
    }

    function State(): World
      reads this
    {
      World(Manager(config, sharingState, singleUploaders, singleUploadersRev, reverseFileListCache, stopIncoming),
            threads, caches)
    }

    constructor (config: Config)
      ensures Valid() && State() == Init(config)
    {
      this.config := config;
      this.sharingState := Off;
      this.singleUploaders := [];
      this.singleUploadersRev := map[];
      this.reverseFileListCache := 0;
      this.stopIncoming := false;
      this.threads := [];
      this.caches := [[]];
    }

    /** `send` on the channel of one thread. */
    method Send(tid: nat, message: UploaderMessage) returns (ok: bool)
      requires tid < |threads|
      modifies this`threads
      ensures ok == old(threads)[tid].Alive()
      ensures threads == if ok then old(threads)[tid := Delivered(old(threads)[tid], message)] else old(threads)
    {
      ok := threads[tid].Alive();
      if ok {
        threads := threads[tid := Delivered(threads[tid], message)];
      }
    }

    /** Both lists keep the threads that could be reached; each of those finds the message once. */
    method SendMessageToAllUploaders(message: UploaderMessage)
      requires Valid()
      modifies this`singleUploaders, this`singleUploadersRev, this`threads
      ensures Valid()
      ensures State() == SendAll(old(State()), message)
    {
      hide Delivered, Retained, DeliverTo;
      ghost var w := State();
      RetainUploaders(message);
      RetainRev(message, w.threads, SetOf(w.mgr.uploaders));
      DeliverToHeld(w, message);
      HeldOnceRetained(w.threads, w.mgr.uploaders, w.mgr.rev);
      DeliverToLength(w.threads, SetOf(w.mgr.uploaders) + w.mgr.rev.Values, message);
    }

    method RetainUploaders(message: UploaderMessage)
      requires Valid()
      modifies this`singleUploaders, this`threads
      ensures singleUploaders == Retained(old(threads), old(singleUploaders))
      ensures threads == DeliverTo(old(threads), SetOf(old(singleUploaders)), message)
    {
      hide Delivered, Retained, SetOf;
      ghost var before := threads;
      var kept := [];
      var i := 0;
      RetainedNone(before);
      SetOfNone(singleUploaders);
      assert threads == DeliverTo(before, SetOf(singleUploaders[..0]), message);
      while i < |singleUploaders|
        invariant 0 <= i <= |singleUploaders| && singleUploaders == old(singleUploaders)
        invariant kept == Retained(before, singleUploaders[..i])
        invariant threads == DeliverTo(before, SetOf(singleUploaders[..i]), message)
      {
        var u := singleUploaders[i];
        RetainedOneMore(before, singleUploaders, i);
        assert u !in singleUploaders[..i];
        SetOfOneMore(singleUploaders, i);
        DeliverOne(before, SetOf(singleUploaders[..i]), u, message);
        var ok := Send(u, message);
        if ok {
          kept := kept + [u];
        }
        i := i + 1;
      }
      assert singleUploaders[..i] == singleUploaders;
      singleUploaders := kept;
    }

    method RetainRev(message: UploaderMessage, ghost before: seq<Thread>, ghost done: set<nat>)
      requires threads == DeliverTo(before, done, message)
      requires forall n :: n in singleUploadersRev ==>
        singleUploadersRev[n] < |before| && singleUploadersRev[n] !in done
      requires forall m, n :: m in singleUploadersRev && n in singleUploadersRev && m != n ==>
        singleUploadersRev[m] != singleUploadersRev[n]
      modifies this`singleUploadersRev, this`threads
      ensures singleUploadersRev == RetainedRev(before, old(singleUploadersRev))
      ensures threads == DeliverTo(before, done + old(singleUploadersRev).Values, message)
    {
      hide Delivered, DeliverTo, RetainedRev, Without;
      var rev := singleUploadersRev;
      var todo, kept := rev.Keys, map[];
      NothingLeft(before, rev);
      assert done + {} == done;
      while todo != {}
        invariant todo <= rev.Keys
        invariant kept == RetainedRev(before, Without(rev, todo))
        invariant threads == DeliverTo(before, done + Without(rev, todo).Values, message)
        decreases todo
      {
        var n :| n in todo;
        OneLessTodo(rev, todo, n);
        RetainedRevUpdate(before, Without(rev, todo), n, rev[n]);
        DeliverOne(before, done + Without(rev, todo).Values, rev[n], message);
        assert done + Without(rev, todo - {n}).Values == done + Without(rev, todo).Values + {rev[n]};
        var ok := Send(rev[n], message);
        if ok {
          kept := kept[n := rev[n]];
        }
        todo := todo - {n};
      }
      singleUploadersRev := kept;
    }

    /** `reset_connections`: everyone is told to stop, nobody is held, and the cache is a new one. */
    method ResetConnections()
      requires Valid()
      modifies this
      ensures Valid()
      ensures State() == Reset(old(State()))
    {
      stopIncoming := true;
      ghost var w := State();
      SendMessageToAllUploaders(ShutdownConn);
      SendAllIgnoresFlag(old(State()), w, ShutdownConn);
      // clearing the two lists drops the senders in them
      ghost var sent := State();
      threads := seq(|threads|, i requires 0 <= i < |threads| reads this =>
        if i in singleUploaders || i in singleUploadersRev.Values then threads[i].(orphan := true, told := true)
        else threads[i]);
      assert threads == Orphaned(sent.mgr, sent.threads);
      singleUploaders := [];
      singleUploadersRev := map[];
      reverseFileListCache := |caches|;
      caches := caches + [[]];
    }

    /**
     Take the queued messages in order; each one starts a new epoch. Afterwards the last sharing state
     and the last configuration hold, and unless there was nothing the present round is over.
     */
    method ReadReceiver(messages: seq<MessageUploadManager>)
      requires Valid()
      modifies this
      ensures Valid()
      ensures State() == HandledAll(old(State()), messages)
      ensures forall k :: IsLastState(messages, k) ==> sharingState == messages[k].sharing
      ensures forall k :: IsLastConfig(messages, k) ==> config == messages[k].config
      ensures (forall k :: 0 <= k < |messages| ==> !messages[k].SharingStateMsg?) ==> sharingState == old(sharingState)
      ensures (forall k :: 0 <= k < |messages| ==> !messages[k].NewConfig?) ==> config == old(config)
      ensures if messages == [] then State() == old(State()) else stopIncoming
    {
      hide Reset;
      var i := 0;
      while i < |messages|
        invariant 0 <= i <= |messages| && Valid()
        invariant State() == HandledAll(old(State()), messages[..i])
      {
        assert messages[..i + 1][..i] == messages[..i];
        match messages[i] {
          case SharingStateMsg(state) =>
            sharingState := state;
            ResetConnections();
          case NewConfig(c) =>
            config := c;
            ResetConnections();
        }
        i := i + 1;
      }
      assert messages[..i] == messages;
      HandledSharing(old(State()), messages);
      HandledConfig(old(State()), messages);
      HandledStops(old(State()), messages);
    }

    method RemoveDeadUploaders()
      requires Valid()
      modifies this
      ensures Valid()
      ensures State() == SendAll(old(State()), DoNothing)
    {
      SendMessageToAllUploaders(DoNothing);
    }

    /** A connection came in on a listener: a thread with clones of the configuration and the cache. */
    method AcceptConnection()
      requires Valid()
      requires sharingState != Off && !stopIncoming && !config.reverse
      modifies this
      ensures Valid()
      ensures State() == AcceptStep(old(State()))
    {
      RemoveDeadUploaders();
      singleUploaders := singleUploaders + [|threads|];
      threads := threads + [Spawn(State().mgr, false, "")];
    }

    method DialUser(nickname: string)
      requires Valid()
      requires sharingState != Off && !stopIncoming && config.reverse && nickname in config.users
      modifies this`singleUploadersRev, this`threads
      ensures Valid()
      ensures State() == DialStep(old(State()), nickname)
      ensures OutOfReach(nickname) || nickname in singleUploadersRev
      ensures old(singleUploadersRev).Keys <= singleUploadersRev.Keys
    {
      // Connection in progress
      if nickname in singleUploadersRev {
        return;
      }
      if sharingState == Local && nickname !in config.loopback {
        return;
      }
      var t := Spawn(State().mgr, true, nickname);
      singleUploadersRev := singleUploadersRev[nickname := |threads|];
      threads := threads + [t];
    }

    /** Sharing locally, only users at this very machine are dialled. */
    predicate OutOfReach(nickname: string)
      reads this`sharingState, this`config
    {
      sharingState == Local && nickname !in config.loopback
    }

    /** One round of reverse connections: dial every user who is not being dialled already. */
    method DialAll()
      requires Valid()
      requires sharingState != Off && !stopIncoming && config.reverse
      modifies this
      ensures Valid()
      ensures State() == Dialled(SendAll(old(State()), DoNothing), config.users)
      ensures forall k :: 0 <= k < |config.users| ==>
        OutOfReach(config.users[k]) || config.users[k] in singleUploadersRev
    {
      hide DialStep, SendAll;
      SendAllKeepsManager(State(), DoNothing);
      RemoveDeadUploaders();
      ghost var w := State();
      var i := 0;
      while i < |config.users|
        invariant 0 <= i <= |config.users| && Valid()
        invariant State() == Dialled(w, config.users[..i])
        invariant config.reverse && sharingState != Off && !stopIncoming
        invariant forall k :: 0 <= k < i ==> OutOfReach(config.users[k]) || config.users[k] in singleUploadersRev
      {
        assert config.users[..i + 1][..i] == config.users[..i];
        DialUser(config.users[i]);
        i := i + 1;
      }
      assert config.users[..i] == config.users;
    }

    /** The threads that the manager has begun act by themselves. */
    method ThreadsAct(e: Env, actions: seq<Action>)
      requires Valid() && ThreadsOnly(actions)
      modifies this`threads, this`caches
      ensures Valid() && State() == Run(e, old(State()), actions)
    {
      hide Step;
      ThreadsKeepManager(e, State(), actions);
      var w := Run(e, State(), actions);
      threads, caches := w.threads, w.caches;
    }

    /** One look into the mailbox, whatever the threads have done before it. */
    method LookAround(e: Env, turn: Turn) returns (ghost actions: seq<Action>)
      requires Valid() && ThreadsOnly(turn.others)
      modifies this
      ensures Valid() && State() == Run(e, old(State()), actions)
      ensures turn.mail != [] ==> stopIncoming
      ensures turn.mail == [] ==>
        config == old(config) && sharingState == old(sharingState) && stopIncoming == old(stopIncoming)
    {
      hide Run, HandledAll;
      ThreadsKeepManager(e, State(), turn.others);
      ThreadsAct(e, turn.others);
      ghost var w := State();
      ReadReceiver(turn.mail);
      HandledIsRun(e, w, turn.mail);
      actions := turn.others + AsActions(turn.mail);
      OnAgain(e, old(State()), turn.others, AsActions(turn.mail), State());
    }

    /**
     `run` (169-404), for these rounds: it is a run of the system, so that what holds of every
     interleaving holds of it. The inner loops end as soon as a message has come.
     */
    method RunLoop(e: Env, rounds: seq<Round>) returns (ghost actions: seq<Action>)
      requires Valid() && forall i :: 0 <= i < |rounds| ==> RoundOk(rounds[i])
      modifies this
      ensures Valid() && State() == Run(e, old(State()), actions)
    {
      hide Run, Step, RoundOk;
      NoActions(e, State());
      actions := [];
      var i := 0;
      while i < |rounds|
        invariant 0 <= i <= |rounds|
        invariant Valid() && State() == Run(e, old(State()), actions)
      {
        ghost var more := RunRound(e, rounds[i]);
        OnAgain(e, old(State()), actions, more, State());
        actions := actions + more;
        i := i + 1;
      }
    }

    method RunRound(e: Env, round: Round) returns (ghost actions: seq<Action>)
      requires Valid() && RoundOk(round)
      modifies this
      ensures Valid() && State() == Run(e, old(State()), actions)
    {
      hide Run, Spawn, SendAll;
      stopIncoming := false;
      actions := [NewRound];
      RunOne(e, old(State()), NewRound);
      ghost var more := LookAround(e, round.first);
      OnAgain(e, old(State()), actions, more, State());
      actions := actions + more;
      if sharingState == Off {
        return;
      }
      more := Share(e, round.turns);
      OnAgain(e, old(State()), actions, more, State());
      actions := actions + more;
    }

    /** The loop over incoming connections, or over the users to dial, until a message comes. */
    method Share(e: Env, turns: seq<Turn>) returns (ghost actions: seq<Action>)
      requires Valid() && sharingState != Off
      requires forall i :: 0 <= i < |turns| ==> ThreadsOnly(turns[i].others)
      modifies this
      ensures Valid() && State() == Run(e, old(State()), actions)
    {
      hide Run, Step, ThreadsOnly;
      NoActions(e, State());
      actions := [];
      var reverse := config.reverse;
      var i := 0;
      while i < |turns|
        invariant 0 <= i <= |turns|
        invariant Valid() && sharingState != Off && config.reverse == reverse
        invariant State() == Run(e, old(State()), actions)
      {
        ghost var more := LookAround(e, turns[i]);
        OnAgain(e, old(State()), actions, more, State());
        actions := actions + more;
        if stopIncoming {
          return;
        }
        if turns[i].act {
          if reverse {
            more := DialRound(e);
          } else {
            more := AcceptOne(e);
          }
          OnAgain(e, old(State()), actions, more, State());
          actions := actions + more;
        }
        i := i + 1;
      }
    }

    method AcceptOne(e: Env) returns (ghost actions: seq<Action>)
      requires Valid() && sharingState != Off && !stopIncoming && !config.reverse
      modifies this
      ensures Valid() && State() == Run(e, old(State()), actions)
      ensures config == old(config) && sharingState == old(sharingState)
    {
      hide Run, SendAll, Spawn;
      SendAllKeepsManager(State(), DoNothing);
      AcceptConnection();
      actions := [Accept];
      RunOne(e, old(State()), Accept);
    }

    method DialRound(e: Env) returns (ghost actions: seq<Action>)
      requires Valid() && sharingState != Off && !stopIncoming && config.reverse
      modifies this
      ensures Valid() && State() == Run(e, old(State()), actions)
      ensures config == old(config) && sharingState == old(sharingState)
    {
      hide Run, SendAll, DialStep;
      ghost var w := SendAll(State(), DoNothing);
      ghost var users := config.users;
      SendAllKeepsManager(State(), DoNothing);
      DialAll();
      DialledKeepsSettings(w, config.users);
      RunOne(e, old(State()), RemoveDead);
      DialledIsRun(e, w, users);
      actions := [RemoveDead] + Dials(users);
      OnAgain(e, old(State()), [RemoveDead], Dials(users), State());
    }
  }

  lemma {:induction false} DialledKeepsSettings(w: World, users: seq<string>)
    ensures var m := Dialled(w, users).mgr; m.config == w.mgr.config && m.sharing == w.mgr.sharing
  {
    if users != [] {
      DialledKeepsSettings(w, users[..|users| - 1]);
    }
  }

  /** One look of the manager into its mailbox, before which the threads did this; is there something to do then? */
  datatype Turn = Turn(others: seq<Action>, mail: seq<MessageUploadManager>, act: bool)

  /** One round of `run`: its first look, and the turns of its inner loop. */
  datatype Round = Round(first: Turn, turns: seq<Turn>)

  /** Only threads act. */
  predicate ThreadsOnly(actions: seq<Action>) {
    forall i :: 0 <= i < |actions| ==> ByThread(actions[i])
  }

  predicate ByThread(a: Action) {
    !a.SetSharing? && !a.SetConfig? && !a.NewRound? && !a.RemoveDead? && !a.Accept? && !a.Dial?
  }

  predicate RoundOk(round: Round) {
    ThreadsOnly(round.first.others) && forall i :: 0 <= i < |round.turns| ==> ThreadsOnly(round.turns[i].others)
  }

  predicate IsLastState(ms: seq<MessageUploadManager>, k: int) {
    0 <= k < |ms| && ms[k].SharingStateMsg? && forall j :: k < j < |ms| ==> !ms[j].SharingStateMsg?
  }

  predicate IsLastConfig(ms: seq<MessageUploadManager>, k: int) {
    0 <= k < |ms| && ms[k].NewConfig? && forall j :: k < j < |ms| ==> !ms[j].NewConfig?
  }

  lemma ResetSettings(w: World)
    ensures var v := Reset(w);
      v.mgr.sharing == w.mgr.sharing && v.mgr.config == w.mgr.config && v.mgr.stopIncoming
  {
    hide Deliver, Orphaned, Retained;
  }

  lemma HandledOne(w: World, m: MessageUploadManager)
    ensures var v := Handled(w, m).mgr;
      && v.sharing == (if m.SharingStateMsg? then m.sharing else w.mgr.sharing)
      && v.config == (if m.NewConfig? then m.config else w.mgr.config)
      && v.stopIncoming
  {
    hide Reset;
    match m {
      case SharingStateMsg(x) => ResetSettings(w.(mgr := w.mgr.(sharing := x)));
      case NewConfig(c) => ResetSettings(w.(mgr := w.mgr.(config := c)));
    }
  }

  lemma {:induction false} HandledSharing(w: World, ms: seq<MessageUploadManager>)
    ensures forall k :: IsLastState(ms, k) ==> HandledAll(w, ms).mgr.sharing == ms[k].sharing
    ensures (forall k :: 0 <= k < |ms| ==> !ms[k].SharingStateMsg?) ==> HandledAll(w, ms).mgr.sharing == w.mgr.sharing
  {
    hide Handled;
    if ms != [] {
      var init, last := ms[..|ms| - 1], ms[|ms| - 1];
      HandledSharing(w, init);
      HandledOne(HandledAll(w, init), last);
      assert forall i :: 0 <= i < |init| ==> init[i] == ms[i];
      forall k | IsLastState(ms, k)
        ensures HandledAll(w, ms).mgr.sharing == ms[k].sharing
      {
        assert k < |init| ==> IsLastState(init, k);
      }
    }
  }

  lemma {:induction false} HandledConfig(w: World, ms: seq<MessageUploadManager>)
    ensures forall k :: IsLastConfig(ms, k) ==> HandledAll(w, ms).mgr.config == ms[k].config
    ensures (forall k :: 0 <= k < |ms| ==> !ms[k].NewConfig?) ==> HandledAll(w, ms).mgr.config == w.mgr.config
  {
    hide Handled;
    if ms != [] {
      var init, last := ms[..|ms| - 1], ms[|ms| - 1];
      HandledConfig(w, init);
      HandledOne(HandledAll(w, init), last);
      assert forall i :: 0 <= i < |init| ==> init[i] == ms[i];
      forall k | IsLastConfig(ms, k)
        ensures HandledAll(w, ms).mgr.config == ms[k].config
      {
        assert k < |init| ==> IsLastConfig(init, k);
      }
    }
  }

  lemma HandledStops(w: World, ms: seq<MessageUploadManager>)
    ensures ms != [] ==> HandledAll(w, ms).mgr.stopIncoming
  {
    hide Handled;
    if ms != [] {
      HandledOne(HandledAll(w, ms[..|ms| - 1]), ms[|ms| - 1]);
    }
  }

  function AsAction(m: MessageUploadManager): Action {
    match m
    case SharingStateMsg(s) => SetSharing(s)
    case NewConfig(c) => SetConfig(c)
  }

  function AsActions(ms: seq<MessageUploadManager>): seq<Action> {
    seq(|ms|, i requires 0 <= i < |ms| => AsAction(ms[i]))
  }

  lemma {:induction false} HandledIsRun(e: Env, w: World, ms: seq<MessageUploadManager>)
    ensures HandledAll(w, ms) == Run(e, w, AsActions(ms))
  {
    hide Reset, Run;
    if ms == [] {
      NoActions(e, w);
    } else {
      var init, last := ms[..|ms| - 1], ms[|ms| - 1];
      HandledIsRun(e, w, init);
      assert AsActions(ms) == AsActions(init) + [AsAction(last)];
      RunAppend(e, w, AsActions(init), [AsAction(last)]);
      RunOne(e, HandledAll(w, init), AsAction(last));
    }
  }

  lemma NoActions(e: Env, w: World)
    ensures Run(e, w, []) == w
  {
  }

  function Dials(users: seq<string>): seq<Action> {
    seq(|users|, i requires 0 <= i < |users| => Dial(users[i]))
  }

  lemma {:induction false} DialledIsRun(e: Env, w: World, users: seq<string>)
    ensures Dialled(w, users) == Run(e, w, Dials(users))
  {
    hide DialStep, Run;
    if users == [] {
      NoActions(e, w);
    } else {
      var init, last := users[..|users| - 1], users[|users| - 1];
      DialledIsRun(e, w, init);
      assert Dials(users) == Dials(init) + [Dial(last)];
      RunAppend(e, w, Dials(init), [Dial(last)]);
      RunOne(e, Dialled(w, init), Dial(last));
    }
  }

  /** The threads do not touch the manager, and none of them disappears. */
  lemma {:induction false} ThreadsKeepManager(e: Env, w: World, actions: seq<Action>)
    requires ThreadsOnly(actions)
    ensures Run(e, w, actions).mgr == w.mgr && |Run(e, w, actions).threads| == |w.threads|
    decreases |actions|
  {
    hide ThreadStep;
    if actions != [] {
      ThreadsKeepManager(e, Step(e, w, actions[0]), actions[1..]);
    }
  }

  lemma OnAgain(e: Env, w: World, a: seq<Action>, b: seq<Action>, v: World)
    requires v == Run(e, Run(e, w, a), b)
    ensures v == Run(e, w, a + b)
  {
    RunAppend(e, w, a, b);
  }

  lemma RetainedNone(threads: seq<Thread>)
    ensures Retained(threads, []) == []
  {
  }

  lemma RetainedOneMore(threads: seq<Thread>, tids: seq<nat>, i: nat)
    requires i < |tids|
    ensures Retained(threads, tids[..i + 1])
      == Retained(threads, tids[..i]) + if AliveAt(threads, tids[i]) then [tids[i]] else []
  {
    assert tids[..i + 1][..i] == tids[..i];
  }

  function SetOf(tids: seq<nat>): set<nat> {
    set i | 0 <= i < |tids| :: tids[i]
  }

  lemma SetOfNone(tids: seq<nat>)
    ensures SetOf(tids[..0]) == {}
  {
  }

  lemma SetOfOneMore(tids: seq<nat>, i: nat)
    requires i < |tids|
    ensures SetOf(tids[..i + 1]) == SetOf(tids[..i]) + {tids[i]}
    ensures tids[i] in SetOf(tids[..i]) <==> tids[i] in tids[..i]
  {
    assert tids[..i + 1] == tids[..i] + [tids[i]];
    assert forall k :: 0 <= k < i ==> tids[..i][k] == tids[k] && tids[..i + 1][k] == tids[k];
    assert tids[..i + 1][i] == tids[i];
  }

  function RetainedRev(threads: seq<Thread>, rev: map<string, nat>): map<string, nat> {
    map n | n in rev && AliveAt(threads, rev[n]) :: rev[n]
  }

  lemma HeldOnceRetained(threads: seq<Thread>, uploaders: seq<nat>, rev: map<string, nat>)
    requires HeldOnce(uploaders, rev, |threads|)
    ensures HeldOnce(Retained(threads, uploaders), RetainedRev(threads, rev), |threads|)
  {
    RetainedNoDup(threads, uploaders);
    var kept := Retained(threads, uploaders);
    forall i | 0 <= i < |kept|
      ensures kept[i] < |threads|
    {
      assert kept[i] in uploaders;
    }
  }

  lemma RetainedRevUpdate(threads: seq<Thread>, m: map<string, nat>, n: string, v: nat)
    requires n !in m
    ensures RetainedRev(threads, m[n := v])
      == if AliveAt(threads, v) then RetainedRev(threads, m)[n := v] else RetainedRev(threads, m)
  {
  }

  /** The entries whose keys have been dealt with. */
  function Without(rev: map<string, nat>, todo: set<string>): map<string, nat> {
    map n | n in rev && n !in todo :: rev[n]
  }

  lemma NothingLeft(threads: seq<Thread>, rev: map<string, nat>)
    ensures Without(rev, rev.Keys) == map[] && Without(rev, rev.Keys).Values == {}
    ensures RetainedRev(threads, map[]) == map[]
    ensures Without(rev, {}) == rev
  {
    assert Without(rev, rev.Keys) == map[];
    assert Without(rev, {}) == rev;
  }

  lemma OneLessTodo(rev: map<string, nat>, todo: set<string>, n: string)
    requires todo <= rev.Keys && n in todo
    requires forall m :: m in rev && m != n ==> rev[m] != rev[n]
    ensures n !in Without(rev, todo)
    ensures Without(rev, todo - {n}) == Without(rev, todo)[n := rev[n]]
    ensures rev[n] !in Without(rev, todo).Values
    ensures Without(rev, todo - {n}).Values == Without(rev, todo).Values + {rev[n]}
  {
    ValuesOfUpdate(Without(rev, todo), n, rev[n]);
    assert Without(rev, todo - {n}) == Without(rev, todo)[n := rev[n]];
  }

  lemma ValuesOfUpdate(m: map<string, nat>, n: string, v: nat)
    requires n !in m
    ensures m[n := v].Values == m.Values + {v}
  {
    var u := m[n := v];
    assert v in u.Values by { assert u[n] == v; }
    forall x | x in m.Values
      ensures x in u.Values
    {
      var k :| k in m && m[k] == x;
      assert u[k] == x;
    }
  }

  lemma SendAllKeepsManager(w: World, msg: UploaderMessage)
    ensures var m := SendAll(w, msg).mgr;
      m.config == w.mgr.config && m.sharing == w.mgr.sharing && m.stopIncoming == w.mgr.stopIncoming
  {
  }

  lemma DeliverToLength(threads: seq<Thread>, some: set<nat>, msg: UploaderMessage)
    ensures |DeliverTo(threads, some, msg)| == |threads|
  {
  }

  /** Reaching one thread more. */
  lemma DeliverOne(threads: seq<Thread>, some: set<nat>, tid: nat, msg: UploaderMessage)
    requires tid < |threads| && tid !in some
    ensures var now := DeliverTo(threads, some, msg);
      && |now| == |threads| && now[tid] == threads[tid]
      && DeliverTo(threads, some + {tid}, msg)
         == if threads[tid].Alive() then now[tid := Delivered(now[tid], msg)] else now
  {
  }

  lemma DeliverToHeld(w: World, msg: UploaderMessage)
    ensures DeliverTo(w.threads, SetOf(w.mgr.uploaders) + w.mgr.rev.Values, msg) == Deliver(w, msg)
  {
  }

  function Dialled(w: World, users: seq<string>): World {
    if users == [] then w else DialStep(Dialled(w, users[..|users| - 1]), users[|users| - 1])
  }

  lemma SendAllIgnoresFlag(v: World, w: World, msg: UploaderMessage)
    requires w == v.(mgr := v.mgr.(stopIncoming := true))
    ensures SendAll(w, msg) == SendAll(v, msg).(mgr := SendAll(v, msg).mgr.(stopIncoming := true))
  {
    assert Deliver(w, msg) == Deliver(v, msg);
  }

  lemma {:induction false} RetainedNoDup(threads: seq<Thread>, tids: seq<nat>)
    requires NoDup(tids)
    ensures NoDup(Retained(threads, tids))
    ensures forall tid :: tid in Retained(threads, tids) ==> tid in tids
  {
    if tids == [] {
    } else {
      RetainedNoDup(threads, tids[..|tids| - 1]);
      assert tids[|tids| - 1] !in tids[..|tids| - 1];
    }
  }
}
