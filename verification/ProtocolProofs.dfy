/** What every run of the protocol keeps: lockstep, nonce uniqueness, and freedom from deadlock. */
module ProtocolProofs {
  import opened Common
  import opened CoreConsts
  import opened FrameCodec
  import opened Protocol

  // ---------------------------------------------------------------- wires

  function FrameBytes(c: Cipher, fs: seq<Frame>): seq<u8> {
    if fs == [] then []
    else Encode(c, fs[0].nonce, fs[0].msg, fs[0].payload) + FrameBytes(c, fs[1..])
  }

  /** The bytes on the wire are the complete frames followed by the tail. */
  ghost predicate BytesOf(c: Cipher, w: Wire) {
    w.bytes == FrameBytes(c, w.frames) + w.tail
  }

  /** The frames carry consecutive nonces, starting with n, none beyond the maximum. */
  ghost predicate Chain(fs: seq<Frame>, n: nat) {
    fs == [] ||
    (fs[0].nonce == n && Fits(fs[0].msg, fs[0].payload) && n + Parts(fs[0].payload) <= NONCE_MAX
     && Chain(fs[1..], n + Parts(fs[0].payload)))
  }

  /** The reader's counter after it has read the frames. */
  function End(fs: seq<Frame>, n: nat): nat {
    if fs == [] then n else End(fs[1..], n + Parts(fs[0].payload))
  }

  /** What no reader with this counter takes for a frame; only a frame that does not fit is out of its range. */
  ghost predicate Unreadable(c: Cipher, n: nat, tail: seq<u8>, long: bool)
    requires c.Valid()
  {
    || Decode(c, n, tail) == Err(Starved) || Decode(c, n, tail) == Err(NonceSpent)
    || (long && Decode(c, n, tail) == Err(Oversize))
  }

  lemma EmptyIsUnreadable(c: Cipher, n: nat)
    requires c.Valid()
    ensures Unreadable(c, n, [], false)
  {
  }

  lemma {:induction false} FrameBytesAppend(c: Cipher, fs: seq<Frame>, f: Frame)
    ensures FrameBytes(c, fs + [f]) == FrameBytes(c, fs) + Encode(c, f.nonce, f.msg, f.payload)
  {
    hide Encode;
    if fs == [] {
      assert fs + [f] == [f];
    } else {
      FrameBytesAppend(c, fs[1..], f);
      assert (fs + [f])[1..] == fs[1..] + [f];
    }
  }

  lemma {:induction false} ChainAppend(fs: seq<Frame>, n: nat, f: Frame)
    requires Chain(fs, n) && f.nonce == End(fs, n)
    requires Fits(f.msg, f.payload) && f.nonce + Parts(f.payload) <= NONCE_MAX
    ensures Chain(fs + [f], n)
    ensures End(fs + [f], n) == End(fs, n) + Parts(f.payload)
  {
    if fs == [] {
      assert fs + [f] == [f];
    } else {
      ChainAppend(fs[1..], n + Parts(fs[0].payload), f);
      assert (fs + [f])[1..] == fs[1..] + [f];
    }
  }

  /** A write appends one readable frame, or leaves something unreadable behind the frames. */
  lemma SendSpec(c: Cipher, n: nat, room: nat, w: Wire, msg: u16, payload: seq<u8>)
    requires c.Valid() && |payload| < 0x1_0000_0000 && n <= NONCE_MAX
    requires BytesOf(c, w) && w.tail == []
    ensures var t := Send(c, n, room, w, msg, payload);
      && BytesOf(c, t.wire)
      && n <= t.nonce <= NONCE_MAX
      && (t.used == [n] || (t.used == [n, n + 1] && n < NONCE_MAX))
      && (t.ok ==>
        && n + Parts(payload) <= NONCE_MAX
        && t.nonce == n + Parts(payload) == n + |t.used|)
      && (t.ok && Fits(msg, payload) ==>
        && t.wire.frames == w.frames + [Frame(n, msg, payload)]
        && t.wire.tail == [])
      && (!(t.ok && Fits(msg, payload)) ==>
        && t.wire.frames == w.frames
        && Unreadable(c, n, t.wire.tail, !Fits(msg, payload))
        && (t.ok ==> Decode(c, n, t.wire.tail) == Err(Oversize)))
  {
    hide Encode, Decode, WriteFrame, Fits, FrameBytes, Cipher.Valid, CrcLen;
    WriteFrameOutcome(c, n, room, msg, payload);
    WriteFrameNonce(c, n, room, msg, payload);
    var r := WriteFrame(c, n, room, msg, payload);
    if r.ok && Fits(msg, payload) {
      FrameBytesAppend(c, w.frames, Frame(n, msg, payload));
      assert w.bytes == FrameBytes(c, w.frames);
    } else {
      FailedWriteIsNotRead(c, n, room, msg, payload);
      assert w.tail + r.sent == r.sent;
      if r.ok {
        ReadableExactly(c, n, msg, payload, []);
        assert r.sent + [] == r.sent;
      }
    }
  }

  lemma OversizeIsUnreadable(c: Cipher, n: nat, tail: seq<u8>)
    requires c.Valid()
    ensures Decode(c, n, tail) == Err(Oversize) ==> Unreadable(c, n, tail, true)
  {
  }

  lemma LongerIsWeaker(c: Cipher, n: nat, tail: seq<u8>, long: bool, longer: bool)
    requires c.Valid() && Unreadable(c, n, tail, long) && (long ==> longer)
    ensures Unreadable(c, n, tail, longer)
  {
  }

  lemma WriteFrameNonce(c: Cipher, n: nat, room: nat, msg: u16, payload: seq<u8>)
    requires n <= NONCE_MAX
    ensures WriteFrame(c, n, room, msg, payload).nonce <= NONCE_MAX
  {
  }

  /** Whoever reads a wire whose frames start at its counter gets exactly the first of them. */
  lemma ReceiveFrame(c: Cipher, n: nat, w: Wire)
    requires c.Valid() && BytesOf(c, w) && w.frames != [] && Chain(w.frames, n)
    ensures var f := w.frames[0];
      var x := Receive(c, n, w);
      && x.Rx? && x.msg == f.msg && x.payload == f.payload
      && x.nonce == n + Parts(f.payload) <= NONCE_MAX
      && x.wire.frames == w.frames[1..] && x.wire.tail == w.tail
      && BytesOf(c, x.wire)
      && Chain(w.frames[1..], x.nonce)
      && End(w.frames, n) == End(w.frames[1..], x.nonce)
  {
    hide Encode, Decode, PayloadOf;
    var f := w.frames[0];
    var rest := FrameBytes(c, w.frames[1..]) + w.tail;
    FrameRoundTrip(c, n, f.msg, f.payload, rest);
    assert w.bytes == Encode(c, n, f.msg, f.payload) + rest;
  }

  lemma ReceiveTail(c: Cipher, n: nat, w: Wire, long: bool)
    requires c.Valid() && BytesOf(c, w) && w.frames == [] && Unreadable(c, n, w.tail, long)
    ensures var x := Receive(c, n, w);
      x == Blocked || x == Broken(NonceSpent) || (long && x == Broken(Oversize))
  {
    assert w.bytes == w.tail;
  }

  // ---------------------------------------------------------------- the invariant

  ghost predicate Below(log: seq<Sealed>, n: nat) {
    forall i :: 0 <= i < |log| ==> log[i].nonce < n
  }

  /** Nonces are used in strictly increasing order, so none is used twice. */
  ghost predicate LogOk(log: seq<Sealed>) {
    && (forall i, j :: 0 <= i < j < |log| ==> log[i].nonce < log[j].nonce)
    && (forall i :: 0 <= i < |log| ==> log[i].nonce <= NONCE_MAX)
  }

  /** The message that completes a reply to a listing request or to a selection. */
  predicate Final(list: bool, msg: u16) {
    if list then msg == MSG_FILE_LIST_FINAL
    else msg == MSG_FILE_FINISHED || msg == MSG_FILE_INVALID_FILE || msg == MSG_CANNOT_SELECT_DIRECTORY
  }

  ghost predicate NoFinals(fs: seq<Frame>, list: bool) {
    forall i :: 0 <= i < |fs| ==> !Final(list, fs[i].msg)
  }

  ghost predicate LastFinal(fs: seq<Frame>, list: bool) {
    fs != [] && Final(list, fs[|fs| - 1].msg) && NoFinals(fs[..|fs| - 1], list)
  }

  /** Not in the middle of a reply. */
  predicate Idle(up: Up) {
    up.UTop? || up.UWait? || (up.UListSent? && up.last)
  }

  /** In the middle of a reply of this kind. */
  ghost predicate Busy(e: Env, up: Up, list: bool) {
    if list then
      || (up.UGot? && up.msg == MSG_FILE_LIST)
      || (up.UList? && up.sent <= |e.listing|)
      || (up.UListSent? && !up.last && up.sent + MAX_DATA_SIZE <= |e.listing|)
    else
      || (up.UGot? && up.msg == MSG_FILE_SELECTION_CONTINUE)
      || (up.UDenying? && Final(false, up.denial))
      || (up.UFile? && e.lookup(up.path).Regular?)
      || (up.UFileSent? && e.lookup(up.path).Regular?)
  }

  predicate Request(list: bool, msg: u16) {
    msg == if list then MSG_FILE_LIST else MSG_FILE_SELECTION_CONTINUE
  }

  /** Nothing in flight, equal counters, and only fresh nonces ahead. */
  ghost predicate Quiet(s: State) {
    && s.toUp.frames == [] && s.toDown.frames == []
    && s.toUp.tail == [] && s.toDown.tail == []
    && (Idle(s.up) || s.up.UClosed?)
    && s.un == s.dn
    && Below(s.log, s.dn)
  }

  /** The request has been written and not yet read. */
  ghost predicate Asked(s: State, list: bool) {
    && s.toDown.frames == [] && s.toDown.tail == []
    && |s.toUp.frames| == 1 && s.toUp.tail == []
    && Request(list, s.toUp.frames[0].msg)
    && Chain(s.toUp.frames, s.un) && End(s.toUp.frames, s.un) == s.dn
    && Idle(s.up)
    && Below(s.log, s.dn)
  }

  /** The reply is being written; whatever is unread carries the nonces from dn up to un. */
  ghost predicate Replying(e: Env, s: State, list: bool) {
    && s.toUp.frames == [] && s.toUp.tail == [] && s.toDown.tail == []
    && Busy(e, s.up, list)
    && Chain(s.toDown.frames, s.dn) && End(s.toDown.frames, s.dn) == s.un
    && NoFinals(s.toDown.frames, list)
    && Below(s.log, s.un)
  }

  /** The reply has been written completely and its end is still unread. */
  ghost predicate Replied(s: State, list: bool) {
    && s.toUp.frames == [] && s.toUp.tail == [] && s.toDown.tail == []
    && (Idle(s.up) || s.up.UClosed?)
    && Chain(s.toDown.frames, s.dn) && End(s.toDown.frames, s.dn) == s.un
    && LastFinal(s.toDown.frames, list)
    && Below(s.log, s.un)
  }

  /** The serving end broke off: the reply on the wire has no end. */
  ghost predicate BrokenOff(e: Env, s: State, list: bool)
    requires e.cipher.Valid()
  {
    && s.up.UClosed?
    && Chain(s.toDown.frames, s.dn)
    && NoFinals(s.toDown.frames, list)
    && Unreadable(e.cipher, End(s.toDown.frames, s.dn), s.toDown.tail, false)
  }

  /** A selection that is too long lies on the wire; it will end the serving thread, and nothing answers it. */
  ghost predicate Unanswered(e: Env, s: State, list: bool)
    requires e.cipher.Valid()
  {
    && !list && s.long && Idle(s.up)
    && s.toDown.frames == [] && s.toDown.tail == []
    && s.toUp.frames == []
    && Decode(e.cipher, s.un, s.toUp.tail) == Err(Oversize)
  }

  ghost predicate Mid(e: Env, s: State, list: bool)
    requires e.cipher.Valid()
  {
    Asked(s, list) || Replying(e, s, list) || Replied(s, list) || BrokenOff(e, s, list) || Unanswered(e, s, list)
  }

  predicate Hello(msg: u16) {
    msg == MSG_REVERSE || msg == MSG_REVERSE_NO_LIST
  }

  ghost predicate Accepting(e: Env, s: State)
    requires e.cipher.Valid()
  {
    || (&& s.up == UHello && s.log == [] && s.un == s.dn == 0
        && s.toUp.frames == [] && s.toUp.tail == [] && s.toDown.frames == [] && s.toDown.tail == [])
    || (&& (Idle(s.up) || s.up.UClosed?)
        && s.toUp.frames == [] && s.toUp.tail == [] && s.toDown.tail == []
        && |s.toDown.frames| == 1 && Hello(s.toDown.frames[0].msg)
        && Chain(s.toDown.frames, s.dn) && End(s.toDown.frames, s.dn) == s.un
        && Below(s.log, s.un))
    || (&& s.up.UClosed? && s.toDown.frames == [] && Unreadable(e.cipher, s.dn, s.toDown.tail, false))
  }

  /** The asking end will not write again; what it left behind leads to at most one more reply. */
  ghost predicate Abandoned(e: Env, s: State)
    requires e.cipher.Valid()
  {
    || s.up.UClosed?
    || (&& (s.up.UHello? || Busy(e, s.up, true) || Busy(e, s.up, false))
        && s.toUp.frames == [] && s.toUp.tail == [] && s.toDown.tail == [] && Below(s.log, s.un))
    || (&& Idle(s.up) && s.toDown.tail == []
        && ((s.toUp.frames == [] && Unreadable(e.cipher, s.un, s.toUp.tail, s.long))
            || (&& |s.toUp.frames| == 1 && s.toUp.tail == []
                && (Request(true, s.toUp.frames[0].msg) || Request(false, s.toUp.frames[0].msg))
                && Chain(s.toUp.frames, s.un)
                && Below(s.log, End(s.toUp.frames, s.un)))))
  }

  /** An exchange is open that the asking end will see through to its end. */
  ghost predicate Open(s: State) {
    || s.down.DList? || s.down.DFirst? || s.down.DStream?
    || (s.down.DProcess? && !Final(false, s.down.msg))
    || (s.down.DCheck? && !Final(false, s.down.msg))
  }

  /** The asking end only has to let go of the connection. */
  ghost predicate Dead(s: State) {
    s.down.DClosed? || (s.down.DBetween? && s.stop)
  }

  /** No exchange is open on a connection that may still be used. */
  ghost predicate Resting(s: State) {
    !s.down.DAccept? && !Open(s) && !Dead(s)
  }

  ghost predicate Basics(e: Env, s: State) {
    && BytesOf(e.cipher, s.toUp) && BytesOf(e.cipher, s.toDown)
    && LogOk(s.log)
    && s.un <= NONCE_MAX && s.dn <= NONCE_MAX
  }

  ghost predicate Inv(e: Env, s: State)
    requires e.cipher.Valid()
  {
    && Basics(e, s)
    && (s.down.DAccept? ==> Accepting(e, s))
    && (Resting(s) ==> Quiet(s))
    && (Open(s) ==> Mid(e, s, s.down.DList?))
    && (Dead(s) ==> Abandoned(e, s))
    && (s.down.DAccepted? ==> Hello(s.down.hello))
    && (s.down.DProcess? || s.down.DCheck? ==> FileFrame(s.down.msg))
  }

  predicate FileFrame(msg: u16) {
    msg == MSG_FILE_CHUNK || msg == MSG_FILE_FINISHED
  }

  // ---------------------------------------------------------------- every step keeps it

  lemma LogGrows(log: seq<Sealed>, byUp: bool, used: seq<nat>, n: nat)
    requires LogOk(log) && Below(log, n) && n <= NONCE_MAX
    requires used == [n] || (used == [n, n + 1] && n < NONCE_MAX)
    ensures LogOk(log + Seals(byUp, used))
    ensures Below(log + Seals(byUp, used), n + |used|)
  {
  }

  lemma GivesUp(e: Env, s: State, list: bool)
    requires e.cipher.Valid() && (Quiet(s) || Mid(e, s, list) || Accepting(e, s))
    ensures Abandoned(e, s)
  {
    hide Decode;
    EmptyIsUnreadable(e.cipher, s.un);
  }

  lemma AnyGivesUp(e: Env, s: State)
    requires e.cipher.Valid() && Inv(e, s)
    ensures Abandoned(e, s)
  {
    hide Quiet, Mid, Abandoned, Accepting, Basics;
    if !Dead(s) {
      GivesUp(e, s, s.down.DList?);
    }
  }

  lemma InitInv(e: Env, disk: map<seq<u8>, seq<u8>>)
    requires e.cipher.Valid()
    ensures Inv(e, Init(e, disk))
  {
  }

  lemma Nothing(e: Env, n: nat)
    requires e.cipher.Valid()
    ensures Chain([], n) && End([], n) == n && NoFinals([], true) && NoFinals([], false)
    ensures Unreadable(e.cipher, n, [], false) && Unreadable(e.cipher, n, [], true)
  {
  }

  /** The serving end moves without touching the wires: a mailbox look or a cut. */
  lemma UMoves(e: Env, s: State, up: Up)
    requires e.cipher.Valid() && Inv(e, s)
    requires
      || up.UClosed?
      || (Idle(s.up) && Idle(up))
      || (Busy(e, s.up, true) && Busy(e, up, true))
      || (Busy(e, s.up, false) && Busy(e, up, false))
    ensures Inv(e, s.(up := up))
  {
    hide Unreadable, BytesOf, LogOk, Below, NoFinals, LastFinal, Chain, End;
    Nothing(e, s.un);
    Nothing(e, s.dn);
    Nothing(e, End(s.toDown.frames, s.dn));
  }

  lemma UpShape(e: Env, s: State)
    requires e.cipher.Valid() && Inv(e, s)
    ensures s.up.UHello? || s.up.UClosed? || Idle(s.up) || Busy(e, s.up, true) || Busy(e, s.up, false)
  {
    hide Unreadable, BytesOf, LogOk, LastFinal, NoFinals, Chain, Below;
  }

  /** While the serving end replies, the exchange is open or abandoned. */
  lemma BusyShape(e: Env, s: State, list: bool)
    requires e.cipher.Valid() && Inv(e, s) && Busy(e, s.up, list)
    ensures s.toUp.frames == [] && s.toUp.tail == [] && s.toDown.tail == [] && Below(s.log, s.un)
    ensures Dead(s) || (Open(s) && s.down.DList? == list && Replying(e, s, list))
  {
    hide Unreadable, BytesOf, LogOk, LastFinal, NoFinals, Chain, Below;
  }

  lemma UMailKeeps(e: Env, s: State, shutdown: bool)
    requires e.cipher.Valid() && Inv(e, s)
    ensures Inv(e, UMailStep(e, s, shutdown))
  {
    hide Inv;
    UpShape(e, s);
    var t := UMailStep(e, s, shutdown);
    if t.up != s.up {
      assert t == s.(up := t.up);
      UMoves(e, s, t.up);
    } else {
      assert t == s;
    }
  }

  /** The serving end reads: what it finds is a request, never anything broken. */
  lemma UReadKeeps(e: Env, s: State)
    requires e.cipher.Valid() && Inv(e, s)
    ensures Inv(e, UReadStep(e, s))
  {
    hide Receive, Unreadable, BytesOf, LogOk, LastFinal, NoFinals;
    if s.up.UWait? {
      if s.toUp.frames == [] {
        Nothing(e, s.un);
        OversizeIsUnreadable(e.cipher, s.un, s.toUp.tail);
        assert s.toUp.tail == [] || Unreadable(e.cipher, s.un, s.toUp.tail, s.long);
        ReceiveTail(e.cipher, s.un, s.toUp, s.long);
        UMoves(e, s, UClosed);
      } else {
        ReceiveFrame(e.cipher, s.un, s.toUp);
        Nothing(e, s.dn);
      }
    }
  }

  lemma ReplyContinues(e: Env, s: State, room: nat, msg: u16, payload: seq<u8>, next: Up, list: bool)
    requires e.cipher.Valid() && Basics(e, s) && Replying(e, s, list) && Fits(msg, payload)
    requires if Final(list, msg) then Idle(next) else Busy(e, next, list)
    ensures Basics(e, UpSends(e, s, room, msg, payload, next))
    ensures Mid(e, UpSends(e, s, room, msg, payload, next), list)
  {
    hide Send, Unreadable, BytesOf, LogOk, Below, Chain, End;
    var f := Frame(s.un, msg, payload);
    var x := Send(e.cipher, s.un, room, s.toDown, msg, payload);
    SendSpec(e.cipher, s.un, room, s.toDown, msg, payload);
    LogGrows(s.log, true, x.used, s.un);
    if x.ok {
      ChainAppend(s.toDown.frames, s.dn, f);
      assert (s.toDown.frames + [f])[..|s.toDown.frames|] == s.toDown.frames;
    }
  }

  lemma ReplyToNobody(e: Env, s: State, room: nat, msg: u16, payload: seq<u8>, next: Up)
    requires e.cipher.Valid() && Basics(e, s) && Fits(msg, payload)
    requires s.toUp.frames == [] && s.toUp.tail == [] && s.toDown.tail == [] && Below(s.log, s.un)
    requires Idle(next) || Busy(e, next, true) || Busy(e, next, false)
    ensures Basics(e, UpSends(e, s, room, msg, payload, next))
    ensures Abandoned(e, UpSends(e, s, room, msg, payload, next))
  {
    hide Send, Unreadable, BytesOf, LogOk, Below, Chain, End;
    var x := Send(e.cipher, s.un, room, s.toDown, msg, payload);
    SendSpec(e.cipher, s.un, room, s.toDown, msg, payload);
    LogGrows(s.log, true, x.used, s.un);
    Nothing(e, x.nonce);
  }

  /** The serving end writes one frame of its reply, or breaks off while doing so. */
  lemma UpSendsKeeps(e: Env, s: State, room: nat, msg: u16, payload: seq<u8>, next: Up, list: bool)
    requires e.cipher.Valid() && Inv(e, s) && Fits(msg, payload)
    requires Busy(e, s.up, list)
    requires if Final(list, msg) then Idle(next) else Busy(e, next, list)
    ensures Inv(e, UpSends(e, s, room, msg, payload, next))
  {
    hide Send, Basics, Mid, Replying, Abandoned, Quiet, Accepting, Busy;
    BusyShape(e, s, list);
    if Dead(s) {
      ReplyToNobody(e, s, room, msg, payload, next);
    } else {
      ReplyContinues(e, s, room, msg, payload, next, list);
    }
  }

  lemma BelowNothing(n: nat)
    ensures Below([], n)
  {
  }

  lemma HelloKeeps(e: Env, s: State, room: nat, msg: u16)
    requires e.cipher.Valid() && Inv(e, s) && s.up == UHello && Hello(msg)
    ensures Inv(e, UpSends(e, s, room, msg, [], UTop))
  {
    hide Send, Unreadable, BytesOf, LogOk, Below;
    BelowNothing(s.un);
    assert s.down.DAccept? || Dead(s);
    var x := Send(e.cipher, s.un, room, s.toDown, msg, []);
    SendSpec(e.cipher, s.un, room, s.toDown, msg, []);
    LogGrows(s.log, true, x.used, s.un);
    Nothing(e, x.nonce);
    if s.down.DAccept? && x.ok {
      ChainAppend([], s.dn, Frame(s.un, msg, []));
      assert [] + [Frame(s.un, msg, [])] == [Frame(s.un, msg, [])];
    }
  }

  /** Two states with the same wires, counters, serving end and log. */
  ghost predicate SameLink(s: State, t: State) {
    s.up == t.up && s.un == t.un && s.dn == t.dn && s.toUp == t.toUp && s.toDown == t.toDown && s.log == t.log
      && s.long == t.long
  }

  /** The link, and nothing else, decides these. */
  lemma AskerFrame(e: Env, s: State, t: State)
    requires e.cipher.Valid() && SameLink(s, t)
    ensures
      && Quiet(t) == Quiet(s)
      && Mid(e, t, true) == Mid(e, s, true)
      && Mid(e, t, false) == Mid(e, s, false)
      && Abandoned(e, t) == Abandoned(e, s)
      && Basics(e, t) == Basics(e, s)
  {
    hide Unreadable, BytesOf, LogOk, Below, Busy, Chain, NoFinals, LastFinal;
  }

  /** The asking end moves without touching the wires and lets go, or goes on resting. */
  lemma DMoves(e: Env, s: State, t: State)
    requires e.cipher.Valid() && Inv(e, s) && SameLink(s, t)
    requires
      || Dead(t)
      || (Resting(s) && Resting(t) && !t.down.DAccepted?)
      || (Open(s) && Open(t) && s.down.DList? == t.down.DList?)
    requires t.down.DProcess? || t.down.DCheck? ==> FileFrame(t.down.msg)
    ensures Inv(e, t)
  {
    hide Basics, Mid, Abandoned, Quiet, Accepting;
    AnyGivesUp(e, s);
    AskerFrame(e, s, t);
  }

  /** Reading consumes the first frame of an open reply; the final one closes the exchange. */
  lemma OpenReads(e: Env, s: State, list: bool)
    requires e.cipher.Valid() && Basics(e, s) && Mid(e, s, list)
    ensures match Receive(e.cipher, s.dn, s.toDown)
      case Blocked => true
      case Broken(error) => error == NonceSpent
      case Rx(msg, payload, n, wire) =>
        var t := s.(dn := n, toDown := wire);
        && Basics(e, t)
        && (if Final(list, msg) then Quiet(t) else Mid(e, t, list))
  {
    hide Receive, Unreadable, BytesOf, LogOk, Below, Busy;
    if s.toDown.frames == [] {
      Nothing(e, s.dn);
      ReceiveTail(e.cipher, s.dn, s.toDown, false);
    } else {
      ReceiveFrame(e.cipher, s.dn, s.toDown);
      var rest := s.toDown.frames[1..];
      if Replied(s, list) && rest != [] {
        assert rest[..|rest| - 1] == s.toDown.frames[..|s.toDown.frames| - 1][1..];
      }
    }
  }

  lemma AcceptReads(e: Env, s: State)
    requires e.cipher.Valid() && Basics(e, s) && Accepting(e, s)
    ensures match Receive(e.cipher, s.dn, s.toDown)
      case Blocked => true
      case Broken(error) => error == NonceSpent
      case Rx(msg, payload, n, wire) =>
        var t := s.(dn := n, toDown := wire);
        Basics(e, t) && Hello(msg) && Quiet(t)
  {
    hide Receive, Unreadable, BytesOf, LogOk, Below;
    if s.toDown.frames == [] {
      Nothing(e, s.dn);
      ReceiveTail(e.cipher, s.dn, s.toDown, false);
    } else {
      ReceiveFrame(e.cipher, s.dn, s.toDown);
    }
  }

  /** The frame that was read decides how the asking end goes on. */
  lemma AfterReadKeeps(e: Env, s: State, msg: u16, payload: seq<u8>)
    requires e.cipher.Valid() && Basics(e, s)
    requires s.down.DAccept? || s.down.DList? || s.down.DFirst? || s.down.DStream?
    requires s.down.DAccept? ==> Hello(msg) && Quiet(s)
    requires !s.down.DAccept? ==> if Final(s.down.DList?, msg) then Quiet(s) else Mid(e, s, s.down.DList?)
    ensures forall heard :: Inv(e, s.(down := AfterRead(s.down, msg, payload), heard := heard))
  {
    hide Basics, Accepting, Abandoned, Quiet, Mid;
    GivesUp(e, s, s.down.DList?);
    forall heard
      ensures Inv(e, s.(down := AfterRead(s.down, msg, payload), heard := heard))
    {
      AskerFrame(e, s, s.(down := AfterRead(s.down, msg, payload), heard := heard));
    }
  }

  lemma DReadKeeps(e: Env, s: State)
    requires e.cipher.Valid() && Inv(e, s)
    ensures Inv(e, DReadStep(e, s))
  {
    hide Receive, Basics, Accepting, Abandoned, Quiet, Mid;
    if s.down.DAccept? || s.down.DList? || s.down.DFirst? || s.down.DStream? {
      if s.down.DAccept? {
        AcceptReads(e, s);
      } else {
        OpenReads(e, s, s.down.DList?);
      }
      match Receive(e.cipher, s.dn, s.toDown) {
        case Blocked =>
        case Broken(_) => DMoves(e, s, s.(down := DClosed));
        case Rx(msg, payload, n, wire) =>
          AfterReadKeeps(e, s.(dn := n, toDown := wire), msg, payload);
      }
    }
  }

  lemma DMailKeeps(e: Env, s: State, stop: bool)
    requires e.cipher.Valid() && Inv(e, s)
    ensures Inv(e, DMailStep(s, stop))
  {
    var t := DMailStep(s, stop);
    if s.down.DAccepted? || s.down.DCheck? || s.down.DBetween? {
      hide Inv;
      DMoves(e, s, t);
    }
  }

  lemma DWorkKeeps(e: Env, s: State)
    requires e.cipher.Valid() && Inv(e, s)
    ensures Inv(e, DWorkStep(s))
  {
    if s.down.DProcess? {
      assert FileFrame(s.down.msg);
      hide Inv;
      DMoves(e, s, DWorkStep(s));
    }
  }

  /** A request is written while everything is quiet, and opens an exchange of its kind. */
  lemma RequestOpens(e: Env, s: State, room: nat, msg: u16, payload: seq<u8>, next: Down, list: bool)
    requires e.cipher.Valid() && Basics(e, s) && Quiet(s) && |payload| < 0x1_0000_0000
    requires Request(list, msg) && !next.DClosed? && (list ==> Fits(msg, payload))
    ensures var t := DownSends(e, s, room, msg, payload, next);
      && Basics(e, t)
      && ((t.down == next && Mid(e, t, list)) || (t.down == DClosed && Abandoned(e, t)))
  {
    hide Send, Unreadable, BytesOf, LogOk, Below, Decode, Fits, Cipher.Valid;
    var f := Frame(s.dn, msg, payload);
    var x := Send(e.cipher, s.dn, room, s.toUp, msg, payload);
    SendSpec(e.cipher, s.dn, room, s.toUp, msg, payload);
    LogGrows(s.log, false, x.used, s.dn);
    Nothing(e, s.dn);
    Nothing(e, x.nonce);
    if !x.ok {
      LongerIsWeaker(e.cipher, s.dn, x.wire.tail, !Fits(msg, payload), s.long || !Fits(msg, payload));
    }
    if x.ok && Fits(msg, payload) {
      ChainAppend([], s.dn, f);
      assert [] + [f] == [f];
    }
  }

  lemma DSendsKeeps(e: Env, s: State, room: nat, msg: u16, payload: seq<u8>, next: Down)
    requires e.cipher.Valid() && Inv(e, s) && Resting(s) && |payload| < 0x1_0000_0000
    requires next.DList? || next.DFirst?
    requires next.DList? ==> Fits(msg, payload)
    requires Request(next.DList?, msg)
    ensures Inv(e, DownSends(e, s, room, msg, payload, next))
  {
    hide Send, Basics, Mid, Abandoned, Quiet, Accepting;
    RequestOpens(e, s, room, msg, payload, next, next.DList?);
  }

  lemma StepKeeps(e: Env, s: State, a: Action)
    requires e.cipher.Valid() && Inv(e, s)
    ensures Inv(e, Step(e, s, a))
  {
    hide Inv, UpSends, DownSends, UMailStep, UReadStep, DReadStep, DMailStep, DWorkStep, DSelectStep, UPieceStep,
      UChunkStep;
    match a
    case UAbort => UMoves(e, s, UClosed);
    case UWriteHello(room, noList) =>
      if s.up == UHello { HelloKeeps(e, s, room, if noList then MSG_REVERSE_NO_LIST else MSG_REVERSE); }
    case UMail(shutdown) => UMailKeeps(e, s, shutdown);
    case URead => UReadKeeps(e, s);
    case USendPiece(room) => UPieceKeeps(e, s, room);
    case USendDenial(room) =>
      if s.up.UDenying? {
        UpShape(e, s);
        UpSendsKeeps(e, s, room, s.up.denial, [], UTop, false);
      }
    case USendChunk(room, len) => UChunkKeeps(e, s, room, len);
    case DAbort => DMoves(e, s, s.(down := DClosed));
    case DMail(stop) => DMailKeeps(e, s, stop);
    case DRead => DReadKeeps(e, s);
    case DSkipList => if s.down == DStart { DMoves(e, s, s.(down := DReady)); }
    case DAskList(room) =>
      if s.down == DStart || s.down == DForce {
        DSendsKeeps(e, s, room, MSG_FILE_LIST, [], DList([], s.down == DForce));
      }
    case DSelect(room, path, want) => DSelectKeeps(e, s, room, path, want);
    case DWork => DWorkKeeps(e, s);
  }

  lemma UChunkKeeps(e: Env, s: State, room: nat, len: nat)
    requires e.cipher.Valid() && Inv(e, s)
    ensures Inv(e, UChunkStep(e, s, room, len))
  {
    hide Inv, UpSends, FileRead;
    UpShape(e, s);
    if s.up.UFile? && e.lookup(s.up.path).Regular? {
      var target := e.lookup(s.up.path);
      var data := FileRead(target.content, s.up.pos, len);
      var pos := s.up.pos + |data|;
      var finished := pos >= target.size || data == [];
      UpSendsKeeps(e, s, room, if finished then MSG_FILE_FINISHED else MSG_FILE_CHUNK, data,
                   if finished then UTop else UFileSent(s.up.path, pos), false);
    }
  }

  lemma DSelectKeeps(e: Env, s: State, room: nat, path: seq<u8>, want: u64)
    requires e.cipher.Valid() && Inv(e, s)
    ensures Inv(e, DSelectStep(e, s, room, path, want))
  {
    hide Inv, DownSends, ToBE;
    var have := OnDisk(s, path);
    if s.down == DReady && |path| <= MAX_EVERYTHING_FILE_SIZE {
      if |have| >= want {
        DMoves(e, s, DSelectStep(e, s, room, path, want));
      } else {
        DSendsKeeps(e, s, room, MSG_FILE_SELECTION_CONTINUE, Selection(|have|, path), DFirst(path, want));
      }
    }
  }

  lemma UPieceKeeps(e: Env, s: State, room: nat)
    requires e.cipher.Valid() && Inv(e, s)
    ensures Inv(e, UPieceStep(e, s, room))
  {
    hide Inv, UpSends, Piece;
    UpShape(e, s);
    if s.up.UList? {
      var last := |e.listing| - s.up.sent <= MAX_DATA_SIZE;
      UpSendsKeeps(e, s, room, if last then MSG_FILE_LIST_FINAL else MSG_FILE_LIST_PIECE,
                   Piece(e.listing, s.up.sent), UListSent(s.up.sent, last), true);
    }
  }

  /** The invariant holds throughout every run. */
  lemma {:induction false} RunKeeps(e: Env, s: State, actions: seq<Action>)
    requires e.cipher.Valid() && Inv(e, s)
    ensures Inv(e, Run(e, s, actions))
    decreases |actions|
  {
    hide Inv, Step;
    if actions == [] {
    } else {
      StepKeeps(e, s, actions[0]);
      RunKeeps(e, Step(e, s, actions[0]), actions[1..]);
    }
  }

  // ---------------------------------------------------------------- main results

  /** The asking end is about to write a request on this connection. */
  predicate MayAsk(s: State) {
    s.down.DStart? || s.down.DReady? || s.down.DForce?
  }

  /**
   Lockstep. Whenever the asking end may start a request, both directions are empty, the counters
   are equal, and the serving end is between requests or gone; however the run went before.
   */
  lemma Lockstep(e: Env, disk: map<seq<u8>, seq<u8>>, actions: seq<Action>)
    requires e.cipher.Valid()
    ensures var s := Run(e, Init(e, disk), actions);
      MayAsk(s) ==>
        && s.toUp.bytes == [] && s.toDown.bytes == []
        && s.un == s.dn
        && (Idle(s.up) || s.up.UClosed?)
  {
    InitInv(e, disk);
    RunKeeps(e, Init(e, disk), actions);
  }

  /** No nonce encrypts twice on a connection, counting both ends, nor in its 12-byte form. */
  lemma NonceUniqueness(e: Env, disk: map<seq<u8>, seq<u8>>, actions: seq<Action>, i: nat, j: nat)
    requires e.cipher.Valid()
    requires i < j < |Run(e, Init(e, disk), actions).log|
    ensures var log := Run(e, Init(e, disk), actions).log;
      && log[i].nonce != log[j].nonce
      && log[i].nonce <= NONCE_MAX && log[j].nonce <= NONCE_MAX
      && NonceBytes(log[i].nonce) != NonceBytes(log[j].nonce)
  {
    InitInv(e, disk);
    RunKeeps(e, Init(e, disk), actions);
    var log := Run(e, Init(e, disk), actions).log;
    if NonceBytes(log[i].nonce) == NonceBytes(log[j].nonce) {
      NonceBytesInjective(log[i].nonce, log[j].nonce);
    }
  }

  /** What a read may find instead of a frame: the connection's last nonce spent, or a selection that is too long. */
  predicate SoundRead(x: Rx, long: bool) {
    x.Broken? ==> x.error == NonceSpent || (long && x.error == Oversize)
  }

  /**
   No end ever reads anything forged or mismatched, and only the serving end anything out of its
   range, after a selection that does not fit.
   */
  lemma ReadsAreSound(e: Env, disk: map<seq<u8>, seq<u8>>, actions: seq<Action>)
    requires e.cipher.Valid()
    ensures var s := Run(e, Init(e, disk), actions);
      && (s.up.UWait? ==> SoundRead(Receive(e.cipher, s.un, s.toUp), s.long))
      && (DWaits(s) ==> SoundRead(Receive(e.cipher, s.dn, s.toDown), false))
  {
    InitInv(e, disk);
    RunKeeps(e, Init(e, disk), actions);
    var s := Run(e, Init(e, disk), actions);
    hide Run, Receive;
    if s.up.UWait? {
      UReadSound(e, s);
    }
    if s.down.DAccept? {
      AcceptReads(e, s);
    } else if DWaits(s) {
      OpenReads(e, s, s.down.DList?);
    }
  }

  lemma UReadSound(e: Env, s: State)
    requires e.cipher.Valid() && Inv(e, s) && s.up.UWait?
    ensures SoundRead(Receive(e.cipher, s.un, s.toUp), s.long)
    ensures s.toUp.frames != [] ==> Receive(e.cipher, s.un, s.toUp).Rx?
  {
    hide Receive, Unreadable, BytesOf, LogOk, Below, NoFinals, LastFinal;
    Nothing(e, s.un);
    if s.toUp.frames == [] {
      OversizeIsUnreadable(e.cipher, s.un, s.toUp.tail);
      assert s.toUp.tail == [] || Unreadable(e.cipher, s.un, s.toUp.tail, s.long);
      if s.toUp.tail == [] {
        ReceiveTail(e.cipher, s.un, s.toUp, false);
      } else {
        ReceiveTail(e.cipher, s.un, s.toUp, s.long);
      }
    } else {
      ReceiveFrame(e.cipher, s.un, s.toUp);
    }
  }

  /** The longest path that a selection has room for, behind the position in the file. */
  const LONGEST_PATH: nat := TOTAL_BUFFER_SIZE - PAYLOAD_OFFSET - CRC_SIZE - 8

  ghost predicate SelectsLong(a: Action) {
    a.DSelect? && |a.path| > LONGEST_PATH
  }

  lemma LongStep(e: Env, s: State, a: Action)
    requires e.cipher.Valid()
    ensures Step(e, s, a).long ==> s.long || SelectsLong(a)
  {
    hide WriteFrame, Receive, FileRead, Piece, ToBE;
  }

  /** Only the selection of a path that is too long makes a run one that can end in such a read. */
  lemma {:induction false} LongRun(e: Env, s: State, actions: seq<Action>)
    requires e.cipher.Valid()
    ensures Run(e, s, actions).long ==> s.long || exists i :: 0 <= i < |actions| && SelectsLong(actions[i])
    decreases |actions|
  {
    hide Step, SelectsLong;
    if actions != [] {
      LongStep(e, s, actions[0]);
      LongRun(e, Step(e, s, actions[0]), actions[1..]);
      if exists i :: 0 <= i < |actions[1..]| && SelectsLong(actions[1..][i]) {
        var i :| 0 <= i < |actions[1..]| && SelectsLong(actions[1..][i]);
        assert SelectsLong(actions[i + 1]);
      }
    }
  }

  /** And such a selection, when it gets through, is out of the serving end's range. */
  lemma LongSelectionEndsServing(e: Env, s: State, room: nat, path: seq<u8>, want: u64)
    requires e.cipher.Valid() && Inv(e, s) && s.down == DReady
    requires |OnDisk(s, path)| < want && SelectsLong(DSelect(room, path, want))
    requires Step(e, s, DSelect(room, path, want)).down == DFirst(path, want)
    ensures var t := Step(e, s, DSelect(room, path, want));
      t.long && Receive(e.cipher, t.un, t.toUp) == Broken(Oversize)
  {
    hide WriteFrame, ToBE, Decode, BytesOf, LogOk, Below, Encode;
    var payload := Selection(|OnDisk(s, path)|, path);
    WriteFrameOutcome(e.cipher, s.dn, room, MSG_FILE_SELECTION_CONTINUE, payload);
    ReadableExactly(e.cipher, s.dn, MSG_FILE_SELECTION_CONTINUE, payload, []);
    var wire := Encode(e.cipher, s.dn, MSG_FILE_SELECTION_CONTINUE, payload);
    assert wire + [] == wire;
    var t := Step(e, s, DSelect(room, path, want));
    QuietBytes(e, s);
    assert [] + wire == wire;
    assert t.toUp.bytes == wire;
  }

  lemma QuietBytes(e: Env, s: State)
    requires e.cipher.Valid() && Inv(e, s) && s.down == DReady
    ensures s.toUp.bytes == [] && s.un == s.dn
  {
  }

  /** An end that can move without a frame from the other. */
  predicate DWaits(s: State) {
    s.down.DAccept? || s.down.DList? || s.down.DFirst? || s.down.DStream?
  }

  /**
   While both ends are there, they are never both blocked on a read: one of them gets a frame, or
   the connection ends.
   */
  lemma NoDeadlock(e: Env, disk: map<seq<u8>, seq<u8>>, actions: seq<Action>)
    requires e.cipher.Valid()
    ensures var s := Run(e, Init(e, disk), actions);
      s.up.UWait? && DWaits(s) ==>
        || Receive(e.cipher, s.un, s.toUp).Rx?
        || Receive(e.cipher, s.dn, s.toDown).Rx?
        || (s.long && Receive(e.cipher, s.un, s.toUp) == Broken(Oversize))
  {
    InitInv(e, disk);
    RunKeeps(e, Init(e, disk), actions);
    var s := Run(e, Init(e, disk), actions);
    hide Run, Receive, Inv, Unanswered, BytesOf, Chain;
    if s.up.UWait? && DWaits(s) {
      if s.toUp.frames != [] {
        UReadSound(e, s);
      } else {
        WaitingShape(e, s);
        if Unanswered(e, s, false) {
          OversizeTail(e, s);
        } else {
          ReceiveFrame(e.cipher, s.dn, s.toDown);
        }
      }
    }
  }

  /** With nothing to read for the serving end, there is a frame for the asking end, or a request that is too long. */
  lemma WaitingShape(e: Env, s: State)
    requires e.cipher.Valid() && Inv(e, s) && s.up.UWait? && DWaits(s) && s.toUp.frames == []
    ensures Unanswered(e, s, false)
      || (s.toDown.frames != [] && Chain(s.toDown.frames, s.dn) && BytesOf(e.cipher, s.toDown))
  {
    hide Unreadable, BytesOf, LogOk, Below, Decode, Chain, End;
  }

  lemma OversizeTail(e: Env, s: State)
    requires e.cipher.Valid() && Inv(e, s) && Unanswered(e, s, false)
    ensures s.long && Receive(e.cipher, s.un, s.toUp) == Broken(Oversize)
  {
    hide Decode, LogOk, Below, Mid, Quiet, Abandoned, Accepting;
    assert s.toUp.bytes == s.toUp.tail;
  }

  // ---------------------------------------------------------------- interruption

  /** The encryptions of the asking end. */
  function Asks(log: seq<Sealed>): nat {
    if log == [] then 0 else (if log[|log| - 1].byUp then 0 else 1) + Asks(log[..|log| - 1])
  }

  lemma AsksUp(log: seq<Sealed>, used: seq<nat>)
    requires 1 <= |used| <= 2
    ensures Asks(log + Seals(true, used)) == Asks(log)
  {
    var all := log + Seals(true, used);
    assert all[..|all| - 1] == log + Seals(true, used[..|used| - 1]);
    if |used| == 2 {
      var less := log + Seals(true, used[..1]);
      assert less[..|less| - 1] == log;
      assert used[..2] == used;
    } else {
      assert all[..|all| - 1] == log;
    }
  }

  lemma UpSendsAsks(e: Env, s: State, room: nat, msg: u16, payload: seq<u8>, next: Up)
    requires e.cipher.Valid()
    ensures var t := UpSends(e, s, room, msg, payload, next);
      t.down == s.down && t.stop == s.stop && Asks(t.log) == Asks(s.log)
  {
    hide WriteFrame;
    WriteFrameOutcome(e.cipher, s.un, room, msg, payload);
    AsksUp(s.log, Send(e.cipher, s.un, room, s.toDown, msg, payload).used);
  }

  /** Once interrupted, the asking end never writes on this connection again. */
  lemma DeadStep(e: Env, s: State, a: Action)
    requires e.cipher.Valid() && Dead(s)
    ensures var t := Step(e, s, a); Dead(t) && Asks(t.log) == Asks(s.log)
  {
    hide UpSends, Asks, FileRead, Piece, Receive;
    match a
    case UWriteHello(room, noList) =>
      UpSendsAsks(e, s, room, if noList then MSG_REVERSE_NO_LIST else MSG_REVERSE, [], UTop);
    case USendPiece(room) =>
      if s.up.UList? {
        var last := |e.listing| - s.up.sent <= MAX_DATA_SIZE;
        UpSendsAsks(e, s, room, if last then MSG_FILE_LIST_FINAL else MSG_FILE_LIST_PIECE,
                    Piece(e.listing, s.up.sent), UListSent(s.up.sent, last));
      }
    case USendDenial(room) =>
      if s.up.UDenying? { UpSendsAsks(e, s, room, s.up.denial, [], UTop); }
    case USendChunk(room, len) =>
      if s.up.UFile? && e.lookup(s.up.path).Regular? {
        var target := e.lookup(s.up.path);
        var data := FileRead(target.content, s.up.pos, len);
        var pos := s.up.pos + |data|;
        var finished := pos >= target.size || data == [];
        UpSendsAsks(e, s, room, if finished then MSG_FILE_FINISHED else MSG_FILE_CHUNK, data,
                    if finished then UTop else UFileSent(s.up.path, pos));
      }
    case _ =>
  }

  lemma {:induction false} DeadRun(e: Env, s: State, actions: seq<Action>)
    requires e.cipher.Valid() && Dead(s)
    ensures var t := Run(e, s, actions); Dead(t) && Asks(t.log) == Asks(s.log)
    decreases |actions|
  {
    hide Step, Asks, Dead;
    if actions == [] {
    } else {
      DeadStep(e, s, actions[0]);
      DeadRun(e, Step(e, s, actions[0]), actions[1..]);
    }
  }

  /** The stop flag is only ever up when the asking end is letting go. */
  lemma StopStep(e: Env, s: State, a: Action)
    requires e.cipher.Valid() && (s.stop ==> Dead(s))
    ensures var t := Step(e, s, a); t.stop ==> Dead(t)
  {
    hide WriteFrame, Receive, FileRead, Piece;
    if s.stop {
      DeadStep(e, s, a);
    }
  }

  lemma {:induction false} StopRun(e: Env, s: State, actions: seq<Action>)
    requires e.cipher.Valid() && (s.stop ==> Dead(s))
    ensures var t := Run(e, s, actions); t.stop ==> Dead(t)
    decreases |actions|
  {
    hide Step, Dead;
    if actions == [] {
    } else {
      StopStep(e, s, actions[0]);
      StopRun(e, Step(e, s, actions[0]), actions[1..]);
    }
  }

  lemma {:induction false} RunSplit(e: Env, s: State, first: seq<Action>, rest: seq<Action>)
    requires e.cipher.Valid()
    ensures Run(e, s, first + rest) == Run(e, Run(e, s, first), rest)
    decreases |first|
  {
    hide Step;
    if first == [] {
      assert first + rest == rest;
    } else {
      assert (first + rest)[1..] == first[1..] + rest;
      RunSplit(e, Step(e, s, first[0]), first[1..], rest);
    }
  }

  /**
   An interrupted exchange is never continued: from the moment the stop flag is up, whatever
   happens, the asking end encrypts nothing more on this connection.
   */
  lemma InterruptedNeverContinues(e: Env, disk: map<seq<u8>, seq<u8>>, first: seq<Action>, rest: seq<Action>)
    requires e.cipher.Valid()
    requires Run(e, Init(e, disk), first).stop
    ensures var t := Run(e, Init(e, disk), first + rest);
      Dead(t) && Asks(t.log) == Asks(Run(e, Init(e, disk), first).log)
  {
    hide Step, Dead, Asks;
    var s := Run(e, Init(e, disk), first);
    StopRun(e, Init(e, disk), first);
    DeadRun(e, s, rest);
    RunSplit(e, Init(e, disk), first, rest);
  }
}
