/**
 What the first reply to a selection tells the asking end about the selected path: in every run its
 kind is exactly that of the path in the serving end's listing. Nothing but the two ends, the network
 and the counter can keep it, or a whole listing, from coming.
 */
module Refusals {
  import opened Common
  import opened CoreConsts
  import opened FrameCodec
  import opened Protocol
  import opened ProtocolProofs
  import opened TransferIntegrity

  /** A message of this kind answers a selection of such a path. */
  predicate Tells(target: Target, msg: u16) {
    match target
    case Missing => msg == MSG_FILE_INVALID_FILE
    case Directory => msg == MSG_CANNOT_SELECT_DIRECTORY
    case Regular(_, _) => msg == MSG_FILE_CHUNK || msg == MSG_FILE_FINISHED
  }

  /** Whatever is on its way to the asking end, or will be, is of the right kind. */
  ghost predicate AllTell(e: Env, s: State) {
    OpenPath(s.down).Some? ==>
      var target := e.lookup(OpenPath(s.down).value);
      && (forall i :: 0 <= i < |s.toDown.frames| ==> Tells(target, s.toDown.frames[i].msg))
      && (s.up.UDenying? ==> Tells(target, s.up.denial))
      && (s.up.UFile? || s.up.UFileSent? ==> target.Regular?)
  }

  lemma UMailTells(e: Env, s: State, shutdown: bool)
    requires e.cipher.Valid() && Inv(e, s) && Content(e, s) && AllTell(e, s)
    ensures AllTell(e, UMailStep(e, s, shutdown))
  {
    hide Inv, DiskOk, DoneOk, HeardOk, ListStream, PrefixOfSource, Pending, OnDisk, FromBE, SelectionOf;
    if s.up.UGot? && OpenPath(s.down).Some? {
      var path := OpenPath(s.down).value;
      SelectionParses(s.up.payload, |OnDisk(s, path)|, path);
    }
  }

  lemma USendsTell(e: Env, s: State, room: nat, msg: u16, payload: seq<u8>, next: Up)
    requires e.cipher.Valid() && Fits(msg, payload) && AllTell(e, s)
    requires OpenPath(s.down).Some? ==>
      && Tells(e.lookup(OpenPath(s.down).value), msg)
      && !next.UDenying? && (next.UFile? || next.UFileSent? ==> e.lookup(OpenPath(s.down).value).Regular?)
    ensures AllTell(e, UpSends(e, s, room, msg, payload, next))
  {
    hide UpSends, Tells, Fits, Payloads;
    UpSendsShape(e, s, room, msg, payload, next);
  }

  lemma StepTells(e: Env, s: State, a: Action)
    requires e.cipher.Valid() && Inv(e, s) && Content(e, s) && AllTell(e, s)
    ensures AllTell(e, Step(e, s, a))
  {
    hide Inv, Content, UpSends, DownSends, UMailStep, Receive, Tells, AllTell, UReadStep, DReadStep, UPieceStep,
      UChunkStep, DSelectStep;
    match a
    case UAbort => Moved(e, s, s.(up := UClosed));
    case UWriteHello(room, noList) =>
      if s.up == UHello {
        NotListing(e, s);
        SmallFits(if noList then MSG_REVERSE_NO_LIST else MSG_REVERSE);
        USendsTell(e, s, room, if noList then MSG_REVERSE_NO_LIST else MSG_REVERSE, [], UTop);
      }
    case UMail(shutdown) => UMailTells(e, s, shutdown);
    case URead => UReadTells(e, s);
    case USendPiece(room) => UPieceTells(e, s, room);
    case USendDenial(room) =>
      if s.up.UDenying? {
        UDenialTells(e, s, room);
      }
    case USendChunk(room, len) => UChunkTells(e, s, room, len);
    case DAbort => Moved(e, s, s.(down := DClosed));
    case DMail(stop) => Moved(e, s, DMailStep(s, stop));
    case DRead => DReadTells(e, s);
    case DSkipList => Moved(e, s, Step(e, s, a));
    case DAskList(room) => DAskTells(e, s, room);
    case DSelect(room, path, want) => DSelectTells(e, s, room, path, want);
    case DWork => Moved(e, s, DWorkStep(s));
  }

  lemma SmallFits(msg: u16)
    ensures Fits(msg, [])
  {
  }

  /** Nothing was sent, and no file was opened. */
  lemma Moved(e: Env, s: State, t: State)
    requires AllTell(e, s) && t.toDown == s.toDown
    requires t.up == s.up || t.up == UClosed || t.up.UGot?
    requires OpenPath(t.down).None? || OpenPath(t.down) == OpenPath(s.down)
    ensures AllTell(e, t)
  {
    hide Tells;
  }

  lemma UReadTells(e: Env, s: State)
    requires e.cipher.Valid() && AllTell(e, s)
    ensures AllTell(e, UReadStep(e, s))
  {
    hide Receive, AllTell;
    Moved(e, s, UReadStep(e, s));
  }

  lemma UPieceTells(e: Env, s: State, room: nat)
    requires e.cipher.Valid() && Inv(e, s) && AllTell(e, s)
    ensures AllTell(e, UPieceStep(e, s, room))
  {
    hide Inv, UpSends, AllTell, Piece;
    if s.up.UList? {
      UListOpen(e, s);
      var last := |e.listing| - s.up.sent <= MAX_DATA_SIZE;
      var msg := if last then MSG_FILE_LIST_FINAL else MSG_FILE_LIST_PIECE;
      DataFits(msg, Piece(e.listing, s.up.sent));
      USendsTell(e, s, room, msg, Piece(e.listing, s.up.sent), UListSent(s.up.sent, last));
    }
  }

  lemma UDenialTells(e: Env, s: State, room: nat)
    requires e.cipher.Valid() && AllTell(e, s) && s.up.UDenying?
    ensures AllTell(e, UpSends(e, s, room, s.up.denial, [], UTop))
  {
    hide UpSends;
    SmallFits(s.up.denial);
    USendsTell(e, s, room, s.up.denial, [], UTop);
  }

  lemma UChunkTells(e: Env, s: State, room: nat, len: nat)
    requires e.cipher.Valid() && AllTell(e, s)
    ensures AllTell(e, UChunkStep(e, s, room, len))
  {
    hide UpSends, FileRead;
    if s.up.UFile? && e.lookup(s.up.path).Regular? {
      var target := e.lookup(s.up.path);
      var data := FileRead(target.content, s.up.pos, len);
      var pos := s.up.pos + |data|;
      var finished := pos >= target.size || data == [];
      var msg := if finished then MSG_FILE_FINISHED else MSG_FILE_CHUNK;
      DataFits(msg, data);
      USendsTell(e, s, room, msg, data, if finished then UTop else UFileSent(s.up.path, pos));
    }
  }

  lemma DReadTells(e: Env, s: State)
    requires e.cipher.Valid() && Inv(e, s) && AllTell(e, s)
    ensures AllTell(e, DReadStep(e, s))
  {
    hide Receive, Inv, Tells;
    var t := DReadStep(e, s);
    if DWaits(s) && Receive(e.cipher, s.dn, s.toDown).Rx? {
      ReadsFirstFrame(e, s);
      assert forall i :: 0 <= i < |t.toDown.frames| ==> t.toDown.frames[i] == s.toDown.frames[i + 1];
    }
  }

  lemma DAskTells(e: Env, s: State, room: nat)
    requires e.cipher.Valid() && AllTell(e, s)
    ensures AllTell(e, Step(e, s, DAskList(room)))
  {
    hide Send, Tells;
  }

  lemma DSelectTells(e: Env, s: State, room: nat, path: seq<u8>, want: u64)
    requires e.cipher.Valid() && Inv(e, s) && AllTell(e, s)
    ensures AllTell(e, DSelectStep(e, s, room, path, want))
  {
    hide Send, Tells, ToBE;
    if s.down == DReady {
      ReadyIsQuiet(e, s);
    }
  }

  lemma ReadyIsQuiet(e: Env, s: State)
    requires e.cipher.Valid() && Inv(e, s) && s.down == DReady
    ensures Quiet(s) && Basics(e, s)
  {
    hide Basics, Quiet;
  }

  lemma {:induction false} RunTells(e: Env, s: State, actions: seq<Action>)
    requires e.cipher.Valid() && Inv(e, s) && Content(e, s) && AllTell(e, s)
    ensures AllTell(e, Run(e, s, actions))
    decreases |actions|
  {
    hide Inv, Content, Step, AllTell;
    if actions == [] {
    } else {
      StepKeeps(e, s, actions[0]);
      StepContent(e, s, actions[0]);
      StepTells(e, s, actions[0]);
      RunTells(e, Step(e, s, actions[0]), actions[1..]);
    }
  }

  /**
   In every session, whatever went before: if the asking end reads a first reply to its selection, then
   a missing path makes it fetch the listing anew, a directory makes it give up, and a file makes it go
   on with the bytes of the reply.
   */
  lemma FirstReplyTells(lookup: seq<u8> -> Target, disk: map<seq<u8>, seq<u8>>, x: Session)
    requires x.cipher.Valid() && Prefixes(lookup, disk)
    requires var s := Attend(lookup, disk, x);
      s.down.DFirst? && Receive(x.cipher, s.dn, s.toDown).Rx?
    ensures var s := Attend(lookup, disk, x);
      var after := DReadStep(EnvOf(lookup, x), s).down;
      match lookup(s.down.path)
      case Missing => after == DForce
      case Directory => after == DClosed
      case Regular(_, _) => after.DProcess? && after.path == s.down.path && after.want == s.down.want
  {
    hide Run, Inv, Content, Receive;
    var e := EnvOf(lookup, x);
    var s := Attend(lookup, disk, x);
    InitInv(e, disk);
    InitContent(e, disk);
    RunKeeps(e, Init(e, disk), x.actions);
    RunTells(e, Init(e, disk), x.actions);
    ReadsFirstFrame(e, s);
  }

  lemma InitContent(e: Env, disk: map<seq<u8>, seq<u8>>)
    requires Prefixes(e.lookup, disk)
    ensures Content(e, Init(e, disk)) && AllTell(e, Init(e, disk))
  {
  }

  // ---------------------------------------------------------------- a selection that nothing disturbs

  /** What both ends do about a selection when nothing comes between: select, look, read, look, reply, read. */
  function Exchange(target: Target, path: seq<u8>, want: u64, room: nat, len: nat): seq<Action> {
    [DSelect(room, path, want), UMail(false), URead, UMail(false),
     if target.Regular? then USendChunk(room, len) else USendDenial(room), DRead]
  }

  /** The selection is written, and is the only thing in flight. */
  lemma SelectArrives(e: Env, s: State, room: nat, path: seq<u8>, want: u64)
    requires e.cipher.Valid() && Quiet(s) && Basics(e, s) && s.down == DReady && Idle(s.up)
    requires |OnDisk(s, path)| < want && |path| <= LONGEST_PATH
    requires s.dn + 2 <= NONCE_MAX
    requires |Encode(e.cipher, s.dn, MSG_FILE_SELECTION_CONTINUE, Selection(|OnDisk(s, path)|, path))| <= room
    ensures var t := DSelectStep(e, s, room, path, want);
      var f := Frame(s.dn, MSG_FILE_SELECTION_CONTINUE, Selection(|OnDisk(s, path)|, path));
      && t.down == DFirst(path, want) && t.up == s.up && t.toDown == s.toDown && t.un == s.un && t.disk == s.disk
      && t.toUp.frames == [f] && t.toUp.tail == [] && BytesOf(e.cipher, t.toUp) && Chain([f], t.un)
      && t.dn == s.dn + 2
  {
    hide Encode, WriteFrame, Below, LogOk, ToBE, BytesOf;
    var payload := Selection(|OnDisk(s, path)|, path);
    SelectionFits(|OnDisk(s, path)|, path);
    WriteFrameOutcome(e.cipher, s.dn, room, MSG_FILE_SELECTION_CONTINUE, payload);
    SendSpec(e.cipher, s.dn, room, s.toUp, MSG_FILE_SELECTION_CONTINUE, payload);
    var f := Frame(s.dn, MSG_FILE_SELECTION_CONTINUE, payload);
    assert [f][1..] == [];
    assert [] + [f] == [f];
  }

  lemma SelectionFits(offset: nat, path: seq<u8>)
    requires |path| <= LONGEST_PATH
    ensures var p := Selection(offset, path);
      Fits(MSG_FILE_SELECTION_CONTINUE, p) && Writable(MSG_FILE_SELECTION_CONTINUE, p) && p != [] && Parts(p) == 2
  {
    hide ToBE;
  }

  /** The serving end reads it and decides. */
  lemma SelectionIsRead(e: Env, s: State, path: seq<u8>, offset: nat)
    requires e.cipher.Valid() && (s.up.UTop? || s.up.UWait?) && offset < Pow256(8)
    requires s.toUp.tail == [] && BytesOf(e.cipher, s.toUp) && Chain(s.toUp.frames, s.un)
    requires s.toUp.frames == [Frame(s.un, MSG_FILE_SELECTION_CONTINUE, Selection(offset, path))]
    ensures var t := UMailStep(e, UReadStep(e, UMailStep(e, s, false)), false);
      && t.down == s.down && t.dn == s.dn && t.toDown == s.toDown && t.disk == s.disk
      && t.un == s.un + 2
      && match e.lookup(path)
         case Missing => t.up == UDenying(MSG_FILE_INVALID_FILE)
         case Directory => t.up == UDenying(MSG_CANNOT_SELECT_DIRECTORY)
         case Regular(_, _) => t.up == UFile(path, offset)
  {
    hide Receive, BytesOf, Chain, ToBE, FromBE, Pow256;
    var u := UMailStep(e, s, false);
    ReceiveFrame(e.cipher, u.un, u.toUp);
    SelectionParses(Selection(offset, path), offset, path);
    assert Parts(Selection(offset, path)) == 2;
  }

  /** Nothing is under way to the asking end, and the counters agree. */
  ghost predicate Clear(e: Env, s: State)
    requires e.cipher.Valid()
  {
    BytesOf(e.cipher, s.toDown) && s.toDown.frames == [] && s.toDown.tail == [] && s.un == s.dn
  }

  lemma NothingUnderWay(e: Env, s: State)
    requires e.cipher.Valid() && BytesOf(e.cipher, s.toDown)
    requires s.toDown.frames == [] && s.toDown.tail == [] && s.un == s.dn
    ensures Clear(e, s)
    ensures s.down.DFirst? ==>
      && AfterRead(s.down, MSG_FILE_INVALID_FILE, []) == DForce
      && AfterRead(s.down, MSG_CANNOT_SELECT_DIRECTORY, []) == DClosed
      && forall msg, p :: msg == MSG_FILE_CHUNK || msg == MSG_FILE_FINISHED ==>
           AfterRead(s.down, msg, p) == DProcess(msg, p, s.down.path, s.down.want)
  {
  }

  /** The reply is written and read. */
  lemma ReplyIsRead(e: Env, s: State, room: nat, msg: u16, payload: seq<u8>, next: Up)
    requires e.cipher.Valid() && Clear(e, s) && s.dn + 2 <= NONCE_MAX && |payload| <= MAX_DATA_SIZE
    requires |Encode(e.cipher, s.un, msg, payload)| <= room
    requires s.down.DFirst? || s.down.DList?
    ensures var t := DReadStep(e, UpSends(e, s, room, msg, payload, next));
      && t.down == AfterRead(s.down, msg, payload) && t.up == next
      && t.heard == (if ListingEnds(s.down, msg, payload) then s.heard + [s.down.json + payload] else s.heard)
      && Clear(e, t) && t.un == s.un + Parts(payload)
  {
    hide Encode, WriteFrame, Receive, BytesOf;
    DataFits(msg, payload);
    WriteFrameOutcome(e.cipher, s.un, room, msg, payload);
    SendSpec(e.cipher, s.un, room, s.toDown, msg, payload);
    var f := Frame(s.un, msg, payload);
    var t := UpSends(e, s, room, msg, payload, next);
    assert [f][1..] == [];
    assert [] + [f] == [f];
    ReceiveFrame(e.cipher, t.dn, t.toDown);
  }

  /** The longest frame there is. */
  lemma RoomEnough(c: Cipher, n: nat, msg: u16, payload: seq<u8>)
    requires c.Valid() && Fits(msg, payload)
    ensures |Encode(c, n, msg, payload)| <= TOTAL_CRYPTO_BUFFER_SIZE + TOTAL_CRYPTO_BUFFER_SIZE
  {
    hide ToBE, NonceBytes;
  }

  /**
   In every session, whenever the asking end may select and the serving end is there: a selection of a
   file that is too short, with a path that fits, is answered as the path deserves, if nothing stops
   the serving end and the connection and the counter last.
   */
  lemma QuietSelection(lookup: seq<u8> -> Target, disk: map<seq<u8>, seq<u8>>, x: Session, path: seq<u8>, want: u64,
                       room: nat, len: nat)
    requires x.cipher.Valid()
    requires var s := Attend(lookup, disk, x);
      && s.down == DReady && (s.up.UTop? || s.up.UWait?)
      && |OnDisk(s, path)| < want && |path| <= LONGEST_PATH && s.dn + 4 <= NONCE_MAX
    requires room >= TOTAL_CRYPTO_BUFFER_SIZE + TOTAL_CRYPTO_BUFFER_SIZE
    ensures var e := EnvOf(lookup, x);
      var s := Attend(lookup, disk, x);
      var t := Run(e, s, Exchange(lookup(path), path, want, room, len));
      match lookup(path)
      case Missing => t.down == DForce
      case Directory => t.down == DClosed
      case Regular(content, _) =>
        && t.down.DProcess? && t.down.path == path && t.down.want == want
        && t.down.payload == FileRead(content, |OnDisk(s, path)|, len)
  {
    hide Run, Inv, Quiet, Basics, DSelectStep, UMailStep, UReadStep, DReadStep, UpSends, Encode, ToBE, FileRead,
      BytesOf, Chain, Pow256, Clear, Dispatch, AfterRead, ListingEnds;
    var e := EnvOf(lookup, x);
    InitInv(e, disk);
    RunKeeps(e, Init(e, disk), x.actions);
    var s := Attend(lookup, disk, x);
    ReadyIsQuiet(e, s);
    QuietParts(e, s);
    SixSteps(e, s, path, want, room, len);
    var offset := |OnDisk(s, path)|;
    SelectionFits(offset, path);
    RoomEnough(e.cipher, s.dn, MSG_FILE_SELECTION_CONTINUE, Selection(offset, path));
    SelectArrives(e, s, room, path, want);
    U64IsSmall(want);
    var s1 := DSelectStep(e, s, room, path, want);
    SelectionIsRead(e, s1, path, offset);
    var s4 := UMailStep(e, UReadStep(e, UMailStep(e, s1, false)), false);
    NothingUnderWay(e, s4);
    match lookup(path) {
      case Regular(content, size) =>
        var data := FileRead(content, offset, len);
        var finished := offset + |data| >= size || data == [];
        var msg := if finished then MSG_FILE_FINISHED else MSG_FILE_CHUNK;
        DataFits(msg, data);
        RoomEnough(e.cipher, s4.un, msg, data);
        ReplyIsRead(e, s4, room, msg, data, if finished then UTop else UFileSent(path, offset + |data|));
      case _ =>
        DataFits(s4.up.denial, []);
        RoomEnough(e.cipher, s4.un, s4.up.denial, []);
        ReplyIsRead(e, s4, room, s4.up.denial, [], UTop);
    }
  }

  lemma QuietParts(e: Env, s: State)
    requires e.cipher.Valid() && Quiet(s) && Basics(e, s)
    ensures s.toUp.frames == [] && s.toDown.frames == [] && s.toUp.tail == [] && s.toDown.tail == []
    ensures s.un == s.dn && BytesOf(e.cipher, s.toUp) && BytesOf(e.cipher, s.toDown)
  {
  }

  lemma U64IsSmall(n: u64)
    ensures n < Pow256(8)
  {
    PowValues();
  }

  lemma SixSteps(e: Env, s: State, path: seq<u8>, want: u64, room: nat, len: nat)
    requires e.cipher.Valid()
    ensures var s1 := DSelectStep(e, s, room, path, want);
      var s4 := UMailStep(e, UReadStep(e, UMailStep(e, s1, false)), false);
      var a := if e.lookup(path).Regular? then USendChunk(room, len) else USendDenial(room);
      Run(e, s, Exchange(e.lookup(path), path, want, room, len)) == DReadStep(e, Step(e, s4, a))
  {
    hide DSelectStep, UMailStep, UReadStep, DReadStep, UChunkStep, UpSends, Run;
    var all := Exchange(e.lookup(path), path, want, room, len);
    var s1 := DSelectStep(e, s, room, path, want);
    var s2 := UMailStep(e, s1, false);
    var s3 := UReadStep(e, s2);
    var s4 := UMailStep(e, s3, false);
    var s5 := Step(e, s4, all[4]);
    RunCons(e, s, all);
    RunCons(e, s1, all[1..]);
    RunCons(e, s2, all[2..]);
    RunCons(e, s3, all[3..]);
    RunCons(e, s4, all[4..]);
    RunCons(e, s5, all[5..]);
    RunNone(e, DReadStep(e, s5));
    assert all[1..][1..] == all[2..] && all[2..][1..] == all[3..] && all[3..][1..] == all[4..];
    assert all[4..][1..] == all[5..] && all[5..][1..] == [];
  }

  // ---------------------------------------------------------------- a listing that nothing disturbs

  /** The pieces of a listing from this offset on, each sent, read, and followed by a look. */
  function PieceActions(size: nat, at: nat, room: nat): seq<Action>
    requires at <= size
    decreases size - at
  {
    [USendPiece(room), DRead, UMail(false)]
    + if size - at <= MAX_DATA_SIZE then [] else PieceActions(size, at + MAX_DATA_SIZE, room)
  }

  /** What both ends do about a listing when nothing comes between: ask, look, read, look, and the pieces. */
  function ListExchange(size: nat, room: nat): seq<Action> {
    [DAskList(room), UMail(false), URead, UMail(false)] + PieceActions(size, 0, room)
  }

  /** The request is written, read and dispatched. */
  lemma RequestIsRead(e: Env, s: State, room: nat)
    requires e.cipher.Valid() && Quiet(s) && Basics(e, s) && (s.up.UTop? || s.up.UWait?)
    requires (s.down == DStart || s.down == DForce) && s.dn + 1 <= NONCE_MAX
    requires |Encode(e.cipher, s.dn, MSG_FILE_LIST, [])| <= room
    ensures var t := Run(e, s, [DAskList(room), UMail(false), URead, UMail(false)]);
      && t.up == UList(0) && t.down == DList([], s.down == DForce) && t.heard == s.heard
      && Clear(e, t) && t.un == s.un + 1
  {
    hide Encode, WriteFrame, Receive, BytesOf, Below, LogOk, Run;
    var s1 := DownSends(e, s, room, MSG_FILE_LIST, [], DList([], s.down == DForce));
    DataFits(MSG_FILE_LIST, []);
    WriteFrameOutcome(e.cipher, s.dn, room, MSG_FILE_LIST, []);
    SendSpec(e.cipher, s.dn, room, s.toUp, MSG_FILE_LIST, []);
    var f := Frame(s.dn, MSG_FILE_LIST, []);
    assert [f][1..] == [];
    assert [] + [f] == [f];
    var s2 := UMailStep(e, s1, false);
    ReceiveFrame(e.cipher, s2.un, s2.toUp);
    var s3 := UReadStep(e, s2);
    FourSteps(e, s, room, s1, s2, s3);
  }

  lemma FourSteps(e: Env, s: State, room: nat, s1: State, s2: State, s3: State)
    requires e.cipher.Valid() && s1 == Step(e, s, DAskList(room)) && s2 == UMailStep(e, s1, false)
    requires s3 == UReadStep(e, s2)
    ensures Run(e, s, [DAskList(room), UMail(false), URead, UMail(false)]) == UMailStep(e, s3, false)
  {
    hide UMailStep, UReadStep, DownSends, Run;
    var all := [DAskList(room), UMail(false), URead, UMail(false)];
    RunCons(e, s, all);
    RunCons(e, s1, all[1..]);
    RunCons(e, s2, all[2..]);
    RunCons(e, s3, all[3..]);
    RunNone(e, UMailStep(e, s3, false));
    assert all[1..][1..] == all[2..] && all[2..][1..] == all[3..] && all[3..][1..] == [];
  }

  /** One piece. */
  lemma PieceIsRead(e: Env, s: State, room: nat)
    requires e.cipher.Valid() && Clear(e, s) && s.up.UList? && s.up.sent <= |e.listing| && s.down.DList?
    requires s.dn + 2 <= NONCE_MAX && room >= TOTAL_CRYPTO_BUFFER_SIZE + TOTAL_CRYPTO_BUFFER_SIZE
    ensures var t := Run(e, s, [USendPiece(room), DRead, UMail(false)]);
      var last := |e.listing| - s.up.sent <= MAX_DATA_SIZE;
      var msg := if last then MSG_FILE_LIST_FINAL else MSG_FILE_LIST_PIECE;
      var p := Piece(e.listing, s.up.sent);
      && t.up == (if last then UTop else UList(s.up.sent + MAX_DATA_SIZE))
      && t.down == AfterRead(s.down, msg, p)
      && t.heard == (if ListingEnds(s.down, msg, p) then s.heard + [s.down.json + p] else s.heard)
      && Clear(e, t) && t.un <= s.un + 2
  {
    hide UpSends, DReadStep, AfterRead, ListingEnds, Piece, Run, Clear;
    var last := |e.listing| - s.up.sent <= MAX_DATA_SIZE;
    var msg := if last then MSG_FILE_LIST_FINAL else MSG_FILE_LIST_PIECE;
    var p := Piece(e.listing, s.up.sent);
    DataFits(msg, p);
    ClearCounters(e, s);
    RoomEnough(e.cipher, s.un, msg, p);
    ReplyIsRead(e, s, room, msg, p, UListSent(s.up.sent, last));
    var s2 := DReadStep(e, UpSends(e, s, room, msg, p, UListSent(s.up.sent, last)));
    SameForReader(e, s2);
    ThreeSteps(e, s, room);
  }

  lemma ClearCounters(e: Env, s: State)
    requires e.cipher.Valid() && Clear(e, s)
    ensures s.un == s.dn
  {
  }

  /** A look does not touch the wires. */
  lemma SameForReader(e: Env, s: State)
    requires e.cipher.Valid() && Clear(e, s)
    ensures Clear(e, UMailStep(e, s, false))
  {
  }

  lemma ThreeSteps(e: Env, s: State, room: nat)
    requires e.cipher.Valid()
    ensures Run(e, s, [USendPiece(room), DRead, UMail(false)])
      == UMailStep(e, DReadStep(e, UPieceStep(e, s, room)), false)
  {
    hide UMailStep, DReadStep, UPieceStep, Run;
    var all := [USendPiece(room), DRead, UMail(false)];
    var s1 := UPieceStep(e, s, room);
    var s2 := DReadStep(e, s1);
    RunCons(e, s, all);
    RunCons(e, s1, all[1..]);
    RunCons(e, s2, all[2..]);
    RunNone(e, UMailStep(e, s2, false));
    assert all[1..][1..] == all[2..] && all[2..][1..] == [];
  }

  /** How many pieces there are from here on. */
  function PiecesLeft(size: nat, at: nat): nat
    requires at <= size
    decreases size - at
  {
    1 + if size - at <= MAX_DATA_SIZE then 0 else PiecesLeft(size, at + MAX_DATA_SIZE)
  }

  lemma {:induction false} PiecesAreHeard(e: Env, s: State, room: nat, at: nat)
    requires e.cipher.Valid() && Clear(e, s) && at <= |e.listing| && s.up == UList(at)
    requires s.down.DList? && s.down.json == e.listing[..at]
    requires s.dn + 2 * PiecesLeft(|e.listing|, at) <= NONCE_MAX
    requires room >= TOTAL_CRYPTO_BUFFER_SIZE + TOTAL_CRYPTO_BUFFER_SIZE
    ensures var t := Run(e, s, PieceActions(|e.listing|, at, room));
      if |e.listing| <= MAX_EVERYTHING_FILE_SIZE then
        t.heard == s.heard + [e.listing] && t.up == UTop && t.down == if s.down.force then DClosed else DReady
      else
        Dead(t)
    decreases |e.listing| - at
  {
    hide Run, Clear;
    var first: seq<Action> := [USendPiece(room), DRead, UMail(false)];
    ClearCounters(e, s);
    PieceIsRead(e, s, room);
    var t := Run(e, s, first);
    if |e.listing| - at <= MAX_DATA_SIZE {
      assert e.listing[..at] + Piece(e.listing, at) == e.listing;
      assert PieceActions(|e.listing|, at, room) == first;
    } else {
      var rest := PieceActions(|e.listing|, at + MAX_DATA_SIZE, room);
      assert e.listing[..at] + Piece(e.listing, at) == e.listing[..at + MAX_DATA_SIZE];
      RunThen(e, s, first, rest);
      if at + MAX_DATA_SIZE > MAX_EVERYTHING_FILE_SIZE {
        DeadRun(e, t, rest);
      } else {
        ClearCounters(e, t);
        PiecesAreHeard(e, t, room, at + MAX_DATA_SIZE);
      }
    }
  }

  lemma {:induction false} RunThen(e: Env, s: State, a: seq<Action>, b: seq<Action>)
    requires e.cipher.Valid()
    ensures Run(e, s, a + b) == Run(e, Run(e, s, a), b)
    decreases |a|
  {
    hide Step;
    if a == [] {
      assert a + b == b;
    } else {
      assert (a + b)[1..] == a[1..] + b;
      RunThen(e, Step(e, s, a[0]), a[1..], b);
    }
  }

  /**
   In every session, whenever the asking end is to fetch the listing, at the beginning or after a file
   turned out to be missing, and the serving end is there: if nothing stops the serving end and the
   connection and the counter last, the whole listing arrives, unless it is too large; after that the
   first fetch goes on to select files, and the other one gives the connection up.
   */
  lemma QuietListing(lookup: seq<u8> -> Target, disk: map<seq<u8>, seq<u8>>, x: Session, room: nat)
    requires x.cipher.Valid()
    requires var s := Attend(lookup, disk, x);
      && (s.down == DStart || s.down == DForce) && (s.up.UTop? || s.up.UWait?)
      && s.dn + 1 + 2 * PiecesLeft(|x.listing|, 0) <= NONCE_MAX
    requires room >= TOTAL_CRYPTO_BUFFER_SIZE + TOTAL_CRYPTO_BUFFER_SIZE
    ensures var s := Attend(lookup, disk, x);
      var t := Run(EnvOf(lookup, x), s, ListExchange(|x.listing|, room));
      if |x.listing| <= MAX_EVERYTHING_FILE_SIZE then
        t.heard == s.heard + [x.listing] && t.down == if s.down == DStart then DReady else DClosed
      else
        Dead(t)
  {
    hide Run, Inv, Quiet, Basics, Clear, Dead, Encode;
    var e := EnvOf(lookup, x);
    InitInv(e, disk);
    RunKeeps(e, Init(e, disk), x.actions);
    var s := Attend(lookup, disk, x);
    RestingIsQuiet(e, s);
    QuietParts(e, s);
    DataFits(MSG_FILE_LIST, []);
    RoomEnough(e.cipher, s.dn, MSG_FILE_LIST, []);
    RequestIsRead(e, s, room);
    var ask := [DAskList(room), UMail(false), URead, UMail(false)];
    var t := Run(e, s, ask);
    ClearCounters(e, t);
    PiecesAreHeard(e, t, room, 0);
    RunThen(e, s, ask, PieceActions(|e.listing|, 0, room));
  }

  lemma RestingIsQuiet(e: Env, s: State)
    requires e.cipher.Valid() && Inv(e, s) && (s.down == DStart || s.down == DForce)
    ensures Quiet(s) && Basics(e, s)
  {
    hide Basics, Quiet;
  }

  lemma RunCons(e: Env, s: State, actions: seq<Action>)
    requires e.cipher.Valid() && actions != []
    ensures Run(e, s, actions) == Run(e, Step(e, s, actions[0]), actions[1..])
  {
    hide Step;
  }

  lemma RunNone(e: Env, s: State)
    requires e.cipher.Valid()
    ensures Run(e, s, []) == s
  {
  }
}
