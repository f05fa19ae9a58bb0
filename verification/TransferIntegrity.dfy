/**
 What the bytes mean: over any number of connections, each cut off anywhere, a destination file
 stays a prefix of the source file, a completed one is the source up to the expected size, and a
 listing that was received to its end is the serving end's listing.
 */
module TransferIntegrity {
  import opened Common
  import opened CoreConsts
  import opened FrameCodec
  import opened Protocol
  import opened ProtocolProofs

  /** All payload bytes of these frames, in order. */
  function Payloads(fs: seq<Frame>): seq<u8> {
    if fs == [] then [] else fs[0].payload + Payloads(fs[1..])
  }

  lemma {:induction false} PayloadsAppend(fs: seq<Frame>, f: Frame)
    ensures Payloads(fs + [f]) == Payloads(fs) + f.payload
  {
    if fs == [] {
      assert fs + [f] == [f];
    } else {
      PayloadsAppend(fs[1..], f);
      assert (fs + [f])[1..] == fs[1..] + [f];
    }
  }

  /** The frame just read, and then those on the wire, have yet to reach the disk. */
  function Pending(s: State): seq<u8> {
    match s.down
    case DProcess(_, payload, _, _) => payload + Payloads(s.toDown.frames)
    case DCheck(_, payload, _, _) => payload + Payloads(s.toDown.frames)
    case _ => Payloads(s.toDown.frames)
  }

  function OpenPath(down: Down): Option<seq<u8>> {
    match down
    case DFirst(path, _) => Some(path)
    case DProcess(_, _, path, _) => Some(path)
    case DStream(path, _) => Some(path)
    case DCheck(_, _, path, _) => Some(path)
    case _ => None
  }

  ghost predicate PrefixOfSource(e: Env, path: seq<u8>, bytes: seq<u8>) {
    e.lookup(path).Regular? ==> bytes <= e.lookup(path).content
  }

  ghost predicate DiskOk(e: Env, disk: map<seq<u8>, seq<u8>>) {
    forall p :: p in disk ==> PrefixOfSource(e, p, disk[p])
  }

  ghost predicate DoneOk(e: Env, done: seq<Done>) {
    forall i :: 0 <= i < |done| ==>
      |done[i].bytes| == done[i].want && PrefixOfSource(e, done[i].path, done[i].bytes)
  }

  ghost predicate HeardOk(e: Env, heard: seq<seq<u8>>) {
    forall i :: 0 <= i < |heard| ==> heard[i] == e.listing && |heard[i]| <= MAX_EVERYTHING_FILE_SIZE
  }

  /** How far the listing has come: what was heard and what is on the wire add up. */
  ghost predicate ListStream(e: Env, s: State, json: seq<u8>) {
    var all := json + Payloads(s.toDown.frames);
    && (s.toUp.frames != [] ==> all == [])
    && (s.up.UGot? ==> all == [])
    && (s.up.UList? ==> s.up.sent <= |e.listing| && all == e.listing[..s.up.sent])
    && (s.up.UListSent? && !s.up.last ==>
          s.up.sent + MAX_DATA_SIZE <= |e.listing| && all == e.listing[..s.up.sent + MAX_DATA_SIZE])
    && (LastFinal(s.toDown.frames, true) ==> all == e.listing)
  }

  ghost predicate SelectionOf(payload: seq<u8>, offset: nat, path: seq<u8>) {
    payload == Selection(offset, path) && offset < Pow256(8)
  }

  /** How far the file has come. */
  ghost predicate FileStream(e: Env, s: State, path: seq<u8>) {
    var have := OnDisk(s, path);
    && PrefixOfSource(e, path, have + Pending(s))
    && (s.toUp.frames != [] ==> SelectionOf(s.toUp.frames[0].payload, |have|, path) && Pending(s) == [])
    && (s.up.UGot? ==> SelectionOf(s.up.payload, |have|, path) && Pending(s) == [])
    && (s.up.UFile? ==> s.up.path == path && s.up.pos == |have + Pending(s)|)
    && (s.up.UFileSent? ==> s.up.path == path && s.up.pos == |have + Pending(s)|)
  }

  ghost predicate Content(e: Env, s: State) {
    && DiskOk(e, s.disk) && DoneOk(e, s.done) && HeardOk(e, s.heard)
    && (s.down.DList? ==> ListStream(e, s, s.down.json))
    && (OpenPath(s.down).Some? ==> FileStream(e, s, OpenPath(s.down).value))
  }

  lemma SelectionParses(payload: seq<u8>, offset: nat, path: seq<u8>)
    requires SelectionOf(payload, offset, path)
    ensures |payload| >= 8 && payload[8..] == path && FromBE(payload[..8]) == offset
  {
    FromToBE(offset, 8);
    assert payload[..8] == ToBE(offset, 8);
  }

  // ---------------------------------------------------------------- the serving end's steps

  lemma UMailList(e: Env, s: State, shutdown: bool, json: seq<u8>)
    requires ListStream(e, s, json)
    ensures ListStream(e, UMailStep(e, s, shutdown), json)
  {
    hide LastFinal, Payloads, FromBE;
  }

  /** A look into the mailbox moves the serving end only, and begins or goes on with the file it was at. */
  lemma UMailShape(e: Env, s: State, shutdown: bool)
    ensures var t := UMailStep(e, s, shutdown);
      && t == s.(up := t.up)
      && (t.up.UGot? ==> t.up == s.up)
      && (t.up.UFileSent? ==> t.up == s.up)
      && (t.up.UFile? ==>
        || t.up == s.up
        || (s.up.UFileSent? && t.up.path == s.up.path && t.up.pos == s.up.pos)
        || (s.up.UGot? && |s.up.payload| >= 8 && t.up.path == s.up.payload[8..]
          && t.up.pos == FromBE(s.up.payload[..8])))
  {
    hide FromBE;
  }

  lemma SamePending(s: State, t: State, path: seq<u8>)
    requires t.disk == s.disk && t.down == s.down && t.toDown == s.toDown
    ensures OnDisk(t, path) == OnDisk(s, path) && Pending(t) == Pending(s)
  {
  }

  lemma UMailFile(e: Env, s: State, shutdown: bool, path: seq<u8>)
    requires FileStream(e, s, path)
    ensures FileStream(e, UMailStep(e, s, shutdown), path)
  {
    hide PrefixOfSource, Pending, OnDisk, FromBE, SelectionOf, UMailStep;
    var t := UMailStep(e, s, shutdown);
    UMailShape(e, s, shutdown);
    SamePending(s, t, path);
    if s.up.UGot? {
      SelectionParses(s.up.payload, |OnDisk(s, path)|, path);
      assert OnDisk(s, path) + [] == OnDisk(s, path);
    }
  }

  lemma UMailContent(e: Env, s: State, shutdown: bool)
    requires e.cipher.Valid() && Inv(e, s) && Content(e, s)
    ensures Content(e, UMailStep(e, s, shutdown))
  {
    hide Inv, DiskOk, DoneOk, HeardOk, ListStream, FileStream, Dispatch;
    if s.down.DList? {
      UMailList(e, s, shutdown, s.down.json);
    }
    if OpenPath(s.down).Some? {
      UMailFile(e, s, shutdown, OpenPath(s.down).value);
    }
  }

  lemma UReadContent(e: Env, s: State)
    requires e.cipher.Valid() && Inv(e, s) && Content(e, s)
    ensures Content(e, UReadStep(e, s))
  {
    hide Inv, DiskOk, DoneOk, HeardOk, Receive, LastFinal, PrefixOfSource, SelectionOf, Pending, OnDisk, Payloads;
    if s.up.UWait? {
      ReadsRequest(e, s);
      var t := UReadStep(e, s);
      if OpenPath(s.down).Some? {
        SamePending(s, t, OpenPath(s.down).value);
      }
    }
  }

  /** The serving end reads the one request on the wire, if any. */
  lemma ReadsRequest(e: Env, s: State)
    requires e.cipher.Valid() && Inv(e, s) && s.up.UWait?
    ensures match Receive(e.cipher, s.un, s.toUp)
      case Rx(msg, payload, _, wire) =>
        && |s.toUp.frames| == 1 && payload == s.toUp.frames[0].payload && wire.frames == []
      case _ => true
  {
    hide Receive, Unreadable, BytesOf, LogOk, LastFinal, NoFinals, Below;
    Nothing(e, s.un);
    if s.toUp.frames == [] {
      OversizeIsUnreadable(e.cipher, s.un, s.toUp.tail);
      assert s.toUp.tail == [] || Unreadable(e.cipher, s.un, s.toUp.tail, s.long);
      ReceiveTail(e.cipher, s.un, s.toUp, s.long);
    } else {
      ReceiveFrame(e.cipher, s.un, s.toUp);
    }
  }

  /** A write adds its frame to the wire, or closes the end. */
  lemma UpSendsShape(e: Env, s: State, room: nat, msg: u16, payload: seq<u8>, next: Up)
    requires e.cipher.Valid() && Fits(msg, payload)
    ensures var t := UpSends(e, s, room, msg, payload, next);
      && t.toUp == s.toUp && t.down == s.down && t.disk == s.disk && t.done == s.done && t.heard == s.heard
      && ((&& t.up == next && t.toDown.frames == s.toDown.frames + [Frame(s.un, msg, payload)]
           && Payloads(t.toDown.frames) == Payloads(s.toDown.frames) + payload)
          || (t.up == UClosed && t.toDown.frames == s.toDown.frames))
  {
    hide WriteFrame, Fits;
    PayloadsAppend(s.toDown.frames, Frame(s.un, msg, payload));
  }

  lemma PieceExtends(listing: seq<u8>, sent: nat)
    requires sent <= |listing|
    ensures listing[..sent] + Piece(listing, sent)
      == if |listing| - sent <= MAX_DATA_SIZE then listing else listing[..sent + MAX_DATA_SIZE]
  {
  }

  lemma UPieceList(e: Env, s: State, room: nat, json: seq<u8>)
    requires e.cipher.Valid() && s.up.UList? && ListStream(e, s, json)
    requires s.toUp.frames == [] && NoFinals(s.toDown.frames, true)
    ensures ListStream(e, UPieceStep(e, s, room), json)
  {
    hide UpSends, Piece, Payloads, NoFinals;
    var last := |e.listing| - s.up.sent <= MAX_DATA_SIZE;
    var piece := Piece(e.listing, s.up.sent);
    UpSendsShape(e, s, room, if last then MSG_FILE_LIST_FINAL else MSG_FILE_LIST_PIECE, piece,
                 UListSent(s.up.sent, last));
    NoLastFinal(s.toDown.frames, true);
    PieceExtends(e.listing, s.up.sent);
    var got := Payloads(s.toDown.frames);
    assert json + (got + piece) == (json + got) + piece;
    if !last {
      NoLastFinalAppend(s.toDown.frames, Frame(s.un, MSG_FILE_LIST_PIECE, piece));
    }
  }

  lemma NoLastFinal(fs: seq<Frame>, list: bool)
    requires NoFinals(fs, list)
    ensures !LastFinal(fs, list)
  {
  }

  lemma NoLastFinalAppend(fs: seq<Frame>, f: Frame)
    requires !Final(true, f.msg)
    ensures !LastFinal(fs + [f], true)
  {
  }

  lemma UPieceContent(e: Env, s: State, room: nat)
    requires e.cipher.Valid() && Inv(e, s) && Content(e, s)
    ensures Content(e, UPieceStep(e, s, room))
  {
    hide Inv, DiskOk, DoneOk, HeardOk, ListStream, FileStream, UpSends, Piece;
    if s.up.UList? {
      UListOpen(e, s);
      UpSendsShape(e, s, room,
                   if |e.listing| - s.up.sent <= MAX_DATA_SIZE then MSG_FILE_LIST_FINAL else MSG_FILE_LIST_PIECE,
                   Piece(e.listing, s.up.sent),
                   UListSent(s.up.sent, |e.listing| - s.up.sent <= MAX_DATA_SIZE));
      if s.down.DList? {
        UPieceList(e, s, room, s.down.json);
      }
    }
  }

  lemma UListOpen(e: Env, s: State)
    requires e.cipher.Valid() && Inv(e, s) && s.up.UList?
    ensures OpenPath(s.down).None?
    ensures s.down.DList? ==> s.toUp.frames == [] && NoFinals(s.toDown.frames, true)
  {
    hide Unreadable, BytesOf, LogOk, LastFinal, NoFinals, Below, Chain;
  }

  /** These bytes follow the first `pos` bytes of the source. */
  ghost predicate NextBytes(e: Env, path: seq<u8>, pos: nat, bytes: seq<u8>) {
    forall before :: PrefixOfSource(e, path, before) && |before| == pos ==> PrefixOfSource(e, path, before + bytes)
  }

  lemma UOtherContent(e: Env, s: State, room: nat, msg: u16, payload: seq<u8>, next: Up)
    requires e.cipher.Valid() && Inv(e, s) && Content(e, s) && Fits(msg, payload)
    requires s.up.UHello? || s.up.UDenying? || s.up.UFile?
    requires !s.up.UFile? ==> payload == [] && next.UTop?
    requires s.up.UFile? ==>
      && NextBytes(e, s.up.path, s.up.pos, payload)
      && (next.UTop? || next == UFileSent(s.up.path, s.up.pos + |payload|))
    ensures Content(e, UpSends(e, s, room, msg, payload, next))
  {
    hide Inv, DiskOk, DoneOk, HeardOk, UpSends, ListStream, Fits, PrefixOfSource, Payloads;
    NotListing(e, s);
    UpSendsShape(e, s, room, msg, payload, next);
    if OpenPath(s.down).Some? {
      var path := OpenPath(s.down).value;
      var have := OnDisk(s, path);
      var t := UpSends(e, s, room, msg, payload, next);
      if t.up == next && t.up != UClosed {
        assert Pending(t) == Pending(s) + payload;
        assert have + Pending(t) == (have + Pending(s)) + payload;
        if payload == [] {
          assert have + Pending(t) == have + Pending(s);
        }
      }
    }
  }

  lemma NotListing(e: Env, s: State)
    requires e.cipher.Valid() && Inv(e, s)
    requires s.up.UHello? || s.up.UDenying? || s.up.UFile?
    ensures !s.down.DList?
    ensures s.toUp.frames == []
    ensures s.up.UHello? ==> OpenPath(s.down).None?
  {
    hide Unreadable, BytesOf, LogOk, LastFinal, NoFinals, Below, Chain;
  }

  lemma FileReadFollows(e: Env, path: seq<u8>, pos: nat, len: nat)
    requires e.lookup(path).Regular?
    ensures NextBytes(e, path, pos, FileRead(e.lookup(path).content, pos, len))
  {
    var content := e.lookup(path).content;
    var data := FileRead(content, pos, len);
    forall before | PrefixOfSource(e, path, before) && |before| == pos
      ensures PrefixOfSource(e, path, before + data)
    {
      if data != [] {
        assert content[..pos + |data|] == content[..pos] + data;
      } else {
        assert before + data == before;
      }
    }
  }

  lemma UChunkContent(e: Env, s: State, room: nat, len: nat)
    requires e.cipher.Valid() && Inv(e, s) && Content(e, s)
    ensures Content(e, UChunkStep(e, s, room, len))
  {
    hide Inv, Content, UpSends, FileRead, NextBytes;
    if s.up.UFile? && e.lookup(s.up.path).Regular? {
      var target := e.lookup(s.up.path);
      var data := FileRead(target.content, s.up.pos, len);
      var finished := s.up.pos + |data| >= target.size || data == [];
      FileReadFollows(e, s.up.path, s.up.pos, len);
      UOtherContent(e, s, room, if finished then MSG_FILE_FINISHED else MSG_FILE_CHUNK, data,
                    if finished then UTop else UFileSent(s.up.path, s.up.pos + |data|));
    }
  }

  // ---------------------------------------------------------------- the asking end's steps

  /** What the asking end reads is the first frame on the wire. */
  lemma ReadsFirstFrame(e: Env, s: State)
    requires e.cipher.Valid() && Inv(e, s) && DWaits(s)
    ensures match Receive(e.cipher, s.dn, s.toDown)
      case Rx(msg, payload, _, wire) =>
        && s.toDown.frames != []
        && msg == s.toDown.frames[0].msg && payload == s.toDown.frames[0].payload
        && wire.frames == s.toDown.frames[1..]
      case _ => true
  {
    hide Receive, Unreadable, BytesOf, LogOk, Below, Busy, LastFinal, NoFinals;
    if s.toDown.frames == [] {
      Nothing(e, s.dn);
      ReceiveTail(e.cipher, s.dn, s.toDown, false);
    } else {
      ReceiveFrame(e.cipher, s.dn, s.toDown);
    }
  }

  /** The final piece of a listing is the last frame on the wire. */
  lemma FinalIsLast(e: Env, s: State)
    requires e.cipher.Valid() && Inv(e, s) && s.down.DList?
    requires s.toDown.frames != [] && Final(true, s.toDown.frames[0].msg)
    ensures |s.toDown.frames| == 1 && LastFinal(s.toDown.frames, true)
  {
    hide Unreadable, BytesOf, LogOk, Below, Busy, Chain, End;
    var fs := s.toDown.frames;
    assert !NoFinals(fs, true);
  }

  lemma TailLastFinal(fs: seq<Frame>)
    requires fs != [] && LastFinal(fs[1..], true) && !Final(true, fs[0].msg)
    ensures LastFinal(fs, true)
  {
    forall i | 0 <= i < |fs| - 1
      ensures !Final(true, fs[i].msg)
    {
      if i > 0 {
        assert fs[i] == fs[1..][..|fs[1..]| - 1][i - 1];
      }
    }
  }

  /** A piece of the listing is taken from the wire; the last one, if it is not too much, ends the listing. */
  lemma DReadListShape(e: Env, s: State)
    requires e.cipher.Valid() && Inv(e, s) && s.down.DList?
    ensures var t := DReadStep(e, s);
      var fs, json := s.toDown.frames, s.down.json;
      && t.disk == s.disk && t.done == s.done && t.toUp == s.toUp && t.up == s.up && OpenPath(t.down).None?
      && (t == s
        || (!t.down.DList? && t.heard == s.heard)
        || (fs != [] && t.toDown.frames == fs[1..]
            && (if t.down.DList?
                then t.down.json == json + fs[0].payload && t.heard == s.heard && !Final(true, fs[0].msg)
                else t.heard == s.heard + [json + fs[0].payload] && Final(true, fs[0].msg)
                     && |json + fs[0].payload| <= MAX_EVERYTHING_FILE_SIZE)))
  {
    hide Inv, Receive;
    ReadsFirstFrame(e, s);
  }

  lemma DReadList(e: Env, s: State)
    requires e.cipher.Valid() && Inv(e, s) && Content(e, s) && s.down.DList?
    ensures Content(e, DReadStep(e, s))
  {
    hide Inv, DReadStep, DiskOk, DoneOk, LastFinal, Final;
    DReadListShape(e, s);
    var t := DReadStep(e, s);
    var fs := s.toDown.frames;
    var json := s.down.json;
    if fs != [] {
      var payload := fs[0].payload;
      assert (json + payload) + Payloads(fs[1..]) == json + Payloads(fs);
      if Final(true, fs[0].msg) {
        FinalIsLast(e, s);
        assert json + Payloads(fs) == json + payload;
      } else if LastFinal(fs[1..], true) {
        TailLastFinal(fs);
      }
    }
  }

  /** Reading a file frame takes it from the wire, but it is still pending. */
  lemma DReadFileShape(e: Env, s: State)
    requires e.cipher.Valid() && Inv(e, s)
    requires s.down.DAccept? || s.down.DFirst? || s.down.DStream?
    ensures var t := DReadStep(e, s);
      && t.disk == s.disk && t.done == s.done && t.heard == s.heard && t.toUp == s.toUp && t.up == s.up
      && !t.down.DList?
      && (OpenPath(t.down).Some? ==> OpenPath(t.down) == OpenPath(s.down) && Pending(t) == Pending(s))
  {
    hide Inv, Receive;
    ReadsFirstFrame(e, s);
  }

  lemma DReadFile(e: Env, s: State)
    requires e.cipher.Valid() && Inv(e, s) && Content(e, s)
    requires s.down.DAccept? || s.down.DFirst? || s.down.DStream?
    ensures Content(e, DReadStep(e, s))
  {
    hide Inv, DReadStep, DiskOk, DoneOk, HeardOk, PrefixOfSource, SelectionOf, ListStream, Pending;
    DReadFileShape(e, s);
  }

  /** The frame's bytes go from what is pending to the disk. */
  lemma DWorkShape(e: Env, s: State)
    requires s.down.DProcess?
    ensures var t := DWorkStep(s);
      var path, now := s.down.path, OnDisk(s, s.down.path) + s.down.payload;
      && t.up == s.up && t.toUp == s.toUp && t.heard == s.heard && !t.down.DList?
      && t.disk == s.disk[path := now]
      && (t.done == s.done || (|now| == s.down.want && t.done == s.done + [Done(path, s.down.want, now)]))
      && now + Payloads(s.toDown.frames) == OnDisk(s, path) + Pending(s)
      && (OpenPath(t.down).Some? ==>
        && OpenPath(t.down).value == path && OnDisk(t, path) == now
        && Pending(t) == Payloads(s.toDown.frames))
  {
    assert (OnDisk(s, s.down.path) + s.down.payload) + Payloads(s.toDown.frames)
      == OnDisk(s, s.down.path) + (s.down.payload + Payloads(s.toDown.frames));
  }

  lemma DWorkContent(e: Env, s: State)
    requires e.cipher.Valid() && Inv(e, s) && Content(e, s)
    ensures Content(e, DWorkStep(s))
  {
    hide Inv, HeardOk, SelectionOf, ListStream, Payloads, DWorkStep;
    if s.down.DProcess? {
      hide Pending, OnDisk;
      DWorkShape(e, s);
      var path := s.down.path;
      var now := OnDisk(s, path) + s.down.payload;
      assert now <= now + Payloads(s.toDown.frames);
      assert PrefixOfSource(e, path, now);
    } else {
      NoWork(s);
    }
  }

  lemma NoWork(s: State)
    requires !s.down.DProcess?
    ensures DWorkStep(s) == s
  {
  }

  lemma DMailContent(e: Env, s: State, stop: bool)
    requires Content(e, s)
    ensures Content(e, DMailStep(s, stop))
  {
    hide DiskOk, DoneOk, HeardOk, PrefixOfSource, SelectionOf, ListStream;
  }

  lemma DSendsShape(e: Env, s: State, room: nat, msg: u16, payload: seq<u8>, next: Down)
    requires e.cipher.Valid()
    ensures var t := DownSends(e, s, room, msg, payload, next);
      && t.toDown == s.toDown && t.up == s.up && t.disk == s.disk && t.done == s.done && t.heard == s.heard
      && (t.down == next || t.down == DClosed)
      && (|| t.toUp.frames == s.toUp.frames
          || (t.down == next && t.toUp.frames == s.toUp.frames + [Frame(s.dn, msg, payload)]))
  {
    hide WriteFrame;
  }

  lemma DAskContent(e: Env, s: State, room: nat)
    requires e.cipher.Valid() && Inv(e, s) && Content(e, s) && (s.down == DStart || s.down == DForce)
    ensures Content(e, DownSends(e, s, room, MSG_FILE_LIST, [], DList([], s.down == DForce)))
  {
    assert Quiet(s);
    NoLastFinal([], true) by {
      assert NoFinals([], true);
    }
    hide Inv, DownSends, DiskOk, DoneOk, HeardOk, LastFinal;
    DSendsShape(e, s, room, MSG_FILE_LIST, [], DList([], s.down == DForce));
  }

  lemma ReadyIsQuiet(e: Env, s: State)
    requires e.cipher.Valid() && Inv(e, s) && s.down == DReady
    ensures s.toUp.frames == [] && s.toDown.frames == [] && (Idle(s.up) || s.up.UClosed?)
  {
  }

  lemma DSelectContent(e: Env, s: State, room: nat, path: seq<u8>, want: u64)
    requires e.cipher.Valid() && Inv(e, s) && Content(e, s)
    ensures Content(e, DSelectStep(e, s, room, path, want))
  {
    hide Inv, DownSends, Selection, Fits, HeardOk, Pow256;
    var have := OnDisk(s, path);
    if s.down == DReady && |path| <= MAX_EVERYTHING_FILE_SIZE && |have| < want {
      ReadyIsQuiet(e, s);
      PowValues();
      DSendsShape(e, s, room, MSG_FILE_SELECTION_CONTINUE, Selection(|have|, path), DFirst(path, want));
      assert have + [] == have;
    }
  }

  lemma StepContent(e: Env, s: State, a: Action)
    requires e.cipher.Valid() && Inv(e, s) && Content(e, s)
    ensures Content(e, Step(e, s, a))
  {
    hide Inv, UpSends, DownSends, UMailStep, UReadStep, DReadStep, DMailStep, DWorkStep, DSelectStep, UPieceStep,
      UChunkStep, DiskOk, DoneOk, HeardOk, ListStream, FileStream;
    match a
    case UAbort => UClosedContent(e, s);
    case UWriteHello(room, noList) =>
      if s.up == UHello {
        UOtherContent(e, s, room, if noList then MSG_REVERSE_NO_LIST else MSG_REVERSE, [], UTop);
      }
    case UMail(shutdown) => UMailContent(e, s, shutdown);
    case URead => UReadContent(e, s);
    case USendPiece(room) => UPieceContent(e, s, room);
    case USendDenial(room) =>
      if s.up.UDenying? { UOtherContent(e, s, room, s.up.denial, [], UTop); }
    case USendChunk(room, len) => UChunkContent(e, s, room, len);
    case DAbort =>
    case DMail(stop) => DMailContent(e, s, stop);
    case DRead =>
      if s.down.DList? {
        DReadList(e, s);
      } else if DWaits(s) {
        DReadFile(e, s);
      } else {
        DReadNothing(e, s);
      }
    case DSkipList =>
    case DAskList(room) =>
      if s.down == DStart || s.down == DForce { DAskContent(e, s, room); }
    case DSelect(room, path, want) => DSelectContent(e, s, room, path, want);
    case DWork => DWorkContent(e, s);
  }

  lemma DReadNothing(e: Env, s: State)
    requires e.cipher.Valid() && !DWaits(s)
    ensures DReadStep(e, s) == s
  {
  }

  lemma UClosedContent(e: Env, s: State)
    requires Content(e, s)
    ensures Content(e, s.(up := UClosed))
  {
    hide DiskOk, DoneOk, HeardOk, PrefixOfSource, SelectionOf, LastFinal;
    var t := s.(up := UClosed);
    assert Pending(t) == Pending(s);
  }

  lemma {:induction false} RunContent(e: Env, s: State, actions: seq<Action>)
    requires e.cipher.Valid() && Inv(e, s) && Content(e, s)
    ensures Content(e, Run(e, s, actions))
    decreases |actions|
  {
    hide Inv, Content, Step;
    if actions == [] {
    } else {
      StepKeeps(e, s, actions[0]);
      StepContent(e, s, actions[0]);
      RunContent(e, Step(e, s, actions[0]), actions[1..]);
    }
  }

  // ---------------------------------------------------------------- main results

  /** One connection: its key, the serving end's listing, who connected, and how it went. */
  datatype Session = Session(cipher: Cipher, listing: seq<u8>, reverse: bool, actions: seq<Action>)

  ghost predicate Usable(sessions: seq<Session>) {
    forall i :: 0 <= i < |sessions| ==> sessions[i].cipher.Valid()
  }

  function EnvOf(lookup: seq<u8> -> Target, x: Session): Env {
    Env(x.cipher, x.listing, lookup, x.reverse)
  }

  /** The end of a session that starts with these files on disk. */
  ghost function Attend(lookup: seq<u8> -> Target, disk: map<seq<u8>, seq<u8>>, x: Session): State
    requires x.cipher.Valid()
  {
    Run(EnvOf(lookup, x), Init(EnvOf(lookup, x), disk), x.actions)
  }

  /** The destination files after these sessions, each resuming where the one before stopped. */
  ghost function DiskAfter(lookup: seq<u8> -> Target, disk: map<seq<u8>, seq<u8>>,
                           sessions: seq<Session>): map<seq<u8>, seq<u8>>
    requires Usable(sessions)
    decreases |sessions|
  {
    if sessions == [] then disk
    else
      var before := sessions[..|sessions| - 1];
      Attend(lookup, DiskAfter(lookup, disk, before), sessions[|sessions| - 1]).disk
  }

  ghost predicate Prefixes(lookup: seq<u8> -> Target, disk: map<seq<u8>, seq<u8>>) {
    forall p :: p in disk && lookup(p).Regular? ==> disk[p] <= lookup(p).content
  }

  lemma SessionContent(lookup: seq<u8> -> Target, disk: map<seq<u8>, seq<u8>>, x: Session)
    requires x.cipher.Valid() && Prefixes(lookup, disk)
    ensures Content(EnvOf(lookup, x), Attend(lookup, disk, x))
  {
    hide Run, Inv;
    var e := EnvOf(lookup, x);
    InitInv(e, disk);
    assert Content(e, Init(e, disk));
    RunContent(e, Init(e, disk), x.actions);
  }

  lemma SessionKeeps(lookup: seq<u8> -> Target, disk: map<seq<u8>, seq<u8>>, x: Session)
    requires x.cipher.Valid() && Prefixes(lookup, disk)
    ensures var s := Attend(lookup, disk, x);
      && Prefixes(lookup, s.disk)
      && (forall i :: 0 <= i < |s.done| ==>
            var d := s.done[i];
            && |d.bytes| == d.want
            && (lookup(d.path).Regular? ==>
                  d.want <= |lookup(d.path).content| && d.bytes == lookup(d.path).content[..d.want]))
      && HeardOk(EnvOf(lookup, x), s.heard)
  {
    SessionContent(lookup, disk, x);
    hide Attend, SelectionOf, ListStream, FileStream, HeardOk;
    var e := EnvOf(lookup, x);
    var s := Attend(lookup, disk, x);
    forall p | p in s.disk && lookup(p).Regular?
      ensures s.disk[p] <= lookup(p).content
    {
      assert PrefixOfSource(e, p, s.disk[p]);
    }
    forall i | 0 <= i < |s.done|
      ensures |s.done[i].bytes| == s.done[i].want
      ensures PrefixOfSource(e, s.done[i].path, s.done[i].bytes)
    {
    }
  }

  /**
   Resumable transfer. Start with destination files that are prefixes of their sources. After any
   number of connections, each with any schedule, short reads, stops and cuts, they still are.
   */
  lemma {:induction false} ResumedFilesArePrefixes(lookup: seq<u8> -> Target, disk: map<seq<u8>, seq<u8>>,
                                                   sessions: seq<Session>)
    requires Usable(sessions) && Prefixes(lookup, disk)
    ensures Prefixes(lookup, DiskAfter(lookup, disk, sessions))
    decreases |sessions|
  {
    hide Prefixes, Attend;
    if sessions == [] {
    } else {
      var before := sessions[..|sessions| - 1];
      ResumedFilesArePrefixes(lookup, disk, before);
      SessionKeeps(lookup, DiskAfter(lookup, disk, before), sessions[|sessions| - 1]);
    }
  }

  /** A file that is reported completed in some session is its source, up to the expected size. */
  lemma CompletedFilesAreTheSource(lookup: seq<u8> -> Target, disk: map<seq<u8>, seq<u8>>, before: seq<Session>,
                                   x: Session, d: Done)
    requires Usable(before) && x.cipher.Valid() && Prefixes(lookup, disk)
    requires d in Attend(lookup, DiskAfter(lookup, disk, before), x).done
    requires lookup(d.path).Regular?
    ensures d.want <= |lookup(d.path).content|
    ensures d.bytes == lookup(d.path).content[..d.want]
  {
    hide Attend, DiskAfter;
    ResumedFilesArePrefixes(lookup, disk, before);
    SessionKeeps(lookup, DiskAfter(lookup, disk, before), x);
  }

  /** A listing received to its end, in any session, is the one the serving end has, and is not too large. */
  lemma ListingsAreComplete(lookup: seq<u8> -> Target, disk: map<seq<u8>, seq<u8>>, x: Session, heard: seq<u8>)
    requires x.cipher.Valid() && Prefixes(lookup, disk)
    requires heard in Attend(lookup, disk, x).heard
    ensures heard == x.listing && |heard| <= MAX_EVERYTHING_FILE_SIZE
  {
    hide Attend;
    SessionKeeps(lookup, disk, x);
  }
}
