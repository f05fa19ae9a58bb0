/**
 The request/response protocol between the two ends of one connection, as a step system.

 One end serves (`SingleUploader`, src/incoming_uploader.rs), the other asks (`SingleDownloader`
 and `download_everything_file`, src/outgoing_downloader.rs). Each end has one nonce counter for
 both directions, and both encrypt under the same key. A step is one statement that reads, writes
 or looks at a mailbox; an Action names the end that moves and fixes what the environment
 decides: mailbox contents, file bytes, the listing's length, and how many bytes of a write get
 through (`room`). Either end may be cut off at any step.
 */
module Protocol {
  import opened Common
  import opened CoreConsts
  import opened FrameCodec

  /**
   What `get_file_by_path` finds in the serving thread's listing: for a file, the bytes that are
   on its disk and the size that the listing gives, which need not agree.
   */
  datatype Target = Missing | Directory | Regular(content: seq<u8>, size: nat)

  /** `reverse`: the serving end connected and announces itself (Reverse Connection). */
  datatype Env = Env(cipher: Cipher, listing: seq<u8>, lookup: seq<u8> -> Target, reverse: bool)

  /** A frame that was written completely: the nonce of its first part, and its contents. */
  datatype Frame = Frame(nonce: nat, msg: u16, payload: seq<u8>)

  /**
   One direction of the connection. Only `bytes` is real. The rest is history: the complete
   frames among the unread bytes that the reader has room for, and what lies behind them, from a
   write that failed or from a frame that is too long.
   */
  datatype Wire = Wire(bytes: seq<u8>, frames: seq<Frame>, tail: seq<u8>)

  /** Where the serving thread is; line numbers of src/incoming_uploader.rs. */
  datatype Up =
    | UHello                                 // 651: connected in reverse, about to announce itself
    | UTop                                   // 678: read_receiver at the top of the serve loop
    | UWait                                  // 724: reading the next request
    | UGot(msg: u16, payload: seq<u8>)       // 726: read_receiver, then dispatch
    | UList(sent: nat)                       // 744: about to send the piece at this offset
    | UListSent(sent: nat, last: bool)       // 758: piece sent, read_receiver
    | UDenying(denial: u16)                  // 799, 810: about to refuse the selection
    | UFile(path: seq<u8>, pos: nat)         // 836: about to read and send file bytes
    | UFileSent(path: seq<u8>, pos: nat)     // 876: chunk sent, read_receiver
    | UClosed

  /** Where the asking thread is; line numbers of src/outgoing_downloader.rs. */
  datatype Down =
    | DAccept                                // incoming_uploader.rs 724: first read of an accepted connection
    | DAccepted(hello: u16)                  // incoming_uploader.rs 726: read_receiver, then hand over
    | DStart                                 // 796: set_everything_file
    | DList(json: seq<u8>, force: bool)      // 571: reading listing pieces
    | DReady                                 // 823: may select the next file
    | DFirst(path: seq<u8>, want: nat)       // 1008: reading the first reply to a selection
    | DForce                                 // 1013: invalid file, about to fetch the listing anew
    | DProcess(msg: u16, payload: seq<u8>, path: seq<u8>, want: nat)   // 1043: a file frame to append
    | DStream(path: seq<u8>, want: nat)      // 1094: reading the next file frame
    | DCheck(msg: u16, payload: seq<u8>, path: seq<u8>, want: nat)     // 1106: read_receiver before appending
    | DBetween                               // 879, 910: a file is done or interrupted, read_receiver
    | DClosed

  datatype Sealed = Sealed(byUp: bool, nonce: nat)

  /** A file that was reported completed, with the bytes that were on disk at that moment. */
  datatype Done = Done(path: seq<u8>, want: nat, bytes: seq<u8>)

  /**
   `stop` is the sticky `stop_downloading`; `disk` holds the asking end's destination files.
   History: `log` lists every encryption in order, `done` the completed files, `heard` the
   listings that were received to their end; `long` says that a selection was sent, or tried, that
   does not fit.
   */
  datatype State = State(up: Up, un: nat, down: Down, dn: nat, stop: bool,
                         toUp: Wire, toDown: Wire,
                         disk: map<seq<u8>, seq<u8>>,
                         log: seq<Sealed>, done: seq<Done>, heard: seq<seq<u8>>, long: bool)

  datatype Action =
    | UAbort
    | UWriteHello(room: nat, noList: bool)
    | UMail(shutdown: bool)
    | URead
    | USendPiece(room: nat)
    | USendDenial(room: nat)
    | USendChunk(room: nat, len: nat)
    | DAbort
    | DMail(stop: bool)
    | DRead
    | DSkipList
    | DAskList(room: nat)
    | DSelect(room: nat, path: seq<u8>, want: u64)
    | DWork

  // ---------------------------------------------------------------- the two stream operations

  datatype Rx = Blocked | Broken(error: ReadError) | Rx(msg: u16, payload: seq<u8>, nonce: nat, wire: Wire)

  /** `read`, `get_message` and `get_payload`. A starved read blocks until the connection is cut. */
  ghost function Receive(c: Cipher, n: nat, w: Wire): Rx
    requires c.Valid()
  {
    match Decode(c, n, w.bytes)
    case Err(Starved) => Blocked
    case Err(e) => Broken(e)
    case Ok(f) =>
      match PayloadOf(c, f)
      case Err(e) => Broken(e)
      case Ok(p) => Rx(f.Msg(), p, f.nonce,
                       Wire(w.bytes[f.used..], if w.frames == [] then [] else w.frames[1..], w.tail))
  }

  datatype Tx = Tx(ok: bool, nonce: nat, wire: Wire, used: seq<nat>)

  function Send(c: Cipher, n: nat, room: nat, w: Wire, msg: u16, payload: seq<u8>): Tx {
    var r := WriteFrame(c, n, room, msg, payload);
    Tx(r.ok, r.nonce,
       if r.ok && Fits(msg, payload) then Wire(w.bytes + r.sent, w.frames + [Frame(n, msg, payload)], w.tail)
       else Wire(w.bytes + r.sent, w.frames, w.tail + r.sent),
       r.used)
  }

  function Seals(byUp: bool, used: seq<nat>): seq<Sealed> {
    seq(|used|, i requires 0 <= i < |used| => Sealed(byUp, used[i]))
  }

  function UpSends(e: Env, s: State, room: nat, msg: u16, payload: seq<u8>, next: Up): State {
    var t := Send(e.cipher, s.un, room, s.toDown, msg, payload);
    s.(un := t.nonce, toDown := t.wire, log := s.log + Seals(true, t.used),
       up := if t.ok then next else UClosed)
  }

  function DownSends(e: Env, s: State, room: nat, msg: u16, payload: seq<u8>, next: Down): State {
    var t := Send(e.cipher, s.dn, room, s.toUp, msg, payload);
    s.(dn := t.nonce, toUp := t.wire, log := s.log + Seals(false, t.used), long := s.long || !Fits(msg, payload),
       down := if t.ok then next else DClosed)
  }

  // ---------------------------------------------------------------- the serving end

  function Piece(listing: seq<u8>, sent: nat): (p: seq<u8>)
    ensures |p| <= MAX_DATA_SIZE
  {
    if sent > |listing| then []
    else if |listing| - sent <= MAX_DATA_SIZE then listing[sent..]
    else listing[sent..sent + MAX_DATA_SIZE]
  }

  function Dispatch(e: Env, msg: u16, payload: seq<u8>): Up {
    if msg == MSG_FILE_LIST then UList(0)
    else if msg == MSG_FILE_SELECTION_CONTINUE then
      if |payload| < 8 then UClosed
      else match e.lookup(payload[8..])
        case Missing => UDenying(MSG_FILE_INVALID_FILE)
        case Directory => UDenying(MSG_CANNOT_SELECT_DIRECTORY)
        case Regular(_, _) => UFile(payload[8..], FromBE(payload[..8]))
    else UClosed
  }

  function UMailStep(e: Env, s: State, shutdown: bool): State {
    match s.up
    case UTop => s.(up := if shutdown then UClosed else UWait)
    case UGot(msg, payload) => s.(up := if shutdown then UClosed else Dispatch(e, msg, payload))
    case UListSent(sent, last) =>
      s.(up := if shutdown then UClosed else if last then UTop else UList(sent + MAX_DATA_SIZE))
    case UFileSent(path, pos) => s.(up := if shutdown then UClosed else UFile(path, pos))
    case _ => s
  }

  ghost function UReadStep(e: Env, s: State): State
    requires e.cipher.Valid()
  {
    if s.up != UWait then s
    else match Receive(e.cipher, s.un, s.toUp)
      case Blocked => s
      case Broken(_) => s.(up := UClosed)
      case Rx(msg, payload, n, wire) => s.(up := UGot(msg, payload), un := n, toUp := wire)
  }

  function UPieceStep(e: Env, s: State, room: nat): State {
    if !s.up.UList? then s
    else
      var last := |e.listing| - s.up.sent <= MAX_DATA_SIZE;
      UpSends(e, s, room, if last then MSG_FILE_LIST_FINAL else MSG_FILE_LIST_PIECE,
              Piece(e.listing, s.up.sent), UListSent(s.up.sent, last))
  }

  /**
   What `f.read` returns at this position when it reads at most `len` bytes. A read may be short,
   but it is empty only at the end of the file.
   */
  function FileRead(content: seq<u8>, pos: nat, len: nat): (data: seq<u8>)
    ensures |data| <= MAX_DATA_SIZE
  {
    if pos >= |content| then []
    else
      var most := if |content| - pos <= MAX_DATA_SIZE then |content| - pos else MAX_DATA_SIZE;
      content[pos..pos + if 1 <= len <= most then len else most]
  }

  function UChunkStep(e: Env, s: State, room: nat, len: nat): State {
    if !s.up.UFile? || !e.lookup(s.up.path).Regular? then s
    else
      var target := e.lookup(s.up.path);
      var data := FileRead(target.content, s.up.pos, len);
      var pos := s.up.pos + |data|;
      var finished := pos >= target.size || data == [];
      UpSends(e, s, room, if finished then MSG_FILE_FINISHED else MSG_FILE_CHUNK, data,
              if finished then UTop else UFileSent(s.up.path, pos))
  }

  // ---------------------------------------------------------------- the asking end

  ghost function DReadStep(e: Env, s: State): State
    requires e.cipher.Valid()
  {
    if !(s.down.DAccept? || s.down.DList? || s.down.DFirst? || s.down.DStream?) then s
    else match Receive(e.cipher, s.dn, s.toDown)
      case Blocked => s
      case Broken(_) => s.(down := DClosed)
      case Rx(msg, payload, n, wire) =>
        s.(dn := n, toDown := wire, down := AfterRead(s.down, msg, payload),
           heard := if ListingEnds(s.down, msg, payload) then s.heard + [s.down.json + payload] else s.heard)
  }

  /** The last piece of a listing that is not too large. */
  predicate ListingEnds(down: Down, msg: u16, payload: seq<u8>) {
    down.DList? && |down.json| + |payload| <= MAX_EVERYTHING_FILE_SIZE && msg == MSG_FILE_LIST_FINAL
  }

  function AfterRead(down: Down, msg: u16, payload: seq<u8>): Down
    requires down.DAccept? || down.DList? || down.DFirst? || down.DStream?
  {
    match down
    case DAccept => DAccepted(msg)
    case DList(json, force) =>
      if |json| + |payload| > MAX_EVERYTHING_FILE_SIZE then DClosed
      else if msg == MSG_FILE_LIST_FINAL then (if force then DClosed else DReady)
      else DList(json + payload, force)
    case DFirst(path, want) =>
      if msg == MSG_FILE_INVALID_FILE then DForce
      else if msg != MSG_FILE_CHUNK && msg != MSG_FILE_FINISHED then DClosed
      else DProcess(msg, payload, path, want)
    case DStream(path, want) =>
      if msg != MSG_FILE_CHUNK && msg != MSG_FILE_FINISHED then DClosed
      else DCheck(msg, payload, path, want)
  }

  function DMailStep(s: State, stop: bool): State {
    var s' := s.(stop := s.stop || stop);
    match s.down
    case DAccepted(hello) =>
      // an accepted connection that does not announce a reverse one is served, not handed over
      s.(down := if stop || (hello != MSG_REVERSE && hello != MSG_REVERSE_NO_LIST) then DClosed else DStart)
    case DCheck(msg, payload, path, want) =>
      s'.(down := if s'.stop then DBetween else DProcess(msg, payload, path, want))
    case DBetween => s'.(down := if s'.stop then DClosed else DReady)
    case _ => s
  }

  function OnDisk(s: State, path: seq<u8>): seq<u8> {
    if path in s.disk then s.disk[path] else []
  }

  /** Append the frame's bytes, then compare both ends' idea of being finished. */
  function DWorkStep(s: State): State {
    match s.down
    case DProcess(msg, payload, path, want) =>
      var now := OnDisk(s, path) + payload;
      var remote, here := msg == MSG_FILE_FINISHED, |now| == want;
      s.(disk := s.disk[path := now],
         done := if remote && here then s.done + [Done(path, want, now)] else s.done,
         down := if remote && here then DBetween else if remote != here then DClosed
                 else DStream(path, want))
    case _ => s
  }

  /**
   942, 978: the length on disk decides whether there is anything to ask for. The path comes from a
   listing, and no listing with a longer path is accepted (575).
   */
  function DSelectStep(e: Env, s: State, room: nat, path: seq<u8>, want: u64): State {
    var have := OnDisk(s, path);
    if s.down != DReady || |path| > MAX_EVERYTHING_FILE_SIZE then s
    else if |have| == want then
      s.(disk := s.disk[path := have], done := s.done + [Done(path, want, have)], down := DBetween)
    else if |have| > want then s.(down := DBetween)
    else DownSends(e, s, room, MSG_FILE_SELECTION_CONTINUE, Selection(|have|, path), DFirst(path, want))
  }

  function Selection(offset: nat, path: seq<u8>): seq<u8> {
    ToBE(offset, 8) + path
  }

  // ---------------------------------------------------------------- runs

  ghost function Step(e: Env, s: State, a: Action): State
    requires e.cipher.Valid()
  {
    match a
    case UAbort => s.(up := UClosed)
    case UWriteHello(room, noList) =>
      if s.up != UHello then s
      else UpSends(e, s, room, if noList then MSG_REVERSE_NO_LIST else MSG_REVERSE, [], UTop)
    case UMail(shutdown) => UMailStep(e, s, shutdown)
    case URead => UReadStep(e, s)
    case USendPiece(room) => UPieceStep(e, s, room)
    case USendDenial(room) =>
      if !s.up.UDenying? then s else UpSends(e, s, room, s.up.denial, [], UTop)
    case USendChunk(room, len) => UChunkStep(e, s, room, len)
    case DAbort => s.(down := DClosed)
    case DMail(stop) => DMailStep(s, stop)
    case DRead => DReadStep(e, s)
    case DSkipList => if s.down != DStart then s else s.(down := DReady)
    case DAskList(room) =>
      if s.down != DStart && s.down != DForce then s
      else DownSends(e, s, room, MSG_FILE_LIST, [], DList([], s.down == DForce))
    case DSelect(room, path, want) => DSelectStep(e, s, room, path, want)
    case DWork => DWorkStep(s)
  }

  /** A fresh connection of an asking end that has these files on disk. */
  function Init(e: Env, disk: map<seq<u8>, seq<u8>>): State {
    State(if e.reverse then UHello else UTop, NONCE_INIT, if e.reverse then DAccept else DStart,
          NONCE_INIT, false, Wire([], [], []), Wire([], [], []), disk, [], [], [], false)
  }

  /** The state after these actions. An action that its end cannot take changes nothing. */
  ghost function Run(e: Env, s: State, actions: seq<Action>): State
    requires e.cipher.Valid()
    decreases |actions|
  {
    if actions == [] then s else Run(e, Step(e, s, actions[0]), actions[1..])
  }
}
