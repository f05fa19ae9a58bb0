/**
 The asking thread of one peer: `SingleDownloader` of src/outgoing_downloader.rs, over the real
 stream. Its queue moves by the steps of DownloadQueues, unless a listing lets an item slip, and its
 byte counter and disk by the accounts of DownloadTrees.
 */
module Downloader {
  import opened Common
  import opened CoreConsts
  import opened FrameCodec
  import opened EncryptedStreams
  import opened SharedTree
  import opened QueueFile
  import opened DownloadQueues
  import opened DownloadTrees

  /** What one call of `read_receiver` finds: the queued messages, and whether a sender is gone. */
  datatype Batch = Batch(messages: seq<Message>, disconnected: bool)

  function Front(inbox: seq<Batch>): Batch {
    if inbox == [] then Batch([], false) else inbox[0]
  }

  function Rest(inbox: seq<Batch>): seq<Batch> {
    if inbox == [] then [] else inbox[1..]
  }

  function AllNews(inbox: seq<Batch>): nat {
    if inbox == [] then 0 else News(inbox[0].messages) + AllNews(inbox[1..])
  }

  function Weight(fate: Option<Fate>): nat {
    if fate.Some? then 1 else 0
  }

  /** Of two fates, one of which is none. */
  function Either(a: Option<Fate>, b: Option<Fate>): Option<Fate> {
    if b.Some? then b else a
  }

  /**
   The thread works on this item: it is active and first; or there is no active item any more; or a
   stop was requested.
   */
  predicate Holding(c: Core, item: DownloadQueueItem) {
    c.active.None? || Processing(c, item)
  }

  /**
   Unless a stop was requested, the queue has lost nothing but its front item, and that only with
   this fate; then no item is active any more, and without an active item no item can end.
   */
  ghost predicate Moved(c: Core, d: Core, fate: Option<Fate>) {
    && (c.active.None? ==> fate.None?)
    && (c.active.None? || fate.Some? ==> d.active.None?)
    && (!d.stop ==>
      && Weight(fate) <= |c.queue| && c.queue[Weight(fate)..] <= d.queue
      && (fate.None? ==> d.active == c.active))
  }

  lemma MovedNot(c: Core)
    ensures Moved(c, c, None)
  {
  }

  lemma MovedMore(a: Core, b: Core, c: Core, first: Option<Fate>, second: Option<Fate>)
    requires Moved(a, b, first) && Moved(b, c, second) && (b.stop ==> c.stop)
    requires a.active.Some? ==> a.queue != []
    ensures Moved(a, c, Either(first, second)) && (first.None? || second.None?)
  {
    if !c.stop && second.Some? {
      assert a.queue[0..] == a.queue <= b.queue;
      assert a.queue[1..] <= b.queue[1..];
    }
  }

  lemma MovedHolds(a: Core, b: Core, fate: Option<Fate>, item: DownloadQueueItem)
    requires Moved(a, b, fate) && Holding(a, item) && (a.stop ==> b.stop)
    ensures Holding(b, item)
    ensures fate.None? && Processing(a, item) ==> Processing(b, item)
  {
    if !b.stop && fate.None? {
      assert a.queue[0..] == a.queue <= b.queue;
    }
  }

  lemma ProcessingHolds(c: Core, item: DownloadQueueItem)
    requires Processing(c, item)
    ensures Holding(c, item)
  {
  }

  /** What the thread has to answer for: its queue, its reports, how much is still to come, and its looks. */
  datatype Ledger = Ledger(core: Core, reports: seq<Entry>, load: nat, looks: nat, slipped: bool,
                           worked: seq<SharedFile>)

  /** This much has happened: the item ended with this fate and was reported with it, or nothing ended. */
  ghost predicate Progress(a: Ledger, b: Ledger, item: DownloadQueueItem, fate: Option<Fate>) {
    && b.reports == a.reports + Told(item, fate)
    && b.load + Weight(fate) <= a.load
    && b.looks >= a.looks && b.slipped == a.slipped && b.worked == a.worked
    && (a.core.stop ==> b.core.stop)
    && Moved(a.core, b.core, fate)
  }

  lemma NoProgress(a: Ledger, item: DownloadQueueItem)
    ensures Progress(a, a, item, None)
  {
    MovedNot(a.core);
  }

  lemma ProgressMore(a: Ledger, b: Ledger, c: Ledger, item: DownloadQueueItem, first: Option<Fate>,
                     second: Option<Fate>)
    requires Progress(a, b, item, first) && Progress(b, c, item, second)
    requires !a.core.stop && Holding(a.core, item)
    ensures Progress(a, c, item, Either(first, second))
  {
    hide Moved;
    MovedMore(a.core, b.core, c.core, first, second);
  }

  lemma ProgressHolds(a: Ledger, b: Ledger, item: DownloadQueueItem, fate: Option<Fate>)
    requires Progress(a, b, item, fate) && Holding(a.core, item)
    ensures Holding(b.core, item)
    ensures fate.None? && Processing(a.core, item) ==> Processing(b.core, item)
    ensures !b.core.stop ==> b.core.active == if fate.Some? then None else a.core.active
    ensures b.looks >= a.looks
  {
    MovedHolds(a.core, b.core, fate, item);
  }

  lemma ProgressTells(a: Ledger, b: Ledger, item: DownloadQueueItem, fate: Option<Fate>)
    requires Progress(a, b, item, fate)
    ensures b.reports == a.reports + Told(item, fate) && (fate.None? ==> b.reports == a.reports)
    ensures b.load + Weight(fate) <= a.load && (a.core.stop ==> b.core.stop)
    ensures b.looks >= a.looks && b.slipped == a.slipped && b.worked == a.worked
    ensures !b.core.stop ==> Weight(fate) <= |a.core.queue| && a.core.queue[Weight(fate)..] <= b.core.queue
  {
  }

  /**
   An item has ended, once, or twice, or not at all. Each end is reported, and unless a stop was
   requested each has taken one item from the front of the queue; at its second end the item is not
   there any more.
   */
  ghost predicate ItemProgress(a: Ledger, b: Ledger, item: DownloadQueueItem, early: Option<Fate>, fate: Option<Fate>) {
    var ends := Weight(early) + Weight(fate);
    && b.reports == a.reports + Told(item, early) + Told(item, fate)
    && b.load + Weight(fate) <= a.load
    && b.looks >= a.looks && b.worked == a.worked
    && b.slipped == (a.slipped || early.Some?)
    && (!b.core.stop && ends <= |a.core.queue| ==> a.core.queue[ends..] <= b.core.queue)
  }

  /** The item began, and then this happened. */
  lemma EndedOnce(a: Ledger, n: Ledger, b: Ledger, item: DownloadQueueItem, fate: Option<Fate>)
    requires n == a.(core := n.core) && n.core.queue == a.core.queue && Progress(n, b, item, fate)
    ensures ItemProgress(a, b, item, None, fate)
  {
    ToldNothing(a.reports, item);
  }

  /** And then its directory ended. */
  lemma EndedTwice(a: Ledger, b: Ledger, c: Ledger, item: DownloadQueueItem, early: Option<Fate>, fate: Fate)
    requires ItemProgress(a, b, item, None, early)
    requires c.reports == b.reports + Told(item, Some(fate)) && c.load == b.load - (if b.core.queue == [] then 0 else 1)
    requires c.looks == b.looks && c.worked == b.worked && c.slipped == (b.slipped || early.Some?)
    requires !b.core.stop && c.core.queue == if b.core.queue == [] then [] else b.core.queue[1..]
    requires early.None? ==> b.core.queue != []
    ensures ItemProgress(a, c, item, early, Some(fate))
  {
    ToldNothing(a.reports, item);
    var q, k := a.core.queue, Weight(early);
    if k + 1 <= |q| {
      assert q[k..] <= b.core.queue;
      assert q[k..][1..] == q[k + 1..];
    }
  }

  lemma MovedByLook(c: Core, ms: seq<Message>)
    ensures Moved(c, HandleAll(c, ms), None) && (c.stop ==> HandleAll(c, ms).stop)
  {
    StillFirst(c, ms, DownloadQueueItem("", 0));
    assert c.queue[0..] == c.queue;
  }

  lemma LookIsNoLoad(c: Core, inbox: seq<Batch>)
    ensures |HandleAll(c, Front(inbox).messages).queue| + AllNews(Rest(inbox)) <= |c.queue| + AllNews(inbox)
  {
    GrowsByNews(c, Front(inbox).messages);
  }

  ghost predicate MailOk(inbox: seq<Batch>) {
    forall i, j :: 0 <= i < |inbox| && 0 <= j < |inbox[i].messages| ==> MessageOk(inbox[i].messages[j])
  }

  /** Messages to the app: the end of an item, or a complaint about one file of a directory. */
  datatype Event = Ended(path: string, fate: Fate) | SubfileInvalid(path: string, reason: Reason)

  function EndEvents(events: seq<Event>): seq<Event> {
    if events == [] then []
    else EndEvents(events[..|events| - 1])
         + if events[|events| - 1].Ended? then [events[|events| - 1]] else []
  }

  function Tell(reports: seq<Entry>): seq<Event> {
    seq(|reports|, i requires 0 <= i < |reports| => Ended(reports[i].item.path, reports[i].fate))
  }

  function Told(item: DownloadQueueItem, fate: Option<Fate>): seq<Entry> {
    match fate case None => [] case Some(f) => [Entry(item, f)]
  }

  lemma ToldNothing(reports: seq<Entry>, item: DownloadQueueItem)
    ensures reports + Told(item, None) == reports
  {
  }

  lemma {:induction false} ReportsSnoc(ops: seq<Op>, op: Op)
    ensures Reports(ops + [op]) == Reports(ops) + Reported(op)
    decreases |ops|
  {
    if ops == [] {
      assert [op][1..] == [];
      assert ops + [op] == [op];
    } else {
      assert (ops + [op])[1..] == ops[1..] + [op];
      ReportsSnoc(ops[1..], op);
    }
  }

  lemma HandleAllSnoc(c: Core, ms: seq<Message>, i: nat)
    requires i < |ms|
    ensures HandleAll(c, ms[..i + 1]) == Handle(HandleAll(c, ms[..i]), ms[i])
  {
    assert ms[..i + 1][..i] == ms[..i];
  }

  /** `utf8` is the byte form of a path, `parse` reads a listing, `valid` is `file_contains_only_valid_chars`. */
  datatype Host = Host(naming: Naming, utf8: string -> seq<u8>,
                       parse: seq<u8> -> Option<SharedFile>, valid: string -> bool)

  // ---------------------------------------------------------------- the listing

  datatype Collected = Collected(json: seq<u8>, nonce: nat, rest: seq<u8>)

  /** The listing that these bytes carry after what has been received of it already. */
  ghost function Collect(c: Cipher, n: nat, bytes: seq<u8>, json: seq<u8>): Option<Collected>
    requires c.Valid()
    decreases |bytes|
  {
    match Decode(c, n, bytes)
    case Err(_) => None
    case Ok(f) =>
      match PayloadOf(c, f)
      case Err(_) => None
      case Ok(p) =>
        if |json + p| > MAX_EVERYTHING_FILE_SIZE then None
        else if f.Msg() == MSG_FILE_LIST_FINAL then Some(Collected(json + p, f.nonce, bytes[f.used..]))
        else Collect(c, f.nonce, bytes[f.used..], json + p)
  }

  /** One turn of the loop. */
  lemma CollectStep(c: Cipher, n: nat, bytes: seq<u8>, json: seq<u8>)
    requires c.Valid()
    ensures var d := Decode(c, n, bytes);
      && (d.Err? ==> Collect(c, n, bytes, json) == None)
      && (d.Ok? ==>
        var f, p := d.value, PayloadOf(c, d.value);
        && (p.Err? ==> Collect(c, n, bytes, json) == None)
        && (p.Ok? ==>
          Collect(c, n, bytes, json)
          == (if |json + p.value| > MAX_EVERYTHING_FILE_SIZE then None
              else if f.Msg() == MSG_FILE_LIST_FINAL then Some(Collected(json + p.value, f.nonce, bytes[f.used..]))
              else Collect(c, f.nonce, bytes[f.used..], json + p.value))))
  {
  }

  /** What the downloader keeps of a listing. */
  function Accepted(host: Host, json: seq<u8>): Option<SharedFile> {
    match host.parse(json) case None => None case Some(f) => Some(Cleaned(host.valid, f))
  }

  datatype Fetched = Fetched(verdict: FetchVerdict, have: seq<u8>)

  datatype FetchVerdict = Whole | Disagreeing | Broken | Interrupted

  /**
   What the receive loop makes of a frame and of the bytes after it: the verdict, and what is on
   disk then. It looks into the mailbox after each further frame, before appending it.
   */
  ghost function Fetching(c: Cipher, n: nat, bytes: seq<u8>, msg: u16, payload: Result<seq<u8>, ReadError>,
                          have: seq<u8>, want: nat, inbox: seq<Batch>): Fetched
    requires c.Valid()
    decreases |bytes|
  {
    match payload
    case Err(_) => Fetched(Broken, have)
    case Ok(data) =>
      var now := have + data;
      var remote, here := msg == MSG_FILE_FINISHED, |now| == want;
      if remote && here then Fetched(Whole, now)
      else if remote != here then Fetched(Disagreeing, now)
      else
        match Decode(c, n, bytes)
        case Err(_) => Fetched(Broken, now)
        case Ok(f) =>
          if !IsFileMessage(f.Msg()) || Front(inbox).disconnected then Fetched(Broken, now)
          else if AnyInterrupts(Front(inbox).messages) then Fetched(Interrupted, now)
          else Fetching(c, f.nonce, bytes[f.used..], f.Msg(), PayloadOf(c, f), now, want, Rest(inbox))
  }

  /** A request for a file from this length on, and the first reply to it, if that is a file frame. */
  ghost function Asked(c: Cipher, n: nat, room: nat, incoming: seq<u8>, have: nat, path: seq<u8>): (r: Option<Received>)
    requires c.Valid()
    ensures r.Some? ==> |r.value.head| == PAYLOAD_OFFSET && r.value.used <= |incoming|
    ensures r.Some? ==> |r.value.body| == if r.value.Size() == 0 then 0 else r.value.Size() + CrcLen(r.value.Msg())
  {
    var w := WriteFrame(c, n, room, MSG_FILE_SELECTION_CONTINUE, ToBE(have, 8) + path);
    if !w.ok then None
    else
      match Decode(c, w.nonce, incoming)
      case Err(_) => None
      case Ok(f) => if IsFileMessage(f.Msg()) then Some(f) else None
  }

  lemma HandsOver(c: Core, m: Message)
    requires MessageOk(m) && (c.reverse.Some? ==> c.reverse.value.cipher.Valid())
    ensures Handle(c, m).reverse.Some? ==> Handle(c, m).reverse.value.cipher.Valid()
  {
  }

  /** One turn of the loop. */
  lemma FetchingStep(c: Cipher, n: nat, bytes: seq<u8>, msg: u16, payload: Result<seq<u8>, ReadError>,
                     have: seq<u8>, want: nat, inbox: seq<Batch>)
    requires c.Valid()
    ensures var r := Fetching(c, n, bytes, msg, payload, have, want, inbox);
      && (payload.Err? ==> r == Fetched(Broken, have))
      && (payload.Ok? ==>
        var now := have + payload.value;
        var remote, here := msg == MSG_FILE_FINISHED, |now| == want;
        && (remote && here ==> r == Fetched(Whole, now))
        && (remote != here ==> r == Fetched(Disagreeing, now))
        && (!remote && !here ==> r == NextFetched(c, n, bytes, now, want, inbox)))
  {
  }

  /** What becomes of a file that is not finished yet. */
  ghost function NextFetched(c: Cipher, n: nat, bytes: seq<u8>, now: seq<u8>, want: nat, inbox: seq<Batch>): Fetched
    requires c.Valid()
  {
    match Decode(c, n, bytes)
    case Err(_) => Fetched(Broken, now)
    case Ok(f) =>
      if !IsFileMessage(f.Msg()) || Front(inbox).disconnected then Fetched(Broken, now)
      else if AnyInterrupts(Front(inbox).messages) then Fetched(Interrupted, now)
      else Fetching(c, f.nonce, bytes[f.used..], f.Msg(), PayloadOf(c, f), now, want, Rest(inbox))
  }

  /** One fetch: the file, and all that decides what the receive loop makes of the reply. */
  datatype Fetch = Fetch(leaf: Leaf, cipher: Cipher, nonce: nat, bytes: seq<u8>, msg: u16,
                         payload: Result<seq<u8>, ReadError>, have: seq<u8>, inbox: seq<Batch>)

  ghost function Outcome(x: Fetch): Fetched
    requires x.cipher.Valid()
  {
    Fetching(x.cipher, x.nonce, x.bytes, x.msg, x.payload, x.have, x.leaf.size, x.inbox)
  }

  lemma OutcomeIs(x: Fetch)
    requires x.cipher.Valid()
    ensures Outcome(x) == Fetching(x.cipher, x.nonce, x.bytes, x.msg, x.payload, x.have, x.leaf.size, x.inbox)
  {
  }

  /** This fetch, of a file that was too short, has left it as long as it is now. */
  ghost predicate Left(x: Fetch, leaf: Leaf, after: Disk) {
    x.leaf == leaf && |x.have| < leaf.size && x.cipher.Valid() && Len(after, leaf.dest) == |Outcome(x).have|
  }

  /** Every file is as long as before, or as one of the fetches since then has left it. */
  ghost predicate Explained(before: Disk, after: Disk, ls: seq<Leaf>, fetched: seq<Fetch>, since: nat) {
    forall i :: 0 <= i < |ls| ==>
      || Len(after, ls[i].dest) == Len(before, ls[i].dest)
      || exists k :: since <= k < |fetched| && Left(fetched[k], ls[i], after)
  }

  /** A request for the rest of a file, and what comes of the reply to it, if it is one with file bytes. */
  ghost function Transfer(c: Cipher, n: nat, room: nat, incoming: seq<u8>, have: seq<u8>, path: seq<u8>, want: nat,
                          inbox: seq<Batch>): Option<Fetched>
    requires c.Valid()
  {
    match Asked(c, n, room, incoming, |have|, path)
    case None => None
    case Some(f) =>
      Some(Fetching(c, f.nonce, incoming[f.used..], f.Msg(), PayloadOf(c, f), have, want, inbox))
  }

  lemma TransferIs(c: Cipher, n: nat, room: nat, incoming: seq<u8>, have: seq<u8>, path: seq<u8>, want: nat,
                   inbox: seq<Batch>)
    requires c.Valid()
    ensures var a := Asked(c, n, room, incoming, |have|, path);
      Transfer(c, n, room, incoming, have, path, want, inbox)
      == if a.None? then None
         else Some(Fetching(c, a.value.nonce, incoming[a.value.used..], a.value.Msg(), PayloadOf(c, a.value), have,
                            want, inbox))
  {
  }

  lemma CipherIsValid(stream: EncryptedStream)
    requires stream.Valid()
    ensures stream.cipher.Valid()
  {
  }

  function Bytes(d: Disk, dest: string): seq<u8> {
    if dest in d then d[dest] else []
  }

  /** The outcome of a receive loop as its caller sees it. */
  ghost predicate AsFetched(r: Fetched, ok: bool, stopped: bool, have: seq<u8>) {
    && have == r.have
    && (ok <==> r.verdict.Whole? || r.verdict.Interrupted?)
    && (ok ==> (stopped <==> r.verdict.Interrupted?))
  }

  /** Receive one frame; the message and payload are then in the buffer. */
  method ReadFrame(stream: EncryptedStream) returns (ok: bool)
    requires stream.Valid() && stream.live
    modifies stream`nonce, stream`live, stream.buffer, stream.cryptoBuffer, stream.stream`incoming
    ensures stream.Valid() && stream.live == ok
    ensures var d := Decode(stream.cipher, old(stream.nonce), old(stream.stream.incoming));
      && ok == d.Ok?
      && (ok ==>
        && stream.nonce == d.value.nonce
        && stream.stream.incoming == old(stream.stream.incoming)[d.value.used..]
        && |stream.stream.incoming| < |old(stream.stream.incoming)|
        && stream.GetMessage() == d.value.Msg()
        && stream.GetPayload() == PayloadOf(stream.cipher, d.value))
  {
    hide Decode, PayloadOf, PayloadInBuffer, Holds, FromBE16;
    ghost var n, all := stream.nonce, stream.stream.incoming;
    var read := stream.Read();
    ok := read.Ok?;
    if ok {
      ghost var f := Decode(stream.cipher, n, all).value;
      HeldPayload(stream.cipher, stream.buffer[..], f);
      assert stream.buffer[..][..MSG_TYPE_SIZE] == stream.buffer[..MSG_TYPE_SIZE];
    }
  }

  /** The listing that a request brings on this connection, if it gets through and all goes well. */
  ghost function FetchedListing(host: Host, c: Cipher, n: nat, room: nat, incoming: seq<u8>): Option<SharedFile>
    requires c.Valid()
  {
    var w := WriteFrame(c, n, room, MSG_FILE_LIST, []);
    if !w.ok then None
    else
      match Collect(c, w.nonce, incoming, [])
      case None => None
      case Some(got) => Accepted(host, got.json)
  }

  /** What is sent for a file, and the listing that is kept afterwards. */
  datatype Asking = Asking(sent: seq<u8>, listing: View)

  /**
   A request for a file from this length on. If the reply is that the file is not there, the listing
   is out of date: it is asked for on the same connection, and kept if it arrives.
   */
  ghost function AskingFor(host: Host, c: Cipher, n: nat, room: nat, incoming: seq<u8>, have: nat, path: seq<u8>,
                           listing: View): Asking
    requires c.Valid()
  {
    var w := WriteFrame(c, n, room, MSG_FILE_SELECTION_CONTINUE, ToBE(have, 8) + path);
    WriteFrameOutcome(c, n, room, MSG_FILE_SELECTION_CONTINUE, ToBE(have, 8) + path);
    var d := Decode(c, w.nonce, incoming);
    if !w.ok || d.Err? || d.value.Msg() != MSG_FILE_INVALID_FILE then Asking(w.sent, listing)
    else
      var left, rest := room - |w.sent|, incoming[d.value.used..];
      var got := FetchedListing(host, c, d.value.nonce, left, rest);
      Asking(w.sent + WriteFrame(c, d.value.nonce, left, MSG_FILE_LIST, []).sent,
             if got.Some? then Data(got.value) else listing)
  }

  /** `download_everything_file`. */
  method DownloadEverythingFile(stream: EncryptedStream, host: Host) returns (r: Option<SharedFile>)
    requires stream.Valid() && stream.live
    modifies stream`nonce, stream`used, stream`live, stream.buffer, stream.cryptoBuffer
    modifies stream.stream`incoming, stream.stream`outgoing, stream.stream`room
    ensures stream.Valid() && (r.Some? ==> stream.live)
    ensures r == FetchedListing(host, stream.cipher, old(stream.nonce), old(stream.stream.room),
                                old(stream.stream.incoming))
    ensures stream.stream.outgoing == old(stream.stream.outgoing)
      + WriteFrame(stream.cipher, old(stream.nonce), old(stream.stream.room), MSG_FILE_LIST, []).sent
  {
    hide Decode, PayloadOf, WriteFrame, PayloadInBuffer, FromBE16, Collect, Cipher.Valid;
    var ok := stream.Write(MSG_FILE_LIST, []);
    if !ok {
      return None;
    }
    ghost var n, bytes, sent := stream.nonce, stream.stream.incoming, stream.stream.outgoing;
    var json := [];
    while true
      invariant stream.Valid() && stream.live && stream.stream.outgoing == sent
      invariant Collect(stream.cipher, stream.nonce, stream.stream.incoming, json)
        == Collect(stream.cipher, n, bytes, [])
      decreases |stream.stream.incoming|
    {
      CollectStep(stream.cipher, stream.nonce, stream.stream.incoming, json);
      ok := ReadFrame(stream);
      if !ok {
        return None;
      }
      var payload := stream.GetPayload();
      if payload.Err? {
        return None;
      }
      json := json + payload.value;
      if |json| > MAX_EVERYTHING_FILE_SIZE {
        return None;
      }
      if stream.GetMessage() == MSG_FILE_LIST_FINAL {
        break;
      }
    }
    var parsed := host.parse(json);
    if parsed.None? {
      return None;
    }
    var cleaned := RemoveInvalidFiles(host.valid, parsed.value);
    return Some(cleaned);
  }

  /** The entry of `refresh_data` for this user, which other threads may change as well. */
  datatype View = NoUser | NoData | Data(file: SharedFile)

  class SingleDownloader {
    const host: Host
    const deletable: bool
    /** What the successive calls of read_receiver will find; empty mailboxes once it is used up. */
    var inbox: seq<Batch>
    var queue: seq<DownloadQueueItem>
    var active: Option<DownloadQueueItem>
    var stop: bool
    var paused: bool
    var shutdown: bool
    var reverse: Option<Link>
    var activeBytes: nat
    /** The queue file, the destination files, and the messages to the app. */
    var queueFile: Option<string>
    var disk: Disk
    var events: seq<Event>
    var listing: View
    ghost var hist: seq<Entry>
    ghost var start: Core
    ghost var ops: seq<Op>
    /** How often the thread has looked into its mailbox. */
    ghost var looks: nat
    /** All fetches, and all listings that were worked with. */
    ghost var fetched: seq<Fetch>
    ghost var worked: seq<SharedFile>
    /** The front item was taken from the queue in place of another one. */
    ghost var slipped: bool

    ghost function State(): Core
      reads this`queue, this`active, this`stop, this`paused, this`shutdown, this`reverse, this`queueFile, this`hist
    {
      Core(queue, active, stop, paused, shutdown, reverse, queueFile, deletable, hist)
    }

    /** All that happened to the queue are possible steps from a good state. */
    ghost predicate Traced()
      reads this`queue, this`active, this`stop, this`paused, this`shutdown, this`reverse, this`queueFile, this`hist,
        this`start, this`ops
    {
      Good(start) && Leads(start, ops, State())
    }

    /** The connections that are or will be handed over have passed their handshake. */
    ghost predicate LinksOk()
      reads this`inbox, this`reverse
    {
      MailOk(inbox) && (reverse.Some? ==> reverse.value.cipher.Valid())
    }

    /**
     The app was told of exactly the items that ended, in this order, and the queue has moved by
     possible steps only, unless an item has slipped out of it.
     */
    ghost predicate Valid()
      reads this`queue, this`active, this`stop, this`paused, this`shutdown, this`reverse, this`queueFile, this`hist,
        this`start, this`ops, this`inbox, this`events, this`slipped
    {
      LinksOk() && EndEvents(events) == Tell(Reports(ops)) && (slipped || Traced())
    }

    /** Items that are or may still come into the queue. */
    ghost function Load(): nat
      reads this`queue, this`inbox
    {
      |queue| + AllNews(inbox)
    }

    ghost function Now(): Ledger
      reads this`queue, this`active, this`stop, this`paused, this`shutdown, this`reverse, this`queueFile, this`hist
      reads this`inbox, this`ops, this`looks, this`slipped, this`worked
    {
      Ledger(State(), Reports(ops), Load(), looks, slipped, worked)
    }

    ghost function Here(): Files
      reads this`disk, this`activeBytes, this`fetched
    {
      Files(disk, activeBytes, fetched)
    }

    /** `write_queue_file`. */
    method WriteQueueFile()
      modifies this`queueFile
      ensures queueFile == Some(PrintQueue(queue))
    {
      var text := "";
      var i := 0;
      while i < |queue|
        invariant 0 <= i <= |queue|
        invariant text == PrintQueue(queue[..i])
      {
        assert queue[..i + 1][..i] == queue[..i];
        text := text + (PrintNat(queue[i].fileSize) + ":" + queue[i].path + "\n");
        i := i + 1;
      }
      assert queue[..i] == queue;
      queueFile := Some(text);
    }

    method WriteQueue()
      modifies this`queueFile
      ensures State() == Save(old(State()))
    {
      hide PrintQueue;
      if queue == [] {
        if queueFile.Some? {
          if deletable {
            queueFile := None;
          } else {
            // it cannot be deleted, so an empty file has to do
            WriteQueueFile();
            NothingPrinted();
          }
        }
      } else {
        WriteQueueFile();
      }
    }

    method HandleMessage(m: Message)
      modifies this`queue, this`active, this`stop, this`paused, this`shutdown, this`reverse, this`queueFile, this`hist
      ensures State() == Handle(old(State()), m)
    {
      hide Saved, Cancel, Without;
      match m {
        case NewDownload(item) =>
          hist := hist + [Entry(item, Pending)];
          queue := queue + [item];
          WriteQueue();
        case CancelDownload(path) =>
          hist := Cancel(hist, Some(path));
          stop := true;
          queue := Without(queue, Some(path));
          if active.Some? && active.value.path == path {
            active := None;
          }
          WriteQueue();
        case CancelAllDownloads =>
          hist := Cancel(hist, None);
          stop := true;
          queue := [];
          active := None;
          WriteQueue();
        case RemoveUser =>
          hist := Cancel(hist, None);
          shutdown := true;
          stop := true;
          queue := [];
          active := None;
          WriteQueue();
        case PauseDownloads =>
          stop := true;
          paused := true;
        case ResumeDownloads => paused := false;
        case NewSharedUser => stop := true;
        case RestartConnection => stop := true;
        case NewConfig => stop := true;
        case NewConnection(link) =>
          stop := true;
          reverse := Some(link);
      }
    }

    /** Drain the mailbox. A sender that is gone is an error, after everything it had sent. */
    method ReadReceiver() returns (ok: bool)
      requires Valid()
      modifies this`looks, this`inbox, this`ops
      modifies this`queue, this`active, this`stop, this`paused, this`shutdown, this`reverse, this`queueFile, this`hist
      ensures Valid()
      ensures ok == !Front(old(inbox)).disconnected && inbox == Rest(old(inbox))
      ensures State() == HandleAll(old(State()), Front(old(inbox)).messages)
      ensures ops == old(ops) + [Look(Front(old(inbox)).messages)] && looks == old(looks) + 1
    {
      hide Handle, HandleAll, Good, Reported, Leads, MessageOk, Tell, EndEvents, Reports, Cipher.Valid;
      var batch := Front(inbox);
      ghost var c := State();
      ghost var op := Look(batch.messages);
      if !slipped {
        LeadsOn(start, ops, c, op);
      }
      ReportsSnoc(ops, op);
      NothingTold(op);
      assert Reports(ops) + [] == Reports(ops);
      var i := 0;
      HandleAllNone(c);
      while i < |batch.messages|
        invariant 0 <= i <= |batch.messages|
        invariant State() == HandleAll(c, batch.messages[..i])
        invariant inbox == old(inbox) && ops == old(ops) && looks == old(looks)
        invariant reverse.Some? ==> reverse.value.cipher.Valid()
      {
        HandleAllSnoc(c, batch.messages, i);
        HandsOver(State(), batch.messages[i]);
        HandleMessage(batch.messages[i]);
        i := i + 1;
      }
      assert batch.messages[..i] == batch.messages;
      ops := ops + [op];
      inbox := Rest(inbox);
      looks := looks + 1;
      return !batch.disconnected;
    }

    /**
     Whatever is at the front leaves the queue. That is the item this is about, whose fate it is,
     unless it slips.
     */
    method SetActiveDownloadFinished(ghost item: DownloadQueueItem, ghost fate: Fate, ghost slip: bool)
      requires Finished(fate) && (slip || Legal(State(), Finish(item, fate)))
      requires slipped || Traced()
      modifies this`queue, this`active, this`queueFile, this`hist, this`ops, this`slipped
      ensures slipped == (old(slipped) || slip) && (slipped || Traced())
      ensures ops == old(ops) + [Finish(item, fate)] && State() == Popped(old(State()), fate)
    {
      hide Good, Saved, FinishFirst, Leads;
      if !slip && !slipped {
        LeadsOn(start, ops, State(), Finish(item, fate));
      }
      hist := FinishFirst(hist, fate);
      if queue != [] {
        queue := queue[1..];
      }
      WriteQueue();
      active := None;
      ops := ops + [Finish(item, fate)];
      slipped := slipped || slip;
    }

    method AppUpdate(e: Event)
      modifies this`events
      ensures events == old(events) + [e]
    {
      events := events + [e];
    }

    /** `set_active_download_finished`, and then `app_update_completed` or `app_update_invalid_file`. */
    method FinishActive(item: DownloadQueueItem, fate: Fate, ghost slip: bool)
      requires Valid() && Finished(fate) && (slip || Legal(State(), Finish(item, fate)))
      modifies this`queue, this`active, this`queueFile, this`hist, this`ops, this`events, this`slipped
      ensures Valid() && ops == old(ops) + [Finish(item, fate)]
      ensures State() == Popped(old(State()), fate) && slipped == (old(slipped) || slip)
      ensures queue == (if old(queue) == [] then [] else old(queue)[1..]) && active.None? && stop == old(stop)
      ensures Reports(ops) == Reports(old(ops)) + Told(item, Some(fate))
      ensures Load() == old(Load()) - if old(queue) == [] then 0 else 1
      ensures events == old(events) + [Ended(item.path, fate)]
    {
      hide Good, Leads, MailOk, FinishFirst, Saved, AllNews, Legal;
      ReportsSnoc(ops, Finish(item, fate));
      SetActiveDownloadFinished(item, fate, slip);
      TellOneMore(events, Reports(old(ops)), item, fate);
      AppUpdate(Ended(item.path, fate));
    }

    method Complain(path: string, reason: Reason)
      requires Valid()
      modifies this`events
      ensures Valid() && events == old(events) + [SubfileInvalid(path, reason)]
    {
      hide Good, Leads, MailOk, Reports;
      TellNothing(events, SubfileInvalid(path, reason));
      AppUpdate(SubfileInvalid(path, reason));
    }

    /** The listing is fetched when the peer asked for that, when it is to be fetched anyway, or when there is none. */
    predicate ShouldFetch(announced: bool, force: bool)
      reads this`listing
    {
      announced || force || listing.NoData?
    }

    /** `set_everything_file`: `announced` says that the peer asked for its listing to be fetched. */
    method SetEverythingFile(stream: EncryptedStream, announced: bool, force: bool) returns (ok: bool)
      requires stream.Valid() && stream.live
      modifies this`listing, stream`nonce, stream`used, stream`live, stream.buffer, stream.cryptoBuffer
      modifies stream.stream`incoming, stream.stream`outgoing, stream.stream`room
      ensures stream.Valid() && (ok ==> stream.live)
      ensures old(ShouldFetch(announced, force)) ==>
        var got := FetchedListing(host, stream.cipher, old(stream.nonce), old(stream.stream.room),
                                  old(stream.stream.incoming));
        && ok == got.Some? && listing == (if ok then Data(got.value) else old(listing))
        && stream.stream.outgoing == old(stream.stream.outgoing)
             + WriteFrame(stream.cipher, old(stream.nonce), old(stream.stream.room), MSG_FILE_LIST, []).sent
      ensures !old(ShouldFetch(announced, force)) ==>
        && ok == old(listing).Data? && listing == old(listing)
        && stream.stream.outgoing == old(stream.stream.outgoing)
    {
      hide FetchedListing, WriteFrame;
      var should := announced || force;
      // Check refresh data if needed
      if !should {
        match listing {
          case NoUser => return false;
          case NoData => should := true;
          case Data(_) =>
        }
      }
      if should {
        var f := DownloadEverythingFile(stream, host);
        if f.None? {
          return false;
        }
        listing := Data(f.value);
      }
      return true;
    }

    /** Ask for the file from its present length on, and read the first reply (1002-1030). */
    method AskForFile(stream: EncryptedStream, f: SharedFile, have: nat) returns (ok: bool)
      requires stream.Valid() && stream.live
      modifies this`listing, stream`nonce, stream`used, stream`live, stream.buffer, stream.cryptoBuffer
      modifies stream.stream`incoming, stream.stream`outgoing, stream.stream`room
      ensures stream.Valid() && stream.cipher.Valid() && (ok ==> stream.live && listing == old(listing))
      ensures var x := AskingFor(host, stream.cipher, old(stream.nonce), old(stream.stream.room),
                                 old(stream.stream.incoming), have, host.utf8(f.path), old(listing));
        stream.stream.outgoing == old(stream.stream.outgoing) + x.sent && listing == x.listing
      ensures var a := Asked(stream.cipher, old(stream.nonce), old(stream.stream.room), old(stream.stream.incoming),
                             have, host.utf8(f.path));
        && ok == a.Some?
        && (ok ==>
          && stream.nonce == a.value.nonce && stream.stream.incoming == old(stream.stream.incoming)[a.value.used..]
          && stream.GetMessage() == a.value.Msg() && stream.GetPayload() == PayloadOf(stream.cipher, a.value))
    {
      hide Decode, WriteFrame, ToBE, PayloadInBuffer, PayloadOf, FromBE16, FetchedListing;
      ok := stream.Write(MSG_FILE_SELECTION_CONTINUE, ToBE(have, 8) + host.utf8(f.path));
      if !ok {
        return false;
      }
      ok := ReadFrame(stream);
      if !ok {
        return false;
      }
      if stream.GetMessage() == MSG_FILE_INVALID_FILE {
        // the listing is out of date: fetch it anew, and start over
        var refreshed := SetEverythingFile(stream, false, true);
        return false;
      }
      return IsFileMessage(stream.GetMessage());
    }

    /** Are both ends finished with the file, or neither (1057-1092)? */
    method Judge(f: SharedFile, dest: string, item: DownloadQueueItem, msg: u16)
      returns (v: Verdict, ghost fate: Option<Fate>)
      requires Valid() && Processing(State(), item) && !stop && dest in disk
      requires f.path == item.path ==> item.fileSize == f.fileSize
      modifies this`queue, this`active, this`queueFile, this`hist, this`ops, this`events, this`slipped
      ensures Valid() && Progress(old(Now()), Now(), item, fate)
      ensures v == match (msg == MSG_FILE_FINISHED, |disk[dest]| == f.fileSize)
        case (true, true) => Agreed case (false, false) => Unfinished case _ => Disagreed
      ensures fate == if f.path != item.path || v.Unfinished? then None
        else if v.Agreed? then Some(Completed) else Some(Invalid(Disagreement))
      ensures fate.None? ==> State() == old(State())
      ensures events == old(events) + VerdictEvents(f, item, v)
    {
      hide Good, Leads, MailOk, Reports, Popped, Here, Traced, LinksOk, FetchEvents, VerdictEvents;
      VerdictsTold(f, item);
      fate := None;
      MovedNot(State());
      ActiveIs(State(), item);
      var remoteFinished := msg == MSG_FILE_FINISHED;
      var localFinished := |disk[dest]| == if f.path == item.path then item.fileSize else f.fileSize;
      if remoteFinished && localFinished {
        if f.path == item.path {
          FinishActive(item, Completed, false);
          fate := Some(Completed);
        }
        v := Agreed;
      } else if remoteFinished != localFinished {
        if f.path == item.path {
          FinishActive(item, Invalid(Disagreement), false);
          fate := Some(Invalid(Disagreement));
        } else {
          Complain(f.path, Disagreement);
        }
        v := Disagreed;
      } else {
        v := Unfinished;
      }
      assert Reports(old(ops)) + [] == Reports(old(ops)) && old(events) + [] == old(events);
    }

    /** A look into the mailbox during a download, or between two items. */
    method LookMeanwhile(ghost item: DownloadQueueItem) returns (ok: bool)
      requires Valid()
      modifies this`looks, this`inbox, this`ops
      modifies this`queue, this`active, this`stop, this`paused, this`shutdown, this`reverse, this`queueFile, this`hist
      ensures Valid() && Progress(old(Now()), Now(), item, None) && looks == old(looks) + 1
      ensures ok == !Front(old(inbox)).disconnected && inbox == Rest(old(inbox))
      ensures State() == HandleAll(old(State()), Front(old(inbox)).messages)
    {
      hide Good, Leads, MailOk, HandleAll, Reported, Reports, AllNews, Moved;
      ghost var messages := Front(inbox).messages;
      MovedByLook(State(), messages);
      LookIsNoLoad(State(), inbox);
      ReportsSnoc(ops, Look(messages));
      NothingTold(Look(messages));
      assert Reports(ops) + [] == Reports(ops);
      ok := ReadReceiver();
    }

    /** Append the frame that is in the buffer to the destination. */
    method AppendFrame(stream: EncryptedStream, dest: string, ghost before: Files, ghost leaf: Leaf)
      returns (ok: bool)
      requires stream.Valid()
      requires leaf.dest == dest && dest in disk && Extended(before, Here(), leaf)
      modifies this`activeBytes, this`disk
      ensures dest in disk && Extended(before, Here(), leaf)
      ensures ok == stream.GetPayload().Ok?
      ensures disk == if ok then old(disk)[dest := old(disk)[dest] + stream.GetPayload().value] else old(disk)
    {
      hide PayloadInBuffer, Grew;
      var payload := stream.GetPayload();
      if payload.Err? {
        return false;
      }
      GrewByAppend(before.disk, disk, leaf, payload.value);
      activeBytes := activeBytes + |payload.value|;
      disk := disk[dest := disk[dest] + payload.value];
      return true;
    }

    /** Append the frame that is in the buffer, and see whether the file is finished (1043-1092). */
    method TakeFrame(stream: EncryptedStream, f: SharedFile, dest: string, item: DownloadQueueItem,
                     ghost before: Files, ghost leaf: Leaf)
      returns (v: Verdict, ghost fate: Option<Fate>)
      requires Valid() && Processing(State(), item) && !stop && stream.Valid()
      requires f.path == item.path ==> item.fileSize == f.fileSize
      requires leaf.dest == dest && dest in disk && Extended(before, Here(), leaf)
      modifies this`queue, this`active, this`queueFile, this`hist, this`ops, this`events, this`slipped
      modifies this`activeBytes, this`disk
      ensures Valid() && Progress(old(Now()), Now(), item, fate)
      ensures dest in disk && Extended(before, Here(), leaf)
      ensures v.Unfinished? ==> fate.None? && State() == old(State()) && events == old(events)
      ensures stream.cipher.Valid()
      ensures var r := Fetching(stream.cipher, stream.nonce, stream.stream.incoming, stream.GetMessage(),
                                stream.GetPayload(), old(disk)[dest], f.fileSize, inbox);
        if v.Unfinished? then
          r == NextFetched(stream.cipher, stream.nonce, stream.stream.incoming, disk[dest], f.fileSize, inbox)
        else
          && AsFetched(r, v.Agreed?, false, disk[dest]) && FileEnded(f, item, v.Agreed?, false, fate)
          && events == old(events) + FetchEvents(f, item, r.verdict)
          && (v.Agreed? ==> |disk[dest]| == f.fileSize)
    {
      hide Valid, Processing, Load, Reports, Extended, EncryptedStream.Valid, Progress, PayloadInBuffer, FromBE16,
        Fetching, NextFetched, AsFetched, FileEnded, VerdictEvents, Cipher.Valid;
      CipherIsValid(stream);
      NoProgress(Now(), item);
      FetchingStep(stream.cipher, stream.nonce, stream.stream.incoming, stream.GetMessage(), stream.GetPayload(),
                   disk[dest], f.fileSize, inbox);
      ghost var r := Fetching(stream.cipher, stream.nonce, stream.stream.incoming, stream.GetMessage(),
                              stream.GetPayload(), disk[dest], f.fileSize, inbox);
      var ok := AppendFrame(stream, dest, before, leaf);
      if ok {
        v, fate := Judge(f, dest, item, stream.GetMessage());
      } else {
        v, fate := Unreadable, None;
      }
      NothingSaid(f, item, old(events));
      if !v.Unfinished? {
        LastFrame(f, item, r, v, disk[dest], fate);
      }
    }

    /** The next frame of a file, with a look into the mailbox after it (1094-1109). */
    method AwaitFrame(stream: EncryptedStream, ghost item: DownloadQueueItem, ghost now: seq<u8>, ghost want: nat)
      returns (ok: bool)
      requires Valid() && Processing(State(), item) && !stop
      requires stream.Valid() && stream.live
      modifies this`queue, this`active, this`stop, this`paused, this`shutdown, this`reverse, this`queueFile, this`hist
      modifies this`looks, this`inbox, this`ops
      modifies stream`nonce, stream`live, stream.buffer, stream.cryptoBuffer, stream.stream`incoming
      ensures Valid() && stream.Valid() && Progress(old(Now()), Now(), item, None)
      ensures ok && !stop ==> stream.live && Processing(State(), item)
      ensures ok && !stop ==> |stream.stream.incoming| < |old(stream.stream.incoming)|
      ensures stream.cipher.Valid()
      ensures var r := NextFetched(stream.cipher, old(stream.nonce), old(stream.stream.incoming), now, want,
                                   old(inbox));
        if ok && !stop then
          r == Fetching(stream.cipher, stream.nonce, stream.stream.incoming, stream.GetMessage(), stream.GetPayload(),
                        now, want, inbox)
        else r == Fetched(if ok then Interrupted else Broken, now)
    {
      hide Valid, Processing, Load, HandleAll, Apply, Reports, PayloadInBuffer, EncryptedStream.Valid, Decode,
        PayloadOf, AnyInterrupts, FromBE16, Progress, Legal, Cipher.Valid, Front, Rest, Fetching;
      CipherIsValid(stream);
      ghost var n := Now();
      NoProgress(n, item);
      ok := ReadFrame(stream);
      if !ok || !IsFileMessage(stream.GetMessage()) {
        return false;
      }
      StopExactly(State(), Front(inbox).messages);
      ok := LookMeanwhile(item);
      ProcessingHolds(n.core, item);
      ProgressHolds(n, Now(), item, None);
    }

    lemma CoreIsState()
      ensures Now().core == State() && State().stop == stop && State().active == active
    {
    }

    /** One turn of the receive loop: the frame in the buffer, and then the next one, unless this was the last. */
    method ReceiveFrame(stream: EncryptedStream, f: SharedFile, dest: string, item: DownloadQueueItem,
                        ghost before: Files, ghost leaf: Leaf)
      returns (more: bool, ok: bool, ghost fate: Option<Fate>)
      requires Valid() && Processing(State(), item) && !stop
      requires stream.Valid() && stream.live
      requires f.path == item.path ==> item.fileSize == f.fileSize
      requires leaf == Leaf(f.path, dest, f.fileSize) && dest in disk && Extended(before, Here(), leaf)
      modifies this, stream`nonce, stream`live, stream.buffer, stream.cryptoBuffer, stream.stream`incoming
      ensures Valid() && stream.Valid() && Progress(old(Now()), Now(), item, fate) && fetched == old(fetched)
      ensures listing == old(listing)
      ensures dest in disk && Extended(before, Here(), leaf)
      ensures stream.cipher.Valid()
      ensures var r := Fetching(stream.cipher, old(stream.nonce), old(stream.stream.incoming), old(stream.GetMessage()),
                                old(stream.GetPayload()), old(disk)[dest], f.fileSize, old(inbox));
        if more then
          && ok && !stop && fate.None? && Processing(State(), item) && stream.live
          && |stream.stream.incoming| < |old(stream.stream.incoming)| && events == old(events)
          && r == Fetching(stream.cipher, stream.nonce, stream.stream.incoming, stream.GetMessage(),
                           stream.GetPayload(), disk[dest], f.fileSize, inbox)
        else
          && AsFetched(r, ok, stop, disk[dest]) && FileEnded(f, item, ok, stop, fate)
          && events == old(events) + FetchEvents(f, item, r.verdict)
          && (ok && !stop ==> stream.live && |disk[dest]| == f.fileSize)
    {
      hide Valid, Processing, HandleAll, Reports, PayloadInBuffer, Extended, EncryptedStream.Valid, Decode, PayloadOf,
        Fetching, NextFetched, AnyInterrupts, FromBE16, Progress, Legal, Cipher.Valid, Front, Rest, Load, Here,
        Holding, Told, Moved, FileEnded, FetchEvents, AsFetched, Now, State, EncryptedStream.GetMessage,
        EncryptedStream.GetPayload;
      CipherIsValid(stream);
      CoreIsState();
      ghost var r := Fetching(stream.cipher, stream.nonce, stream.stream.incoming, stream.GetMessage(),
                              stream.GetPayload(), disk[dest], f.fileSize, inbox);
      ghost var n0 := Now();
      ProcessingHolds(n0.core, item);
      more := false;
      var verdict;
      verdict, fate := TakeFrame(stream, f, dest, item, before, leaf);
      ok := verdict.Agreed?;
      if verdict.Unfinished? {
        ghost var n := Now();
        ok := AwaitFrame(stream, item, disk[dest], f.fileSize);
        ProgressMore(n0, n, Now(), item, None, None);
        more := ok && !stop;
        NothingSaid(f, item, old(events));
        if !more {
          NoNextFrame(f, item, r, ok, stop, disk[dest]);
        }
      }
    }

    /** The receive loop: the first frame is in the stream's buffer (1043-1110). */
    method ReceiveFile(stream: EncryptedStream, f: SharedFile, dest: string, item: DownloadQueueItem)
      returns (ok: bool, ghost fate: Option<Fate>)
      requires Valid() && Processing(State(), item) && !stop && dest in disk
      requires stream.Valid() && stream.live
      requires f.path == item.path ==> item.fileSize == f.fileSize
      modifies this, stream`nonce, stream`live, stream.buffer, stream.cryptoBuffer, stream.stream`incoming
      ensures Valid() && stream.Valid() && Progress(old(Now()), Now(), item, fate) && fetched == old(fetched)
      ensures listing == old(listing)
      ensures dest in disk && Extended(old(Here()), Here(), Leaf(f.path, dest, f.fileSize))
      ensures FileEnded(f, item, ok, stop, fate)
      ensures ok && !stop ==> stream.live && |disk[dest]| == f.fileSize
      ensures var r := Fetching(stream.cipher, old(stream.nonce), old(stream.stream.incoming), old(stream.GetMessage()),
                                old(stream.GetPayload()), old(disk)[dest], f.fileSize, old(inbox));
        AsFetched(r, ok, stop, disk[dest]) && events == old(events) + FetchEvents(f, item, r.verdict)
    {
      hide Valid, Processing, Reports, PayloadInBuffer, Extended, EncryptedStream.Valid, PayloadOf, Fetching, FromBE16,
        Progress, Cipher.Valid, Load, FileEnded, AsFetched, EncryptedStream.GetMessage, EncryptedStream.GetPayload;
      CipherIsValid(stream);
      ghost var r := Fetching(stream.cipher, stream.nonce, stream.stream.incoming, stream.GetMessage(),
                              stream.GetPayload(), disk[dest], f.fileSize, inbox);
      ok, fate := false, None;
      ghost var n0, a, leaf := Now(), Here(), Leaf(f.path, dest, f.fileSize);
      ExtendedNot(a, leaf);
      NoProgress(n0, item);
      ProcessingHolds(n0.core, item);
      var more := true;
      while more
        invariant Valid() && stream.Valid() && Progress(n0, Now(), item, fate) && fetched == a.fetched
        invariant listing == old(listing)
        invariant dest in disk && Extended(a, Here(), leaf)
        invariant more ==>
          && Processing(State(), item) && !stop && stream.live && fate.None? && events == old(events)
          && r == Fetching(stream.cipher, stream.nonce, stream.stream.incoming, stream.GetMessage(),
                           stream.GetPayload(), disk[dest], f.fileSize, inbox)
        invariant !more ==>
          && AsFetched(r, ok, stop, disk[dest]) && FileEnded(f, item, ok, stop, fate)
          && events == old(events) + FetchEvents(f, item, r.verdict)
          && (ok && !stop ==> stream.live && |disk[dest]| == f.fileSize)
        decreases more, |stream.stream.incoming|
      {
        ghost var n := Now();
        more, ok, fate := ReceiveFrame(stream, f, dest, item, a, leaf);
        ProgressMore(n0, n, Now(), item, None, fate);
      }
    }

    /** Ask for the file, and open the destination when the first reply has file bytes (1001-1041). */
    method BeginFetch(stream: EncryptedStream, f: SharedFile, dest: string, ghost leaf: Leaf)
      returns (ok: bool, ghost x: Fetch)
      requires stream.Valid() && stream.live && leaf == Leaf(f.path, dest, f.fileSize)
      modifies this`listing, this`disk, this`fetched
      modifies stream`nonce, stream`used, stream`live, stream.buffer, stream.cryptoBuffer
      modifies stream.stream`incoming, stream.stream`outgoing, stream.stream`room
      ensures stream.Valid() && stream.cipher.Valid() && Extended(old(Here()), Here(), leaf)
      ensures ok ==> listing == old(listing)
      ensures var x := AskingFor(host, stream.cipher, old(stream.nonce), old(stream.stream.room),
                                 old(stream.stream.incoming), Len(old(disk), dest), host.utf8(f.path), old(listing));
        stream.stream.outgoing == old(stream.stream.outgoing) + x.sent && listing == x.listing
      ensures var r := Transfer(stream.cipher, old(stream.nonce), old(stream.stream.room), old(stream.stream.incoming),
                                Bytes(old(disk), dest), host.utf8(f.path), f.fileSize, inbox);
        && ok == r.Some?
        && (ok ==>
          && x == Fetch(leaf, stream.cipher, stream.nonce, stream.stream.incoming, stream.GetMessage(),
                        stream.GetPayload(), Bytes(old(disk), dest), inbox)
          && r.value == Outcome(x) && stream.live
          && dest in disk && disk[dest] == x.have && fetched == old(fetched) + [x])
      ensures !ok ==> disk == old(disk) && fetched == old(fetched)
    {
      hide PayloadInBuffer, Extended, EncryptedStream.Valid, Fetching, Asked, PayloadOf, FromBE16, Decode, AskingFor,
        Cipher.Valid, Transfer, ToBE, Opened, EncryptedStream.GetMessage, EncryptedStream.GetPayload;
      CipherIsValid(stream);
      TransferIs(stream.cipher, stream.nonce, stream.stream.room, stream.stream.incoming, Bytes(disk, dest),
                 host.utf8(f.path), f.fileSize, inbox);
      ghost var a := Here();
      ExtendedNot(a, leaf);
      ok := AskForFile(stream, f, Len(disk, dest));
      x := Fetch(leaf, stream.cipher, stream.nonce, stream.stream.incoming, stream.GetMessage(), stream.GetPayload(),
                 Bytes(disk, dest), inbox);
      if ok {
        disk, fetched := Opened(disk, dest), fetched + [x];
        OpenedExtends(a, Here(), leaf);
      }
    }

    /**
     Append what arrives to the destination until both ends agree that the file is finished
     (1001-1110). The item is reported here only if this file is the queue's item itself.
     */
    method FetchFile(stream: EncryptedStream, f: SharedFile, dest: string, item: DownloadQueueItem)
      returns (ok: bool, ghost fate: Option<Fate>)
      requires Valid() && Processing(State(), item) && !stop
      requires stream.Valid() && stream.live
      requires f.path == item.path ==> item.fileSize == f.fileSize
      requires Len(disk, dest) < f.fileSize
      modifies this, stream`nonce, stream`used, stream`live, stream.buffer, stream.cryptoBuffer
      modifies stream.stream`incoming, stream.stream`outgoing, stream.stream`room
      ensures Valid() && stream.Valid() && Progress(old(Now()), Now(), item, fate)
      ensures Extended(old(Here()), Here(), Leaf(f.path, dest, f.fileSize)) && old(fetched) <= fetched
      ensures Explained(old(disk), disk, [Leaf(f.path, dest, f.fileSize)], fetched, |old(fetched)|)
      ensures FileEnded(f, item, ok, stop, fate)
      ensures ok && !stop ==> stream.live && dest in disk && |disk[dest]| == f.fileSize
      ensures stream.cipher.Valid() && (ok ==> listing == old(listing))
      ensures var x := AskingFor(host, stream.cipher, old(stream.nonce), old(stream.stream.room),
                                 old(stream.stream.incoming), Len(old(disk), dest), host.utf8(f.path), old(listing));
        stream.stream.outgoing == old(stream.stream.outgoing) + x.sent && listing == x.listing
      ensures match Transfer(stream.cipher, old(stream.nonce), old(stream.stream.room), old(stream.stream.incoming),
                             Bytes(old(disk), dest), host.utf8(f.path), f.fileSize, old(inbox))
        case None => !ok && disk == old(disk) && fetched == old(fetched) && events == old(events)
        case Some(r) =>
          && dest in disk && AsFetched(r, ok, stop, disk[dest])
          && events == old(events) + FetchEvents(f, item, r.verdict)
    {
      hide Valid, Processing, Reports, PayloadInBuffer, Extended, EncryptedStream.Valid, Fetching, PayloadOf, AsFetched,
        Outcome, Progress, Explained, AskingFor, Cipher.Valid, Load, FileEnded, Transfer, State, Now,
        EncryptedStream.GetMessage, EncryptedStream.GetPayload;
      fate := None;
      ghost var a, leaf := Here(), Leaf(f.path, dest, f.fileSize);
      NoProgress(Now(), item);
      NothingEndedYet(f, item, stop);
      NothingToExplain(disk, [leaf], fetched, |fetched|);
      CipherIsValid(stream);
      ghost var x;
      ok, x := BeginFetch(stream, f, dest, leaf);
      if ok {
        ghost var b := Here();
        OutcomeIs(x);
        ok, fate := ReceiveFile(stream, f, dest, item);
        ExtendedMore(a, b, Here(), leaf);
        FetchExplains(a.disk, disk, x, ok, stop, fetched, |a.fetched|);
      }
    }

    /** A file that is listed as empty is created without asking for it (947, 983). */
    method CreateEmpty(dest: string, size: nat, ghost leaf: Leaf)
      requires leaf.dest == dest && leaf.size == size == Len(disk, dest)
      modifies this`disk
      ensures Grew(old(disk), disk, [leaf]) && Complete(old(disk), disk, [leaf])
      ensures dest in disk && Len(disk, dest) == Len(old(disk), dest)
    {
      GrewNot(disk, [leaf]);
      if dest !in disk && size == 0 {
        GrewByCreation(disk, leaf.path, dest, size);
        disk := disk[dest := []];
      }
    }

    /** The queue's own file: check it against the size that was queued (935-965). */
    method CheckQueued(queued: DownloadQueueItem, f: SharedFile, dest: string, fileLength: nat, ghost leaf: Leaf)
      returns (check: Check, ghost fate: Option<Fate>)
      requires Valid() && Processing(State(), queued) && !stop
      requires f.path == queued.path && leaf == Leaf(f.path, dest, f.fileSize) && fileLength == Len(disk, dest)
      modifies this`queue, this`active, this`queueFile, this`hist, this`ops, this`events, this`disk, this`slipped
      ensures Valid() && Progress(old(Now()), Now(), queued, fate)
      ensures Grew(old(disk), disk, [leaf]) && Len(disk, dest) == Len(old(disk), dest)
      ensures check.Ask? <==> fileLength < f.fileSize && queued.fileSize == f.fileSize
      ensures check.Ask? ==> fate.None? && State() == old(State()) && disk == old(disk)
      ensures !check.Ask? ==> check.Skip? && fate == Some(LeafFate(old(disk), leaf, queued))
      ensures fate == Some(Completed) ==> Complete(old(disk), disk, [leaf])
      ensures events == old(events) + CheckEvents(leaf, queued, check.Skip?, fate, fileLength)
    {
      hide Valid, Processing, AllNews, Popped, Reports, Grew, Complete, Legal, Len;
      fate, check := None, Skip;
      assert Reports(ops) + [] == Reports(ops) && events + [] == events;
      GrewNot(disk, [leaf]);
      ActiveIs(State(), queued);
      MovedNot(State());
      if queued.fileSize != f.fileSize {
        fate := Some(Invalid(SizeChanged));
        FinishActive(queued, Invalid(SizeChanged), false);
      } else if fileLength < queued.fileSize {
        check := Ask;
      } else if fileLength == queued.fileSize {
        fate := Some(Completed);
        CreateEmpty(dest, f.fileSize, leaf);
        FinishActive(queued, Completed, false);
      } else {
        fate := Some(Invalid(TooLarge));
        FinishActive(queued, Invalid(TooLarge), false);
      }
    }

    /** A file of a queued directory: check the running counter and the listed size (967-999). */
    method CheckSubfile(queued: DownloadQueueItem, f: SharedFile, dest: string, fileLength: nat, ghost leaf: Leaf)
      returns (check: Check, ghost fate: Option<Fate>)
      requires Valid() && Processing(State(), queued) && !stop
      requires f.path != queued.path && leaf == Leaf(f.path, dest, f.fileSize) && fileLength == Len(disk, dest)
      modifies this`queue, this`active, this`queueFile, this`hist, this`ops, this`events, this`disk, this`slipped
      ensures Valid() && Progress(old(Now()), Now(), queued, fate)
      ensures Grew(old(disk), disk, [leaf]) && Len(disk, dest) == Len(old(disk), dest)
      ensures check.Abort? <==> activeBytes > queued.fileSize
      ensures fate == if check.Abort? then Some(Invalid(DirectoryTooLarge)) else None
      ensures check.Ask? <==> activeBytes <= queued.fileSize && fileLength < f.fileSize
      ensures check.Ask? ==> disk == old(disk)
      ensures check.Skip? ==> Complete(old(disk), disk, [leaf])
      ensures !check.Abort? ==> State() == old(State())
      ensures events == old(events) + CheckEvents(leaf, queued, check.Skip?, fate, fileLength)
    {
      hide Valid, Processing, AllNews, Popped, Reports, Grew, Complete, Legal, Len;
      fate := None;
      assert Reports(ops) + [] == Reports(ops) && events + [] == events;
      GrewNot(disk, [leaf]);
      ActiveIs(State(), queued);
      MovedNot(State());
      if activeBytes > queued.fileSize {
        check, fate := Abort, Some(Invalid(DirectoryTooLarge));
        FinishActive(queued, Invalid(DirectoryTooLarge), false);
      } else if fileLength < f.fileSize {
        check := Ask;
      } else if fileLength == f.fileSize {
        check := Skip;
        CreateEmpty(dest, f.fileSize, leaf);
      } else {
        check := Skip;
        LongerIsThrough(disk, leaf);
        Complain(f.path, TooLarge);
      }
    }

    /** The checks before a file is asked for (928-999), which panic if no item is active any more. */
    method CheckSize(f: SharedFile, dest: string, fileLength: nat, ghost leaf: Leaf, ghost item: DownloadQueueItem)
      returns (check: Check, ghost fate: Option<Fate>)
      requires Valid() && Holding(State(), item) && !stop
      requires leaf == Leaf(f.path, dest, f.fileSize) && fileLength == Len(disk, dest) && fileLength <= activeBytes
      modifies this`queue, this`active, this`queueFile, this`hist, this`ops, this`events, this`disk, this`slipped
      ensures Valid() && Progress(old(Now()), Now(), item, fate)
      ensures Grew(old(disk), disk, [leaf]) && Len(disk, dest) == Len(old(disk), dest)
      ensures check.Ask? <==> Passes(leaf, fileLength, activeBytes, old(active))
      ensures check.Ask? ==> fate.None? && State() == old(State()) && disk == old(disk)
      ensures !check.Ask? ==> LeafEnded(old(disk), leaf, item, activeBytes - fileLength, check.Skip?, stop, fate)
      ensures !check.Abort? ==> old(active) == Some(item)
      ensures (check.Skip? && f.path != item.path) || fate == Some(Completed) ==> Complete(old(disk), disk, [leaf])
      ensures events == old(events) + CheckEvents(leaf, item, check.Skip?, fate, fileLength)
    {
      hide Valid, Processing, Holding, AllNews, Reports, Grew, Complete, Load, Progress, Legal, Len;
      assert events + [] == events;
      if active.None? {
        // `unwrap` panics
        NoProgress(Now(), item);
        GrewNot(disk, [leaf]);
        return Abort, None;
      }
      ActiveIs(State(), item);
      var queued := active.value;
      if f.path == queued.path {
        check, fate := CheckQueued(queued, f, dest, fileLength, leaf);
      } else {
        check, fate := CheckSubfile(queued, f, dest, fileLength, leaf);
      }
    }

    /** `download_shared_file` for a file: nothing is asked for that is not needed (915-1110). */
    method DownloadLeaf(stream: EncryptedStream, f: SharedFile, dir: string, ghost item: DownloadQueueItem)
      returns (ok: bool, ghost fate: Option<Fate>, ghost done: nat)
      requires Valid() && Holding(State(), item) && !stop
      requires stream.Valid() && stream.live && !f.isDirectory
      modifies this, stream`nonce, stream`used, stream`live, stream.buffer, stream.cryptoBuffer
      modifies stream.stream`incoming, stream.stream`outgoing, stream.stream`room
      ensures Valid() && stream.Valid() && Progress(old(Now()), Now(), item, fate)
      ensures LeafDone(LeafOf(host.naming, f, dir), old(Here()), Here(), item, old(active).Some?, ok, stop, fate, done)
      ensures ok && !stop ==> stream.live
      ensures stream.cipher.Valid() && (ok ==> listing == old(listing))
      ensures Wanted(host.naming, old(disk), f, dir, old(activeBytes), old(active)) ==>
        var x := AskingFor(host, stream.cipher, old(stream.nonce), old(stream.stream.room),
                           old(stream.stream.incoming), Len(old(disk), LeafOf(host.naming, f, dir).dest),
                           host.utf8(f.path), old(listing));
        && stream.stream.outgoing == old(stream.stream.outgoing) + x.sent && listing == x.listing
        && var dest := LeafOf(host.naming, f, dir).dest;
        var r := Transfer(stream.cipher, old(stream.nonce), old(stream.stream.room), old(stream.stream.incoming),
                          Bytes(old(disk), dest), host.utf8(f.path), f.fileSize, old(inbox));
        && (r.None? ==> !ok && disk == old(disk) && events == old(events))
        && (r.Some? ==>
          && dest in disk && AsFetched(r.value, ok, stop, disk[dest])
          && events == old(events) + FetchEvents(f, item, r.value.verdict))
      ensures !Wanted(host.naming, old(disk), f, dir, old(activeBytes), old(active)) ==>
        && stream.stream.outgoing == old(stream.stream.outgoing) && fetched == old(fetched) && stop == old(stop)
        && listing == old(listing)
        && events == old(events) + CheckEvents(LeafOf(host.naming, f, dir), item, ok, fate,
                                               Len(old(disk), LeafOf(host.naming, f, dir).dest))
    {
      hide Valid, Processing, AllNews, Apply, Reports, Grew, Extended, Complete, Accounted, EncryptedStream.Valid, Len,
        Fetching, Asked, AsFetched, PayloadOf, FromBE16, Decode, Bytes, Progress, Explained, AskingFor, Cipher.Valid,
        Load, Transfer, Holding;
      CipherIsValid(stream);
      ok, fate, done := false, None, 0;
      ghost var n0, a, leaf := Now(), Here(), LeafOf(host.naming, f, dir);
      var name := host.naming.nameOf(f.path);
      if name.None? {
        NoProgress(n0, item);
        LeafNotDone(leaf, a, item, active.Some?, stop);
        return;
      }
      var dest := dir + name.value;
      var fileLength := Len(disk, dest);
      activeBytes := activeBytes + fileLength;
      var check;
      check, fate := CheckSize(f, dest, fileLength, leaf, item);
      if check.Ask? {
        ghost var n1 := Now();
        ActiveIs(State(), item);
        ok, fate := FetchFile(stream, f, dest, active.value);
        ProgressMore(n0, n1, Now(), item, None, fate);
        FetchedIsDone(leaf, a, Here(), item, f, ok, stop, fate);
      } else {
        ok := check.Skip?;
        CheckedIsDone(leaf, a, Here(), item, n0.core.active.Some?, ok, fate);
      }
      done := if ok && !stop && f.path != item.path then 1 else 0;
    }

    /** `download_shared_file`, as far as it is about the file or directory itself. */
    method DownloadSharedFile(stream: EncryptedStream, f: SharedFile, dir: string, ghost item: DownloadQueueItem)
      returns (ok: bool, ghost fate: Option<Fate>, ghost done: nat)
      requires Valid() && Holding(State(), item) && !stop
      requires stream.Valid() && stream.live
      modifies this, stream`nonce, stream`used, stream`live, stream.buffer, stream.cryptoBuffer
      modifies stream.stream`incoming, stream.stream`outgoing, stream.stream`room
      ensures Valid() && stream.Valid() && Progress(old(Now()), Now(), item, fate)
      ensures (ok && !stop ==> stream.live) && (ok ==> listing == old(listing))
      ensures TreeDone(Leaves(host.naming, f, dir), f.isDirectory, old(Here()), Here(), item, old(active).Some?,
                       ok, stop, fate, done)
      ensures !f.isDirectory ==>
        LeafEnded(old(disk), LeafOf(host.naming, f, dir), item, old(activeBytes), ok, stop, fate)
      decreases f, 1
    {
      hide Valid, Processing, Load, Reports, LeafDone, TreeDone, EncryptedStream.Valid, AllLeaves, Progress, AskingFor,
        Wanted, LeafEnded, Cipher.Valid;
      if f.isDirectory {
        ok, fate, done := DownloadDirectory(stream, f, dir, item);
      } else {
        ghost var a, active0 := Here(), active.Some?;
        ok, fate, done := DownloadLeaf(stream, f, dir, item);
        LeafIsTree(LeafOf(host.naming, f, dir), a, Here(), item, active0, ok, stop, fate, done);
        assert Leaves(host.naming, f, dir) == [LeafOf(host.naming, f, dir)];
      }
    }

    /** One entry of a directory, and then a look into the mailbox (899-912). */
    method DownloadEntry(stream: EncryptedStream, f: SharedFile, dir: string, ghost item: DownloadQueueItem)
      returns (ok: bool, ghost fate: Option<Fate>, ghost done: nat, ghost ended: bool, ghost stopped: bool)
      requires Valid() && Holding(State(), item) && !stop
      requires stream.Valid() && stream.live
      modifies this, stream`nonce, stream`used, stream`live, stream.buffer, stream.cryptoBuffer
      modifies stream.stream`incoming, stream.stream`outgoing, stream.stream`room
      ensures Valid() && stream.Valid() && Progress(old(Now()), Now(), item, fate)
      ensures ok ==> ended && looks > old(looks) && listing == old(listing)
      ensures ok && !stop ==> stream.live && !stopped
      ensures TreeDone(Leaves(host.naming, f, dir), f.isDirectory, old(Here()), Here(), item, old(active).Some?,
                       ended, stopped, fate, done)
      decreases f, 2
    {
      hide Valid, Processing, Holding, Load, Reports, EncryptedStream.Valid, Leaves, HandleAll, LeafEnded, TreeDone,
        Progress, Cipher.Valid, Front, Rest;
      ghost var n0 := Now();
      ok, fate, done := DownloadSharedFile(stream, f, dir, item);
      ended, stopped := ok, stop;
      ghost var n := Now();
      ProgressHolds(n0, n, item, fate);
      if ok {
        ok := LookMeanwhile(item);
        ProgressMore(n0, n, Now(), item, fate, None);
        ProgressTells(n, Now(), item, None);
      }
    }

    /** The files of a directory, one after the other, with a look into the mailbox after each (898-914). */
    method DownloadDirectory(stream: EncryptedStream, f: SharedFile, dir: string, ghost item: DownloadQueueItem)
      returns (ok: bool, ghost fate: Option<Fate>, ghost done: nat)
      requires Valid() && Holding(State(), item) && !stop
      requires stream.Valid() && stream.live && f.isDirectory
      modifies this, stream`nonce, stream`used, stream`live, stream.buffer, stream.cryptoBuffer
      modifies stream.stream`incoming, stream.stream`outgoing, stream.stream`room
      ensures ok && !stop ==> looks >= old(looks) + |f.files|
      ensures Valid() && stream.Valid() && Progress(old(Now()), Now(), item, fate)
      ensures (ok && !stop ==> stream.live) && (ok ==> listing == old(listing))
      ensures TreeDone(Leaves(host.naming, f, dir), true, old(Here()), Here(), item, old(active).Some?,
                       ok, stop, fate, done)
      decreases f, 0
    {
      hide Valid, Processing, Holding, Load, Reports, EncryptedStream.Valid, Leaves, AllLeaves, HandleAll, LeafEnded,
        TreeDone, Midway, Progress, Cipher.Valid, Front, Rest, AskingFor, FetchedListing;
      ok, fate, done := false, None, 0;
      ghost var n0, a, all := Now(), Here(), Leaves(host.naming, f, dir);
      ghost var held := active.Some?;
      NoProgress(n0, item);
      MidwayStarts(all, a, item, held);
      var name := host.naming.nameOf(f.path);
      if name.None? {
        NothingDone(all, a, item, held, stop);
        return;
      }
      var newDir := dir + name.value + [host.naming.separator];
      DirectoryLeaves(host.naming, f, dir);
      ghost var ls := [];
      var i := 0;
      while i < |f.files|
        invariant 0 <= i <= |f.files|
        invariant Valid() && Holding(State(), item) && !stop
        invariant stream.Valid() && stream.live && listing == old(listing)
        invariant Progress(n0, Now(), item, fate) && looks >= old(looks) + i
        invariant ls == AllLeaves(host.naming, f.files[..i], newDir)
        invariant Midway(all, ls, a, Here(), item, held, fate)
      {
        ghost var n1, b, part := Now(), Here(), Leaves(host.naming, f.files[i], newDir);
        ghost var rest := AllLeavesAppend(host.naming, f.files, i + 1, newDir);
        AllLeavesSnoc(host.naming, f.files, i, newDir);
        ghost var here, through;
        ghost var ended, stopped;
        ok, here, through, ended, stopped := DownloadEntry(stream, f.files[i], newDir, item);
        ProgressMore(n0, n1, Now(), item, fate, here);
        ProgressHolds(n0, n1, item, fate);
        ProgressHolds(n0, Now(), item, Either(fate, here));
        if !ok || stop {
          MidwayStops(all, ls, part, rest, a, b, Here(), f.files[i].isDirectory, item, held, ended, stopped,
                      fate, here, through, ok, stop);
          fate, done := Either(fate, here), |ls| + through;
          return;
        }
        MidwayGoesOn(all, ls, part, rest, a, b, Here(), f.files[i].isDirectory, item, held, fate, here, through);
        fate, ls, i := Either(fate, here), ls + part, i + 1;
      }
      assert f.files[..i] == f.files;
      ok, done := true, |ls|;
      MidwayEnds(all, a, Here(), item, held, fate);
    }

    /**
     One round of the loop over the queue: its front item (824-877). A directory that contains a
     file with the directory's own path is the one case in which the item ends twice: `early`, when
     that file ends, and again when the directory does, which takes the next item from the queue.
     */
    method DownloadItem(stream: EncryptedStream, everything: SharedFile, root: string)
      returns (ok: bool, shared: bool, ghost t: Turn)
      requires Valid() && !stop && queue != []
      requires stream.Valid() && stream.live
      modifies this, stream`nonce, stream`used, stream`live, stream.buffer, stream.cryptoBuffer
      modifies stream.stream`incoming, stream.stream`outgoing, stream.stream`room
      ensures Valid() && stream.Valid() && ItemProgress(old(Now()), Now(), t.item, t.early, t.fate)
      ensures t == Turn(everything, root, old(queue[0]), old(Here()), Here(), ok, stop, t.early, t.fate, t.done)
      ensures TurnOk(host.naming, t) && shared == GetFileByPath(t.item.path, everything).Some?
      ensures (ok && !stop ==> stream.live) && (ok ==> listing == old(listing)) && (!shared ==> ok && !stop)
    {
      hide Valid, Reports, EncryptedStream.Valid, TreeDone, LeafEnded, Leaves, Popped, Among, Progress, Processing,
        Legal, ItemEnded, Load, Cipher.Valid, Told, GetFileByPath, ItemProgress;
      var item := queue[0];
      ghost var early, fate, done := None, None, 0;
      ghost var a := Here();
      ToldNothing(Reports(ops), item);
      ghost var n := Now();
      var found := GetFileByPath(item.path, everything);
      shared := found.Some?;
      FrontIsLegal(State());
      if shared {
        FoundIsNode(item.path, everything);
        ok, early, fate, done := DownloadFound(stream, found.value, root);
      } else {
        NoProgress(n, item);
        EndedOnce(n, n, n, item, None);
        FinishActive(item, Invalid(NoLongerShared), false);
        EndedTwice(n, n, Now(), item, None, Invalid(NoLongerShared));
        ok, fate := true, Some(Invalid(NoLongerShared));
      }
      t := Turn(everything, root, item, a, Here(), ok, stop, early, fate, done);
    }

    /** The front item, which is in the listing (847-877). */
    method DownloadFound(stream: EncryptedStream, f: SharedFile, root: string)
      returns (ok: bool, ghost early: Option<Fate>, ghost fate: Option<Fate>, ghost done: nat)
      requires Valid() && !stop && queue != [] && f.path == queue[0].path
      requires stream.Valid() && stream.live
      modifies this, stream`nonce, stream`used, stream`live, stream.buffer, stream.cryptoBuffer
      modifies stream.stream`incoming, stream.stream`outgoing, stream.stream`room
      ensures Valid() && stream.Valid() && ItemProgress(old(Now()), Now(), old(queue[0]), early, fate)
      ensures (ok && !stop ==> stream.live && fate.Some?) && (ok ==> listing == old(listing))
      ensures early.Some? <==> ok && !stop && f.isDirectory && Among(Leaves(host.naming, f, root), f.path)
      ensures ItemEnded(Leaves(host.naming, f, root), f.isDirectory, old(Here()), Here(), old(queue[0]), ok, stop, fate,
                        done)
    {
      hide Valid, Reports, EncryptedStream.Valid, TreeDone, LeafEnded, Leaves, Popped, Among, Progress, Processing,
        Legal, ItemEnded, Load, Cipher.Valid, Told, ItemProgress, Apply, Holding, Moved, Now, State;
      ok, early, fate, done := false, None, None, 0;
      var item := queue[0];
      ghost var n0, a := Now(), Here();
      Start();
      CoreIsState();
      ghost var n := Now();
      activeBytes := 0;
      if host.naming.nameOf(f.path).None? {
        NoProgress(n, item);
        EndedOnce(n0, n, n, item, None);
        NothingEnded(host.naming, f, root, a, item, stop);
        return;
      }
      ActiveIs(State(), item);
      ProcessingHolds(State(), item);
      ok, fate, done := DownloadSharedFile(stream, f, root, item);
      TreeIsItem(host.naming, f, root, a, Here(), item, ok, stop, fate, done);
      EndedOnce(n0, n, Now(), item, fate);
      CoreIsState();
      if ok && !stop && f.isDirectory {
        early := fate;
        ProgressHolds(n, Now(), item, fate);
        if early.None? {
          ActiveIs(State(), item);
        }
        FinishDirectory(item, n0, early);
        fate := Some(Completed);
      }
    }

    /** A directory that was not interrupted is completed (866-875), even if its item has ended before. */
    method FinishDirectory(item: DownloadQueueItem, ghost since: Ledger, ghost early: Option<Fate>)
      requires Valid() && !stop && (early.Some? || Legal(State(), Finish(item, Completed)))
      requires ItemProgress(since, Now(), item, None, early)
      modifies this`queue, this`active, this`queueFile, this`hist, this`ops, this`events, this`slipped
      ensures Valid() && ItemProgress(since, Now(), item, early, Some(Completed)) && !stop
    {
      hide Valid, Reports, Popped, Told, ItemProgress;
      ghost var n := Now();
      FinishActive(item, Completed, early.Some?);
      EndedTwice(since, n, Now(), item, early, Completed);
    }

    /** The front item becomes the active one (847). */
    method Start()
      requires Valid() && !stop && queue != []
      modifies this`active, this`ops
      ensures Valid() && State() == Apply(old(State()), Begin)
      ensures Processing(State(), queue[0]) && Reports(ops) == Reports(old(ops))
      ensures Now() == old(Now()).(core := Now().core) && Now().core.queue == old(Now()).core.queue
    {
      hide Good, Reports, Leads;
      if !slipped {
        LeadsOn(start, ops, State(), Begin);
      }
      ReportsSnoc(ops, Begin);
      assert Reports(ops) + [] == Reports(ops);
      active := Some(queue[0]);
      ops := ops + [Begin];
    }

    /**
     The loop over the queue on one connection (823-883): it ends when the queue is empty or a stop
     was requested. Its turns take the queue's items in order, each is reported as it ends, and the
     disk changes by them only. No two downloads follow each other without a look into the mailbox,
     and no item slips out of the queue unless the listing puts a file below a directory of its own path.
     */
    method RunConnection(stream: EncryptedStream, everything: SharedFile, root: string)
      returns (ok: bool, ghost turns: seq<Turn>)
      requires Valid() && !stop
      requires stream.Valid() && stream.live
      modifies this, stream`nonce, stream`used, stream`live, stream.buffer, stream.cryptoBuffer
      modifies stream.stream`incoming, stream.stream`outgoing, stream.stream`room
      ensures Valid() && worked == old(worked) && (ok ==> listing == old(listing))
      ensures Journey(host.naming, [everything], root, old(Here()), turns, Here())
      ensures Reports(ops) == Reports(old(ops)) + TurnReports(turns)
      ensures InOrder(old(queue), turns) && (ok && !stop ==> AllTaken(old(queue), turns))
      ensures slipped == (old(slipped) || !NoSlip(turns)) && (NoOwnFiles(everything) ==> NoSlip(turns))
      ensures Downloads(turns) <= looks - old(looks) + if ok then 0 else 1
      ensures ok ==> stop || queue == []
    {
      hide Valid, Reports, EncryptedStream.Valid, Load, HandleAll, Progress, NoOwnFiles, Told, Downloads,
        Cipher.Valid, Front, Rest, Journey, TurnReports, InOrder, AllTaken, NoSlip, Ends, TurnOk, ItemProgress,
        GetFileByPath, Behind;
      turns := [];
      ghost var q := queue;
      NoTurns(host.naming, [everything], root, Here(), q, Reports(ops));
      while queue != []
        invariant Valid() && !stop && listing == old(listing)
        invariant stream.Valid() && stream.live
        invariant Journey(host.naming, [everything], root, old(Here()), turns, Here())
        invariant Reports(ops) == Reports(old(ops)) + TurnReports(turns) && worked == old(worked)
        invariant Behind(q, turns, queue)
        invariant slipped == (old(slipped) || !NoSlip(turns)) && (NoOwnFiles(everything) ==> NoSlip(turns))
        invariant looks >= old(looks) && Downloads(turns) <= looks - old(looks)
        decreases Load()
      {
        ghost var n := Now();
        ghost var t: Turn;
        var shared;
        ok, shared, t := DownloadItem(stream, everything, root);
        OneMoreTurn(host.naming, everything, root, old(Here()), turns, t, q, n, Now(), Reports(old(ops)));
        turns := turns + [t];
        if !ok {
          return;
        }
        if shared {
          ghost var m := Now();
          ok := LookMeanwhile(t.item);
          ProgressTells(m, Now(), t.item, None);
          if !ok || stop {
            return;
          }
          StillBehind(q, turns, m.core.queue, queue);
        }
      }
      NothingBehind(q, turns);
      ok := true;
    }

    /** `initialize_download_queue`: fill the queue from the file; a bad line is an error. */
    method InitializeDownloadQueue() returns (ok: bool)
      modifies this`queue
      ensures ok == Stored(queueFile).Ok?
      ensures ok ==> queue == Stored(queueFile).value
    {
      hide ParseLine, Lines;
      queue := [];
      if queueFile.None? {
        return true;
      }
      var lines := Lines(queueFile.value);
      var i := 0;
      NoLines();
      while i < |lines|
        invariant 0 <= i <= |lines|
        invariant ParseLines(lines[..i]) == Ok(queue)
      {
        assert lines[..i + 1][..i] == lines[..i];
        match ParseLine(lines[i]) {
          case Err(_) =>
            ParseLinesFails(lines, i + 1);
            return false;
          case Ok(items) => queue := queue + items;
        }
        i := i + 1;
      }
      assert lines[..i] == lines;
      return true;
    }

    /** Nothing has happened yet, except that loading the queue may have failed. */
    ghost predicate Fresh()
      reads this`active, this`hist, this`ops, this`events, this`inbox, this`reverse, this`slipped
    {
      active.None? && hist == [] && ops == [] && events == [] && LinksOk() && !slipped
    }

    /**
     The beginning of `run` (709). On a first run the items of the file enter the queue; on a
     restart the file gives back exactly the queue that was there.
     */
    method Restart() returns (ok: bool)
      requires Valid() || Fresh()
      modifies this`queue, this`hist, this`start, this`ops
      ensures ok ==> Valid()
      ensures (old(Valid()) ==> Valid()) && Reports(ops) == Reports(old(ops))
      ensures old(Valid()) && !slipped ==> ok && State() == old(State())
      ensures !ok ==> Valid() || Fresh()
    {
      hide Good, Leads, MailOk, Reports, Stored, Pendings;
      ghost var loaded := Valid();
      ghost var c := State();
      if loaded && !slipped {
        QueueOutcome(start, ops, c);
        GoodStores(c);
      }
      ok := InitializeDownloadQueue();
      if loaded {
        if !slipped {
          ReloadChangesNothing(c);
          LeadsOn(start, ops, c, Reload);
        }
        ReportsSnoc(ops, Reload);
        assert Reports(ops) + [] == Reports(ops);
        ops := ops + [Reload];
      } else if ok {
        hist := Entering(queue);
        start := State();
        EnteringIsGood(start);
        NoSteps(start);
      }
    }

    /** While no item has slipped out of the queue, QueueOutcome speaks of the whole life of the thread. */
    lemma WholeLife()
      requires Valid() && !slipped
      ensures AllAccounted(start, ops, State())
    {
      hide Good, Leads, AllAccounted;
      QueueOutcome(start, ops, State());
    }

    /** The items that wait behind the active one, as the app is told. */
    method GetQueueWithoutActive() returns (paths: seq<string>)
      ensures paths == QueuePaths(if active.Some? then Without(queue, Some(active.value.path)) else queue)
      ensures active.Some? ==> active.value.path !in paths
      ensures forall item :: item in queue && (active.None? || item.path != active.value.path) ==> item.path in paths
    {
      var waiting := queue;
      if active.Some? {
        waiting := Without(waiting, Some(active.value.path));
        WithoutMembers(queue, Some(active.value.path));
      }
      forall item | item in queue && (active.None? || item.path != active.value.path)
        ensures item.path in QueuePaths(waiting)
      {
        var i :| 0 <= i < |waiting| && waiting[i] == item;
        assert QueuePaths(waiting)[i] == item.path;
      }
      return QueuePaths(waiting);
    }

    /**
     `run`: the outer loop, over what the environment does in its successive rounds. It ends
     gracefully only after the user was removed; an error ends it for a restart.
     */
    method Run(rounds: seq<Round>, root: string) returns (r: Exit, ghost turns: seq<Turn>)
      requires (Valid() || Fresh()) && RoundsOk(rounds)
      modifies this
      ensures Valid() || (Fresh() && r.Failed?)
      ensures r.Graceful? ==> shutdown
      ensures old(Valid()) ==> Valid()
      ensures Reports(ops) == Reports(old(ops)) + TurnReports(turns)
      ensures old(worked) <= worked && (slipped ==> old(slipped) || SomeOwnFiles(worked))
      ensures Journey(host.naming, worked[|old(worked)|..], root, old(Here()), turns, Here())
    {
      hide Valid, Reports, HandleAll, Fresh, Apply, Progress, SomeOwnFiles, Load, Journey, TurnReports, LinkOf,
        Worked, InOrder, AllTaken;
      ghost var ops0, wasValid, worked0 := ops, Valid(), worked;
      turns := [];
      NoTurns(host.naming, worked[|worked|..], root, Here(), queue, Reports(ops));
      var ok := Restart();
      if !ok {
        return Failed, turns;
      }
      var i := 0;
      while i < |rounds|
        invariant 0 <= i <= |rounds|
        invariant Valid()
        invariant Reports(ops) == Reports(ops0) + TurnReports(turns)
        invariant worked0 <= worked && (slipped ==> old(slipped) || SomeOwnFiles(worked))
        invariant Journey(host.naming, worked[|worked0|..], root, old(Here()), turns, Here())
      {
        ghost var worked1, a, more := worked, Here(), [];
        var over;
        over, more := RunOnce(rounds[i], root);
        OwnFilesStay(worked1, worked);
        MoreTurns(host.naming, worked0, worked1, worked, root, old(Here()), turns, a, more, Here());
        AppendedTwice(Reports(ops0), TurnReports(turns), TurnReports(more));
        turns := turns + more;
        if over.Some? {
          return over.value, turns;
        }
        i := i + 1;
      }
      return Waiting, turns;
    }

    /**
     One round of the outer loop (711-883): look into the mailbox, and unless that ends the thread,
     downloading is paused, or there is nothing to do, work on the queue as the messages have left it.
     */
    method RunOnce(round: Round, root: string) returns (over: Option<Exit>, ghost turns: seq<Turn>)
      requires Valid() && RoundOk(round)
      modifies this
      ensures Valid() && Reports(ops) == Reports(old(ops)) + TurnReports(turns)
      ensures old(worked) <= worked && (slipped ==> old(slipped) || SomeOwnFiles(worked))
      ensures Journey(host.naming, worked[|old(worked)|..], root, old(Here()), turns, Here())
      ensures Working(host, HandleAll(old(State()), Front(old(inbox)).messages), Front(old(inbox)).disconnected,
                      round, old(listing), over, turns, old(worked), worked)
      ensures over == Some(Graceful) ==> shutdown
    {
      hide Valid, Reports, HandleAll, Progress, SomeOwnFiles, Load, Journey, TurnReports, LinkOf, Worked, InOrder,
        AllTaken, Front, Rest, Cipher.Valid, Told, Moved, Here, Holding;
      turns := [];
      NoTurns(host.naming, [], root, Here(), queue, Reports(ops));
      assert worked[|worked|..] == [];
      ghost var n := Now();
      var ok := LookMeanwhile(DownloadQueueItem("", 0));
      ProgressTells(n, Now(), DownloadQueueItem("", 0), None);
      if !ok {
        return Some(Disconnected), turns;
      }
      if shutdown {
        return Some(Graceful), turns;
      }
      Proceed();
      if !paused && (queue != [] || reverse.Some?) {
        ok, turns := RunRound(round, root);
        if !ok {
          return Some(Failed), turns;
        }
      }
      return None, turns;
    }

    /**
     The rest of one round: connect, get the listing, and work on the queue (738-883). A connection
     that the peer opened is used before another is made.
     */
    method RunRound(round: Round, root: string) returns (ok: bool, ghost turns: seq<Turn>)
      requires Valid() && !stop && RoundOk(round)
      requires !paused && (queue != [] || reverse.Some?)
      modifies this
      ensures Valid() && Reports(ops) == Reports(old(ops)) + TurnReports(turns)
      ensures var link := LinkOf(old(reverse), round);
        && (link.Some? ==> link.value.cipher.Valid())
        && worked == old(worked) + Worked(host, link, round, old(listing))
      ensures slipped ==> old(slipped) || SomeOwnFiles(worked)
      ensures Journey(host.naming, worked[|old(worked)|..], root, old(Here()), turns, Here())
      ensures worked == old(worked) ==> turns == []
      ensures worked != old(worked) ==> InOrder(old(queue), turns) && (ok && !stop ==> AllTaken(old(queue), turns))
      ensures LinkOf(old(reverse), round).None? ==> ok == round.connect.Unreachable? && listing == old(listing)
    {
      hide Valid, Reports, Apply, NoOwnFiles, EncryptedStream.Valid, Cipher.Valid, Downloads, Journey, TurnReports,
        InOrder, AllTaken, NoSlip, Worked, Load, Here, Told, Moved;
      turns := [];
      NoTurns(host.naming, [], root, Here(), queue, Reports(ops));
      var link;
      ok, link := Connect(round);
      if link.None? {
        NothingWorked(host, round, listing);
        assert worked[|old(worked)|..] == [];
        return;
      }
      var stream := OpenLink(link.value);
      var everything;
      ok, everything := ChooseListing(stream, link.value, round);
      if everything.None? {
        assert worked[|old(worked)|..] == [];
        return;
      }
      worked := worked + [everything.value];
      assert worked[|worked| - 1] == everything.value;
      assert worked[|old(worked)|..] == [everything.value];
      ok, turns := RunConnection(stream, everything.value, root);
    }

    /** Take the connection that the peer has opened, or make one (748-795). */
    method Connect(round: Round) returns (ok: bool, link: Option<Link>)
      requires Valid() && !stop && RoundOk(round)
      modifies this`reverse, this`ops
      ensures Valid() && link == LinkOf(old(reverse), round) && (link.Some? ==> link.value.cipher.Valid())
      ensures ok == (link.Some? || round.connect.Unreachable?) && Reports(ops) == Reports(old(ops))
      ensures old(reverse).Some? ==> link == old(reverse) && reverse.None?
    {
      hide Valid, Reports, Apply, Cipher.Valid;
      if reverse.Some? {
        var taken := TakeReverseConnection();
        return true, Some(taken);
      }
      match round.connect {
        case Unreachable => return true, None;
        case Refused => return false, None;
        case Connected(made) => return true, Some(made);
      }
    }

    /** The listing to work with, which other threads may replace before and after it is fetched (798-821). */
    method ChooseListing(stream: EncryptedStream, link: Link, round: Round)
      returns (ok: bool, everything: Option<SharedFile>)
      requires stream.Valid() && stream.live && stream.cipher == link.cipher && stream.nonce == FirstNonce(link)
      requires stream.stream.incoming == link.incoming && stream.stream.room == link.room
      modifies this`listing, stream`nonce, stream`used, stream`live, stream.buffer, stream.cryptoBuffer
      modifies stream.stream`incoming, stream.stream`outgoing, stream.stream`room
      ensures stream.Valid() && link.cipher.Valid() && (everything.Some? ==> ok && stream.live)
      ensures Worked(host, Some(link), round, old(listing)) == if everything.Some? then [everything.value] else []
    {
      hide FetchedListing, WriteFrame, EncryptedStream.Valid, Cipher.Valid;
      CipherIsValid(stream);
      everything := None;
      Meddle(round.before);
      ok := SetEverythingFile(stream, link.hello == Some(MSG_REVERSE), false);
      if !ok {
        return;
      }
      Meddle(round.after);
      match listing {
        case Data(f) => everything := Some(f);
        case _ =>
      }
    }

    /** Other threads replace or remove the listing that is kept for this user. */
    method Meddle(view: Option<View>)
      modifies this`listing
      ensures listing == if view.Some? then view.value else old(listing)
    {
      if view.Some? {
        listing := view.value;
      }
    }

    method TakeReverseConnection() returns (link: Link)
      requires Valid() && reverse.Some?
      modifies this`reverse, this`ops
      ensures Valid() && reverse.None? && Some(link) == old(reverse) && link.cipher.Valid()
      ensures State() == Apply(old(State()), TakeReverse) && Reports(ops) == Reports(old(ops))
    {
      hide Leads, Reports;
      if !slipped {
        LeadsOn(start, ops, State(), TakeReverse);
      }
      ReportsSnoc(ops, TakeReverse);
      assert Reports(ops) + [] == Reports(ops);
      link := reverse.value;
      reverse := None;
      ops := ops + [TakeReverse];
    }

    /** The stop flag is cleared only here (724). */
    method Proceed()
      requires Valid()
      modifies this`stop, this`ops
      ensures Valid() && State() == Apply(old(State()), DownloadQueues.Proceed)
      ensures !stop && Reports(ops) == Reports(old(ops))
    {
      hide Good, Leads, Reports;
      if !slipped {
        LeadsOn(start, ops, State(), DownloadQueues.Proceed);
      }
      ReportsSnoc(ops, DownloadQueues.Proceed);
      assert Reports(ops) + [] == Reports(ops);
      stop := false;
      ops := ops + [DownloadQueues.Proceed];
    }

    /**
     The thread of start_downloading_single_user (219-262): run again after every error and every
     panic, until the user is removed or the app is gone. Whatever happens, the queue moves by
     possible steps only, until a listing that puts a file below a directory of its own path lets an
     item slip.
     */
    method RunThread(runs: seq<seq<Round>>, root: string) returns (ghost turns: seq<Turn>)
      requires (Valid() || Fresh()) && forall i :: 0 <= i < |runs| ==> RoundsOk(runs[i])
      modifies this
      ensures Valid() || Fresh()
      ensures old(Valid()) ==> Valid()
      ensures Reports(ops) == Reports(old(ops)) + TurnReports(turns)
      ensures old(worked) <= worked && (slipped ==> old(slipped) || SomeOwnFiles(worked))
      ensures Journey(host.naming, worked[|old(worked)|..], root, old(Here()), turns, Here())
      ensures OnlyGrew(old(disk), disk)
      ensures forall p :: Changed(old(disk), disk, p) ==>
        root <= p && Listed(host.naming, worked[|old(worked)|..], root, p)
    {
      hide Valid, Reports, Fresh, RoundsOk, SomeOwnFiles, Journey, TurnReports, OnlyGrew, Changed, Listed;
      ghost var ops0, wasValid, worked0 := ops, Valid(), worked;
      turns := [];
      NoTurns(host.naming, worked[|worked|..], root, Here(), queue, Reports(ops));
      var i, continueRun := 0, true;
      while continueRun && i < |runs|
        invariant 0 <= i <= |runs|
        invariant Valid() || Fresh()
        invariant wasValid ==> Valid()
        invariant Reports(ops) == Reports(ops0) + TurnReports(turns)
        invariant worked0 <= worked && (slipped ==> old(slipped) || SomeOwnFiles(worked))
        invariant Journey(host.naming, worked[|worked0|..], root, old(Here()), turns, Here())
      {
        ghost var worked1, a, more := worked, Here(), [];
        var r;
        r, more := Run(runs[i], root);
        OwnFilesStay(worked1, worked);
        MoreTurns(host.naming, worked0, worked1, worked, root, old(Here()), turns, a, more, Here());
        AppendedTwice(Reports(ops0), TurnReports(turns), TurnReports(more));
        turns := turns + more;
        continueRun := !r.Graceful? && !r.Disconnected?;
        i := i + 1;
      }
      OnlyTheirFiles(host.naming, worked[|worked0|..], root, old(Here()), turns, Here());
    }
  }

  /** `Waiting`: still running after all the rounds that we look at. */
  datatype Exit = Graceful | Disconnected | Failed | Waiting

  /** What connecting comes to: no answer, an error, or a connection. */
  datatype Connect = Unreachable | Refused | Connected(link: Link)

  /** One round of `run`: what other threads do to the listing before and after it is fetched. */
  datatype Round = Round(connect: Connect, before: Option<View>, after: Option<View>)

  /** A connection that the peer opened has used up the nonce of its first message. */
  function FirstNonce(link: Link): nat {
    if link.hello.Some? then NONCE_INIT + 1 else NONCE_INIT
  }

  /** The connection of a round, if there is one. */
  function LinkOf(reverse: Option<Link>, round: Round): Option<Link> {
    if reverse.Some? then reverse
    else if round.connect.Connected? then Some(round.connect.link)
    else None
  }

  function Seen(other: Option<View>, kept: View): View {
    if other.Some? then other.value else kept
  }

  /**
   The listing that a round works with, if it comes to that: the one that the connection brings, if
   the peer has asked for that or if none is kept, and otherwise the one that is kept.
   */
  ghost function Worked(host: Host, link: Option<Link>, round: Round, kept: View): seq<SharedFile>
    requires link.Some? ==> link.value.cipher.Valid()
  {
    if link.None? then []
    else
      var l, here := link.value, Seen(round.before, kept);
      var anew := l.hello == Some(MSG_REVERSE) || here.NoData?;
      var got := FetchedListing(host, l.cipher, FirstNonce(l), l.room, l.incoming);
      if (if anew then got.None? else here.NoUser?) then []
      else
        match Seen(round.after, if anew then Data(got.value) else here)
        case Data(everything) => [everything]
        case _ => []
  }

  /** What a round of the outer loop does when the mailbox has left the thread in this state. */
  ghost predicate Working(host: Host, c: Core, disconnected: bool, round: Round, kept: View, over: Option<Exit>,
                          turns: seq<Turn>, before: seq<SharedFile>, after: seq<SharedFile>)
  {
    var idle := disconnected || c.shutdown || c.paused || (c.queue == [] && c.reverse.None?);
    && (over == Some(Disconnected) <==> disconnected)
    && (over == Some(Graceful) <==> !disconnected && c.shutdown)
    && over != Some(Waiting) && (over == Some(Failed) ==> !idle)
    && (idle ==> turns == [] && after == before)
    && (!idle ==>
      && (LinkOf(c.reverse, round).Some? ==> LinkOf(c.reverse, round).value.cipher.Valid())
      && after == before + Worked(host, LinkOf(c.reverse, round), round, kept)
      && (after == before ==> turns == [])
      && (after != before ==> InOrder(c.queue, turns)))
  }

  lemma NothingWorked(host: Host, round: Round, kept: View)
    ensures Worked(host, None, round, kept) == []
  {
  }

  ghost predicate RoundOk(round: Round) {
    round.connect.Connected? ==> round.connect.link.cipher.Valid()
  }

  ghost predicate RoundsOk(rounds: seq<Round>) {
    forall i :: 0 <= i < |rounds| ==> RoundOk(rounds[i])
  }

  method OpenLink(link: Link) returns (stream: EncryptedStream)
    requires link.cipher.Valid()
    ensures fresh(stream) && fresh(stream.stream) && fresh(stream.buffer) && fresh(stream.cryptoBuffer)
    ensures stream.Valid() && stream.live && stream.cipher == link.cipher
    ensures stream.nonce == FirstNonce(link)
    ensures stream.stream.incoming == link.incoming && stream.stream.room == link.room
  {
    var tcp := new TcpStream(link.incoming, link.room);
    stream := new EncryptedStream(tcp, link.cipher);
    if link.hello.Some? {
      stream.nonce := stream.nonce + 1;
    }
  }

  function QueuePaths(q: seq<DownloadQueueItem>): seq<string> {
    seq(|q|, i requires 0 <= i < |q| => q[i].path)
  }

  lemma {:induction false} WithoutMembers(q: seq<DownloadQueueItem>, which: Option<string>)
    ensures forall item :: item in Without(q, which) <==> item in q && !Hit(which, item.path)
  {
    hide Hit;
    if q == [] {
    } else {
      WithoutMembers(q[..|q| - 1], which);
      assert q == q[..|q| - 1] + [q[|q| - 1]];
    }
  }

  lemma NoLines()
    ensures ParseLines([]) == Ok([])
  {
  }

  lemma {:induction false} ParseLinesFails(lines: seq<string>, i: nat)
    requires i <= |lines| && ParseLines(lines[..i]).Err?
    ensures ParseLines(lines).Err?
    decreases |lines|
  {
    hide ParseLine;
    if i == |lines| {
      assert lines[..i] == lines;
    } else {
      assert lines[..|lines| - 1][..i] == lines[..i];
      ParseLinesFails(lines[..|lines| - 1], i);
    }
  }

  lemma NoSteps(c: Core)
    ensures Leads(c, [], c) && Tell(Reports([])) == []
  {
  }

  lemma GoodStores(c: Core)
    requires Good(c)
    ensures Stored(c.file) == Ok(c.queue)
  {
  }

  lemma EnteringIsGood(c: Core)
    requires c.hist == Entering(c.queue) && Stored(c.file) == Ok(c.queue)
    requires c.reverse.Some? ==> c.reverse.value.cipher.Valid()
    ensures Good(c)
  {
    hide Pendings, ParseLines, Lines;
    EnteringPendings(c.queue);
    if c.file.Some? {
      LinesHaveNoNewline(c.file.value);
      ParsedLinesOk(Lines(c.file.value));
    }
  }

  /** One of these files has this path. */
  ghost predicate Among(ls: seq<Leaf>, path: string) {
    exists i :: 0 <= i < |ls| && ls[i].path == path
  }

  lemma AmongNone(path: string)
    ensures !Among([], path)
  {
  }

  lemma AmongOne(leaf: Leaf, path: string)
    ensures Among([leaf], path) <==> leaf.path == path
  {
    assert [leaf][0] == leaf;
  }

  lemma AmongAppend(ls: seq<Leaf>, more: seq<Leaf>, path: string)
    ensures Among(ls + more, path) <==> Among(ls, path) || Among(more, path)
  {
    var all := ls + more;
    assert forall i :: 0 <= i < |ls| ==> all[i] == ls[i];
    assert forall i :: 0 <= i < |more| ==> all[|ls| + i] == more[i];
    if Among(all, path) {
      var i :| 0 <= i < |all| && all[i].path == path;
      assert if i < |ls| then all[i] == ls[i] else all[i] == more[i - |ls|];
    }
  }

  lemma AmongParts(ls: seq<Leaf>, part: seq<Leaf>, rest: seq<Leaf>, path: string)
    ensures Among(ls + part, path) <==> Among(ls, path) || Among(part, path)
    ensures Among(ls + part + rest, path) <==> Among(ls + part, path) || Among(rest, path)
  {
    AmongAppend(ls, part, path);
    AmongAppend(ls + part, rest, path);
  }

  /** The files of a tree are nodes of it. */
  lemma {:induction false} AmongIsFile(w: Naming, f: SharedFile, dir: string, path: string)
    requires Among(Leaves(w, f, dir), path)
    ensures if f.isDirectory then FileAt(Forest(f.files), path) else f.path == path
    decreases f, 1
  {
    if f.isDirectory {
      AmongAllIsFile(w, f.files, SubDir(w, f, dir), path);
    }
  }

  lemma {:induction false} AmongAllIsFile(w: Naming, files: seq<SharedFile>, dir: string, path: string)
    requires Among(AllLeaves(w, files, dir), path)
    ensures FileAt(Forest(files), path)
    decreases files, 0
  {
    hide Among, FileAt, Leaves;
    AmongNone(path);
    assert files != [];
    var init, last := files[..|files| - 1], files[|files| - 1];
    AmongAppend(AllLeaves(w, init, dir), Leaves(w, last, dir), path);
    assert files == init + [last];
    ForestSnoc(init, last);
    FileAtSplit(Forest(init), Preorder(last), path);
    if Among(AllLeaves(w, init, dir), path) {
      AmongAllIsFile(w, init, dir, path);
    } else {
      AmongIsFile(w, last, dir, path);
      FileAtSplit([last], Forest(last.files), path);
      FileAtOne(last, last, path);
    }
  }

  /** An item slips only if the listing puts a file below a directory of its own path. */
  lemma SlipsByOwnFile(w: Naming, path: string, t: SharedFile, root: string)
    requires GetFileByPath(path, t).Some? && GetFileByPath(path, t).value.isDirectory
    requires Among(Leaves(w, GetFileByPath(path, t).value, root), GetFileByPath(path, t).value.path)
    ensures !NoOwnFiles(t)
  {
    hide Among, FileAt, Leaves, NoOwnFiles;
    var f := GetFileByPath(path, t).value;
    FoundIsNode(path, t);
    AmongIsFile(w, f, root, f.path);
    if NoOwnFiles(t) {
      NoOwnEverywhere(t, f);
      assert false;
    }
  }

  /** There is such a listing: the directory /d that holds the one file /d. */
  lemma SlippingListing(w: Naming, root: string, size: nat)
    ensures var d := SharedFile("/d", true, [SharedFile("/d", false, [], size)], size);
      && GetFileByPath("/d", d) == Some(d) && !NoOwnFiles(d)
      && Among(Leaves(w, d, root), "/d")
  {
    var f := SharedFile("/d", false, [], size);
    var d := SharedFile("/d", true, [f], size);
    assert [f][..0] == [];
    assert Leaves(w, d, root) == AllLeaves(w, [f], SubDir(w, d, root));
    assert AllLeaves(w, [f], SubDir(w, d, root)) == [] + Leaves(w, f, SubDir(w, d, root));
    AmongOne(LeafOf(w, f, SubDir(w, d, root)), "/d");
    assert Leaves(w, d, root) == [LeafOf(w, f, SubDir(w, d, root))];
    assert Forest([f]) == [f] + [] + [];
    assert Forest([f])[0] == f;
  }

  /**
   What slipping does: the item behind the directory leaves the queue with the directory's second
   fate, while the app hears of the directory twice. Then the reports no longer account for the
   items, unless the two are the same.
   */
  lemma SlipTakesNext(c: Core, early: Fate, fate: Fate)
    requires Good(c) && |c.queue| >= 2 && !c.stop && Finished(early) && Finished(fate)
    ensures var d := Popped(Popped(c, early), fate);
      var ops := [Finish(c.queue[0], early), Finish(c.queue[0], fate)];
      && d.queue == c.queue[2..]
      && Outcomes(d.hist) == Outcomes(c.hist) + [Entry(c.queue[0], early), Entry(c.queue[1], fate)]
      && (AllAccounted(c, ops, d) <==> c.queue[0] == c.queue[1])
  {
    hide Good, Outcomes, Extends, Saved, FinishFirst;
    var first, second := Finish(c.queue[0], early), Finish(c.queue[1], fate);
    var b := Popped(c, early);
    var d := Popped(b, fate);
    FinishKeeps(c, c.queue[0], early);
    FinishKeeps(b, b.queue[0], fate);
    ExtendsOn(c.hist, b.hist, d.hist);
    var ops := [first, Finish(c.queue[0], fate)];
    ReportsSnoc([], first);
    ReportsSnoc([first], Finish(c.queue[0], fate));
    assert [] + [first] == [first] && [first] + [Finish(c.queue[0], fate)] == ops;
    var wanted, got := Outcomes(c.hist) + Reports(ops), Outcomes(d.hist);
    assert got == Outcomes(c.hist) + [Entry(c.queue[0], early), Entry(c.queue[1], fate)];
    if wanted == got {
      assert wanted[|wanted| - 1] == got[|got| - 1];
    }
  }

  lemma ExtendsOn(a: seq<Entry>, b: seq<Entry>, c: seq<Entry>)
    requires Extends(a, b) && Extends(b, c)
    ensures Extends(a, c)
  {
  }

  ghost predicate SomeOwnFiles(trees: seq<SharedFile>) {
    exists i :: 0 <= i < |trees| && !NoOwnFiles(trees[i])
  }

  lemma OwnFilesStay(trees: seq<SharedFile>, more: seq<SharedFile>)
    requires trees <= more
    ensures SomeOwnFiles(trees) ==> SomeOwnFiles(more)
  {
    hide NoOwnFiles;
    if SomeOwnFiles(trees) {
      var i :| 0 <= i < |trees| && !NoOwnFiles(trees[i]);
      assert more[i] == trees[i];
    }
  }

  // ---------------------------------------------------------------- the turns of the loop over the queue

  /**
   One turn of the loop over the queue, with this listing and download directory: the item, what was
   there before and after it, and how the item ended, if it did.
   */
  datatype Turn = Turn(tree: SharedFile, root: string, item: DownloadQueueItem, a: Files, b: Files,
                       ok: bool, stopped: bool, early: Option<Fate>, fate: Option<Fate>, done: nat)

  /**
   An item that is not in the listing is given up, and nothing else happens. Otherwise it ends as its
   file or directory does, and its files go below the download directory.
   */
  ghost predicate TurnOk(w: Naming, t: Turn) {
    var found := GetFileByPath(t.item.path, t.tree);
    && (t.ok && !t.stopped ==> t.fate.Some?)
    && (found.None? ==>
      && t.ok && !t.stopped && t.early.None? && t.fate == Some(Invalid(NoLongerShared))
      && t.b.disk == t.a.disk)
    && (found.Some? ==>
      var f, ls := found.value, Leaves(w, found.value, t.root);
      && (t.early.Some? <==> t.ok && !t.stopped && f.isDirectory && Among(ls, f.path))
      && ItemEnded(ls, f.isDirectory, t.a, t.b, t.item, t.ok, t.stopped, t.fate, t.done))
  }

  /** From these files to those by these turns alone, each with one of these listings. */
  ghost predicate Journey(w: Naming, trees: seq<SharedFile>, root: string, a: Files, turns: seq<Turn>, b: Files) {
    && (forall i :: 0 <= i < |turns| ==> TurnOk(w, turns[i]) && turns[i].tree in trees && turns[i].root == root)
    && (if turns == [] then a == b else turns[0].a == a && turns[|turns| - 1].b == b)
    && (forall i :: 0 < i < |turns| ==> turns[i].a == turns[i - 1].b)
  }

  function TurnReports(turns: seq<Turn>): seq<Entry> {
    if turns == [] then []
    else
      var t := turns[|turns| - 1];
      TurnReports(turns[..|turns| - 1]) + Told(t.item, t.early) + Told(t.item, t.fate)
  }

  /** How many items these turns have taken from the queue. */
  function Ends(turns: seq<Turn>): nat {
    if turns == [] then 0
    else Ends(turns[..|turns| - 1]) + Weight(turns[|turns| - 1].early) + Weight(turns[|turns| - 1].fate)
  }

  /** How many of the items were in the listing. */
  function Downloads(turns: seq<Turn>): nat {
    if turns == [] then 0
    else
      var t := turns[|turns| - 1];
      Downloads(turns[..|turns| - 1]) + if GetFileByPath(t.item.path, t.tree).Some? then 1 else 0
  }

  ghost predicate NoSlip(turns: seq<Turn>) {
    forall i :: 0 <= i < |turns| ==> turns[i].early.None?
  }

  /** Each turn is about the first item of this queue that the turns before it have left, if there is one. */
  ghost predicate InOrder(q: seq<DownloadQueueItem>, turns: seq<Turn>) {
    forall i :: 0 <= i < |turns| && Ends(turns[..i]) < |q| ==> turns[i].item == q[Ends(turns[..i])]
  }

  ghost predicate AllEnded(turns: seq<Turn>) {
    forall i :: 0 <= i < |turns| ==> turns[i].ok && !turns[i].stopped && turns[i].fate.Some?
  }

  /** And the others are still there. */
  ghost predicate Behind(q: seq<DownloadQueueItem>, turns: seq<Turn>, now: seq<DownloadQueueItem>) {
    && InOrder(q, turns) && AllEnded(turns)
    && (Ends(turns) <= |q| ==> q[Ends(turns)..] <= now)
  }

  /** Every item of this queue has been taken, and unless one slipped each has been reported in its turn. */
  ghost predicate AllTaken(q: seq<DownloadQueueItem>, turns: seq<Turn>) {
    && Ends(turns) >= |q| && AllEnded(turns)
    && (NoSlip(turns) ==>
      && |TurnReports(turns)| == |turns| >= |q|
      && forall i :: 0 <= i < |q| ==>
        && turns[i].item == q[i] && turns[i].fate.Some?
        && TurnReports(turns)[i] == Entry(q[i], turns[i].fate.value))
  }

  lemma NoTurns(w: Naming, trees: seq<SharedFile>, root: string, a: Files, q: seq<DownloadQueueItem>,
                reports: seq<Entry>)
    ensures Journey(w, trees, root, a, [], a) && Behind(q, [], q) && InOrder(q, []) && NoSlip([])
    ensures reports + TurnReports([]) == reports && Downloads([]) == 0
  {
    assert q[0..] == q;
  }

  lemma TurnAdds(turns: seq<Turn>, t: Turn)
    ensures TurnReports(turns + [t]) == TurnReports(turns) + Told(t.item, t.early) + Told(t.item, t.fate)
    ensures Ends(turns + [t]) == Ends(turns) + Weight(t.early) + Weight(t.fate)
    ensures Downloads(turns + [t]) == Downloads(turns) + if GetFileByPath(t.item.path, t.tree).Some? then 1 else 0
    ensures NoSlip(turns + [t]) <==> NoSlip(turns) && t.early.None?
  {
    hide Told, GetFileByPath;
    assert (turns + [t])[..|turns|] == turns;
    assert forall i :: 0 <= i < |turns| ==> (turns + [t])[i] == turns[i];
    assert (turns + [t])[|turns|] == t;
  }

  lemma JourneyOn(w: Naming, trees: seq<SharedFile>, root: string, a: Files, turns: seq<Turn>, t: Turn)
    requires Journey(w, trees, root, a, turns, t.a) && TurnOk(w, t) && t.tree in trees && t.root == root
    ensures Journey(w, trees, root, a, turns + [t], t.b)
  {
    hide TurnOk;
  }

  lemma BehindOn(q: seq<DownloadQueueItem>, turns: seq<Turn>, t: Turn, a: Ledger, b: Ledger)
    requires Behind(q, turns, a.core.queue) && a.core.queue != [] && t.item == a.core.queue[0]
    requires ItemProgress(a, b, t.item, t.early, t.fate) && t.stopped == b.core.stop
    requires t.ok && !t.stopped ==> t.fate.Some?
    ensures InOrder(q, turns + [t])
    ensures t.ok && !t.stopped ==> Behind(q, turns + [t], b.core.queue)
  {
    hide Told, Ends, TurnReports;
    TurnAdds(turns, t);
    var all := turns + [t];
    forall i | 0 <= i < |all| && Ends(all[..i]) < |q|
      ensures all[i].item == q[Ends(all[..i])]
    {
      assert all[..i] == turns[..i];
      if i == |turns| {
        assert turns[..i] == turns;
        assert q[Ends(turns)..][0] == a.core.queue[0];
      }
    }
    var ends := Weight(t.early) + Weight(t.fate);
    if !t.stopped && Ends(turns) + ends <= |q| {
      assert q[Ends(turns)..][ends..] == q[Ends(turns) + ends..];
    }
  }

  /** An item slips only if the listing puts a file below a directory of its own path. */
  lemma SlipsOnlyThere(w: Naming, t: Turn)
    requires TurnOk(w, t) && NoOwnFiles(t.tree)
    ensures t.early.None?
  {
    hide Among, Leaves, NoOwnFiles, ItemEnded, GetFileByPath;
    var found := GetFileByPath(t.item.path, t.tree);
    if t.early.Some? {
      FoundIsNode(t.item.path, t.tree);
      SlipsByOwnFile(w, t.item.path, t.tree, t.root);
      assert false;
    }
  }

  /** One turn more. */
  lemma OneMoreTurn(w: Naming, tree: SharedFile, root: string, start: Files, turns: seq<Turn>, t: Turn,
                    q: seq<DownloadQueueItem>, a: Ledger, b: Ledger, reports: seq<Entry>)
    requires Journey(w, [tree], root, start, turns, t.a) && TurnOk(w, t) && t.tree == tree && t.root == root
    requires Behind(q, turns, a.core.queue) && a.core.queue != [] && t.item == a.core.queue[0]
    requires ItemProgress(a, b, t.item, t.early, t.fate) && t.stopped == b.core.stop
    requires a.reports == reports + TurnReports(turns)
    ensures Journey(w, [tree], root, start, turns + [t], t.b)
    ensures InOrder(q, turns + [t]) && (t.ok && !t.stopped ==> Behind(q, turns + [t], b.core.queue))
    ensures b.reports == reports + TurnReports(turns + [t]) && b.looks >= a.looks && b.worked == a.worked
    ensures b.slipped == (a.slipped || t.early.Some?) && (NoSlip(turns + [t]) <==> NoSlip(turns) && t.early.None?)
    ensures NoOwnFiles(tree) ==> t.early.None?
    ensures Downloads(turns + [t]) == Downloads(turns) + if GetFileByPath(t.item.path, tree).Some? then 1 else 0
    ensures b.load + Weight(t.fate) <= a.load && (t.ok && !t.stopped ==> t.fate.Some?)
  {
    hide Journey, InOrder, Behind, Told, TurnReports, Downloads, NoSlip, Ends, ItemEnded, NoOwnFiles;
    TurnAdds(turns, t);
    JourneyOn(w, [tree], root, start, turns, t);
    BehindOn(q, turns, t, a, b);
    if NoOwnFiles(tree) {
      SlipsOnlyThere(w, t);
    }
  }

  lemma {:induction false} TurnReportsAppend(turns: seq<Turn>, more: seq<Turn>)
    ensures TurnReports(turns + more) == TurnReports(turns) + TurnReports(more)
  {
    hide Told;
    if more == [] {
      assert turns + more == turns;
    } else {
      assert (turns + more)[..|turns + more| - 1] == turns + more[..|more| - 1];
      TurnReportsAppend(turns, more[..|more| - 1]);
    }
  }

  /** The turns with the listings from `first` to `second`, and then those with the ones after it. */
  lemma MoreTurns(w: Naming, first: seq<SharedFile>, second: seq<SharedFile>, third: seq<SharedFile>, root: string,
                  a: Files, turns: seq<Turn>, b: Files, more: seq<Turn>, c: Files)
    requires first <= second <= third
    requires Journey(w, second[|first|..], root, a, turns, b) && Journey(w, third[|second|..], root, b, more, c)
    ensures Journey(w, third[|first|..], root, a, turns + more, c)
    ensures TurnReports(turns + more) == TurnReports(turns) + TurnReports(more)
  {
    hide TurnOk, TurnReports;
    TurnReportsAppend(turns, more);
    assert third[|first|..] == second[|first|..] + third[|second|..];
    var all := turns + more;
    assert forall i :: 0 <= i < |all| ==> all[i] == if i < |turns| then turns[i] else more[i - |turns|];
  }

  lemma AppendedTwice(a: seq<Entry>, b: seq<Entry>, c: seq<Entry>)
    ensures a + b + c == a + (b + c)
  {
  }

  lemma StillBehind(q: seq<DownloadQueueItem>, turns: seq<Turn>, now: seq<DownloadQueueItem>,
                    more: seq<DownloadQueueItem>)
    requires Behind(q, turns, now) && now <= more
    ensures Behind(q, turns, more)
  {
  }

  lemma {:induction false} ReportedInTurn(turns: seq<Turn>, i: nat)
    requires NoSlip(turns) && i < |turns|
    requires forall k :: 0 <= k < |turns| ==> turns[k].fate.Some?
    ensures |TurnReports(turns)| == |turns| == Ends(turns) && Ends(turns[..i]) == i
    ensures TurnReports(turns)[i] == Entry(turns[i].item, turns[i].fate.value)
    decreases |turns|
  {
    var init := turns[..|turns| - 1];
    if init == [] {
      assert turns[..i] == [];
    } else {
      ReportedInTurn(init, if i < |init| then i else 0);
      assert turns[..i] == if i < |init| then init[..i] else init;
    }
  }

  lemma NothingBehind(q: seq<DownloadQueueItem>, turns: seq<Turn>)
    requires Behind(q, turns, [])
    ensures InOrder(q, turns) && AllTaken(q, turns)
  {
    hide Told;
    if NoSlip(turns) && turns != [] {
      forall i | 0 <= i < |turns|
        ensures |TurnReports(turns)| == |turns| == Ends(turns) && Ends(turns[..i]) == i
        ensures TurnReports(turns)[i] == Entry(turns[i].item, turns[i].fate.value)
      {
        ReportedInTurn(turns, i);
      }
      assert TurnReports(turns)[0] == Entry(turns[0].item, turns[0].fate.value);
    }
  }

  /** This is the destination of a file of the turn's item, as its listing has it. */
  ghost predicate Touches(w: Naming, t: Turn, p: string) {
    var found := GetFileByPath(t.item.path, t.tree);
    found.Some? && GoesTo(Leaves(w, found.value, t.root), p)
  }

  /** This is the destination of a file of a node of one of these listings. */
  ghost predicate Listed(w: Naming, trees: seq<SharedFile>, root: string, p: string) {
    exists t, f :: t in trees && f in Preorder(t) && GoesTo(Leaves(w, f, root), p)
  }

  ghost predicate Changed(a: Disk, b: Disk, p: string) {
    p in b && (p !in a || a[p] != b[p])
  }

  ghost predicate OnlyGrew(a: Disk, b: Disk) {
    forall p :: p in a ==> p in b && a[p] <= b[p]
  }

  /** The files of a tree go below the directory that it goes to. */
  lemma {:induction false} LeavesLieBelow(w: Naming, f: SharedFile, dir: string, p: string)
    requires GoesTo(Leaves(w, f, dir), p)
    ensures dir <= p
    decreases f, 1
  {
    if f.isDirectory {
      AllLeavesLieBelow(w, f.files, SubDir(w, f, dir), p);
      assert dir <= SubDir(w, f, dir);
    }
  }

  lemma {:induction false} AllLeavesLieBelow(w: Naming, files: seq<SharedFile>, dir: string, p: string)
    requires GoesTo(AllLeaves(w, files, dir), p)
    ensures dir <= p
    decreases files, 0
  {
    hide Leaves;
    assert files != [];
    var init, last := files[..|files| - 1], files[|files| - 1];
    var ls, more := AllLeaves(w, init, dir), Leaves(w, last, dir);
    var all := AllLeaves(w, files, dir);
    var i :| 0 <= i < |all| && all[i].dest == p;
    if i < |ls| {
      assert GoesTo(ls, p) by { assert ls[i].dest == p; }
      AllLeavesLieBelow(w, init, dir, p);
    } else {
      assert GoesTo(more, p) by { assert more[i - |ls|].dest == p; }
      LeavesLieBelow(w, last, dir, p);
    }
  }

  /** What one turn does to the disk. */
  lemma TurnTouches(w: Naming, t: Turn)
    requires TurnOk(w, t)
    ensures OnlyGrew(t.a.disk, t.b.disk)
    ensures forall p :: Changed(t.a.disk, t.b.disk, p) ==> Touches(w, t, p)
  {
    hide LeafEnded, TreeEnded, Leaves, GetFileByPath, Explained, Among, Distinct, GoesTo;
  }

  lemma TouchedIsListed(w: Naming, t: Turn, p: string)
    requires Touches(w, t, p)
    ensures t.root <= p && GetFileByPath(t.item.path, t.tree).value in Preorder(t.tree)
  {
    hide Leaves, GetFileByPath;
    var f := GetFileByPath(t.item.path, t.tree).value;
    LeavesLieBelow(w, f, t.root, p);
    FoundIsNode(t.item.path, t.tree);
  }

  /**
   The frame of the downloads: files only grow at their end, and those that are new or have grown
   are destinations of the items that were taken, as the listing had them. All of these are below the
   download directory.
   */
  lemma {:induction false} OnlyTheirFiles(w: Naming, trees: seq<SharedFile>, root: string, a: Files, turns: seq<Turn>,
                                          b: Files)
    requires Journey(w, trees, root, a, turns, b)
    ensures OnlyGrew(a.disk, b.disk)
    ensures forall p :: Changed(a.disk, b.disk, p) ==> exists i :: 0 <= i < |turns| && Touches(w, turns[i], p)
    ensures forall p :: Changed(a.disk, b.disk, p) ==> root <= p && Listed(w, trees, root, p)
    decreases |turns|
  {
    hide TurnOk, Touches;
    if turns != [] {
      var init, t := turns[..|turns| - 1], turns[|turns| - 1];
      OnlyTheirFiles(w, trees, root, a, init, t.a);
      TurnTouches(w, t);
      forall p | Changed(a.disk, b.disk, p)
        ensures exists i :: 0 <= i < |turns| && Touches(w, turns[i], p)
        ensures root <= p && Listed(w, trees, root, p)
      {
        if Changed(t.a.disk, t.b.disk, p) {
          assert Touches(w, turns[|turns| - 1], p);
          TouchedIsListed(w, t, p);
          ListedOnce(w, trees, root, t, p);
        } else {
          assert Changed(a.disk, t.a.disk, p);
          var i :| 0 <= i < |init| && Touches(w, init[i], p);
          assert Touches(w, turns[i], p);
        }
      }
    }
  }

  lemma ListedOnce(w: Naming, trees: seq<SharedFile>, root: string, t: Turn, p: string)
    requires Touches(w, t, p) && t.tree in trees && t.root == root
    requires GetFileByPath(t.item.path, t.tree).value in Preorder(t.tree)
    ensures Listed(w, trees, root, p)
  {
    hide Leaves, GetFileByPath, Preorder, GoesTo;
  }

  lemma JourneyFrom(w: Naming, trees: seq<SharedFile>, root: string, a: Files, turns: seq<Turn>, b: Files, i: nat)
    requires Journey(w, trees, root, a, turns, b) && i < |turns|
    ensures Journey(w, trees, root, turns[i].b, turns[i + 1..], b) && TurnOk(w, turns[i])
  {
    hide TurnOk;
  }

  /**
   The progress of the downloads: an item that was reported as completed was in the listing, and unless it is
   a directory with a file of its own path or two of its files go to one place, all its files are there
   since: a file with the size that was queued, and the files of a directory with their listed sizes, or
   longer where they were too long before.
   */
  lemma CompletedIsThere(w: Naming, trees: seq<SharedFile>, root: string, a: Files, turns: seq<Turn>, b: Files, i: nat)
    requires Journey(w, trees, root, a, turns, b) && i < |turns| && turns[i].fate == Some(Completed)
    ensures var t := turns[i];
      var found := GetFileByPath(t.item.path, t.tree);
      && found.Some?
      && var f, ls := found.value, Leaves(w, found.value, root);
      && (Distinct(ls) && !(f.isDirectory && Among(ls, f.path)) ==>
        && Complete(t.a.disk, t.b.disk, ls)
        && forall k :: 0 <= k < |ls| ==>
          && Len(t.b.disk, ls[k].dest) >= ls[k].size && ls[k].dest in b.disk
          && t.b.disk[ls[k].dest] <= b.disk[ls[k].dest])
      && (!f.isDirectory ==> |ls| == 1 && Len(t.b.disk, ls[0].dest) == f.fileSize == t.item.fileSize)
  {
    hide Leaves, GetFileByPath, Explained, Among, Preorder, Listed, Touches, Grew, Accounted, Tally;
    var t := turns[i];
    JourneyFrom(w, trees, root, a, turns, b, i);
    OnlyTheirFiles(w, trees, root, t.b, turns[i + 1..], b);
    var f := GetFileByPath(t.item.path, t.tree).value;
    FoundIsNode(t.item.path, t.tree);
    if !f.isDirectory {
      OneLeaf(w, f, root);
    }
  }

  /**
   An item that is a file and was not interrupted: it is completed exactly if the file has the size that
   was queued and that is there now; otherwise its listed size has changed, or there was more of it already.
   */
  lemma FileTurn(w: Naming, t: Turn)
    requires TurnOk(w, t) && t.ok && !t.stopped
    requires GetFileByPath(t.item.path, t.tree).Some? && !GetFileByPath(t.item.path, t.tree).value.isDirectory
    ensures var f := GetFileByPath(t.item.path, t.tree).value;
      var now := Len(t.b.disk, LeafOf(w, f, t.root).dest);
      && (t.fate == Some(Completed) <==> f.fileSize == t.item.fileSize == now)
      && (t.fate == Some(Invalid(SizeChanged)) <==> f.fileSize != t.item.fileSize)
      && (t.fate == Some(Invalid(TooLarge)) <==> f.fileSize == t.item.fileSize < now)
  {
    hide GetFileByPath, Explained, Accounted, Among, Tally;
    var f := GetFileByPath(t.item.path, t.tree).value;
    var leaf := LeafOf(w, f, t.root);
    FoundIsNode(t.item.path, t.tree);
    OneLeaf(w, f, t.root);
    assert t.a.fetched <= t.b.fetched;
    if t.fate == Some(Completed) {
      assert Complete(t.a.disk, t.b.disk, [leaf]);
      assert [leaf][0] == leaf;
    } else {
      GrownLength(t.a.disk, t.b.disk, leaf);
    }
  }

  lemma GrownLength(a: Disk, b: Disk, leaf: Leaf)
    requires Grew(a, b, [leaf])
    ensures Len(b, leaf.dest) >= Len(a, leaf.dest)
  {
  }

  lemma OneLeaf(w: Naming, f: SharedFile, root: string)
    requires !f.isDirectory
    ensures Leaves(w, f, root) == [LeafOf(w, f, root)] && Distinct(Leaves(w, f, root))
  {
  }

  /**
   Directory conservation: if destinations are distinct, none of them is longer than listed, and
   the queued size covers the listed sizes, then the directory is never given up as too large, and
   at completion every file has exactly its listed length. What the peer sends decides the rest:
   while no fetch gets more of a file than is listed, no destination becomes longer than listed, and
   the counter stays within the queued size.
   */
  lemma DirectoryConservation(w: Naming, f: SharedFile, root: string, a: Files, b: Files, item: DownloadQueueItem,
                              ok: bool, stopped: bool, fate: Option<Fate>, done: nat)
    requires ItemEnded(Leaves(w, f, root), f.isDirectory, a, b, item, ok, stopped, fate, done)
    requires Distinct(Leaves(w, f, root)) && NoneTooLong(a.disk, Leaves(w, f, root))
    requires f.isDirectory && !Among(Leaves(w, f, root), item.path) && LeafSum(f) <= item.fileSize
    ensures ok && !stopped ==> fate == Some(Completed)
    ensures !(ok && !stopped) ==> fate.None?
    ensures fate == Some(Completed) ==>
      forall i :: 0 <= i < |Leaves(w, f, root)| ==>
        Len(b.disk, Leaves(w, f, root)[i].dest) == Leaves(w, f, root)[i].size
    ensures fate == Some(Completed) ==> b.bytes == LeafSum(f)
    ensures (forall k :: |a.fetched| <= k < |b.fetched| ==> Within(b.fetched[k])) ==>
      NoneTooLong(b.disk, Leaves(w, f, root)) && b.bytes <= item.fileSize
  {
    hide Leaves, Grew, LeafEnded, Distinct, LeafSum, Tally, DownloadTrees.Sizes, Among, Explained, Within;
    var ls := Leaves(w, f, root);
    TallyIsSizes(a.disk, ls);
    LeavesSum(w, f, root);
    if fate == Some(Completed) {
      assert ls[..|ls|] == ls;
    }
    if forall k :: |a.fetched| <= k < |b.fetched| ==> Within(b.fetched[k]) {
      StillWithin(a.disk, b.disk, ls, b.fetched, |a.fetched|);
      NeverExceeds(a.disk, b.disk, ls, 0, b.bytes, done);
    }
  }

  /** This fetch has got no more of its file than is listed. */
  ghost predicate Within(x: Fetch) {
    x.cipher.Valid() && |x.have| < x.leaf.size ==> |Outcome(x).have| <= x.leaf.size
  }

  lemma StillWithin(before: Disk, after: Disk, ls: seq<Leaf>, fetched: seq<Fetch>, since: nat)
    requires Explained(before, after, ls, fetched, since) && NoneTooLong(before, ls)
    requires forall k :: since <= k < |fetched| ==> Within(fetched[k])
    ensures NoneTooLong(after, ls)
  {
    hide Outcome;
  }

  /** What one round does to an item that is in the listing, and to the disk. */
  ghost predicate ItemEnded(ls: seq<Leaf>, directory: bool, a: Files, b: Files, item: DownloadQueueItem,
                            ok: bool, stopped: bool, fate: Option<Fate>, done: nat) {
    && Grew(a.disk, b.disk, ls) && a.fetched <= b.fetched
    && (Distinct(ls) ==> Explained(a.disk, b.disk, ls, b.fetched, |a.fetched|))
    && (!directory ==> |ls| == 1 && LeafEnded(a.disk, ls[0], item, 0, ok, stopped, fate))
    && (!directory || !Among(ls, item.path) ==> TreeEnded(a.disk, b.disk, ls, item, 0, b.bytes, done, fate))
    && (directory && !Among(ls, item.path) ==>
      && (ok && !stopped ==> fate == Some(Completed) && (Distinct(ls) ==> done == |ls|))
      && (ok && stopped ==> fate.None?)
      && (!ok ==> fate.None? || fate == Some(Invalid(DirectoryTooLarge))))
  }

  lemma NothingEnded(w: Naming, f: SharedFile, root: string, a: Files, item: DownloadQueueItem, stopped: bool)
    ensures ItemEnded(Leaves(w, f, root), f.isDirectory, a, a.(bytes := 0), item, false, stopped, None, 0)
  {
    hide Grew, TreeEnded, Explained;
    NothingThrough(a.disk, Leaves(w, f, root), item, 0);
    NothingToExplain(a.disk, Leaves(w, f, root), a.fetched, |a.fetched|);
  }

  lemma TreeIsItem(w: Naming, f: SharedFile, root: string, a: Files, b: Files, item: DownloadQueueItem,
                   ok: bool, stopped: bool, fate: Option<Fate>, done: nat)
    requires f.path == item.path
    requires TreeDone(Leaves(w, f, root), f.isDirectory, a.(bytes := 0), b, item, true, ok, stopped, fate, done)
    requires !f.isDirectory ==> LeafEnded(a.disk, LeafOf(w, f, root), item, 0, ok, stopped, fate)
    ensures ItemEnded(Leaves(w, f, root), f.isDirectory, a, b, item, ok, stopped,
                      if f.isDirectory && ok && !stopped then Some(Completed) else fate, done)
    ensures !f.isDirectory && ok && !stopped ==> fate.Some?
    ensures ok && !stopped ==> (fate.Some? <==> Among(Leaves(w, f, root), f.path))
  {
    hide Grew, Accounted, Tally, Distinct, Complete, Among, Explained, AllLeaves;
  }

  lemma FrontIsLegal(c: Core)
    requires c.queue != [] && !c.stop
    ensures forall fate :: Finished(fate) ==> Legal(c, Finish(c.queue[0], fate))
  {
  }

  /**
   How far a tree has come. The directory is given up as too large only if the listed and the
   present sizes really add up to more than was queued.
   */
  ghost predicate TreeEnded(before: Disk, after: Disk, ls: seq<Leaf>, item: DownloadQueueItem,
                            start: nat, bytes: nat, done: nat, fate: Option<Fate>) {
    && (Distinct(ls) ==> Accounted(before, after, ls, start, bytes, done))
    && (Distinct(ls) && fate == Some(Invalid(DirectoryTooLarge)) ==> start + Tally(before, ls) > item.fileSize)
    && (Distinct(ls) && fate == Some(Completed) ==> Complete(before, after, ls))
  }

  /** Every file is through, and the counter has counted all of them. */
  ghost predicate AllDone(before: Disk, after: Disk, ls: seq<Leaf>, done: nat) {
    Distinct(ls) ==> done == |ls| && Complete(before, after, ls)
  }

  /**
   A file is asked for exactly if it is shorter than listed and the size check before lets it
   through: that of the queued size for the item itself, and of the counter for a file below it.
   */
  ghost predicate Wanted(w: Naming, before: Disk, f: SharedFile, dir: string, start: nat,
                         active: Option<DownloadQueueItem>) {
    var leaf := LeafOf(w, f, dir);
    w.nameOf(f.path).Some? && Passes(leaf, Len(before, leaf.dest), start + Len(before, leaf.dest), active)
  }

  predicate Passes(leaf: Leaf, have: nat, bytes: nat, active: Option<DownloadQueueItem>) {
    && active.Some? && have < leaf.size
    && if leaf.path == active.value.path then active.value.fileSize == leaf.size else bytes <= active.value.fileSize
  }

  /** What the app is told by the checks: how the item ended, or that there is too much of a file already. */
  function CheckEvents(leaf: Leaf, item: DownloadQueueItem, skipped: bool, fate: Option<Fate>, have: nat): seq<Event> {
    if fate.Some? then [Ended(item.path, fate.value)]
    else if skipped && have > leaf.size then [SubfileInvalid(leaf.path, TooLarge)]
    else []
  }

  /** Fetch the rest of a file, go on without it, or give up the directory. */
  datatype Check = Ask | Skip | Abort

  function LeafOf(w: Naming, f: SharedFile, dir: string): Leaf {
    Leaf(f.path, dir + NameOr(w, f.path), f.fileSize)
  }

  /** What becomes of a queued file that is not interrupted, given what is on the disk before. */
  function LeafFate(before: Disk, leaf: Leaf, item: DownloadQueueItem): Fate {
    if item.fileSize != leaf.size then Invalid(SizeChanged)
    else if Len(before, leaf.dest) > leaf.size then Invalid(TooLarge)
    else Completed
  }

  ghost predicate LeafEnded(before: Disk, leaf: Leaf, item: DownloadQueueItem, start: nat, ok: bool, stopped: bool,
                            fate: Option<Fate>) {
    && (ok && !stopped && leaf.path == item.path ==> fate == Some(LeafFate(before, leaf, item)))
    && (ok && (stopped || leaf.path != item.path) ==> fate.None?)
    && (ok && leaf.path != item.path ==> start + Len(before, leaf.dest) <= item.fileSize)
    && (!ok ==>
      || fate.None?
      || (fate == Some(Invalid(Disagreement)) && leaf.path == item.path)
      || (fate == Some(Invalid(DirectoryTooLarge)) && leaf.path != item.path
          && start + Len(before, leaf.dest) > item.fileSize))
  }

  /** What is on the disk, the byte counter, and the fetches so far. */
  datatype Files = Files(disk: Disk, bytes: nat, fetched: seq<Fetch>)

  /** What has become of one file. */
  ghost predicate LeafDone(leaf: Leaf, a: Files, b: Files, item: DownloadQueueItem, held: bool,
                           ok: bool, stopped: bool, fate: Option<Fate>, done: nat) {
    && Grew(a.disk, b.disk, [leaf]) && a.fetched <= b.fetched
    && Explained(a.disk, b.disk, [leaf], b.fetched, |a.fetched|)
    && Accounted(a.disk, b.disk, [leaf], a.bytes, b.bytes, done)
    && LeafEnded(a.disk, leaf, item, a.bytes, ok, stopped, fate)
    && (ok ==> held)
    && (ok && !stopped && leaf.path != item.path ==> done == 1)
    && ((ok && !stopped && leaf.path != item.path) || fate == Some(Completed) ==> Complete(a.disk, b.disk, [leaf]))
  }

  /**
   What has become of the files of a tree, `done` of which are through. `held` says that an item was
   active when it began. The item itself can only end with a file of its own path, or when the
   directory is too large.
   */
  ghost predicate TreeDone(ls: seq<Leaf>, directory: bool, a: Files, b: Files, item: DownloadQueueItem, held: bool,
                           ok: bool, stopped: bool, fate: Option<Fate>, done: nat) {
    && Grew(a.disk, b.disk, ls) && a.fetched <= b.fetched
    && (Distinct(ls) ==> Explained(a.disk, b.disk, ls, b.fetched, |a.fetched|))
    && (ok && !stopped && held ==> (fate.Some? <==> Among(ls, item.path)))
    && (!directory || !Among(ls, item.path) ==> TreeEnded(a.disk, b.disk, ls, item, a.bytes, b.bytes, done, fate))
    && (!Among(ls, item.path) ==>
      && (fate.None? || (!ok && fate == Some(Invalid(DirectoryTooLarge))))
      && (ok && !stopped ==> AllDone(a.disk, b.disk, ls, done)))
  }

  lemma LeafNotDone(leaf: Leaf, a: Files, item: DownloadQueueItem, held: bool, stopped: bool)
    ensures LeafDone(leaf, a, a, item, held, false, stopped, None, 0)
  {
    GrewNot(a.disk, [leaf]);
    NothingYet(a.disk, leaf, a.bytes);
  }

  lemma CheckedIsDone(leaf: Leaf, a: Files, b: Files, item: DownloadQueueItem, held: bool, ok: bool, fate: Option<Fate>)
    requires Grew(a.disk, b.disk, [leaf]) && Len(b.disk, leaf.dest) == Len(a.disk, leaf.dest) && b.fetched == a.fetched
    requires b.bytes == a.bytes + Len(a.disk, leaf.dest)
    requires LeafEnded(a.disk, leaf, item, a.bytes, ok, false, fate) && (ok ==> held)
    requires (ok && leaf.path != item.path) || fate == Some(Completed) ==> Complete(a.disk, b.disk, [leaf])
    ensures LeafDone(leaf, a, b, item, held, ok, false, fate, if ok && leaf.path != item.path then 1 else 0)
  {
    hide Grew, Complete, Explained, Accounted, LeafEnded;
    SameLength(a.disk, b.disk, leaf, b.fetched, |a.fetched|);
    LeafAccount(a.disk, b.disk, leaf, a.bytes, b.bytes, if ok && leaf.path != item.path then 1 else 0);
  }

  lemma FetchedIsDone(leaf: Leaf, a: Files, b: Files, item: DownloadQueueItem, f: SharedFile,
                      ok: bool, stopped: bool, fate: Option<Fate>)
    requires Extended(a.(bytes := a.bytes + Len(a.disk, leaf.dest)), b, leaf) && a.fetched <= b.fetched
    requires Explained(a.disk, b.disk, [leaf], b.fetched, |a.fetched|)
    requires f.path == leaf.path && FileEnded(f, item, ok, stopped, fate)
    requires Passes(leaf, Len(a.disk, leaf.dest), a.bytes + Len(a.disk, leaf.dest), Some(item))
    requires ok && !stopped ==> leaf.dest in b.disk && |b.disk[leaf.dest]| == leaf.size
    ensures LeafDone(leaf, a, b, item, true, ok, stopped, fate,
                     if ok && !stopped && leaf.path != item.path then 1 else 0)
  {
    hide Grew, Complete, Explained, Accounted;
    if ok && !stopped {
      FetchedIsThrough(a.disk, b.disk, leaf);
    }
    LeafAccount(a.disk, b.disk, leaf, a.bytes, b.bytes, if ok && !stopped && leaf.path != item.path then 1 else 0);
  }

  /** The loop over a directory's files has come to the end of these. */
  ghost predicate Midway(all: seq<Leaf>, ls: seq<Leaf>, a: Files, b: Files, item: DownloadQueueItem, held: bool,
                         fate: Option<Fate>) {
    && Grew(a.disk, b.disk, all) && a.fetched <= b.fetched
    && (Distinct(all) ==> Explained(a.disk, b.disk, all, b.fetched, |a.fetched|))
    && (held ==> (fate.Some? <==> Among(ls, item.path)))
    && (!Among(all, item.path) ==> fate.None? && OnTheWay(a.disk, b.disk, all, ls, a.bytes, b.bytes))
  }

  lemma MidwayStarts(all: seq<Leaf>, a: Files, item: DownloadQueueItem, held: bool)
    ensures Midway(all, [], a, a, item, held, None)
  {
    hide Grew, OnTheWay, Explained, Among;
    NothingThrough(a.disk, all, item, a.bytes);
    NothingToExplain(a.disk, all, a.fetched, |a.fetched|);
    AmongNone(item.path);
  }

  lemma NothingDone(all: seq<Leaf>, a: Files, item: DownloadQueueItem, held: bool, stopped: bool)
    ensures TreeDone(all, true, a, a, item, held, false, stopped, None, 0)
  {
    hide Grew, TreeEnded, Explained, Among;
    NothingThrough(a.disk, all, item, a.bytes);
    NothingToExplain(a.disk, all, a.fetched, |a.fetched|);
  }

  /** The loop ends after this part, because of an error or a stop. */
  lemma MidwayStops(all: seq<Leaf>, ls: seq<Leaf>, part: seq<Leaf>, rest: seq<Leaf>, a: Files, b: Files, c: Files,
                    directory: bool, item: DownloadQueueItem, held: bool, ended: bool, halted: bool,
                    fate: Option<Fate>, here: Option<Fate>, through: nat, ok: bool, stopped: bool)
    requires all == ls + part + rest && Midway(all, ls, a, b, item, held, fate)
    requires TreeDone(part, directory, b, c, item, held && fate.None?, ended, halted, here, through)
    requires (ok ==> ended) && (!ok || stopped)
    ensures TreeDone(all, true, a, c, item, held, ok, stopped, Either(fate, here), |ls| + through)
  {
    hide Grew, OnTheWay, Explained, Among, TreeEnded, AllDone, Distinct;
    AmongParts(ls, part, rest, item.path);
    GrewWithin(a.disk, b.disk, c.disk, all, ls, part, rest);
    ExplainedMore(a.disk, b.disk, c.disk, all, ls, part, rest, |a.fetched|, b.fetched, c.fetched);
    if !Among(all, item.path) {
      OneMoreFile(a.disk, b.disk, c.disk, all, ls, part, rest, item, a.bytes, b.bytes, c.bytes, through, here);
    }
  }

  lemma MidwayGoesOn(all: seq<Leaf>, ls: seq<Leaf>, part: seq<Leaf>, rest: seq<Leaf>, a: Files, b: Files, c: Files,
                     directory: bool, item: DownloadQueueItem, held: bool, fate: Option<Fate>, here: Option<Fate>,
                     through: nat)
    requires all == ls + part + rest && Midway(all, ls, a, b, item, held, fate)
    requires TreeDone(part, directory, b, c, item, held && fate.None?, true, false, here, through)
    ensures Midway(all, ls + part, a, c, item, held, Either(fate, here))
  {
    hide Grew, OnTheWay, Explained, Among, TreeEnded, AllDone, Distinct;
    AmongParts(ls, part, rest, item.path);
    GrewWithin(a.disk, b.disk, c.disk, all, ls, part, rest);
    ExplainedMore(a.disk, b.disk, c.disk, all, ls, part, rest, |a.fetched|, b.fetched, c.fetched);
    if !Among(all, item.path) {
      OneMoreThrough(a.disk, b.disk, c.disk, all, ls, part, rest, item, a.bytes, b.bytes, c.bytes, through);
    }
  }

  lemma MidwayEnds(all: seq<Leaf>, a: Files, b: Files, item: DownloadQueueItem, held: bool, fate: Option<Fate>)
    requires Midway(all, all, a, b, item, held, fate)
    ensures TreeDone(all, true, a, b, item, held, true, false, fate, |all|)
  {
    hide Grew, OnTheWay, Explained, Among, TreeEnded, AllDone, Distinct;
    if !Among(all, item.path) {
      AllThrough(a.disk, b.disk, all, item, a.bytes, b.bytes);
    }
  }

  /** The files of a tree up to here are through, and the counter stands at them. */
  ghost predicate OnTheWay(before: Disk, now: Disk, all: seq<Leaf>, ls: seq<Leaf>, start: nat, bytes: nat) {
    && ls <= all && Grew(before, now, ls)
    && (Distinct(all) ==> Complete(before, now, ls) && bytes == start + Tally(before, ls))
  }

  lemma NothingThrough(d: Disk, all: seq<Leaf>, item: DownloadQueueItem, start: nat)
    ensures Grew(d, d, all) && OnTheWay(d, d, all, [], start, start)
    ensures TreeEnded(d, d, all, item, start, start, 0, None)
  {
    GrewNot(d, all);
    GrewNot(d, []);
    assert all[..0] == [];
  }

  lemma DirectoryLeaves(w: Naming, f: SharedFile, dir: string)
    requires f.isDirectory
    ensures Leaves(w, f, dir) == AllLeaves(w, f.files, dir + NameOr(w, f.path) + [w.separator])
    ensures AllLeaves(w, f.files[..0], dir + NameOr(w, f.path) + [w.separator]) == []
  {
  }

  /** More of the same files. */
  lemma GrewWithin(a: Disk, b: Disk, c: Disk, all: seq<Leaf>, ls: seq<Leaf>, part: seq<Leaf>, rest: seq<Leaf>)
    requires all == ls + part + rest && Grew(a, b, all) && Grew(b, c, part)
    ensures Grew(a, c, all)
  {
    forall p | p in c && !GoesTo(all, p)
      ensures p in a && c[p] == a[p]
    {
      assert forall i :: 0 <= i < |part| ==> all[|ls| + i] == part[i];
      assert !GoesTo(part, p);
    }
  }

  lemma NothingToExplain(d: Disk, ls: seq<Leaf>, fetched: seq<Fetch>, since: nat)
    ensures Explained(d, d, ls, fetched, since)
  {
  }

  lemma SameLength(before: Disk, after: Disk, leaf: Leaf, fetched: seq<Fetch>, since: nat)
    requires Len(after, leaf.dest) == Len(before, leaf.dest)
    ensures Explained(before, after, [leaf], fetched, since)
  {
  }

  lemma FetchExplains(before: Disk, after: Disk, x: Fetch, ok: bool, stopped: bool, fetched: seq<Fetch>, since: nat)
    requires x.cipher.Valid() && |x.have| < x.leaf.size && x.leaf.dest in after
    requires AsFetched(Outcome(x), ok, stopped, after[x.leaf.dest])
    requires since < |fetched| && fetched[|fetched| - 1] == x
    ensures Explained(before, after, [x.leaf], fetched, since)
  {
    hide Outcome;
    assert Left(fetched[|fetched| - 1], x.leaf, after);
  }

  /** Each part's fetches explain its files, and the others are as they were. */
  lemma ExplainedMore(a: Disk, b: Disk, c: Disk, all: seq<Leaf>, ls: seq<Leaf>, part: seq<Leaf>, rest: seq<Leaf>,
                      since: nat, first: seq<Fetch>, fetched: seq<Fetch>)
    requires all == ls + part + rest && Grew(b, c, part) && first <= fetched && since <= |first|
    requires Distinct(all) ==> Explained(a, b, all, first, since)
    requires Distinct(part) ==> Explained(b, c, part, fetched, |first|)
    ensures Distinct(all) ==> Explained(a, c, all, fetched, since)
  {
    hide Outcome;
    if Distinct(all) {
      DistinctParts(ls + part, rest);
      DistinctParts(ls, part);
      forall i | 0 <= i < |all|
        ensures || Len(c, all[i].dest) == Len(a, all[i].dest)
                || exists k :: since <= k < |fetched| && Left(fetched[k], all[i], c)
      {
        ExplainedFile(a, b, c, all, ls, part, rest, since, first, fetched, i);
      }
    }
  }

  lemma ExplainedFile(a: Disk, b: Disk, c: Disk, all: seq<Leaf>, ls: seq<Leaf>, part: seq<Leaf>, rest: seq<Leaf>,
                      since: nat, first: seq<Fetch>, fetched: seq<Fetch>, i: nat)
    requires all == ls + part + rest && Grew(b, c, part) && first <= fetched && since <= |first|
    requires Distinct(all) && Explained(a, b, all, first, since) && Explained(b, c, part, fetched, |first|)
    requires i < |all|
    ensures || Len(c, all[i].dest) == Len(a, all[i].dest)
            || exists k :: since <= k < |fetched| && Left(fetched[k], all[i], c)
  {
    hide Outcome, Distinct, Grew;
    var l := all[i];
    var k := i - |ls|;
    if 0 <= k < |part| {
      assert part[k] == l;
    } else {
      Outside(b, c, all, ls, part, rest, i);
    }
    if Len(c, l.dest) == Len(b, l.dest) != Len(a, l.dest) {
      var j :| since <= j < |first| && Left(first[j], l, b);
      assert Left(fetched[j], l, c);
    }
  }

  /** The files that are not of this part do not change with it. */
  lemma Outside(b: Disk, c: Disk, all: seq<Leaf>, ls: seq<Leaf>, part: seq<Leaf>, rest: seq<Leaf>, i: nat)
    requires all == ls + part + rest && Grew(b, c, part) && Distinct(all)
    requires i < |all| && !(|ls| <= i < |ls| + |part|)
    ensures Len(c, all[i].dest) == Len(b, all[i].dest)
  {
    assert forall j :: 0 <= j < |part| ==> all[|ls| + j] == part[j];
    assert !GoesTo(part, all[i].dest);
  }

  /** One file or subdirectory more, however it ended. */
  lemma OneMoreFile(a: Disk, b: Disk, c: Disk, all: seq<Leaf>, ls: seq<Leaf>, part: seq<Leaf>, rest: seq<Leaf>,
                    item: DownloadQueueItem,
                    start: nat, mid: nat, bytes: nat, done: nat, fate: Option<Fate>)
    requires all == ls + part + rest && fate != Some(Completed)
    requires OnTheWay(a, b, all, ls, start, mid) && Grew(b, c, part)
    requires TreeEnded(b, c, part, item, mid, bytes, done, fate)
    ensures Grew(a, c, all)
    ensures TreeEnded(a, c, all, item, start, bytes, |ls| + done, fate)
  {
    hide Grew, Accounted, Complete, Tally, Distinct;
    GrewMore(a, b, c, ls, part);
    GrewWider(a, c, ls + part, rest);
    if Distinct(all) {
      DistinctParts(ls + part, rest);
      DistinctParts(ls, part);
      AccountedOn(a, b, c, ls, part, rest, start, bytes, done);
      TallyOfUntouched(a, b, ls, part);
      TallyAppend(a, ls, part);
      TallyAppend(a, ls + part, rest);
    }
  }

  /** One more that is through. */
  lemma OneMoreThrough(a: Disk, b: Disk, c: Disk, all: seq<Leaf>, ls: seq<Leaf>, part: seq<Leaf>, rest: seq<Leaf>,
                       item: DownloadQueueItem,
                       start: nat, mid: nat, bytes: nat, done: nat)
    requires all == ls + part + rest
    requires OnTheWay(a, b, all, ls, start, mid) && Grew(b, c, part)
    requires TreeEnded(b, c, part, item, mid, bytes, done, None) && AllDone(b, c, part, done)
    ensures OnTheWay(a, c, all, ls + part, start, bytes)
  {
    hide Grew, Complete, Tally, Distinct;
    GrewMore(a, b, c, ls, part);
    if Distinct(all) {
      DistinctParts(ls + part, rest);
      DistinctParts(ls, part);
      CompleteMore(a, b, c, ls, part);
      TallyOfUntouched(a, b, ls, part);
      TallyAppend(a, ls, part);
      assert part[..|part|] == part;
    }
  }

  lemma AllThrough(before: Disk, now: Disk, all: seq<Leaf>, item: DownloadQueueItem, start: nat, bytes: nat)
    requires OnTheWay(before, now, all, all, start, bytes)
    ensures Grew(before, now, all) && AllDone(before, now, all, |all|)
    ensures TreeEnded(before, now, all, item, start, bytes, |all|, None)
  {
    assert all[..|all|] == all;
  }

  lemma LeafIsTree(leaf: Leaf, a: Files, b: Files, item: DownloadQueueItem, held: bool,
                   ok: bool, stopped: bool, fate: Option<Fate>, done: nat)
    requires LeafDone(leaf, a, b, item, held, ok, stopped, fate, done)
    ensures TreeDone([leaf], false, a, b, item, held, ok, stopped, fate, done)
    ensures LeafEnded(a.disk, leaf, item, a.bytes, ok, stopped, fate)
  {
    hide Grew, Explained;
    AmongOne(leaf, item.path);
    assert [leaf][..0] == [];
    assert [leaf][0] == leaf;
    assert Tally(a.disk, [leaf]) == Through(a.disk, leaf);
  }

  lemma NothingYet(d: Disk, leaf: Leaf, start: nat)
    ensures Accounted(d, d, [leaf], start, start, 0)
  {
    assert [leaf][..0] == [];
  }

  lemma LeafAccount(before: Disk, after: Disk, leaf: Leaf, start: nat, bytes: nat, done: nat)
    requires bytes == start + Len(after, leaf.dest)
    requires done == 0 || (done == 1 && Complete(before, after, [leaf]))
    ensures Accounted(before, after, [leaf], start, bytes, done)
  {
    assert [leaf][..0] == [];
    assert [leaf][..1] == [leaf];
    assert [leaf][0] == leaf;
  }

  lemma LongerIsThrough(d: Disk, leaf: Leaf)
    requires Len(d, leaf.dest) > leaf.size
    ensures Complete(d, d, [leaf])
  {
  }

  lemma FetchedIsThrough(before: Disk, after: Disk, leaf: Leaf)
    requires Len(before, leaf.dest) < leaf.size && leaf.dest in after && |after[leaf.dest]| == leaf.size
    ensures Complete(before, after, [leaf])
  {
  }

  lemma ActiveIs(c: Core, item: DownloadQueueItem)
    requires !c.stop && (Processing(c, item) || (Holding(c, item) && c.active.Some?))
    ensures c.active == Some(item) && c.queue != [] && c.queue[0] == item && Processing(c, item)
    ensures forall fate :: Finished(fate) ==> Legal(c, Finish(item, fate))
  {
  }

  /** How a file ends: as the queue's item it is reported, unless it was interrupted. */
  ghost predicate FileEnded(f: SharedFile, item: DownloadQueueItem, ok: bool, stopped: bool, fate: Option<Fate>) {
    && (ok && !stopped ==> fate == if f.path == item.path then Some(Completed) else None)
    && (ok && stopped ==> fate.None?)
    && (!ok ==> fate.None? || (fate == Some(Invalid(Disagreement)) && f.path == item.path))
  }

  lemma NothingEndedYet(f: SharedFile, item: DownloadQueueItem, stopped: bool)
    ensures FileEnded(f, item, false, stopped, None)
  {
  }

  lemma VerdictsTold(f: SharedFile, item: DownloadQueueItem)
    ensures VerdictEvents(f, item, Unfinished) == []
    ensures f.path == item.path ==>
      && VerdictEvents(f, item, Agreed) == [Ended(item.path, Completed)]
      && VerdictEvents(f, item, Disagreed) == [Ended(item.path, Invalid(Disagreement))]
    ensures f.path != item.path ==>
      && VerdictEvents(f, item, Agreed) == []
      && VerdictEvents(f, item, Disagreed) == [SubfileInvalid(f.path, Disagreement)]
  {
  }

  lemma LastFrame(f: SharedFile, item: DownloadQueueItem, r: Fetched, v: Verdict, have: seq<u8>, fate: Option<Fate>)
    requires r == Fetched(if v.Agreed? then Whole else if v.Disagreed? then Disagreeing else Broken, have)
    requires fate == if f.path != item.path || v.Unreadable? then None
      else if v.Agreed? then Some(Completed) else Some(Invalid(Disagreement))
    ensures AsFetched(r, v.Agreed?, false, have) && FileEnded(f, item, v.Agreed?, false, fate)
    ensures VerdictEvents(f, item, v) == FetchEvents(f, item, r.verdict)
  {
  }

  lemma NoNextFrame(f: SharedFile, item: DownloadQueueItem, r: Fetched, ok: bool, stopped: bool, have: seq<u8>)
    requires r == Fetched(if ok then Interrupted else Broken, have) && (ok ==> stopped)
    ensures AsFetched(r, ok, stopped, have) && FileEnded(f, item, ok, stopped, None)
  {
  }

  lemma NothingSaid(f: SharedFile, item: DownloadQueueItem, events: seq<Event>)
    ensures events + VerdictEvents(f, item, Unfinished) == events
    ensures events + FetchEvents(f, item, Broken) == events && events + FetchEvents(f, item, Interrupted) == events
  {
  }

  predicate IsFileMessage(msg: u16) {
    msg == MSG_FILE_CHUNK || msg == MSG_FILE_FINISHED
  }

  datatype Verdict = Agreed | Disagreed | Unfinished | Unreadable

  /**
   What the app is told when a fetch ends: of the queue's own file how it ended, and of a file of a
   directory only that the two ends disagree.
   */
  function FetchEvents(f: SharedFile, item: DownloadQueueItem, v: FetchVerdict): seq<Event> {
    if v.Whole? && f.path == item.path then [Ended(item.path, Completed)]
    else if v.Disagreeing? then
      [if f.path == item.path then Ended(item.path, Invalid(Disagreement)) else SubfileInvalid(f.path, Disagreement)]
    else []
  }

  function VerdictEvents(f: SharedFile, item: DownloadQueueItem, v: Verdict): seq<Event> {
    FetchEvents(f, item, if v.Agreed? then Whole else if v.Disagreed? then Disagreeing else Broken)
  }

  lemma TellNothing(events: seq<Event>, e: Event)
    requires !e.Ended?
    ensures EndEvents(events + [e]) == EndEvents(events)
  {
    assert (events + [e])[..|events + [e]| - 1] == events;
  }

  lemma GrewByAppend(before: Disk, now: Disk, leaf: Leaf, more: seq<u8>)
    requires leaf.dest in now && Grew(before, now, [leaf])
    ensures Grew(before, now[leaf.dest := now[leaf.dest] + more], [leaf])
  {
    assert [leaf][0].dest == leaf.dest;
  }

  lemma GrewAgain(a: Disk, b: Disk, c: Disk, leaf: Leaf)
    requires Grew(a, b, [leaf]) && Grew(b, c, [leaf])
    ensures Grew(a, c, [leaf])
  {
  }

  /** The destination is opened at its end, or created. */
  function Opened(d: Disk, dest: string): Disk {
    if dest in d then d else d[dest := []]
  }

  /** Only this file has grown, and the counter with it. */
  ghost predicate Extended(a: Files, b: Files, leaf: Leaf) {
    && Grew(a.disk, b.disk, [leaf])
    && b.bytes - Len(b.disk, leaf.dest) == a.bytes - Len(a.disk, leaf.dest)
  }

  lemma ExtendedNot(a: Files, leaf: Leaf)
    ensures Extended(a, a, leaf)
  {
    GrewNot(a.disk, [leaf]);
  }

  lemma ExtendedMore(a: Files, b: Files, c: Files, leaf: Leaf)
    requires Extended(a, b, leaf) && Extended(b, c, leaf)
    ensures Extended(a, c, leaf)
  {
    hide Grew;
    GrewAgain(a.disk, b.disk, c.disk, leaf);
  }

  lemma OpenedExtends(a: Files, b: Files, leaf: Leaf)
    requires b.disk == Opened(a.disk, leaf.dest) && b.bytes == a.bytes
    ensures leaf.dest in b.disk && Extended(a, b, leaf) && b.disk[leaf.dest] == Bytes(a.disk, leaf.dest)
  {
    GrewNot(a.disk, [leaf]);
    if leaf.dest !in a.disk {
      GrewByCreation(a.disk, leaf.path, leaf.dest, leaf.size);
    }
  }

  lemma GrewByCreation(before: Disk, path: string, dest: string, size: nat)
    requires dest !in before
    ensures Grew(before, before[dest := []], [Leaf(path, dest, size)])
  {
    assert [Leaf(path, dest, size)][0].dest == dest;
  }

  lemma NothingPrinted()
    ensures PrintQueue([]) == ""
  {
  }

  lemma HandleAllNone(c: Core)
    ensures HandleAll(c, []) == c
  {
  }

  lemma NothingTold(op: Op)
    requires !op.Finish?
    ensures Reported(op) == []
  {
  }

  lemma {:induction false} TellOneMore(events: seq<Event>, reports: seq<Entry>, item: DownloadQueueItem, fate: Fate)
    requires EndEvents(events) == Tell(reports)
    ensures EndEvents(events + [Ended(item.path, fate)]) == Tell(reports + [Entry(item, fate)])
  {
    var more := events + [Ended(item.path, fate)];
    assert more[..|more| - 1] == events;
    assert EndEvents(more) == EndEvents(events) + [Ended(item.path, fate)];
    assert Tell(reports + [Entry(item, fate)]) == Tell(reports) + [Ended(item.path, fate)];
  }
}
