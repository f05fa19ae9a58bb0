/**
 The queue of one downloader, as a step system: the mailbox messages of `read_receiver`, the start
 and the end of an item, and the reload of the queue file when `run` starts again
 (src/outgoing_downloader.rs). A history remembers what became of every item ever enqueued.
 */
module DownloadQueues {
  import opened Common
  import opened FrameCodec
  import opened QueueFile

  /**
   An established connection: the key, the first message that was read on it if the peer opened it
   in reverse, what it will deliver, and how much it will take.
   */
  datatype Link = Link(cipher: Cipher, hello: Option<u16>, incoming: seq<u8>, room: nat)

  datatype Message =
    | NewDownload(item: DownloadQueueItem)
    | CancelDownload(path: string)
    | CancelAllDownloads
    | PauseDownloads
    | ResumeDownloads
    | RemoveUser
    | NewSharedUser
    | RestartConnection
    | NewConfig
    | NewConnection(link: Link)

  datatype Reason = NoLongerShared | SizeChanged | TooLarge | DirectoryTooLarge | Disagreement

  datatype Fate = Pending | Completed | Invalid(reason: Reason) | Cancelled

  datatype Entry = Entry(item: DownloadQueueItem, fate: Fate)

  /** `deletable`: whether the operating system lets the queue file be removed. */
  datatype Core = Core(queue: seq<DownloadQueueItem>, active: Option<DownloadQueueItem>,
                       stop: bool, paused: bool, shutdown: bool, reverse: Option<Link>,
                       file: Option<string>, deletable: bool, hist: seq<Entry>)

  // ---------------------------------------------------------------- the steps

  /** `write_queue`: an empty queue has no file, so that the next start of the program skips it. */
  function Saved(c: Core): Option<string> {
    if c.queue == [] then (if c.file.None? || c.deletable then None else Some(""))
    else Some(PrintQueue(c.queue))
  }

  function Save(c: Core): Core {
    c.(file := Saved(c))
  }

  /** What a cancellation is about: one path, or everything. */
  predicate Hit(which: Option<string>, path: string) {
    which.None? || which.value == path
  }

  function Without(q: seq<DownloadQueueItem>, which: Option<string>): seq<DownloadQueueItem> {
    if q == [] then []
    else Without(q[..|q| - 1], which) + if Hit(which, q[|q| - 1].path) then [] else [q[|q| - 1]]
  }

  function Cancel(h: seq<Entry>, which: Option<string>): seq<Entry> {
    seq(|h|, i requires 0 <= i < |h| =>
      if h[i].fate.Pending? && Hit(which, h[i].item.path) then h[i].(fate := Cancelled) else h[i])
  }

  function Handle(c: Core, m: Message): Core {
    match m
    case NewDownload(item) =>
      Save(c.(queue := c.queue + [item], hist := c.hist + [Entry(item, Pending)]))
    case CancelDownload(path) =>
      Save(c.(stop := true, queue := Without(c.queue, Some(path)), hist := Cancel(c.hist, Some(path)),
              active := if c.active.Some? && c.active.value.path == path then None else c.active))
    case CancelAllDownloads =>
      Save(c.(stop := true, queue := [], active := None, hist := Cancel(c.hist, None)))
    case RemoveUser =>
      Save(c.(shutdown := true, stop := true, queue := [], active := None, hist := Cancel(c.hist, None)))
    case PauseDownloads => c.(stop := true, paused := true)
    case ResumeDownloads => c.(paused := false)
    case NewSharedUser => c.(stop := true)
    case RestartConnection => c.(stop := true)
    case NewConfig => c.(stop := true)
    case NewConnection(link) => c.(stop := true, reverse := Some(link))
  }

  function HandleAll(c: Core, ms: seq<Message>): Core {
    if ms == [] then c else Handle(HandleAll(c, ms[..|ms| - 1]), ms[|ms| - 1])
  }

  /** The first entry that is still pending gets this fate. */
  function FinishFirst(h: seq<Entry>, fate: Fate): seq<Entry> {
    if h == [] then []
    else if h[0].fate.Pending? then [h[0].(fate := fate)] + h[1..]
    else [h[0]] + FinishFirst(h[1..], fate)
  }

  /** What the file holds; no file holds no items. */
  function Stored(file: Option<string>): Result<seq<DownloadQueueItem>, QueueError> {
    if file.None? then Ok([]) else ParseQueue(file.value)
  }

  datatype Op =
    | Look(messages: seq<Message>)                        // 1170: read_receiver
    | Begin                                               // 847: the front item becomes active
    | Finish(item: DownloadQueueItem, fate: Fate)         // 1163: set_active_download_finished
    | Proceed                                             // 724: stop_downloading = false
    | TakeReverse                                         // 749: reverse_connection.take()
    | Reload                                              // 709: initialize_download_queue

  predicate Finished(fate: Fate) {
    fate.Completed? || fate.Invalid?
  }

  /** What the thread makes sure of before each step; Finish names the item it is meant for. */
  ghost predicate Legal(c: Core, op: Op) {
    match op
    case Look(ms) => forall i :: 0 <= i < |ms| ==> MessageOk(ms[i])
    case Begin => c.queue != [] && !c.stop
    case Finish(item, fate) => c.queue != [] && c.queue[0] == item && !c.stop && Finished(fate)
    case Reload => Stored(c.file).Ok?
    case _ => true
  }

  /** A path that a line of the queue file can hold; a connection whose handshake succeeded. */
  ghost predicate MessageOk(m: Message) {
    && (m.NewDownload? ==> PathOk(m.item.path))
    && (m.NewConnection? ==> m.link.cipher.Valid())
  }

  /** `set_active_download_finished`: whatever is at the front, if anything, leaves. */
  function Popped(c: Core, fate: Fate): Core {
    Save(c.(queue := if c.queue == [] then [] else c.queue[1..], hist := FinishFirst(c.hist, fate))).(active := None)
  }

  ghost function Apply(c: Core, op: Op): Core
    requires Legal(c, op)
  {
    match op
    case Look(ms) => HandleAll(c, ms)
    case Begin => c.(active := Some(c.queue[0]))
    case Finish(item, fate) => Popped(c, fate)
    case Proceed => c.(stop := false)
    case TakeReverse => c.(reverse := None)
    case Reload => c.(queue := Stored(c.file).value)
  }

  /** These steps are possible one after the other, and lead from c to d. */
  ghost predicate Leads(c: Core, ops: seq<Op>, d: Core)
    decreases |ops|
  {
    if ops == [] then c == d
    else Legal(c, ops[0]) && Leads(Apply(c, ops[0]), ops[1..], d)
  }

  lemma {:induction false} LeadsOn(c: Core, ops: seq<Op>, d: Core, op: Op)
    requires Leads(c, ops, d) && Legal(d, op)
    ensures Leads(c, ops + [op], Apply(d, op))
    decreases |ops|
  {
    hide Legal, Apply;
    if ops == [] {
      assert [op][1..] == [];
      assert Leads(Apply(d, op), [], Apply(d, op));
    } else {
      LeadsOn(Apply(c, ops[0]), ops[1..], d, op);
      assert (ops + [op])[1..] == ops[1..] + [op];
    }
  }

  // ---------------------------------------------------------------- histories

  function Pendings(h: seq<Entry>): seq<DownloadQueueItem> {
    if h == [] then []
    else Pendings(h[..|h| - 1]) + if h[|h| - 1].fate.Pending? then [h[|h| - 1].item] else []
  }

  /** The items that were completed or found invalid, in the order of the queue. */
  function Outcomes(h: seq<Entry>): seq<Entry> {
    if h == [] then []
    else Outcomes(h[..|h| - 1]) + if Finished(h[|h| - 1].fate) then [h[|h| - 1]] else []
  }

  /** Nothing is finished while something that was enqueued before it is still pending. */
  ghost predicate Fifo(h: seq<Entry>) {
    forall i, j :: 0 <= i < j < |h| && h[i].fate.Pending? ==> !Finished(h[j].fate)
  }

  /** Items are only added at the back, and a fate that is not Pending is final. */
  ghost predicate Extends(h: seq<Entry>, k: seq<Entry>) {
    && |h| <= |k|
    && forall i :: 0 <= i < |h| ==> h[i].item == k[i].item && (h[i].fate.Pending? || h[i] == k[i])
  }

  function Entering(q: seq<DownloadQueueItem>): seq<Entry> {
    seq(|q|, i requires 0 <= i < |q| => Entry(q[i], Pending))
  }

  lemma {:induction false} PendingsSnoc(h: seq<Entry>, e: Entry)
    ensures Pendings(h + [e]) == Pendings(h) + if e.fate.Pending? then [e.item] else []
    ensures Outcomes(h + [e]) == Outcomes(h) + if Finished(e.fate) then [e] else []
  {
    assert (h + [e])[..|h + [e]| - 1] == h;
  }

  lemma {:induction false} PendingsCancel(h: seq<Entry>, which: Option<string>)
    ensures Pendings(Cancel(h, which)) == Without(Pendings(h), which)
    ensures Outcomes(Cancel(h, which)) == Outcomes(h)
  {
    hide Pendings, Outcomes, Without, Hit;
    if h == [] {
      NoHistory();
      assert Cancel(h, which) == [];
      WithoutNone(which);
    } else {
      var init, last := h[..|h| - 1], h[|h| - 1];
      var e := Cancel(h, which)[|h| - 1];
      PendingsCancel(init, which);
      assert h == init + [last];
      assert Cancel(h, which) == Cancel(init, which) + [e];
      PendingsSnoc(init, last);
      PendingsSnoc(Cancel(init, which), e);
      WithoutSnoc(Pendings(init), last.item, which);
      if last.fate.Pending? {
        assert Pendings(h) == Pendings(init) + [last.item];
      } else {
        assert Pendings(h) == Pendings(init) + [] == Pendings(init);
        assert Pendings(Cancel(init, which)) + [] == Pendings(Cancel(init, which));
      }
    }
  }

  lemma NoHistory()
    ensures Pendings([]) == [] && Outcomes([]) == []
  {
  }

  lemma WithoutNone(which: Option<string>)
    ensures Without([], which) == []
  {
  }

  lemma WithoutSnoc(q: seq<DownloadQueueItem>, item: DownloadQueueItem, which: Option<string>)
    ensures Without(q + [item], which) == Without(q, which) + if Hit(which, item.path) then [] else [item]
  {
    assert (q + [item])[..|q + [item]| - 1] == q;
  }

  lemma {:induction false} WithoutAll(q: seq<DownloadQueueItem>)
    ensures Without(q, None) == []
  {
    if q != [] {
      WithoutAll(q[..|q| - 1]);
    }
  }

  lemma {:induction false} WithoutOk(q: seq<DownloadQueueItem>, which: Option<string>)
    requires PathsOk(q)
    ensures PathsOk(Without(q, which))
    ensures forall item :: item in Without(q, which) <==> item in q && !Hit(which, item.path)
  {
    hide PathOk, Hit;
    if q == [] {
    } else {
      WithoutOk(q[..|q| - 1], which);
      assert q == q[..|q| - 1] + [q[|q| - 1]];
    }
  }

  /** The first pending entry of the history is the front of the queue. */
  lemma {:induction false} FirstPending(h: seq<Entry>) returns (k: nat)
    requires Pendings(h) != []
    ensures k < |h| && h[k].fate.Pending? && Pendings(h)[0] == h[k].item
    ensures forall i :: 0 <= i < k ==> !h[i].fate.Pending?
  {
    var init := h[..|h| - 1];
    if Pendings(init) == [] {
      NonePending(init);
      k := |h| - 1;
    } else {
      k := FirstPending(init);
    }
  }

  lemma {:induction false} NonePending(h: seq<Entry>)
    requires Pendings(h) == []
    ensures forall i :: 0 <= i < |h| ==> !h[i].fate.Pending?
  {
    if h != [] {
      NonePending(h[..|h| - 1]);
    }
  }

  lemma {:induction false} FinishFirstAt(h: seq<Entry>, fate: Fate, k: nat)
    requires k < |h| && h[k].fate.Pending?
    requires forall i :: 0 <= i < k ==> !h[i].fate.Pending?
    ensures FinishFirst(h, fate) == h[k := h[k].(fate := fate)]
  {
    if k > 0 {
      FinishFirstAt(h[1..], fate, k - 1);
      assert h[k := h[k].(fate := fate)] == [h[0]] + h[1..][k - 1 := h[k].(fate := fate)];
    } else {
      assert h[0 := h[0].(fate := fate)] == [h[0].(fate := fate)] + h[1..];
    }
  }

  /** Giving the front item its fate takes it from the pending items and reports it last. */
  lemma {:induction false} FinishFront(h: seq<Entry>, fate: Fate, k: nat)
    requires Finished(fate) && Fifo(h)
    requires k < |h| && h[k].fate.Pending?
    requires forall i :: 0 <= i < k ==> !h[i].fate.Pending?
    ensures var g := h[k := h[k].(fate := fate)];
      && Pendings(h) == [h[k].item] + Pendings(g)
      && Outcomes(g) == Outcomes(h) + [Entry(h[k].item, fate)]
      && Fifo(g) && Extends(h, g)
  {
    var g := h[k := h[k].(fate := fate)];
    var init, last := h[..|h| - 1], h[|h| - 1];
    if k == |h| - 1 {
      assert g[..|h| - 1] == init;
      AllFinal(init);
    } else {
      FinishFront(init, fate, k);
      assert g[..|h| - 1] == init[k := h[k].(fate := fate)];
      assert !Finished(last.fate);
    }
  }

  lemma {:induction false} AllFinal(h: seq<Entry>)
    requires forall i :: 0 <= i < |h| ==> !h[i].fate.Pending?
    ensures Pendings(h) == []
  {
    if h != [] {
      AllFinal(h[..|h| - 1]);
    }
  }

  lemma {:induction false} EnteringPendings(q: seq<DownloadQueueItem>)
    ensures Pendings(Entering(q)) == q && Outcomes(Entering(q)) == []
  {
    if q == [] {
    } else {
      EnteringPendings(q[..|q| - 1]);
      assert Entering(q)[..|q| - 1] == Entering(q[..|q| - 1]);
      assert q == q[..|q| - 1] + [q[|q| - 1]];
    }
  }

  // ---------------------------------------------------------------- the invariant

  /**
   The queue is the pending part of the history, the file parses to the queue, and items were
   finished first in, first out.
   */
  ghost predicate Good(c: Core) {
    && c.queue == Pendings(c.hist)
    && PathsOk(c.queue)
    && Stored(c.file) == Ok(c.queue)
    && Fifo(c.hist)
    && (c.reverse.Some? ==> c.reverse.value.cipher.Valid())
  }

  lemma SaveStores(c: Core)
    requires PathsOk(c.queue)
    ensures Stored(Saved(c)) == Ok(c.queue)
  {
    hide ParseQueue, PathsOk;
    PrintedQueueParses(c.queue);
    EmptyFile();
  }

  lemma EnqueueKeeps(c: Core, item: DownloadQueueItem)
    requires Good(c) && PathOk(item.path)
    ensures Good(Handle(c, NewDownload(item))) && Extends(c.hist, Handle(c, NewDownload(item)).hist)
    ensures Outcomes(Handle(c, NewDownload(item)).hist) == Outcomes(c.hist)
  {
    hide Saved, Stored, Pendings, Outcomes, PathOk;
    PendingsSnoc(c.hist, Entry(item, Pending));
    SaveStores(c.(queue := c.queue + [item], hist := c.hist + [Entry(item, Pending)]));
  }

  /** Cancelling, as all three messages that cancel do it. */
  function Cancelling(c: Core, which: Option<string>): Core {
    Save(c.(queue := Without(c.queue, which), hist := Cancel(c.hist, which)))
  }

  lemma CancelKeeps(c: Core, which: Option<string>)
    requires Good(c)
    ensures Good(Cancelling(c, which)) && Extends(c.hist, Cancelling(c, which).hist)
    ensures Outcomes(Cancelling(c, which).hist) == Outcomes(c.hist)
  {
    hide Saved, Stored, Pendings, Outcomes, PathsOk, Without;
    PendingsCancel(c.hist, which);
    WithoutOk(c.queue, which);
    SaveStores(c.(queue := Without(c.queue, which), hist := Cancel(c.hist, which)));
  }

  lemma HandleKeeps(c: Core, m: Message)
    requires Good(c) && MessageOk(m)
    ensures Good(Handle(c, m)) && Extends(c.hist, Handle(c, m).hist)
    ensures Outcomes(Handle(c, m).hist) == Outcomes(c.hist)
  {
    hide Stored, Pendings, Outcomes, PathsOk, Fifo, Cancel, Without;
    match m {
      case NewDownload(item) => EnqueueKeeps(c, item);
      case CancelDownload(path) => CancelKeeps(c, Some(path));
      case CancelAllDownloads =>
        CancelKeeps(c, None);
        WithoutAll(c.queue);
      case RemoveUser =>
        CancelKeeps(c, None);
        WithoutAll(c.queue);
      case _ =>
    }
  }

  lemma {:induction false} HandleAllKeeps(c: Core, ms: seq<Message>)
    requires Good(c) && forall i :: 0 <= i < |ms| ==> MessageOk(ms[i])
    ensures Good(HandleAll(c, ms)) && Extends(c.hist, HandleAll(c, ms).hist)
    ensures Outcomes(HandleAll(c, ms).hist) == Outcomes(c.hist)
  {
    hide Handle, Good, Outcomes, MessageOk;
    if ms == [] {
    } else {
      HandleAllKeeps(c, ms[..|ms| - 1]);
      HandleKeeps(HandleAll(c, ms[..|ms| - 1]), ms[|ms| - 1]);
    }
  }

  /** What a step adds to the reports. */
  function Reported(op: Op): seq<Entry> {
    if op.Finish? then [Entry(op.item, op.fate)] else []
  }

  lemma FinishKeeps(c: Core, item: DownloadQueueItem, fate: Fate)
    requires Good(c) && Legal(c, Finish(item, fate))
    ensures var d := Apply(c, Finish(item, fate));
      Good(d) && Extends(c.hist, d.hist) && Outcomes(d.hist) == Outcomes(c.hist) + [Entry(item, fate)]
  {
    hide Saved, Stored, Pendings, Outcomes, PathOk, FinishFirst;
    var k := FirstPending(c.hist);
    FinishFirstAt(c.hist, fate, k);
    FinishFront(c.hist, fate, k);
    SaveStores(c.(queue := c.queue[1..], hist := FinishFirst(c.hist, fate)));
  }

  /** Every step keeps the invariant, never changes a fate that is final, and reports what it finishes. */
  lemma OpKeeps(c: Core, op: Op)
    requires Good(c) && Legal(c, op)
    ensures Good(Apply(c, op)) && Extends(c.hist, Apply(c, op).hist)
    ensures Outcomes(Apply(c, op).hist) == Outcomes(c.hist) + Reported(op)
  {
    hide Stored, Pendings, Outcomes, PathsOk, Fifo, HandleAll, MessageOk, Save, FinishFirst;
    match op {
      case Look(ms) => HandleAllKeeps(c, ms);
      case Finish(item, fate) => FinishKeeps(c, item, fate);
      case _ =>
    }
  }

  function Reports(ops: seq<Op>): seq<Entry>
    decreases |ops|
  {
    if ops == [] then [] else Reported(ops[0]) + Reports(ops[1..])
  }

  /**
   How a run from c to d accounts for the items: each item ever enqueued is pending and in the
   queue, or has exactly one final fate; the reports are the finished items, each once, in the order
   of the queue; and the file parses to the queue.
   */
  ghost predicate AllAccounted(c: Core, ops: seq<Op>, d: Core) {
    Good(d) && Extends(c.hist, d.hist) && Outcomes(d.hist) == Outcomes(c.hist) + Reports(ops)
  }

  /** Queue outcome, over every schedule of messages, downloads and restarts. */
  lemma {:induction false} QueueOutcome(c: Core, ops: seq<Op>, d: Core)
    requires Good(c) && Leads(c, ops, d)
    ensures AllAccounted(c, ops, d)
    decreases |ops|
  {
    hide Good, Outcomes, Legal, Apply, Reported;
    if ops == [] {
      assert Outcomes(c.hist) + [] == Outcomes(c.hist);
    } else {
      OpKeeps(c, ops[0]);
      QueueOutcome(Apply(c, ops[0]), ops[1..], d);
    }
  }

  /** A restart reads the queue back exactly as it was. */
  lemma ReloadChangesNothing(c: Core)
    requires Good(c)
    ensures Legal(c, Reload) && Apply(c, Reload) == c
  {
  }

  // ---------------------------------------------------------------- the sticky stop flag

  /** The item at the front is the one that is being downloaded, unless a stop was requested. */
  predicate Processing(c: Core, item: DownloadQueueItem) {
    c.stop || (c.active == Some(item) && c.queue != [] && c.queue[0] == item)
  }

  predicate Interrupts(m: Message) {
    !m.NewDownload? && !m.ResumeDownloads?
  }

  predicate AnyInterrupts(ms: seq<Message>) {
    exists i :: 0 <= i < |ms| && Interrupts(ms[i])
  }

  lemma HandleStops(c: Core, m: Message)
    ensures Handle(c, m).stop <==> c.stop || Interrupts(m)
    ensures !Interrupts(m) ==> c.queue <= Handle(c, m).queue && Handle(c, m).active == c.active
    ensures c.active.None? ==> Handle(c, m).active.None?
  {
  }

  lemma HandleLast(c: Core, ms: seq<Message>)
    requires ms != []
    ensures HandleAll(c, ms) == Handle(HandleAll(c, ms[..|ms| - 1]), ms[|ms| - 1])
  {
  }

  /**
   Every message but NewDownload and ResumeDownloads sets the stop flag, which no message clears.
   So as long as it is clear, the active item is still there and still first.
   */
  lemma {:induction false} StillFirst(c: Core, ms: seq<Message>, item: DownloadQueueItem)
    ensures Processing(c, item) ==> Processing(HandleAll(c, ms), item)
    ensures c.active.None? ==> HandleAll(c, ms).active.None?
    ensures c.stop ==> HandleAll(c, ms).stop
    ensures !HandleAll(c, ms).stop ==> c.queue <= HandleAll(c, ms).queue && HandleAll(c, ms).active == c.active
  {
    hide Handle;
    if ms != [] {
      HandleLast(c, ms);
      StillFirst(c, ms[..|ms| - 1], item);
      HandleStops(HandleAll(c, ms[..|ms| - 1]), ms[|ms| - 1]);
    }
  }

  lemma AnyInterruptsLast(ms: seq<Message>)
    requires ms != []
    ensures AnyInterrupts(ms) <==> AnyInterrupts(ms[..|ms| - 1]) || Interrupts(ms[|ms| - 1])
  {
    hide Interrupts;
    var init := ms[..|ms| - 1];
    if AnyInterrupts(ms) {
      var i :| 0 <= i < |ms| && Interrupts(ms[i]);
      assert i < |init| ==> init[i] == ms[i];
    }
    if AnyInterrupts(init) {
      var i :| 0 <= i < |init| && Interrupts(init[i]);
      assert ms[i] == init[i];
    }
  }

  /** The stop flag is exactly the memory of such a message. */
  lemma {:induction false} StopExactly(c: Core, ms: seq<Message>)
    ensures HandleAll(c, ms).stop <==> c.stop || AnyInterrupts(ms)
  {
    hide Handle, Interrupts;
    if ms != [] {
      HandleLast(c, ms);
      AnyInterruptsLast(ms);
      StopExactly(c, ms[..|ms| - 1]);
      HandleStops(HandleAll(c, ms[..|ms| - 1]), ms[|ms| - 1]);
    }
  }

  // ---------------------------------------------------------------- what the messages mean

  /** These positions, in this order. */
  ghost predicate Rising(at: seq<nat>, n: nat) {
    && (forall i :: 0 <= i < |at| ==> at[i] < n)
    && (forall i, j :: 0 <= i < j < |at| ==> at[i] < at[j])
  }

  /** Removing items keeps exactly the others, each at its place among them. */
  lemma {:induction false} WithoutPositions(q: seq<DownloadQueueItem>, which: Option<string>) returns (at: seq<nat>)
    ensures Rising(at, |q|) && |Without(q, which)| == |at|
    ensures forall i :: 0 <= i < |at| ==> Without(q, which)[i] == q[at[i]]
    ensures forall k :: 0 <= k < |q| ==> (k in at <==> which.Some? && q[k].path != which.value)
  {
    if q == [] {
      at := [];
    } else {
      var init := q[..|q| - 1];
      at := WithoutPositions(init, which);
      forall k | 0 <= k < |init|
        ensures k in at <==> which.Some? && q[k].path != which.value
      {
        assert init[k] == q[k];
      }
      if !Hit(which, q[|q| - 1].path) {
        at := at + [|q| - 1];
      }
    }
  }

  /**
   Cancelling a path: exactly the pending entries with this path are cancelled, and the queue keeps
   all items with other paths, in their order. Nothing else changes but that the active item is given
   up if it has the path, and that a stop is requested.
   */
  lemma CancelTakesOnly(c: Core, path: string) returns (at: seq<nat>)
    ensures var d := Handle(c, CancelDownload(path));
      && d.stop && d.paused == c.paused && d.shutdown == c.shutdown && d.reverse == c.reverse
      && d.deletable == c.deletable
      && d.active == (if c.active.Some? && c.active.value.path == path then None else c.active)
      && |d.hist| == |c.hist|
      && (forall i :: 0 <= i < |c.hist| ==>
            && d.hist[i].item == c.hist[i].item
            && d.hist[i].fate == if c.hist[i].fate.Pending? && c.hist[i].item.path == path then Cancelled
                                 else c.hist[i].fate)
      && Rising(at, |c.queue|) && |d.queue| == |at|
      && (forall i :: 0 <= i < |at| ==> d.queue[i] == c.queue[at[i]])
      && (forall k :: 0 <= k < |c.queue| ==> (k in at <==> c.queue[k].path != path))
      && (forall item :: item in d.queue <==> item in c.queue && item.path != path)
  {
    hide Saved, Without, Rising;
    at := WithoutPositions(c.queue, Some(path));
    var d := Handle(c, CancelDownload(path));
    forall item
      ensures item in d.queue <==> item in c.queue && item.path != path
    {
      KeptAreOthers(c.queue, d.queue, at, path, item);
    }
  }

  lemma KeptAreOthers(q: seq<DownloadQueueItem>, r: seq<DownloadQueueItem>, at: seq<nat>, path: string,
                      item: DownloadQueueItem)
    requires Rising(at, |q|) && |r| == |at| && forall i :: 0 <= i < |at| ==> r[i] == q[at[i]]
    requires forall k :: 0 <= k < |q| ==> (k in at <==> q[k].path != path)
    ensures item in r <==> item in q && item.path != path
  {
    if item in r {
      var i :| 0 <= i < |r| && r[i] == item;
      assert at[i] in at;
    }
    if item in q && item.path != path {
      var k :| 0 <= k < |q| && q[k] == item;
      var i :| 0 <= i < |at| && at[i] == k;
      assert r[i] == item;
    }
  }

  /** Does this message take an item with this path from the queue? */
  predicate Takes(m: Message, path: string) {
    m.CancelAllDownloads? || m.RemoveUser? || (m.CancelDownload? && m.path == path)
  }

  predicate AnyTakes(ms: seq<Message>, path: string) {
    exists i :: 0 <= i < |ms| && Takes(ms[i], path)
  }

  /** What a message does to an entry that was there before. */
  function Struck(x: Entry, taken: bool): Entry {
    if taken && x.fate.Pending? then x.(fate := Cancelled) else x
  }

  /** The effect of each message on everything but the order of the queue. */
  lemma MessageEffect(c: Core, m: Message)
    ensures var d := Handle(c, m);
      && |d.hist| == |c.hist| + (if m.NewDownload? then 1 else 0)
      && (forall i :: 0 <= i < |c.hist| ==> d.hist[i] == Struck(c.hist[i], Takes(m, c.hist[i].item.path)))
      && (m.NewDownload? ==> d.hist[|c.hist|] == Entry(m.item, Pending) && d.queue == c.queue + [m.item])
      && (forall item :: item in d.queue <==>
            (item in c.queue && !Takes(m, item.path)) || (m.NewDownload? && item == m.item))
      && d.paused == (m.PauseDownloads? || (c.paused && !m.ResumeDownloads?))
      && d.shutdown == (m.RemoveUser? || c.shutdown)
      && d.reverse == (if m.NewConnection? then Some(m.link) else c.reverse)
      && d.active == (if c.active.Some? && Takes(m, c.active.value.path) then None else c.active)
      && (!m.NewDownload? && !m.CancelDownload? && !m.CancelAllDownloads? && !m.RemoveUser? ==>
            d.queue == c.queue && d.file == c.file)
  {
    hide Saved, Without;
    match m {
      case CancelDownload(path) =>
        var at := CancelTakesOnly(c, path);
      case _ =>
    }
  }

  lemma {:induction false} HandleAllAppend(c: Core, a: seq<Message>, b: seq<Message>)
    ensures HandleAll(c, a + b) == HandleAll(HandleAll(c, a), b)
    decreases |b|
  {
    hide Handle;
    if b == [] {
      assert a + b == a;
    } else {
      assert (a + b)[..|a + b| - 1] == a + b[..|b| - 1];
      HandleAllAppend(c, a, b[..|b| - 1]);
    }
  }

  /**
   One look into the mailbox: an item that was pending is cancelled exactly if one of the messages
   takes it; what was final stays; the user is gone exactly if it was, or one message says so.
   */
  lemma {:induction false} LookEffect(c: Core, ms: seq<Message>)
    ensures var d := HandleAll(c, ms);
      && |c.hist| <= |d.hist|
      && (forall i :: 0 <= i < |c.hist| ==> d.hist[i] == Struck(c.hist[i], AnyTakes(ms, c.hist[i].item.path)))
      && d.shutdown == (c.shutdown || AnyRemoves(ms))
  {
    hide Handle, Takes;
    if ms != [] {
      var init, last := ms[..|ms| - 1], ms[|ms| - 1];
      LookEffect(c, init);
      HandleLast(c, ms);
      MessageEffect(HandleAll(c, init), last);
      forall i | 0 <= i < |c.hist|
        ensures HandleAll(c, ms).hist[i] == Struck(c.hist[i], AnyTakes(ms, c.hist[i].item.path))
      {
        AnyTakesLast(ms, c.hist[i].item.path);
      }
      AnyRemovesLast(ms);
    }
  }

  lemma AnyTakesLast(ms: seq<Message>, path: string)
    requires ms != []
    ensures AnyTakes(ms, path) <==> AnyTakes(ms[..|ms| - 1], path) || Takes(ms[|ms| - 1], path)
  {
    hide Takes;
    var init := ms[..|ms| - 1];
    if AnyTakes(ms, path) {
      var i :| 0 <= i < |ms| && Takes(ms[i], path);
      assert i < |init| ==> init[i] == ms[i];
    }
    if AnyTakes(init, path) {
      var i :| 0 <= i < |init| && Takes(init[i], path);
      assert ms[i] == init[i];
    }
  }

  predicate AnyRemoves(ms: seq<Message>) {
    exists i :: 0 <= i < |ms| && ms[i].RemoveUser?
  }

  lemma AnyRemovesLast(ms: seq<Message>)
    requires ms != []
    ensures AnyRemoves(ms) <==> AnyRemoves(ms[..|ms| - 1]) || ms[|ms| - 1].RemoveUser?
  {
    var init := ms[..|ms| - 1];
    if i :| 0 <= i < |ms| && ms[i].RemoveUser? {
      assert i < |init| ==> init[i].RemoveUser?;
    }
    if i :| 0 <= i < |init| && init[i].RemoveUser? {
      assert ms[i].RemoveUser?;
    }
  }

  /**
   An item that is enqueued during a look, after the messages a and before the messages b, is cancelled
   exactly if one of b takes it.
   */
  lemma NewItemFate(c: Core, a: seq<Message>, item: DownloadQueueItem, b: seq<Message>)
    ensures var k := |HandleAll(c, a).hist|;
      var d := HandleAll(c, a + [NewDownload(item)] + b);
      k < |d.hist| && d.hist[k] == Entry(item, if AnyTakes(b, item.path) then Cancelled else Pending)
  {
    hide Handle, AnyTakes;
    var m := NewDownload(item);
    HandleAllAppend(c, a + [m], b);
    HandleAllAppend(c, a, [m]);
    assert [m][..0] == [];
    HandleLast(HandleAll(c, a), [m]);
    MessageEffect(HandleAll(c, a), m);
    LookEffect(HandleAll(c, a + [m]), b);
  }

  /** What the last message of a kind in a look decides: pausing, resuming, and the connection handed over. */
  lemma LastDecides(c: Core, a: seq<Message>, m: Message, b: seq<Message>)
    ensures var d := HandleAll(c, a + [m] + b);
      && (m.PauseDownloads? && !AnyPauses(b) ==> d.paused)
      && (m.ResumeDownloads? && !AnyPauses(b) ==> !d.paused)
      && (m.NewConnection? && !AnyConnects(b) ==> d.reverse == Some(m.link))
    ensures var d := HandleAll(c, b);
      && (!AnyPauses(b) ==> d.paused == c.paused)
      && (!AnyConnects(b) ==> d.reverse == c.reverse)
  {
    hide Handle;
    HandleAllAppend(c, a + [m], b);
    HandleAllAppend(c, a, [m]);
    assert [m][..0] == [];
    HandleLast(HandleAll(c, a), [m]);
    MessageEffect(HandleAll(c, a), m);
    OthersDecideNothing(HandleAll(c, a + [m]), b);
    OthersDecideNothing(c, b);
  }

  predicate AnyPauses(ms: seq<Message>) {
    exists i :: 0 <= i < |ms| && (ms[i].PauseDownloads? || ms[i].ResumeDownloads?)
  }

  predicate AnyConnects(ms: seq<Message>) {
    exists i :: 0 <= i < |ms| && ms[i].NewConnection?
  }

  lemma {:induction false} OthersDecideNothing(c: Core, ms: seq<Message>)
    ensures !AnyPauses(ms) ==> HandleAll(c, ms).paused == c.paused
    ensures !AnyConnects(ms) ==> HandleAll(c, ms).reverse == c.reverse
  {
    hide Handle;
    if ms != [] {
      var init := ms[..|ms| - 1];
      assert forall i :: 0 <= i < |init| ==> init[i] == ms[i];
      OthersDecideNothing(c, init);
      HandleLast(c, ms);
      MessageEffect(HandleAll(c, init), ms[|ms| - 1]);
    }
  }

  /** How many items these messages enqueue. */
  function News(ms: seq<Message>): nat {
    if ms == [] then 0 else News(ms[..|ms| - 1]) + if ms[|ms| - 1].NewDownload? then 1 else 0
  }

  lemma {:induction false} WithoutIsShorter(q: seq<DownloadQueueItem>, which: Option<string>)
    ensures |Without(q, which)| <= |q|
  {
    if q != [] {
      WithoutIsShorter(q[..|q| - 1], which);
    }
  }

  /** Only new items make the queue longer. */
  lemma {:induction false} GrowsByNews(c: Core, ms: seq<Message>)
    ensures |HandleAll(c, ms).queue| <= |c.queue| + News(ms)
  {
    hide Saved, Cancel, Without;
    if ms != [] {
      var d, m := HandleAll(c, ms[..|ms| - 1]), ms[|ms| - 1];
      GrowsByNews(c, ms[..|ms| - 1]);
      if m.CancelDownload? {
        WithoutIsShorter(d.queue, Some(m.path));
      }
    }
  }

  // ---------------------------------------------------------------- the offline form

  /** `add_to_queue_file_and_start_downloader`: append a line to the file, which may not exist yet. */
  function AppendedOffline(file: Option<string>, item: DownloadQueueItem): Option<string> {
    Some((if file.None? then "" else file.value) + PrintItem(item))
  }

  /** It adds exactly one item, at the back, to every file that the program itself has written. */
  lemma OfflineAppend(c: Core, item: DownloadQueueItem)
    requires PathsOk(c.queue) && PathOk(item.path)
    ensures Stored(AppendedOffline(Saved(c), item)) == Ok(c.queue + [item])
    ensures AppendedOffline(Saved(c), item) == Saved(c.(queue := c.queue + [item]))
  {
    hide ParseQueue, PathsOk, PrintItem, EndsLine;
    PrintedQueueParses(c.queue);
    EmptyFile();
    EmptyEndsLine();
    var text := if Saved(c).None? then "" else Saved(c).value;
    assert text == PrintQueue(c.queue);
    AppendItem(text, item);
    assert (c.queue + [item])[..|c.queue|] == c.queue;
  }

  lemma EmptyEndsLine()
    ensures EndsLine("")
  {
  }
}
