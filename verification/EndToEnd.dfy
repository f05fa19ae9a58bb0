/**
 Both ends together: what the loops of the asking thread make of the very bytes that the serving
 thread's loops put on the connection.
 */
module EndToEnd {
  import opened Common
  import opened CoreConsts
  import opened FrameCodec
  import opened Protocol
  import opened Replies
  import opened SharedTree
  import opened Uploads
  import D = Downloader
  import F = QueueFile
  import L = Listings
  import Q = DownloadQueues
  import T = DownloadTrees

  /** The first of these frames is decoded as it was sent, and leaves the others. */
  lemma NextFrame(c: Cipher, n: nat, items: seq<Item>, rest: seq<u8>)
    requires c.Valid() && AllFit(items) && items != [] && n + Nonces(items) <= NONCE_MAX
    ensures var bytes := ItemBytes(c, n, items) + rest;
      var d := Decode(c, n, bytes);
      && d.Ok? && d.value.Msg() == items[0].msg && PayloadOf(c, d.value) == Ok(items[0].payload)
      && d.value.nonce == n + Parts(items[0].payload)
      && bytes[d.value.used..] == ItemBytes(c, d.value.nonce, items[1..]) + rest
      && d.value.nonce + Nonces(items[1..]) == n + Nonces(items)
  {
    hide Decode, PayloadOf, Encode, FromBE16;
    var wire := Encode(c, n, items[0].msg, items[0].payload);
    var more := ItemBytes(c, n + Parts(items[0].payload), items[1..]);
    FrameRoundTrip(c, n, items[0].msg, items[0].payload, more + rest);
    assert ItemBytes(c, n, items) + rest == wire + (more + rest);
  }

  /**
   Listing transfer, end to end: the asking end has the listing, byte for byte, exactly when it is
   not longer than 100000000 bytes; otherwise it has nothing.
   */
  lemma {:induction false} ListingArrives(c: Cipher, n: nat, listing: seq<u8>, at: nat, rest: seq<u8>)
    requires c.Valid() && at <= |listing| && n + Nonces(ListReply(listing, at)) <= NONCE_MAX
    ensures var items := ListReply(listing, at);
      D.Collect(c, n, ItemBytes(c, n, items) + rest, listing[..at])
      == if |listing| <= MAX_EVERYTHING_FILE_SIZE then Some(D.Collected(listing, n + Nonces(items), rest)) else None
    decreases |listing| - at
  {
    hide Decode, PayloadOf, ItemBytes, Nonces, FromBE16, Encode, ListReply, Fits, EndsOnce, AllPayload;
    var items := ListReply(listing, at);
    ListReplyShape(listing, at);
    ListReplyIs(listing, at);
    NextFrame(c, n, items, rest);
    var n' := n + Parts(items[0].payload);
    if |listing| - at <= MAX_DATA_SIZE {
      assert items[1..] == [];
      NoItems(c, n');
      assert [] + rest == rest;
      assert listing[..at] + items[0].payload == listing;
    } else {
      var next := at + MAX_DATA_SIZE;
      assert listing[..at] + items[0].payload == listing[..next];
      ListingArrives(c, n', listing, next, rest);
    }
  }

  lemma NoItems(c: Cipher, n: nat)
    ensures ItemBytes(c, n, []) == [] && Nonces([]) == 0
  {
  }

  /** The listing that is fetched is the one that was sent, cleaned. */
  lemma ListingIsFetched(host: D.Host, c: Cipher, n: nat, room: nat, json: seq<u8>, rest: seq<u8>)
    requires c.Valid() && n + 1 + Nonces(ListReply(json, 0)) <= NONCE_MAX
    requires |Encode(c, n, MSG_FILE_LIST, [])| <= room
    ensures WriteFrame(c, n, room, MSG_FILE_LIST, []).sent == Encode(c, n, MSG_FILE_LIST, [])
    ensures D.FetchedListing(host, c, n, room, ItemBytes(c, n + 1, ListReply(json, 0)) + rest)
      == if |json| <= MAX_EVERYTHING_FILE_SIZE then D.Accepted(host, json) else None
  {
    hide WriteFrame, Encode, ItemBytes, Nonces, ListReply, D.Collect;
    WriteFrameOutcome(c, n, room, MSG_FILE_LIST, []);
    ListingArrives(c, n + 1, json, 0, rest);
    assert json[..0] == [];
  }

  /**
   Freshness: after a peer has connected and announced so, the asking end works with the present listing of
   that peer or not at all, whatever listing it had kept.
   */
  lemma AnnouncedIsCurrent(host: D.Host, link: Q.Link, round: D.Round, kept: D.View, json: seq<u8>, rest: seq<u8>)
    requires link.cipher.Valid() && link.hello == Some(MSG_REVERSE) && round.after.None?
    requires link.incoming == ItemBytes(link.cipher, NONCE_INIT + 2, ListReply(json, 0)) + rest
    requires NONCE_INIT + 2 + Nonces(ListReply(json, 0)) <= NONCE_MAX
    requires |Encode(link.cipher, NONCE_INIT + 1, MSG_FILE_LIST, [])| <= link.room
    ensures D.Worked(host, Some(link), round, kept)
      == if |json| <= MAX_EVERYTHING_FILE_SIZE && D.Accepted(host, json).Some? then [D.Accepted(host, json).value]
         else []
  {
    hide ItemBytes, Nonces, ListReply, Encode, D.FetchedListing, D.Accepted;
    ListingIsFetched(host, link.cipher, NONCE_INIT + 1, link.room, json, rest);
  }

  /** Otherwise it works with a listing that is kept, whatever the connection brings. */
  lemma UnannouncedIsKept(host: D.Host, link: Q.Link, round: D.Round, everything: SharedFile)
    requires link.cipher.Valid() && link.hello != Some(MSG_REVERSE) && round.before.None? && round.after.None?
    ensures D.Worked(host, Some(link), round, D.Data(everything)) == [everything]
  {
    hide D.FetchedListing;
  }

  /** The selection of a file from this length on. */
  function Selection(host: D.Host, path: string, have: nat): seq<u8> {
    ToBE(have, 8) + host.utf8(path)
  }

  /**
   A file that is no longer shared: the peer's own answer to its selection, and then to the request for a
   listing, leave the asking end with the peer's present listing; the item is then given up as no
   longer shared in its next turn.
   */
  lemma GoneIsGivenUp(host: D.Host, c: Cipher, n: nat, room: nat, path: string, have: nat, kept: D.View,
                      tree: SharedFile, name: seq<u8> -> string, read: string -> seq<u8>, json: seq<u8>,
                      lens: seq<nat>, rest: seq<u8>)
    requires forall g :: g in Preorder(tree) ==> g.path != path
    requires name(host.utf8(path)) == path && host.parse(json) == Some(tree) && |json| <= MAX_EVERYTHING_FILE_SIZE
    requires c.Valid() && Writable(MSG_FILE_SELECTION_CONTINUE, Selection(host, path, have))
    requires n + 4 + Nonces(ListReply(json, 0)) <= NONCE_MAX
    requires room >= |Encode(c, n, MSG_FILE_SELECTION_CONTINUE, Selection(host, path, have))|
                     + |Encode(c, n + 3, MSG_FILE_LIST, [])|
    ensures var items := Reply(json, L.Lookup(tree, name, read), MSG_FILE_SELECTION_CONTINUE,
                               Selection(host, path, have), lens);
      && items.Some?
      && var bytes := ItemBytes(c, n + 2, items.value) + (ItemBytes(c, n + 4, ListReply(json, 0)) + rest);
      D.AskingFor(host, c, n, room, bytes, have, host.utf8(path), kept)
      == D.Asking(Encode(c, n, MSG_FILE_SELECTION_CONTINUE, Selection(host, path, have))
                  + Encode(c, n + 3, MSG_FILE_LIST, []),
                  D.Data(Cleaned(host.valid, tree)))
    ensures forall t: D.Turn ::
      D.TurnOk(host.naming, t) && t.item.path == path && t.tree == Cleaned(host.valid, tree) ==>
        t.fate == Some(Q.Invalid(Q.NoLongerShared)) && t.b.disk == t.a.disk
  {
    hide WriteFrame, Encode, Decode, PayloadOf, ItemBytes, Nonces, ListReply, FromBE16, Preorder, Cleaned,
      GetFileByPath, D.FetchedListing, D.ItemEnded, T.Leaves, D.Among, ToBE, L.Lookup, Writable;
    var sel := Selection(host, path, have);
    assert sel[8..] == host.utf8(path);
    L.RefusedExactly(tree, name, read, json, sel, lens);
    WriteFrameOutcome(c, n, room, MSG_FILE_SELECTION_CONTINUE, sel);
    var more := ItemBytes(c, n + 4, ListReply(json, 0)) + rest;
    var items := [Item(MSG_FILE_INVALID_FILE, [])];
    OneItem(c, n + 2, items[0]);
    NextFrame(c, n + 2, items, more);
    NoItems(c, n + 3);
    assert items[1..] == [];
    assert [] + more == more;
    ListingIsFetched(host, c, n + 3, room - |Encode(c, n, MSG_FILE_SELECTION_CONTINUE, sel)|, json, rest);
    MissingStaysMissing(host.valid, tree, path);
  }

  lemma OneItem(c: Cipher, n: nat, item: Item)
    requires item.payload == []
    ensures Nonces([item]) == 1 && AllFit([item])
  {
  }

  /** No look into the mailbox finds a reason to stop. */
  ghost predicate Quiet(inbox: seq<D.Batch>) {
    forall i :: 0 <= i < |inbox| ==> !Q.AnyInterrupts(inbox[i].messages) && !inbox[i].disconnected
  }

  /** Some look finds a reason to stop; some look finds that a sender is gone. */
  ghost predicate Interrupting(inbox: seq<D.Batch>) {
    exists i :: 0 <= i < |inbox| && Q.AnyInterrupts(inbox[i].messages)
  }

  ghost predicate Deserted(inbox: seq<D.Batch>) {
    exists i :: 0 <= i < |inbox| && inbox[i].disconnected
  }

  lemma LooksOn(inbox: seq<D.Batch>)
    ensures Q.AnyInterrupts(D.Front(inbox).messages) || Interrupting(D.Rest(inbox)) ==> Interrupting(inbox)
    ensures D.Front(inbox).disconnected || Deserted(D.Rest(inbox)) ==> Deserted(inbox)
  {
    hide Q.AnyInterrupts;
    if inbox == [] {
      assert !Q.AnyInterrupts([]) by { NothingInterrupts(); }
    } else {
      assert inbox[0] == D.Front(inbox);
      assert forall i :: 0 <= i < |D.Rest(inbox)| ==> D.Rest(inbox)[i] == inbox[i + 1];
    }
  }

  lemma NothingInterrupts()
    ensures !Q.AnyInterrupts([])
  {
  }

  lemma QuietOn(inbox: seq<D.Batch>)
    requires Quiet(inbox)
    ensures !Q.AnyInterrupts(D.Front(inbox).messages) && !D.Front(inbox).disconnected && Quiet(D.Rest(inbox))
  {
  }

  /**
   What a serving end that was stopped, or a connection that was cut, delivers of these items: the
   frames of the first k, and after them nothing that can be read, unless all are there.
   */
  ghost predicate Delivered(c: Cipher, n: nat, items: seq<Item>, k: nat, rest: seq<u8>, bytes: seq<u8>)
    requires c.Valid()
  {
    && k <= |items| && n + Nonces(items[..k]) <= NONCE_MAX
    && bytes == ItemBytes(c, n, items[..k]) + rest
    && (k < |items| ==> Decode(c, n + Nonces(items[..k]), rest).Err?)
  }

  /** The next frame of what was delivered, if there is one. */
  lemma NextDelivered(c: Cipher, n: nat, items: seq<Item>, k: nat, rest: seq<u8>, bytes: seq<u8>)
    requires c.Valid() && AllFit(items) && items != [] && Delivered(c, n, items, k, rest, bytes)
    ensures var d := Decode(c, n, bytes);
      if k == 0 then d.Err?
      else
        && d.Ok? && d.value.Msg() == items[0].msg && PayloadOf(c, d.value) == Ok(items[0].payload)
        && Delivered(c, d.value.nonce, items[1..], k - 1, rest, bytes[d.value.used..])
  {
    hide Decode, PayloadOf, ItemBytes, FromBE16, Encode, Fits;
    var some := items[..k];
    if k == 0 {
      NoItems(c, n);
      assert [] + rest == rest;
    } else {
      NextFrame(c, n, some, rest);
      assert some[1..] == items[1..][..k - 1];
    }
  }

  /**
   A file, end to end, for every mailbox, however short the reads are, and whatever has been
   delivered: the destination grows by bytes of the source, never beyond its size, it is reported whole
   exactly when it has that size, and the two ends never disagree. Only the mailbox and the connection
   can keep it from being finished.
   */
  lemma {:induction false} FileContinues(c: Cipher, n: nat, content: seq<u8>, have: seq<u8>, lens: seq<nat>,
                                         k: nat, rest: seq<u8>, bytes: seq<u8>, inbox: seq<D.Batch>)
    requires c.Valid() && |have| < |content|
    requires Delivered(c, n, FileReply(content, |content|, |have|, lens)[1..], k, rest, bytes)
    ensures var items := FileReply(content, |content|, |have|, lens);
      var r := D.Fetching(c, n, bytes, items[0].msg, Ok(items[0].payload), have, |content|, inbox);
      && |have| <= |r.have| <= |content| && r.have == have + content[|have|..|r.have|]
      && (r.verdict.Whole? <==> |r.have| == |content|)
      && !r.verdict.Disagreeing?
      && (Quiet(inbox) && k + 1 == |items| ==> r.verdict.Whole?)
      && (r.verdict.Interrupted? ==> Interrupting(inbox))
      && (r.verdict.Broken? ==> k + 1 < |items| || Deserted(inbox))
    decreases |content| - |have|
  {
    hide Decode, PayloadOf, FromBE16, FileReply, FileRead, Fits, D.Fetching, Q.AnyInterrupts, Delivered, EndsOnce,
      AllPayload;
    var items := FileReply(content, |content|, |have|, lens);
    FileReadSpec(content, |have|, First(lens));
    FileReplyIs(content, |content|, |have|, lens);
    var now := have + items[0].payload;
    D.FetchingStep(c, n, bytes, items[0].msg, Ok(items[0].payload), have, |content|, inbox);
    if |now| < |content| {
      var more := items[1..];
      FileReplyIs(content, |content|, |now|, Later(lens));
      FileReplyShape(content, |content|, |now|, Later(lens));
      NextDelivered(c, n, more, k, rest, bytes);
      if k > 0 {
        var f := Decode(c, n, bytes).value;
        FileContinues(c, f.nonce, content, now, Later(lens), k - 1, rest, bytes[f.used..], D.Rest(inbox));
        if Quiet(inbox) {
          QuietOn(inbox);
        }
        LooksOn(inbox);
      }
    }
  }

  /**
   A resumed file: what is on disk stays a beginning of the source, and is reported whole exactly
   when it is the source.
   */
  lemma FileArrives(c: Cipher, n: nat, content: seq<u8>, pos: nat, lens: seq<nat>, inbox: seq<D.Batch>, rest: seq<u8>)
    requires c.Valid() && pos < |content|
    requires n + Nonces(FileReply(content, |content|, pos, lens)[1..]) <= NONCE_MAX
    ensures var items := FileReply(content, |content|, pos, lens);
      var r := D.Fetching(c, n, ItemBytes(c, n, items[1..]) + rest, items[0].msg, Ok(items[0].payload),
                          content[..pos], |content|, inbox);
      && content[..pos] <= r.have <= content
      && (r.verdict.Whole? <==> r.have == content)
      && !r.verdict.Disagreeing?
      && (Quiet(inbox) ==> r.verdict.Whole?)
  {
    hide ItemBytes, Nonces, FileReply, D.Fetching, Quiet;
    var items := FileReply(content, |content|, pos, lens);
    var more := items[1..];
    assert more[..|more|] == more;
    FileContinues(c, n, content, content[..pos], lens, |more|, rest, ItemBytes(c, n, more) + rest, inbox);
  }

  // ---------------------------------------------------------------- honest peers

  /** The peer answers with a file that has the size it listed. */
  ghost predicate Answers(x: D.Fetch, content: seq<u8>, lens: seq<nat>, k: nat, rest: seq<u8>) {
    var items := FileReply(content, |content|, |x.have|, lens);
    && |content| == x.leaf.size && x.msg == items[0].msg && x.payload == Ok(items[0].payload)
    && x.cipher.Valid() && Delivered(x.cipher, x.nonce, items[1..], k, rest, x.bytes)
  }

  ghost predicate Honest(x: D.Fetch) {
    exists content, lens, k, rest :: Answers(x, content, lens, k, rest)
  }

  lemma HonestIsWithin(x: D.Fetch)
    requires Honest(x)
    ensures D.Within(x)
  {
    hide Delivered, FileReply, D.Fetching;
    if x.cipher.Valid() && |x.have| < x.leaf.size {
      var content, lens, k, rest :| Answers(x, content, lens, k, rest);
      FileContinues(x.cipher, x.nonce, content, x.have, lens, k, rest, x.bytes, x.inbox);
    }
  }

  /**
   Directory conservation with an honest peer, for every directory g of its listing that was queued
   with its listed size: if different files go to different places, where none is too long yet, and
   the peer's files have the sizes it listed, then however often it is interrupted the counter stays
   within the queued size and no file gets longer than listed; the directory is never given up, and
   when it is completed every file is there in full.
   */
  lemma HonestPeerConserves(site: L.Site, shares: seq<L.ConfigSharedFile>, offer: map<string, L.Fs>, nickname: string,
                            valid: string -> bool, g: SharedFile, w: T.Naming, root: string, a: D.Files, b: D.Files,
                            item: F.DownloadQueueItem, ok: bool, stopped: bool, fate: Option<Q.Fate>, done: nat)
    requires L.Offered(site, shares, offer, nickname).Some? && L.Proper(shares, offer, nickname)
    requires g in Preorder(Cleaned(valid, L.Everything(L.Offered(site, shares, offer, nickname).value)))
    requires g.isDirectory
    requires T.Distinct(T.Leaves(w, g, root)) && T.NoneTooLong(a.disk, T.Leaves(w, g, root))
    requires item.path == g.path && item.fileSize == g.fileSize
    requires D.ItemEnded(T.Leaves(w, g, root), true, a, b, item, ok, stopped, fate, done)
    requires forall i :: |a.fetched| <= i < |b.fetched| ==> Honest(b.fetched[i])
    ensures b.bytes <= g.fileSize && T.NoneTooLong(b.disk, T.Leaves(w, g, root))
    ensures fate == if ok && !stopped then Some(Q.Completed) else None
    ensures fate.Some? ==> b.bytes == LeafSum(g) && forall i :: 0 <= i < |T.Leaves(w, g, root)| ==>
      T.Len(b.disk, T.Leaves(w, g, root)[i].dest) == T.Leaves(w, g, root)[i].size
  {
    hide L.Offered, L.Proper, Cleaned, Preorder, NoOwnFiles, T.Leaves, D.ItemEnded, T.Distinct, T.NoneTooLong, Honest,
      D.Within, LeafSum, FileAt, D.Among, Forest;
    var t := Cleaned(valid, L.Everything(L.Offered(site, shares, offer, nickname).value));
    L.HonestListing(site, shares, offer, nickname, valid, g);
    NoOwnEverywhere(t, g);
    if D.Among(T.Leaves(w, g, root), g.path) {
      D.AmongIsFile(w, g, root, g.path);
      assert false;
    }
    forall i | |a.fetched| <= i < |b.fetched|
      ensures D.Within(b.fetched[i])
    {
      HonestIsWithin(b.fetched[i]);
    }
    D.DirectoryConservation(w, g, root, a, b, item, ok, stopped, fate, done);
  }
}
