/** The serving thread: `SingleUploader` of src/incoming_uploader.rs, over the real stream. */
module Uploads {
  import opened Common
  import opened CoreConsts
  import opened FrameCodec
  import opened EncryptedStreams
  import opened Protocol
  import opened ProtocolProofs
  import opened Replies

  datatype UploaderMessage = ShutdownConn | DoNothing

  /** What one call of `read_receiver` finds: the queued messages, and whether the sender is gone. */
  datatype Mail = Mail(messages: seq<UploaderMessage>, disconnected: bool)

  predicate Stops(m: Mail) {
    ShutdownConn in m.messages || m.disconnected
  }

  /** Some of the first n looks into the mailbox found a reason to stop. */
  predicate StopAmong(mail: seq<Mail>, n: nat) {
    exists k :: 0 <= k < n && k < |mail| && Stops(mail[k])
  }

  datatype LoopResult = Success | ReverseConnection | Failed

  /** `Arc<Mutex<Vec<String>>>`: the reverse file list cache, shared by the threads of an epoch. */
  class FileListCache {
    var names: seq<string>

    constructor ()
      ensures names == []
    {
      names := [];
    }
  }

  function Added(names: seq<string>, nickname: string): seq<string> {
    if nickname in names then names else names + [nickname]
  }

  // ---------------------------------------------------------------- items on the wire

  /** The frames that these items become on a stream whose counter is n. */
  function Number(n: nat, items: seq<Item>): seq<Frame>
    decreases items
  {
    if items == [] then []
    else [Frame(n, items[0].msg, items[0].payload)] + Number(n + Parts(items[0].payload), items[1..])
  }

  function Nonces(items: seq<Item>): nat {
    if items == [] then 0 else Parts(items[0].payload) + Nonces(items[1..])
  }

  function ItemBytes(c: Cipher, n: nat, items: seq<Item>): seq<u8>
    decreases items
  {
    if items == [] then []
    else Encode(c, n, items[0].msg, items[0].payload) + ItemBytes(c, n + Parts(items[0].payload), items[1..])
  }

  lemma {:induction false} ItemBytesAppend(c: Cipher, n: nat, items: seq<Item>, item: Item)
    ensures Nonces(items + [item]) == Nonces(items) + Parts(item.payload)
    ensures ItemBytes(c, n, items + [item])
      == ItemBytes(c, n, items) + Encode(c, n + Nonces(items), item.msg, item.payload)
    decreases items
  {
    hide Encode;
    if items == [] {
      assert items + [item] == [item];
    } else {
      ItemBytesAppend(c, n + Parts(items[0].payload), items[1..], item);
      assert (items + [item])[1..] == items[1..] + [item];
    }
  }

  /** These are the bytes of numbered frames, as the protocol has them on its wires. */
  lemma {:induction false} ItemBytesAreFrames(c: Cipher, n: nat, items: seq<Item>)
    requires AllFit(items) && n + Nonces(items) <= NONCE_MAX
    ensures var fs := Number(n, items);
      && (forall i :: 0 <= i < |fs| ==> Fits(fs[i].msg, fs[i].payload))
      && ItemBytes(c, n, items) == FrameBytes(c, fs)
      && Chain(fs, n) && End(fs, n) == n + Nonces(items)
    decreases items
  {
    hide Encode;
    if items == [] {
    } else {
      ItemBytesAreFrames(c, n + Parts(items[0].payload), items[1..]);
      assert Number(n, items)[1..] == Number(n + Parts(items[0].payload), items[1..]);
    }
  }

  /** What a stream has sent since a point where it had sent `before` and its counter was n. */
  ghost predicate Sent(stream: EncryptedStream, before: seq<u8>, n: nat, items: seq<Item>)
    reads stream, stream.stream
  {
    && AllFit(items)
    && stream.stream.outgoing == before + ItemBytes(stream.cipher, n, items)
    && stream.nonce == n + Nonces(items)
  }

  /** As Sent, and then possibly part of one more frame. */
  ghost predicate SentAtLeast(stream: EncryptedStream, before: seq<u8>, n: nat, items: seq<Item>)
    reads stream, stream.stream
  {
    && AllFit(items)
    && before + ItemBytes(stream.cipher, n, items) <= stream.stream.outgoing
  }

  /** These frames of the reply got through, and the next one does not. */
  ghost predicate Stuck(c: Cipher, n: nat, room: nat, sent: seq<Item>, reply: seq<Item>) {
    && |sent| < |reply| && sent <= reply && |ItemBytes(c, n, sent)| <= room
    && !WriteFrame(c, n + Nonces(sent), room - |ItemBytes(c, n, sent)|, reply[|sent|].msg, reply[|sent|].payload).ok
  }

  method SendItem(stream: EncryptedStream, item: Item, ghost before: seq<u8>, ghost n: nat, ghost items: seq<Item>)
    returns (ok: bool)
    requires stream.Valid() && stream.live && Fits(item.msg, item.payload)
    requires Sent(stream, before, n, items)
    modifies stream`nonce, stream`used, stream`live, stream.buffer, stream.stream`outgoing, stream.stream`room
    ensures stream.Valid() && stream.live == ok
    ensures ok ==> Sent(stream, before, n, items + [item])
    ensures !ok ==> SentAtLeast(stream, before, n, items)
    ensures ok == WriteFrame(stream.cipher, old(stream.nonce), old(stream.stream.room), item.msg, item.payload).ok
    ensures ok ==>
      (stream.stream.room + |ItemBytes(stream.cipher, n, items + [item])|
       == old(stream.stream.room) + |ItemBytes(stream.cipher, n, items)|)
  {
    hide WriteFrame, Encode, ItemBytes, Nonces, Fits;
    WriteFrameOutcome(stream.cipher, stream.nonce, stream.stream.room, item.msg, item.payload);
    ItemBytesAppend(stream.cipher, n, items, item);
    ok := stream.Write(item.msg, item.payload);
  }

  // ---------------------------------------------------------------- the thread

  class SingleUploader {
    var nickname: string
    var shouldShutdown: bool
    var activeMsg: u16
    /** What the successive calls of read_receiver will find; an empty mailbox once it is used up. */
    var mail: seq<Mail>

    constructor (nickname: string, mail: seq<Mail>)
      ensures this.nickname == nickname && this.mail == mail && !shouldShutdown && activeMsg == 0
    {
      this.nickname := nickname;
      this.shouldShutdown := false;
      this.activeMsg := 0;
      this.mail := mail;
    }

    method ReadReceiver()
      modifies this`shouldShutdown, this`mail
      ensures mail == if old(mail) == [] then [] else old(mail)[1..]
      ensures shouldShutdown == (old(shouldShutdown) || StopAmong(old(mail), 1))
    {
      if mail == [] {
        return;
      }
      var batch := mail[0];
      mail := mail[1..];
      var i := 0;
      while i < |batch.messages|
        invariant 0 <= i <= |batch.messages| && mail == old(mail)[1..]
        invariant shouldShutdown == (old(shouldShutdown) || ShutdownConn in batch.messages[..i])
      {
        match batch.messages[i] {
          case ShutdownConn => shouldShutdown := true;
          case DoNothing =>
        }
        assert batch.messages[..i + 1] == batch.messages[..i] + [batch.messages[i]];
        i := i + 1;
      }
      assert batch.messages[..i] == batch.messages;
      if batch.disconnected {
        shouldShutdown := true;
      }
    }

    /**
     Send the listing piece by piece, looking into the mailbox after each. The cache learns the
     nickname exactly when the whole listing was written and nothing told the thread to stop.
     */
    method SendListing(stream: EncryptedStream, listing: seq<u8>, cache: FileListCache)
      returns (r: LoopResult, ghost sent: seq<Item>, ghost looks: nat)
      requires stream.Valid() && stream.live && !shouldShutdown
      modifies this`shouldShutdown, this`mail, cache
      modifies stream`nonce, stream`used, stream`live, stream.buffer, stream.stream`outgoing, stream.stream`room
      ensures stream.Valid() && (r.Success? <==> stream.live) && !r.ReverseConnection?
      ensures sent <= ListReply(listing, 0)
      ensures r.Success? ==> Sent(stream, old(stream.stream.outgoing), old(stream.nonce), sent)
      ensures SentAtLeast(stream, old(stream.stream.outgoing), old(stream.nonce), sent)
      ensures r.Success? ==> (sent == ListReply(listing, 0) || shouldShutdown)
      ensures r.Failed? ==>
        Stuck(stream.cipher, old(stream.nonce), old(stream.stream.room), sent, ListReply(listing, 0))
      ensures cache.names
        == if r.Success? && !shouldShutdown then Added(old(cache.names), nickname) else old(cache.names)
      ensures mail == Drop(old(mail), looks) && |sent| <= looks + 1
      ensures shouldShutdown == StopAmong(old(mail), looks)
      ensures forall k :: 0 <= k < |old(mail)| && Stops(old(mail)[k]) ==> |sent| <= k + 1
    {
      hide ItemBytes, Nonces, Encode, WriteFrame, Fits, ListReply, Cipher.Valid, EncryptedStream.Valid, Stuck, Drop;
      NoLook(mail);
      ghost var before, n, mail0, room := stream.stream.outgoing, stream.nonce, mail, stream.stream.room;
      NoBytes(stream.cipher, n);
      var remaining: nat, at: nat := |listing|, 0;
      sent, looks := [], 0;
      SentNothing(stream);
      while true
        invariant stream.Valid() && stream.live && !shouldShutdown
        invariant at + remaining == |listing|
        invariant sent + ListReply(listing, at) == ListReply(listing, 0)
        invariant Sent(stream, before, n, sent)
        invariant stream.stream.room + |ItemBytes(stream.cipher, n, sent)| == room
        invariant cache.names == old(cache.names)
        invariant looks == |sent| && mail == Drop(mail0, looks) && !StopAmong(mail0, looks)
        decreases remaining
      {
        var item := if remaining <= MAX_DATA_SIZE then Item(MSG_FILE_LIST_FINAL, listing[at..remaining + at])
                    else Item(MSG_FILE_LIST_PIECE, listing[at..MAX_DATA_SIZE + at]);
        DataFits(item.msg, item.payload);
        ListReplyIs(listing, at);
        NextItem(sent, item, ListReply(listing, at));
        var ok := SendItem(stream, item, before, n, sent);
        if !ok {
          GetsStuck(stream.cipher, n, room, sent, item, ListReply(listing, 0));
          return Failed, sent, looks;
        }
        sent := sent + [item];
        OneMoreLook(mail0, looks);
        ReadReceiver();
        looks := looks + 1;
        if shouldShutdown {
          return Success, sent, looks;
        }
        if item.msg == MSG_FILE_LIST_FINAL {
          if nickname !in cache.names {
            cache.names := cache.names + [nickname];
          }
          return Success, sent, looks;
        }
        at := at + MAX_DATA_SIZE;
        remaining := remaining - MAX_DATA_SIZE;
      }
    }

    /** Read and send the file from the seek point on, looking into the mailbox after each chunk. */
    method SendFile(stream: EncryptedStream, content: seq<u8>, size: nat, seek: nat, lens: seq<nat>)
      returns (r: LoopResult, ghost sent: seq<Item>, ghost looks: nat)
      requires stream.Valid() && stream.live && !shouldShutdown
      modifies this`shouldShutdown, this`mail
      modifies stream`nonce, stream`used, stream`live, stream.buffer, stream.stream`outgoing, stream.stream`room
      ensures stream.Valid() && (r.Success? <==> stream.live) && !r.ReverseConnection?
      ensures sent <= FileReply(content, size, seek, lens)
      ensures r.Success? ==> Sent(stream, old(stream.stream.outgoing), old(stream.nonce), sent)
      ensures SentAtLeast(stream, old(stream.stream.outgoing), old(stream.nonce), sent)
      ensures r.Success? ==> (sent == FileReply(content, size, seek, lens) || shouldShutdown)
      ensures r.Failed? ==>
        Stuck(stream.cipher, old(stream.nonce), old(stream.stream.room), sent, FileReply(content, size, seek, lens))
      ensures mail == Drop(old(mail), looks) && |sent| <= looks + 1
      ensures shouldShutdown == StopAmong(old(mail), looks)
      ensures forall k :: 0 <= k < |old(mail)| && Stops(old(mail)[k]) ==> |sent| <= k + 1
    {
      hide ItemBytes, Nonces, Encode, WriteFrame, Fits, FileReply, FileRead, Cipher.Valid, EncryptedStream.Valid, Stuck,
        First, Later, Drop;
      NoLook(mail);
      ghost var before, n, mail0, room := stream.stream.outgoing, stream.nonce, mail, stream.stream.room;
      NoBytes(stream.cipher, n);
      var current: nat, bounds := seek, lens;
      sent, looks := [], 0;
      SentNothing(stream);
      while true
        invariant stream.Valid() && stream.live && !shouldShutdown
        invariant sent + FileReply(content, size, current, bounds) == FileReply(content, size, seek, lens)
        invariant Sent(stream, before, n, sent)
        invariant stream.stream.room + |ItemBytes(stream.cipher, n, sent)| == room
        invariant looks == |sent| && mail == Drop(mail0, looks) && !StopAmong(mail0, looks)
        decreases if current < |content| then |content| - current else 0
      {
        var data := FileRead(content, current, First(bounds));
        FileReadSpec(content, current, First(bounds));
        var next := current + |data|;
        var item := if next >= size || data == [] then Item(MSG_FILE_FINISHED, data) else Item(MSG_FILE_CHUNK, data);
        FileReplyIs(content, size, current, bounds);
        NextItem(sent, item, FileReply(content, size, current, bounds));
        DataFits(item.msg, item.payload);
        var ok := SendItem(stream, item, before, n, sent);
        if !ok {
          GetsStuck(stream.cipher, n, room, sent, item, FileReply(content, size, seek, lens));
          return Failed, sent, looks;
        }
        sent := sent + [item];
        if item.msg == MSG_FILE_FINISHED {
          return Success, sent, looks;
        }
        OneMoreLook(mail0, looks);
        ReadReceiver();
        looks := looks + 1;
        if shouldShutdown {
          return Success, sent, looks;
        }
        current := next;
        bounds := Later(bounds);
      }
    }

    method SendDenial(stream: EncryptedStream, denial: u16) returns (r: LoopResult, ghost sent: seq<Item>)
      requires stream.Valid() && stream.live
      modifies stream`nonce, stream`used, stream`live, stream.buffer, stream.stream`outgoing, stream.stream`room
      ensures stream.Valid() && (r.Success? <==> stream.live) && !r.ReverseConnection?
      ensures sent == if r.Success? then [Item(denial, [])] else []
      ensures r.Success? ==> Sent(stream, old(stream.stream.outgoing), old(stream.nonce), sent)
      ensures r.Failed? ==>
        Stuck(stream.cipher, old(stream.nonce), old(stream.stream.room), sent, [Item(denial, [])])
    {
      NoBytes(stream.cipher, stream.nonce);
      SentNothing(stream);
      var ok := SendItem(stream, Item(denial, []), stream.stream.outgoing, stream.nonce, []);
      r := if ok then Success else Failed;
      sent := if ok then [Item(denial, [])] else [];
      assert [] + [Item(denial, [])] == [Item(denial, [])];
    }

    /** Answer the request that is in the stream's buffer. */
    method AnswerRequest(stream: EncryptedStream, ghost f: Received, listing: seq<u8>, lookup: seq<u8> -> Target,
                         lens: seq<nat>, cache: FileListCache)
      returns (r: LoopResult, ghost sent: seq<Item>, ghost looks: nat)
      requires stream.Valid() && stream.live && !shouldShutdown
      requires WellReceived(f)
      requires stream.GetMessage() == f.Msg() && stream.GetPayload() == PayloadOf(stream.cipher, f)
      modifies this`shouldShutdown, this`mail, this`activeMsg, cache
      modifies stream`nonce, stream`used, stream`live, stream.buffer, stream.stream`outgoing, stream.stream`room
      ensures stream.Valid() && (!r.Failed? ==> stream.live)
      ensures !r.Failed? ==> Sent(stream, old(stream.stream.outgoing), old(stream.nonce), sent)
      ensures r.ReverseConnection? ==> sent == [] && looks == 0
      ensures r.ReverseConnection? <==> Hello(f.Msg())
      ensures r.Failed? ==>
        FailsBy(stream.cipher, f, listing, lookup, lens, old(stream.nonce), old(stream.stream.room), sent)
      ensures Answering(stream.cipher, f, listing, lookup, lens, sent, r.Success? && !shouldShutdown)
      ensures cache.names == old(cache.names)
        || (r.Success? && cache.names == Added(old(cache.names), nickname) && sent == ListReply(listing, 0))
      ensures mail == Drop(old(mail), looks) && |sent| <= looks + 1
      ensures shouldShutdown == StopAmong(old(mail), looks)
      ensures forall k :: 0 <= k < |old(mail)| && Stops(old(mail)[k]) ==> |sent| <= k + 1
    {
      hide ItemBytes, Nonces, FileReply, ListReply, PayloadOf, FromBE, Added;
      sent, looks := [], 0;
      SentNothing(stream);
      activeMsg := stream.GetMessage();
      if activeMsg == MSG_FILE_LIST {
        r, sent, looks := SendListing(stream, listing, cache);
      } else if activeMsg == MSG_FILE_SELECTION_CONTINUE {
        var payload := stream.GetPayload();
        if payload.Err? || |payload.value| < 8 {
          return Failed, sent, looks;
        }
        match lookup(payload.value[8..]) {
          case Missing => r, sent := SendDenial(stream, MSG_FILE_INVALID_FILE);
          case Directory => r, sent := SendDenial(stream, MSG_CANNOT_SELECT_DIRECTORY);
          case Regular(content, size) =>
            r, sent, looks := SendFile(stream, content, size, FromBE(payload.value[..8]), lens);
        }
      } else if activeMsg == MSG_REVERSE || activeMsg == MSG_REVERSE_NO_LIST {
        r := ReverseConnection;
      } else {
        r := Failed;
      }
    }

    /**
     Serve one request. Unless it is told to stop or the connection breaks, the thread answers
     with exactly the complete reply to the request it read, or hands the stream over.
     */
    method RunLoop(stream: EncryptedStream, listing: seq<u8>, lookup: seq<u8> -> Target, lens: seq<nat>,
                   cache: FileListCache)
      returns (r: LoopResult, ghost sent: seq<Item>, ghost looks: nat)
      requires stream.Valid() && stream.live && !shouldShutdown
      modifies this`shouldShutdown, this`mail, this`activeMsg, cache
      modifies stream`nonce, stream`used, stream`live, stream.buffer, stream.cryptoBuffer
      modifies stream.stream`outgoing, stream.stream`room, stream.stream`incoming
      ensures stream.Valid() && (!r.Failed? ==> stream.live)
      ensures var d := Decode(stream.cipher, old(stream.nonce), old(stream.stream.incoming));
        && (d.Err? ==> r.Failed? && sent == [])
        && (d.Ok? ==>
          && stream.stream.incoming == old(stream.stream.incoming)[d.value.used..]
          && Answering(stream.cipher, d.value, listing, lookup, lens, sent, r.Success? && !shouldShutdown)
          && (!r.Failed? ==> Sent(stream, old(stream.stream.outgoing), d.value.nonce, sent))
          && (r.ReverseConnection? ==> sent == [])
          && (r.ReverseConnection? <==> Hello(d.value.Msg()) && !StopAmong(old(mail), 1))
          && (r.Failed? ==>
                FailsBy(stream.cipher, d.value, listing, lookup, lens, d.value.nonce, old(stream.stream.room), sent)))
      ensures r.ReverseConnection? ==> !shouldShutdown
      ensures cache.names == old(cache.names)
        || (r.Success? && cache.names == Added(old(cache.names), nickname) && sent == ListReply(listing, 0))
      ensures mail == Drop(old(mail), looks) && |sent| <= looks
      ensures shouldShutdown == StopAmong(old(mail), looks)
      ensures forall k :: 0 <= k < |old(mail)| && Stops(old(mail)[k]) ==> |sent| <= k
    {
      hide ItemBytes, Nonces, Encode, ListReply, Decode, PayloadOf, ToBE, FromBE, Holds, Answering, Drop, StopAmong,
        Added, FailsBy;
      ghost var n, mail0, all := stream.nonce, mail, stream.stream.incoming;
      sent, looks := [], 0;
      NoLook(mail);
      var read := stream.Read();
      if read.Err? {
        return Failed, sent, looks;
      }
      ghost var f := Decode(stream.cipher, n, all).value;
      HeldPayload(stream.cipher, stream.buffer[..], f);
      assert stream.buffer[..][..MSG_TYPE_SIZE] == stream.buffer[..MSG_TYPE_SIZE];
      SentNothing(stream);
      AnsweringNothing(stream.cipher, f, listing, lookup, lens);

      OneMoreLook(mail0, 0);
      FirstLook(mail0);
      ReadReceiver();
      looks := 1;
      if shouldShutdown {
        return Success, sent, looks;
      }
      r, sent, looks := AnswerRequest(stream, f, listing, lookup, lens, cache);
      LookAhead(mail0, 1, looks);
      looks := 1 + looks;
      if r.ReverseConnection? {
        NoLook(Drop(mail0, 1));
      }
      forall k | 0 <= k < |mail0| && Stops(mail0[k])
        ensures |sent| <= k
      {
        NoStopYet(mail0, 1, k);
      }
    }

    /**
     The serve loop of `run`. Between any two writes there is a look into the mailbox, so that the
     k-th look, if it finds a reason to stop, comes after at most k writes and ends them.
     */
    method Serve(stream: EncryptedStream, listing: seq<u8>, lookup: seq<u8> -> Target, lens: nat -> seq<nat>,
                 cache: FileListCache)
      returns (r: LoopResult, ghost writes: nat)
      requires stream.Valid() && stream.live && !shouldShutdown
      modifies this`shouldShutdown, this`mail, this`activeMsg, cache
      modifies stream`nonce, stream`used, stream`live, stream.buffer, stream.cryptoBuffer
      modifies stream.stream`outgoing, stream.stream`room, stream.stream`incoming
      ensures stream.Valid()
      ensures r.Success? ==> shouldShutdown
      ensures r.ReverseConnection? ==> stream.live && !shouldShutdown
      ensures forall k :: 0 <= k < |old(mail)| && Stops(old(mail)[k]) ==> writes <= k
      ensures cache.names == old(cache.names) || cache.names == Added(old(cache.names), nickname)
    {
      hide Sent, Answering, ListReply, Decode, Drop, StopAmong, Stops;
      NoLook(mail);
      ghost var mail0, looks: nat := mail, 0;
      writes := 0;
      var served := 0;
      while true
        invariant stream.Valid() && stream.live && !shouldShutdown
        invariant mail == Drop(mail0, looks) && !StopAmong(mail0, looks) && writes <= looks
        invariant cache.names == old(cache.names) || cache.names == Added(old(cache.names), nickname)
        decreases |stream.stream.incoming|
      {
        OneMoreLook(mail0, looks);
        forall k | 0 <= k < |mail0| && Stops(mail0[k])
          ensures looks <= k
        {
          NoStopYet(mail0, looks, k);
        }
        ReadReceiver();
        looks := looks + 1;
        if shouldShutdown {
          return Success, writes;
        }
        ghost var sent, more;
        r, sent, more := RunLoop(stream, listing, lookup, lens(served), cache);
        LookAhead(mail0, looks, more);
        forall k | 0 <= k < |mail0| && Stops(mail0[k])
          ensures writes + |sent| <= k
        {
          NoStopYet(mail0, looks, k);
        }
        writes, looks := writes + |sent|, looks + more;
        if !r.Success? || shouldShutdown {
          return r, writes;
        }
        served := served + 1;
      }
    }
  }

  predicate WellReceived(f: Received) {
    && |f.head| == PAYLOAD_OFFSET
    && |f.body| == if f.Size() == 0 then 0 else f.Size() + CrcLen(f.Msg())
  }

  /** The complete answer to what was read, if it is a request. */
  function Answer(c: Cipher, f: Received, listing: seq<u8>, lookup: seq<u8> -> Target,
                  lens: seq<nat>): Option<seq<Item>>
    requires WellReceived(f)
  {
    match PayloadOf(c, f)
    case Err(_) => if f.Msg() == MSG_FILE_LIST then Some(ListReply(listing, 0)) else None
    case Ok(payload) => Reply(listing, lookup, f.Msg(), payload, lens)
  }

  /** An answer fails because the request is none, or because a frame of it does not get through. */
  ghost predicate FailsBy(c: Cipher, f: Received, listing: seq<u8>, lookup: seq<u8> -> Target, lens: seq<nat>,
                          n: nat, room: nat, sent: seq<Item>)
    requires WellReceived(f)
  {
    match Answer(c, f, listing, lookup, lens)
    case None => !Hello(f.Msg())
    case Some(reply) => Stuck(c, n, room, sent, reply)
  }

  /** These items are the answer, or the beginning of it. */
  ghost predicate Answering(c: Cipher, f: Received, listing: seq<u8>, lookup: seq<u8> -> Target, lens: seq<nat>,
                            sent: seq<Item>, complete: bool)
    requires WellReceived(f)
  {
    var a := Answer(c, f, listing, lookup, lens);
    && (sent != [] ==> a.Some? && sent <= a.value)
    && (complete ==> a == Some(sent))
  }

  lemma AnsweringNothing(c: Cipher, f: Received, listing: seq<u8>, lookup: seq<u8> -> Target, lens: seq<nat>)
    requires WellReceived(f)
    ensures Answering(c, f, listing, lookup, lens, [], false)
  {
  }

  /** The rest of the mail after n looks. */
  function Drop(mail: seq<Mail>, n: nat): seq<Mail> {
    if n <= |mail| then mail[n..] else []
  }

  lemma OneMoreLook(mail: seq<Mail>, n: nat)
    ensures Drop(mail, n + 1) == if Drop(mail, n) == [] then [] else Drop(mail, n)[1..]
    ensures StopAmong(mail, n + 1) == (StopAmong(mail, n) || StopAmong(Drop(mail, n), 1))
  {
    if n < |mail| {
      assert Drop(mail, n)[0] == mail[n];
      if StopAmong(Drop(mail, n), 1) {
        assert Stops(mail[n]);
      }
    }
  }

  lemma NoLook(mail: seq<Mail>)
    ensures Drop(mail, 0) == mail && !StopAmong(mail, 0)
  {
  }

  lemma FirstLook(mail: seq<Mail>)
    ensures Drop(mail, 1) == if mail == [] then [] else mail[1..]
  {
  }

  lemma NoStopYet(mail: seq<Mail>, n: nat, k: nat)
    requires !StopAmong(mail, n) && k < |mail| && Stops(mail[k])
    ensures k >= n && |Drop(mail, n)| == |mail| - n && Drop(mail, n)[k - n] == mail[k]
  {
  }

  lemma LookAhead(mail: seq<Mail>, n: nat, m: nat)
    ensures Drop(Drop(mail, n), m) == Drop(mail, n + m)
    ensures StopAmong(mail, n + m) == (StopAmong(mail, n) || StopAmong(Drop(mail, n), m))
  {
    if StopAmong(mail, n + m) {
      var k :| 0 <= k < n + m && k < |mail| && Stops(mail[k]);
      if k >= n {
        assert Stops(Drop(mail, n)[k - n]);
      }
    }
    if StopAmong(Drop(mail, n), m) {
      var k :| 0 <= k < m && k < |Drop(mail, n)| && Stops(Drop(mail, n)[k]);
      assert Stops(mail[n + k]);
    }
  }

  lemma ListReplyIs(listing: seq<u8>, at: nat)
    requires at <= |listing|
    ensures var r := ListReply(listing, at);
      if |listing| - at <= MAX_DATA_SIZE then r == [Item(MSG_FILE_LIST_FINAL, listing[at..])] && r[1..] == []
      else
        && r[0] == Item(MSG_FILE_LIST_PIECE, listing[at..at + MAX_DATA_SIZE])
        && r[1..] == ListReply(listing, at + MAX_DATA_SIZE)
  {
  }

  lemma FileReplyIs(content: seq<u8>, size: nat, pos: nat, lens: seq<nat>)
    ensures var r := FileReply(content, size, pos, lens);
      var data := FileRead(content, pos, First(lens));
      if pos + |data| >= size || data == [] then r == [Item(MSG_FILE_FINISHED, data)] && r[1..] == []
      else r[0] == Item(MSG_FILE_CHUNK, data) && r[1..] == FileReply(content, size, pos + |data|, Later(lens))
  {
  }

  lemma NoBytes(c: Cipher, n: nat)
    ensures ItemBytes(c, n, []) == [] && Nonces([]) == 0
  {
  }

  lemma SentNothing(stream: EncryptedStream)
    ensures Sent(stream, stream.stream.outgoing, stream.nonce, [])
  {
  }

  /** The next frame does not get through. */
  lemma GetsStuck(c: Cipher, n: nat, room: nat, sent: seq<Item>, item: Item, reply: seq<Item>)
    requires sent + [item] <= reply && |ItemBytes(c, n, sent)| <= room
    requires !WriteFrame(c, n + Nonces(sent), room - |ItemBytes(c, n, sent)|, item.msg, item.payload).ok
    ensures Stuck(c, n, room, sent, reply)
  {
    hide WriteFrame, ItemBytes, Nonces;
    assert reply[|sent|] == (sent + [item])[|sent|];
  }

  lemma NextItem(sent: seq<Item>, item: Item, rest: seq<Item>)
    requires rest != [] && rest[0] == item
    ensures sent + rest == (sent + [item]) + rest[1..]
  {
  }
}
