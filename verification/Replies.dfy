/**
 The frames that one request is answered with when nothing interrupts the answer, and what the
 asking end makes of them.
 */
module Replies {
  import opened Common
  import opened CoreConsts
  import opened FrameCodec
  import opened Protocol
  import opened ProtocolProofs

  datatype Item = Item(msg: u16, payload: seq<u8>)

  /** The pieces of a listing, from this offset on. */
  function ListReply(listing: seq<u8>, sent: nat): (r: seq<Item>)
    requires sent <= |listing|
    ensures r != []
    decreases |listing| - sent
  {
    if |listing| - sent <= MAX_DATA_SIZE then [Item(MSG_FILE_LIST_FINAL, listing[sent..])]
    else [Item(MSG_FILE_LIST_PIECE, listing[sent..sent + MAX_DATA_SIZE])]
         + ListReply(listing, sent + MAX_DATA_SIZE)
  }

  /** The file from this position on; `lens` bounds the successive reads, which may be short. */
  function FileReply(content: seq<u8>, size: nat, pos: nat, lens: seq<nat>): (r: seq<Item>)
    ensures r != []
    decreases if pos < |content| then |content| - pos else 0
  {
    var data := FileRead(content, pos, First(lens));
    if pos + |data| >= size || data == [] then [Item(MSG_FILE_FINISHED, data)]
    else [Item(MSG_FILE_CHUNK, data)]
         + FileReply(content, size, pos + |data|, Later(lens))
  }

  function First(lens: seq<nat>): nat {
    if lens == [] then MAX_DATA_SIZE else lens[0]
  }

  function Later(lens: seq<nat>): seq<nat> {
    if lens == [] then [] else lens[1..]
  }

  lemma FileReadSpec(content: seq<u8>, pos: nat, len: nat)
    ensures var data := FileRead(content, pos, len);
      && |data| <= MAX_DATA_SIZE
      && (data == [] <==> pos >= |content|)
      && (pos <= |content| ==> pos + |data| <= |content| && data == content[pos..pos + |data|])
  {
  }

  /** The complete answer to a request, if it is one that is answered. */
  function Reply(listing: seq<u8>, lookup: seq<u8> -> Target, msg: u16, payload: seq<u8>,
                 lens: seq<nat>): Option<seq<Item>> {
    if msg == MSG_FILE_LIST then Some(ListReply(listing, 0))
    else if msg == MSG_FILE_SELECTION_CONTINUE && |payload| >= 8 then
      match lookup(payload[8..])
      case Missing => Some([Item(MSG_FILE_INVALID_FILE, [])])
      case Directory => Some([Item(MSG_CANNOT_SELECT_DIRECTORY, [])])
      case Regular(content, size) => Some(FileReply(content, size, FromBE(payload[..8]), lens))
    else None
  }

  function AllPayload(r: seq<Item>): seq<u8> {
    if r == [] then [] else r[0].payload + AllPayload(r[1..])
  }

  ghost predicate AllFit(r: seq<Item>) {
    forall i :: 0 <= i < |r| ==> Fits(r[i].msg, r[i].payload)
  }

  // ---------------------------------------------------------------- shape of a reply

  /** Exactly the last message of a reply is one that ends an exchange of its kind. */
  ghost predicate EndsOnce(r: seq<Item>, list: bool) {
    r != [] && forall i :: 0 <= i < |r| ==> (Final(list, r[i].msg) <==> i == |r| - 1)
  }

  lemma EndsOnceCons(first: Item, r: seq<Item>, list: bool)
    requires EndsOnce(r, list) && !Final(list, first.msg)
    ensures EndsOnce([first] + r, list)
  {
    var all := [first] + r;
    forall i | 0 <= i < |all|
      ensures Final(list, all[i].msg) <==> i == |all| - 1
    {
      if i > 0 {
        assert all[i] == r[i - 1];
      }
    }
  }

  /** ceil(len / 100000), and one piece for the empty listing. */
  function PieceCount(len: nat): nat {
    if len == 0 then 1 else (len + MAX_DATA_SIZE - 1) / MAX_DATA_SIZE
  }

  /**
   Listing transfer: the number of pieces, all but the last of them full, only the last one
   FINAL, and nothing lost between them.
   */
  lemma {:induction false} ListReplyShape(listing: seq<u8>, sent: nat)
    requires sent <= |listing|
    ensures var r := ListReply(listing, sent);
      && |r| == PieceCount(|listing| - sent)
      && EndsOnce(r, true)
      && AllFit(r)
      && AllPayload(r) == listing[sent..]
      && (forall i :: 0 <= i < |r| - 1 ==> |r[i].payload| == MAX_DATA_SIZE && r[i].msg == MSG_FILE_LIST_PIECE)
    decreases |listing| - sent
  {
    var r := ListReply(listing, sent);
    if |listing| - sent <= MAX_DATA_SIZE {
      assert AllPayload(r) == r[0].payload;
    } else {
      var rest := ListReply(listing, sent + MAX_DATA_SIZE);
      ListReplyShape(listing, sent + MAX_DATA_SIZE);
      EndsOnceCons(r[0], rest, true);
      assert r[1..] == rest;
      assert listing[sent..] == listing[sent..sent + MAX_DATA_SIZE] + listing[sent + MAX_DATA_SIZE..];
      forall i | 0 <= i < |r| - 1
        ensures |r[i].payload| == MAX_DATA_SIZE && r[i].msg == MSG_FILE_LIST_PIECE
      {
        if i > 0 {
          assert r[i] == rest[i - 1];
        }
      }
    }
  }

  lemma FinalFileMessages()
    ensures Final(false, MSG_FILE_FINISHED) && !Final(false, MSG_FILE_CHUNK)
  {
  }

  /**
   A file reply carries a stretch of the source, and stops at its end or past the listed size. From
   a position at or beyond the end it is one empty FINISHED.
   */
  lemma {:induction false} FileReplyShape(content: seq<u8>, size: nat, pos: nat, lens: seq<nat>)
    ensures var r := FileReply(content, size, pos, lens);
      && EndsOnce(r, false) && AllFit(r)
      && (pos >= |content| ==> r == [Item(MSG_FILE_FINISHED, [])])
      && (pos <= |content| ==>
        var end := pos + |AllPayload(r)|;
        && end <= |content| && AllPayload(r) == content[pos..end]
        && (end >= size || end == |content|))
    decreases if pos < |content| then |content| - pos else 0
  {
    hide FileRead, Fits, Final;
    FileReadSpec(content, pos, First(lens));
    DataFits(MSG_FILE_FINISHED, FileRead(content, pos, First(lens)));
    DataFits(MSG_FILE_CHUNK, FileRead(content, pos, First(lens)));
    FinalFileMessages();
    var r := FileReply(content, size, pos, lens);
    var data := r[0].payload;
    var next := pos + |data|;
    if next >= size || data == [] {
      assert r[1..] == [];
      assert AllPayload(r) == data;
    } else {
      var rest := FileReply(content, size, next, Later(lens));
      FileReplyShape(content, size, next, Later(lens));
      EndsOnceCons(r[0], rest, false);
      assert r[1..] == rest;
      var end := next + |AllPayload(rest)|;
      assert content[pos..end] == content[pos..next] + content[next..end];
    }
  }

  // ---------------------------------------------------------------- receiving a file

  datatype Verdict = Completed | Disagreement | More

  /** The receive loop over these frames: the verdict, and what is on disk then. */
  function Absorb(have: seq<u8>, want: nat, r: seq<Item>): (Verdict, seq<u8>)
    decreases |r|
  {
    if r == [] then (More, have)
    else
      var now := have + r[0].payload;
      var remote, here := r[0].msg == MSG_FILE_FINISHED, |now| == want;
      if remote && here then (Completed, now)
      else if remote != here then (Disagreement, now)
      else Absorb(now, want, r[1..])
  }

  /**
   A source that still has its listed size is completed by one uninterrupted reply, from any
   point of resumption and however short the reads are.
   */
  lemma {:induction false} UnchangedSourceCompletes(content: seq<u8>, pos: nat, lens: seq<nat>)
    requires pos < |content|
    ensures Absorb(content[..pos], |content|, FileReply(content, |content|, pos, lens)) == (Completed, content)
    decreases |content| - pos
  {
    var r := FileReply(content, |content|, pos, lens);
    var data := r[0].payload;
    var next := pos + |data|;
    assert content[..pos] + data == content[..next];
    if next < |content| {
      var more := Later(lens);
      UnchangedSourceCompletes(content, next, more);
      assert r[1..] == FileReply(content, |content|, next, more);
    } else {
      assert content[..next] == content;
    }
  }

  /** A source that has become shorter is never completed. */
  lemma {:induction false} ShorterSourceDisagrees(content: seq<u8>, size: nat, pos: nat, lens: seq<nat>)
    requires pos <= |content| < size
    ensures Absorb(content[..pos], size, FileReply(content, size, pos, lens)).0 == Disagreement
    decreases |content| - pos
  {
    var r := FileReply(content, size, pos, lens);
    var data := r[0].payload;
    var next := pos + |data|;
    assert content[..pos] + data == content[..next];
    if data != [] {
      var more := Later(lens);
      ShorterSourceDisagrees(content, size, next, more);
      assert r[1..] == FileReply(content, size, next, more);
    }
  }

  /** One byte at a time up to the last listed byte, and then two. */
  function Overrun(left: nat): seq<nat> {
    if left <= 1 then [2] else [1] + Overrun(left - 1)
  }

  /** A source that has become longer runs past the listed size under some reads. */
  lemma {:induction false} LongerSourceCanDisagree(content: seq<u8>, size: nat, pos: nat)
    requires pos < size < |content|
    ensures Absorb(content[..pos], size, FileReply(content, size, pos, Overrun(size - pos))).0 == Disagreement
    decreases size - pos
  {
    var lens := Overrun(size - pos);
    var r := FileReply(content, size, pos, lens);
    var data := r[0].payload;
    assert content[..pos] + data == content[..pos + |data|];
    if size - pos > 1 {
      assert lens[1..] == Overrun(size - pos - 1);
      LongerSourceCanDisagree(content, size, pos + 1);
      assert r[1..] == FileReply(content, size, pos + 1, lens[1..]);
    }
  }

  /**
   Exactly when a resumed transfer is sure to complete: the source still has the size that the
   listing gave it.
   */
  lemma SureToComplete(content: seq<u8>, size: nat, pos: nat)
    requires pos <= |content| && pos < size
    ensures (forall lens :: Absorb(content[..pos], size, FileReply(content, size, pos, lens)).0 == Completed)
      <==> |content| == size
  {
    if |content| == size {
      forall lens: seq<nat>
        ensures Absorb(content[..pos], size, FileReply(content, size, pos, lens)).0 == Completed
      {
        UnchangedSourceCompletes(content, pos, lens);
      }
    } else if |content| < size {
      ShorterSourceDisagrees(content, size, pos, []);
    } else {
      LongerSourceCanDisagree(content, size, pos);
    }
  }
}
