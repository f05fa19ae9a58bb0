/**
 src/encrypted_stream.rs: the framed, encrypted stream over one TCP connection. Its buffers are
 overwritten in place and one counter serves both directions; every method is proved against
 the functions of FrameCodec.
 */
module EncryptedStreams {
  import opened Common
  import opened CoreConsts
  import opened FrameCodec

  /**
   A TCP connection, seen from one end. `incoming` is every byte that will still arrive before
   the connection ends, `room` the number of bytes the network will still take, so that a
   disconnection at any point is a choice of these two.
   */
  class TcpStream {
    var incoming: seq<u8>
    var outgoing: seq<u8>
    var room: nat

    constructor (incoming: seq<u8>, room: nat)
      ensures this.incoming == incoming && this.outgoing == [] && this.room == room
    {
      this.incoming := incoming;
      this.outgoing := [];
      this.room := room;
    }

    /** `read_exact` into the first `size` bytes of the buffer. */
    method ReadExact(buf: array<u8>, size: nat) returns (ok: bool)
      requires size <= buf.Length
      modifies this`incoming, buf
      ensures ok == (size <= |old(incoming)|)
      ensures ok ==> buf[..size] == old(incoming)[..size]
      ensures incoming == if ok then old(incoming)[size..] else []
    {
      ok := size <= |incoming|;
      if ok {
        CopyInto(buf, 0, incoming[..size]);
        incoming := incoming[size..];
      } else {
        incoming := [];
      }
    }

    /** `write_all`: on failure some prefix of the data has been sent. */
    method WriteAll(data: seq<u8>) returns (ok: bool)
      modifies this`outgoing, this`room
      ensures ok == (|data| <= old(room))
      ensures ok ==> outgoing == old(outgoing) + data && room == old(room) - |data|
      ensures !ok ==> outgoing == old(outgoing) + data[..old(room)] && room == 0
    {
      ok := |data| <= room;
      if ok {
        outgoing, room := outgoing + data, room - |data|;
      } else {
        outgoing, room := outgoing + data[..room], 0;
      }
    }
  }

  /** `copy_from_slice` into a part of a buffer. */
  method CopyInto(a: array<u8>, at: nat, s: seq<u8>)
    requires at + |s| <= a.Length
    modifies a
    ensures a[..] == old(a[..at]) + s + old(a[at + |s|..])
  {
    forall i | 0 <= i < |s| {
      a[at + i] := s[i];
    }
  }

  ghost predicate Increasing(s: seq<nat>) {
    forall i, j :: 0 <= i < j < |s| ==> s[i] < s[j]
  }

  /** What `get_payload` makes of the buffer's contents. */
  function PayloadInBuffer(c: Cipher, b: seq<u8>): Result<seq<u8>, ReadError>
    requires |b| == TOTAL_BUFFER_SIZE
  {
    var size := FromBE32(b[MSG_TYPE_SIZE..PAYLOAD_OFFSET]);
    var msg := FromBE16(b[..MSG_TYPE_SIZE]);
    if PAYLOAD_OFFSET + size > TOTAL_BUFFER_SIZE then Err(Oversize)
    else
      var payload := b[PAYLOAD_OFFSET..PAYLOAD_OFFSET + size];
      if IsCrcPayload(msg) && size > 0 then
        var end := PAYLOAD_OFFSET + size + CRC_SIZE;
        if end > TOTAL_BUFFER_SIZE then Err(Oversize)
        else if FromBE32(b[PAYLOAD_OFFSET + size..end]) != c.crc(payload) then Err(BadChecksum)
        else Ok(payload)
      else Ok(payload)
  }

  /** The buffer starts with this received frame. */
  ghost predicate Holds(b: seq<u8>, head: seq<u8>, body: seq<u8>) {
    head + body <= b
  }

  lemma HeldPayload(c: Cipher, b: seq<u8>, f: Received)
    requires |b| == TOTAL_BUFFER_SIZE && Holds(b, f.head, f.body)
    requires |f.head| == PAYLOAD_OFFSET
    requires |f.body| == if f.Size() == 0 then 0 else f.Size() + CrcLen(f.Msg())
    ensures FromBE16(b[..MSG_TYPE_SIZE]) == f.Msg()
    ensures PayloadInBuffer(c, b) == PayloadOf(c, f)
  {
    var all := f.head + f.body;
    assert b[..MSG_TYPE_SIZE] == all[..MSG_TYPE_SIZE] == f.head[..MSG_TYPE_SIZE];
    assert b[MSG_TYPE_SIZE..PAYLOAD_OFFSET] == all[MSG_TYPE_SIZE..PAYLOAD_OFFSET] == f.head[MSG_TYPE_SIZE..];
    var end := PAYLOAD_OFFSET + f.Size();
    assert b[PAYLOAD_OFFSET..end] == all[PAYLOAD_OFFSET..end] == f.body[..f.Size()];
    if IsCrcPayload(f.Msg()) && f.Size() > 0 {
      assert b[end..end + CRC_SIZE] == all[end..end + CRC_SIZE] == f.body[f.Size()..];
    }
  }

  lemma WholePart(bytes: seq<u8>, size: nat)
    requires size <= |bytes| && size <= TOTAL_CRYPTO_BUFFER_SIZE
    ensures PartRest(bytes, size) == bytes[size..]
  {
  }

  class EncryptedStream {
    const stream: TcpStream
    const cipher: Cipher
    var nonce: nat
    const cryptoBuffer: array<u8>
    const buffer: array<u8>
    /** The nonces this end has encrypted with, and whether no call has failed so far. */
    ghost var used: seq<nat>
    ghost var live: bool

    ghost predicate Valid()
      reads this
    {
      && cipher.Valid()
      && cryptoBuffer.Length == TOTAL_CRYPTO_BUFFER_SIZE
      && buffer.Length == TOTAL_BUFFER_SIZE
      && cryptoBuffer != buffer
      && nonce <= NONCE_MAX
      && Increasing(used)
      && (forall i :: 0 <= i < |used| ==> used[i] <= NONCE_MAX)
      && (live ==> forall i :: 0 <= i < |used| ==> used[i] < nonce)
    }

    constructor (stream: TcpStream, cipher: Cipher)
      requires cipher.Valid()
      ensures Valid() && live && nonce == NONCE_INIT && used == []
      ensures this.stream == stream && this.cipher == cipher
      ensures fresh(buffer) && fresh(cryptoBuffer)
    {
      this.stream := stream;
      this.cipher := cipher;
      this.nonce := NONCE_INIT;
      this.cryptoBuffer := new u8[TOTAL_CRYPTO_BUFFER_SIZE](_ => 0);
      this.buffer := new u8[TOTAL_BUFFER_SIZE](_ => 0);
      this.used := [];
      this.live := true;
    }

    method IncrementNonce() returns (ok: bool)
      modifies this`nonce
      ensures ok == (old(nonce) < NONCE_MAX)
      ensures nonce == if ok then old(nonce) + 1 else old(nonce)
    {
      if nonce >= NONCE_MAX {
        return false;
      }
      nonce := nonce + 1;
      return true;
    }

    /** Receive one part, decrypt it and copy it into the buffer. */
    method ReadPart(size: nat, at: nat) returns (r: Result<seq<u8>, ReadError>)
      requires Valid() && !live
      modifies this`nonce, buffer, cryptoBuffer, stream`incoming
      ensures Valid()
      ensures r == OpenPart(cipher, old(nonce), old(stream.incoming), size, at)
      ensures nonce == if r.Ok? then old(nonce) + 1 else old(nonce)
      ensures stream.incoming == PartRest(old(stream.incoming), size)
      ensures r.Ok? ==>
        && at + |r.value| <= TOTAL_BUFFER_SIZE
        && buffer[..] == old(buffer[..at]) + r.value + old(buffer[at + |r.value|..])
    {
      if size > cryptoBuffer.Length {
        return Err(Oversize);
      }
      var ok := stream.ReadExact(cryptoBuffer, size);
      if !ok {
        return Err(Starved);
      }
      match cipher.dec(NonceBytes(nonce), cryptoBuffer[..size]) {
        case None => r := Err(Forged);
        case Some(plain) =>
          if at + |plain| > buffer.Length {
            return Err(Oversize);
          }
          CopyInto(buffer, at, plain);
          ok := IncrementNonce();
          r := if ok then Ok(plain) else Err(NonceSpent);
      }
    }

    /** The payload, if the header that is now in the buffer announces one. */
    method ReadBody(ghost head: seq<u8>) returns (r: Result<(), ReadError>)
      requires Valid() && !live
      requires |head| == PAYLOAD_OFFSET && buffer[..PAYLOAD_OFFSET] == head
      modifies this`nonce, buffer, cryptoBuffer, stream`incoming
      ensures Valid() && (stream.incoming, nonce) == LeftByBody(cipher, head, old(nonce), old(stream.incoming))
      ensures var d := DecodeBody(cipher, head, old(nonce), old(stream.incoming));
        && (d.Err? ==> r == Err(d.error))
        && (d.Ok? ==>
          && r == Ok(())
          && nonce == d.value.nonce
          && stream.incoming == old(stream.incoming)[d.value.used..]
          && Holds(buffer[..], d.value.head, d.value.body))
    {
      hide FromBE16, FromBE32, ToBE, Increasing, Cipher.Valid;
      assert buffer[MSG_TYPE_SIZE..PAYLOAD_OFFSET] == head[MSG_TYPE_SIZE..];
      assert buffer[..MSG_TYPE_SIZE] == head[..MSG_TYPE_SIZE];
      var payloadSize := FromBE32(buffer[MSG_TYPE_SIZE..PAYLOAD_OFFSET]);
      var msg := GetMessage();
      if payloadSize == 0 {
        assert buffer[..][..PAYLOAD_OFFSET] == head + [];
        return Ok(());
      }
      var size := payloadSize + CRYPTO_EXTENSION_SIZE;
      if IsCrcPayload(msg) {
        size := size + CRC_SIZE;
      }
      var body := ReadPart(size, PAYLOAD_OFFSET);
      if body.Err? {
        return Err(body.error);
      }
      assert buffer[..][..PAYLOAD_OFFSET + |body.value|] == head + body.value;
      return Ok(());
    }

    method Read() returns (r: Result<(), ReadError>)
      requires Valid() && live
      modifies this`nonce, this`live, buffer, cryptoBuffer, stream`incoming
      ensures Valid() && live == r.Ok?
      ensures (stream.incoming, nonce) == LeftByRead(cipher, old(nonce), old(stream.incoming))
      ensures var d := Decode(cipher, old(nonce), old(stream.incoming));
        && (d.Err? ==> r == Err(d.error))
        && (d.Ok? ==>
          && r == Ok(())
          && nonce == d.value.nonce
          && stream.incoming == old(stream.incoming)[d.value.used..]
          && Holds(buffer[..], d.value.head, d.value.body))
    {
      hide Decode, DecodeBody, LeftByRead, LeftByBody, OpenPart, PartRest, Holds, FromBE16, FromBE32, CrcLen, ToBE;
      live := false;
      var head := ReadPart(PAYLOAD_OFFSET + CRYPTO_EXTENSION_SIZE, 0);
      DecodeStarts(cipher, old(nonce), old(stream.incoming));
      if head.Err? {
        return Err(head.error);
      }
      DecodeInTwo(cipher, old(nonce), old(stream.incoming), head.value);
      WholePart(old(stream.incoming), PAYLOAD_OFFSET + CRYPTO_EXTENSION_SIZE);
      assert buffer[..PAYLOAD_OFFSET] == head.value;
      r := ReadBody(head.value);
      live := r.Ok?;
    }

    function GetMessage(): u16
      requires Valid()
      reads this, buffer
    {
      FromBE16(buffer[..MSG_TYPE_SIZE])
    }

    function GetPayload(): Result<seq<u8>, ReadError>
      requires Valid()
      reads this, buffer
    {
      PayloadInBuffer(cipher, buffer[..])
    }

    /** Encrypt the first `size` bytes of the buffer and send them. */
    method SendPart(size: nat) returns (ok: bool)
      requires Valid() && live && size <= TOTAL_BUFFER_SIZE
      modifies this`nonce, this`used, this`live, stream`outgoing, stream`room
      ensures Valid() && live == ok
      ensures var w := SealPart(cipher, old(nonce), old(stream.room), old(buffer[..size]));
        && ok == w.ok && nonce == w.nonce && used == old(used) + w.used
        && stream.outgoing == old(stream.outgoing) + w.sent
        && stream.room == old(stream.room) - |w.sent|
    {
      live := false;
      used := used + [nonce];
      var x := cipher.enc(NonceBytes(nonce), buffer[..size]);
      ok := stream.WriteAll(x);
      if ok {
        ok := IncrementNonce();
        live := ok;
      }
    }

    method WriteMessage(msg: u16, payload: seq<u8>) returns (ok: bool)
      requires Valid() && live
      modifies this`nonce, this`used, this`live, buffer, stream`outgoing, stream`room
      ensures Valid() && live == ok
      ensures var w := SealPart(cipher, old(nonce), old(stream.room), Header(msg, SizeField(payload)));
        && ok == w.ok && nonce == w.nonce && used == old(used) + w.used
        && stream.outgoing == old(stream.outgoing) + w.sent
        && stream.room == old(stream.room) - |w.sent|
    {
      CopyInto(buffer, 0, ToBE(msg, MSG_TYPE_SIZE));
      CopyInto(buffer, MSG_TYPE_SIZE, ToBE(SizeField(payload), PAYLOAD_SIZE_LEN));
      assert buffer[..PAYLOAD_OFFSET] == Header(msg, SizeField(payload));
      ok := SendPart(PAYLOAD_OFFSET);
    }

    /** A payload that is too long for the buffer panics in the copy, before anything of it is sealed. */
    method WritePayload(msg: u16, payload: seq<u8>) returns (ok: bool)
      requires Valid() && live
      modifies this`nonce, this`used, this`live, buffer, stream`outgoing, stream`room
      ensures Valid() && live == ok
      ensures !Writable(msg, payload) ==> !ok && nonce == old(nonce) && used == old(used)
      ensures !Writable(msg, payload) ==> stream.outgoing == old(stream.outgoing) && stream.room == old(stream.room)
      ensures Writable(msg, payload) ==>
        var w := SealPart(cipher, old(nonce), old(stream.room), Body(cipher, msg, payload));
        && ok == w.ok && nonce == w.nonce && used == old(used) + w.used
        && stream.outgoing == old(stream.outgoing) + w.sent
        && stream.room == old(stream.room) - |w.sent|
    {
      var usedLen := |payload|;
      if usedLen > buffer.Length {
        live := false;
        return false;
      }
      CopyInto(buffer, 0, payload);
      if IsCrcPayload(msg) {
        if usedLen + CRC_SIZE > buffer.Length {
          live := false;
          return false;
        }
        CopyInto(buffer, |payload|, ToBE(cipher.crc(payload), CRC_SIZE));
        usedLen := usedLen + CRC_SIZE;
      }
      assert buffer[..usedLen] == Body(cipher, msg, payload);
      ok := SendPart(usedLen);
    }

    /** One frame. `used` grows by the nonces encrypted with, all of them new. */
    method Write(msg: u16, payload: seq<u8>) returns (ok: bool)
      requires Valid() && live
      modifies this`nonce, this`used, this`live, buffer, stream`outgoing, stream`room
      ensures Valid() && live == ok
      ensures var w := WriteFrame(cipher, old(nonce), old(stream.room), msg, payload);
        && ok == w.ok && nonce == w.nonce && used == old(used) + w.used
        && stream.outgoing == old(stream.outgoing) + w.sent
        && stream.room == old(stream.room) - |w.sent|
    {
      hide WriteFrame, SealPart, Header, Body, ToBE, Writable;
      WriteInTwo(cipher, nonce, stream.room, msg, payload);
      ok := WriteMessage(msg, payload);
      if ok && payload != [] {
        ok := WritePayload(msg, payload);
      }
    }
  }

  /**
   One frame from one end of a connection to the other: the receiver finds exactly what was sent,
   consumes exactly its bytes, and the two counters stay equal.
   */
  method Transmit(from: EncryptedStream, to: EncryptedStream, msg: u16, payload: seq<u8>)
    returns (got: Option<(u16, seq<u8>)>)
    requires from.Valid() && from.live && to.Valid() && to.live
    requires from.cipher == to.cipher && from.nonce == to.nonce
    requires from != to && from.stream != to.stream
    requires {from.buffer, from.cryptoBuffer} !! {to.buffer, to.cryptoBuffer}
    requires to.stream.incoming == []
    modifies from, from.buffer, from.stream, to, to.buffer, to.cryptoBuffer, to.stream
    ensures from.Valid() && to.Valid()
    ensures got.Some? <==>
      && Fits(msg, payload)
      && |Encode(from.cipher, old(from.nonce), msg, payload)| <= old(from.stream.room)
      && old(from.nonce) + Parts(payload) <= NONCE_MAX
    ensures got.Some? ==>
      && got.value == (msg, payload)
      && to.stream.incoming == []
      && from.nonce == to.nonce == old(from.nonce) + Parts(payload)
      && from.live && to.live
  {
    hide Encode, Decode, PayloadInBuffer, FromBE16, WriteFrame;
    ghost var n := from.nonce;
    ghost var before := from.stream.outgoing;
    ghost var room := from.stream.room;
    WriteFrameOutcome(from.cipher, n, room, msg, payload);
    var start := |from.stream.outgoing|;
    var ok := from.Write(msg, payload);
    if !ok {
      return None;
    }
    // the network delivers what was sent
    to.stream.incoming := from.stream.outgoing[start..];
    ghost var wire := Encode(from.cipher, n, msg, payload);
    assert to.stream.incoming == wire;
    ReadableExactly(from.cipher, n, msg, payload, []);
    assert wire + [] == wire;
    var r := to.Read();
    if r.Err? {
      return None;
    }
    FrameRoundTrip(from.cipher, n, msg, payload, []);
    ghost var f := Decode(to.cipher, n, wire).value;
    HeldPayload(to.cipher, to.buffer[..], f);
    assert to.buffer[..][..MSG_TYPE_SIZE] == to.buffer[..MSG_TYPE_SIZE];
    var p := to.GetPayload();
    match p {
      case Ok(bytes) => return Some((to.GetMessage(), bytes));
      case Err(_) => assert false; return None;
    }
  }
}
