/**
 The wire format of src/encrypted_stream.rs as functions on byte strings: what one call of
 `EncryptedStream::write` puts on the wire, and what one call of `read` followed by
 `get_message` and `get_payload` makes of the bytes it finds there.
 */
module FrameCodec {
  import opened Common
  import opened CoreConsts

  /**
   The AEAD cipher under the connection's key, and the checksum. Both are library code, so they
   are arbitrary functions; Valid() holds the facts about AES-256-GCM that the program relies on:
   a ciphertext is 16 bytes longer than its plaintext, it decrypts to it, and nothing else does.
   */
  datatype Cipher = Cipher(
    enc: (seq<u8>, seq<u8>) -> seq<u8>,
    dec: (seq<u8>, seq<u8>) -> Option<seq<u8>>,
    crc: seq<u8> -> u32)
  {
    ghost predicate Valid() {
      && (forall n, p :: |enc(n, p)| == |p| + CRYPTO_EXTENSION_SIZE)
      && (forall n, p :: dec(n, enc(n, p)) == Some(p))
      && (forall n, x :: dec(n, x).Some? ==> x == enc(n, dec(n, x).value))
    }
  }

  /** `get_nonce_bytes`: the low 12 of the 16 bytes of the counter. */
  function NonceBytes(n: nat): (b: seq<u8>)
    ensures |b| == 12
  {
    ToBE(n, 16)[4..]
  }

  function Header(msg: u16, size: u32): (h: seq<u8>)
    ensures |h| == PAYLOAD_OFFSET
  {
    ToBE(msg, MSG_TYPE_SIZE) + ToBE(size, PAYLOAD_SIZE_LEN)
  }

  function CrcLen(msg: u16): nat {
    if IsCrcPayload(msg) then CRC_SIZE else 0
  }

  function Body(c: Cipher, msg: u16, payload: seq<u8>): (b: seq<u8>)
    ensures |b| == |payload| + CrcLen(msg)
  {
    payload + if IsCrcPayload(msg) then ToBE(c.crc(payload), CRC_SIZE) else []
  }

  /** The number of nonces one frame takes: the payload is sealed on its own. */
  function Parts(payload: seq<u8>): nat {
    if payload == [] then 1 else 2
  }

  /**
   A payload that the reader has room for behind the header. The program's own frames stay within
   MAX_DATA_SIZE, but nothing checks that for a selection, which holds a path.
   */
  predicate Fits(msg: u16, payload: seq<u8>) {
    PAYLOAD_OFFSET + |payload| + CrcLen(msg) <= TOTAL_BUFFER_SIZE
  }

  /** A payload that the writer has room for: it copies the payload to the start of the buffer. */
  predicate Writable(msg: u16, payload: seq<u8>) {
    |payload| + CrcLen(msg) <= TOTAL_BUFFER_SIZE
  }

  lemma DataFits(msg: u16, payload: seq<u8>)
    requires |payload| <= MAX_DATA_SIZE
    ensures Fits(msg, payload)
  {
  }

  /** `payload.len() as u32`. */
  function SizeField(payload: seq<u8>): u32 {
    |payload| % 0x1_0000_0000
  }

  /** The bytes of one complete frame. */
  function Encode(c: Cipher, n: nat, msg: u16, payload: seq<u8>): seq<u8> {
    c.enc(NonceBytes(n), Header(msg, SizeField(payload)))
    + if payload == [] then [] else c.enc(NonceBytes(n + 1), Body(c, msg, payload))
  }

  // ---------------------------------------------------------------- writing

  /**
   What a write did: the bytes that reached the wire, the counter afterwards, and the nonces
   that were used to encrypt.
   */
  datatype Written = Written(ok: bool, sent: seq<u8>, nonce: nat, used: seq<nat>)

  /** Seal and send one part over a connection that will take `room` more bytes before it fails. */
  function SealPart(c: Cipher, n: nat, room: nat, plain: seq<u8>): Written {
    var x := c.enc(NonceBytes(n), plain);
    if |x| > room then Written(false, x[..room], n, [n])
    else if n >= NONCE_MAX then Written(false, x, n, [n])
    else Written(true, x, n + 1, [n])
  }

  /** `write`. A payload that is too long for the buffer panics once its header is on the wire. */
  function WriteFrame(c: Cipher, n: nat, room: nat, msg: u16, payload: seq<u8>): Written {
    var h := SealPart(c, n, room, Header(msg, SizeField(payload)));
    if !h.ok || payload == [] then h
    else if !Writable(msg, payload) then Written(false, h.sent, h.nonce, h.used)
    else
      var b := SealPart(c, h.nonce, room - |h.sent|, Body(c, msg, payload));
      Written(b.ok, h.sent + b.sent, b.nonce, h.used + b.used)
  }

  lemma WriteInTwo(c: Cipher, n: nat, room: nat, msg: u16, payload: seq<u8>)
    ensures var h := SealPart(c, n, room, Header(msg, SizeField(payload)));
      var w := WriteFrame(c, n, room, msg, payload);
      && |h.sent| <= room
      && (!h.ok || payload == [] ==> w == h)
      && (h.ok && payload != [] && !Writable(msg, payload) ==> w == Written(false, h.sent, h.nonce, h.used))
      && (h.ok && payload != [] && Writable(msg, payload) ==>
        var b := SealPart(c, h.nonce, room - |h.sent|, Body(c, msg, payload));
        w == Written(b.ok, h.sent + b.sent, b.nonce, h.used + b.used))
  {
  }

  /** A write succeeds exactly when the frame fits the buffer and the room and the counter has nonces to spare. */
  lemma WriteFrameOutcome(c: Cipher, n: nat, room: nat, msg: u16, payload: seq<u8>)
    requires c.Valid()
    ensures var w := WriteFrame(c, n, room, msg, payload);
      var e := Encode(c, n, msg, payload);
      && (w.ok <==> Writable(msg, payload) && |e| <= room && n + Parts(payload) <= NONCE_MAX)
      && (w.ok ==> w.sent == e && w.nonce == n + Parts(payload))
      && w.sent <= e
      && |w.sent| <= room
      && w.nonce >= n
      && (w.used == [n] || (w.used == [n, n + 1] && payload != [] && n < NONCE_MAX))
      && (w.ok ==> |w.used| == Parts(payload))
  {
    hide Body, Header, NonceBytes;
    var h := SealPart(c, n, room, Header(msg, SizeField(payload)));
    if h.ok && payload != [] && Writable(msg, payload) {
      var b := SealPart(c, h.nonce, room - |h.sent|, Body(c, msg, payload));
      assert c.enc(NonceBytes(n + 1), Body(c, msg, payload))[..|b.sent|] == b.sent;
    }
  }

  // ---------------------------------------------------------------- reading

  /**
   Starved: the connection ended before the part was complete. Forged: decryption failed.
   NonceSpent: the counter is at its maximum. Oversize: a slice of the fixed buffers is out of
   range, which panics. BadChecksum: the payload does not match its CRC.
   */
  datatype ReadError = Starved | Forged | NonceSpent | Oversize | BadChecksum

  /** Receive one part of `size` bytes, open it and place it at offset `at` of the buffer. */
  function OpenPart(c: Cipher, n: nat, bytes: seq<u8>, size: nat, at: nat): Result<seq<u8>, ReadError> {
    if size > TOTAL_CRYPTO_BUFFER_SIZE then Err(Oversize)
    else if |bytes| < size then Err(Starved)
    else match c.dec(NonceBytes(n), bytes[..size])
      case None => Err(Forged)
      case Some(plain) =>
        if at + |plain| > TOTAL_BUFFER_SIZE then Err(Oversize)
        else if n >= NONCE_MAX then Err(NonceSpent)
        else Ok(plain)
  }

  /** A received frame; `body` still holds the checksum, and `used` counts the bytes consumed. */
  datatype Received = Received(head: seq<u8>, body: seq<u8>, used: nat, nonce: nat) {
    function Msg(): u16 requires |head| == PAYLOAD_OFFSET { FromBE16(head[..MSG_TYPE_SIZE]) }
    function Size(): u32 requires |head| == PAYLOAD_OFFSET { FromBE32(head[MSG_TYPE_SIZE..]) }
  }

  function FromBE16(s: seq<u8>): u16
    requires |s| == 2
  {
    PowValues();
    FromBE(s)
  }

  function FromBE32(s: seq<u8>): u32
    requires |s| == 4
  {
    PowValues();
    FromBE(s)
  }

  lemma PowValues()
    ensures Pow256(2) == 0x1_0000
    ensures Pow256(4) == 0x1_0000_0000
    ensures Pow256(8) == 0x1_0000_0000_0000_0000
    ensures Pow256(12) == NONCE_MAX + 1
  {
    assert Pow256(4) == 256 * 256 * Pow256(2);
    assert Pow256(6) == 256 * 256 * Pow256(4);
    assert Pow256(8) == 256 * 256 * Pow256(6);
    assert Pow256(10) == 256 * 256 * Pow256(8);
    assert Pow256(12) == 256 * 256 * Pow256(10);
  }

  /** The second half of a read: the payload announced by the header, if there is one. */
  ghost function DecodeBody(c: Cipher, head: seq<u8>, n: nat, bytes: seq<u8>): (r: Result<Received, ReadError>)
    requires c.Valid() && |head| == PAYLOAD_OFFSET
    ensures r.Ok? ==> r.value.head == head && r.value.used <= |bytes|
    ensures r.Ok? ==> |r.value.body| == if r.value.Size() == 0 then 0 else r.value.Size() + CrcLen(r.value.Msg())
    ensures r.Ok? ==> PAYLOAD_OFFSET + |r.value.body| <= TOTAL_BUFFER_SIZE
  {
    var r := Received(head, [], 0, n);
    if r.Size() == 0 then Ok(r)
    else
      var bodyLen := r.Size() + CrcLen(r.Msg()) + CRYPTO_EXTENSION_SIZE;
      match OpenPart(c, n, bytes, bodyLen, PAYLOAD_OFFSET)
      case Err(e) => Err(e)
      case Ok(body) =>
        assert bytes[..bodyLen] == c.enc(NonceBytes(n), body);
        Ok(Received(head, body, bodyLen, n + 1))
  }

  /** `EncryptedStream::read` over the bytes that the connection will deliver. */
  ghost function Decode(c: Cipher, n: nat, bytes: seq<u8>): (r: Result<Received, ReadError>)
    requires c.Valid()
    ensures r.Ok? ==> |r.value.head| == PAYLOAD_OFFSET && 0 < r.value.used <= |bytes|
    ensures r.Ok? ==> |r.value.body| == if r.value.Size() == 0 then 0 else r.value.Size() + CrcLen(r.value.Msg())
    ensures r.Ok? ==> PAYLOAD_OFFSET + |r.value.body| <= TOTAL_BUFFER_SIZE
  {
    var headLen := PAYLOAD_OFFSET + CRYPTO_EXTENSION_SIZE;
    match OpenPart(c, n, bytes, headLen, 0)
    case Err(e) => Err(e)
    case Ok(head) =>
      assert bytes[..headLen] == c.enc(NonceBytes(n), head);
      match DecodeBody(c, head, n + 1, bytes[headLen..])
      case Err(e) => Err(e)
      case Ok(f) => Ok(f.(used := headLen + f.used))
  }

  /** What one part leaves of the bytes: a short one takes them all, and one too long for the buffer none. */
  function PartRest(bytes: seq<u8>, size: nat): seq<u8> {
    if size > TOTAL_CRYPTO_BUFFER_SIZE then bytes else if |bytes| < size then [] else bytes[size..]
  }

  /** The bytes and the counter after the second half of a read, whatever came of it. */
  ghost function LeftByBody(c: Cipher, head: seq<u8>, n: nat, bytes: seq<u8>): (r: (seq<u8>, nat))
    requires c.Valid() && |head| == PAYLOAD_OFFSET
    ensures r.1 >= n
  {
    var f := Received(head, [], 0, n);
    if f.Size() == 0 then (bytes, n)
    else
      var bodyLen := f.Size() + CrcLen(f.Msg()) + CRYPTO_EXTENSION_SIZE;
      (PartRest(bytes, bodyLen), if OpenPart(c, n, bytes, bodyLen, PAYLOAD_OFFSET).Ok? then n + 1 else n)
  }

  /** The bytes and the counter after a read, whatever came of it. */
  ghost function LeftByRead(c: Cipher, n: nat, bytes: seq<u8>): (r: (seq<u8>, nat))
    requires c.Valid()
    ensures r.1 >= n
  {
    var headLen := PAYLOAD_OFFSET + CRYPTO_EXTENSION_SIZE;
    match OpenPart(c, n, bytes, headLen, 0)
    case Err(e) => (PartRest(bytes, headLen), n)
    case Ok(head) =>
      assert bytes[..headLen] == c.enc(NonceBytes(n), head);
      LeftByBody(c, head, n + 1, bytes[headLen..])
  }

  lemma DecodeStarts(c: Cipher, n: nat, bytes: seq<u8>)
    requires c.Valid()
    ensures var h := OpenPart(c, n, bytes, PAYLOAD_OFFSET + CRYPTO_EXTENSION_SIZE, 0);
      && (h.Err? ==> Decode(c, n, bytes) == Err(h.error))
      && (h.Err? ==> LeftByRead(c, n, bytes) == (PartRest(bytes, PAYLOAD_OFFSET + CRYPTO_EXTENSION_SIZE), n))
  {
  }

  lemma DecodeInTwo(c: Cipher, n: nat, bytes: seq<u8>, head: seq<u8>)
    requires c.Valid()
    requires OpenPart(c, n, bytes, PAYLOAD_OFFSET + CRYPTO_EXTENSION_SIZE, 0) == Ok(head)
    ensures |head| == PAYLOAD_OFFSET && PAYLOAD_OFFSET + CRYPTO_EXTENSION_SIZE <= |bytes|
    ensures var rest := bytes[PAYLOAD_OFFSET + CRYPTO_EXTENSION_SIZE..];
      var b := DecodeBody(c, head, n + 1, rest);
      var d := Decode(c, n, bytes);
      && LeftByRead(c, n, bytes) == LeftByBody(c, head, n + 1, rest)
      && (b.Err? ==> d == Err(b.error))
      && (b.Ok? ==>
        && d.Ok?
        && d.value.nonce == b.value.nonce
        && d.value.head == head
        && d.value.body == b.value.body
        && bytes[d.value.used..] == rest[b.value.used..])
  {
    assert bytes[..PAYLOAD_OFFSET + CRYPTO_EXTENSION_SIZE] == c.enc(NonceBytes(n), head);
  }

  /** `get_payload` on a received frame. */
  function PayloadOf(c: Cipher, r: Received): Result<seq<u8>, ReadError>
    requires |r.head| == PAYLOAD_OFFSET
    requires |r.body| == if r.Size() == 0 then 0 else r.Size() + CrcLen(r.Msg())
  {
    var payload := r.body[..r.Size()];
    if IsCrcPayload(r.Msg()) && r.Size() > 0 && FromBE32(r.body[r.Size()..]) != c.crc(payload)
    then Err(BadChecksum)
    else Ok(payload)
  }

  // ---------------------------------------------------------------- properties

  lemma HeaderRoundTrip(msg: u16, size: u32)
    ensures FromBE16(Header(msg, size)[..MSG_TYPE_SIZE]) == msg
    ensures FromBE32(Header(msg, size)[MSG_TYPE_SIZE..]) == size
  {
    PowValues();
    FromToBE(msg, MSG_TYPE_SIZE);
    FromToBE(size, PAYLOAD_SIZE_LEN);
    assert Header(msg, size)[..MSG_TYPE_SIZE] == ToBE(msg, MSG_TYPE_SIZE);
    assert Header(msg, size)[MSG_TYPE_SIZE..] == ToBE(size, PAYLOAD_SIZE_LEN);
  }

  lemma BodyRoundTrip(c: Cipher, n: nat, msg: u16, payload: seq<u8>, rest: seq<u8>)
    requires c.Valid() && Fits(msg, payload) && payload != [] && n < NONCE_MAX
    ensures var x := c.enc(NonceBytes(n), Body(c, msg, payload));
      var r := DecodeBody(c, Header(msg, |payload|), n, x + rest);
      && r == Ok(Received(Header(msg, |payload|), Body(c, msg, payload), |x|, n + 1))
      && PayloadOf(c, r.value) == Ok(payload)
  {
    hide Header, ToBE, NonceBytes;
    HeaderRoundTrip(msg, |payload|);
    var body := Body(c, msg, payload);
    var x := c.enc(NonceBytes(n), body);
    assert (x + rest)[..|x|] == x;
    assert body[..|payload|] == payload;
    if IsCrcPayload(msg) {
      PowValues();
      FromToBE(c.crc(payload), CRC_SIZE);
      assert body[|payload|..] == ToBE(c.crc(payload), CRC_SIZE);
    }
  }

  /** Reading what was written, with whatever follows on the wire left untouched. */
  lemma FrameRoundTrip(c: Cipher, n: nat, msg: u16, payload: seq<u8>, rest: seq<u8>)
    requires c.Valid() && Fits(msg, payload)
    requires n + Parts(payload) <= NONCE_MAX
    ensures var wire := Encode(c, n, msg, payload);
      var r := Decode(c, n, wire + rest);
      && r.Ok?
      && r.value.Msg() == msg
      && PayloadOf(c, r.value) == Ok(payload)
      && r.value.used == |wire|
      && r.value.nonce == n + Parts(payload)
  {
    hide Header, ToBE, NonceBytes, Body;
    var headLen := PAYLOAD_OFFSET + CRYPTO_EXTENSION_SIZE;
    var wire := Encode(c, n, msg, payload);
    HeaderRoundTrip(msg, |payload|);
    assert (wire + rest)[..headLen] == c.enc(NonceBytes(n), Header(msg, |payload|));
    if payload != [] {
      BodyRoundTrip(c, n + 1, msg, payload, rest);
      assert (wire + rest)[headLen..] == c.enc(NonceBytes(n + 1), Body(c, msg, payload)) + rest;
    }
  }

  /** An accepted body is the payload followed by its checksum, if the message type has one. */
  lemma AcceptedBody(c: Cipher, r: Received)
    requires |r.head| == PAYLOAD_OFFSET && r.Size() != 0
    requires |r.body| == r.Size() + CrcLen(r.Msg())
    requires PayloadOf(c, r).Ok?
    ensures |PayloadOf(c, r).value| == r.Size()
    ensures r.body == Body(c, r.Msg(), PayloadOf(c, r).value)
  {
    var tail := r.body[r.Size()..];
    if IsCrcPayload(r.Msg()) {
      ToFromBE(tail);
    }
    assert r.body == PayloadOf(c, r).value + tail;
  }

  lemma NoPayload(c: Cipher, r: Received)
    requires |r.head| == PAYLOAD_OFFSET && r.Size() == 0 && r.body == []
    ensures PayloadOf(c, r) == Ok([])
  {
  }

  lemma AcceptedHead(head: seq<u8>)
    requires |head| == PAYLOAD_OFFSET
    ensures head == Header(FromBE16(head[..MSG_TYPE_SIZE]), FromBE32(head[MSG_TYPE_SIZE..]))
  {
    ToFromBE(head[..MSG_TYPE_SIZE]);
    ToFromBE(head[MSG_TYPE_SIZE..]);
  }

  /** Conversely, a frame that is accepted is byte for byte the one `write` makes of it. */
  lemma AcceptsOnlyFrames(c: Cipher, n: nat, bytes: seq<u8>)
    requires c.Valid()
    requires Decode(c, n, bytes).Ok?
    requires PayloadOf(c, Decode(c, n, bytes).value).Ok?
    ensures var r := Decode(c, n, bytes).value;
      var payload := PayloadOf(c, r).value;
      && bytes[..r.used] == Encode(c, n, r.Msg(), payload)
      && r.nonce == n + Parts(payload) <= NONCE_MAX
  {
    hide Header, ToBE, NonceBytes, Body, PayloadOf, FromBE16, FromBE32;
    var headLen := PAYLOAD_OFFSET + CRYPTO_EXTENSION_SIZE;
    var r := Decode(c, n, bytes).value;
    AcceptedHead(r.head);
    assert bytes[..headLen] == c.enc(NonceBytes(n), r.head);
    if r.Size() != 0 {
      AcceptedBody(c, r);
      var bodyLen := |r.body| + CRYPTO_EXTENSION_SIZE;
      assert bytes[headLen..][..bodyLen] == c.enc(NonceBytes(n + 1), r.body);
      assert bytes[..r.used] == bytes[..headLen] + bytes[headLen..][..bodyLen];
    } else {
      NoPayload(c, r);
    }
  }

  /**
   What a failed write leaves behind, and every complete frame that the reader has no room for, is
   never taken for a frame. The reader finds it too long only if the payload does not fit.
   */
  lemma FailedWriteIsNotRead(c: Cipher, n: nat, room: nat, msg: u16, payload: seq<u8>)
    requires c.Valid() && |payload| < 0x1_0000_0000
    requires !WriteFrame(c, n, room, msg, payload).ok || !Fits(msg, payload)
    ensures var r := Decode(c, n, WriteFrame(c, n, room, msg, payload).sent);
      r == Err(Starved) || r == Err(NonceSpent) || (r == Err(Oversize) && !Fits(msg, payload))
  {
    hide Header, ToBE, NonceBytes, Body, Decode, DecodeBody;
    var headLen := PAYLOAD_OFFSET + CRYPTO_EXTENSION_SIZE;
    var head := Header(msg, SizeField(payload));
    var h := SealPart(c, n, room, head);
    var w := WriteFrame(c, n, room, msg, payload);
    DecodeStarts(c, n, w.sent);
    if h.ok {
      var more := w.sent[headLen..];
      assert w.sent[..headLen] == c.enc(NonceBytes(n), head);
      DecodeInTwo(c, n, w.sent, head);
      BodyIsNotRead(c, n + 1, msg, payload, more);
    } else if |w.sent| >= headLen {
      assert w.sent[..headLen] == c.enc(NonceBytes(n), head);
    }
  }

  lemma BodyIsNotRead(c: Cipher, n: nat, msg: u16, payload: seq<u8>, bytes: seq<u8>)
    requires c.Valid() && payload != [] && |payload| < 0x1_0000_0000
    requires bytes <= c.enc(NonceBytes(n), Body(c, msg, payload))
    requires bytes == c.enc(NonceBytes(n), Body(c, msg, payload)) ==> n >= NONCE_MAX || !Fits(msg, payload)
    ensures var r := DecodeBody(c, Header(msg, SizeField(payload)), n, bytes);
      r == Err(Starved) || r == Err(NonceSpent) || (r == Err(Oversize) && !Fits(msg, payload))
  {
    hide Header, ToBE, NonceBytes, Body;
    HeaderRoundTrip(msg, SizeField(payload));
    var x := c.enc(NonceBytes(n), Body(c, msg, payload));
    if |bytes| == |x| {
      assert bytes[..|x|] == x;
    }
  }

  /** Exactly the frames that fit are readable: a longer one that was written is out of the reader's range. */
  lemma ReadableExactly(c: Cipher, n: nat, msg: u16, payload: seq<u8>, rest: seq<u8>)
    requires c.Valid() && Writable(msg, payload) && n + Parts(payload) <= NONCE_MAX
    ensures var r := Decode(c, n, Encode(c, n, msg, payload) + rest);
      && (r.Ok? <==> Fits(msg, payload))
      && (r == Err(Oversize) <==> !Fits(msg, payload))
  {
    if Fits(msg, payload) {
      FrameRoundTrip(c, n, msg, payload, rest);
    } else {
      hide Header, ToBE, NonceBytes, Body, Decode, DecodeBody;
      var headLen := PAYLOAD_OFFSET + CRYPTO_EXTENSION_SIZE;
      var head := Header(msg, SizeField(payload));
      var all := Encode(c, n, msg, payload) + rest;
      assert all[..headLen] == c.enc(NonceBytes(n), head);
      DecodeInTwo(c, n, all, head);
      LongBodyIsOversize(c, n + 1, msg, payload, rest);
      assert all[headLen..] == c.enc(NonceBytes(n + 1), Body(c, msg, payload)) + rest;
    }
  }

  lemma LongBodyIsOversize(c: Cipher, n: nat, msg: u16, payload: seq<u8>, rest: seq<u8>)
    requires c.Valid() && payload != [] && Writable(msg, payload) && !Fits(msg, payload)
    ensures DecodeBody(c, Header(msg, SizeField(payload)), n, c.enc(NonceBytes(n), Body(c, msg, payload)) + rest)
      == Err(Oversize)
  {
    hide Header, ToBE, NonceBytes, Body;
    HeaderRoundTrip(msg, SizeField(payload));
    var x := c.enc(NonceBytes(n), Body(c, msg, payload));
    assert (x + rest)[..|x|] == x;
  }

  /** The 12-byte form of the counter is injective on the range that the counter may take. */
  lemma NonceBytesInjective(m: nat, n: nat)
    requires m <= NONCE_MAX && n <= NONCE_MAX
    requires NonceBytes(m) == NonceBytes(n)
    ensures m == n
  {
    NonceBytesAre12(m);
    NonceBytesAre12(n);
    PowValues();
    FromToBE(m, 12);
    FromToBE(n, 12);
  }

  /** No multiple of d but zero is less than d. */
  lemma NoMultiple(d: int, k: int)
    requires d > 0
    ensures k > 0 ==> d * k >= d
    ensures k < 0 ==> d * k <= -d
  {
  }

  lemma Quotient(n: nat, d: nat, q: nat, r: nat)
    requires d > 0 && n == d * q + r && r < d
    ensures n / d == q
  {
    var more := n / d - q;
    assert n == d * (n / d) + n % d;
    assert d * more == r - n % d;
    NoMultiple(d, more);
  }

  lemma DivideTwice(n: nat, b: nat)
    requires b > 0
    ensures n / 256 / b == n / (256 * b)
  {
    var s, t := n / 256 / b, n / 256 % b;
    assert n / 256 == b * s + t;
    Regroup(b, s);
    Quotient(n, 256 * b, s, 256 * t + n % 256);
  }

  lemma Regroup(b: nat, s: nat)
    ensures (256 * b) * s == 256 * (b * s)
  {
  }

  /** The most significant byte comes first. */
  lemma {:induction false} BigEndian(n: nat, k: nat, i: nat)
    requires i < k
    ensures ToBE(n, k)[i] == n / Pow256(k - 1 - i) % 256
  {
    if i < k - 1 {
      BigEndian(n / 256, k - 1, i);
      DivideTwice(n, Pow256(k - 2 - i));
    }
  }

  /** Two bytes of a number, and four. */
  lemma BigEndianBytes(n: nat)
    ensures ToBE(n, 2) == [n / 0x100 % 0x100, n % 0x100]
    ensures ToBE(n, 4) == [n / 0x100_0000 % 0x100, n / 0x1_0000 % 0x100, n / 0x100 % 0x100, n % 0x100]
    ensures n < 0x1_0000 ==> n / 0x100 % 0x100 == n / 0x100
    ensures n < 0x1_0000_0000 ==> n / 0x100_0000 % 0x100 == n / 0x100_0000
  {
    BigEndian(n, 2, 0);
    BigEndian(n, 2, 1);
    BigEndian(n, 4, 0);
    BigEndian(n, 4, 1);
    BigEndian(n, 4, 2);
    BigEndian(n, 4, 3);
    assert Pow256(1) == 256 * Pow256(0);
    assert Pow256(2) == 256 * Pow256(1);
    assert Pow256(3) == 256 * Pow256(2);
  }

  /**
   The frame, byte by byte: two bytes of message type and four of payload length, sealed with the
   counter; then the payload, with four bytes of checksum behind a piece of a listing, a chunk of a file
   or a selection, sealed with the next counter. The counter itself goes into twelve bytes. All
   numbers have their most significant byte first.
   */
  lemma FrameLayout(c: Cipher, n: nat, msg: u16, payload: seq<u8>)
    requires |payload| < 0x1_0000_0000
    ensures var size, crc := |payload|, c.crc(payload);
      Encode(c, n, msg, payload)
      == c.enc(NonceBytes(n), [msg / 0x100, msg % 0x100, size / 0x100_0000, size / 0x1_0000 % 0x100,
                               size / 0x100 % 0x100, size % 0x100])
         + (if payload == [] then []
            else c.enc(NonceBytes(n + 1), payload
              + (if msg == 2 || msg == 3 || msg == 4 || msg == 8 then
                   [crc / 0x100_0000, crc / 0x1_0000 % 0x100, crc / 0x100 % 0x100, crc % 0x100]
                 else [])))
    ensures forall i :: 0 <= i < 12 ==> NonceBytes(n)[i] == n / Pow256(11 - i) % 256
  {
    hide ToBE, NonceBytes;
    BigEndianBytes(msg);
    BigEndianBytes(|payload|);
    BigEndianBytes(c.crc(payload));
    var size, crc := |payload|, c.crc(payload);
    assert Header(msg, SizeField(payload))
      == [msg / 0x100, msg % 0x100, size / 0x100_0000, size / 0x1_0000 % 0x100, size / 0x100 % 0x100, size % 0x100];
    assert Body(c, msg, payload) == payload
      + (if msg == 2 || msg == 3 || msg == 4 || msg == 8 then
           [crc / 0x100_0000, crc / 0x1_0000 % 0x100, crc / 0x100 % 0x100, crc % 0x100]
         else []);
    CounterBytes(n);
  }

  lemma CounterBytes(n: nat)
    ensures forall i :: 0 <= i < 12 ==> NonceBytes(n)[i] == n / Pow256(11 - i) % 256
  {
    forall i | 0 <= i < 12
      ensures NonceBytes(n)[i] == n / Pow256(11 - i) % 256
    {
      BigEndian(n, 16, i + 4);
    }
  }

  lemma NonceBytesAre12(n: nat)
    ensures NonceBytes(n) == ToBE(n, 12)
  {
    LowBytes(n, 4, 12);
  }

  lemma {:induction false} LowBytes(n: nat, high: nat, k: nat)
    ensures ToBE(n, high + k)[high..] == ToBE(n, k)
  {
    if k == 0 {
    } else {
      LowBytes(n / 256, high, k - 1);
      assert ToBE(n, high + k)[high..] == ToBE(n / 256, high + k - 1)[high..] + [n % 256];
    }
  }
}
