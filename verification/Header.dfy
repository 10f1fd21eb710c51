/** The 24-byte packet header in network byte order. */
module Header {
  import opened Words

  const MAGIC: u16 := 0x3455
  const VERSION: u8 := 1
  const HEADER_LEN := 24

  datatype Header = Header(
    magic: u16, version: u8, packetType: u8, deliveryMode: u8, flags: u8,
    payloadLen: u16, sessionId: u32, seqNum: u32, ackNum: u32, sackMask: u32)

  /** A header that decoding fills in before it has validated anything. */
  datatype Decoded = Decoded(code: int, hdr: Header)

  // ------------------------------------------------------------ byte order

  function Put16(x: u16): (b: seq<u8>)
    ensures |b| == 2
  {
    [x / 0x100, x % 0x100]
  }

  function Get16(b: seq<u8>): (x: u16)
    requires |b| == 2
  {
    var hi: int, lo: int := b[0], b[1];
    hi * 0x100 + lo
  }

  function Put32(x: u32): (b: seq<u8>)
    ensures |b| == 4
  {
    Put16(x / 0x1_0000) + Put16(x % 0x1_0000)
  }

  function Get32(b: seq<u8>): (x: u32)
    requires |b| == 4
  {
    Get16(b[..2]) * 0x1_0000 + Get16(b[2..])
  }

  lemma Word16(x: u16, b: seq<u8>)
    requires |b| == 2
    ensures Get16(Put16(x)) == x
    ensures Put16(Get16(b)) == b
  {
  }

  lemma Word32(x: u32, b: seq<u8>)
    requires |b| == 4
    ensures Get32(Put32(x)) == x
    ensures Put32(Get32(b)) == b
  {
    Word16(x / 0x1_0000, b[..2]);
    Word16(x % 0x1_0000, b[2..]);
    assert Put32(x)[..2] == Put16(x / 0x1_0000) && Put32(x)[2..] == Put16(x % 0x1_0000);
    assert b == b[..2] + b[2..];
  }

  // ------------------------------------------------------------ layout

  function HeaderBytes(h: Header): (b: seq<u8>)
    ensures |b| == HEADER_LEN
  {
    Put16(h.magic) + [h.version, h.packetType, h.deliveryMode, h.flags] + Put16(h.payloadLen)
    + Put32(h.sessionId) + Put32(h.seqNum) + Put32(h.ackNum) + Put32(h.sackMask)
  }

  function HeaderOf(b: seq<u8>): (h: Header)
    requires |b| >= HEADER_LEN
  {
    Header(Get16(b[0..2]), b[2], b[3], b[4], b[5], Get16(b[6..8]),
           Get32(b[8..12]), Get32(b[12..16]), Get32(b[16..20]), Get32(b[20..24]))
  }

  function Decode(b: seq<u8>, before: Header): (d: Decoded) {
    if |b| < HEADER_LEN then Decoded(-1, before)
    else
      var h := HeaderOf(b);
      Decoded(if h.magic != MAGIC then -2
              else if h.version != VERSION then -3
              else if |b| < HEADER_LEN + h.payloadLen then -4
              else 0, h)
  }

  lemma Middle(a: seq<u8>, b: seq<u8>, c: seq<u8>)
    ensures ((a + b) + c)[|a|..|a| + |b|] == b
  {
  }

  lemma HeaderOfBytes(h: Header, rest: seq<u8>)
    ensures HeaderOf(HeaderBytes(h) + rest) == h
  {
    var b := HeaderBytes(h) + rest;
    var p0 := Put16(h.magic) + [h.version, h.packetType, h.deliveryMode, h.flags];
    var p1 := p0 + Put16(h.payloadLen);
    assert b[0..2] == Put16(h.magic);
    assert b[2] == h.version && b[3] == h.packetType && b[4] == h.deliveryMode && b[5] == h.flags;
    assert b[6..8] == Put16(h.payloadLen) by {
      Middle(p0, Put16(h.payloadLen), b[8..]);
      assert b == p1 + b[8..];
    }
    Word16(h.magic, [0, 0]);
    Word16(h.payloadLen, [0, 0]);
    WordsOfBytes(h, p1, rest);
  }

  lemma WordsOfBytes(h: Header, front: seq<u8>, rest: seq<u8>)
    requires |front| == 8
    ensures
      var b := front + Put32(h.sessionId) + Put32(h.seqNum) + Put32(h.ackNum) + Put32(h.sackMask) + rest;
      && Get32(b[8..12]) == h.sessionId && Get32(b[12..16]) == h.seqNum
      && Get32(b[16..20]) == h.ackNum && Get32(b[20..24]) == h.sackMask
  {
    var p2 := front + Put32(h.sessionId);
    var p3 := p2 + Put32(h.seqNum);
    var p4 := p3 + Put32(h.ackNum);
    var b := p4 + Put32(h.sackMask) + rest;
    Middle(p4, Put32(h.sackMask), rest);
    Middle(p3, Put32(h.ackNum), b[20..]);
    Middle(p2, Put32(h.seqNum), b[16..]);
    Middle(front, Put32(h.sessionId), b[12..]);
    assert b == p4 + b[20..] && b == p3 + b[16..] && b == p2 + b[12..];
    Word32(h.sessionId, [0, 0, 0, 0]);
    Word32(h.seqNum, [0, 0, 0, 0]);
    Word32(h.ackNum, [0, 0, 0, 0]);
    Word32(h.sackMask, [0, 0, 0, 0]);
  }

  lemma BytesOfHeader(b: seq<u8>)
    requires |b| >= HEADER_LEN
    ensures HeaderBytes(HeaderOf(b)) == b[..HEADER_LEN]
  {
    Word16(0, b[0..2]);
    Word16(0, b[6..8]);
    Word32(0, b[8..12]);
    Word32(0, b[12..16]);
    Word32(0, b[16..20]);
    Word32(0, b[20..24]);
    assert b[..HEADER_LEN] == b[0..2] + [b[2], b[3], b[4], b[5]] + b[6..8] + b[8..12] + b[12..16] + b[16..20] + b[20..24];
  }

  /** Network byte order, byte by byte: the most significant byte of every field comes first. */
  lemma BigEndian(h: Header)
    ensures
      var b := HeaderBytes(h);
      && b[0] == h.magic / 256 && b[1] == h.magic % 256
      && b[2] == h.version && b[3] == h.packetType && b[4] == h.deliveryMode && b[5] == h.flags
      && b[6] == h.payloadLen / 256 && b[7] == h.payloadLen % 256
      && BigEndianAt(b, 8, h.sessionId) && BigEndianAt(b, 12, h.seqNum)
      && BigEndianAt(b, 16, h.ackNum) && BigEndianAt(b, 20, h.sackMask)
  {
    Word32Bytes(h.sessionId);
    Word32Bytes(h.seqNum);
    Word32Bytes(h.ackNum);
    Word32Bytes(h.sackMask);
    BytesAt(h);
  }

  /** The four bytes from i on spell w, most significant first. */
  predicate BigEndianAt(b: seq<u8>, i: nat, w: u32)
    requires i + 4 <= |b|
  {
    && b[i] == w / 16777216 && b[i + 1] == w / 65536 % 256
    && b[i + 2] == w / 256 % 256 && b[i + 3] == w % 256
  }

  lemma Word32Bytes(w: u32)
    ensures BigEndianAt(Put32(w), 0, w)
  {
    var q := w / 256;
    var h := q / 256;
    assert w == 65536 * h + (256 * (q % 256) + w % 256);
    DivModUnique(w, 65536, h, 256 * (q % 256) + w % 256);
    DivModUnique(w, 16777216, h / 256, 65536 * (h % 256) + 256 * (q % 256) + w % 256);
    DivModUnique(256 * (q % 256) + w % 256, 256, q % 256, w % 256);
  }

  lemma BytesAt(h: Header)
    ensures
      var b := HeaderBytes(h);
      && b[8..12] == Put32(h.sessionId) && b[12..16] == Put32(h.seqNum)
      && b[16..20] == Put32(h.ackNum) && b[20..24] == Put32(h.sackMask)
  {
  }

  /** Decoding an encoded header followed by enough payload gives the header back; with too little
      payload, or a foreign magic or version, it is refused with the code of the first failing test. */
  lemma DecodeOfEncode(h: Header, rest: seq<u8>, before: Header)
    ensures Decode(HeaderBytes(h) + rest, before)
            == Decoded(if h.magic != MAGIC then -2 else if h.version != VERSION then -3
                       else if |rest| < h.payloadLen then -4 else 0, h)
  {
    HeaderOfBytes(h, rest);
  }

  /** Encoding what was accepted reproduces the first 24 bytes, and the declared payload lies inside
      the datagram. */
  lemma EncodeOfDecode(b: seq<u8>, before: Header)
    requires Decode(b, before).code == 0
    ensures |b| >= HEADER_LEN + Decode(b, before).hdr.payloadLen
    ensures HeaderBytes(Decode(b, before).hdr) == b[..HEADER_LEN]
  {
    BytesOfHeader(b);
  }

  // ------------------------------------------------------------ buffers

  /** The buffer starts with `done` and is otherwise as it was. */
  ghost predicate Filled(buf: array<u8>, done: seq<u8>, was: seq<u8>)
    reads buf
  {
    |done| <= |was| == buf.Length && buf[..] == done + was[|done|..]
  }

  /** Copy `b` in right behind what is done. */
  method CopyIn(buf: array<u8>, at: nat, b: seq<u8>, ghost done: seq<u8>, ghost was: seq<u8>)
    requires Filled(buf, done, was) && at == |done| && at + |b| <= buf.Length
    modifies buf
    ensures Filled(buf, done + b, was)
  {
    forall i | 0 <= i < |b| { buf[at + i] := b[i]; }
  }

  method EncodeHeader(h: Header, out: array<u8>) returns (code: int)
    modifies out
    ensures out.Length < HEADER_LEN ==> code == -1 && out[..] == old(out[..])
    ensures out.Length >= HEADER_LEN ==> code == HEADER_LEN && out[..] == HeaderBytes(h) + old(out[..])[HEADER_LEN..]
  {
    if out.Length < HEADER_LEN { return -1; }
    ghost var was, done := out[..], [];
    CopyIn(out, 0, Put16(h.magic), done, was);
    done := done + Put16(h.magic);
    CopyIn(out, 2, [h.version, h.packetType, h.deliveryMode, h.flags], done, was);
    done := done + [h.version, h.packetType, h.deliveryMode, h.flags];
    CopyIn(out, 6, Put16(h.payloadLen), done, was);
    done := done + Put16(h.payloadLen);
    EncodeWords(h, out, done, was);
    assert [] + Put16(h.magic) == Put16(h.magic);
    code := HEADER_LEN;
  }

  method EncodeWords(h: Header, out: array<u8>, ghost done: seq<u8>, ghost was: seq<u8>)
    requires Filled(out, done, was) && |done| == 8 && out.Length >= HEADER_LEN
    modifies out
    ensures Filled(out, done + Put32(h.sessionId) + Put32(h.seqNum) + Put32(h.ackNum) + Put32(h.sackMask), was)
  {
    CopyIn(out, 8, Put32(h.sessionId), done, was);
    CopyIn(out, 12, Put32(h.seqNum), done + Put32(h.sessionId), was);
    CopyIn(out, 16, Put32(h.ackNum), done + Put32(h.sessionId) + Put32(h.seqNum), was);
    CopyIn(out, 20, Put32(h.sackMask), done + Put32(h.sessionId) + Put32(h.seqNum) + Put32(h.ackNum), was);
  }

  method DecodeHeader(buf: array<u8>, len: nat, before: Header) returns (code: int, hdr: Header)
    requires len <= buf.Length
    ensures Decoded(code, hdr) == Decode(buf[..len], before)
  {
    hdr := before;
    if len < HEADER_LEN { return -1, hdr; }
    hdr := hdr.(version := buf[2], packetType := buf[3], deliveryMode := buf[4], flags := buf[5]);
    hdr := hdr.(magic := Get16(buf[0..2]), payloadLen := Get16(buf[6..8]));
    hdr := hdr.(sessionId := Get32(buf[8..12]), seqNum := Get32(buf[12..16]));
    hdr := hdr.(ackNum := Get32(buf[16..20]), sackMask := Get32(buf[20..24]));
    assert hdr == HeaderOf(buf[..len]) by {
      assert buf[..len][0..2] == buf[0..2] && buf[..len][6..8] == buf[6..8];
      assert buf[..len][8..12] == buf[8..12] && buf[..len][12..16] == buf[12..16];
      assert buf[..len][16..20] == buf[16..20] && buf[..len][20..24] == buf[20..24];
    }
    if hdr.magic != MAGIC { return -2, hdr; }
    if hdr.version != VERSION { return -3, hdr; }
    if len < HEADER_LEN + hdr.payloadLen { return -4, hdr; }
    code := 0;
  }
}
