/**
 * The compact headers message: a count as a variable-length integer, then 120 bytes a header.
 * The reader takes any prefix form of the count, so two frames may stand for one list.
 */
module HeadersCodec {
  import opened Types
  import opened LittleEndian

  type Word = x: nat | x < 0x1_0000_0000
  type Long = x: nat | x < 0x1_0000_0000_0000_0000

  /** `height` is local bookkeeping and is not on the wire. */
  datatype WireHeader = WireHeader(version: Word, prev: Hash, merkle: Hash, timestamp: Long, difficulty: Word,
                                   nonce: Long, hash: Hash, height: nat)

  const HEADER_BYTES: nat := 120
  const MAX_HEADERS: nat := 2000

  // ---- Variable-length integers ----

  /** `writeVarInt`. */
  function VarInt(v: Long): (b: Bytes)
    ensures |b| == VarIntSize(v)
  {
    if v < 0xFD then [v]
    else if v < U16 then [0xFD] + LE(v, 2)
    else if v < U32 then [0xFE] + LE(v, 4)
    else [0xFF] + LE(v, 8)
  }

  /** The shortest form of a number. */
  function VarIntSize(v: Long): nat {
    if v < 0xFD then 1 else if v < U16 then 3 else if v < U32 then 5 else 9
  }

  /** How many bytes follow the first one. */
  function Extra(first: Byte): nat {
    if first < 0xFD then 0 else if first == 0xFD then 2 else if first == 0xFE then 4 else 8
  }

  /** `readVarInt` from the front: the value and the offset after it. A number cut short reads as zero. */
  function ReadVarInt(b: Bytes): (Long, nat) {
    if b == [] then (0, 0)
    else if b[0] < 0xFD then (b[0], 1)
    else if |b| < 1 + Extra(b[0]) then (0, 1)
    else
      Widths(); LEOfValue(b[1..1 + Extra(b[0])]);
      (Value(b[1..1 + Extra(b[0])]), 1 + Extra(b[0]))
  }

  /** Every 64-bit number reads back, whatever follows it. */
  lemma VarIntRoundTrip(v: Long, rest: Bytes)
    ensures ReadVarInt(VarInt(v) + rest) == (v, VarIntSize(v))
  {
    Widths();
    var b := VarInt(v) + rest;
    if v >= 0xFD {
      var n := Extra(b[0]);
      assert b[1..1 + n] == VarInt(v)[1..] == LE(v, n);
      ValueOfLE(v, n);
    }
  }

  /** A number read in its shortest form is written back as it was. */
  lemma VarIntMinimal(b: Bytes)
    requires ReadVarInt(b).1 <= |b| && ReadVarInt(b).0 > 0 && ReadVarInt(b).1 == VarIntSize(ReadVarInt(b).0)
    ensures VarInt(ReadVarInt(b).0) == b[..ReadVarInt(b).1]
  {
    Widths();
    if b[0] >= 0xFD {
      var n := Extra(b[0]);
      LEOfValue(b[1..1 + n]);
      assert b[..1 + n] == [b[0]] + b[1..1 + n];
    }
  }

  // ---- One header ----

  function EncodeHeader(h: WireHeader): (b: Bytes)
    ensures |b| == HEADER_BYTES
  {
    LE(h.version, 4) + (h.prev + (h.merkle + (LE(h.timestamp, 8) + (LE(h.difficulty, 4) + (LE(h.nonce, 8) + h.hash)))))
  }

  function ReadNumber(b: Bytes, lo: nat, n: nat): (v: nat)
    requires lo + n <= |b|
    ensures v < Pow256(n)
  {
    LEOfValue(b[lo..lo + n]);
    Value(b[lo..lo + n])
  }

  function DecodeHeader(b: Bytes): WireHeader
    requires |b| == HEADER_BYTES
  {
    Widths();
    WireHeader(ReadNumber(b, 0, 4), b[4..36], b[36..68], ReadNumber(b, 68, 8), ReadNumber(b, 76, 4),
               ReadNumber(b, 80, 8), b[88..120], 0)
  }

  /** Where the fields sit. */
  lemma FieldsOf(h: WireHeader)
    ensures var b := EncodeHeader(h);
            && b[0..4] == LE(h.version, 4) && b[4..36] == h.prev && b[36..68] == h.merkle
            && b[68..76] == LE(h.timestamp, 8)
            && b[76..80] == LE(h.difficulty, 4) && b[80..88] == LE(h.nonce, 8) && b[88..120] == h.hash
  {
    hide LE;
    var b := EncodeHeader(h);
    var r5 := LE(h.nonce, 8) + h.hash;
    var r4 := LE(h.difficulty, 4) + r5;
    var r3 := LE(h.timestamp, 8) + r4;
    var r2 := h.merkle + r3;
    var r1 := h.prev + r2;
    assert b[4..] == r1;
    assert b[36..] == r1[32..] == r2;
    assert b[68..] == r2[32..] == r3;
    assert b[76..] == r3[8..] == r4;
    assert b[80..] == r4[4..] == r5;
    assert b[88..] == r5[8..] == h.hash;
  }

  lemma HeaderRoundTrip(h: WireHeader)
    ensures DecodeHeader(EncodeHeader(h)) == h.(height := 0)
  {
    hide LE;
    hide Value;
    hide EncodeHeader;
    Widths();
    FieldsOf(h);
    ValueOfLE(h.version, 4);
    ValueOfLE(h.timestamp, 8);
    ValueOfLE(h.difficulty, 4);
    ValueOfLE(h.nonce, 8);
  }

  lemma HeaderReencodes(b: Bytes)
    requires |b| == HEADER_BYTES
    ensures EncodeHeader(DecodeHeader(b)) == b
  {
    hide LE;
    hide Value;
    LEOfValue(b[0..4]);
    LEOfValue(b[68..76]);
    LEOfValue(b[76..80]);
    LEOfValue(b[80..88]);
    var r5 := b[80..88] + b[88..120];
    assert r5 == b[80..];
    assert b[76..80] + r5 == b[76..];
    assert b[68..76] + b[76..] == b[68..];
    assert b[36..68] + b[68..] == b[36..];
    assert b[4..36] + b[36..] == b[4..];
  }

  // ---- The message ----

  function EncodeEach(hs: seq<WireHeader>): (b: Bytes)
    ensures |b| == HEADER_BYTES * |hs|
  {
    if hs == [] then [] else EncodeEach(hs[..|hs| - 1]) + EncodeHeader(hs[|hs| - 1])
  }

  function DecodeEach(b: Bytes, n: nat): (hs: seq<WireHeader>)
    requires |b| == HEADER_BYTES * n
    ensures |hs| == n
  {
    if n == 0 then [] else DecodeEach(b[..|b| - HEADER_BYTES], n - 1) + [DecodeHeader(b[|b| - HEADER_BYTES..])]
  }

  function Encode(hs: seq<WireHeader>): Bytes
    requires |hs| < U64
  {
    VarInt(|hs|) + EncodeEach(hs)
  }

  /** What `deserializeHeaders` returns; a count of zero or above 2000, or any other length, is refused. */
  function Decode(b: Bytes): (r: Option<seq<WireHeader>>)
    ensures r.Some? ==> 1 <= |r.value| <= MAX_HEADERS
  {
    var (n, off) := ReadVarInt(b);
    if n == 0 || n > MAX_HEADERS || |b| - off != n * HEADER_BYTES then None
    else Some(DecodeEach(b[off..], n))
  }

  function Bare(hs: seq<WireHeader>): (r: seq<WireHeader>)
    ensures |r| == |hs|
    ensures forall i :: 0 <= i < |hs| ==> r[i] == hs[i].(height := 0)
  {
    if hs == [] then [] else Bare(hs[..|hs| - 1]) + [hs[|hs| - 1].(height := 0)]
  }

  lemma {:induction false} EachRoundTrip(hs: seq<WireHeader>)
    ensures DecodeEach(EncodeEach(hs), |hs|) == Bare(hs)
  {
    hide EncodeHeader;
    hide DecodeHeader;
    if hs != [] {
      var n := |hs| - 1;
      var b := EncodeEach(hs);
      EachRoundTrip(hs[..n]);
      HeaderRoundTrip(hs[n]);
      assert b[..|b| - HEADER_BYTES] == EncodeEach(hs[..n]) && b[|b| - HEADER_BYTES..] == EncodeHeader(hs[n]);
    }
  }

  lemma {:induction false} EachReencodes(b: Bytes, n: nat)
    requires |b| == HEADER_BYTES * n
    ensures EncodeEach(DecodeEach(b, n)) == b
  {
    hide EncodeHeader;
    hide DecodeHeader;
    if n == 0 {
      assert b == [];
    } else {
      var front, last := b[..|b| - HEADER_BYTES], b[|b| - HEADER_BYTES..];
      EachReencodes(front, n - 1);
      HeaderReencodes(last);
      assert DecodeEach(b, n)[..n - 1] == DecodeEach(front, n - 1);
      assert b == front + last;
    }
  }

  /**
   * Decoding an encoded list gives the list back with height 0 exactly when it has 1 to 2000 headers;
   * else it is refused.
   */
  lemma HeadersRoundTrip(hs: seq<WireHeader>)
    requires |hs| < U64
    ensures Decode(Encode(hs)) == if 1 <= |hs| <= MAX_HEADERS then Some(Bare(hs)) else None
  {
    hide VarInt;
    hide ReadVarInt;
    hide EncodeEach;
    hide DecodeEach;
    VarIntRoundTrip(|hs|, EncodeEach(hs));
    assert Encode(hs)[VarIntSize(|hs|)..] == EncodeEach(hs);
    EachRoundTrip(hs);
  }

  /** An accepted frame begins with a complete count. */
  lemma AcceptedCount(a: Bytes, b: Bytes)
    requires Decode(a).Some? && a <= b
    ensures ReadVarInt(b) == ReadVarInt(a)
  {
    hide DecodeEach;
    hide LE;
    assert a != [];
    if a[0] >= 0xFD {
      assert a[1..1 + Extra(a[0])] == b[1..1 + Extra(a[0])];
    }
  }

  /** No accepted frame is a proper prefix of another. */
  lemma PrefixFree(a: Bytes, b: Bytes)
    requires Decode(a).Some? && Decode(b).Some? && a <= b
    ensures a == b
  {
    hide ReadVarInt;
    hide DecodeEach;
    AcceptedCount(a, b);
  }

  /** An accepted frame is the encoding of what it decodes to exactly when its count has the shortest form. */
  lemma ReencodesIff(b: Bytes)
    requires Decode(b).Some?
    ensures Encode(Decode(b).value) == b <==> ReadVarInt(b).1 == VarIntSize(ReadVarInt(b).0)
  {
    hide VarInt;
    hide ReadVarInt;
    hide DecodeEach;
    hide EncodeEach;
    var (n, off) := ReadVarInt(b);
    var hs := Decode(b).value;
    EachReencodes(b[off..], n);
    if off == VarIntSize(n) {
      VarIntMinimal(b);
      assert b == b[..off] + b[off..];
    }
  }

  /** A frame that writes its count behind one of the prefix bytes 0xFD, 0xFE and 0xFF. */
  function LongFrame(first: Byte, hs: seq<WireHeader>): Bytes { [first] + LE(|hs|, Extra(first)) + EncodeEach(hs) }

  /**
   * Every list that can be sent has such frames too: each is accepted and reads as the list, and it is the
   * encoding of the list exactly if its count is in the shortest form.
   */
  lemma LongFrameReads(first: Byte, hs: seq<WireHeader>)
    requires first >= 0xFD && 1 <= |hs| <= MAX_HEADERS
    ensures Decode(LongFrame(first, hs)) == Some(Bare(hs))
    ensures Encode(Bare(hs)) == LongFrame(first, hs) <==> 1 + Extra(first) == VarIntSize(|hs|)
  {
    hide EncodeEach;
    hide DecodeEach;
    hide VarInt;
    hide ReadVarInt;
    hide LE;
    hide Bare;
    LongCount(first, hs);
    var b, off := LongFrame(first, hs), 1 + Extra(first);
    assert b[off..] == EncodeEach(hs);
    EachRoundTrip(hs);
    ReencodesIff(b);
  }

  /** For one: two frames of a single header. */
  lemma TwoFrames(h: WireHeader)
    ensures var long, short := [0xFD, 1, 0] + EncodeEach([h]), [1] + EncodeEach([h]);
            Decode(long) == Decode(short) == Some(Bare([h])) && long != short
  {
    hide EncodeEach;
    hide Decode;
    hide Bare;
    assert LE(1, 2) == [1, 0] by { assert LE(0, 1) == [0]; }
    assert Encode([h]) == [1] + EncodeEach([h]);
    assert LongFrame(0xFD, [h]) == [0xFD, 1, 0] + EncodeEach([h]);
    assert ([0xFD, 1, 0] + EncodeEach([h]))[0] == 0xFD;
    LongFrameReads(0xFD, [h]);
    HeadersRoundTrip([h]);
  }

  lemma LongCount(first: Byte, hs: seq<WireHeader>)
    requires first >= 0xFD && 1 <= |hs| <= MAX_HEADERS
    ensures |LE(|hs|, Extra(first))| == Extra(first)
    ensures ReadVarInt(LongFrame(first, hs)) == (|hs|, 1 + Extra(first))
  {
    hide EncodeEach;
    Widths();
    var b, n := LongFrame(first, hs), Extra(first);
    ValueOfLE(|hs|, n);
    assert b[1..1 + n] == LE(|hs|, n);
  }

  /** Two accepted frames for one list differ in the count prefix alone. */
  lemma SameListSameBody(a: Bytes, b: Bytes)
    requires Decode(a).Some? && Decode(a) == Decode(b)
    ensures a[ReadVarInt(a).1..] == b[ReadVarInt(b).1..]
  {
    hide ReadVarInt;
    hide DecodeEach;
    hide EncodeEach;
    EachReencodes(a[ReadVarInt(a).1..], ReadVarInt(a).0);
    EachReencodes(b[ReadVarInt(b).1..], ReadVarInt(b).0);
  }

  // ---- The source's own loops ----

  /** `serializeHeaders`: the size test inside the loop never fires. */
  method SerializeHeaders(hs: seq<WireHeader>) returns (b: Bytes)
    requires |hs| < U64
    ensures b == Encode(hs)
  {
    hide LE;
    b := VarInt(|hs|);
    for i := 0 to |hs|
      invariant b == VarInt(|hs|) + EncodeEach(hs[..i])
    {
      var begin, h, was := |b|, hs[i], b;
      b := AppendLE(b, h.version, 4);
      b := b + h.prev + h.merkle;
      b := AppendLE(b, h.timestamp, 8);
      b := AppendLE(b, h.difficulty, 4);
      b := AppendLE(b, h.nonce, 8);
      b := b + h.hash;
      assert b == was + EncodeHeader(h);
      if |b| - begin != HEADER_BYTES {
        assert false;
      }
      assert hs[..i + 1][..i] == hs[..i];
    }
    assert hs[..|hs|] == hs;
  }

  method ReadUint(b: Bytes, offset: nat, n: nat) returns (v: nat, after: nat)
    requires offset + n <= |b|
    ensures v == Value(b[offset..offset + n]) < Pow256(n) && after == offset + n
  {
    LEOfValue(b[offset..offset + n]);
    return Value(b[offset..offset + n]), offset + n;
  }

  method ReadHeader(b: Bytes, begin: nat) returns (h: WireHeader, offset: nat)
    requires begin + HEADER_BYTES <= |b|
    ensures h == DecodeHeader(b[begin..begin + HEADER_BYTES]) && offset == begin + HEADER_BYTES
  {
    hide Value;
    Widths();
    var version, timestamp, difficulty, nonce;
    version, offset := ReadUint(b, begin, 4);
    var prev := b[offset..offset + 32];
    offset := offset + 32;
    var merkle := b[offset..offset + 32];
    offset := offset + 32;
    timestamp, offset := ReadUint(b, offset, 8);
    difficulty, offset := ReadUint(b, offset, 4);
    nonce, offset := ReadUint(b, offset, 8);
    var hash := b[offset..offset + 32];
    offset := offset + 32;
    h := WireHeader(version, prev, merkle, timestamp, difficulty, nonce, hash, 0);
    Slice(b, begin, 0, 4);
    Slice(b, begin, 4, 36);
    Slice(b, begin, 36, 68);
    Slice(b, begin, 68, 76);
    Slice(b, begin, 76, 80);
    Slice(b, begin, 80, 88);
    Slice(b, begin, 88, 120);
  }

  /** A field of a header inside a message is that field cut out of the message. */
  lemma Slice(b: Bytes, begin: nat, lo: nat, hi: nat)
    requires begin + HEADER_BYTES <= |b| && lo <= hi <= HEADER_BYTES
    ensures b[begin..begin + HEADER_BYTES][lo..hi] == b[begin + lo..begin + hi]
  {
    var piece, cut := b[begin..begin + HEADER_BYTES][lo..hi], b[begin + lo..begin + hi];
    assert forall i :: 0 <= i < hi - lo ==> piece[i] == cut[i];
  }

  /** `deserializeHeaders`: on success every byte was consumed. */
  method DeserializeHeaders(b: Bytes) returns (ok: bool, hs: seq<WireHeader>, consumed: nat)
    ensures ok == Decode(b).Some?
    ensures ok ==> hs == Decode(b).value && consumed == |b|
    ensures !ok ==> hs == [] && consumed == 0
  {
    hide DecodeHeader;
    hide ReadVarInt;
    if b == [] {
      EmptyReads();
      return false, [], 0;
    }
    var (count, start) := ReadVarInt(b);
    if count == 0 || count > MAX_HEADERS {
      return false, [], 0;
    }
    if |b| < start || |b| - start != count * HEADER_BYTES {
      return false, [], 0;
    }
    var offset := start;
    hs := [];
    ghost var body := b[start..];
    for i := 0 to count
      invariant offset == start + i * HEADER_BYTES <= |b|
      invariant hs == DecodeEach(body[..i * HEADER_BYTES], i)
    {
      if offset + HEADER_BYTES > |b| {
        assert false;
      }
      var h;
      h, offset := ReadHeader(b, offset);
      ghost var upto := body[..(i + 1) * HEADER_BYTES];
      assert upto[..i * HEADER_BYTES] == body[..i * HEADER_BYTES];
      assert upto[i * HEADER_BYTES..] == b[start + i * HEADER_BYTES..start + (i + 1) * HEADER_BYTES];
      hs := hs + [h];
    }
    assert body[..count * HEADER_BYTES] == body;
    return true, hs, offset;
  }

  lemma EmptyReads()
    ensures Decode([]).None?
  {
  }
}
