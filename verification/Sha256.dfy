/**
 * SHA-256. The functions follow FIPS 180-4: section 4.1.2 (functions), 5.1.1 (padding), 6.2.2 (hash
 * computation). The class is the incremental context of the source, which sees the message in pieces.
 */
module Sha256 {
  import opened Types
  import LittleEndian

  type Word = x: int | 0 <= x < 0x1_0000_0000

  datatype Regs = Regs(a: Word, b: Word, c: Word, d: Word, e: Word, f: Word, g: Word, h: Word)

  const K: seq<Word> := [
    0x428a2f98, 0x71374491, 0xb5c0fbcf, 0xe9b5dba5, 0x3956c25b, 0x59f111f1, 0x923f82a4, 0xab1c5ed5,
    0xd807aa98, 0x12835b01, 0x243185be, 0x550c7dc3, 0x72be5d74, 0x80deb1fe, 0x9bdc06a7, 0xc19bf174,
    0xe49b69c1, 0xefbe4786, 0x0fc19dc6, 0x240ca1cc, 0x2de92c6f, 0x4a7484aa, 0x5cb0a9dc, 0x76f988da,
    0x983e5152, 0xa831c66d, 0xb00327c8, 0xbf597fc7, 0xc6e00bf3, 0xd5a79147, 0x06ca6351, 0x14292967,
    0x27b70a85, 0x2e1b2138, 0x4d2c6dfc, 0x53380d13, 0x650a7354, 0x766a0abb, 0x81c2c92e, 0x92722c85,
    0xa2bfe8a1, 0xa81a664b, 0xc24b8b70, 0xc76c51a3, 0xd192e819, 0xd6990624, 0xf40e3585, 0x106aa070,
    0x19a4c116, 0x1e376c08, 0x2748774c, 0x34b0bcb5, 0x391c0cb3, 0x4ed8aa4a, 0x5b9cca4f, 0x682e6ff3,
    0x748f82ee, 0x78a5636f, 0x84c87814, 0x8cc70208, 0x90befffa, 0xa4506ceb, 0xbef9a3f7, 0xc67178f2
  ]

  const IV: Regs := Regs(0x6a09e667, 0xbb67ae85, 0x3c6ef372, 0xa54ff53a, 0x510e527f, 0x9b05688c, 0x1f83d9ab, 0x5be0cd19)

  // ---- FIPS 180-4 ----

  function Add(x: Word, y: Word): Word { (x + y) % U32 }

  function Ch(x: Word, y: Word, z: Word): Word {
    var (p, q, r) := (x as bv32, y as bv32, z as bv32);
    ((p & q) ^ (!p & r)) as int
  }

  function Maj(x: Word, y: Word, z: Word): Word {
    var (p, q, r) := (x as bv32, y as bv32, z as bv32);
    ((p & q) ^ (p & r) ^ (q & r)) as int
  }

  function Big0(p: bv32): bv32 { p.RotateRight(2) ^ p.RotateRight(13) ^ p.RotateRight(22) }
  function Big1(p: bv32): bv32 { p.RotateRight(6) ^ p.RotateRight(11) ^ p.RotateRight(25) }
  function Small0(p: bv32): bv32 { p.RotateRight(7) ^ p.RotateRight(18) ^ (p >> 3) }
  function Small1(p: bv32): bv32 { p.RotateRight(17) ^ p.RotateRight(19) ^ (p >> 10) }

  function BigSigma0(x: Word): Word { Big0(x as bv32) as int }
  function BigSigma1(x: Word): Word { Big1(x as bv32) as int }
  function SmallSigma0(x: Word): Word { Small0(x as bv32) as int }
  function SmallSigma1(x: Word): Word { Small1(x as bv32) as int }

  function ReadBE32(a: Byte, b: Byte, c: Byte, d: Byte): Word { a * 0x100_0000 + b * 0x1_0000 + c * 0x100 + d }

  /** The big-endian word at byte `4 * t`. */
  function WordAt(block: Bytes, t: nat): Word
    requires 4 * t + 4 <= |block|
  {
    ReadBE32(block[4 * t], block[4 * t + 1], block[4 * t + 2], block[4 * t + 3])
  }

  /** The low `n` bytes of `v`, most significant first. */
  function BigEndian(v: nat, n: nat): (b: Bytes)
    ensures |b| == n
  {
    if n == 0 then [] else BigEndian(v / 256, n - 1) + [v % 256]
  }

  function Expanded(w: seq<Word>): Word
    requires |w| >= 16
  {
    var t := |w|;
    Add(Add(Add(SmallSigma1(w[t - 2]), w[t - 7]), SmallSigma0(w[t - 15])), w[t - 16])
  }

  /** The first `n` words of the message schedule. */
  function Schedule(block: Bytes, n: nat): (w: seq<Word>)
    requires |block| == 64
    ensures |w| == n
  {
    if n == 0 then [] else
    var w := Schedule(block, n - 1);
    w + [if n <= 16 then WordAt(block, n - 1) else Expanded(w)]
  }

  function Round(r: Regs, k: Word, w: Word): Regs {
    var t1 := Add(Add(Add(Add(r.h, BigSigma1(r.e)), Ch(r.e, r.f, r.g)), k), w);
    var t2 := Add(BigSigma0(r.a), Maj(r.a, r.b, r.c));
    Regs(Add(t1, t2), r.a, r.b, r.c, Add(r.d, t1), r.e, r.f, r.g)
  }

  function Rounds(r: Regs, w: seq<Word>, n: nat): Regs
    requires n <= 64 && |w| == 64
  {
    if n == 0 then r else Round(Rounds(r, w, n - 1), K[n - 1], w[n - 1])
  }

  function Plus(x: Regs, y: Regs): Regs {
    Regs(Add(x.a, y.a), Add(x.b, y.b), Add(x.c, y.c), Add(x.d, y.d),
         Add(x.e, y.e), Add(x.f, y.f), Add(x.g, y.g), Add(x.h, y.h))
  }

  /** One block of the hash computation. */
  function Compress(r: Regs, block: Bytes): Regs
    requires |block| == 64
  {
    Plus(r, Rounds(r, Schedule(block, 64), 64))
  }

  /** A whole number of blocks. */
  predicate Aligned(m: Bytes) { |m| % 64 == 0 }

  function Absorb(m: Bytes): Regs
    requires Aligned(m)
  {
    if m == [] then IV else Compress(Absorb(m[..|m| - 64]), m[|m| - 64..])
  }

  /** How many zero bytes go between the one bit and the length. */
  function Gap(len: nat): nat { (119 - len % 64) % 64 }

  /** A message the standard defines a digest for: its length in bits fits 64 bits. */
  predicate InRange(m: Bytes) { 8 * |m| < U64 }

  /** Padding. */
  function Pad(m: Bytes): (p: Bytes) {
    m + ([0x80] + Zeros(Gap(|m|)) + BigEndian(8 * |m|, 8))
  }

  function Output(r: Regs): (o: Hash) {
    BigEndian(r.a, 4) + BigEndian(r.b, 4) + BigEndian(r.c, 4) + BigEndian(r.d, 4)
    + BigEndian(r.e, 4) + BigEndian(r.f, 4) + BigEndian(r.g, 4) + BigEndian(r.h, 4)
  }

  /** The gap is the least one that ends the padded message on a block boundary. */
  lemma GapIsLeast(len: nat, z: nat)
    ensures (len + 1 + Gap(len) + 8) % 64 == 0
    ensures (len + 1 + z + 8) % 64 == 0 ==> Gap(len) <= z
  {
  }

  lemma PadAligned(m: Bytes)
    ensures Aligned(Pad(m)) && |m| + 9 <= |Pad(m)| <= |m| + 72
  {
    GapIsLeast(|m|, 0);
  }

  function Digest(m: Bytes): Hash {
    PadAligned(m);
    Output(Absorb(Pad(m)))
  }

  lemma AbsorbBlock(m: Bytes, block: Bytes)
    requires Aligned(m) && |block| == 64
    ensures Aligned(m + block) && Absorb(m + block) == Compress(Absorb(m), block)
  {
    hide Compress;
    var all := m + block;
    assert all[..|all| - 64] == m && all[|all| - 64..] == block;
  }

  // ---- Two messages with one digest ----

  /** Two different inputs of the block function with the same result. */
  ghost predicate BlocksCollide() {
    exists r, x: Bytes, s, y: Bytes :: |x| == 64 && |y| == 64 && (r != s || x != y) && Compress(r, x) == Compress(s, y)
  }

  lemma {:induction false} BigEndianInjective(v: nat, w: nat, n: nat)
    requires v < LittleEndian.Pow256(n) && w < LittleEndian.Pow256(n) && BigEndian(v, n) == BigEndian(w, n)
    ensures v == w
  {
    if n > 0 {
      var x, y := BigEndian(v / 256, n - 1), BigEndian(w / 256, n - 1);
      assert BigEndian(v, n) == x + [v % 256] && BigEndian(w, n) == y + [w % 256];
      assert x == (x + [v % 256])[..n - 1] == (y + [w % 256])[..n - 1] == y;
      assert v % 256 == (x + [v % 256])[n - 1] == (y + [w % 256])[n - 1] == w % 256;
      BigEndianInjective(v / 256, w / 256, n - 1);
    }
  }

  lemma Halves(a: Bytes, b: Bytes, c: Bytes, d: Bytes)
    requires |b| == |d| && a + b == c + d
    ensures a == c && b == d
  {
    assert a == (a + b)[..|a|] && c == (c + d)[..|c|];
    assert b == (a + b)[|a|..] && d == (c + d)[|c|..];
  }

  lemma OutputInjective(r: Regs, s: Regs)
    requires Output(r) == Output(s)
    ensures r == s
  {
    hide BigEndian;
    LittleEndian.Widths();
    var a1, a2 := BigEndian(r.a, 4), BigEndian(s.a, 4);
    var b1, b2 := a1 + BigEndian(r.b, 4), a2 + BigEndian(s.b, 4);
    var c1, c2 := b1 + BigEndian(r.c, 4), b2 + BigEndian(s.c, 4);
    var d1, d2 := c1 + BigEndian(r.d, 4), c2 + BigEndian(s.d, 4);
    var e1, e2 := d1 + BigEndian(r.e, 4), d2 + BigEndian(s.e, 4);
    var f1, f2 := e1 + BigEndian(r.f, 4), e2 + BigEndian(s.f, 4);
    var g1, g2 := f1 + BigEndian(r.g, 4), f2 + BigEndian(s.g, 4);
    Halves(g1, BigEndian(r.h, 4), g2, BigEndian(s.h, 4));
    Halves(f1, BigEndian(r.g, 4), f2, BigEndian(s.g, 4));
    Halves(e1, BigEndian(r.f, 4), e2, BigEndian(s.f, 4));
    Halves(d1, BigEndian(r.e, 4), d2, BigEndian(s.e, 4));
    Halves(c1, BigEndian(r.d, 4), c2, BigEndian(s.d, 4));
    Halves(b1, BigEndian(r.c, 4), b2, BigEndian(s.c, 4));
    Halves(a1, BigEndian(r.b, 4), a2, BigEndian(s.b, 4));
    BigEndianInjective(r.a, s.a, 4);
    BigEndianInjective(r.b, s.b, 4);
    BigEndianInjective(r.c, s.c, 4);
    BigEndianInjective(r.d, s.d, 4);
    BigEndianInjective(r.e, s.e, 4);
    BigEndianInjective(r.f, s.f, 4);
    BigEndianInjective(r.g, s.g, 4);
    BigEndianInjective(r.h, s.h, 4);
  }

  /** Two chains of blocks that differ, end alike and are equally long differ first in colliding blocks. */
  lemma {:induction false} AbsorbCollides(p: Bytes, q: Bytes)
    requires Aligned(p) && Aligned(q) && |p| == |q| && p != q && Absorb(p) == Absorb(q)
    ensures BlocksCollide()
    decreases |p|
  {
    hide Compress;
    var n := |p| - 64;
    var x, y := p[n..], q[n..];
    assert p == p[..n] + x && q == q[..n] + y;
    assert Compress(Absorb(p[..n]), x) == Compress(Absorb(q[..n]), y);
    if x == y && Absorb(p[..n]) == Absorb(q[..n]) {
      AbsorbCollides(p[..n], q[..n]);
    }
  }

  /** The last eight padded bytes are the length. */
  lemma PadEnds(m: Bytes)
    ensures |Pad(m)| >= 64 && Pad(m)[|Pad(m)| - 64..][56..] == BigEndian(8 * |m|, 8)
  {
    hide BigEndian;
    PadAligned(m);
    var front, len := m + [0x80] + Zeros(Gap(|m|)), BigEndian(8 * |m|, 8);
    assert Pad(m) == front + len;
    var tail := Pad(m)[|Pad(m)| - 64..][56..];
    assert forall i :: 0 <= i < 8 ==> tail[i] == len[i];
  }

  /**
   * Padding carries the length, so two messages in range that share a digest expose two inputs of the
   * block function that share a result: collision-freeness of the whole rests on that function alone.
   */
  lemma DigestCollides(a: Bytes, b: Bytes)
    requires InRange(a) && InRange(b) && a != b && Digest(a) == Digest(b)
    ensures BlocksCollide()
  {
    hide Compress;
    hide Output;
    hide Aligned;
    hide BigEndian;
    hide BlocksCollide;
    PadAligned(a);
    PadAligned(b);
    OutputInjective(Absorb(Pad(a)), Absorb(Pad(b)));
    if |a| == |b| {
      assert Pad(a)[..|a|] == a && Pad(b)[..|a|] == b;
      AbsorbCollides(Pad(a), Pad(b));
    } else {
      LengthsCollide(a, b);
    }
  }

  lemma LengthsCollide(a: Bytes, b: Bytes)
    requires InRange(a) && InRange(b) && |a| != |b| && Aligned(Pad(a)) && Aligned(Pad(b))
             && Absorb(Pad(a)) == Absorb(Pad(b))
    ensures BlocksCollide()
  {
    hide Compress;
    hide BigEndian;
    hide Pad;
    PadEnds(a);
    PadEnds(b);
    LittleEndian.Widths();
    if BigEndian(8 * |a|, 8) == BigEndian(8 * |b|, 8) { BigEndianInjective(8 * |a|, 8 * |b|, 8); }
    var p, q := Pad(a), Pad(b);
    assert Compress(Absorb(p[..|p| - 64]), p[|p| - 64..]) == Compress(Absorb(q[..|q| - 64]), q[|q| - 64..]);
  }

  // ---- The shift-and-or forms of the source ----

  function ShiftBig1(e: bv32): bv32 { ((e >> 6) | (e << 26)) ^ ((e >> 11) | (e << 21)) ^ ((e >> 25) | (e << 7)) }
  function ShiftBig0(a: bv32): bv32 { ((a >> 2) | (a << 30)) ^ ((a >> 13) | (a << 19)) ^ ((a >> 22) | (a << 10)) }
  function ShiftSmall0(w: bv32): bv32 { ((w >> 7) | (w << 25)) ^ ((w >> 18) | (w << 14)) ^ (w >> 3) }
  function ShiftSmall1(w: bv32): bv32 { ((w >> 17) | (w << 15)) ^ ((w >> 19) | (w << 13)) ^ (w >> 10) }

  lemma ShiftsRotate(p: bv32)
    ensures ShiftBig0(p) == Big0(p) && ShiftBig1(p) == Big1(p)
    ensures ShiftSmall0(p) == Small0(p) && ShiftSmall1(p) == Small1(p)
  {
  }

  lemma ShiftsAre(x: Word)
    ensures ShiftBig0(x as bv32) as int == BigSigma0(x) && ShiftBig1(x as bv32) as int == BigSigma1(x)
    ensures ShiftSmall0(x as bv32) as int == SmallSigma0(x) && ShiftSmall1(x as bv32) as int == SmallSigma1(x)
  {
    hide ShiftBig0;
    hide ShiftBig1;
    hide ShiftSmall0;
    hide ShiftSmall1;
    hide Big0;
    hide Big1;
    hide Small0;
    hide Small1;
    ShiftsRotate(x as bv32);
  }

  // ---- The incremental context ----

  lemma ScheduleSnoc(block: Bytes, w: seq<Word>)
    requires |block| == 64 && w == Schedule(block, |w|)
    ensures |w| < 16 ==> Schedule(block, |w| + 1) == w + [WordAt(block, |w|)]
    ensures |w| >= 16 ==> Schedule(block, |w| + 1) == w + [Expanded(w)]
  {
    hide WordAt;
    hide Expanded;
  }

  /** The source adds the four terms in another order. */
  lemma ExpandedForm(w: seq<Word>)
    requires |w| >= 16
    ensures var t := |w|;
            Expanded(w) == Add(Add(Add(w[t - 16], SmallSigma0(w[t - 15])), w[t - 7]), SmallSigma1(w[t - 2]))
  {
    hide SmallSigma0;
    hide SmallSigma1;
    hide Add;
    var t := |w|;
    AddFour(w[t - 16], SmallSigma0(w[t - 15]), w[t - 7], SmallSigma1(w[t - 2]));
  }

  lemma AddFour(a: Word, b: Word, c: Word, d: Word)
    ensures Add(Add(Add(a, b), c), d) == Add(Add(Add(d, c), b), a)
  {
    AddThree(a, b, c);
    AddThree(d, c, b);
    Reduce(a + b + c, d);
    Reduce(d + c + b, a);
  }

  lemma Reduce(s: nat, x: nat)
    ensures (s % U32 + x) % U32 == (s + x) % U32
  {
  }

  lemma AddThree(a: Word, b: Word, c: Word)
    ensures Add(Add(a, b), c) == (a + b + c) % U32
  {
  }

  /** `Transform` loads sixteen words. */
  method LoadWords(block: array<Byte>, w: array<Word>)
    requires block.Length == 64 && w.Length == 64
    modifies w
    ensures w[..16] == Schedule(block[..], 16)
  {
    hide Schedule;
    hide ReadBE32;
    ghost var m := block[..];
    assert w[..0] == Schedule(m, 0);
    for i := 0 to 16
      invariant w[..i] == Schedule(m, i)
    {
      ghost var was := w[..i];
      w[i] := ReadBE32(block[i * 4], block[i * 4 + 1], block[i * 4 + 2], block[i * 4 + 3]);
      ScheduleSnoc(m, was);
      assert w[..i + 1] == was + [w[i]];
    }
  }

  method NextWord(w16: Word, w15: Word, w7: Word, w2: Word) returns (v: Word)
    ensures v == Add(Add(Add(w16, SmallSigma0(w15)), w7), SmallSigma1(w2))
  {
    hide Add;
    hide SmallSigma0;
    hide SmallSigma1;
    hide ShiftSmall0;
    hide ShiftSmall1;
    hide ShiftBig0;
    hide ShiftBig1;
    ShiftsAre(w15);
    ShiftsAre(w2);
    var s0 := ShiftSmall0(w15 as bv32) as int;
    var s1 := ShiftSmall1(w2 as bv32) as int;
    v := Add(Add(Add(w16, s0), w7), s1);
  }

  /** And expands them to 64. */
  method Expand(ghost m: Bytes, w: array<Word>)
    requires |m| == 64 && w.Length == 64 && w[..16] == Schedule(m, 16)
    modifies w
    ensures w[..] == Schedule(m, 64)
  {
    hide Schedule;
    hide Expanded;
    hide WordAt;
    hide Add;
    hide SmallSigma0;
    hide SmallSigma1;
    for i := 16 to 64
      invariant w[..i] == Schedule(m, i)
    {
      ghost var was := w[..i];
      ExpandedForm(was);
      var next := NextWord(w[i - 16], w[i - 15], w[i - 7], w[i - 2]);
      w[i] := next;
      ScheduleSnoc(m, was);
      assert w[..i + 1] == was + [w[i]];
    }
    assert w[..64] == w[..];
  }

  /** `Transform`'s main loop. */
  method RunRounds(start: Regs, w: array<Word>) returns (r: Regs)
    requires w.Length == 64
    ensures r == Rounds(start, w[..], 64)
  {
    hide Add;
    hide Ch;
    hide Maj;
    hide BigSigma0;
    hide BigSigma1;
    hide ShiftSmall0;
    hide ShiftSmall1;
    hide ShiftBig0;
    hide ShiftBig1;
    var a, b, c, d := start.a, start.b, start.c, start.d;
    var e, f, g, h := start.e, start.f, start.g, start.h;
    for i := 0 to 64
      invariant Regs(a, b, c, d, e, f, g, h) == Rounds(start, w[..], i)
    {
      ShiftsAre(e);
      ShiftsAre(a);
      var s1 := ShiftBig1(e as bv32) as int;
      var ch := Ch(e, f, g);
      var temp1 := Add(Add(Add(Add(h, s1), ch), K[i]), w[i]);
      var s0 := ShiftBig0(a as bv32) as int;
      var maj := Maj(a, b, c);
      var temp2 := Add(s0, maj);
      h := g;
      g := f;
      f := e;
      e := Add(d, temp1);
      d := c;
      c := b;
      b := a;
      a := Add(temp1, temp2);
    }
    return Regs(a, b, c, d, e, f, g, h);
  }

  /** The whole blocks of a message. */
  ghost function Done(m: Bytes): (r: Bytes)
    ensures Aligned(r)
  {
    m[..|m| / 64 * 64]
  }

  lemma DoneIs(m: Bytes, n: nat)
    requires n == |m| % 64
    ensures n <= |m| && Done(m) == m[..|m| - n]
  {
  }

  ghost function Pack(s: array<Word>): Regs
    requires s.Length == 8
    reads s
  {
    Regs(s[0], s[1], s[2], s[3], s[4], s[5], s[6], s[7])
  }

  class Context {
    const state: array<Word>
    const buffer: array<Byte>
    var bufferLen: nat
    var bytes: nat
    /** Everything written since the last reset. */
    ghost var written: Bytes

    /** Buffer length is bytes modulo 64, the buffer holds the unfinished block, and the state has absorbed the rest. */
    ghost predicate Valid()
      reads this, state, buffer
    {
      && state.Length == 8 && buffer.Length == 64
      && bufferLen == |written| % 64 && bytes == |written| % U64
      && buffer[..bufferLen] == written[|written| - bufferLen..]
      && Pack(state) == Absorb(Done(written))
    }

    constructor ()
      ensures Valid() && written == [] && fresh(state) && fresh(buffer)
    {
      state := new Word[8];
      buffer := new Byte[64];
      new;
      Reset();
    }

    /** `reset`: the initial value, with nothing written. */
    method Reset()
      requires state.Length == 8 && buffer.Length == 64
      modifies this, state
      ensures Valid() && written == []
    {
      state[0], state[1], state[2], state[3] := IV.a, IV.b, IV.c, IV.d;
      state[4], state[5], state[6], state[7] := IV.e, IV.f, IV.g, IV.h;
      bufferLen, bytes, written := 0, 0, [];
      DoneIs([], 0);
      assert Pack(state) == IV;
    }

    method Transform()
      requires state.Length == 8 && buffer.Length == 64
      modifies state
      ensures Pack(state) == Compress(old(Pack(state)), buffer[..])
    {
      hide Schedule;
      hide Rounds;
      hide Add;
      var w := new Word[64];
      LoadWords(buffer, w);
      Expand(buffer[..], w);
      var r := RunRounds(Regs(state[0], state[1], state[2], state[3], state[4], state[5], state[6], state[7]), w);
      state[0] := Add(state[0], r.a);
      state[1] := Add(state[1], r.b);
      state[2] := Add(state[2], r.c);
      state[3] := Add(state[3], r.d);
      state[4] := Add(state[4], r.e);
      state[5] := Add(state[5], r.f);
      state[6] := Add(state[6], r.g);
      state[7] := Add(state[7], r.h);
    }

    /** `write`: however much is written, it is appended to what the context has absorbed. */
    method Write(data: Bytes)
      requires Valid()
      modifies this, state, buffer
      ensures Valid() && written == old(written) + data
    {
      hide Absorb;
      hide Done;
      hide Aligned;
      var off, len := 0, |data|;
      assert data[..0] == [];
      while len > 0
        invariant 0 <= len && off + len == |data|
        invariant Valid() && written == old(written) + data[..off]
        decreases len
      {
        var space := 64 - bufferLen;
        var chunk := if len < space then len else space;
        ghost var before := data[..off];
        Fill(data[off..off + chunk]);
        off := off + chunk;
        len := len - chunk;
        assert data[..off] == before + data[off - chunk..off];
      }
      assert data[..off] == data;
    }

    /** One turn of the loop in `write`: copy a piece that fits, and transform when the buffer is full. */
    method Fill(piece: Bytes)
      requires Valid() && bufferLen + |piece| <= 64
      modifies this, state, buffer
      ensures Valid() && written == old(written) + piece
    {
      hide Absorb;
      hide Compress;
      hide Pack;
      hide Aligned;
      hide Done;
      ghost var m, n := written, bufferLen;
      DoneIs(m, n);
      Copy(piece);
      bufferLen := bufferLen + |piece|;
      bytes := (bytes + |piece|) % U64;
      written := m + piece;
      Counts(|m|, |piece|);
      if bufferLen == 64 {
        assert buffer[..64] == buffer[..];
        FullBlock(m, piece, n);
        DoneIs(written, 0);
        assert written[..|written|] == written;
        Transform();
        bufferLen := 0;
      } else {
        PartBlock(m, piece, n);
      }
    }

    /** The `memcpy` into the buffer. */
    method Copy(piece: Bytes)
      requires buffer.Length == 64 && bufferLen + |piece| <= 64
      modifies buffer
      ensures buffer[..bufferLen + |piece|] == old(buffer[..bufferLen]) + piece
    {
      forall i | 0 <= i < |piece| {
        buffer[bufferLen + i] := piece[i];
      }
    }

    /**
     * `finalize`: the padding written fits its 72 bytes and ends on a block, and the result is the
     * digest of everything written since the reset, in however many pieces.
     */
    method Finalize() returns (out: Hash)
      requires Valid() && InRange(written)
      modifies this, state, buffer
      ensures Valid() && bufferLen == 0
      ensures out == Digest(old(written))
    {
      hide Absorb;
      hide BigEndian;
      hide Done;
      var bits := bytes * 8 % U64;
      var padlen := if bytes % 64 < 56 then 56 - bytes % 64 else 120 - bytes % 64;
      ghost var m := written;
      PadParts(m);
      var pad: Bytes := [0x80] + Zeros(padlen - 1) + BigEndian(bits, 8);
      assert |pad| <= 72;
      PadAligned(m);
      Write(pad);
      assert written == Pad(m);
      assert written[..|written|] == written;
      DoneIs(written, 0);
      out := Output(Regs(state[0], state[1], state[2], state[3], state[4], state[5], state[6], state[7]));
    }
  }

  /** The arithmetic of `finalize` gives the standard's padding. */
  lemma PadParts(m: Bytes)
    requires InRange(m)
    ensures var bytes := |m| % U64;
            && bytes * 8 % U64 == 8 * |m|
            && (if bytes % 64 < 56 then 56 - bytes % 64 else 120 - bytes % 64) == Gap(|m|) + 1
  {
  }

  lemma Counts(len: nat, more: nat)
    ensures (len % U64 + more) % U64 == (len + more) % U64
    ensures len % 64 + more <= 64 ==> (len + more) % 64 == if len % 64 + more == 64 then 0 else len % 64 + more
  {
  }

  /** A piece that fills the buffer completes a block. */
  lemma FullBlock(m: Bytes, piece: Bytes, n: nat)
    requires n <= |m| && n + |piece| == 64 && Aligned(m[..|m| - n])
    ensures Aligned(m + piece) && Absorb(m + piece) == Compress(Absorb(m[..|m| - n]), m[|m| - n..] + piece)
  {
    hide Aligned;
    hide Compress;
    hide Absorb;
    var block := m[|m| - n..] + piece;
    assert m + piece == m[..|m| - n] + block;
    AbsorbBlock(m[..|m| - n], block);
  }

  /** A piece that does not fill it only makes the unfinished block longer. */
  lemma PartBlock(m: Bytes, piece: Bytes, n: nat)
    requires n == |m| % 64 && n + |piece| < 64
    ensures Done(m + piece) == Done(m)
    ensures (m + piece)[|m| - n..] == m[|m| - n..] + piece
  {
    Counts(|m|, |piece|);
    DoneIs(m, n);
    DoneIs(m + piece, n + |piece|);
    assert (m + piece)[..|m| - n] == m[..|m| - n];
  }

  function Joined(pieces: seq<Bytes>): Bytes {
    if pieces == [] then [] else Joined(pieces[..|pieces| - 1]) + pieces[|pieces| - 1]
  }

  /** Any way of cutting a message into writes gives the digest of the whole. */
  method HashPieces(pieces: seq<Bytes>) returns (out: Hash)
    requires InRange(Joined(pieces))
    ensures out == Digest(Joined(pieces))
  {
    hide Digest;
    hide Context.Valid;
    hide Absorb;
    hide Aligned;
    var ctx := new Context();
    for i := 0 to |pieces|
      invariant ctx.Valid() && fresh(ctx) && fresh(ctx.state) && fresh(ctx.buffer)
      invariant ctx.written == Joined(pieces[..i])
    {
      ctx.Write(pieces[i]);
      assert pieces[..i + 1][..i] == pieces[..i];
    }
    assert pieces[..|pieces|] == pieces;
    out := ctx.Finalize();
  }

  lemma OnePiece(m: Bytes)
    ensures Joined([m]) == m
  {
    assert [m][..0] == [];
    assert Joined([m]) == Joined([m][..0]) + m;
  }

  /** `sha256d`. */
  method DoubleHash(m: Bytes) returns (out: Hash)
    requires InRange(m)
    ensures out == Digest(Digest(m))
  {
    hide Digest;
    OnePiece(m);
    var once := HashPieces([m]);
    OnePiece(once);
    out := HashPieces([once]);
  }
}
