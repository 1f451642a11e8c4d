/** Little-endian integers of a fixed width, as `append_u16/u32/u64` and `writeUint32/64` lay them out. */
module LittleEndian {
  import opened Types

  function Pow256(n: nat): (p: nat)
    ensures p > 0
  {
    if n == 0 then 1 else 256 * Pow256(n - 1)
  }

  /** The low `n` bytes of `v`, least significant first. */
  function LE(v: nat, n: nat): (b: Bytes)
    ensures |b| == n
  {
    if n == 0 then [] else [v % 256] + LE(v / 256, n - 1)
  }

  function Value(b: Bytes): nat {
    if b == [] then 0 else b[0] + 256 * Value(b[1..])
  }

  lemma {:induction false} ValueOfLE(v: nat, n: nat)
    requires v < Pow256(n)
    ensures Value(LE(v, n)) == v
  {
    if n > 0 {
      ValueOfLE(v / 256, n - 1);
      assert LE(v, n)[1..] == LE(v / 256, n - 1);
    }
  }

  lemma Carry(x: Byte, y: nat, top: nat)
    requires y < top
    ensures (x + 256 * y) % 256 == x && (x + 256 * y) / 256 == y && x + 256 * y < 256 * top
  {
  }

  lemma {:induction false} LEOfValue(b: Bytes)
    ensures Value(b) < Pow256(|b|)
    ensures LE(Value(b), |b|) == b
  {
    if b != [] {
      LEOfValue(b[1..]);
      Carry(b[0], Value(b[1..]), Pow256(|b| - 1));
      assert b == [b[0]] + b[1..];
    }
  }

  lemma Widths()
    ensures Pow256(1) == 256 && Pow256(2) == U16 && Pow256(4) == U32 && Pow256(8) == U64
  {
    assert Pow256(1) == 256;
    assert Pow256(2) == U16;
    assert Pow256(3) == 256 * U16;
    assert Pow256(4) == U32;
    assert Pow256(5) == 256 * U32;
    assert Pow256(6) == 256 * (256 * U32);
    assert Pow256(7) == 256 * (256 * (256 * U32));
    assert Pow256(8) == U64;
  }

  /** Equal encodings of two in-range numbers are encodings of one number. */
  lemma LEInjective(v: nat, w: nat, n: nat)
    requires v < Pow256(n) && w < Pow256(n)
    requires LE(v, n) == LE(w, n)
    ensures v == w
  {
    ValueOfLE(v, n);
    ValueOfLE(w, n);
  }

  /** The append loop of the source: push the low byte, shift right by eight. */
  method AppendLE(out: Bytes, v: nat, n: nat) returns (r: Bytes)
    ensures r == out + LE(v, n)
  {
    r := out;
    var rest := v;
    for i := 0 to n
      invariant r + LE(rest, n - i) == out + LE(v, n)
    {
      assert r + LE(rest, n - i) == r + [rest % 256] + LE(rest / 256, n - i - 1);
      r := r + [rest % 256];
      rest := rest / 256;
    }
  }

  datatype Parsed<+T> = Fail | Ok(value: T, rest: Bytes)

  /** Reads one `n`-byte number off the front. */
  function ReadLE(b: Bytes, n: nat): Parsed<nat> {
    if |b| < n then Fail else Ok(Value(b[..n]), b[n..])
  }

  lemma ReadLEOfLE(v: nat, n: nat, rest: Bytes)
    requires v < Pow256(n)
    ensures ReadLE(LE(v, n) + rest, n) == Ok(v, rest)
  {
    ValueOfLE(v, n);
    assert (LE(v, n) + rest)[..n] == LE(v, n);
    assert (LE(v, n) + rest)[n..] == rest;
  }
}
