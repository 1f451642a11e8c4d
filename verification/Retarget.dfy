/** Difficulty retargeting: rounding to the nearest power of two, and the clamped step. */
module Retarget {
  import opened Types

  const MIN_BITS: nat := 2
  const MAX_BITS: nat := 24
  const TARGET: nat := 540

  function Pow2(n: nat): (p: nat)
    ensures p >= 1
  {
    if n == 0 then 1 else 2 * Pow2(n - 1)
  }

  lemma {:induction false} Pow2Add(a: nat, b: nat)
    ensures Pow2(a + b) == Pow2(a) * Pow2(b)
  {
    if a > 0 {
      Pow2Add(a - 1, b);
      assert 2 * (Pow2(a - 1) * Pow2(b)) == (2 * Pow2(a - 1)) * Pow2(b);
    }
  }

  lemma {:induction false} Pow2Grows(a: nat, b: nat)
    requires a < b
    ensures 2 * Pow2(a) <= Pow2(b)
  {
    if b > a + 1 { Pow2Grows(a, b - 1); }
  }

  function FloorLog2(v: nat): nat { if v <= 1 then 0 else 1 + FloorLog2(v / 2) }

  /** `round_log2` as a function. */
  function RoundLog2(v: nat): nat {
    if v <= 1 then 0 else
    var f := FloorLog2(v);
    if v * v >= 2 * (Pow2(f) * Pow2(f)) then f + 1 else f
  }

  lemma {:induction false} FloorLog2Bounds(v: nat)
    requires v >= 1
    ensures Pow2(FloorLog2(v)) <= v < 2 * Pow2(FloorLog2(v))
  {
    if v > 1 { FloorLog2Bounds(v / 2); }
  }

  /** `r` is the integer nearest to log2 of `v`: 2^(r - 1/2) <= v < 2^(r + 1/2), squared and doubled. */
  ghost predicate Nearest(v: nat, r: nat) {
    Pow2(2 * r) <= 2 * (v * v) < Pow2(2 * r + 2)
  }

  lemma Pow2Square(f: nat)
    ensures Pow2(2 * f) == Pow2(f) * Pow2(f) && Pow2(2 * f + 2) == 4 * Pow2(2 * f)
  {
    Pow2Add(f, f);
    assert 2 * f + 2 == (2 * f + 1) + 1;
  }

  lemma SquareBounds(v: nat, p: nat)
    requires p <= v < 2 * p
    ensures p * p <= v * v < 4 * (p * p)
  {
    assert p * p <= v * p <= v * v;
    assert v * v < v * (2 * p) || v == 0;
    assert v * (2 * p) <= (2 * p) * (2 * p) == 4 * (p * p);
  }

  lemma RoundIsNearest(v: nat)
    requires v >= 1
    ensures Nearest(v, RoundLog2(v))
  {
    hide Pow2;
    hide FloorLog2;
    var f := FloorLog2(v);
    FloorLog2Bounds(v);
    SquareBounds(v, Pow2(f));
    Pow2Square(f);
    Pow2Square(f + 1);
    assert 2 * (f + 1) == 2 * f + 2;
    if v <= 1 { assert Pow2(0) == 1 && FloorLog2(1) == 0 by { SmallLogs(); } }
  }

  lemma SmallLogs()
    ensures Pow2(0) == 1 && FloorLog2(1) == 0
  {
  }

  lemma NearestUnique(v: nat, r: nat, s: nat)
    requires Nearest(v, r) && Nearest(v, s)
    ensures r == s
  {
    if r < s && 2 * r + 2 < 2 * s { Pow2Grows(2 * r + 2, 2 * s); }
    if s < r && 2 * s + 2 < 2 * r { Pow2Grows(2 * s + 2, 2 * r); }
  }

  /** `round_log2` returns `r` if and only if `r` is the nearest integer to log2. */
  lemma RoundIff(v: nat, r: nat)
    requires v >= 1
    ensures Nearest(v, r) <==> r == RoundLog2(v)
  {
    RoundIsNearest(v);
    if Nearest(v, r) { NearestUnique(v, r, RoundLog2(v)); }
  }

  lemma RoundMonotone(v: nat, w: nat)
    requires 1 <= v <= w
    ensures RoundLog2(v) <= RoundLog2(w)
  {
    hide RoundLog2;
    hide Pow2;
    var r, s := RoundLog2(v), RoundLog2(w);
    RoundIsNearest(v);
    RoundIsNearest(w);
    assert v * v <= v * w <= w * w;
    if s < r && 2 * s + 2 < 2 * r { Pow2Grows(2 * s + 2, 2 * r); }
  }

  lemma RoundOfPow2(k: nat)
    ensures RoundLog2(Pow2(k)) == k
  {
    Pow2Square(k);
    RoundIff(Pow2(k), k);
  }

  /** The 64-bit loop; the two 128-bit products never overflow. */
  method RoundLog2Loop(value: nat) returns (r: nat)
    requires value < U64
    ensures r == RoundLog2(value)
  {
    if value <= 1 {
      return 0;
    }
    var floor, shifted := 0, value;
    while shifted > 1
      invariant shifted >= 1 && FloorLog2(value) == floor + FloorLog2(shifted)
    {
      shifted := shifted / 2;
      floor := floor + 1;
    }
    var base := Pow2(floor);
    FloorLog2Bounds(value);
    assert value * value < U64 * U64 && 2 * (base * base) < U64 * U64 by { ProductsFit(value, floor); }
    if value * value >= 2 * (base * base) {
      return floor + 1;
    }
    return floor;
  }

  lemma SmallPowers()
    ensures Pow2(16) == 0x1_0000 && Pow2(24) == 0x100_0000
  {
    assert Pow2(4) == 16;
    Pow2Add(4, 4);
    Pow2Add(8, 8);
    Pow2Add(8, 16);
  }

  lemma Pow2Of64()
    ensures Pow2(64) == U64
  {
    SmallPowers();
    Pow2Add(16, 16);
    Pow2Add(32, 32);
  }

  lemma ExponentBelow64(v: nat, f: nat)
    requires Pow2(f) <= v < U64
    ensures 2 * Pow2(f) <= U64
  {
    Pow2Of64();
    if f < 64 { Pow2Grows(f, 64); } else if f > 64 { Pow2Grows(64, f); }
  }

  lemma ProductsFit(v: nat, f: nat)
    requires Pow2(f) <= v < U64
    ensures v * v < U64 * U64 && 2 * (Pow2(f) * Pow2(f)) < U64 * U64
  {
    hide Pow2;
    ExponentBelow64(v, f);
    Below64(v, Pow2(f));
  }

  lemma Below64(v: nat, p: nat)
    requires v < U64 && 2 * p <= U64
    ensures v * v < U64 * U64 && 2 * (p * p) < U64 * U64
  {
    Times(v, v, U64, U64);
    Times(2 * p, p, U64, U64);
    assert (2 * p) * p == 2 * (p * p);
  }

  lemma Times(a: nat, b: nat, c: nat, d: nat)
    requires a <= c && b < d && c > 0
    ensures a * b < c * d
  {
    assert a * b <= c * b;
    assert c * b < c * d;
  }

  // ---- The retarget step ----

  function Clamp(x: int, lo: int, hi: int): (r: int)
    requires lo <= hi
    ensures lo <= r <= hi
  {
    if x < lo then lo else if x > hi then hi else x
  }

  function ClampBits(bits: nat): (r: nat)
    ensures MIN_BITS <= r <= MAX_BITS
  {
    Clamp(bits, MIN_BITS, MAX_BITS)
  }

  function Span(elapsed: int): (s: nat)
    ensures 135 <= s <= 2160
  {
    Clamp(elapsed, TARGET / 4, TARGET * 4)
  }

  function NextWork(work: nat, elapsed: int): nat { work * TARGET / Span(elapsed) }

  /** `retarget_difficulty_bits`, every clamp included. */
  function RetargetBits(bitsIn: nat, elapsed: int): nat {
    var bits := ClampBits(bitsIn);
    if elapsed <= 0 then bits else
    var work := Pow2(bits);
    var next := Clamp(NextWork(work, elapsed), work / 4, work * 4);
    ClampBits(RoundLog2(if next < 1 then 1 else next))
  }

  lemma Quotient(a: nat, d: nat)
    requires d > 0
    ensures a / d * d <= a < a / d * d + d
  {
  }

  lemma Scaled(x: nat, y: nat, d: nat)
    requires x <= y
    ensures x * d <= y * d
  {
  }

  lemma DivBetween(a: nat, d: nat, lo: nat, hi: nat)
    requires d > 0 && lo * d <= a && a <= hi * d
    ensures lo <= a / d <= hi
  {
    var q := a / d;
    Quotient(a, d);
    if q < lo { Scaled(q + 1, lo, d); }
    if q > hi { Scaled(hi + 1, q, d); }
  }

  /** After the span clamp the 4x work clamp never bites, and the work stays positive. */
  lemma WorkClampIdle(bits: nat, elapsed: int)
    requires MIN_BITS <= bits
    ensures var work := Pow2(bits); 1 <= work / 4 <= NextWork(work, elapsed) <= work * 4
    ensures Pow2(bits) / 4 == Pow2(bits - 2) && Pow2(bits) * 4 == Pow2(bits + 2)
  {
    var work, s := Pow2(bits), Span(elapsed);
    assert Pow2(bits) == 4 * Pow2(bits - 2);
    assert work / 4 * s <= work / 4 * 2160;
    assert work * 4 * 135 <= work * 4 * s;
    DivBetween(work * TARGET, s, work / 4, work * 4);
  }

  /** The result as one expression, once the idle clamps are gone. */
  lemma RetargetIs(bits: nat, elapsed: int)
    requires elapsed > 0
    ensures RetargetBits(bits, elapsed) == ClampBits(RoundLog2(NextWork(Pow2(ClampBits(bits)), elapsed)))
  {
    WorkClampIdle(ClampBits(bits), elapsed);
  }

  /** Bits stay in 2..24 and move at most two from the clamped input. */
  lemma RetargetBounded(bits: nat, elapsed: int)
    ensures MIN_BITS <= RetargetBits(bits, elapsed) <= MAX_BITS
    ensures ClampBits(bits) - 2 <= RetargetBits(bits, elapsed) <= ClampBits(bits) + 2
  {
    hide RoundLog2;
    hide Pow2;
    if elapsed > 0 {
      var b := ClampBits(bits);
      RetargetIs(bits, elapsed);
      WorkClampIdle(b, elapsed);
      RoundMonotone(Pow2(b - 2), NextWork(Pow2(b), elapsed));
      RoundMonotone(NextWork(Pow2(b), elapsed), Pow2(b + 2));
      RoundOfPow2(b - 2);
      RoundOfPow2(b + 2);
    }
  }

  lemma QuotientOrder(a: nat, p: nat, q: nat, d: nat, e: nat)
    requires a < p * d + d && q * e <= a && d <= e
    ensures q <= p
  {
    assert q * d <= q * e;
    if p < q { Scaled(p + 1, q, d); }
  }

  lemma DivMonotone(a: nat, d: nat, e: nat)
    requires 0 < d <= e
    ensures a / e <= a / d
  {
    Quotient(a, d);
    Quotient(a, e);
    QuotientOrder(a, a / d, a / e, d, e);
  }

  /** A slower window never raises the difficulty. */
  lemma RetargetAntitone(bits: nat, fast: int, slow: int)
    requires 0 < fast <= slow
    ensures RetargetBits(bits, slow) <= RetargetBits(bits, fast)
  {
    hide RoundLog2;
    hide Pow2;
    var b := ClampBits(bits);
    RetargetIs(bits, fast);
    RetargetIs(bits, slow);
    WorkClampIdle(b, slow);
    DivMonotone(Pow2(b) * TARGET, Span(fast), Span(slow));
    RoundMonotone(NextWork(Pow2(b), slow), NextWork(Pow2(b), fast));
  }

  lemma ScaledBack(w: nat)
    ensures NextWork(w, TARGET) == w
  {
    QuotientIs(w * TARGET, TARGET, w);
  }

  /** On target, nothing moves. */
  lemma RetargetFixpoint(bits: nat)
    ensures RetargetBits(bits, TARGET) == ClampBits(bits)
  {
    hide RoundLog2;
    hide Pow2;
    var b := ClampBits(bits);
    RetargetIs(bits, TARGET);
    ScaledBack(Pow2(b));
    RoundOfPow2(b);
  }

  /** Bits as they are reported: at least 2 and at most 24. */
  function Reported(r: nat): nat { if r < 2 then 2 else if r > 24 then 24 else r }

  /**
   * The step itself: the result is the integer nearest to log2 of the work scaled by 540 over the seconds elapsed,
   * rounded down, within 2..24; the seconds count as 135 at least and as 2160 at most.
   */
  lemma RetargetStep(bits: nat, elapsed: int, w: nat, r: nat)
    requires 2 <= bits <= 24 && elapsed > 0
    requires var span := if elapsed < 135 then 135 else if elapsed > 2160 then 2160 else elapsed;
             w * span <= Pow2(bits) * 540 < (w + 1) * span
    requires Nearest(w, r)
    ensures RetargetBits(bits, elapsed) == Reported(r)
  {
    hide RoundLog2;
    hide Pow2;
    hide Nearest;
    QuotientIs(Pow2(bits) * 540, Span(elapsed), w);
    RetargetIs(bits, elapsed);
    WorkClampIdle(bits, elapsed);
    RoundIff(w, r);
  }

  /** Bits outside 2..24 count as the nearer end, and no time or negative time moves nothing. */
  lemma RetargetEnds(bits: nat, elapsed: int)
    ensures RetargetBits(bits, elapsed) == RetargetBits(Reported(bits), elapsed)
    ensures elapsed <= 0 ==> RetargetBits(bits, elapsed) == Reported(bits)
  {
    hide RoundLog2;
    hide Pow2;
    assert ClampBits(bits) == Reported(bits) == ClampBits(Reported(bits));
  }

  lemma QuotientIs(a: nat, d: nat, q: nat)
    requires d > 0 && q * d <= a < (q + 1) * d
    ensures a / d == q
  {
    Quotient(a, d);
    if a / d < q { Scaled(a / d + 1, q, d); }
    if q < a / d { Scaled(q + 1, a / d, d); }
  }

  /** `retarget_difficulty_bits`, with its reassigned locals. */
  method RetargetDifficultyBits(bitsIn: nat, elapsed: int) returns (r: nat)
    ensures r == RetargetBits(bitsIn, elapsed)
  {
    var bits := bitsIn;
    if bits < MIN_BITS { bits := MIN_BITS; }
    if bits > MAX_BITS { bits := MAX_BITS; }
    if elapsed <= 0 { return bits; }
    var span := elapsed;
    if span < TARGET / 4 { span := TARGET / 4; }
    if span > TARGET * 4 { span := TARGET * 4; }
    var work := Pow2(bits);
    var next := work * TARGET / span;
    if next < work / 4 { next := work / 4; }
    if next > work * 4 { next := work * 4; }
    if next < 1 { next := 1; }
    assert work <= 0x100_0000 by { if bits < 24 { Pow2Grows(bits, 24); } SmallPowers(); }
    var bitsNext := RoundLog2Loop(next);
    if bitsNext < MIN_BITS { bitsNext := MIN_BITS; }
    if bitsNext > MAX_BITS { bitsNext := MAX_BITS; }
    return bitsNext;
  }
}
