/** Decimal 314ST amounts and their value in pi: `parse_314st_pi` and `format_314st_pi`. */
module Amount {
  import opened Types

  const PI_PER_314ST: nat := 1000000

  datatype Amount = Pi(value: nat) | BadForm | TooManyPlaces | Overflow | NotPositive

  predicate IsDigit(c: char) { '0' <= c <= '9' }

  predicate Digits(s: string) { forall i :: 0 <= i < |s| ==> IsDigit(s[i]) }

  /** The number a digit string writes; other characters count as zero. */
  function Number(s: string): nat {
    if s == [] then 0
    else Number(s[..|s| - 1]) * 10 + (if IsDigit(s[|s| - 1]) then s[|s| - 1] as int - '0' as int else 0)
  }

  function Pow10(n: nat): (p: nat)
    ensures p > 0
  {
    if n == 0 then 1 else 10 * Pow10(n - 1)
  }

  // ---- What a text means ----

  /** `text` is digits, or digits, a dot and more digits. */
  ghost predicate Written(text: string, whole: string, frac: string) {
    && whole != [] && Digits(whole) && Digits(frac)
    && text == if frac == [] then whole else whole + "." + frac
  }

  /** Pi in `whole.frac` 314ST. */
  function Worth(whole: string, frac: string): nat
    requires |frac| <= 6
  {
    Number(whole) * PI_PER_314ST + Number(frac) * Pow10(6 - |frac|)
  }

  function Judged(v: nat): Amount {
    if v >= U64 then Overflow else if v == 0 then NotPositive else Pi(v)
  }

  function FirstDot(text: string): (d: nat)
    ensures d <= |text|
    ensures forall i :: 0 <= i < d ==> text[i] != '.'
    ensures d < |text| ==> text[d] == '.'
  {
    if text == [] || text[0] == '.' then 0 else 1 + FirstDot(text[1..])
  }

  function Whole(text: string): string { text[..FirstDot(text)] }

  function Frac(text: string): string { if FirstDot(text) < |text| then text[FirstDot(text) + 1..] else [] }

  /** The result of `parse_314st_pi`. */
  function Verdict(text: string): Amount {
    var whole, frac := Whole(text), Frac(text);
    if whole == [] || !Digits(whole) || !Digits(frac) || (frac == [] && FirstDot(text) < |text|) then BadForm
    else if |frac| > 6 then TooManyPlaces
    else Judged(Worth(whole, frac))
  }

  lemma DotIs(text: string, d: nat)
    requires d <= |text| && (forall i :: 0 <= i < d ==> text[i] != '.') && (d < |text| ==> text[d] == '.')
    ensures FirstDot(text) == d
  {
  }

  /** A text can be read in one way only. */
  lemma WrittenOnce(text: string, whole: string, frac: string)
    requires Written(text, whole, frac)
    ensures whole == Whole(text) && frac == Frac(text) && (frac == [] ==> FirstDot(text) == |text|)
  {
    DotIs(text, |whole|);
    assert text[..|whole|] == whole;
    assert frac != [] ==> text[|whole| + 1..] == frac;
  }

  /** Well-formed texts are judged by their exact value; six places are the limit; anything else is malformed. */
  lemma VerdictIs(text: string, whole: string, frac: string)
    ensures Written(text, whole, frac) ==> Verdict(text) == if |frac| > 6 then TooManyPlaces
            else Judged(Worth(whole, frac))
    ensures Verdict(text) == BadForm <==> !Written(text, Whole(text), Frac(text))
  {
    if Written(text, whole, frac) { WrittenOnce(text, whole, frac); }
    if Written(text, Whole(text), Frac(text)) { WrittenOnce(text, Whole(text), Frac(text)); }
    if Verdict(text) != BadForm && FirstDot(text) < |text| {
      assert text == Whole(text) + "." + Frac(text);
    }
  }

  /**
   * Accepted exactly: digits, optionally a dot and one to six digits, worth 1 to 2^64 - 1 pi; the
   * result is that worth.
   */
  lemma AcceptedIff(text: string, v: nat)
    ensures Verdict(text) == Pi(v) <==>
            0 < v < U64 && exists whole, frac :: Written(text, whole, frac) && |frac| <= 6 && Worth(whole, frac) == v
  {
    VerdictIs(text, Whole(text), Frac(text));
    if exists whole, frac :: Written(text, whole, frac) && |frac| <= 6 && Worth(whole, frac) == v {
      var whole, frac :| Written(text, whole, frac) && |frac| <= 6 && Worth(whole, frac) == v;
      VerdictIs(text, whole, frac);
    }
  }

  // ---- Printing ----

  function Digit(d: nat): (c: char)
    requires d < 10
    ensures IsDigit(c) && c as int - '0' as int == d
  {
    '0' + d as char
  }

  /** `%llu`. */
  function Decimal(n: nat): string {
    if n < 10 then [Digit(n)] else Decimal(n / 10) + [Digit(n % 10)]
  }

  /** `%0*llu` for a number of at most `width` digits. */
  function Padded(n: nat, width: nat): string
    requires n < Pow10(width)
  {
    if width == 0 then [] else Padded(n / 10, width - 1) + [Digit(n % 10)]
  }

  function Format(pi: nat): string {
    assert Pow10(6) == PI_PER_314ST by { Million(); }
    Decimal(pi / PI_PER_314ST) + "." + Padded(pi % PI_PER_314ST, 6)
  }

  lemma Million()
    ensures Pow10(0) == 1 && Pow10(6) == PI_PER_314ST
  {
    assert Pow10(3) == 1000;
  }

  lemma {:induction false} DecimalReads(n: nat)
    ensures Digits(Decimal(n)) && Decimal(n) != [] && Number(Decimal(n)) == n
  {
    if n >= 10 {
      DecimalReads(n / 10);
      assert Decimal(n)[..|Decimal(n)| - 1] == Decimal(n / 10);
    } else {
      assert Decimal(n)[..0] == [];
    }
  }

  lemma {:induction false} PaddedReads(n: nat, width: nat)
    requires n < Pow10(width)
    ensures Digits(Padded(n, width)) && |Padded(n, width)| == width && Number(Padded(n, width)) == n
  {
    if width > 0 {
      PaddedReads(n / 10, width - 1);
      assert Padded(n, width)[..width - 1] == Padded(n / 10, width - 1);
    }
  }

  /** Every positive 64-bit amount survives printing and parsing. */
  lemma FormatParses(pi: nat)
    requires 0 < pi < U64
    ensures Verdict(Format(pi)) == Pi(pi)
  {
    hide Verdict;
    Million();
    var whole, frac := Decimal(pi / PI_PER_314ST), Padded(pi % PI_PER_314ST, 6);
    DecimalReads(pi / PI_PER_314ST);
    PaddedReads(pi % PI_PER_314ST, 6);
    assert Written(Format(pi), whole, frac);
    VerdictIs(Format(pi), whole, frac);
  }

  // ---- The source's loops ----

  lemma {:induction false} NumberGrows(s: string, i: nat)
    requires i <= |s|
    ensures Number(s[..i]) <= Number(s)
    decreases |s| - i
  {
    if i < |s| {
      assert s[..i + 1][..i] == s[..i];
      NumberGrows(s, i + 1);
    } else {
      assert s[..i] == s;
    }
  }

  /** `accumulate`: fails exactly when the number does not fit 64 bits. */
  method Accumulate(digits: string) returns (ok: bool, out: nat)
    requires Digits(digits)
    ensures ok <==> Number(digits) < U64
    ensures ok ==> out == Number(digits)
  {
    out := 0;
    for i := 0 to |digits|
      invariant out == Number(digits[..i]) < U64
    {
      var digit := digits[i] as int - '0' as int;
      assert digits[..i + 1][..i] == digits[..i];
      NumberGrows(digits, i + 1);
      if out > (U64 - 1 - digit) / 10 {
        return false, out;
      }
      out := out * 10 + digit;
    }
    assert digits[..|digits|] == digits;
    return true, out;
  }

  lemma {:induction false} NumberSmall(s: string)
    ensures Number(s) < Pow10(|s|)
  {
    if s != [] { NumberSmall(s[..|s| - 1]); }
  }

  lemma {:induction false} Pow10Sum(a: nat, b: nat)
    ensures Pow10(a + b) == Pow10(a) * Pow10(b)
  {
    if a > 0 { Pow10Sum(a - 1, b); }
  }

  /** Scaling up to six places stays below one 314ST, so the overflow test there never fires. */
  method ScaleFraction(frac: string, value: nat) returns (scaled: nat)
    requires |frac| <= 6 && value == Number(frac)
    ensures scaled == Number(frac) * Pow10(6 - |frac|) < PI_PER_314ST
  {
    Million();
    scaled := value;
    assert Pow10(0) == 1;
    for i := |frac| to 6
      invariant scaled == value * Pow10(i - |frac|)
    {
      ScaledSmall(frac, i - |frac|);
      if scaled > (U64 - 1) / 10 {
        assert false;
      }
      scaled := scaled * 10;
      assert Pow10(i + 1 - |frac|) == 10 * Pow10(i - |frac|);
    }
    ScaledSmall(frac, 6 - |frac|);
  }

  lemma {:induction false} Pow10Grows(a: nat, b: nat)
    requires a <= b
    ensures Pow10(a) <= Pow10(b)
  {
    if a < b { Pow10Grows(a, b - 1); }
  }

  lemma Times(a: nat, b: nat, c: nat)
    requires a < b && c > 0
    ensures a * c < b * c
  {
  }

  lemma ScaledSmall(frac: string, k: nat)
    requires |frac| + k <= 6
    ensures Number(frac) * Pow10(k) < PI_PER_314ST
  {
    hide Number;
    hide Pow10;
    Million();
    NumberSmall(frac);
    Times(Number(frac), Pow10(|frac|), Pow10(k));
    Pow10Sum(|frac|, k);
    Pow10Grows(|frac| + k, 6);
  }

  /** `std::string::find` for a dot, from `start`. */
  method FindDot(text: string, start: nat) returns (at: nat)
    requires start <= |text|
    ensures start <= at <= |text| && (forall i :: start <= i < at ==> text[i] != '.')
            && (at < |text| ==> text[at] == '.')
  {
    at := start;
    while at < |text| && text[at] != '.'
      invariant start <= at <= |text| && forall i :: start <= i < at ==> text[i] != '.'
    {
      at := at + 1;
    }
  }

  /** The shape tests before any arithmetic. */
  method CheckShape(text: string) returns (ok: bool)
    ensures ok <==> Verdict(text) != BadForm
  {
    hide Worth;
    if text == [] {
      return false;
    }
    for i := 0 to |text|
      invariant forall k :: 0 <= k < i ==> text[k] == '.' || IsDigit(text[k])
    {
      if text[i] != '.' && (text[i] < '0' || text[i] > '9') {
        OddCharacter(text, i);
        return false;
      }
    }
    var dot := FindDot(text, 0);
    DotIs(text, dot);
    if dot < |text| {
      var second := FindDot(text, dot + 1);
      if second < |text| {
        assert Frac(text)[second - dot - 1] == '.';
        return false;
      }
    }
    var whole := text[..dot];
    var frac := if dot == |text| then [] else text[dot + 1..];
    ok := whole != [] && (dot == |text| || frac != []);
  }

  lemma OddCharacter(text: string, i: nat)
    requires i < |text| && text[i] != '.' && !IsDigit(text[i])
    ensures Verdict(text) == BadForm
  {
    var d := FirstDot(text);
    if i < d { assert Whole(text)[i] == text[i]; } else { assert Frac(text)[i - d - 1] == text[i]; }
  }

  /** `parse_314st_pi`. */
  method Parse(text: string) returns (r: Amount)
    ensures r == Verdict(text)
  {
    var ok := CheckShape(text);
    if !ok {
      return BadForm;
    }
    var dot := FindDot(text, 0);
    DotIs(text, dot);
    var whole := text[..dot];
    var frac := if dot == |text| then [] else text[dot + 1..];
    if |frac| > 6 {
      return TooManyPlaces;
    }
    r := Convert(whole, frac);
  }

  /** The arithmetic half: every overflow test is tight. */
  method Convert(whole: string, frac: string) returns (r: Amount)
    requires Digits(whole) && Digits(frac) && |frac| <= 6
    ensures r == Judged(Worth(whole, frac))
  {
    var fits, wholeV := Accumulate(whole);
    if !fits {
      assert Worth(whole, frac) >= Number(whole);
      return Overflow;
    }
    var small, fracV := Accumulate(frac);
    NumberSmall(frac);
    ScaledSmall(frac, 0);
    if !small {
      assert false;
    }
    fracV := ScaleFraction(frac, fracV);
    if wholeV > (U64 - 1) / PI_PER_314ST {
      return Overflow;
    }
    var scaled := wholeV * PI_PER_314ST;
    if scaled > U64 - 1 - fracV {
      return Overflow;
    }
    var pi := scaled + fracV;
    if pi == 0 {
      return NotPositive;
    }
    return Pi(pi);
  }
}
