/** A decoder for the canonical transaction encoding, and what the encoding commits to. */
module TxCodec {
  import opened Types
  import opened LittleEndian
  import opened Records

  // ---- The decoder ----

  function Take(b: Bytes, n: nat): Parsed<Bytes> {
    if |b| < n then Fail else Ok(b[..n], b[n..])
  }

  function DecodeHash(b: Bytes): Parsed<Hash> {
    if |b| < 32 then Fail else Ok(b[..32], b[32..])
  }

  function DecodeText(b: Bytes): Parsed<Text> {
    match ReadLE(b, 2)
    case Fail => Fail
    case Ok(n, rest) => Take(rest, n)
  }

  function DecodeIn(b: Bytes): Parsed<TxIn> {
    match DecodeHash(b)
    case Fail => Fail
    case Ok(prev, r) =>
      match ReadLE(r, 4)
      case Fail => Fail
      case Ok(vout, rest) => Ok(TxIn(prev, vout, [], []), rest)
  }

  function DecodeOut(b: Bytes): Parsed<TxOut> {
    match ReadLE(b, 8)
    case Fail => Fail
    case Ok(value, r) =>
      match DecodeText(r)
      case Fail => Fail
      case Ok(address, rest) => Ok(TxOut(value, address), rest)
  }

  function DecodeIns(b: Bytes, n: nat): Parsed<seq<TxIn>> {
    if n == 0 then Ok([], b) else
    match DecodeIn(b)
    case Fail => Fail
    case Ok(first, r) =>
      match DecodeIns(r, n - 1)
      case Fail => Fail
      case Ok(others, rest) => Ok([first] + others, rest)
  }

  function DecodeOuts(b: Bytes, n: nat): Parsed<seq<TxOut>> {
    if n == 0 then Ok([], b) else
    match DecodeOut(b)
    case Fail => Fail
    case Ok(first, r) =>
      match DecodeOuts(r, n - 1)
      case Fail => Fail
      case Ok(others, rest) => Ok([first] + others, rest)
  }

  function DecodeCreate(b: Bytes): Parsed<FlagOp> {
    match DecodeText(b)
    case Fail => Fail
    case Ok(id, b1) =>
    match DecodeHash(b1)
    case Fail => Fail
    case Ok(commitment, b2) =>
    match DecodeHash(b2)
    case Fail => Fail
    case Ok(key, b3) =>
    match ReadLE(b3, 4)
    case Fail => Fail
    case Ok(maxClaims, b4) =>
    match ReadLE(b4, 4)
    case Fail => Fail
    case Ok(expires, b5) =>
    match ReadLE(b5, 8)
    case Fail => Fail
    case Ok(bounty, b6) =>
    match DecodeText(b6)
    case Fail => Fail
    case Ok(note, rest) => Ok(Create(id, commitment, key, maxClaims, expires, bounty, note), rest)
  }

  function DecodeTexts(b: Bytes): Parsed<(Text, Text)> {
    match DecodeText(b)
    case Fail => Fail
    case Ok(first, r) =>
      match DecodeText(r)
      case Fail => Fail
      case Ok(second, rest) => Ok((first, second), rest)
  }

  function DecodeFlag(b: Bytes): Parsed<FlagOp> {
    if FLAG1 <= b then DecodeCreate(b[5..])
    else if FLAG2 <= b then
      match DecodeTexts(b[5..])
      case Fail => Fail
      case Ok(p, rest) => Ok(Claim(p.0, p.1), rest)
    else Ok(NoFlag, b)
  }

  function DecodeReg(b: Bytes): Parsed<Registration> {
    if REG1 <= b then
      match DecodeTexts(b[4..])
      case Fail => Fail
      case Ok(p, rest) => Ok(Reg(p.0, p.1), rest)
    else Ok(NoReg, b)
  }

  datatype TailFields = TailFields(fee: nat, height: nat, flag: FlagOp, reg: Registration)

  function DecodeTail(b: Bytes): Parsed<TailFields> {
    match ReadLE(b, 8)
    case Fail => Fail
    case Ok(fee, b1) =>
    match ReadLE(b1, 4)
    case Fail => Fail
    case Ok(height, b2) =>
    match DecodeFlag(b2)
    case Fail => Fail
    case Ok(flag, b3) =>
    match DecodeReg(b3)
    case Fail => Fail
    case Ok(reg, rest) => Ok(TailFields(fee, height, flag, reg), rest)
  }

  datatype BodyFields = BodyFields(inputs: seq<TxIn>, outputs: seq<TxOut>)

  function DecodeBody(b: Bytes): Parsed<BodyFields> {
    match ReadLE(b, 4)
    case Fail => Fail
    case Ok(nIn, b1) =>
    match DecodeIns(b1, nIn)
    case Fail => Fail
    case Ok(inputs, b2) =>
    match ReadLE(b2, 4)
    case Fail => Fail
    case Ok(nOut, b3) =>
    match DecodeOuts(b3, nOut)
    case Fail => Fail
    case Ok(outputs, rest) => Ok(BodyFields(inputs, outputs), rest)
  }

  /** The record a canonical encoding stands for, with the fields it does not commit to left blank. */
  function Decode(b: Bytes): Option<Tx> {
    if !(TX1 <= b) then None else
    match ReadLE(b[3..], 4)
    case Fail => None
    case Ok(version, b1) =>
    if b1 == [] then None else
    match DecodeBody(b1[1..])
    case Fail => None
    case Ok(body, b2) =>
    match DecodeTail(b2)
    case Fail => None
    case Ok(tail, rest) =>
      if rest != [] then None else
      Some(Tx(version, b1[0] != 0, tail.height, tail.fee, tail.flag, tail.reg, body.inputs, body.outputs, ZERO))
  }

  // ---- What it is a left inverse of ----

  predicate TextFits(t: Text) { |t| < U16 }

  predicate InsFit(s: seq<TxIn>) { forall i :: 0 <= i < |s| ==> s[i].vout < U32 }

  predicate OutsFit(s: seq<TxOut>) { forall i :: 0 <= i < |s| ==> s[i].value < U64 && TextFits(s[i].address) }

  predicate FlagFits(f: FlagOp) {
    match f
    case NoFlag => true
    case Create(id, _, _, maxClaims, expires, bounty, note) =>
      TextFits(id) && maxClaims < U32 && expires < U32 && bounty < U64 && TextFits(note)
    case Claim(id, recipient) => TextFits(id) && TextFits(recipient)
  }

  predicate RegFits(r: Registration) {
    r.Reg? ==> TextFits(r.name) && TextFits(r.address)
  }

  /** Every count, length and number fits the wire field it is cast to. */
  predicate Fits(tx: Tx) {
    && tx.version < U32 && tx.fee < U64 && WireHeight(tx) < U32
    && |tx.inputs| < U32 && InsFit(tx.inputs)
    && |tx.outputs| < U32 && OutsFit(tx.outputs)
    && FlagFits(tx.flag) && RegFits(tx.reg)
  }

  function BareIns(s: seq<TxIn>): (r: seq<TxIn>)
    ensures |r| == |s|
    ensures forall i :: 0 <= i < |s| ==> r[i] == TxIn(s[i].prev, s[i].vout, [], [])
  {
    if s == [] then [] else [TxIn(s[0].prev, s[0].vout, [], [])] + BareIns(s[1..])
  }

  /** The committed fields: no signatures, no keys, no id, and a height only on a coinbase. */
  function Committed(tx: Tx): Tx {
    tx.(height := WireHeight(tx), inputs := BareIns(tx.inputs), txid := ZERO)
  }

  lemma TextRoundTrip(t: Text, rest: Bytes)
    requires TextFits(t)
    ensures DecodeText(EncodeText(t) + rest) == Ok(t, rest)
  {
    Widths();
    assert EncodeText(t) + rest == LE(|t|, 2) + (t + rest);
    ReadLEOfLE(|t|, 2, t + rest);
  }

  lemma HashRoundTrip(h: Hash, rest: Bytes)
    ensures DecodeHash(h + rest) == Ok(h, rest)
  {
    assert (h + rest)[..32] == h && (h + rest)[32..] == rest;
  }

  lemma InRoundTrip(i: TxIn, rest: Bytes)
    requires i.vout < U32
    ensures DecodeIn(EncodeIn(i) + rest) == Ok(TxIn(i.prev, i.vout, [], []), rest)
  {
    Widths();
    assert EncodeIn(i) + rest == i.prev + (LE(i.vout, 4) + rest);
    HashRoundTrip(i.prev, LE(i.vout, 4) + rest);
    ReadLEOfLE(i.vout, 4, rest);
  }

  lemma OutRoundTrip(o: TxOut, rest: Bytes)
    requires o.value < U64 && TextFits(o.address)
    ensures DecodeOut(EncodeOut(o) + rest) == Ok(o, rest)
  {
    Widths();
    assert EncodeOut(o) + rest == LE(o.value, 8) + (EncodeText(o.address) + rest);
    ReadLEOfLE(o.value, 8, EncodeText(o.address) + rest);
    TextRoundTrip(o.address, rest);
  }

  lemma {:induction false} InsRoundTrip(s: seq<TxIn>, rest: Bytes)
    requires InsFit(s)
    ensures DecodeIns(EncodeIns(s) + rest, |s|) == Ok(BareIns(s), rest)
  {
    if s == [] {
      assert EncodeIns(s) + rest == rest;
    } else {
      var after := EncodeIns(s[1..]) + rest;
      InsRoundTrip(s[1..], rest);
      assert EncodeIns(s) + rest == EncodeIn(s[0]) + after;
      InRoundTrip(s[0], after);
    }
  }

  lemma {:induction false} OutsRoundTrip(s: seq<TxOut>, rest: Bytes)
    requires OutsFit(s)
    ensures DecodeOuts(EncodeOuts(s) + rest, |s|) == Ok(s, rest)
  {
    if s == [] {
      assert EncodeOuts(s) + rest == rest;
    } else {
      var after := EncodeOuts(s[1..]) + rest;
      OutsRoundTrip(s[1..], rest);
      assert EncodeOuts(s) + rest == EncodeOut(s[0]) + after;
      OutRoundTrip(s[0], after);
      assert s == [s[0]] + s[1..];
    }
  }

  lemma TextsRoundTrip(a: Text, b: Text, rest: Bytes)
    requires TextFits(a) && TextFits(b)
    ensures DecodeTexts((EncodeText(a) + EncodeText(b)) + rest) == Ok((a, b), rest)
  {
    assert (EncodeText(a) + EncodeText(b)) + rest == EncodeText(a) + (EncodeText(b) + rest);
    TextRoundTrip(a, EncodeText(b) + rest);
    TextRoundTrip(b, rest);
  }

  lemma CreateRoundTrip(f: FlagOp, rest: Bytes)
    requires f.Create? && FlagFits(f)
    ensures DecodeCreate(EncodeFlag(f)[5..] + rest) == Ok(f, rest)
  {
    Widths();
    var r6 := EncodeText(f.note) + rest;
    var r5 := LE(f.bounty, 8) + r6;
    var r4 := LE(f.expiresHeight, 4) + r5;
    var r3 := LE(f.maxClaims, 4) + r4;
    var r2 := f.awardsKey + r3;
    var r1 := f.commitment + r2;
    assert EncodeFlag(f)[5..] + rest == EncodeText(f.flagId) + r1;
    TextRoundTrip(f.flagId, r1);
    HashRoundTrip(f.commitment, r2);
    HashRoundTrip(f.awardsKey, r3);
    ReadLEOfLE(f.maxClaims, 4, r4);
    ReadLEOfLE(f.expiresHeight, 4, r5);
    ReadLEOfLE(f.bounty, 8, r6);
    TextRoundTrip(f.note, rest);
  }

  lemma RegRoundTrip(r: Registration)
    requires RegFits(r)
    ensures DecodeReg(EncodeReg(r)) == Ok(r, [])
  {
    if r.Reg? {
      var body := EncodeText(r.name) + EncodeText(r.address);
      TextsRoundTrip(r.name, r.address, []);
      assert body + [] == body && EncodeReg(r)[4..] == body;
    }
  }

  /** The tag decides the branch: what follows it is handed to that branch unchanged. */
  lemma TagDecides(tag: Bytes, body: Bytes)
    ensures tag == FLAG1 ==> DecodeFlag(tag + body) == DecodeCreate(body)
    ensures tag == FLAG2 ==> FLAG2 <= tag + body && !(FLAG1 <= tag + body) && (tag + body)[5..] == body
  {
    assert (tag + body)[|tag|..] == body;
    assert tag == FLAG2 ==> (tag + body)[4] == 50;
  }

  lemma FlagRoundTrip(f: FlagOp, r: Registration)
    requires FlagFits(f)
    ensures DecodeFlag(EncodeFlag(f) + EncodeReg(r)) == Ok(f, EncodeReg(r))
  {
    var rest := EncodeReg(r);
    if f.NoFlag? {
      assert EncodeFlag(f) + rest == rest;
      assert rest != [] ==> rest[0] == 82;
    } else {
      var tag, body := EncodeFlag(f)[..5], EncodeFlag(f)[5..];
      assert EncodeFlag(f) + rest == tag + (body + rest);
      TagDecides(tag, body + rest);
      if f.Create? {
        assert tag == FLAG1;
        CreateRoundTrip(f, rest);
      } else {
        assert tag == FLAG2 && body == EncodeText(f.flagId) + EncodeText(f.recipient);
        TextsRoundTrip(f.flagId, f.recipient, rest);
      }
    }
  }

  lemma TailRoundTrip(tx: Tx)
    requires tx.fee < U64 && WireHeight(tx) < U32 && FlagFits(tx.flag) && RegFits(tx.reg)
    ensures DecodeTail(Tail(tx)) == Ok(TailFields(tx.fee, WireHeight(tx), tx.flag, tx.reg), [])
  {
    Widths();
    var r2 := EncodeFlag(tx.flag) + EncodeReg(tx.reg);
    var r1 := LE(WireHeight(tx), 4) + r2;
    ReadLEOfLE(tx.fee, 8, r1);
    ReadLEOfLE(WireHeight(tx), 4, r2);
    FlagRoundTrip(tx.flag, tx.reg);
    RegRoundTrip(tx.reg);
  }

  lemma BodyRoundTrip(tx: Tx, rest: Bytes)
    requires |tx.inputs| < U32 && InsFit(tx.inputs) && |tx.outputs| < U32 && OutsFit(tx.outputs)
    ensures DecodeBody(LE(|tx.inputs|, 4)
            + (EncodeIns(tx.inputs) + (LE(|tx.outputs|, 4) + (EncodeOuts(tx.outputs) + rest))))
         == Ok(BodyFields(BareIns(tx.inputs), tx.outputs), rest)
  {
    Widths();
    var r3 := EncodeOuts(tx.outputs) + rest;
    var r2 := LE(|tx.outputs|, 4) + r3;
    var r1 := EncodeIns(tx.inputs) + r2;
    ReadLEOfLE(|tx.inputs|, 4, r1);
    InsRoundTrip(tx.inputs, r2);
    ReadLEOfLE(|tx.outputs|, 4, r3);
    OutsRoundTrip(tx.outputs, rest);
  }

  lemma RoundTripIfFits(tx: Tx)
    requires Fits(tx)
    ensures Decode(Canonical(tx)) == Some(Committed(tx))
  {
    var body := LE(|tx.inputs|, 4)
        + (EncodeIns(tx.inputs) + (LE(|tx.outputs|, 4) + (EncodeOuts(tx.outputs) + Tail(tx))));
    var kind: Bytes := [if tx.coinbase then 1 else 0];
    Widths();
    var b := Canonical(tx);
    assert b == TX1 + (LE(tx.version, 4) + (kind + body));
    assert b[..3] == TX1 && b[3..] == LE(tx.version, 4) + (kind + body);
    ReadLEOfLE(tx.version, 4, kind + body);
    assert (kind + body)[1..] == body;
    BodyRoundTrip(tx, Tail(tx));
    TailRoundTrip(tx);
  }

  // ---- And only of those ----

  lemma ReadLEFits(b: Bytes, n: nat)
    requires ReadLE(b, n).Ok?
    ensures ReadLE(b, n).value < Pow256(n)
  {
    LEOfValue(b[..n]);
  }

  lemma {:induction false} DecodeInsFit(b: Bytes, n: nat)
    requires DecodeIns(b, n).Ok?
    ensures |DecodeIns(b, n).value| == n && InsFit(DecodeIns(b, n).value)
  {
    if n > 0 {
      Widths();
      ReadLEFits(DecodeHash(b).rest, 4);
      DecodeInsFit(DecodeIn(b).rest, n - 1);
    }
  }

  lemma DecodeTextFits(b: Bytes)
    requires DecodeText(b).Ok?
    ensures TextFits(DecodeText(b).value)
  {
    Widths();
    ReadLEFits(b, 2);
  }

  lemma {:induction false} DecodeOutsFit(b: Bytes, n: nat)
    requires DecodeOuts(b, n).Ok?
    ensures |DecodeOuts(b, n).value| == n && OutsFit(DecodeOuts(b, n).value)
  {
    if n > 0 {
      Widths();
      ReadLEFits(b, 8);
      DecodeTextFits(ReadLE(b, 8).rest);
      DecodeOutsFit(DecodeOut(b).rest, n - 1);
    }
  }

  lemma DecodeTextsFit(b: Bytes)
    requires DecodeTexts(b).Ok?
    ensures TextFits(DecodeTexts(b).value.0) && TextFits(DecodeTexts(b).value.1)
  {
    DecodeTextFits(b);
    DecodeTextFits(DecodeText(b).rest);
  }

  lemma DecodeCreateFits(b: Bytes)
    requires DecodeCreate(b).Ok?
    ensures FlagFits(DecodeCreate(b).value)
  {
    Widths();
    DecodeTextFits(b);
    var b3 := DecodeHash(DecodeHash(DecodeText(b).rest).rest).rest;
    ReadLEFits(b3, 4);
    var b4 := ReadLE(b3, 4).rest;
    ReadLEFits(b4, 4);
    var b5 := ReadLE(b4, 4).rest;
    ReadLEFits(b5, 8);
    DecodeTextFits(ReadLE(b5, 8).rest);
  }

  lemma DecodeTailFits(b: Bytes)
    requires DecodeTail(b).Ok?
    ensures var t := DecodeTail(b).value; t.fee < U64 && t.height < U32 && FlagFits(t.flag) && RegFits(t.reg)
  {
    Widths();
    ReadLEFits(b, 8);
    var b1 := ReadLE(b, 8).rest;
    ReadLEFits(b1, 4);
    var b2 := ReadLE(b1, 4).rest;
    if FLAG1 <= b2 { DecodeCreateFits(b2[5..]); } else if FLAG2 <= b2 { DecodeTextsFit(b2[5..]); }
    var b3 := DecodeFlag(b2).rest;
    if REG1 <= b3 { DecodeTextsFit(b3[4..]); }
  }

  lemma DecodeFits(b: Bytes)
    requires Decode(b).Some?
    ensures Fits(Decode(b).value)
  {
    Widths();
    ReadLEFits(b[3..], 4);
    var b1 := ReadLE(b[3..], 4).rest;
    var body := b1[1..];
    ReadLEFits(body, 4);
    var c1 := ReadLE(body, 4);
    DecodeInsFit(c1.rest, c1.value);
    var c2 := DecodeIns(c1.rest, c1.value).rest;
    ReadLEFits(c2, 4);
    DecodeOutsFit(ReadLE(c2, 4).rest, ReadLE(c2, 4).value);
    DecodeTailFits(DecodeBody(body).rest);
  }

  /** The decoder gives the committed fields back exactly on records that fit their wire fields. */
  lemma RoundTripIff(tx: Tx)
    ensures Decode(Canonical(tx)) == Some(Committed(tx)) <==> Fits(tx)
  {
    if Fits(tx) { RoundTripIfFits(tx); }
    if Decode(Canonical(tx)) == Some(Committed(tx)) {
      DecodeFits(Canonical(tx));
      assert forall i :: 0 <= i < |tx.inputs| ==> BareIns(tx.inputs)[i].vout == tx.inputs[i].vout;
    }
  }

  /** Two records that fit have equal encodings if and only if they agree on every committed field. */
  lemma CanonicalCommits(a: Tx, b: Tx)
    requires Fits(a) && Fits(b)
    ensures Canonical(a) == Canonical(b) <==> Committed(a) == Committed(b)
  {
    RoundTripIfFits(a);
    RoundTripIfFits(b);
    if Committed(a) == Committed(b) {
      EncodeBareIns(a.inputs);
      EncodeBareIns(b.inputs);
    }
  }

  lemma {:induction false} EncodeBareIns(s: seq<TxIn>)
    ensures EncodeIns(BareIns(s)) == EncodeIns(s)
  {
    if s != [] {
      EncodeBareIns(s[1..]);
      assert BareIns(s)[1..] == BareIns(s[1..]);
    }
  }

  // ---- Facts that need no decoder, and no bound on address lengths ----

  lemma SameKind(a: Tx, b: Tx)
    requires Canonical(a) == Canonical(b)
    ensures a.coinbase == b.coinbase
  {
    assert Canonical(a)[7] == if a.coinbase then 1 else 0;
    assert Canonical(b)[7] == if b.coinbase then 1 else 0;
  }

  lemma Split(a: Bytes, b: Bytes)
    ensures (a + b)[..|a|] == a && (a + b)[|a|..] == b
  {
  }

  /** The encoding starts with eight fixed bytes; the inputs follow. */
  lemma InputsFollow(tx: Tx)
    ensures |Canonical(tx)| >= 8
    ensures Canonical(tx)[8..] == LE(|tx.inputs|, 4) + (EncodeIns(tx.inputs)
                                   + (LE(|tx.outputs|, 4) + (EncodeOuts(tx.outputs) + Tail(tx))))
  {
    var y := LE(|tx.inputs|, 4) + (EncodeIns(tx.inputs) + (LE(|tx.outputs|, 4) + (EncodeOuts(tx.outputs) + Tail(tx))));
    var k: Bytes := [if tx.coinbase then 1 else 0];
    var b := Canonical(tx);
    Split(TX1, LE(tx.version, 4) + (k + y));
    Split(LE(tx.version, 4), k + y);
    Split(k, y);
    assert b[8..] == b[3..][4..][1..];
  }

  /** Equal encodings spend the same outpoints, in the same order. */
  lemma SameInputs(a: Tx, b: Tx)
    requires Canonical(a) == Canonical(b)
    requires |a.inputs| < U32 && |b.inputs| < U32 && InsFit(a.inputs) && InsFit(b.inputs)
    ensures |a.inputs| == |b.inputs|
    ensures forall i :: 0 <= i < |a.inputs| ==> Point(a.inputs[i]) == Point(b.inputs[i])
  {
    Widths();
    InputsFollow(a);
    InputsFollow(b);
    var ra := LE(|a.outputs|, 4) + (EncodeOuts(a.outputs) + Tail(a));
    var rb := LE(|b.outputs|, 4) + (EncodeOuts(b.outputs) + Tail(b));
    ReadLEOfLE(|a.inputs|, 4, EncodeIns(a.inputs) + ra);
    ReadLEOfLE(|b.inputs|, 4, EncodeIns(b.inputs) + rb);
    InsRoundTrip(a.inputs, ra);
    InsRoundTrip(b.inputs, rb);
    assert BareIns(a.inputs) == BareIns(b.inputs);
    forall i | 0 <= i < |a.inputs| ensures Point(a.inputs[i]) == Point(b.inputs[i]) {
      assert BareIns(a.inputs)[i] == BareIns(b.inputs)[i];
    }
  }

  /** A coinbase encoding ends with its height, whatever its outputs are. */
  lemma SameHeight(a: Tx, b: Tx)
    requires Canonical(a) == Canonical(b) && a.coinbase && b.coinbase
    requires a.flag.NoFlag? && a.reg.NoReg? && b.flag.NoFlag? && b.reg.NoReg?
    requires a.height < U32 && b.height < U32
    ensures a.height == b.height
  {
    HeightAtEnd(a);
    HeightAtEnd(b);
    Widths();
    LEInjective(a.height, b.height, 4);
  }

  lemma HeightAtEnd(tx: Tx)
    requires tx.coinbase && tx.flag.NoFlag? && tx.reg.NoReg?
    ensures |Canonical(tx)| >= 4 && Canonical(tx)[|Canonical(tx)| - 4..] == LE(tx.height, 4)
  {
    var front := TX1 + (LE(tx.version, 4) + ([1] + (LE(|tx.inputs|, 4) + (EncodeIns(tx.inputs)
                 + (LE(|tx.outputs|, 4) + (EncodeOuts(tx.outputs) + LE(tx.fee, 8)))))));
    assert Canonical(tx) == front + LE(tx.height, 4);
  }
}
