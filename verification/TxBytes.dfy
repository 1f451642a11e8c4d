/** `canonical_tx` as the source writes it: appending to one byte vector. */
module TxBytes {
  import opened Types
  import opened LittleEndian
  import opened Records

  method AppendText(out: Bytes, t: Text) returns (r: Bytes)
    ensures r == out + EncodeText(t)
  {
    r := AppendLE(out, |t|, 2);
    r := r + t;
  }

  method AppendInputs(out: Bytes, s: seq<TxIn>) returns (r: Bytes)
    ensures r == out + EncodeIns(s)
  {
    hide EncodeIn;
    r := out;
    for i := 0 to |s|
      invariant r + EncodeIns(s[i..]) == out + EncodeIns(s)
    {
      var was := r;
      var withPrev := r + s[i].prev;
      r := AppendLE(withPrev, s[i].vout, 4);
      InputBytes(was, s[i]);
      assert s[i..][1..] == s[i + 1..];
      Associates(was, EncodeIn(s[i]), EncodeIns(s[i + 1..]));
    }
    assert s[|s|..] == [];
  }

  method AppendOutputs(out: Bytes, s: seq<TxOut>) returns (r: Bytes)
    ensures r == out + EncodeOuts(s)
  {
    hide EncodeOut;
    r := out;
    for i := 0 to |s|
      invariant r + EncodeOuts(s[i..]) == out + EncodeOuts(s)
    {
      var was := r;
      r := AppendLE(r, s[i].value, 8);
      r := AppendText(r, s[i].address);
      OutputBytes(was, s[i]);
      assert s[i..][1..] == s[i + 1..];
      Associates(was, EncodeOut(s[i]), EncodeOuts(s[i + 1..]));
    }
    assert s[|s|..] == [];
  }

  lemma InputBytes(out: Bytes, i: TxIn)
    ensures (out + i.prev) + LE(i.vout, 4) == out + EncodeIn(i)
  {
  }

  lemma OutputBytes(out: Bytes, o: TxOut)
    ensures (out + LE(o.value, 8)) + EncodeText(o.address) == out + EncodeOut(o)
  {
  }

  method AppendFlag(out: Bytes, f: FlagOp) returns (r: Bytes)
    ensures r == out + EncodeFlag(f)
  {
    hide EncodeText;
    hide LE;
    match f
    case NoFlag =>
      r := out;
    case Create(_, _, _, _, _, _, _) =>
      r := AppendCreate(out, f);
    case Claim(id, recipient) =>
      r := out + FLAG2;
      Associates(out, FLAG2, EncodeText(id) + EncodeText(recipient));
      Associates(r, EncodeText(id), EncodeText(recipient));
      r := AppendText(r, id);
      r := AppendText(r, recipient);
  }

  method AppendCreate(out: Bytes, f: FlagOp) returns (r: Bytes)
    requires f.Create?
    ensures r == out + EncodeFlag(f)
  {
    hide EncodeText;
    hide LE;
    ghost var n6 := LE(f.bounty, 8) + EncodeText(f.note);
    ghost var n5 := LE(f.expiresHeight, 4) + n6;
    ghost var n4 := LE(f.maxClaims, 4) + n5;
    ghost var n3 := f.awardsKey + n4;
    ghost var n2 := f.commitment + n3;
    ghost var n1 := EncodeText(f.flagId) + n2;
    Associates(out, FLAG1, n1);
    r := out + FLAG1;
    Associates(r, EncodeText(f.flagId), n2);
    r := AppendText(r, f.flagId);
    Associates(r, f.commitment, n3);
    r := r + f.commitment;
    Associates(r, f.awardsKey, n4);
    r := r + f.awardsKey;
    Associates(r, LE(f.maxClaims, 4), n5);
    r := AppendLE(r, f.maxClaims, 4);
    Associates(r, LE(f.expiresHeight, 4), n6);
    r := AppendLE(r, f.expiresHeight, 4);
    Associates(r, LE(f.bounty, 8), EncodeText(f.note));
    r := AppendLE(r, f.bounty, 8);
    r := AppendText(r, f.note);
  }

  method AppendRegistration(out: Bytes, g: Registration) returns (r: Bytes)
    ensures r == out + EncodeReg(g)
  {
    hide EncodeText;
    r := out;
    if g.Reg? {
      r := r + REG1;
      r := AppendText(r, g.name);
      r := AppendText(r, g.address);
    }
  }

  /** `canonical_tx`. */
  method CanonicalTx(tx: Tx) returns (out: Bytes)
    ensures out == Canonical(tx)
  {
    hide LE;
    hide EncodeIns;
    hide EncodeOuts;
    hide EncodeFlag;
    hide EncodeReg;
    ghost var kind: Bytes := [if tx.coinbase then 1 else 0];
    ghost var n8 := EncodeFlag(tx.flag) + EncodeReg(tx.reg);
    ghost var n7 := LE(WireHeight(tx), 4) + n8;
    ghost var n6 := LE(tx.fee, 8) + n7;
    ghost var n5 := EncodeOuts(tx.outputs) + n6;
    ghost var n4 := LE(|tx.outputs|, 4) + n5;
    ghost var n3 := EncodeIns(tx.inputs) + n4;
    ghost var n2 := LE(|tx.inputs|, 4) + n3;
    ghost var n1 := kind + n2;
    out := TX1;
    Associates(out, LE(tx.version, 4), n1);
    out := AppendLE(out, tx.version, 4);
    Associates(out, kind, n2);
    out := out + [if tx.coinbase then 1 else 0];
    Associates(out, LE(|tx.inputs|, 4), n3);
    out := AppendLE(out, |tx.inputs|, 4);
    Associates(out, EncodeIns(tx.inputs), n4);
    out := AppendInputs(out, tx.inputs);
    Associates(out, LE(|tx.outputs|, 4), n5);
    out := AppendLE(out, |tx.outputs|, 4);
    Associates(out, EncodeOuts(tx.outputs), n6);
    out := AppendOutputs(out, tx.outputs);
    Associates(out, LE(tx.fee, 8), n7);
    out := AppendLE(out, tx.fee, 8);
    Associates(out, LE(WireHeight(tx), 4), n8);
    out := AppendLE(out, if tx.coinbase then tx.height else 0, 4);
    Associates(out, EncodeFlag(tx.flag), EncodeReg(tx.reg));
    out := AppendFlag(out, tx.flag);
    out := AppendRegistration(out, tx.reg);
  }
}
