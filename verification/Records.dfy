/**
 * The transaction record and its canonical byte encoding.
 *
 * `Canonical` is the preimage of a transaction id. A decoder is its left inverse
 * exactly on the records whose counts and lengths fit their wire fields.
 */
module Records {
  import opened Types
  import opened LittleEndian

  datatype TxIn = TxIn(prev: Hash, vout: nat, signature: Bytes, publicKey: Bytes)
  datatype TxOut = TxOut(value: nat, address: Text)

  datatype FlagOp =
    | NoFlag
    | Create(flagId: Text, commitment: Hash, awardsKey: Hash, maxClaims: nat, expiresHeight: nat, bounty: nat,
             note: Text)
    | Claim(flagId: Text, recipient: Text)

  datatype Registration = NoReg | Reg(name: Text, address: Text)

  datatype Tx = Tx(version: nat, coinbase: bool, height: nat, fee: nat, flag: FlagOp, reg: Registration,
                   inputs: seq<TxIn>, outputs: seq<TxOut>, txid: Hash)

  datatype Outpoint = Outpoint(txid: Hash, vout: nat)

  function Point(i: TxIn): Outpoint { Outpoint(i.prev, i.vout) }

  const TX1: Bytes := [84, 88, 49]
  const FLAG1: Bytes := [70, 76, 65, 71, 49]
  const FLAG2: Bytes := [70, 76, 65, 71, 50]
  const REG1: Bytes := [82, 69, 71, 49]

  function EncodeText(t: Text): Bytes { LE(|t|, 2) + t }
  function EncodeIn(i: TxIn): Bytes { i.prev + LE(i.vout, 4) }
  function EncodeOut(o: TxOut): Bytes { LE(o.value, 8) + EncodeText(o.address) }

  function EncodeIns(s: seq<TxIn>): Bytes {
    if s == [] then [] else EncodeIn(s[0]) + EncodeIns(s[1..])
  }

  function EncodeOuts(s: seq<TxOut>): Bytes {
    if s == [] then [] else EncodeOut(s[0]) + EncodeOuts(s[1..])
  }

  function EncodeFlag(f: FlagOp): Bytes {
    match f
    case NoFlag => []
    case Create(id, commitment, key, maxClaims, expires, bounty, note) =>
      FLAG1 + (EncodeText(id)
          + (commitment + (key + (LE(maxClaims, 4) + (LE(expires, 4) + (LE(bounty, 8) + EncodeText(note)))))))
    case Claim(id, recipient) =>
      FLAG2 + (EncodeText(id) + EncodeText(recipient))
  }

  function EncodeReg(r: Registration): Bytes {
    match r
    case NoReg => []
    case Reg(name, address) => REG1 + (EncodeText(name) + EncodeText(address))
  }

  function WireHeight(tx: Tx): nat { if tx.coinbase then tx.height else 0 }

  function Tail(tx: Tx): Bytes {
    LE(tx.fee, 8) + (LE(WireHeight(tx), 4) + (EncodeFlag(tx.flag) + EncodeReg(tx.reg)))
  }

  /** `canonical_tx`: register and flag fields are appended only, so a spend stays plain TX1. */
  function Canonical(tx: Tx): Bytes {
    TX1 + (LE(tx.version, 4) + ([if tx.coinbase then 1 else 0] +
      (LE(|tx.inputs|, 4) + (EncodeIns(tx.inputs) +
        (LE(|tx.outputs|, 4) + (EncodeOuts(tx.outputs) + Tail(tx)))))))
  }
}
