/**
 * P2P framing: `Peer::sendMessage` writes [type:1][length:4][payload]; `P2PServer::processMessages`
 * takes frames back out of whatever pieces `recv` returns.
 *
 * A handler may close the connection or push the ban score over its limit. That is the function
 * `hangsUp` of the messages handed over so far.
 */
module Framing {
  import opened Types
  import opened LittleEndian

  datatype Msg = Msg(kind: Byte, payload: Bytes)

  type Handlers = seq<Msg> -> bool

  const BLOCK: Byte := 7
  const TX: Byte := 8
  const LAST_KIND: Byte := 13
  const MAX_MESSAGE: nat := 2 * 1024 * 1024
  const MAX_BLOCK: nat := 256 * 1024
  const MAX_TX: nat := 64 * 1024

  /** A five-byte header the receiver lets through. */
  predicate LegalHeader(kind: Byte, len: nat) {
    && kind <= LAST_KIND && len <= MAX_MESSAGE
    && (kind == BLOCK ==> len <= MAX_BLOCK)
    && (kind == TX ==> len <= MAX_TX)
  }

  predicate LegalMsg(m: Msg) { LegalHeader(m.kind, |m.payload|) }

  function Frame(m: Msg): (b: Bytes)
    ensures |b| == 5 + |m.payload|
  {
    [m.kind] + LE(|m.payload|, 4) + m.payload
  }

  /** What a peer that sends `ms` writes to the socket. */
  function Frames(ms: seq<Msg>): Bytes {
    if ms == [] then [] else Frames(ms[..|ms| - 1]) + Frame(ms[|ms| - 1])
  }

  function Declared(b: Bytes): nat
    requires |b| >= 5
  {
    Value(b[1..5])
  }

  /** The header at the front is complete and illegal. */
  predicate BadFront(b: Bytes) { |b| >= 5 && !LegalHeader(b[0], Declared(b)) }

  /** No complete frame at the front, and nothing illegal yet. */
  predicate Partial(b: Bytes) { |b| < 5 || (LegalHeader(b[0], Declared(b)) && |b| < 5 + Declared(b)) }

  /** The length field, byte by byte. */
  function Length(b0: nat, b1: nat, b2: nat, b3: nat): nat { b0 + 0x100 * b1 + 0x1_0000 * b2 + 0x100_0000 * b3 }

  /** A header is illegal exactly for a kind above 13, more than 2 MiB, a block above 256 KiB, or a tx above 64 KiB. */
  lemma BadFrontIff(b: Bytes)
    requires |b| >= 5
    ensures var len := Length(b[1], b[2], b[3], b[4]);
            BadFront(b) <==> b[0] > 13 || len > 2097152 || (b[0] == 7 && len > 262144) || (b[0] == 8 && len > 65536)
  {
    var t := b[1..5];
    assert t[1..][1..] == t[2..] && t[2..][1..] == t[3..] && t[3..][1..] == [];
    assert Value(t[3..]) == b[4];
    assert Value(t[2..]) == b[3] + 256 * Value(t[3..]);
    assert Value(t[1..]) == b[2] + 256 * Value(t[2..]);
  }

  /** `recvBuffer`, whether the socket is open, and the messages handed to handlers so far. */
  datatype Conn = Conn(buffer: Bytes, open: bool, got: seq<Msg>)

  function FrontMsg(b: Bytes): (m: Msg)
    requires !BadFront(b) && !Partial(b)
    ensures LegalMsg(m)
  {
    Msg(b[0], b[5..5 + Declared(b)])
  }

  /** The loop of `processMessages`, as a function. */
  function Drain(hangsUp: Handlers, c: Conn): Conn
    decreases |c.buffer|
  {
    if !c.open || Partial(c.buffer) then c
    else if BadFront(c.buffer) then Conn([], false, c.got)
    else
      var got := c.got + [FrontMsg(c.buffer)];
      if hangsUp(got) then Conn([], false, got)
      else Drain(hangsUp, Conn(c.buffer[5 + Declared(c.buffer)..], true, got))
  }

  function Receive(hangsUp: Handlers, c: Conn, chunk: Bytes): Conn {
    if !c.open then c else Drain(hangsUp, c.(buffer := c.buffer + chunk))
  }

  const FRESH: Conn := Conn([], true, [])

  /** The connection after all of `chunks`, in order. */
  function ReceiveAll(hangsUp: Handlers, chunks: seq<Bytes>): Conn {
    if chunks == [] then FRESH
    else Receive(hangsUp, ReceiveAll(hangsUp, chunks[..|chunks| - 1]), chunks[|chunks| - 1])
  }

  function Joined(chunks: seq<Bytes>): Bytes {
    if chunks == [] then [] else Joined(chunks[..|chunks| - 1]) + chunks[|chunks| - 1]
  }

  // ---- Chunking does not matter ----

  /** More bytes behind a complete header change neither the verdict on it nor the message in front. */
  lemma FrontStays(b: Bytes, more: Bytes)
    requires !Partial(b)
    ensures !Partial(b + more) && BadFront(b + more) == BadFront(b)
    ensures Declared(b + more) == Declared(b)
    ensures !BadFront(b) ==> FrontMsg(b + more) == FrontMsg(b)
    ensures !BadFront(b) ==> (b + more)[5 + Declared(b)..] == b[5 + Declared(b)..] + more
  {
    assert (b + more)[1..5] == b[1..5];
    if !BadFront(b) {
      assert (b + more)[5..5 + Declared(b)] == b[5..5 + Declared(b)];
    }
  }

  /** Draining early and again later is draining once. */
  lemma {:induction false} DrainTwice(hangsUp: Handlers, c: Conn, more: Bytes)
    requires c.open
    ensures Receive(hangsUp, Drain(hangsUp, c), more) == Drain(hangsUp, c.(buffer := c.buffer + more))
    decreases |c.buffer|
  {
    if !Partial(c.buffer) {
      FrontStays(c.buffer, more);
      if !BadFront(c.buffer) {
        var got := c.got + [FrontMsg(c.buffer)];
        if !hangsUp(got) {
          DrainTwice(hangsUp, Conn(c.buffer[5 + Declared(c.buffer)..], true, got), more);
        }
      }
    }
  }

  /** However the bytes were cut, the connection ends up as if they had come in one piece. */
  lemma {:induction false} ChunkingIsIrrelevant(hangsUp: Handlers, chunks: seq<Bytes>)
    ensures ReceiveAll(hangsUp, chunks) == Drain(hangsUp, Conn(Joined(chunks), true, []))
  {
    if chunks != [] {
      var front := chunks[..|chunks| - 1];
      ChunkingIsIrrelevant(hangsUp, front);
      DrainTwice(hangsUp, Conn(Joined(front), true, []), chunks[|chunks| - 1]);
    }
  }

  // ---- What is handed over is what was sent ----

  /** No handler hangs up on a prefix of `ms`. */
  ghost predicate Patient(hangsUp: Handlers, got: seq<Msg>, ms: seq<Msg>) {
    forall k :: 0 < k <= |ms| ==> !hangsUp(got + ms[..k])
  }

  ghost predicate AllLegal(ms: seq<Msg>) { forall i :: 0 <= i < |ms| ==> LegalMsg(ms[i]) }

  lemma {:induction false} FramesCons(ms: seq<Msg>)
    requires ms != []
    ensures Frames(ms) == Frame(ms[0]) + Frames(ms[1..])
  {
    hide Frame;
    var n := |ms| - 1;
    if n == 0 {
      assert ms[..0] == [] && ms[1..] == [];
    } else {
      FramesCons(ms[..n]);
      var tail := ms[1..];
      assert ms[..n][1..] == tail[..n - 1] && ms[..n][0] == ms[0] && tail[n - 1] == ms[n];
      Associates(Frame(ms[0]), Frames(tail[..n - 1]), Frame(ms[n]));
    }
  }

  lemma FrameInFront(m: Msg, rest: Bytes)
    requires LegalMsg(m)
    ensures var b := Frame(m) + rest;
            && !Partial(b) && !BadFront(b) && FrontMsg(b) == m
            && Declared(b) == |m.payload| && b[5 + Declared(b)..] == rest
  {
    var b, len := Frame(m) + rest, LE(|m.payload|, 4);
    Widths();
    ValueOfLE(|m.payload|, 4);
    assert b == [m.kind] + (len + (m.payload + rest));
    assert b[1..5] == len;
    assert b[5..] == m.payload + rest;
    assert b[5..5 + |m.payload|] == m.payload;
  }

  lemma PatientTail(hangsUp: Handlers, got: seq<Msg>, ms: seq<Msg>)
    requires ms != [] && Patient(hangsUp, got, ms)
    ensures !hangsUp(got + [ms[0]]) && Patient(hangsUp, got + [ms[0]], ms[1..])
  {
    assert ms[..1] == [ms[0]];
    forall k | 0 < k <= |ms| - 1 ensures !hangsUp(got + [ms[0]] + ms[1..][..k]) {
      assert got + [ms[0]] + ms[1..][..k] == got + ms[..k + 1];
    }
  }

  lemma FirstPasses(hangsUp: Handlers, got: seq<Msg>, m: Msg, after: Bytes)
    requires LegalMsg(m) && !hangsUp(got + [m])
    ensures Drain(hangsUp, Conn(Frame(m) + after, true, got)) == Drain(hangsUp, Conn(after, true, got + [m]))
  {
    hide Frame;
    hide LegalHeader;
    FrameInFront(m, after);
  }

  /** Legal frames at the front are handed over one by one, in order, with their exact payloads. */
  lemma {:induction false} LegalFramesPass(hangsUp: Handlers, got: seq<Msg>, ms: seq<Msg>, rest: Bytes)
    requires AllLegal(ms) && Patient(hangsUp, got, ms)
    ensures Drain(hangsUp, Conn(Frames(ms) + rest, true, got)) == Drain(hangsUp, Conn(rest, true, got + ms))
    decreases |ms|
  {
    hide Frame;
    hide LegalMsg;
    hide Drain;
    hide Patient;
    if ms == [] {
      assert Frames(ms) + rest == rest && got + ms == got;
    } else {
      var m, tail := ms[0], ms[1..];
      var after := Frames(tail) + rest;
      FramesCons(ms);
      Associates(Frame(m), Frames(tail), rest);
      PatientTail(hangsUp, got, ms);
      FirstPasses(hangsUp, got, m, after);
      LegalFramesPass(hangsUp, got + [m], tail, rest);
      assert got + [m] + tail == got + ms;
    }
  }

  /** Legal frames cut into any chunks: each is dispatched exactly once, in order, and nothing is left over. */
  lemma SentIsReceived(hangsUp: Handlers, ms: seq<Msg>, chunks: seq<Bytes>)
    requires AllLegal(ms) && Patient(hangsUp, [], ms) && Joined(chunks) == Frames(ms)
    ensures ReceiveAll(hangsUp, chunks) == Conn([], true, ms)
  {
    ChunkingIsIrrelevant(hangsUp, chunks);
    LegalFramesPass(hangsUp, [], ms, []);
    assert Frames(ms) + [] == Frames(ms) && [] + ms == ms;
  }

  /** The first illegal header ends the connection; nothing behind it is dispatched, however the bytes were cut. */
  lemma IllegalHeaderCloses(hangsUp: Handlers, ms: seq<Msg>, rest: Bytes, chunks: seq<Bytes>)
    requires AllLegal(ms) && Patient(hangsUp, [], ms) && BadFront(rest) && Joined(chunks) == Frames(ms) + rest
    ensures ReceiveAll(hangsUp, chunks) == Conn([], false, ms)
  {
    ChunkingIsIrrelevant(hangsUp, chunks);
    LegalFramesPass(hangsUp, [], ms, rest);
    assert [] + ms == ms;
  }

  /**
   * How a connection that received `t` may stand: all of it framed or waiting, or cut at a hang-up or
   * an illegal header.
   */
  ghost predicate Explained(hangsUp: Handlers, t: Bytes, c: Conn, rest: Bytes) {
    && AllLegal(c.got) && t == Frames(c.got) + rest
    && (c.open ==> c.buffer == rest && Partial(rest) && Patient(hangsUp, [], c.got))
    && (!c.open ==> c.buffer == [] && ((c.got != [] && hangsUp(c.got)) || BadFront(rest)))
  }

  lemma FramesSnoc(ms: seq<Msg>, m: Msg)
    ensures Frames(ms + [m]) == Frames(ms) + Frame(m)
  {
    assert (ms + [m])[..|ms|] == ms;
  }

  lemma FrontIsFrame(b: Bytes)
    requires !Partial(b) && !BadFront(b)
    ensures b == Frame(FrontMsg(b)) + b[5 + Declared(b)..]
  {
    LEOfValue(b[1..5]);
  }

  lemma PatientSnoc(hangsUp: Handlers, ms: seq<Msg>, m: Msg)
    requires Patient(hangsUp, [], ms) && !hangsUp(ms + [m])
    ensures Patient(hangsUp, [], ms + [m])
  {
    var got := ms + [m];
    forall k | 0 < k <= |got| ensures !hangsUp([] + got[..k]) {
      if k <= |ms| { assert [] + got[..k] == [] + ms[..k]; } else { assert [] + got[..k] == got; }
    }
  }

  /** Moving the front frame to the handlers leaves the bytes accounted for. */
  lemma FrontMoves(t: Bytes, c: Conn)
    requires t == Frames(c.got) + c.buffer && AllLegal(c.got) && !Partial(c.buffer) && !BadFront(c.buffer)
    ensures var got := c.got + [FrontMsg(c.buffer)];
            t == Frames(got) + c.buffer[5 + Declared(c.buffer)..] && AllLegal(got)
  {
    hide Frame;
    hide LegalHeader;
    var m, left := FrontMsg(c.buffer), c.buffer[5 + Declared(c.buffer)..];
    FrontIsFrame(c.buffer);
    FramesSnoc(c.got, m);
    Associates(Frames(c.got), Frame(m), left);
  }

  /** Draining only ever moves whole frames from the buffer to the handlers. */
  lemma {:induction false} DrainExplained(hangsUp: Handlers, t: Bytes, c: Conn) returns (rest: Bytes)
    requires c.open && AllLegal(c.got) && t == Frames(c.got) + c.buffer && Patient(hangsUp, [], c.got)
    ensures Explained(hangsUp, t, Drain(hangsUp, c), rest)
    decreases |c.buffer|
  {
    hide Frames;
    hide Patient;
    hide AllLegal;
    hide LegalHeader;
    rest := c.buffer;
    if !Partial(c.buffer) && !BadFront(c.buffer) {
      var m, left := FrontMsg(c.buffer), c.buffer[5 + Declared(c.buffer)..];
      FrontMoves(t, c);
      rest := left;
      if !hangsUp(c.got + [m]) {
        PatientSnoc(hangsUp, c.got, m);
        rest := DrainExplained(hangsUp, t, Conn(left, true, c.got + [m]));
      }
    }
  }

  /**
   * For any bytes whatever: what was dispatched is a list of legal messages whose frames, in order, are
   * the front of the bytes received; an open connection holds the incomplete rest, and a closed one was
   * closed by a handler or by the illegal header that follows the dispatched frames.
   */
  lemma EveryByteExplained(hangsUp: Handlers, chunks: seq<Bytes>) returns (rest: Bytes)
    ensures Explained(hangsUp, Joined(chunks), ReceiveAll(hangsUp, chunks), rest)
  {
    ChunkingIsIrrelevant(hangsUp, chunks);
    assert Frames([]) + Joined(chunks) == Joined(chunks);
    rest := DrainExplained(hangsUp, Joined(chunks), Conn(Joined(chunks), true, []));
  }

  // ---- The source's own form ----

  /** `sendMessage`: the bytes written. The length is cast to 32 bits, which only the low bytes of `LE` see. */
  method SendMessage(kind: Byte, payload: Bytes) returns (b: Bytes)
    ensures b == Frame(Msg(kind, payload))
  {
    b := [kind];
    b := AppendLE(b, |payload|, 4);
    b := b + payload;
  }

  class Peer {
    var recvBuffer: Bytes
    var open: bool
    var got: seq<Msg>

    ghost function View(): Conn
      reads this
    {
      Conn(recvBuffer, open, got)
    }

    constructor ()
      ensures View() == FRESH
    {
      recvBuffer, open, got := [], true, [];
    }

    /** `processMessages` on the bytes one `recv` returned. */
    method ProcessMessages(hangsUp: Handlers, chunk: Bytes)
      modifies this
      ensures View() == Receive(hangsUp, old(View()), chunk)
    {
      hide Value;
      if !open {
        return;
      }
      recvBuffer := recvBuffer + chunk;
      while open && |recvBuffer| >= 5
        invariant Drain(hangsUp, View()) == Receive(hangsUp, old(View()), chunk)
        decreases |recvBuffer|
      {
        var kind, len := recvBuffer[0], Value(recvBuffer[1..5]);
        if kind > LAST_KIND || len > MAX_MESSAGE {
          recvBuffer, open := [], false;
          return;
        }
        if kind == BLOCK && len > MAX_BLOCK {
          recvBuffer, open := [], false;
          return;
        }
        if kind == TX && len > MAX_TX {
          recvBuffer, open := [], false;
          return;
        }
        if |recvBuffer| < 5 + len {
          break;
        }
        var payload := recvBuffer[5..5 + len];
        recvBuffer := recvBuffer[5 + len..];
        got := got + [Msg(kind, payload)];
        if hangsUp(got) {
          recvBuffer, open := [], false;
          return;
        }
      }
    }
  }
}
