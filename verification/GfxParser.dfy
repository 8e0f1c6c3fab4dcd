/**
  The incremental parser of the graphics channel (rdpgfx_server_ogon_receive_callback in
  rdp-server/rdpgfx.c).

  The channel delivers bytes in chunks of any size. The parser collects them in a stream until a
  header, and then a whole PDU, is there. What a PDU does is left open: handle is any function
  from the connection's state, a command and a body to the new state and whether to go on.
*/
module GfxParser {
  import opened Bytes

  const HEADER := 8

  datatype Handled<S> = Handled(state: S, ok: bool)
  type Handler<!S> = (S, nat, seq<Byte>) -> Handled<S>

  /** Where parsing stands: the handlers' state, the bytes of an unfinished PDU, and whether the channel is still open. */
  datatype Run<S> = Run(state: S, rest: seq<Byte>, open: bool)

  // ---------------------------------------------- the reference: parsing a string whole

  function Consume<S>(handle: Handler<S>, s: S, b: seq<Byte>): Run<S>
    decreases |b|
  {
    if |b| < HEADER then Run(s, b, true)
    else
      var length := From32(b[4..]);
      if length < HEADER then Run(s, [], false)
      else if |b| < length then Run(s, b, true)
      else
        var r := handle(s, From16(b), b[HEADER..length]);
        if r.ok then Consume(handle, r.state, b[length..]) else Run(r.state, [], false)
  }

  /** A PDU that announces less than its own header closes the channel, whatever follows. */
  lemma ShortLengthCloses<S>(handle: Handler<S>, s: S, header: seq<Byte>, rest: seq<Byte>)
    requires |header| == 8 && From32(header[4..]) < 8
    ensures Consume(handle, s, header + rest) == Run(s, [], false)
  {
    assert (header + rest)[4..] == header[4..] + rest;
  }

  /** One more chunk. */
  function Feed<S>(handle: Handler<S>, r: Run<S>, data: seq<Byte>): Run<S> {
    if r.open then Consume(handle, r.state, r.rest + data) else r
  }

  function FeedAll<S>(handle: Handler<S>, r: Run<S>, chunks: seq<seq<Byte>>): Run<S> {
    if chunks == [] then r
    else Feed(handle, FeedAll(handle, r, chunks[..|chunks| - 1]), chunks[|chunks| - 1])
  }

  /** Parsing a prefix and then the rest is parsing the whole. */
  lemma {:induction false} ConsumeSplit<S>(handle: Handler<S>, s: S, a: seq<Byte>, b: seq<Byte>)
    ensures Consume(handle, s, a + b) == Feed(handle, Consume(handle, s, a), b)
    decreases |a|
  {
    if |a| >= HEADER {
      assert From32((a + b)[4..]) == From32(a[4..]) && From16(a + b) == From16(a);
      var length := From32(a[4..]);
      if HEADER <= length <= |a| {
        assert (a + b)[HEADER..length] == a[HEADER..length];
        assert (a + b)[length..] == a[length..] + b;
        ConsumeSplit(handle, handle(s, From16(a), a[HEADER..length]).state, a[length..], b);
      }
    }
  }

  /** However the input is cut, the same PDUs are dispatched, in order, as when it is parsed whole. */
  lemma {:induction false} ChunkingIsIrrelevant<S>(handle: Handler<S>, s: S, chunks: seq<seq<Byte>>)
    ensures FeedAll(handle, Run(s, [], true), chunks) == Consume(handle, s, Concat(chunks))
  {
    if chunks != [] {
      var front, last := chunks[..|chunks| - 1], chunks[|chunks| - 1];
      ChunkingIsIrrelevant(handle, s, front);
      ConsumeSplit(handle, s, Concat(front), last);
    }
  }

  /** A closed channel takes no more chunks. */
  lemma {:induction false} ClosedStays<S>(handle: Handler<S>, r: Run<S>, chunks: seq<seq<Byte>>, i: nat)
    requires i <= |chunks| && !FeedAll(handle, r, chunks[..i]).open
    ensures FeedAll(handle, r, chunks) == FeedAll(handle, r, chunks[..i])
  {
    if i == |chunks| {
      assert chunks[..i] == chunks;
    } else {
      assert chunks[..|chunks| - 1][..i] == chunks[..i];
      ClosedStays(handle, r, chunks[..|chunks| - 1], i);
    }
  }

  // ------------------------------------------------------------- one turn of the loop

  /** The bytes to wait for. */
  function Needed(buf: seq<Byte>): nat {
    if |buf| < HEADER then HEADER else From32(buf[4..])
  }

  /** Filled up to what was needed, the stream is a whole PDU, an unfinished one whose header is known, or malformed. */
  lemma Filled(buf: seq<Byte>, more: seq<Byte>)
    requires |buf| < Needed(buf) == |buf + more|
    ensures var b := buf + more; |b| >= HEADER && (From32(b[4..]) <= |b| ==> From32(b[4..]) < HEADER || From32(b[4..]) == |b|)
  {
    if |buf| >= HEADER {
      assert (buf + more)[4..][..4] == buf[4..][..4];
    }
  }

  /** Fewer bytes than needed do not change what is needed. */
  lemma Unfinished(buf: seq<Byte>, more: seq<Byte>)
    requires |buf + more| < Needed(buf)
    ensures Needed(buf + more) == Needed(buf)
  {
    if |buf| >= HEADER {
      assert (buf + more)[4..][..4] == buf[4..][..4];
    }
  }

  lemma WholePdu<S>(handle: Handler<S>, s: S, pdu: seq<Byte>, data: seq<Byte>)
    requires |pdu| >= HEADER && From32(pdu[4..]) == |pdu|
    ensures Consume(handle, s, pdu + data) == Feed(handle, Consume(handle, s, pdu), data)
    ensures var r := handle(s, From16(pdu), pdu[HEADER..]);
            Consume(handle, s, pdu) == Run(r.state, [], r.ok)
  {
    ConsumeSplit(handle, s, pdu, data);
    assert pdu[HEADER..|pdu|] == pdu[HEADER..];
  }

  // --------------------------------------------------- what a well-behaved client sends

  datatype Pdu = Pdu(cmdId: nat, flags: nat, body: seq<Byte>)

  predicate Sendable(p: Pdu) {
    p.cmdId < 0x1_0000 && p.flags < 0x1_0000 && |p.body| + HEADER < 0x1_0000_0000
  }

  function Encode(p: Pdu): seq<Byte>
    requires Sendable(p)
  {
    Le16(p.cmdId) + Le16(p.flags) + Le32(|p.body| + HEADER) + p.body
  }

  function EncodeAll(pdus: seq<Pdu>): seq<Byte>
    requires forall i :: 0 <= i < |pdus| ==> Sendable(pdus[i])
  {
    if pdus == [] then [] else Encode(pdus[0]) + EncodeAll(pdus[1..])
  }

  /** The handlers run on the PDUs one after the other, up to the first that fails. */
  function Dispatch<S>(handle: Handler<S>, s: S, pdus: seq<Pdu>): Handled<S> {
    if pdus == [] then Handled(s, true)
    else
      var r := handle(s, pdus[0].cmdId, pdus[0].body);
      if r.ok then Dispatch(handle, r.state, pdus[1..]) else r
  }

  lemma Parts(command: seq<Byte>, flags: seq<Byte>, length: seq<Byte>, body: seq<Byte>, rest: seq<Byte>)
    requires |command| == |flags| == 2 && |length| == 4
    ensures var b := command + flags + length + body + rest;
            && b == command + (flags + length + body + rest) && b[4..] == length + (body + rest)
            && b[HEADER..|body| + HEADER] == body && b[|body| + HEADER..] == rest
  {}

  lemma EncodeParts(p: Pdu, rest: seq<Byte>)
    requires Sendable(p)
    ensures var b := Encode(p) + rest;
            && |b| >= |p.body| + HEADER && From16(b) == p.cmdId && From32(b[4..]) == |p.body| + HEADER
            && b[HEADER..|p.body| + HEADER] == p.body && b[|p.body| + HEADER..] == rest
  {
    var n := |p.body| + HEADER;
    Parts(Le16(p.cmdId), Le16(p.flags), Le32(n), p.body, rest);
    Le16RoundTrip(p.cmdId, Le16(p.flags) + Le32(n) + p.body + rest);
    Le32RoundTrip(n, p.body + rest);
  }

  /** Every PDU a client encodes reaches its handler with its own command and body, and no byte is left over. */
  lemma {:induction false} PdusRoundTrip<S>(handle: Handler<S>, s: S, pdus: seq<Pdu>)
    requires forall i :: 0 <= i < |pdus| ==> Sendable(pdus[i])
    ensures var r, d := Consume(handle, s, EncodeAll(pdus)), Dispatch(handle, s, pdus);
            r == Run(d.state, [], d.ok)
  {
    if pdus != [] {
      EncodeParts(pdus[0], EncodeAll(pdus[1..]));
      PdusRoundTrip(handle, handle(s, pdus[0].cmdId, pdus[0].body).state, pdus[1..]);
    }
  }

  // ------------------------------------------------------------ the receive callback

  class Parser<S> {
    const handle: Handler<S>
    var state: S
    var buf: seq<Byte>
    var required: nat
    var open: bool

    /** Between calls the stream holds fewer bytes than required, which is a header or the announced length. */
    ghost predicate Valid()
      reads this
    {
      open ==> |buf| < required == Needed(buf)
    }

    ghost function Model(): Run<S>
      reads this
    {
      Run(state, if open then buf else [], open)
    }

    constructor (handle: Handler<S>, state: S)
      ensures Valid() && Model() == Run(state, [], true) && this.handle == handle
    {
      this.handle, this.state := handle, state;
      buf, required, open := [], HEADER, true;
    }

    /** One turn of the loop: up to the bytes that are required now. */
    method Turn(data: seq<Byte>) returns (rest: seq<Byte>)
      requires Valid() && open && |buf| + |data| >= required
      modifies this
      ensures Valid() && |rest| < |data|
      ensures Consume(handle, old(state), old(buf) + data) == if open then Consume(handle, state, buf + rest) else Run(state, [], false)
    {
      var more := data[..required - |buf|];
      rest := data[|more|..];
      Filled(buf, more);
      assert buf + data == (buf + more) + rest;
      buf := buf + more;
      var cmdId, pduLength := From16(buf), From32(buf[4..]);
      if pduLength < HEADER {
        ConsumeSplit(handle, state, buf, rest);
        open := false;
      } else if |buf| < pduLength {
        required := pduLength;
      } else {
        WholePdu(handle, state, buf, rest);
        var r := handle(state, cmdId, buf[HEADER..]);
        state, open := r.state, r.ok;
        assert [] + rest == rest;
        required, buf := HEADER, [];
      }
    }

    /** One chunk. Every turn of the loop takes at least one byte, and the closing internal check never fails. */
    method Receive(chunk: seq<Byte>) returns (ok: bool)
      requires Valid() && open
      modifies this
      ensures Valid() && ok == open
      ensures Model() == Feed(handle, old(Model()), chunk)
    {
      var data := chunk;
      while |buf| + |data| >= required
        invariant Valid() && open
        invariant Consume(handle, state, buf + data) == Feed(handle, old(Model()), chunk)
        decreases |data|
      {
        data := Turn(data);
        if !open {
          return false;
        }
      }
      Unfinished(buf, data);
      buf := buf + data;
      assert |buf| < required;
      ok := true;
    }

    method ReceiveAll(chunks: seq<seq<Byte>>)
      requires Valid() && Model().rest == [] && open
      modifies this
      ensures Valid()
      ensures Model() == Consume(handle, old(state), Concat(chunks))
    {
      var i := 0;
      while i < |chunks| && open
        invariant 0 <= i <= |chunks| && Valid()
        invariant Model() == FeedAll(handle, old(Model()), chunks[..i])
      {
        var _ := Receive(chunks[i]);
        assert chunks[..i + 1][..i] == chunks[..i];
        i := i + 1;
      }
      assert chunks[..|chunks|] == chunks;
      if !open {
        ClosedStays(handle, old(Model()), chunks, i);
      }
      ChunkingIsIrrelevant(handle, old(state), chunks);
    }
  }
}
