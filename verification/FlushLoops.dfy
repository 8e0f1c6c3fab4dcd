/**
  The loops that empty a transmit ring buffer: into the backend's pipe (drain_ringbuffer_to_pipe and
  backend_drain_output in rdp-server/backend.c), into a channel client's pipe, and into an internal
  channel's receive callback (vc_flush_xmit_buffer in rdp-server/channels.c).

  A pipe may take any part of what it is offered, nothing, or break, as its answers say.
*/
module FlushLoops {
  import opened Bytes
  import opened Common
  import DynamicChannel
  import GfxParser

  // ------------------------------------------------------ ring buffer and pipe

  lemma ConcatPair(a: seq<Byte>, b: seq<Byte>)
    ensures Concat([a]) == a && Concat([a, b]) == a + b
  {
    assert [a][..0] == [] && [] + a == a && [a, b][..1] == [a];
  }

  /** The ring buffer by its contract: its unread bytes in order. */
  class RingBuffer {
    var content: seq<Byte>

    constructor ()
      ensures content == []
    {
      content := [];
    }

    /** At most max bytes from the front, in one piece or, where the ring wraps, in two. */
    method Peek(max: nat) returns (chunks: seq<seq<Byte>>)
      requires max > 0
      ensures Concat(chunks) == content[..Min(max, |content|)]
      ensures forall i :: 0 <= i < |chunks| ==> 0 < |chunks[i]| <= max
      ensures chunks == [] <==> content == []
    {
      var n := Min(max, |content|);
      var wrap :| 0 <= wrap <= n;
      if n == 0 {
        chunks := [];
      } else if 0 < wrap < n {
        chunks := [content[..wrap], content[wrap..n]];
        ConcatPair(chunks[0], chunks[1]);
        assert content[..wrap] + content[wrap..n] == content[..n];
      } else {
        chunks := [content[..n]];
        ConcatPair(chunks[0], []);
      }
    }

    method Commit(n: nat)
      requires n <= |content|
      modifies this
      ensures content == old(content)[n..]
    {
      content := content[n..];
    }
  }

  datatype Answer = Broken | Takes(n: nat)

  class Pipe {
    const answers: nat -> Answer
    var calls: nat
    var sent: seq<Byte>

    constructor (answers: nat -> Answer)
      ensures sent == [] && this.answers == answers
    {
      this.answers, calls, sent := answers, 0, [];
    }

    /** A reader that always has room for n bytes. */
    ghost predicate Eager(n: nat) {
      forall i: nat :: answers(i).Takes? && answers(i).n >= n
    }

    method Write(data: seq<Byte>) returns (ok: bool, written: nat)
      modifies this
      ensures written <= |data| && sent == old(sent) + data[..written]
      ensures !ok ==> written == 0
      ensures Eager(|data|) ==> ok && written == |data|
    {
      var answer := answers(calls);
      ok, written := answer.Takes?, if answer.Takes? then Min(answer.n, |data|) else 0;
      sent, calls := sent + data[..written], calls + 1;
    }
  }

  // ------------------------------------------------------------ the backend's pipe

  /** The inner loop: one chunk, until it is sent or the pipe takes no more. */
  method DrainChunk(pipe: Pipe, chunk: seq<Byte>) returns (r: bool, written: nat)
    modifies pipe
    ensures written <= |chunk| && pipe.sent == old(pipe.sent) + chunk[..written]
    ensures !r ==> written < |chunk|
    ensures pipe.Eager(|chunk|) ==> r && written == |chunk|
  {
    written, r := 0, true;
    while written < |chunk|
      invariant r && written <= |chunk| && pipe.sent == old(pipe.sent) + chunk[..written]
      invariant pipe.Eager(|chunk|) ==> written == 0 || written == |chunk|
      decreases |chunk| - written
    {
      var n;
      r, n := pipe.Write(chunk[written..]);
      if !r || n == 0 {
        return;
      }
      assert chunk[..written] + chunk[written..][..n] == chunk[..written + n];
      written := written + n;
    }
  }

  /** The chunks of one peek, up to where the pipe takes no more. */
  method DrainChunks(pipe: Pipe, chunks: seq<seq<Byte>>) returns (r: bool, committed: nat, stopped: bool)
    requires forall i :: 0 <= i < |chunks| ==> |chunks[i]| <= 0xffff
    modifies pipe
    ensures committed <= |Concat(chunks)| && pipe.sent == old(pipe.sent) + Concat(chunks)[..committed]
    ensures stopped <==> committed < |Concat(chunks)|
    ensures !r ==> stopped
    ensures pipe.Eager(0xffff) ==> !stopped
  {
    ghost var peeked := Concat(chunks);
    r, committed, stopped := true, 0, false;
    var i := 0;
    while i < |chunks|
      invariant r && 0 <= i <= |chunks| && committed <= |peeked|
      invariant peeked[committed..] == Concat(chunks[i..])
      invariant pipe.sent == old(pipe.sent) + peeked[..committed]
    {
      var written;
      r, written := DrainChunk(pipe, chunks[i]);
      Advance(peeked, committed, chunks[i..], written);
      committed := committed + written;
      if written < |chunks[i]| {
        stopped := true;
        return;
      }
      assert chunks[i..][1..] == chunks[i + 1..];
      i := i + 1;
    }
  }

  /**
    No byte is lost, repeated or reordered, whatever the pipe does; a pipe still ready means an empty ring,
    and a reader that keeps reading gets everything.
  */
  method Drain(ring: RingBuffer, pipe: Pipe) returns (r: bool, writeReady: bool)
    modifies ring, pipe
    ensures pipe.sent + ring.content == old(pipe.sent) + old(ring.content)
    ensures |ring.content| <= |old(ring.content)|
    ensures writeReady <==> !r || ring.content == []
    ensures !r ==> ring.content != []
    ensures pipe.Eager(0xffff) ==> r && ring.content == []
  {
    var chunks := ring.Peek(0xffff);
    while chunks != []
      invariant pipe.sent + ring.content == old(pipe.sent) + old(ring.content)
      invariant |ring.content| <= |old(ring.content)|
      invariant Concat(chunks) == ring.content[..Min(0xffff, |ring.content|)]
      invariant forall i :: 0 <= i < |chunks| ==> |chunks[i]| <= 0xffff
      invariant chunks == [] <==> ring.content == []
      decreases |ring.content|
    {
      ghost var before, content := pipe.sent, ring.content;
      var committed, stopped;
      r, committed, stopped := DrainChunks(pipe, chunks);
      ring.Commit(committed);
      Moved(before, Concat(chunks), content, committed);
      if stopped {
        return r, !r;
      }
      chunks := ring.Peek(0xffff);
    }
    r, writeReady := true, true;
  }

  /** Writing a part of the next chunk moves the mark by that part. */
  lemma Advance(peeked: seq<Byte>, committed: nat, chunks: seq<seq<Byte>>, written: nat)
    requires committed <= |peeked| && chunks != [] && peeked[committed..] == Concat(chunks) && written <= |chunks[0]|
    ensures committed + written <= |peeked|
    ensures peeked[..committed] + chunks[0][..written] == peeked[..committed + written]
    ensures written == |chunks[0]| ==> peeked[committed + written..] == Concat(chunks[1..])
    ensures written < |chunks[0]| ==> committed + written < |peeked|
  {
    var rest := peeked[committed..];
    ConcatFirst(chunks);
    assert rest[..written] == chunks[0][..written];
    assert peeked[..committed] + rest[..written] == peeked[..committed + written];
    assert peeked[committed + written..] == rest[written..];
  }

  /** What was sent and committed has moved from the ring to the pipe. */
  lemma Moved(before: seq<Byte>, peeked: seq<Byte>, content: seq<Byte>, committed: nat)
    requires peeked <= content && committed <= |peeked|
    ensures (before + peeked[..committed]) + content[committed..] == before + content
  {
    assert content == content[..committed] + content[committed..] && content[..committed] == peeked[..committed];
  }

  /** A content provider's connection: its output side. */
  class Backend {
    const xmit: RingBuffer
    const pipe: Pipe
    var writeReady: bool
    /** OGON_EVENTLOOP_WRITE is in the pipe's event mask. */
    var watchWrite: bool
    ghost var written: seq<Byte>

    /** Nothing the server wrote is lost, and bytes still waiting have a write event coming. */
    ghost predicate Valid()
      reads this, xmit, pipe
    {
      && pipe.sent + xmit.content == written
      && (xmit.content != [] ==> !writeReady && watchWrite)
    }

    constructor (pipe: Pipe)
      requires pipe.sent == []
      ensures Valid() && this.pipe == pipe && fresh(xmit) && written == []
    {
      this.pipe := pipe;
      xmit := new RingBuffer();
      writeReady, watchWrite, written := true, false, [];
    }

    method DrainOutput() returns (ok: bool)
      requires pipe.sent + xmit.content == written
      modifies this`writeReady, this`watchWrite, xmit, pipe
      ensures pipe.sent + xmit.content == written
      ensures |xmit.content| <= |old(xmit.content)|
      ensures ok ==> Valid()
      ensures old(writeReady) && pipe.Eager(0xffff) ==> ok && xmit.content == [] && !watchWrite
    {
      ok := true;
      if writeReady && |xmit.content| > 0 {
        ok, writeReady := Drain(xmit, pipe);
        if !ok {
          return;
        }
      }
      watchWrite := !writeReady;
    }

    /** backend_write_rds_message after encoding. */
    method WriteMessage(message: seq<Byte>) returns (ok: bool)
      requires Valid()
      modifies this, xmit, pipe
      ensures written == old(written) + message
      ensures pipe.sent + xmit.content == written
      ensures ok ==> Valid()
    {
      assert pipe.sent + (xmit.content + message) == written + message;
      xmit.content, written := xmit.content + message, written + message;
      ok := DrainOutput();
    }

    /** The write event of handle_pipe_bytes. */
    method Writable() returns (ok: bool)
      requires Valid()
      modifies this`writeReady, this`watchWrite, xmit, pipe
      ensures pipe.sent + xmit.content == written
      ensures ok ==> Valid()
      ensures pipe.Eager(0xffff) ==> ok && pipe.sent == written && !watchWrite
    {
      writeReady := true;
      ok := DrainOutput();
      assert pipe.sent + [] == pipe.sent;
    }
  }

  // ------------------------------------------------------- a channel client's pipe

  const PEEK := 16384
  const VC_BYTES_LIMIT_PER_LOOP_TURN := 0x10000

  datatype Outcome = Sent | Blocked | Failed | Limited

  /** One chunk; committed bytes were sent before it in this peek. */
  method FlushChunk(pipe: Pipe, chunk: seq<Byte>, committed: nat, sendLimit: int) returns (o: Outcome, written: nat)
    requires chunk != []
    modifies pipe
    ensures written <= |chunk| && pipe.sent == old(pipe.sent) + chunk[..written]
    ensures o == Sent ==> written == |chunk| && committed + written <= sendLimit
    ensures o == Limited ==> written > 0 && committed + written > sendLimit
    ensures o == Blocked ==> written < |chunk|
    ensures pipe.Eager(|chunk|) ==> (o == Sent || o == Limited) && written == |chunk|
  {
    written := 0;
    while written < |chunk|
      invariant written <= |chunk| && pipe.sent == old(pipe.sent) + chunk[..written]
      invariant written > 0 ==> committed + written <= sendLimit
      invariant pipe.Eager(|chunk|) ==> written == 0 || written == |chunk|
      decreases |chunk| - written
    {
      var ok, n := pipe.Write(chunk[written..]);
      if !ok {
        return Failed, written;
      }
      if n == 0 {
        return Blocked, written;
      }
      assert chunk[..written] + chunk[written..][..n] == chunk[..written + n];
      written := written + n;
      if committed + written > sendLimit {
        return Limited, written;
      }
    }
    o := Sent;
  }

  /** The chunks of one peek. */
  method FlushChunks(pipe: Pipe, chunks: seq<seq<Byte>>, sendLimit: int) returns (o: Outcome, committed: nat)
    requires chunks != [] && forall i :: 0 <= i < |chunks| ==> 0 < |chunks[i]| <= PEEK
    modifies pipe
    ensures committed <= |Concat(chunks)| && pipe.sent == old(pipe.sent) + Concat(chunks)[..committed]
    ensures o == Sent ==> committed == |Concat(chunks)| <= sendLimit
    ensures o == Limited ==> committed > sendLimit && committed > 0
    ensures o == Blocked ==> committed < |Concat(chunks)|
    ensures pipe.Eager(PEEK) ==> o == Sent || o == Limited
  {
    ghost var peeked := Concat(chunks);
    o, committed := Sent, 0;
    var i := 0;
    while i < |chunks|
      invariant 0 <= i <= |chunks| && committed <= |peeked| && o == Sent
      invariant peeked[committed..] == Concat(chunks[i..])
      invariant pipe.sent == old(pipe.sent) + peeked[..committed]
      invariant i > 0 ==> committed <= sendLimit
    {
      var written;
      o, written := FlushChunk(pipe, chunks[i], committed, sendLimit);
      Advance(peeked, committed, chunks[i..], written);
      committed := committed + written;
      if o != Sent {
        return;
      }
      assert chunks[i..][1..] == chunks[i + 1..];
      i := i + 1;
    }
  }

  /** A registered virtual channel with a client pipe. */
  class Channel {
    const ring: RingBuffer
    const pipe: Pipe
    var writeBlocked: bool
    /** A write event will come: the mask scans for it, or the source was rescheduled. */
    var watchWrite: bool
    ghost var received: seq<Byte>

    /** The client has been handed exactly a prefix of what was received, and bytes left over will be flushed. */
    ghost predicate Valid()
      reads this, ring, pipe
    {
      && pipe.sent + ring.content == received
      && (ring.content != [] ==> writeBlocked) && (writeBlocked ==> watchWrite)
    }

    constructor (pipe: Pipe)
      requires pipe.sent == []
      ensures Valid() && this.pipe == pipe && fresh(ring) && received == [] && !writeBlocked
    {
      this.pipe := pipe;
      ring := new RingBuffer();
      writeBlocked, watchWrite, received := false, false, [];
    }

    /**
      Success leaves an empty ring or a blocked channel waiting for a write event.
      Bytes sent but still in the ring, which the next flush sends again, are counted by repeated:
      the branch that stops at the limit does not commit. A limit of at least one peek rules that out,
      and no smaller limit does: it goes wrong with every client that keeps reading.
    */
    method Flush(sendLimit: int) returns (ok: bool, ghost repeated: nat)
      modifies this`writeBlocked, this`watchWrite, ring, pipe
      ensures ok ==> repeated <= |ring.content|
                     && pipe.sent + ring.content[repeated..] == old(pipe.sent) + old(ring.content)
      ensures ok && ring.content != [] ==> writeBlocked
      ensures ok && writeBlocked ==> old(writeBlocked) || watchWrite
      ensures old(writeBlocked) ==> ok && writeBlocked && unchanged(ring, pipe, this`watchWrite)
      ensures sendLimit >= Min(PEEK, |old(ring.content)|) ==> repeated == 0
      ensures repeated > 0 ==> repeated > sendLimit && ring.content == old(ring.content)
      ensures !old(writeBlocked) && pipe.Eager(PEEK)
              ==> ok && if old(ring.content) != [] && sendLimit < Min(PEEK, |old(ring.content)|) then repeated > 0
                        else repeated == 0 && ring.content == [] && !writeBlocked
    {
      repeated := 0;
      if writeBlocked {
        return true, 0;
      }
      var chunks := ring.Peek(PEEK);
      while chunks != []
        invariant !writeBlocked
        invariant pipe.sent + ring.content == old(pipe.sent) + old(ring.content)
        invariant ring.content == old(ring.content)
                  || (sendLimit >= Min(PEEK, |old(ring.content)|) && |ring.content| <= |old(ring.content)|)
        invariant Concat(chunks) == ring.content[..Min(PEEK, |ring.content|)]
        invariant forall i :: 0 <= i < |chunks| ==> 0 < |chunks[i]| <= PEEK
        invariant chunks == [] <==> ring.content == []
        decreases |ring.content|
      {
        ghost var before := pipe.sent;
        var o, committed := FlushChunks(pipe, chunks, sendLimit);
        Moved(before, Concat(chunks), ring.content, committed);
        match o {
          case Failed =>
            return false, 0;
          case Blocked =>
            writeBlocked, watchWrite := true, true;
            ring.Commit(committed);
            return true, 0;
          case Limited =>
            writeBlocked, watchWrite := true, true;
            return true, committed;
          case Sent =>
            ring.Commit(committed);
            chunks := ring.Peek(PEEK);
        }
      }
      ok := true;
    }

    /** Payload of a channel PDU: written to the ring and flushed. */
    method Receive(data: seq<Byte>) returns (ok: bool)
      requires Valid()
      modifies this, ring, pipe
      ensures received == old(received) + data
      ensures ok ==> Valid()
    {
      assert pipe.sent + (ring.content + data) == received + data;
      ring.content, received := ring.content + data, received + data;
      ghost var repeated;
      ok, repeated := Flush(VC_BYTES_LIMIT_PER_LOOP_TURN);
    }

    /** The write event of handle_vc_named_pipe_event. */
    method Writable() returns (ok: bool)
      requires Valid()
      modifies this`writeBlocked, this`watchWrite, ring, pipe
      ensures ok ==> Valid()
      ensures pipe.Eager(PEEK) ==> ok && ring.content == [] && !watchWrite
    {
      writeBlocked := false;
      ghost var repeated;
      ok, repeated := Flush(VC_BYTES_LIMIT_PER_LOOP_TURN);
      if ok && !writeBlocked {
        watchWrite := false;
      }
    }
  }

  /** Two flushes with a limit of one byte: a client that reads everything is sent both bytes twice. */
  method RepeatingFlush() returns (sent: seq<Byte>)
    ensures sent == [7, 8, 7, 8]
  {
    var pipe := new Pipe(_ => Takes(PEEK));
    var channel := new Channel(pipe);
    channel.ring.content := [7, 8];
    assert pipe.Eager(PEEK);
    var ok, repeated := channel.Flush(1);
    assert repeated == 2 && channel.ring.content[2..] == [];
    assert pipe.sent == pipe.sent + [] == [7, 8];
    channel.writeBlocked := false;
    ok, repeated := channel.Flush(1);
    assert repeated == 2 && channel.ring.content[2..] == [];
    assert pipe.sent == pipe.sent + [] == [7, 8] + [7, 8];
    sent := pipe.sent;
  }

  // ---------------------------------------------------------- an internal channel

  /** Two chunks one after the other are one chunk. */
  lemma FeedTwice<S>(handle: GfxParser.Handler<S>, r: GfxParser.Run<S>, a: seq<Byte>, b: seq<Byte>)
    ensures GfxParser.Feed(handle, GfxParser.Feed(handle, r, a), b) == GfxParser.Feed(handle, r, a + b)
  {
    if r.open {
      GfxParser.ConsumeSplit(handle, r.state, r.rest + a, b);
      assert (r.rest + a) + b == r.rest + (a + b);
    }
  }

  /** The chunks of one peek, up to where the callback fails. */
  method DeliverChunks<S>(chunks: seq<seq<Byte>>, parser: GfxParser.Parser<S>) returns (ok: bool)
    requires parser.Valid() && parser.open
    modifies parser
    ensures parser.Valid() && ok == parser.open
    ensures parser.Model() == GfxParser.Feed(parser.handle, old(parser.Model()), Concat(chunks))
  {
    ok := true;
    var i := 0;
    ghost var rest := Concat(chunks);
    assert chunks[0..] == chunks;
    while i < |chunks|
      invariant 0 <= i <= |chunks| && parser.Valid() && ok == parser.open
      invariant rest == Concat(chunks[i..])
      invariant GfxParser.Feed(parser.handle, parser.Model(), rest)
                == GfxParser.Feed(parser.handle, old(parser.Model()), Concat(chunks))
    {
      ghost var r := parser.Model();
      ok := parser.Receive(chunks[i]);
      rest := Concat(chunks[i + 1..]);
      assert chunks[i..][1..] == chunks[i + 1..];
      ConcatFirst(chunks[i..]);
      FeedTwice(parser.handle, r, chunks[i], rest);
      if !ok {
        return;
      }
      i := i + 1;
    }
    assert parser.buf + [] == parser.buf;
  }

  /**
    A channel whose client is the server itself. Whatever the peeks are, the parser goes through
    the waiting bytes as through one chunk; it closes exactly when that would close it.
  */
  method FlushInternal<S>(ring: RingBuffer, parser: GfxParser.Parser<S>) returns (ok: bool)
    requires parser.Valid() && parser.open
    modifies ring, parser
    ensures parser.Valid() && ok == parser.open
    ensures parser.Model() == GfxParser.Feed(parser.handle, old(parser.Model()), old(ring.content))
    ensures ok ==> ring.content == []
  {
    var chunks := ring.Peek(PEEK);
    while chunks != []
      invariant parser.Valid() && parser.open
      invariant Concat(chunks) == ring.content[..Min(PEEK, |ring.content|)]
      invariant chunks == [] <==> ring.content == []
      invariant GfxParser.Feed(parser.handle, parser.Model(), ring.content)
                == GfxParser.Feed(parser.handle, old(parser.Model()), old(ring.content))
      decreases |ring.content|
    {
      ghost var r := parser.Model();
      var n := Min(PEEK, |ring.content|);
      assert ring.content == ring.content[..n] + ring.content[n..];
      FeedTwice(parser.handle, r, ring.content[..n], ring.content[n..]);
      ok := DeliverChunks(chunks, parser);
      if !ok {
        return;
      }
      ring.Commit(n);
      chunks := ring.Peek(PEEK);
    }
    assert parser.buf + [] == parser.buf;
    ok := true;
  }

  /**
    Client to handler: graphics PDUs cut into messages anywhere, sent over a dynamic channel in PDUs of any
    chunk size, put into the ring as the channel's bytes and flushed reach their handlers one by one.
  */
  lemma GraphicsPdusReachHandlers<S>(handle: GfxParser.Handler<S>, s: S, pdus: seq<GfxParser.Pdu>,
                                     id: nat, messages: seq<seq<Byte>>, chunk: nat)
    requires forall i :: 0 <= i < |pdus| ==> GfxParser.Sendable(pdus[i])
    requires chunk >= 10 && id < 0x1_0000_0000 && forall i :: 0 <= i < |messages| ==> |messages[i]| < 0x1_0000_0000
    requires Concat(messages) == GfxParser.EncodeAll(pdus)
    ensures var c := DynamicChannel.ReadChannel(DynamicChannel.Channel(0, []), id, DynamicChannel.ChannelPdus(id, messages, chunk));
            var d := GfxParser.Dispatch(handle, s, pdus);
            c.Some? && GfxParser.Feed(handle, GfxParser.Run(s, [], true), c.value.received) == GfxParser.Run(d.state, [], d.ok)
  {
    DynamicChannel.ReadMessages(id, messages, chunk);
    GfxParser.PdusRoundTrip(handle, s, pdus);
    assert [] + Concat(messages) == Concat(messages);
  }
}
