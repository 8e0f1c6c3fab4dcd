/**
  Dynamic virtual channel framing (rdp-server/channels.c; sections 2.2.3.1 and 2.2.3.2 of
  MS-RDPEDYC).

  A message that does not fit one chunk goes out as a DATA_FIRST PDU, which announces the total
  length, and DATA PDUs. All channels share one transport; a PDU carries its channel's id.
*/
module DynamicChannel {
  import opened Bytes
  import opened Common

  const DATA_FIRST_PDU := 2
  const DATA_PDU := 3

  // ------------------------------------------------ variable-length integers

  /** The size code wts_write_variable_uint chooses. */
  function SizeCode(v: nat): nat {
    if v <= 0xFF then 0 else if v <= 0xFFFF then 1 else 2
  }

  /** wts_write_variable_uint */
  function WriteVar(v: nat): (b: seq<Byte>)
    ensures 1 <= |b| <= 4
  {
    if v <= 0xFF then [v] else if v <= 0xFFFF then Le16(v) else Le32(v)
  }

  /** wts_read_variable_uint: the value and the number of bytes read. */
  function ReadVar(code: nat, b: seq<Byte>): (r: Option<(nat, nat)>)
    ensures r.Some? ==> 1 <= r.value.1 <= |b|
  {
    if code > 3 then None
    else if code == 0 then if |b| < 1 then None else Some((b[0], 1))
    else if code == 1 then if |b| < 2 then None else Some((From16(b), 2))
    else if |b| < 4 then None else Some((From32(b), 4))
  }

  lemma VarRoundTrip(v: nat, rest: seq<Byte>)
    requires v < 0x1_0000_0000
    ensures ReadVar(SizeCode(v), WriteVar(v) + rest) == Some((v, |WriteVar(v)|))
  {
    if 0xFF < v <= 0xFFFF {
      Le16RoundTrip(v, rest);
    } else if v > 0xFFFF {
      Le32RoundTrip(v, rest);
    }
  }

  // ------------------------------------------------------------- the writer

  function HeaderByte(cmd: nat, sp: nat, id: nat): Byte
    requires cmd < 16 && sp < 4
  {
    cmd * 16 + sp * 4 + SizeCode(id)
  }

  /** A DATA PDU. */
  function DataPdu(id: nat, payload: seq<Byte>): seq<Byte> {
    [HeaderByte(DATA_PDU, 0, id)] + WriteVar(id) + payload
  }

  /** A DATA_FIRST PDU, announcing the whole message's length. */
  function FirstPdu(id: nat, total: nat, payload: seq<Byte>): seq<Byte> {
    [HeaderByte(DATA_FIRST_PDU, SizeCode(total), id)] + WriteVar(id) + WriteVar(total) + payload
  }

  /** The room for payload in a DATA PDU. */
  function Room(id: nat, chunk: nat): nat
    requires chunk >= 10
  {
    chunk - 1 - |WriteVar(id)|
  }

  function FirstRoom(id: nat, total: nat, chunk: nat): nat
    requires chunk >= 10
  {
    Room(id, chunk) - |WriteVar(total)|
  }

  function Take(data: seq<Byte>, n: nat): seq<Byte> { if n <= |data| then data[..n] else data }

  function Drop(data: seq<Byte>, n: nat): seq<Byte> { if n <= |data| then data[n..] else [] }

  lemma TakeDrop(data: seq<Byte>, n: nat)
    ensures Take(data, n) + Drop(data, n) == data
    ensures |Take(data, n)| + |Drop(data, n)| == |data|
  {}

  /** The PDUs of data that is sent without an announcement. */
  function DataPdus(id: nat, data: seq<Byte>, chunk: nat): seq<seq<Byte>>
    requires chunk >= 10
    decreases |data|
  {
    if data == [] then []
    else [DataPdu(id, Take(data, Room(id, chunk)))] + DataPdus(id, Drop(data, Room(id, chunk)), chunk)
  }

  /** The PDUs of one message. */
  function MessagePdus(id: nat, data: seq<Byte>, chunk: nat): seq<seq<Byte>>
    requires chunk >= 10
  {
    if |data| <= Room(id, chunk) then DataPdus(id, data, chunk)
    else
      var n := FirstRoom(id, |data|, chunk);
      [FirstPdu(id, |data|, data[..n])] + DataPdus(id, data[n..], chunk)
  }

  /** The fragment loop of virtual_manager_write_internal_virtual_channel and of vc_handle_read. */
  method WriteMessage(id: nat, message: seq<Byte>, chunk: nat) returns (pdus: seq<seq<Byte>>)
    requires chunk >= 10
    ensures pdus == MessagePdus(id, message, chunk)
  {
    pdus := [];
    var data, first := message, true;
    while |data| > 0
      invariant first ==> data == message && pdus == []
      invariant !first ==> pdus + DataPdus(id, data, chunk) == MessagePdus(id, message, chunk)
      decreases |data|
    {
      var room := Room(id, chunk);
      var pdu;
      if first && |data| > room {
        room := room - |WriteVar(|data|)|;
        pdu := FirstPdu(id, |data|, Take(data, room));
      } else {
        pdu := DataPdu(id, Take(data, room));
      }
      ghost var rest := DataPdus(id, Drop(data, room), chunk);
      assert pdus + ([pdu] + rest) == pdus + [pdu] + rest;
      first, pdus, data := false, pdus + [pdu], Drop(data, room);
    }
    assert pdus + [] == pdus;
  }

  /** The layout of MS-RDPEDYC: command, length code and id code in one byte, then the id, then a length. */
  lemma WireLayout(payload: seq<Byte>)
    ensures DataPdu(0xFF, payload) == [0x30, 0xFF] + payload && DataPdu(0x100, payload) == [0x31, 0x00, 0x01] + payload
    ensures DataPdu(0xFFFF, payload) == [0x31, 0xFF, 0xFF] + payload
    ensures DataPdu(0x1_0000, payload) == [0x32, 0x00, 0x00, 0x01, 0x00] + payload
    ensures FirstPdu(0x07, 0x012C, payload) == [0x24, 0x07, 0x2C, 0x01] + payload
  {}

  lemma {:induction false} DataPdusFill(id: nat, data: seq<Byte>, chunk: nat, i: nat)
    requires chunk >= 10 && i < |DataPdus(id, data, chunk)|
    ensures |DataPdus(id, data, chunk)[i]| <= chunk
    ensures i < |DataPdus(id, data, chunk)| - 1 ==> |DataPdus(id, data, chunk)[i]| == chunk
    decreases |data|
  {
    var rest := Drop(data, Room(id, chunk));
    if i > 0 {
      DataPdusFill(id, rest, chunk, i - 1);
    } else if |data| <= Room(id, chunk) {
      assert rest == [] && DataPdus(id, rest, chunk) == [];
    }
  }

  /** No PDU of a message exceeds the chunk size, and all but the last use it up. */
  lemma PdusFillChunks(id: nat, message: seq<Byte>, chunk: nat, i: nat)
    requires chunk >= 10 && i < |MessagePdus(id, message, chunk)|
    ensures |MessagePdus(id, message, chunk)[i]| <= chunk
    ensures i < |MessagePdus(id, message, chunk)| - 1 ==> |MessagePdus(id, message, chunk)[i]| == chunk
  {
    if |message| <= Room(id, chunk) {
      DataPdusFill(id, message, chunk, i);
    } else if i > 0 {
      DataPdusFill(id, message[FirstRoom(id, |message|, chunk)..], chunk, i - 1);
    }
  }

  // ------------------------------------------------------------- the reader

  /** dvc_total_length, the bytes missing from an announced message, and what went to the receive buffer. */
  datatype Channel = Channel(remaining: nat, received: seq<Byte>)

  /** A parsed PDU: command, length code, channel id and the bytes behind the id. */
  datatype Pdu = Pdu(cmd: nat, sp: nat, id: nat, body: seq<Byte>)

  /** The header part of wts_read_drdynvc_pdu. */
  function Parse(b: seq<Byte>): Option<Pdu> {
    if |b| < 2 then None
    else match ReadVar(b[0] % 4, b[1..])
      case None => None
      case Some((id, n)) => Some(Pdu(b[0] / 16, b[0] / 4 % 4, id, b[1 + n..]))
  }

  /** Whether a PDU was accepted, and the channel afterwards. */
  datatype Verdict = Verdict(ok: bool, channel: Channel)

  /** wts_read_drdynvc_data_first: a message that fits one PDU must not be announced. */
  function ReceiveFirst(ch: Channel, p: Pdu): Verdict {
    if ch.remaining != 0 then Verdict(false, ch)
    else match ReadVar(p.sp, p.body)
      case None => Verdict(false, ch)
      case Some((total, n)) =>
        if |p.body| - n >= total then Verdict(false, ch.(remaining := total))
        else Verdict(true, Channel(total - (|p.body| - n), ch.received + p.body[n..]))
  }

  /** wts_read_drdynvc_data */
  function ReceiveData(ch: Channel, p: Pdu): Verdict {
    if ch.remaining > 0 && |p.body| > ch.remaining then Verdict(false, ch.(remaining := 0))
    else Verdict(true, Channel(if ch.remaining > 0 then ch.remaining - |p.body| else 0, ch.received + p.body))
  }

  function Receive(ch: Channel, p: Pdu): Verdict {
    if p.cmd == DATA_FIRST_PDU then ReceiveFirst(ch, p)
    else if p.cmd == DATA_PDU then ReceiveData(ch, p)
    else Verdict(false, ch)
  }

  /** wts_read_drdynvc_pdu for data: look the channel up by id. */
  function ReadPdu(table: map<nat, Channel>, b: seq<Byte>): (bool, map<nat, Channel>) {
    match Parse(b)
    case None => (false, table)
    case Some(p) =>
      if p.id !in table then (false, table)
      else
        var v := Receive(table[p.id], p);
        (v.ok, table[p.id := v.channel])
  }

  lemma ParsePdu(cmd: nat, sp: nat, id: nat, body: seq<Byte>)
    requires cmd < 16 && sp < 4 && id < 0x1_0000_0000
    ensures Parse([HeaderByte(cmd, sp, id)] + WriteVar(id) + body) == Some(Pdu(cmd, sp, id, body))
  {
    var b := [HeaderByte(cmd, sp, id)] + WriteVar(id) + body;
    assert b[1..] == WriteVar(id) + body;
    VarRoundTrip(id, body);
    assert b[1 + |WriteVar(id)|..] == body;
    assert b[0] % 4 == SizeCode(id) && b[0] / 16 == cmd && b[0] / 4 % 4 == sp;
  }

  // ---------------------------------------------------------- one channel

  /** Reading one PDU of a channel. */
  function ReadOn(ch: Channel, id: nat, pdu: seq<Byte>): Option<Channel> {
    match Parse(pdu)
    case None => None
    case Some(p) => if p.id == id && Receive(ch, p).ok then Some(Receive(ch, p).channel) else None
  }

  /** The counter accounts for every byte: what is received and what is missing add up to what was announced. */
  lemma CounterAccounts(ch: Channel, id: nat, pdu: seq<Byte>)
    requires ReadOn(ch, id, pdu).Some?
    ensures var c := ReadOn(ch, id, pdu).value;
            var news := |c.received| - |ch.received|;
            && ch.received <= c.received
            && (ch.remaining > 0 ==> pdu[0] / 16 == 3 && news + c.remaining == ch.remaining)
            && (ch.remaining == 0 && pdu[0] / 16 == 3 ==> c.remaining == 0)
            && (pdu[0] / 16 != 3 ==> pdu[0] / 16 == 2 && c.remaining > 0 && ch.remaining == 0)
            && (pdu[0] / 16 == 2 ==> var announced := ReadVar(Parse(pdu).value.sp, Parse(pdu).value.body);
                                     announced.Some? && news + c.remaining == announced.value.0)
  {}

  /** Reading a channel's PDUs in order. */
  function ReadChannel(ch: Channel, id: nat, pdus: seq<seq<Byte>>): Option<Channel> {
    if pdus == [] then Some(ch)
    else match ReadChannel(ch, id, pdus[..|pdus| - 1])
      case None => None
      case Some(c) => ReadOn(c, id, pdus[|pdus| - 1])
  }

  lemma {:induction false} ReadChannelConcat(ch: Channel, id: nat, a: seq<seq<Byte>>, b: seq<seq<Byte>>)
    requires ReadChannel(ch, id, a).Some?
    ensures ReadChannel(ch, id, a + b) == ReadChannel(ReadChannel(ch, id, a).value, id, b)
  {
    if b == [] {
      assert a + b == a;
    } else {
      ReadChannelConcat(ch, id, a, b[..|b| - 1]);
      assert (a + b)[..|a + b| - 1] == a + b[..|b| - 1];
    }
  }

  lemma ReadOne(ch: Channel, id: nat, pdu: seq<Byte>)
    ensures ReadChannel(ch, id, [pdu]) == ReadOn(ch, id, pdu)
  {
    assert [pdu][..0] == [];
  }

  lemma ReadData(ch: Channel, id: nat, payload: seq<Byte>)
    requires id < 0x1_0000_0000 && (ch.remaining == 0 || |payload| <= ch.remaining)
    ensures ReadChannel(ch, id, [DataPdu(id, payload)]) ==
            Some(Channel(if ch.remaining == 0 then 0 else ch.remaining - |payload|, ch.received + payload))
  {
    ReadOne(ch, id, DataPdu(id, payload));
    ParsePdu(DATA_PDU, 0, id, payload);
  }

  lemma ReceiveAnnounced(ch: Channel, id: nat, total: nat, payload: seq<Byte>)
    requires ch.remaining == 0 && |payload| < total < 0x1_0000_0000
    ensures ReceiveFirst(ch, Pdu(DATA_FIRST_PDU, SizeCode(total), id, WriteVar(total) + payload))
         == Verdict(true, Channel(total - |payload|, ch.received + payload))
  {
    VarRoundTrip(total, payload);
    assert (WriteVar(total) + payload)[|WriteVar(total)|..] == payload;
  }

  lemma ReadParsed(ch: Channel, id: nat, pdu: seq<Byte>, p: Pdu)
    requires Parse(pdu) == Some(p) && p.id == id && Receive(ch, p).ok
    ensures ReadChannel(ch, id, [pdu]) == Some(Receive(ch, p).channel)
  {
    ReadOne(ch, id, pdu);
  }

  lemma ParseFirst(id: nat, total: nat, payload: seq<Byte>)
    requires id < 0x1_0000_0000
    ensures Parse(FirstPdu(id, total, payload)) == Some(Pdu(DATA_FIRST_PDU, SizeCode(total), id, WriteVar(total) + payload))
  {
    var h, v := [HeaderByte(DATA_FIRST_PDU, SizeCode(total), id)], WriteVar(id);
    assert h + v + WriteVar(total) + payload == h + v + (WriteVar(total) + payload);
    ParsePdu(DATA_FIRST_PDU, SizeCode(total), id, WriteVar(total) + payload);
  }

  lemma ReadFirst(ch: Channel, id: nat, total: nat, payload: seq<Byte>)
    requires id < 0x1_0000_0000 && ch.remaining == 0 && |payload| < total < 0x1_0000_0000
    ensures ReadChannel(ch, id, [FirstPdu(id, total, payload)]) == Some(Channel(total - |payload|, ch.received + payload))
  {
    ParseFirst(id, total, payload);
    ReceiveAnnounced(ch, id, total, payload);
    ReadParsed(ch, id, FirstPdu(id, total, payload), Pdu(DATA_FIRST_PDU, SizeCode(total), id, WriteVar(total) + payload));
  }

  /** The rest of an announced message is read to its end. */
  lemma {:induction false} ReadRest(ch: Channel, id: nat, data: seq<Byte>, chunk: nat)
    requires chunk >= 10 && id < 0x1_0000_0000 && ch.remaining == |data|
    ensures ReadChannel(ch, id, DataPdus(id, data, chunk)) == Some(Channel(0, ch.received + data))
    decreases |data|, 0
  {
    if data == [] {
      assert ch.received + [] == ch.received;
    } else {
      var n := Room(id, chunk);
      TakeDrop(data, n);
      ReadRestFrom(ch, id, Take(data, n), Drop(data, n), chunk);
      assert ch.received + Take(data, n) + Drop(data, n) == ch.received + (Take(data, n) + Drop(data, n));
    }
  }

  lemma {:induction false} ReadRestFrom(ch: Channel, id: nat, head: seq<Byte>, rest: seq<Byte>, chunk: nat)
    requires chunk >= 10 && id < 0x1_0000_0000 && ch.remaining == |head| + |rest| && head != []
    ensures ReadChannel(ch, id, [DataPdu(id, head)] + DataPdus(id, rest, chunk)) == Some(Channel(0, ch.received + head + rest))
    decreases |rest|, 1
  {
    ReadData(ch, id, head);
    var c := Channel(|rest|, ch.received + head);
    ReadRest(c, id, rest, chunk);
    ReadChannelConcat(ch, id, [DataPdu(id, head)], DataPdus(id, rest, chunk));
  }

  /** One message arrives whole and leaves the counter at zero. */
  lemma ReadMessage(ch: Channel, id: nat, data: seq<Byte>, chunk: nat)
    requires chunk >= 10 && id < 0x1_0000_0000 && |data| < 0x1_0000_0000 && ch.remaining == 0
    ensures ReadChannel(ch, id, MessagePdus(id, data, chunk)) == Some(Channel(0, ch.received + data))
  {
    if data == [] {
      assert ch.received + [] == ch.received;
    } else if |data| <= Room(id, chunk) {
      assert Take(data, Room(id, chunk)) == data;
      assert DataPdus(id, data, chunk) == [DataPdu(id, data)];
      ReadData(ch, id, data);
    } else {
      var n := FirstRoom(id, |data|, chunk);
      ReadFirst(ch, id, |data|, data[..n]);
      var c := Channel(|data| - n, ch.received + data[..n]);
      ReadRest(c, id, data[n..], chunk);
      ReadChannelConcat(ch, id, [FirstPdu(id, |data|, data[..n])], DataPdus(id, data[n..], chunk));
      assert ch.received + data[..n] + data[n..] == ch.received + data;
    }
  }

  /** The PDUs of a channel's messages, in order. */
  function ChannelPdus(id: nat, messages: seq<seq<Byte>>, chunk: nat): seq<seq<Byte>>
    requires chunk >= 10
  {
    if messages == [] then []
    else ChannelPdus(id, messages[..|messages| - 1], chunk) + MessagePdus(id, messages[|messages| - 1], chunk)
  }

  lemma {:induction false} ReadMessages(id: nat, messages: seq<seq<Byte>>, chunk: nat)
    requires chunk >= 10 && id < 0x1_0000_0000
    requires forall i :: 0 <= i < |messages| ==> |messages[i]| < 0x1_0000_0000
    ensures ReadChannel(Channel(0, []), id, ChannelPdus(id, messages, chunk)) == Some(Channel(0, Concat(messages)))
  {
    if messages != [] {
      var n := |messages| - 1;
      ReadMessages(id, messages[..n], chunk);
      var c := Channel(0, Concat(messages[..n]));
      ReadMessage(c, id, messages[n], chunk);
      ReadChannelConcat(Channel(0, []), id, ChannelPdus(id, messages[..n], chunk), MessagePdus(id, messages[n], chunk));
    }
  }

  // --------------------------------------------------------- multiplexing

  /** Reading the wire; None once a PDU is refused. */
  function ReadAll(table: map<nat, Channel>, wire: seq<seq<Byte>>): Option<map<nat, Channel>> {
    if wire == [] then Some(table)
    else match ReadAll(table, wire[..|wire| - 1])
      case None => None
      case Some(t) =>
        var (ok, t') := ReadPdu(t, wire[|wire| - 1]);
        if ok then Some(t') else None
  }

  /** The PDUs of the wire that carry a channel's id. */
  function PdusOf(wire: seq<seq<Byte>>, id: nat): seq<seq<Byte>> {
    if wire == [] then []
    else
      var before, last := PdusOf(wire[..|wire| - 1], id), wire[|wire| - 1];
      if Parse(last).Some? && Parse(last).value.id == id then before + [last] else before
  }

  /** Every PDU of the wire belongs to a known channel. */
  predicate Addressed(wire: seq<seq<Byte>>, ids: set<nat>) {
    forall i :: 0 <= i < |wire| ==> Parse(wire[i]).Some? && Parse(wire[i]).value.id in ids
  }

  /** Channels do not disturb each other: the table holds what each would read alone. */
  lemma {:induction false} ChannelsAreIndependent(table: map<nat, Channel>, wire: seq<seq<Byte>>)
    requires Addressed(wire, table.Keys)
    requires forall id :: id in table ==> ReadChannel(table[id], id, PdusOf(wire, id)).Some?
    ensures ReadAll(table, wire).Some?
    ensures var t := ReadAll(table, wire).value;
            t.Keys == table.Keys && forall id :: id in table ==> ReadChannel(table[id], id, PdusOf(wire, id)) == Some(t[id])
  {
    if wire != [] {
      var n := |wire| - 1;
      var p := Parse(wire[n]).value;
      forall id | id in table
        ensures ReadChannel(table[id], id, PdusOf(wire[..n], id)).Some?
        ensures id == p.id ==> PdusOf(wire, id) == PdusOf(wire[..n], id) + [wire[n]]
        ensures id != p.id ==> PdusOf(wire, id) == PdusOf(wire[..n], id)
      {
        if id == p.id {
          assert PdusOf(wire, id)[..|PdusOf(wire, id)| - 1] == PdusOf(wire[..n], id);
        }
      }
      ChannelsAreIndependent(table, wire[..n]);
      ReadChannelConcat(table[p.id], p.id, PdusOf(wire[..n], p.id), [wire[n]]);
      ReadOne(ReadAll(table, wire[..n]).value[p.id], p.id, wire[n]);
    }
  }

  function Opened(ids: set<nat>): (t: map<nat, Channel>)
    ensures t.Keys == ids
  {
    map id | id in ids :: Channel(0, [])
  }

  /**
    For any interleaving of the PDUs the writer produces for any messages on any channels, the reader
    accepts every PDU and each channel ends up with its own messages, in order and complete.
  */
  lemma MultiplexedRoundTrip(messages: map<nat, seq<seq<Byte>>>, wire: seq<seq<Byte>>, chunk: nat)
    requires chunk >= 10 && Addressed(wire, messages.Keys)
    requires forall id :: id in messages ==> id < 0x1_0000_0000
    requires forall id, i :: id in messages && 0 <= i < |messages[id]| ==> |messages[id][i]| < 0x1_0000_0000
    requires forall id :: id in messages ==> PdusOf(wire, id) == ChannelPdus(id, messages[id], chunk)
    ensures var t := ReadAll(Opened(messages.Keys), wire);
            && t.Some? && t.value.Keys == messages.Keys
            && forall id :: id in messages ==> t.value[id] == Channel(0, Concat(messages[id]))
  {
    var table := Opened(messages.Keys);
    forall id | id in messages
      ensures ReadChannel(table[id], id, PdusOf(wire, id)) == Some(Channel(0, Concat(messages[id])))
    {
      ReadMessages(id, messages[id], chunk);
    }
    ChannelsAreIndependent(table, wire);
  }

  lemma {:induction false} PdusOfPrefix(wire: seq<seq<Byte>>, n: nat, id: nat)
    requires n <= |wire|
    ensures PdusOf(wire[..n], id) <= PdusOf(wire, id)
    decreases |wire|
  {
    if n < |wire| {
      assert wire[..|wire| - 1][..n] == wire[..n];
      PdusOfPrefix(wire[..|wire| - 1], n, id);
    } else {
      assert wire[..n] == wire;
    }
  }

  lemma {:induction false} ReadPrefix(ch: Channel, id: nat, a: seq<seq<Byte>>, b: seq<seq<Byte>>)
    requires a <= b && ReadChannel(ch, id, b).Some?
    ensures ReadChannel(ch, id, a).Some?
    decreases |b|
  {
    if |a| < |b| {
      ReadPrefix(ch, id, a, b[..|b| - 1]);
    } else {
      assert a == b;
    }
  }

  lemma PartlyRead(id: nat, messages: seq<seq<Byte>>, wire: seq<seq<Byte>>, chunk: nat, n: nat)
    requires chunk >= 10 && id < 0x1_0000_0000 && n <= |wire| && PdusOf(wire, id) == ChannelPdus(id, messages, chunk)
    requires forall i :: 0 <= i < |messages| ==> |messages[i]| < 0x1_0000_0000
    ensures ReadChannel(Channel(0, []), id, PdusOf(wire[..n], id)).Some?
  {
    ReadMessages(id, messages, chunk);
    PdusOfPrefix(wire, n, id);
    ReadPrefix(Channel(0, []), id, PdusOf(wire[..n], id), PdusOf(wire, id));
  }

  /**
    Wherever the interleaving has brought the last PDU of a channel's k-th message, that channel has exactly
    its first k messages and its counter is back at 0.
  */
  lemma CounterAfterMessage(messages: map<nat, seq<seq<Byte>>>, wire: seq<seq<Byte>>, chunk: nat, n: nat, id: nat, k: nat)
    requires chunk >= 10 && Addressed(wire, messages.Keys)
    requires forall id :: id in messages ==> id < 0x1_0000_0000
    requires forall id, i :: id in messages && 0 <= i < |messages[id]| ==> |messages[id][i]| < 0x1_0000_0000
    requires forall id :: id in messages ==> PdusOf(wire, id) == ChannelPdus(id, messages[id], chunk)
    requires n <= |wire| && id in messages && k <= |messages[id]|
    requires PdusOf(wire[..n], id) == ChannelPdus(id, messages[id][..k], chunk)
    ensures var t := ReadAll(Opened(messages.Keys), wire[..n]);
            t.Some? && t.value.Keys == messages.Keys && t.value[id] == Channel(0, Concat(messages[id][..k]))
  {
    var table := Opened(messages.Keys);
    forall i | i in messages
      ensures ReadChannel(table[i], i, PdusOf(wire[..n], i)).Some?
    {
      PartlyRead(i, messages[i], wire, chunk, n);
    }
    ChannelsAreIndependent(table, wire[..n]);
    ReadMessages(id, messages[id][..k], chunk);
  }

  /** The channel manager's table, updated in place. */
  class Manager {
    var channels: map<nat, Channel>

    method HandlePdu(b: seq<Byte>) returns (ok: bool)
      modifies this
      ensures (ok, channels) == ReadPdu(old(channels), b)
    {
      var parsed := Parse(b);
      if parsed.None? || parsed.value.id !in channels {
        return false;
      }
      var p := parsed.value;
      var v := Receive(channels[p.id], p);
      channels := channels[p.id := v.channel];
      return v.ok;
    }

    /** The transport delivers PDUs until one is refused. */
    method HandleWire(wire: seq<seq<Byte>>) returns (ok: bool)
      modifies this
      ensures ok <==> ReadAll(old(channels), wire).Some?
      ensures ok ==> channels == ReadAll(old(channels), wire).value
    {
      for i := 0 to |wire|
        invariant ReadAll(old(channels), wire[..i]) == Some(channels)
      {
        assert wire[..i + 1][..i] == wire[..i];
        var accepted := HandlePdu(wire[i]);
        if !accepted {
          assert ReadAll(old(channels), wire[..i + 1]).None?;
          RefusedStays(old(channels), wire, i + 1);
          return false;
        }
      }
      assert wire[..|wire|] == wire;
      return true;
    }
  }

  lemma {:induction false} RefusedStays(table: map<nat, Channel>, wire: seq<seq<Byte>>, i: nat)
    requires i <= |wire| && ReadAll(table, wire[..i]).None?
    ensures ReadAll(table, wire).None?
    decreases |wire|
  {
    if i < |wire| {
      assert wire[..|wire| - 1][..i] == wire[..i];
      RefusedStays(table, wire[..|wire| - 1], i);
    } else {
      assert wire[..i] == wire;
    }
  }
}
