/**
  Graphics channel segmentation (rdpgfx_server_wire_to_surface_1 and _2 in rdp-server/rdpgfx.c;
  section 2.2.5.1 of MS-RDPEGFX).

  A PDU of up to 65535 bytes is one segment; a longer one is cut into segments of at most that
  length. The reader below follows the specification, not the server's code.
*/
module GfxSegments {
  import opened Bytes
  import opened Common
  import DynamicChannel

  const MAX_SEGMENT := 65535
  const SINGLE: Byte := 0xE0
  const MULTIPART: Byte := 0xE1
  const COMPR_TYPE_RDP8: Byte := 0x04

  // ------------------------------------------------------------ the reader

  /** n segments: each has its length, counting the compression byte, that byte and its data. */
  function ReadSegments(n: nat, b: seq<Byte>): Option<seq<Byte>>
    decreases n
  {
    if n == 0 then (if b == [] then Some([]) else None)
    else if |b| < 5 || b[4] != COMPR_TYPE_RDP8 || From32(b) < 1 || 4 + From32(b) > |b| then None
    else match ReadSegments(n - 1, b[4 + From32(b)..])
      case None => None
      case Some(rest) => Some(b[5..4 + From32(b)] + rest)
  }

  /** RDP_SEGMENTED_DATA to the uncompressed PDU. */
  function ReadPdu(b: seq<Byte>): Option<seq<Byte>> {
    if |b| >= 2 && b[0] == SINGLE && b[1] == COMPR_TYPE_RDP8 then Some(b[2..])
    else if |b| >= 7 && b[0] == MULTIPART then
      match ReadSegments(From16(b[1..]), b[7..])
      case None => None
      case Some(data) => if |data| == From32(b[3..]) then Some(data) else None
    else None
  }

  // ------------------------------------------------------------ the writer

  function Segment(data: seq<Byte>): seq<Byte> {
    Le32(1 + |data|) + [COMPR_TYPE_RDP8] + data
  }

  /** A PDU cut into pieces of the largest length, the last one shorter. */
  function Cut(pdu: seq<Byte>): (pieces: seq<seq<Byte>>)
    ensures forall i :: 0 <= i < |pieces| ==> |pieces[i]| <= MAX_SEGMENT
    decreases |pdu|
  {
    if pdu == [] then []
    else var n := if |pdu| > MAX_SEGMENT then MAX_SEGMENT else |pdu|;
         [pdu[..n]] + Cut(pdu[n..])
  }

  /** Segments one behind the other. */
  function Segments(pieces: seq<seq<Byte>>): seq<Byte> {
    if pieces == [] then [] else Segment(pieces[0]) + Segments(pieces[1..])
  }

  /** The announced number of segments: the ceiling. */
  function SegmentCount(length: nat): nat {
    (length + (MAX_SEGMENT - 1)) / MAX_SEGMENT
  }

  function Stream(pdu: seq<Byte>): seq<Byte> {
    if |pdu| <= MAX_SEGMENT then [SINGLE, COMPR_TYPE_RDP8] + pdu
    else [MULTIPART] + Le16(SegmentCount(|pdu|)) + Le32(|pdu|) + Segments(Cut(pdu))
  }

  /** The two functions' common shape: a fixed header, then the bitmap data cut where segments end. */
  method WriteWireToSurface(header: seq<Byte>, bitmap: seq<Byte>) returns (s: seq<Byte>, segments: nat)
    requires |header| < MAX_SEGMENT
    ensures s == Stream(header + bitmap)
    ensures segments == if |header + bitmap| <= MAX_SEGMENT then 1 else SegmentCount(|header + bitmap|)
  {
    ghost var pdu := header + bitmap;
    var pduLength := |header| + |bitmap|;
    if pduLength <= MAX_SEGMENT {
      s, segments := [SINGLE, COMPR_TYPE_RDP8] + header + bitmap, 1;
      assert s == [SINGLE, COMPR_TYPE_RDP8] + (header + bitmap);
      return;
    }
    s := [MULTIPART] + Le16(SegmentCount(pduLength)) + Le32(pduLength);
    ghost var front := s;
    var n := MAX_SEGMENT - |header|;
    s := s + (Le32(1 + MAX_SEGMENT) + [COMPR_TYPE_RDP8] + header + bitmap[..n]);
    segments := 1;
    var data := bitmap[n..];
    assert pdu[..MAX_SEGMENT] == header + bitmap[..n] && pdu[MAX_SEGMENT..] == data;
    assert Le32(1 + MAX_SEGMENT) + [COMPR_TYPE_RDP8] + header + bitmap[..n] == Segment(pdu[..MAX_SEGMENT]);
    while |data| > 0
      invariant s + Segments(Cut(data)) == front + Segments(Cut(pdu))
      invariant segments + SegmentCount(|data|) == SegmentCount(pduLength)
      decreases |data|
    {
      n := if |data| > MAX_SEGMENT then MAX_SEGMENT else |data|;
      ghost var before := s;
      s := s + Segment(data[..n]);
      assert Segments(Cut(data)) == Segment(data[..n]) + Segments(Cut(data[n..]));
      assert before + (Segment(data[..n]) + Segments(Cut(data[n..]))) == s + Segments(Cut(data[n..]));
      segments, data := segments + 1, data[n..];
    }
    assert s + [] == s;
  }

  /** The layout of section 2.2.5 of MS-RDPEGFX: one segment, or their number and the length of the whole. */
  lemma StreamLayout(pdu: seq<Byte>)
    ensures |pdu| <= 65535 ==> Stream(pdu) == [0xE0, 0x04] + pdu
    ensures 65535 < |pdu| <= 65535 * 65535 ==>
              var s := Stream(pdu);
              && |s| >= 12 && s[0] == 0xE1 && From16(s[1..]) == (|pdu| + 65534) / 65535 && From32(s[3..]) == |pdu|
              && From32(s[7..]) == 65536 && s[11] == 0x04
  {
    if 65535 < |pdu| <= 65535 * 65535 {
      var n, first := SegmentCount(|pdu|), Segment(pdu[..65535]);
      var rest := Segments(Cut(pdu[65535..]));
      assert Segments(Cut(pdu)) == first + rest;
      MultipartParts(n, |pdu|, first + rest);
      SegmentParts(pdu[..65535], rest);
      var s := Stream(pdu);
      assert s[7..] == first + rest && s[11] == s[7..][4];
    }
  }

  // --------------------------------------------------------- main results

  lemma SegmentParts(data: seq<Byte>, rest: seq<Byte>)
    requires |data| < 0xFFFF_FFFF
    ensures var b := Segment(data) + rest;
            && |b| == 5 + |data| + |rest| && From32(b) == 1 + |data| && b[4] == COMPR_TYPE_RDP8
            && b[5..5 + |data|] == data && b[5 + |data|..] == rest
  {
    var b, tail := Segment(data) + rest, [COMPR_TYPE_RDP8] + data + rest;
    assert b == Le32(1 + |data|) + tail;
    Le32RoundTrip(1 + |data|, tail);
  }

  lemma ReadParts(n: nat, b: seq<Byte>, data: seq<Byte>, rest: seq<Byte>)
    requires |b| == 5 + |data| + |rest| && From32(b) == 1 + |data| && b[4] == COMPR_TYPE_RDP8
    requires b[5..5 + |data|] == data && b[5 + |data|..] == rest && ReadSegments(n, rest).Some?
    ensures ReadSegments(n + 1, b) == Some(data + ReadSegments(n, rest).value)
  {}

  lemma ReadSegment(n: nat, data: seq<Byte>, rest: seq<Byte>)
    requires |data| < 0xFFFF_FFFF && ReadSegments(n, rest).Some?
    ensures ReadSegments(n + 1, Segment(data) + rest) == Some(data + ReadSegments(n, rest).value)
  {
    SegmentParts(data, rest);
    ReadParts(n, Segment(data) + rest, data, rest);
  }

  lemma {:induction false} CutJoined(pdu: seq<Byte>)
    ensures Concat(Cut(pdu)) == pdu && |Cut(pdu)| == SegmentCount(|pdu|)
    decreases |pdu|
  {
    if pdu != [] {
      var n := if |pdu| > MAX_SEGMENT then MAX_SEGMENT else |pdu|;
      CutJoined(pdu[n..]);
      assert pdu == pdu[..n] + pdu[n..];
      assert Cut(pdu)[1..] == Cut(pdu[n..]);
      ConcatFirst(Cut(pdu));
    }
  }

  lemma {:induction false} SegmentsRead(pieces: seq<seq<Byte>>)
    requires forall i :: 0 <= i < |pieces| ==> |pieces[i]| <= MAX_SEGMENT
    ensures ReadSegments(|pieces|, Segments(pieces)) == Some(Concat(pieces))
  {
    if pieces != [] {
      SegmentsRead(pieces[1..]);
      ReadSegment(|pieces| - 1, pieces[0], Segments(pieces[1..]));
      ConcatFirst(pieces);
    }
  }

  lemma MultipartParts(n: nat, length: nat, segments: seq<Byte>)
    requires n < 0x1_0000 && length < 0x1_0000_0000
    ensures var b := [MULTIPART] + Le16(n) + Le32(length) + segments;
            && |b| >= 7 && b[0] == MULTIPART && From16(b[1..]) == n && From32(b[3..]) == length && b[7..] == segments
  {
    var b := [MULTIPART] + Le16(n) + Le32(length) + segments;
    Le16RoundTrip(n, Le32(length) + segments);
    assert b[1..] == Le16(n) + (Le32(length) + segments);
    Le32RoundTrip(length, segments);
    assert b[3..] == Le32(length) + segments;
  }

  /** Whatever the server writes, a reader of the specification gets the PDU back, if the count fits its 16-bit field. */
  lemma StreamRoundTrip(pdu: seq<Byte>)
    requires |pdu| <= 0xFFFF * MAX_SEGMENT
    ensures ReadPdu(Stream(pdu)) == Some(pdu)
  {
    if |pdu| <= MAX_SEGMENT {
      assert Stream(pdu)[2..] == pdu;
    } else {
      CountBounds(|pdu|);
      MultipartParts(SegmentCount(|pdu|), |pdu|, Segments(Cut(pdu)));
      CutJoined(pdu);
      SegmentsRead(Cut(pdu));
    }
  }

  lemma {:induction false} SegmentsLength(pieces: seq<seq<Byte>>)
    ensures |Segments(pieces)| == |Concat(pieces)| + 5 * |pieces|
  {
    if pieces != [] {
      SegmentsLength(pieces[1..]);
      ConcatFirst(pieces);
    }
  }

  /** What the C code allocates for a multipart stream, in 32-bit arithmetic. */
  function Allocated(length: nat): nat {
    var segmentCount := (length + (MAX_SEGMENT - 1)) % 0x1_0000_0000 / MAX_SEGMENT;
    (7 + (5 + MAX_SEGMENT) * segmentCount) % 0x1_0000_0000
  }

  lemma CountBounds(length: nat)
    ensures (SegmentCount(length) - 1) * MAX_SEGMENT < length <= SegmentCount(length) * MAX_SEGMENT || length == 0
  {}

  lemma AllocatedExactly(length: nat)
    requires length <= 65532 * MAX_SEGMENT
    ensures SegmentCount(length) <= 65532 && Allocated(length) == 7 + 65540 * SegmentCount(length)
  {
    CountBounds(length);
  }

  lemma AllocatedWrapped(length: nat)
    requires 65532 * MAX_SEGMENT < length < 0x1_0000_0000
    ensures Allocated(length) < 0x10_0000
  {
    var n := (length + (MAX_SEGMENT - 1)) % 0x1_0000_0000 / MAX_SEGMENT;
    if length + (MAX_SEGMENT - 1) < 0x1_0000_0000 {
      assert 65533 <= n <= 65537;
    } else {
      assert n == 0;
    }
  }

  lemma StreamLength(pdu: seq<Byte>)
    requires |pdu| > MAX_SEGMENT
    ensures |Stream(pdu)| == 7 + |pdu| + 5 * SegmentCount(|pdu|)
  {
    SegmentsLength(Cut(pdu));
    CutJoined(pdu);
  }

  /** The allocation suffices exactly up to 65532 full segments: beyond that its size wraps. */
  lemma AllocationSuffices(pdu: seq<Byte>)
    requires MAX_SEGMENT < |pdu| < 0x1_0000_0000
    ensures |Stream(pdu)| <= Allocated(|pdu|) <==> |pdu| <= 65532 * MAX_SEGMENT
  {
    StreamLength(pdu);
    CountBounds(|pdu|);
    if |pdu| <= 65532 * MAX_SEGMENT {
      AllocatedExactly(|pdu|);
    } else {
      AllocatedWrapped(|pdu|);
    }
  }

  /** One byte more than 65532 full segments: 65531 bytes are reserved for more than 4 GB. */
  lemma AllocationWraps(pdu: seq<Byte>)
    requires |pdu| == 65532 * MAX_SEGMENT + 1
    ensures Allocated(|pdu|) == 65531 && |Stream(pdu)| == 8 + 65532 * MAX_SEGMENT + 5 * 65533
  {
    assert SegmentCount(|pdu|) == 65533;
    StreamLength(pdu);
  }

  /** The stream fits the memory reserved for it, as the writer needs. */
  predicate StreamFits(pdu: seq<Byte>) {
    |pdu| <= MAX_SEGMENT || (|pdu| < 0x1_0000_0000 && |Stream(pdu)| <= Allocated(|pdu|))
  }

  /** Segmented, fragmented, read back from the channel and reassembled: the PDU byte for byte. */
  lemma GraphicsRoundTrip(pdu: seq<Byte>, id: nat, chunk: nat, ch: DynamicChannel.Channel)
    requires StreamFits(pdu) && chunk >= 10 && id < 0x1_0000_0000 && ch.remaining == 0
    ensures var r := DynamicChannel.ReadChannel(ch, id, DynamicChannel.MessagePdus(id, Stream(pdu), chunk));
            && r.Some? && r.value.remaining == 0 && ch.received <= r.value.received
            && ReadPdu(r.value.received[|ch.received|..]) == Some(pdu)
  {
    if |pdu| > MAX_SEGMENT {
      AllocationSuffices(pdu);
      StreamLength(pdu);
      CountBounds(|pdu|);
    }
    assert |Stream(pdu)| < 0x1_0000_0000;
    DynamicChannel.ReadMessage(ch, id, Stream(pdu), chunk);
    assert (ch.received + Stream(pdu))[|ch.received|..] == Stream(pdu);
    StreamRoundTrip(pdu);
  }

  // ------------------------------------------------------------ the headers

  /** RDPGFX_HEADER: command, flags and the length of the whole PDU. */
  function PduHeader(cmdId: nat, pduLength: nat): (h: seq<Byte>)
    ensures |h| == 8
  {
    Le16(cmdId) + Le16(0) + Le32(pduLength)
  }

  /** RDPGFX_WIRE_TO_SURFACE_PDU_1 without its data: 25 bytes. */
  function Header1(surfaceId: nat, codecId: nat, pixelFormat: Byte, left: nat, top: nat, right: nat, bottom: nat, length: nat): (h: seq<Byte>)
    ensures |h| == 25
  {
    PduHeader(0x0001, 25 + length)
    + (Le16(surfaceId) + (Le16(codecId) + ([pixelFormat]
    + (Le16(left) + (Le16(top) + (Le16(right) + (Le16(bottom) + Le32(length))))))))
  }

  /** RDPGFX_WIRE_TO_SURFACE_PDU_2 without its data: 21 bytes. */
  function Header2(surfaceId: nat, codecId: nat, codecContextId: nat, pixelFormat: Byte, length: nat): (h: seq<Byte>)
    ensures |h| == 21
  {
    PduHeader(0x0002, 21 + length)
    + (Le16(surfaceId) + (Le16(codecId) + (Le32(codecContextId) + ([pixelFormat] + Le32(length)))))
  }

  // ------------------------------------- a reader by the field offsets of MS-RDPEGFX

  datatype WireToSurface =
    | Wire1(surfaceId: nat, codecId: nat, pixelFormat: Byte, left: nat, top: nat, right: nat, bottom: nat, bitmap: seq<Byte>)
    | Wire2(surfaceId: nat, codecId: nat, codecContextId: nat, pixelFormat: Byte, bitmap: seq<Byte>)

  /** Sections 2.2.2.1 and 2.2.2.2 of MS-RDPEGFX. */
  function ReadWireToSurface(pdu: seq<Byte>): Option<WireToSurface> {
    if |pdu| >= 25 && From16(pdu) == 1 && From32(pdu[21..]) == |pdu| - 25 then
      Some(Wire1(From16(pdu[8..]), From16(pdu[10..]), pdu[12], From16(pdu[13..]), From16(pdu[15..]),
                 From16(pdu[17..]), From16(pdu[19..]), pdu[25..]))
    else if |pdu| >= 21 && From16(pdu) == 2 && From32(pdu[17..]) == |pdu| - 21 then
      Some(Wire2(From16(pdu[8..]), From16(pdu[10..]), From32(pdu[12..]), pdu[16], pdu[21..]))
    else None
  }

  lemma Field16(b: seq<Byte>, at: nat, v: nat, rest: seq<Byte>)
    requires at <= |b| && b[at..] == Le16(v) + rest && v < 0x1_0000
    ensures at + 2 <= |b| && From16(b[at..]) == v && b[at + 2..] == rest
  {
    Le16RoundTrip(v, rest);
    assert b[at + 2..] == b[at..][2..];
  }

  lemma Field32(b: seq<Byte>, at: nat, v: nat, rest: seq<Byte>)
    requires at <= |b| && b[at..] == Le32(v) + rest && v < 0x1_0000_0000
    ensures at + 4 <= |b| && From32(b[at..]) == v && b[at + 4..] == rest
  {
    Le32RoundTrip(v, rest);
    assert b[at + 4..] == b[at..][4..];
  }

  lemma Field8(b: seq<Byte>, at: nat, v: Byte, rest: seq<Byte>)
    requires at <= |b| && b[at..] == [v] + rest
    ensures at + 1 <= |b| && b[at] == v && b[at + 1..] == rest
  {
    assert b[at] == b[at..][0];
    assert b[at + 1..] == b[at..][1..];
  }

  /** The bitmap behind a header does not matter to its fields. */
  lemma HeaderFields(h: seq<Byte>, bitmap: seq<Byte>, at: nat)
    requires at + 2 <= |h|
    ensures From16((h + bitmap)[at..]) == From16(h[at..])
    ensures at + 4 <= |h| ==> From32((h + bitmap)[at..]) == From32(h[at..])
    ensures (h + bitmap)[at] == h[at] && (h + bitmap)[|h|..] == bitmap
  {}

  lemma Header1Fields(surfaceId: nat, codecId: nat, pixelFormat: Byte, left: nat, top: nat, right: nat, bottom: nat, length: nat)
    requires surfaceId < 0x1_0000 && codecId < 0x1_0000 && left < 0x1_0000 && top < 0x1_0000 && right < 0x1_0000 && bottom < 0x1_0000
    requires length < 0x1_0000_0000
    ensures var h := Header1(surfaceId, codecId, pixelFormat, left, top, right, bottom, length);
            && From16(h[8..]) == surfaceId && From16(h[10..]) == codecId && h[12] == pixelFormat
            && From16(h[13..]) == left && From16(h[15..]) == top && From16(h[17..]) == right && From16(h[19..]) == bottom
            && From32(h[21..]) == length
  {
    var h := Header1(surfaceId, codecId, pixelFormat, left, top, right, bottom, length);
    var r1 := Le16(bottom) + Le32(length);
    var r2 := Le16(right) + r1;
    var r3 := Le16(top) + r2;
    var r4 := Le16(left) + r3;
    Field16(h, 8, surfaceId, Le16(codecId) + ([pixelFormat] + r4));
    Field16(h, 10, codecId, [pixelFormat] + r4);
    Field8(h, 12, pixelFormat, r4);
    Field16(h, 13, left, r3);
    Field16(h, 15, top, r2);
    Field16(h, 17, right, r1);
    Field16(h, 19, bottom, Le32(length));
    assert Le32(length) == Le32(length) + [];
    Field32(h, 21, length, []);
  }

  lemma Header2Fields(surfaceId: nat, codecId: nat, codecContextId: nat, pixelFormat: Byte, length: nat)
    requires surfaceId < 0x1_0000 && codecId < 0x1_0000 && codecContextId < 0x1_0000_0000 && length < 0x1_0000_0000
    ensures var h := Header2(surfaceId, codecId, codecContextId, pixelFormat, length);
            && From16(h[8..]) == surfaceId && From16(h[10..]) == codecId && From32(h[12..]) == codecContextId
            && h[16] == pixelFormat && From32(h[17..]) == length
  {
    var h := Header2(surfaceId, codecId, codecContextId, pixelFormat, length);
    Field16(h, 8, surfaceId, Le16(codecId) + (Le32(codecContextId) + ([pixelFormat] + Le32(length))));
    Field16(h, 10, codecId, Le32(codecContextId) + ([pixelFormat] + Le32(length)));
    Field32(h, 12, codecContextId, [pixelFormat] + Le32(length));
    Field8(h, 16, pixelFormat, Le32(length));
    assert Le32(length) == Le32(length) + [];
    Field32(h, 17, length, []);
  }

  lemma Wire1Read(w: WireToSurface)
    requires w.Wire1? && w.surfaceId < 0x1_0000 && w.codecId < 0x1_0000 && |w.bitmap| < 0x1_0000_0000
    requires w.left < 0x1_0000 && w.top < 0x1_0000 && w.right < 0x1_0000 && w.bottom < 0x1_0000
    requires From16(Header1(w.surfaceId, w.codecId, w.pixelFormat, w.left, w.top, w.right, w.bottom, |w.bitmap|) + w.bitmap) == 1
    ensures ReadWireToSurface(Header1(w.surfaceId, w.codecId, w.pixelFormat, w.left, w.top, w.right, w.bottom, |w.bitmap|) + w.bitmap)
         == Some(w)
  {
    var h := Header1(w.surfaceId, w.codecId, w.pixelFormat, w.left, w.top, w.right, w.bottom, |w.bitmap|);
    Header1Fields(w.surfaceId, w.codecId, w.pixelFormat, w.left, w.top, w.right, w.bottom, |w.bitmap|);
    HeaderFields(h, w.bitmap, 8);
    HeaderFields(h, w.bitmap, 10);
    HeaderFields(h, w.bitmap, 12);
    HeaderFields(h, w.bitmap, 13);
    HeaderFields(h, w.bitmap, 15);
    HeaderFields(h, w.bitmap, 17);
    HeaderFields(h, w.bitmap, 19);
    HeaderFields(h, w.bitmap, 21);
  }

  lemma Wire2Read(w: WireToSurface)
    requires w.Wire2? && w.surfaceId < 0x1_0000 && w.codecId < 0x1_0000 && w.codecContextId < 0x1_0000_0000
    requires |w.bitmap| < 0x1_0000_0000
    requires From16(Header2(w.surfaceId, w.codecId, w.codecContextId, w.pixelFormat, |w.bitmap|) + w.bitmap) == 2
    ensures ReadWireToSurface(Header2(w.surfaceId, w.codecId, w.codecContextId, w.pixelFormat, |w.bitmap|) + w.bitmap) == Some(w)
  {
    var h := Header2(w.surfaceId, w.codecId, w.codecContextId, w.pixelFormat, |w.bitmap|);
    Header2Fields(w.surfaceId, w.codecId, w.codecContextId, w.pixelFormat, |w.bitmap|);
    HeaderFields(h, w.bitmap, 8);
    HeaderFields(h, w.bitmap, 10);
    HeaderFields(h, w.bitmap, 12);
    HeaderFields(h, w.bitmap, 16);
    HeaderFields(h, w.bitmap, 17);
  }

  /** What a receiver that cuts the stream into PDUs relies on: the command, and the length of the whole PDU. */
  predicate Announced(pdu: seq<Byte>, cmdId: nat) {
    |pdu| >= 8 && From16(pdu) == cmdId && From16(pdu[2..]) == 0 && From32(pdu[4..]) == |pdu|
  }

  lemma HeaderAnnounces(cmdId: nat, pduLength: nat, fields: seq<Byte>, bitmap: seq<Byte>)
    requires cmdId < 0x1_0000 && pduLength == 8 + |fields| + |bitmap| < 0x1_0000_0000
    ensures Announced(PduHeader(cmdId, pduLength) + fields + bitmap, cmdId)
  {
    var h := PduHeader(cmdId, pduLength);
    var pdu, rest := h + fields + bitmap, fields + bitmap;
    PduHeaderFields(cmdId, pduLength);
    assert pdu == h + rest;
    HeaderFields(h, rest, 0);
    HeaderFields(h, rest, 2);
    HeaderFields(h, rest, 4);
    assert pdu[0..] == pdu && h[0..] == h;
  }

  lemma PduHeaderFields(cmdId: nat, pduLength: nat)
    requires cmdId < 0x1_0000 && pduLength < 0x1_0000_0000
    ensures var h := PduHeader(cmdId, pduLength); From16(h) == cmdId && From16(h[2..]) == 0 && From32(h[4..]) == pduLength
  {
    var h := PduHeader(cmdId, pduLength);
    assert h == Le16(cmdId) + (Le16(0) + Le32(pduLength)) && h[0..] == h;
    Field16(h, 0, cmdId, Le16(0) + Le32(pduLength));
    Field16(h, 2, 0, Le32(pduLength));
    assert Le32(pduLength) == Le32(pduLength) + [];
    Field32(h, 4, pduLength, []);
  }

  lemma FittingReaches(cmdId: nat, fields: seq<Byte>, bitmap: seq<Byte>)
    requires cmdId < 0x1_0000
    requires StreamFits(PduHeader(cmdId, 8 + |fields| + |bitmap|) + fields + bitmap)
    ensures var pdu := PduHeader(cmdId, 8 + |fields| + |bitmap|) + fields + bitmap;
            Announced(pdu, cmdId) && ReadPdu(Stream(pdu)) == Some(pdu)
  {
    var pdu := PduHeader(cmdId, 8 + |fields| + |bitmap|) + fields + bitmap;
    HeaderAnnounces(cmdId, 8 + |fields| + |bitmap|, fields, bitmap);
    if |pdu| > MAX_SEGMENT {
      AllocationSuffices(pdu);
    }
    StreamRoundTrip(pdu);
  }

  /**
    rdpgfx_server_wire_to_surface_1, with 16-bit fields: any bitmap is written as its segmented PDU; one that
    fits its memory reaches a reader whole, with every field at its place.
  */
  method WireToSurface1(surfaceId: nat, codecId: nat, pixelFormat: Byte, left: nat, top: nat, right: nat, bottom: nat,
                        bitmap: seq<Byte>) returns (s: seq<Byte>)
    requires surfaceId < 0x1_0000 && codecId < 0x1_0000 && left < 0x1_0000 && top < 0x1_0000 && right < 0x1_0000 && bottom < 0x1_0000
    ensures var pdu := Header1(surfaceId, codecId, pixelFormat, left, top, right, bottom, |bitmap|) + bitmap;
            && s == Stream(pdu)
            && (StreamFits(pdu) ==>
                  && Announced(pdu, 0x0001) && ReadPdu(s) == Some(pdu)
                  && ReadWireToSurface(pdu) == Some(Wire1(surfaceId, codecId, pixelFormat, left, top, right, bottom, bitmap)))
  {
    var header := Header1(surfaceId, codecId, pixelFormat, left, top, right, bottom, |bitmap|);
    var segments;
    s, segments := WriteWireToSurface(header, bitmap);
    assert header == PduHeader(0x0001, 25 + |bitmap|) + header[8..];
    if StreamFits(header + bitmap) {
      FittingReaches(0x0001, header[8..], bitmap);
      Wire1Read(Wire1(surfaceId, codecId, pixelFormat, left, top, right, bottom, bitmap));
    }
  }

  method WireToSurface2(surfaceId: nat, codecId: nat, codecContextId: nat, pixelFormat: Byte, bitmap: seq<Byte>)
    returns (s: seq<Byte>)
    requires surfaceId < 0x1_0000 && codecId < 0x1_0000 && codecContextId < 0x1_0000_0000
    ensures var pdu := Header2(surfaceId, codecId, codecContextId, pixelFormat, |bitmap|) + bitmap;
            && s == Stream(pdu)
            && (StreamFits(pdu) ==>
                  && Announced(pdu, 0x0002) && ReadPdu(s) == Some(pdu)
                  && ReadWireToSurface(pdu) == Some(Wire2(surfaceId, codecId, codecContextId, pixelFormat, bitmap)))
  {
    var header := Header2(surfaceId, codecId, codecContextId, pixelFormat, |bitmap|);
    var segments;
    s, segments := WriteWireToSurface(header, bitmap);
    assert header == PduHeader(0x0002, 21 + |bitmap|) + header[8..];
    if StreamFits(header + bitmap) {
      FittingReaches(0x0002, header[8..], bitmap);
      Wire2Read(Wire2(surfaceId, codecId, codecContextId, pixelFormat, bitmap));
    }
  }
}
