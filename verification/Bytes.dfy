/** Bytes and little-endian integers, as the stream readers and writers use them. */
module Bytes {
  type Byte = b: nat | b < 0x100

  function Le16(v: nat): (b: seq<Byte>)
    ensures |b| == 2
  {
    [v % 0x100, v / 0x100 % 0x100]
  }

  function Le32(v: nat): (b: seq<Byte>)
    ensures |b| == 4
  {
    [v % 0x100, v / 0x100 % 0x100, v / 0x1_0000 % 0x100, v / 0x100_0000 % 0x100]
  }

  function From16(b: seq<Byte>): nat
    requires |b| >= 2
  {
    b[0] as nat + 0x100 * (b[1] as nat)
  }

  function From32(b: seq<Byte>): nat
    requires |b| >= 4
  {
    b[0] as nat + 0x100 * (b[1] as nat) + 0x1_0000 * (b[2] as nat) + 0x100_0000 * (b[3] as nat)
  }

  lemma Le16RoundTrip(v: nat, rest: seq<Byte>)
    ensures From16(Le16(v) + rest) == v % 0x1_0000
  {
    assert (Le16(v) + rest)[0] == v % 0x100 && (Le16(v) + rest)[1] == v / 0x100 % 0x100;
  }

  lemma Le32RoundTrip(v: nat, rest: seq<Byte>)
    ensures From32(Le32(v) + rest) == v % 0x1_0000_0000
  {
    var b := Le32(v) + rest;
    assert b[0] == v % 0x100 && b[1] == v / 0x100 % 0x100 && b[2] == v / 0x1_0000 % 0x100 && b[3] == v / 0x100_0000 % 0x100;
    Digits32(v);
  }

  lemma Digits32(v: nat)
    ensures v % 0x100 + 0x100 * (v / 0x100 % 0x100) + 0x1_0000 * (v / 0x1_0000 % 0x100) + 0x100_0000 * (v / 0x100_0000 % 0x100)
            == v % 0x1_0000_0000
  {
    assert v / 0x1_0000 == v / 0x100 / 0x100;
    assert v / 0x100_0000 == v / 0x1_0000 / 0x100;
    assert v / 0x1_0000_0000 == v / 0x100_0000 / 0x100;
  }

  /** The pieces one behind the other. */
  function Concat(parts: seq<seq<Byte>>): seq<Byte> {
    if parts == [] then [] else Concat(parts[..|parts| - 1]) + parts[|parts| - 1]
  }

  lemma {:induction false} ConcatFirst(parts: seq<seq<Byte>>)
    requires parts != []
    ensures Concat(parts) == parts[0] + Concat(parts[1..])
    decreases |parts|
  {
    if |parts| == 1 {
      assert parts[..0] == parts[1..] == [];
    } else {
      var front := parts[..|parts| - 1];
      ConcatFirst(front);
      assert front[1..] == parts[1..][..|parts| - 2];
    }
  }
}
