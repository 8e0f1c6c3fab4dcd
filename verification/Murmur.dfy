/**
  Progressive MurmurHash3_x86_32 (rdp-server/PMurHash.c).

  The reference is the one-shot hash of a byte string. The progressive form keeps
  a running hash and a carry word: up to three unprocessed bytes sit in the high
  bytes of the carry, their number in its two low bits, and the bits between them
  are stale. Both build variants of the inner loop are modelled.

  A 32-bit word is held as its four bytes, b0 the least significant: outside the
  mixing steps the C code only ever shifts words by whole bytes.
*/
module Murmur {
  import opened Bytes

  type Hash = h: nat | h < 0x1_0000_0000
  datatype Word = Word(b0: Byte, b1: Byte, b2: Byte, b3: Byte)

  // ---------------------------------------------------------------- mixing

  function Value(w: Word): Hash {
    w.b0 + 0x100 * w.b1 + 0x1_0000 * w.b2 + 0x100_0000 * w.b3
  }

  /** A word is its bytes in little-endian order. */
  lemma WordValue(w: Word)
    ensures Value(w) == From32([w.b0, w.b1, w.b2, w.b3])
  {}

  function WordOf(v: Hash): Word {
    Word(v % 0x100, v / 0x100 % 0x100, v / 0x1_0000 % 0x100, v / 0x100_0000)
  }

  function KeyBits(k: bv32): bv32 {
    var a := k * 0xcc9e2d51;
    ((a << 15) | (a >> 17)) * 0x1b873593
  }

  function BlockBits(h: bv32, k: bv32): bv32 {
    var a := h ^ KeyBits(k);
    ((a << 13) | (a >> 19)) * 5 + 0xe6546b64
  }

  function TailBits(h: bv32, k: bv32): bv32 {
    h ^ KeyBits(k)
  }

  function FinalBits(h: bv32, totalLength: bv32): bv32 {
    var g := h ^ totalLength;
    var a := (g ^ (g >> 16)) * 0x85ebca6b;
    var b := (a ^ (a >> 13)) * 0xc2b2ae35;
    b ^ (b >> 16)
  }

  function MixBits(k: Word): bv32 {
    KeyBits(Value(k) as bv32)
  }

  /** DOBLOCK, the hash side. */
  function MixBlock(h: Hash, k: Word): Hash {
    BlockOf(h, Value(k))
  }

  function BlockOf(h: Hash, k: Hash): Hash {
    BlockBits(h as bv32, k as bv32) as int
  }

  /** DOBLOCK, what it leaves in the block word. */
  function MixWord(k: Word): Word {
    WordOf(MixBits(k) as int)
  }

  function MixTail(h: Hash, k: Word): Hash {
    TailOf(h, Value(k))
  }

  function TailOf(h: Hash, k: Hash): Hash {
    TailBits(h as bv32, k as bv32) as int
  }

  function Finalize(h: Hash, totalLength: Hash): Hash {
    FinalBits(h as bv32, totalLength as bv32) as int
  }

  /**
    The mixing operations, as a value: everything about carries and cutting holds
    for any of them, and the hash instantiates it with MURMUR.
  */
  datatype Mixing = Mixing(block: (Hash, Word) -> Hash, spoil: Word -> Word, tail: (Hash, Word) -> Hash)

  const MURMUR := Mixing(MixBlock, MixWord, MixTail)

  // ------------------------------------------------------------- reference

  /** The hash after all whole four-byte blocks of data. */
  function Blocks(m: Mixing, h: Hash, data: seq<Byte>): Hash
    decreases |data|
  {
    if |data| < 4 then h
    else Blocks(m, m.block(h, Word(data[0], data[1], data[2], data[3])), data[4..])
  }

  /** The bytes behind the last whole block. */
  function Tail(data: seq<Byte>): (t: seq<Byte>)
    ensures |t| == |data| % 4
    decreases |data|
  {
    if |data| < 4 then data else Tail(data[4..])
  }

  function Finish(m: Mixing, h: Hash, t: seq<Byte>): Hash
    requires |t| < 4
  {
    if t == [] then h
    else m.tail(h, Word(t[0], if |t| > 1 then t[1] else 0, if |t| > 2 then t[2] else 0, 0))
  }

  function LengthWord(n: nat): (w: Hash)
    ensures n < 0x1_0000_0000 ==> w == n
  {
    n % 0x1_0000_0000
  }

  function Mixed(m: Mixing, seed: Hash, data: seq<Byte>): Hash {
    Finish(m, Blocks(m, seed, data), Tail(data))
  }

  /** MurmurHash3_x86_32 of a whole string. */
  function Murmur3(seed: Hash, data: seq<Byte>): Hash {
    Finalize(Mixed(MURMUR, seed, data), LengthWord(|data|))
  }

  lemma BitsOf(v: Hash, b: bv32)
    requires v == b as int
    ensures v as bv32 == b
  {
    assert (b as int) as bv32 == b;
  }

  lemma BlockIs(h: bv32, k: bv32, v: Hash, w: Hash)
    requires v == h as int && w == k as int
    ensures BlockOf(v, w) == BlockBits(h, k) as int
  {
    BitsOf(v, h);
    BitsOf(w, k);
  }

  lemma TailIs(h: bv32, k: bv32, v: Hash, w: Hash)
    requires v == h as int && w == k as int
    ensures TailOf(v, w) == TailBits(h, k) as int
  {
    BitsOf(v, h);
    BitsOf(w, k);
  }

  lemma FinalIs(h: bv32, n: bv32, v: Hash, length: Hash)
    requires v == h as int && length == n as int
    ensures Finalize(v, length) == FinalBits(h, n) as int
  {
    BitsOf(v, h);
    BitsOf(length, n);
  }

  /** The shape of the reference, by any mixing: a tail alone, and a block with nothing behind it. */
  lemma OneTail(m: Mixing, h: Hash, data: seq<Byte>)
    requires |data| <= 3
    ensures Mixed(m, h, data) == if data == [] then h
                                 else m.tail(h, Word(data[0], if |data| > 1 then data[1] else 0, if |data| > 2 then data[2] else 0, 0))
  {}

  lemma OneBlock(m: Mixing, h: Hash, data: seq<Byte>)
    requires |data| == 4
    ensures Mixed(m, h, data) == m.block(h, Word(data[0], data[1], data[2], data[3]))
  {
    var rest := data[4..];
    assert rest == [] && Tail(data) == Tail(rest) == [];
    assert Blocks(m, h, data) == Blocks(m, m.block(h, Word(data[0], data[1], data[2], data[3])), rest);
  }

  /** Published values of MurmurHash3_x86_32: no data, one block, and tails of three, two and one bytes. */
  lemma KnownValues()
    ensures FinalBits(0, 0) == 0 && FinalBits(1, 0) == 0x514e28b7 && FinalBits(0xffffffff, 0) == 0x81f16f39
    ensures FinalBits(BlockBits(0, 0xffffffff), 4) == 0x76293b50
    ensures FinalBits(BlockBits(0, 0x87654321), 4) == 0xf55b516b && FinalBits(BlockBits(0x5082edee, 0x87654321), 4) == 0x2362f9de
    ensures FinalBits(TailBits(0, 0x654321), 3) == 0x7e4a8634 && FinalBits(TailBits(0x9747b28c, 0x6161), 2) == 0x5d211726
    ensures FinalBits(TailBits(0, 0x21), 1) == 0x72661cf4
  {}

  /** Hashing in two parts: the tail of the first part goes in front of the second. */
  lemma {:induction false} BlocksCompose(m: Mixing, h: Hash, a: seq<Byte>, b: seq<Byte>)
    ensures Blocks(m, h, a + b) == Blocks(m, Blocks(m, h, a), Tail(a) + b)
    ensures Tail(a + b) == Tail(Tail(a) + b)
    decreases |a|
  {
    if |a| >= 4 {
      BlocksCompose(m, m.block(h, Word(a[0], a[1], a[2], a[3])), a[4..], b);
      assert (a + b)[4..] == a[4..] + b;
    }
  }

  // ------------------------------------------------------- byte-wise feeding

  /** A running hash and the bytes that wait for their block to fill. */
  datatype State = State(h: Hash, t: seq<Byte>)

  function FeedByte(m: Mixing, s: State, b: Byte): (r: State)
    ensures |s.t| < 4 ==> |r.t| == (|s.t| + 1) % 4
  {
    if |s.t| == 3 then State(m.block(s.h, Word(s.t[0], s.t[1], s.t[2], b)), [])
    else State(s.h, s.t + [b])
  }

  function Feed(m: Mixing, s: State, data: seq<Byte>): State {
    if data == [] then s
    else FeedByte(m, Feed(m, s, data[..|data| - 1]), data[|data| - 1])
  }

  /** Feeding byte by byte is the block-wise reference. */
  lemma {:induction false} FeedIsBlocks(m: Mixing, s: State, data: seq<Byte>)
    requires |s.t| < 4
    ensures Feed(m, s, data) == State(Blocks(m, s.h, s.t + data), Tail(s.t + data))
  {
    if data == [] {
      assert s.t + data == s.t;
    } else {
      var a, b := data[..|data| - 1], data[|data| - 1];
      FeedIsBlocks(m, s, a);
      BlocksCompose(m, s.h, s.t + a, [b]);
      assert s.t + a + [b] == s.t + data;
      var u := Tail(s.t + a);
      assert |u| == 3 ==> (u + [b])[4..] == [];
    }
  }

  lemma {:induction false} FeedConcat(m: Mixing, s: State, a: seq<Byte>, b: seq<Byte>)
    ensures Feed(m, Feed(m, s, a), b) == Feed(m, s, a + b)
  {
    if b == [] {
      assert a + b == a;
    } else {
      FeedConcat(m, s, a, b[..|b| - 1]);
      assert (a + b)[..|a + b| - 1] == a + b[..|b| - 1];
    }
  }

  lemma FeedSlice(m: Mixing, s: State, key: seq<Byte>, p: nat, q: nat, r: nat)
    requires p <= q <= r <= |key|
    ensures Feed(m, Feed(m, s, key[p..q]), key[q..r]) == Feed(m, s, key[p..r])
  {
    FeedConcat(m, s, key[p..q], key[q..r]);
    assert key[p..q] + key[q..r] == key[p..r];
  }

  lemma FeedNext(m: Mixing, s: State, key: seq<Byte>, p: nat, q: nat)
    requires p <= q < |key|
    ensures Feed(m, s, key[p..q + 1]) == FeedByte(m, Feed(m, s, key[p..q]), key[q])
  {
    assert key[p..q + 1][..q - p] == key[p..q];
  }

  /** The bytes that complete a started block leave nothing waiting. */
  lemma FeedFills(m: Mixing, s: State, data: seq<Byte>)
    requires |s.t| < 4 && (|s.t| + |data| == 4 || (s.t == [] && data == []))
    ensures Feed(m, s, data).t == []
  {
    FeedIsBlocks(m, s, data);
  }

  // ------------------------------------------------------------ carry word

  function ShiftRight(w: Word, bytes: nat): Word {
    if bytes == 0 then w
    else if bytes == 1 then Word(w.b1, w.b2, w.b3, 0)
    else if bytes == 2 then Word(w.b2, w.b3, 0, 0)
    else Word(w.b3, 0, 0, 0)
  }

  function ShiftLeft(w: Word, bytes: nat): Word {
    if bytes == 0 then w
    else if bytes == 1 then Word(0, w.b0, w.b1, w.b2)
    else if bytes == 2 then Word(0, 0, w.b0, w.b1)
    else Word(0, 0, 0, w.b0)
  }

  /** Or of two words that never both use a byte. */
  function Or(a: Word, b: Word): Word
    requires (a.b0 == 0 || b.b0 == 0) && (a.b1 == 0 || b.b1 == 0) && (a.b2 == 0 || b.b2 == 0) && (a.b3 == 0 || b.b3 == 0)
  {
    Word(a.b0 + b.b0, a.b1 + b.b1, a.b2 + b.b2, a.b3 + b.b3)
  }

  /** The n live bytes of a carry word, in stream order. */
  function Live(c: Word, n: nat): (t: seq<Byte>)
    requires n < 4
    ensures |t| == n
  {
    if n == 0 then [] else if n == 1 then [c.b3] else if n == 2 then [c.b2, c.b3] else [c.b1, c.b2, c.b3]
  }

  /** The two low bits. */
  function Count(c: Word): (n: nat)
    ensures n < 4
  {
    c.b0 % 4
  }

  /** The bytes a packed carry stands for. */
  function Pending(c: Word): (t: seq<Byte>)
    ensures |t| < 4
  {
    Live(c, Count(c))
  }

  /** (c & ~0xff) | n */
  function Pack(c: Word, n: nat): Word
    requires n < 4
  {
    c.(b0 := n)
  }

  /** Packing loses neither the count nor the live bytes, whatever the stale bits are. */
  lemma PackKeepsLive(c: Word, n: nat)
    requires n < 4
    ensures Pending(Pack(c, n)) == Live(c, n)
  {
    assert Count(Pack(c, n)) == n;
  }

  function Carried(h: Hash, c: Word, n: nat): State
    requires n < 4
  {
    State(h, Live(c, n))
  }

  // ------------------------------------------------------------- the C code

  /** One turn of DOBYTES: shift a byte into the carry, mix the carry once it is full. */
  method DoByte(m: Mixing, h0: Hash, c0: Word, n0: nat, b: Byte) returns (h: Hash, c: Word, n: nat)
    requires n0 < 4
    ensures n < 4 && Carried(h, c, n) == FeedByte(m, Carried(h0, c0, n0), b)
  {
    h, c, n := h0, Or(ShiftRight(c0, 1), Word(0, 0, 0, b)), n0 + 1;
    if n == 4 {
      h, c, n := m.block(h, c), m.spoil(c), 0;
    }
  }

  /** DOBYTES: feed the key bytes from p to q one at a time. */
  method DoBytes(m: Mixing, h0: Hash, c0: Word, n0: nat, key: seq<Byte>, p: nat, q: nat) returns (h: Hash, c: Word, n: nat)
    requires n0 < 4 && p <= q <= |key|
    ensures n < 4 && Carried(h, c, n) == Feed(m, Carried(h0, c0, n0), key[p..q])
  {
    h, c, n := h0, c0, n0;
    ghost var s := Carried(h0, c0, n0);
    var i := p;
    while i < q
      invariant p <= i <= q && n < 4
      invariant Carried(h, c, n) == Feed(m, s, key[p..i])
    {
      FeedNext(m, s, key, p, i);
      h, c, n := DoByte(m, h, c, n, key[i]);
      i := i + 1;
    }
  }

  function ReadWord(key: seq<Byte>, p: nat): Word
    requires p + 4 <= |key|
  {
    Word(key[p], key[p + 1], key[p + 2], key[p + 3])
  }

  lemma WordFeeds(m: Mixing, h: Hash, t: seq<Byte>, key: seq<Byte>, p: nat)
    requires |t| < 4 && p + 4 <= |key|
    ensures var d := t + key[p..p + 4];
            Feed(m, State(h, t), key[p..p + 4]) == State(m.block(h, Word(d[0], d[1], d[2], d[3])), d[4..])
  {
    FeedIsBlocks(m, State(h, t), key[p..p + 4]);
  }

  /** The word loop of the unaligned build: the carry is empty, or there is no whole word left. */
  method DoWords(m: Mixing, h0: Hash, ghost t: seq<Byte>, key: seq<Byte>, p: nat, words: nat) returns (h: Hash)
    requires p + 4 * words <= |key|
    requires t == [] || words == 0
    ensures State(h, t) == Feed(m, State(h0, t), key[p..p + 4 * words])
  {
    h := h0;
    var q := p;
    ghost var i := 0;
    while q < p + 4 * words
      invariant i <= words && q == p + 4 * i
      invariant State(h, t) == Feed(m, State(h0, t), key[p..q])
    {
      WordFeeds(m, h, [], key, q);
      FeedSlice(m, State(h0, t), key, p, q, q + 4);
      h := m.block(h, ReadWord(key, q));
      q, i := q + 4, i + 1;
    }
  }

  /**
    The word loops of the aligned build, one per carry count n: the n carried bytes
    stay in front of every word.
  */
  method DoSplicedWords(m: Mixing, h0: Hash, c0: Word, n: nat, key: seq<Byte>, p: nat, words: nat) returns (h: Hash, c: Word)
    requires n < 4 && p + 4 * words <= |key|
    ensures Carried(h, c, n) == Feed(m, Carried(h0, c0, n), key[p..p + 4 * words])
  {
    h, c := h0, c0;
    var q := p;
    ghost var i := 0;
    while q < p + 4 * words
      invariant i <= words && q == p + 4 * i
      invariant Carried(h, c, n) == Feed(m, Carried(h0, c0, n), key[p..q])
    {
      WordFeeds(m, h, Live(c, n), key, q);
      FeedSlice(m, Carried(h0, c0, n), key, p, q, q + 4);
      h, c := DoSplicedWord(m, h, c, n, key, q);
      q, i := q + 4, i + 1;
    }
  }

  /** The block word that n carried bytes and the next word make, and what is left of the word. */
  function Splice(c: Word, n: nat, w: Word): (k: Word)
    requires n < 4
  {
    if n == 0 then w else Or(ShiftRight(c, 4 - n), ShiftLeft(w, n))
  }

  lemma SpliceIs(c: Word, n: nat, w: Word)
    requires n < 4
    ensures var d := Live(c, n) + [w.b0, w.b1, w.b2, w.b3];
            Splice(c, n, w) == Word(d[0], d[1], d[2], d[3]) && Live(if n == 0 then c else w, n) == d[4..]
  {
    var b := [w.b0, w.b1, w.b2, w.b3];
    if n == 0 {
      assert [] + b == b;
    } else if n == 1 {
      assert [c.b3] + b == [c.b3, w.b0, w.b1, w.b2, w.b3];
    } else if n == 2 {
      assert [c.b2, c.b3] + b == [c.b2, c.b3, w.b0, w.b1, w.b2, w.b3];
    } else {
      assert [c.b1, c.b2, c.b3] + b == [c.b1, c.b2, c.b3, w.b0, w.b1, w.b2, w.b3];
    }
  }

  method DoSplicedWord(m: Mixing, h0: Hash, c0: Word, n: nat, key: seq<Byte>, q: nat) returns (h: Hash, c: Word)
    requires n < 4 && q + 4 <= |key|
    ensures var d := Live(c0, n) + key[q..q + 4];
            Carried(h, c, n) == State(m.block(h0, Word(d[0], d[1], d[2], d[3])), d[4..])
  {
    var w := ReadWord(key, q);
    assert key[q..q + 4] == [w.b0, w.b1, w.b2, w.b3];
    SpliceIs(c0, n, w);
    h := m.block(h0, Splice(c0, n, w));
    c := if n == 0 then c0 else w;
  }

  /** The byte-wise prefix is taken whole or not at all. */
  function Prefix(i: nat, key: seq<Byte>): (p: nat)
    ensures p <= |key|
  {
    if i <= |key| then i else 0
  }

  lemma FeedWhole(m: Mixing, s: State, key: seq<Byte>, p: nat)
    requires p <= |key|
    ensures Feed(m, Feed(m, s, key[0..p]), key[p..|key|]) == Feed(m, s, key)
  {
    FeedSlice(m, s, key, 0, p, |key|);
    assert key[0..|key|] == key;
  }

  method WholeWords(length: nat) returns (words: nat)
    ensures 4 * words <= length < 4 * words + 4
  {
    words := length / 4;
  }

  /** The unaligned build behind the prefix: whole words, then the remaining bytes. */
  method FinishUnaligned(m: Mixing, h0: Hash, c0: Word, n0: nat, key: seq<Byte>, p: nat) returns (h: Hash, c: Word, n: nat)
    requires n0 < 4 && p <= |key| && (n0 == 0 || |key| - p < 4)
    ensures n < 4 && Carried(h, c, n) == Feed(m, Carried(h0, c0, n0), key[p..|key|])
  {
    var words := WholeWords(|key| - p);
    var q := p + 4 * words;
    h := DoWords(m, h0, Live(c0, n0), key, p, words);
    h, c, n := DoBytes(m, h, c0, n0, key, q, |key|);
    FeedSlice(m, Carried(h0, c0, n0), key, p, q, |key|);
  }

  /** PMurHash32_Process in the build with unaligned word access: complete the carried block first. */
  method ProcessUnaligned(m: Mixing, h0: Hash, carry0: Word, key: seq<Byte>) returns (h: Hash, carry: Word)
    ensures State(h, Pending(carry)) == Feed(m, State(h0, Pending(carry0)), key)
  {
    ghost var s := State(h0, Pending(carry0));
    var n := Count(carry0);
    var p := Prefix(if n == 0 then 0 else 4 - n, key);
    var c;
    h, c, n := DoBytes(m, h0, carry0, n, key, 0, p);
    if |key| >= 4 {
      FeedFills(m, s, key[0..p]);
    }
    h, c, n := FinishUnaligned(m, h, c, n, key, p);
    FeedWhole(m, s, key, p);
    PackKeepsLive(c, n);
    carry := Pack(c, n);
  }

  /** The aligned build behind the prefix: spliced words, then the remaining bytes. */
  method FinishAligned(m: Mixing, h0: Hash, c0: Word, n0: nat, key: seq<Byte>, p: nat) returns (h: Hash, c: Word, n: nat)
    requires n0 < 4 && p <= |key|
    ensures n < 4 && Carried(h, c, n) == Feed(m, Carried(h0, c0, n0), key[p..|key|])
  {
    var words := WholeWords(|key| - p);
    h, c := DoSplicedWords(m, h0, c0, n0, key, p, words);
    h, c, n := DoBytes(m, h, c, n0, key, p + 4 * words, |key|);
    FeedSlice(m, Carried(h0, c0, n0), key, p, p + 4 * words, |key|);
  }

  /**
    PMurHash32_Process in the build without it: reach a word boundary first, then splice.
    The address is that of the first key byte.
  */
  method ProcessAligned(m: Mixing, h0: Hash, carry0: Word, key: seq<Byte>, address: nat) returns (h: Hash, carry: Word)
    ensures State(h, Pending(carry)) == Feed(m, State(h0, Pending(carry0)), key)
  {
    var n := Count(carry0);
    var p := Prefix((4 - address % 4) % 4, key);
    var c;
    h, c, n := DoBytes(m, h0, carry0, n, key, 0, p);
    h, c, n := FinishAligned(m, h, c, n, key, p);
    FeedWhole(m, State(h0, Pending(carry0)), key, p);
    PackKeepsLive(c, n);
    carry := Pack(c, n);
  }

  /** PMurHash32_Result: shift the carry down to its live bytes, mix them and the length in. */
  function Result(m: Mixing, h: Hash, carry: Word, totalLength: Hash): Hash {
    Finalize(MixCarry(m, h, carry), totalLength)
  }

  function MixCarry(m: Mixing, h: Hash, carry: Word): Hash {
    var n := Count(carry);
    if n == 0 then h else m.tail(h, ShiftRight(carry, 4 - n))
  }

  lemma MixesPending(m: Mixing, h: Hash, carry: Word)
    ensures MixCarry(m, h, carry) == Finish(m, h, Pending(carry))
  {}

  // ------------------------------------------------------------ main results

  /** Which build variant a Process call runs, and on what key address. */
  datatype Build = Unaligned | Aligned(address: nat)

  method Process(m: Mixing, build: Build, h0: Hash, carry0: Word, key: seq<Byte>) returns (h: Hash, carry: Word)
    ensures State(h, Pending(carry)) == Feed(m, State(h0, Pending(carry0)), key)
  {
    match build {
      case Unaligned => h, carry := ProcessUnaligned(m, h0, carry0, key);
      case Aligned(address) => h, carry := ProcessAligned(m, h0, carry0, key, address);
    }
  }

  /** No stale carry bit reaches the hash. */
  lemma ResultReadsPending(m: Mixing, h: Hash, carry: Word, totalLength: Hash)
    ensures Result(m, h, carry, totalLength) == Finalize(Finish(m, h, Pending(carry)), totalLength)
  {
    MixesPending(m, h, carry);
  }

  lemma FeedFromSeed(seed: Hash, data: seq<Byte>, h: Hash, carry: Word)
    requires State(h, Pending(carry)) == Feed(MURMUR, State(seed, []), data)
    ensures Result(MURMUR, h, carry, LengthWord(|data|)) == Murmur3(seed, data)
  {
    assert [] + data == data;
    FeedIsBlocks(MURMUR, State(seed, []), data);
    ResultReadsPending(MURMUR, h, carry, LengthWord(|data|));
  }

  /** Any cutting of a string into Process calls, of either build, gives the one-shot hash. */
  method HashChunks(seed: Hash, chunks: seq<seq<Byte>>, builds: seq<Build>) returns (r: Hash)
    requires |builds| == |chunks|
    ensures r == Murmur3(seed, Concat(chunks))
  {
    var h, carry, total := seed, Word(0, 0, 0, 0), 0;
    ghost var s := State(seed, []);
    var i := 0;
    while i < |chunks|
      invariant i <= |chunks| && total == |Concat(chunks[..i])|
      invariant State(h, Pending(carry)) == Feed(MURMUR, s, Concat(chunks[..i]))
    {
      FeedConcat(MURMUR, s, Concat(chunks[..i]), chunks[i]);
      h, carry := Process(MURMUR, builds[i], h, carry, chunks[i]);
      assert chunks[..i + 1][..i] == chunks[..i];
      total := total + |chunks[i]|;
      i := i + 1;
    }
    assert chunks[..i] == chunks;
    FeedFromSeed(seed, Concat(chunks), h, carry);
    r := Result(MURMUR, h, carry, LengthWord(total));
  }

  /** Both builds leave the same hash and the same live carry bytes, for any key address. */
  method BuildsAgree(m: Mixing, h0: Hash, carry0: Word, key: seq<Byte>, address: nat)
    returns (h: Hash, carry: Word, h': Hash, carry': Word)
    ensures h == h' && Pending(carry) == Pending(carry')
    ensures State(h, Pending(carry)) == Feed(m, State(h0, Pending(carry0)), key)
  {
    h, carry := ProcessUnaligned(m, h0, carry0, key);
    h', carry' := ProcessAligned(m, h0, carry0, key, address);
  }

  // ------------------------------------------- the pointer cache's cursor hash

  /** A cursor shape: hot spot, size and the two masks (their lengths are hashed too). */
  datatype Pointer = Pointer(xPos: Hash, yPos: Hash, width: Hash, height: Hash, andMask: seq<Byte>, xorMask: seq<Byte>)

  function PointerFields(p: Pointer): seq<Byte>
    requires |p.andMask| < 0x1_0000_0000 && |p.xorMask| < 0x1_0000_0000
  {
    Le32(p.xPos) + Le32(p.yPos) + Le32(p.width) + Le32(p.height)
    + Le32(|p.andMask|) + Le32(|p.xorMask|)
  }

  /** The keys of the Process calls, in order: six fields, then the masks that are not empty. */
  function FieldKeys(p: Pointer): seq<seq<Byte>>
    requires |p.andMask| < 0x1_0000_0000 && |p.xorMask| < 0x1_0000_0000
  {
    [] + [Le32(p.xPos)] + [Le32(p.yPos)] + [Le32(p.width)] + [Le32(p.height)]
    + [Le32(|p.andMask|)] + [Le32(|p.xorMask|)]
  }

  function MaskKey(mask: seq<Byte>): seq<seq<Byte>> {
    if mask == [] then [] else [mask]
  }

  lemma ConcatSnoc(chunks: seq<seq<Byte>>, c: seq<Byte>)
    ensures Concat(chunks + [c]) == Concat(chunks) + c
  {
    assert (chunks + [c])[..|chunks|] == chunks;
  }

  lemma ConcatMask(chunks: seq<seq<Byte>>, mask: seq<Byte>)
    ensures Concat(chunks + MaskKey(mask)) == Concat(chunks) + mask
  {
    if mask == [] {
      assert chunks + [] == chunks;
    } else {
      ConcatSnoc(chunks, mask);
    }
  }

  lemma ConcatSnoc3(chunks: seq<seq<Byte>>, a: seq<Byte>, b: seq<Byte>, c: seq<Byte>)
    ensures Concat(chunks + [a] + [b] + [c]) == Concat(chunks) + a + b + c
  {
    ConcatSnoc(chunks, a);
    ConcatSnoc(chunks + [a], b);
    ConcatSnoc(chunks + [a] + [b], c);
  }

  lemma FieldKeysConcat(p: Pointer)
    requires |p.andMask| < 0x1_0000_0000 && |p.xorMask| < 0x1_0000_0000
    ensures Concat(FieldKeys(p)) == PointerFields(p)
  {
    var a, b, c, d := Le32(p.xPos), Le32(p.yPos), Le32(p.width), Le32(p.height);
    ConcatSnoc3([], a, b, c);
    assert [] + a + b + c == a + b + c;
    ConcatSnoc3([] + [a] + [b] + [c], d, Le32(|p.andMask|), Le32(|p.xorMask|));
  }

  /** The up to eight Process calls of the cursor cache, each at its own address, hash the concatenated fields. */
  method PointerHash(p: Pointer, builds: seq<Build>) returns (hash: Hash)
    requires |p.andMask| < 0x1_0000_0000 && |p.xorMask| < 0x1_0000_0000 && |builds| == 8
    ensures hash == Murmur3(0, PointerFields(p) + p.andMask + p.xorMask)
  {
    var keys := FieldKeys(p) + MaskKey(p.andMask) + MaskKey(p.xorMask);
    FieldKeysConcat(p);
    ConcatMask(FieldKeys(p), p.andMask);
    ConcatMask(FieldKeys(p) + MaskKey(p.andMask), p.xorMask);
    hash := HashChunks(0, keys, builds[..|keys|]);
  }
}
