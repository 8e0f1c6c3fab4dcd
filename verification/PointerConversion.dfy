/**
  The conversion of a 32 bpp pointer to a black and white 24 bpp one with an AND mask
  (ogon_new_pointer_to_mono_color_pointer in rdp-server/backend.c).

  The image is converted in place: four bytes of a pixel become three in the same buffer. A byte of the AND mask
  is its eight bits, the most significant first, so that or-ing in 0x80 >> k sets bit k.
*/
module PointerConversion {
  import opened Bytes

  type Octet = bits: seq<bool> | |bits| == 8
    witness [false, false, false, false, false, false, false, false]
  const ZERO: Octet := [false, false, false, false, false, false, false, false]

  // --------------------------------------------------- the image, pixel by pixel

  /** 2^24 times the luma of ITU-R BT.601. */
  function Grey(r: nat, g: nat, b: nat): nat { 5016388 * r + 9848226 * g + 1912603 * b }

  /** The sum never overflows 32 bits, and testing bit 31 is testing for luma 128. */
  lemma GreyFits(r: Byte, g: Byte, b: Byte)
    ensures Grey(r, g, b) < 0x1_0000_0000
    ensures Grey(r, g, b) / 0x100_0000 / 0x80 != 0 <==> Grey(r, g, b) >= 128 * 0x100_0000
  {}

  /** The weights are those of BT.601, rounded up; that never changes the test. */
  lemma GreyIsLuma(r: Byte, g: Byte, b: Byte)
    ensures Grey(r, g, b) < 128 * 0x100_0000 <==> 299 * r + 587 * g + 114 * b < 128000
  {
    assert 1000 * Grey(r, g, b) == 0x100_0000 * (299 * r + 587 * g + 114 * b) + 416 * r + 208 * g + 376 * b;
  }

  /** At most half opaque. */
  predicate Transparent(src: seq<Byte>, k: nat) {
    4 * k + 3 < |src| && src[4 * k + 3] <= 127
  }

  function Color(src: seq<Byte>, k: nat): Byte
    requires 4 * k + 3 < |src|
  {
    if Transparent(src, k) || Grey(src[4 * k + 2], src[4 * k + 1], src[4 * k]) < 128 * 0x100_0000 then 0x00 else 0xFF
  }

  /** The first n pixels converted. */
  function Colors(src: seq<Byte>, n: nat): (c: seq<Byte>)
    requires 4 * n <= |src|
    ensures |c| == 3 * n
  {
    if n == 0 then [] else var v := Color(src, n - 1); Colors(src, n - 1) + [v, v, v]
  }

  lemma {:induction false} ColorsAt(src: seq<Byte>, n: nat, k: nat)
    requires 4 * n <= |src| && k < n
    ensures Colors(src, n)[3 * k..3 * k + 3] == [Color(src, k), Color(src, k), Color(src, k)]
    ensures var b: nat, g: nat, r: nat, alpha: nat := src[4 * k], src[4 * k + 1], src[4 * k + 2], src[4 * k + 3];
            Color(src, k) == if alpha >= 128 && 299 * r + 587 * g + 114 * b >= 128000 then 0xFF else 0x00
  {
    GreyIsLuma(src[4 * k + 2], src[4 * k + 1], src[4 * k]);
    if k < n - 1 {
      ColorsAt(src, n - 1, k);
      assert Colors(src, n)[3 * k..3 * k + 3] == Colors(src, n - 1)[3 * k..3 * k + 3];
    }
  }

  // ------------------------------------------------------------------ the AND mask

  /** Rows padded to two bytes (section 2.2.9.1.1.4.4 of MS-RDPBCGR), or to one byte as rdesktop expects. */
  function Stride(width: nat, rdesktop: bool): (s: nat)
    ensures width <= 8 * s
    ensures if rdesktop then 8 * s < width + 8 else s % 2 == 0 && 8 * s < width + 16
  {
    if rdesktop then (width + 7) / 8 else (width + 15) / 16 * 2
  }

  function MaskOctet(src: seq<Byte>, base: nat, w: nat, q: nat): Octet {
    seq(8, (b: nat) => 8 * q + b < w && Transparent(src, base + 8 * q + b))
  }

  /** A mask row: a bit for each of the w pixels from base on, and padding bits that are 0. */
  function MaskRow(src: seq<Byte>, base: nat, w: nat, stride: nat): (row: seq<Octet>)
    ensures |row| == stride
  {
    if stride == 0 then [] else MaskRow(src, base, w, stride - 1) + [MaskOctet(src, base, w, stride - 1)]
  }

  lemma {:induction false} MaskRowAt(src: seq<Byte>, base: nat, w: nat, stride: nat, q: nat)
    requires q < stride
    ensures MaskRow(src, base, w, stride)[q] == MaskOctet(src, base, w, q)
  {
    if q < stride - 1 {
      MaskRowAt(src, base, w, stride - 1, q);
    }
  }

  function MaskRows(src: seq<Byte>, w: nat, stride: nat, h: nat): (rows: seq<Octet>)
    ensures |rows| == h * stride
  {
    if h == 0 then [] else MaskRows(src, w, stride, h - 1) + MaskRow(src, (h - 1) * w, w, stride)
  }

  lemma EmptyRow(row: seq<Octet>, src: seq<Byte>, base: nat)
    requires forall q :: 0 <= q < |row| ==> row[q] == ZERO
    ensures row == MaskRow(src, base, 0, |row|)
  {
    forall q: nat | q < |row| ensures MaskRow(src, base, 0, |row|)[q] == row[q] {
      MaskRowAt(src, base, 0, |row|, q);
      assert MaskOctet(src, base, 0, q) == ZERO;
    }
  }

  /** One more pixel sets or clears its own bit and no other. */
  lemma RowStep(src: seq<Byte>, base: nat, x: nat, stride: nat)
    requires x < 8 * stride
    ensures var row := MaskRow(src, base, x, stride);
            MaskRow(src, base, x + 1, stride) == row[x / 8 := row[x / 8][x % 8 := Transparent(src, base + x)]]
  {
    var row, next := MaskRow(src, base, x, stride), MaskRow(src, base, x + 1, stride);
    forall q: nat | q < stride
      ensures next[q] == row[x / 8 := row[x / 8][x % 8 := Transparent(src, base + x)]][q]
    {
      MaskRowAt(src, base, x, stride, q);
      MaskRowAt(src, base, x + 1, stride, q);
      assert next[q] == if q == x / 8 then row[q][x % 8 := Transparent(src, base + x)] else row[q];
    }
  }

  /** What the mask says: the bit of pixel x of row y is set if and only if it is transparent; padding bits are 0. */
  lemma MaskBit(src: seq<Byte>, w: nat, stride: nat, h: nat, y: nat, q: nat, b: nat)
    requires y < h && q < stride && b < 8
    ensures y * stride + q < h * stride
    ensures var pixel := y * w + 8 * q + b;
            MaskRows(src, w, stride, h)[y * stride + q][b] <==> 8 * q + b < w && 4 * pixel + 3 < |src| && src[4 * pixel + 3] <= 127
  {
    MaskBitIs(src, w, stride, h, y, q, b);
  }

  lemma {:induction false} MaskBitIs(src: seq<Byte>, w: nat, stride: nat, h: nat, y: nat, q: nat, b: nat)
    requires y < h && q < stride && b < 8
    ensures y * stride + q < h * stride
    ensures MaskRows(src, w, stride, h)[y * stride + q][b] <==> 8 * q + b < w && Transparent(src, y * w + 8 * q + b)
  {
    RowFits(y, h, stride);
    MaskRowAt(src, y * w, w, stride, q);
    if y < h - 1 {
      RowFits(y, h - 1, stride);
      MaskBitIs(src, w, stride, h - 1, y, q, b);
    }
  }

  lemma RowFits(y: nat, h: nat, w: nat)
    requires y < h
    ensures y * w + w == (y + 1) * w <= h * w
  {}

  // ------------------------------------------------------------- the conversion

  /** Byte j of the buffer after k pixels. */
  function Expected(src: seq<Byte>, k: nat, j: nat): Byte
    requires 4 * k <= |src| && j < |src|
  {
    if j < 3 * k then Color(src, j / 3) else src[j]
  }

  /** The converted pixels, and behind them the image as it was: nothing still to be read is overwritten. */
  ghost predicate Converted(cur: seq<Byte>, src: seq<Byte>, k: nat) {
    4 * k <= |src| == |cur| && forall j :: 0 <= j < |cur| ==> cur[j] == Expected(src, k, j)
  }

  lemma ConvertedIs(cur: seq<Byte>, src: seq<Byte>, k: nat)
    requires Converted(cur, src, k)
    ensures cur == Colors(src, k) + src[3 * k..]
  {
    var c := Colors(src, k) + src[3 * k..];
    forall j | 0 <= j < |src| ensures c[j] == cur[j] {
      if j < 3 * k {
        ColorsAt(src, k, j / 3);
        assert Colors(src, k)[3 * (j / 3)..3 * (j / 3) + 3][j % 3] == Colors(src, k)[j];
      }
    }
  }

  /** One pixel's colour, in 32-bit arithmetic. */
  method PixelColor(p: seq<Byte>) returns (transparent: bool, color: Byte)
    requires |p| == 4
    ensures transparent == Transparent(p, 0) && color == Color(p, 0)
  {
    transparent, color := true, 0x00;
    if p[3] > 127 {
      GreyFits(p[2], p[1], p[0]);
      color := if Grey(p[2], p[1], p[0]) / 0x100_0000 / 0x80 != 0 then 0xFF else 0x00;
      transparent := false;
    }
  }

  method ConvertPixel(xor: array<Byte>, k: nat, ghost src: seq<Byte>) returns (transparent: bool)
    requires 4 * k + 4 <= |src| && Converted(xor[..], src, k)
    modifies xor
    ensures Converted(xor[..], src, k + 1) && transparent == Transparent(src, k)
  {
    var color;
    transparent, color := PixelColor(xor[4 * k..4 * k + 4]);
    assert color == Color(src, k);
    xor[3 * k], xor[3 * k + 1], xor[3 * k + 2] := color, color, color;
  }

  /** The mask with the row at ro replaced. */
  function WithRow(m: seq<Octet>, ro: nat, row: seq<Octet>): seq<Octet>
    requires ro + |row| <= |m|
  {
    m[..ro] + row + m[ro + |row|..]
  }

  lemma PutInRow(m: seq<Octet>, ro: nat, src: seq<Byte>, base: nat, x: nat, stride: nat)
    requires ro + stride <= |m| && x < 8 * stride
    ensures var c := WithRow(m, ro, MaskRow(src, base, x, stride));
            c[ro + x / 8 := c[ro + x / 8][x % 8 := Transparent(src, base + x)]] == WithRow(m, ro, MaskRow(src, base, x + 1, stride))
  {
    RowStep(src, base, x, stride);
    var row := MaskRow(src, base, x, stride);
    assert WithRow(m, ro, row)[ro + x / 8] == row[x / 8];
  }

  /** Sets or clears the bit of pixel x in the row that starts at ro. */
  method PutBit(mask: array<Octet>, ro: nat, x: nat, stride: nat, on: bool,
                ghost bits: seq<Octet>, ghost m: seq<Octet>, ghost src: seq<Byte>, ghost base: nat)
    requires x < 8 * stride && ro + stride <= |m| && on == Transparent(src, base + x)
    requires mask[..] == bits && bits == WithRow(m, ro, MaskRow(src, base, x, stride))
    modifies mask
    ensures mask[..] == WithRow(m, ro, MaskRow(src, base, x + 1, stride))
  {
    PutInRow(m, ro, src, base, x, stride);
    ghost var before := mask[..];
    mask[ro + x / 8] := mask[ro + x / 8][x % 8 := on];
    assert mask[..] == before[ro + x / 8 := before[ro + x / 8][x % 8 := on]];
  }

  /** Pixel x of a row: its colour and its mask bit. */
  method ConvertPixelOfRow(xor: array<Byte>, mask: array<Octet>, k: nat, x: nat, ro: nat, stride: nat,
                           ghost m: seq<Octet>, ghost src: seq<Byte>, ghost base: nat)
    requires k == base + x && 4 * k + 4 <= |src| && Converted(xor[..], src, k)
    requires x < 8 * stride && ro + stride <= |m|
    requires mask[..] == WithRow(m, ro, MaskRow(src, base, x, stride))
    modifies xor, mask
    ensures Converted(xor[..], src, k + 1)
    ensures mask[..] == WithRow(m, ro, MaskRow(src, base, x + 1, stride))
  {
    ghost var bits := mask[..];
    var transparent := ConvertPixel(xor, k, src);
    assert mask[..] == bits;
    ghost var done := xor[..];
    PutBit(mask, ro, x, stride, transparent, bits, m, src, base);
    assert xor[..] == done;
  }

  method ConvertRow(xor: array<Byte>, mask: array<Octet>, base: nat, w: nat, ro: nat, stride: nat, ghost src: seq<Byte>)
    requires 4 * (base + w) <= |src| && Converted(xor[..], src, base)
    requires w <= 8 * stride && ro + stride <= mask.Length
    requires forall i :: ro <= i < ro + stride ==> mask[i] == ZERO
    modifies xor, mask
    ensures Converted(xor[..], src, base + w)
    ensures mask[..] == WithRow(old(mask[..]), ro, MaskRow(src, base, w, stride))
  {
    ghost var m := mask[..];
    EmptyRow(m[ro..ro + stride], src, base);
    assert m == WithRow(m, ro, m[ro..ro + stride]);
    var k := base;
    for x := 0 to w
      invariant k == base + x && Converted(xor[..], src, k)
      invariant mask[..] == WithRow(m, ro, MaskRow(src, base, x, stride))
    {
      ConvertPixelOfRow(xor, mask, k, x, ro, stride, m, src, base);
      k := k + 1;
    }
  }

  method Clear(mask: array<Octet>, n: nat)
    requires n <= mask.Length
    modifies mask
    ensures forall i :: 0 <= i < n ==> mask[i] == ZERO
    ensures mask[n..] == old(mask[n..])
  {
    for i := 0 to n
      invariant forall j :: 0 <= j < i ==> mask[j] == ZERO
      invariant mask[n..] == old(mask[n..])
    {
      mask[i] := ZERO;
    }
  }

  /** A row behind the finished ones. */
  method NextRow(xor: array<Byte>, mask: array<Octet>, base: nat, w: nat, ro: nat, stride: nat, ghost octets: nat, ghost src: seq<Byte>)
    requires 4 * (base + w) <= |src| && Converted(xor[..], src, base)
    requires w <= 8 * stride && ro + stride <= octets <= mask.Length
    requires forall i :: ro <= i < octets ==> mask[i] == ZERO
    modifies xor, mask
    ensures Converted(xor[..], src, base + w)
    ensures mask[..ro + stride] == old(mask[..ro]) + MaskRow(src, base, w, stride)
    ensures forall i :: ro + stride <= i < octets ==> mask[i] == ZERO
    ensures mask[octets..] == old(mask[octets..])
  {
    ghost var m := mask[..];
    ConvertRow(xor, mask, base, w, ro, stride, src);
    assert mask[..ro + stride] == m[..ro] + MaskRow(src, base, w, stride);
    assert mask[ro + stride..] == m[ro + stride..];
    assert forall i :: ro + stride <= i < mask.Length ==> mask[i] == mask[ro + stride..][i - (ro + stride)];
  }

  lemma RowsGrow(src: seq<Byte>, w: nat, stride: nat, y: nat, base: nat, rows: seq<Octet>)
    requires base == y * w && rows == MaskRows(src, w, stride, y)
    ensures rows + MaskRow(src, base, w, stride) == MaskRows(src, w, stride, y + 1)
  {}

  method ConvertRows(xor: array<Byte>, mask: array<Octet>, w: nat, h: nat, stride: nat,
                     ghost pixels: nat, ghost octets: nat, ghost src: seq<Byte>)
    requires pixels == h * w && octets == h * stride
    requires 4 * pixels <= |src| && Converted(xor[..], src, 0)
    requires w <= 8 * stride && octets <= mask.Length
    requires forall i :: 0 <= i < octets ==> mask[i] == ZERO
    modifies xor, mask
    ensures Converted(xor[..], src, pixels)
    ensures mask[..octets] == MaskRows(src, w, stride, h) && mask[octets..] == old(mask[octets..])
  {
    var base: nat, ro: nat := 0, 0;
    for y := 0 to h
      invariant base == y * w <= pixels && ro == y * stride <= octets
      invariant Converted(xor[..], src, base)
      invariant mask[..ro] == MaskRows(src, w, stride, y)
      invariant forall i :: ro <= i < octets ==> mask[i] == ZERO
      invariant mask[octets..] == old(mask[octets..])
    {
      RowFits(y, h, w);
      RowFits(y, h, stride);
      RowsGrow(src, w, stride, y, base, mask[..ro]);
      NextRow(xor, mask, base, w, ro, stride, octets, src);
      base, ro := base + w, ro + stride;
    }
  }

  class Pointer {
    const width: nat
    const height: nat
    const xorMask: array<Byte>
    const andMask: array<Octet>
    var xorBpp: nat
    var lengthXorMask: nat
    var lengthAndMask: nat

    constructor (width: nat, height: nat, xorBpp: nat, xorMask: array<Byte>, andMask: array<Octet>)
      ensures this.width == width && this.height == height && this.xorBpp == xorBpp
      ensures this.xorMask == xorMask && this.andMask == andMask
      ensures lengthXorMask == xorMask.Length && lengthAndMask == andMask.Length
    {
      this.width, this.height, this.xorBpp := width, height, xorBpp;
      this.xorMask, this.andMask := xorMask, andMask;
      lengthXorMask, lengthAndMask := xorMask.Length, andMask.Length;
    }

    method Convert(stride: nat, octets: nat, ghost pixels: nat)
      requires pixels == height * width && octets == height * stride && width <= 8 * stride
      requires xorMask.Length >= 4 * pixels && andMask.Length >= octets
      modifies xorMask, andMask
      ensures Converted(xorMask[..], old(xorMask[..]), pixels)
      ensures andMask[..] == MaskRows(old(xorMask[..]), width, stride, height) + old(andMask[..])[octets..]
    {
      Clear(andMask, octets);
      ConvertRows(xorMask, andMask, width, height, stride, pixels, octets, xorMask[..]);
      assert andMask[..] == andMask[..octets] + andMask[octets..];
      assert old(andMask[octets..]) == old(andMask[..])[octets..];
    }

    /** The image becomes the converted image, the mask becomes the rows of transparent pixels, and nothing else changes. */
    method ToMono(rdesktop: bool) returns (ok: bool)
      requires xorMask.Length >= 4 * (height * width) && andMask.Length >= height * Stride(width, rdesktop)
      modifies this, xorMask, andMask
      ensures ok == (old(xorBpp) == 32)
      ensures !ok ==> unchanged(this, xorMask, andMask)
      ensures ok ==> xorBpp == 24 && lengthXorMask == width * height * 3 && lengthAndMask == height * Stride(width, rdesktop)
      ensures ok ==> xorMask[..] == Colors(old(xorMask[..]), height * width) + old(xorMask[..])[3 * (height * width)..]
      ensures ok ==> andMask[..] == MaskRows(old(xorMask[..]), width, Stride(width, rdesktop), height)
                                    + old(andMask[..])[height * Stride(width, rdesktop)..]
    {
      if xorBpp != 32 {
        return false;
      }
      var stride := Stride(width, rdesktop);
      xorBpp, lengthXorMask, lengthAndMask := 24, width * height * 3, height * stride;
      Convert(stride, lengthAndMask, height * width);
      ConvertedIs(xorMask[..], old(xorMask[..]), height * width);
      ok := true;
    }
  }
}
