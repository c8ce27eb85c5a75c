/**
 The Windows clipboard bitmap (src-tauri/src/image_actions.rs): RGBA pixels, top row first, are turned
 in place into BGRA pixels, bottom row first, and put behind a BITMAPV5HEADER.
 */
module Dibv5 {
  import opened Wrappers

  const I32_MAX := 0x7FFF_FFFF
  const U32_MAX := 0xFFFF_FFFF
  const USIZE_MAX := 0xFFFF_FFFF_FFFF_FFFF
  const HEADER_SIZE := 124

  datatype ImageError = SourceInvalid

  /** `usize::checked_mul` on a 64-bit target. */
  function CheckedMul(a: nat, b: nat): Option<nat> {
    if a * b <= USIZE_MAX then Some(a * b) else None
  }

  // ---- Exchanging channels ----

  /** Where the byte at `i` goes when bytes 0 and 2 of its pixel are exchanged. */
  function Partner(i: nat): nat {
    if i % 4 == 0 then i + 2 else if i % 4 == 2 then i - 2 else i
  }

  function SwapChannels(s: seq<Byte>): (r: seq<Byte>)
    requires |s| % 4 == 0
    ensures |r| == |s|
  {
    seq(|s|, i requires 0 <= i < |s| => s[Partner(i)])
  }

  /** The loop over `chunks_exact_mut(4)`. */
  method SwapChannelsInPlace(rgba: array<Byte>)
    requires rgba.Length % 4 == 0
    modifies rgba
    ensures rgba[..] == SwapChannels(old(rgba[..]))
  {
    var pixel := 0;
    while pixel < rgba.Length / 4
      invariant 0 <= pixel <= rgba.Length / 4
      invariant forall i :: 0 <= i < 4 * pixel ==> rgba[i] == old(rgba[..])[Partner(i)]
      invariant forall i :: 4 * pixel <= i < rgba.Length ==> rgba[i] == old(rgba[..])[i]
    {
      rgba[4 * pixel], rgba[4 * pixel + 2] := rgba[4 * pixel + 2], rgba[4 * pixel];
      pixel := pixel + 1;
    }
  }

  // ---- Reversing rows ----

  /** A position lies in the row and column that division by the row length gives. */
  lemma {:induction false} Cell(row: nat, column: nat, rowBytes: nat)
    requires column < rowBytes
    ensures (row * rowBytes + column) / rowBytes == row
    ensures (row * rowBytes + column) % rowBytes == column
  {
    var i := row * rowBytes + column;
    var q, m := i / rowBytes, i % rowBytes;
    assert i == q * rowBytes + m;
    if q < row {
      RowsApart(q, row, rowBytes);
    } else if q > row {
      RowsApart(row, q, rowBytes);
    }
  }

  lemma {:induction false} RowsApart(a: nat, b: nat, rowBytes: nat)
    requires a < b
    ensures a * rowBytes + rowBytes <= b * rowBytes
  {
    if b == a + 1 {
      assert b * rowBytes == a * rowBytes + rowBytes;
    } else {
      RowsApart(a, b - 1, rowBytes);
      assert b * rowBytes == (b - 1) * rowBytes + rowBytes;
    }
  }

  /** The same column in the mirrored row. */
  function Mirror(i: nat, rowBytes: nat, height: nat): (m: nat)
    requires i < rowBytes * height
    ensures m < rowBytes * height
  {
    RowBelow(i, rowBytes, height);
    var row := height - 1 - i / rowBytes;
    RowsApart(row, height, rowBytes);
    row * rowBytes + i % rowBytes
  }

  lemma {:induction false} RowBelow(i: nat, rowBytes: nat, height: nat)
    requires i < rowBytes * height
    ensures rowBytes > 0 && height > 0 && i / rowBytes < height && i % rowBytes < rowBytes
  {
    assert rowBytes > 0 && height > 0;
    var q := i / rowBytes;
    assert i == q * rowBytes + i % rowBytes;
    if q > height {
      RowsApart(height, q, rowBytes);
    }
  }

  lemma {:induction false} MirrorAt(row: nat, column: nat, rowBytes: nat, height: nat)
    requires row < height && column < rowBytes
    ensures row * rowBytes + column < rowBytes * height
    ensures Mirror(row * rowBytes + column, rowBytes, height) == (height - 1 - row) * rowBytes + column
  {
    RowsApart(row, height, rowBytes);
    Cell(row, column, rowBytes);
  }

  function FlipRows(s: seq<Byte>, rowBytes: nat, height: nat): (r: seq<Byte>)
    requires |s| == rowBytes * height
    ensures |r| == |s|
  {
    seq(|s|, i requires 0 <= i < |s| => s[Mirror(i, rowBytes, height)])
  }

  /** What the buffer holds when the rows outside `low..high` are exchanged. */
  ghost predicate Flipping(now: seq<Byte>, s: seq<Byte>, rowBytes: nat, height: nat, low: int, high: int)
    requires |s| == rowBytes * height
  {
    && |now| == |s|
    && forall i :: 0 <= i < |s| ==> now[i] == if i < low || i >= high then s[Mirror(i, rowBytes, height)] else s[i]
  }

  /** `swap_with_slice` on two rows that do not overlap. */
  method SwapSlices(a: array<Byte>, top: nat, bottom: nat, length: nat)
    requires top + length <= bottom && bottom + length <= a.Length
    modifies a
    ensures forall i :: 0 <= i < a.Length ==>
      a[i] == old(a[..])[if top <= i < top + length then i - top + bottom
                         else if bottom <= i < bottom + length then i - bottom + top else i]
  {
    var k := 0;
    while k < length
      invariant 0 <= k <= length
      invariant forall i :: 0 <= i < a.Length ==>
        a[i] == old(a[..])[if top <= i < top + k then i - top + bottom
                           else if bottom <= i < bottom + k then i - bottom + top else i]
    {
      a[top + k], a[bottom + k] := a[bottom + k], a[top + k];
      k := k + 1;
    }
  }

  lemma {:induction false} FlipStep(
    before: seq<Byte>, now: seq<Byte>, s: seq<Byte>, rowBytes: nat, height: nat, row: nat, top: nat, bottom: nat)
    requires |s| == rowBytes * height && Flipping(before, s, rowBytes, height, top, bottom + rowBytes)
    requires row < height / 2 && top == row * rowBytes && bottom == (height - 1 - row) * rowBytes && |now| == |s|
    requires top + rowBytes <= bottom && bottom + rowBytes <= |s|
    requires forall i :: 0 <= i < |s| ==>
      now[i] == before[if top <= i < top + rowBytes then i - top + bottom
                       else if bottom <= i < bottom + rowBytes then i - bottom + top else i]
    ensures Flipping(now, s, rowBytes, height, top + rowBytes, bottom)
  {
    forall i | 0 <= i < |s|
      ensures now[i] == if i < top + rowBytes || i >= bottom then s[Mirror(i, rowBytes, height)] else s[i]
    {
      if top <= i < top + rowBytes {
        MirrorAt(row, i - top, rowBytes, height);
      } else if bottom <= i < bottom + rowBytes {
        MirrorAt(height - 1 - row, i - bottom, rowBytes, height);
      }
    }
  }

  /** An odd height leaves its middle row where it is. */
  lemma {:induction false} MiddleRow(i: nat, rowBytes: nat, height: nat, half: nat)
    requires half == height / 2 && i < rowBytes * height
    requires half * rowBytes <= i < (height - half) * rowBytes
    ensures Mirror(i, rowBytes, height) == i
  {
    assert height == 2 * half ==> (height - half) * rowBytes == half * rowBytes;
    assert height == 2 * half + 1;
    assert (half + 1) * rowBytes == half * rowBytes + rowBytes;
    MirrorAt(half, i - half * rowBytes, rowBytes, height);
  }

  lemma {:induction false} Flipped(now: seq<Byte>, s: seq<Byte>, rowBytes: nat, height: nat, half: nat)
    requires |s| == rowBytes * height && half == height / 2
    requires Flipping(now, s, rowBytes, height, half * rowBytes, (height - half) * rowBytes)
    ensures now == FlipRows(s, rowBytes, height)
  {
    forall i | 0 <= i < |s| ensures now[i] == s[Mirror(i, rowBytes, height)] {
      if half * rowBytes <= i < (height - half) * rowBytes {
        MiddleRow(i, rowBytes, height, half);
      }
    }
  }

  method FlipRowsInPlace(rgba: array<Byte>, rowBytes: nat, height: nat)
    requires rgba.Length == rowBytes * height
    modifies rgba
    ensures rgba[..] == FlipRows(old(rgba[..]), rowBytes, height)
  {
    ghost var s := rgba[..];
    var topRow := 0;
    ghost var low, high := 0, rowBytes * height;
    while topRow < height / 2
      invariant 0 <= topRow <= height / 2
      invariant low == topRow * rowBytes && high == (height - topRow) * rowBytes
      invariant Flipping(rgba[..], s, rowBytes, height, low, high)
    {
      ghost var before := rgba[..];
      var topStart := topRow * rowBytes;
      var bottomStart := (height - topRow - 1) * rowBytes;
      RowBounds(topRow, rowBytes, height, topStart, bottomStart, low, high);
      SwapSlices(rgba, topStart, bottomStart, rowBytes);
      FlipStep(before, rgba[..], s, rowBytes, height, topRow, topStart, bottomStart);
      topRow := topRow + 1;
      low, high := topStart + rowBytes, bottomStart;
    }
    Flipped(rgba[..], s, rowBytes, height, height / 2);
  }

  lemma {:induction false} RowBounds(
    row: nat, rowBytes: nat, height: nat, top: int, bottom: int, low: int, high: int)
    requires row < height / 2 && top == row * rowBytes && bottom == (height - row - 1) * rowBytes
    requires low == row * rowBytes && high == (height - row) * rowBytes
    ensures low == top && high == bottom + rowBytes
    ensures 0 <= top && top + rowBytes <= bottom && bottom + rowBytes <= rowBytes * height
    ensures top + rowBytes == (row + 1) * rowBytes
  {
    RowsApart(row, height - row - 1, rowBytes);
    RowsApart(height - row - 1, height, rowBytes);
    assert (row + 1) * rowBytes == row * rowBytes + rowBytes;
    assert (height - row) * rowBytes == (height - row - 1) * rowBytes + rowBytes;
  }

  // ---- Header ----

  function Le16(n: nat): (b: seq<Byte>)
    requires n < 0x1_0000
    ensures |b| == 2
  {
    [n % 256, n / 256]
  }

  function Le32(n: nat): (b: seq<Byte>)
    requires n <= U32_MAX
    ensures |b| == 4
  {
    [n % 256, n / 256 % 256, n / 0x1_0000 % 256, n / 0x100_0000]
  }

  function Zeros(n: nat): (b: seq<Byte>)
    ensures |b| == n
  {
    seq(n, _ => 0)
  }

  function Geometry(width: nat, height: nat, pixelBytes: nat): (b: seq<Byte>)
    requires width <= I32_MAX && height <= I32_MAX && pixelBytes <= U32_MAX
    ensures |b| == 40
  {
    Le32(HEADER_SIZE) + Le32(width) + Le32(height) + Le16(1) + Le16(32) + Le32(3) + Le32(pixelBytes) + Zeros(16)
  }

  function Masks(): (b: seq<Byte>)
    ensures |b| == 20
  {
    Le32(0x00FF_0000) + Le32(0x0000_FF00) + Le32(0x0000_00FF) + Le32(0xFF00_0000) + Le32(0x7352_4742)
  }

  function Colour(): (b: seq<Byte>)
    ensures |b| == 64
  {
    Zeros(36) + Zeros(12) + Le32(4) + Zeros(12)
  }

  function Header(width: nat, height: nat, pixelBytes: nat): (h: seq<Byte>)
    requires width <= I32_MAX && height <= I32_MAX && pixelBytes <= U32_MAX
    ensures |h| == HEADER_SIZE
  {
    Geometry(width, height, pixelBytes) + Masks() + Colour()
  }

  // ---- The encoder ----

  /** The inputs that the encoder accepts. */
  predicate Encodable(width: nat, height: nat, length: nat) {
    && width <= I32_MAX && height <= I32_MAX
    && length == 4 * width * height && length <= U32_MAX
  }

  /** The pixel buffer after both loops. */
  function Converted(s: seq<Byte>, width: nat, height: nat): (r: seq<Byte>)
    requires |s| == 4 * width * height
    ensures |r| == |s|
  {
    RowBytes(width, height);
    FlipRows(SwapChannels(s), 4 * width, height)
  }

  lemma {:induction false} RowBytes(width: nat, height: nat)
    ensures 4 * width * height == (4 * width) * height
    ensures ((4 * width) * height) % 4 == 0
  {
    assert (4 * width) * height == 4 * (width * height);
  }

  /** On a 64-bit target neither product overflows once the sides fit 32 bits. */
  lemma {:induction false} NoOverflow(width: nat, height: nat)
    requires width <= I32_MAX && height <= I32_MAX
    ensures CheckedMul(width, 4) == Some(4 * width)
    ensures CheckedMul(4 * width, height) == Some(4 * width * height)
  {
    assert 4 * width <= 4 * I32_MAX;
    assert (4 * width) * height <= (4 * I32_MAX) * height;
    assert (4 * I32_MAX) * height <= (4 * I32_MAX) * I32_MAX;
  }

  /** `encode_windows_dibv5`. The buffer is changed only if the input is accepted. */
  method Encode(width: nat, height: nat, rgba: array<Byte>) returns (r: Result<seq<Byte>, ImageError>)
    requires width <= USIZE_MAX && height <= USIZE_MAX
    modifies rgba
    ensures Encodable(width, height, rgba.Length) ==>
      r == Ok(Header(width, height, rgba.Length) + Converted(old(rgba[..]), width, height))
    ensures !Encodable(width, height, rgba.Length) ==> r == Err(SourceInvalid) && rgba[..] == old(rgba[..])
  {
    if width > I32_MAX || height > I32_MAX {
      return Err(SourceInvalid);
    }
    NoOverflow(width, height);
    var rowBytes := CheckedMul(width, 4);
    if rowBytes.None? {
      return Err(SourceInvalid);
    }
    var pixelBytes := CheckedMul(rowBytes.value, height);
    if pixelBytes.None? {
      return Err(SourceInvalid);
    }
    if rgba.Length != pixelBytes.value || pixelBytes.value > U32_MAX {
      return Err(SourceInvalid);
    }
    RowBytes(width, height);
    SwapChannelsInPlace(rgba);
    FlipRowsInPlace(rgba, rowBytes.value, height);
    r := Ok(Header(width, height, pixelBytes.value) + rgba[..]);
  }

  // ---- What a reader of the bitmap sees ----

  function U32At(b: seq<Byte>, i: nat): nat
    requires i + 4 <= |b|
  {
    (b[i] as int) + 256 * (b[i + 1] as int) + 0x1_0000 * (b[i + 2] as int) + 0x100_0000 * (b[i + 3] as int)
  }

  function U16At(b: seq<Byte>, i: nat): nat
    requires i + 2 <= |b|
  {
    (b[i] as int) + 256 * (b[i + 1] as int)
  }

  lemma {:induction false} Le32Reads(n: nat)
    requires n <= U32_MAX
    ensures U32At(Le32(n), 0) == n
  {
    assert n == n % 256 + 256 * (n / 256);
    assert n / 256 / 256 == n / 0x1_0000 && n / 0x1_0000 / 256 == n / 0x100_0000;
  }

  lemma {:induction false} GeometryReads(width: nat, height: nat, pixelBytes: nat)
    requires width <= I32_MAX && height <= I32_MAX && pixelBytes <= U32_MAX
    ensures var g := Geometry(width, height, pixelBytes);
      && U32At(g, 0) == HEADER_SIZE && U32At(g, 4) == width && U32At(g, 8) == height
      && U16At(g, 12) == 1 && U16At(g, 14) == 32 && U32At(g, 16) == 3 && U32At(g, 20) == pixelBytes
      && (forall i :: 24 <= i < 40 ==> g[i] == 0)
  {
    Le32Reads(width);
    Le32Reads(height);
    Le32Reads(pixelBytes);
  }

  lemma {:induction false} MasksRead()
    ensures var m := Masks();
      && U32At(m, 0) == 0x00FF_0000 && U32At(m, 4) == 0x0000_FF00
      && U32At(m, 8) == 0x0000_00FF && U32At(m, 12) == 0xFF00_0000 && U32At(m, 16) == 0x7352_4742
  {
    Le32Reads(0x00FF_0000);
    Le32Reads(0x0000_FF00);
    Le32Reads(0x0000_00FF);
    Le32Reads(0xFF00_0000);
    Le32Reads(0x7352_4742);
    assert forall k :: 0 <= k < 4 ==> Masks()[k] == Le32(0x00FF_0000)[k];
    assert forall k :: 0 <= k < 4 ==> Masks()[k + 4] == Le32(0x0000_FF00)[k];
    assert forall k :: 0 <= k < 4 ==> Masks()[k + 8] == Le32(0x0000_00FF)[k];
    assert forall k :: 0 <= k < 4 ==> Masks()[k + 12] == Le32(0xFF00_0000)[k];
    assert forall k :: 0 <= k < 4 ==> Masks()[k + 16] == Le32(0x7352_4742)[k];
  }

  /** Every field of the header, at its offset in BITMAPV5HEADER. */
  ghost predicate HeaderFields(b: seq<Byte>, width: nat, height: nat, pixelBytes: nat) {
    && |b| >= HEADER_SIZE
    && U32At(b, 0) == HEADER_SIZE && U32At(b, 4) == width && U32At(b, 8) == height
    && U16At(b, 12) == 1 && U16At(b, 14) == 32 && U32At(b, 16) == 3 && U32At(b, 20) == pixelBytes
    && U32At(b, 40) == 0x00FF_0000 && U32At(b, 44) == 0x0000_FF00
    && U32At(b, 48) == 0x0000_00FF && U32At(b, 52) == 0xFF00_0000
    && U32At(b, 56) == 0x7352_4742 && U32At(b, 108) == 4
    && (forall i :: 24 <= i < 40 || 60 <= i < 108 || 112 <= i < 124 ==> b[i] == 0)
  }

  lemma {:induction false} HeaderReads(width: nat, height: nat, pixelBytes: nat, pixels: seq<Byte>)
    requires width <= I32_MAX && height <= I32_MAX && pixelBytes <= U32_MAX
    ensures HeaderFields(Header(width, height, pixelBytes) + pixels, width, height, pixelBytes)
  {
    var g, m, c := Geometry(width, height, pixelBytes), Masks(), Colour();
    GeometryReads(width, height, pixelBytes);
    MasksRead();
    Assemble(g, m, c, pixels, width, height, pixelBytes);
  }

  lemma {:induction false} Assemble(
    g: seq<Byte>, m: seq<Byte>, c: seq<Byte>, pixels: seq<Byte>, width: nat, height: nat, pixelBytes: nat)
    requires |g| == 40 && |m| == 20 && c == Colour()
    requires U32At(g, 0) == HEADER_SIZE && U32At(g, 4) == width && U32At(g, 8) == height
    requires U16At(g, 12) == 1 && U16At(g, 14) == 32 && U32At(g, 16) == 3 && U32At(g, 20) == pixelBytes
    requires forall i :: 24 <= i < 40 ==> g[i] == 0
    requires U32At(m, 0) == 0x00FF_0000 && U32At(m, 4) == 0x0000_FF00
    requires U32At(m, 8) == 0x0000_00FF && U32At(m, 12) == 0xFF00_0000 && U32At(m, 16) == 0x7352_4742
    ensures HeaderFields(g + m + c + pixels, width, height, pixelBytes)
  {
    var b := g + m + c + pixels;
    assert forall i :: 0 <= i < 40 ==> b[i] == g[i];
    assert forall i :: 40 <= i < 60 ==> b[i] == m[i - 40];
    assert forall i :: 60 <= i < 124 ==> b[i] == c[i - 60];
  }

  datatype Rgba = Rgba(red: Byte, green: Byte, blue: Byte, alpha: Byte)

  /** The byte of a little-endian pixel that a mask selects. */
  function MaskedByte(mask: nat): Option<nat> {
    if mask == 0xFF then Some(0)
    else if mask == 0xFF00 then Some(1)
    else if mask == 0xFF_0000 then Some(2)
    else if mask == 0xFF00_0000 then Some(3)
    else None
  }

  function Channel(b: seq<Byte>, pixel: nat, maskAt: nat): Option<Byte>
    requires maskAt + 4 <= |b|
  {
    var k := MaskedByte(U32At(b, maskAt));
    if k.Some? && pixel + k.value < |b| then Some(b[pixel + k.value]) else None
  }

  /** Number of a pixel, counted row by row. */
  function PixelIndex(width: nat, row: nat, column: nat): nat {
    width * row + column
  }

  /**
   A reader that takes the place of the pixels, their size and the channel masks from the header, and
   reads rows from the bottom up because the height is positive. `(row, column)` counts from the top.
   */
  function ReadPixel(b: seq<Byte>, row: nat, column: nat): Option<Rgba> {
    if |b| < HEADER_SIZE || row >= U32At(b, 8) || column >= U32At(b, 4) then None
    else
      var number := PixelIndex(U32At(b, 4), U32At(b, 8) - 1 - row, column);
      ReadAt(b, U32At(b, 0) + U16At(b, 14) / 8 * number)
  }

  function ReadAt(b: seq<Byte>, at: nat): Option<Rgba>
    requires |b| >= HEADER_SIZE
  {
    var red, green := Channel(b, at, 40), Channel(b, at, 44);
    var blue, alpha := Channel(b, at, 48), Channel(b, at, 52);
    if red.None? || green.None? || blue.None? || alpha.None? then None
    else Some(Rgba(red.value, green.value, blue.value, alpha.value))
  }

  /** The pixel of the source buffer, four bytes per pixel, top row first. */
  function SourcePixel(s: seq<Byte>, width: nat, row: nat, column: nat): Rgba
    requires |s| >= 4 * PixelIndex(width, row, column) + 4
  {
    var i := 4 * PixelIndex(width, row, column);
    Rgba(s[i], s[i + 1], s[i + 2], s[i + 3])
  }

  lemma {:induction false} PixelInRow(width: nat, height: nat, row: nat, column: nat)
    requires row < height && column < width
    ensures 4 * PixelIndex(width, row, column) == row * (4 * width) + 4 * column
    ensures 4 * PixelIndex(width, row, column) + 4 <= 4 * width * height
  {
    assert row * (4 * width) == 4 * (width * row);
    RowsApart(row, height, 4 * width);
    assert height * (4 * width) == 4 * width * height;
  }

  /** The byte at `(row, column, k)` of `p` is that of the mirrored row of `s`, bytes 0 and 2 of the pixel exchanged. */
  predicate ByteMoved(p: seq<Byte>, s: seq<Byte>, width: nat, height: nat, row: nat, column: nat, k: nat)
    requires row < height && k < 4
  {
    var from, to := 4 * PixelIndex(width, height - 1 - row, column), 4 * PixelIndex(width, row, column);
    to + 4 <= |p| && from + 4 <= |s| && p[to + k] == s[from + Partner(k)]
  }

  lemma {:induction false} ConvertedByte(s: seq<Byte>, width: nat, height: nat, row: nat, column: nat, k: nat)
    requires |s| == 4 * width * height && row < height && column < width && k < 4
    ensures ByteMoved(Converted(s, width, height), s, width, height, row, column, k)
  {
    RowBytes(width, height);
    PixelInRow(width, height, row, column);
    PixelInRow(width, height, height - 1 - row, column);
    MirrorAt(row, 4 * column + k, 4 * width, height);
    PartnerIn(PixelIndex(width, height - 1 - row, column), k);
  }

  lemma {:induction false} PartnerIn(pixel: nat, k: nat)
    requires k < 4
    ensures Partner(4 * pixel + k) == 4 * pixel + Partner(k)
  {
  }

  /** The converted buffer `p` holds the pixel `(row, column)` at number `to`, as blue, green, red, alpha. */
  predicate HoldsAt(p: seq<Byte>, to: nat, pixel: Rgba) {
    4 * to + 4 <= |p| && Rgba(p[4 * to + 2], p[4 * to + 1], p[4 * to], p[4 * to + 3]) == pixel
  }

  lemma {:induction false} ConvertedPixel(s: seq<Byte>, width: nat, height: nat, row: nat, column: nat)
    requires |s| == 4 * width * height && row < height && column < width
    ensures 4 * PixelIndex(width, row, column) + 4 <= |s|
    ensures HoldsAt(Converted(s, width, height), PixelIndex(width, height - 1 - row, column),
                    SourcePixel(s, width, row, column))
  {
    var other := height - 1 - row;
    ConvertedByte(s, width, height, other, column, 0);
    ConvertedByte(s, width, height, other, column, 1);
    ConvertedByte(s, width, height, other, column, 2);
    ConvertedByte(s, width, height, other, column, 3);
  }

  lemma {:induction false} ReadBehindHeader(
    h: seq<Byte>, p: seq<Byte>, pixel: Rgba, width: nat, height: nat, row: nat, column: nat)
    requires |h| == HEADER_SIZE && HeaderFields(h + p, width, height, |p|) && row < height && column < width
    requires HoldsAt(p, PixelIndex(width, height - 1 - row, column), pixel)
    ensures ReadPixel(h + p, row, column) == Some(pixel)
  {
    var at := 4 * PixelIndex(width, height - 1 - row, column);
    ChannelsAt(h, p, at);
    MaskedRead(h + p, width, height, |p|, row, column, HEADER_SIZE + at);
  }

  /** Every pixel of an accepted buffer is read back from the bitmap, whatever the parity of the height. */
  lemma {:induction false} PixelsSurvive(s: seq<Byte>, width: nat, height: nat, row: nat, column: nat)
    requires Encodable(width, height, |s|) && row < height && column < width
    ensures 4 * PixelIndex(width, row, column) + 4 <= |s|
    ensures ReadPixel(Header(width, height, |s|) + Converted(s, width, height), row, column) ==
            Some(SourcePixel(s, width, row, column))
  {
    ConvertedPixel(s, width, height, row, column);
    var h, p := Header(width, height, |s|), Converted(s, width, height);
    HeaderReads(width, height, |s|, p);
    ReadBehindHeader(h, p, SourcePixel(s, width, row, column), width, height, row, column);
  }

  lemma {:induction false} ChannelsAt(h: seq<Byte>, p: seq<Byte>, at: nat)
    requires |h| == HEADER_SIZE && at + 4 <= |p|
    ensures var i := HEADER_SIZE + at; var b := h + p;
      b[i] == p[at] && b[i + 1] == p[at + 1] && b[i + 2] == p[at + 2] && b[i + 3] == p[at + 3]
  {
  }

  lemma {:induction false} MaskedRead(
    b: seq<Byte>, width: nat, height: nat, pixelBytes: nat, row: nat, column: nat, at: nat)
    requires HeaderFields(b, width, height, pixelBytes) && row < height && column < width
    requires at == HEADER_SIZE + 4 * PixelIndex(width, height - 1 - row, column) && at + 4 <= |b|
    ensures ReadPixel(b, row, column) == Some(Rgba(b[at + 2], b[at + 1], b[at], b[at + 3]))
  {
  }

  lemma {:induction false} MovedTwice(
    s: seq<Byte>, once: seq<Byte>, twice: seq<Byte>, width: nat, height: nat, row: nat, column: nat, k: nat)
    requires row < height && k < 4
    requires ByteMoved(twice, once, width, height, row, column, k)
    requires ByteMoved(once, s, width, height, height - 1 - row, column, Partner(k))
    ensures var i := 4 * PixelIndex(width, row, column) + k; i < |s| && i < |twice| && twice[i] == s[i]
  {
  }

  /** The row, the column and the channel of a byte. */
  lemma {:induction false} ByteOf(i: nat, width: nat, height: nat) returns (row: nat, column: nat, k: nat)
    requires i < 4 * width * height
    ensures row < height && column < width && k < 4 && i == 4 * PixelIndex(width, row, column) + k
  {
    var n := i / 4;
    assert 4 * width * height == 4 * (width * height);
    RowBelow(n, width, height);
    row, column, k := n / width, n % width, i % 4;
    assert n == row * width + column;
  }

  /** Both loops together are an involution on the pixel buffer. */
  lemma {:induction false} ConvertedTwice(s: seq<Byte>, width: nat, height: nat)
    requires |s| == 4 * width * height
    ensures Converted(Converted(s, width, height), width, height) == s
  {
    var once := Converted(s, width, height);
    var twice := Converted(once, width, height);
    forall i | 0 <= i < |s| ensures twice[i] == s[i] {
      var row, column, k := ByteOf(i, width, height);
      ConvertedByte(once, width, height, row, column, k);
      ConvertedByte(s, width, height, height - 1 - row, column, Partner(k));
      MovedTwice(s, once, twice, width, height, row, column, k);
    }
  }
}
