/** The serial partial-update panel of `libs/lcds/SN_QDTECH.py` (320x480):
    10-byte command headers, the changed-region computation over 16-bit pixel
    words, row-sliced region extraction, and the driver object's bookkeeping of
    the port and the last frame sent. The serial port is an abstract log of the
    byte blocks written to it. */
module SnQdtech {
  import opened Common
  import PC = PixelCodec

  const Width := 320
  const Height := 480
  const BytesPerPixel := 2

  const CmdDisplay := 197
  const CmdClear := 102
  const CmdBrightness := 110
  const CmdHandshake := 200

  /** `is_connected`: some serial port reports the panel's serial number. */
  const SerialNumber := "QDTFT35_V1COM"

  predicate IsConnected(serialNumbers: seq<string>) {
    SerialNumber in serialNumbers
  }

  // ---------------------------------------------------------------------------
  // Command header

  /** `__create_command`: big-endian x_start, x_end, y_start, y_end, then the
      command and data bytes. */
  function Command(cmd: int, data: int, xStart: int, xEnd: int, yStart: int, yEnd: int): (c: seq<byte>)
    ensures |c| == 10
  {
    [Hi(xStart), Lo(xStart), Hi(xEnd), Lo(xEnd), Hi(yStart), Lo(yStart), Hi(yEnd), Lo(yEnd), Lo(cmd), Lo(data)]
  }

  /** The fields of a header as the panel reads them. */
  datatype Header = Header(xStart: int, xEnd: int, yStart: int, yEnd: int, cmd: int, data: int)

  function ParseCommand(c: seq<byte>): Header
    requires |c| == 10
  {
    Header(c[0] as int * 256 + c[1], c[2] as int * 256 + c[3], c[4] as int * 256 + c[5],
           c[6] as int * 256 + c[7], c[8], c[9])
  }

  /** The panel reads back every field modulo its width: coordinates modulo
      2^16, command and data modulo 2^8 (so x_end = -1 reads as 0xFFFF). */
  lemma CommandRoundTrip(cmd: int, data: int, xStart: int, xEnd: int, yStart: int, yEnd: int)
    ensures ParseCommand(Command(cmd, data, xStart, xEnd, yStart, yEnd))
         == Header(xStart % 65536, xEnd % 65536, yStart % 65536, yEnd % 65536, cmd % 256, data % 256)
  {
    HiLoValue(xStart);
    HiLoValue(xEnd);
    HiLoValue(yStart);
    HiLoValue(yEnd);
  }

  // ---------------------------------------------------------------------------
  // Changed region

  /** Half-open pixel rectangle [x1, x2) x [y1, y2). */
  datatype Region = Region(x1: int, x2: int, y1: int, y2: int)

  /** Tight bounding box of the changed pixels. */
  datatype Box = Box(minX: int, maxX: int, minY: int, maxY: int)

  /** The 16-bit words at word index i differ (`current_arr != last_arr`). */
  predicate Differs(last: seq<byte>, cur: seq<byte>, i: int)
    requires 0 <= i && 2 * i + 1 < |last| && 2 * i + 1 < |cur|
  {
    last[2 * i] != cur[2 * i] || last[2 * i + 1] != cur[2 * i + 1]
  }

  function Min(a: int, b: int): int { if a <= b then a else b }
  function Max(a: int, b: int): int { if a >= b then a else b }

  /** Bounding box of the differing words among the first n, with word i at
      pixel (i % width, i / width); None when none of them differs. */
  function BoxOf(last: seq<byte>, cur: seq<byte>, width: int, n: nat): (r: Option<Box>)
    requires width > 0 && 2 * n <= |last| && 2 * n <= |cur|
    ensures r.Some? ==> 0 <= r.value.minX <= r.value.maxX < width && 0 <= r.value.minY <= r.value.maxY
  {
    if n == 0 then None
    else
      var rest := BoxOf(last, cur, width, n - 1);
      if !Differs(last, cur, n - 1) then rest
      else
        var x, y := (n - 1) % width, (n - 1) / width;
        match rest
        case None => Some(Box(x, x, y, y))
        case Some(b) => Some(Box(Min(b.minX, x), Max(b.maxX, x), Min(b.minY, y), Max(b.maxY, y)))
  }

  /** There is no box exactly when no word differs. */
  lemma {:induction false} BoxOfNone(last: seq<byte>, cur: seq<byte>, width: int, n: nat)
    requires width > 0 && 2 * n <= |last| && 2 * n <= |cur|
    ensures BoxOf(last, cur, width, n).None? <==> forall i | 0 <= i < n :: !Differs(last, cur, i)
  {
    if n > 0 {
      BoxOfNone(last, cur, width, n - 1);
    }
  }

  /** The box contains every differing word. */
  lemma {:induction false} BoxOfCovers(last: seq<byte>, cur: seq<byte>, width: int, n: nat, i: int)
    requires width > 0 && 2 * n <= |last| && 2 * n <= |cur|
    requires 0 <= i < n && Differs(last, cur, i)
    ensures BoxOf(last, cur, width, n).Some?
    ensures var b := BoxOf(last, cur, width, n).value;
      b.minX <= i % width <= b.maxX && b.minY <= i / width <= b.maxY
  {
    if i < n - 1 {
      BoxOfCovers(last, cur, width, n - 1, i);
    }
  }

  /** Every side of the box is attained by a differing word, so the box is the
      smallest one containing them. */
  lemma {:induction false} BoxOfTight(last: seq<byte>, cur: seq<byte>, width: int, n: nat)
    requires width > 0 && 2 * n <= |last| && 2 * n <= |cur|
    requires BoxOf(last, cur, width, n).Some?
    ensures var b := BoxOf(last, cur, width, n).value;
      && (exists i | 0 <= i < n && Differs(last, cur, i) :: i % width == b.minX)
      && (exists i | 0 <= i < n && Differs(last, cur, i) :: i % width == b.maxX)
      && (exists i | 0 <= i < n && Differs(last, cur, i) :: i / width == b.minY)
      && (exists i | 0 <= i < n && Differs(last, cur, i) :: i / width == b.maxY)
  {
    var rest := BoxOf(last, cur, width, n - 1);
    if rest.Some? {
      BoxOfTight(last, cur, width, n - 1);
    }
  }

  /** Number of pixel words in a native-size frame. */
  const Pixels := Width * Height

  /** `__calculate_diff_region` AS WRITTEN, at the panel's native size (the
      only size `display` passes, as it resizes first): full panel without a
      previous frame of the same length, None when nothing changed, else the
      box widened to 8-pixel columns (x2 = min(width, 8 * ceil(max_x / 8)))
      and by 2 rows. This is the region the driver below sends; it may have
      no columns at all. */
  function DiffRegionAsWritten(last: Option<seq<byte>>, cur: seq<byte>): (r: Option<Region>)
    requires |cur| == 2 * Pixels
    ensures r.Some? ==> 0 <= r.value.x1 <= r.value.x2 <= Width && 0 <= r.value.y1 < r.value.y2 <= Height
    ensures r.Some? ==> r.value.x1 % 8 == 0 && r.value.x2 % 8 == 0
  {
    if last.None? || |last.value| != |cur| then Some(Region(0, Width, 0, Height))
    else
      match BoxOf(last.value, cur, Width, Pixels)
      case None => None
      case Some(b) =>
        BoxInPanel(last.value, cur);
        Some(Region(Max(0, (b.minX / 8) * 8), Min(Width, ((b.maxX + 7) / 8) * 8),
                    Max(0, b.minY - 2), Min(Height, b.maxY + 2)))
  }

  /** The region as evidently intended: x2 rounds the column after max_x up to
      a multiple of 8 (`((max_x + 8) // 8) * 8`), so the rectangle covers every
      changed pixel. */
  function DiffRegion(last: Option<seq<byte>>, cur: seq<byte>): (r: Option<Region>)
    requires |cur| == 2 * Pixels
    ensures r.Some? ==> 0 <= r.value.x1 < r.value.x2 <= Width && 0 <= r.value.y1 < r.value.y2 <= Height
    ensures r.Some? ==> r.value.x1 % 8 == 0 && r.value.x2 % 8 == 0
  {
    if last.None? || |last.value| != |cur| then Some(Region(0, Width, 0, Height))
    else
      match BoxOf(last.value, cur, Width, Pixels)
      case None => None
      case Some(b) =>
        BoxInPanel(last.value, cur);
        Some(Region(Max(0, (b.minX / 8) * 8), Min(Width, (b.maxX / 8 + 1) * 8),
                    Max(0, b.minY - 2), Min(Height, b.maxY + 2)))
  }

  /** Every box coordinate is a pixel of the panel. */
  lemma BoxInPanel(last: seq<byte>, cur: seq<byte>)
    requires |cur| == 2 * Pixels && |last| == |cur|
    ensures BoxOf(last, cur, Width, Pixels).Some? ==>
      var b := BoxOf(last, cur, Width, Pixels).value;
      0 <= b.minX <= b.maxX < Width && 0 <= b.minY <= b.maxY < Height
  {
    if BoxOf(last, cur, Width, Pixels).Some? {
      var b := BoxOf(last, cur, Width, Pixels).value;
      BoxOfTight(last, cur, Width, Pixels);
      var i :| 0 <= i < Pixels && Differs(last, cur, i) && i / Width == b.maxY;
    }
  }

  /** Two frames of the same length have equal words everywhere iff they are
      equal. */
  lemma NoDifferenceMeansEqual(last: seq<byte>, cur: seq<byte>, n: nat)
    requires |last| == |cur| == 2 * n
    ensures (forall i | 0 <= i < n :: !Differs(last, cur, i)) <==> last == cur
  {
    if forall i | 0 <= i < n :: !Differs(last, cur, i) {
      forall k | 0 <= k < 2 * n ensures last[k] == cur[k] {
        assert !Differs(last, cur, k / 2);
      }
    }
  }

  /** Without a previous frame, or after a resolution change, the whole panel
      is refreshed; a frame identical to the previous one yields no region. */
  lemma DiffRegionResetAndSkip(last: Option<seq<byte>>, cur: seq<byte>)
    requires |cur| == 2 * Pixels
    ensures last.None? || |last.value| != |cur| ==> DiffRegion(last, cur) == Some(Region(0, Width, 0, Height))
    ensures last.Some? && |last.value| == |cur| ==> (DiffRegion(last, cur).None? <==> last.value == cur)
  {
    if last.Some? && |last.value| == |cur| {
      NoDifferenceMeansEqual(last.value, cur, Pixels);
      BoxOfNone(last.value, cur, Width, Pixels);
    }
  }

  /** The region as written and the intended one exist for the same frames
      and differ at most in their right edge, which as written is never
      further right; they agree on a reset and whenever the rightmost changed
      column is not a multiple of 8. */
  lemma AsWrittenWithinIntended(last: Option<seq<byte>>, cur: seq<byte>)
    requires |cur| == 2 * Pixels
    ensures DiffRegionAsWritten(last, cur).Some? <==> DiffRegion(last, cur).Some?
    ensures DiffRegion(last, cur).Some? ==>
      var w, r := DiffRegionAsWritten(last, cur).value, DiffRegion(last, cur).value;
      w.x1 == r.x1 && w.y1 == r.y1 && w.y2 == r.y2 && w.x2 <= r.x2
    ensures last.None? || |last.value| != |cur| ==> DiffRegionAsWritten(last, cur) == DiffRegion(last, cur)
    ensures last.Some? && |last.value| == |cur| && BoxOf(last.value, cur, Width, Pixels).Some?
         && BoxOf(last.value, cur, Width, Pixels).value.maxX % 8 != 0
         ==> DiffRegionAsWritten(last, cur) == DiffRegion(last, cur)
  {
    if last.Some? && |last.value| == |cur| && BoxOf(last.value, cur, Width, Pixels).Some? {
      var m := BoxOf(last.value, cur, Width, Pixels).value.maxX;
      if m % 8 != 0 {
        assert (m + 7) / 8 == m / 8 + 1;
      }
    }
  }

  /** The intended region contains every changed pixel. */
  lemma DiffRegionCovers(last: seq<byte>, cur: seq<byte>, i: int)
    requires |cur| == 2 * Pixels && |last| == |cur|
    requires 0 <= i < Pixels && Differs(last, cur, i)
    ensures DiffRegion(Some(last), cur).Some?
    ensures var r := DiffRegion(Some(last), cur).value;
      r.x1 <= i % Width < r.x2 && r.y1 <= i / Width < r.y2
  {
    BoxOfCovers(last, cur, Width, Pixels, i);
    BoxInPanel(last, cur);
  }

  /** The intended region is no larger than the alignment and the margin
      demand: a changed pixel lies in its first and in its last 8-pixel column
      block, one within its top three rows and one within its bottom two. */
  lemma DiffRegionTight(last: seq<byte>, cur: seq<byte>)
    requires |cur| == 2 * Pixels && |last| == |cur|
    requires DiffRegion(Some(last), cur).Some?
    ensures var r := DiffRegion(Some(last), cur).value;
      && (exists i | 0 <= i < Pixels && Differs(last, cur, i) :: r.x1 <= i % Width < r.x1 + 8)
      && (exists i | 0 <= i < Pixels && Differs(last, cur, i) :: r.x2 - 8 <= i % Width < r.x2)
      && (exists i | 0 <= i < Pixels && Differs(last, cur, i) :: r.y1 <= i / Width <= r.y1 + 2)
      && (exists i | 0 <= i < Pixels && Differs(last, cur, i) :: r.y2 - 2 <= i / Width < r.y2)
  {
    BoxInPanel(last, cur);
    BoxOfTight(last, cur, Width, Pixels);
  }

  /** One changed pixel at (x, y): the region is the 8-pixel column block of
      x and rows y-2 .. y+1, clamped to the panel (a change at (100, 50)
      refreshes [96, 104) x [48, 52)). */
  lemma SinglePixelRegion(last: seq<byte>, cur: seq<byte>, x: int, y: int)
    requires |cur| == 2 * Pixels && |last| == |cur|
    requires 0 <= x < Width && 0 <= y < Height
    requires forall i | 0 <= i < Pixels :: Differs(last, cur, i) <==> i == y * Width + x
    ensures DiffRegion(Some(last), cur)
         == Some(Region((x / 8) * 8, (x / 8 + 1) * 8, Max(0, y - 2), Min(Height, y + 2)))
  {
    SingleBox(last, cur, x, y);
  }

  lemma SingleBox(last: seq<byte>, cur: seq<byte>, x: int, y: int)
    requires |cur| == 2 * Pixels && |last| == |cur|
    requires 0 <= x < Width && 0 <= y < Height
    requires forall i | 0 <= i < Pixels :: Differs(last, cur, i) <==> i == y * Width + x
    ensures BoxOf(last, cur, Width, Pixels) == Some(Box(x, x, y, y))
  {
    var idx := y * Width + x;
    assert idx % Width == x && idx / Width == y;
    assert Differs(last, cur, idx);
    BoxOfCovers(last, cur, Width, Pixels, idx);
    BoxOfTight(last, cur, Width, Pixels);
    var b := BoxOf(last, cur, Width, Pixels).value;
    var i1 :| 0 <= i1 < Pixels && Differs(last, cur, i1) && i1 % Width == b.minX;
    var i2 :| 0 <= i2 < Pixels && Differs(last, cur, i2) && i2 % Width == b.maxX;
    var i3 :| 0 <= i3 < Pixels && Differs(last, cur, i3) && i3 / Width == b.minY;
    var i4 :| 0 <= i4 < Pixels && Differs(last, cur, i4) && i4 / Width == b.maxY;
  }

  /** The defect of the code as written: when the right-most changed column
      max_x is a multiple of 8, x2 = max_x, so that column is outside the region
      even though a pixel in it changed. */
  lemma AsWrittenMissesAlignedColumn(last: seq<byte>, cur: seq<byte>)
    requires |cur| == 2 * Pixels && |last| == |cur|
    requires BoxOf(last, cur, Width, Pixels).Some?
    requires BoxOf(last, cur, Width, Pixels).value.maxX % 8 == 0
    ensures DiffRegionAsWritten(Some(last), cur).Some?
    ensures exists i | 0 <= i < Pixels && Differs(last, cur, i) ::
      i % Width >= DiffRegionAsWritten(Some(last), cur).value.x2
  {
    var b := BoxOf(last, cur, Width, Pixels).value;
    assert ((b.maxX + 7) / 8) * 8 == b.maxX;
    BoxOfTight(last, cur, Width, Pixels);
    var i :| 0 <= i < Pixels && Differs(last, cur, i) && i % Width == b.maxX;
  }

  /** The concrete failure: one changed pixel at (8, y) gives the zero-width
      region [8, 8), so the header announces no column and no pixel is sent. */
  lemma AsWrittenSinglePixelAtColumn8(last: seq<byte>, cur: seq<byte>, y: int)
    requires |cur| == 2 * Pixels && |last| == |cur|
    requires 0 <= y < Height
    requires forall i | 0 <= i < Pixels :: Differs(last, cur, i) <==> i == y * Width + 8
    ensures DiffRegionAsWritten(Some(last), cur).Some?
    ensures DiffRegionAsWritten(Some(last), cur).value.x1 == 8
    ensures DiffRegionAsWritten(Some(last), cur).value.x2 == 8
  {
    SingleBox(last, cur, 8, y);
  }

  // ---------------------------------------------------------------------------
  // Region bytes

  /** Bytes per frame row. */
  const RowBytes := Width * BytesPerPixel

  /** Bytes of row y, columns [x1, x2), of a native-size frame. */
  function Row(data: seq<byte>, x1: int, x2: int, y: int): (row: seq<byte>)
    requires 0 <= x1 <= x2 <= Width && 0 <= y < Height && |data| == 2 * Pixels
    ensures |row| == (x2 - x1) * 2
  {
    data[y * RowBytes + x1 * 2 .. y * RowBytes + x2 * 2]
  }

  /** a * n written as repeated addition, so that the row-by-row proofs below
      step by one row without nonlinear arithmetic. */
  function Times(a: nat, n: nat): nat {
    if n == 0 then 0 else Times(a, n - 1) + a
  }

  lemma {:induction false} TimesIsMul(a: nat, n: nat)
    ensures Times(a, n) == a * n
  {
    if n > 0 {
      TimesIsMul(a, n - 1);
    }
  }

  lemma {:induction false} TimesMonotone(a: nat, k: nat, n: nat)
    requires k <= n
    ensures Times(a, k) <= Times(a, n)
    decreases n
  {
    if k < n {
      TimesMonotone(a, k, n - 1);
    }
  }

  /** Rows y1 .. y2-1 of the rectangle, one after the other. */
  function RegionBytes(data: seq<byte>, x1: int, x2: int, y1: int, y2: int): (r: seq<byte>)
    requires 0 <= x1 <= x2 <= Width && 0 <= y1 <= y2 <= Height && |data| == 2 * Pixels
    ensures |r| == Times((x2 - x1) * 2, y2 - y1)
    decreases y2 - y1
  {
    if y1 == y2 then [] else RegionBytes(data, x1, x2, y1, y2 - 1) + Row(data, x1, x2, y2 - 1)
  }

  /** Row k of the region bytes, at offset rb * k with rb = (x2 - x1) * 2
      bytes per region row, is row y1 + k of the frame. */
  lemma {:induction false} RegionBytesRow(data: seq<byte>, x1: int, x2: int, y1: int, y2: int, k: int)
    requires 0 <= x1 <= x2 <= Width && 0 <= y1 <= y2 <= Height && |data| == 2 * Pixels
    requires 0 <= k < y2 - y1
    ensures Times((x2 - x1) * 2, k + 1) <= |RegionBytes(data, x1, x2, y1, y2)|
    ensures RegionBytes(data, x1, x2, y1, y2)[Times((x2 - x1) * 2, k) .. Times((x2 - x1) * 2, k + 1)]
         == Row(data, x1, x2, y1 + k)
    decreases y2 - y1
  {
    var rb := (x2 - x1) * 2;
    var prefix := RegionBytes(data, x1, x2, y1, y2 - 1);
    var row := Row(data, x1, x2, y2 - 1);
    var full := RegionBytes(data, x1, x2, y1, y2);
    assert full == prefix + row;
    TimesMonotone(rb, k + 1, y2 - y1);
    if k < y2 - y1 - 1 {
      RegionBytesRow(data, x1, x2, y1, y2 - 1, k);
      TimesMonotone(rb, k + 1, y2 - 1 - y1);
      SliceOfPrefix(prefix, row, Times(rb, k), Times(rb, k + 1));
      assert full[Times(rb, k)..Times(rb, k + 1)] == prefix[Times(rb, k)..Times(rb, k + 1)];
    } else {
      assert y1 + k == y2 - 1;
      assert |prefix| == Times(rb, k) && Times(rb, k + 1) == |prefix| + |row|;
      assert full[|prefix|..|prefix| + |row|] == row;
    }
  }

  lemma SliceOfPrefix(p: seq<byte>, q: seq<byte>, i: int, j: int)
    requires 0 <= i <= j <= |p|
    ensures (p + q)[i..j] == p[i..j]
  {
  }

  /** The region holds (x2 - x1) * 2 bytes for each of its y2 - y1 rows. */
  lemma RegionBytesLength(data: seq<byte>, x1: int, x2: int, y1: int, y2: int)
    requires 0 <= x1 <= x2 <= Width && 0 <= y1 <= y2 <= Height && |data| == 2 * Pixels
    ensures |RegionBytes(data, x1, x2, y1, y2)| == (x2 - x1) * BytesPerPixel * (y2 - y1)
  {
    TimesIsMul((x2 - x1) * 2, y2 - y1);
  }

  /** The full-width rows 0 .. y-1 are the first y rows of the frame; for
      the whole panel the region bytes are the frame itself. */
  lemma {:induction false} FullRowsArePrefix(data: seq<byte>, y: int)
    requires 0 <= y <= Height && |data| == 2 * Pixels
    ensures RegionBytes(data, 0, Width, 0, y) == data[..y * RowBytes]
  {
    if y > 0 {
      FullRowsArePrefix(data, y - 1);
      assert data[..y * RowBytes] == data[..(y - 1) * RowBytes] + data[(y - 1) * RowBytes .. y * RowBytes];
    }
  }

  lemma WholeFrameRegion(data: seq<byte>)
    requires |data| == 2 * Pixels
    ensures RegionBytes(data, 0, Width, 0, Height) == data
  {
    FullRowsArePrefix(data, Height);
    assert Height * RowBytes == |data|;
  }

  /** One iteration of the row copy: the buffer's prefix grows by row y. */
  lemma RowStep(buf: seq<byte>, data: seq<byte>, x1: int, x2: int, y1: int, y: int, off: int)
    requires 0 <= x1 <= x2 <= Width && 0 <= y1 <= y < Height && |data| == 2 * Pixels
    requires 0 <= off && off + (x2 - x1) * 2 <= |buf|
    requires buf[..off] == RegionBytes(data, x1, x2, y1, y)
    requires buf[off..off + (x2 - x1) * 2] == Row(data, x1, x2, y)
    ensures buf[..off + (x2 - x1) * 2] == RegionBytes(data, x1, x2, y1, y + 1)
  {
    var rb := (x2 - x1) * 2;
    assert buf[..off + rb] == buf[..off] + buf[off..off + rb];
  }

  /** The slice assignment `buffer[off:off + len(row)] = row`. */
  method CopyRow(buffer: array<byte>, off: int, row: seq<byte>)
    requires 0 <= off && off + |row| <= buffer.Length
    modifies buffer
    ensures buffer[..off] == old(buffer[..off])
    ensures buffer[off..off + |row|] == row
    ensures buffer[off + |row|..] == old(buffer[off + |row|..])
  {
    forall j | 0 <= j < |row| {
      buffer[off + j] := row[j];
    }
    assert buffer[off..off + |row|] == row by {
      forall j | 0 <= j < |row| ensures buffer[off..off + |row|][j] == row[j] {
        assert buffer[off + j] == row[j];
      }
    }
  }

  /** `__get_region_data`: fills a buffer of (x2-x1)*2*(y2-y1) bytes row by
      row with the slices of the frame. */
  method GetRegionData(data: seq<byte>, x1: int, x2: int, y1: int, y2: int) returns (region: seq<byte>)
    requires 0 <= x1 <= x2 <= Width && 0 <= y1 <= y2 <= Height && |data| == 2 * Pixels
    ensures region == RegionBytes(data, x1, x2, y1, y2)
  {
    var regionWidth := x2 - x1;
    var requiredBytes := regionWidth * BytesPerPixel;
    TimesIsMul(requiredBytes, y2 - y1);
    var buffer := new byte[requiredBytes * (y2 - y1)];
    var y := y1;
    var off := 0;
    while y < y2
      invariant y1 <= y <= y2
      invariant off == Times(requiredBytes, y - y1)
      invariant buffer.Length == Times(requiredBytes, y2 - y1)
      invariant off <= buffer.Length
      invariant buffer[..off] == RegionBytes(data, x1, x2, y1, y)
    {
      TimesMonotone(requiredBytes, y + 1 - y1, y2 - y1);
      var row := Row(data, x1, x2, y);
      CopyRow(buffer, off, row);
      RowStep(buffer[..], data, x1, x2, y1, y, off);
      y := y + 1;
      off := off + requiredBytes;
    }
    region := buffer[..];
  }

  // ---------------------------------------------------------------------------
  // Brightness

  /** `max(0, min(b, 100))` mapped linearly onto 0..255 (`int(b / 100 * 255)`,
      which for whole percentages equals the floor of b * 255 / 100). */
  function BrightnessLevel(b: int): (level: int)
    ensures 0 <= level <= 255
    ensures b <= 0 ==> level == 0
    ensures b >= 100 ==> level == 255
    ensures 0 <= b <= 100 ==> level * 100 <= b * 255 < level * 100 + 100
  {
    var clamped := Max(0, Min(b, 100));
    clamped * 255 / 100
  }

  /** The mapping never decreases as the requested brightness grows. */
  lemma BrightnessMonotone(a: int, b: int)
    requires a <= b
    ensures BrightnessLevel(a) <= BrightnessLevel(b)
  {
    var ca, cb := Max(0, Min(a, 100)), Max(0, Min(b, 100));
    assert ca * 255 <= cb * 255;
  }

  // ---------------------------------------------------------------------------
  // The driver object

  /** `self.port`: no port object, or a serial port that is open or not. */
  /** The driver's `port`: none, or a serial port that is open or closed.
      `room` counts the further reads and writes that complete; after that
      they raise while `is_open` still holds (an adapter pulled out mid-use). */
  datatype Port = NoPort | Serial(isOpen: bool, room: nat)

  /** The reads and writes the port will still complete: none unless open. */
  function Room(p: Port): nat {
    if p.Serial? && p.isOpen then p.room else 0
  }

  /** The port after `n` more completed transfers. */
  function Drain(p: Port, n: nat): (q: Port)
    requires n <= Room(p)
    ensures Room(q) == Room(p) - n
    ensures q.Serial? == p.Serial? && (q.Serial? ==> q.isOpen == p.isOpen)
  {
    if n == 0 then p else p.(room := p.room - n)
  }

  /** What `open()` finds: no port with the panel's serial number, a port that
      opens (and completes `room` transfers), or a port whose opening raises
      (the driver then forgets the port). */
  datatype OpenOutcome = NotFound | Opened(room: nat) | OpenFailed

  function ClearCommand(): (c: seq<byte>)
    ensures |c| == 10 && c[0] == 0xFF && c[1] == 0xFF && c[8] == CmdClear && c[9] == 0xFF
  {
    Command(CmdClear, 0xFF, 0xFFFF, 0, 0, 0)
  }

  /** The display command for a region: inclusive end coordinates. */
  function DisplayCommand(r: Region): seq<byte> {
    Command(CmdDisplay, 0, r.x1, r.x2 - 1, r.y1, r.y2 - 1)
  }

  class QdtechPanel {
    var port: Port
    /** `last_img_data`: the encoded frame sent last, None after clear/close. */
    var lastImgData: Option<seq<byte>>
    /** Every byte block handed to the port, in order. */
    var written: seq<seq<byte>>

    constructor ()
      ensures port == NoPort && lastImgData == None && written == []
    {
      port := NoPort;
      lastImgData := None;
      written := [];
    }

    predicate IsOpen()
      reads this`port
    {
      port.Serial? && port.isOpen
    }

    method Open(outcome: OpenOutcome)
      modifies this`port
      ensures outcome == NotFound ==> port == old(port)
      ensures outcome.Opened? ==> port == Serial(true, outcome.room)
      ensures outcome == OpenFailed ==> port == NoPort
    {
      match outcome
      case NotFound =>
      case Opened(room) => port := Serial(true, room);
      case OpenFailed => port := NoPort;
    }

    /** `write`: raises on a closed port instead of reopening it, and on an
        open port that no longer completes transfers; a raised write hands
        nothing to the log. */
    method Write(buf: seq<byte>) returns (ok: bool)
      modifies this`written, this`port
      ensures ok == (Room(old(port)) > 0)
      ensures written == old(written) + if ok then [buf] else []
      ensures port == if ok then Drain(old(port), 1) else old(port)
    {
      ok := Room(port) > 0;
      if ok {
        written := written + [buf];
        port := Drain(port, 1);
      }
    }

    /** `read`: only an open port that still completes transfers delivers
        anything (a missing port raises, and a closed one calls a reopening
        helper the class does not define). The bytes waiting on the line are a
        parameter; the port returns at most `length` of them. */
    method Read(length: nat, waiting: seq<byte>) returns (ok: bool, data: seq<byte>)
      modifies this`port
      ensures ok == (Room(old(port)) > 0)
      ensures port == if ok then Drain(old(port), 1) else old(port)
      ensures ok ==> data == waiting[..Min(length, |waiting|)]
      ensures !ok ==> data == []
    {
      ok := Room(port) > 0;
      if ok {
        port := Drain(port, 1);
        data := waiting[..Min(length, |waiting|)];
      } else {
        data := [];
      }
    }

    /** `handshake`: command 200 with data 3, then a 16-byte answer (the
        device id). The command may be sent and the read then raise. */
    method Handshake(waiting: seq<byte>) returns (ok: bool, response: seq<byte>)
      modifies this`written, this`port
      ensures ok == (Room(old(port)) >= 2)
      ensures written == old(written) + if Room(old(port)) >= 1 then [Command(CmdHandshake, 3, 0, 0, 0, 0)] else []
      ensures port == Drain(old(port), Min(Room(old(port)), 2))
      ensures ok ==> response == waiting[..Min(16, |waiting|)]
    {
      ok := Write(Command(CmdHandshake, 3, 0, 0, 0, 0));
      if ok {
        ok, response := Read(16, waiting);
      } else {
        response := [];
      }
    }

    /** `display`: sends the header and the bytes of the changed region as
        the code computes it (possibly a header with x_end = x1 - 1 and no
        bytes, see `AsWrittenSinglePixelAtColumn8`), or nothing when the
        frame is unchanged. A port that stops part-way may take the header
        and refuse the bytes. The frame becomes the previous frame unless a
        write raised. */
    method Display(img: PC.Image) returns (ok: bool)
      requires PC.WellFormed(img) && img.width == Width && img.height == Height
      modifies this`written, this`lastImgData, this`port
      ensures var cur := PC.Encode(img);
        var region := DiffRegionAsWritten(old(lastImgData), cur);
        var room := Room(old(port));
        && (region.None? ==> ok && written == old(written) && port == old(port))
        && (region.Some? ==>
              && ok == (room >= 2)
              && written == old(written)
                   + (if room >= 1 then [DisplayCommand(region.value)] else [])
                   + (if room >= 2
                      then [RegionBytes(cur, region.value.x1, region.value.x2, region.value.y1, region.value.y2)]
                      else [])
              && port == Drain(old(port), Min(room, 2)))
        && lastImgData == if ok then Some(cur) else old(lastImgData)
    {
      var cur := PC.Encode(img);
      var region := DiffRegionAsWritten(lastImgData, cur);
      ghost var room := Room(port);
      ok := true;
      if region.Some? {
        var r := region.value;
        var bytes := GetRegionData(cur, r.x1, r.x2, r.y1, r.y2);
        ok := Write(DisplayCommand(r));
        if !ok {
          assert room == 0;
          return;
        }
        ok := Write(bytes);
        if !ok {
          assert room == 1;
          return;
        }
        assert room >= 2;
      }
      lastImgData := Some(cur);
    }

    /** `clear`: the fill command with the 0xFFFF address sentinel; forgets the
        previous frame, so the next display refreshes the whole panel. */
    method Clear() returns (ok: bool)
      modifies this`written, this`lastImgData, this`port
      ensures ok == (Room(old(port)) > 0)
      ensures written == old(written) + if ok then [ClearCommand()] else []
      ensures port == if ok then Drain(old(port), 1) else old(port)
      ensures lastImgData == if ok then None else old(lastImgData)
    {
      ok := Write(ClearCommand());
      if ok {
        lastImgData := None;
      }
    }

    /** `close`: clears the panel when it can (errors are swallowed), always
        drops the port and the previous frame. */
    method Close()
      modifies this
      ensures port == NoPort && lastImgData == None
      ensures written == old(written) + if Room(old(port)) > 0 then [ClearCommand()] else []
    {
      if port.Serial? {
        var _ := Clear();
        port := NoPort;
      }
      lastImgData := None;
    }

    /** `set_brightness`: command 110 with the level mapped onto 0..255. */
    method SetBrightness(b: int) returns (ok: bool)
      modifies this`written, this`port
      ensures ok == (Room(old(port)) > 0)
      ensures written == old(written) + if ok then [Command(CmdBrightness, BrightnessLevel(b), 0, 0, 0, 0)] else []
      ensures port == if ok then Drain(old(port), 1) else old(port)
    {
      var level := BrightnessLevel(b);
      ok := Write(Command(CmdBrightness, level, 0, 0, 0, 0));
    }
  }

  /** Two identical consecutive frames on an open panel: the first is sent in
      full (one header and the whole frame), the second sends nothing. */
  method StaticSceneSendsOnce(img: PC.Image) returns (panel: QdtechPanel)
    requires PC.WellFormed(img) && img.width == Width && img.height == Height
    ensures |panel.written| == 2
    ensures panel.written[0] == DisplayCommand(Region(0, Width, 0, Height))
    ensures panel.written[1] == PC.Encode(img)
  {
    panel := new QdtechPanel();
    panel.Open(Opened(2));
    var ok1 := panel.Display(img);
    WholeFrameRegion(PC.Encode(img));
    DiffRegionResetAndSkip(Some(PC.Encode(img)), PC.Encode(img));
    AsWrittenWithinIntended(Some(PC.Encode(img)), PC.Encode(img));
    var ok2 := panel.Display(img);
  }

  /** A port that completes one more transfer and then fails, while still
      reporting open: the first frame's header goes out, its bytes raise, and
      the frame is not remembered, so the next display refreshes the whole
      panel again. */
  method UnpluggedMidFrame(img: PC.Image) returns (panel: QdtechPanel, ok: bool)
    requires PC.WellFormed(img) && img.width == Width && img.height == Height
    ensures !ok && panel.IsOpen()
    ensures panel.written == [DisplayCommand(Region(0, Width, 0, Height))]
    ensures panel.lastImgData == None
  {
    panel := new QdtechPanel();
    panel.Open(Opened(1));
    ok := panel.Display(img);
  }
}
