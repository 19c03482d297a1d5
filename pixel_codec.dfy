/** RGB565 pixel codec of `libs/lcds/_base.py` (`image2rgb565_le`): every RGB
    pixel is quantized to 5/6/5 bits, packed into a 16-bit word, and the word's
    two bytes are emitted high byte first (the source byte-swaps a little-endian
    array, so despite the `_le` name the wire order is big-endian). */
module PixelCodec {
  import opened Common

  /** One pixel of an RGB image, each channel 0..255. */
  datatype Pixel = Pixel(r: byte, g: byte, b: byte)

  /** A bitmap already at the panel's native size, row-major: pixel (x, y) is
      `pixels[y * width + x]`. */
  datatype Image = Image(width: nat, height: nat, pixels: seq<Pixel>)

  predicate WellFormed(img: Image) {
    |img.pixels| == img.width * img.height
  }

  const White := Pixel(255, 255, 255)
  const Black := Pixel(0, 0, 0)

  /** A pixel after quantization to the panel's 5/6/5-bit channels. */
  datatype Quantized = Quantized(r5: int, g6: int, b5: int)

  function Quantize(p: Pixel): (q: Quantized)
    ensures 0 <= q.r5 < 32 && 0 <= q.g6 < 64 && 0 <= q.b5 < 32
    ensures q.r5 * 8 <= p.r < q.r5 * 8 + 8
    ensures q.g6 * 4 <= p.g < q.g6 * 4 + 4
    ensures q.b5 * 8 <= p.b < q.b5 * 8 + 8
  {
    Quantized(p.r / 8, p.g / 4, p.b / 8)
  }

  /** The packed word `(r >> 3) << 11 | (g >> 2) << 5 | (b >> 3)`. A left
      shift by k is a product with 2^k, a right shift a floor division by 2^k,
      and the three fields occupy disjoint bits (11-15, 5-10, 0-4), so their OR
      is their sum; none of the shifts overflows 16 bits. */
  function Word(p: Pixel): (w: int)
    ensures 0 <= w < 65536
    ensures w / 2048 == p.r / 8 && (w / 32) % 64 == p.g / 4 && w % 32 == p.b / 8
  {
    WordFields(p.r / 8, p.g / 4, p.b / 8);
    (p.r / 8) * 2048 + (p.g / 4) * 32 + p.b / 8
  }

  lemma WordFields(r5: int, g6: int, b5: int)
    requires 0 <= r5 < 32 && 0 <= g6 < 64 && 0 <= b5 < 32
    ensures var w := r5 * 2048 + g6 * 32 + b5;
      && 0 <= w < 65536 && w / 2048 == r5 && (w / 32) % 64 == g6 && w % 32 == b5
  {
    var w := r5 * 2048 + g6 * 32 + b5;
    assert 0 <= g6 * 32 + b5 < 2048;
    DivModUnique(w, 2048, r5, g6 * 32 + b5);
    DivModUnique(w, 32, r5 * 64 + g6, b5);
    DivModUnique(r5 * 64 + g6, 64, r5, g6);
  }

  /** The two bytes of a word after the byte swap: high byte first. */
  function HighByte(w: int): byte
    requires 0 <= w < 65536
  {
    w / 256
  }

  function LowByte(w: int): byte
    requires 0 <= w < 65536
  {
    w % 256
  }

  /** The encoded frame: two bytes per pixel, pixel i at bytes 2i and 2i+1,
      high byte first. */
  function Encode(img: Image): (out: seq<byte>)
    requires WellFormed(img)
    ensures |out| == 2 * |img.pixels|
  {
    var px := img.pixels;
    seq(2 * |px|, k requires 0 <= k < 2 * |px| =>
      if k % 2 == 0 then HighByte(Word(px[k / 2])) else LowByte(Word(px[k / 2])))
  }

  /** Each pixel's two bytes, read as a big-endian number, are its packed word. */
  lemma EncodeAt(img: Image, i: int)
    requires WellFormed(img) && 0 <= i < |img.pixels|
    ensures 2 * i + 1 < |Encode(img)|
    ensures Encode(img)[2 * i] as int * 256 + Encode(img)[2 * i + 1] == Word(img.pixels[i])
    ensures Encode(img)[2 * i] == Word(img.pixels[i]) / 256
    ensures Encode(img)[2 * i + 1] == Word(img.pixels[i]) % 256
  {
    var out := Encode(img);
    assert (2 * i) / 2 == i && (2 * i + 1) / 2 == i;
    assert out[2 * i] == HighByte(Word(img.pixels[i]));
    assert out[2 * i + 1] == LowByte(Word(img.pixels[i]));
  }

  /** Reverses the bit packing of one byte pair (high byte first). */
  function DecodePair(hi: byte, lo: byte): Quantized {
    Quantized(hi / 8, (hi % 8) * 8 + lo / 32, lo % 32)
  }

  /** Decoding a pixel's two bytes gives back exactly its quantized channels. */
  lemma PixelRoundTrip(p: Pixel)
    ensures DecodePair(HighByte(Word(p)), LowByte(Word(p))) == Quantize(p)
  {
    var q := Quantize(p);
    var w := Word(p);
    var hi, lo := HighByte(w), LowByte(w);
    assert w == 256 * (q.r5 * 8 + q.g6 / 8) + ((q.g6 % 8) * 32 + q.b5);
    DivModUnique(w, 256, q.r5 * 8 + q.g6 / 8, (q.g6 % 8) * 32 + q.b5);
    assert hi == q.r5 * 8 + q.g6 / 8;
    assert lo == (q.g6 % 8) * 32 + q.b5;
    DivModUnique(hi, 8, q.r5, q.g6 / 8);
    DivModUnique(lo, 32, q.g6 % 8, q.b5);
  }

  /** Decodes a whole frame, one quantized pixel per byte pair. */
  function DecodeFrame(bytes: seq<byte>): (px: seq<Quantized>)
    requires |bytes| % 2 == 0
    ensures |px| == |bytes| / 2
  {
    seq(|bytes| / 2, i requires 0 <= i < |bytes| / 2 => DecodePair(bytes[2 * i], bytes[2 * i + 1]))
  }

  lemma DecodeFrameAt(bytes: seq<byte>, i: int)
    requires |bytes| % 2 == 0 && 0 <= i < |bytes| / 2
    ensures 2 * i + 1 < |bytes|
    ensures DecodeFrame(bytes)[i] == DecodePair(bytes[2 * i], bytes[2 * i + 1])
  {
  }

  /** Decoding the encoded frame recovers every pixel's quantized channels. */
  lemma FrameRoundTrip(img: Image)
    requires WellFormed(img)
    ensures DecodeFrame(Encode(img)) == seq(|img.pixels|, i requires 0 <= i < |img.pixels| => Quantize(img.pixels[i]))
  {
    var out := Encode(img);
    assert |out| % 2 == 0 && |out| / 2 == |img.pixels|;
    var dec := DecodeFrame(out);
    var want := seq(|img.pixels|, i requires 0 <= i < |img.pixels| => Quantize(img.pixels[i]));
    forall i | 0 <= i < |img.pixels|
      ensures dec[i] == want[i]
    {
      var p := img.pixels[i];
      EncodeAt(img, i);
      DecodeFrameAt(out, i);
      assert out[2 * i] == HighByte(Word(p)) && out[2 * i + 1] == LowByte(Word(p));
      PixelRoundTrip(p);
    }
    assert dec == want;
  }

  /** White encodes to FF FF and black to 00 00. */
  lemma WhiteAndBlack()
    ensures HighByte(Word(White)) == 0xFF && LowByte(Word(White)) == 0xFF
    ensures HighByte(Word(Black)) == 0 && LowByte(Word(Black)) == 0
  {
  }

  /** An image whose pixels are all white encodes to all-0xFF bytes. */
  lemma AllWhite(img: Image)
    requires WellFormed(img)
    requires forall i | 0 <= i < |img.pixels| :: img.pixels[i] == White
    ensures forall k | 0 <= k < |Encode(img)| :: Encode(img)[k] == 0xFF
  {
    WhiteAndBlack();
  }

  /** Replacing one pixel changes the encoded frame only at that pixel's two
      bytes, which become the new pixel's bytes. */
  lemma PixelLocal(img: Image, i: int, p: Pixel)
    requires WellFormed(img) && 0 <= i < |img.pixels|
    ensures WellFormed(img.(pixels := img.pixels[i := p]))
    ensures Encode(img.(pixels := img.pixels[i := p]))
         == Encode(img)[2 * i := HighByte(Word(p))][2 * i + 1 := LowByte(Word(p))]
  {
    var img' := img.(pixels := img.pixels[i := p]);
    var a, b := Encode(img'), Encode(img)[2 * i := HighByte(Word(p))][2 * i + 1 := LowByte(Word(p))];
    assert |a| == |b|;
    forall k | 0 <= k < |a| ensures a[k] == b[k] {
      if k / 2 != i {
        assert img'.pixels[k / 2] == img.pixels[k / 2];
      }
    }
  }
}

/** The verbatim duplicate of the codec in `libs/lcds/base.py`, which the
    mass-storage driver imports. Modelled pixel by pixel (a frame is the first
    pixel's two bytes followed by the rest of the frame) and proved to agree with
    `PixelCodec.Encode` on every image. */
module PixelCodecBase {
  import opened Common
  import PC = PixelCodec

  function EncodePixels(px: seq<PC.Pixel>): (out: seq<byte>)
    ensures |out| == 2 * |px|
  {
    if px == [] then []
    else [PC.HighByte(PC.Word(px[0])), PC.LowByte(PC.Word(px[0]))] + EncodePixels(px[1..])
  }

  function Encode(img: PC.Image): (out: seq<byte>)
    requires PC.WellFormed(img)
    ensures |out| == 2 * |img.pixels|
  {
    EncodePixels(img.pixels)
  }

  /** Byte k of the frame is the high (k even) or low (k odd) byte of pixel k/2. */
  lemma {:induction false} EncodePixelsAt(px: seq<PC.Pixel>, k: int)
    requires 0 <= k < 2 * |px|
    ensures EncodePixels(px)[k]
         == if k % 2 == 0 then PC.HighByte(PC.Word(px[k / 2])) else PC.LowByte(PC.Word(px[k / 2]))
  {
    if k >= 2 {
      EncodePixelsAt(px[1..], k - 2);
      assert px[1..][(k - 2) / 2] == px[k / 2];
    }
  }

  /** `base.image2rgb565_le` and `_base.image2rgb565_le` agree on every image. */
  lemma SameAsUnderscoreBase(img: PC.Image)
    requires PC.WellFormed(img)
    ensures Encode(img) == PC.Encode(img)
  {
    forall k | 0 <= k < 2 * |img.pixels|
      ensures Encode(img)[k] == PC.Encode(img)[k]
    {
      EncodePixelsAt(img.pixels, k);
    }
  }

  /** Round trip of the quantized channels, as for `_base.py`. */
  lemma FrameRoundTrip(img: PC.Image)
    requires PC.WellFormed(img)
    ensures PC.DecodeFrame(Encode(img))
         == seq(|img.pixels|, i requires 0 <= i < |img.pixels| => PC.Quantize(img.pixels[i]))
  {
    SameAsUnderscoreBase(img);
    PC.FrameRoundTrip(img);
  }

  /** High byte first after the byte swap, as for `_base.py`. */
  lemma HighByteFirst(img: PC.Image, i: int)
    requires PC.WellFormed(img) && 0 <= i < |img.pixels|
    ensures 2 * i + 1 < |Encode(img)|
    ensures Encode(img)[2 * i] == PC.Word(img.pixels[i]) / 256
    ensures Encode(img)[2 * i + 1] == PC.Word(img.pixels[i]) % 256
  {
    SameAsUnderscoreBase(img);
    PC.EncodeAt(img, i);
  }
}
