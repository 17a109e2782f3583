/** The Apple II hi-res converter (iie/twelf-image.js): a 140 x 192 grey-map
    whose pixels are white, black or "green" becomes 280 x 192 screen dots,
    packed 7 dots per byte, bit 0 the leftmost dot. Reading the image file is
    replaced by the file's text as a parameter. */
module TwelfImage {
  import opened Outcomes
  import opened Lexing
  import opened Bits

  const Width := 140
  const Height := 192
  const DotsPerRow := 280
  const BytesPerRow := 40

  // ---------------------------------------------------------------------
  // leftPad

  /** `c` repeated `k` times. */
  function Repeat(c: string, k: nat): (r: string)
    ensures |r| == k * |c|
  {
    if k == 0 then [] else c + Repeat(c, k - 1)
  }

  /** How many copies of a `clen`-character pad bring length `len` to at
      least `n`. */
  function PadCount(len: nat, clen: nat, n: int): nat
    requires clen > 0 || len >= n
    decreases n - len
  {
    if len >= n then 0 else 1 + PadCount(len + clen, clen, n)
  }

  /** `leftPad`: prepend `c` until the string is at least `n` long. With an
      empty `c` and a short `x` the source never returns, so that case is
      excluded. */
  method LeftPad(x: string, c: string, n: int) returns (r: string)
    requires c != [] || |x| >= n
    ensures r == Repeat(c, PadCount(|x|, |c|, n)) + x
  {
    r := x;
    ghost var k := 0;
    while |r| < n
      invariant r == Repeat(c, k) + x
      invariant PadCount(|x|, |c|, n) == k + PadCount(|r|, |c|, n)
      decreases n - |r|
    {
      PadCountStep(|x|, |c|, n, k);
      r := c + r;
      k := k + 1;
      assert c + (Repeat(c, k - 1) + x) == Repeat(c, k) + x;
    }
  }

  lemma {:induction false} PadCountStep(len: nat, clen: nat, n: int, k: nat)
    requires clen > 0 || len >= n
    requires len + k * clen < n
    ensures PadCount(len, clen, n) == PadCount(len + k * clen, clen, n)
                                     + (if k == 0 then 0 else PadCount(len, clen, len + k * clen))
    decreases k
  {
    if k > 0 {
      PadCountStep(len + clen, clen, n, k - 1);
      PadCountPrefix(len + clen, clen, k - 1);
      PadCountPrefix(len, clen, k);
    }
  }

  lemma {:induction false} PadCountPrefix(len: nat, clen: nat, k: nat)
    requires clen > 0
    ensures PadCount(len, clen, len + k * clen) == k
    decreases k
  {
    if k > 0 {
      PadCountPrefix(len + clen, clen, k - 1);
      assert len + clen + (k - 1) * clen == len + k * clen;
    }
  }

  /** A long enough string is returned unchanged; a shorter one, padded with
      a one-character `c`, has length exactly `n`, ends with `x`, and starts
      with copies of `c` only. */
  lemma LeftPadShape(x: string, c: string, n: int)
    requires c != [] || |x| >= n
    ensures |x| >= n ==> Repeat(c, PadCount(|x|, |c|, n)) + x == x
    ensures |c| == 1 && |x| < n ==>
      var r := Repeat(c, PadCount(|x|, |c|, n)) + x;
      && |r| == n
      && r[n - |x|..] == x
      && forall k :: 0 <= k < n - |x| ==> r[k] == c[0]
  {
    if |c| == 1 && |x| < n {
      PadCountPrefix(|x|, 1, n - |x|);
      assert |x| + (n - |x|) * 1 == n;
      RepeatChar(c, n - |x|);
    }
  }

  lemma {:induction false} RepeatChar(c: string, k: nat)
    requires |c| == 1
    ensures forall j :: 0 <= j < k ==> Repeat(c, k)[j] == c[0]
  {
    if k > 0 {
      RepeatChar(c, k - 1);
    }
  }

  // ---------------------------------------------------------------------
  // Pixels and dots

  datatype Color = White | Black | Green

  /** Pixel value 255 is white, 0 is black, and every other token green. */
  function ColorOf(tok: string): (r: Color)
    ensures r == White <==> tok == "255"
    ensures r == Black <==> tok == "0"
  {
    if tok == "255" then White else if tok == "0" then Black else Green
  }

  /** The pixel loop: one colour per token, in order. */
  method Classify(toks: seq<string>) returns (pixels: seq<Color>)
    ensures |pixels| == |toks|
    ensures forall i :: 0 <= i < |toks| ==> pixels[i] == ColorOf(toks[i])
  {
    pixels := [];
    for i := 0 to |toks|
      invariant |pixels| == i
      invariant forall j :: 0 <= j < i ==> pixels[j] == ColorOf(toks[j])
    {
      pixels := pixels + [ColorOf(toks[i])];
    }
  }

  function Colors(toks: seq<string>): (r: seq<Color>)
    ensures |r| == |toks|
  {
    seq(|toks|, i requires 0 <= i < |toks| => ColorOf(toks[i]))
  }

  /** The dot at column `x` of row `y`: source pixel `x / 2` of the row; a
      green pixel lights only odd columns, and only on a checkerboard. */
  function Dot(pixels: seq<Color>, x: nat, y: nat): (d: int)
    requires |pixels| == Width * Height && x < DotsPerRow && y < Height
    ensures d == 0 || d == 1
  {
    var srcx := x / 2;
    match pixels[y * Width + srcx]
    case White => 1
    case Black => 0
    case Green => if x % 2 == 1 && (srcx + y) % 2 == 1 then 1 else 0
  }

  /** Source pixel `(sx, y)` drives dot columns `2sx` and `2sx + 1`: white
      lights both, black neither, green only the odd one, on a checkerboard. */
  lemma PixelDots(pixels: seq<Color>, sx: nat, y: nat)
    requires |pixels| == Width * Height && sx < Width && y < Height
    ensures pixels[y * Width + sx] == White ==> Dot(pixels, 2 * sx, y) == 1 && Dot(pixels, 2 * sx + 1, y) == 1
    ensures pixels[y * Width + sx] == Black ==> Dot(pixels, 2 * sx, y) == 0 && Dot(pixels, 2 * sx + 1, y) == 0
    ensures pixels[y * Width + sx] == Green ==>
              Dot(pixels, 2 * sx, y) == 0 && Dot(pixels, 2 * sx + 1, y) == (sx + y) % 2
  {
    assert (2 * sx) / 2 == sx && (2 * sx + 1) / 2 == sx;
  }

  /** The 280 x 192 dot grid, flattened row by row. */
  function DotsOf(pixels: seq<Color>): (r: seq<int>)
    requires |pixels| == Width * Height
    ensures |r| == DotsPerRow * Height
  {
    seq(DotsPerRow * Height, i requires 0 <= i < DotsPerRow * Height => Dot(pixels, i % DotsPerRow, i / DotsPerRow))
  }

  /** The dot loop: column by column, each column top to bottom. */
  method FillDots(pixels: seq<Color>, dots: array<int>)
    requires |pixels| == Width * Height && dots.Length == DotsPerRow * Height
    modifies dots
    ensures dots[..] == DotsOf(pixels)
  {
    for x := 0 to DotsPerRow
      invariant forall i :: 0 <= i < dots.Length && i % DotsPerRow < x ==>
                  dots[i] == Dot(pixels, i % DotsPerRow, i / DotsPerRow)
    {
      for y := 0 to Height
        invariant forall i :: 0 <= i < dots.Length && (i % DotsPerRow < x || (i % DotsPerRow == x && i / DotsPerRow < y)) ==>
                    dots[i] == Dot(pixels, i % DotsPerRow, i / DotsPerRow)
      {
        var srcx := x / 2;
        var srci := y * Width + srcx;
        var dsti := y * DotsPerRow + x;
        var d;
        match pixels[srci] {
          case White => d := 1;
          case Black => d := 0;
          case Green => d := if x % 2 == 1 && (srcx + y) % 2 == 1 then 1 else 0;
        }
        assert dsti % DotsPerRow == x && dsti / DotsPerRow == y;
        dots[dsti] := d;
      }
    }
  }

  // ---------------------------------------------------------------------
  // Screen bytes

  /** Byte `x` of row `y`: dots `7x .. 7x + 6` of the row, the leftmost in
      bit 0. */
  function ScreenByte(dots: seq<int>, x: nat, y: nat): int
    requires |dots| == DotsPerRow * Height && x < BytesPerRow && y < Height
  {
    var srci := y * DotsPerRow + 7 * x;
    LsbPack(dots[srci..srci + 7])
  }

  function ScreenBytes(pixels: seq<Color>): (r: seq<int>)
    requires |pixels| == Width * Height
    ensures |r| == BytesPerRow * Height
  {
    var dots := DotsOf(pixels);
    seq(BytesPerRow * Height, i requires 0 <= i < BytesPerRow * Height => ScreenByte(dots, i % BytesPerRow, i / BytesPerRow))
  }

  /** The byte loop: column by column, each byte accumulated one dot at a
      time with `dst += dot << b`. */
  method FillBytes(dots: array<int>, bytes: array<int>)
    requires dots.Length == DotsPerRow * Height && bytes.Length == BytesPerRow * Height
    requires forall i :: 0 <= i < dots.Length ==> dots[i] == 0 || dots[i] == 1
    requires dots != bytes
    modifies bytes
    ensures forall i :: 0 <= i < bytes.Length ==> bytes[i] == ScreenByte(dots[..], i % BytesPerRow, i / BytesPerRow)
  {
    for x := 0 to BytesPerRow
      invariant forall i :: 0 <= i < bytes.Length && i % BytesPerRow < x ==>
                  bytes[i] == ScreenByte(dots[..], i % BytesPerRow, i / BytesPerRow)
    {
      for y := 0 to Height
        invariant forall i :: 0 <= i < bytes.Length && (i % BytesPerRow < x || (i % BytesPerRow == x && i / BytesPerRow < y)) ==>
                    bytes[i] == ScreenByte(dots[..], i % BytesPerRow, i / BytesPerRow)
      {
        var srcx := x * 7;
        var srci := y * DotsPerRow + srcx;
        var dsti := y * BytesPerRow + x;
        var dst := PackSeven(dots, srci);
        assert dsti % BytesPerRow == x && dsti / BytesPerRow == y;
        bytes[dsti] := dst;
      }
    }
  }

  /** The innermost loop: seven dots from `srci` on, dot `b` shifted left by `b`. */
  method PackSeven(dots: array<int>, srci: nat) returns (dst: int)
    requires srci + 7 <= dots.Length
    requires forall i :: 0 <= i < dots.Length ==> dots[i] == 0 || dots[i] == 1
    ensures dst == LsbPack(dots[srci..srci + 7])
  {
    dst := 0;
    for b := 0 to 7
      invariant dst == LsbPack(dots[srci..srci + b])
    {
      assert dots[srci..srci + b + 1] == dots[srci..srci + b] + [dots[srci + b]];
      LsbPackSnoc(dots[srci..srci + b], dots[srci + b]);
      // a 0/1 dot shifted left by b < 7 stays far inside 32 bits
      dst := dst + dots[srci + b] * Pow2(b);
    }
  }

  // ---------------------------------------------------------------------
  // The whole conversion

  /** What follows the four header words (the source does not check width,
      height or maximum colour). */
  function Body(toks: seq<string>): seq<string> {
    if |toks| <= 4 then [] else toks[4..]
  }

  /** The two assertions of the source: the header word is `P2`, and there
      are exactly 140 x 192 pixels. */
  predicate ImageOk(toks: seq<string>) {
    |toks| > 0 && toks[0] == "P2" && |Body(toks)| == Width * Height
  }

  /** `twelfImage` on the text of the image file. */
  method Convert(text: string) returns (r: Result<seq<int>>)
    ensures r.Ok? <==> ImageOk(Words(text))
    ensures r.Ok? ==> r.value == ScreenBytes(Colors(Body(Words(text))))
  {
    var toks := Words(text);
    if |toks| == 0 || toks[0] != "P2" {
      return Err("header is not P2");
    }
    var pixels := Classify(Body(toks));
    if |pixels| != Width * Height {
      return Err("pixel count is not 140 * 192");
    }
    assert pixels == Colors(Body(toks));
    var dots := new int[DotsPerRow * Height];
    FillDots(pixels, dots);
    var bytes := new int[BytesPerRow * Height];
    FillBytes(dots, bytes);
    r := Ok(bytes[..]);
  }

  /** The output holds 40 x 192 bytes, each a 7-bit number. */
  lemma ScreenBytesRange(pixels: seq<Color>, i: nat)
    requires |pixels| == Width * Height && i < BytesPerRow * Height
    ensures 0 <= ScreenBytes(pixels)[i] < 128
  {
    var dots := DotsOf(pixels);
    var x, y := i % BytesPerRow, i / BytesPerRow;
    var srci := y * DotsPerRow + 7 * x;
    LsbPackRange(dots[srci..srci + 7]);
  }

  /** Bit `b` of byte `(x, y)` is the dot at `(7x + b, y)`. */
  lemma ScreenByteBits(pixels: seq<Color>, x: nat, y: nat, b: nat)
    requires |pixels| == Width * Height && x < BytesPerRow && y < Height && b < 7
    ensures 7 * x + b < DotsPerRow
    ensures Bit(ScreenBytes(pixels)[y * BytesPerRow + x], b) == Dot(pixels, 7 * x + b, y)
  {
    var dots := DotsOf(pixels);
    var srci := y * DotsPerRow + 7 * x;
    var row := dots[srci..srci + 7];
    ScreenBytesAt(pixels, x, y);
    DotsAreBits(pixels);
    assert IsBits(row);
    LsbPackBits(row, b);
    DotAt(pixels, 7 * x + b, y);
  }

  lemma ScreenBytesAt(pixels: seq<Color>, x: nat, y: nat)
    requires |pixels| == Width * Height && x < BytesPerRow && y < Height
    ensures ScreenBytes(pixels)[y * BytesPerRow + x] == ScreenByte(DotsOf(pixels), x, y)
  {
    var i := y * BytesPerRow + x;
    assert i % BytesPerRow == x && i / BytesPerRow == y;
  }

  lemma DotAt(pixels: seq<Color>, x: nat, y: nat)
    requires |pixels| == Width * Height && x < DotsPerRow && y < Height
    ensures DotsOf(pixels)[y * DotsPerRow + x] == Dot(pixels, x, y)
  {
    var j := y * DotsPerRow + x;
    assert j % DotsPerRow == x && j / DotsPerRow == y;
  }

  lemma DotsAreBits(pixels: seq<Color>)
    requires |pixels| == Width * Height
    ensures IsBits(DotsOf(pixels))
  {
  }
}
