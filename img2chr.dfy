/** The NES pattern-table converter (scripts/img2chr.js): a 128 x 128 grey-map
    is quantised to two-bit colours and written as 256 tiles of 8 x 8, each
    tile as its low bit-plane (8 bytes) followed by its high bit-plane (8
    bytes), the leftmost pixel of a row in the most significant bit. Reading
    the command line and the files is replaced by the image text as a
    parameter and the bytes as the result. */
module Img2Chr {
  import opened Outcomes
  import opened Lexing
  import opened Bits

  const Side := 128
  const Tiles := 16
  const ColorMax := 255

  // ---------------------------------------------------------------------
  // Numbers in the text

  /** The value of digit `c` in base `radix`, if it is one. */
  function DigitOf(c: char, radix: nat): (r: Option<nat>)
    ensures r.Some? ==> r.value < radix
  {
    var d := if '0' <= c <= '9' then c as int - '0' as int
             else if 'a' <= c <= 'z' then c as int - 'a' as int + 10
             else if 'A' <= c <= 'Z' then c as int - 'A' as int + 10
             else radix;
    if d < radix then Some(d) else None
  }

  predicate AllDigits(s: string, radix: nat) {
    forall k :: 0 <= k < |s| ==> DigitOf(s[k], radix).Some?
  }

  /** How many digits `s` starts with. */
  function DigitRun(s: string, radix: nat): (n: nat)
    ensures n <= |s| && AllDigits(s[..n], radix)
    ensures n < |s| ==> DigitOf(s[n], radix).None?
  {
    if s == [] || DigitOf(s[0], radix).None? then 0
    else
      var n := 1 + DigitRun(s[1..], radix);
      assert forall k :: 1 <= k < n ==> s[..n][k] == s[1..][..n - 1][k - 1];
      n
  }

  /** The number a digit string spells, most significant digit first. */
  function DigitsValue(s: string, radix: nat): (v: nat)
    requires AllDigits(s, radix)
  {
    if s == [] then 0
    else DigitsValue(s[..|s| - 1], radix) * radix + DigitOf(s[|s| - 1], radix).value
  }

  /** `parseInt` on a word: an optional sign, an optional `0x`/`0X` that
      switches to base 16, then the longest run of digits; `None` (NaN)
      when there is no digit at all. */
  function ParseInt(s: string): (r: Option<int>)
    ensures r.None? <==> var u := Unsigned(s); DigitRun(u.1, u.0) == 0
  {
    var u := Unsigned(s);
    var n := DigitRun(u.1, u.0);
    if n == 0 then None
    else Some(Sign(s) * DigitsValue(u.1[..n], u.0))
  }

  function Sign(s: string): int {
    if |s| > 0 && s[0] == '-' then -1 else 1
  }

  /** The base and the digits part of `s`, after the sign and the hex prefix. */
  function Unsigned(s: string): (nat, string) {
    var t := if |s| > 0 && (s[0] == '-' || s[0] == '+') then s[1..] else s;
    if |t| >= 2 && t[0] == '0' && (t[1] == 'x' || t[1] == 'X') then (16, t[2..]) else (10, t)
  }

  /** Decimal spelling of a natural number. */
  function Decimal(n: nat): (s: string)
    ensures |s| > 0 && AllDigits(s, 10)
  {
    var d := ['0' + (n % 10) as char];
    assert DigitOf(d[0], 10).Some?;
    if n < 10 then d else Decimal(n / 10) + d
  }

  lemma {:induction false} DecimalValue(n: nat)
    ensures DigitsValue(Decimal(n), 10) == n
  {
    var d := ['0' + (n % 10) as char];
    assert DigitOf(d[0], 10) == Some(n % 10);
    if n >= 10 {
      DecimalValue(n / 10);
      var s := Decimal(n);
      assert s[..|s| - 1] == Decimal(n / 10);
    }
  }

  /** `parseInt` reads back the decimal spelling of any natural number. */
  lemma ParseIntDecimal(n: nat)
    ensures ParseInt(Decimal(n)) == Some(n)
  {
    var s := Decimal(n);
    DecimalValue(n);
    NoPrefix(s);
    AllDigitsRun(s, 10);
    assert s[..|s|] == s;
  }

  /** A digit string has no sign and no hex prefix. */
  lemma NoPrefix(s: string)
    requires s != [] && AllDigits(s, 10)
    ensures Unsigned(s) == (10, s) && Sign(s) == 1
  {
    assert DigitOf(s[0], 10).Some?;
    if |s| >= 2 {
      assert DigitOf(s[1], 10).Some?;
    }
  }

  lemma {:induction false} AllDigitsRun(s: string, radix: nat)
    requires AllDigits(s, radix)
    ensures DigitRun(s, radix) == |s|
  {
    if s != [] {
      AllDigitsRun(s[1..], radix);
    }
  }

  /** `Number(word)` for the spellings the header checks accept: an optional
      sign and one or more decimal digits. */
  function NumberValue(s: string): (r: Option<int>)
    ensures r.Some? ==> s != []
  {
    var t := if |s| > 0 && (s[0] == '-' || s[0] == '+') then s[1..] else s;
    if t != [] && AllDigits(t, 10) then Some(Sign(s) * DigitsValue(t, 10)) else None
  }

  // ---------------------------------------------------------------------
  // Quantisation

  /** `Math.round(3 * v / 255)` in integers: round half up is the floor of
      `3v/255 + 1/2`, that is of `(6v + 255) / 510`. */
  function Quantize(v: int): int {
    (6 * v + 255) / 510
  }

  /** The quantised value is the unique integer nearest to `3v/255`, and no
      input lies halfway between two of them (`6v` is even, 255 odd). */
  lemma QuantizeNearest(v: int, q: int)
    ensures q == Quantize(v) <==> -255 < 6 * v - 510 * q < 255
  {
  }

  /** Grey levels 0..255 become colours 0..3, the ends staying ends. */
  lemma QuantizeRange(v: int)
    requires 0 <= v <= ColorMax
    ensures 0 <= Quantize(v) <= 3
    ensures Quantize(0) == 0 && Quantize(ColorMax) == 3
  {
  }

  /** The colour of the pixel read from a word (`None` is NaN: an unreadable
      or missing word). */
  function PixelOf(word: Option<string>): Option<int> {
    match word
    case None => None
    case Some(w) =>
      match ParseInt(w)
      case None => None
      case Some(v) => Some(Quantize(v))
  }

  function WordAt(body: seq<string>, i: nat): Option<string> {
    if i < |body| then Some(body[i]) else None
  }

  /** The 128 x 128 colour grid, pixel `(x, y)` read from word `128y + x`. */
  function Grid(body: seq<string>): (g: seq<seq<Option<int>>>)
    ensures IsGrid(g)
  {
    seq(Side, y requires 0 <= y < Side => seq(Side, x requires 0 <= x < Side => PixelOf(WordAt(body, Side * y + x))))
  }

  predicate IsGrid(g: seq<seq<Option<int>>>) {
    |g| == Side && forall y :: 0 <= y < Side ==> |g[y]| == Side
  }

  /** The pixel loops: rows top to bottom, each row left to right. */
  method ReadPixels(body: seq<string>) returns (pixels: seq<seq<Option<int>>>)
    ensures pixels == Grid(body)
  {
    pixels := [];
    for y := 0 to Side
      invariant |pixels| == y
      invariant forall j :: 0 <= j < y ==> pixels[j] == Grid(body)[j]
    {
      var row := [];
      for x := 0 to Side
        invariant |row| == x
        invariant forall j :: 0 <= j < x ==> row[j] == PixelOf(WordAt(body, Side * y + j))
      {
        var color := PixelOf(WordAt(body, Side * y + x));
        row := row + [color];
      }
      pixels := pixels + [row];
    }
  }

  // ---------------------------------------------------------------------
  // Bit-planes and tiles

  /** `(pixel & bitToTest) ? 1 : 0` for the two planes the encoder uses; NaN
      has no bit set. */
  function TestBit(pixel: Option<int>, bitToTest: int): (r: int)
    requires bitToTest == 1 || bitToTest == 2
    ensures r == 0 || r == 1
  {
    match pixel
    case None => 0
    case Some(c) => if bitToTest == 1 then Bit(c, 0) else Bit(c, 1)
  }

  /** The two planes together give back a colour 0..3. */
  lemma PlanesEncodeColor(c: int)
    requires 0 <= c <= 3
    ensures TestBit(Some(c), 1) + 2 * TestBit(Some(c), 2) == c
  {
  }

  function RowBits(g: seq<seq<Option<int>>>, cx: nat, cy: nat, bitToTest: int, row: nat): (r: seq<int>)
    requires IsGrid(g) && cx < Tiles && cy < Tiles && row < 8
    requires bitToTest == 1 || bitToTest == 2
    ensures |r| == 8 && IsBits(r)
  {
    var r := seq(8, col requires 0 <= col < 8 => TestBit(g[8 * cy + row][8 * cx + col], bitToTest));
    assert forall k :: 0 <= k < 8 ==> r[k] == TestBit(g[8 * cy + row][8 * cx + k], bitToTest);
    r
  }

  /** Row `row` of one plane of tile `(cx, cy)`, column 0 in the most
      significant bit. */
  function PlaneRow(g: seq<seq<Option<int>>>, cx: nat, cy: nat, bitToTest: int, row: nat): int
    requires IsGrid(g) && cx < Tiles && cy < Tiles && row < 8
    requires bitToTest == 1 || bitToTest == 2
  {
    MsbPack(RowBits(g, cx, cy, bitToTest, row))
  }

  function Plane(g: seq<seq<Option<int>>>, cx: nat, cy: nat, bitToTest: int): (r: seq<int>)
    requires IsGrid(g) && cx < Tiles && cy < Tiles
    requires bitToTest == 1 || bitToTest == 2
    ensures |r| == 8
  {
    seq(8, row requires 0 <= row < 8 => PlaneRow(g, cx, cy, bitToTest, row))
  }

  /** Tile `t`, counted row-major: plane 1, then plane 2. */
  function Tile(g: seq<seq<Option<int>>>, t: nat): (r: seq<int>)
    requires IsGrid(g) && t < Tiles * Tiles
    ensures |r| == 16
  {
    Plane(g, t % Tiles, t / Tiles, 1) + Plane(g, t % Tiles, t / Tiles, 2)
  }

  /** The first `n` tiles, in order. */
  function TileRun(g: seq<seq<Option<int>>>, n: nat): (r: seq<int>)
    requires IsGrid(g) && n <= Tiles * Tiles
    ensures |r| == 16 * n
  {
    if n == 0 then [] else TileRun(g, n - 1) + Tile(g, n - 1)
  }

  function Chr(g: seq<seq<Option<int>>>): (r: seq<int>)
    requires IsGrid(g)
    ensures |r| == 4096
  {
    TileRun(g, Tiles * Tiles)
  }

  /** Byte `j` of tile `t` sits at `16t + j`. */
  lemma {:induction false} TileRunAt(g: seq<seq<Option<int>>>, n: nat, t: nat, j: nat)
    requires IsGrid(g) && n <= Tiles * Tiles && t < n && j < 16
    ensures TileRun(g, n)[16 * t + j] == Tile(g, t)[j]
  {
    if t < n - 1 {
      TileRunAt(g, n - 1, t, j);
    }
  }

  /** The output is 4096 bytes; row `row` of the plane for bit `bitToTest`
      of tile `(cx, cy)` is byte `16(16cy + cx) + 8(bitToTest - 1) + row`. */
  lemma ChrLayout(g: seq<seq<Option<int>>>, cx: nat, cy: nat, bitToTest: int, row: nat)
    requires IsGrid(g) && cx < Tiles && cy < Tiles && row < 8
    requires bitToTest == 1 || bitToTest == 2
    ensures |Chr(g)| == 4096
    ensures Chr(g)[16 * (Tiles * cy + cx) + 8 * (bitToTest - 1) + row] == PlaneRow(g, cx, cy, bitToTest, row)
  {
    var t := Tiles * cy + cx;
    assert t % Tiles == cx && t / Tiles == cy;
    TileRunAt(g, Tiles * Tiles, t, 8 * (bitToTest - 1) + row);
  }

  /** Every plane byte is a byte, and its bit `7 - col` is the tested bit of
      pixel column `col`. */
  lemma PlaneRowBits(g: seq<seq<Option<int>>>, cx: nat, cy: nat, bitToTest: int, row: nat, col: nat)
    requires IsGrid(g) && cx < Tiles && cy < Tiles && row < 8 && col < 8
    requires bitToTest == 1 || bitToTest == 2
    ensures 0 <= PlaneRow(g, cx, cy, bitToTest, row) < 256
    ensures Bit(PlaneRow(g, cx, cy, bitToTest, row), 7 - col) == TestBit(g[8 * cy + row][8 * cx + col], bitToTest)
  {
    var bits := RowBits(g, cx, cy, bitToTest, row);
    MsbPackRange(bits);
    assert Pow2(8) == 256;
    MsbPackBits(bits, col);
  }

  // ---------------------------------------------------------------------
  // The encoder

  /** The module-level `pixels` and `bytes` of the script. */
  class ChrWriter {
    const pixels: seq<seq<Option<int>>>
    var bytes: seq<int>

    constructor (pixels: seq<seq<Option<int>>>)
      requires IsGrid(pixels)
      ensures this.pixels == pixels && bytes == []
    {
      this.pixels := pixels;
      bytes := [];
    }

    /** `emit_plane`: eight bytes, one per row of the tile, each built by
        `a = 2a + bit` over the eight columns. */
    method EmitPlane(cx: nat, cy: nat, bitToTest: int)
      requires IsGrid(pixels) && cx < Tiles && cy < Tiles
      requires bitToTest == 1 || bitToTest == 2
      modifies this
      ensures bytes == old(bytes) + Plane(pixels, cx, cy, bitToTest)
    {
      ghost var start := bytes;
      for row := 0 to 8
        invariant bytes == start + Plane(pixels, cx, cy, bitToTest)[..row]
      {
        var a := 0;
        for col := 0 to 8
          invariant a == MsbPack(RowBits(pixels, cx, cy, bitToTest, row)[..col])
        {
          var bits := RowBits(pixels, cx, cy, bitToTest, row);
          assert bits[..col + 1][..col] == bits[..col];
          var bit := TestBit(pixels[8 * cy + row][8 * cx + col], bitToTest);
          a := 2 * a + bit;
        }
        assert RowBits(pixels, cx, cy, bitToTest, row)[..8] == RowBits(pixels, cx, cy, bitToTest, row);
        bytes := bytes + [a];
        assert Plane(pixels, cx, cy, bitToTest)[..row + 1] == Plane(pixels, cx, cy, bitToTest)[..row] + [a];
      }
      assert Plane(pixels, cx, cy, bitToTest)[..8] == Plane(pixels, cx, cy, bitToTest);
    }

    /** The tile loops: `cy` outer, `cx` inner, plane 1 before plane 2. */
    method EmitAll()
      requires IsGrid(pixels)
      modifies this
      ensures bytes == old(bytes) + Chr(pixels)
    {
      ghost var start := bytes;
      for cy := 0 to Tiles
        invariant bytes == start + TileRun(pixels, Tiles * cy)
      {
        for cx := 0 to Tiles
          invariant bytes == start + TileRun(pixels, Tiles * cy + cx)
        {
          ghost var t := Tiles * cy + cx;
          assert t % Tiles == cx && t / Tiles == cy;
          EmitPlane(cx, cy, 1);
          EmitPlane(cx, cy, 2);
          assert bytes == start + TileRun(pixels, t) + Tile(pixels, t);
        }
      }
    }
  }

  /** The header checks: `P2`, width 128, height 128, maximum 255. */
  predicate HeaderOk(toks: seq<string>) {
    && |toks| >= 4
    && toks[0] == "P2"
    && NumberValue(toks[1]) == Some(Side)
    && NumberValue(toks[2]) == Some(Side)
    && NumberValue(toks[3]) == Some(ColorMax)
  }

  /** The words of the image: comments removed, split at whitespace runs,
      empty words kept. */
  function ImageWords(text: string): seq<string> {
    SplitWs(StripComments(text))
  }

  /** The whole script on the image text. */
  method Convert(text: string) returns (r: Result<seq<int>>)
    ensures r.Ok? <==> HeaderOk(ImageWords(text))
    ensures r.Ok? ==> r.value == Chr(Grid(ImageWords(text)[4..]))
  {
    var toks := ImageWords(text);
    if |toks| < 4 || toks[0] != "P2" {
      return Err("type is not P2");
    }
    if NumberValue(toks[1]) != Some(Side) {
      return Err("width is not 128");
    }
    if NumberValue(toks[2]) != Some(Side) {
      return Err("height is not 128");
    }
    if NumberValue(toks[3]) != Some(ColorMax) {
      return Err("colormax is not 255");
    }
    var pixels := ReadPixels(toks[4..]);
    var writer := new ChrWriter(pixels);
    writer.EmitAll();
    r := Ok(writer.bytes);
  }
}
