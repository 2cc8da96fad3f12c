/** The QL screen as pixels, and the two ways of making a picture of it. */
module Screen {
  import opened Bytes

  const STRIDE: nat := 128
  const LINES: nat := 256
  const WIDTH: nat := 1024
  const HEIGHT: nat := 698

  type Color = c: nat | c < 8

  function Red(c: Color): byte {
    if c < 4 then (if c < 2 then (if c == 0 then 0x00 else 0x20) else 0xD0)
    else if c < 6 then 0x20 else if c == 6 then 0xE0 else 0xFF
  }

  function Green(c: Color): byte {
    if c == 0 then 0x00 else if c == 1 then 0x40 else if c == 2 then 0x20 else if c == 3 then 0x30
    else if c == 4 then 0xB0 else if c == 5 then 0xC0 else if c == 6 then 0xD0 else 0xFF
  }

  function Blue(c: Color): byte {
    if c == 0 then 0x00 else if c == 1 then 0xD0 else if c == 2 then 0x20 else if c == 3 then 0xD0
    else if c == 4 then 0x40 else if c == 5 then 0xC0 else if c == 6 then 0x40 else 0xFF
  }

  function Palette(c: Color): (p: seq<byte>)
    ensures |p| == 3
  {
    [Red(c), Green(c), Blue(c)]
  }

  /** Bit `k` of a byte. */
  function BitOf(b: byte, k: nat): (r: nat)
    ensures r < 2
    decreases k, b
  {
    if k == 0 then b % 2 else BitOf(b / 2, k - 1)
  }

  // ----- Flags of a captured frame

  predicate Wide8(flags: byte) {
    BitOf(flags, 0) == 1
  }

  predicate Blank(flags: byte) {
    BitOf(flags, 1) == 1
  }

  predicate FlashOff(flags: byte) {
    BitOf(flags, 2) == 1
  }

  // ----- One line in mode 8: 256 cells of colour and flash bit

  /** The colour of a cell: green from the high byte, red and blue from the low byte. */
  function Color8(src: seq<byte>, i: nat): Color
    requires |src| == STRIDE && i < 2 * |src|
  {
    var shift := 6 - 2 * (i % 4);
    4 * BitOf(src[i / 4 * 2], shift + 1) + 2 * BitOf(src[i / 4 * 2 + 1], shift + 1) + BitOf(src[i / 4 * 2 + 1], shift)
  }

  predicate FlashBit(src: seq<byte>, i: nat)
    requires |src| == STRIDE && i < 2 * |src|
  {
    BitOf(src[i / 4 * 2], 6 - 2 * (i % 4)) == 1
  }

  datatype Latch = Latch(on: bool, color: Color)

  /** The latch as it stands when cell `i` is shown: each flash bit before it toggles it. */
  function LatchAt(src: seq<byte>, i: nat): Latch
    requires |src| == STRIDE && i <= 2 * |src|
  {
    if i == 0 then Latch(false, 0)
    else
      var l := LatchAt(src, i - 1);
      if FlashBit(src, i - 1) then Latch(!l.on, Color8(src, i - 1)) else l
  }

  function Shown8(src: seq<byte>, flags: byte, i: nat): Color
    requires |src| == STRIDE && i < 2 * |src|
  {
    if LatchAt(src, i).on && FlashOff(flags) then LatchAt(src, i).color else Color8(src, i)
  }

  /** How many flash bits precede a cell. */
  function FlashesBefore(src: seq<byte>, i: nat): nat
    requires |src| == STRIDE && i <= 2 * |src|
  {
    if i == 0 then 0 else FlashesBefore(src, i - 1) + if FlashBit(src, i - 1) then 1 else 0
  }

  /** Cell `j` holds the last flash bit before cell `i`. */
  predicate LastFlash(src: seq<byte>, i: nat, j: nat)
    requires |src| == STRIDE && i <= 2 * |src|
  {
    j < i && FlashBit(src, j) && forall k :: j < k < i ==> !FlashBit(src, k)
  }

  lemma Toggled(on: bool, n: nat, flash: bool)
    requires on <==> n % 2 == 1
    ensures (on != flash) <==> (n + if flash then 1 else 0) % 2 == 1
  {
  }

  /** The latch is on exactly after an odd number of flash bits. */
  lemma {:induction false} LatchIsParity(src: seq<byte>, i: nat)
    requires |src| == STRIDE && i <= 2 * |src|
    ensures LatchAt(src, i).on <==> FlashesBefore(src, i) % 2 == 1
  {
    if i > 0 {
      LatchIsParity(src, i - 1);
      Toggled(LatchAt(src, i - 1).on, FlashesBefore(src, i - 1), FlashBit(src, i - 1));
    }
  }

  /** The latch holds the colour of the cell with the last flash bit. */
  lemma {:induction false} LatchHoldsLast(src: seq<byte>, i: nat, j: nat)
    requires |src| == STRIDE && i <= 2 * |src| && LastFlash(src, i, j)
    ensures LatchAt(src, i).color == Color8(src, j)
  {
    if j < i - 1 {
      assert !FlashBit(src, i - 1);
      LatchHoldsLast(src, i - 1, j);
    }
  }

  // ----- One line in mode 4: 512 pixels of two bits

  function Mode4Color(green: nat, red: nat): Color {
    if green == 0 then (if red == 0 then 0 else 2) else if red == 0 then 4 else 7
  }

  function Color4(src: seq<byte>, i: nat): Color
    requires |src| == STRIDE && i < 4 * |src|
  {
    Mode4Color(BitOf(src[i / 8 * 2], 7 - i % 8), BitOf(src[i / 8 * 2 + 1], 7 - i % 8))
  }

  // ----- Lines as pixels, in either resolution

  /** Pixel `x` of the 512 of a line. */
  function Pixel(src: seq<byte>, flags: byte, x: nat): Color
    requires |src| == STRIDE && x < 4 * |src|
  {
    if Blank(flags) then 0 else if Wide8(flags) then Shown8(src, flags, x / 2) else Color4(src, x)
  }

  /** The first `n` pixels. */
  function Pixels(src: seq<byte>, flags: byte, n: nat): (r: seq<Color>)
    requires |src| == STRIDE && n <= 4 * |src|
    ensures |r| == n
    decreases n, flags
  {
    if n == 0 then [] else Pixels(src, flags, n - 1) + [Pixel(src, flags, n - 1)]
  }

  function LinePixels(src: seq<byte>, flags: byte): (r: seq<Color>)
    requires |src| == STRIDE
    ensures |r| == 4 * STRIDE
  {
    Pixels(src, flags, 4 * |src|)
  }

  /** A filter byte and the pixels. */
  function Native(colors: seq<Color>): (r: seq<byte>)
    ensures |r| == 1 + 3 * |colors|
  {
    if colors == [] then [0] else Native(colors[..|colors| - 1]) + Palette(colors[|colors| - 1])
  }

  /** A filter byte and the pixels, each twice. */
  function Wide(colors: seq<Color>): (r: seq<byte>)
    ensures |r| == 1 + 6 * |colors|
  {
    if colors == [] then [0]
    else Wide(colors[..|colors| - 1]) + Palette(colors[|colors| - 1]) + Palette(colors[|colors| - 1])
  }

  function NativeRow(src: seq<byte>, flags: byte): (r: seq<byte>)
    requires |src| == STRIDE
    ensures |r| == 1 + 12 * STRIDE
  {
    Native(LinePixels(src, flags))
  }

  function WideRow(src: seq<byte>, flags: byte): (r: seq<byte>)
    requires |src| == STRIDE
    ensures |r| == 1 + 3 * WIDTH
  {
    Wide(LinePixels(src, flags))
  }

  /** The first `n` pixels of a finished row, each twice: the second pass of the desktop. */
  function DoublePart(row: seq<byte>, n: nat): (r: seq<byte>)
    requires 1 + 3 * n <= |row|
    ensures |r| == 1 + 6 * n
    decreases n, |row|
  {
    if n == 0 then [0] else DoublePart(row, n - 1) + row[3 * n - 2..3 * n + 1] + row[3 * n - 2..3 * n + 1]
  }

  /** Pixel `x` of a finished row. */
  predicate HasPixel(row: seq<byte>, x: nat, p: seq<byte>) {
    3 * x + 4 <= |row| && row[3 * x + 1..3 * x + 4] == p
  }

  lemma AppendedPixel(row: seq<byte>, x: nat, p: seq<byte>)
    requires |row| == 3 * x + 1 && |p| == 3
    ensures HasPixel(row + p, x, p)
  {
  }

  lemma KeptPixel(row: seq<byte>, x: nat, p: seq<byte>, more: seq<byte>)
    requires HasPixel(row, x, p)
    ensures HasPixel(row + more, x, p)
  {
    assert (row + more)[3 * x + 1..3 * x + 4] == row[3 * x + 1..3 * x + 4];
  }

  lemma {:induction false} NativePixel(colors: seq<Color>, x: nat)
    requires x < |colors|
    ensures HasPixel(Native(colors), x, Palette(colors[x]))
    decreases |colors|
  {
    var front := colors[..|colors| - 1];
    if x < |front| {
      NativePixel(front, x);
      KeptPixel(Native(front), x, Palette(colors[x]), Palette(colors[|front|]));
    } else {
      AppendedPixel(Native(front), x, Palette(colors[x]));
    }
  }

  lemma DoubleStep(row: seq<byte>, x: nat, p: seq<byte>)
    requires HasPixel(row, x, p)
    ensures DoublePart(row, x + 1) == DoublePart(row, x) + p + p
  {
    assert 3 * (x + 1) - 2 == 3 * x + 1 && 3 * (x + 1) + 1 == 3 * x + 4;
  }

  lemma WideStep(colors: seq<Color>, c: Color)
    ensures Wide(colors + [c]) == Wide(colors) + Palette(c) + Palette(c)
  {
    assert (colors + [c])[..|colors + [c]| - 1] == colors;
  }

  lemma {:induction false} DoubledNative(colors: seq<Color>, n: nat)
    requires n <= |colors|
    ensures DoublePart(Native(colors), n) == Wide(colors[..n])
    decreases n
  {
    if n > 0 {
      DoubledNative(colors, n - 1);
      NativePixel(colors, n - 1);
      DoubleStep(Native(colors), n - 1, Palette(colors[n - 1]));
      WideStep(colors[..n - 1], colors[n - 1]);
      assert colors[..n - 1] + [colors[n - 1]] == colors[..n];
    }
  }

  /** Decoding and doubling in one pass equals decoding first and scaling the finished row. */
  lemma FusedIsTwoPass(src: seq<byte>, flags: byte)
    requires |src| == STRIDE
    ensures WideRow(src, flags) == DoublePart(NativeRow(src, flags), WIDTH / 2)
  {
    var colors := LinePixels(src, flags);
    DoubledNative(colors, |colors|);
    assert colors[..|colors|] == colors;
  }

  lemma {:induction false} BlackRow(colors: seq<Color>)
    requires forall i :: 0 <= i < |colors| ==> colors[i] == 0
    ensures Wide(colors) == Fill(1 + 6 * |colors|, 0)
    decreases |colors|
  {
    if colors != [] {
      BlackRow(colors[..|colors| - 1]);
    }
  }

  lemma {:induction false} BlankPixels(src: seq<byte>, flags: byte, n: nat)
    requires |src| == STRIDE && n <= 4 * |src| && Blank(flags)
    ensures forall i :: 0 <= i < n ==> Pixels(src, flags, n)[i] == 0
    decreases n
  {
    if n > 0 {
      BlankPixels(src, flags, n - 1);
    }
  }

  // ----- What is seen

  /** Both pictures show this colour at pixel `x` of the line, the wide one twice. */
  predicate Seen(src: seq<byte>, flags: byte, x: nat, rgb: seq<byte>)
    requires |src| == STRIDE
  {
    && HasPixel(NativeRow(src, flags), x, rgb)
    && HasPixel(WideRow(src, flags), 2 * x, rgb) && HasPixel(WideRow(src, flags), 2 * x + 1, rgb)
  }

  /** The bit of a byte that has this weight. */
  predicate Lit(b: byte, weight: nat)
    requires weight > 0
  {
    b / weight % 2 == 1
  }

  function Weight(k: nat): (w: nat)
    ensures w > 0
  {
    if k == 0 then 1 else 2 * Weight(k - 1)
  }

  lemma {:induction false} BitIsLit(b: byte, k: nat)
    ensures BitOf(b, k) == 1 <==> Lit(b, Weight(k))
    decreases k
  {
    if k > 0 {
      BitIsLit(b / 2, k - 1);
      HalfDivides(b, Weight(k - 1));
    }
  }

  lemma HalfDivides(b: nat, w: nat)
    requires w > 0
    ensures b / 2 / w == b / (2 * w)
  {
    var q, r := b / 2 / w, b / 2 % w;
    assert b == 2 * (q * w + r) + b % 2;
    QuotientIs(b, 2 * w, q, 2 * r + b % 2);
  }

  lemma QuotientIs(b: nat, w: nat, q: nat, r: nat)
    requires b == q * w + r && r < w
    ensures b / w == q
  {
    Closest(w, q, r, b / w, b % w);
    Closest(w, b / w, b % w, q, r);
  }

  lemma Closest(w: nat, q: nat, r: nat, q': nat, r': nat)
    requires q * w + r == q' * w + r' && r < w && r' < w
    ensures q <= q'
  {
    if q > q' {
      OneMoreAtLeast(w, q, q');
    }
  }

  lemma {:induction false} OneMoreAtLeast(w: nat, more: nat, less: nat)
    requires less < more
    ensures less * w + w <= more * w
    decreases more
  {
    assert more * w == (more - 1) * w + w;
    if less < more - 1 {
      OneMoreAtLeast(w, more - 1, less);
    }
  }

  lemma {:induction false} WidePixel(colors: seq<Color>, x: nat)
    requires x < |colors|
    ensures HasPixel(Wide(colors), 2 * x, Palette(colors[x])) && HasPixel(Wide(colors), 2 * x + 1, Palette(colors[x]))
    decreases |colors|
  {
    var front, p := colors[..|colors| - 1], Palette(colors[x]);
    var last := Palette(colors[|front|]);
    if x < |front| {
      WidePixel(front, x);
      KeptPixel(Wide(front), 2 * x, p, last);
      KeptPixel(Wide(front) + last, 2 * x, p, last);
      KeptPixel(Wide(front), 2 * x + 1, p, last);
      KeptPixel(Wide(front) + last, 2 * x + 1, p, last);
    } else {
      AppendedPixel(Wide(front), 2 * x, p);
      KeptPixel(Wide(front) + p, 2 * x, p, p);
      AppendedPixel(Wide(front) + p, 2 * x + 1, p);
    }
  }

  lemma {:induction false} PixelAt(src: seq<byte>, flags: byte, n: nat, x: nat)
    requires |src| == STRIDE && x < n <= 4 * |src|
    ensures Pixels(src, flags, n)[x] == Pixel(src, flags, x)
    decreases n
  {
    if x < n - 1 {
      PixelAt(src, flags, n - 1, x);
    }
  }

  lemma SeenInBoth(src: seq<byte>, flags: byte, x: nat)
    requires |src| == STRIDE && x < 4 * |src|
    ensures Seen(src, flags, x, Palette(Pixel(src, flags, x)))
  {
    PixelAt(src, flags, 4 * |src|, x);
    NativePixel(LinePixels(src, flags), x);
    WidePixel(LinePixels(src, flags), x);
  }

  lemma FlagsLit(flags: byte)
    ensures Wide8(flags) == Lit(flags, 1) && Blank(flags) == Lit(flags, 2) && FlashOff(flags) == Lit(flags, 4)
  {
    BitIsLit(flags, 0);
    BitIsLit(flags, 1);
    BitIsLit(flags, 2);
  }

  /** In mode 4, eight pixels share two bytes, a bit of each: the even byte holds green, the odd one red. */
  lemma Mode4Seen(src: seq<byte>, flags: byte, x: nat)
    requires |src| == STRIDE && x < 512 && !Lit(flags, 1) && !Lit(flags, 2)
    ensures var green, red := Lit(src[x / 8 * 2], Weight(7 - x % 8)), Lit(src[x / 8 * 2 + 1], Weight(7 - x % 8));
            Seen(src, flags, x, if green && red then [0xFF, 0xFF, 0xFF] else if green then [0x20, 0xB0, 0x40]
                                else if red then [0xD0, 0x20, 0x20] else [0x00, 0x00, 0x00])
  {
    FlagsLit(flags);
    BitIsLit(src[x / 8 * 2], 7 - x % 8);
    BitIsLit(src[x / 8 * 2 + 1], 7 - x % 8);
    SeenInBoth(src, flags, x);
  }

  /** The colours by their green, red and blue bits. */
  function Rgb(green: bool, red: bool, blue: bool): seq<byte> {
    if green then
      (if red then (if blue then [0xFF, 0xFF, 0xFF] else [0xE0, 0xD0, 0x40])
       else if blue then [0x20, 0xC0, 0xC0] else [0x20, 0xB0, 0x40])
    else
      (if red then (if blue then [0xD0, 0x30, 0xD0] else [0xD0, 0x20, 0x20])
       else if blue then [0x20, 0x40, 0xD0] else [0x00, 0x00, 0x00])
  }

  /** Flash bits toggle the latch: the even byte holds them, in the lower bit of each pair. */
  lemma FlashIsLit(src: seq<byte>, cell: nat)
    requires |src| == STRIDE && cell < 256
    ensures FlashBit(src, cell) == Lit(src[cell / 4 * 2], Weight(6 - 2 * (cell % 4)))
  {
    BitIsLit(src[cell / 4 * 2], 6 - 2 * (cell % 4));
  }

  /** Whose colour a cell shows: its own, or while it flashes that of the last cell with a flash bit. */
  predicate ColorFrom(src: seq<byte>, flags: byte, cell: nat, from: nat)
    requires |src| == STRIDE && cell < 256
  {
    if Lit(flags, 4) && FlashesBefore(src, cell) % 2 == 1 then LastFlash(src, cell, from) else from == cell
  }

  lemma ShownFrom(src: seq<byte>, flags: byte, cell: nat, from: nat)
    requires |src| == STRIDE && cell < 256 && ColorFrom(src, flags, cell, from)
    ensures from < 256 && Shown8(src, flags, cell) == Color8(src, from)
  {
    FlagsLit(flags);
    LatchIsParity(src, cell);
    if LastFlash(src, cell, from) {
      LatchHoldsLast(src, cell, from);
    }
  }

  /** The colour of a cell from the three bits it has in its two bytes. */
  function CellRgb(high: byte, low: byte, k: nat): seq<byte> {
    Rgb(Lit(high, Weight(k + 1)), Lit(low, Weight(k + 1)), Lit(low, Weight(k)))
  }

  lemma PaletteOfCell(src: seq<byte>, cell: nat)
    requires |src| == STRIDE && cell < 256
    ensures Palette(Color8(src, cell)) == CellRgb(src[cell / 4 * 2], src[cell / 4 * 2 + 1], 6 - 2 * (cell % 4))
  {
    var k := 6 - 2 * (cell % 4);
    BitIsLit(src[cell / 4 * 2], k + 1);
    BitIsLit(src[cell / 4 * 2 + 1], k + 1);
    BitIsLit(src[cell / 4 * 2 + 1], k);
  }

  /** In mode 8, four cells of two pixels share two bytes, two bits of each: green and flash, red and blue. */
  lemma Mode8Seen(src: seq<byte>, flags: byte, x: nat, from: nat)
    requires |src| == STRIDE && x < 512 && Lit(flags, 1) && !Lit(flags, 2) && ColorFrom(src, flags, x / 2, from)
    ensures from < 256
    ensures Seen(src, flags, x, CellRgb(src[from / 4 * 2], src[from / 4 * 2 + 1], 6 - 2 * (from % 4)))
  {
    FlagsLit(flags);
    ShownFrom(src, flags, x / 2, from);
    PaletteOfCell(src, from);
    SeenInBoth(src, flags, x);
  }

  lemma BlankSeen(src: seq<byte>, flags: byte, x: nat)
    requires |src| == STRIDE && x < 512 && Lit(flags, 2)
    ensures Seen(src, flags, x, [0, 0, 0])
  {
    FlagsLit(flags);
    SeenInBoth(src, flags, x);
  }

  // ----- Frames

  predicate Frame(frame: seq<byte>) {
    |frame| == LINES * STRIDE
  }

  function Line(frame: seq<byte>, s: nat): (src: seq<byte>)
    requires Frame(frame) && s < LINES
    ensures |src| == STRIDE
  {
    frame[s * STRIDE..(s + 1) * STRIDE]
  }

  /** The source line that an output row shows. */
  function SourceLine(y: nat): (s: nat)
    requires y < HEIGHT
    ensures s < LINES
  {
    y * LINES / HEIGHT
  }

  /** The first `n` output rows. */
  function WideRows(frame: seq<byte>, flags: byte, n: nat): (rows: seq<seq<byte>>)
    requires Frame(frame) && n <= HEIGHT
    ensures |rows| == n && forall y :: 0 <= y < n ==> rows[y] == WideRow(Line(frame, SourceLine(y)), flags)
    decreases n, flags
  {
    if n == 0 then [] else WideRows(frame, flags, n - 1) + [WideRow(Line(frame, SourceLine(n - 1)), flags)]
  }

  function NativeRows(frame: seq<byte>, flags: byte, n: nat): (rows: seq<seq<byte>>)
    requires Frame(frame) && n <= LINES
    ensures |rows| == n && forall s :: 0 <= s < n ==> rows[s] == NativeRow(Line(frame, s), flags)
    decreases n, flags
  {
    if n == 0 then [] else NativeRows(frame, flags, n - 1) + [NativeRow(Line(frame, n - 1), flags)]
  }

  /** Line `s` is shown on exactly the rows that begin in its share of the picture's height. */
  lemma RowsOfLine(y: nat, s: nat)
    requires y < HEIGHT
    ensures SourceLine(y) == s <==> s * 698 <= y * 256 < (s + 1) * 698
  {
  }

  /** No source line is skipped, and lines are shown in order. */
  lemma EverySourceLineShown(s: nat)
    requires s < LINES
    ensures exists y :: 0 <= y < HEIGHT && SourceLine(y) == s
  {
    var y := (s * HEIGHT + LINES - 1) / LINES;
    assert SourceLine(y) == s;
  }

  lemma LinesInOrder(y: nat)
    requires y + 1 < HEIGHT
    ensures SourceLine(y) <= SourceLine(y + 1) <= SourceLine(y) + 1
  {
  }
}
