/** Both programs that turn a captured frame into a picture, in their own form. */
module Screenshot {
  import opened Bytes
  import opened Checksums
  import opened Png
  import opened Screen

  // ----- The firmware: one row buffer, one pass

  const SCREEN_BASE: nat := 0x7D_8000

  /** The file being written; a write may fail. */
  class OutFile {
    var bytes: seq<byte>
    /** Whether every write to the card succeeds. */
    const reliable: bool

    constructor (reliable: bool)
      ensures bytes == [] && this.reliable == reliable
    {
      bytes := [];
      this.reliable := reliable;
    }

    method Write(data: seq<byte>) returns (ok: bool)
      modifies this
      ensures ok ==> bytes == old(bytes) + data
      ensures reliable ==> ok
    {
      ok := true;
      if data == [] {
        assert bytes + data == bytes;
        return;
      }
      if !reliable {
        var fails: bool := *;
        if fails {
          return false;
        }
      }
      bytes := bytes + data;
    }
  }

  /** The frame behind the link: at most eight bytes a request, and a request may time out. */
  class ScreenPort {
    const frame: seq<byte>
    /** Whether every request is answered in time. */
    const reliable: bool

    constructor (frame: seq<byte>, reliable: bool)
      requires Frame(frame)
      ensures this.frame == frame && this.reliable == reliable
    {
      this.frame, this.reliable := frame, reliable;
    }

    method Request(address: nat, count: nat) returns (ok: bool, data: seq<byte>)
      requires Frame(frame) && 1 <= count <= 8
      requires SCREEN_BASE <= address && address + count <= SCREEN_BASE + |frame|
      ensures ok ==> data == frame[address - SCREEN_BASE..address - SCREEN_BASE + count]
      ensures reliable ==> ok
    {
      ok := true;
      if !reliable {
        ok := *;
      }
      data := frame[address - SCREEN_BASE..address - SCREEN_BASE + count];
    }
  }

  class Camera {
    const sourceRow: array<byte>
    const pngRow: array<byte>

    ghost predicate Valid() {
      sourceRow.Length == STRIDE && pngRow.Length == 1 + 3 * WIDTH && sourceRow != pngRow
    }

    constructor ()
      ensures Valid() && fresh(sourceRow) && fresh(pngRow)
    {
      sourceRow := new byte[STRIDE];
      pngRow := new byte[1 + 3 * WIDTH];
    }

    /** One request, straight into the source row. */
    method ReadSome(port: ScreenPort, address: nat, at: nat, count: nat) returns (ok: bool)
      requires Valid() && Frame(port.frame) && 1 <= count <= 8 && at + count <= STRIDE
      requires SCREEN_BASE <= address && address + count <= SCREEN_BASE + |port.frame|
      modifies sourceRow
      ensures sourceRow[..at] == old(sourceRow[..at])
      ensures ok ==> sourceRow[at..at + count] == port.frame[address - SCREEN_BASE..address - SCREEN_BASE + count]
      ensures port.reliable ==> ok
    {
      var data;
      ok, data := port.Request(address, count);
      if ok {
        forall k | 0 <= k < count {
          sourceRow[at + k] := data[k];
        }
      }
    }

    /** A source line in requests of at most eight bytes. */
    method ReadSource(port: ScreenPort, start: nat) returns (ok: bool)
      requires Valid() && Frame(port.frame)
      requires SCREEN_BASE <= start && start + STRIDE <= SCREEN_BASE + |port.frame|
      modifies sourceRow
      ensures ok ==> sourceRow[..] == port.frame[start - SCREEN_BASE..start - SCREEN_BASE + STRIDE]
      ensures port.reliable ==> ok
    {
      var address: nat, length: nat := start, STRIDE;
      ghost var from := start - SCREEN_BASE;
      while length != 0
        invariant length <= STRIDE && address == start + (STRIDE - length)
        invariant length <= sourceRow.Length
                  && sourceRow[..STRIDE - length] == port.frame[from..from + (STRIDE - length)]
        decreases length
      {
        var count := if length > 8 then 8 else length;
        var at := STRIDE - length;
        ok := ReadSome(port, address, at, count);
        if !ok {
          return;
        }
        assert sourceRow[..at + count] == sourceRow[..at] + sourceRow[at..at + count];
        assert port.frame[from..from + at] + port.frame[from + at..from + at + count]
             == port.frame[from..from + at + count];
        address := address + count;
        length := length - count;
      }
      assert sourceRow[..STRIDE] == sourceRow[..];
      ok := true;
    }

    /** The source row is `src`, and the row buffer holds exactly these pixels so far, each twice. */
    ghost predicate Holds(src: seq<byte>, at: nat, colors: seq<Color>)
      requires Valid()
      reads sourceRow, pngRow
    {
      sourceRow[..] == src && at == 1 + 6 * |colors| <= pngRow.Length && pngRow[..at] == Wide(colors)
    }

    method AppendPixel(at: nat, color: Color, ghost src: seq<byte>, ghost colors: seq<Color>) returns (next: nat)
      requires Valid() && Holds(src, at, colors) && at + 6 <= pngRow.Length
      modifies pngRow
      ensures Holds(src, next, colors + [color])
    {
      var p := Palette(color);
      pngRow[at], pngRow[at + 1], pngRow[at + 2] := p[0], p[1], p[2];
      pngRow[at + 3], pngRow[at + 4], pngRow[at + 5] := p[0], p[1], p[2];
      assert pngRow[..at] == old(pngRow[..at]);
      assert pngRow[..at + 6] == old(pngRow[..at]) + p + p;
      WideStep(colors, color);
      next := at + 6;
    }

    /** Everything black. */
    method BlankRow(flags: byte)
      requires Valid() && Blank(flags)
      modifies pngRow
      ensures pngRow[..] == WideRow(sourceRow[..], flags)
    {
      forall k | 0 <= k < pngRow.Length {
        pngRow[k] := 0;
      }
      BlankPixels(sourceRow[..], flags, 4 * |sourceRow[..]|);
      BlackRow(LinePixels(sourceRow[..], flags));
    }

    /** The pixels of the first `cell` cells of mode 8. */
    ghost function CellColors(src: seq<byte>, flags: byte, cell: nat): (r: seq<Color>)
      requires |src| == STRIDE && cell <= 2 * |src|
    {
      Pixels(src, flags, 2 * cell)
    }

    /** The row holds the first `cell` cells of mode 8, and the latch is as they leave it. */
    ghost predicate HoldsCells(src: seq<byte>, flags: byte, cell: nat, at: nat, latch: Latch)
      requires Valid() && |src| == STRIDE && cell <= 2 * |src|
      reads sourceRow, pngRow
    {
      Holds(src, at, CellColors(src, flags, cell)) && latch == LatchAt(src, cell)
    }

    /** The colour and the flash bit of a cell, from the two bytes of its word. */
    method ReadCell(word: nat, step: nat, ghost src: seq<byte>, ghost cell: nat) returns (shade: Color, flash: bool)
      requires Valid() && sourceRow[..] == src && cell < 2 * |src| && cell == 4 * word + step && step < 4
      ensures shade == Color8(src, cell) && flash == FlashBit(src, cell)
    {
      var high, low := sourceRow[2 * word], sourceRow[2 * word + 1];
      assert high == src[2 * word] && low == src[2 * word + 1];
      var shift := 6 - 2 * step;
      CellPlace(word, step);
      CellBits(src, cell, step, high, low);
      shade := 4 * BitOf(high, shift + 1) + 2 * BitOf(low, shift + 1) + BitOf(low, shift);
      flash := BitOf(high, shift) == 1;
    }

    /** The two pixels of a cell. */
    method AppendCell(at: nat, color: Color, flags: byte, ghost src: seq<byte>, ghost cell: nat) returns (next: nat)
      requires Valid() && |src| == STRIDE && cell < 2 * |src| && !Blank(flags) && Wide8(flags)
      requires color == Shown8(src, flags, cell) && Holds(src, at, CellColors(src, flags, cell))
      modifies pngRow
      ensures Holds(src, next, CellColors(src, flags, cell + 1))
    {
      ghost var colors := CellColors(src, flags, cell);
      CellPixels(src, flags, cell, color);
      next := AppendPixel(at, color, src, colors);
      next := AppendPixel(next, color, src, colors + [color]);
    }

    /** One cell in mode 8: two pixels, and then the latch. */
    method DecodeCell(word: nat, step: nat, flags: byte, at: nat, latch: Latch,
                      ghost src: seq<byte>, ghost cell: nat)
      returns (next: nat, latch': Latch)
      requires Valid() && |src| == STRIDE && cell < 2 * |src| && !Blank(flags) && Wide8(flags)
      requires cell == 4 * word + step && step < 4
      requires HoldsCells(src, flags, cell, at, latch)
      modifies pngRow
      ensures HoldsCells(src, flags, cell + 1, next, latch')
    {
      var shade, flash := ReadCell(word, step, src, cell);
      LatchStep(src, cell, flash, shade);
      next := AppendCell(at, if latch.on && FlashOff(flags) then latch.color else shade, flags, src, cell);
      latch' := if flash then Latch(!latch.on, shade) else latch;
    }

    /** The four cells of one word in mode 8. */
    method DecodeWord8(word: nat, flags: byte, at: nat, latch: Latch, ghost src: seq<byte>, ghost first: nat)
      returns (next: nat, latch': Latch)
      requires Valid() && |src| == STRIDE && word < 64 && !Blank(flags) && Wide8(flags) && first == 4 * word
      requires HoldsCells(src, flags, first, at, latch)
      modifies pngRow
      ensures HoldsCells(src, flags, first + 4, next, latch')
    {
      next, latch' := at, latch;
      ghost var cell := first;
      for step := 0 to 4
        invariant cell == first + step && HoldsCells(src, flags, cell, next, latch')
      {
        next, latch' := DecodeCell(word, step, flags, next, latch', src, cell);
        cell := cell + 1;
      }
    }

    /** One pixel in mode 4. */
    method DecodePixel(word: nat, step: nat, flags: byte, at: nat, ghost src: seq<byte>, ghost x: nat)
      returns (next: nat)
      requires Valid() && |src| == STRIDE && x < 4 * |src| && !Blank(flags) && !Wide8(flags)
      requires x == 8 * word + step && step < 8
      requires Holds(src, at, Pixels(src, flags, x))
      modifies pngRow
      ensures Holds(src, next, Pixels(src, flags, x + 1))
    {
      var high, low := sourceRow[2 * word], sourceRow[2 * word + 1];
      assert high == src[2 * word] && low == src[2 * word + 1];
      var color := Mode4Color(BitOf(high, 7 - step), BitOf(low, 7 - step));
      PixelPlace(word, step);
      PixelsStep(src, flags, x, color);
      next := AppendPixel(at, color, src, Pixels(src, flags, x));
    }

    /** The eight pixels of one word in mode 4. */
    method DecodeWord4(word: nat, flags: byte, at: nat, ghost src: seq<byte>, ghost first: nat) returns (next: nat)
      requires Valid() && |src| == STRIDE && word < 64 && !Blank(flags) && !Wide8(flags) && first == 8 * word
      requires Holds(src, at, Pixels(src, flags, first))
      modifies pngRow
      ensures Holds(src, next, Pixels(src, flags, first + 8))
    {
      next := at;
      ghost var x := first;
      for step := 0 to 8
        invariant x == first + step && Holds(src, next, Pixels(src, flags, x))
      {
        next := DecodePixel(word, step, flags, next, src, x);
        x := x + 1;
      }
    }

    method DecodeLine8(flags: byte, ghost src: seq<byte>)
      requires Valid() && src == sourceRow[..] && !Blank(flags) && Wide8(flags)
      modifies pngRow
      ensures pngRow[..] == WideRow(src, flags) && sourceRow[..] == src
    {
      var at: nat, latch := 1, Latch(false, 0);
      pngRow[0] := 0;
      ghost var cell := 0;
      for word := 0 to 64
        invariant cell == 4 * word && HoldsCells(src, flags, cell, at, latch)
      {
        at, latch := DecodeWord8(word, flags, at, latch, src, cell);
        cell := cell + 4;
      }
      assert pngRow[..at] == pngRow[..];
    }

    method DecodeLine4(flags: byte, ghost src: seq<byte>)
      requires Valid() && src == sourceRow[..] && !Blank(flags) && !Wide8(flags)
      modifies pngRow
      ensures pngRow[..] == WideRow(src, flags) && sourceRow[..] == src
    {
      var at: nat := 1;
      pngRow[0] := 0;
      ghost var x := 0;
      for word := 0 to 64
        invariant x == 8 * word && Holds(src, at, Pixels(src, flags, x))
      {
        at := DecodeWord4(word, flags, at, src, x);
        x := x + 8;
      }
      assert pngRow[..at] == pngRow[..];
    }

    /** One row of the picture from the source row, both in place. */
    method DecodeRow(flags: byte)
      requires Valid()
      modifies pngRow
      ensures pngRow[..] == WideRow(sourceRow[..], flags)
    {
      if Blank(flags) {
        BlankRow(flags);
      } else if Wide8(flags) {
        DecodeLine8(flags, sourceRow[..]);
      } else {
        DecodeLine4(flags, sourceRow[..]);
      }
    }
  }

  // ----- Writing the file

  method WriteChunk(file: OutFile, kind: seq<byte>, data: seq<byte>) returns (ok: bool)
    requires |kind| == 4
    modifies file
    ensures ok ==> file.bytes == old(file.bytes) + ChunkOf(kind, data)
    ensures file.reliable ==> ok
  {
    var crc := UpdateCrc32(ALL_ONES, kind);
    crc := UpdateCrc32(crc, data);
    CrcAppend(ALL_ONES, kind, data);
    var word := Be32(Number(Complement(crc)));
    ok := WriteThree(file, Be32(|data|) + kind, data, word);
  }

  method WriteThree(file: OutFile, a: seq<byte>, b: seq<byte>, c: seq<byte>) returns (ok: bool)
    modifies file
    ensures ok ==> file.bytes == old(file.bytes) + (a + b + c)
    ensures file.reliable ==> ok
  {
    ok := file.Write(a);
    if ok {
      ok := file.Write(b);
    }
    if ok {
      ok := file.Write(c);
    }
    assert ok ==> file.bytes == old(file.bytes) + (a + b + c);
  }

  /** The file up to the first row. */
  function FileStart(width: nat, height: nat, length: nat): seq<byte> {
    SIGNATURE + ChunkOf(IHDR, Header(width, height)) + (Be32(length) + IDAT) + [0x78, 0x01]
  }

  /** What the CRC of the IDAT chunk has covered after `y` rows. */
  function Covered(rows: seq<seq<byte>>, y: nat): seq<byte>
    requires Png.Rows(rows) && y <= |rows|
  {
    IDAT + [0x78, 0x01] + Blocks(rows, y)
  }

  /** The running checksums after `y` rows. */
  ghost predicate Running(rows: seq<seq<byte>>, y: nat, crc: bv32, adler: nat)
    requires Png.Rows(rows) && y <= |rows|
  {
    crc == CrcUpdate(ALL_ONES, Covered(rows, y)) && adler == Adler32(Flatten(rows[..y]))
  }

  method WriteStart(file: OutFile, width: nat, height: nat, length: nat) returns (ok: bool)
    modifies file
    ensures ok ==> file.bytes == old(file.bytes) + FileStart(width, height, length)
    ensures file.reliable ==> ok
  {
    ghost var header := ChunkOf(IHDR, Header(width, height));
    ok := file.Write(SIGNATURE);
    if ok {
      ok := WriteChunk(file, IHDR, Header(width, height));
    }
    if ok {
      ok := file.Write(Be32(length) + IDAT);
    }
    if ok {
      ok := file.Write([0x78, 0x01]);
      Regroup(old(file.bytes), SIGNATURE, header, Be32(length) + IDAT, [0x78, 0x01]);
    }
  }

  lemma Regroup(s: seq<byte>, a: seq<byte>, b: seq<byte>, c: seq<byte>, d: seq<byte>)
    ensures s + a + b + c + d == s + (a + b + c + d)
  {
  }

  lemma StartRunning(rows: seq<seq<byte>>, crc: bv32)
    requires Png.Rows(rows) && crc == CrcUpdate(CrcUpdate(ALL_ONES, IDAT), [0x78, 0x01])
    ensures Running(rows, 0, crc, 1)
  {
    CrcAppend(ALL_ONES, IDAT, [0x78, 0x01]);
    assert Covered(rows, 0) == IDAT + [0x78, 0x01];
    assert Sum([]) == 0 && rows[..0] == [];
  }

  lemma CoveredStep(rows: seq<seq<byte>>, y: nat)
    requires Png.Rows(rows) && y < |rows|
    ensures Covered(rows, y + 1) == Covered(rows, y) + BlockHead(y + 1 == |rows|, |rows[y]|) + rows[y]
  {
  }

  lemma CrcTwice(crc: bv32, x: seq<byte>, head: seq<byte>, row: seq<byte>)
    requires crc == CrcUpdate(ALL_ONES, x)
    ensures CrcUpdate(CrcUpdate(crc, head), row) == CrcUpdate(ALL_ONES, x + head + row)
  {
    CrcAppend(ALL_ONES, x, head);
    CrcAppend(ALL_ONES, x + head, row);
  }

  /** One row in its block, behind the running CRC and Adler-32. */
  method WriteRow(file: OutFile, row: seq<byte>, crc: bv32, adler: nat, ghost rows: seq<seq<byte>>, y: nat, height: nat)
    returns (ok: bool, crc': bv32, adler': nat)
    requires Png.Rows(rows) && y < height == |rows| && row == rows[y] && Running(rows, y, crc, adler)
    modifies file
    ensures ok ==> file.bytes == old(file.bytes) + Block(y + 1 == height, row)
    ensures file.reliable ==> ok
    ensures Running(rows, y + 1, crc', adler')
  {
    var head := BlockHead(y + 1 == height, |row|);
    crc' := UpdateCrc32(crc, head);
    crc' := UpdateCrc32(crc', row);
    CrcTwice(crc, Covered(rows, y), head, row);
    CoveredStep(rows, y);
    adler' := UpdateAdler32(adler, row, Flatten(rows[..y]));
    FlattenStep(rows, y);
    ok := WriteThree(file, head, row, []);
    assert head + row + [] == Block(y + 1 == height, row);
  }

  /** The Adler-32, the CRC and the last chunk. */
  method WriteEnd(file: OutFile, crc: bv32, adler: nat) returns (ok: bool)
    modifies file
    ensures ok ==> file.bytes == old(file.bytes) + FileEnd(crc, adler)
    ensures file.reliable ==> ok
  {
    var last := UpdateCrc32(crc, Be32(adler));
    var word := Be32(Number(Complement(last)));
    ok := WriteThree(file, Be32(adler), word, []);
    if ok {
      ok := WriteChunk(file, IEND, []);
      assert Be32(adler) + word + [] == Be32(adler) + word;
      RegroupEnd(old(file.bytes), Be32(adler) + word, ChunkOf(IEND, []));
    }
  }

  lemma RegroupEnd(s: seq<byte>, a: seq<byte>, b: seq<byte>)
    ensures s + a + b == s + (a + b)
  {
  }

  function FileEnd(crc: bv32, adler: nat): seq<byte> {
    Be32(adler) + Be32(Number(Complement(CrcUpdate(crc, Be32(adler))))) + ChunkOf(IEND, [])
  }

  lemma Assemble(signature: seq<byte>, header: seq<byte>, length: seq<byte>, kind: seq<byte>, zlib: seq<byte>,
                 blocks: seq<byte>, adler: seq<byte>, crc: seq<byte>, end: seq<byte>)
    ensures signature + header + (length + kind) + zlib + blocks + (adler + crc + end)
         == signature + header + (length + kind + (zlib + blocks + adler) + crc) + end
  {
  }

  lemma IdatCrc(rows: seq<seq<byte>>, crc: bv32, adler: nat)
    requires Png.Rows(rows) && Running(rows, |rows|, crc, adler)
    ensures Stream(rows) == [0x78, 0x01] + Blocks(rows, |rows|) + Be32(adler)
    ensures Complement(CrcUpdate(crc, Be32(adler))) == Crc32(IDAT + Stream(rows))
  {
    assert rows[..|rows|] == rows;
    var sum := Be32(adler);
    CrcAppend(ALL_ONES, Covered(rows, |rows|), sum);
    Shifted(IDAT, [0x78, 0x01], Blocks(rows, |rows|), sum);
  }

  lemma Shifted(a: seq<byte>, b: seq<byte>, c: seq<byte>, d: seq<byte>)
    ensures a + b + c + d == a + (b + c + d)
  {
  }

  /** The parts in the order they are written are the file. */
  lemma PartsAreFile(width: nat, rows: seq<seq<byte>>, crc: bv32, adler: nat, length: nat)
    requires Png.Rows(rows) && Running(rows, |rows|, crc, adler) && length == |Stream(rows)|
    ensures FileStart(width, |rows|, length) + Blocks(rows, |rows|) + FileEnd(crc, adler) == File(width, rows)
  {
    IdatCrc(rows, crc, adler);
    var word := Be32(Number(Complement(CrcUpdate(crc, Be32(adler)))));
    Assemble(SIGNATURE, ChunkOf(IHDR, Header(width, |rows|)), Be32(length), IDAT, [0x78, 0x01],
             Blocks(rows, |rows|), Be32(adler), word, ChunkOf(IEND, []));
  }

  /** Makes the row buffer show output row `y`, reading and decoding only if its source line is a new one. */
  method ShowRow(camera: Camera, port: ScreenPort, flags: byte, y: nat, cached: nat) returns (ok: bool, cached': nat)
    requires camera.Valid() && Frame(port.frame) && y < HEIGHT
    requires cached < LINES ==> camera.pngRow[..] == WideRow(Line(port.frame, cached), flags)
    modifies camera.sourceRow, camera.pngRow
    ensures ok ==> cached' == SourceLine(y) && camera.pngRow[..] == WideRow(Line(port.frame, cached'), flags)
    ensures port.reliable ==> ok
  {
    ok, cached' := true, y * LINES / HEIGHT;
    if cached' != cached {
      ok := camera.ReadSource(port, SCREEN_BASE + cached' * STRIDE);
      if ok {
        camera.DecodeRow(flags);
      }
    }
  }

  /** What has been written, and what the checksums have covered, after `y` rows. */
  ghost predicate Written(bytes: seq<byte>, start: seq<byte>, rows: seq<seq<byte>>, y: nat, length: nat, crc: bv32,
                          adler: nat) {
    && Png.Rows(rows) && y <= |rows| && Running(rows, y, crc, adler)
    && bytes == start + FileStart(WIDTH, |rows|, length) + Blocks(rows, y)
  }

  lemma WrittenRow(bytes: seq<byte>, start: seq<byte>, rows: seq<seq<byte>>, y: nat, length: nat, crc: bv32, adler: nat,
                   crc': bv32, adler': nat)
    requires Written(bytes, start, rows, y, length, crc, adler) && y < |rows| && Running(rows, y + 1, crc', adler')
    ensures Written(bytes + Block(y + 1 == |rows|, rows[y]), start, rows, y + 1, length, crc', adler')
  {
    RegroupEnd(start + FileStart(WIDTH, |rows|, length), Blocks(rows, y), Block(y + 1 == |rows|, rows[y]));
  }

  lemma WrittenAll(bytes: seq<byte>, start: seq<byte>, rows: seq<seq<byte>>, length: nat, crc: bv32, adler: nat)
    requires Written(bytes, start, rows, |rows|, length, crc, adler) && length == |Stream(rows)|
    ensures bytes + FileEnd(crc, adler) == start + File(WIDTH, rows)
  {
    PartsAreFile(WIDTH, rows, crc, adler, length);
    var front, blocks := FileStart(WIDTH, |rows|, length), Blocks(rows, |rows|);
    RegroupEnd(start, front, blocks);
    RegroupEnd(start, front + blocks, FileEnd(crc, adler));
  }

  /** One output row, from the source line to the file. */
  method SaveRow(camera: Camera, port: ScreenPort, file: OutFile, flags: byte, y: nat, cached: nat, crc: bv32,
                 adler: nat, ghost start: seq<byte>, ghost rows: seq<seq<byte>>, ghost length: nat)
    returns (ok: bool, cached': nat, crc': bv32, adler': nat)
    requires camera.Valid() && Frame(port.frame) && y < HEIGHT && rows == WideRows(port.frame, flags, HEIGHT)
    requires cached < LINES ==> camera.pngRow[..] == WideRow(Line(port.frame, cached), flags)
    requires Written(file.bytes, start, rows, y, length, crc, adler)
    modifies camera.sourceRow, camera.pngRow, file
    ensures ok ==> cached' < LINES && camera.pngRow[..] == WideRow(Line(port.frame, cached'), flags)
    ensures ok ==> Written(file.bytes, start, rows, y + 1, length, crc', adler')
    ensures port.reliable && file.reliable ==> ok
  {
    ok, cached' := ShowRow(camera, port, flags, y, cached);
    crc', adler' := crc, adler;
    if ok {
      ghost var before := file.bytes;
      var row := camera.pngRow[..];
      ok, crc', adler' := WriteRow(file, row, crc, adler, rows, y, HEIGHT);
      WrittenRow(before, start, rows, y, length, crc, adler, crc', adler');
    }
  }

  /** Everything before the first row; the length of the image data is known before any of it. */
  method BeginPicture(file: OutFile, ghost rows: seq<seq<byte>>) returns (ok: bool, length: nat, crc: bv32, adler: nat)
    requires Png.Rows(rows) && |rows| == HEIGHT && forall y :: 0 <= y < |rows| ==> |rows[y]| == 1 + 3 * WIDTH
    modifies file
    ensures length == |Stream(rows)|
    ensures ok ==> Written(file.bytes, old(file.bytes), rows, 0, length, crc, adler)
    ensures file.reliable ==> ok
  {
    length := 2 + HEIGHT * (5 + (1 + 3 * WIDTH)) + 4;
    StreamLength(rows, 1 + 3 * WIDTH);
    crc := UpdateCrc32(ALL_ONES, IDAT);
    crc := UpdateCrc32(crc, [0x78, 0x01]);
    StartRunning(rows, crc);
    adler := 1;
    ok := WriteStart(file, WIDTH, HEIGHT, length);
    assert Blocks(rows, 0) == [];
  }

  /**
   * The whole screenshot: source lines read when they change, decoded once into the row buffer, and
   * written as often as the aspect correction shows them.
   */
  method SavePicture(camera: Camera, port: ScreenPort, file: OutFile, flags: byte) returns (ok: bool)
    requires camera.Valid() && Frame(port.frame)
    modifies camera.sourceRow, camera.pngRow, file
    ensures ok ==> file.bytes == old(file.bytes) + File(WIDTH, WideRows(port.frame, flags, HEIGHT))
    ensures port.reliable && file.reliable ==> ok
  {
    ghost var rows, start := WideRows(port.frame, flags, HEIGHT), file.bytes;
    var length, crc, adler;
    ok, length, crc, adler := BeginPicture(file, rows);
    if !ok {
      return;
    }
    var cached: nat := LINES;
    for y := 0 to HEIGHT
      invariant Written(file.bytes, start, rows, y, length, crc, adler)
      invariant cached < LINES ==> camera.pngRow[..] == WideRow(Line(port.frame, cached), flags)
    {
      ok, cached, crc, adler := SaveRow(camera, port, file, flags, y, cached, crc, adler, start, rows, length);
      if !ok {
        return;
      }
    }
    WrittenAll(file.bytes, start, rows, length, crc, adler);
    ok := WriteEnd(file, crc, adler);
  }

  lemma CellPlace(word: nat, step: nat)
    requires step < 4
    ensures (4 * word + step) / 4 == word && (4 * word + step) % 4 == step
  {
  }

  lemma PixelPlace(word: nat, step: nat)
    requires step < 8
    ensures (8 * word + step) / 8 == word && (8 * word + step) % 8 == step
  {
  }

  lemma CellPixel(src: seq<byte>, flags: byte, x: nat, cell: nat)
    requires |src| == STRIDE && cell < 2 * |src| && !Blank(flags) && Wide8(flags) && 2 * cell <= x < 2 * cell + 2
    ensures Pixel(src, flags, x) == Shown8(src, flags, cell)
  {
    assert x / 2 == cell;
  }

  lemma PixelsStep(src: seq<byte>, flags: byte, x: nat, c: Color)
    requires |src| == STRIDE && x < 4 * |src| && c == Pixel(src, flags, x)
    ensures Pixels(src, flags, x + 1) == Pixels(src, flags, x) + [c]
  {
  }

  /** What a mode 8 cell adds to the row. */
  lemma CellPixels(src: seq<byte>, flags: byte, cell: nat, c: Color)
    requires |src| == STRIDE && cell < 2 * |src| && !Blank(flags) && Wide8(flags) && c == Shown8(src, flags, cell)
    ensures Pixels(src, flags, 2 * (cell + 1)) == Pixels(src, flags, 2 * cell) + [c] + [c]
  {
    var x := 2 * cell;
    CellPixel(src, flags, x, cell);
    CellPixel(src, flags, x + 1, cell);
    TwoPixels(src, flags, x, c);
    assert 2 * (cell + 1) == x + 2;
  }

  lemma TwoPixels(src: seq<byte>, flags: byte, x: nat, c: Color)
    requires |src| == STRIDE && x + 1 < 4 * |src| && c == Pixel(src, flags, x) && c == Pixel(src, flags, x + 1)
    ensures Pixels(src, flags, x + 2) == Pixels(src, flags, x) + [c] + [c]
  {
    PixelsStep(src, flags, x, c);
    PixelsStep(src, flags, x + 1, c);
  }

  /** What the program computes from the two bytes of a word is the colour and the flash bit of the cell. */
  lemma CellBits(src: seq<byte>, cell: nat, step: nat, high: byte, low: byte)
    requires |src| == STRIDE && cell < 2 * |src| && step == cell % 4
    requires high == src[cell / 4 * 2] && low == src[cell / 4 * 2 + 1]
    ensures var shift := 6 - 2 * step;
            && 4 * BitOf(high, shift + 1) + 2 * BitOf(low, shift + 1) + BitOf(low, shift) == Color8(src, cell)
            && (BitOf(high, shift) == 1 <==> FlashBit(src, cell))
  {
  }

  lemma LatchStep(src: seq<byte>, cell: nat, flash: bool, shade: Color)
    requires |src| == STRIDE && cell < 2 * |src| && flash == FlashBit(src, cell) && shade == Color8(src, cell)
    ensures LatchAt(src, cell + 1) == if flash then Latch(!LatchAt(src, cell).on, shade) else LatchAt(src, cell)
  {
  }

  // ----- The desktop: decode every line, then scale

  /** The native row as far as its first `x` pixels. */
  ghost function NativeUpTo(src: seq<byte>, flags: byte, x: nat): (r: seq<byte>)
    requires |src| == STRIDE && x <= 4 * |src|
  {
    Native(Pixels(src, flags, x))
  }

  /** A cell of mode 8 on the desktop: two pixels of the native row. */
  lemma NativeCell(src: seq<byte>, flags: byte, cell: nat, c: Color)
    requires |src| == STRIDE && cell < 2 * |src| && !Blank(flags) && Wide8(flags) && c == Shown8(src, flags, cell)
    ensures Native(Pixels(src, flags, 2 * (cell + 1)))
         == Native(Pixels(src, flags, 2 * cell)) + (Palette(c) + Palette(c))
  {
    CellPixels(src, flags, cell, c);
    NativeStep(Pixels(src, flags, 2 * cell), c);
    NativeStep(Pixels(src, flags, 2 * cell) + [c], c);
  }

  lemma NativeStep(colors: seq<Color>, c: Color)
    ensures Native(colors + [c]) == Native(colors) + Palette(c)
  {
    assert (colors + [c])[..|colors + [c]| - 1] == colors;
  }

  lemma {:induction false} NativeBlack(colors: seq<Color>)
    requires forall i :: 0 <= i < |colors| ==> colors[i] == 0
    ensures Native(colors) == Fill(1 + 3 * |colors|, 0)
    decreases |colors|
  {
    if colors != [] {
      NativeBlack(colors[..|colors| - 1]);
    }
  }

  /** The row so far holds the first `cell` cells of mode 8, and the latch is as they leave it. */
  ghost predicate RowCells(row: seq<byte>, src: seq<byte>, flags: byte, cell: nat, latch: Latch)
    requires |src| == STRIDE && cell <= 2 * |src|
  {
    row == NativeUpTo(src, flags, 2 * cell) && latch == LatchAt(src, cell)
  }

  method DesktopCell(src: seq<byte>, word: nat, step: nat, flags: byte, before: seq<byte>, latch: Latch,
                     ghost cell: nat)
    returns (row: seq<byte>, latch': Latch)
    requires |src| == STRIDE && cell < 2 * |src| && !Blank(flags) && Wide8(flags) && cell == 4 * word + step && step < 4
    requires RowCells(before, src, flags, cell, latch)
    ensures RowCells(row, src, flags, cell + 1, latch')
  {
    var high, low := src[2 * word], src[2 * word + 1];
    var shift := 6 - 2 * step;
    var shade := 4 * BitOf(high, shift + 1) + 2 * BitOf(low, shift + 1) + BitOf(low, shift);
    var displayed := if latch.on && FlashOff(flags) then latch.color else shade;
    CellPlace(word, step);
    CellBits(src, cell, step, high, low);
    LatchStep(src, cell, BitOf(high, shift) == 1, shade);
    NativeCell(src, flags, cell, displayed);
    row := before + (Palette(displayed) + Palette(displayed));
    latch' := latch;
    if BitOf(high, shift) == 1 {
      latch' := Latch(!latch.on, shade);
    }
  }

  method DesktopWord8(src: seq<byte>, flags: byte, word: nat, before: seq<byte>, latch: Latch, ghost first: nat)
    returns (row: seq<byte>, latch': Latch)
    requires |src| == STRIDE && word < 64 && !Blank(flags) && Wide8(flags) && first == 4 * word
    requires RowCells(before, src, flags, first, latch)
    ensures RowCells(row, src, flags, first + 4, latch')
  {
    row, latch' := before, latch;
    ghost var cell := first;
    for step := 0 to 4
      invariant cell == first + step && RowCells(row, src, flags, cell, latch')
    {
      row, latch' := DesktopCell(src, word, step, flags, row, latch', cell);
      cell := cell + 1;
    }
  }

  method DesktopPixel(src: seq<byte>, word: nat, step: nat, flags: byte, before: seq<byte>, ghost x: nat)
    returns (row: seq<byte>)
    requires |src| == STRIDE && x < 4 * |src| && !Blank(flags) && !Wide8(flags) && x == 8 * word + step && step < 8
    requires before == NativeUpTo(src, flags, x)
    ensures row == NativeUpTo(src, flags, x + 1)
  {
    var high, low := src[2 * word], src[2 * word + 1];
    var color := Mode4Color(BitOf(high, 7 - step), BitOf(low, 7 - step));
    PixelPlace(word, step);
    PixelsStep(src, flags, x, color);
    NativeStep(Pixels(src, flags, x), color);
    row := before + Palette(color);
  }

  method DesktopWord4(src: seq<byte>, flags: byte, word: nat, before: seq<byte>, ghost first: nat)
    returns (row: seq<byte>)
    requires |src| == STRIDE && word < 64 && !Blank(flags) && !Wide8(flags) && first == 8 * word
    requires before == NativeUpTo(src, flags, first)
    ensures row == NativeUpTo(src, flags, first + 8)
  {
    row := before;
    ghost var x := first;
    for step := 0 to 8
      invariant x == first + step && row == NativeUpTo(src, flags, x)
    {
      row := DesktopPixel(src, word, step, flags, row, x);
      x := x + 1;
    }
  }

  method DesktopBlank(src: seq<byte>, flags: byte) returns (row: seq<byte>)
    requires |src| == STRIDE && Blank(flags)
    ensures row == NativeRow(src, flags)
  {
    row := [0];
    for word := 0 to 64
      invariant row == Fill(1 + 24 * word, 0)
    {
      row := row + Fill(24, 0);
    }
    BlankPixels(src, flags, 4 * |src|);
    NativeBlack(LinePixels(src, flags));
  }

  method DesktopLine8(src: seq<byte>, flags: byte) returns (row: seq<byte>)
    requires |src| == STRIDE && !Blank(flags) && Wide8(flags)
    ensures row == NativeRow(src, flags)
  {
    row := [0];
    var latch := Latch(false, 0);
    ghost var cell := 0;
    for word := 0 to 64
      invariant cell == 4 * word && RowCells(row, src, flags, cell, latch)
    {
      row, latch := DesktopWord8(src, flags, word, row, latch, cell);
      cell := cell + 4;
    }
  }

  method DesktopLine4(src: seq<byte>, flags: byte) returns (row: seq<byte>)
    requires |src| == STRIDE && !Blank(flags) && !Wide8(flags)
    ensures row == NativeRow(src, flags)
  {
    row := [0];
    ghost var x := 0;
    for word := 0 to 64
      invariant x == 8 * word && row == NativeUpTo(src, flags, x)
    {
      row := DesktopWord4(src, flags, word, row, x);
      x := x + 8;
    }
  }

  /** The native row of one line. */
  method DesktopLine(src: seq<byte>, flags: byte) returns (row: seq<byte>)
    requires |src| == STRIDE
    ensures row == NativeRow(src, flags)
  {
    if Blank(flags) {
      row := DesktopBlank(src, flags);
    } else if Wide8(flags) {
      row := DesktopLine8(src, flags);
    } else {
      row := DesktopLine4(src, flags);
    }
  }

  /** The first pass: all lines at native resolution. */
  method DecodeFrame(frame: seq<byte>, flags: byte) returns (rows: seq<byte>)
    requires Frame(frame)
    ensures rows == Flatten(NativeRows(frame, flags, LINES))
  {
    rows := [];
    for y := 0 to LINES
      invariant rows == Flatten(NativeRows(frame, flags, y))
    {
      var row := DesktopLine(frame[y * STRIDE..(y + 1) * STRIDE], flags);
      FlattenSnoc(NativeRows(frame, flags, y), row);
      rows := rows + row;
    }
  }

  lemma FlattenSnoc(rows: seq<seq<byte>>, row: seq<byte>)
    ensures Flatten(rows + [row]) == Flatten(rows) + row
  {
    assert (rows + [row])[..|rows + [row]| - 1] == rows;
  }

  /** One row of the second pass: each pixel of a native row twice. */
  method ScaleRow(rows: seq<byte>, start: nat, ghost row: seq<byte>) returns (scaled: seq<byte>)
    requires |row| == 1 + 3 * (WIDTH / 2) && start >= 1 && start + 3 * (WIDTH / 2) <= |rows|
    requires rows[start - 1..start + 3 * (WIDTH / 2)] == row
    ensures scaled == DoublePart(row, WIDTH / 2)
  {
    scaled := [0];
    for x := 0 to WIDTH / 2
      invariant scaled == DoublePart(row, x)
    {
      var pixel := rows[start + 3 * x..start + 3 * x + 3];
      assert pixel == row[3 * x + 1..3 * x + 4];
      DoubleStep(row, x, pixel);
      scaled := scaled + pixel + pixel;
    }
  }

  /** One output row from the rows of the first pass. */
  method ScaleLine(frame: seq<byte>, flags: byte, rows: seq<byte>, y: nat) returns (row: seq<byte>)
    requires Frame(frame) && y < HEIGHT && rows == Flatten(NativeRows(frame, flags, LINES))
    ensures row == WideRow(Line(frame, SourceLine(y)), flags)
  {
    var sourceY: nat := y * LINES / HEIGHT;
    var start: nat := sourceY * 1537 + 1;
    NativeRowAt(frame, flags, rows, sourceY, start - 1);
    row := ScaleRow(rows, start, NativeRow(Line(frame, sourceY), flags));
    FusedIsTwoPass(Line(frame, sourceY), flags);
  }

  lemma NativeRowAt(frame: seq<byte>, flags: byte, rows: seq<byte>, s: nat, start: nat)
    requires Frame(frame) && s < LINES && rows == Flatten(NativeRows(frame, flags, LINES)) && start == s * 1537
    ensures start + 1537 <= |rows| && rows[start..start + 1537] == NativeRow(Line(frame, s), flags)
  {
    FlattenPart(NativeRows(frame, flags, LINES), 1537, s, start);
  }

  /** The second pass, over the rows of the first. */
  method ScaleFrame(frame: seq<byte>, flags: byte, rows: seq<byte>) returns (scaled: seq<byte>)
    requires Frame(frame) && rows == Flatten(NativeRows(frame, flags, LINES))
    ensures scaled == Flatten(WideRows(frame, flags, HEIGHT))
  {
    scaled := [];
    for y := 0 to HEIGHT
      invariant scaled == Flatten(WideRows(frame, flags, y))
    {
      var row := ScaleLine(frame, flags, rows, y);
      FlattenSnoc(WideRows(frame, flags, y), row);
      scaled := scaled + row;
    }
  }

  /** What the desktop puts into its picture, native or scaled. */
  method DesktopRows(frame: seq<byte>, flags: byte, native: bool) returns (rows: seq<byte>, width: nat, height: nat)
    requires Frame(frame)
    ensures native ==> rows == Flatten(NativeRows(frame, flags, LINES)) && width == 512 && height == 256
    ensures !native ==> rows == Flatten(WideRows(frame, flags, HEIGHT)) && width == WIDTH && height == HEIGHT
  {
    rows := DecodeFrame(frame, flags);
    width, height := 512, 256;
    if !native {
      width, height := WIDTH, HEIGHT;
      rows := ScaleFrame(frame, flags, rows);
    }
  }

  /**
   * The firmware's file, read back by an independent reader, is the picture whose rows the desktop
   * computes in two passes: for every frame and every flag value.
   */
  lemma PictureReadsBack(frame: seq<byte>, flags: byte)
    requires Frame(frame)
    ensures ReadFile(File(WIDTH, WideRows(frame, flags, HEIGHT)))
         == Done(Picture(WIDTH, HEIGHT, Flatten(WideRows(frame, flags, HEIGHT))))
  {
    FileRoundTrip(WIDTH, WideRows(frame, flags, HEIGHT));
  }
}
