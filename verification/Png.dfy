/**
 * PNG files with stored image data: how the firmware writes them, and an independent reader after
 * RFC 1950 (section 2.2), RFC 1951 (section 3.2.4) and RFC 2083 (section 3.2).
 */
module Png {
  import opened Bytes
  import opened Checksums

  // ----- Adler-32

  const ADLER_MOD: nat := 65521

  /** The sum of all sums 1 + d0 + ... + dk, one for each byte. */
  function SumOfSums(data: seq<byte>): nat {
    if data == [] then 0 else SumOfSums(data[..|data| - 1]) + 1 + Sum(data)
  }

  /** The definition of section 8.2 of RFC 1950, without reducing on the way. */
  function Adler32(data: seq<byte>): (r: nat)
    ensures r < 0x1_0000_0000
  {
    SumOfSums(data) % ADLER_MOD * 0x1_0000 + (1 + Sum(data)) % ADLER_MOD
  }

  /** Both running sums, reduced at every byte. */
  predicate Sums(a: nat, b: nat, data: seq<byte>) {
    a == (1 + Sum(data)) % ADLER_MOD && b == SumOfSums(data) % ADLER_MOD
  }

  /** The two sums are the halves of the checksum word. */
  lemma SumsAreAdler(adler: nat, a: nat, b: nat, data: seq<byte>)
    ensures adler == Adler32(data) ==> Sums(adler % 0x1_0000, adler / 0x1_0000, data)
    ensures Sums(a, b, data) ==> b * 0x1_0000 + a == Adler32(data)
  {
    Halves(adler, SumOfSums(data) % ADLER_MOD, (1 + Sum(data)) % ADLER_MOD);
  }

  lemma Halves(n: nat, hi: nat, lo: nat)
    requires lo < 0x1_0000
    ensures n / 0x1_0000 == hi && n % 0x1_0000 == lo <==> n == hi * 0x1_0000 + lo
  {
  }

  lemma SumSnoc(data: seq<byte>, b: byte)
    ensures Sum(data + [b]) == Sum(data) + b
    ensures SumOfSums(data + [b]) == SumOfSums(data) + 1 + Sum(data) + b
  {
    SumAppend(data, [b]);
    SumOne(b);
    assert (data + [b])[..|data + [b]| - 1] == data;
  }

  lemma ReduceFirst(x: nat, y: nat)
    ensures (x % ADLER_MOD + y) % ADLER_MOD == (x + y) % ADLER_MOD
  {
    var q := x / ADLER_MOD;
    assert x == q * ADLER_MOD + x % ADLER_MOD;
    SameRest(x % ADLER_MOD + y, q);
  }

  lemma SameRest(r: nat, q: nat)
    ensures (r + q * ADLER_MOD) % ADLER_MOD == r % ADLER_MOD
  {
  }

  lemma ReduceBoth(x: nat, y: nat)
    ensures (x % ADLER_MOD + y % ADLER_MOD) % ADLER_MOD == (x + y) % ADLER_MOD
  {
    ReduceFirst(x, y % ADLER_MOD);
    ReduceFirst(y, x);
  }

  lemma AdlerStep(seen: seq<byte>, v: byte, a: nat, b: nat)
    requires Sums(a, b, seen)
    ensures Sums((a + v as int) % ADLER_MOD, (b + (a + v as int) % ADLER_MOD) % ADLER_MOD, seen + [v])
  {
    SumSnoc(seen, v);
    ReducedStep(1 + Sum(seen), SumOfSums(seen), v, a, b);
  }

  lemma ReducedStep(x: nat, y: nat, v: nat, a: nat, b: nat)
    requires a == x % ADLER_MOD && b == y % ADLER_MOD
    ensures (a + v) % ADLER_MOD == (x + v) % ADLER_MOD
    ensures (b + (a + v) % ADLER_MOD) % ADLER_MOD == (y + (x + v)) % ADLER_MOD
  {
    ReduceFirst(x, v);
    ReduceBoth(y, x + v);
  }

  /** The firmware's running Adler-32: both sums stay below 65521, and it equals the whole-message definition. */
  method UpdateAdler32(adler: nat, data: seq<byte>, ghost before: seq<byte>) returns (r: nat)
    requires adler == Adler32(before)
    ensures r == Adler32(before + data)
  {
    var a: nat, b: nat := adler % 0x1_0000, adler / 0x1_0000;
    SumsAreAdler(adler, a, b, before);
    assert before + data[..0] == before;
    for i := 0 to |data|
      invariant a < ADLER_MOD && b < ADLER_MOD && Sums(a, b, before + data[..i])
    {
      AdlerStep(before + data[..i], data[i], a, b);
      a := (a + data[i] as int) % ADLER_MOD;
      b := (b + a) % ADLER_MOD;
      assert before + data[..i + 1] == before + data[..i] + [data[i]];
    }
    assert data[..|data|] == data;
    SumsAreAdler(adler, a, b, before + data);
    r := b * 0x1_0000 + a;
  }

  // ----- Stored blocks

  /** Little-endian, as the length of a stored block is sent. */
  function Le16(n: nat): (s: seq<byte>)
    ensures |s| == 2
  {
    [n % 256, n / 256 % 256]
  }

  function FromLe16(s: seq<byte>): nat
    requires |s| == 2
  {
    s[0] as int + 256 * (s[1] as int)
  }

  lemma Le16RoundTrip(n: nat)
    requires n < 0x1_0000
    ensures FromLe16(Le16(n)) == n
  {
  }

  /** The head of a stored block: whether it is the last, its length, and the complement of that. */
  function BlockHead(last: bool, length: nat): (s: seq<byte>)
    requires length < 0x1_0000
    ensures |s| == 5
  {
    [if last then 1 else 0] + Le16(length) + Le16(0xFFFF - length)
  }

  /** One row in a stored block of its own; only the last block is marked final. */
  function Block(last: bool, row: seq<byte>): seq<byte>
    requires |row| < 0x1_0000
  {
    BlockHead(last, |row|) + row
  }

  predicate Rows(rows: seq<seq<byte>>) {
    forall i :: 0 <= i < |rows| ==> |rows[i]| < 0x1_0000
  }

  /** The blocks of the first `n` rows of `rows`. */
  function Blocks(rows: seq<seq<byte>>, n: nat): seq<byte>
    requires Rows(rows) && n <= |rows|
  {
    if n == 0 then [] else Blocks(rows, n - 1) + Block(n == |rows|, rows[n - 1])
  }

  /** A complete zlib stream. */
  function Stream(rows: seq<seq<byte>>): seq<byte>
    requires Rows(rows)
  {
    [0x78, 0x01] + Blocks(rows, |rows|) + Be32(Adler32(Flatten(rows)))
  }

  // ----- An independent reader of such streams

  datatype Inflated = Inflated(data: seq<byte>, rest: seq<byte>)

  /** Section 3.2.4 of RFC 1951: a header of three bits, the length and its complement, the bytes. */
  function Inflate(s: seq<byte>): Outcome<Inflated>
    decreases |s|
  {
    if |s| < 5 || s[0] / 2 % 4 != 0 then Rejected
    else
      var length := FromLe16(s[1..3]);
      if FromLe16(s[3..5]) != 0xFFFF - length || |s| - 5 < length then Rejected
      else if s[0] % 2 == 1 then Done(Inflated(s[5..5 + length], s[5 + length..]))
      else
        match Inflate(s[5 + length..])
        case Rejected => Rejected
        case Done(more) => Done(Inflated(s[5..5 + length] + more.data, more.rest))
  }

  /** Section 2.2 of RFC 1950: method 8, a window, the header check, no dictionary, and the Adler-32. */
  function Unzip(s: seq<byte>): Outcome<seq<byte>> {
    if |s| < 2 || s[0] % 16 != 8 || s[0] / 16 > 7 then Rejected
    else if ((s[0] as int) * 256 + s[1] as int) % 31 != 0 || s[1] / 32 % 2 != 0 then Rejected
    else
      match Inflate(s[2..])
      case Rejected => Rejected
      case Done(r) =>
        if |r.rest| == 4 && FromBe32(r.rest) == Adler32(r.data) then Done(r.data) else Rejected
  }

  /** The blocks of the rows from `n` on. */
  function BlocksFrom(rows: seq<seq<byte>>, n: nat): seq<byte>
    requires Rows(rows) && n <= |rows|
    decreases |rows| - n
  {
    if n == |rows| then [] else Block(n + 1 == |rows|, rows[n]) + BlocksFrom(rows, n + 1)
  }

  lemma {:induction false} BlocksSplit(rows: seq<seq<byte>>, n: nat)
    requires Rows(rows) && n <= |rows|
    ensures Blocks(rows, |rows|) == Blocks(rows, n) + BlocksFrom(rows, n)
    decreases |rows| - n
  {
    if n < |rows| {
      BlocksSplit(rows, n + 1);
      Regroup(Blocks(rows, n), Block(n + 1 == |rows|, rows[n]), BlocksFrom(rows, n + 1));
    }
  }

  function FlattenFrom(rows: seq<seq<byte>>, n: nat): seq<byte>
    requires n <= |rows|
    decreases |rows| - n
  {
    if n == |rows| then [] else rows[n] + FlattenFrom(rows, n + 1)
  }

  lemma {:induction false} FlattenSplit(rows: seq<seq<byte>>, n: nat)
    requires n <= |rows|
    ensures Flatten(rows) == Flatten(rows[..n]) + FlattenFrom(rows, n)
    decreases |rows| - n
  {
    if n < |rows| {
      FlattenSplit(rows, n + 1);
      FlattenStep(rows, n);
    } else {
      assert rows[..n] == rows;
    }
  }

  /** The parts of a block, as the reader cuts them. */
  lemma BlockParts(last: bool, row: seq<byte>, after: seq<byte>)
    requires |row| < 0x1_0000
    ensures var s := Block(last, row) + after;
            && |s| == 5 + |row| + |after| && s[0] == (if last then 1 else 0)
            && FromLe16(s[1..3]) == |row| && FromLe16(s[3..5]) == 0xFFFF - |row|
            && s[5..5 + |row|] == row && s[5 + |row|..] == after
  {
    var s := Block(last, row) + after;
    Le16RoundTrip(|row|);
    Le16RoundTrip(0xFFFF - |row|);
    assert s[1..3] == Le16(|row|) && s[3..5] == Le16(0xFFFF - |row|);
  }

  lemma InflateBlock(last: bool, row: seq<byte>, after: seq<byte>)
    requires |row| < 0x1_0000
    ensures last ==> Inflate(Block(last, row) + after) == Done(Inflated(row, after))
    ensures !last && Inflate(after).Done? ==>
              Inflate(Block(last, row) + after)
              == Done(Inflated(row + Inflate(after).value.data, Inflate(after).value.rest))
  {
    BlockParts(last, row, after);
  }

  lemma {:induction false} InflateBlocks(rows: seq<seq<byte>>, n: nat, tail: seq<byte>)
    requires Rows(rows) && n < |rows|
    ensures Inflate(BlocksFrom(rows, n) + tail) == Done(Inflated(FlattenFrom(rows, n), tail))
    decreases |rows| - n
  {
    var last, after := n + 1 == |rows|, BlocksFrom(rows, n + 1) + tail;
    Regroup(Block(last, rows[n]), BlocksFrom(rows, n + 1), tail);
    InflateBlock(last, rows[n], after);
    if last {
      assert after == tail && FlattenFrom(rows, n) == rows[n];
    } else {
      InflateBlocks(rows, n + 1, tail);
    }
  }

  lemma Regroup(a: seq<byte>, b: seq<byte>, c: seq<byte>)
    ensures a + b + c == a + (b + c)
  {
  }

  /** The wrapper around a deflated part, as the reader takes it off. */
  lemma UnzipWrapped(part: seq<byte>, data: seq<byte>, tail: seq<byte>)
    requires Inflate(part) == Done(Inflated(data, tail))
    requires |tail| == 4 && FromBe32(tail) == Adler32(data)
    ensures Unzip([0x78, 0x01] + part) == Done(data)
  {
    var s := [0x78, 0x01] + part;
    assert s[0] == 0x78 && s[1] == 1 && s[2..] == part;
  }

  /** Every stream the firmware can write reads back as exactly its rows. */
  lemma StreamRoundTrip(rows: seq<seq<byte>>)
    requires Rows(rows) && rows != []
    ensures Unzip(Stream(rows)) == Done(Flatten(rows))
  {
    var tail := Be32(Adler32(Flatten(rows)));
    WholeStream(rows);
    InflateBlocks(rows, 0, tail);
    Be32RoundTrip(Adler32(Flatten(rows)));
    UnzipWrapped(BlocksFrom(rows, 0) + tail, Flatten(rows), tail);
  }

  lemma WholeStream(rows: seq<seq<byte>>)
    requires Rows(rows)
    ensures Stream(rows) == [0x78, 0x01] + (BlocksFrom(rows, 0) + Be32(Adler32(Flatten(rows))))
    ensures Flatten(rows) == FlattenFrom(rows, 0)
  {
    BlocksSplit(rows, 0);
    FlattenSplit(rows, 0);
    assert rows[..0] == [];
  }

  lemma {:induction false} BlocksLength(rows: seq<seq<byte>>, n: nat, width: nat)
    requires Rows(rows) && n <= |rows| && forall i :: 0 <= i < |rows| ==> |rows[i]| == width
    ensures |Blocks(rows, n)| == n * (5 + width)
  {
    if n > 0 {
      BlocksLength(rows, n - 1, width);
      assert (n - 1) * (5 + width) + (5 + width) == n * (5 + width);
    }
  }

  /** The length that the IDAT header announces before a single row is known. */
  lemma StreamLength(rows: seq<seq<byte>>, width: nat)
    requires Rows(rows) && forall i :: 0 <= i < |rows| ==> |rows[i]| == width
    ensures |Stream(rows)| == 2 + |rows| * (5 + width) + 4
  {
    BlocksLength(rows, |rows|, width);
  }

  // ----- Chunks

  const SIGNATURE: seq<byte> := [137, 80, 78, 71, 13, 10, 26, 10]
  const IHDR: seq<byte> := [0x49, 0x48, 0x44, 0x52]
  const IDAT: seq<byte> := [0x49, 0x44, 0x41, 0x54]
  const IEND: seq<byte> := [0x49, 0x45, 0x4E, 0x44]

  function Number(crc: bv32): (n: nat)
    ensures n < 0x1_0000_0000
  {
    crc as nat
  }

  /** Length, type, data, and the CRC-32 of type and data. */
  function ChunkOf(kind: seq<byte>, data: seq<byte>): seq<byte>
    requires |kind| == 4
  {
    Be32(|data|) + kind + data + Be32(Number(Crc32(kind + data)))
  }

  /** Size, 8 bits a sample, truecolour, and the only methods there are. */
  function Header(width: nat, height: nat): (s: seq<byte>)
    ensures |s| == 13
  {
    Be32(width) + Be32(height) + [8, 2, 0, 0, 0]
  }

  /** A whole file of truecolour rows, each already behind its filter byte. */
  function File(width: nat, rows: seq<seq<byte>>): seq<byte>
    requires Rows(rows)
  {
    SIGNATURE + ChunkOf(IHDR, Header(width, |rows|)) + ChunkOf(IDAT, Stream(rows)) + ChunkOf(IEND, [])
  }

  datatype Chunk = Chunk(kind: seq<byte>, data: seq<byte>)

  /** Section 3.2 of RFC 2083: chunks to the end of the file, every CRC checked. */
  function ReadChunks(s: seq<byte>): Outcome<seq<Chunk>>
    decreases |s|
  {
    if s == [] then Done([])
    else if |s| < 12 then Rejected
    else
      var length := FromBe32(s[..4]);
      if |s| - 12 < length then Rejected
      else
        var kind, data := s[4..8], s[8..8 + length];
        if FromBe32(s[8 + length..12 + length]) != Number(Crc32(kind + data)) then Rejected
        else
          match ReadChunks(s[12 + length..])
          case Rejected => Rejected
          case Done(more) => Done([Chunk(kind, data)] + more)
  }

  datatype Picture = Picture(width: nat, height: nat, rows: seq<byte>)

  /** Truecolour, not interlaced, with one IDAT chunk: the size and the filtered rows. */
  function ReadFile(s: seq<byte>): Outcome<Picture> {
    if |s| < 8 || s[..8] != SIGNATURE then Rejected
    else
      match ReadChunks(s[8..])
      case Rejected => Rejected
      case Done(c) =>
        if |c| != 3 || c[0].kind != IHDR || c[1].kind != IDAT || c[2] != Chunk(IEND, []) then Rejected
        else if |c[0].data| != 13 || c[0].data[8..] != [8, 2, 0, 0, 0] then Rejected
        else
          var width, height := FromBe32(c[0].data[..4]), FromBe32(c[0].data[4..8]);
          match Unzip(c[1].data)
          case Rejected => Rejected
          case Done(rows) => if |rows| != height * Pitch(width) then Rejected else Done(Picture(width, height, rows))
  }

  lemma ChunkParts(kind: seq<byte>, data: seq<byte>, rest: seq<byte>)
    requires |kind| == 4 && |data| < 0x1_0000_0000
    ensures var s := ChunkOf(kind, data) + rest;
            && |s| == 12 + |data| + |rest| && FromBe32(s[..4]) == |data| && s[4..8] == kind && s[8..8 + |data|] == data
            && FromBe32(s[8 + |data|..12 + |data|]) == Number(Crc32(kind + data)) && s[12 + |data|..] == rest
  {
    var s := ChunkOf(kind, data) + rest;
    var crc := Number(Crc32(kind + data));
    Be32RoundTrip(|data|);
    Be32RoundTrip(crc);
    assert s[..4] == Be32(|data|) && s[8 + |data|..12 + |data|] == Be32(crc);
  }

  lemma ReadChunk(kind: seq<byte>, data: seq<byte>, rest: seq<byte>, more: seq<Chunk>)
    requires |kind| == 4 && |data| < 0x1_0000_0000 && ReadChunks(rest) == Done(more)
    ensures ReadChunks(ChunkOf(kind, data) + rest) == Done([Chunk(kind, data)] + more)
  {
    ChunkParts(kind, data, rest);
  }

  lemma OneMoreChunk(a: Chunk, rest: seq<byte>, more: seq<Chunk>, all: seq<Chunk>)
    requires |a.kind| == 4 && |a.data| < 0x1_0000_0000 && ReadChunks(rest) == Done(more) && all == [a] + more
    ensures ReadChunks(ChunkOf(a.kind, a.data) + rest) == Done(all)
  {
    ReadChunk(a.kind, a.data, rest, more);
  }

  lemma ThreeChunks(a: Chunk, b: Chunk, c: Chunk, tail: seq<byte>, both: seq<byte>)
    requires |a.kind| == |b.kind| == |c.kind| == 4
    requires |a.data| < 0x1_0000_0000 && |b.data| < 0x1_0000_0000 && |c.data| < 0x1_0000_0000
    requires tail == ChunkOf(c.kind, c.data) && both == ChunkOf(b.kind, b.data) + tail
    ensures ReadChunks(ChunkOf(a.kind, a.data) + both) == Done([a, b, c])
  {
    LastChunk(c, tail);
    OneMoreChunk(b, tail, [c], [b, c]);
    OneMoreChunk(a, both, [b, c], [a, b, c]);
  }

  lemma LastChunk(c: Chunk, tail: seq<byte>)
    requires |c.kind| == 4 && |c.data| < 0x1_0000_0000 && tail == ChunkOf(c.kind, c.data)
    ensures ReadChunks(tail) == Done([c])
  {
    assert tail == ChunkOf(c.kind, c.data) + [];
    OneMoreChunk(c, [], [], [c]);
  }

  lemma AfterSignature(first: seq<byte>, second: seq<byte>, third: seq<byte>)
    ensures var s := SIGNATURE + first + second + third;
            |s| >= 8 && s[..8] == SIGNATURE && s[8..] == first + (second + third)
  {
  }

  /** The chunks of a file, as the reader finds them. */
  lemma FileChunks(width: nat, rows: seq<seq<byte>>)
    requires Rows(rows) && |Stream(rows)| < 0x1_0000_0000
    ensures |File(width, rows)| >= 8 && File(width, rows)[..8] == SIGNATURE
    ensures ReadChunks(File(width, rows)[8..])
         == Done([Chunk(IHDR, Header(width, |rows|)), Chunk(IDAT, Stream(rows)), Chunk(IEND, [])])
  {
    var header, stream := Header(width, |rows|), Stream(rows);
    AfterSignature(ChunkOf(IHDR, header), ChunkOf(IDAT, stream), ChunkOf(IEND, []));
    ThreeChunks(Chunk(IHDR, header), Chunk(IDAT, stream), Chunk(IEND, []),
                ChunkOf(IEND, []), ChunkOf(IDAT, stream) + ChunkOf(IEND, []));
  }

  lemma HeaderFields(width: nat, height: nat)
    requires width < 0x1_0000_0000 && height < 0x1_0000_0000
    ensures FromBe32(Header(width, height)[..4]) == width && FromBe32(Header(width, height)[4..8]) == height
    ensures Header(width, height)[8..] == [8, 2, 0, 0, 0]
  {
    var h := Header(width, height);
    Be32RoundTrip(width);
    Be32RoundTrip(height);
    assert h[..4] == Be32(width) && h[4..8] == Be32(height);
  }

  /** The bytes of a row: the filter byte and three for each pixel. */
  function Pitch(width: nat): nat {
    1 + 3 * width
  }

  /** Rows of one size, few enough for the length fields. */
  predicate Writable(pitch: nat, rows: seq<seq<byte>>) {
    && rows != [] && pitch < 0x1_0000 && 2 + |rows| * (5 + pitch) + 4 < 0x1_0000_0000
    && forall i :: 0 <= i < |rows| ==> |rows[i]| == pitch
  }

  lemma FactorBound(n: nat, m: nat)
    ensures n <= n * (5 + m)
  {
  }

  /** Every file the encoder produces is well formed and reads back as exactly its rows. */
  lemma FileRoundTrip(width: nat, rows: seq<seq<byte>>)
    requires Writable(Pitch(width), rows)
    ensures ReadFile(File(width, rows)) == Done(Picture(width, |rows|, Flatten(rows)))
  {
    LengthsFit(Pitch(width), rows);
    PitchFile(width, Pitch(width), rows);
  }

  lemma LengthsFit(pitch: nat, rows: seq<seq<byte>>)
    requires Writable(pitch, rows)
    ensures |Stream(rows)| < 0x1_0000_0000 && |rows| < 0x1_0000_0000 && |Flatten(rows)| == |rows| * pitch
  {
    FactorBound(|rows|, pitch);
    StreamLength(rows, pitch);
    FlattenLength(rows, pitch);
  }

  lemma PitchFile(width: nat, pitch: nat, rows: seq<seq<byte>>)
    requires pitch == Pitch(width) && Rows(rows) && rows != [] && width < 0x1_0000_0000 && |rows| < 0x1_0000_0000
    requires |Stream(rows)| < 0x1_0000_0000 && |Flatten(rows)| == |rows| * pitch
    ensures ReadFile(File(width, rows)) == Done(Picture(width, |rows|, Flatten(rows)))
  {
    FileChunks(width, rows);
    HeaderFields(width, |rows|);
    StreamRoundTrip(rows);
    ReadParts(File(width, rows), Header(width, |rows|), Stream(rows), width, |rows|, Flatten(rows));
  }

  lemma ReadParts(s: seq<byte>, header: seq<byte>, stream: seq<byte>, width: nat, height: nat, rows: seq<byte>)
    requires |s| >= 8 && s[..8] == SIGNATURE && |header| == 13
    requires ReadChunks(s[8..]) == Done([Chunk(IHDR, header), Chunk(IDAT, stream), Chunk(IEND, [])])
    requires FromBe32(header[..4]) == width && FromBe32(header[4..8]) == height && header[8..] == [8, 2, 0, 0, 0]
    requires Unzip(stream) == Done(rows) && |rows| == height * Pitch(width)
    ensures ReadFile(s) == Done(Picture(width, height, rows))
  {
  }
}
