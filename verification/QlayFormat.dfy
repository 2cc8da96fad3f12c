/** The QLAY cartridge image format: QDOS headers, file streams, 512-byte blocks and 686-byte records. */
module QlayFormat {
  import opened Bytes

  const RECORD_SIZE: nat := 686
  const IMAGE_SIZE: nat := 174930
  const DATA_SIZE: nat := 512
  const HEADER_SIZE: nat := 64

  datatype DriveFile = DriveFile(name: seq<byte>, data: seq<byte>, executable: bool, dataSpace: nat)

  predicate IsAscii(s: seq<byte>) {
    forall i :: 0 <= i < |s| ==> s[i] < 0x80
  }

  /** What qdos_name and the eight-byte trailer guarantee about every collected file. */
  predicate ValidFile(f: DriveFile) {
    1 <= |f.name| <= 36 && IsAscii(f.name) && f.dataSpace < 0x1_0000_0000
  }

  predicate ValidFiles(files: seq<DriveFile>) {
    forall i :: 0 <= i < |files| ==> ValidFile(files[i])
  }

  /** The additive checksum in tape byte order. */
  function Checksum(data: seq<byte>): (c: seq<byte>)
    ensures |c| == 2
  {
    var value := (0x0F0F + Sum(data)) % 0x10000;
    [value % 256, value / 256]
  }

  /** The 64-byte QDOS file header. */
  function Header(name: seq<byte>, executable: bool, dataSpace: nat, length: nat): (h: seq<byte>)
    requires |name| <= 36
    ensures |h| == HEADER_SIZE
  {
    Be32(length) + [0, if executable then 1 else 0] + Be32(if executable then dataSpace else 0)
    + Fill(4, 0) + Be16(|name|) + name + Fill(48 - |name|, 0)
  }

  /** Every byte of a header. */
  lemma HeaderFields(name: seq<byte>, executable: bool, dataSpace: nat, length: nat)
    requires |name| <= 36
    ensures var h := Header(name, executable, dataSpace, length);
            && h[0..4] == Be32(length)
            && h[5] == (if executable then 1 else 0)
            && h[6..10] == Be32(if executable then dataSpace else 0)
            && h[4] == 0 && (forall i :: 10 <= i < 14 || 16 + |name| <= i < HEADER_SIZE ==> h[i] == 0)
            && h[14..16] == Be16(|name|)
            && h[16..16 + |name|] == name
  {
  }

  function FileHeader(f: DriveFile): (h: seq<byte>)
    requires |f.name| <= 36
    ensures |h| == HEADER_SIZE
  {
    Header(f.name, f.executable, f.dataSpace, |f.data| + HEADER_SIZE)
  }

  function FileStream(f: DriveFile): (s: seq<byte>)
    requires |f.name| <= 36
    ensures |s| == HEADER_SIZE + |f.data|
  {
    FileHeader(f) + f.data
  }

  function FileHeaders(files: seq<DriveFile>): (hs: seq<seq<byte>>)
    requires ValidFiles(files)
    ensures |hs| == |files| && forall i :: 0 <= i < |hs| ==> hs[i] == FileHeader(files[i])
  {
    seq(|files|, i requires 0 <= i < |files| => FileHeader(files[i]))
  }

  /** The directory is a file of headers: its own, then one for each file. */
  function Directory(files: seq<DriveFile>): seq<byte>
    requires ValidFiles(files)
  {
    Header([], false, 0, (|files| + 1) * HEADER_SIZE) + Flatten(FileHeaders(files))
  }

  lemma DirectoryLength(files: seq<DriveFile>)
    requires ValidFiles(files)
    ensures |Directory(files)| == (|files| + 1) * HEADER_SIZE
    ensures Directory(files)[..HEADER_SIZE] == Header([], false, 0, (|files| + 1) * HEADER_SIZE)
  {
    FlattenLength(FileHeaders(files), HEADER_SIZE);
  }

  /** Entry `i` of the directory is the header of file `i`. */
  lemma DirectoryEntry(files: seq<DriveFile>, i: nat, start: nat)
    requires ValidFiles(files) && i < |files| && start == (i + 1) * HEADER_SIZE
    ensures start + HEADER_SIZE <= |Directory(files)|
    ensures Directory(files)[start..start + HEADER_SIZE] == FileHeader(files[i])
  {
    DirectoryLength(files);
    var hs := FileHeaders(files);
    var from := start - HEADER_SIZE;
    FlattenPart(hs, HEADER_SIZE, i, from);
    assert Directory(files)[start..start + HEADER_SIZE] == Flatten(hs)[from..from + HEADER_SIZE];
  }

  /** Stream 0 is the directory, stream i the i-th file with its header. */
  function Stream(files: seq<DriveFile>, number: nat): (s: seq<byte>)
    requires ValidFiles(files) && number <= |files|
    ensures |s| == if number == 0 then (|files| + 1) * HEADER_SIZE else HEADER_SIZE + |files[number - 1].data|
  {
    DirectoryLength(files);
    if number == 0 then Directory(files) else FileStream(files[number - 1])
  }

  function Blocks(length: nat): nat {
    (length + DATA_SIZE - 1) / DATA_SIZE
  }

  function Min(a: nat, b: nat): nat {
    if a < b then a else b
  }

  /** Block `block` of a stream, padded with zeros to 512 bytes. */
  function Payload(stream: seq<byte>, block: nat): (p: seq<byte>)
    ensures |p| == DATA_SIZE
  {
    seq(DATA_SIZE, j requires 0 <= j < DATA_SIZE =>
      if block * DATA_SIZE + j < |stream| then stream[block * DATA_SIZE + j] else 0)
  }

  lemma PayloadIs(p: seq<byte>, stream: seq<byte>, block: nat)
    requires |p| == DATA_SIZE
    requires forall j :: 0 <= j < DATA_SIZE ==>
               p[j] == if block * DATA_SIZE + j < |stream| then stream[block * DATA_SIZE + j] else 0
    ensures p == Payload(stream, block)
  {
  }

  /** The slice the desktop builder takes, justified with zeros, is that block. */
  lemma PayloadIsSlice(stream: seq<byte>, block: nat)
    requires block * DATA_SIZE <= |stream|
    ensures var slice := stream[block * DATA_SIZE..Min((block + 1) * DATA_SIZE, |stream|)];
            |slice| <= DATA_SIZE && slice + Fill(DATA_SIZE - |slice|, 0) == Payload(stream, block)
  {
  }

  // ----- One 686-byte record

  /** Flag, sector number, medium name and medium id. */
  function HeaderData(number: byte, medium: seq<byte>, id: nat): (d: seq<byte>)
    requires |medium| == 10
    ensures |d| == 14
  {
    [0xFF, number] + medium + Be16(id)
  }

  function RecordHead(header: seq<byte>): (s: seq<byte>)
    requires |header| == 14
    ensures |s| == 28
    ensures s[..10] == Fill(10, 0) && s[10..12] == [0xFF, 0xFF] && s[12..26] == header && s[26..28] == Checksum(header)
  {
    Fill(10, 0) + [0xFF, 0xFF] + header + Checksum(header)
  }

  function RecordBlock(file: byte, block: byte): (s: seq<byte>)
    ensures |s| == 24
    ensures s[..10] == Fill(10, 0) && s[10..12] == [0xFF, 0xFF] && s[12..14] == [file, block]
    ensures s[14..16] == Checksum([file, block]) && s[16..22] == Fill(6, 0) && s[22..24] == [0xFF, 0xFF]
  {
    Fill(10, 0) + [0xFF, 0xFF] + [file, block] + Checksum([file, block]) + Fill(6, 0) + [0xFF, 0xFF]
  }

  function RecordTail(): (s: seq<byte>)
    ensures |s| == 120
    ensures s[..84] == Calibration(84) && s[84..86] == [0x19, 0x3B] && s[86..] == Fill(34, 0x5A)
  {
    Calibration(84) + [0x19, 0x3B] + Fill(34, 0x5A)
  }

  /** One sector as it lies in the image. */
  function Record(header: seq<byte>, file: byte, block: byte, payload: seq<byte>): (s: seq<byte>)
    requires |header| == 14 && |payload| == DATA_SIZE
    ensures |s| == RECORD_SIZE
  {
    RecordHead(header) + RecordBlock(file, block) + (payload + Checksum(payload)) + RecordTail()
  }

  /** Where each field of a record lies. */
  lemma RecordLayout(header: seq<byte>, file: byte, block: byte, payload: seq<byte>)
    requires |header| == 14 && |payload| == DATA_SIZE
    ensures var s := Record(header, file, block, payload);
            && s[..10] == Fill(10, 0) && s[10..12] == [0xFF, 0xFF]
            && s[12..26] == header && s[26..28] == Checksum(header)
            && s[28..38] == Fill(10, 0) && s[38..40] == [0xFF, 0xFF]
            && s[40..42] == [file, block] && s[42..44] == Checksum([file, block])
            && s[44..50] == Fill(6, 0) && s[50..52] == [0xFF, 0xFF]
            && s[52..564] == payload && s[564..566] == Checksum(payload)
            && s[566..] == RecordTail()
  {
    var s := Record(header, file, block, payload);
    var head, mid, data := RecordHead(header), RecordBlock(file, block), payload + Checksum(payload);
    assert s[..28] == head && s[28..52] == mid && s[52..566] == data && s[566..] == RecordTail();
    assert s[..10] == head[..10] && s[10..12] == head[10..12] && s[12..26] == head[12..26] && s[26..28] == head[26..28];
    assert s[28..38] == mid[..10] && s[38..40] == mid[10..12] && s[40..42] == mid[12..14] && s[42..44] == mid[14..16];
    assert s[44..50] == mid[16..22] && s[50..52] == mid[22..24];
    assert s[52..564] == data[..512] && s[564..566] == data[512..];
  }
}
