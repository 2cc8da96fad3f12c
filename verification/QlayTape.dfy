/** What lies where on a finished tape, byte by byte, for the images of both builders. */
module QlayTape {
  import opened Bytes
  import opened Checksums
  import opened QlayFormat
  import opened QlayAllocator
  import opened QlayImage
  import opened QlayParse
  import opened QlayRoundTrip
  import opened QlayFirmware

  // ----- Every record

  /** Every record of an image carries the name of the medium and its id. */
  lemma HeaderOnTape(image: seq<byte>, files: seq<DriveFile>, medium: seq<byte>, id: nat, p: Placement, damaged: byte,
                     k: nat)
    requires Laid(image, files, medium, id, p, damaged) && k < SECTOR_COUNT
    ensures var at := k * RECORD_SIZE;
            && 0 <= at <= at + RECORD_SIZE <= |image|
            && image[at + 12] == 0xFF && image[at + 13] == (if k == 0 then 0 else SECTOR_COUNT - k)
            && image[at + 14..at + 24] == medium
            && image[at + 24] == id / 256 % 256 && image[at + 25] == id % 256
  {
    CarriedRecord(image, files, medium, id, p, damaged, k);
    var r, at := RecordAt(image, k), k * RECORD_SIZE;
    var header := HeaderData(PhysicalNumber(k), medium, id);
    assert r[12..26] == header;
    HeaderBytes(r, header, PhysicalNumber(k), medium, id);
    HeaderIn(image, at, r);
  }

  /** The header of a record that lies at `at`. */
  lemma HeaderIn(image: seq<byte>, at: nat, r: seq<byte>)
    requires at + RECORD_SIZE <= |image| && r == image[at..at + RECORD_SIZE]
    ensures image[at + 12] == r[12] && image[at + 13] == r[13] && image[at + 14..at + 24] == r[14..24]
    ensures image[at + 24] == r[24] && image[at + 25] == r[25]
  {
    SliceIn(image, at, r, 14, 24);
  }

  lemma SliceIn(image: seq<byte>, at: nat, r: seq<byte>, from: nat, to: nat)
    requires from <= to <= |r| && at + |r| <= |image| && r == image[at..at + |r|]
    ensures image[at + from..at + to] == r[from..to]
  {
    forall i | 0 <= i < to - from
      ensures image[at + from..at + to][i] == r[from..to][i]
    {
      assert r[from + i] == image[at + (from + i)];
    }
  }

  lemma HeaderBytes(r: seq<byte>, header: seq<byte>, number: byte, medium: seq<byte>, id: nat)
    requires |r| == RECORD_SIZE && |medium| == 10 && header == [0xFF, number] + medium + Be16(id)
    requires r[12..26] == header
    ensures r[12] == 0xFF && r[13] == number && r[14..24] == medium
    ensures r[24] == id / 256 % 256 && r[25] == id % 256
  {
    assert forall i :: 12 <= i < 26 ==> r[i] == header[i - 12];
    assert r[14..24] == header[2..12];
  }

  /**
   * The medium id on the tape: in every record of every image that is built, bytes 24 and 25 are the
   * low half of the CRC-32 of the padded name, all file names and all contents.
   */
  lemma MediumIdOnTape(files: seq<DriveFile>, medium: seq<byte>, k: nat)
    requires ValidFiles(files) && Build(files, medium).Done? && k < SECTOR_COUNT
    ensures var image, at := Build(files, medium).value, k * RECORD_SIZE;
            var crc := Crc32(PadMedium(medium) + NamesAndData(files)) as nat;
            && 0 <= at <= at + RECORD_SIZE <= |image|
            && image[at + 24] == crc / 256 % 256 && image[at + 25] == crc % 256
  {
    var p := BuildCarries(files, medium);
    var padded := PadMedium(medium);
    HeaderOnTape(Build(files, medium).value, files, padded, MediumId(padded, files), p, FREE_SECTOR, k);
    MediumIdIsCrc(padded, files);
    LowHalfBytes(Crc32(padded + NamesAndData(files)) as nat);
  }

  lemma LowHalfBytes(crc: nat)
    ensures crc % 0x10000 / 256 % 256 == crc / 256 % 256 && crc % 0x10000 % 256 == crc % 256
  {
    var high, low := crc / 0x10000, crc % 0x10000;
    assert crc == 256 * (256 * high) + low;
    assert crc / 256 == 256 * high + low / 256;
  }

  /** The same of the firmware's images, whatever it has counted. */
  lemma FirmwareIdOnTape(files: seq<DriveFile>, k: nat)
    requires Collected(files) && FirmwareImage(files).Done? && k < SECTOR_COUNT
    ensures var image, at := FirmwareImage(files).value, k * RECORD_SIZE;
            var crc := Crc32(PadMedium(MEDIUM) + NamesAndData(files)) as nat;
            && 0 <= at <= at + RECORD_SIZE <= |image|
            && image[at + 24] == crc / 256 % 256 && image[at + 25] == crc % 256
  {
    var padded := PadMedium(MEDIUM);
    var p := PlaceAll(Wants(Counts32(files))).value;
    FirmwareLaid(files, padded, MediumId(padded, files), p);
    HeaderOnTape(FirmwareImage(files).value, files, padded, MediumId(padded, files), p, 0xFF, k);
    MediumIdIsCrc(padded, files);
    LowHalfBytes(Crc32(padded + NamesAndData(files)) as nat);
  }

  // ----- The map

  /** The map record: a pair of bytes for each sector, the format mark, and the position for the next block. */
  lemma MapOnTape(image: seq<byte>, files: seq<DriveFile>, medium: seq<byte>, id: nat, p: Placement, damaged: byte)
    requires Laid(image, files, medium, id, p, damaged)
    ensures |image| == IMAGE_SIZE && image[40] == 0x80 && image[41] == 0
    ensures forall s :: 0 <= s < SECTOR_COUNT ==>
              image[52 + 2 * s] == p.slots[s].file && image[53 + 2 * s] == p.slots[s].block
    ensures image[562] == 1 && image[563] == p.current
  {
    CarriedRecord(image, files, medium, id, p, damaged, 0);
    var r := RecordAt(image, 0);
    assert r == image[..RECORD_SIZE] && r[52..564] == MapPayload(p);
    assert image[40] == r[40..42][0] && image[41] == r[40..42][1];
    forall s | 0 <= s < SECTOR_COUNT
      ensures image[52 + 2 * s] == p.slots[s].file && image[53 + 2 * s] == p.slots[s].block
    {
      MapPair(image, r, p, s);
    }
    assert image[562] == r[52..564][510] && image[563] == r[52..564][511];
  }

  lemma MapPair(image: seq<byte>, r: seq<byte>, p: Placement, s: nat)
    requires |image| == IMAGE_SIZE && r == image[..RECORD_SIZE] && s < SECTOR_COUNT
    requires Encodable(p.slots) && p.current < SECTOR_COUNT && r[52..564] == MapPayload(p)
    ensures image[52 + 2 * s] == p.slots[s].file && image[53 + 2 * s] == p.slots[s].block
  {
    assert image[52 + 2 * s] == r[52..564][2 * s] && image[53 + 2 * s] == r[52..564][2 * s + 1];
  }

  // ----- Blocks and data

  /** Where the record of a sector begins. */
  function PlaceOf(sector: nat): nat
    requires 0 < sector < SECTOR_COUNT
  {
    (255 - sector) * RECORD_SIZE
  }

  /** A sector's record: its block header and its 512 bytes. */
  lemma SectorOnTape(image: seq<byte>, files: seq<DriveFile>, medium: seq<byte>, id: nat, p: Placement, damaged: byte,
                     s: byte)
    requires Laid(image, files, medium, id, p, damaged) && 0 < s < 254
    ensures PlaceOf(s) + RECORD_SIZE <= |image|
    ensures image[PlaceOf(s) + 13] == s
    ensures image[PlaceOf(s) + 40] == p.slots[s].file && image[PlaceOf(s) + 41] == p.slots[s].block
    ensures image[PlaceOf(s) + 52..PlaceOf(s) + 564] == OwnPayload(files, p, s)
  {
    SectorRecordAt(image, files, medium, id, p, damaged, s, SECTOR_COUNT - s, PlaceOf(s));
  }

  lemma SectorRecordAt(image: seq<byte>, files: seq<DriveFile>, medium: seq<byte>, id: nat, p: Placement, damaged: byte,
                       s: byte, k: nat, at: nat)
    requires Laid(image, files, medium, id, p, damaged) && 0 < s < 254 && k == SECTOR_COUNT - s
    requires at == k * RECORD_SIZE
    ensures at + RECORD_SIZE <= |image| && image[at + 13] == s
    ensures image[at + 40] == p.slots[s].file && image[at + 41] == p.slots[s].block
    ensures image[at + 52..at + 564] == OwnPayload(files, p, s)
  {
    CarriedRecord(image, files, medium, id, p, damaged, k);
    RecordParts(image, at, RecordAt(image, k));
  }

  lemma RecordParts(image: seq<byte>, at: nat, r: seq<byte>)
    requires at + RECORD_SIZE <= |image| && r == image[at..at + RECORD_SIZE]
    ensures image[at + 13] == r[13] && image[at + 40] == r[40..42][0] && image[at + 41] == r[40..42][1]
    ensures image[at + 52..at + 564] == r[52..564]
  {
    assert forall i :: 0 <= i < RECORD_SIZE ==> r[i] == image[at + i];
    assert r[40..42][0] == r[40] && r[40..42][1] == r[41];
  }

  /** A free sector is marked free in the map and in its own header, and holds the calibration pattern. */
  lemma FreeOnTape(image: seq<byte>, files: seq<DriveFile>, medium: seq<byte>, id: nat, p: Placement, damaged: byte,
                   s: byte, j: nat)
    requires Laid(image, files, medium, id, p, damaged) && 0 < s < 254 && j < DATA_SIZE
    requires p.slots[s] == Slot(FREE_SECTOR, 0)
    ensures PlaceOf(s) + RECORD_SIZE <= |image|
    ensures image[PlaceOf(s) + 40] == 0xFD && image[PlaceOf(s) + 41] == 0
    ensures image[PlaceOf(s) + 52 + j] == if j % 2 == 0 then 0xAA else 0x55
  {
    SectorOnTape(image, files, medium, id, p, damaged, s);
    InPayload(image, PlaceOf(s), j);
  }

  /**
   * Every byte of every file is on the tape: byte `q` of file `n` counts from the 64-byte header of its
   * stream, in the one sector that map and block header give to that file and block.
   */
  lemma DataByteOnTape(files: seq<DriveFile>, medium: seq<byte>, n: nat, q: nat) returns (s: nat)
    requires ValidFiles(files) && Build(files, medium).Done? && n < |files| && q < |files[n].data|
    ensures 0 < s < 254 && PlaceOf(s) + RECORD_SIZE <= |Build(files, medium).value| == IMAGE_SIZE
    ensures var image := Build(files, medium).value;
            && image[52 + 2 * s] == n + 1 == image[PlaceOf(s) + 40]
            && image[53 + 2 * s] == (q + 64) / 512 == image[PlaceOf(s) + 41]
            && image[PlaceOf(s) + 52 + (q + 64) % 512] == files[n].data[q]
  {
    var block, j := (q + 64) / 512, (q + 64) % 512;
    BlockCounted(files, n, q);
    FewFilesBuilt(files, medium);
    var p, padded, id := PlacedBuilt(files, medium);
    s := SectorOf(files, medium, p, n + 1, block);
    ByteInSector(Build(files, medium).value, files, padded, id, p, s, n, q, block, j);
  }

  lemma PlacedBuilt(files: seq<DriveFile>, medium: seq<byte>) returns (p: Placement, padded: seq<byte>, id: nat)
    requires ValidFiles(files) && Build(files, medium).Done?
    ensures PlaceAll(Wants(BlockCounts(files))) == Done(p)
    ensures Laid(Build(files, medium).value, files, padded, id, p, FREE_SECTOR)
  {
    p, padded := PlaceAll(Wants(BlockCounts(files))).value, PadMedium(medium);
    id := MediumId(padded, files);
    BuiltCarries(files, medium, id, p, FREE_SECTOR);
  }

  lemma SectorOf(files: seq<DriveFile>, medium: seq<byte>, p: Placement, number: nat, block: nat) returns (s: byte)
    requires ValidFiles(files) && Build(files, medium).Done? && PlaceAll(Wants(BlockCounts(files))) == Done(p)
    requires number <= |files| && block < BlockCounts(files)[number]
    ensures 0 < s < 254 && p.slots[s] == Slot(number, block)
  {
    EveryBlockPlaced(files, medium, number, block);
    s :| 0 < s < 254 && p.slots[s] == Slot(number, block);
  }

  /** Map and block header give the sector to this file and block, whose byte `j` is this one. */
  predicate ByteStands(image: seq<byte>, s: byte, n: nat, block: nat, j: nat, value: byte) {
    && 0 < s < 254 && j < DATA_SIZE && |image| == IMAGE_SIZE && PlaceOf(s) + RECORD_SIZE <= |image|
    && image[52 + 2 * s] == n + 1 == image[PlaceOf(s) + 40]
    && image[53 + 2 * s] == block == image[PlaceOf(s) + 41]
    && image[PlaceOf(s) + 52 + j] == value
  }

  lemma ByteInSector(image: seq<byte>, files: seq<DriveFile>, medium: seq<byte>, id: nat, p: Placement, s: byte,
                     n: nat, q: nat, block: nat, j: nat)
    requires Laid(image, files, medium, id, p, FREE_SECTOR) && 0 < s < 254 && |files| < MAP_FILE
    requires n < |files| && q < |files[n].data| && p.slots[s] == Slot(n + 1, block)
    requires q + HEADER_SIZE == block * DATA_SIZE + j && j < DATA_SIZE
    ensures ByteStands(image, s, n, block, j, files[n].data[q])
  {
    SlotOnTape(image, files, medium, id, p, s, Slot(n + 1, block), PlaceOf(s));
    ContentOnTape(image, files, medium, id, p, s, n, block, j, PlaceOf(s));
    StreamByte(files, n, q, block, j);
  }

  lemma SlotOnTape(image: seq<byte>, files: seq<DriveFile>, medium: seq<byte>, id: nat, p: Placement, s: byte,
                   slot: Slot, at: nat)
    requires Laid(image, files, medium, id, p, FREE_SECTOR) && 0 < s < 254 && p.slots[s] == slot && at == PlaceOf(s)
    ensures |image| == IMAGE_SIZE && at + RECORD_SIZE <= |image|
    ensures image[52 + 2 * s] == slot.file == image[at + 40] && image[53 + 2 * s] == slot.block == image[at + 41]
  {
    MapOnTape(image, files, medium, id, p, FREE_SECTOR);
    SectorOnTape(image, files, medium, id, p, FREE_SECTOR, s);
  }

  lemma ContentOnTape(image: seq<byte>, files: seq<DriveFile>, medium: seq<byte>, id: nat, p: Placement, s: byte,
                      n: nat, block: nat, j: nat, at: nat)
    requires Laid(image, files, medium, id, p, FREE_SECTOR) && 0 < s < 254 && |files| < MAP_FILE && at == PlaceOf(s)
    requires n < |files| && p.slots[s] == Slot(n + 1, block) && j < DATA_SIZE
    ensures at + RECORD_SIZE <= |image| && image[at + 52 + j] == Payload(Stream(files, n + 1), block)[j]
  {
    SectorOnTape(image, files, medium, id, p, FREE_SECTOR, s);
    OwnIsPayload(files, p, s, n, block);
    ByteOfPayload(image, at, j, OwnPayload(files, p, s));
  }

  lemma OwnIsPayload(files: seq<DriveFile>, p: Placement, s: byte, n: nat, block: nat)
    requires ValidFiles(files) && Encodable(p.slots) && p.current < SECTOR_COUNT && 0 < s < 254
    requires n < |files| < MAP_FILE && p.slots[s] == Slot(n + 1, block)
    ensures OwnPayload(files, p, s) == Payload(Stream(files, n + 1), block)
  {
  }

  lemma ByteOfPayload(image: seq<byte>, at: nat, j: nat, payload: seq<byte>)
    requires at + RECORD_SIZE <= |image| && j < DATA_SIZE && image[at + 52..at + 564] == payload
    ensures image[at + 52 + j] == payload[j]
  {
    InPayload(image, at, j);
  }

  lemma InPayload(image: seq<byte>, at: nat, j: nat)
    requires at + RECORD_SIZE <= |image| && j < DATA_SIZE
    ensures image[at + 52 + j] == image[at + 52..at + 564][j]
  {
  }

  lemma BlockCounted(files: seq<DriveFile>, n: nat, q: nat)
    requires n < |files| && q < |files[n].data|
    ensures (q + 64) / 512 < BlockCounts(files)[n + 1]
  {
  }

  lemma FewFilesBuilt(files: seq<DriveFile>, medium: seq<byte>)
    requires ValidFiles(files) && Build(files, medium).Done?
    ensures |files| < MAP_FILE
  {
    CapacityIs252(files, medium);
    FewFiles(files);
  }

  lemma StreamByte(files: seq<DriveFile>, n: nat, q: nat, block: nat, j: nat)
    requires ValidFiles(files) && n < |files| && q < |files[n].data|
    requires q + HEADER_SIZE == block * DATA_SIZE + j && j < DATA_SIZE
    ensures Payload(Stream(files, n + 1), block)[j] == files[n].data[q]
  {
    assert Stream(files, n + 1)[q + HEADER_SIZE] == files[n].data[q];
  }
}
