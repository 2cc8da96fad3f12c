/** The image a cartridge builder must produce: streams, allocation order, records in tape order. */
module QlayImage {
  import opened Bytes
  import opened Checksums
  import opened QlayFormat
  import opened QlayAllocator

  function StreamLength(files: seq<DriveFile>, number: nat): nat
    requires number <= |files|
  {
    if number == 0 then (|files| + 1) * HEADER_SIZE else |files[number - 1].data| + HEADER_SIZE
  }

  /** The number of blocks of each stream. */
  function BlockCounts(files: seq<DriveFile>): (counts: seq<nat>)
    ensures |counts| == |files| + 1 && NoneEmpty(counts)
    ensures forall i :: 0 <= i <= |files| ==> counts[i] == Blocks(StreamLength(files, i))
  {
    seq(|files| + 1, i requires 0 <= i <= |files| => Blocks(StreamLength(files, i)))
  }

  // ----- Medium name and identifier

  predicate ValidMedium(medium: seq<byte>) {
    1 <= |medium| <= 10 && IsAscii(medium)
  }

  function PadMedium(medium: seq<byte>): (m: seq<byte>)
    requires |medium| <= 10
    ensures |m| == 10
  {
    medium + Fill(10 - |medium|, 0x20)
  }

  /** CRC-32 continued over the padded medium name, then name and data of each file in turn. */
  function Fingerprint(medium: seq<byte>, files: seq<DriveFile>): bv32 {
    if files == [] then CrcContinue(0, medium)
    else
      var last := files[|files| - 1];
      CrcContinue(CrcContinue(Fingerprint(medium, files[..|files| - 1]), last.name), last.data)
  }

  function MediumId(medium: seq<byte>, files: seq<DriveFile>): (id: nat)
    ensures id < 0x10000
  {
    (Fingerprint(medium, files) as nat) % 0x10000
  }

  /** The name of each file, followed by its contents. */
  function NamesAndData(files: seq<DriveFile>): seq<byte> {
    if files == [] then []
    else NamesAndData(files[..|files| - 1]) + files[|files| - 1].name + files[|files| - 1].data
  }

  lemma ContinuedTwice(before: seq<byte>, a: seq<byte>, b: seq<byte>)
    ensures CrcContinue(CrcContinue(Crc32(before), a), b) == Crc32(before + a + b)
  {
    CrcOfWhole(before);
    CrcContinueAppend(0, before, a);
    CrcContinueAppend(0, before + a, b);
    CrcOfWhole(before + a + b);
  }

  lemma FingerprintStep(medium: seq<byte>, files: seq<DriveFile>, crc: bv32)
    requires files != [] && crc == Fingerprint(medium, files[..|files| - 1])
    ensures Fingerprint(medium, files)
         == CrcContinue(CrcContinue(crc, files[|files| - 1].name), files[|files| - 1].data)
  {
  }

  lemma BytesStep(medium: seq<byte>, files: seq<DriveFile>)
    requires files != []
    ensures medium + NamesAndData(files)
         == medium + NamesAndData(files[..|files| - 1]) + files[|files| - 1].name + files[|files| - 1].data
  {
    InFront(medium, NamesAndData(files[..|files| - 1]), files[|files| - 1].name, files[|files| - 1].data);
  }

  lemma InFront(a: seq<byte>, b: seq<byte>, c: seq<byte>, d: seq<byte>)
    ensures a + (b + c + d) == a + b + c + d
  {
  }

  lemma NoFiles(medium: seq<byte>)
    ensures Fingerprint(medium, []) == Crc32(medium + NamesAndData([]))
  {
    CrcOfWhole(medium);
    assert medium + NamesAndData([]) == medium;
  }

  /** The fingerprint is the CRC-32 of the name of the medium, all names and all contents, one after the other. */
  lemma {:induction false} FingerprintIsCrc(medium: seq<byte>, files: seq<DriveFile>, bytes: seq<byte>)
    requires bytes == medium + NamesAndData(files)
    ensures Fingerprint(medium, files) == Crc32(bytes)
    decreases |files|
  {
    if files == [] {
      NoFiles(medium);
    } else {
      var front, last := files[..|files| - 1], files[|files| - 1];
      var before := medium + NamesAndData(front);
      FingerprintIsCrc(medium, front, before);
      FingerprintStep(medium, files, Crc32(before));
      BytesStep(medium, files);
      ContinuedTwice(before, last.name, last.data);
    }
  }

  /** The medium id is the low half of the CRC-32 of the name of the medium, all names and all contents. */
  lemma MediumIdIsCrc(medium: seq<byte>, files: seq<DriveFile>)
    ensures MediumId(medium, files) == (Crc32(medium + NamesAndData(files)) as nat) % 0x10000
  {
    FingerprintIsCrc(medium, files, medium + NamesAndData(files));
  }

  // ----- Sectors and image

  /** Map byte pairs for each sector, then the format marker and the next allocation position. */
  function MapPayload(p: Placement): (payload: seq<byte>)
    requires Encodable(p.slots) && p.current < SECTOR_COUNT
    ensures |payload| == DATA_SIZE
  {
    seq(DATA_SIZE, j requires 0 <= j < DATA_SIZE =>
      if j == 510 then 1
      else if j == 511 then p.current
      else if j % 2 == 0 then p.slots[j / 2].file
      else p.slots[j / 2].block)
  }

  /**
   * The record of one sector.  `damaged` is the file number written into the header of sector 254:
   * the desktop leaves it marked free, the firmware copies the damaged mark from the map.
   */
  function SectorRecord(files: seq<DriveFile>, medium: seq<byte>, id: nat, p: Placement, damaged: byte,
                        sector: byte)
    : (r: seq<byte>)
    requires ValidFiles(files) && |medium| == 10 && Encodable(p.slots) && p.current < SECTOR_COUNT
             && sector < SECTOR_COUNT
    ensures |r| == RECORD_SIZE
  {
    var header := HeaderData(sector, medium, id);
    var slot := p.slots[sector];
    if sector == 0 then Record(header, 0x80, 0, MapPayload(p))
    else if sector == 254 then Record(header, damaged, 0, Calibration(DATA_SIZE))
    else if slot.file <= |files| && slot.file != FREE_SECTOR
      then Record(header, slot.file, slot.block, Payload(Stream(files, slot.file), slot.block))
    else Record(header, slot.file, slot.block, Calibration(DATA_SIZE))
  }

  /** Records lie on the tape as 0, 254, 253, ..., 1. */
  function PhysicalNumber(position: nat): (s: byte)
    requires position < SECTOR_COUNT
    ensures s < SECTOR_COUNT
  {
    if position == 0 then 0 else SECTOR_COUNT - position
  }

  function Records(files: seq<DriveFile>, medium: seq<byte>, id: nat, p: Placement, damaged: byte): (rs: seq<seq<byte>>)
    requires ValidFiles(files) && |medium| == 10 && Encodable(p.slots) && p.current < SECTOR_COUNT
    ensures |rs| == SECTOR_COUNT
    ensures forall k :: 0 <= k < SECTOR_COUNT ==>
              rs[k] == SectorRecord(files, medium, id, p, damaged, PhysicalNumber(k))
  {
    seq(SECTOR_COUNT,
        k requires 0 <= k < SECTOR_COUNT => SectorRecord(files, medium, id, p, damaged, PhysicalNumber(k)))
  }

  function Image(files: seq<DriveFile>, medium: seq<byte>, id: nat, p: Placement, damaged: byte): seq<byte>
    requires ValidFiles(files) && |medium| == 10 && Encodable(p.slots) && p.current < SECTOR_COUNT
  {
    Flatten(Records(files, medium, id, p, damaged))
  }

  /** The k-th record of an image. */
  function RecordAt(image: seq<byte>, k: nat): (r: seq<byte>)
    requires |image| == IMAGE_SIZE && k < SECTOR_COUNT
    ensures |r| == RECORD_SIZE
  {
    image[k * RECORD_SIZE..k * RECORD_SIZE + RECORD_SIZE]
  }

  lemma ImageRecords(files: seq<DriveFile>, medium: seq<byte>, id: nat, p: Placement, damaged: byte)
    requires ValidFiles(files) && |medium| == 10 && Encodable(p.slots) && p.current < SECTOR_COUNT
    ensures var image := Image(files, medium, id, p, damaged);
            |image| == IMAGE_SIZE &&
            forall k :: 0 <= k < SECTOR_COUNT ==>
              RecordAt(image, k) == SectorRecord(files, medium, id, p, damaged, PhysicalNumber(k))
  {
    FlattenUniform(Records(files, medium, id, p, damaged), RECORD_SIZE);
  }

  /** The desktop builder: rejects a bad medium name or files that do not fit, else gives the image. */
  function Build(files: seq<DriveFile>, medium: seq<byte>): (r: Outcome<seq<byte>>)
    requires ValidFiles(files)
  {
    if !ValidMedium(medium) then Rejected
    else
      WantsPlaceable(BlockCounts(files));
      AllocatorCorrect(Wants(BlockCounts(files)));
      match PlaceAll(Wants(BlockCounts(files)))
      case Rejected => Rejected
      case Done(p) =>
        PlacedEncodable(BlockCounts(files), p);
        Done(Image(files, PadMedium(medium), MediumId(PadMedium(medium), files), p, FREE_SECTOR))
  }

  /** The builder accepts exactly up to 252 blocks, whatever the documentation's 253. */
  lemma CapacityIs252(files: seq<DriveFile>, medium: seq<byte>)
    requires ValidFiles(files)
    ensures Build(files, medium).Done? <==> ValidMedium(medium) && |Wants(BlockCounts(files))| <= 252
  {
    WantsPlaceable(BlockCounts(files));
    AllocatorCorrect(Wants(BlockCounts(files)));
  }

  /** The blocks that a file list needs, directory and headers included. */
  function Needs(files: seq<DriveFile>): nat {
    (|files| + 8) / 8 + NeedsData(files)
  }

  function NeedsData(files: seq<DriveFile>): nat {
    if files == [] then 0 else NeedsData(files[..|files| - 1]) + (|files[|files| - 1].data| + 575) / 512
  }

  lemma {:induction false} CountsTotal(files: seq<DriveFile>, counts: seq<nat>, n: nat)
    requires n <= |files| && counts == BlockCounts(files)
    ensures |Wants(counts[..n + 1])| == (|files| + 8) / 8 + NeedsData(files[..n])
    decreases n
  {
    if n == 0 {
      assert counts[..1][..0] == [];
      assert |Wants(counts[..1])| == counts[0];
    } else {
      CountsTotal(files, counts, n - 1);
      assert counts[..n + 1][..n] == counts[..n] && files[..n][..n - 1] == files[..n - 1];
      assert counts[n] == (|files[n - 1].data| + 575) / 512;
    }
  }

  /** An image is built exactly when the name will do and all of it fits into 252 blocks of 512 bytes. */
  lemma FitsExactly(files: seq<DriveFile>, medium: seq<byte>)
    requires ValidFiles(files)
    ensures Build(files, medium).Done? <==> ValidMedium(medium) && Needs(files) <= 252
  {
    var counts := BlockCounts(files);
    CountsTotal(files, counts, |files|);
    assert counts[..|files| + 1] == counts && files[..|files|] == files;
    CapacityIs252(files, medium);
  }

  /** In every image that is built, each block of the directory and of each file has exactly one sector. */
  lemma EveryBlockPlaced(files: seq<DriveFile>, medium: seq<byte>, number: nat, block: nat)
    requires ValidFiles(files) && Build(files, medium).Done?
    requires number <= |files| && block < BlockCounts(files)[number]
    ensures PlaceAll(Wants(BlockCounts(files))).Done?
    ensures HasOneSector(PlaceAll(Wants(BlockCounts(files))).value.slots, Slot(number, block))
  {
    CapacityIs252(files, medium);
    WantsLong(BlockCounts(files));
    OneSectorPerBlock(BlockCounts(files), number, block);
  }
}
