/**
 * The firmware's cartridge builder.  It never holds a stream or the image: it allocates with two
 * byte arrays, computes any sector on demand into one buffer, and reads file data where it lies.
 */
module QlayFirmware {
  import opened Bytes
  import opened Checksums
  import opened QlayFormat
  import opened QlayAllocator
  import opened QlayImage
  import opened QlayParse
  import opened QlayRoundTrip

  const MAX_FILES: nat := 126

  // ----- 32-bit block counts

  /** The block count as the firmware computes it, in unsigned 32-bit arithmetic. */
  function Blocks32(size: nat): nat {
    var length := (size + HEADER_SIZE) % 0x1_0000_0000;
    (length + DATA_SIZE - 1) % 0x1_0000_0000 / DATA_SIZE
  }

  /** The 32-bit count is right exactly while size + 575 does not wrap. */
  lemma Blocks32Exact(size: nat)
    requires size < 0x1_0000_0000
    ensures Blocks32(size) == Blocks(size + HEADER_SIZE) <==> size + 575 < 0x1_0000_0000
  {
  }

  predicate SizesFit(files: seq<DriveFile>) {
    forall i :: 0 <= i < |files| ==> |files[i].data| + 575 < 0x1_0000_0000
  }

  /** The file lists that the collector lets through: every size in 32 bits, 126 files at most. */
  predicate Collected(files: seq<DriveFile>) {
    ValidFiles(files) && |files| <= MAX_FILES && forall i :: 0 <= i < |files| ==> |files[i].data| < 0x1_0000_0000
  }

  /** The number of blocks of each stream as the firmware counts them. */
  function Counts32(files: seq<DriveFile>): (counts: seq<nat>)
    ensures |counts| == |files| + 1
    ensures forall i :: 0 <= i <= |files| ==>
              counts[i] == if i == 0 then Blocks((|files| + 1) * HEADER_SIZE) else Blocks32(|files[i - 1].data|)
  {
    seq(|files| + 1, i requires 0 <= i <= |files| =>
      if i == 0 then Blocks((|files| + 1) * HEADER_SIZE) else Blocks32(|files[i - 1].data|))
  }

  /** The counts are right exactly when no size is so large that its sum wraps. */
  lemma Counts32Exact(files: seq<DriveFile>)
    requires Collected(files)
    ensures Counts32(files) == BlockCounts(files) <==> SizesFit(files)
  {
    if Counts32(files) == BlockCounts(files) {
      forall i | 0 <= i < |files|
        ensures |files[i].data| + 575 < 0x1_0000_0000
      {
        assert Counts32(files)[i + 1] == BlockCounts(files)[i + 1];
        Blocks32Exact(|files[i].data|);
      }
    }
    if SizesFit(files) {
      forall i | 0 <= i <= |files|
        ensures Counts32(files)[i] == BlockCounts(files)[i]
      {
        if i > 0 {
          Blocks32Exact(|files[i - 1].data|);
        }
      }
    }
  }

  /** A block that the wrapped count counts begins before the wrapped end of its stream. */
  lemma CountedBlock(size: nat, block: nat)
    requires size < 0x1_0000_0000 && block < Blocks32(size)
    ensures block * DATA_SIZE < (size + HEADER_SIZE) % 0x1_0000_0000
  {
  }

  /** A stream whose count wraps gets one block at most, and then a length below its own header's. */
  lemma WrappedCount(size: nat)
    requires size < 0x1_0000_0000 && size + 575 >= 0x1_0000_0000
    ensures Blocks32(size) == 0 || (size + HEADER_SIZE) % 0x1_0000_0000 < HEADER_SIZE
  {
  }

  // ----- The sector buffer

  /** memcpy into a buffer. */
  method Put(a: array<byte>, at: nat, s: seq<byte>)
    requires at + |s| <= a.Length
    modifies a
    ensures forall i :: 0 <= i < a.Length ==> a[i] == if at <= i < at + |s| then s[i - at] else old(a[i])
  {
    forall i | 0 <= i < |s| {
      a[at + i] := s[i];
    }
  }

  /** The overlap of a 64-byte header at `headerOffset` of a stream with the block at `payloadOffset`. */
  method CopyHeaderRange(sector: array<byte>, payloadOffset: nat, headerOffset: nat, header: seq<byte>)
    requires sector.Length == RECORD_SIZE && |header| == HEADER_SIZE
    modifies sector
    ensures forall i :: 0 <= i < RECORD_SIZE ==>
              sector[i] == if 52 <= i < 564 && headerOffset <= payloadOffset + (i - 52) < headerOffset + HEADER_SIZE
                           then header[payloadOffset + (i - 52) - headerOffset] else old(sector[i])
  {
    var payloadEnd, headerEnd := payloadOffset + DATA_SIZE, headerOffset + HEADER_SIZE;
    var start := if payloadOffset > headerOffset then payloadOffset else headerOffset;
    var end := if payloadEnd < headerEnd then payloadEnd else headerEnd;
    if start < end {
      forall k | 0 <= k < end - start {
        sector[52 + (start - payloadOffset) + k] := header[start - headerOffset + k];
      }
    }
  }

  class FirmwareBuilder {
    const files: seq<DriveFile>
    const mapFile: array<byte>
    const mapBlock: array<byte>
    var currentSector: nat
    const mediumName: seq<byte>
    var mediumId: nat
    /** Whether every read of a source file from the card succeeds. */
    const readable: bool

    ghost predicate Valid()
      reads this`currentSector
    {
      && mapFile.Length == SECTOR_COUNT && mapBlock.Length == SECTOR_COUNT && mapFile != mapBlock
      && currentSector < SECTOR_COUNT && |mediumName| == 10 && Collected(files)
    }

    constructor (files: seq<DriveFile>, mediumName: seq<byte>, readable: bool)
      requires Collected(files) && |mediumName| == 10
      ensures Valid() && this.files == files && this.mediumName == mediumName && this.readable == readable
      ensures fresh(mapFile) && fresh(mapBlock)
    {
      this.files := files;
      this.mediumName := mediumName;
      this.readable := readable;
      mapFile := new byte[SECTOR_COUNT];
      mapBlock := new byte[SECTOR_COUNT];
      currentSector, mediumId := 0, 0;
    }

    /** The two map arrays as one table. */
    ghost function Slots(): (slots: seq<Slot>)
      requires mapFile.Length == SECTOR_COUNT && mapBlock.Length == SECTOR_COUNT
      reads mapFile, mapBlock
      ensures Encodable(slots)
    {
      seq(SECTOR_COUNT, s requires 0 <= s < SECTOR_COUNT reads mapFile, mapBlock => Slot(mapFile[s], mapBlock[s]))
    }

    method AllocateSector(after: nat) returns (sector: int)
      requires Valid() && after < SECTOR_COUNT
      ensures var found := FirstFree(Slots(), after, |Slots()|);
              if found.Done? then sector == found.value else sector == -1
    {
      ghost var slots := Slots();
      var candidate := after;
      for count := 0 to SECTOR_COUNT
        invariant 0 <= candidate < SECTOR_COUNT
        invariant FirstFree(slots, after, |slots|) == FirstFree(slots, candidate, |slots| - count)
      {
        if mapFile[candidate] == FREE_SECTOR {
          return candidate;
        }
        candidate := if candidate == 0 then SECTOR_COUNT - 1 else candidate - 1;
      }
      return -1;
    }

    method SetMap(sector: nat, fileNumber: byte, block: byte)
      requires Valid() && sector < SECTOR_COUNT
      modifies mapFile, mapBlock
      ensures Slots() == old(Slots())[sector := Slot(fileNumber, block)]
    {
      mapFile[sector] := fileNumber;
      mapBlock[sector] := block;
    }

    ghost function Placing(taken: seq<nat>): Placement
      requires mapFile.Length == SECTOR_COUNT && mapBlock.Length == SECTOR_COUNT
      reads this, mapFile, mapBlock
    {
      Placement(Slots(), currentSector, taken)
    }

    /** One step of the allocation loop. */
    method TakeBlock(fileNumber: nat, block: nat, ghost taken: seq<nat>) returns (ok: bool, ghost taken': seq<nat>)
      requires Valid() && fileNumber <= |files| && block < 256
      modifies this`currentSector, mapFile, mapBlock
      ensures Valid()
      ensures PlaceOne(old(Placing(taken)), Slot(fileNumber, block)) == if ok then Done(Placing(taken')) else Rejected
    {
      ghost var p, want := Placing(taken), Slot(fileNumber, block);
      ok, taken' := false, taken;
      var sector := AllocateSector(currentSector);
      if sector < 0 {
        return;
      }
      assert FirstFree(p.slots, p.current, |p.slots|) == Done(sector);
      SetMap(sector, fileNumber, block);
      ghost var slots := p.slots[sector := want];
      assert Slots() == slots;
      var next := AllocateSector((sector + SECTOR_COUNT - 13) % SECTOR_COUNT);
      assert Ahead(sector) == (sector + SECTOR_COUNT - 13) % SECTOR_COUNT;
      if next >= 0 {
        assert FirstFree(slots, Ahead(sector), |slots|) == Done(next);
        currentSector := next;
        ok, taken' := true, taken + [sector];
        assert Placing(taken') == Placement(slots, next, taken');
      } else {
        assert FirstFree(slots, Ahead(sector), |slots|) == Rejected;
      }
    }

    method ResetMap()
      requires Valid()
      modifies this`currentSector, mapFile, mapBlock
      ensures Valid() && Placing([]) == Initial()
    {
      forall s | 0 <= s < SECTOR_COUNT {
        mapFile[s] := FREE_SECTOR;
      }
      forall s | 0 <= s < SECTOR_COUNT {
        mapBlock[s] := 0;
      }
      mapFile[0] := MAP_FILE;
      mapFile[254] := DAMAGED_SECTOR;
      currentSector := 245;
      assert Slots() == Initial().slots;
    }

    /** The allocation loops over the 32-bit stream lengths. */
    method AllocateStreams() returns (ok: bool, ghost taken: seq<nat>)
      requires Valid()
      modifies this`currentSector, mapFile, mapBlock
      ensures Valid()
      ensures PlaceAll(Wants(Counts32(files))) == if ok then Done(Placing(taken)) else Rejected
      ensures ok <==> |Wants(Counts32(files))| <= CAPACITY
    {
      ghost var counts := Counts32(files);
      WantsPlaceable(counts);
      AllocatorCorrect(Wants(counts));
      ResetMap();
      ok, taken := true, [];
      PlaceAllStart(counts);
      for fileNumber := 0 to |files| + 1
        invariant Valid()
        invariant PlaceAll(Wants(counts[..fileNumber])) == Done(Placing(taken))
      {
        ok, taken := AllocateStream(fileNumber, counts, taken);
        if !ok {
          return;
        }
      }
    }

    /** The block count of one stream, in 32-bit sums that wrap. */
    method CountBlocks(fileNumber: nat) returns (blocks: nat)
      requires Valid() && fileNumber <= |files|
      ensures blocks == Counts32(files)[fileNumber]
    {
      var length := if fileNumber == 0 then (|files| + 1) * HEADER_SIZE
                    else (|files[fileNumber - 1].data| + HEADER_SIZE) % 0x1_0000_0000;
      blocks := (length + DATA_SIZE - 1) % 0x1_0000_0000 / DATA_SIZE;
    }

    /** The blocks of one stream. */
    method AllocateStream(fileNumber: nat, ghost counts: seq<nat>, ghost before: seq<nat>)
      returns (ok: bool, ghost taken: seq<nat>)
      requires Valid() && fileNumber <= |files| && counts == Counts32(files)
      requires PlaceAll(Wants(counts[..fileNumber])) == Done(Placing(before))
      modifies this`currentSector, mapFile, mapBlock
      ensures Valid()
      ensures ok ==> PlaceAll(Wants(counts[..fileNumber + 1])) == Done(Placing(taken))
      ensures !ok ==> PlaceAll(Wants(counts)).Rejected?
    {
      var blocks := CountBlocks(fileNumber);
      ok, taken := true, before;
      WantsStep(counts, fileNumber);
      for block := 0 to blocks
        invariant Valid() && ok
        invariant PlaceAll(Wants(counts[..fileNumber]) + StreamWants(fileNumber, block)) == Done(Placing(taken))
      {
        PlacedPrefixShort(counts, fileNumber, block);
        ghost var p := Placing(taken);
        if block > 255 {
          return false, taken;
        }
        ok, taken := TakeBlock(fileNumber, block, taken);
        if !ok {
          RefusedBlock(counts, fileNumber, block, p);
          return;
        }
        PlaceNext(counts, fileNumber, block, p);
      }
    }

    /** Bytes 0 .. 27: the sector header and its checksum, over a zeroed buffer. */
    method WriteHead(number: byte, sector: array<byte>)
      requires Valid() && sector.Length == RECORD_SIZE && sector[..28] == Fill(28, 0)
      modifies sector
      ensures sector[..28] == RecordHead(HeaderData(number, mediumName, mediumId)) && sector[28..] == old(sector[28..])
    {
      var header := HeaderData(number, mediumName, mediumId);
      Put(sector, 10, [0xFF, 0xFF]);
      Put(sector, 12, header);
      Put(sector, 26, Checksum(header));
    }

    /** Bytes 28 .. 51: the block header and the data preamble, over a zeroed buffer. */
    method WriteBlockHeader(file: byte, block: byte, sector: array<byte>)
      requires sector.Length == RECORD_SIZE
      requires sector[28..38] == Fill(10, 0) && sector[44..50] == Fill(6, 0)
      modifies sector
      ensures sector[28..52] == RecordBlock(file, block)
      ensures sector[..28] == old(sector[..28]) && sector[52..] == old(sector[52..])
    {
      assert forall i :: 28 <= i < 38 ==> sector[i] == sector[28..38][i - 28];
      assert forall i :: 44 <= i < 50 ==> sector[i] == sector[44..50][i - 44];
      Put(sector, 38, [0xFF, 0xFF]);
      Put(sector, 40, [file, block]);
      Put(sector, 42, Checksum([file, block]));
      Put(sector, 50, [0xFF, 0xFF]);
    }

    /** The map written into the payload in place. */
    method WriteMap(sector: array<byte>)
      requires Valid() && sector.Length == RECORD_SIZE && sector != mapFile && sector != mapBlock
      modifies sector
      ensures sector[52..564] == MapPayload(Placing([]))
      ensures sector[..52] == old(sector[..52]) && sector[564..] == old(sector[564..])
    {
      for index := 0 to SECTOR_COUNT
        invariant forall i :: 52 <= i < 52 + 2 * index ==>
                    sector[i] == if i % 2 == 0 then mapFile[(i - 52) / 2] else mapBlock[(i - 52) / 2]
        invariant sector[..52] == old(sector[..52]) && sector[564..] == old(sector[564..])
      {
        sector[52 + index * 2] := mapFile[index];
        sector[52 + index * 2 + 1] := mapBlock[index];
      }
      sector[562] := 1;
      sector[563] := currentSector;
    }

    /** A directory block: every header that overlaps it, copied where it overlaps. */
    method DirectoryPayload(block: byte, sector: array<byte>)
      requires Valid() && sector.Length == RECORD_SIZE
      modifies sector
      ensures sector[52..564] == Payload(Stream(files, 0), block)
      ensures sector[..52] == old(sector[..52]) && sector[564..] == old(sector[564..])
    {
      ghost var directory := Stream(files, 0);
      DirectoryLength(files);
      Put(sector, 52, Fill(DATA_SIZE, 0));
      var payloadOffset := block as nat * DATA_SIZE;
      var header := Header([], false, 0, (|files| + 1) * HEADER_SIZE);
      CopyHeaderRange(sector, payloadOffset, 0, header);
      for index := 0 to |files|
        invariant sector[..52] == old(sector[..52]) && sector[564..] == old(sector[564..])
        invariant forall i :: 52 <= i < 564 ==>
                    sector[i] == if payloadOffset + (i - 52) < (index + 1) * HEADER_SIZE
                                 then directory[payloadOffset + (i - 52)] else 0
      {
        header := FileHeader(files[index]);
        DirectoryEntry(files, index, (index + 1) * HEADER_SIZE);
        assert forall k :: 0 <= k < HEADER_SIZE ==> directory[(index + 1) * HEADER_SIZE + k] == header[k];
        CopyHeaderRange(sector, payloadOffset, (index + 1) * HEADER_SIZE, header);
      }
      PayloadIs(sector[52..564], directory, block);
    }

    /** The file bytes of the block that starts at `streamOffset`, read straight into the buffer. */
    method ReadFileData(data: seq<byte>, streamOffset: nat, sector: array<byte>) returns (ok: bool)
      requires sector.Length == RECORD_SIZE
      requires HEADER_SIZE < streamOffset + DATA_SIZE && streamOffset < |data| + HEADER_SIZE
      modifies sector
      ensures ok ==> forall i :: 52 <= i < 564 ==>
                sector[i] == if HEADER_SIZE <= streamOffset + (i - 52) < |data| + HEADER_SIZE
                             then data[streamOffset + (i - 52) - HEADER_SIZE] else old(sector[i])
      ensures readable ==> ok
      ensures sector[..52] == old(sector[..52]) && sector[564..] == old(sector[564..])
    {
      var dataStart := if streamOffset > HEADER_SIZE then streamOffset - HEADER_SIZE else 0;
      var payloadStart := if streamOffset < HEADER_SIZE then HEADER_SIZE - streamOffset else 0;
      var available := |data| - dataStart;
      var wanted := DATA_SIZE - payloadStart;
      if wanted > available {
        wanted := available;
      }
      if !readable {
        var fails: bool := *;
        if fails {
          return false;
        }
      }
      Put(sector, 52 + payloadStart, data[dataStart..dataStart + wanted]);
      ok := true;
    }

    /** A file block: the header where it overlaps, then the file's bytes up to the wrapped end of the stream. */
    method FilePayload(fileNumber: nat, block: byte, sector: array<byte>) returns (ok: bool)
      requires Valid() && sector.Length == RECORD_SIZE && 1 <= fileNumber <= |files|
      modifies sector
      ensures ok ==> sector[52..564] == FileBlock(files[fileNumber - 1], block)
      ensures readable ==> ok
      ensures sector[..52] == old(sector[..52]) && sector[564..] == old(sector[564..])
    {
      var file := files[fileNumber - 1];
      ghost var stream := FileStream(file);
      var header := FileHeader(file);
      assert forall k :: 0 <= k < HEADER_SIZE ==> stream[k] == header[k];
      assert forall k :: HEADER_SIZE <= k < |stream| ==> stream[k] == file.data[k - HEADER_SIZE];
      Put(sector, 52, Fill(DATA_SIZE, 0));
      var streamOffset := block as nat * DATA_SIZE;
      CopyHeaderRange(sector, streamOffset, 0, header);
      ok := true;
      if HEADER_SIZE < streamOffset + DATA_SIZE && streamOffset < (|file.data| + HEADER_SIZE) % 0x1_0000_0000 {
        ok := ReadFileData(file.data, streamOffset, sector);
        if ok {
          PayloadIs(sector[52..564], stream, block);
        }
      } else {
        PayloadIs(sector[52..564], header, block);
      }
    }

    /** The map is as allocation leaves it: sector 254 damaged, and in the file sectors only counted blocks. */
    ghost predicate MapReady()
      requires mapFile.Length == SECTOR_COUNT && mapBlock.Length == SECTOR_COUNT
      reads mapFile, mapBlock
    {
      && Slots()[254] == Slot(DAMAGED_SECTOR, 0)
      && forall s :: 0 < s < 254 && 1 <= Slots()[s].file <= |files| ==> IsBlock(Counts32(files), Slots()[s])
    }

    /** The data of a sector other than the map, over the calibration pattern. */
    method WriteBlock(fileNumber: byte, block: byte, sector: array<byte>) returns (ok: bool)
      requires Valid() && sector.Length == RECORD_SIZE && sector[52..564] == Calibration(DATA_SIZE)
      modifies sector
      ensures ok ==> sector[52..564] == (if fileNumber == 0 then Payload(Stream(files, 0), block)
                                         else if fileNumber <= |files| then FileBlock(files[fileNumber - 1], block)
                                         else Calibration(DATA_SIZE))
      ensures readable ==> ok
      ensures sector[..52] == old(sector[..52]) && sector[564..] == old(sector[564..])
    {
      ok := true;
      if fileNumber == 0 {
        DirectoryPayload(block, sector);
      } else if fileNumber <= |files| {
        ok := FilePayload(fileNumber, block, sector);
      }
    }

    /** The 512 data bytes of a sector. */
    method WritePayload(number: byte, sector: array<byte>) returns (ok: bool)
      requires Valid() && MapReady() && number < SECTOR_COUNT
      requires sector.Length == RECORD_SIZE && sector != mapFile && sector != mapBlock
      modifies sector
      ensures ok ==> sector[52..564] == OwnPayload(files, Placing([]), number)
      ensures readable ==> ok
      ensures sector[..52] == old(sector[..52]) && sector[564..] == old(sector[564..])
    {
      ghost var p := Placing([]);
      Put(sector, 52, Calibration(DATA_SIZE));
      assert sector[52..564] == Calibration(DATA_SIZE);
      assert p == Placing([]);
      ok := true;
      if number == 0 {
        WriteMap(sector);
      } else {
        assert p.slots[number] == Slot(mapFile[number], mapBlock[number]);
        ok := WriteBlock(mapFile[number], mapBlock[number], sector);
        if 1 <= p.slots[number].file <= |files| {
          assert number != 254 && IsBlock(Counts32(files), p.slots[number]);
          CountedPayload(files, p.slots[number].file, p.slots[number].block);
        }
      }
      assert Placing([]) == p;
    }

    /** The tail that every record ends with. */
    method WriteTail(sector: array<byte>)
      requires sector.Length == RECORD_SIZE
      modifies sector
      ensures sector[52..566] == old(sector[52..564]) + Checksum(old(sector[52..564])) && sector[566..] == RecordTail()
      ensures sector[..52] == old(sector[..52])
    {
      Put(sector, 564, Checksum(sector[52..564]));
      Put(sector, 566, Calibration(84));
      Put(sector, 650, [0x19, 0x3B]);
      Put(sector, 652, Fill(34, 0x5A));
      assert sector[566..] == Calibration(84) + [0x19, 0x3B] + Fill(34, 0x5A);
    }

    /** Any sector on demand equals the same sector of the desktop image, but for the damaged mark. */
    method MakeSector(number: byte, sector: array<byte>) returns (ok: bool)
      requires Valid() && MapReady() && number < SECTOR_COUNT
      requires sector.Length == RECORD_SIZE && sector != mapFile && sector != mapBlock
      modifies sector
      ensures ok ==> sector[..] == SectorRecord(files, mediumName, mediumId, Placing([]), 0xFF, number)
      ensures readable ==> ok
    {
      ghost var p := Placing([]);
      ghost var own := OwnSlot(p, 0xFF, number);
      Put(sector, 0, Fill(RECORD_SIZE, 0));
      assert sector[..28] == Fill(28, 0) && sector[28..] == Fill(658, 0);
      WriteHead(number, sector);
      assert sector[28..38] == sector[28..][..10] && sector[44..50] == sector[28..][16..22];
      WriteBlockHeader(if number == 0 then MAP_MARK else mapFile[number],
                       if number == 0 then 0 else mapBlock[number], sector);
      ghost var head := sector[..52];
      assert head == sector[..28] + sector[28..52];
      assert Placing([]) == p;
      ok := WritePayload(number, sector);
      if ok {
        ghost var payload := sector[52..564];
        WriteTail(sector);
        assert Placing([]) == p;
        RecordFromParts(sector[..], HeaderData(number, mediumName, mediumId), own.file, own.block, payload);
      }
    }

    /** The next record in tape order, in the one buffer. */
    method MakeRecord(physical: nat, sector: array<byte>, ghost p: Placement) returns (ok: bool)
      requires Valid() && MapReady() && physical < SECTOR_COUNT && p == Placing([])
      requires sector.Length == RECORD_SIZE && sector != mapFile && sector != mapBlock
      modifies sector
      ensures ok ==> sector[..] == Records(files, mediumName, mediumId, p, 0xFF)[physical]
      ensures readable ==> ok
    {
      ok := MakeSector(if physical == 0 then 0 else SECTOR_COUNT - physical, sector);
    }

    /** Records in tape order, each made in the one buffer and written out. */
    method WriteImage() returns (ok: bool, output: seq<byte>)
      requires Valid() && MapReady()
      ensures ok ==> output == Image(files, mediumName, mediumId, Placing([]), 0xFF)
      ensures readable ==> ok
    {
      var sector := new byte[RECORD_SIZE];
      ghost var p := Placing([]);
      ghost var records := Records(files, mediumName, mediumId, p, 0xFF);
      ok, output := true, [];
      for physical := 0 to SECTOR_COUNT
        invariant Valid() && MapReady() && fresh(sector) && ok
        invariant Placing([]) == p && output == Flatten(records[..physical])
      {
        ok := MakeRecord(physical, sector, p);
        if !ok {
          return;
        }
        FlattenStep(records, physical);
        output := output + sector[..];
      }
      assert records[..SECTOR_COUNT] == records;
    }

    /** The medium id, reading each file through a 512-byte buffer in pieces of any size. */
    method ComputeMediumId() returns (ok: bool)
      requires Valid()
      modifies this`mediumId
      ensures Valid()
      ensures ok ==> mediumId == MediumId(mediumName, files)
      ensures readable ==> ok
    {
      var fingerprint := ContinueCrc32(0, mediumName);
      for index := 0 to |files|
        invariant fingerprint == Fingerprint(mediumName, files[..index])
      {
        assert files[..index + 1][..index] == files[..index];
        fingerprint := ContinueCrc32(fingerprint, files[index].name);
        ok, fingerprint := ContinueOverFile(fingerprint, files[index].data, readable);
        if !ok {
          return;
        }
      }
      assert files[..|files|] == files;
      mediumId := (fingerprint as nat) % 0x10000;
      ok := true;
    }

    /** The whole build, from files that fit and can be read to the bytes written out. */
    method Generate() returns (ok: bool, output: seq<byte>)
      requires Valid() && mediumName == PadMedium(MEDIUM)
      modifies this, mapFile, mapBlock
      ensures ok ==> FirmwareImage(files) == Done(output)
      ensures readable ==> (ok <==> FirmwareImage(files).Done?)
      ensures readable ==> (ok <==> |Wants(Counts32(files))| <= CAPACITY)
    {
      output := [];
      FirmwareFits(files);
      ok := ComputeMediumId();
      if !ok {
        return;
      }
      ghost var taken;
      ok, taken := AllocateStreams();
      if !ok {
        return;
      }
      MapKept(files, Placing(taken));
      ok, output := WriteImage();
      if ok {
        FirmwareImageIs(files, mediumName, mediumId, Placing(taken), Placing([]), output);
      }
    }
  }

  /** What the firmware writes for a block of a file: past the wrapped end of the stream no data. */
  function FileBlock(f: DriveFile, block: nat): (p: seq<byte>)
    requires |f.name| <= 36
    ensures |p| == DATA_SIZE
  {
    if block * DATA_SIZE < (|f.data| + HEADER_SIZE) % 0x1_0000_0000 then Payload(FileStream(f), block)
    else Payload(FileHeader(f), block)
  }

  /** For a block that was counted it is the stream's, even if the count was wrong. */
  lemma CountedPayload(files: seq<DriveFile>, number: nat, block: nat)
    requires Collected(files) && 1 <= number <= |files| && block < Counts32(files)[number]
    ensures FileBlock(files[number - 1], block) == Payload(Stream(files, number), block)
  {
    CountedBlock(|files[number - 1].data|, block);
  }

  lemma RecordFromParts(s: seq<byte>, header: seq<byte>, file: byte, block: byte, payload: seq<byte>)
    requires |s| == RECORD_SIZE && |header| == 14 && |payload| == DATA_SIZE
    requires s[..52] == RecordHead(header) + RecordBlock(file, block)
    requires s[52..566] == payload + Checksum(payload) && s[566..] == RecordTail()
    ensures s == Record(header, file, block, payload)
  {
    assert s == s[..52] + s[52..566] + s[566..];
  }

  /** CRC-32 over a file read in pieces: each read returns between 1 and 512 of the remaining bytes, or fails. */
  method ContinueOverFile(previous: bv32, data: seq<byte>, readable: bool) returns (ok: bool, fingerprint: bv32)
    ensures ok ==> fingerprint == CrcContinue(previous, data)
    ensures readable ==> ok
  {
    fingerprint := previous;
    var at := 0;
    CrcContinueNothing(previous);
    while at < |data|
      invariant 0 <= at <= |data| && fingerprint == CrcContinue(previous, data[..at])
    {
      if !readable {
        var fails: bool := *;
        if fails {
          return false, fingerprint;
        }
      }
      var count: nat :| 1 <= count <= 512 && at + count <= |data|;
      CrcChunk(previous, data, at, count);
      fingerprint := ContinueCrc32(fingerprint, data[at..at + count]);
      at := at + count;
    }
    assert data[..at] == data;
    ok := true;
  }

  /** What has been placed so far fits, so block numbers never outgrow a byte. */
  lemma PlacedPrefixShort(counts: seq<nat>, number: nat, block: nat)
    requires Numbered(counts) && number < |counts| && block <= counts[number]
    requires PlaceAll(Wants(counts[..number]) + StreamWants(number, block)).Done?
    ensures block <= CAPACITY
  {
    var prefix := Wants(counts[..number]) + StreamWants(number, block);
    WantsPrefix(counts, number, block);
    WantsPlaceable(counts);
    assert Placeable(prefix) by {
      assert forall i :: 0 <= i < |prefix| ==> prefix[i] == Wants(counts)[i];
    }
    AllocatorCorrect(prefix);
  }

  // ----- The firmware image against the desktop image

  const MEDIUM: seq<byte> := [0x4E, 0x41, 0x4E, 0x4F, 0x51, 0x4C]

  /** The image the firmware produces for a file list: its own counts, the same id, sector 254 marked damaged. */
  function FirmwareImage(files: seq<DriveFile>): (r: Outcome<seq<byte>>)
    requires Collected(files)
  {
    WantsPlaceable(Counts32(files));
    AllocatorCorrect(Wants(Counts32(files)));
    match PlaceAll(Wants(Counts32(files)))
    case Rejected => Rejected
    case Done(p) =>
      PlacedEncodable(Counts32(files), p);
      Done(Image(files, PadMedium(MEDIUM), MediumId(PadMedium(MEDIUM), files), p, 0xFF))
  }

  /** The order in which sectors were taken leaves no trace in the image. */
  lemma ImageIgnoresOrder(files: seq<DriveFile>, medium: seq<byte>, id: nat, p: Placement, q: Placement)
    requires ValidFiles(files) && |medium| == 10 && Encodable(p.slots) && p.current < SECTOR_COUNT
    requires p.slots == q.slots && p.current == q.current
    ensures Image(files, medium, id, p, 0xFF) == Image(files, medium, id, q, 0xFF)
  {
    assert MapPayload(p) == MapPayload(q);
    assert Records(files, medium, id, p, 0xFF) == Records(files, medium, id, q, 0xFF);
  }

  /** Allocation marks sector 254 damaged and hands out only blocks that were counted. */
  lemma MapKept(files: seq<DriveFile>, p: Placement)
    requires Collected(files) && PlaceAll(Wants(Counts32(files))) == Done(p)
    ensures p.slots[254] == Slot(DAMAGED_SECTOR, 0)
    ensures forall s :: 0 < s < 254 && 1 <= p.slots[s].file <= |files| ==> IsBlock(Counts32(files), p.slots[s])
  {
    WantsPlaceable(Counts32(files));
    AllocatorCorrect(Wants(Counts32(files)));
    forall s | 0 < s < 254 && 1 <= p.slots[s].file <= |files|
      ensures IsBlock(Counts32(files), p.slots[s])
    {
      PlacedBlock(Counts32(files), p, s);
    }
  }

  lemma FirmwareImageIs(files: seq<DriveFile>, medium: seq<byte>, id: nat, p: Placement, q: Placement, image: seq<byte>)
    requires Collected(files) && PlaceAll(Wants(Counts32(files))) == Done(p)
    requires medium == PadMedium(MEDIUM) && id == MediumId(medium, files)
    requires Encodable(q.slots) && p.slots == q.slots && p.current == q.current
    requires image == Image(files, medium, id, q, 0xFF)
    ensures FirmwareImage(files) == Done(image)
  {
    ImageIgnoresOrder(files, medium, id, p, q);
  }

  /** The two images differ in the records of sector 254 alone, and there in two bytes. */
  lemma DamagedRecordDiffers(header: seq<byte>, payload: seq<byte>, i: nat)
    requires |header| == 14 && |payload| == DATA_SIZE && i < RECORD_SIZE
    ensures Record(header, 0xFF, 0, payload)[i] == Record(header, 0xFD, 0, payload)[i] <==> i != 40 && i != 42
  {
    var a, b := Record(header, 0xFF, 0, payload), Record(header, 0xFD, 0, payload);
    var mid, mid' := RecordBlock(0xFF, 0), RecordBlock(0xFD, 0);
    ChecksumOfPair(0xFF);
    ChecksumOfPair(0xFD);
    assert mid == Fill(10, 0) + [0xFF, 0xFF] + [0xFF, 0] + [0x0E, 0x10] + Fill(6, 0) + [0xFF, 0xFF];
    assert mid' == Fill(10, 0) + [0xFF, 0xFF] + [0xFD, 0] + [0x0C, 0x10] + Fill(6, 0) + [0xFF, 0xFF];
    if 28 <= i < 52 {
      assert a[i] == mid[i - 28] && b[i] == mid'[i - 28];
    }
  }

  lemma ChecksumOfPair(b: byte)
    requires b > 0xF0
    ensures Checksum([b, 0]) == [(0x0F0F + b as int) % 256, 0x10]
  {
    SumTwo(b, 0);
  }

  /** A file whose count wraps wants more blocks than any cartridge has. */
  lemma WrapsNeverFit(files: seq<DriveFile>)
    requires Collected(files) && !SizesFit(files)
    ensures |Wants(BlockCounts(files))| > CAPACITY
  {
    var i :| 0 <= i < |files| && |files[i].data| + 575 >= 0x1_0000_0000;
    if |Wants(BlockCounts(files))| <= CAPACITY {
      FileFits(files, i);
    }
  }

  /**
   * Which lists the firmware refuses, for every list that the collector lets through: those that the
   * desktop refuses, exactly when no 32-bit count wraps or the wrapped counts do not fit either.  It
   * never refuses a list that the desktop accepts.
   */
  lemma FirmwareRefusal(files: seq<DriveFile>)
    requires Collected(files)
    ensures FirmwareImage(files).Done? <==> |Wants(Counts32(files))| <= CAPACITY
    ensures (FirmwareImage(files).Done? <==> Build(files, MEDIUM).Done?) <==>
              SizesFit(files) || |Wants(Counts32(files))| > CAPACITY
    ensures Build(files, MEDIUM).Done? ==> FirmwareImage(files).Done? && SizesFit(files)
  {
    FirmwareFits(files);
    CapacityIs252(files, MEDIUM);
    RefusalCases(files, FirmwareImage(files).Done?, Build(files, MEDIUM).Done?);
  }

  lemma RefusalCases(files: seq<DriveFile>, firmware: bool, desktop: bool)
    requires Collected(files)
    requires firmware <==> |Wants(Counts32(files))| <= CAPACITY
    requires desktop <==> |Wants(BlockCounts(files))| <= CAPACITY
    ensures (firmware <==> desktop) <==> SizesFit(files) || |Wants(Counts32(files))| > CAPACITY
    ensures desktop ==> firmware && SizesFit(files)
  {
    Counts32Exact(files);
    if !SizesFit(files) {
      WrapsNeverFit(files);
    }
  }

  lemma FirmwareFits(files: seq<DriveFile>)
    requires Collected(files)
    ensures FirmwareImage(files).Done? <==> |Wants(Counts32(files))| <= CAPACITY
  {
    WantsPlaceable(Counts32(files));
    AllocatorCorrect(Wants(Counts32(files)));
  }

  /**
   * Refinement.  For every list that the desktop accepts the two images are the same byte for byte,
   * except for byte 40 and byte 42 of the second record, where they always differ; and both parse to
   * the same files.
   */
  lemma FirmwareRefinesDesktop(files: seq<DriveFile>, i: nat)
    requires Collected(files) && Build(files, MEDIUM).Done? && i < IMAGE_SIZE
    ensures FirmwareImage(files).Done?
    ensures |FirmwareImage(files).value| == |Build(files, MEDIUM).value| == IMAGE_SIZE
    ensures FirmwareImage(files).value[i] == Build(files, MEDIUM).value[i] <==> i != 726 && i != 728
    ensures Parse(FirmwareImage(files).value) == Parse(Build(files, MEDIUM).value) == Done(ExpectedAll(files))
  {
    assert ValidMedium(MEDIUM);
    FirmwareRefusal(files);
    Counts32Exact(files);
    var p, medium := PlaceAll(Wants(BlockCounts(files))).value, PadMedium(MEDIUM);
    var id := MediumId(medium, files);
    BuiltCarries(files, MEDIUM, id, p, 0xFF);
    BuiltCarries(files, MEDIUM, id, p, 0xFD);
    var a, b := FirmwareImage(files).value, Build(files, MEDIUM).value;
    ImagesDiffer(a, b, files, medium, id, p, i);
    ParseCarried(a, files, medium, id, p, 0xFF);
    ParseCarried(b, files, medium, id, p, 0xFD);
  }

  // ----- What becomes of a list that wraps

  /** The header of a file whose count wraps, or the lack of any block of it, is refused by the parser. */
  lemma WrappedEntry(f: DriveFile, blocks: map<Slot, seq<byte>>, file: nat)
    requires ValidFile(f) && |f.data| < 0x1_0000_0000 && |f.data| + 575 >= 0x1_0000_0000
    requires Blocks32(|f.data|) == 0 ==> Joined(blocks, file).Rejected?
    ensures HeaderEntry(FileHeader(f), blocks, file) == Rejected
  {
    var total := |f.data| + HEADER_SIZE;
    HeaderFields(f.name, f.executable, f.dataSpace, total);
    Be16RoundTrip(|f.name|);
    WrappedCount(|f.data|);
    if Blocks32(|f.data|) > 0 {
      Be32Wraps(total);
    }
  }

  lemma Be32Wraps(n: nat)
    requires n < 0x2_0000_0000
    ensures FromBe32(Be32(n)) == n % 0x1_0000_0000
  {
    var low := n % 0x1_0000_0000;
    if n != low {
      SameLowBytes(low, n);
    }
    Be32RoundTrip(low);
  }

  lemma SameLowBytes(low: nat, n: nat)
    requires n == low + 0x1_0000_0000
    ensures Be32(n) == Be32(low)
  {
    Carry24(low);
    Carry16(low);
    Carry8(low);
    SameByte(n, low, 0x100_0000);
    SameByte(n / 0x1000000, low / 0x1000000, 1);
    SameByte(n / 0x10000, low / 0x10000, 0x100);
    SameByte(n / 256, low / 256, 0x1_0000);
  }

  lemma SameByte(a: nat, b: nat, k: nat)
    requires a == b + 256 * k
    ensures a % 256 == b % 256
  {
  }

  lemma Carry24(n: nat)
    ensures (n + 0x1_0000_0000) / 0x1000000 == n / 0x1000000 + 256
  {
  }

  lemma Carry16(n: nat)
    ensures (n + 0x1_0000_0000) / 0x10000 == n / 0x10000 + 256 * 0x100
  {
  }

  lemma Carry8(n: nat)
    ensures (n + 0x1_0000_0000) / 256 == n / 256 + 256 * 0x1_0000
  {
  }

  /** One refused entry refuses the directory. */
  lemma {:induction false} EntryRefused(directory: seq<byte>, blocks: map<Slot, seq<byte>>, i: nat, n: nat)
    requires (n + 1) * HEADER_SIZE <= |directory| && i < n && Entry(directory, blocks, i) == Rejected
    ensures Entries(directory, blocks, n) == Rejected
    decreases n
  {
    if i < n - 1 {
      EntryRefused(directory, blocks, i, n - 1);
    }
  }

  lemma WrappedDirectory(blocks: map<Slot, seq<byte>>, files: seq<DriveFile>)
    requires Collected(files) && !SizesFit(files) && Recovered(blocks, files, Counts32(files))
    ensures ParseDirectory(blocks) == Rejected
  {
    var counts := Counts32(files);
    var directory := DirectoryFound(blocks, files, counts);
    var i: nat :| i < |files| && |files[i].data| + 575 >= 0x1_0000_0000;
    WrappedFile(blocks, files, directory, i);
    EntryRefused(directory, blocks, i, |files|);
  }

  lemma WrappedFile(blocks: map<Slot, seq<byte>>, files: seq<DriveFile>, directory: seq<byte>, i: nat)
    requires Collected(files) && Recovered(blocks, files, Counts32(files)) && Directory(files) <= directory
    requires i < |files| && |files[i].data| + 575 >= 0x1_0000_0000
    ensures (i + 2) * HEADER_SIZE <= |directory| && Entry(directory, blocks, i) == Rejected
  {
    JoinedStream(blocks, files, Counts32(files), i + 1);
    WrappedEntry(files[i], blocks, i + 1);
    EntryHeader(files, directory, i);
  }

  /**
   * No such image passes for a cartridge: of the images the firmware makes, the parser accepts
   * exactly those of the lists that the desktop accepts.
   */
  lemma FirmwareImageParses(files: seq<DriveFile>)
    requires Collected(files) && FirmwareImage(files).Done?
    ensures Parse(FirmwareImage(files).value).Done? <==> Build(files, MEDIUM).Done?
  {
    FirmwareRefusal(files);
    if SizesFit(files) {
      FirmwareRefinesDesktop(files, 0);
    } else {
      var p, medium := PlaceAll(Wants(Counts32(files))).value, PadMedium(MEDIUM);
      var id := MediumId(medium, files);
      FirmwareLaid(files, medium, id, p);
      var blocks := LaidParses(FirmwareImage(files).value, files, Counts32(files), medium, id, p, 0xFF);
      WrappedDirectory(blocks, files);
    }
  }

  lemma FirmwareLaid(files: seq<DriveFile>, medium: seq<byte>, id: nat, p: Placement)
    requires Collected(files) && medium == PadMedium(MEDIUM) && id == MediumId(medium, files)
    requires PlaceAll(Wants(Counts32(files))) == Done(p)
    ensures FirmwareImage(files).Done? && PlacedBy(p, files, Counts32(files))
    ensures Laid(FirmwareImage(files).value, files, medium, id, p, 0xFF)
  {
    var counts := Counts32(files);
    FirmwarePlaced(counts, p);
    FirmwareImageIs(files, medium, id, p, p, Image(files, medium, id, p, 0xFF));
    MediumLaid(files, medium, id, p);
  }

  lemma FirmwarePlaced(counts: seq<nat>, p: Placement)
    requires Numbered(counts) && PlaceAll(Wants(counts)) == Done(p)
    ensures Placed(p, Wants(counts)) && |Wants(counts)| <= CAPACITY && Encodable(p.slots)
  {
    WantsPlaceable(counts);
    AllocatorCorrect(Wants(counts));
    PlacedEncodable(counts, p);
  }

  lemma MediumLaid(files: seq<DriveFile>, medium: seq<byte>, id: nat, p: Placement)
    requires ValidFiles(files) && medium == PadMedium(MEDIUM) && Encodable(p.slots) && p.current < SECTOR_COUNT
    ensures Laid(Image(files, medium, id, p, 0xFF), files, medium, id, p, 0xFF)
  {
    ImageRecords(files, medium, id, p, 0xFF);
  }

  lemma TwoBlocks(counts: seq<nat>)
    requires |counts| == 2 && counts[0] == 1 == counts[1]
    ensures |Wants(counts)| == 2
  {
    var first := counts[..1];
    assert first[..0] == [];
    assert |Wants(first)| == 1;
  }

  /** A list that shows it: one file of 2^32 - 1 bytes is counted as one block, and the image is written. */
  lemma HugeFileAccepted(file: DriveFile)
    requires ValidFile(file) && |file.data| == 0xFFFF_FFFF
    ensures Collected([file]) && FirmwareImage([file]).Done? && Build([file], MEDIUM).Rejected?
    ensures Parse(FirmwareImage([file]).value).Rejected?
  {
    var files, counts := [file], Counts32([file]);
    assert |files[0].data| + 575 >= 0x1_0000_0000;
    TwoBlocks(counts);
    FirmwareRefusal(files);
    FirmwareImageParses(files);
  }

  lemma InRecord(image: seq<byte>, k: nat, o: nat, i: nat)
    requires |image| == IMAGE_SIZE && k < SECTOR_COUNT && o < RECORD_SIZE && i == k * RECORD_SIZE + o
    ensures i < |image| && image[i] == RecordAt(image, k)[o]
  {
  }

  lemma ImagesDiffer(a: seq<byte>, b: seq<byte>, files: seq<DriveFile>, medium: seq<byte>, id: nat, p: Placement,
                     i: nat)
    requires Carries(a, files, medium, id, p, 0xFF) && Carries(b, files, medium, id, p, 0xFD) && i < IMAGE_SIZE
    ensures a[i] == b[i] <==> i != 726 && i != 728
  {
    var k, o := i / RECORD_SIZE, i % RECORD_SIZE;
    assert i == k * RECORD_SIZE + o;
    InRecord(a, k, o, i);
    InRecord(b, k, o, i);
    if k == 1 {
      DamagedRecordDiffers(HeaderData(254, medium, id), Calibration(DATA_SIZE), o);
    } else {
      assert PhysicalNumber(k) != 254;
    }
  }
}
