/** The desktop cartridge builder, in its own imperative form, against the image it must produce. */
module QlayBuilder {
  import opened Bytes
  import opened Checksums
  import opened QlayFormat
  import opened QlayAllocator
  import opened QlayImage
  import opened QlayParse
  import opened QlayRoundTrip

  /** The mutable part of a sector before serialisation. */
  datatype SectorData = SectorData(file: nat, block: nat, data: seq<byte>)

  function EmptySector(): SectorData {
    SectorData(FREE_SECTOR, 0, Calibration(DATA_SIZE))
  }

  /** A sector holds the block its map entry names, or is still as formatted. */
  ghost predicate SectorMatches(files: seq<DriveFile>, slot: Slot, taken: bool, sector: SectorData)
    requires ValidFiles(files)
  {
    if taken
    then slot.file <= |files|
         && sector == SectorData(slot.file, slot.block, Payload(Stream(files, slot.file), slot.block))
    else sector == EmptySector()
  }

  ghost predicate SectorsMatch(files: seq<DriveFile>, p: Placement, sectors: seq<SectorData>)
    requires ValidFiles(files)
  {
    |p.slots| == |sectors| == SECTOR_COUNT &&
    forall s :: 0 <= s < SECTOR_COUNT ==> SectorMatches(files, p.slots[s], s in p.taken, sectors[s])
  }

  /** The slice of a stream for one block, justified with zeros. */
  method CutBlock(stream: seq<byte>, block: nat) returns (payload: seq<byte>)
    requires block < Blocks(|stream|)
    ensures payload == Payload(stream, block)
  {
    var slice := stream[block * DATA_SIZE..Min((block + 1) * DATA_SIZE, |stream|)];
    PayloadIsSlice(stream, block);
    payload := slice + Fill(DATA_SIZE - |slice|, 0);
  }

  /** Takes one sector for one block and looks ahead. */
  method PlaceBlock(files: seq<DriveFile>, number: nat, block: nat, stream: seq<byte>,
                    mapping: seq<Slot>, current: nat, sectors: seq<SectorData>, ghost taken: seq<nat>)
    returns (ok: bool, mapping': seq<Slot>, current': nat, sectors': seq<SectorData>, ghost taken': seq<nat>)
    requires ValidFiles(files) && number <= |files| && stream == Stream(files, number) && block < Blocks(|stream|)
    requires |mapping| == SECTOR_COUNT && current < SECTOR_COUNT
             && SectorsMatch(files, Placement(mapping, current, taken), sectors)
    ensures |mapping'| == SECTOR_COUNT && current' < SECTOR_COUNT
    ensures ok ==>
              PlaceOne(Placement(mapping, current, taken), Slot(number, block))
              == Done(Placement(mapping', current', taken'))
    ensures ok ==> SectorsMatch(files, Placement(mapping', current', taken'), sectors')
    ensures !ok ==> PlaceOne(Placement(mapping, current, taken), Slot(number, block)).Rejected?
  {
    mapping', current', sectors', taken' := mapping, current, sectors, taken;
    var sector;
    var next;
    ok, sector, next := TakeSector(mapping, current, Slot(number, block), taken);
    if ok {
      var payload := CutBlock(stream, block);
      TakenMatches(files, Placement(mapping, current, taken), sectors, sector, Slot(number, block), next);
      sectors' := sectors[sector := SectorData(number, block, payload)];
      mapping', current', taken' := mapping[sector := Slot(number, block)], next, taken + [sector];
    }
  }

  lemma TakenMatches(files: seq<DriveFile>, p: Placement, sectors: seq<SectorData>, sector: nat, want: Slot, next: nat)
    requires ValidFiles(files) && SectorsMatch(files, p, sectors) && sector < SECTOR_COUNT && want.file <= |files|
    ensures SectorsMatch(files, Placement(p.slots[sector := want], next, p.taken + [sector]),
                         sectors[sector := SectorData(want.file, want.block,
                                                      Payload(Stream(files, want.file), want.block))])
  {
    forall s | 0 <= s < SECTOR_COUNT && s != sector
      ensures SectorMatches(files, p.slots[s], s in p.taken + [sector], sectors[s])
    {
      assert SectorMatches(files, p.slots[s], s in p.taken, sectors[s]);
    }
  }

  /** The placement loops: stream after stream, block after block. */
  method PlaceStreams(files: seq<DriveFile>)
    returns (ok: bool, mapping: seq<Slot>, current: nat, sectors: seq<SectorData>, ghost taken: seq<nat>)
    requires ValidFiles(files)
    ensures |mapping| == SECTOR_COUNT && current < SECTOR_COUNT
    ensures ok ==> PlaceAll(Wants(BlockCounts(files))) == Done(Placement(mapping, current, taken))
    ensures ok ==> SectorsMatch(files, Placement(mapping, current, taken), sectors)
    ensures !ok ==> PlaceAll(Wants(BlockCounts(files))).Rejected?
  {
    ghost var counts := BlockCounts(files);
    PlaceAllStart(counts);
    var start := Initial();
    ok, mapping, current, taken := true, start.slots, start.current, [];
    sectors := seq(SECTOR_COUNT, _ => EmptySector());
    for number := 0 to |files| + 1
      invariant |mapping| == SECTOR_COUNT && current < SECTOR_COUNT && ok
      invariant PlaceAll(Wants(counts[..number])) == Done(Placement(mapping, current, taken))
      invariant SectorsMatch(files, Placement(mapping, current, taken), sectors)
    {
      ok, mapping, current, sectors, taken := PlaceStream(files, number, mapping, current, sectors, counts, taken);
      if !ok {
        return;
      }
    }
  }

  /** The blocks of one stream. */
  method PlaceStream(files: seq<DriveFile>, number: nat, mapping: seq<Slot>, current: nat, sectors: seq<SectorData>,
                     ghost counts: seq<nat>, ghost taken: seq<nat>)
    returns (ok: bool, mapping': seq<Slot>, current': nat, sectors': seq<SectorData>, ghost taken': seq<nat>)
    requires ValidFiles(files) && number <= |files| && counts == BlockCounts(files)
    requires |mapping| == SECTOR_COUNT && current < SECTOR_COUNT
    requires PlaceAll(Wants(counts[..number])) == Done(Placement(mapping, current, taken))
    requires SectorsMatch(files, Placement(mapping, current, taken), sectors)
    ensures |mapping'| == SECTOR_COUNT && current' < SECTOR_COUNT
    ensures ok ==> PlaceAll(Wants(counts[..number + 1])) == Done(Placement(mapping', current', taken'))
    ensures ok ==> SectorsMatch(files, Placement(mapping', current', taken'), sectors')
    ensures !ok ==> PlaceAll(Wants(counts)).Rejected?
  {
    ok, mapping', current', sectors', taken' := true, mapping, current, sectors, taken;
    var stream := Stream(files, number);
    WantsStep(counts, number);
    for block := 0 to Blocks(|stream|)
      invariant |mapping'| == SECTOR_COUNT && current' < SECTOR_COUNT && ok
      invariant PlaceAll(Wants(counts[..number]) + StreamWants(number, block))
             == Done(Placement(mapping', current', taken'))
      invariant SectorsMatch(files, Placement(mapping', current', taken'), sectors')
    {
      ghost var p := Placement(mapping', current', taken');
      ok, mapping', current', sectors', taken' :=
        PlaceBlock(files, number, block, stream, mapping', current', sectors', taken');
      if !ok {
        RefusedBlock(counts, number, block, p);
        return;
      }
      PlaceNext(counts, number, block, p);
    }
  }

  /** The map block: two bytes a sector, the format marker and the next allocation position. */
  method WriteMap(mapping: seq<Slot>, current: nat, ghost p: Placement) returns (payload: seq<byte>)
    requires p.slots == mapping && p.current == current && Encodable(mapping) && current < SECTOR_COUNT
    ensures payload == MapPayload(p)
  {
    var data := new byte[DATA_SIZE];
    for s := 0 to SECTOR_COUNT
      invariant forall j :: 0 <= j < 2 * s ==>
                  data[j] == if j % 2 == 0 then mapping[j / 2].file else mapping[j / 2].block
    {
      data[2 * s] := mapping[s].file;
      data[2 * s + 1] := mapping[s].block;
    }
    data[510] := 1;
    data[511] := current;
    payload := data[..];
  }

  lemma RecordOfSector(files: seq<DriveFile>, medium: seq<byte>, id: nat, p: Placement, number: byte)
    requires ValidFiles(files) && |medium| == 10 && number < SECTOR_COUNT && Encodable(p.slots)
             && p.current < SECTOR_COUNT
    ensures Record(HeaderData(number, medium, id), OwnSlot(p, 0xFD, number).file, OwnSlot(p, 0xFD, number).block,
                   OwnPayload(files, p, number)) == SectorRecord(files, medium, id, p, 0xFD, number)
  {
  }

  /** Records in tape order: 0, 254, 253, ..., 1. */
  method WriteImage(ghost files: seq<DriveFile>, medium: seq<byte>, id: nat, sectors: seq<SectorData>,
                    ghost p: Placement)
    returns (image: seq<byte>)
    requires ValidFiles(files) && |medium| == 10 && |sectors| == SECTOR_COUNT
    requires Encodable(p.slots) && p.current < SECTOR_COUNT
    requires forall s :: 0 <= s < SECTOR_COUNT ==>
               sectors[s] == SectorData(OwnSlot(p, 0xFD, s).file, OwnSlot(p, 0xFD, s).block, OwnPayload(files, p, s))
    ensures image == Image(files, medium, id, p, 0xFD)
  {
    ghost var records := Records(files, medium, id, p, 0xFD);
    image := [];
    for k := 0 to SECTOR_COUNT
      invariant image == Flatten(records[..k])
    {
      var number := PhysicalNumber(k);
      var sector := sectors[number];
      var record := Record(HeaderData(number, medium, id), sector.file, sector.block, sector.data);
      RecordOfSector(files, medium, id, p, number);
      FlattenStep(records, k);
      image := image + record;
    }
    assert records[..SECTOR_COUNT] == records;
  }

  /** CRC-32 over the padded name, then name and data of each file. */
  method ComputeMediumId(medium: seq<byte>, files: seq<DriveFile>) returns (id: nat)
    ensures id == MediumId(medium, files)
  {
    var fingerprint := ContinueCrc32(0, medium);
    for index := 0 to |files|
      invariant fingerprint == Fingerprint(medium, files[..index])
    {
      assert files[..index + 1][..index] == files[..index];
      fingerprint := ContinueCrc32(fingerprint, files[index].name);
      fingerprint := ContinueCrc32(fingerprint, files[index].data);
    }
    assert files[..|files|] == files;
    id := (fingerprint as nat) % 0x10000;
  }

  lemma SectorsReady(files: seq<DriveFile>, p: Placement, sectors: seq<SectorData>, s: byte)
    requires ValidFiles(files) && SectorsMatch(files, p, sectors) && Encodable(p.slots) && p.current < SECTOR_COUNT
    requires Placed(p, Wants(BlockCounts(files))) && |Wants(BlockCounts(files))| <= CAPACITY && 0 < s < SECTOR_COUNT
    ensures sectors[s] == SectorData(OwnSlot(p, 0xFD, s).file, OwnSlot(p, 0xFD, s).block, OwnPayload(files, p, s))
  {
    assert SectorMatches(files, p.slots[s], s in p.taken, sectors[s]);
    if s == 254 {
      assert s !in p.taken;
    } else {
      PlacedBlock(BlockCounts(files), p, s);
      var i := Occupant(p, Wants(BlockCounts(files)), s);
      if s in p.taken {
        WantsOrdered(BlockCounts(files));
        FewFiles(files);
      }
    }
  }

  lemma SectorsAllReady(files: seq<DriveFile>, p: Placement, sectors: seq<SectorData>)
    requires ValidFiles(files) && SectorsMatch(files, p, sectors) && Encodable(p.slots) && p.current < SECTOR_COUNT
    requires Placed(p, Wants(BlockCounts(files))) && |Wants(BlockCounts(files))| <= CAPACITY
    ensures forall s :: 0 < s < SECTOR_COUNT ==>
              sectors[s] == SectorData(OwnSlot(p, 0xFD, s).file, OwnSlot(p, 0xFD, s).block, OwnPayload(files, p, s))
  {
    forall s | 0 < s < SECTOR_COUNT
      ensures sectors[s] == SectorData(OwnSlot(p, 0xFD, s).file, OwnSlot(p, 0xFD, s).block, OwnPayload(files, p, s))
    {
      SectorsReady(files, p, sectors, s);
    }
  }

  /** Everything after placement: map block, records, and the validation, which always succeeds. */
  method AssembleImage(ghost files: seq<DriveFile>, medium: seq<byte>, id: nat, mapping: seq<Slot>, current: nat,
                       sectors: seq<SectorData>, ghost p: Placement) returns (r: Outcome<seq<byte>>)
    requires p.slots == mapping && p.current == current && SectorsMatchPlaced(files, p, sectors) && |medium| == 10
    requires Carries(Image(files, medium, id, p, 0xFD), files, medium, id, p, 0xFD)
    ensures r == Done(Image(files, medium, id, p, 0xFD))
  {
    var payload := WriteMap(mapping, current, p);
    SectorsAllReady(files, p, sectors);
    var complete := sectors[0 := SectorData(MAP_MARK, 0, payload)];
    var image := WriteImage(files, medium, id, complete, p);
    var valid := CheckBuilt(image, files, medium, id, p);
    return if valid then Done(image) else Rejected;
  }

  ghost predicate SectorsMatchPlaced(files: seq<DriveFile>, p: Placement, sectors: seq<SectorData>) {
    && ValidFiles(files) && SectorsMatch(files, p, sectors)
    && Encodable(p.slots) && p.current < SECTOR_COUNT
  }

  /** The builder validates its own image before returning it, and this always succeeds. */
  method CheckBuilt(image: seq<byte>, ghost files: seq<DriveFile>, ghost medium: seq<byte>, ghost id: nat,
                    ghost p: Placement)
    returns (valid: bool)
    requires Carries(image, files, medium, id, p, 0xFD)
    ensures valid
  {
    CarriedOrder(image, files, medium, id, p, 0xFD);
    OrderedValid(image);
    valid := Validate(image);
  }

  /** The whole builder: the specified image, or a refusal of a bad name or of files that do not fit. */
  method BuildImage(files: seq<DriveFile>, medium: seq<byte>) returns (r: Outcome<seq<byte>>)
    requires ValidFiles(files)
    ensures r == Build(files, medium)
  {
    if |medium| == 0 || |medium| > 10 || !IsAscii(medium) {
      return Rejected;
    }
    var padded := PadMedium(medium);
    var id := ComputeMediumId(padded, files);
    var ok, mapping, current, sectors, taken := PlaceStreams(files);
    if !ok {
      return Rejected;
    }
    BuiltCarries(files, medium, id, Placement(mapping, current, taken), 0xFD);
    r := AssembleImage(files, padded, id, mapping, current, sectors, Placement(mapping, current, taken));
  }
}
