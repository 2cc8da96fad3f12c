/** Building a cartridge image and parsing it back returns the files. */
module QlayRoundTrip {
  import opened Bytes
  import opened QlayFormat
  import opened QlayAllocator
  import opened QlayImage
  import opened QlayParse

  /**
   * `image` holds, record by record, the sectors of `files` as the map of `p` has them.  The mark in
   * the header of sector 254 is left open between the two values that the two builders write.
   */
  ghost predicate Laid(image: seq<byte>, files: seq<DriveFile>, medium: seq<byte>, id: nat, p: Placement,
                       damaged: byte) {
    && ValidFiles(files) && ValidMediumField(medium)
    && Encodable(p.slots) && p.current < SECTOR_COUNT
    && damaged in {0xFD, 0xFF}
    && |image| == IMAGE_SIZE
    && forall k :: 0 <= k < SECTOR_COUNT ==>
         RecordAt(image, k) == SectorRecord(files, medium, id, p, damaged, PhysicalNumber(k))
  }

  /** So many blocks of each stream, rightly counted or not, are placed by `p`. */
  ghost predicate PlacedBy(p: Placement, files: seq<DriveFile>, counts: seq<nat>) {
    && |counts| == |files| + 1 <= MAP_FILE
    && Placed(p, Wants(counts)) && |Wants(counts)| <= CAPACITY
  }

  /** The image of the files with all their blocks placed. */
  ghost predicate Carries(image: seq<byte>, files: seq<DriveFile>, medium: seq<byte>, id: nat, p: Placement,
                          damaged: byte) {
    && Laid(image, files, medium, id, p, damaged)
    && Placed(p, Wants(BlockCounts(files))) && |Wants(BlockCounts(files))| <= CAPACITY
  }

  predicate ValidMediumField(medium: seq<byte>) {
    |medium| == 10 && IsAscii(medium)
  }

  function Position(sector: byte): nat
    requires sector < SECTOR_COUNT
  {
    if sector == 0 then 0 else SECTOR_COUNT - sector
  }

  /** The file and block number written into a sector's own header. */
  function OwnSlot(p: Placement, damaged: byte, sector: byte): Slot
    requires |p.slots| == SECTOR_COUNT && sector < SECTOR_COUNT
  {
    if sector == 0 then Slot(MAP_MARK, 0) else if sector == 254 then Slot(damaged, 0) else p.slots[sector]
  }

  /** The 512 bytes a sector carries. */
  function OwnPayload(files: seq<DriveFile>, p: Placement, sector: byte): (payload: seq<byte>)
    requires ValidFiles(files) && Encodable(p.slots) && p.current < SECTOR_COUNT && sector < SECTOR_COUNT
    ensures |payload| == DATA_SIZE
  {
    if sector == 0 then MapPayload(p)
    else if sector != 254 && p.slots[sector].file <= |files| && p.slots[sector].file != FREE_SECTOR
      then Payload(Stream(files, p.slots[sector].file), p.slots[sector].block)
    else Calibration(DATA_SIZE)
  }

  lemma CarriedRecord(image: seq<byte>, files: seq<DriveFile>, medium: seq<byte>, id: nat, p: Placement, damaged: byte,
                      k: nat)
    requires Laid(image, files, medium, id, p, damaged) && k < SECTOR_COUNT
    ensures var r, s := RecordAt(image, k), PhysicalNumber(k);
            && RecordOk(r, k) && Usable(r) && r[13] == s
            && r[12..26] == HeaderData(s, medium, id) && r[26..28] == Checksum(HeaderData(s, medium, id))
            && r[40..42] == [OwnSlot(p, damaged, s).file, OwnSlot(p, damaged, s).block]
            && r[52..564] == OwnPayload(files, p, s)
  {
    var s := PhysicalNumber(k);
    var header := HeaderData(s, medium, id);
    RecordLayout(header, OwnSlot(p, damaged, s).file, OwnSlot(p, damaged, s).block, OwnPayload(files, p, s));
    var r := RecordAt(image, k);
    assert r == Record(header, OwnSlot(p, damaged, s).file, OwnSlot(p, damaged, s).block, OwnPayload(files, p, s));
    assert r[12] == r[12..26][0] && r[13] == r[12..26][1];
  }

  /** The fields of a record that the parser reads show the sector that belongs at its position. */
  ghost predicate Shows(image: seq<byte>, files: seq<DriveFile>, p: Placement, damaged: byte, k: nat)
    requires |image| == IMAGE_SIZE && k < SECTOR_COUNT
    requires ValidFiles(files) && Encodable(p.slots) && p.current < SECTOR_COUNT
  {
    var r, s := RecordAt(image, k), PhysicalNumber(k);
    && Usable(r) && r[13] == s
    && Slot(r[40], r[41]) == OwnSlot(p, damaged, s)
    && r[52..564] == OwnPayload(files, p, s)
  }

  lemma CarriedShows(image: seq<byte>, files: seq<DriveFile>, medium: seq<byte>, id: nat, p: Placement, damaged: byte)
    requires Laid(image, files, medium, id, p, damaged)
    ensures forall k :: 0 <= k < SECTOR_COUNT ==> Shows(image, files, p, damaged, k)
  {
    forall k | 0 <= k < SECTOR_COUNT
      ensures Shows(image, files, p, damaged, k)
    {
      CarriedRecord(image, files, medium, id, p, damaged, k);
      var r := RecordAt(image, k);
      assert r[40] == r[40..42][0] && r[41] == r[40..42][1];
    }
  }

  // ----- The image is valid

  /** The record at a position is sound and carries the number that belongs there. */
  ghost predicate InOrder(image: seq<byte>, k: nat)
    requires |image| == IMAGE_SIZE && k < SECTOR_COUNT
  {
    RecordOk(RecordAt(image, k), k) && Usable(RecordAt(image, k)) && RecordAt(image, k)[13] == PhysicalNumber(k)
  }

  ghost predicate TapeOrder(image: seq<byte>) {
    |image| == IMAGE_SIZE && forall k :: 0 <= k < SECTOR_COUNT ==> InOrder(image, k)
  }

  lemma CarriedOrder(image: seq<byte>, files: seq<DriveFile>, medium: seq<byte>, id: nat, p: Placement, damaged: byte)
    requires Laid(image, files, medium, id, p, damaged)
    ensures TapeOrder(image)
  {
    forall k | 0 <= k < SECTOR_COUNT
      ensures InOrder(image, k)
    {
      CarriedRecord(image, files, medium, id, p, damaged, k);
    }
  }

  lemma {:induction false} NumberSeen(image: seq<byte>, n: nat, s: byte)
    requires TapeOrder(image) && n <= SECTOR_COUNT
    ensures s in UsableNumbers(image, n) <==> s < SECTOR_COUNT && Position(s) < n
    decreases n
  {
    if n > 0 {
      NumberSeen(image, n - 1, s);
      assert InOrder(image, n - 1);
    }
  }

  lemma {:induction false} NumbersCounted(image: seq<byte>, n: nat)
    requires TapeOrder(image) && n <= SECTOR_COUNT
    ensures |UsableNumbers(image, n)| == n
    decreases n
  {
    if n > 0 {
      NumbersCounted(image, n - 1);
      NumberSeen(image, n - 1, PhysicalNumber(n - 1));
      assert InOrder(image, n - 1);
    }
  }

  /** An image whose records are sound and in tape order passes the validator. */
  lemma OrderedValid(image: seq<byte>)
    requires TapeOrder(image)
    ensures ValidImage(image)
  {
    forall k | 0 <= k < SECTOR_COUNT
      ensures PositionOk(image, k)
    {
      assert InOrder(image, k);
      NumberSeen(image, k, PhysicalNumber(k));
    }
    NumbersCounted(image, SECTOR_COUNT);
    NumberSeen(image, SECTOR_COUNT, 0);
  }

  lemma {:induction false} MapSectorFound(image: seq<byte>, n: nat)
    requires TapeOrder(image) && 0 < n <= SECTOR_COUNT
    ensures 0 in Physical(image, n) && Physical(image, n)[0] == RecordAt(image, 0)
    decreases n
  {
    assert InOrder(image, n - 1);
    if n > 1 {
      MapSectorFound(image, n - 1);
      assert PhysicalNumber(n - 1) != 0;
    }
  }

  // ----- The blocks found on it are the blocks of the streams

  predicate Holds(p: Placement, n: nat, s: byte, slot: Slot)
    requires |p.slots| == SECTOR_COUNT
  {
    0 < s < 254 && Position(s) < n && p.slots[s] == slot && !Skipped(slot.file)
  }

  ghost predicate BlocksSeen(blocks: map<Slot, seq<byte>>, files: seq<DriveFile>, p: Placement, n: nat)
    requires ValidFiles(files) && Encodable(p.slots) && p.current < SECTOR_COUNT
  {
    && (forall s: byte, slot :: Holds(p, n, s, slot) ==> slot in blocks && blocks[slot] == OwnPayload(files, p, s))
    && (forall slot :: slot in blocks ==> exists s: byte :: Holds(p, n, s, slot))
  }

  lemma MapEntryOf(p: Placement, s: byte)
    requires Encodable(p.slots) && p.current < SECTOR_COUNT && s < SECTOR_COUNT
    ensures MapEntry(MapPayload(p), s) == p.slots[s]
  {
  }

  /** Two sectors never hold the same block. */
  lemma HoldsOnce(files: seq<DriveFile>, counts: seq<nat>, p: Placement, s: byte, t: byte, n: nat, slot: Slot)
    requires PlacedBy(p, files, counts) && Holds(p, n, s, slot) && Holds(p, n, t, slot)
    ensures s == t
  {
    var wants := Wants(counts);
    WantsPlaceable(counts);
    WantsDistinct(counts);
    var i := Occupant(p, wants, s);
    SectorOf(p, wants, i, s);
    SectorOf(p, wants, i, t);
  }

  /** A sector that holds no user block adds nothing. */
  lemma BlocksSkip(before: map<Slot, seq<byte>>, files: seq<DriveFile>, p: Placement, n: nat, s: byte)
    requires ValidFiles(files) && Encodable(p.slots) && p.current < SECTOR_COUNT && 0 < n && s < SECTOR_COUNT
    requires BlocksSeen(before, files, p, n - 1) && Position(s) == n - 1 && Skipped(p.slots[s].file)
    ensures BlocksSeen(before, files, p, n)
  {
    forall t: byte, other | Holds(p, n, t, other)
      ensures Holds(p, n - 1, t, other)
    {
      assert t != s;
    }
    forall other | other in before
      ensures exists t: byte :: Holds(p, n, t, other)
    {
      var t: byte :| Holds(p, n - 1, t, other);
      assert Holds(p, n, t, other);
    }
  }

  /** A block met on the tape has not been met before. */
  lemma BlockIsNew(before: map<Slot, seq<byte>>, files: seq<DriveFile>, counts: seq<nat>, p: Placement, n: nat, s: byte)
    requires ValidFiles(files) && Encodable(p.slots) && p.current < SECTOR_COUNT && 0 < n && PlacedBy(p, files, counts)
    requires BlocksSeen(before, files, p, n - 1) && 0 < s < 254 && Position(s) == n - 1 && !Skipped(p.slots[s].file)
    ensures p.slots[s] !in before
  {
    if p.slots[s] in before {
      var t: byte :| Holds(p, n - 1, t, p.slots[s]);
      HoldsOnce(files, counts, p, s, t, n, p.slots[s]);
    }
  }

  lemma {:induction false} BlocksFound(image: seq<byte>, files: seq<DriveFile>, counts: seq<nat>, p: Placement,
                                       damaged: byte, n: nat)
    requires |image| == IMAGE_SIZE && ValidFiles(files) && Encodable(p.slots) && p.current < SECTOR_COUNT
    requires PlacedBy(p, files, counts) && n <= SECTOR_COUNT
    requires forall k :: 0 <= k < SECTOR_COUNT ==> Shows(image, files, p, damaged, k)
    ensures BlockMap(image, MapPayload(p), n).Done?
    ensures BlocksSeen(BlockMap(image, MapPayload(p), n).value, files, p, n)
    decreases n
  {
    if n > 0 {
      BlocksFound(image, files, counts, p, damaged, n - 1);
      assert Shows(image, files, p, damaged, n - 1);
      RecordFound(image, files, counts, p, damaged, n, BlockMap(image, MapPayload(p), n - 1).value);
    }
  }

  /** One record more: its block is added, or it carries none. */
  lemma RecordFound(image: seq<byte>, files: seq<DriveFile>, counts: seq<nat>, p: Placement, damaged: byte, n: nat,
                    before: map<Slot, seq<byte>>)
    requires |image| == IMAGE_SIZE && ValidFiles(files) && Encodable(p.slots) && p.current < SECTOR_COUNT
    requires PlacedBy(p, files, counts) && 0 < n <= SECTOR_COUNT
    requires Shows(image, files, p, damaged, n - 1)
    requires BlockMap(image, MapPayload(p), n - 1) == Done(before) && BlocksSeen(before, files, p, n - 1)
    ensures BlockMap(image, MapPayload(p), n).Done?
    ensures BlocksSeen(BlockMap(image, MapPayload(p), n).value, files, p, n)
  {
    var s := PhysicalNumber(n - 1);
    MapEntryOf(p, s);
    BlockMapStep(image, MapPayload(p), n, before, RecordAt(image, n - 1));
    if Skipped(p.slots[s].file) {
      BlocksSkip(before, files, p, n, s);
    } else {
      BlockIsNew(before, files, counts, p, n, s);
      BlocksExtend(before, files, p, n, s);
    }
  }

  lemma BlocksExtend(before: map<Slot, seq<byte>>, files: seq<DriveFile>, p: Placement, n: nat, s: byte)
    requires ValidFiles(files) && Encodable(p.slots) && p.current < SECTOR_COUNT && n > 0
    requires BlocksSeen(before, files, p, n - 1) && s < SECTOR_COUNT
    requires Holds(p, n, s, p.slots[s]) && Position(s) == n - 1 && p.slots[s] !in before
    ensures BlocksSeen(before[p.slots[s] := OwnPayload(files, p, s)], files, p, n)
  {
    var after := before[p.slots[s] := OwnPayload(files, p, s)];
    forall t: byte, other | Holds(p, n, t, other)
      ensures other in after && after[other] == OwnPayload(files, p, t)
    {
      if t != s {
        assert Holds(p, n - 1, t, other);
      }
    }
    forall other | other in after
      ensures exists t: byte :: Holds(p, n, t, other)
    {
      if other in before {
        var t: byte :| Holds(p, n - 1, t, other);
        assert Holds(p, n, t, other);
      }
    }
  }

  /** Their headers alone keep the number of files below the special file numbers of the map. */
  lemma FewFiles(files: seq<DriveFile>)
    requires |Wants(BlockCounts(files))| <= CAPACITY
    ensures |files| < MAP_FILE
  {
    WantsLong(BlockCounts(files));
  }

  /** Over the whole image the blocks found are exactly the blocks placed, but for those of number 0x80. */
  lemma FoundBlock(blocks: map<Slot, seq<byte>>, files: seq<DriveFile>, counts: seq<nat>, p: Placement, slot: Slot)
    requires ValidFiles(files) && Encodable(p.slots) && p.current < SECTOR_COUNT && PlacedBy(p, files, counts)
    requires BlocksSeen(blocks, files, p, SECTOR_COUNT)
    ensures slot in blocks <==> IsBlock(counts, slot) && slot.file != MAP_MARK
    ensures slot in blocks ==> slot.block < 256 && blocks[slot] == Payload(Stream(files, slot.file), slot.block)
  {
    if slot in blocks {
      var s: byte :| Holds(p, SECTOR_COUNT, s, slot);
      PlacedBlock(counts, p, s);
    }
    if IsBlock(counts, slot) && slot.file != MAP_MARK {
      var i := WantsCover(counts, slot);
      assert p.slots[p.taken[i]] == slot;
      assert Holds(p, SECTOR_COUNT, p.taken[i], slot);
    }
  }

  // ----- Joining the blocks gives the streams back, padded with zeros

  /** `joined` is the stream followed by zeros up to whole blocks. */
  ghost predicate PadsTo(joined: seq<byte>, stream: seq<byte>, count: nat) {
    |joined| == count * DATA_SIZE &&
    forall j :: 0 <= j < |joined| ==> joined[j] == if j < |stream| then stream[j] else 0
  }

  lemma {:induction false} JoinPayloads(blocks: map<Slot, seq<byte>>, file: nat, stream: seq<byte>, count: nat)
    requires forall b :: 0 <= b < count ==> Slot(file, b) in blocks && blocks[Slot(file, b)] == Payload(stream, b)
    ensures PadsTo(JoinBlocks(blocks, file, count), stream, count)
    decreases count
  {
    if count > 0 {
      JoinPayloads(blocks, file, stream, count - 1);
      var init, last := JoinBlocks(blocks, file, count - 1), Payload(stream, count - 1);
      var joined := JoinBlocks(blocks, file, count);
      assert joined == init + last;
      forall j | 0 <= j < |joined|
        ensures joined[j] == if j < |stream| then stream[j] else 0
      {
        if j >= |init| {
          assert joined[j] == last[j - |init|];
        }
      }
    }
  }

  /** The blocks found by a parse, as established above. */
  ghost predicate Recovered(blocks: map<Slot, seq<byte>>, files: seq<DriveFile>, counts: seq<nat>) {
    && ValidFiles(files) && |counts| == |files| + 1
    && forall slot ::
         (slot in blocks <==> IsBlock(counts, slot) && slot.file != MAP_MARK) &&
         (slot in blocks ==> slot.block < 256 && blocks[slot] == Payload(Stream(files, slot.file), slot.block))
  }

  lemma RunIsCount(blocks: map<Slot, seq<byte>>, file: nat, count: nat)
    requires forall b: nat :: (Slot(file, b) in blocks) == (b < count)
    requires forall b: nat :: Slot(file, b) in blocks ==> b < 256
    ensures RunLength(blocks, file, 0) == count
  {
    var found := RunLength(blocks, file, 0);
    RunLengthFacts(blocks, file, 0);
    assert Slot(file, count) !in blocks;
    assert count == 0 || Slot(file, count - 1) in blocks;
  }

  lemma JoinedStream(blocks: map<Slot, seq<byte>>, files: seq<DriveFile>, counts: seq<nat>, file: nat)
    requires Recovered(blocks, files, counts) && file <= |files|
    ensures Joined(blocks, file).Done? <==> file != MAP_MARK && counts[file] > 0
    ensures Joined(blocks, file).Done? ==> PadsTo(Joined(blocks, file).value, Stream(files, file), counts[file])
  {
    RunIsCount(blocks, file, if file == MAP_MARK then 0 else counts[file]);
    RunLengthFacts(blocks, file, 0);
    if file != MAP_MARK {
      JoinPayloads(blocks, file, Stream(files, file), counts[file]);
    }
  }

  // ----- The directory gives the files back

  function Expected(f: DriveFile): Extracted {
    Extracted(f.name, f.data, f.executable, if f.executable then f.dataSpace else 0)
  }

  function ExpectedAll(files: seq<DriveFile>): (es: seq<Extracted>)
    ensures |es| == |files|
  {
    seq(|files|, i requires 0 <= i < |files| => Expected(files[i]))
  }

  /** What the parser reads from the header of a file. */
  ghost predicate Decodes(h: seq<byte>, f: DriveFile) {
    && |h| == HEADER_SIZE && 1 <= |f.name| <= 36
    && FromBe32(h[0..4]) == |f.data| + HEADER_SIZE
    && FromBe16(h[14..16]) == |f.name| && h[16..16 + |f.name|] == f.name
    && h[5] == (if f.executable then 1 else 0)
    && FromBe32(h[6..10]) == if f.executable then f.dataSpace else 0
  }

  lemma HeaderDecodes(f: DriveFile)
    requires ValidFile(f) && |f.data| < 0x1_0000_0000 - HEADER_SIZE
    ensures Decodes(FileHeader(f), f)
  {
    HeaderFields(f.name, f.executable, f.dataSpace, |f.data| + HEADER_SIZE);
    Be32RoundTrip(|f.data| + HEADER_SIZE);
    Be32RoundTrip(if f.executable then f.dataSpace else 0);
    Be16RoundTrip(|f.name|);
  }

  /** A header that decodes to a file, with the file's data in the joined stream, reads as that file. */
  lemma DecodedEntry(h: seq<byte>, f: DriveFile, blocks: map<Slot, seq<byte>>, file: nat)
    requires Decodes(h, f) && IsAscii(f.name)
    requires Joined(blocks, file).Done? && |Joined(blocks, file).value| >= HEADER_SIZE + |f.data|
    requires Joined(blocks, file).value[HEADER_SIZE..HEADER_SIZE + |f.data|] == f.data
    ensures HeaderEntry(h, blocks, file) == Done([Expected(f)])
  {
  }

  /** A header that decodes to a file whose stream is missing is refused. */
  lemma OrphanEntry(h: seq<byte>, f: DriveFile, blocks: map<Slot, seq<byte>>, file: nat)
    requires Decodes(h, f) && Joined(blocks, file).Rejected?
    ensures HeaderEntry(h, blocks, file) == Rejected
  {
  }

  /** The directory read back starts with the directory written, so its entries are the file headers. */
  lemma EntryHeader(files: seq<DriveFile>, directory: seq<byte>, i: nat)
    requires ValidFiles(files) && i < |files| && Directory(files) <= directory
    ensures (i + 2) * HEADER_SIZE <= |directory|
    ensures directory[(i + 1) * HEADER_SIZE..(i + 2) * HEADER_SIZE] == FileHeader(files[i])
  {
    var start := (i + 1) * HEADER_SIZE;
    DirectoryEntry(files, i, start);
    assert directory[start..start + HEADER_SIZE] == Directory(files)[start..start + HEADER_SIZE];
  }

  lemma PadsPrefix(joined: seq<byte>, stream: seq<byte>, count: nat)
    requires PadsTo(joined, stream, count) && |stream| <= count * DATA_SIZE
    ensures stream <= joined
  {
  }

  lemma StreamFits(files: seq<DriveFile>, file: nat)
    requires ValidFiles(files) && file <= |files|
    ensures |Stream(files, file)| <= BlockCounts(files)[file] * DATA_SIZE
  {
  }

  lemma JoinedPrefix(blocks: map<Slot, seq<byte>>, files: seq<DriveFile>, counts: seq<nat>, file: nat)
    requires Recovered(blocks, files, counts) && file <= |files| && file != MAP_MARK
    requires counts[file] == BlockCounts(files)[file]
    ensures Joined(blocks, file).Done? && Stream(files, file) <= Joined(blocks, file).value
  {
    JoinedStream(blocks, files, counts, file);
    StreamFits(files, file);
    PadsPrefix(Joined(blocks, file).value, Stream(files, file), counts[file]);
  }

  /** The data of a file lies behind the header in its joined stream. */
  lemma JoinedData(blocks: map<Slot, seq<byte>>, files: seq<DriveFile>, i: nat)
    requires Recovered(blocks, files, BlockCounts(files)) && i < |files| && i + 1 != MAP_MARK
    ensures Joined(blocks, i + 1).Done? && |Joined(blocks, i + 1).value| >= HEADER_SIZE + |files[i].data|
    ensures Joined(blocks, i + 1).value[HEADER_SIZE..HEADER_SIZE + |files[i].data|] == files[i].data
  {
    JoinedPrefix(blocks, files, BlockCounts(files), i + 1);
    var stream, joined := FileStream(files[i]), Joined(blocks, i + 1).value;
    assert joined[..|stream|] == stream;
    assert joined[HEADER_SIZE..|stream|] == stream[HEADER_SIZE..];
  }

  /** The length field that the directory's own header carries. */
  lemma DirectoryOwnLength(files: seq<DriveFile>, directory: seq<byte>)
    requires ValidFiles(files) && |files| <= CAPACITY && Directory(files) <= directory
    ensures |directory| >= (|files| + 1) * HEADER_SIZE
    ensures FromBe32(directory[0..4]) == (|files| + 1) * HEADER_SIZE
  {
    var length := (|files| + 1) * HEADER_SIZE;
    DirectoryLength(files);
    assert directory[0..4] == Directory(files)[..HEADER_SIZE][0..4];
    HeaderFields([], false, 0, length);
    Be32RoundTrip(length);
  }

  /** What the parser makes of directory entry `i`: the file, or a refusal for the entry of file 0x80. */
  ghost predicate EntryReadsBack(directory: seq<byte>, blocks: map<Slot, seq<byte>>, files: seq<DriveFile>, i: nat)
    requires i < |files|
  {
    && (i + 2) * HEADER_SIZE <= |directory|
    && Entry(directory, blocks, i) == if i + 1 == MAP_MARK then Rejected else Done([Expected(files[i])])
  }

  /** What joining gives for file `i`: nothing for number 0x80, else a stream with the file's data in place. */
  ghost predicate JoinsBack(blocks: map<Slot, seq<byte>>, f: DriveFile, file: nat) {
    if file == MAP_MARK then Joined(blocks, file).Rejected?
    else
      && Joined(blocks, file).Done? && |Joined(blocks, file).value| >= HEADER_SIZE + |f.data|
      && Joined(blocks, file).value[HEADER_SIZE..HEADER_SIZE + |f.data|] == f.data
  }

  lemma FileJoinsBack(blocks: map<Slot, seq<byte>>, files: seq<DriveFile>, i: nat)
    requires Recovered(blocks, files, BlockCounts(files)) && i < |files|
    ensures JoinsBack(blocks, files[i], i + 1)
  {
    if i + 1 == MAP_MARK {
      JoinedStream(blocks, files, BlockCounts(files), i + 1);
    } else {
      JoinedData(blocks, files, i);
    }
  }

  lemma ParsedHeader(blocks: map<Slot, seq<byte>>, f: DriveFile, file: nat, h: seq<byte>)
    requires JoinsBack(blocks, f, file) && Decodes(h, f) && IsAscii(f.name)
    ensures HeaderEntry(h, blocks, file) == if file == MAP_MARK then Rejected else Done([Expected(f)])
  {
    if file == MAP_MARK {
      OrphanEntry(h, f, blocks, file);
    } else {
      DecodedEntry(h, f, blocks, file);
    }
  }

  lemma EntryFrom(directory: seq<byte>, blocks: map<Slot, seq<byte>>, files: seq<DriveFile>, i: nat, h: seq<byte>)
    requires i < |files| && (i + 2) * HEADER_SIZE <= |directory|
    requires directory[(i + 1) * HEADER_SIZE..(i + 2) * HEADER_SIZE] == h
    requires JoinsBack(blocks, files[i], i + 1) && Decodes(h, files[i]) && IsAscii(files[i].name)
    ensures EntryReadsBack(directory, blocks, files, i)
  {
    ParsedHeader(blocks, files[i], i + 1, h);
  }

  lemma ParsedEntry(blocks: map<Slot, seq<byte>>, files: seq<DriveFile>, directory: seq<byte>, i: nat)
    requires Recovered(blocks, files, BlockCounts(files)) && i < |files|
    requires |files[i].data| < 0x1_0000_0000 - HEADER_SIZE
    requires Directory(files) <= directory
    ensures EntryReadsBack(directory, blocks, files, i)
  {
    EntryHeader(files, directory, i);
    HeaderDecodes(files[i]);
    FileJoinsBack(blocks, files, i);
    EntryFrom(directory, blocks, files, i, FileHeader(files[i]));
  }

  lemma {:induction false} ParsedEntries(blocks: map<Slot, seq<byte>>, files: seq<DriveFile>, directory: seq<byte>,
                                         n: nat)
    requires n <= |files| && (n + 1) * HEADER_SIZE <= |directory|
    requires forall i :: 0 <= i < |files| ==> EntryReadsBack(directory, blocks, files, i)
    ensures Entries(directory, blocks, n) == if n < MAP_MARK then Done(ExpectedAll(files)[..n]) else Rejected
    decreases n
  {
    if n > 0 {
      ParsedEntries(blocks, files, directory, n - 1);
      assert EntryReadsBack(directory, blocks, files, n - 1);
      assert ExpectedAll(files)[..n] == ExpectedAll(files)[..n - 1] + [Expected(files[n - 1])];
    }
  }

  lemma AllEntries(blocks: map<Slot, seq<byte>>, files: seq<DriveFile>, directory: seq<byte>)
    requires Recovered(blocks, files, BlockCounts(files)) && Directory(files) <= directory
    requires forall i :: 0 <= i < |files| ==> |files[i].data| < 0x1_0000_0000 - HEADER_SIZE
    ensures (|files| + 1) * HEADER_SIZE <= |directory|
    ensures Entries(directory, blocks, |files|) == if |files| < MAP_MARK then Done(ExpectedAll(files)) else Rejected
  {
    DirectoryLength(files);
    forall i | 0 <= i < |files|
      ensures EntryReadsBack(directory, blocks, files, i)
    {
      ParsedEntry(blocks, files, directory, i);
    }
    ParsedEntries(blocks, files, directory, |files|);
    assert ExpectedAll(files)[..|files|] == ExpectedAll(files);
  }

  lemma DirectoryReadsBack(blocks: map<Slot, seq<byte>>, files: seq<DriveFile>, directory: seq<byte>, n: nat)
    requires ValidFiles(files) && n == |files| <= CAPACITY && Directory(files) <= directory
    requires (n + 1) * HEADER_SIZE <= |directory|
    ensures DirectoryFiles(directory, blocks) == Entries(directory, blocks, n)
  {
    DirectoryOwnLength(files, directory);
    var length := FromBe32(directory[0..4]);
    assert length % HEADER_SIZE == 0 && length / HEADER_SIZE - 1 == n;
  }

  /** With the directory's own blocks rightly counted, the parser reads its entries. */
  lemma DirectoryFound(blocks: map<Slot, seq<byte>>, files: seq<DriveFile>, counts: seq<nat>)
    returns (directory: seq<byte>)
    requires Recovered(blocks, files, counts) && |files| <= CAPACITY && counts[0] == BlockCounts(files)[0]
    ensures Directory(files) <= directory && (|files| + 1) * HEADER_SIZE <= |directory|
    ensures ParseDirectory(blocks) == Entries(directory, blocks, |files|)
  {
    JoinedPrefix(blocks, files, counts, 0);
    directory := Joined(blocks, 0).value;
    assert ParseDirectory(blocks) == DirectoryFiles(directory, blocks);
    DirectoryLength(files);
    DirectoryReadsBack(blocks, files, directory, |files|);
  }

  lemma ParsedDirectory(blocks: map<Slot, seq<byte>>, files: seq<DriveFile>)
    requires Recovered(blocks, files, BlockCounts(files)) && |files| <= CAPACITY
    requires forall i :: 0 <= i < |files| ==> |files[i].data| < 0x1_0000_0000 - HEADER_SIZE
    ensures ParseDirectory(blocks) == if |files| < MAP_MARK then Done(ExpectedAll(files)) else Rejected
  {
    var directory := DirectoryFound(blocks, files, BlockCounts(files));
    AllEntries(blocks, files, directory);
  }

  /** No file of an image that fits is larger than the cartridge. */
  lemma FileFits(files: seq<DriveFile>, i: nat)
    requires |Wants(BlockCounts(files))| <= CAPACITY && i < |files|
    ensures |files[i].data| <= CAPACITY * DATA_SIZE
  {
    var counts := BlockCounts(files);
    WantsBlocks(counts);
    var j := WantsCover(counts, Slot(i + 1, counts[i + 1] - 1));
    assert counts[i + 1] == Blocks(|files[i].data| + HEADER_SIZE);
  }

  /** Whatever was counted and placed, the parser accepts the image as such and goes on to the directory. */
  lemma LaidParses(image: seq<byte>, files: seq<DriveFile>, counts: seq<nat>, medium: seq<byte>, id: nat, p: Placement,
                   damaged: byte)
    returns (blocks: map<Slot, seq<byte>>)
    requires Laid(image, files, medium, id, p, damaged) && PlacedBy(p, files, counts)
    ensures Recovered(blocks, files, counts) && Parse(image) == ParseDirectory(blocks)
  {
    CarriedOrder(image, files, medium, id, p, damaged);
    OrderedValid(image);
    MapSectorFound(image, |p.slots|);
    CarriedShows(image, files, medium, id, p, damaged);
    assert Shows(image, files, p, damaged, 0);
    BlocksFound(image, files, counts, p, damaged, |p.slots|);
    blocks := BlockMap(image, MapPayload(p), |p.slots|).value;
    forall slot
      ensures (slot in blocks <==> IsBlock(counts, slot) && slot.file != MAP_MARK)
      ensures slot in blocks ==> slot.block < 256 && blocks[slot] == Payload(Stream(files, slot.file), slot.block)
    {
      FoundBlock(blocks, files, counts, p, slot);
    }
  }

  /** Whatever mark sector 254 carries, the parser returns the files up to number 127 and refuses more. */
  lemma ParseCarried(image: seq<byte>, files: seq<DriveFile>, medium: seq<byte>, id: nat, p: Placement, damaged: byte)
    requires Carries(image, files, medium, id, p, damaged)
    ensures |files| < MAP_MARK ==> Parse(image) == Done(ExpectedAll(files))
    ensures |files| >= MAP_MARK ==> Parse(image).Rejected?
  {
    FewFiles(files);
    var blocks := LaidParses(image, files, BlockCounts(files), medium, id, p, damaged);
    forall i | 0 <= i < |files|
      ensures |files[i].data| < 0x1_0000_0000 - HEADER_SIZE
    {
      FileFits(files, i);
    }
    ParsedDirectory(blocks, files);
  }

  lemma BuiltCarries(files: seq<DriveFile>, medium: seq<byte>, id: nat, p: Placement, damaged: byte)
    requires ValidFiles(files) && ValidMedium(medium) && damaged in {0xFD, 0xFF}
    requires PlaceAll(Wants(BlockCounts(files))) == Done(p)
    ensures Encodable(p.slots) && p.current < SECTOR_COUNT
    ensures Carries(Image(files, PadMedium(medium), id, p, damaged), files, PadMedium(medium), id, p, damaged)
  {
    var counts := BlockCounts(files);
    WantsPlaceable(counts);
    AllocatorCorrect(Wants(counts));
    PlacedEncodable(counts, p);
    ImageRecords(files, PadMedium(medium), id, p, damaged);
  }

  lemma BuildCarries(files: seq<DriveFile>, medium: seq<byte>) returns (p: Placement)
    requires ValidFiles(files) && Build(files, medium).Done?
    ensures Carries(Build(files, medium).value, files, PadMedium(medium), MediumId(PadMedium(medium), files), p,
                    FREE_SECTOR)
  {
    p := PlaceAll(Wants(BlockCounts(files))).value;
    BuiltCarries(files, medium, MediumId(PadMedium(medium), files), p, FREE_SECTOR);
  }

  /**
   * Round trip.  For every file list that fits, parsing the built image returns the names, bytes
   * and executable flags in order, with the data space kept for executables and zero otherwise,
   * exactly when there are fewer than 128 files: file number 0x80 is the map's own mark.
   */
  lemma RoundTrip(files: seq<DriveFile>, medium: seq<byte>)
    requires ValidFiles(files) && Build(files, medium).Done?
    ensures |files| <= 127 ==> Parse(Build(files, medium).value) == Done(ExpectedAll(files))
    ensures |files| > 127 ==> Parse(Build(files, medium).value).Rejected?
  {
    var p := BuildCarries(files, medium);
    ParseCarried(Build(files, medium).value, files, PadMedium(medium), MediumId(PadMedium(medium), files), p,
                 FREE_SECTOR);
  }
}
