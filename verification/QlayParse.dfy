/** Validation of a cartridge image and recovery of its files. */
module QlayParse {
  import opened Bytes
  import opened QlayFormat
  import opened QlayAllocator
  import opened QlayImage

  const MAP_MARK: byte := 0x80
  const MINIMUM_USABLE: nat := 200

  // ----- Validation

  /** Some emulators leave the header checksum of the map sector zero, and the validator lets that pass. */
  predicate ZeroMapChecksum(r: seq<byte>, position: nat)
    requires |r| == RECORD_SIZE
  {
    position == 0 && r[13] == 0 && r[26..28] == [0, 0]
  }

  predicate RecordOk(r: seq<byte>, position: nat)
    requires |r| == RECORD_SIZE
  {
    && r[..10] == Fill(10, 0) && r[10..12] == [0xFF, 0xFF]
    && (r[26..28] == Checksum(r[12..26]) || ZeroMapChecksum(r, position))
    && r[28..38] == Fill(10, 0) && r[38..40] == [0xFF, 0xFF]
    && r[42..44] == Checksum(r[40..42])
    && r[44..50] == Fill(6, 0) && r[50..52] == [0xFF, 0xFF]
    && r[564..566] == Checksum(r[52..564])
  }

  predicate Usable(r: seq<byte>)
    requires |r| == RECORD_SIZE
  {
    r[12] == 0xFF
  }

  /** The sector numbers of the usable records among the first `n`. */
  function UsableNumbers(image: seq<byte>, n: nat): set<byte>
    requires |image| == IMAGE_SIZE && n <= SECTOR_COUNT
  {
    if n == 0 then {}
    else if Usable(RecordAt(image, n - 1)) then UsableNumbers(image, n - 1) + {RecordAt(image, n - 1)[13]}
    else UsableNumbers(image, n - 1)
  }

  /** The record at a position is well formed and, if usable, repeats no earlier sector number. */
  predicate PositionOk(image: seq<byte>, k: nat)
    requires |image| == IMAGE_SIZE && k < SECTOR_COUNT
  {
    && RecordOk(RecordAt(image, k), k)
    && (Usable(RecordAt(image, k)) ==> RecordAt(image, k)[13] !in UsableNumbers(image, k))
  }

  predicate RecordsOk(image: seq<byte>, n: nat)
    requires |image| == IMAGE_SIZE && n <= SECTOR_COUNT
  {
    forall k :: 0 <= k < n ==> PositionOk(image, k)
  }

  /** What the validator accepts. */
  predicate ValidImage(image: seq<byte>) {
    && |image| == IMAGE_SIZE
    && RecordsOk(image, SECTOR_COUNT)
    && 0 in UsableNumbers(image, SECTOR_COUNT)
    && |UsableNumbers(image, SECTOR_COUNT)| >= MINIMUM_USABLE
  }

  // ----- How many sectors a tape may lose

  /** Every record is well formed, and those in use carry the number of their place on the tape. */
  predicate InPlace(image: seq<byte>) {
    && |image| == IMAGE_SIZE
    && forall k :: 0 <= k < SECTOR_COUNT ==>
         && RecordOk(RecordAt(image, k), k)
         && (RecordAt(image, k)[12] == 0xFF ==> RecordAt(image, k)[13] == if k == 0 then 0 else SECTOR_COUNT - k)
  }

  /** The records in use among the first `n`. */
  function InUse(image: seq<byte>, n: nat): nat
    requires |image| == IMAGE_SIZE && n <= SECTOR_COUNT
  {
    if n == 0 then 0 else InUse(image, n - 1) + if RecordAt(image, n - 1)[12] == 0xFF then 1 else 0
  }

  lemma {:induction false} NumbersInUse(image: seq<byte>, n: nat)
    requires InPlace(image) && n <= SECTOR_COUNT
    ensures |UsableNumbers(image, n)| == InUse(image, n)
    ensures forall s: byte :: s in UsableNumbers(image, n) ==> s < SECTOR_COUNT && (s == 0 || SECTOR_COUNT - s < n)
    ensures 0 in UsableNumbers(image, n) <==> n > 0 && RecordAt(image, 0)[12] == 0xFF
    decreases n
  {
    if n > 0 {
      NumbersInUse(image, n - 1);
      assert RecordAt(image, n - 1)[12] == 0xFF ==>
               RecordAt(image, n - 1)[13] == if n - 1 == 0 then 0 else SECTOR_COUNT - (n - 1);
    }
  }

  /** A tape whose records are in their places is valid exactly if the map and 200 sectors in all are in use. */
  lemma ValidWithTwoHundred(image: seq<byte>)
    requires InPlace(image)
    ensures ValidImage(image) <==> RecordAt(image, 0)[12] == 0xFF && InUse(image, SECTOR_COUNT) >= 200
  {
    NumbersInUse(image, SECTOR_COUNT);
    forall k | 0 <= k < SECTOR_COUNT
      ensures PositionOk(image, k)
    {
      NumbersInUse(image, k);
    }
  }

  lemma {:induction false} NumberCounted(image: seq<byte>, j: nat, n: nat)
    requires |image| == IMAGE_SIZE && j < n <= SECTOR_COUNT && RecordAt(image, j)[12] == 0xFF
    ensures RecordAt(image, j)[13] in UsableNumbers(image, n)
    decreases n
  {
    if j < n - 1 {
      NumberCounted(image, j, n - 1);
    }
  }

  /** Two records in use with one number make a tape invalid, wherever they are. */
  lemma RepeatedNumberInvalid(image: seq<byte>, j: nat, k: nat)
    requires |image| == IMAGE_SIZE && j < k < SECTOR_COUNT
    requires RecordAt(image, j)[12] == 0xFF == RecordAt(image, k)[12]
    requires RecordAt(image, j)[13] == RecordAt(image, k)[13]
    ensures !ValidImage(image) && Parse(image).Rejected?
  {
    NumberCounted(image, j, k);
    assert !PositionOk(image, k);
  }

  /** The preamble and checksum tests on one record. */
  method CheckRecord(sector: seq<byte>, position: nat) returns (ok: bool)
    requires |sector| == RECORD_SIZE
    ensures ok <==> RecordOk(sector, position)
  {
    if sector[..10] != Fill(10, 0) || sector[10..12] != [0xFF, 0xFF] {
      return false;
    }
    var zeroMap := position == 0 && sector[13] == 0 && sector[26..28] == [0, 0];
    if sector[26..28] != Checksum(sector[12..26]) && !zeroMap {
      return false;
    }
    if sector[28..38] != Fill(10, 0) || sector[38..40] != [0xFF, 0xFF] {
      return false;
    }
    if sector[42..44] != Checksum(sector[40..42]) {
      return false;
    }
    if sector[44..50] != Fill(6, 0) || sector[50..52] != [0xFF, 0xFF] {
      return false;
    }
    return sector[564..566] == Checksum(sector[52..564]);
  }

  method Validate(image: seq<byte>) returns (ok: bool)
    ensures ok <==> ValidImage(image)
  {
    if |image| != IMAGE_SIZE {
      return false;
    }
    var numbers: set<byte> := {};
    for k := 0 to SECTOR_COUNT
      invariant numbers == UsableNumbers(image, k) && RecordsOk(image, k)
    {
      var sector := RecordAt(image, k);
      ok := CheckRecord(sector, k);
      if !ok {
        assert !PositionOk(image, k);
        return;
      }
      if sector[12] == 0xFF {
        if sector[13] in numbers {
          assert !PositionOk(image, k);
          return false;
        }
        numbers := numbers + {sector[13]};
      }
    }
    return 0 in numbers && |numbers| >= MINIMUM_USABLE;
  }

  // ----- Parsing

  datatype Extracted = Extracted(name: seq<byte>, data: seq<byte>, executable: bool, dataSpace: nat)

  /** The usable sectors among the first `n` records, by number. */
  function Physical(image: seq<byte>, n: nat): map<byte, seq<byte>>
    requires |image| == IMAGE_SIZE && n <= SECTOR_COUNT
    ensures forall s :: s in Physical(image, n) ==> |Physical(image, n)[s]| == RECORD_SIZE
  {
    if n == 0 then map[]
    else if Usable(RecordAt(image, n - 1))
      then Physical(image, n - 1)[RecordAt(image, n - 1)[13] := RecordAt(image, n - 1)]
    else Physical(image, n - 1)
  }

  /** File numbers of the map that hold no user block. */
  predicate Skipped(file: nat) {
    file == FREE_SECTOR || file == DAMAGED_SECTOR || file == MAP_FILE || file == MAP_MARK
  }

  function MapEntry(allocation: seq<byte>, sector: byte): Slot
    requires |allocation| == DATA_SIZE
  {
    Slot(allocation[2 * sector], allocation[2 * sector + 1])
  }

  /** The data blocks found among the first `n` records, or a mismatch or a repetition. */
  function BlockMap(image: seq<byte>, allocation: seq<byte>, n: nat): Outcome<map<Slot, seq<byte>>>
    requires |image| == IMAGE_SIZE && |allocation| == DATA_SIZE && n <= SECTOR_COUNT
  {
    if n == 0 then Done(map[])
    else
      match BlockMap(image, allocation, n - 1)
      case Rejected => Rejected
      case Done(blocks) =>
        var r := RecordAt(image, n - 1);
        var slot := MapEntry(allocation, r[13]);
        if !Usable(r) || Skipped(slot.file) then Done(blocks)
        else if Slot(r[40], r[41]) != slot || slot in blocks then Rejected
        else Done(blocks[slot := r[52..564]])
  }

  /** One more record that is stepped over or adds a new block. */
  lemma BlockMapStep(image: seq<byte>, allocation: seq<byte>, n: nat, before: map<Slot, seq<byte>>, r: seq<byte>)
    requires |image| == IMAGE_SIZE && |allocation| == DATA_SIZE && 0 < n <= SECTOR_COUNT
    requires BlockMap(image, allocation, n - 1) == Done(before) && r == RecordAt(image, n - 1)
    ensures var slot := MapEntry(allocation, r[13]);
            && (Skipped(slot.file) ==> BlockMap(image, allocation, n) == Done(before))
            && (Usable(r) && !Skipped(slot.file) && Slot(r[40], r[41]) == slot && slot !in before ==>
                  BlockMap(image, allocation, n) == Done(before[slot := r[52..564]]))
  {
  }

  /** How many blocks of a file follow without a gap from block `from` on. */
  function RunLength(blocks: map<Slot, seq<byte>>, file: nat, from: nat): nat
    requires from <= 256
    decreases 256 - from
  {
    if from < 256 && Slot(file, from) in blocks then 1 + RunLength(blocks, file, from + 1) else 0
  }

  function JoinBlocks(blocks: map<Slot, seq<byte>>, file: nat, count: nat): seq<byte>
    requires forall b :: 0 <= b < count ==> Slot(file, b) in blocks
  {
    if count == 0 then [] else JoinBlocks(blocks, file, count - 1) + blocks[Slot(file, count - 1)]
  }

  lemma {:induction false} RunLengthFacts(blocks: map<Slot, seq<byte>>, file: nat, from: nat)
    requires from <= 256
    ensures var n := RunLength(blocks, file, from);
            && from + n <= 256
            && (forall b :: from <= b < from + n ==> Slot(file, b) in blocks)
            && (from + n < 256 ==> Slot(file, from + n) !in blocks)
    decreases 256 - from
  {
    if from < 256 && Slot(file, from) in blocks {
      RunLengthFacts(blocks, file, from + 1);
    }
  }

  /** A stream is its blocks 0 .. last, none missing. */
  function Joined(blocks: map<Slot, seq<byte>>, file: nat): Outcome<seq<byte>> {
    var count := RunLength(blocks, file, 0);
    RunLengthFacts(blocks, file, 0);
    if count == 0 || (exists b :: count <= b < 256 && Slot(file, b) in blocks) then Rejected
    else Done(JoinBlocks(blocks, file, count))
  }

  /** A directory entry: a file, an unused entry to step over (empty list), or an error. */
  function HeaderEntry(header: seq<byte>, blocks: map<Slot, seq<byte>>, file: nat): Outcome<seq<Extracted>>
    requires |header| == HEADER_SIZE
  {
    var total := FromBe32(header[0..4]);
    var nameLength := FromBe16(header[14..16]);
    if total == 0 && nameLength == 0 then Done([])
    else if total < HEADER_SIZE || nameLength < 1 || nameLength > 36 then Rejected
    else if !IsAscii(header[16..16 + nameLength]) then Rejected
    else
      match Joined(blocks, file)
      case Rejected => Rejected
      case Done(stream) =>
        if total > |stream| then Rejected
        else
          Done([Extracted(header[16..16 + nameLength], stream[HEADER_SIZE..total],
                          header[5] == 1, FromBe32(header[6..10]))])
  }

  /**
   * What becomes of a directory entry, from its bytes: it is stepped over exactly if length and name
   * length are zero; it is a file exactly if the name is 1 to 36 ASCII characters, the length covers at
   * least the header, and the stream is there and that long.
   */
  lemma EntryExactly(h: seq<byte>, blocks: map<Slot, seq<byte>>, file: nat)
    requires |h| == HEADER_SIZE
    ensures var total := (h[0] as nat) * 0x100_0000 + (h[1] as nat) * 0x1_0000 + (h[2] as nat) * 0x100 + h[3] as nat;
            var n := (h[14] as nat) * 256 + h[15] as nat;
            var r := HeaderEntry(h, blocks, file);
            && (r == Done([]) <==> h[0] == h[1] == h[2] == h[3] == h[14] == h[15] == 0)
            && (r.Done? && r.value != [] <==>
                  && 1 <= n <= 36 && (forall i :: 16 <= i < 16 + n ==> h[i] < 0x80)
                  && Joined(blocks, file).Done? && 64 <= total <= |Joined(blocks, file).value|)
            && (r.Done? && r.value != [] ==>
                  r.value == [Extracted(h[16..16 + n], Joined(blocks, file).value[64..total], h[5] == 1,
                                        FromBe32(h[6..10]))])
  {
    assert FromBe32(h[0..4]) == h[0] as int * 0x1000000 + h[1] as int * 0x10000 + h[2] as int * 256 + h[3] as int;
    assert FromBe16(h[14..16]) == h[14] as int * 256 + h[15] as int;
    var n := FromBe16(h[14..16]);
    if n <= 36 {
      SliceAscii(h, n, h[16..16 + n]);
    }
  }

  lemma SliceAscii(h: seq<byte>, n: nat, name: seq<byte>)
    requires |h| == HEADER_SIZE && n <= 36 && name == h[16..16 + n]
    ensures IsAscii(name) <==> forall i :: 16 <= i < 16 + n ==> h[i] < 0x80
  {
    assert forall i :: 0 <= i < |name| ==> name[i] == h[16 + i];
    if IsAscii(name) {
      assert forall i :: 16 <= i < 16 + n ==> h[i] == name[i - 16];
    }
  }

  function Entry(directory: seq<byte>, blocks: map<Slot, seq<byte>>, index: nat): Outcome<seq<Extracted>>
    requires (index + 2) * HEADER_SIZE <= |directory|
  {
    HeaderEntry(directory[(index + 1) * HEADER_SIZE..(index + 2) * HEADER_SIZE], blocks, index + 1)
  }

  function Entries(directory: seq<byte>, blocks: map<Slot, seq<byte>>, n: nat): Outcome<seq<Extracted>>
    requires (n + 1) * HEADER_SIZE <= |directory|
  {
    if n == 0 then Done([])
    else
      match Entries(directory, blocks, n - 1)
      case Rejected => Rejected
      case Done(files) =>
        match Entry(directory, blocks, n - 1)
        case Rejected => Rejected
        case Done(more) => Done(files + more)
  }

  /** The files that a directory names. */
  function DirectoryFiles(directory: seq<byte>, blocks: map<Slot, seq<byte>>): Outcome<seq<Extracted>> {
    if |directory| < 4 then Rejected
    else
      var length := FromBe32(directory[0..4]);
      if length < HEADER_SIZE || length % HEADER_SIZE != 0 || length > |directory| then Rejected
      else Entries(directory, blocks, length / HEADER_SIZE - 1)
  }

  function ParseDirectory(blocks: map<Slot, seq<byte>>): Outcome<seq<Extracted>> {
    match Joined(blocks, 0)
    case Rejected => Rejected
    case Done(directory) => DirectoryFiles(directory, blocks)
  }

  /** The files of an image, or a rejection. */
  function Parse(image: seq<byte>): Outcome<seq<Extracted>> {
    if !ValidImage(image) then Rejected
    else
      var physical := Physical(image, SECTOR_COUNT);
      if 0 !in physical || physical[0][40] != MAP_MARK then Rejected
      else
        match BlockMap(image, physical[0][52..564], SECTOR_COUNT)
        case Rejected => Rejected
        case Done(blocks) => ParseDirectory(blocks)
  }

  /** Finds the last block, looks for a gap below it, and joins. */
  method JoinStream(blocks: map<Slot, seq<byte>>, file: nat) returns (r: Outcome<seq<byte>>)
    requires forall slot :: slot in blocks ==> slot.block < 256
    ensures r == Joined(blocks, file)
  {
    RunLengthFacts(blocks, file, 0);
    if Slot(file, 0) !in blocks {
      return Rejected;
    }
    var last := 0;
    for b := 0 to 256
      invariant 0 <= last < 256 && Slot(file, last) in blocks
      invariant forall c :: 0 <= c < b && Slot(file, c) in blocks ==> c <= last
    {
      if Slot(file, b) in blocks {
        last := b;
      }
    }
    var stream := [];
    for b := 0 to last + 1
      invariant forall c :: 0 <= c < b ==> Slot(file, c) in blocks
      invariant stream == JoinBlocks(blocks, file, b)
    {
      if Slot(file, b) !in blocks {
        assert RunLength(blocks, file, 0) <= b;
        assert Slot(file, last) in blocks;
        return Rejected;
      }
      stream := stream + blocks[Slot(file, b)];
    }
    return Done(stream);
  }

  method CollectSectors(image: seq<byte>) returns (physical: map<byte, seq<byte>>)
    requires |image| == IMAGE_SIZE
    ensures physical == Physical(image, SECTOR_COUNT)
  {
    physical := map[];
    for k := 0 to SECTOR_COUNT
      invariant physical == Physical(image, k)
    {
      var sector := RecordAt(image, k);
      if sector[12] == 0xFF {
        physical := physical[sector[13] := sector];
      }
    }
  }

  method CollectBlocks(image: seq<byte>, allocation: seq<byte>) returns (r: Outcome<map<Slot, seq<byte>>>)
    requires |image| == IMAGE_SIZE && |allocation| == DATA_SIZE
    ensures r == BlockMap(image, allocation, SECTOR_COUNT)
    ensures r.Done? ==> forall slot :: slot in r.value ==> slot.block < 256
  {
    var blocks: map<Slot, seq<byte>> := map[];
    for k := 0 to SECTOR_COUNT
      invariant BlockMap(image, allocation, k) == Done(blocks)
      invariant forall slot :: slot in blocks ==> slot.block < 256
    {
      var sector := RecordAt(image, k);
      if sector[12] == 0xFF {
        var slot := MapEntry(allocation, sector[13]);
        if !Skipped(slot.file) {
          if Slot(sector[40], sector[41]) != slot || slot in blocks {
            BlockMapRejects(image, allocation, k + 1, SECTOR_COUNT);
            return Rejected;
          }
          blocks := blocks[slot := sector[52..564]];
        }
      }
    }
    return Done(blocks);
  }

  method ParseImage(image: seq<byte>) returns (r: Outcome<seq<Extracted>>)
    ensures r == Parse(image)
  {
    var ok := Validate(image);
    if !ok {
      return Rejected;
    }
    var physical := CollectSectors(image);
    if 0 !in physical || physical[0][40] != MAP_MARK {
      return Rejected;
    }
    var blocks := CollectBlocks(image, physical[0][52..564]);
    if blocks.Rejected? {
      return Rejected;
    }
    r := ReadDirectory(blocks.value);
  }

  /** Reads one directory entry and joins the stream it names. */
  method ReadEntry(directory: seq<byte>, blocks: map<Slot, seq<byte>>, index: nat) returns (r: Outcome<seq<Extracted>>)
    requires (index + 2) * HEADER_SIZE <= |directory|
    requires forall slot :: slot in blocks ==> slot.block < 256
    ensures r == Entry(directory, blocks, index)
  {
    var header := directory[(index + 1) * HEADER_SIZE..(index + 2) * HEADER_SIZE];
    var total, nameLength := FromBe32(header[0..4]), FromBe16(header[14..16]);
    if total == 0 && nameLength == 0 {
      return Done([]);
    }
    if total < HEADER_SIZE || nameLength < 1 || nameLength > 36 || !IsAscii(header[16..16 + nameLength]) {
      return Rejected;
    }
    var stream := JoinStream(blocks, index + 1);
    if stream.Rejected? || total > |stream.value| {
      return Rejected;
    }
    return Done([Extracted(header[16..16 + nameLength], stream.value[HEADER_SIZE..total], header[5] == 1,
                           FromBe32(header[6..10]))]);
  }

  method ReadEntries(directory: seq<byte>, blocks: map<Slot, seq<byte>>, count: nat)
    returns (r: Outcome<seq<Extracted>>)
    requires (count + 1) * HEADER_SIZE <= |directory|
    requires forall slot :: slot in blocks ==> slot.block < 256
    ensures r == Entries(directory, blocks, count)
  {
    var result := [];
    for index := 0 to count
      invariant Entries(directory, blocks, index) == Done(result)
    {
      var entry := ReadEntry(directory, blocks, index);
      if entry.Rejected? {
        EntriesReject(directory, blocks, index + 1, count);
        return Rejected;
      }
      result := result + entry.value;
    }
    return Done(result);
  }

  method ReadDirectory(blocks: map<Slot, seq<byte>>) returns (r: Outcome<seq<Extracted>>)
    requires forall slot :: slot in blocks ==> slot.block < 256
    ensures r == ParseDirectory(blocks)
  {
    var joined := JoinStream(blocks, 0);
    if joined.Rejected? || |joined.value| < 4 {
      return Rejected;
    }
    var directory := joined.value;
    var length := FromBe32(directory[0..4]);
    if length < HEADER_SIZE || length % HEADER_SIZE != 0 || length > |directory| {
      return Rejected;
    }
    r := ReadEntries(directory, blocks, length / HEADER_SIZE - 1);
  }

  lemma {:induction false} BlockMapRejects(image: seq<byte>, allocation: seq<byte>, n: nat, m: nat)
    requires |image| == IMAGE_SIZE && |allocation| == DATA_SIZE && n <= m <= SECTOR_COUNT
    requires BlockMap(image, allocation, n).Rejected?
    ensures BlockMap(image, allocation, m).Rejected?
    decreases m
  {
    if n < m {
      BlockMapRejects(image, allocation, n, m - 1);
    }
  }

  lemma {:induction false} EntriesReject(directory: seq<byte>, blocks: map<Slot, seq<byte>>, n: nat, m: nat)
    requires n <= m && (m + 1) * HEADER_SIZE <= |directory|
    requires Entries(directory, blocks, n).Rejected?
    ensures Entries(directory, blocks, m).Rejected?
    decreases m
  {
    if n < m {
      EntriesReject(directory, blocks, n, m - 1);
    }
  }
}
