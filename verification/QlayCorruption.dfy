/** What one altered byte does to a built image. */
module QlayCorruption {
  import opened Bytes
  import opened Checksums
  import opened QlayFormat
  import opened QlayAllocator
  import opened QlayImage
  import opened QlayParse
  import opened QlayRoundTrip

  /** The first 566 bytes of a record are the ones that the validator looks at. */
  const GUARDED: nat := 566

  lemma ChecksumSeesByte(data: seq<byte>, i: nat, v: byte)
    requires i < |data| && data[i] != v
    ensures Checksum(data[i := v]) != Checksum(data)
  {
    SumUpdate(data, i, v);
    var a, b := 0x0F0F + Sum(data), 0x0F0F + Sum(data[i := v]);
    assert 0 < (if a < b then b - a else a - b) < 256;
    assert a % 0x10000 != b % 0x10000;
  }

  lemma {:induction false} SumBound(data: seq<byte>, limit: nat)
    requires forall i :: 0 <= i < |data| ==> data[i] < limit
    ensures Sum(data) <= |data| * limit
  {
    if data != [] {
      SumBound(data[..|data| - 1], limit);
    }
  }

  /** The header checksum of a built record never has a zero high byte. */
  lemma HeaderChecksumHigh(number: byte, medium: seq<byte>, id: nat)
    requires ValidMediumField(medium)
    ensures Checksum(HeaderData(number, medium, id))[1] != 0
  {
    SumBound(medium, 0x80);
    SumBound(Be16(id), 0x100);
    SumAppend([0xFF, number] + medium, Be16(id));
    SumAppend([0xFF, number], medium);
    SumTwo(0xFF, number);
  }

  /** A record whose sound header checksum has a nonzero high byte, as every built record has. */
  ghost predicate BuiltRecord(r: seq<byte>, position: nat) {
    && |r| == RECORD_SIZE && RecordOk(r, position) && r[26..28] == Checksum(r[12..26]) && r[27] != 0
    && (position == 0 ==> r[13] == 0)
  }

  /** The one alteration of a guarded byte that passes: the map header checksum becomes zero. */
  predicate Masked(r: seq<byte>, position: nat, o: nat, v: byte)
    requires |r| == RECORD_SIZE
  {
    position == 0 && o == 27 && v == 0 && r[26] == 0
  }

  /** Alterations outside the header checksum zone. */
  lemma AlteredElsewhere(r: seq<byte>, position: nat, o: nat, v: byte)
    requires BuiltRecord(r, position) && o < RECORD_SIZE && v != r[o] && !(12 <= o < 28)
    ensures RecordOk(r[o := v], position) <==> o >= GUARDED
  {
    var r' := r[o := v];
    if o < 12 {
      if o < 10 {
        assert r'[..10][o] == v && r[..10][o] == 0;
      } else {
        assert r'[10..12][o - 10] == v && r[10..12][o - 10] == 0xFF;
      }
    } else {
      assert r'[..10] == r[..10] && r'[10..12] == r[10..12] && r'[12..26] == r[12..26] && r'[26..28] == r[26..28];
      if o < 52 {
        AlteredBlockHeader(r, o, v);
      } else if o < 564 {
        ChecksumSeesByte(r[52..564], o - 52, v);
        assert r'[52..564] == r[52..564][o - 52 := v] && r'[564..566] == r[564..566];
      } else if o < GUARDED {
        assert r'[52..564] == r[52..564] && r'[564..566][o - 564] == v;
      } else {
        assert r'[28..38] == r[28..38] && r'[38..40] == r[38..40] && r'[40..42] == r[40..42] && r'[42..44] == r[42..44];
        assert r'[44..50] == r[44..50] && r'[50..52] == r[50..52] && r'[52..564] == r[52..564]
               && r'[564..566] == r[564..566];
      }
    }
  }

  /** Alterations between the header checksum and the data. */
  lemma AlteredBlockHeader(r: seq<byte>, o: nat, v: byte)
    requires |r| == RECORD_SIZE && 28 <= o < 52 && v != r[o]
    requires r[28..38] == Fill(10, 0) && r[38..40] == [0xFF, 0xFF] && r[42..44] == Checksum(r[40..42])
    requires r[44..50] == Fill(6, 0) && r[50..52] == [0xFF, 0xFF]
    ensures var r' := r[o := v];
            !(r'[28..38] == Fill(10, 0) && r'[38..40] == [0xFF, 0xFF] && r'[42..44] == Checksum(r'[40..42]) &&
              r'[44..50] == Fill(6, 0) && r'[50..52] == [0xFF, 0xFF])
  {
    var r' := r[o := v];
    if o < 38 {
      assert r'[28..38][o - 28] == v && r[28..38][o - 28] == 0;
    } else if o < 40 {
      assert r'[38..40][o - 38] == v && r[38..40][o - 38] == 0xFF;
    } else if o < 42 {
      ChecksumSeesByte(r[40..42], o - 40, v);
      assert r'[40..42] == r[40..42][o - 40 := v] && r'[42..44] == r[42..44];
    } else if o < 44 {
      assert r'[40..42] == r[40..42] && r'[42..44][o - 42] == v;
    } else if o < 50 {
      assert r'[44..50][o - 44] == v && r[44..50][o - 44] == 0;
    } else {
      assert r'[50..52][o - 50] == v && r[50..52][o - 50] == 0xFF;
    }
  }

  /** Alterations of the sector header and its checksum. */
  lemma AlteredHeader(r: seq<byte>, position: nat, o: nat, v: byte)
    requires BuiltRecord(r, position) && 12 <= o < 28 && v != r[o]
    ensures RecordOk(r[o := v], position) <==> Masked(r, position, o, v)
  {
    var r' := r[o := v];
    if o < 26 {
      ChecksumSeesByte(r[12..26], o - 12, v);
      assert r'[12..26] == r[12..26][o - 12 := v] && r'[26..28] == r[26..28];
      assert r'[26..28][1] == r[27] != 0;
    } else {
      assert r'[12..26] == r[12..26];
      assert r'[26..28] == r[26..28][o - 26 := v];
      assert r'[26..28] == [r'[26], r'[27]];
      assert r'[..10] == r[..10] && r'[10..12] == r[10..12];
      assert r'[28..38] == r[28..38] && r'[38..40] == r[38..40] && r'[40..42] == r[40..42] && r'[42..44] == r[42..44];
      assert r'[44..50] == r[44..50] && r'[50..52] == r[50..52] && r'[52..564] == r[52..564]
             && r'[564..566] == r[564..566];
    }
  }

  // ----- The whole image

  lemma AlteredRecord(image: seq<byte>, pos: nat, v: byte, j: nat)
    requires |image| == IMAGE_SIZE && pos < IMAGE_SIZE && j < SECTOR_COUNT
    ensures j != pos / RECORD_SIZE ==> RecordAt(image[pos := v], j) == RecordAt(image, j)
    ensures j == pos / RECORD_SIZE ==> RecordAt(image[pos := v], j) == RecordAt(image, j)[pos % RECORD_SIZE := v]
  {
    var start := j * RECORD_SIZE;
    if j == pos / RECORD_SIZE {
      assert pos == start + pos % RECORD_SIZE;
    } else {
      assert pos < start || pos >= start + RECORD_SIZE;
    }
  }

  ghost predicate BuiltImage(image: seq<byte>) {
    TapeOrder(image) && forall k :: 0 <= k < SECTOR_COUNT ==> BuiltRecord(RecordAt(image, k), k)
  }

  /** The validator refuses the altered image exactly when a guarded byte changed and was not masked. */
  lemma AlteredValid(image: seq<byte>, pos: nat, v: byte)
    requires BuiltImage(image) && pos < IMAGE_SIZE && image[pos] != v
    ensures ValidImage(image[pos := v])
       <==> pos % RECORD_SIZE >= GUARDED || Masked(RecordAt(image, 0), pos / RECORD_SIZE, pos % RECORD_SIZE, v)
    ensures ValidImage(image[pos := v]) ==> TapeOrder(image[pos := v])
  {
    var image', k, o := image[pos := v], pos / RECORD_SIZE, pos % RECORD_SIZE;
    var r := RecordAt(image, k);
    AlteredRecord(image, pos, v, k);
    assert BuiltRecord(r, k);
    assert r[o] == image[pos] by { assert pos == k * RECORD_SIZE + o; }
    if 12 <= o < 28 {
      AlteredHeader(r, k, o, v);
    } else {
      AlteredElsewhere(r, k, o, v);
    }
    if RecordOk(r[o := v], k) {
      forall j | 0 <= j < SECTOR_COUNT
        ensures InOrder(image', j)
      {
        AlteredRecord(image, pos, v, j);
        assert InOrder(image, j);
      }
      OrderedValid(image');
    } else {
      assert !PositionOk(image', k);
    }
  }

  /** The parts of a record that the parser reads. */
  ghost predicate SameFields(a: seq<byte>, b: seq<byte>, k: nat)
    requires |a| == IMAGE_SIZE && |b| == IMAGE_SIZE && k < SECTOR_COUNT
  {
    var r, s := RecordAt(a, k), RecordAt(b, k);
    r[12] == s[12] && r[13] == s[13] && r[40] == s[40] && r[41] == s[41] && r[52..564] == s[52..564]
  }

  lemma {:induction false} SameBlockMap(a: seq<byte>, b: seq<byte>, allocation: seq<byte>, n: nat)
    requires |a| == IMAGE_SIZE && |b| == IMAGE_SIZE && |allocation| == DATA_SIZE && n <= SECTOR_COUNT
    requires forall k :: 0 <= k < SECTOR_COUNT ==> SameFields(a, b, k)
    ensures BlockMap(a, allocation, n) == BlockMap(b, allocation, n)
    decreases n
  {
    if n > 0 {
      SameBlockMap(a, b, allocation, n - 1);
      assert SameFields(a, b, n - 1);
    }
  }

  lemma SameParse(a: seq<byte>, b: seq<byte>)
    requires TapeOrder(a) && TapeOrder(b)
    requires forall k :: 0 <= k < SECTOR_COUNT ==> SameFields(a, b, k)
    ensures Parse(a) == Parse(b)
  {
    OrderedValid(a);
    OrderedValid(b);
    MapSectorFound(a, SECTOR_COUNT);
    MapSectorFound(b, SECTOR_COUNT);
    assert SameFields(a, b, 0);
    SameBlockMap(a, b, RecordAt(a, 0)[52..564], SECTOR_COUNT);
  }

  lemma AlteredParse(image: seq<byte>, pos: nat, v: byte)
    requires BuiltImage(image) && pos < IMAGE_SIZE && image[pos] != v && ValidImage(image[pos := v])
    ensures Parse(image[pos := v]) == Parse(image)
  {
    var image' := image[pos := v];
    AlteredValid(image, pos, v);
    forall k | 0 <= k < SECTOR_COUNT
      ensures SameFields(image, image', k)
    {
      AlteredRecord(image, pos, v, k);
      AlteredFields(RecordAt(image, k), pos % RECORD_SIZE, v);
    }
    SameParse(image', image);
  }

  lemma AlteredFields(r: seq<byte>, o: nat, v: byte)
    requires |r| == RECORD_SIZE && o < RECORD_SIZE && (o == 27 || o >= GUARDED)
    ensures var s := r[o := v];
            r[12] == s[12] && r[13] == s[13] && r[40] == s[40] && r[41] == s[41] && r[52..564] == s[52..564]
  {
  }

  lemma CarriedBuilt(image: seq<byte>, files: seq<DriveFile>, medium: seq<byte>, id: nat, p: Placement, damaged: byte)
    requires Carries(image, files, medium, id, p, damaged)
    ensures BuiltImage(image)
  {
    CarriedOrder(image, files, medium, id, p, damaged);
    forall k | 0 <= k < SECTOR_COUNT
      ensures BuiltRecord(RecordAt(image, k), k)
    {
      CarriedChecksum(image, files, medium, id, p, damaged, k);
    }
  }

  lemma CarriedChecksum(image: seq<byte>, files: seq<DriveFile>, medium: seq<byte>, id: nat, p: Placement,
                        damaged: byte, k: nat)
    requires Carries(image, files, medium, id, p, damaged) && k < SECTOR_COUNT
    ensures BuiltRecord(RecordAt(image, k), k)
  {
    CarriedRecord(image, files, medium, id, p, damaged, k);
    var r, s := RecordAt(image, k), PhysicalNumber(k);
    HeaderChecksumHigh(s, medium, id);
    assert r[27] == r[26..28][1];
  }

  lemma BuildIsBuilt(files: seq<DriveFile>, medium: seq<byte>)
    requires ValidFiles(files) && Build(files, medium).Done?
    ensures BuiltImage(Build(files, medium).value)
  {
    var p := BuildCarries(files, medium);
    CarriedBuilt(Build(files, medium).value, files, PadMedium(medium), MediumId(PadMedium(medium), files), p,
                 FREE_SECTOR);
  }

  lemma CorruptionOf(image: seq<byte>, pos: nat, v: byte)
    requires BuiltImage(image) && pos < IMAGE_SIZE && image[pos] != v
    ensures ValidImage(image[pos := v]) <==> pos % RECORD_SIZE >= GUARDED || (pos == 27 && v == 0 && image[26] == 0)
    ensures ValidImage(image[pos := v]) ==> Parse(image[pos := v]) == Parse(image)
  {
    AlteredValid(image, pos, v);
    assert RecordAt(image, 0)[26] == image[26];
    if ValidImage(image[pos := v]) {
      AlteredParse(image, pos, v);
    }
  }

  /**
   * Corruption detection.  Changing one byte of a built image makes validation fail exactly when
   * the byte lies in the guarded part of its record, with one exception: clearing byte 27 of the
   * first record when byte 26 is already zero.  When validation passes, the parse is unchanged.
   */
  lemma SingleByteCorruption(files: seq<DriveFile>, medium: seq<byte>, pos: nat, v: byte)
    requires ValidFiles(files) && Build(files, medium).Done?
    requires pos < |Build(files, medium).value| && Build(files, medium).value[pos] != v
    ensures var image := Build(files, medium).value;
            && (ValidImage(image[pos := v]) <==>
                  pos % RECORD_SIZE >= GUARDED || (pos == 27 && v == 0 && image[26] == 0))
            && (ValidImage(image[pos := v]) ==> Parse(image[pos := v]) == Parse(image))
  {
    BuildIsBuilt(files, medium);
    CorruptionOf(Build(files, medium).value, pos, v);
  }

  // ----- The exception does occur: with the medium name "Z" the map header checksum is 0x1200

  /** The letter Z and `spaces` spaces. */
  function PaddedZ(spaces: nat): seq<byte> {
    [0x5A] + Fill(spaces, 0x20)
  }

  lemma CrcSpace(spaces: nat, before: bv32)
    requires CrcUpdate(ALL_ONES, PaddedZ(spaces)) == before
    ensures CrcUpdate(ALL_ONES, PaddedZ(spaces + 1)) == SpaceStep(before)
  {
    SpaceByte(before);
    var data := PaddedZ(spaces + 1);
    assert data[..|data| - 1] == PaddedZ(spaces) && data[|data| - 1] == 0x20;
  }

  lemma CrcLetter()
    ensures CrcUpdate(ALL_ONES, PaddedZ(0)) == CrcByte(ALL_ONES, 0x5A)
  {
    var data := PaddedZ(0);
    assert data[..|data| - 1] == [] && data[|data| - 1] == 0x5A;
  }

  function FourShifts(v: bv32): bv32 {
    Shift(Shift(Shift(Shift(v))))
  }

  lemma FourShiftsStep(v: bv32, n: nat)
    requires n >= 4
    ensures ShiftTimes(v, n) == ShiftTimes(FourShifts(v), n - 4)
  {
    OneShift(v, n, Shift(v));
    OneShift(Shift(v), n - 1, Shift(Shift(v)));
    OneShift(Shift(Shift(v)), n - 2, Shift(Shift(Shift(v))));
    OneShift(Shift(Shift(Shift(v))), n - 3, FourShifts(v));
  }

  /** The register after one byte, written out for concrete registers. */
  lemma ByteRegister(crc: bv32, b: byte, w: bv32)
    requires w == Word(b)
    ensures CrcByte(crc, b) == FourShifts(FourShifts(crc ^ w))
  {
    var v := crc ^ w;
    ByteStep(crc, b, 8);
    FourShiftsStep(v, 8);
    FourShiftsStep(FourShifts(v), 4);
  }

  function SpaceStep(crc: bv32): bv32 {
    FourShifts(FourShifts(crc ^ 0x20))
  }

  lemma SpaceByte(crc: bv32)
    ensures CrcByte(crc, 0x20) == SpaceStep(crc)
  {
    SpaceWord();
    ByteRegister(crc, 0x20, 0x20);
  }

  lemma SpaceWord()
    ensures Word(0x20) == 0x20
  {
  }

  lemma LetterWord()
    ensures Word(0x5A) == 0x5A
  {
  }

  /** The CRC register after "Z". */
  lemma LetterRegister()
    ensures CrcByte(0xFFFF_FFFF, 0x5A) == 0xA643_A898
  {
    LetterWord();
    ByteRegister(0xFFFF_FFFF, 0x5A, 0x5A);
  }

  /** The CRC register after each of the nine spaces that follow "Z". */
  lemma SpaceRegisters()
    ensures SpaceStep(0xA643_A898) == 0xC51C_7816
    ensures SpaceStep(0xC51C_7816) == 0xCF7F_89E1
    ensures SpaceStep(0xCF7F_89E1) == 0xECAC_8DAF
    ensures SpaceStep(0xECAC_8DAF) == 0x7DEB_323C
    ensures SpaceStep(0x7DEB_323C) == 0x147C_B77D
    ensures SpaceStep(0x147C_B77D) == 0x15CE_51FE
    ensures SpaceStep(0x15CE_51FE) == 0x617E_3182
    ensures SpaceStep(0x617E_3182) == 0x38B9_BCF5
    ensures SpaceStep(0x38B9_BCF5) == 0xF681_9FE7
  {
  }

  lemma MediumZCrc()
    ensures CrcUpdate(ALL_ONES, PadMedium([0x5A])) == 0xF681_9FE7
  {
    LetterRegister();
    CrcLetter();
    SpaceRegisters();
    CrcSpace(0, 0xA643_A898);
    CrcSpace(1, 0xC51C_7816);
    CrcSpace(2, 0xCF7F_89E1);
    CrcSpace(3, 0xECAC_8DAF);
    CrcSpace(4, 0x7DEB_323C);
    CrcSpace(5, 0x147C_B77D);
    CrcSpace(6, 0x15CE_51FE);
    CrcSpace(7, 0x617E_3182);
    CrcSpace(8, 0x38B9_BCF5);
    assert PadMedium([0x5A]) == PaddedZ(9);
  }

  lemma LowHalf(v: bv32)
    requires v == 0x097E_6018
    ensures (v as nat) % 0x10000 == 0x6018
  {
  }

  lemma MediumZFingerprint()
    ensures Fingerprint(PadMedium([0x5A]), []) == 0x097E_6018
  {
    MediumZCrc();
    assert Complement(0) == ALL_ONES;
  }

  lemma MediumZId()
    ensures MediumId(PadMedium([0x5A]), []) == 0x6018
  {
    MediumZFingerprint();
    LowHalf(Fingerprint(PadMedium([0x5A]), []));
  }

  /** Bytes 26 and 27 of every built image are the checksum of the map record's header. */
  lemma MapHeaderChecksum(files: seq<DriveFile>, medium: seq<byte>)
    requires ValidFiles(files) && Build(files, medium).Done?
    ensures |Build(files, medium).value| == IMAGE_SIZE
    ensures Build(files, medium).value[26..28]
         == Checksum(HeaderData(0, PadMedium(medium), MediumId(PadMedium(medium), files)))
  {
    var p := BuildCarries(files, medium);
    MapHeaderStored(Build(files, medium).value, files, PadMedium(medium), MediumId(PadMedium(medium), files), p);
  }

  lemma MapHeaderStored(image: seq<byte>, files: seq<DriveFile>, medium: seq<byte>, id: nat, p: Placement)
    requires Carries(image, files, medium, id, p, FREE_SECTOR)
    ensures image[26..28] == Checksum(HeaderData(0, medium, id))
  {
    CarriedRecord(image, files, medium, id, p, FREE_SECTOR, 0);
    assert image[26..28] == RecordAt(image, 0)[26..28];
  }

  lemma EmptyFits()
    ensures Build([], [0x5A]).Done?
  {
    CapacityIs252([], [0x5A]);
    assert BlockCounts([]) == [1];
    assert Wants([1]) == Wants([]) + StreamWants(0, 1);
  }

  /** Concretely: an empty cartridge named "Z" whose map record loses its header checksum unnoticed. */
  lemma MaskedCorruptionExists()
    ensures Build([], [0x5A]).Done? && |Build([], [0x5A]).value| == IMAGE_SIZE
    ensures var image := Build([], [0x5A]).value; image[27] != 0 && ValidImage(image[27 := 0])
  {
    EmptyFits();
    BuildIsBuilt([], [0x5A]);
    MapHeaderChecksum([], [0x5A]);
    MediumZId();
    MediumZChecksum();
    var image := Build([], [0x5A]).value;
    assert image[26] == image[26..28][0] && image[27] == image[26..28][1];
    CorruptionOf(image, 27, 0);
  }

  lemma MediumZChecksum()
    ensures Checksum(HeaderData(0, PadMedium([0x5A]), 0x6018)) == [0x00, 0x12]
  {
    var spaces := Fill(9, 0x20);
    SumFill(9, 0x20, spaces);
    SumTwo(0xFF, 0);
    SumTwo(0x60, 0x18);
    SumOne(0x5A);
    SumAppend([0x5A], spaces);
    SumAppend([0xFF, 0], PadMedium([0x5A]));
    SumAppend([0xFF, 0] + PadMedium([0x5A]), [0x60, 0x18]);
    assert Be16(0x6018) == [0x60, 0x18];
  }
}
