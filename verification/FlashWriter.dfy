/**
 * The Flash writer in its own form: a page buffer, the current address, and commands to a chip that
 * may fail, may fail silently, but reads back truthfully.
 */
module FlashWriter {
  import opened Bytes
  import opened Flash

  /** Addresses go to the chip as three bytes. */
  const ADDRESS_SPACE: nat := 0x100_0000

  function Wire(address: nat): (wire: nat)
    ensures wire <= address && wire < ADDRESS_SPACE
    ensures wire % PAGE == address % PAGE && wire % BLOCK == address % BLOCK
    ensures address < ADDRESS_SPACE ==> wire == address
  {
    WireAligned(address);
    address % ADDRESS_SPACE
  }

  lemma WireAligned(address: nat)
    ensures address % ADDRESS_SPACE % BLOCK == address % BLOCK && address % ADDRESS_SPACE % PAGE == address % PAGE
  {
    var q, wire := address / ADDRESS_SPACE, address % ADDRESS_SPACE;
    assert address == wire + (256 * q) * BLOCK;
    BlockRemainder(wire, 256 * q);
    assert address == wire + (65536 * q) * PAGE;
    PageRemainder(wire, 65536 * q);
  }

  lemma BlockRemainder(r: nat, q: nat)
    ensures (r + q * BLOCK) % BLOCK == r % BLOCK
  {
  }

  lemma PageRemainder(r: nat, q: nat)
    ensures (r + q * PAGE) % PAGE == r % PAGE
  {
  }

  /** A chip's size, its first cells, those behind the last block of these, and its commands. */
  datatype Picture = Picture(size: nat, stream: seq<byte>, behind: seq<byte>, log: seq<Op>)

  function PictureOf(cells: seq<byte>, count: nat, log: seq<Op>): Picture {
    if CeilBlock(count) <= |cells| then Picture(|cells|, cells[..count], cells[CeilBlock(count)..], log)
    else Picture(|cells|, [], [], log)
  }

  /** The picture that a stream must leave on cells and commands as it found them. */
  function PictureWith(initial: seq<byte>, data: seq<byte>, before: seq<Op>): Picture
    requires CeilBlock(|data|) <= |initial|
  {
    Picture(|initial|, data, initial[CeilBlock(|data|)..], before + Plan(|data|))
  }

  /**
   * The chip.  A reliable one does what it is told.  Any other may report failure, or report success
   * and leave anything at all, but only in the block it was told to erase or the bytes it was told
   * to program.
   */
  class Chip {
    var cells: seq<byte>
    const reliable: bool
    const locked: bool
    ghost var log: seq<Op>

    ghost predicate Valid()
      reads this
    {
      |cells| % BLOCK == 0
    }

    /** The chip as a stream of `count` bytes leaves it. */
    ghost function Shows(count: nat): Picture
      reads this
    {
      PictureOf(cells, count, log)
    }

    constructor (contents: seq<byte>, reliable_: bool, locked_: bool)
      requires |contents| % BLOCK == 0
      ensures Valid() && cells == contents && reliable == reliable_ && locked == locked_
    {
      cells, reliable, locked := contents, reliable_, locked_;
      log := [];
    }

    method EraseCommand(address: nat) returns (ok: bool)
      requires Valid() && address < ADDRESS_SPACE && address + BLOCK <= |cells|
      modifies this
      ensures Valid() && log == old(log) + [Erase(address)]
      ensures |cells| == |old(cells)|
      ensures cells[..address] == old(cells[..address]) && cells[address + BLOCK..] == old(cells[address + BLOCK..])
      ensures reliable ==> ok && cells == EraseBlock(old(cells), address)
    {
      var effect := Fill(BLOCK, ERASED);
      ok := true;
      if !reliable {
        ok := *;
        var other: seq<byte> := *;
        if |other| == BLOCK {
          effect := other;
        }
      }
      cells := Overlay(cells, Wire(address), effect);
      log := log + [Erase(address)];
    }

    method ProgramCommand(address: nat, data: seq<byte>) returns (ok: bool)
      requires Valid() && address < ADDRESS_SPACE && address + |data| <= |cells|
      modifies this
      ensures Valid() && log == old(log) + [Program(address, |data|)]
      ensures |cells| == |old(cells)|
      ensures cells[..address] == old(cells[..address])
      ensures cells[address + |data|..] == old(cells[address + |data|..])
      ensures reliable ==> ok && cells == ProgramCells(old(cells), address, data)
    {
      var effect := Masked(cells[address..address + |data|], data);
      ok := true;
      if !reliable {
        ok := *;
        var other: seq<byte> := *;
        if |other| == |data| {
          effect := other;
        }
      }
      cells := Overlay(cells, Wire(address), effect);
      log := log + [Program(address, |data|)];
    }

    method ReadCommand(address: nat, count: nat) returns (ok: bool, data: seq<byte>)
      requires address < ADDRESS_SPACE && address + count <= |cells|
      ensures ok ==> data == cells[address..address + count]
      ensures reliable ==> ok
    {
      ok := true;
      if !reliable {
        ok := *;
      }
      data := cells[Wire(address)..Wire(address) + count];
    }
  }

  /** Erases a block and looks at its first sixteen bytes. */
  method EraseChecked(chip: Chip, address: nat) returns (ok: bool)
    requires chip.Valid() && address < ADDRESS_SPACE && address + BLOCK <= |chip.cells|
    modifies chip
    ensures chip.Valid() && chip.log == old(chip.log) + [Erase(address)]
    ensures |chip.cells| == |old(chip.cells)|
    ensures chip.cells[..address] == old(chip.cells[..address])
    ensures chip.cells[address + BLOCK..] == old(chip.cells[address + BLOCK..])
    ensures ok ==> chip.cells[address..address + 16] == Fill(16, ERASED)
    ensures chip.reliable ==> ok && chip.cells == EraseBlock(old(chip.cells), address)
  {
    ok := chip.EraseCommand(address);
    if !ok {
      return;
    }
    var erased;
    ok, erased := chip.ReadCommand(address, 16);
    if !ok {
      return;
    }
    for index := 0 to 16
      invariant forall k :: 0 <= k < index ==> erased[k] == ERASED
    {
      if erased[index] != ERASED {
        return false;
      }
    }
    assert erased == Fill(16, ERASED);
  }

  /** Programs part of a page and compares it with what the chip then holds. */
  method ProgramChecked(chip: Chip, address: nat, data: seq<byte>) returns (ok: bool)
    requires chip.Valid() && address < ADDRESS_SPACE && address + |data| <= |chip.cells|
    requires 0 < |data| <= PAGE && address % PAGE + |data| <= PAGE
    modifies chip
    ensures chip.Valid() && chip.log == old(chip.log) + [Program(address, |data|)]
    ensures |chip.cells| == |old(chip.cells)|
    ensures chip.cells[..address] == old(chip.cells[..address])
    ensures chip.cells[address + |data|..] == old(chip.cells[address + |data|..])
    ensures ok ==> chip.cells[address..address + |data|] == data
    ensures chip.reliable ==> chip.cells == ProgramCells(old(chip.cells), address, data)
    ensures chip.reliable && chip.cells[address..address + |data|] == data ==> ok
  {
    ok := chip.ProgramCommand(address, data);
    if !ok {
      return;
    }
    var stored;
    ok, stored := chip.ReadCommand(address, |data|);
    if !ok {
      return;
    }
    for index := 0 to |data|
      invariant stored[..index] == data[..index]
    {
      if stored[index] != data[index] {
        return false;
      }
    }
    assert stored[..|data|] == stored && data[..|data|] == data;
  }

  /** The commands of one flush; a failure leaves everything before `address` as it was. */
  method FlushCommands(chip: Chip, address: nat, data: seq<byte>) returns (ok: bool)
    requires chip.Valid() && address < ADDRESS_SPACE && address % PAGE == 0 && 0 < |data| <= PAGE
    requires address + |data| <= |chip.cells|
    modifies chip
    ensures chip.Valid()
    ensures Flushed(chip.reliable, ok, old(chip.cells), chip.cells, old(chip.log), chip.log, address, data)
  {
    CeilFits(address + |data|, |chip.cells|);
    ghost var cells, log := chip.cells, chip.log;
    ok := OpenBlock(chip, address);
    ghost var mid, between := chip.cells, chip.log;
    if ok {
      ok := ProgramChecked(chip, address, data);
      Programmed(chip.reliable, ok, cells, mid, chip.cells, log, between, chip.log, address, data);
    } else {
      NotOpened(chip.reliable, cells, mid, log, between, address, data);
    }
  }

  /** What opening the block for a page may do: nothing if it is open, else erase it. */
  ghost predicate Opened(reliable: bool, ok: bool, cells: seq<byte>, mid: seq<byte>, log: seq<Op>, between: seq<Op>,
                         address: nat)
  {
    && |mid| == |cells|
    && if address % BLOCK != 0 then ok && mid == cells && between == log
       else
         && address + BLOCK <= |cells| && between == log + [Erase(address)]
         && mid[..address] == cells[..address] && mid[address + BLOCK..] == cells[address + BLOCK..]
         && (reliable ==> ok && mid == EraseBlock(cells, address))
  }

  /** A page that begins a block has the block erased first. */
  method OpenBlock(chip: Chip, address: nat) returns (ok: bool)
    requires chip.Valid() && address < ADDRESS_SPACE && address < |chip.cells|
    modifies chip
    ensures chip.Valid()
    ensures Opened(chip.reliable, ok, old(chip.cells), chip.cells, old(chip.log), chip.log, address)
  {
    ok := true;
    if address % BLOCK == 0 {
      ok := EraseChecked(chip, address);
    }
  }

  lemma NotOpened(reliable: bool, cells: seq<byte>, mid: seq<byte>, log: seq<Op>, between: seq<Op>, address: nat,
                  data: seq<byte>)
    requires Opened(reliable, false, cells, mid, log, between, address)
    requires address % PAGE == 0 && 0 < |data| <= PAGE && CeilBlock(address + |data|) <= |cells|
    ensures Flushed(reliable, false, cells, mid, log, between, address, data)
  {
    CeilWithin(address, |data|);
  }

  lemma Programmed(reliable: bool, ok: bool, cells: seq<byte>, mid: seq<byte>, cells': seq<byte>, log: seq<Op>,
                   between: seq<Op>, log': seq<Op>, address: nat, data: seq<byte>)
    requires Opened(reliable, true, cells, mid, log, between, address)
    requires address % PAGE == 0 && 0 < |data| <= PAGE && CeilBlock(address + |data|) <= |cells| == |cells'|
    requires log' == between + [Program(address, |data|)] && cells'[..address] == mid[..address]
    requires cells'[address + |data|..] == mid[address + |data|..]
    requires ok ==> cells'[address..address + |data|] == data
    requires reliable ==> cells' == ProgramCells(mid, address, data)
    requires reliable && cells'[address..address + |data|] == data ==> ok
    ensures Flushed(reliable, ok, cells, cells', log, log', address, data)
  {
    CeilWithin(address, |data|);
    TailKept(cells, mid, cells', CeilBlock(address + |data|), address + |data|);
  }

  lemma TailKept(a: seq<byte>, b: seq<byte>, c: seq<byte>, at: nat, from: nat)
    requires |a| == |b| == |c| && from <= at <= |a| && b[at..] == a[at..] && c[from..] == b[from..]
    ensures c[at..] == a[at..]
  {
    assert c[at..] == c[from..][at - from..] && b[at..] == b[from..][at - from..];
  }

  /** What a flush leaves: all of it on success, and never more than the block it works on. */
  ghost predicate Flushed(reliable: bool, ok: bool, cells: seq<byte>, cells': seq<byte>, log: seq<Op>, log': seq<Op>,
                          address: nat, data: seq<byte>)
  {
    && address + |data| <= CeilBlock(address + |data|) <= |cells| == |cells'|
    && cells'[..address] == cells[..address]
    && cells'[CeilBlock(address + |data|)..] == cells[CeilBlock(address + |data|)..]
    && (ok ==> log' == log + FlushOps(address, |data|) && cells'[address..address + |data|] == data)
    && (reliable && FlushSticks(cells, address, data) ==> ok && cells' == FlushCells(cells, address, data))
  }

  /** On a working chip the flush leaves the data where it belongs: it needs only cleared cells there. */
  ghost predicate FlushSticks(cells: seq<byte>, address: nat, data: seq<byte>) {
    && address + |data| <= |cells| && (address % BLOCK == 0 ==> address + BLOCK <= |cells|)
    && FlushCells(cells, address, data)[address..address + |data|] == data
  }

  /** What a writer is doing: nothing, or taking a stream of this length and so far all of it without a failure. */
  datatype Stage = Resting | Taking(length: nat, written: seq<byte>) | Failing

  class FlashWriter {
    const chip: Chip
    const page: array<byte>
    var active: bool
    var length: nat
    var address: nat
    var pageUsed: nat
    /** Since the last begin: the stream so far, the cells and the log it found, and whether every command succeeded. */
    ghost var written: seq<byte>
    ghost var initial: seq<byte>
    ghost var before: seq<Op>
    ghost var clean: bool

    ghost predicate Valid()
      reads this, page, chip
    {
      page.Length == PAGE && chip.Valid() && (active ==> Streaming())
    }

    ghost function Now(): Stage
      reads this, page, chip
    {
      if Valid() && !active then Resting else if Valid() && clean then Taking(length, written) else Failing
    }

    ghost predicate Streaming()
      requires page.Length == PAGE
      reads this, page, chip
    {
      && Positioned() && written[address..] == page[..pageUsed]
      && Sound(chip.reliable, clean, chip.cells, initial, chip.log, before, written[..address], length)
    }

    /** Where the writer is in the stream. */
    ghost predicate Positioned()
      reads this, chip
    {
      && pageUsed <= PAGE && address + pageUsed <= length <= |chip.cells|
      && chip.Valid() && (address % PAGE == 0 || address == length) && |written| == address + pageUsed
      && |chip.cells| == |initial|
    }

    constructor (c: Chip)
      requires c.Valid()
      ensures Valid() && !active && chip == c && fresh(page)
    {
      chip := c;
      page := new byte[PAGE];
      active, length, address, pageUsed := false, 0, 0, 0;
      written, initial, before, clean := [], [], [], true;
    }

    method Begin(size: nat) returns (ok: bool)
      requires Valid()
      modifies this
      ensures Valid()
      ensures ok ==> !old(active) && active && 0 < size <= |chip.cells| && !chip.locked
      ensures ok ==> length == size && written == [] && clean && initial == chip.cells && before == chip.log
      ensures !ok ==> active == old(active)
      ensures chip.reliable && !old(active) && 0 < size <= |chip.cells| && !chip.locked ==> ok
    {
      var connected: bool := *;
      if size == 0 || active || !(connected || chip.reliable) {
        return false;
      }
      if size > |chip.cells| || chip.locked {
        return false;
      }
      length, address, pageUsed, active, ok := size, 0, 0, true, true;
      written, initial, before, clean := [], chip.cells, chip.log, true;
      NothingFlashed(chip.cells);
    }

    /** Writes out the page buffer, erasing the block first where a block begins. */
    method FlushPage() returns (ok: bool)
      requires Valid() && active && (pageUsed == PAGE || address + pageUsed == length)
      modifies this`address, this`pageUsed, this`clean, chip
      ensures Valid() && active
      ensures ok ==> pageUsed == 0 && address == |written| && clean == old(clean)
      ensures !ok ==> pageUsed == old(pageUsed)
      ensures chip.reliable ==> ok
    {
      if pageUsed == 0 {
        return true;
      }
      ok := SendPage();
      if ok {
        address := address + pageUsed;
        pageUsed := 0;
      } else {
        clean := false;
      }
    }

    /** The commands for the page buffer. */
    method SendPage() returns (ok: bool)
      requires Valid() && active && pageUsed > 0 && address % PAGE == 0
      modifies chip
      ensures chip.Valid() && |chip.cells| == |initial| && (chip.reliable ==> ok)
      ensures if ok
              then Sound(chip.reliable, clean, chip.cells, initial, chip.log, before,
                         written[..address + pageUsed], length)
              else Sound(chip.reliable, false, chip.cells, initial, chip.log, before, written[..address], length)
    {
      ghost var data, cells, log := written[..address], chip.cells, chip.log;
      ok := FlushCommands(chip, Wire(address), page[..pageUsed]);
      assert written[..address + pageUsed] == data + page[..pageUsed];
      SoundAfter(chip.reliable, ok, clean, cells, chip.cells, initial, log, chip.log, before, data, page[..pageUsed],
                 length);
    }

    /** Takes as much of the data as the page buffer has room for. */
    method FillPage(data: seq<byte>) returns (amount: nat)
      requires Valid() && active && address + pageUsed + |data| <= length && data != []
      modifies this`pageUsed, this`written, page
      ensures Valid() && active && amount <= |data| && pageUsed == old(pageUsed) + amount
      ensures pageUsed == PAGE || amount == |data|
      ensures written == old(written) + data[..amount]
    {
      var available := PAGE - pageUsed;
      amount := if |data| < available then |data| else available;
      forall k | 0 <= k < amount {
        page[pageUsed + k] := data[k];
      }
      ghost var pending := written[address..];
      written := written + data[..amount];
      pageUsed := pageUsed + amount;
      assert page[..pageUsed] == pending + data[..amount];
      assert written[..address] == old(written[..address]);
    }

    /** One round of a write: fills the page buffer, and flushes it if that fills it up. */
    method WriteSome(data: seq<byte>) returns (amount: nat, ok: bool)
      requires Valid() && active && address + pageUsed + |data| <= length && data != []
      modifies this`address, this`pageUsed, this`clean, this`written, page, chip
      ensures Valid() && active && amount <= |data| && address + pageUsed == old(address + pageUsed) + amount
      ensures ok ==> written == old(written) + data[..amount] && clean == old(clean)
      ensures ok ==> amount > 0 || pageUsed < old(pageUsed)
      ensures chip.reliable ==> ok
    {
      ok := true;
      amount := FillPage(data);
      if pageUsed == PAGE {
        ok := FlushPage();
      }
    }

    method Write(data: seq<byte>) returns (ok: bool)
      requires Valid()
      modifies this`address, this`pageUsed, this`clean, this`written, page, chip
      ensures Valid() && active == old(active)
      ensures ok ==> active && data != [] && written == old(written) + data && clean == old(clean)
      ensures chip.reliable && active && data != [] && old(|written|) + |data| <= length ==> ok
    {
      if !active || data == [] || address + pageUsed + |data| > length {
        return false;
      }
      var done := 0;
      while done < |data|
        invariant done <= |data| && Valid() && active && address + pageUsed + (|data| - done) <= length
        invariant written == old(written) + data[..done] && clean == old(clean)
        decreases |data| - done, pageUsed
      {
        var amount;
        amount, ok := WriteSome(data[done..]);
        if !ok {
          return;
        }
        assert data[..done] + data[done..][..amount] == data[..done + amount];
        done := done + amount;
      }
      assert data[..|data|] == data;
      ok := true;
    }

    /** The last page, if any of it is left. */
    method Finish() returns (ok: bool)
      requires Valid()
      modifies this`active, this`address, this`pageUsed, this`clean, chip
      ensures Valid() && (active ==> old(active)) && (old(active) && |written| == length ==> !active)
      ensures ok ==> !active && old(active) && |written| == length <= |chip.cells| == |initial|
      ensures ok ==> Sound(chip.reliable, old(clean), chip.cells, initial, chip.log, before, written, length)
      ensures chip.reliable && old(active) && |written| == length ==> ok
    {
      if !active || address + pageUsed != length {
        return false;
      }
      ok := FlushPage();
      assert written[..|written|] == written;
      active := false;
    }

    method Abort()
      requires Valid()
      modifies this`active, this`pageUsed
      ensures Valid() && !active
    {
      if active {
        active, pageUsed := false, 0;
      }
    }
  }

  // ----- Laps: three address bytes start over at zero every 2^24 bytes

  /** The stream after its first lap, and the cells that lap has left. */
  function Rest(data: seq<byte>): (rest: seq<byte>)
    requires |data| >= ADDRESS_SPACE
    ensures |rest| == |data| - ADDRESS_SPACE
  {
    data[ADDRESS_SPACE..]
  }

  function LapLeaves(initial: seq<byte>, data: seq<byte>): (cells: seq<byte>)
    requires ADDRESS_SPACE <= |data| <= |initial|
    ensures |cells| == |initial|
  {
    data[..ADDRESS_SPACE] + initial[ADDRESS_SPACE..]
  }

  /** What a working chip holds after a stream of any length: each lap writes over the one before. */
  function Wrapped(initial: seq<byte>, data: seq<byte>): (cells: seq<byte>)
    requires |data| <= |initial| && |initial| % BLOCK == 0
    ensures |cells| == |initial|
    decreases |data|
  {
    if |data| >= ADDRESS_SPACE then Wrapped(LapLeaves(initial, data), Rest(data))
    else
      CeilFits(|data|, |initial|);
      Flashed(initial, data)
  }

  /**
   * What holds of a stream of `length` bytes of which `data` is written: its last lap is stored over
   * what the lap before has left, and nothing past its end has changed.
   */
  ghost predicate Held(reliable: bool, cells: seq<byte>, initial: seq<byte>, data: seq<byte>, length: nat)
    requires |data| <= length <= |initial|
    decreases |data|
  {
    if |data| >= ADDRESS_SPACE then
      Held(reliable, cells, LapLeaves(initial, data), Rest(data), length - ADDRESS_SPACE)
    else
      LapSound(reliable, cells, initial, data, if length < ADDRESS_SPACE then length else ADDRESS_SPACE)
  }

  /** One lap: its part of the stream is stored, and past its end nothing has changed. */
  ghost predicate LapSound(reliable: bool, cells: seq<byte>, base: seq<byte>, data: seq<byte>, end: nat) {
    && |cells| % BLOCK == 0 && Stored(cells, base, data, end)
    && (reliable ==> CeilBlock(|data|) <= |base| && cells == Flashed(base, data))
  }

  lemma {:induction false} HeldWrapped(cells: seq<byte>, initial: seq<byte>, data: seq<byte>, length: nat)
    requires |data| <= length <= |initial| && |initial| % BLOCK == 0 && Held(true, cells, initial, data, length)
    ensures cells == Wrapped(initial, data)
    decreases |data|
  {
    if |data| >= ADDRESS_SPACE {
      HeldWrapped(cells, LapLeaves(initial, data), Rest(data), length - ADDRESS_SPACE);
    }
  }

  /** A command with its address cut to three bytes. */
  function WireOp(op: Op): Op {
    match op
    case Erase(at) => Erase(Wire(at))
    case Program(at, count) => Program(Wire(at), count)
  }

  function WirePlan(ops: seq<Op>): (r: seq<Op>)
    ensures |r| == |ops| && forall i :: 0 <= i < |ops| ==> r[i] == WireOp(ops[i])
  {
    seq(|ops|, i requires 0 <= i < |ops| => WireOp(ops[i]))
  }

  lemma WireFlush(ops: seq<Op>, address: nat, count: nat)
    ensures WirePlan(ops + FlushOps(address, count)) == WirePlan(ops) + FlushOps(Wire(address), count)
  {
  }

  /** Up to 2^24 bytes the plan needs no cutting. */
  lemma WireSame(length: nat)
    requires length <= ADDRESS_SPACE
    ensures WirePlan(Plan(length)) == Plan(length)
  {
    PlanDisciplined(length);
    forall i | 0 <= i < |Plan(length)| ensures WireOp(Plan(length)[i]) == Plan(length)[i] {
      assert Obeys(Plan(length), i, length);
    }
  }

  /** The chip holds the stream so far, lap over lap; if every command succeeded, they were the plan. */
  ghost predicate Sound(reliable: bool, clean: bool, cells: seq<byte>, initial: seq<byte>, log: seq<Op>,
                        before: seq<Op>, data: seq<byte>, length: nat)
  {
    && |data| <= length <= |initial| && Held(reliable, cells, initial, data, length)
    && (clean ==> log == before + WirePlan(Plan(|data|)))
    && (reliable ==> clean)
  }

  lemma SoundAfter(reliable: bool, ok: bool, clean: bool, cells: seq<byte>, cells': seq<byte>, initial: seq<byte>,
                   log: seq<Op>, log': seq<Op>, before: seq<Op>, data: seq<byte>, page: seq<byte>, length: nat)
    requires Sound(reliable, clean, cells, initial, log, before, data, length)
    requires |data| % PAGE == 0 && 0 < |page| <= PAGE && |data| + |page| <= length
    requires Flushed(reliable, ok, cells, cells', log, log', Wire(|data|), page)
    ensures reliable ==> ok
    ensures if ok then Sound(reliable, clean, cells', initial, log', before, data + page, length)
            else Sound(reliable, false, cells', initial, log', before, data, length)
  {
    HeldAfter(reliable, ok, cells, cells', initial, log, log', data, page, length);
    if ok {
      PlanFlush(|data|, |page|);
      WireFlush(Plan(|data|), |data|, |page|);
    }
  }

  lemma {:induction false} HeldAfter(reliable: bool, ok: bool, cells: seq<byte>, cells': seq<byte>,
                                     initial: seq<byte>, log: seq<Op>, log': seq<Op>, data: seq<byte>,
                                     page: seq<byte>, length: nat)
    requires |data| + |page| <= length <= |initial| && Held(reliable, cells, initial, data, length)
    requires |data| % PAGE == 0 && 0 < |page| <= PAGE
    requires Flushed(reliable, ok, cells, cells', log, log', Wire(|data|), page)
    ensures reliable ==> ok
    ensures Held(reliable && ok, cells', initial, if ok then data + page else data, length)
    decreases |data|
  {
    if |data| >= ADDRESS_SPACE {
      OneLapLess(|data|);
      HeldAfter(reliable, ok, cells, cells', LapLeaves(initial, data), log, log', Rest(data), page,
                length - ADDRESS_SPACE);
      assert Rest(data + page) == Rest(data) + page && LapLeaves(initial, data + page) == LapLeaves(initial, data);
    } else {
      FirstAfter(reliable, ok, cells, cells', initial, log, log', data, page, length);
    }
  }

  lemma FirstAfter(reliable: bool, ok: bool, cells: seq<byte>, cells': seq<byte>, initial: seq<byte>,
                   log: seq<Op>, log': seq<Op>, data: seq<byte>, page: seq<byte>, length: nat)
    requires |data| + |page| <= length <= |initial| && Held(reliable, cells, initial, data, length)
    requires |data| < ADDRESS_SPACE && |data| % PAGE == 0 && 0 < |page| <= PAGE
    requires Flushed(reliable, ok, cells, cells', log, log', |data|, page)
    ensures reliable ==> ok
    ensures Held(reliable && ok, cells', initial, if ok then data + page else data, length)
  {
    var end := if length < ADDRESS_SPACE then length else ADDRESS_SPACE;
    PageInLap(|data|, |page|);
    LapAfter(reliable, ok, cells, cells', initial, log, log', data, page, end);
    if ok && |data| + |page| == ADDRESS_SPACE {
      LapTurns(reliable, cells', initial, data + page, length);
    }
  }

  lemma OneLapLess(count: nat)
    requires count >= ADDRESS_SPACE && count % PAGE == 0
    ensures Wire(count) == Wire(count - ADDRESS_SPACE) && (count - ADDRESS_SPACE) % PAGE == 0
  {
    OneLapMore(count - ADDRESS_SPACE);
    assert count - ADDRESS_SPACE == count - 65536 * PAGE;
  }

  lemma OneLapMore(n: nat)
    ensures (n + ADDRESS_SPACE) % ADDRESS_SPACE == n % ADDRESS_SPACE
  {
  }

  /** A page never crosses the end of a lap. */
  lemma PageInLap(count: nat, page: nat)
    requires count < ADDRESS_SPACE && count % PAGE == 0 && page <= PAGE
    ensures count + page <= ADDRESS_SPACE
  {
    WholePages(count, count / PAGE, page);
  }

  lemma WholePages(count: nat, pages: nat, page: nat)
    requires count == pages * PAGE && count < 65536 * PAGE && page <= PAGE
    ensures count + page <= 65536 * PAGE
  {
  }

  lemma LapAfter(reliable: bool, ok: bool, cells: seq<byte>, cells': seq<byte>, base: seq<byte>,
                 log: seq<Op>, log': seq<Op>, data: seq<byte>, page: seq<byte>, end: nat)
    requires LapSound(reliable, cells, base, data, end)
    requires |data| % PAGE == 0 && 0 < |page| <= PAGE && |data| + |page| <= end
    requires Flushed(reliable, ok, cells, cells', log, log', |data|, page)
    ensures reliable ==> ok
    ensures LapSound(reliable && ok, cells', base, if ok then data + page else data, end)
  {
    CeilFits(end, |cells|);
    CeilOrder(|data| + |page|, end);
    StoredAfter(cells, cells', base, data, page, end, CeilBlock(|data| + |page|), CeilBlock(end));
    if reliable {
      FlushAdvances(cells, base, data, page);
    }
  }

  /** A full lap is what the next one begins with. */
  lemma LapTurns(reliable: bool, cells: seq<byte>, initial: seq<byte>, data: seq<byte>, length: nat)
    requires |data| == ADDRESS_SPACE <= length <= |initial|
    requires LapSound(reliable, cells, initial, data, |data|)
    ensures Held(reliable, cells, initial, data, length)
  {
    var rest, base := Rest(data), LapLeaves(initial, data);
    assert rest == [];
    assert CeilBlock(|data|) == |data|;
    assert cells == cells[..|data|] + cells[|data|..];
    assert base == cells;
    NothingFlashed(cells);
    CeilFits(length - |data|, |cells|);
    assert Held(reliable, cells, base, rest, length - |data|);
  }

  lemma StoredAfter(cells: seq<byte>, cells': seq<byte>, initial: seq<byte>, data: seq<byte>, page: seq<byte>,
                    length: nat, next: nat, end: nat)
    requires |cells| == |cells'| == |initial| && |data| + |page| <= length <= |cells|
    requires |data| + |page| <= next <= end <= |cells|
    requires cells[..|data|] == data && cells[end..] == initial[end..]
    requires cells'[..|data|] == cells[..|data|] && cells'[next..] == cells[next..]
    ensures cells'[..|data|] == data && cells'[end..] == initial[end..]
    ensures cells'[|data|..|data| + |page|] == page ==> cells'[..|data + page|] == data + page
  {
    assert cells'[end..] == cells'[next..][end - next..] && cells[end..] == cells[next..][end - next..];
  }

  /** The stream is stored from zero on, and past the stream's last block nothing has changed. */
  ghost predicate Stored(cells: seq<byte>, initial: seq<byte>, data: seq<byte>, length: nat) {
    && |data| <= length <= |cells| == |initial|
    && cells[..|data|] == data
    && (CeilBlock(length) <= |cells| ==> cells[CeilBlock(length)..] == initial[CeilBlock(length)..])
  }

  lemma CeilFits(length: nat, size: nat)
    requires size % BLOCK == 0 && length <= size
    ensures CeilBlock(length) <= size
  {
  }

  lemma CeilOrder(a: nat, b: nat)
    requires a <= b
    ensures CeilBlock(a) <= CeilBlock(b)
  {
  }

  /** On a working chip a flush of the next page sticks and extends the stream. */
  lemma FlushAdvances(cells: seq<byte>, initial: seq<byte>, data: seq<byte>, page: seq<byte>)
    requires |data| % PAGE == 0 && 0 < |page| <= PAGE && CeilBlock(|data| + |page|) <= |initial|
    requires CeilBlock(|data|) <= |initial| && cells == Flashed(initial, data)
    ensures FlushSticks(cells, |data|, page) && FlushCells(cells, |data|, page) == Flashed(initial, data + page)
  {
    FlushExtends(initial, data, page);
    FlashedSlice(initial, data, page);
  }

  lemma FlashedSlice(initial: seq<byte>, data: seq<byte>, page: seq<byte>)
    requires CeilBlock(|data + page|) <= |initial|
    ensures |data| + |page| <= |Flashed(initial, data + page)|
    ensures Flashed(initial, data + page)[|data|..|data| + |page|] == page
  {
  }

  /**
   * A whole programming session, whatever the chunks the link cuts the bitstream into.  If begin,
   * every write and finish succeed, the chip holds the last lap of the bitstream and, behind it, the
   * lap before; so a bitstream that three address bytes reach is there from zero on, nothing outside
   * its 64 KiB blocks has changed, and the chip was given exactly the planned commands.  On a chip
   * that does what it is told, and that the bitstream fits, all of them do succeed, at any length.
   */
  method ProgramStream(writer: FlashWriter, chunks: seq<seq<byte>>) returns (ok: bool)
    requires writer.Valid() && !writer.active
    modifies writer, writer.page, writer.chip
    ensures writer.Valid() && !writer.active
    ensures ok ==>
              && var data, cells := Flatten(chunks), writer.chip.cells;
                 && data != [] && |data| <= |cells| == |old(writer.chip.cells)|
                 && Held(writer.chip.reliable, cells, old(writer.chip.cells), data, |data|)
                 && writer.chip.log == old(writer.chip.log) + WirePlan(Plan(|data|))
                 && (writer.chip.reliable ==> cells == Wrapped(old(writer.chip.cells), data))
    ensures ok && |Flatten(chunks)| <= ADDRESS_SPACE ==>
              && var data := Flatten(chunks);
                 && data != [] && CeilBlock(|data|) <= |writer.chip.cells| == |old(writer.chip.cells)|
                 && writer.chip.cells[..|data|] == data
                 && writer.chip.cells[CeilBlock(|data|)..] == old(writer.chip.cells)[CeilBlock(|data|)..]
                 && writer.chip.log == old(writer.chip.log) + Plan(|data|)
    ensures Writable(writer.chip, chunks, |old(writer.chip.cells)|) ==> ok
  {
    ghost var all := Flatten(chunks);
    ghost var cells, log := writer.chip.cells, writer.chip.log;
    var total := TotalLength(chunks);
    ok := writer.Begin(total);
    if !ok {
      return;
    }
    ok := WriteChunks(writer, chunks);
    if ok {
      ok := writer.Finish();
      if ok {
        Finished(writer.chip.reliable, writer.chip.cells, cells, all);
      }
    }
    if !ok {
      writer.Abort();
    }
  }

  /** The chunks one after the other, until one of them fails. */
  method WriteChunks(writer: FlashWriter, chunks: seq<seq<byte>>) returns (ok: bool)
    requires writer.Valid() && writer.active && writer.written == [] && writer.clean
    requires writer.length == |Flatten(chunks)|
    modifies writer`address, writer`pageUsed, writer`clean, writer`written, writer.page, writer.chip
    ensures writer.Valid() && writer.active
    ensures ok ==> writer.clean && writer.written == Flatten(chunks)
    ensures writer.chip.reliable && NoneEmpty(chunks) ==> ok
  {
    ok := true;
    var index := 0;
    while index < |chunks| && ok
      invariant index <= |chunks| && writer.Valid() && writer.active
      invariant ok ==> writer.clean && writer.written == Flatten(chunks[..index])
      invariant writer.chip.reliable && NoneEmpty(chunks) ==> ok
      decreases |chunks| - index
    {
      FlattenStep(chunks, index);
      FlattenPrefix(chunks, index + 1);
      ok := writer.Write(chunks[index]);
      index := index + 1;
    }
    assert chunks[..|chunks|] == chunks;
  }

  /** A working, unlocked chip that the bitstream fits, and no empty chunk. */
  ghost predicate Writable(chip: Chip, chunks: seq<seq<byte>>, capacity: nat) {
    chip.reliable && !chip.locked && NoneEmpty(chunks) && 0 < |Flatten(chunks)| <= capacity
  }

  predicate NoneEmpty(chunks: seq<seq<byte>>) {
    forall i :: 0 <= i < |chunks| ==> chunks[i] != []
  }

  method TotalLength(chunks: seq<seq<byte>>) returns (n: nat)
    ensures n == |Flatten(chunks)|
  {
    n := 0;
    for i := 0 to |chunks|
      invariant n == |Flatten(chunks[..i])|
    {
      FlattenStep(chunks, i);
      n := n + |chunks[i]|;
    }
    assert chunks[..|chunks|] == chunks;
  }

  lemma FlattenPrefix(chunks: seq<seq<byte>>, n: nat)
    requires n <= |chunks|
    ensures |Flatten(chunks[..n])| <= |Flatten(chunks)|
  {
    assert chunks == chunks[..n] + chunks[n..];
    FlattenAppend(chunks[..n], chunks[n..]);
  }

  lemma NothingFlashed(cells: seq<byte>)
    ensures Flashed(cells, []) == cells && Plan(0) == []
  {
    assert CeilBlock(0) == 0;
  }

  // ----- How much of the stream is there

  lemma Finished(reliable: bool, cells: seq<byte>, initial: seq<byte>, data: seq<byte>)
    requires |data| <= |initial| && |initial| % BLOCK == 0 && Held(reliable, cells, initial, data, |data|)
    ensures reliable ==> cells == Wrapped(initial, data)
    ensures |data| <= ADDRESS_SPACE ==>
              && CeilBlock(|data|) <= |cells| == |initial| && WirePlan(Plan(|data|)) == Plan(|data|)
              && cells[..|data|] == data && cells[CeilBlock(|data|)..] == initial[CeilBlock(|data|)..]
  {
    CeilFits(|data|, |initial|);
    if reliable {
      HeldWrapped(cells, initial, data, |data|);
    }
    if |data| <= ADDRESS_SPACE {
      WireSame(|data|);
      FirstLap(reliable, cells, initial, data);
    }
  }

  /** Up to 2^24 bytes the last lap is all there is. */
  lemma FirstLap(reliable: bool, cells: seq<byte>, initial: seq<byte>, data: seq<byte>)
    requires |data| <= ADDRESS_SPACE && |data| <= |initial| && Held(reliable, cells, initial, data, |data|)
    requires CeilBlock(|data|) <= |initial|
    ensures |cells| == |initial|
    ensures cells[..|data|] == data && cells[CeilBlock(|data|)..] == initial[CeilBlock(|data|)..]
  {
    if |data| == ADDRESS_SPACE {
      var base := LapLeaves(initial, data);
      assert Held(reliable, cells, base, Rest(data), 0);
      assert CeilBlock(0) == 0 && cells[0..] == cells && base[0..] == base;
      assert base == data + initial[|data|..];
    }
  }

  /** The last lap of a stream, full laps not counted, and the full lap before it. */
  function LastLap(data: seq<byte>): (tail: seq<byte>)
    ensures |tail| < ADDRESS_SPACE
    decreases |data|
  {
    if |data| < ADDRESS_SPACE then data else LastLap(Rest(data))
  }

  function PriorLap(data: seq<byte>): (lap: seq<byte>)
    requires |data| >= ADDRESS_SPACE
    ensures |lap| == ADDRESS_SPACE
    decreases |data|
  {
    if |data| < 2 * ADDRESS_SPACE then data[..ADDRESS_SPACE] else PriorLap(Rest(data))
  }

  /** What a working chip holds in the cells that three address bytes reach, after a lap or more. */
  function Reached(data: seq<byte>): (cells: seq<byte>)
    requires |data| >= ADDRESS_SPACE
    ensures |cells| == ADDRESS_SPACE
  {
    var tail := LastLap(data);
    TailFits(tail);
    tail + Fill(CeilBlock(|tail|) - |tail|, ERASED) + PriorLap(data)[CeilBlock(|tail|)..]
  }

  lemma TailFits(tail: seq<byte>)
    requires |tail| <= ADDRESS_SPACE
    ensures CeilBlock(|tail|) <= ADDRESS_SPACE
  {
    CeilFits(|tail|, ADDRESS_SPACE);
  }

  /** Behind the cells that three address bytes reach nothing ever changes. */
  lemma {:induction false} WrappedIs(initial: seq<byte>, data: seq<byte>)
    requires ADDRESS_SPACE <= |data| <= |initial| && |initial| % BLOCK == 0
    ensures Wrapped(initial, data) == Reached(data) + initial[ADDRESS_SPACE..]
    decreases |data|
  {
    var base, rest := LapLeaves(initial, data), Rest(data);
    if |rest| >= ADDRESS_SPACE {
      WrappedIs(base, rest);
      assert base[ADDRESS_SPACE..] == initial[ADDRESS_SPACE..];
    } else {
      TailFits(rest);
      SecondLap(base, data[..ADDRESS_SPACE], initial[ADDRESS_SPACE..], rest);
      assert Wrapped(initial, data) == Wrapped(base, rest) == Flashed(base, rest);
      assert LastLap(data) == rest && PriorLap(data) == data[..ADDRESS_SPACE];
    }
  }

  lemma SecondLap(base: seq<byte>, first: seq<byte>, behind: seq<byte>, tail: seq<byte>)
    requires base == first + behind && CeilBlock(|tail|) <= |first|
    ensures Flashed(base, tail) == tail + Fill(CeilBlock(|tail|) - |tail|, ERASED) + first[CeilBlock(|tail|)..] + behind
  {
    assert base[CeilBlock(|tail|)..] == first[CeilBlock(|tail|)..] + behind;
  }

  /**
   * On a working chip, whatever the length, a programming session leaves the stream stored exactly
   * when three address bytes reach all of it, or its beginning happens to be what the last laps leave
   * and the cells past 2^24 happen to hold their part already: the begin that accepts such a length
   * promises too much.
   */
  lemma StoredExactly(initial: seq<byte>, data: seq<byte>)
    requires |data| <= |initial| && |initial| % BLOCK == 0
    ensures Wrapped(initial, data)[..|data|] == data <==>
              || |data| <= ADDRESS_SPACE
              || (data[..ADDRESS_SPACE] == Reached(data) && initial[ADDRESS_SPACE..|data|] == data[ADDRESS_SPACE..])
  {
    if |data| >= ADDRESS_SPACE {
      WrappedIs(initial, data);
      SplitAt(Wrapped(initial, data), Reached(data), initial, data);
      if |data| == ADDRESS_SPACE {
        OneLap(data);
      }
    }
  }

  lemma OneLap(data: seq<byte>)
    requires |data| == ADDRESS_SPACE
    ensures Reached(data) == data
  {
    assert Rest(data) == [] == LastLap(data);
    assert CeilBlock(0) == 0;
  }

  lemma SplitAt(cells: seq<byte>, first: seq<byte>, initial: seq<byte>, data: seq<byte>)
    requires |first| <= |data| <= |initial| && cells == first + initial[|first|..]
    ensures cells[..|data|] == data <==> data[..|first|] == first && initial[|first|..|data|] == data[|first|..]
  {
    assert cells[..|data|] == first + initial[|first|..|data|];
    assert data == data[..|first|] + data[|first|..];
    if cells[..|data|] == data {
      assert first == cells[..|data|][..|first|];
      assert initial[|first|..|data|] == cells[..|data|][|first|..];
    }
  }

  /** The same of a stream of less than two laps: `data` is the first and `tail` is what wraps. */
  lemma TailTooFar(initial: seq<byte>, data: seq<byte>, tail: seq<byte>)
    requires |data| == ADDRESS_SPACE && 0 < |tail| < ADDRESS_SPACE
    requires |data| + |tail| <= |initial| && |initial| % BLOCK == 0
    ensures CeilBlock(|tail|) <= |data|
    ensures Wrapped(initial, data + tail)[..|data| + |tail|] == data + tail <==>
              && data[..CeilBlock(|tail|)] == tail + Fill(CeilBlock(|tail|) - |tail|, ERASED)
              && initial[|data|..|data| + |tail|] == tail
  {
    var all := data + tail;
    TailFits(tail);
    assert Rest(all) == tail && all[..ADDRESS_SPACE] == data && all[ADDRESS_SPACE..] == tail;
    assert LastLap(all) == LastLap(tail) == tail && PriorLap(all) == data;
    StoredExactly(initial, all);
    SameHead(data, tail + Fill(CeilBlock(|tail|) - |tail|, ERASED));
  }

  lemma SameHead(data: seq<byte>, head: seq<byte>)
    requires |head| <= |data|
    ensures data == head + data[|head|..] <==> data[..|head|] == head
  {
    assert data == data[..|head|] + data[|head|..];
    if data == head + data[|head|..] {
      assert data[..|head|] == (head + data[|head|..])[..|head|];
    }
  }

  /** A bitstream of zeros, 2^24 of them and then a one, is not what a working chip holds after it. */
  lemma LongStreamLost(initial: seq<byte>, data: seq<byte>)
    requires data == Fill(ADDRESS_SPACE, 0) + [1] && |data| <= |initial| && |initial| % BLOCK == 0
    ensures Wrapped(initial, data)[..|data|] != data
  {
    var zeros := Fill(ADDRESS_SPACE, 0);
    TailTooFar(initial, zeros, [1]);
    var head := [1] + Fill(CeilBlock(1) - 1, ERASED);
    assert zeros[..|head|][0] == 0 && head[0] == 1;
  }

  /** Whatever the chip, the session ends with the last lap over the lap before it. */
  lemma {:induction false} HeldLast(reliable: bool, cells: seq<byte>, initial: seq<byte>, data: seq<byte>)
    requires ADDRESS_SPACE <= |data| <= |initial| && |initial| % BLOCK == 0
    requires Held(reliable, cells, initial, data, |data|)
    ensures var tail, ceil := LastLap(data), CeilBlock(|LastLap(data)|);
            && ceil <= ADDRESS_SPACE && |cells| == |initial|
            && cells[..|tail|] == tail && cells[ceil..] == PriorLap(data)[ceil..] + initial[ADDRESS_SPACE..]
    decreases |data|
  {
    var base, rest := LapLeaves(initial, data), Rest(data);
    if |rest| >= ADDRESS_SPACE {
      HeldLast(reliable, cells, base, rest);
      assert base[ADDRESS_SPACE..] == initial[ADDRESS_SPACE..];
    } else {
      TailFits(rest);
      assert base[CeilBlock(|rest|)..] == data[..ADDRESS_SPACE][CeilBlock(|rest|)..] + initial[ADDRESS_SPACE..];
    }
  }

  /**
   * Whatever the chip, failing silently or not: a session of more than 2^24 bytes that reports
   * success can have stored the stream only if its last lap repeats its beginning, the lap before
   * repeats the rest of it, and the cells past 2^24 held their part already.
   */
  lemma StoredNeeds(reliable: bool, cells: seq<byte>, initial: seq<byte>, data: seq<byte>)
    requires ADDRESS_SPACE < |data| <= |initial| && |initial| % BLOCK == 0
    requires Held(reliable, cells, initial, data, |data|) && |cells| == |initial| && cells[..|data|] == data
    ensures var tail, ceil := LastLap(data), CeilBlock(|LastLap(data)|);
            && ceil <= ADDRESS_SPACE && data[..|tail|] == tail
            && data[ceil..ADDRESS_SPACE] == PriorLap(data)[ceil..]
            && initial[ADDRESS_SPACE..|data|] == data[ADDRESS_SPACE..]
  {
    HeldLast(reliable, cells, initial, data);
    var tail, ceil := LastLap(data), CeilBlock(|LastLap(data)|);
    PartsOf(cells, data, tail, ceil, PriorLap(data)[ceil..], initial[ADDRESS_SPACE..]);
    assert initial[ADDRESS_SPACE..|data|] == initial[ADDRESS_SPACE..][..|data| - ADDRESS_SPACE];
  }

  lemma PartsOf(cells: seq<byte>, data: seq<byte>, tail: seq<byte>, ceil: nat, prior: seq<byte>, behind: seq<byte>)
    requires |tail| <= ceil && ceil + |prior| <= |data| <= |cells| == ceil + |prior| + |behind|
    requires cells[..|tail|] == tail && cells[ceil..] == prior + behind && cells[..|data|] == data
    ensures data[..|tail|] == tail && data[ceil..ceil + |prior|] == prior
    ensures data[ceil + |prior|..] == behind[..|data| - ceil - |prior|]
  {
    assert data[ceil..] == cells[ceil..][..|data| - ceil];
    assert data[..|tail|] == cells[..|tail|];
    assert data[ceil..ceil + |prior|] == data[ceil..][..|prior|];
    assert data[ceil + |prior|..] == data[ceil..][|prior|..];
  }
}
