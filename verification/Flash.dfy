/**
 * The configuration Flash: what its commands do to the cells, and what a sequential, page-buffered
 * write of a bitstream from address zero has to achieve.
 */
module Flash {
  import opened Bytes

  const PAGE: nat := 256
  const BLOCK: nat := 65536
  const ERASED: byte := 0xFF

  // ----- What the commands do

  /** Programming can only clear bits. */
  function And8(a: byte, b: byte): byte {
    ((a as bv8) & (b as bv8)) as int
  }

  /** Replaces the cells from `at` on by as many new ones. */
  function Overlay(cells: seq<byte>, at: nat, fresh_: seq<byte>): (r: seq<byte>)
    requires at + |fresh_| <= |cells|
    ensures |r| == |cells|
  {
    cells[..at] + fresh_ + cells[at + |fresh_|..]
  }

  function EraseBlock(cells: seq<byte>, at: nat): (r: seq<byte>)
    requires at + BLOCK <= |cells|
  {
    Overlay(cells, at, Fill(BLOCK, ERASED))
  }

  function Masked(old_: seq<byte>, data: seq<byte>): (r: seq<byte>)
    requires |old_| == |data|
    ensures |r| == |data| && forall k :: 0 <= k < |r| ==> r[k] == And8(old_[k], data[k])
  {
    if data == [] then []
    else Masked(old_[..|data| - 1], data[..|data| - 1]) + [And8(old_[|data| - 1], data[|data| - 1])]
  }

  function ProgramCells(cells: seq<byte>, at: nat, data: seq<byte>): (r: seq<byte>)
    requires at + |data| <= |cells|
  {
    Overlay(cells, at, Masked(cells[at..at + |data|], data))
  }

  // ----- The plan of a whole write

  datatype Op = Erase(at: nat) | Program(at: nat, count: nat)

  /** What flushing the page buffer does: a page that opens a block erases the block first. */
  function FlushOps(address: nat, count: nat): (ops: seq<Op>)
  {
    (if address % BLOCK == 0 then [Erase(address)] else []) + [Program(address, count)]
  }

  function PagesPlan(pages: nat): seq<Op> {
    if pages == 0 then [] else PagesPlan(pages - 1) + FlushOps((pages - 1) * PAGE, PAGE)
  }

  /** All commands of a write of `length` bytes: whole pages, then what is left. */
  function Plan(length: nat): seq<Op> {
    PagesPlan(length / PAGE) + (if length % PAGE == 0 then [] else FlushOps(length / PAGE * PAGE, length % PAGE))
  }

  function CeilBlock(length: nat): (r: nat)
    ensures length <= r < length + BLOCK && r % BLOCK == 0
  {
    if length % BLOCK == 0 then length else length - length % BLOCK + BLOCK
  }

  function BlockOf(address: nat): (r: nat)
    ensures r <= address < r + BLOCK && r % BLOCK == 0
  {
    address - address % BLOCK
  }

  /** The rules every command of a write of `length` bytes obeys, given the commands before it. */
  predicate Obeys(ops: seq<Op>, i: nat, length: nat)
    requires i < |ops|
  {
    match ops[i]
    case Erase(at) =>
      // A block is erased before any of it is programmed.
      at % BLOCK == 0 && at < length && forall j :: 0 <= j < i && ops[j].Program? ==> ops[j].at + ops[j].count <= at
    case Program(at, count) =>
      // One page at most, inside the stream, in an erased block, and never a byte twice.
      && 0 < count && at % PAGE == 0 && count <= PAGE && at + count <= length
      && Erase(BlockOf(at)) in ops[..i]
      && forall j :: 0 <= j < i && ops[j].Program? ==> ops[j].at + ops[j].count <= at
  }

  predicate Disciplined(ops: seq<Op>, length: nat) {
    forall i :: 0 <= i < |ops| ==> Obeys(ops, i, length)
  }

  /** Every byte of the stream is programmed by some command. */
  predicate Covers(ops: seq<Op>, length: nat) {
    forall k :: 0 <= k < length ==> Programmed(ops, k)
  }

  predicate Programmed(ops: seq<Op>, k: nat) {
    exists op :: op in ops && op.Program? && op.at <= k < op.at + op.count
  }

  /** The block under way has been erased. */
  predicate BlockOpen(ops: seq<Op>, length: nat) {
    length % BLOCK != 0 ==> Erase(BlockOf(length)) in ops
  }

  lemma FlushDisciplined(ops: seq<Op>, address: nat, count: nat, total: nat)
    requires Disciplined(ops, address) && BlockOpen(ops, address)
    requires address % PAGE == 0 && 0 < count <= PAGE && total == address + count
    ensures Disciplined(ops + FlushOps(address, count), total)
  {
    var more := ops + FlushOps(address, count);
    var last := |more| - 1;
    forall i | 0 <= i < |more| ensures Obeys(more, i, total) {
      if i < |ops| {
        assert Obeys(ops, i, address) && more[..i] == ops[..i];
      } else {
        assert forall j :: 0 <= j < |ops| ==> more[j] == ops[j] && Obeys(ops, j, address);
        if i == last {
          LastErased(ops, address, count);
        }
      }
    }
  }

  /** The block of the page that comes next is open once its own erase, if it needs one, is done. */
  lemma LastErased(ops: seq<Op>, address: nat, count: nat)
    requires BlockOpen(ops, address)
    ensures var more := ops + FlushOps(address, count); Erase(BlockOf(address)) in more[..|more| - 1]
  {
    var more := ops + FlushOps(address, count);
    assert more[..|more| - 1] == ops + (if address % BLOCK == 0 then [Erase(address)] else []);
  }

  lemma FlushCovers(ops: seq<Op>, address: nat, count: nat, total: nat)
    requires Covers(ops, address) && total == address + count
    ensures Covers(ops + FlushOps(address, count), total)
  {
    var more := ops + FlushOps(address, count);
    assert Program(address, count) in more;
    forall k: nat | k < total ensures Programmed(more, k) {
      if k < address {
        assert Programmed(ops, k);
      }
    }
  }

  lemma FlushObeys(ops: seq<Op>, address: nat, count: nat)
    requires Disciplined(ops, address) && Covers(ops, address) && BlockOpen(ops, address)
    requires address % PAGE == 0 && 0 < count <= PAGE
    ensures var more := ops + FlushOps(address, count);
            && Disciplined(more, address + count) && Covers(more, address + count)
            && (count == PAGE ==> BlockOpen(more, address + count))
  {
    FlushDisciplined(ops, address, count, address + count);
    FlushCovers(ops, address, count, address + count);
    if count == PAGE && (address + PAGE) % BLOCK != 0 {
      SameBlock(address);
      LastErased(ops, address, count);
    }
  }

  lemma Position(address: nat, q: nat, r: nat)
    requires address == q * BLOCK + r && r < BLOCK
    ensures address % BLOCK == r && BlockOf(address) == q * BLOCK
  {
  }

  lemma PageInBlock(address: nat, q: nat, r: nat)
    requires address == q * BLOCK + r && r < BLOCK && address % PAGE == 0
    ensures r % PAGE == 0 && r + PAGE <= BLOCK
  {
    assert address == PAGE * (256 * q) + r;
  }

  lemma SameBlock(address: nat)
    requires address % PAGE == 0 && (address + PAGE) % BLOCK != 0
    ensures BlockOf(address + PAGE) == BlockOf(address)
  {
    var q, r := address / BLOCK, address % BLOCK;
    PageInBlock(address, q, r);
    Position(address, q, r);
    Position((q + 1) * BLOCK, q + 1, 0);
    assert r + PAGE != BLOCK;
    Position(address + PAGE, q, r + PAGE);
  }

  /** The commands so far obey the rules, cover the stream so far, and have its block open. */
  ghost predicate Lawful(ops: seq<Op>, length: nat) {
    Disciplined(ops, length) && Covers(ops, length) && BlockOpen(ops, length)
  }

  lemma PageLawful(ops: seq<Op>, address: nat, next: nat)
    requires Lawful(ops, address) && address % PAGE == 0 && next == address + PAGE
    ensures Lawful(ops + FlushOps(address, PAGE), next)
  {
    FlushObeys(ops, address, PAGE);
  }

  lemma {:induction false} PagesObey(pages: nat)
    ensures Lawful(PagesPlan(pages), pages * PAGE)
  {
    if pages > 0 {
      PagesObey(pages - 1);
      PageLawful(PagesPlan(pages - 1), (pages - 1) * PAGE, pages * PAGE);
    }
  }

  /**
   * For every length: each program command stays inside one page and inside the stream, its block
   * was erased before and not after it, no byte is programmed twice, and every byte is programmed.
   */
  lemma PlanDisciplined(length: nat)
    ensures Disciplined(Plan(length), length) && Covers(Plan(length), length)
  {
    PagesObey(length / PAGE);
    if length % PAGE != 0 {
      FlushObeys(PagesPlan(length / PAGE), length / PAGE * PAGE, length % PAGE);
    } else {
      assert Plan(length) == PagesPlan(length / PAGE);
    }
  }

  // ----- What a working chip ends up with

  /** A stream, erased cells behind it, and the rest. */
  function Shape(data: seq<byte>, gap: nat, rest: seq<byte>): (r: seq<byte>)
    ensures |r| == |data| + gap + |rest|
  {
    data + Fill(gap, ERASED) + rest
  }

  /** The stream, the rest of its last block erased, and everything else as it was. */
  function Flashed(cells: seq<byte>, data: seq<byte>): (r: seq<byte>)
    requires CeilBlock(|data|) <= |cells|
  {
    Shape(data, CeilBlock(|data|) - |data|, cells[CeilBlock(|data|)..])
  }

  function FlushCells(cells: seq<byte>, address: nat, data: seq<byte>): seq<byte>
    requires address + |data| <= |cells| && (address % BLOCK == 0 ==> address + BLOCK <= |cells|)
  {
    ProgramCells(if address % BLOCK == 0 then EraseBlock(cells, address) else cells, address, data)
  }

  lemma AndErased(b: byte)
    ensures And8(ERASED, b) == b
  {
  }

  lemma MaskedErased(data: seq<byte>)
    ensures Masked(Fill(|data|, ERASED), data) == data
    decreases |data|
  {
    forall k | 0 <= k < |data| ensures Masked(Fill(|data|, ERASED), data)[k] == data[k] {
      AndErased(data[k]);
    }
  }

  lemma CeilWithin(address: nat, count: nat)
    requires address % PAGE == 0 && 0 < count <= PAGE
    ensures CeilBlock(address + count) == if address % BLOCK == 0 then address + BLOCK else CeilBlock(address)
    ensures address % BLOCK == 0 ==> CeilBlock(address) == address
  {
    var q, r := address / BLOCK, address % BLOCK;
    PageInBlock(address, q, r);
    if r + count == BLOCK {
      Position(address + count, q + 1, 0);
    } else {
      Position(address + count, q, r + count);
    }
  }

  lemma EraseShape(data: seq<byte>, rest: seq<byte>)
    requires BLOCK <= |rest|
    ensures EraseBlock(Shape(data, 0, rest), |data|) == Shape(data, BLOCK, rest[BLOCK..])
  {
  }

  lemma ProgramShape(data: seq<byte>, gap: nat, rest: seq<byte>, page: seq<byte>)
    requires |page| <= gap
    ensures ProgramCells(Shape(data, gap, rest), |data|, page) == Shape(data + page, gap - |page|, rest)
  {
    var cells := Shape(data, gap, rest);
    assert cells[|data|..|data| + |page|] == Fill(|page|, ERASED);
    MaskedErased(page);
  }

  /** The first page of a block. */
  lemma FlushFirst(cells: seq<byte>, data: seq<byte>, page: seq<byte>)
    requires |data| % BLOCK == 0 && 0 < |page| <= PAGE && |data| + BLOCK <= |cells|
    ensures FlushCells(Shape(data, 0, cells[|data|..]), |data|, page)
         == Shape(data + page, BLOCK - |page|, cells[|data| + BLOCK..])
  {
    var rest := cells[|data|..];
    EraseShape(data, rest);
    assert rest[BLOCK..] == cells[|data| + BLOCK..];
    ProgramShape(data, BLOCK, rest[BLOCK..], page);
  }

  /** Any other page. */
  lemma FlushNext(rest: seq<byte>, data: seq<byte>, gap: nat, page: seq<byte>)
    requires |data| % BLOCK != 0 && |page| <= gap
    ensures FlushCells(Shape(data, gap, rest), |data|, page) == Shape(data + page, gap - |page|, rest)
  {
    ProgramShape(data, gap, rest, page);
  }

  /** On a working chip one flush extends the stream by one page, whatever the cells held before. */
  lemma FlushExtends(cells: seq<byte>, data: seq<byte>, page: seq<byte>)
    requires |data| % PAGE == 0 && 0 < |page| <= PAGE && CeilBlock(|data| + |page|) <= |cells|
    ensures CeilBlock(|data|) <= |cells| && |Flashed(cells, data)| == |cells|
    ensures |data| % BLOCK == 0 ==> |data| + BLOCK <= |cells|
    ensures FlushCells(Flashed(cells, data), |data|, page) == Flashed(cells, data + page)
  {
    CeilWithin(|data|, |page|);
    if |data| % BLOCK == 0 {
      ExtendsOpening(cells, data, page);
    } else {
      ExtendsInside(cells, data, page, CeilBlock(|data|));
    }
  }

  lemma ExtendsOpening(cells: seq<byte>, data: seq<byte>, page: seq<byte>)
    requires |data| % BLOCK == 0 && 0 < |page| <= PAGE && |data| + BLOCK <= |cells|
    requires CeilBlock(|data|) == |data| && CeilBlock(|data + page|) == |data| + BLOCK
    ensures |Flashed(cells, data)| == |cells|
    ensures FlushCells(Flashed(cells, data), |data|, page) == Flashed(cells, data + page)
  {
    FlushOpening(cells, data, page, 0, BLOCK - |page|);
  }

  lemma ExtendsInside(cells: seq<byte>, data: seq<byte>, page: seq<byte>, ceil: nat)
    requires |data| % BLOCK != 0 && |data| + |page| <= ceil <= |cells|
    requires CeilBlock(|data|) == ceil == CeilBlock(|data + page|)
    ensures |Flashed(cells, data)| == |cells|
    ensures FlushCells(Flashed(cells, data), |data|, page) == Flashed(cells, data + page)
  {
    var rest := cells[ceil..];
    FlushInside(Flashed(cells, data), Flashed(cells, data + page), rest, data, page, ceil - |data|);
  }

  lemma FlushOpening(cells: seq<byte>, data: seq<byte>, page: seq<byte>, before: nat, after: nat)
    requires |data| % BLOCK == 0 && 0 < |page| <= PAGE && |data| + BLOCK <= |cells|
    requires before == 0 && after == BLOCK - |page|
    ensures FlushCells(Shape(data, before, cells[|data|..]), |data|, page)
         == Shape(data + page, after, cells[|data| + BLOCK..])
  {
    FlushFirst(cells, data, page);
  }

  lemma FlushInside(cells: seq<byte>, after: seq<byte>, rest: seq<byte>, data: seq<byte>, page: seq<byte>, gap: nat)
    requires |data| % BLOCK != 0 && |page| <= gap
    requires cells == Shape(data, gap, rest) && after == Shape(data + page, gap - |page|, rest)
    ensures FlushCells(cells, |data|, page) == after
  {
    FlushNext(rest, data, gap, page);
  }

  lemma PlanFlush(address: nat, count: nat)
    requires address % PAGE == 0 && 0 < count <= PAGE
    ensures Plan(address + count) == Plan(address) + FlushOps(address, count)
  {
    var pages := address / PAGE;
    if count == PAGE {
      PlanWhole(pages, address);
      PlanWhole(pages + 1, address + PAGE);
      PlanPage(pages, address);
    } else {
      PlanWhole(pages, address);
      PlanPart(pages, address, count);
    }
  }

  lemma PlanWhole(pages: nat, length: nat)
    requires length == PAGE * pages
    ensures Plan(length) == PagesPlan(pages)
  {
    assert length / PAGE == pages;
  }

  lemma PlanPage(pages: nat, address: nat)
    requires address == PAGE * pages
    ensures PagesPlan(pages + 1) == PagesPlan(pages) + FlushOps(address, PAGE)
  {
  }

  lemma PlanPart(pages: nat, address: nat, rest: nat)
    requires address == PAGE * pages && 0 < rest < PAGE
    ensures Plan(address + rest) == PagesPlan(pages) + FlushOps(address, rest)
  {
    assert (address + rest) / PAGE == pages && (address + rest) % PAGE == rest;
  }
}
