/**
 * The interleaved sector allocator shared by the desktop builder and the firmware builder.
 *
 * A cartridge has 255 sectors.  Sector 0 holds the map and sector 254 is marked damaged; the other
 * 253 are handed out one by one, each time looking downwards (cyclically) from a moving position.
 * After every block the allocator also looks ahead, 13 sectors further down, for the position of
 * the next block, and that look-ahead must succeed too.
 */
module QlayAllocator {
  import opened Bytes

  const SECTOR_COUNT: nat := 255
  const FREE_SECTOR: nat := 0xFD
  const DAMAGED_SECTOR: nat := 0xFF
  const MAP_FILE: nat := 0xF8
  /** Sectors that are neither the map nor the damaged one. */
  const USABLE: nat := 253
  /** The look-ahead needs one free sector after the last block. */
  const CAPACITY: nat := 252

  /** What the map records for one sector: a file number and a block number of that file. */
  datatype Slot = Slot(file: nat, block: nat)

  /** The allocator's state; `taken` lists the sectors in the order they were handed out. */
  datatype Placement = Placement(slots: seq<Slot>, current: nat, taken: seq<nat>)

  function Below(sector: nat): (r: nat)
    requires sector < SECTOR_COUNT
    ensures r < SECTOR_COUNT
  {
    if sector == 0 then SECTOR_COUNT - 1 else sector - 1
  }

  predicate IsFree(slots: seq<Slot>, sector: nat) {
    sector < |slots| && slots[sector].file == FREE_SECTOR
  }

  /** The first free sector at or below `after`, giving up after `tries` candidates. */
  function FirstFree(slots: seq<Slot>, after: nat, tries: nat): (r: Outcome<nat>)
    requires |slots| == SECTOR_COUNT && after < SECTOR_COUNT
    ensures r.Done? ==> IsFree(slots, r.value)
    decreases tries
  {
    if tries == 0 then Rejected
    else if IsFree(slots, after) then Done(after)
    else FirstFree(slots, Below(after), tries - 1)
  }

  /** How many steps down, cyclically, lead from `after` to `sector`. */
  function Distance(after: nat, sector: nat): nat
    requires after < SECTOR_COUNT && sector < SECTOR_COUNT
  {
    if sector <= after then after - sector else after + SECTOR_COUNT - sector
  }

  /** The search misses no free sector that lies within its number of tries. */
  lemma {:induction false} FirstFreeFinds(slots: seq<Slot>, after: nat, tries: nat, sector: nat)
    requires |slots| == SECTOR_COUNT && after < SECTOR_COUNT && IsFree(slots, sector)
    requires Distance(after, sector) < tries
    ensures FirstFree(slots, after, tries).Done?
    ensures Distance(after, FirstFree(slots, after, tries).value) <= Distance(after, sector)
    decreases tries
  {
    if !IsFree(slots, after) {
      FirstFreeFinds(slots, Below(after), tries - 1, sector);
      var found := FirstFree(slots, Below(after), tries - 1).value;
      assert found != after;
    }
  }

  /** The search as the program runs it: at most 255 candidates, moving down and around. */
  method Allocate(slots: seq<Slot>, after: nat) returns (r: Outcome<nat>)
    requires |slots| == SECTOR_COUNT && after < SECTOR_COUNT
    ensures r == FirstFree(slots, after, |slots|)
    ensures r.Done? <==> exists s :: IsFree(slots, s)
    ensures r.Done? ==> forall s :: IsFree(slots, s) ==> Distance(after, r.value) <= Distance(after, s)
  {
    forall s | IsFree(slots, s)
      ensures FirstFree(slots, after, |slots|).Done?
      ensures Distance(after, FirstFree(slots, after, |slots|).value) <= Distance(after, s)
    {
      FirstFreeFinds(slots, after, |slots|, s);
    }
    var candidate := after;
    var count := 0;
    while count < SECTOR_COUNT
      invariant 0 <= count <= SECTOR_COUNT && 0 <= candidate < SECTOR_COUNT
      invariant FirstFree(slots, after, |slots|) == FirstFree(slots, candidate, |slots| - count)
    {
      if slots[candidate].file == FREE_SECTOR {
        return Done(candidate);
      }
      candidate := if candidate == 0 then SECTOR_COUNT - 1 else candidate - 1;
      count := count + 1;
    }
    return Rejected;
  }

  function InitialSlot(sector: nat): Slot {
    if sector == 0 then Slot(MAP_FILE, 0)
    else if sector == 254 then Slot(DAMAGED_SECTOR, 0)
    else Slot(FREE_SECTOR, 0)
  }

  function Initial(): (p: Placement)
    ensures |p.slots| == SECTOR_COUNT && forall s :: 0 <= s < SECTOR_COUNT ==> p.slots[s] == InitialSlot(s)
  {
    Placement(seq(SECTOR_COUNT, (s: nat) => InitialSlot(s)), 245, [])
  }

  /** Where the look-ahead starts after a block went to `sector`. */
  function Ahead(sector: nat): (r: nat)
    requires sector < SECTOR_COUNT
    ensures r < SECTOR_COUNT
  {
    (sector + SECTOR_COUNT - 13) % SECTOR_COUNT
  }

  /** Place one block: take the first free sector, then find the position for the next block. */
  function PlaceOne(p: Placement, want: Slot): (r: Outcome<Placement>)
    requires |p.slots| == SECTOR_COUNT && p.current < SECTOR_COUNT
    ensures r.Done? ==> |r.value.slots| == SECTOR_COUNT && r.value.current < SECTOR_COUNT
  {
    match FirstFree(p.slots, p.current, |p.slots|)
    case Rejected => Rejected
    case Done(sector) =>
      var slots := p.slots[sector := want];
      match FirstFree(slots, Ahead(sector), |slots|)
      case Rejected => Rejected
      case Done(next) => Done(Placement(slots, next, p.taken + [sector]))
  }

  /** Place a list of blocks in order. */
  function PlaceAll(wants: seq<Slot>): (r: Outcome<Placement>)
    ensures r.Done? ==> |r.value.slots| == SECTOR_COUNT && r.value.current < SECTOR_COUNT
  {
    if wants == [] then Done(Initial())
    else
      match PlaceAll(wants[..|wants| - 1])
      case Rejected => Rejected
      case Done(p) => PlaceOne(p, wants[|wants| - 1])
  }

  lemma PlaceAllSnoc(wants: seq<Slot>, want: Slot, p: Placement)
    requires PlaceAll(wants) == Done(p)
    ensures PlaceAll(wants + [want]) == PlaceOne(p, want)
  {
    assert (wants + [want])[..|wants + [want]| - 1] == wants;
  }

  /** No block may carry the number that marks a free sector. */
  predicate Placeable(wants: seq<Slot>) {
    forall i :: 0 <= i < |wants| && i <= CAPACITY ==> wants[i].file != FREE_SECTOR
  }

  predicate Distinct<T(==)>(s: seq<T>) {
    forall i, j :: 0 <= i < j < |s| ==> s[i] != s[j]
  }

  /**
   * What every reachable allocator state satisfies: the reserved sectors are untouched, the i-th
   * block is alone on the i-th sector taken, everything else is free, and the position for the
   * next block is a free sector.
   */
  ghost predicate Placed(p: Placement, wants: seq<Slot>) {
    && |p.slots| == SECTOR_COUNT
    && p.slots[0] == Slot(MAP_FILE, 0)
    && p.slots[254] == Slot(DAMAGED_SECTOR, 0)
    && |p.taken| == |wants|
    && Distinct(p.taken)
    && (forall i :: 0 <= i < |wants| ==> 0 < p.taken[i] < 254 && p.slots[p.taken[i]] == wants[i])
    && (forall s :: 0 < s < 254 && s !in p.taken ==> p.slots[s] == Slot(FREE_SECTOR, 0))
    && IsFree(p.slots, p.current)
  }

  /** The sectors 1 .. n - 1. */
  function Below1(n: nat): (u: set<nat>)
    requires 0 < n
    ensures |u| == n - 1
    ensures forall s :: s in u <==> 0 < s < n
  {
    if n == 1 then {} else Below1(n - 1) + {n - 1}
  }

  function Members(s: seq<nat>): set<nat> {
    set x | x in s
  }

  lemma {:induction false} DistinctSize(s: seq<nat>)
    requires Distinct(s)
    ensures |Members(s)| == |s|
  {
    if s == [] {
    } else {
      var init := s[..|s| - 1];
      DistinctSize(init);
      assert Members(s) == Members(init) + {s[|s| - 1]};
    }
  }

  /** A sector is free exactly when it is usable and no block took it. */
  lemma FreeIff(p: Placement, wants: seq<Slot>, s: nat)
    requires Placed(p, wants) && Placeable(wants) && |wants| <= USABLE
    ensures IsFree(p.slots, s) <==> 0 < s < 254 && s !in p.taken
  {
    if s in p.taken {
      var i :| 0 <= i < |p.taken| && p.taken[i] == s;
      assert p.slots[p.taken[i]] == wants[i];
    }
  }

  /** Free plus used is always 253. */
  lemma FreeCount(p: Placement, wants: seq<Slot>)
    requires Placed(p, wants) && Placeable(wants) && |wants| <= USABLE
    ensures |FreeSectors(p.slots)| + |wants| == USABLE
  {
    var all, free, used := Below1(|p.slots| - 1), FreeSectors(p.slots), Members(p.taken);
    DistinctSize(p.taken);
    FreeIsRest(p, wants);
    assert used <= all;
  }

  lemma FreeIsRest(p: Placement, wants: seq<Slot>)
    requires Placed(p, wants) && Placeable(wants) && |wants| <= USABLE
    ensures FreeSectors(p.slots) == Below1(|p.slots| - 1) - Members(p.taken)
  {
    var rest := Below1(|p.slots| - 1) - Members(p.taken);
    forall s: nat ensures s in FreeSectors(p.slots) <==> s in rest {
      FreeIff(p, wants, s);
    }
  }

  function FreeSectors(slots: seq<Slot>): (free: set<nat>)
    ensures forall s :: s in free <==> IsFree(slots, s)
  {
    set s | 0 <= s < |slots| && IsFree(slots, s)
  }

  /** Placing on the current sector keeps all but the look-ahead part of the invariant. */
  lemma TakeCurrent(p: Placement, wants: seq<Slot>, want: Slot, next: nat)
    requires Placed(p, wants) && Placeable(wants + [want]) && |wants| <= CAPACITY
    requires IsFree(p.slots[p.current := want], next)
    ensures Placed(Placement(p.slots[p.current := want], next, p.taken + [p.current]), wants + [want])
  {
    assert forall i :: 0 <= i < |wants| ==> wants[i] == (wants + [want])[i];
    FreeIff(p, wants, p.current);
  }

  /** One placement: it succeeds exactly when a free sector will be left for the look-ahead. */
  lemma PlaceOneStep(p: Placement, wants: seq<Slot>, want: Slot)
    requires Placed(p, wants) && Placeable(wants + [want]) && |wants| <= CAPACITY
    ensures FirstFree(p.slots, p.current, |p.slots|) == Done(p.current)
    ensures PlaceOne(p, want).Done? <==> |wants| < CAPACITY
    ensures PlaceOne(p, want).Done? ==> Placed(PlaceOne(p, want).value, wants + [want])
  {
    assert forall i :: 0 <= i < |wants| ==> wants[i] == (wants + [want])[i];
    assert want == (wants + [want])[|wants|];
    FreeCount(p, wants);
    var slots := p.slots[p.current := want];
    assert FreeSectors(slots) == FreeSectors(p.slots) - {p.current};
    assert p.current in FreeSectors(p.slots);
    assert |FreeSectors(slots)| == |FreeSectors(p.slots)| - 1;
    if |wants| < CAPACITY {
      assert FreeSectors(slots) != {};
      var s :| s in FreeSectors(slots);
      FirstFreeFinds(slots, Ahead(p.current), |slots|, s);
      TakeCurrent(p, wants, want, FirstFree(slots, Ahead(p.current), |slots|).value);
    } else {
      assert FreeSectors(slots) == {};
      assert forall s: nat :: !(s in FreeSectors(slots));
    }
  }

  lemma InitialPlaced()
    ensures Placed(Initial(), [])
  {
  }

  ghost predicate AllocatesUpToCapacity(wants: seq<Slot>) {
    && (PlaceAll(wants).Done? <==> |wants| <= CAPACITY)
    && (PlaceAll(wants).Done? ==> Placed(PlaceAll(wants).value, wants))
  }

  lemma AllocatorStep(wants: seq<Slot>, want: Slot)
    requires AllocatesUpToCapacity(wants) && Placeable(wants + [want])
    ensures AllocatesUpToCapacity(wants + [want])
  {
    if |wants| <= CAPACITY {
      var p := PlaceAll(wants).value;
      PlaceOneStep(p, wants, want);
      PlaceAllSnoc(wants, want, p);
    } else {
      assert (wants + [want])[..|wants|] == wants;
      PlaceAllPrefix(wants + [want], |wants|);
    }
  }

  /** Every list of blocks: the allocation succeeds exactly up to 252 of them, and then places each. */
  lemma {:induction false} AllocatorCorrect(wants: seq<Slot>)
    requires Placeable(wants)
    ensures PlaceAll(wants).Done? <==> |wants| <= CAPACITY
    ensures PlaceAll(wants).Done? ==> Placed(PlaceAll(wants).value, wants)
  {
    if wants == [] {
      InitialPlaced();
    } else {
      var init, want := wants[..|wants| - 1], wants[|wants| - 1];
      AllocatorCorrect(init);
      assert wants == init + [want];
      AllocatorStep(init, want);
    }
  }

  lemma SectorOf(p: Placement, wants: seq<Slot>, i: nat, s: nat)
    requires Placed(p, wants) && Placeable(wants) && Distinct(wants) && i < |wants| <= CAPACITY
    requires s < SECTOR_COUNT && p.slots[s] == wants[i] && wants[i].file !in {MAP_FILE, DAMAGED_SECTOR}
    ensures s == p.taken[i]
  {
    assert s in p.taken;
    var j :| 0 <= j < |p.taken| && p.taken[j] == s;
    assert wants[j] == wants[i];
  }

  /** A usable sector is free or holds one of the requested blocks. */
  lemma Occupant(p: Placement, wants: seq<Slot>, s: nat) returns (i: nat)
    requires Placed(p, wants) && 0 < s < 254
    ensures s in p.taken ==> i < |wants| && p.taken[i] == s && p.slots[s] == wants[i]
    ensures s !in p.taken ==> p.slots[s] == Slot(FREE_SECTOR, 0)
  {
    i := 0;
    if s in p.taken {
      i :| 0 <= i < |p.taken| && p.taken[i] == s;
    }
  }

  /** A prefix of a list that fits also fits. */
  lemma {:induction false} PlaceAllPrefix(wants: seq<Slot>, n: nat)
    requires n <= |wants| && PlaceAll(wants[..n]).Rejected?
    ensures PlaceAll(wants).Rejected?
    decreases |wants|
  {
    if n < |wants| {
      assert wants[..|wants| - 1][..n] == wants[..n];
      PlaceAllPrefix(wants[..|wants| - 1], n);
    } else {
      assert wants[..n] == wants;
    }
  }

  // ----- Where the blocks go

  /** The sectors free once these are taken. */
  predicate StillFree(taken: seq<nat>, s: nat) {
    0 < s < 254 && s !in taken
  }

  /** Of the sectors still free, this is the first met going down and around from `after`. */
  ghost predicate NearestBelow(taken: seq<nat>, after: nat, sector: nat)
    requires after < SECTOR_COUNT
  {
    StillFree(taken, sector) && forall s: nat :: StillFree(taken, s) ==> Distance(after, sector) <= Distance(after, s)
  }

  /** The position for the next block: sector 245 at first, later the nearest free one 13 sectors further down. */
  ghost predicate AtNext(p: Placement) {
    if p.taken == [] then p.current == 245
    else
      var last := p.taken[|p.taken| - 1];
      NearestBelow(p.taken, (last + 242) % 255, p.current)
  }

  lemma NextAfter(p: Placement, wants: seq<Slot>, want: Slot)
    requires Placed(p, wants) && Placeable(wants + [want]) && |wants| < CAPACITY
    ensures var r := PlaceOne(p, want); r.Done? && AtNext(r.value) && r.value.taken == p.taken + [p.current]
  {
    PlaceOneStep(p, wants, want);
    var q := PlaceOne(p, want).value;
    var slots := p.slots[p.current := want];
    assert q == Placement(slots, FirstFree(slots, Ahead(p.current), |slots|).value, p.taken + [p.current]);
    var after := (p.current + 242) % 255;
    forall s: nat | StillFree(q.taken, s)
      ensures Distance(after, q.current) <= Distance(after, s)
    {
      FreeIff(q, wants + [want], s);
      FirstFreeFinds(slots, after, |slots|, s);
    }
    FreeIff(q, wants + [want], q.current);
  }

  /** The i-th block went where the look-ahead after the block before it had stopped. */
  ghost predicate Interleaved(p: Placement) {
    && AtNext(p)
    && (p.taken != [] ==> p.taken[0] == 245)
    && forall i :: 0 < i < |p.taken| ==> FollowsAt(p.taken, i)
  }

  ghost predicate FollowsAt(taken: seq<nat>, i: nat)
    requires 0 < i < |taken|
  {
    NearestBelow(taken[..i], (taken[i - 1] + 242) % 255, taken[i])
  }

  lemma InterleavedStep(p: Placement, q: Placement)
    requires Interleaved(p) && AtNext(q) && q.taken == p.taken + [p.current]
    ensures Interleaved(q)
  {
    forall i | 0 < i < |q.taken|
      ensures FollowsAt(q.taken, i)
    {
      if i < |p.taken| {
        assert FollowsAt(p.taken, i) && q.taken[..i] == p.taken[..i];
      } else {
        assert q.taken[..i] == p.taken;
      }
    }
  }

  /**
   * Where every block lands: the first on sector 245, each later one on the first free sector going
   * down and around from 13 sectors below the one before.
   */
  lemma {:induction false} BlocksInterleaved(wants: seq<Slot>)
    requires Placeable(wants) && |wants| <= CAPACITY
    ensures PlaceAll(wants).Done? && |PlaceAll(wants).value.taken| == |wants| && Interleaved(PlaceAll(wants).value)
  {
    if wants == [] {
    } else {
      var init, want := wants[..|wants| - 1], wants[|wants| - 1];
      assert wants == init + [want];
      BlocksInterleaved(init);
      AllocatorCorrect(init);
      var p := PlaceAll(init).value;
      NextAfter(p, init, want);
      InterleavedStep(p, PlaceOne(p, want).value);
    }
  }

  // ----- The requests of a list of streams, given the number of blocks of each

  function StreamWants(number: nat, count: nat): (w: seq<Slot>)
    ensures |w| == count && forall b :: 0 <= b < count ==> w[b] == Slot(number, b)
  {
    seq(count, b requires 0 <= b < count => Slot(number, b))
  }

  /** Stream after stream, block after block. */
  function Wants(counts: seq<nat>): seq<Slot> {
    if counts == [] then []
    else Wants(counts[..|counts| - 1]) + StreamWants(|counts| - 1, counts[|counts| - 1])
  }

  predicate IsBlock(counts: seq<nat>, slot: Slot) {
    slot.file < |counts| && slot.block < counts[slot.file]
  }

  predicate NoneEmpty(counts: seq<nat>) {
    forall i :: 0 <= i < |counts| ==> counts[i] > 0
  }

  /** Only blocks are requested, and blocks are numbered in order, so their numbers stay below the position. */
  lemma {:induction false} WantsBlocks(counts: seq<nat>)
    ensures forall i :: 0 <= i < |Wants(counts)| ==> IsBlock(counts, Wants(counts)[i]) && Wants(counts)[i].block <= i
  {
    if counts != [] {
      var init, n := counts[..|counts| - 1], |counts| - 1;
      WantsBlocks(init);
      var before, last := Wants(init), StreamWants(n, counts[n]);
      forall i | 0 <= i < |Wants(counts)|
        ensures IsBlock(counts, Wants(counts)[i]) && Wants(counts)[i].block <= i
      {
        if i < |before| {
          assert Wants(counts)[i] == before[i] && IsBlock(init, before[i]);
        } else {
          assert Wants(counts)[i] == last[i - |before|];
        }
      }
    }
  }

  /** If every stream has a block, file numbers stay below the position as well. */
  lemma {:induction false} WantsOrdered(counts: seq<nat>)
    requires NoneEmpty(counts)
    ensures |Wants(counts)| >= |counts|
    ensures forall i :: 0 <= i < |Wants(counts)| ==>
              Wants(counts)[i].file <= i && Wants(counts)[i].block <= i && IsBlock(counts, Wants(counts)[i])
  {
    WantsBlocks(counts);
    if counts != [] {
      var init, n := counts[..|counts| - 1], |counts| - 1;
      WantsOrdered(init);
      var before, last := Wants(init), StreamWants(n, counts[n]);
      forall i | 0 <= i < |Wants(counts)|
        ensures Wants(counts)[i].file <= i
      {
        if i < |before| {
          assert Wants(counts)[i] == before[i];
        } else {
          assert Wants(counts)[i] == last[i - |before|];
        }
      }
    }
  }

  /** Every stream after the first adds at least one request to those of the first. */
  lemma {:induction false} WantsLong(counts: seq<nat>)
    requires NoneEmpty(counts) && counts != []
    ensures |Wants(counts)| >= counts[0] + |counts| - 1
  {
    if |counts| > 1 {
      WantsLong(counts[..|counts| - 1]);
    } else {
      assert Wants(counts[..0]) == [];
    }
  }

  /** No block is requested twice. */
  lemma {:induction false} WantsDistinct(counts: seq<nat>)
    ensures Distinct(Wants(counts))
  {
    if counts != [] {
      var init := counts[..|counts| - 1];
      WantsDistinct(init);
      WantsBlocks(init);
      DistinctAppend(Wants(init), StreamWants(|counts| - 1, counts[|counts| - 1]));
    }
  }

  lemma DistinctAppend<T>(a: seq<T>, b: seq<T>)
    requires Distinct(a) && Distinct(b) && forall i, j :: 0 <= i < |a| && 0 <= j < |b| ==> a[i] != b[j]
    ensures Distinct(a + b)
  {
  }

  /** Every block is requested. */
  lemma {:induction false} WantsCover(counts: seq<nat>, slot: Slot) returns (i: nat)
    requires IsBlock(counts, slot)
    ensures i < |Wants(counts)| && Wants(counts)[i] == slot
    decreases |counts|
  {
    var init := counts[..|counts| - 1];
    if slot.file < |init| {
      i := WantsCover(init, slot);
    } else {
      i := |Wants(init)| + slot.block;
    }
  }

  /** No stream that can be placed gets one of the map's special numbers for its own. */
  predicate Numbered(counts: seq<nat>) {
    NoneEmpty(counts) || |counts| <= MAP_FILE
  }

  lemma WantsPlaceable(counts: seq<nat>)
    requires Numbered(counts)
    ensures Placeable(Wants(counts))
  {
    if NoneEmpty(counts) {
      WantsOrdered(counts);
    } else {
      WantsBlocks(counts);
    }
  }

  /** A sector between 0 and 254 holds this block, and no other sector at all does. */
  ghost predicate HasOneSector(slots: seq<Slot>, block: Slot) {
    && |slots| == SECTOR_COUNT
    && exists s: nat ::
         0 < s < 254 && slots[s] == block && forall t: nat :: t < SECTOR_COUNT && slots[t] == block ==> t == s
  }

  /** Each block of each stream gets exactly one sector, whenever all of them fit. */
  lemma OneSectorPerBlock(counts: seq<nat>, number: nat, block: nat)
    requires NoneEmpty(counts) && |Wants(counts)| <= CAPACITY
    requires number < |counts| && number < MAP_FILE && block < counts[number]
    ensures PlaceAll(Wants(counts)).Done? && HasOneSector(PlaceAll(Wants(counts)).value.slots, Slot(number, block))
  {
    var i := WantsCover(counts, Slot(number, block));
    PlacesAllOnce(counts);
    PlacedOnce(PlaceAll(Wants(counts)).value, Wants(counts), i);
  }

  lemma PlacesAllOnce(counts: seq<nat>)
    requires NoneEmpty(counts) && |Wants(counts)| <= CAPACITY
    ensures Placeable(Wants(counts)) && Distinct(Wants(counts))
    ensures PlaceAll(Wants(counts)).Done? && Placed(PlaceAll(Wants(counts)).value, Wants(counts))
  {
    WantsPlaceable(counts);
    WantsDistinct(counts);
    AllocatorCorrect(Wants(counts));
  }

  lemma PlacedOnce(p: Placement, wants: seq<Slot>, i: nat)
    requires Placed(p, wants) && Placeable(wants) && Distinct(wants) && i < |wants| <= CAPACITY
    requires wants[i].file !in {MAP_FILE, DAMAGED_SECTOR}
    ensures HasOneSector(p.slots, wants[i])
  {
    var s := p.taken[i];
    assert 0 < s < 254 && p.slots[s] == wants[i];
    forall t: nat | t < SECTOR_COUNT && p.slots[t] == wants[i] ensures t == s {
      SectorOf(p, wants, i, t);
    }
  }

  /** A map whose entries fit into two bytes each. */
  predicate Encodable(slots: seq<Slot>) {
    |slots| == SECTOR_COUNT && forall s :: 0 <= s < SECTOR_COUNT ==> slots[s].file < 256 && slots[s].block < 256
  }

  lemma PlacedBlock(counts: seq<nat>, p: Placement, s: nat)
    requires Numbered(counts) && Placed(p, Wants(counts)) && |Wants(counts)| <= CAPACITY && 0 < s < 254
    ensures p.slots[s] == Slot(FREE_SECTOR, 0) ||
            (p.slots[s].file < FREE_SECTOR && p.slots[s].block < 252 && IsBlock(counts, p.slots[s]))
  {
    WantsBlocks(counts);
    if NoneEmpty(counts) {
      WantsOrdered(counts);
    }
    var i := Occupant(p, Wants(counts), s);
  }

  lemma PlacedEncodable(counts: seq<nat>, p: Placement)
    requires Numbered(counts) && Placed(p, Wants(counts)) && |Wants(counts)| <= CAPACITY
    ensures Encodable(p.slots)
  {
    forall s | 0 < s < 254
      ensures p.slots[s].file < 256 && p.slots[s].block < 256
    {
      PlacedBlock(counts, p, s);
    }
  }

  lemma WantsPrefix(counts: seq<nat>, number: nat, block: nat)
    requires number < |counts| && block <= counts[number]
    ensures var prefix := Wants(counts[..number]) + StreamWants(number, block);
            |prefix| <= |Wants(counts)| && Wants(counts)[..|prefix|] == prefix
    decreases |counts|
  {
    var init, n := counts[..|counts| - 1], |counts| - 1;
    if number < n {
      WantsPrefix(init, number, block);
      assert init[..number] == counts[..number];
    } else {
      assert StreamWants(n, counts[n])[..block] == StreamWants(n, block);
    }
  }

  /** Refusing a block means the whole list does not fit. */
  lemma RefusedBlock(counts: seq<nat>, number: nat, block: nat, p: Placement)
    requires number < |counts| && block < counts[number]
    requires PlaceAll(Wants(counts[..number]) + StreamWants(number, block)) == Done(p)
    requires PlaceOne(p, Slot(number, block)).Rejected?
    ensures PlaceAll(Wants(counts)).Rejected?
  {
    PlaceNext(counts, number, block, p);
    var prefix := Wants(counts[..number]) + StreamWants(number, block + 1);
    WantsPrefix(counts, number, block + 1);
    PlaceAllPrefix(Wants(counts), |prefix|);
  }

  lemma PlaceNext(counts: seq<nat>, number: nat, block: nat, p: Placement)
    requires number < |counts| && block < counts[number]
    requires PlaceAll(Wants(counts[..number]) + StreamWants(number, block)) == Done(p)
    ensures PlaceAll(Wants(counts[..number]) + StreamWants(number, block + 1)) == PlaceOne(p, Slot(number, block))
  {
    var placed: seq<Slot> := Wants(counts[..number]);
    OneMoreBlock(placed, number, block);
    PlaceAllSnoc(placed + StreamWants(number, block), Slot(number, block), p);
  }

  lemma OneMoreBlock(placed: seq<Slot>, number: nat, block: nat)
    ensures placed + StreamWants(number, block + 1) == placed + StreamWants(number, block) + [Slot(number, block)]
  {
    assert StreamWants(number, block + 1) == StreamWants(number, block) + [Slot(number, block)];
  }

  lemma PlaceAllStart(counts: seq<nat>)
    ensures PlaceAll(Wants(counts[..0])) == Done(Initial())
    ensures Wants(counts[..|counts|]) == Wants(counts)
  {
    assert counts[..0] == [] && counts[..|counts|] == counts;
  }

  lemma WantsStep(counts: seq<nat>, n: nat)
    requires n < |counts|
    ensures Wants(counts[..n]) + StreamWants(n, 0) == Wants(counts[..n])
    ensures Wants(counts[..n]) + StreamWants(n, counts[n]) == Wants(counts[..n + 1])
  {
    assert counts[..n + 1][..n] == counts[..n];
  }

  /** One placement as the program runs it: allocate, record in the map, look ahead. */
  method TakeSector(mapping: seq<Slot>, current: nat, want: Slot, ghost taken: seq<nat>)
    returns (ok: bool, sector: nat, next: nat)
    requires |mapping| == SECTOR_COUNT && current < SECTOR_COUNT
    ensures ok ==> sector < SECTOR_COUNT && next < SECTOR_COUNT
    ensures ok ==> PlaceOne(Placement(mapping, current, taken), want)
                   == Done(Placement(mapping[sector := want], next, taken + [sector]))
    ensures !ok ==> PlaceOne(Placement(mapping, current, taken), want).Rejected?
  {
    ok, sector, next := false, 0, 0;
    var found := Allocate(mapping, current);
    if found.Done? {
      sector := found.value;
      var mapping' := mapping[sector := want];
      var ahead := Allocate(mapping', (sector + SECTOR_COUNT - 13) % SECTOR_COUNT);
      if ahead.Done? {
        ok, next := true, ahead.value;
      }
    }
  }
}
