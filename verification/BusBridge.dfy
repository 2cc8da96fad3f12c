/**
 * The handshake between the 68000 bus and the memory system: one register state, one clock, and what
 * every run of it keeps.
 */
module BusBridge {
  const IDLE: nat := 0
  const WAIT_ACCEPT: nat := 1
  const WAIT_DONE: nat := 2
  const ACK: nat := 3

  /** The inputs at one rising edge; names ending in N are active low. */
  datatype Inputs = Inputs(
    reset: bool,
    addr: nat, dataOut: nat, asN: bool, rw: bool, udsN: bool, ldsN: bool, iack: bool,
    timingDelay: bool, busPhase: bool,
    ready: bool, dataValid: bool, data: nat, writeDone: bool)

  /** The transaction offered to the memory system. */
  datatype Request = Request(write: bool, addr: nat, udsN: bool, ldsN: bool, data: nat)

  /** All registers. `state` has three bits; every value from 3 on waits for the end of the bus cycle. */
  datatype Registers = Registers(
    state: nat, isWrite: bool, timingSampled: bool, memoryDone: bool,
    dataIn: nat, dtackN: bool, req: bool, bus: Request)

  function ResetRegisters(): Registers {
    Registers(IDLE, false, false, false, 0, true, false, Request(false, 0, true, true, 0))
  }

  /** The processor addresses a memory cycle: no interrupt acknowledge, AS low, at least one strobe low. */
  predicate Addressed(i: Inputs) {
    !i.iack && !i.asN && (!i.udsN || !i.ldsN)
  }

  function RequestOf(i: Inputs): Request {
    Request(!i.rw, i.addr / 2 % 0x40_0000, i.udsN, i.ldsN, i.dataOut)
  }

  /** The memory system reports that the transaction of this direction is complete. */
  predicate Completes(isWrite: bool, i: Inputs) {
    if isWrite then i.writeDone else i.dataValid
  }

  /** One rising edge. */
  function Next(r: Registers, i: Inputs): Registers {
    if i.reset then ResetRegisters()
    else if r.state == IDLE then
      if Addressed(i) then
        Registers(WAIT_ACCEPT, !i.rw, false, false, r.dataIn, true, true, RequestOf(i))
      else r.(dtackN := true, req := false)
    else if r.state == WAIT_ACCEPT then
      r.(timingSampled := r.timingSampled || i.busPhase,
         req := r.req && !i.ready, state := if i.ready then WAIT_DONE else WAIT_ACCEPT)
    else if r.state == WAIT_DONE then
      var done := r.memoryDone || Completes(r.isWrite, i);
      var ends := done && r.timingSampled && !i.timingDelay;
      r.(timingSampled := r.timingSampled || i.busPhase, memoryDone := done,
         dataIn := if !r.isWrite && i.dataValid then i.data else r.dataIn,
         dtackN := r.dtackN && !ends, state := if ends then ACK else WAIT_DONE)
    else if i.asN || (i.udsN && i.ldsN) then
      r.(dtackN := true, timingSampled := false, memoryDone := false, state := IDLE)
    else r
  }

  /** The module in its own form: registers that one clocked block updates together. */
  class Bridge {
    var state: nat
    var isWrite: bool
    var timingSampled: bool
    var memoryDone: bool
    var dataIn: nat
    var dtackN: bool
    var req: bool
    var bus: Request

    ghost function View(): Registers
      reads this
    {
      Registers(state, isWrite, timingSampled, memoryDone, dataIn, dtackN, req, bus)
    }

    constructor (r: Registers)
      ensures View() == r
    {
      state, isWrite, timingSampled, memoryDone := r.state, r.isWrite, r.timingSampled, r.memoryDone;
      dataIn, dtackN, req, bus := r.dataIn, r.dtackN, r.req, r.bus;
    }

    method Clock(i: Inputs)
      modifies this
      ensures View() == Next(old(View()), i)
    {
      if i.reset {
        state, isWrite, timingSampled, memoryDone := IDLE, false, false, false;
        dataIn, dtackN, req, bus := 0, true, false, Request(false, 0, true, true, 0);
      } else if state == IDLE {
        Idle(i);
      } else if state == WAIT_ACCEPT {
        if i.busPhase {
          timingSampled := true;
        }
        if i.ready {
          req, state := false, WAIT_DONE;
        }
      } else if state == WAIT_DONE {
        WaitDone(i);
      } else if i.asN || (i.udsN && i.ldsN) {
        dtackN, timingSampled, memoryDone, state := true, false, false, IDLE;
      }
    }

    method Idle(i: Inputs)
      requires state == IDLE && !i.reset
      modifies this
      ensures View() == Next(old(View()), i)
    {
      dtackN, req := true, false;
      if !i.iack && !i.asN && (!i.udsN || !i.ldsN) {
        isWrite, timingSampled, memoryDone := !i.rw, false, false;
        bus := Request(!i.rw, i.addr / 2 % 0x40_0000, i.udsN, i.ldsN, i.dataOut);
        req, state := true, WAIT_ACCEPT;
      }
    }

    method WaitDone(i: Inputs)
      requires state == WAIT_DONE && !i.reset
      modifies this
      ensures View() == Next(old(View()), i)
    {
      // The conditions read the registers as they were before the edge.
      var done := memoryDone || (!isWrite && i.dataValid) || (isWrite && i.writeDone);
      var ends := done && timingSampled && !i.timingDelay;
      if i.busPhase {
        timingSampled := true;
      }
      if !isWrite && i.dataValid {
        dataIn, memoryDone := i.data, true;
      } else if isWrite && i.writeDone {
        memoryDone := true;
      }
      if ends {
        dtackN, state := false, ACK;
      }
    }
  }

  // ----- Runs

  /** The registers before edge `t` of a run that starts with a reset. */
  function At(r: Registers, run: seq<Inputs>, t: nat): Registers
    requires t <= |run|
  {
    if t == 0 then r else Next(At(r, run, t - 1), run[t - 1])
  }

  /** What happens at edge `t`. */
  predicate BeginsAt(r: Registers, run: seq<Inputs>, t: nat)
    requires t < |run|
  {
    !At(r, run, t).req && At(r, run, t + 1).req
  }

  predicate AcceptedAt(r: Registers, run: seq<Inputs>, t: nat)
    requires t < |run|
  {
    At(r, run, t).req && run[t].ready && !run[t].reset
  }

  predicate AcknowledgedAt(r: Registers, run: seq<Inputs>, t: nat)
    requires t < |run|
  {
    At(r, run, t).dtackN && !At(r, run, t + 1).dtackN
  }

  /** Requests accepted since the last reset. */
  function Accepted(r: Registers, run: seq<Inputs>, t: nat): nat
    requires t <= |run|
  {
    if t == 0 || run[t - 1].reset then 0
    else Accepted(r, run, t - 1) + if AcceptedAt(r, run, t - 1) then 1 else 0
  }

  /** DTACK assertions since the last reset. */
  function Acknowledged(r: Registers, run: seq<Inputs>, t: nat): nat
    requires t <= |run|
  {
    if t == 0 || run[t - 1].reset then 0
    else Acknowledged(r, run, t - 1) + if AcknowledgedAt(r, run, t - 1) then 1 else 0
  }

  /** The outputs that each state implies, whatever happened before. */
  predicate Consistent(r: Registers) {
    && (r.req <==> r.state == WAIT_ACCEPT)
    && (!r.dtackN <==> r.state >= ACK)
    && (r.state == WAIT_ACCEPT || r.state == WAIT_DONE ==> r.isWrite == r.bus.write)
    && (r.state == WAIT_ACCEPT ==> !r.memoryDone)
  }

  lemma StepConsistent(r: Registers, i: Inputs)
    requires Consistent(r) || i.reset
    ensures Consistent(Next(r, i))
  {
  }

  predicate StartsWithReset(run: seq<Inputs>) {
    |run| > 0 && run[0].reset
  }

  lemma StepIdle(r: Registers, i: Inputs, next: Registers)
    requires next == Next(r, i) && r.state == IDLE && !i.reset && !Addressed(i)
    ensures next.state == IDLE
  {
  }

  lemma StepKeepsRequest(r: Registers, i: Inputs, next: Registers)
    requires next == Next(r, i) && r.state != IDLE && !i.reset
    ensures next.bus == r.bus
  {
  }

  lemma {:induction false} RunConsistent(r: Registers, run: seq<Inputs>, t: nat)
    requires StartsWithReset(run) && 0 < t <= |run|
    ensures Consistent(At(r, run, t))
  {
    if t > 1 {
      RunConsistent(r, run, t - 1);
    }
    StepConsistent(At(r, run, t - 1), run[t - 1]);
  }

  /**
   * Every accepted request is answered by exactly one DTACK before the next is accepted: at any time
   * since the last reset the difference is 1 while a transaction is in the memory system, otherwise 0.
   */
  lemma {:induction false} OneAcknowledgeEach(r: Registers, run: seq<Inputs>, t: nat)
    requires StartsWithReset(run) && 0 < t <= |run|
    ensures Accepted(r, run, t) - Acknowledged(r, run, t) == if At(r, run, t).state == WAIT_DONE then 1 else 0
  {
    if !run[t - 1].reset {
      assert t > 1;
      OneAcknowledgeEach(r, run, t - 1);
      RunConsistent(r, run, t - 1);
      BalanceEdge(r, run, t - 1);
    }
  }

  /** One edge without reset moves both counts together with the state. */
  lemma BalanceEdge(r: Registers, run: seq<Inputs>, t: nat)
    requires t < |run| && !run[t].reset && Consistent(At(r, run, t))
    ensures (if AcceptedAt(r, run, t) then 1 else 0) - (if AcknowledgedAt(r, run, t) then 1 else 0)
         == UnderWay(At(r, run, t + 1)) - UnderWay(At(r, run, t))
  {
    BalanceStep(At(r, run, t), run[t]);
  }

  // ----- The same count over resets

  /** Requests accepted, DTACK assertions and transactions dropped by a reset, over the whole run. */
  function AllAccepted(r: Registers, run: seq<Inputs>, t: nat): nat
    requires t <= |run|
  {
    if t == 0 then 0 else AllAccepted(r, run, t - 1) + if AcceptedAt(r, run, t - 1) then 1 else 0
  }

  function AllAcknowledged(r: Registers, run: seq<Inputs>, t: nat): nat
    requires t <= |run|
  {
    if t == 0 then 0 else AllAcknowledged(r, run, t - 1) + if AcknowledgedAt(r, run, t - 1) then 1 else 0
  }

  function Dropped(r: Registers, run: seq<Inputs>, t: nat): nat
    requires t <= |run|
  {
    if t == 0 then 0
    else Dropped(r, run, t - 1) + if run[t - 1].reset && At(r, run, t - 1).state == WAIT_DONE then 1 else 0
  }

  function UnderWay(s: Registers): int {
    if s.state == WAIT_DONE then 1 else 0
  }

  /** One edge of the balance, from any consistent state. */
  lemma BalanceStep(s: Registers, i: Inputs)
    requires Consistent(s)
    ensures (if s.req && i.ready && !i.reset then 1 else 0) - (if s.dtackN && !Next(s, i).dtackN then 1 else 0)
         == UnderWay(Next(s, i)) - UnderWay(s) + (if i.reset then UnderWay(s) else 0)
  {
  }

  /**
   * Over any run from the reset state the balance is the transaction under way plus exactly the
   * transactions that resets dropped, so it is 0 or 1 exactly while those two are at most 1 together.
   */
  lemma {:induction false} BalanceCountsDropped(run: seq<Inputs>, t: nat)
    requires t <= |run|
    ensures var r := ResetRegisters();
            && AllAccepted(r, run, t) - AllAcknowledged(r, run, t)
               == Dropped(r, run, t) + UnderWay(At(r, run, t))
            && Consistent(At(r, run, t))
  {
    if t > 0 {
      var before := At(ResetRegisters(), run, t - 1);
      BalanceCountsDropped(run, t - 1);
      BalanceStep(before, run[t - 1]);
      StepConsistent(before, run[t - 1]);
    }
  }

  function Waiting(): Inputs {
    Inputs(false, 0, 0, true, true, true, true, false, false, false, false, false, 0, false)
  }

  /** A processor reading, and a memory system that accepts. */
  function Reading(): Inputs {
    Waiting().(asN := false, udsN := false, ready := true)
  }

  function Resetting(): Inputs {
    Waiting().(reset := true)
  }

  /** Read, accepted, reset, read again, accepted: two requests accepted and no DTACK. */
  lemma ResetUnbalances()
    ensures var run := [Reading(), Reading(), Resetting(), Reading(), Reading()];
            AllAccepted(ResetRegisters(), run, 5) == 2 && AllAcknowledged(ResetRegisters(), run, 5) == 0
  {
    var r, run := ResetRegisters(), [Reading(), Reading(), Resetting(), Reading(), Reading()];
    var s1 := At(r, run, 1);
    assert s1.state == WAIT_ACCEPT && s1.req && s1.dtackN;
    var s2 := At(r, run, 2);
    assert s2.state == WAIT_DONE && !s2.req && s2.dtackN;
    assert At(r, run, 3) == r;
    assert At(r, run, 4) == s1;
    assert At(r, run, 5) == s2;
    assert AllAccepted(r, run, 2) == 1 && AllAcknowledged(r, run, 2) == 0;
    assert AllAccepted(r, run, 3) == 1 && AllAcknowledged(r, run, 3) == 0;
    assert AllAccepted(r, run, 4) == 1 && AllAcknowledged(r, run, 4) == 0;
  }

  // ----- One bus cycle inside a run

  /** A request begins exactly when an idle bridge sees a memory cycle; never for an interrupt acknowledge. */
  lemma BeginsWhenAddressed(r: Registers, run: seq<Inputs>, t: nat)
    requires StartsWithReset(run) && 0 < t < |run|
    ensures BeginsAt(r, run, t) <==> At(r, run, t).state == IDLE && !run[t].reset && Addressed(run[t])
    ensures BeginsAt(r, run, t) ==> At(r, run, t + 1).bus == RequestOf(run[t])
  {
    RunConsistent(r, run, t);
  }

  /** The request offered is the processor's: its direction, its lanes, its data, and address bits 22 to 1. */
  lemma RequestIsProcessors(i: Inputs)
    ensures var q := RequestOf(i);
            && (q.write <==> !i.rw) && q.udsN == i.udsN && q.ldsN == i.ldsN && q.data == i.dataOut
            && q.addr < 0x40_0000 && 2 * q.addr <= i.addr % 0x80_0000 <= 2 * q.addr + 1
  {
    var n := i.addr / 0x80_0000;
    var low := i.addr % 0x80_0000;
    assert i.addr == 0x80_0000 * n + low;
    assert i.addr / 2 == 0x40_0000 * n + low / 2;
    Within22(n, low / 2);
  }

  lemma Within22(n: nat, m: nat)
    requires m < 0x40_0000
    ensures (0x40_0000 * n + m) % 0x40_0000 == m
  {
  }

  /** The bus cycle under way before edge `t` began at edge `b`, and still offers what it offered then. */
  predicate Begun(r: Registers, run: seq<Inputs>, b: nat, t: nat)
    requires t <= |run|
  {
    && b < t && BeginsAt(r, run, b) && Addressed(run[b]) && Undisturbed(r, run, b + 1, t)
    && At(r, run, t).bus == RequestOf(run[b])
  }

  /** No reset and no begin at this edge. */
  predicate CalmAt(r: Registers, run: seq<Inputs>, k: nat)
    requires k < |run|
  {
    !run[k].reset && !BeginsAt(r, run, k)
  }

  /** No reset and no other begin at the edges from `from` up to `t`. */
  predicate Undisturbed(r: Registers, run: seq<Inputs>, from: nat, t: nat)
    requires t <= |run|
  {
    forall k: nat :: from <= k < t ==> CalmAt(r, run, k)
  }

  /** No memory cycle and no reset at this edge. */
  predicate QuietAt(run: seq<Inputs>, k: nat)
    requires k < |run|
  {
    !run[k].reset && !Addressed(run[k])
  }

  predicate Unaddressed(run: seq<Inputs>, from: nat, t: nat)
    requires t <= |run|
  {
    forall k: nat :: from <= k < t ==> QuietAt(run, k)
  }

  /** A bus cycle is under way at this edge, and no reset ends it. */
  predicate BusyAt(r: Registers, run: seq<Inputs>, k: nat)
    requires k < |run|
  {
    At(r, run, k).state != IDLE && !run[k].reset
  }

  predicate Busy(r: Registers, run: seq<Inputs>, from: nat, t: nat)
    requires t <= |run|
  {
    forall k: nat :: from <= k < t ==> BusyAt(r, run, k)
  }

  /** The edges that matter in a bus cycle; `done` is the last at which the memory system reported completion. */
  datatype Marks = Marks(begin: nat, accepted: nat, sampled: nat, done: nat)

  predicate CycleOk(r: Registers, run: seq<Inputs>, t: nat, m: Marks)
    requires t <= |run|
  {
    var s := At(r, run, t);
    && (s.state != IDLE ==> Begun(r, run, m.begin, t))
    && (s.state == WAIT_ACCEPT || s.state == WAIT_DONE ==>
          s.timingSampled ==> m.begin < m.sampled < t && run[m.sampled].busPhase)
    && (s.state == WAIT_DONE ==> m.begin < m.accepted < t && AcceptedAt(r, run, m.accepted))
    && (s.state == WAIT_DONE && s.memoryDone ==> CompletedAt(run, t, m, s))
  }

  /** The memory system completed the accepted request, and the processor's data is what it delivered last. */
  predicate CompletedAt(run: seq<Inputs>, t: nat, m: Marks, s: Registers)
    requires t <= |run|
  {
    && m.accepted < m.done < t && Completes(s.bus.write, run[m.done])
    && (!s.bus.write ==> s.dataIn == run[m.done].data)
  }

  function NextMarks(s: Registers, i: Inputs, t: nat, m: Marks): Marks {
    if s.state == IDLE then m.(begin := t)
    else
      m.(accepted := if s.state == WAIT_ACCEPT && i.ready then t else m.accepted,
         sampled := if i.busPhase then t else m.sampled,
         done := if s.state == WAIT_DONE && Completes(s.isWrite, i) then t else m.done)
  }

  lemma BegunStep(r: Registers, run: seq<Inputs>, t: nat, b: nat)
    requires StartsWithReset(run) && 0 < t < |run| && !run[t].reset
    requires At(r, run, t).state != IDLE && Begun(r, run, b, t)
    ensures Begun(r, run, b, t + 1)
  {
    BeginsWhenAddressed(r, run, t);
    StepKeepsRequest(At(r, run, t), run[t], At(r, run, t + 1));
  }

  lemma BegunHere(r: Registers, run: seq<Inputs>, t: nat)
    requires StartsWithReset(run) && 0 < t < |run| && BeginsAt(r, run, t)
    ensures Begun(r, run, t, t + 1)
  {
    BeginsWhenAddressed(r, run, t);
  }

  lemma MarksStep(r: Registers, run: seq<Inputs>, t: nat, m: Marks)
    requires StartsWithReset(run) && 0 < t < |run| && CycleOk(r, run, t, m)
    ensures CycleOk(r, run, t + 1, NextMarks(At(r, run, t), run[t], t, m))
  {
    var s := At(r, run, t);
    RunConsistent(r, run, t);
    if !run[t].reset {
      if s.state != IDLE {
        BegunStep(r, run, t, m.begin);
      } else if Addressed(run[t]) {
        BeginsWhenAddressed(r, run, t);
        BegunHere(r, run, t);
      }
    }
  }

  lemma {:induction false} CycleMarks(r: Registers, run: seq<Inputs>, t: nat) returns (m: Marks)
    requires StartsWithReset(run) && 0 < t <= |run|
    ensures CycleOk(r, run, t, m)
  {
    if t == 1 {
      m := Marks(0, 0, 0, 0);
    } else {
      var before := CycleMarks(r, run, t - 1);
      MarksStep(r, run, t - 1, before);
      m := NextMarks(At(r, run, t - 1), run[t - 1], t - 1, before);
    }
  }

  /**
   * DTACK falls only when everything it stands for has happened: the cycle began, and no other since;
   * its request was accepted and then completed; a bus phase was sampled since it began; no timing
   * delay holds it; and a read gives the processor the data that the memory system delivered.
   */
  predicate Earned(r: Registers, run: seq<Inputs>, t: nat, m: Marks)
    requires t < |run|
  {
    && Begun(r, run, m.begin, t)
    && m.begin < m.accepted < m.done <= t && AcceptedAt(r, run, m.accepted)
    && Completes(!run[m.begin].rw, run[m.done])
    && m.begin < m.sampled < t && run[m.sampled].busPhase && !run[t].timingDelay
    && (run[m.begin].rw ==> At(r, run, t + 1).dataIn == run[m.done].data)
  }

  lemma AcknowledgeIsEarned(r: Registers, run: seq<Inputs>, t: nat)
    requires StartsWithReset(run) && 0 < t < |run| && AcknowledgedAt(r, run, t)
    ensures exists m: Marks :: Earned(r, run, t, m)
  {
    var before := CycleMarks(r, run, t);
    RunConsistent(r, run, t);
    var m := NextMarks(At(r, run, t), run[t], t, before).(sampled := before.sampled);
    assert Earned(r, run, t, m);
  }

  // ----- When DTACK falls, from the inputs alone

  /** The memory system has completed the transaction after edge `a` and before edge `t`. */
  predicate Completed(run: seq<Inputs>, isWrite: bool, a: nat, t: nat)
    requires t <= |run|
  {
    exists d: nat :: a < d < t && Completes(isWrite, run[d])
  }

  /** A bus phase has come after edge `b` and before edge `t`. */
  predicate Sampled(run: seq<Inputs>, b: nat, t: nat)
    requires t <= |run|
  {
    exists k: nat :: b < k < t && run[k].busPhase
  }

  /** All that an acknowledgement at edge `t` waits for: completion, an earlier bus phase, and no delay. */
  predicate Due(run: seq<Inputs>, b: nat, a: nat, t: nat)
    requires b < |run| && t < |run|
  {
    Completed(run, !run[b].rw, a, t + 1) && Sampled(run, b, t) && !run[t].timingDelay
  }

  /** The cycle that begins at `b` is first offered to a ready memory system at `a`, and no reset comes before `t`. */
  predicate Offered(run: seq<Inputs>, b: nat, a: nat, t: nat)
    requires t <= |run|
  {
    && b < a < t && run[a].ready && (forall k: nat :: b < k < a ==> !run[k].ready)
    && forall k: nat :: b < k < t ==> !run[k].reset
  }

  /** The cycle that began at `b` has been with the memory system since edge `a`. */
  predicate InSystem(r: Registers, run: seq<Inputs>, b: nat, a: nat, t: nat) {
    0 < b < a < t <= |run| && StartsWithReset(run) && BeginsAt(r, run, b) && Offered(run, b, a, t)
  }

  /** An edge more. */
  lemma CompletedStep(run: seq<Inputs>, isWrite: bool, a: nat, t: nat)
    requires a < t < |run|
    ensures Completed(run, isWrite, a, t + 1) <==> Completed(run, isWrite, a, t) || Completes(isWrite, run[t])
  {
  }

  lemma SampledStep(run: seq<Inputs>, b: nat, t: nat)
    requires b < t < |run|
    ensures Sampled(run, b, t + 1) <==> Sampled(run, b, t) || run[t].busPhase
  {
  }

  /** Neither a ready memory system nor a reset at this edge. */
  predicate HeldOffAt(run: seq<Inputs>, k: nat)
    requires k < |run|
  {
    !run[k].ready && !run[k].reset
  }

  predicate HeldOff(run: seq<Inputs>, b: nat, t: nat)
    requires t <= |run|
  {
    forall k: nat :: b < k < t ==> HeldOffAt(run, k)
  }

  /** A cycle that began at `b` is still offered, and its bus phases are noted. */
  predicate Offering(r: Registers, run: seq<Inputs>, b: nat, t: nat)
    requires b < |run| && t <= |run|
  {
    var s := At(r, run, t);
    && s.state == WAIT_ACCEPT && s.isWrite == !run[b].rw && s.req && s.dtackN && !s.memoryDone
    && (s.timingSampled <==> Sampled(run, b, t))
  }

  lemma OfferingStarts(r: Registers, run: seq<Inputs>, b: nat)
    requires StartsWithReset(run) && 0 < b < |run| && BeginsAt(r, run, b)
    ensures Offering(r, run, b, b + 1)
  {
    BeginsWhenAddressed(r, run, b);
    RunConsistent(r, run, b);
  }

  lemma OfferingStep(r: Registers, run: seq<Inputs>, b: nat, t: nat, next: nat)
    requires b < t < next <= |run| && next == t + 1 && HeldOffAt(run, t) && Offering(r, run, b, t)
    ensures Offering(r, run, b, next)
  {
    SampledStep(run, b, t);
  }

  /** Until it is accepted the request is offered. */
  lemma {:induction false} WaitsForAcceptance(r: Registers, run: seq<Inputs>, b: nat, t: nat)
    requires StartsWithReset(run) && 0 < b < t <= |run| && BeginsAt(r, run, b)
    requires HeldOff(run, b, t)
    ensures Offering(r, run, b, t)
    decreases t
  {
    if t == b + 1 {
      OfferingStarts(r, run, b);
    } else {
      var u := t - 1;
      assert HeldOffAt(run, u);
      WaitsForAcceptance(r, run, b, u);
      OfferingStep(r, run, b, u, t);
    }
  }

  /** The registers right after the request was accepted. */
  predicate JustAccepted(r: Registers, run: seq<Inputs>, b: nat, next: nat)
    requires b < |run| && next <= |run|
  {
    var s := At(r, run, next);
    && s.state == WAIT_DONE && s.isWrite == !run[b].rw && s.dtackN && !s.memoryDone
    && (s.timingSampled <==> Sampled(run, b, next))
  }

  lemma AcceptsStep(r: Registers, run: seq<Inputs>, b: nat, a: nat, next: nat)
    requires b < a < next <= |run| && next == a + 1 && run[a].ready && !run[a].reset && Offering(r, run, b, a)
    ensures AcceptedAt(r, run, a) && JustAccepted(r, run, b, next)
  {
    SampledStep(run, b, a);
  }

  lemma HeldOffBefore(run: seq<Inputs>, b: nat, a: nat, t: nat)
    requires t <= |run| && Offered(run, b, a, t)
    ensures HeldOff(run, b, a) && !run[a].reset
  {
    forall k: nat | b < k < a ensures HeldOffAt(run, k) {
    }
  }

  /** The first edge with a ready memory system accepts the request. */
  lemma AcceptedWhenReady(r: Registers, run: seq<Inputs>, b: nat, a: nat, next: nat)
    requires next == a + 1 && InSystem(r, run, b, a, next)
    ensures AcceptedAt(r, run, a) && JustAccepted(r, run, b, next)
  {
    HeldOffBefore(run, b, a, next);
    WaitsForAcceptance(r, run, b, a);
    AcceptsStep(r, run, b, a, next);
  }

  /** The registers of an accepted cycle say what the inputs since its begin have been. */
  predicate Remembers(r: Registers, run: seq<Inputs>, b: nat, a: nat, t: nat)
    requires b < |run| && t <= |run|
  {
    var s := At(r, run, t);
    && s.state == WAIT_DONE && s.dtackN && s.isWrite == !run[b].rw
    && (s.memoryDone <==> Completed(run, !run[b].rw, a, t)) && (s.timingSampled <==> Sampled(run, b, t))
    && (run[b].rw && s.memoryDone ==> DataIsLast(r, run, a, t))
  }

  /** The processor's data is what the memory system delivered last. */
  predicate DataIsLast(r: Registers, run: seq<Inputs>, a: nat, t: nat)
    requires t <= |run|
  {
    exists d: nat ::
      && a < d < t && run[d].dataValid && At(r, run, t).dataIn == run[d].data
      && forall k: nat :: d < k < t ==> !run[k].dataValid
  }

  lemma DataComes(r: Registers, run: seq<Inputs>, a: nat, t: nat, next: nat)
    requires a < t < next <= |run| && next == t + 1 && !run[t].reset && run[t].dataValid
    requires At(r, run, t).state == WAIT_DONE && !At(r, run, t).isWrite
    ensures DataIsLast(r, run, a, next)
  {
    assert At(r, run, next).dataIn == run[t].data;
  }

  lemma DataStays(r: Registers, run: seq<Inputs>, a: nat, t: nat, next: nat)
    requires a < t < next <= |run| && next == t + 1 && !run[t].reset && !run[t].dataValid
    requires At(r, run, t).state == WAIT_DONE && DataIsLast(r, run, a, t)
    ensures DataIsLast(r, run, a, next)
  {
    DataKept(r, run, t, next);
    var d: nat :| a < d < t && run[d].dataValid && At(r, run, t).dataIn == run[d].data
                  && forall k: nat :: d < k < t ==> !run[k].dataValid;
    assert forall k: nat :: d < k < next ==> !run[k].dataValid;
  }

  lemma DataKept(r: Registers, run: seq<Inputs>, t: nat, next: nat)
    requires t < next <= |run| && next == t + 1 && !run[t].reset && !run[t].dataValid
    ensures At(r, run, next).dataIn == At(r, run, t).dataIn
  {
    StepKeepsData(At(r, run, t), run[t], At(r, run, next));
  }

  lemma StepKeepsData(s: Registers, i: Inputs, next: Registers)
    requires next == Next(s, i) && !i.reset && !i.dataValid
    ensures next.dataIn == s.dataIn
  {
  }

  /** One edge of an accepted cycle. */
  lemma RemembersStep(r: Registers, run: seq<Inputs>, b: nat, a: nat, t: nat, next: nat)
    requires b < a < t < next <= |run| && next == t + 1 && !run[t].reset && Remembers(r, run, b, a, t)
    ensures AcknowledgedAt(r, run, t) <==> Due(run, b, a, t)
    ensures !Due(run, b, a, t) ==> Remembers(r, run, b, a, next)
    ensures Due(run, b, a, t) && run[b].rw ==> DataIsLast(r, run, a, next)
  {
    CompletedStep(run, !run[b].rw, a, t);
    SampledStep(run, b, t);
    if run[b].rw && run[t].dataValid {
      DataComes(r, run, a, t, next);
    } else if run[b].rw && At(r, run, t).memoryDone {
      DataStays(r, run, a, t, next);
    }
  }

  /** No acknowledgement was due after edge `a` and before edge `t`. */
  predicate NoneDue(run: seq<Inputs>, b: nat, a: nat, t: nat)
    requires b < |run| && t <= |run|
  {
    forall u: nat :: a < u < t ==> !Due(run, b, a, u)
  }

  lemma NoneDueStep(run: seq<Inputs>, b: nat, a: nat, t: nat, next: nat)
    requires b < a < t < next <= |run| && next == t + 1
    ensures NoneDue(run, b, a, next) <==> NoneDue(run, b, a, t) && !Due(run, b, a, t)
  {
  }

  /** No acknowledgement at the edges from `from` up to `t`. */
  predicate NoneAcknowledged(r: Registers, run: seq<Inputs>, from: nat, t: nat)
    requires t <= |run|
  {
    forall u: nat :: from <= u < t ==> !AcknowledgedAt(r, run, u)
  }

  lemma NoneAcknowledgedStep(r: Registers, run: seq<Inputs>, from: nat, t: nat, next: nat)
    requires from <= t < next <= |run| && next == t + 1
    ensures NoneAcknowledged(r, run, from, next) <==>
              NoneAcknowledged(r, run, from, t) && !AcknowledgedAt(r, run, t)
  {
  }

  lemma InSystemBefore(r: Registers, run: seq<Inputs>, b: nat, a: nat, t: nat, next: nat)
    requires InSystem(r, run, b, a, next) && a < t && next == t + 1
    ensures InSystem(r, run, b, a, t) && !run[t].reset
  {
  }

  /** Before edge `t`: nothing was due exactly if nothing was acknowledged, and then the registers know. */
  predicate Tracks(r: Registers, run: seq<Inputs>, b: nat, a: nat, t: nat)
    requires b < |run| && t <= |run|
  {
    && (NoneAcknowledged(r, run, a + 1, t) <==> NoneDue(run, b, a, t))
    && (NoneDue(run, b, a, t) ==> Remembers(r, run, b, a, t))
  }

  lemma TracksStep(r: Registers, run: seq<Inputs>, b: nat, a: nat, t: nat, next: nat)
    requires b < a < t < next <= |run| && next == t + 1 && !run[t].reset && Tracks(r, run, b, a, t)
    ensures Tracks(r, run, b, a, next)
    ensures NoneDue(run, b, a, t) ==> (AcknowledgedAt(r, run, t) <==> Due(run, b, a, t))
    ensures NoneDue(run, b, a, t) && Due(run, b, a, t) && run[b].rw ==> DataIsLast(r, run, a, next)
  {
    NoneDueStep(run, b, a, t, next);
    NoneAcknowledgedStep(r, run, a + 1, t, next);
    if NoneDue(run, b, a, t) {
      RemembersStep(r, run, b, a, t, next);
    }
  }

  lemma TracksStart(r: Registers, run: seq<Inputs>, b: nat, a: nat, t: nat)
    requires t == a + 1 && InSystem(r, run, b, a, t)
    ensures Tracks(r, run, b, a, t)
  {
    AcceptedWhenReady(r, run, b, a, t);
  }

  lemma {:induction false} TracksAlways(r: Registers, run: seq<Inputs>, b: nat, a: nat, t: nat)
    requires InSystem(r, run, b, a, t)
    ensures Tracks(r, run, b, a, t)
    decreases t
  {
    if t == a + 1 {
      TracksStart(r, run, b, a, t);
    } else {
      var u := t - 1;
      InSystemBefore(r, run, b, a, u, t);
      TracksAlways(r, run, b, a, u);
      TracksStep(r, run, b, a, u, t);
    }
  }

  /**
   * The acknowledgement, from the inputs alone.  A cycle that began and met a ready memory system is
   * acknowledged for the first time at exactly the first edge at which its transaction is complete, an
   * earlier bus phase has been sampled and no timing delay holds it; a read then gives the processor
   * the data that the memory system delivered last.
   */
  lemma AcknowledgedExactly(r: Registers, run: seq<Inputs>, b: nat, a: nat, t: nat, next: nat)
    requires a < t && next == t + 1 && InSystem(r, run, b, a, next)
    ensures AcknowledgedAt(r, run, t) && NoneAcknowledged(r, run, a + 1, t) <==>
              Due(run, b, a, t) && NoneDue(run, b, a, t)
    ensures run[b].rw && AcknowledgedAt(r, run, t) && NoneAcknowledged(r, run, a + 1, t) ==>
              DataIsLast(r, run, a, next)
  {
    InSystemBefore(r, run, b, a, t, next);
    TracksAlways(r, run, b, a, t);
    FromTracks(r, run, b, a, t, next);
  }

  lemma FromTracks(r: Registers, run: seq<Inputs>, b: nat, a: nat, t: nat, next: nat)
    requires b < a < t < next <= |run| && next == t + 1 && !run[t].reset && Tracks(r, run, b, a, t)
    ensures AcknowledgedAt(r, run, t) && NoneAcknowledged(r, run, a + 1, t) <==>
              Due(run, b, a, t) && NoneDue(run, b, a, t)
    ensures run[b].rw && AcknowledgedAt(r, run, t) && NoneAcknowledged(r, run, a + 1, t) ==>
              DataIsLast(r, run, a, next)
  {
    TracksStep(r, run, b, a, t, next);
  }

  lemma {:induction false} FirstDue(run: seq<Inputs>, b: nat, a: nat, t: nat) returns (u: nat)
    requires b < a < t < |run| && !NoneDue(run, b, a, t + 1)
    ensures a < u <= t && Due(run, b, a, u) && NoneDue(run, b, a, u)
    decreases t
  {
    NoneDueStep(run, b, a, t, t + 1);
    if NoneDue(run, b, a, t) {
      u := t;
    } else {
      assert a < t - 1;
      u := FirstDue(run, b, a, t - 1);
    }
  }

  /** No accepted cycle is left hanging: once its acknowledgement is due, DTACK has fallen. */
  lemma AlwaysAcknowledged(r: Registers, run: seq<Inputs>, b: nat, a: nat, t: nat) returns (u: nat)
    requires a < t < |run| && InSystem(r, run, b, a, t + 1) && Due(run, b, a, t)
    ensures a < u <= t && AcknowledgedAt(r, run, u) && NoneAcknowledged(r, run, a + 1, u)
  {
    u := FirstDue(run, b, a, t);
    assert InSystem(r, run, b, a, u + 1);
    AcknowledgedExactly(r, run, b, a, u, u + 1);
  }

  /** DTACK rises again, and the bridge is free, at the first edge after it that shows AS or both strobes released. */
  lemma ReleasedAfterCycle(r: Registers, run: seq<Inputs>, t: nat)
    requires StartsWithReset(run) && 0 < t < |run| && !At(r, run, t).dtackN && !run[t].reset
    ensures At(r, run, t + 1).dtackN <==> run[t].asN || (run[t].udsN && run[t].ldsN)
    ensures At(r, run, t + 1).dtackN ==> At(r, run, t + 1).state == IDLE && !At(r, run, t + 1).req
  {
    RunConsistent(r, run, t);
  }

  /** From the begin of a cycle to its end the address, the lanes and the write data stay as presented. */
  lemma RequestStaysFixed(r: Registers, run: seq<Inputs>, b: nat, t: nat)
    requires StartsWithReset(run) && 0 < b < t <= |run| && BeginsAt(r, run, b)
    requires Busy(r, run, b + 1, t)
    ensures At(r, run, t).bus == RequestOf(run[b])
  {
    BeginsWhenAddressed(r, run, b);
    OfferStaysFixed(r, run, b + 1, t, RequestOf(run[b]));
  }

  lemma {:induction false} OfferStaysFixed(r: Registers, run: seq<Inputs>, from: nat, t: nat, bus: Request)
    requires from <= t <= |run| && Busy(r, run, from, t) && At(r, run, from).bus == bus
    ensures At(r, run, t).bus == bus
    decreases t
  {
    if from < t {
      var u := t - 1;
      assert BusyAt(r, run, u);
      OfferStaysFixed(r, run, from, u, bus);
      NotIdleKeepsRequest(r, run, u, t);
    }
  }

  lemma NotIdleKeepsRequest(r: Registers, run: seq<Inputs>, t: nat, next: nat)
    requires t < next <= |run| && next == t + 1 && BusyAt(r, run, t)
    ensures At(r, run, next).bus == At(r, run, t).bus
  {
    StepKeepsRequest(At(r, run, t), run[t], At(r, run, next));
  }

  /**
   * A read-modify-write: once the strobes are released under AS, the next edge that shows a strobe
   * begins a second transaction with the address and data of that moment, however late it comes.
   */
  lemma SecondHalfBegins(r: Registers, run: seq<Inputs>, t: nat, u: nat)
    requires StartsWithReset(run) && 0 < t < u < |run| && At(r, run, t).state >= ACK
    requires !run[t].asN && run[t].udsN && run[t].ldsN && !run[t].reset
    requires Unaddressed(run, t + 1, u)
    requires Addressed(run[u]) && !run[u].reset
    ensures At(r, run, t + 1).dtackN
    ensures BeginsAt(r, run, u) && At(r, run, u + 1).bus == RequestOf(run[u])
  {
    StaysIdle(r, run, t + 1, u);
    BeginsWhenAddressed(r, run, u);
  }

  predicate IdleAt(r: Registers, run: seq<Inputs>, t: nat)
    requires t <= |run|
  {
    At(r, run, t).state == IDLE
  }

  lemma {:induction false} StaysIdle(r: Registers, run: seq<Inputs>, t: nat, u: nat)
    requires t <= u <= |run| && IdleAt(r, run, t) && Unaddressed(run, t, u)
    ensures IdleAt(r, run, u)
    decreases u
  {
    if t < u {
      var k := u - 1;
      assert QuietAt(run, k);
      StaysIdle(r, run, t, k);
      IdleEdge(r, run, k, u);
    }
  }

  lemma IdleEdge(r: Registers, run: seq<Inputs>, t: nat, next: nat)
    requires t < next <= |run| && next == t + 1 && QuietAt(run, t) && IdleAt(r, run, t)
    ensures IdleAt(r, run, next)
  {
    StepIdle(At(r, run, t), run[t], At(r, run, next));
  }

  /** While a strobe is held under AS after DTACK, nothing new begins and DTACK stays. */
  lemma HeldCycleWaits(r: Registers, run: seq<Inputs>, t: nat)
    requires StartsWithReset(run) && 0 < t < |run| && At(r, run, t).state >= ACK
    requires !run[t].reset && !run[t].asN && !(run[t].udsN && run[t].ldsN)
    ensures At(r, run, t + 1) == At(r, run, t) && !At(r, run, t + 1).dtackN && !BeginsAt(r, run, t)
  {
    RunConsistent(r, run, t);
  }
}
