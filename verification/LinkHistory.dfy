/**
 * What the flags around the Companion mean: they are the history of requests and replies.  A
 * synchronisation is active, or an FPGA transfer open, exactly when the last request that decides it
 * was answered accordingly, so neither outlives its end as a reason to keep the Companion suspended.
 */
module LinkHistory {
  import opened Bytes
  import opened LinkDisk
  import opened LinkServer
  import opened LinkCompanion
  import opened LinkTransfer

  /** What a host that watches requests, replies and resets since power-on can tell. */
  datatype History = History(recovering: bool, syncing: bool, transferring: bool)

  /** Programming was acknowledged and the board restarts; a core loaded in recovery runs on instead. */
  predicate Restarts(h: History, r: Request, reply: Reply) {
    r.Fpga? && r.command.Program? && reply == Done0 && (r.command.flash || !h.recovering)
  }

  /** MDV_CONTROL 0 begins a synchronisation; 1, 4 and 5 end it, and so does a drive that cannot be mounted. */
  function Syncing(h: History, r: Request, reply: Reply): bool {
    if !r.MdvControl? then h.syncing
    else if reply == Done0 && r.operation == 0 then true
    else if reply == Done0 && r.operation in {1, 4, 5} then false
    else if reply == Failed(25) && r.operation in {0, 1} then false
    else h.syncing
  }

  /** An acknowledged opening opens a transfer; any other answer but "no transfer" (6) and "malformed" (3) ends it. */
  function Transferring(h: History, r: Request, reply: Reply): bool {
    if !r.Fpga? || r.command.Misshapen? then h.transferring
    else
      match r.command
      case FlashProbe => false
      case Begin(_, _, _) => reply == Done0
      case TransferData(_) => h.transferring && (reply == Done0 || reply == Failed(6))
      case Program(_) => h.transferring && reply == Failed(6)
      case Misshapen => h.transferring
  }

  function Recovering(h: History, r: Request, reply: Reply): bool {
    h.recovering && !(r.Fpga? && r.command.Program? && reply == Done0)
  }

  /** One event later. */
  function Remember(h: History, e: Event, reply: Reply): History {
    match e
    case Reset(_) => h.(transferring := false)
    case Receive(r, env) =>
      if Restarts(h, r, reply) then History(env.bootsToRecovery, false, false)
      else History(Recovering(h, r, reply), Syncing(h, r, reply), Transferring(h, r, reply))
  }

  /** The history of a run from power-on. */
  function HistoryOf(disk: Disk, recovery: bool, events: seq<Event>): History
    decreases |events|
  {
    if events == [] then History(recovery, false, false)
    else
      var before, last := events[..|events| - 1], events[|events| - 1];
      Remember(HistoryOf(disk, recovery, before), last, ReplyTo(Run(Boot(disk, recovery), before), last))
  }

  /** The reply to an event; a reset has none, and counts as one that nobody hears. */
  function ReplyTo(s: Server, e: Event): Reply {
    match e
    case Reset(_) => Done0
    case Receive(r, env) => Serve(s, r, env).1
  }

  /** The flags of the board are what the history says. */
  predicate Known(b: Board, h: History) {
    b.sync == h.syncing && b.recovery == h.recovering && b.fpga.Some? == h.transferring
  }

  // ----- One request

  lemma AbortKnown(b: Board)
    ensures var c := FpgaAbort(b); c.sync == b.sync && c.recovery == b.recovery && c.fpga.None?
    ensures FpgaAbort(b).returnPending == b.returnPending
  {
  }

  lemma MdvKnown(s: Server, operation: nat, env: Env, h: History)
    requires Known(s.board, h)
    ensures var (s', reply) := MdvStep(s, operation, env);
            && Known(s'.board, h.(syncing := Syncing(h, MdvControl(operation), reply)))
            && s'.board.returnPending == s.board.returnPending
  {
    if operation == 0 {
      StartKnown(s, env, h);
    }
  }

  lemma StartKnown(s: Server, env: Env, h: History)
    requires Known(s.board, h)
    ensures var (s', reply) := MdvStep(s, 0, env);
            && Known(s'.board, h.(syncing := Syncing(h, MdvControl(0), reply)))
            && s'.board.returnPending == s.board.returnPending
  {
    SuspendFlags(s.board, env);
  }

  lemma BeginKnown(b: Board, flash: bool, size: nat, crc: bv32, env: Env, h: History)
    requires Known(b, h)
    ensures var (c, reply) := FpgaBeginStep(b, size, crc, flash, env, env.device);
            && Known(c, h.(transferring := reply == Done0)) && c.returnPending == b.returnPending
  {
    var closed := FpgaAbort(b);
    var (held, ok) := Suspend(closed, env);
    AbortKnown(b);
    SuspendFlags(closed, env);
    BeginCases(b, closed, held, ok, size, crc, flash, env);
  }

  lemma ProbeKnown(b: Board, env: Env, h: History)
    requires Known(b, h)
    ensures var c := ProbeStep(b, env).0; Known(c, h.(transferring := false)) && c.returnPending == b.returnPending
  {
    var closed := FpgaAbort(b);
    var (held, ok) := Suspend(closed, env);
    AbortKnown(b);
    SuspendFlags(closed, env);
    ProbeCases(b, closed, held, ok, env);
  }

  lemma ProbeCases(b: Board, closed: Board, held: Board, ok: bool, env: Env)
    requires closed == FpgaAbort(b) && (held, ok) == Suspend(closed, env)
    ensures ProbeStep(b, env).0 == if ok then Resume(held) else closed
  {
  }

  lemma DataKnown(b: Board, block: seq<byte>, env: Env, h: History)
    requires Known(b, h)
    ensures var (c, reply) := FpgaDataStep(b, block, env.headerValid, env.device);
            && Known(c, h.(transferring := Transferring(h, Fpga(TransferData(block)), reply)))
            && c.returnPending == b.returnPending
  {
    AbortKnown(b);
  }

  lemma ProgramKnown(b: Board, flash: bool, env: Env, h: History)
    requires Known(b, h) && !b.returnPending
    ensures var (c, reply) := FpgaProgramStep(b, flash, env.device);
            var r := Fpga(Program(flash));
            && (c.returnPending <==> Restarts(h, r, reply))
            && (!c.returnPending ==>
                  Known(c, History(Recovering(h, r, reply), h.syncing, Transferring(h, r, reply))))
  {
    AbortKnown(b);
  }

  lemma CommandKnown(b: Board, command: FpgaRequest, env: Env, h: History)
    requires Known(b, h) && !b.returnPending
    ensures var (c, reply) := FpgaStep(b, command, env);
            var r := Fpga(command);
            && (c.returnPending <==> Restarts(h, r, reply))
            && (!c.returnPending ==>
                  Known(c, History(Recovering(h, r, reply), h.syncing, Transferring(h, r, reply))))
  {
    match command {
      case Misshapen =>
      case FlashProbe => ProbeKnown(b, env, h);
      case Begin(flash, size, crc) => BeginKnown(b, flash, size, crc, env, h);
      case TransferData(block) => DataKnown(b, block, env, h);
      case Program(flash) => ProgramKnown(b, flash, env, h);
    }
  }

  lemma FileKnown(s: Server, r: Request, env: Env, h: History)
    requires Known(s.board, h) && !s.board.returnPending && !r.Fpga?
    ensures var (s', reply) := FileStep(s, r, env);
            Known(s'.board, h.(syncing := Syncing(h, r, reply))) && !s'.board.returnPending
  {
    if r.MdvControl? {
      MdvKnown(s, r.operation, env, h);
    } else {
      UploadKnown(s, r, env);
    }
  }

  /** Any other file command touches neither flag. */
  predicate SameFlags(b: Board, c: Board) {
    && c.sync == b.sync && c.recovery == b.recovery && c.fpga == b.fpga
    && c.returnPending == b.returnPending && c.resetPending == b.resetPending
  }

  lemma UploadKnown(s: Server, r: Request, env: Env)
    requires !r.MdvControl? && !r.Fpga?
    ensures SameFlags(s.board, FileStep(s, r, env).0.board)
  {
    if r.PutBegin? {
      BeginFlags(s, r.size, r.crc, r.path, env);
    } else if r.PutData? {
      DataFlags(s, r.offset, r.block, env);
    } else if r.PutCommit? {
      CommitFlags(s, env);
    } else {
      OtherFlags(s, r, env);
    }
  }

  lemma BeginFlags(s: Server, size: nat, crc: bv32, path: Option<string>, env: Env)
    ensures SameFlags(s.board, PutBeginStep(s, size, crc, path, env).0.board)
  {
    BeginBoards(s, size, crc, path, env);
    SuspendFlags(s.board, env);
  }

  lemma BeginBoards(s: Server, size: nat, crc: bv32, path: Option<string>, env: Env)
    ensures var held := Suspend(s.board, env).0;
            PutBeginStep(s, size, crc, path, env).0.board in {s.board, held, Resume(held)}
  {
  }

  lemma SuspendFlags(b: Board, env: Env)
    ensures SameFlags(b, Suspend(b, env).0)
  {
  }

  lemma DataFlags(s: Server, offset: nat, block: seq<byte>, env: Env)
    ensures SameFlags(s.board, PutDataStep(s, offset, block, env).0.board)
  {
    var (disk, _, due) := WriteBlock(s, offset, block, env);
    AbortFlags(s.(disk := disk, up := Tried(s.up, offset + |block|, due)), env);
    AnswerFlags(s.(disk := disk, up := AfterBlock(s.up, offset, block, due)), offset + |block|);
  }

  lemma AbortFlags(s: Server, env: Env)
    ensures SameFlags(s.board, Abort(s, env).board)
  {
  }

  lemma AnswerFlags(s: Server, end: nat)
    ensures SameFlags(s.board, DataAnswer(s, end).0.board)
  {
  }

  lemma CommitFlags(s: Server, env: Env)
    ensures SameFlags(s.board, CommitStep(s, env).0.board)
  {
    CommitBoards(s, env);
  }

  lemma CommitBoards(s: Server, env: Env)
    ensures CommitStep(s, env).0.board in {s.board, Resume(s.board), ResumeLater(s.board)}
  {
    assert CommitPhase(s, env).0.board == s.board;
  }

  lemma OtherFlags(s: Server, r: Request, env: Env)
    requires !r.MdvControl? && !r.Fpga? && !r.PutBegin? && !r.PutData? && !r.PutCommit?
    ensures SameFlags(s.board, FileStep(s, r, env).0.board)
  {
    AbortFlags(s, env);
  }

  // ----- Events and runs

  /** After the reply: a restart forgets everything, anything else leaves the flags. */
  lemma ReplyKnown(s: Server, env: Env, h: History)
    requires !s.board.returnPending ==> Known(s.board, h)
    ensures s.board.returnPending ==> Known(AfterReply(s, env).board, History(env.bootsToRecovery, false, false))
    ensures !s.board.returnPending ==> Known(AfterReply(s, env).board, h)
  {
  }

  lemma ResetKnown(s: Server, env: Env, h: History)
    requires Known(s.board, h)
    ensures Known(UsbReset(s, env).board, h.(transferring := false))
  {
    AbortFlags(s, env);
    AbortKnown(Abort(s, env).board);
  }

  lemma EventKnown(s: Server, e: Event, h: History)
    requires NotStranded(s) && Known(s.board, h)
    ensures Known(Next(s, e).board, Remember(h, e, ReplyTo(s, e)))
  {
    match e {
      case Reset(env) => ResetKnown(s, env, h);
      case Receive(r, env) =>
        var (s', reply) := Handle(s, r, env);
        var later := History(Recovering(h, r, reply), Syncing(h, r, reply), Transferring(h, r, reply));
        if r.Fpga? {
          CommandKnown(s.board, r.command, env, h);
        } else {
          FileKnown(s, r, env, h);
        }
        ReplyKnown(s', env, later);
    }
  }

  /** Over every run from power-on the flags are what requests, replies and resets say. */
  lemma {:induction false} FlagsAreHistory(disk: Disk, recovery: bool, events: seq<Event>)
    ensures Known(Run(Boot(disk, recovery), events).board, HistoryOf(disk, recovery, events))
    decreases |events|
  {
    if events != [] {
      var before, last := events[..|events| - 1], events[|events| - 1];
      FlagsAreHistory(disk, recovery, before);
      CompanionNeverStranded(disk, recovery, before);
      EventKnown(Run(Boot(disk, recovery), before), last, HistoryOf(disk, recovery, before));
    }
  }

  /**
   * The Companion is never stranded.  Over every run from power-on: whenever the link task waits, a
   * suspended Companion has an open upload, a transfer that was opened and has not ended, or a
   * synchronisation that was begun and has not ended as its reason, and both as requests and replies
   * say, not as the firmware's flags do.
   */
  lemma SuspendedForAReason(disk: Disk, recovery: bool, events: seq<Event>)
    ensures var s, h := Run(Boot(disk, recovery), events), HistoryOf(disk, recovery, events);
            s.board.suspended ==> s.session == Putting || h.transferring || h.syncing
  {
    FlagsAreHistory(disk, recovery, events);
    CompanionNeverStranded(disk, recovery, events);
  }

  // ----- What the Microdrive operations do at once

  /** After an acknowledged 0 the Companion stays away; after 1, 4 and 5, and after a failed mount, it runs. */
  lemma MdvEffect(s: Server, operation: nat, env: Env)
    requires NotStranded(s) && env.sdReady
    ensures var (s', reply) := Serve(s, MdvControl(operation), env);
            && (reply == Done0 && operation == 0 ==> s'.board.sync && (s'.board.companion ==> s'.board.suspended))
            && (reply == Done0 && operation in {1, 4, 5} ==> !s'.board.sync && !s'.board.suspended)
            && (reply == Failed(25) && operation in {0, 1} ==> !s'.board.sync && !s'.board.suspended)
  {
    var (s', reply) := MdvStep(s, operation, env);
    MdvBoard(s, operation, env);
    MdvReply(s', env);
  }

  lemma MdvBoard(s: Server, operation: nat, env: Env)
    requires NotStranded(s)
    ensures var (s', reply) := MdvStep(s, operation, env);
            && !s'.board.returnPending && !s'.board.startAfterTx
            && (reply == Done0 && operation == 0 ==>
                  s'.board.sync && !s'.board.resumeAfterTx && (s'.board.companion ==> s'.board.suspended))
            && (reply == Done0 && operation in {1, 4, 5} ==> !s'.board.sync && s'.board.resumeAfterTx)
            && (reply == Failed(25) && operation in {0, 1} ==> !s'.board.sync && !s'.board.suspended)
  {
  }

  lemma MdvReply(s: Server, env: Env)
    requires !s.board.returnPending && !s.board.startAfterTx
    ensures var b := AfterReply(s, env).board;
            && b.sync == s.board.sync && b.companion == s.board.companion
            && b.suspended == (s.board.suspended && !s.board.resumeAfterTx)
  {
  }

  /** The QL is reset after the reply to MDV_CONTROL 1, if it was acknowledged, and after no other. */
  lemma QlResetOnly(s: Server, r: Request, env: Env)
    requires NotStranded(s)
    ensures var (s', reply) := Handle(s, r, env);
            s'.board.resetPending <==> r == MdvControl(1) && reply == Done0
  {
    if r.Fpga? {
      ResetFpga(s.board, r.command, env);
    } else if r.MdvControl? {
      MdvPulse(s, r.operation, env);
    } else {
      UploadKnown(s, r, env);
    }
  }

  lemma MdvPulse(s: Server, operation: nat, env: Env)
    requires NotStranded(s)
    ensures var (s', reply) := MdvStep(s, operation, env);
            s'.board.resetPending <==> operation == 1 && reply == Done0
  {
  }

  lemma ResetFpga(b: Board, command: FpgaRequest, env: Env)
    ensures FpgaStep(b, command, env).0.resetPending == b.resetPending
  {
    match command {
      case Misshapen =>
      case FlashProbe => ResetProbe(b, env);
      case Begin(flash, size, crc) => ResetTransfer(b, size, crc, flash, env);
      case TransferData(block) => ResetData(b, block, env);
      case Program(flash) => ResetProgram(b, flash, env);
    }
  }

  lemma ResetData(b: Board, block: seq<byte>, env: Env)
    ensures FpgaDataStep(b, block, env.headerValid, env.device).0.resetPending == b.resetPending
  {
  }

  lemma ResetProgram(b: Board, flash: bool, env: Env)
    ensures FpgaProgramStep(b, flash, env.device).0.resetPending == b.resetPending
  {
  }

  lemma ResetProbe(b: Board, env: Env)
    ensures ProbeStep(b, env).0.resetPending == b.resetPending
  {
    var (held, ok) := Suspend(FpgaAbort(b), env);
    ProbeCases(b, FpgaAbort(b), held, ok, env);
  }

  lemma ResetTransfer(b: Board, size: nat, crc: bv32, flash: bool, env: Env)
    ensures FpgaBeginStep(b, size, crc, flash, env, env.device).0.resetPending == b.resetPending
  {
    var (held, ok) := Suspend(FpgaAbort(b), env);
    BeginCases(b, FpgaAbort(b), held, ok, size, crc, flash, env);
  }
}
