/** The Companion task is never left suspended without a reason. */
module LinkCompanion {
  import opened Bytes
  import opened LinkDisk
  import opened LinkServer

  /**
   * What holds whenever the link task waits for input: a suspended Companion has an open upload, an
   * open FPGA transfer or an active Microdrive synchronisation to thank for it, and no deferred
   * action is outstanding.  A board in recovery has no Companion task at all.
   */
  ghost predicate NotStranded(s: Server) {
    var b := s.board;
    && (b.suspended ==> b.companion && (s.session == Putting || b.fpga.Some? || b.sync))
    && (b.recovery ==> !b.companion)
    && !b.resumeAfterTx && !b.startAfterTx && !b.returnPending && !b.resetPending
  }

  /** After the handler, before the deferred actions: a pending resume or board reset is a reason too. */
  ghost predicate Handled(s: Server) {
    var b := s.board;
    && (b.suspended ==> b.companion)
    && (b.suspended ==> s.session == Putting || b.fpga.Some? || b.sync || b.resumeAfterTx || b.returnPending)
    && (b.recovery ==> !b.companion)
    && (b.startAfterTx ==> !b.recovery)
  }

  lemma AfterReplySettles(s: Server, env: Env)
    requires Handled(s)
    ensures NotStranded(AfterReply(s, env))
  {
  }

  lemma PutBeginHandled(s: Server, size: nat, crc: bv32, path: Option<string>, env: Env)
    requires NotStranded(s)
    ensures Handled(PutBeginStep(s, size, crc, path, env).0)
  {
  }

  lemma PutDataHandled(s: Server, offset: nat, block: seq<byte>, env: Env)
    requires NotStranded(s)
    ensures Handled(PutDataStep(s, offset, block, env).0)
  {
  }

  lemma CommitHandled(s: Server, env: Env)
    requires NotStranded(s)
    ensures Handled(CommitStep(s, env).0)
  {
    var s' := CommitPhase(s, env).0;
    assert s'.session == s.session && s'.board == s.board;
  }

  lemma MdvHandled(s: Server, operation: nat, env: Env)
    requires NotStranded(s)
    ensures Handled(MdvStep(s, operation, env).0)
  {
  }

  lemma FileHandled(s: Server, r: Request, env: Env)
    requires NotStranded(s)
    ensures Handled(FileStep(s, r, env).0)
  {
    match r {
      case PutBegin(size, crc, path) => PutBeginHandled(s, size, crc, path, env);
      case PutData(offset, block) => PutDataHandled(s, offset, block, env);
      case PutCommit => CommitHandled(s, env);
      case MdvControl(operation) => MdvHandled(s, operation, env);
      case _ =>
    }
  }

  /** Whether the Companion may be suspended, for the FPGA commands, which do not touch the session. */
  ghost predicate BoardHandled(b: Board, putting: bool) {
    && (b.suspended ==> b.companion)
    && (b.suspended ==> putting || b.fpga.Some? || b.sync || b.resumeAfterTx || b.returnPending)
    && (b.recovery ==> !b.companion)
    && (b.startAfterTx ==> !b.recovery)
  }

  lemma FpgaBeginHandled(b: Board, size: nat, crc: bv32, flash: bool, env: Env, putting: bool)
    requires BoardHandled(b, putting)
    ensures BoardHandled(FpgaBeginStep(b, size, crc, flash, env, env.device).0, putting)
  {
    var closed := FpgaAbort(b);
    assert BoardHandled(closed, putting) && closed.fpga.None?;
    var board := Suspend(closed, env).0;
    assert board == closed || board == closed.(suspended := true);
  }

  lemma FpgaDataHandled(b: Board, block: seq<byte>, env: Env, putting: bool)
    requires BoardHandled(b, putting)
    ensures BoardHandled(FpgaDataStep(b, block, env.headerValid, env.device).0, putting)
  {
  }

  lemma FpgaProgramHandled(b: Board, flash: bool, env: Env, putting: bool)
    requires BoardHandled(b, putting)
    ensures BoardHandled(FpgaProgramStep(b, flash, env.device).0, putting)
  {
  }

  lemma ProbeHandled(b: Board, env: Env, putting: bool)
    requires BoardHandled(b, putting)
    ensures BoardHandled(ProbeStep(b, env).0, putting)
  {
    assert BoardHandled(FpgaAbort(b), putting);
  }

  lemma FpgaHandled(b: Board, command: FpgaRequest, env: Env, putting: bool)
    requires BoardHandled(b, putting)
    ensures BoardHandled(FpgaStep(b, command, env).0, putting)
  {
    match command {
      case Misshapen =>
      case FlashProbe => ProbeHandled(b, env, putting);
      case Begin(flash, size, crc) => FpgaBeginHandled(b, size, crc, flash, env, putting);
      case TransferData(block) => FpgaDataHandled(b, block, env, putting);
      case Program(flash) => FpgaProgramHandled(b, flash, env, putting);
    }
  }

  /** Every request, whatever fails on the way. */
  lemma ServeKeepsCompanion(s: Server, r: Request, env: Env)
    requires NotStranded(s)
    ensures NotStranded(Serve(s, r, env).0)
  {
    var s' := Handle(s, r, env).0;
    if r.Fpga? {
      FpgaHandled(s.board, r.command, env, s.session == Putting);
    } else {
      FileHandled(s, r, env);
    }
    AfterReplySettles(s', env);
  }

  /** A USB reset always releases the Companion, even while a synchronisation is still marked active. */
  lemma ResetReleasesCompanion(s: Server, env: Env)
    requires NotStranded(s)
    ensures !UsbReset(s, env).board.suspended
    ensures UsbReset(s, env).session == Idle && UsbReset(s, env).board.fpga.None?
    ensures UsbReset(s, env).board.sync == s.board.sync
    ensures NotStranded(UsbReset(s, env))
  {
  }

  /** The Companion is never stranded, over every run of requests, failures, USB and board resets. */
  lemma {:induction false} CompanionNeverStranded(disk: Disk, recovery: bool, events: seq<Event>)
    ensures NotStranded(Run(Boot(disk, recovery), events))
    decreases |events|
  {
    if events != [] {
      var before, last := events[..|events| - 1], events[|events| - 1];
      CompanionNeverStranded(disk, recovery, before);
      var s := Run(Boot(disk, recovery), before);
      match last {
        case Receive(r, env) => ServeKeepsCompanion(s, r, env);
        case Reset(env) => ResetReleasesCompanion(s, env);
      }
    }
  }
}
