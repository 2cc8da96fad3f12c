/** FPGA programming over whole runs: nothing is programmed but a complete transfer with its CRC-32. */
module LinkTransfer {
  import opened Bytes
  import opened Checksums
  import opened LinkDisk
  import opened LinkServer

  /** What the host announced when it last opened a transfer, and what it has sent since. */
  datatype Sent = Sent(flash: bool, size: nat, crc: bv32, data: seq<byte>)

  /** An acknowledged opening starts anew; an acknowledged block is added. */
  function Tracked(sent: Sent, r: Request, reply: Reply): Sent {
    if !r.Fpga? || reply != Done0 then sent
    else
      match r.command
      case Begin(flash, size, crc) => Sent(flash, size, crc, [])
      case TransferData(block) => sent.(data := sent.data + block)
      case _ => sent
  }

  function SentBy(s: Server, events: seq<Event>): Sent
    decreases |events|
  {
    if events == [] then Sent(false, 0, 0, [])
    else
      var before, last := events[..|events| - 1], events[|events| - 1];
      if last.Reset? then SentBy(s, before)
      else Tracked(SentBy(s, before), last.request, Serve(Run(s, before), last.request, last.env).1)
  }

  /** An open transfer has received exactly what was sent. */
  ghost predicate InStep(b: Board, sent: Sent) {
    b.fpga.Some? ==>
      var t := b.fpga.value;
      && t.flash == sent.flash && t.size == sent.size && t.crc == sent.crc && FPGA_MIN <= t.size <= FPGA_MAX
      && t.received == |sent.data| <= t.size && t.running == CrcUpdate(ALL_ONES, sent.data)
  }

  lemma AbortedBoard(b: Board)
    ensures var c := FpgaAbort(b);
            c.fpga.None? && c.companion == b.companion && (c.suspended ==> b.suspended && b.fpga.None?)
  {
  }

  lemma SuspendedBoard(b: Board, env: Env)
    ensures var (c, ok) := Suspend(b, env);
            && c.fpga == b.fpga && c.companion == b.companion
            && (ok && c.companion ==> c.suspended) && (!ok ==> !c.suspended && c == b)
  {
  }

  lemma BeginInStep(b: Board, size: nat, crc: bv32, flash: bool, env: Env)
    ensures var (c, reply) := FpgaBeginStep(b, size, crc, flash, env, env.device);
            InStep(c, Sent(flash, size, crc, [])) && (reply != Done0 ==> c.fpga.None?)
  {
    AbortedBoard(b);
    SuspendedBoard(FpgaAbort(b), env);
  }

  lemma DataInStep(b: Board, block: seq<byte>, env: Env, sent: Sent)
    requires InStep(b, sent)
    ensures var (c, reply) := FpgaDataStep(b, block, env.headerValid, env.device);
            InStep(c, if reply == Done0 then sent.(data := sent.data + block) else sent)
  {
    CrcAppend(ALL_ONES, sent.data, block);
  }

  lemma ProgramInStep(b: Board, flash: bool, env: Env, sent: Sent)
    requires InStep(b, sent)
    ensures InStep(FpgaProgramStep(b, flash, env.device).0, sent)
  {
  }

  lemma ProbeInStep(b: Board, env: Env)
    ensures ProbeStep(b, env).0.fpga.None?
  {
    AbortedBoard(b);
    SuspendedBoard(FpgaAbort(b), env);
  }

  lemma CommandInStep(b: Board, command: FpgaRequest, env: Env, sent: Sent)
    requires InStep(b, sent)
    ensures InStep(FpgaStep(b, command, env).0, Tracked(sent, Fpga(command), FpgaStep(b, command, env).1))
  {
    if command.Begin? {
      BeginCommand(b, command, env, sent);
    } else if command.TransferData? {
      DataCommand(b, command, env, sent);
    } else {
      OtherCommand(b, command, env, sent);
    }
  }

  lemma BeginCommand(b: Board, command: FpgaRequest, env: Env, sent: Sent)
    requires InStep(b, sent) && command.Begin?
    ensures InStep(FpgaStep(b, command, env).0, Tracked(sent, Fpga(command), FpgaStep(b, command, env).1))
  {
    BeginInStep(b, command.size, command.crc, command.flash, env);
  }

  lemma DataCommand(b: Board, command: FpgaRequest, env: Env, sent: Sent)
    requires InStep(b, sent) && command.TransferData?
    ensures InStep(FpgaStep(b, command, env).0, Tracked(sent, Fpga(command), FpgaStep(b, command, env).1))
  {
    DataInStep(b, command.block, env, sent);
  }

  lemma OtherCommand(b: Board, command: FpgaRequest, env: Env, sent: Sent)
    requires InStep(b, sent) && !command.Begin? && !command.TransferData?
    ensures InStep(FpgaStep(b, command, env).0, Tracked(sent, Fpga(command), FpgaStep(b, command, env).1))
  {
    if command.FlashProbe? {
      ProbeInStep(b, env);
    } else if command.Program? {
      ProgramInStep(b, command.flash, env, sent);
    }
  }

  lemma FileInStep(s: Server, r: Request, env: Env)
    ensures FileStep(s, r, env).0.board.fpga == s.board.fpga
  {
    if r.PutCommit? {
      CommitInStep(s, env);
    } else if r.PutData? {
      UploadInStep(s, r.offset, r.block, env);
    } else {
      OthersInStep(s, r, env);
    }
  }

  lemma UploadInStep(s: Server, offset: nat, block: seq<byte>, env: Env)
    ensures PutDataStep(s, offset, block, env).0.board.fpga == s.board.fpga
  {
    var (disk, _, due) := WriteBlock(s, offset, block, env);
    AbortInStep(s.(disk := disk, up := Tried(s.up, offset + |block|, due)), env);
    AnswerInStep(s.(disk := disk, up := AfterBlock(s.up, offset, block, due)), offset + |block|);
  }

  lemma AbortInStep(s: Server, env: Env)
    ensures Abort(s, env).board.fpga == s.board.fpga
  {
  }

  lemma AnswerInStep(s: Server, end: nat)
    ensures DataAnswer(s, end).0.board.fpga == s.board.fpga
  {
  }

  lemma OthersInStep(s: Server, r: Request, env: Env)
    requires !r.PutCommit? && !r.PutData?
    ensures FileStep(s, r, env).0.board.fpga == s.board.fpga
  {
    if r.PutBegin? {
      OpeningInStep(s, r.size, r.crc, r.path, env);
    } else if r.MdvControl? {
      ControlInStep(s, r.operation, env);
    }
  }

  lemma OpeningInStep(s: Server, size: nat, crc: bv32, path: Option<string>, env: Env)
    ensures PutBeginStep(s, size, crc, path, env).0.board.fpga == s.board.fpga
  {
    SuspendedBoard(s.board, env);
    if path.Some? {
      OpenInStep(s.(board := Suspend(s.board, env).0), size, crc, Drive(path.value), env);
    }
  }

  lemma OpenInStep(s: Server, size: nat, crc: bv32, target: Path, env: Env)
    ensures OpenStep(s, size, crc, target, env).0.board.fpga == s.board.fpga
  {
  }

  lemma ControlInStep(s: Server, operation: nat, env: Env)
    ensures MdvStep(s, operation, env).0.board.fpga == s.board.fpga
  {
    if operation == 0 {
      StartInStep(s, env);
    }
  }

  lemma StartInStep(s: Server, env: Env)
    ensures MdvStep(s, 0, env).0.board.fpga == s.board.fpga
  {
    SuspendedBoard(s.board, env);
  }

  lemma CommitInStep(s: Server, env: Env)
    ensures CommitStep(s, env).0.board.fpga == s.board.fpga
  {
    assert CommitPhase(s, env).0.board == s.board;
  }

  lemma ReplyInStep(s: Server, env: Env, sent: Sent)
    requires InStep(s.board, sent)
    ensures InStep(AfterReply(s, env).board, sent)
  {
  }

  lemma ServeInStep(s: Server, r: Request, env: Env, sent: Sent)
    requires InStep(s.board, sent)
    ensures InStep(Serve(s, r, env).0.board, Tracked(sent, r, Serve(s, r, env).1))
  {
    if r.Fpga? {
      CommandInStep(s.board, r.command, env, sent);
    } else {
      FileInStep(s, r, env);
    }
    ReplyInStep(Handle(s, r, env).0, env, Tracked(sent, r, Handle(s, r, env).1));
  }

  lemma {:induction false} RunInStep(s: Server, events: seq<Event>)
    requires s.board.fpga.None?
    ensures InStep(Run(s, events).board, SentBy(s, events))
    decreases |events|
  {
    if events != [] {
      var before, last := events[..|events| - 1], events[|events| - 1];
      RunInStep(s, before);
      if last.Receive? {
        ServeInStep(Run(s, before), last.request, last.env, SentBy(s, before));
      }
    }
  }

  /** The open transfer is of this kind, complete, and has the CRC-32 announced for it. */
  ghost predicate Complete(b: Board, sent: Sent, flash: bool) {
    b.fpga.Some? && sent.flash == flash && |sent.data| == sent.size && Crc32(sent.data) == sent.crc
  }

  /**
   * Over every run, with failures, resets and interleaved uploads: programming is acknowledged
   * exactly when a transfer of this kind is open, the blocks acknowledged since it was opened are as
   * long as announced and have the announced CRC-32, and the device takes them.
   */
  lemma ProgramsExactlyVerified(s: Server, events: seq<Event>, flash: bool, env: Env)
    requires s.board.fpga.None?
    ensures Serve(Run(s, events), Fpga(Program(flash)), env).1 == Done0 <==>
              Complete(Run(s, events).board, SentBy(s, events), flash) && env.device
  {
    RunInStep(s, events);
    ProgramStep(Run(s, events).board, SentBy(s, events), flash, env);
  }

  lemma ProgramStep(b: Board, sent: Sent, flash: bool, env: Env)
    requires InStep(b, sent)
    ensures FpgaProgramStep(b, flash, env.device).1 == Done0 <==> Complete(b, sent, flash) && env.device
  {
  }

  /** A transfer that does not open leaves none open, and the Companion as free as before. */
  lemma RefusedTransfer(b: Board, size: nat, crc: bv32, flash: bool, env: Env)
    ensures var (b', reply) := FpgaBeginStep(b, size, crc, flash, env, env.device);
            && (b'.fpga.Some? <==> reply == Done0)
            && (reply == Done0 ==> FPGA_MIN <= size <= FPGA_MAX && (b'.companion ==> b'.suspended))
            && (reply != Done0 && b'.suspended ==> b.suspended && b.fpga.None?)
  {
    var c := FpgaAbort(b);
    var (d, ok) := Suspend(c, env);
    AbortedBoard(b);
    SuspendedBoard(c, env);
    BeginCases(b, c, d, ok, size, crc, flash, env);
  }

  lemma BeginCases(b: Board, c: Board, d: Board, ok: bool, size: nat, crc: bv32, flash: bool, env: Env)
    requires c == FpgaAbort(b) && (d, ok) == Suspend(c, env)
    ensures var (b', reply) := FpgaBeginStep(b, size, crc, flash, env, env.device);
            if size < FPGA_MIN || size > FPGA_MAX || !ok then b' == c && reply != Done0
            else if !env.device then b' == Resume(d) && reply != Done0
            else b' == d.(fpga := Some(Transfer(flash, size, crc, 0, ALL_ONES))) && reply == Done0
  {
  }
}
