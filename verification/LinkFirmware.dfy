/**
 * The link firmware in its own form: static variables changed step by step by the command handlers
 * and by the link task around them.  Every request takes exactly the step of LinkServer, so
 * whatever is proved of its runs holds of the variables between requests.
 */
module LinkFirmware {
  import opened Bytes
  import opened Checksums
  import opened LinkDisk
  import opened LinkServer
  import opened LinkUpload
  import opened LinkCompanion
  import opened LinkReplace
  import opened LinkTransfer
  import Flash
  import FW = FlashWriter

  /** The variables of an upload; what they stand for is ghost. */
  class UploadState {
    var target: Path
    var size: nat
    var crc: bv32
    var received: nat
    var running: bv32
    var nextSync: nat
    var finalSynced: bool
    var phase: nat
    var backup: bool
    var direct: bool
    var commitSize: nat
    var commitCrc: bv32
    ghost var log: seq<byte>
    ghost var synced: nat

    ghost function View(): Upload
      reads this
    {
      Upload(target, size, crc, received, running, nextSync, finalSynced, phase, backup, direct, commitSize, commitCrc,
             log, synced)
    }

    constructor ()
      ensures View() == FreshUpload(Temp, 0, 0, false)
    {
      target, size, crc, received, running, nextSync := Temp, 0, 0, 0, ALL_ONES, SYNC_INTERVAL;
      finalSynced, phase, backup, direct, commitSize, commitCrc, log, synced := false, 0, false, false, 0, 0, [], 0;
    }

    /** The counters before the first block. */
    method ClearCounters()
      modifies this`received, this`running, this`nextSync, this`log, this`synced
      ensures received == 0 && running == ALL_ONES && nextSync == SYNC_INTERVAL && log == [] && synced == 0
    {
      received, running, nextSync := 0, ALL_ONES, SYNC_INTERVAL;
      log, synced := [], 0;
    }

    method ClearProgress()
      modifies this`finalSynced, this`phase, this`backup
      ensures !finalSynced && phase == 0 && !backup
    {
      finalSynced, phase, backup := false, 0, false;
    }

    method Announce(target': Path, size': nat, crc': bv32)
      modifies this`target, this`size, this`crc
      ensures target == target' && size == size' && crc == crc'
    {
      target, size, crc := target', size', crc';
    }

    /** A new upload; an earlier verification stays behind. */
    method Begin(target': Path, size': nat, crc': bv32)
      modifies this`received, this`running, this`nextSync, this`log, this`synced
      modifies this`finalSynced, this`phase, this`backup, this`target, this`size, this`crc
      ensures View() == Opening(old(View()), target', size', crc', direct)
    {
      Announce(target', size', crc');
      ClearCounters();
      ClearProgress();
    }

    method Restart()
      modifies this
      ensures View() == FreshUpload(Temp, 0, 0, false)
    {
      direct, commitSize, commitCrc := false, 0, 0;
      Begin(Temp, 0, 0);
    }

    /** Moves the next sync position past the data, as far as 32 bits allow. */
    method AdvanceSync(end: nat)
      modifies this`nextSync
      ensures nextSync == Advance(old(nextSync), end)
    {
      while nextSync <= end && nextSync <= MAX32 - SYNC_INTERVAL
        invariant Advance(nextSync, end) == Advance(old(nextSync), end)
        decreases end - nextSync
      {
        nextSync := nextSync + SYNC_INTERVAL;
      }
    }

    /** A sync that was due has been tried; its position moves whatever came of it. */
    method NoteSync(end: nat, ok: bool)
      modifies this`finalSynced, this`nextSync, this`synced
      ensures View() == if ok then Synced(old(View()), end) else Tried(old(View()), end, true)
    {
      if ok {
        synced := end;
        if end == size {
          finalSynced := true;
        }
      }
      AdvanceSync(end);
    }

    /** Takes a new block into the counters. */
    method CountNewBlock(block: seq<byte>)
      modifies this`running, this`received, this`log
      ensures View() == Grown(old(View()), block)
    {
      running := UpdateCrc32(running, block);
      received := received + |block|;
      log := log + block;
    }

    /** Certifies a direct update that is complete, synced and has the announced CRC. */
    method CertifyDirect()
      modifies this`commitSize, this`commitCrc, this`phase
      ensures View() == Certified(old(View()))
    {
      if direct && finalSynced && received == size {
        var final := Complement(running);
        if final == crc {
          commitSize, commitCrc, phase := received, final, 4;
        }
      }
    }
  }

  /** The variables of an FPGA transfer; while none is open the others keep what they held. */
  class TransferState {
    var isOpen: bool
    var flash: bool
    var size: nat
    var crc: bv32
    var received: nat
    var running: bv32

    ghost function View(): Option<Transfer>
      reads this
    {
      if isOpen then Some(Transfer(flash, size, crc, received, running)) else None
    }

    constructor ()
      ensures View() == None
    {
      isOpen := false;
    }
  }

  /** The flags around the Companion task. */
  class TaskState {
    var companion: bool
    var suspended: bool
    var sync: bool
    var recovery: bool
    var resumeAfterTx: bool
    var startAfterTx: bool
    var returnPending: bool
    var resetPending: bool

    constructor (recovery': bool)
      ensures companion == !recovery' && recovery == recovery' && !suspended && !sync
      ensures !resumeAfterTx && !startAfterTx && !returnPending && !resetPending
    {
      companion, suspended, sync, recovery := !recovery', false, false, recovery';
      resumeAfterTx, startAfterTx, returnPending, resetPending := false, false, false, false;
    }

    method Restart(recovery': bool)
      modifies this
      ensures companion == !recovery' && recovery == recovery' && !suspended && !sync
      ensures !resumeAfterTx && !startAfterTx && !returnPending && !resetPending
    {
      companion, suspended, sync, recovery := !recovery', false, false, recovery';
      resumeAfterTx, startAfterTx, returnPending, resetPending := false, false, false, false;
    }
  }

  class Firmware {
    var disk: Disk
    var session: Session
    var file: Path
    const up: UploadState
    const fpga: TransferState
    const task: TaskState
    /** The writer of the configuration Flash, with the chip behind it. */
    const writer: FW.FlashWriter

    ghost function BoardView(): Board
      reads fpga, task
    {
      Board(task.companion, task.suspended, task.sync, fpga.View(), task.recovery,
            task.resumeAfterTx, task.startAfterTx, task.returnPending, task.resetPending)
    }

    /** All variables as one state. */
    ghost function View(): Server
      reads this, up, fpga, task
    {
      Server(disk, session, file, up.View(), BoardView())
    }

    constructor (card: Disk, recovery: bool, chip: FW.Chip)
      requires chip.Valid()
      ensures View() == Boot(card, recovery) && fresh(up) && fresh(fpga) && fresh(task)
      ensures fresh(writer) && fresh(writer.page) && writer.chip == chip && Flashing(Nothing())
    {
      disk, session, file := card, Idle, Temp;
      up := new UploadState();
      fpga := new TransferState();
      task := new TaskState(recovery);
      writer := new FW.FlashWriter(chip);
    }

    /** The Flash writer is at work exactly during a transfer for it, and has taken the blocks sent since it opened. */
    ghost predicate Flashing(sent: Sent)
      reads fpga, writer, writer.page, writer.chip
    {
      if fpga.isOpen && fpga.flash then
        writer.Now() == FW.Taking(fpga.size, sent.data) && fpga.received == |sent.data| && fpga.size <= FPGA_MAX
      else
        writer.Now() == FW.Resting
    }

    // ----- The Companion task

    method SuspendCompanion(env: Env) returns (ok: bool)
      modifies task`suspended
      ensures (BoardView(), ok) == Suspend(old(BoardView()), env)
    {
      if !task.companion || task.suspended {
        return true;
      }
      if !env.lock {
        return false;
      }
      if !env.spi {
        return false;
      }
      task.suspended := true;
      ok := true;
    }

    method ResumeCompanion()
      modifies task`suspended
      ensures BoardView() == Resume(old(BoardView()))
    {
      if task.suspended {
        task.suspended := false;
      }
    }

    method AbortTransfer(ghost sent: Sent)
      requires Flashing(sent)
      modifies fpga`isOpen, task`suspended, writer`active, writer`pageUsed
      ensures BoardView() == FpgaAbort(old(BoardView())) && Flashing(sent) && !fpga.isOpen
    {
      if !fpga.isOpen {
        return;
      }
      if fpga.flash {
        writer.Abort();
      }
      fpga.isOpen := false;
      ResumeCompanion();
    }

    // ----- Ending a session

    method CloseSession(remove: bool, env: Env)
      modifies this`disk, this`session
      ensures View() == Close(old(View()), remove, env)
    {
      if remove && session == Putting && !up.direct {
        disk := Unlink(disk, Temp, env.unlink).0;
      }
      session := Idle;
    }

    method AbortSession(env: Env)
      modifies this`disk, this`session, task`suspended
      ensures View() == Abort(old(View()), env)
    {
      if session == Idle {
        return;
      }
      if !env.sdReady {
        session := Idle;
        ResumeCompanion();
        return;
      }
      if env.lock {
        CloseSession(true, env);
      } else {
        session := Idle;
      }
      ResumeCompanion();
    }

    // ----- Upload

    /** Opens the target in place or the temporary file: the chain of calls on the card. */
    method OpenForPut(path: Path, size: nat, env: Env) returns (code: Code, direct: bool)
      modifies this`disk
      ensures (disk, code, direct) == PutOpen(old(disk), path, size, env)
    {
      direct := false;
      var forceDirect := path == MDV_IMAGE;
      var found := Stat(disk, path, env.stat);
      code := Ok;
      if found == Ok && path in disk && disk[path].File? && |disk[path].data| == size {
        code := OpenExisting(disk, path, env.open);
        direct := code == Ok;
      } else if forceDirect && (found == NoFile || (found == Ok && path in disk && disk[path].File?)) {
        var r := Create(disk, path, env.open);
        disk, code := r.0, r.1;
        direct := code == Ok;
      } else if forceDirect && found == Ok {
        code := Denied;
      } else if found != Ok && found != NoFile {
        code := found;
      }
      if code == Ok && !direct {
        var removed := Unlink(disk, Temp, env.unlink);
        disk := removed.0;
        if removed.1 != Ok && removed.1 != NoFile {
          code := removed.1;
        }
        if code == Ok {
          var r := Create(disk, Temp, env.open);
          disk, code := r.0, r.1;
        }
      }
    }

    method PutBegin(size: nat, crc: bv32, path: Option<string>, env: Env) returns (reply: Reply)
      modifies this, up, task`suspended
      ensures (View(), reply) == PutBeginStep(old(View()), size, crc, path, env)
    {
      if session != Idle {
        return Failed(22);
      }
      if path.None? {
        return Failed(21);
      }
      var ok := SuspendCompanion(env);
      if !ok {
        return Failed(23);
      }
      reply := OpenUpload(size, crc, Drive(path.value), env);
    }

    /** With the Companion out of the way: the file and the session. */
    method OpenUpload(size: nat, crc: bv32, target: Path, env: Env) returns (reply: Reply)
      modifies this, up, task`suspended
      ensures (View(), reply) == OpenStep(old(View()), size, crc, target, env)
    {
      var code := PrepareFile(target, size, env);
      if code != Ok {
        ResumeCompanion();
        return Failed(ErrorOf(code));
      }
      StartUpload(target, size, crc);
      reply := Opened(up.direct);
    }

    /** The parent directory, the mode, and the open file. */
    method PrepareFile(target: Path, size: nat, env: Env) returns (code: Code)
      modifies this`disk, up`direct
      ensures (disk, code, up.direct) == Prepare(old(disk), target, size, env)
    {
      code, up.direct := FaultCode(env.parent, Ok), false;
      if env.parent == NoFault {
        var direct;
        code, direct := OpenForPut(target, size, env);
        up.direct := direct;
      }
    }

    method StartUpload(target: Path, size: nat, crc: bv32)
      modifies this`session, this`file, up
      ensures View() == Server(old(disk), Putting, if old(up.direct) then target else Temp,
                               Opening(old(up.View()), target, size, crc, old(up.direct)), old(BoardView()))
    {
      session := Putting;
      file := if up.direct then target else Temp;
      up.Begin(target, size, crc);
    }

    /** Seek, write and the sync that may be due. */
    method WriteToFile(offset: nat, block: seq<byte>, env: Env) returns (code: Code, written: nat)
      modifies this`disk, up`finalSynced, up`nextSync, up`synced
      ensures (disk, code)
           == (WriteBlock(old(View()), offset, block, env).0, WriteBlock(old(View()), offset, block, env).1)
      ensures code == Ok ==> written == WriteCount(env.write, |block|)
      ensures up.View()
           == AfterWrite(old(up.View()), offset + |block|, code == Ok, WriteBlock(old(View()), offset, block, env).2)
    {
      code, written := Ok, 0;
      var isNew := offset == up.received;
      var end := offset + |block|;
      if up.phase > 0 {
        return InvalidObject, 0;
      }
      if env.seek != NoFault {
        return FaultCode(env.seek, Ok), 0;
      }
      written := WriteCount(env.write, |block|);
      disk := WriteFile(disk, file, offset, block[..written]);
      code := WriteCode(env.write);
      if code == Ok && written == |block| && isNew && (end >= up.nextSync || end == up.size) {
        code := FaultCode(env.sync, Ok);
        up.NoteSync(end, code == Ok);
      }
    }

    method PutData(offset: nat, block: seq<byte>, env: Env) returns (reply: Reply)
      modifies this`disk, this`session, task`suspended, task`resumeAfterTx, up
      ensures (View(), reply) == PutDataStep(old(View()), offset, block, env)
    {
      if block == [] {
        return Failed(3);
      }
      if session != Putting {
        return Failed(22);
      }
      if |block| > CHUNK || offset > up.size || |block| > up.size - offset || offset > up.received
        || (offset < up.received && |block| > up.received - offset) {
        return Failed(3);
      }
      reply := TakeBlock(offset, block, env);
    }

    /** A block that fits: written, counted if it is new, acknowledged; or the end of the session. */
    method TakeBlock(offset: nat, block: seq<byte>, env: Env) returns (reply: Reply)
      requires block != [] && session == Putting && BlockAccepted(up.View(), offset, |block|)
      modifies this`disk, this`session, task`suspended, task`resumeAfterTx, up
      ensures (View(), reply) == PutDataStep(old(View()), offset, block, env)
    {
      ghost var before := View();
      var isNew := offset == up.received;
      var code, written := WriteToFile(offset, block, env);
      DataCases(before, offset, block, env, View());
      if code != Ok || written != |block| {
        reply := Failed(if code == Ok then 23 else ErrorOf(code));
        AbortSession(env);
      } else {
        reply := CountAndAnswer(offset, block, isNew);
      }
    }

    /** A written block is counted if it is new, and acknowledged. */
    method CountAndAnswer(offset: nat, block: seq<byte>, isNew: bool) returns (reply: Reply)
      modifies this`session, task`resumeAfterTx, up
      ensures (View(), reply)
           == DataAnswer(old(View()).(up := if isNew then Certified(Grown(old(up.View()), block)) else old(up.View())),
                         offset + |block|)
    {
      if isNew {
        up.CountNewBlock(block);
        up.CertifyDirect();
      }
      reply := AnswerData(offset + |block|);
    }

    /** Acknowledges a block, and closes the session when that certifies a whole direct update. */
    method AnswerData(end: nat) returns (reply: Reply)
      modifies this`session, task`resumeAfterTx
      ensures (View(), reply) == DataAnswer(old(View()), end)
    {
      if up.direct && up.phase == 4 {
        session := Idle;
        ResumeAfterReply();
        return AckedVerified(end, up.commitSize, up.commitCrc);
      }
      reply := Acked(end);
    }

    /** The Companion resumes once the reply is out, unless a synchronisation holds it. */
    method ResumeAfterReply()
      modifies task`resumeAfterTx
      ensures BoardView() == ResumeLater(old(BoardView()))
    {
      if !task.sync {
        task.resumeAfterTx := true;
      }
    }

    // ----- The four commit phases

    /** What a verification will report. */
    method Measure()
      modifies up`commitSize, up`commitCrc
      ensures up.View()
           == old(up.View()).(commitCrc := Complement(old(up.running)), commitSize := Min(|Content(disk, file)|, MAX32))
    {
      up.commitCrc := Complement(up.running);
      up.commitSize := Min(|Content(disk, file)|, MAX32);
    }

    method PassCheck()
      modifies up`phase, up`synced
      ensures up.View() == old(up.View()).(phase := if up.direct then 4 else 1, synced := up.received)
    {
      up.phase := if up.direct then 4 else 1;
      up.synced := up.received;
    }

    method CheckUpload(env: Env) returns (code: Code)
      modifies up`commitSize, up`commitCrc, up`phase, up`synced
      ensures (View(), code) == CommitCheck(old(View()), env)
    {
      Measure();
      code := Compare(env);
      if code == Ok {
        PassCheck();
      }
    }

    method Compare(env: Env) returns (code: Code)
      ensures code == CheckCode(up.View(), env)
    {
      code := Ok;
      if !up.finalSynced {
        code := FaultCode(env.sync, Ok);
      }
      if code == Ok && (up.received != up.size || up.commitSize != up.size || up.commitCrc != up.crc) {
        code := IntErr;
      }
    }

    method BackUpTarget(env: Env) returns (code: Code)
      requires up.phase == 1
      modifies this`disk, up`backup, up`phase
      ensures (View(), code) == CommitBackup(old(View()), env)
    {
      var found := Stat(disk, up.target, env.stat);
      code := Ok;
      if found == Ok {
        if disk[up.target].Directory? {
          return Denied;
        }
        disk := Unlink(disk, Backup, env.unlink).0;
        var renamed := Rename(disk, up.target, Backup, env.rename);
        disk, code := renamed.0, renamed.1;
        up.backup := code == Ok;
      } else if found != NoFile {
        code := found;
      }
      if code == Ok {
        up.phase := 2;
      }
    }

    method InstallTarget(env: Env) returns (code: Code)
      requires up.phase == 2
      modifies this`disk, up`phase
      ensures (View(), code) == CommitInstall(old(View()), env)
    {
      var renamed := Rename(disk, Temp, up.target, env.rename);
      disk, code := renamed.0, renamed.1;
      if code == Ok {
        up.phase := 3;
      }
    }

    method DropBackup(env: Env) returns (code: Code)
      modifies this`disk, up`phase
      ensures (View(), code) == CommitClean(old(View()), env)
    {
      code := Ok;
      if up.backup {
        var removed := Unlink(disk, Backup, env.unlink);
        disk := removed.0;
        if removed.1 != Ok && removed.1 != NoFile {
          code := removed.1;
        }
      }
      if code == Ok {
        up.phase := 4;
      }
    }

    method RunPhase(env: Env) returns (code: Code)
      modifies this`disk, up`commitSize, up`commitCrc, up`phase, up`synced, up`backup
      ensures (View(), code) == CommitPhase(old(View()), env)
    {
      if up.phase == 0 {
        code := CheckUpload(env);
      } else if up.phase == 1 {
        code := BackUpTarget(env);
      } else if up.phase == 2 {
        code := InstallTarget(env);
      } else {
        code := DropBackup(env);
      }
    }

    method GiveUpCommit(env: Env)
      modifies this`disk, this`session, task`suspended
      ensures View() == CommitFailed(old(View()), env)
    {
      if up.backup && !up.direct {
        disk := Rename(disk, Backup, up.target, env.rollback).0;
      }
      session := Idle;
      ResumeCompanion();
    }

    method PutCommit(env: Env) returns (reply: Reply)
      modifies this`disk, this`session, task`suspended, task`resumeAfterTx
      modifies up`commitSize, up`commitCrc, up`phase, up`synced, up`backup
      ensures (View(), reply) == CommitStep(old(View()), env)
    {
      if session != Putting {
        return Failed(22);
      }
      if up.phase < 4 && !env.lock {
        return Failed(23);
      }
      var code := Ok;
      if up.phase < 4 {
        code := RunPhase(env);
      }
      if code != Ok {
        GiveUpCommit(env);
        return Failed(if code == IntErr then 24 else ErrorOf(code));
      }
      if up.phase < 4 {
        return Phase(up.phase);
      }
      session := Idle;
      ResumeAfterReply();
      reply := Verified(up.commitSize, up.commitCrc);
    }

    // ----- The rest of the filesystem commands

    method GetBegin(path: Option<string>, env: Env) returns (reply: Reply)
      modifies this`session, this`file
      ensures (View(), reply) == GetBeginStep(old(View()), path, env)
    {
      if session != Idle {
        return Failed(22);
      }
      if path.None? {
        return Failed(21);
      }
      var code := OpenExisting(disk, Drive(path.value), env.open);
      var size := |Content(disk, Drive(path.value))|;
      if code == Ok && size > MAX32 {
        code := InvalidObject;
      }
      if code != Ok {
        return Failed(ErrorOf(code));
      }
      session, file := Getting, Drive(path.value);
      reply := Size(size);
    }

    method GetData(offset: nat, count: nat, env: Env) returns (reply: Reply)
      modifies this`disk, this`session, task`suspended
      ensures (View(), reply) == GetDataStep(old(View()), offset, count, env)
    {
      if session != Getting {
        return Failed(22);
      }
      if count == 0 || count > CHUNK {
        return Failed(3);
      }
      if env.read != NoFault {
        AbortSession(env);
        return Failed(ErrorOf(FaultCode(env.read, Ok)));
      }
      reply := Data(ReadAt(Content(disk, file), offset, count));
    }

    method EndSync()
      modifies task`sync, task`suspended
      ensures BoardView() == Resume(old(BoardView()).(sync := false))
    {
      task.sync := false;
      ResumeCompanion();
    }

    /** Operation 0: unmount, and hold the Companion until the synchronisation is over. */
    method StartSync(env: Env) returns (reply: Reply)
      requires session == Idle
      modifies task`sync, task`suspended
      ensures (View(), reply) == MdvStep(old(View()), 0, env)
    {
      var ok := SuspendCompanion(env);
      if !ok {
        return Failed(23);
      }
      task.sync := true;
      if !env.mount {
        EndSync();
        return Failed(25);
      }
      reply := Done0;
    }

    /** Operation 1: mount, and pulse the QL reset after the reply. */
    method MountAndReset(env: Env) returns (reply: Reply)
      requires session == Idle
      modifies task`sync, task`suspended, task`resetPending, task`resumeAfterTx
      ensures (View(), reply) == MdvStep(old(View()), 1, env)
    {
      if !env.mount {
        EndSync();
        return Failed(25);
      }
      task.resetPending, task.sync, task.resumeAfterTx := true, false, true;
      reply := Done0;
    }

    method ControlMicrodrive(operation: nat, env: Env) returns (reply: Reply)
      modifies task`sync, task`suspended, task`resetPending, task`resumeAfterTx
      ensures (View(), reply) == MdvStep(old(View()), operation, env)
    {
      if session != Idle {
        return Failed(22);
      }
      if operation == 0 {
        reply := StartSync(env);
      } else if operation == 1 {
        reply := MountAndReset(env);
      } else if operation == 2 {
        reply := Done0;
      } else if operation == 3 {
        reply := if !task.sync then Failed(22) else if env.mount then Done0 else Failed(25);
      } else if operation == 4 || operation == 5 {
        if !task.sync {
          return Failed(22);
        }
        task.sync, task.resumeAfterTx := false, true;
        reply := Done0;
      } else {
        reply := Failed(3);
      }
    }

    method List(begin: bool, valid: bool, env: Env) returns (reply: Reply)
      modifies this`session
      ensures (View(), reply) == ListStep(old(View()), begin, valid, env)
    {
      if begin {
        if session != Idle {
          return Failed(22);
        }
        if !valid {
          return Failed(21);
        }
        if env.open != NoFault {
          return Failed(ErrorOf(FaultCode(env.open, Ok)));
        }
        session := Listing;
        return Done0;
      }
      if session != Listing {
        return Failed(22);
      }
      if env.read != NoFault || env.lastEntry {
        session := Idle;
      }
      reply := if env.read != NoFault then Failed(ErrorOf(FaultCode(env.read, Ok))) else Done0;
    }

    method DeleteFile(path: Option<string>, env: Env) returns (reply: Reply)
      modifies this`disk
      ensures (View(), reply) == DeleteStep(old(View()), path, env)
    {
      if session != Idle {
        return Failed(22);
      }
      if path.None? {
        return Failed(21);
      }
      var removed := Unlink(disk, Drive(path.value), env.unlink);
      disk := removed.0;
      reply := if removed.1 != Ok then Failed(ErrorOf(removed.1)) else Done0;
    }

    method MakeDirectory(valid: bool, env: Env) returns (reply: Reply)
      ensures reply == MkdirReply(session, valid, env)
    {
      if session != Idle {
        return Failed(22);
      }
      if !valid {
        return Failed(21);
      }
      reply := if env.parent != NoFault then Failed(ErrorOf(FaultCode(env.parent, Ok))) else Done0;
    }

    method EndDownload(env: Env) returns (reply: Reply)
      modifies this`disk, this`session
      ensures (View(), reply)
           == if old(session) != Getting then (old(View()), Failed(22)) else (Close(old(View()), false, env), Done0)
    {
      if session != Getting {
        return Failed(22);
      }
      CloseSession(false, env);
      reply := Done0;
    }

    method ServeFile(r: Request, env: Env) returns (reply: Reply)
      modifies this, up, task
      ensures (View(), reply) == FileStep(old(View()), r, env)
    {
      if !env.sdReady {
        return Failed(20);
      }
      match r
      case Info => reply := if env.lock then Done0 else Failed(23);
      case ListBegin(valid) => reply := List(true, valid, env);
      case ListNext => reply := List(false, true, env);
      case PutBegin(size, crc, path) => reply := PutBegin(size, crc, path, env);
      case PutData(offset, block) => reply := PutData(offset, block, env);
      case PutCommit => reply := PutCommit(env);
      case GetBegin(path) => reply := GetBegin(path, env);
      case GetData(offset, count) => reply := GetData(offset, count, env);
      case GetEnd => reply := EndDownload(env);
      case Delete(path) => reply := DeleteFile(path, env);
      case Mkdir(valid) => reply := MakeDirectory(valid, env);
      case Cancel =>
        AbortSession(env);
        reply := Done0;
      case MdvControl(operation) => reply := ControlMicrodrive(operation, env);
      case Malformed => reply := Failed(3);
      case Fpga(_) => reply := Failed(3);
    }

    // ----- FPGA programming

    method OpenTransfer(flash: bool, size: nat, crc: bv32)
      modifies fpga
      ensures fpga.View() == Some(Transfer(flash, size, crc, 0, ALL_ONES))
    {
      fpga.isOpen, fpga.flash, fpga.size, fpga.crc := true, flash, size, crc;
      fpga.received, fpga.running := 0, ALL_ONES;
    }

    /** The device that a transfer is for: the Flash writer, or the SRAM loader, which is an outcome. */
    method OpenDevice(flash: bool, size: nat, env: Env, ghost sent: Sent) returns (ok: bool)
      requires Flashing(sent) && !fpga.isOpen
      modifies writer
      ensures writer.Now() == if flash && ok then FW.Taking(size, []) else FW.Resting
      ensures !flash ==> ok == env.device
    {
      if flash {
        ok := writer.Begin(size);
      } else {
        ok := env.device;
      }
    }

    method BeginTransfer(flash: bool, size: nat, crc: bv32, env: Env, ghost sent: Sent)
      returns (reply: Reply, ghost device: bool)
      requires Flashing(sent)
      modifies fpga, task`suspended, writer
      ensures (BoardView(), reply) == FpgaBeginStep(old(BoardView()), size, crc, flash, env, device)
      ensures Flashing(if reply == Done0 then Sent(flash, size, crc, []) else sent)
    {
      AbortTransfer(sent);
      if size < FPGA_MIN || size > FPGA_MAX {
        reply, device := Failed(4), env.device;
      } else {
        reply, device := BeginSuspended(flash, size, crc, env, sent);
      }
    }

    /** No transfer is open and the size is one for an FPGA: first the Companion, then the device. */
    method BeginSuspended(flash: bool, size: nat, crc: bv32, env: Env, ghost sent: Sent)
      returns (reply: Reply, ghost device: bool)
      requires Flashing(sent) && !fpga.isOpen && FPGA_MIN <= size <= FPGA_MAX
      modifies fpga, task`suspended, writer
      ensures (BoardView(), reply) == FpgaBeginStep(old(BoardView()), size, crc, flash, env, device)
      ensures Flashing(if reply == Done0 then Sent(flash, size, crc, []) else sent)
    {
      var ok := SuspendCompanion(env);
      if ok {
        reply, device := BeginOnDevice(flash, size, crc, env, sent);
      } else {
        reply, device := Failed(5), env.device;
      }
    }

    /** With the Companion out of the way: the device, and then the counters. */
    method BeginOnDevice(flash: bool, size: nat, crc: bv32, env: Env, ghost sent: Sent)
      returns (reply: Reply, ghost device: bool)
      requires Flashing(sent) && !fpga.isOpen && FPGA_MIN <= size <= FPGA_MAX
      modifies fpga, task`suspended, writer
      ensures if device
              then reply == Done0
                   && BoardView() == old(BoardView()).(fpga := Some(Transfer(flash, size, crc, 0, ALL_ONES)))
              else reply == Failed(if flash then 10 else 5) && BoardView() == Resume(old(BoardView()))
      ensures Flashing(if device then Sent(flash, size, crc, []) else sent)
    {
      var ok := OpenDevice(flash, size, env, sent);
      device := ok;
      if ok {
        OpenTransfer(flash, size, crc);
        reply := Done0;
      } else {
        ResumeCompanion();
        reply := Failed(if flash then 10 else 5);
      }
    }

    /** A block for the device. */
    method WriteDevice(block: seq<byte>, env: Env, ghost sent: Sent) returns (ok: bool)
      requires Flashing(sent) && fpga.isOpen && block != []
      modifies writer`address, writer`pageUsed, writer`clean, writer`written, writer.page, writer.chip
      ensures fpga.flash ==> writer.Valid() && (ok ==> writer.Now() == FW.Taking(fpga.size, sent.data + block))
      ensures !fpga.flash ==> writer.Now() == FW.Resting
      ensures !fpga.flash ==> ok == env.device
    {
      if fpga.flash {
        ok := writer.Write(block);
      } else {
        ok := env.device;
      }
    }

    method TransferBlock(block: seq<byte>, env: Env, ghost sent: Sent) returns (reply: Reply, ghost device: bool)
      requires Flashing(sent)
      modifies fpga, task`suspended, writer, writer.page, writer.chip
      ensures (BoardView(), reply) == FpgaDataStep(old(BoardView()), block, env.headerValid, device)
      ensures Flashing(if reply == Done0 then sent.(data := sent.data + block) else sent)
    {
      device := env.device;
      if !fpga.isOpen || block == [] || fpga.received + |block| > fpga.size {
        reply := Failed(6);
      } else if fpga.received == 0 && !env.headerValid {
        AbortTransfer(sent);
        reply := Failed(8);
      } else {
        reply, device := BlockToDevice(block, env, sent);
      }
    }

    /** A block that fits: the device takes it and it is counted, or the transfer is given up. */
    method BlockToDevice(block: seq<byte>, env: Env, ghost sent: Sent) returns (reply: Reply, ghost device: bool)
      requires Flashing(sent) && fpga.isOpen && block != [] && fpga.received + |block| <= fpga.size
      modifies fpga, task`suspended, writer, writer.page, writer.chip
      ensures BoardView() == if device then Counted(old(BoardView()), block) else FpgaAbort(old(BoardView()))
      ensures reply == if device then Done0 else Failed(if old(fpga.flash) then 11 else 7)
      ensures Flashing(if device then sent.(data := sent.data + block) else sent)
    {
      var ok := WriteDevice(block, env, sent);
      device := ok;
      if !ok {
        reply := Failed(if fpga.flash then 11 else 7);
        GiveUpTransfer(sent);
      } else {
        CountBlock(block, sent);
        reply := Done0;
      }
    }

    method CountBlock(block: seq<byte>, ghost sent: Sent)
      requires fpga.isOpen && (fpga.flash ==> |sent.data| == fpga.received && fpga.size <= FPGA_MAX)
      requires writer.Now() == if fpga.flash then FW.Taking(fpga.size, sent.data + block) else FW.Resting
      modifies fpga`running, fpga`received
      ensures BoardView() == Counted(old(BoardView()), block) && Flashing(sent.(data := sent.data + block))
    {
      fpga.running := UpdateCrc32(fpga.running, block);
      fpga.received := fpga.received + |block|;
    }

    /** The end of a transfer whose device has failed. */
    method GiveUpTransfer(ghost sent: Sent)
      requires fpga.isOpen && (if fpga.flash then writer.Valid() else writer.Now() == FW.Resting)
      modifies fpga`isOpen, task`suspended, writer`active, writer`pageUsed
      ensures BoardView() == FpgaAbort(old(BoardView())) && Flashing(sent)
    {
      if fpga.flash {
        writer.Abort();
      }
      fpga.isOpen := false;
      ResumeCompanion();
    }

    /** The device finishes: of the Flash writer this means that the chip holds all that was sent. */
    method FinishDevice(env: Env, ghost sent: Sent) returns (ok: bool)
      requires Flashing(sent) && fpga.isOpen && fpga.received == fpga.size
      modifies writer`active, writer`address, writer`pageUsed, writer`clean, writer.chip
      ensures writer.Now() == FW.Resting && (ok && fpga.flash ==> FlashHolds(sent))
      ensures !fpga.flash ==> ok == env.device
    {
      if fpga.flash {
        ok := writer.Finish();
        if ok {
          FW.Finished(writer.chip.reliable, writer.chip.cells, writer.initial, sent.data);
        }
      } else {
        ok := env.device;
      }
    }

    /**
     * The chip holds exactly what was sent, from zero on; past its last block it is as the opening of
     * the transfer found it, and the commands in between were the planned ones.
     */
    ghost predicate FlashHolds(sent: Sent)
      reads writer`initial, writer`before, writer.chip
    {
      Flash.CeilBlock(|sent.data|) <= |writer.initial| &&
      writer.chip.Shows(|sent.data|) == FW.PictureWith(writer.initial, sent.data, writer.before)
    }

    method ProgramFpga(flash: bool, env: Env, ghost sent: Sent) returns (reply: Reply, ghost device: bool)
      requires Flashing(sent)
      modifies fpga`isOpen, task, writer, writer.page, writer.chip
      ensures (BoardView(), reply) == FpgaProgramStep(old(BoardView()), flash, device)
      ensures Flashing(sent) && (flash && reply == Done0 ==> FlashHolds(sent))
    {
      device := env.device;
      if !fpga.isOpen || fpga.flash != flash {
        reply := Failed(6);
      } else if fpga.received != fpga.size || Complement(fpga.running) != fpga.crc {
        AbortTransfer(sent);
        reply := Failed(8);
      } else {
        reply, device := ProgramDevice(flash, env, sent);
      }
    }

    /** A transfer that is complete and right: the device finishes, and the reply decides what follows it. */
    method ProgramDevice(flash: bool, env: Env, ghost sent: Sent) returns (reply: Reply, ghost device: bool)
      requires Flashing(sent) && fpga.isOpen && fpga.flash == flash
      requires fpga.received == fpga.size && Complement(fpga.running) == fpga.crc
      modifies fpga`isOpen, task, writer, writer.page, writer.chip
      ensures (BoardView(), reply) == FpgaProgramStep(old(BoardView()), flash, device)
      ensures Flashing(sent) && (flash && reply == Done0 ==> FlashHolds(sent))
    {
      var ok := FinishDevice(env, sent);
      device := ok;
      reply := EndProgram(flash, ok, sent);
    }

    /** The transfer is over, and what the device has made of it decides what follows. */
    method EndProgram(flash: bool, ok: bool, ghost sent: Sent) returns (reply: Reply)
      requires fpga.isOpen && fpga.flash == flash && writer.Now() == FW.Resting
      requires fpga.received == fpga.size && Complement(fpga.running) == fpga.crc
      modifies fpga`isOpen, task
      ensures (BoardView(), reply) == FpgaProgramStep(old(BoardView()), flash, ok)
      ensures Flashing(sent) && (reply == Done0 ==> ok)
    {
      fpga.isOpen := false;
      if !ok {
        ResumeCompanion();
        reply := Failed(if flash then 12 else 9);
      } else {
        if !flash && task.recovery {
          task.recovery, task.startAfterTx := false, true;
        } else {
          task.returnPending := true;
        }
        reply := Done0;
      }
    }

    method ProbeFlash(env: Env, ghost sent: Sent) returns (reply: Reply)
      requires Flashing(sent)
      modifies fpga`isOpen, task`suspended, writer`active, writer`pageUsed
      ensures (BoardView(), reply) == ProbeStep(old(BoardView()), env) && Flashing(sent)
    {
      AbortTransfer(sent);
      var ok := SuspendCompanion(env);
      if !ok {
        return Failed(5);
      }
      ResumeCompanion();
      reply := if env.device then Done0 else Failed(10);
    }

    method ServeFpga(command: FpgaRequest, env: Env, ghost sent: Sent) returns (reply: Reply, ghost device: bool)
      requires Flashing(sent)
      modifies fpga, task, writer, writer.page, writer.chip
      ensures (BoardView(), reply) == FpgaStep(old(BoardView()), command, With(env, device))
      ensures Flashing(Tracked(sent, Fpga(command), reply))
      ensures command == Program(true) && reply == Done0 ==> FlashHolds(sent)
    {
      ghost var before := BoardView();
      match command {
        case Misshapen => reply, device := Failed(3), env.device;
        case FlashProbe =>
          device := env.device;
          reply := ProbeFlash(env, sent);
        case Begin(flash, size, crc) => reply, device := BeginTransfer(flash, size, crc, env, sent);
        case TransferData(block) => reply, device := TransferBlock(block, env, sent);
        case Program(flash) => reply, device := ProgramFpga(flash, env, sent);
      }
      CommandWith(before, command, env, device);
    }

    // ----- The link task

    /** A board reset: the program starts anew over the same card and the same chip. */
    method Restart(recovery: bool, ghost sent: Sent)
      requires Flashing(sent)
      modifies this`session, this`file, up, fpga`isOpen, task, writer`active, writer`pageUsed
      ensures View() == Boot(disk, recovery) && Flashing(sent)
    {
      session, file := Idle, Temp;
      up.Restart();
      fpga.isOpen := false;
      writer.Abort();
      task.Restart(recovery);
    }

    /** What waits for the reply to be out: a board reset, the QL reset pulse, resume, start. */
    method FinishReply(env: Env, ghost sent: Sent)
      requires Flashing(sent)
      modifies this`session, this`file, up, fpga`isOpen, task, writer`active, writer`pageUsed
      ensures View() == AfterReply(old(View()), env)
      ensures Flashing(sent)
    {
      if task.returnPending {
        Restart(env.bootsToRecovery, sent);
      } else {
        TakeDeferred(env);
      }
    }

    /** The QL reset pulse, resume and start. */
    method TakeDeferred(ghost env: Env)
      requires !task.returnPending
      modifies task
      ensures View() == AfterReply(old(View()), env)
    {
      task.resetPending := false;
      if task.resumeAfterTx {
        task.resumeAfterTx := false;
        ResumeCompanion();
      }
      if task.startAfterTx {
        task.startAfterTx, task.companion := false, true;
      }
    }

    method Dispatch(r: Request, env: Env, ghost sent: Sent) returns (reply: Reply, ghost device: bool)
      requires Flashing(sent)
      modifies this, up, fpga, task, writer, writer.page, writer.chip
      ensures (View(), reply) == Handle(old(View()), r, With(env, device))
      ensures Flashing(Tracked(sent, r, reply))
      ensures r == Fpga(Program(true)) && reply == Done0 ==> FlashHolds(sent)
    {
      if r.Fpga? {
        reply, device := ServeFpga(r.command, env, sent);
      } else {
        device := env.device;
        SameEnv(env);
        reply := ServeFile(r, env);
      }
    }

    /**
     * One request from its frame to the state in which the link task waits again; `device` is the
     * outcome of the device that the request used, if it used one.  Between requests the variables keep what
     * the protocol promises: a suspended Companion has its reason, the file of an open upload is what
     * was accepted, a replacement has not lost the file it replaces, and the Flash writer has taken
     * what was sent.  An acknowledged FLASH_PROGRAM means that the chip holds it.
     */
    method ServeRequest(r: Request, env: Env, ghost sent: Sent) returns (reply: Reply, ghost device: bool)
      requires Flashing(sent)
      modifies this, up, fpga, task, writer, writer.page, writer.chip
      ensures (View(), reply) == Serve(old(View()), r, With(env, device))
      ensures Flashing(Tracked(sent, r, reply))
      ensures r == Fpga(Program(true)) && reply == Done0 ==> FlashHolds(sent)
      ensures old(NotStranded(View())) ==> NotStranded(View())
      ensures old(UploadOk(View())) && HonestEvent(old(View()), Receive(r, With(env, device))) ==> UploadOk(View())
      ensures forall p: Replacement :: Promised(old(View()), p, Receive(r, With(env, device))) ==> Replacing(View(), p)
    {
      ghost var before := View();
      reply, device := AnswerRequest(r, env, sent);
      KeepsAll(before, Receive(r, With(env, device)));
    }

    /** The handler, and then what it has left for after the reply. */
    method AnswerRequest(r: Request, env: Env, ghost sent: Sent) returns (reply: Reply, ghost device: bool)
      requires Flashing(sent)
      modifies this, up, fpga, task, writer, writer.page, writer.chip
      ensures (View(), reply) == Serve(old(View()), r, With(env, device))
      ensures Flashing(Tracked(sent, r, reply))
      ensures r == Fpga(Program(true)) && reply == Done0 ==> FlashHolds(sent)
    {
      reply, device := Dispatch(r, env, sent);
      ReplyWith(View(), env, device);
      FinishReply(env, Tracked(sent, r, reply));
    }

    /** The link task notices a USB reset or a disconnection. */
    method NoticeUsbReset(env: Env, ghost sent: Sent)
      requires Flashing(sent)
      modifies this`disk, this`session, fpga`isOpen, task`suspended, writer`active, writer`pageUsed
      ensures View() == UsbReset(old(View()), env) && Flashing(sent)
      ensures !task.suspended && session == Idle && !fpga.isOpen
      ensures forall p: Replacement :: old(Replacing(View(), p)) ==> Replacing(View(), p)
    {
      ghost var before := View();
      AbortSession(env);
      AbortTransfer(sent);
      ResumeCompanion();
      KeepsAll(before, Reset(env));
    }

    /** One event of the link task. */
    method TakeEvent(e: Event, ghost sent: Sent) returns (ghost done: Event)
      requires Flashing(sent)
      modifies this, up, fpga, task, writer, writer.page, writer.chip
      ensures SameEvent(done, e) && View() == Next(old(View()), done)
      ensures Flashing(SentAfter(sent, old(View()), done))
      ensures Programs(old(View()), done) ==> FlashHolds(sent)
    {
      match e {
        case Receive(r, env) =>
          var reply;
          ghost var device;
          reply, device := ServeRequest(r, env, sent);
          done := Receive(r, With(env, device));
        case Reset(env) =>
          NoticeUsbReset(env, sent);
          done := e;
      }
    }

    /**
     * The link task over any requests and resets; `done` is `events` with the outcomes of the devices.
     * If the last of them is a FLASH_PROGRAM that is acknowledged, the chip holds exactly the blocks
     * acknowledged since the transfer was opened, and they have the size and CRC-32 announced then.
     */
    method RunTask(events: seq<Event>) returns (ghost done: seq<Event>)
      requires Flashing(Nothing()) && !fpga.isOpen
      modifies this, up, fpga, task, writer, writer.page, writer.chip
      ensures SameEvents(done, events)
      ensures View() == Run(old(View()), done)
      ensures Flashing(SentBy(old(View()), done))
      ensures ProgramsLast(old(View()), done) ==>
                var sent := SentBy(old(View()), done[..|done| - 1]);
                FlashHolds(sent) && |sent.data| == sent.size && Crc32(sent.data) == sent.crc
      ensures old(NotStranded(View())) ==> NotStranded(View())
      ensures old(UploadOk(View())) && HonestRun(old(View()), done) ==> UploadOk(View())
      ensures forall p: Replacement ::
                old(Replacing(View(), p)) && HonestRun(old(View()), done) && Undisturbed(old(View()), p, done) ==>
                  Safe(disk, p)
    {
      ghost var start := View();
      done := TakeEvents(events);
      RunKeepsAll(start, done);
      ProgramVerified(start, done);
    }

    /** The events one after the other. */
    method TakeEvents(events: seq<Event>) returns (ghost done: seq<Event>)
      requires Flashing(Nothing()) && !fpga.isOpen
      modifies this, up, fpga, task, writer, writer.page, writer.chip
      ensures SameEvents(done, events) && View() == Run(old(View()), done)
      ensures Flashing(SentBy(old(View()), done))
      ensures ProgramsLast(old(View()), done) ==> FlashHolds(SentBy(old(View()), done[..|done| - 1]))
    {
      ghost var start, sent, programmed, prior := View(), Nothing(), false, Nothing();
      done := [];
      for i := 0 to |events|
        invariant SameEvents(done, events[..i])
        invariant Follows(start, done, View(), sent, programmed, prior)
        invariant Flashing(sent) && (programmed ==> FlashHolds(prior))
      {
        ghost var before, e := View(), events[i];
        e := TakeEvent(events[i], sent);
        FollowsOn(start, done, before, sent, programmed, prior, e);
        SameOneMore(done, events, i, e);
        programmed, prior, sent, done := Programs(before, e), sent, SentAfter(sent, before, e), done + [e];
      }
      assert events[..|events|] == events;
    }
  }

  /** A board whose open transfer has taken a block more. */
  ghost function Counted(b: Board, block: seq<byte>): Board
    requires b.fpga.Some?
  {
    var t := b.fpga.value;
    b.(fpga := Some(t.(running := CrcUpdate(t.running, block), received := t.received + |block|)))
  }

  /** The same outcomes of all calls, but for what the device has made of its own. */
  ghost function With(env: Env, device: bool): Env {
    env.(device := device)
  }

  lemma SameEnv(env: Env)
    ensures With(env, env.device) == env
  {
  }

  lemma ReplyWith(s: Server, env: Env, device: bool)
    ensures AfterReply(s, With(env, device)) == AfterReply(s, env)
  {
  }

  lemma SuspendWith(b: Board, env: Env, device: bool)
    ensures Suspend(b, With(env, device)) == Suspend(b, env)
  {
  }

  lemma BeginWith(b: Board, size: nat, crc: bv32, flash: bool, env: Env, device: bool)
    ensures FpgaBeginStep(b, size, crc, flash, With(env, device), device)
         == FpgaBeginStep(b, size, crc, flash, env, device)
  {
    SuspendWith(FpgaAbort(b), env, device);
  }

  /** A command in an environment that has the device's outcome. */
  lemma CommandWith(b: Board, command: FpgaRequest, env: Env, device: bool)
    ensures FpgaStep(b, command, With(env, device)) ==
            match command
            case Misshapen => (b, Failed(3))
            case FlashProbe => ProbeStep(b, With(env, device))
            case Begin(flash, size, crc) => FpgaBeginStep(b, size, crc, flash, env, device)
            case TransferData(block) => FpgaDataStep(b, block, env.headerValid, device)
            case Program(flash) => FpgaProgramStep(b, flash, device)
  {
    if command.Begin? {
      BeginWith(b, command.size, command.crc, command.flash, env, device);
    }
  }

  /** Nothing has been sent yet. */
  ghost function Nothing(): Sent {
    Sent(false, 0, 0, [])
  }

  /** The same event but for what the device it used has made of it. */
  ghost predicate SameEvent(done: Event, e: Event) {
    match e
    case Reset(_) => done == e
    case Receive(r, env) => done.Receive? && done.request == r && done.env == With(env, done.env.device)
  }

  ghost predicate SameEvents(done: seq<Event>, events: seq<Event>) {
    |done| == |events| && forall i :: 0 <= i < |events| ==> SameEvent(done[i], events[i])
  }

  lemma SameOneMore(done: seq<Event>, events: seq<Event>, i: nat, e: Event)
    requires i < |events| && SameEvents(done, events[..i]) && SameEvent(e, events[i])
    ensures SameEvents(done + [e], events[..i + 1])
  {
    assert forall k :: 0 <= k < i ==> events[..i + 1][k] == events[..i][k];
  }

  /** What has been sent, one event later. */
  ghost function SentAfter(sent: Sent, s: Server, e: Event): Sent {
    if e.Reset? then sent else Tracked(sent, e.request, Serve(s, e.request, e.env).1)
  }

  /** The event is a FLASH_PROGRAM, and it is acknowledged. */
  ghost predicate Programs(s: Server, e: Event) {
    e.Receive? && e.request == Fpga(Program(true)) && Serve(s, e.request, e.env).1 == Done0
  }

  ghost predicate ProgramsLast(s: Server, events: seq<Event>) {
    events != [] && Programs(Run(s, events[..|events| - 1]), events[|events| - 1])
  }

  lemma ProgramVerified(s: Server, events: seq<Event>)
    requires s.board.fpga.None?
    ensures ProgramsLast(s, events) ==>
              var sent := SentBy(s, events[..|events| - 1]); |sent.data| == sent.size && Crc32(sent.data) == sent.crc
  {
    if ProgramsLast(s, events) {
      ProgramsExactlyVerified(s, events[..|events| - 1], true, events[|events| - 1].env);
    }
  }

  /** Where a run has come to: the state, what has been sent, and what was before its last event. */
  ghost predicate Follows(start: Server, done: seq<Event>, s: Server, sent: Sent, programmed: bool, prior: Sent) {
    && s == Run(start, done) && sent == SentBy(start, done) && programmed == ProgramsLast(start, done)
    && (done != [] ==> prior == SentBy(start, done[..|done| - 1]))
  }

  lemma FollowsOn(start: Server, done: seq<Event>, s: Server, sent: Sent, programmed: bool, prior: Sent, e: Event)
    requires Follows(start, done, s, sent, programmed, prior)
    ensures Follows(start, done + [e], Next(s, e), SentAfter(sent, s, e), Programs(s, e), sent)
  {
    OneEventMore(start, done, e);
  }

  lemma OneEventMore(s: Server, events: seq<Event>, e: Event)
    ensures Run(s, events + [e]) == Next(Run(s, events), e)
    ensures SentBy(s, events + [e]) == SentAfter(SentBy(s, events), Run(s, events), e)
    ensures ProgramsLast(s, events + [e]) <==> Programs(Run(s, events), e)
    ensures (events + [e])[..|events + [e]| - 1] == events
  {
    assert (events + [e])[..|events + [e]| - 1] == events;
  }

  /** The counters after a write, with the sync that was due if any. */
  ghost function AfterWrite(u: Upload, end: nat, ok: bool, due: bool): Upload {
    if !due then u else if ok then Synced(u, end) else Tried(u, end, due)
  }

  /** The two ways a block goes on once its write has been tried. */
  lemma DataCases(s: Server, offset: nat, block: seq<byte>, env: Env, mid: Server)
    requires block != [] && s.session == Putting && BlockAccepted(s.up, offset, |block|)
    requires var (disk, code, due) := WriteBlock(s, offset, block, env);
             mid == s.(disk := disk, up := AfterWrite(s.up, offset + |block|, code == Ok, due))
    ensures PutDataStep(s, offset, block, env)
         == Continued(s, mid, WriteBlock(s, offset, block, env).1, offset, block, env)
  {
  }

  ghost function Continued(s: Server, mid: Server, code: Code, offset: nat, block: seq<byte>, env: Env)
    : (Server, Reply)
  {
    if code != Ok || WriteCount(env.write, |block|) != |block| then
      (Abort(mid, env), Failed(if code == Ok then 23 else ErrorOf(code)))
    else
      var u := if offset == s.up.received then Certified(Grown(mid.up, block)) else mid.up;
      DataAnswer(mid.(up := u), offset + |block|)
  }

  /** A replacement is under way or over, and the event is one that its promise covers. */
  ghost predicate Promised(s: Server, p: Replacement, e: Event) {
    Replacing(s, p) && HonestEvent(s, e) && !Disturbs(s, p, e)
  }

  lemma KeepsAll(s: Server, e: Event)
    ensures NotStranded(s) ==> NotStranded(Next(s, e))
    ensures UploadOk(s) && HonestEvent(s, e) ==> UploadOk(Next(s, e))
    ensures forall p: Replacement :: Promised(s, p, e) ==> Replacing(Next(s, e), p)
  {
    if NotStranded(s) {
      match e {
        case Receive(r, env) => ServeKeepsCompanion(s, r, env);
        case Reset(env) => ResetReleasesCompanion(s, env);
      }
    }
    if UploadOk(s) && HonestEvent(s, e) {
      NextKeepsUpload(s, e);
    }
    forall p: Replacement | Promised(s, p, e) ensures Replacing(Next(s, e), p) {
      NextReplacing(s, p, e);
    }
  }

  lemma {:induction false} RunNeverStranded(s: Server, events: seq<Event>)
    requires NotStranded(s)
    ensures NotStranded(Run(s, events))
    decreases |events|
  {
    if events != [] {
      RunNeverStranded(s, events[..|events| - 1]);
      KeepsAll(Run(s, events[..|events| - 1]), events[|events| - 1]);
    }
  }

  lemma RunKeepsAll(s: Server, events: seq<Event>)
    ensures NotStranded(s) ==> NotStranded(Run(s, events))
    ensures UploadOk(s) && HonestRun(s, events) ==> UploadOk(Run(s, events))
    ensures forall p: Replacement ::
              Replacing(s, p) && HonestRun(s, events) && Undisturbed(s, p, events) ==> Safe(Run(s, events).disk, p)
  {
    if NotStranded(s) {
      RunNeverStranded(s, events);
    }
    if UploadOk(s) && HonestRun(s, events) {
      UploadInvariant(s, events);
    }
    forall p: Replacement | Replacing(s, p) && HonestRun(s, events) && Undisturbed(s, p, events)
      ensures Safe(Run(s, events).disk, p)
    {
      RunReplacing(s, p, events);
      ReplacingIsSafe(Run(s, events), p);
    }
  }
}
