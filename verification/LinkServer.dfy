/**
 * The link firmware as a state machine: one upload, listing or download session over the card, an
 * FPGA programming session, and the Companion task that is suspended while one of them needs the bus.
 *
 * Every call that can fail takes its outcome from an Env, so a step is a function of the state, the
 * request and the environment; all faults, losses and resets are choices of Env and of the step list.
 */
module LinkServer {
  import opened Bytes
  import opened Checksums
  import opened LinkDisk

  const CHUNK: nat := 240
  const SYNC_INTERVAL: nat := 4096
  const MAX32: nat := 0xFFFF_FFFF
  const FPGA_MIN: nat := 0x4_0000
  const FPGA_MAX: nat := 0x20_0000

  datatype Option<T> = None | Some(value: T)

  datatype Session = Idle | Listing | Putting | Getting

  /**
   * One upload.  `log` is every byte accepted as new, in order, and `synced` how many of them the
   * card has been told to keep; the firmware holds neither, they are what its counters stand for.
   */
  datatype Upload = Upload(
    target: Path, size: nat, crc: bv32,
    received: nat, running: bv32, nextSync: nat, finalSynced: bool,
    phase: nat, backup: bool, direct: bool, commitSize: nat, commitCrc: bv32,
    log: seq<byte>, synced: nat)

  /** An open FPGA transfer, into the configuration Flash or straight into SRAM. */
  datatype Transfer = Transfer(flash: bool, size: nat, crc: bv32, received: nat, running: bv32)

  /** The Companion task and everything that suspends or resumes it. */
  datatype Board = Board(
    companion: bool, suspended: bool, sync: bool, fpga: Option<Transfer>, recovery: bool,
    resumeAfterTx: bool, startAfterTx: bool, returnPending: bool, resetPending: bool)

  datatype Server = Server(disk: Disk, session: Session, file: Path, up: Upload, board: Board)

  /** The outcomes of the calls one step may make. */
  datatype Env = Env(
    sdReady: bool, lock: bool, spi: bool,
    parent: Fault, stat: Fault, open: Fault, unlink: Fault, rename: Fault, rollback: Fault,
    seek: Fault, write: WriteFault, sync: Fault, read: Fault,
    mount: bool, device: bool, headerValid: bool, lastEntry: bool, bootsToRecovery: bool)

  /** A decoded request; Malformed and Misshapen are commands of a wrong length or of an unknown kind. */
  datatype Request =
    | Malformed
    | Info
    | ListBegin(valid: bool) | ListNext
    | PutBegin(size: nat, crc: bv32, path: Option<string>)
    | PutData(offset: nat, block: seq<byte>)
    | PutCommit
    | GetBegin(path: Option<string>) | GetData(offset: nat, count: nat) | GetEnd
    | Delete(path: Option<string>) | Mkdir(valid: bool)
    | Cancel
    | MdvControl(operation: nat)
    | Fpga(command: FpgaRequest)

  /** The commands from 0xF0 on, which go to the FPGA handler. */
  datatype FpgaRequest =
    | Misshapen
    | FlashProbe
    | Begin(flash: bool, size: nat, crc: bv32)
    | TransferData(block: seq<byte>)
    | Program(flash: bool)

  datatype Reply =
    | Failed(code: nat)
    | Done0
    | Opened(direct: bool)
    | Acked(offset: nat)
    | AckedVerified(offset: nat, size: nat, crc: bv32)
    | Phase(phase: nat)
    | Verified(size: nat, crc: bv32)
    | Size(size: nat)
    | Data(block: seq<byte>)

  function ErrorOf(c: Code): nat {
    match c
    case Ok => 0
    case NotReady => 20
    case NoFile => 25
    case Exist => 26
    case WriteProtected => 28
    case Denied => 29
    case DiskErr => 0x41
    case IntErr => 0x42
    case InvalidObject => 0x49
  }

  // ----- The Companion task

  /** Suspending needs the card and the SPI bus; with no task or one already suspended it is a no-op. */
  function Suspend(b: Board, env: Env): (Board, bool) {
    if !b.companion || b.suspended then (b, true)
    else if !env.lock || !env.spi then (b, false)
    else (b.(suspended := true), true)
  }

  function Resume(b: Board): Board {
    b.(suspended := false)
  }

  function FpgaAbort(b: Board): Board {
    if b.fpga.Some? then Resume(b.(fpga := None)) else b
  }

  // ----- Sessions

  function Close(s: Server, remove: bool, env: Env): Server {
    if remove && s.session == Putting && !s.up.direct
    then s.(disk := Unlink(s.disk, Temp, env.unlink).0, session := Idle)
    else s.(session := Idle)
  }

  /** Cancel, USB reset and failed transfers all end here. */
  function Abort(s: Server, env: Env): Server {
    if s.session == Idle then s
    else
      var closed := if env.sdReady && env.lock then Close(s, true, env) else s.(session := Idle);
      closed.(board := Resume(s.board))
  }

  const MDV_IMAGE: Path := Drive("MDV1.mdv")

  /** Chooses between updating the target in place and filling the temporary file, and opens it. */
  function PutOpen(d: Disk, target: Path, size: nat, env: Env): (r: (Disk, Code, bool)) {
    var found := Stat(d, target, env.stat);
    var isFile := target in d && d[target].File?;
    var force := target == MDV_IMAGE;
    if found == Ok && isFile && |d[target].data| == size then
      var code := OpenExisting(d, target, env.open);
      (d, code, code == Ok)
    else if force && (found == NoFile || (found == Ok && isFile)) then
      var (d', code) := Create(d, target, env.open);
      (d', code, code == Ok)
    else if force && found == Ok then (d, Denied, false)
    else if found != Ok && found != NoFile then (d, found, false)
    else
      var (d1, c1) := Unlink(d, Temp, env.unlink);
      if c1 != Ok && c1 != NoFile then (d1, c1, false)
      else
        var (d2, c2) := Create(d1, Temp, env.open);
        (d2, c2, false)
  }

  function FreshUpload(target: Path, size: nat, crc: bv32, direct: bool): Upload {
    Upload(target, size, crc, 0, ALL_ONES, SYNC_INTERVAL, false, 0, false, direct, 0, 0, [], 0)
  }

  /** A new upload; the verification of an earlier one stays behind until it is replaced. */
  function Opening(u: Upload, target: Path, size: nat, crc: bv32, direct: bool): Upload {
    FreshUpload(target, size, crc, direct).(commitSize := u.commitSize, commitCrc := u.commitCrc)
  }

  /** The parent directory, and then the file. */
  function Prepare(d: Disk, target: Path, size: nat, env: Env): (r: (Disk, Code, bool)) {
    if env.parent != NoFault then (d, FaultCode(env.parent, Ok), false) else PutOpen(d, target, size, env)
  }

  /** With the Companion out of the way: the file, and the session. */
  function OpenStep(s: Server, size: nat, crc: bv32, target: Path, env: Env): (Server, Reply) {
    var (disk, code, direct) := Prepare(s.disk, target, size, env);
    if code == Ok then
      (Server(disk, Putting, if direct then target else Temp, Opening(s.up, target, size, crc, direct), s.board),
       Opened(direct))
    else
      (s.(disk := disk, up := s.up.(direct := direct), board := Resume(s.board)), Failed(ErrorOf(code)))
  }

  function PutBeginStep(s: Server, size: nat, crc: bv32, path: Option<string>, env: Env): (Server, Reply) {
    if s.session != Idle then (s, Failed(22))
    else if path.None? then (s, Failed(21))
    else
      var (board, suspended) := Suspend(s.board, env);
      if !suspended then (s, Failed(23)) else OpenStep(s.(board := board), size, crc, Drive(path.value), env)
  }

  /** The next position at which the firmware will sync, once data reaches `end`. */
  function Advance(next: nat, end: nat): nat
    decreases if next <= end then end - next + 1 else 0
  {
    if next <= end && next <= MAX32 - SYNC_INTERVAL then Advance(next + SYNC_INTERVAL, end) else next
  }

  predicate BlockAccepted(u: Upload, offset: nat, length: nat) {
    && length <= CHUNK
    && offset <= u.size && length <= u.size - offset
    && offset <= u.received
    && (offset < u.received ==> length <= u.received - offset)
  }

  /** The write of one block, and the sync that may follow: the disk, the code, whether a sync was due. */
  function WriteBlock(s: Server, offset: nat, block: seq<byte>, env: Env): (Disk, Code, bool) {
    var u := s.up;
    var end := offset + |block|;
    if u.phase > 0 then (s.disk, InvalidObject, false)
    else if env.seek != NoFault then (s.disk, FaultCode(env.seek, Ok), false)
    else
      var count := WriteCount(env.write, |block|);
      var disk := WriteFile(s.disk, s.file, offset, block[..count]);
      if WriteCode(env.write) != Ok then (disk, WriteCode(env.write), false)
      else if count == |block| && offset == u.received && (end >= u.nextSync || end == u.size)
        then (disk, FaultCode(env.sync, Ok), true)
      else (disk, Ok, false)
  }

  /** The counters after the sync that was due at `end`. */
  function Synced(u: Upload, end: nat): Upload {
    u.(finalSynced := u.finalSynced || end == u.size, nextSync := Advance(u.nextSync, end), synced := end)
  }

  /** The counters after a block failed: a sync that was due moves its position even so. */
  function Tried(u: Upload, end: nat, due: bool): Upload {
    if due then u.(nextSync := Advance(u.nextSync, end)) else u
  }

  /** The counters after new bytes. */
  function Grown(u: Upload, block: seq<byte>): Upload {
    u.(received := u.received + |block|, running := CrcUpdate(u.running, block), log := u.log + block)
  }

  /** In direct mode the block that completes a good upload also commits it. */
  function Certified(u: Upload): Upload {
    var final := Complement(u.running);
    if u.direct && u.finalSynced && u.received == u.size && final == u.crc
    then u.(commitSize := u.received, commitCrc := final, phase := 4)
    else u
  }

  /** The counters after a block was written in full. */
  function AfterBlock(u: Upload, offset: nat, block: seq<byte>, due: bool): Upload {
    var v := if due then Synced(u, offset + |block|) else u;
    if offset != u.received then v else Certified(Grown(v, block))
  }

  function ResumeLater(b: Board): Board {
    if b.sync then b else b.(resumeAfterTx := true)
  }

  /** The acknowledgement, which closes the session when it certifies a whole direct update. */
  function DataAnswer(s: Server, end: nat): (Server, Reply) {
    if s.up.direct && s.up.phase == 4
    then (s.(session := Idle, board := ResumeLater(s.board)), AckedVerified(end, s.up.commitSize, s.up.commitCrc))
    else (s, Acked(end))
  }

  function PutDataStep(s: Server, offset: nat, block: seq<byte>, env: Env): (Server, Reply) {
    if block == [] then (s, Failed(3))
    else if s.session != Putting then (s, Failed(22))
    else if !BlockAccepted(s.up, offset, |block|) then (s, Failed(3))
    else
      var (disk, code, due) := WriteBlock(s, offset, block, env);
      if code != Ok || WriteCount(env.write, |block|) != |block|
      then (Abort(s.(disk := disk, up := Tried(s.up, offset + |block|, due)), env),
            Failed(if code == Ok then 23 else ErrorOf(code)))
      else
        DataAnswer(s.(disk := disk, up := AfterBlock(s.up, offset, block, due)), offset + |block|)
  }

  // ----- The four commit phases

  /** Whether a measured upload passes: the last sync, then size and CRC against what was announced. */
  function CheckCode(u: Upload, env: Env): Code {
    var code := if u.finalSynced then Ok else FaultCode(env.sync, Ok);
    if code == Ok && (u.received != u.size || u.commitSize != u.size || u.commitCrc != u.crc) then IntErr else code
  }

  /** Phase 0. */
  function CommitCheck(s: Server, env: Env): (Server, Code) {
    var u := s.up.(commitCrc := Complement(s.up.running), commitSize := Min(|Content(s.disk, s.file)|, MAX32));
    var code := CheckCode(u, env);
    (s.(up := if code == Ok then u.(phase := if u.direct then 4 else 1, synced := u.received) else u), code)
  }

  /** Phase 1: move an existing target out of the way. */
  function CommitBackup(s: Server, env: Env): (Server, Code) {
    var found := Stat(s.disk, s.up.target, env.stat);
    if found == Ok then
      if s.disk[s.up.target].Directory? then (s, Denied)
      else
        var cleared := Unlink(s.disk, Backup, env.unlink).0;
        var (disk, code) := Rename(cleared, s.up.target, Backup, env.rename);
        (s.(disk := disk, up := s.up.(backup := code == Ok, phase := if code == Ok then 2 else 1)), code)
    else if found == NoFile then (s.(up := s.up.(phase := 2)), Ok)
    else (s, found)
  }

  /** Phase 2: install the temporary file. */
  function CommitInstall(s: Server, env: Env): (Server, Code) {
    var (disk, code) := Rename(s.disk, Temp, s.up.target, env.rename);
    (s.(disk := disk, up := s.up.(phase := if code == Ok then 3 else 2)), code)
  }

  /** Phase 3: drop the backup. */
  function CommitClean(s: Server, env: Env): (Server, Code) {
    if !s.up.backup then (s.(up := s.up.(phase := 4)), Ok)
    else
      var (disk, code) := Unlink(s.disk, Backup, env.unlink);
      if code == Ok || code == NoFile then (s.(disk := disk, up := s.up.(phase := 4)), Ok)
      else (s.(disk := disk), code)
  }

  function CommitPhase(s: Server, env: Env): (Server, Code) {
    match s.up.phase
    case 0 => CommitCheck(s, env)
    case 1 => CommitBackup(s, env)
    case 2 => CommitInstall(s, env)
    case _ => CommitClean(s, env)
  }

  /** A failed phase tries to put the backup back and gives up the session. */
  function CommitFailed(s: Server, env: Env): Server {
    var disk := if s.up.backup && !s.up.direct then Rename(s.disk, Backup, s.up.target, env.rollback).0 else s.disk;
    s.(disk := disk, session := Idle, board := Resume(s.board))
  }

  function CommitStep(s: Server, env: Env): (Server, Reply) {
    if s.session != Putting then (s, Failed(22))
    else if s.up.phase < 4 && !env.lock then (s, Failed(23))
    else
      var (s', code) := if s.up.phase < 4 then CommitPhase(s, env) else (s, Ok);
      if code != Ok then (CommitFailed(s', env), Failed(if code == IntErr then 24 else ErrorOf(code)))
      else if s'.up.phase < 4 then (s', Phase(s'.up.phase))
      else (s'.(session := Idle, board := ResumeLater(s'.board)), Verified(s'.up.commitSize, s'.up.commitCrc))
  }

  // ----- Downloads and the rest of the filesystem commands

  function GetBeginStep(s: Server, path: Option<string>, env: Env): (Server, Reply) {
    if s.session != Idle then (s, Failed(22))
    else if path.None? then (s, Failed(21))
    else
      var code := OpenExisting(s.disk, Drive(path.value), env.open);
      if code != Ok then (s, Failed(ErrorOf(code)))
      else if |Content(s.disk, Drive(path.value))| > MAX32 then (s, Failed(ErrorOf(InvalidObject)))
      else (s.(session := Getting, file := Drive(path.value)), Size(|Content(s.disk, Drive(path.value))|))
  }

  function ReadAt(data: seq<byte>, offset: nat, count: nat): seq<byte> {
    if offset >= |data| then [] else data[offset..Min(offset + count, |data|)]
  }

  function GetDataStep(s: Server, offset: nat, count: nat, env: Env): (Server, Reply) {
    if s.session != Getting then (s, Failed(22))
    else if count == 0 || count > CHUNK then (s, Failed(3))
    else if env.read != NoFault then (Abort(s, env), Failed(ErrorOf(FaultCode(env.read, Ok))))
    else (s, Data(ReadAt(Content(s.disk, s.file), offset, count)))
  }

  function MdvStep(s: Server, operation: nat, env: Env): (Server, Reply) {
    var b := s.board;
    if s.session != Idle then (s, Failed(22))
    else if operation == 0 then
      var (board, suspended) := Suspend(b, env);
      if !suspended then (s, Failed(23))
      else if !env.mount then (s.(board := Resume(board.(sync := false))), Failed(25))
      else (s.(board := board.(sync := true)), Done0)
    else if operation == 1 then
      if !env.mount then (s.(board := Resume(b.(sync := false))), Failed(25))
      else (s.(board := b.(resetPending := true, sync := false, resumeAfterTx := true)), Done0)
    else if operation == 2 then (s, Done0)
    else if operation == 3 then
      if !b.sync then (s, Failed(22)) else if !env.mount then (s, Failed(25)) else (s, Done0)
    else if operation == 4 || operation == 5 then
      if !b.sync then (s, Failed(22)) else (s.(board := b.(sync := false, resumeAfterTx := true)), Done0)
    else (s, Failed(3))
  }

  function DeleteStep(s: Server, path: Option<string>, env: Env): (Server, Reply) {
    if s.session != Idle then (s, Failed(22))
    else if path.None? then (s, Failed(21))
    else
      var (disk, code) := Unlink(s.disk, Drive(path.value), env.unlink);
      if code != Ok then (s.(disk := disk), Failed(ErrorOf(code))) else (s.(disk := disk), Done0)
  }

  function MkdirReply(session: Session, valid: bool, env: Env): Reply {
    if session != Idle then Failed(22)
    else if !valid then Failed(21)
    else if env.parent != NoFault then Failed(ErrorOf(FaultCode(env.parent, Ok)))
    else Done0
  }

  function ListStep(s: Server, begin: bool, valid: bool, env: Env): (Server, Reply) {
    if begin then
      if s.session != Idle then (s, Failed(22))
      else if !valid then (s, Failed(21))
      else if env.open != NoFault then (s, Failed(ErrorOf(FaultCode(env.open, Ok))))
      else (s.(session := Listing), Done0)
    else if s.session != Listing then (s, Failed(22))
    else if env.read != NoFault then (s.(session := Idle), Failed(ErrorOf(FaultCode(env.read, Ok))))
    else if env.lastEntry then (s.(session := Idle), Done0)
    else (s, Done0)
  }

  function FileStep(s: Server, r: Request, env: Env): (Server, Reply) {
    if !env.sdReady then (s, Failed(20))
    else
      match r
      case Info => if !env.lock then (s, Failed(23)) else (s, Done0)
      case ListBegin(valid) => ListStep(s, true, valid, env)
      case ListNext => ListStep(s, false, true, env)
      case PutBegin(size, crc, path) => PutBeginStep(s, size, crc, path, env)
      case PutData(offset, block) => PutDataStep(s, offset, block, env)
      case PutCommit => CommitStep(s, env)
      case GetBegin(path) => GetBeginStep(s, path, env)
      case GetData(offset, count) => GetDataStep(s, offset, count, env)
      case GetEnd => if s.session != Getting then (s, Failed(22)) else (s.(session := Idle), Done0)
      case Delete(path) => DeleteStep(s, path, env)
      case Mkdir(valid) => (s, MkdirReply(s.session, valid, env))
      case Cancel => (Abort(s, env), Done0)
      case MdvControl(operation) => MdvStep(s, operation, env)
      case Malformed => (s, Failed(3))
      case Fpga(_) => (s, Failed(3))
  }

  // ----- FPGA programming

  function FpgaBeginStep(b0: Board, size: nat, crc: bv32, flash: bool, env: Env, device: bool): (Board, Reply) {
    var b := FpgaAbort(b0);
    if size < FPGA_MIN || size > FPGA_MAX then (b, Failed(4))
    else
      var (board, suspended) := Suspend(b, env);
      if !suspended then (b, Failed(5))
      else if !device then (Resume(board), Failed(if flash then 10 else 5))
      else (board.(fpga := Some(Transfer(flash, size, crc, 0, ALL_ONES))), Done0)
  }

  function FpgaDataStep(b: Board, block: seq<byte>, headerValid: bool, device: bool): (Board, Reply) {
    if b.fpga.None? || block == [] || b.fpga.value.received + |block| > b.fpga.value.size then (b, Failed(6))
    else
      var t := b.fpga.value;
      if t.received == 0 && !headerValid then (FpgaAbort(b), Failed(8))
      else if !device then (FpgaAbort(b), Failed(if t.flash then 11 else 7))
      else (b.(fpga := Some(t.(running := CrcUpdate(t.running, block), received := t.received + |block|))), Done0)
  }

  function FpgaProgramStep(b: Board, flash: bool, device: bool): (Board, Reply) {
    if b.fpga.None? || b.fpga.value.flash != flash then (b, Failed(6))
    else if b.fpga.value.received != b.fpga.value.size || Complement(b.fpga.value.running) != b.fpga.value.crc
      then (FpgaAbort(b), Failed(8))
    else
      var closed := b.(fpga := None);
      if !device then (Resume(closed), Failed(if flash then 12 else 9))
      else if !flash && b.recovery then (closed.(recovery := false, startAfterTx := true), Done0)
      else (closed.(returnPending := true), Done0)
  }

  function ProbeStep(b0: Board, env: Env): (Board, Reply) {
    var b := FpgaAbort(b0);
    var (board, suspended) := Suspend(b, env);
    if !suspended then (b, Failed(5)) else (Resume(board), if env.device then Done0 else Failed(10))
  }

  function FpgaStep(b: Board, command: FpgaRequest, env: Env): (Board, Reply) {
    match command
    case Misshapen => (b, Failed(3))
    case FlashProbe => ProbeStep(b, env)
    case Begin(flash, size, crc) => FpgaBeginStep(b, size, crc, flash, env, env.device)
    case TransferData(block) => FpgaDataStep(b, block, env.headerValid, env.device)
    case Program(flash) => FpgaProgramStep(b, flash, env.device)
  }

  /** The command handlers. */
  function Handle(s: Server, r: Request, env: Env): (Server, Reply) {
    if r.Fpga? then
      var (board, reply) := FpgaStep(s.board, r.command, env);
      (s.(board := board), reply)
    else FileStep(s, r, env)
  }

  // ----- The link task around them

  /** A board that has just booted, autonomously or into recovery without a Companion task. */
  function BootBoard(recovery: bool): Board {
    Board(!recovery, false, false, None, recovery, false, false, false, false)
  }

  function Boot(disk: Disk, recovery: bool): Server {
    Server(disk, Idle, Temp, FreshUpload(Temp, 0, 0, false), BootBoard(recovery))
  }

  /** What the link task does once the reply is out: board reset, QL reset pulse, resume, start. */
  function AfterReply(s: Server, env: Env): Server {
    if s.board.returnPending then Boot(s.disk, env.bootsToRecovery)
    else
      var b1 := s.board.(resetPending := false);
      var b2 := if b1.resumeAfterTx then Resume(b1.(resumeAfterTx := false)) else b1;
      var b3 := if b2.startAfterTx then b2.(startAfterTx := false, companion := true) else b2;
      s.(board := b3)
  }

  /** One request, served completely: the next state in which the link task waits for input, and the reply. */
  function Serve(s: Server, r: Request, env: Env): (Server, Reply) {
    var (s', reply) := Handle(s, r, env);
    (AfterReply(s', env), reply)
  }

  /** A USB reset or disconnection, as the link task notices it. */
  function UsbReset(s: Server, env: Env): Server {
    var aborted := Abort(s, env);
    aborted.(board := Resume(FpgaAbort(aborted.board)))
  }

  datatype Event = Receive(request: Request, env: Env) | Reset(env: Env)

  function Next(s: Server, e: Event): Server {
    match e
    case Receive(r, env) => Serve(s, r, env).0
    case Reset(env) => UsbReset(s, env)
  }

  function Run(s: Server, events: seq<Event>): Server
    decreases |events|
  {
    if events == [] then s else Next(Run(s, events[..|events| - 1]), events[|events| - 1])
  }
}
