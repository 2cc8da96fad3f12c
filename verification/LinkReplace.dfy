/** Replacing a file through the temporary and backup files never loses its contents within a session. */
module LinkReplace {
  import opened Bytes
  import opened Checksums
  import opened LinkDisk
  import opened LinkServer
  import opened LinkUpload

  /** The file being replaced, and what the replacement was announced to be. */
  datatype Replacement = Replacement(target: Path, previous: seq<byte>, size: nat, crc: bv32)

  /** The promise: the previous contents are at the target or in the backup, or the verified new file is in place. */
  ghost predicate Safe(d: Disk, r: Replacement) {
    || (r.target in d && d[r.target] == File(r.previous))
    || (Backup in d && d[Backup] == File(r.previous))
    || (r.target in d && d[r.target].File? && |d[r.target].data| == r.size && Crc32(d[r.target].data) == r.crc)
  }

  /** The same, phase by phase, while the session is open. */
  ghost predicate Replacing(s: Server, r: Replacement) {
    && UploadOk(s) && r.target.Drive?
    && (s.session == Putting ==>
          && s.up.target == r.target && s.up.size == r.size && s.up.crc == r.crc && !s.up.direct
          && (s.up.phase <= 1 ==> !s.up.backup && r.target in s.disk && s.disk[r.target] == File(r.previous))
          && (s.up.phase == 2 ==>
                s.up.backup && r.target !in s.disk && Backup in s.disk && s.disk[Backup] == File(r.previous))
          && (s.up.phase == 3 ==> s.up.backup))
    && (s.session != Putting ==> Safe(s.disk, r))
  }

  lemma ReplacingIsSafe(s: Server, r: Replacement)
    requires Replacing(s, r)
    ensures Safe(s.disk, r)
  {
  }

  /** Two disks that differ in nothing but the temporary file. */
  ghost predicate SameButTemp(d: Disk, d': Disk) {
    forall p :: p != Temp ==> ((p in d) == (p in d')) && (p in d ==> d[p] == d'[p])
  }

  lemma SafeButTemp(d: Disk, d': Disk, r: Replacement)
    requires Safe(d, r) && SameButTemp(d, d') && r.target != Temp
    ensures Safe(d', r)
  {
  }

  lemma AbortTouchesTemp(s: Server, env: Env)
    ensures SameButTemp(s.disk, Abort(s, env).disk)
  {
  }

  /** PUT_DATA into a temporary file writes, and on failure removes, nothing else. */
  lemma PutDataTouchesTemp(s: Server, offset: nat, block: seq<byte>, env: Env)
    requires s.session == Putting && (s.up.phase == 0 ==> s.file == Temp)
    ensures SameButTemp(s.disk, PutDataStep(s, offset, block, env).0.disk)
  {
    BlockTouchesTemp(s, offset, block, env);
    var (disk, _, due) := WriteBlock(s, offset, block, env);
    AbortTouchesTemp(s.(disk := disk, up := Tried(s.up, offset + |block|, due)), env);
  }

  lemma BlockTouchesTemp(s: Server, offset: nat, block: seq<byte>, env: Env)
    requires s.up.phase == 0 ==> s.file == Temp
    ensures SameButTemp(s.disk, WriteBlock(s, offset, block, env).0)
  {
  }

  lemma PutDataReplacing(s: Server, r: Replacement, offset: nat, block: seq<byte>, env: Env)
    requires Replacing(s, r) && Honest(s, PutData(offset, block))
    ensures Replacing(PutDataStep(s, offset, block, env).0, r)
  {
    if s.session == Putting {
      var s' := PutDataStep(s, offset, block, env).0;
      ReplacingIsSafe(s, r);
      PutDataTouchesTemp(s, offset, block, env);
      SafeButTemp(s.disk, s'.disk, r);
      PutDataKeeps(s, offset, block, env);
      PutDataOutcome(s, offset, block, env);
      if s'.session == Putting && s' != s {
        AfterBlockFields(s.up, offset, block, SyncDue(s.up, offset, block));
        PutDataBackup(s.up, offset, block, SyncDue(s.up, offset, block));
      }
    }
  }

  lemma PutDataBackup(u: Upload, offset: nat, block: seq<byte>, due: bool)
    ensures AfterBlock(u, offset, block, due).backup == u.backup
  {
  }

  /** Each commit phase, and the rollback when it fails. */
  lemma CommitReplacing(s: Server, r: Replacement, env: Env)
    requires Replacing(s, r)
    ensures Replacing(CommitStep(s, env).0, r)
  {
    CommitKeeps(s, env);
    if s.session == Putting && env.lock {
      if s.up.phase == 0 {
        CheckReplacing(s, r, env);
      } else if s.up.phase == 1 {
        BackupReplacing(s, r, env);
      } else if s.up.phase == 2 {
        InstallReplacing(s, r, env);
      } else {
        CleanReplacing(s, r, env);
      }
    }
  }

  lemma CheckReplacing(s: Server, r: Replacement, env: Env)
    requires Replacing(s, r) && s.session == Putting && env.lock && s.up.phase == 0
    ensures var s' := CommitStep(s, env).0;
            s'.disk == s.disk && (s'.session == Putting ==> Replacing(s', r))
  {
    CommitKeeps(s, env);
  }

  lemma BackupReplacing(s: Server, r: Replacement, env: Env)
    requires Replacing(s, r) && s.session == Putting && env.lock && s.up.phase == 1
    ensures Replacing(CommitStep(s, env).0, r)
  {
    CommitKeeps(s, env);
  }

  lemma InstallReplacing(s: Server, r: Replacement, env: Env)
    requires Replacing(s, r) && s.session == Putting && env.lock && s.up.phase == 2
    ensures Replacing(CommitStep(s, env).0, r)
  {
    CommitKeeps(s, env);
  }

  lemma CleanReplacing(s: Server, r: Replacement, env: Env)
    requires Replacing(s, r) && s.session == Putting && env.lock && s.up.phase == 3
    ensures Replacing(CommitStep(s, env).0, r)
  {
    CommitKeeps(s, env);
  }

  /**
   * What the promise does not cover: the user removes the very file, or begins the next upload, once
   * no session is open.  Both commands are refused while one is open.
   */
  predicate Disturbs(s: Server, r: Replacement, e: Event) {
    && s.session == Idle && e.Receive?
    && (e.request.PutBegin? || (e.request.Delete? && e.request.path.Some? && Drive(e.request.path.value) == r.target))
  }

  ghost predicate Undisturbed(s: Server, r: Replacement, events: seq<Event>)
    decreases |events|
  {
    events == [] ||
    (var before, last := events[..|events| - 1], events[|events| - 1];
     Undisturbed(s, r, before) && !Disturbs(Run(s, before), r, last))
  }

  lemma OthersReplacing(s: Server, r: Replacement, request: Request, env: Env)
    requires Replacing(s, r) && !(request.PutBegin? || request.PutData? || request.PutCommit? || request.Delete?)
    ensures Replacing(FileStep(s, request, env).0, r)
  {
    OthersKeep(s, request, env);
    OthersLeave(s, request, env);
    ReplacingIsSafe(s, r);
    OthersTouchTemp(s, request, env);
    SafeButTemp(s.disk, FileStep(s, request, env).0.disk, r);
  }

  /** None of the other file commands writes to a user file. */
  lemma OthersTouchTemp(s: Server, request: Request, env: Env)
    requires !(request.PutBegin? || request.PutData? || request.PutCommit? || request.Delete?)
    ensures SameButTemp(s.disk, FileStep(s, request, env).0.disk)
  {
  }

  /** A refused BEGIN, a refused DELETE, and the DELETE of another file. */
  lemma RefusedReplacing(s: Server, r: Replacement, request: Request, env: Env)
    requires Replacing(s, r) && (request.PutBegin? || request.Delete?) && !Disturbs(s, r, Receive(request, env))
    ensures Replacing(FileStep(s, request, env).0, r)
  {
  }

  lemma AbortReplacing(s: Server, r: Replacement, env: Env)
    requires Replacing(s, r)
    ensures Replacing(UsbReset(s, env), r)
  {
    ReplacingIsSafe(s, r);
  }

  lemma ReplyReplacing(s: Server, r: Replacement, board: Board, env: Env)
    requires Replacing(s, r)
    ensures Replacing(s.(board := board), r) && Replacing(AfterReply(s, env), r)
  {
    ReplacingIsSafe(s, r);
  }

  lemma NextReplacing(s: Server, r: Replacement, e: Event)
    requires Replacing(s, r) && HonestEvent(s, e) && !Disturbs(s, r, e)
    ensures Replacing(Next(s, e), r)
  {
    match e {
      case Reset(env) => AbortReplacing(s, r, env);
      case Receive(request, env) =>
        var s' := Handle(s, request, env).0;
        if request.Fpga? {
          ReplyReplacing(s, r, FpgaStep(s.board, request.command, env).0, env);
        } else if request.PutData? {
          PutDataReplacing(s, r, request.offset, request.block, env);
        } else if request.PutCommit? {
          CommitReplacing(s, r, env);
        } else if request.PutBegin? || request.Delete? {
          RefusedReplacing(s, r, request, env);
        } else {
          OthersReplacing(s, r, request, env);
        }
        ReplyReplacing(s', r, s'.board, env);
    }
  }

  /** Opening the temporary file touches nothing else. */
  lemma OpenTouchesTemp(d: Disk, target: Path, size: nat, env: Env)
    requires PutOpen(d, target, size, env).1 == Ok && !PutOpen(d, target, size, env).2
    ensures SameButTemp(d, PutOpen(d, target, size, env).0)
  {
  }

  /** Opening a non-direct session for an existing file. */
  lemma BeginReplacing(s: Server, size: nat, crc: bv32, path: Option<string>, env: Env, previous: seq<byte>)
    requires UploadOk(s) && size <= MAX32
    requires PutBeginStep(s, size, crc, path, env).1 == Opened(false)
    requires Drive(path.value) in s.disk && s.disk[Drive(path.value)] == File(previous)
    ensures Replacing(PutBeginStep(s, size, crc, path, env).0, Replacement(Drive(path.value), previous, size, crc))
  {
    PutBeginKeeps(s, size, crc, path, env);
    OpenTouchesTemp(s.disk, Drive(path.value), size, env);
  }

  lemma {:induction false} RunReplacing(s: Server, r: Replacement, events: seq<Event>)
    requires Replacing(s, r) && HonestRun(s, events) && Undisturbed(s, r, events)
    ensures Replacing(Run(s, events), r)
    decreases |events|
  {
    if events != [] {
      var before := events[..|events| - 1];
      RunReplacing(s, r, before);
      NextReplacing(Run(s, before), r, events[|events| - 1]);
    }
  }

  /**
   * Replace never loses data: from the moment a session over an existing file is opened, after any
   * number of blocks, commits, refused or repeated commands, failures with or without effect, cancels,
   * USB resets and reboots, the previous contents are at the target or in the backup or the verified
   * new file is in place.
   */
  lemma ReplaceNeverLosesData(s: Server, size: nat, crc: bv32, path: Option<string>, env: Env, previous: seq<byte>,
                              events: seq<Event>)
    requires UploadOk(s) && size <= MAX32
    requires Serve(s, PutBegin(size, crc, path), env).1 == Opened(false)
    requires Drive(path.value) in s.disk && s.disk[Drive(path.value)] == File(previous)
    requires var begun := Serve(s, PutBegin(size, crc, path), env).0;
             HonestRun(begun, events) && Undisturbed(begun, Replacement(Drive(path.value), previous, size, crc), events)
    ensures Safe(Run(Serve(s, PutBegin(size, crc, path), env).0, events).disk,
                 Replacement(Drive(path.value), previous, size, crc))
  {
    var begun := Serve(s, PutBegin(size, crc, path), env).0;
    var r := Replacement(Drive(path.value), previous, size, crc);
    BeginReplacing(s, size, crc, path, env, previous);
    ReplyReplacing(Handle(s, PutBegin(size, crc, path), env).0, r, s.board, env);
    RunReplacing(begun, r, events);
    ReplacingIsSafe(Run(begun, events), r);
  }
}
