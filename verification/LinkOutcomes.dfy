/** What one upload command means to the host that sent it and to the card, in every outcome. */
module LinkOutcomes {
  import opened Bytes
  import opened Checksums
  import opened LinkDisk
  import opened LinkServer
  import opened LinkUpload
  import opened LinkReplace

  // ----- Begin

  /** Two disks with the same files, except possibly one and the temporary file. */
  ghost predicate SameBut(d: Disk, d': Disk, target: Path) {
    forall p :: p != target && p != Temp ==> ((p in d) == (p in d')) && (p in d ==> d[p] == d'[p])
  }

  /**
   * Opening: in place, the target is there with the announced size and its old contents, or it is
   * the Microdrive image and empty; otherwise the temporary file is empty and every user file is as
   * it was.  A failure leaves every user file but the Microdrive image as it was.
   */
  lemma OpenOutcome(d: Disk, target: Path, size: nat, env: Env)
    requires target.Drive?
    ensures var (d', code, direct) := PutOpen(d, target, size, env);
            direct ==> code == Ok && target in d' && d'[target].File? && SameBut(d, d', target)
    ensures var (d', code, direct) := PutOpen(d, target, size, env);
            direct ==> (d' == d && |d[target].data| == size) || (target == MDV_IMAGE && d'[target] == File([]))
    ensures var (d', code, direct) := PutOpen(d, target, size, env);
            code == Ok && !direct ==> Temp in d' && d'[Temp] == File([]) && SameButTemp(d, d')
    ensures var (d', code, direct) := PutOpen(d, target, size, env);
            code != Ok ==> SameBut(d, d', MDV_IMAGE) && (target != MDV_IMAGE ==> SameButTemp(d, d'))
  {
  }

  /** With a card that works, a target that is no directory decides the mode alone. */
  lemma OpenMode(d: Disk, target: Path, size: nat, env: Env)
    requires target.Drive? && env.stat == NoFault && env.open == NoFault && env.unlink == NoFault
    requires target in d ==> d[target].File?
    ensures var (_, code, direct) := PutOpen(d, target, size, env);
            code == Ok && (direct <==> target == MDV_IMAGE || (target in d && |d[target].data| == size))
  {
  }

  /** BEGIN acknowledged: an upload is open that has taken nothing, and the Companion is out of the way. */
  lemma BeginOpens(s: Server, size: nat, crc: bv32, path: Option<string>, env: Env)
    requires PutBeginStep(s, size, crc, path, env).1.Opened?
    ensures var (s', reply) := PutBeginStep(s, size, crc, path, env);
            && s.session == Idle && path.Some? && s'.session == Putting
            && s'.up == Opening(s.up, Drive(path.value), size, crc, reply.direct)
            && s'.file == (if reply.direct then Drive(path.value) else Temp)
            && s'.file in s'.disk && s'.disk[s'.file].File?
            && (s'.board.companion ==> s'.board.suspended)
            && SameBut(s.disk, s'.disk, if reply.direct then Drive(path.value) else Temp)
  {
    OpenOutcome(s.disk, Drive(path.value), size, env);
  }

  /**
   * BEGIN refused: the session is as it was, a Companion that ran still runs, and only the Microdrive
   * image may have suffered.
   */
  lemma BeginRefused(s: Server, size: nat, crc: bv32, path: Option<string>, env: Env)
    requires PutBeginStep(s, size, crc, path, env).1.Failed?
    ensures var s' := PutBeginStep(s, size, crc, path, env).0;
            && s'.session == s.session && s'.up == s.up.(direct := s'.up.direct)
            && (s'.board == s.board || s'.board == Resume(s.board))
            && SameBut(s.disk, s'.disk, MDV_IMAGE)
            && (path != Some("MDV1.mdv") ==> SameButTemp(s.disk, s'.disk))
  {
    if path.Some? && s.session == Idle {
      var (board, suspended) := Suspend(s.board, env);
      if suspended {
        OpenRefused(s.(board := board), size, crc, Drive(path.value), env);
      }
    }
  }

  lemma OpenRefused(s: Server, size: nat, crc: bv32, target: Path, env: Env)
    requires target.Drive? && OpenStep(s, size, crc, target, env).1.Failed?
    ensures var s' := OpenStep(s, size, crc, target, env).0;
            && s'.session == s.session && s'.up == s.up.(direct := s'.up.direct) && s'.board == Resume(s.board)
            && SameBut(s.disk, s'.disk, MDV_IMAGE) && (target != MDV_IMAGE ==> SameButTemp(s.disk, s'.disk))
  {
    OpenOutcome(s.disk, target, size, env);
  }

  // ----- Commit

  /** Phase 0 lets exactly a complete upload with the announced CRC-32 through, once it is synced. */
  lemma CheckPasses(s: Server, env: Env)
    requires UploadOk(s) && s.session == Putting && s.up.phase == 0
    ensures CommitCheck(s, env).1 == Ok <==>
              && (s.up.finalSynced || FaultCode(env.sync, Ok) == Ok)
              && s.up.received == s.up.size && Crc32(s.up.log) == s.up.crc
  {
    var c := s.disk[s.file].data;
    assert Content(s.disk, s.file) == c;
  }

  /** Phase 1: afterwards the target is free and its old contents are the backup; failing, one of both has them. */
  lemma BackupOutcome(s: Server, env: Env, previous: seq<byte>)
    requires s.up.target.Drive? && s.up.target in s.disk && s.disk[s.up.target] == File(previous)
    ensures var (s', code) := CommitBackup(s, env);
            code == Ok ==>
              s'.up.backup && s.up.target !in s'.disk && Backup in s'.disk && s'.disk[Backup] == File(previous)
    ensures var d' := CommitBackup(s, env).0.disk;
            || (s.up.target in d' && d'[s.up.target] == File(previous))
            || (Backup in d' && d'[Backup] == File(previous))
  {
  }

  /** Phase 2: the target is what the temporary file was, or nothing has happened. */
  lemma InstallOutcome(s: Server, env: Env)
    requires UploadOk(s) && s.session == Putting && s.up.phase == 2
    ensures var (s', code) := CommitInstall(s, env);
            && (code == Ok ==> s.up.target !in s.disk && Temp !in s'.disk)
            && (Temp !in s'.disk ==> s.up.target in s'.disk && s'.disk[s.up.target] == File(s.up.log))
            && (Temp in s'.disk ==> s'.disk == s.disk && code != Ok)
  {
  }

  /**
   * Giving up: the session ends, the Companion runs, and a free target gets its old contents back if
   * the card works.
   */
  lemma GiveUpOutcome(s: Server, env: Env)
    ensures var s' := CommitFailed(s, env);
            && s'.session == Idle && !s'.board.suspended
            && (s.up.backup && !s.up.direct && Backup in s.disk && s.up.target !in s.disk && s.up.target != Backup
                && !env.rollback.FailsBefore? ==>
                  s'.disk == (s.disk - {Backup})[s.up.target := s.disk[Backup]])
            && (!s.up.backup || s.up.direct || Backup !in s.disk || s.up.target in s.disk ==> s'.disk == s.disk)
  {
  }

  // ----- The end of a session

  /** Cancel, failures and resets end the session, let the Companion run, and touch nothing but the temporary file. */
  lemma AbortOutcome(s: Server, env: Env)
    ensures var s' := Abort(s, env);
            && s'.session == Idle && SameButTemp(s.disk, s'.disk)
            && (s.session != Idle ==> !s'.board.suspended)
            && (s.session == Putting && !s.up.direct && env.sdReady && env.lock && !env.unlink.FailsBefore? ==>
                  Temp !in s'.disk)
  {
  }
}
