/** What every upload session keeps: the file, the counters, the running CRC and the syncs. */
module LinkUpload {
  import opened Bytes
  import opened Checksums
  import opened LinkDisk
  import opened LinkServer

  // ----- Syncs

  /** Fewer than 4096 new bytes are ever unsynced, and every counter stays within 32 bits. */
  ghost predicate SyncOk(u: Upload) {
    && u.synced <= u.received <= u.size <= MAX32
    && SYNC_INTERVAL <= u.nextSync <= MAX32 && u.nextSync - SYNC_INTERVAL <= u.synced
    && (u.received >= u.nextSync ==> u.synced == u.received)
    && (u.finalSynced ==> u.synced == u.received == u.size)
  }

  /** The next sync position passes the data, unless it would pass 32 bits. */
  lemma {:induction false} AdvanceFacts(next: nat, end: nat)
    requires SYNC_INTERVAL <= next <= MAX32 && (next <= end || next - SYNC_INTERVAL <= end)
    ensures SYNC_INTERVAL <= Advance(next, end) <= MAX32 && Advance(next, end) - SYNC_INTERVAL <= end
    decreases if next <= end then end - next + 1 else 0
  {
    if next <= end && next <= MAX32 - SYNC_INTERVAL {
      AdvanceFacts(next + SYNC_INTERVAL, end);
    }
  }

  lemma AfterBlockSyncs(u: Upload, offset: nat, block: seq<byte>)
    requires SyncOk(u) && block != [] && BlockAccepted(u, offset, |block|)
    ensures SyncOk(AfterBlock(u, offset, block, SyncDue(u, offset, block)))
  {
    if SyncDue(u, offset, block) {
      AdvanceFacts(u.nextSync, offset + |block|);
    }
  }

  // ----- The file and the log

  /** The open file starts with exactly the bytes accepted so far and never outgrows the declared size. */
  ghost predicate Filling(s: Server) {
    var u := s.up;
    && SyncOk(u) && |u.log| == u.received && u.running == CrcUpdate(ALL_ONES, u.log)
    && s.file in s.disk && s.disk[s.file].File?
    && var c := s.disk[s.file].data;
       && u.received <= |c| <= u.size && c[..u.received] == u.log
       && (if u.direct then s.file == u.target else s.file == Temp && |c| == u.received)
  }

  /** The session has been checked: complete, and its CRC is the announced one. */
  ghost predicate Checked(u: Upload) {
    && !u.direct && |u.log| == u.synced == u.received == u.size == u.commitSize
    && Crc32(u.log) == u.crc == u.commitCrc
  }

  /** What holds in every state of an upload session. */
  ghost predicate UploadOk(s: Server) {
    s.session == Putting ==>
      && s.up.target.Drive? && s.up.phase <= 3 && (s.up.phase <= 1 ==> !s.up.backup)
      && (s.up.phase == 0 ==> Filling(s))
      && (s.up.phase >= 1 ==> Checked(s.up))
      && (s.up.phase == 1 || s.up.phase == 2 ==> Temp in s.disk && s.disk[Temp] == File(s.up.log))
      && (s.up.phase == 3 ==> s.up.target in s.disk && s.disk[s.up.target] == File(s.up.log))
  }

  /** A block that repeats an earlier position repeats its bytes. */
  predicate HonestBlock(u: Upload, offset: nat, block: seq<byte>) {
    offset < u.received && offset + |block| <= |u.log| ==> block == u.log[offset..offset + |block|]
  }

  predicate Honest(s: Server, r: Request) {
    r.PutData? && s.session == Putting ==> HonestBlock(s.up, r.offset, r.block)
  }

  lemma WriteNew(c: seq<byte>, log: seq<byte>, block: seq<byte>, size: nat)
    requires |log| <= |c| <= size && c[..|log|] == log && |log| + |block| <= size
    ensures var c' := WriteAt(c, |log|, block);
            && |log| + |block| <= |c'| <= size && c'[..|log| + |block|] == log + block
            && (|c| == |log| ==> |c'| == |log| + |block|)
  {
  }

  lemma WriteRepeat(c: seq<byte>, log: seq<byte>, offset: nat, block: seq<byte>)
    requires |log| <= |c| && c[..|log|] == log && offset + |block| <= |log|
    ensures WriteAt(c, offset, block)[..|log|] == log <==> block == log[offset..offset + |block|]
    ensures |WriteAt(c, offset, block)| == |c|
    ensures block == log[offset..offset + |block|] ==> WriteAt(c, offset, block) == c
  {
    var c' := WriteAt(c, offset, block);
    if block == log[offset..offset + |block|] {
      forall k | 0 <= k < |c| ensures c'[k] == c[k] {
        if offset <= k < offset + |block| {
          assert c[k] == c[..|log|][k];
        }
      }
    } else {
      var k :| 0 <= k < |block| && block[k] != log[offset + k];
      assert c'[offset + k] == block[k];
    }
  }

  predicate SyncDue(u: Upload, offset: nat, block: seq<byte>) {
    offset == u.received && (offset + |block| >= u.nextSync || offset + |block| == u.size)
  }

  /** What a block in full does to the counters that the file depends on. */
  lemma AfterBlockFields(u: Upload, offset: nat, block: seq<byte>, due: bool)
    ensures var v := AfterBlock(u, offset, block, due);
            && v.target == u.target && v.size == u.size && v.direct == u.direct && v.crc == u.crc
            && (offset == u.received ==>
                  v.received == offset + |block| && v.log == u.log + block && v.running == CrcUpdate(u.running, block))
            && (offset != u.received ==>
                  v.received == u.received && v.log == u.log && v.running == u.running && v.phase == u.phase)
            && (!u.direct ==> v.phase == u.phase)
  {
  }

  lemma NewBlockKeepsFilling(s: Server, block: seq<byte>, v: Upload)
    requires Filling(s) && |block| <= s.up.size - s.up.received && SyncOk(v)
    requires v.target == s.up.target && v.size == s.up.size && v.direct == s.up.direct
    requires v.received == s.up.received + |block| && v.log == s.up.log + block
             && v.running == CrcUpdate(s.up.running, block)
    ensures Filling(s.(disk := WriteFile(s.disk, s.file, s.up.received, block), up := v))
  {
    WriteNew(s.disk[s.file].data, s.up.log, block, s.up.size);
    CrcAppend(ALL_ONES, s.up.log, block);
  }

  lemma RepeatKeepsFilling(s: Server, offset: nat, block: seq<byte>, v: Upload)
    requires Filling(s) && offset + |block| <= |s.up.log| && block == s.up.log[offset..offset + |block|] && SyncOk(v)
    requires v.target == s.up.target && v.size == s.up.size && v.direct == s.up.direct
    requires v.received == s.up.received && v.log == s.up.log && v.running == s.up.running
    ensures Filling(s.(disk := WriteFile(s.disk, s.file, offset, block), up := v))
  {
    WriteRepeat(s.disk[s.file].data, s.up.log, offset, block);
  }

  /** Writing one accepted block, new or repeated, keeps the file in step with the log. */
  lemma BlockKeepsFilling(s: Server, offset: nat, block: seq<byte>)
    requires Filling(s) && block != [] && BlockAccepted(s.up, offset, |block|) && HonestBlock(s.up, offset, block)
    ensures Filling(s.(disk := WriteFile(s.disk, s.file, offset, block),
                       up := AfterBlock(s.up, offset, block, SyncDue(s.up, offset, block))))
  {
    var v := AfterBlock(s.up, offset, block, SyncDue(s.up, offset, block));
    AfterBlockSyncs(s.up, offset, block);
    AfterBlockFields(s.up, offset, block, SyncDue(s.up, offset, block));
    if offset == s.up.received {
      NewBlockKeepsFilling(s, block, v);
    } else {
      RepeatKeepsFilling(s, offset, block, v);
    }
  }

  /** A block reported written was written whole, in phase 0, and synced if that was due. */
  lemma WrittenWhole(s: Server, offset: nat, block: seq<byte>, env: Env)
    requires WriteBlock(s, offset, block, env).1 == Ok && WriteCount(env.write, |block|) == |block|
    ensures s.up.phase == 0
    ensures WriteBlock(s, offset, block, env)
         == (WriteFile(s.disk, s.file, offset, block), Ok, SyncDue(s.up, offset, block))
  {
    assert block[..|block|] == block;
  }

  /** A block written whole and counted, and the answer to it. */
  ghost predicate Stored(s: Server, offset: nat, block: seq<byte>, s': Server, reply: Reply) {
    && s.session == Putting && s.up.phase == 0 && block != [] && BlockAccepted(s.up, offset, |block|)
    && s'.disk == WriteFile(s.disk, s.file, offset, block) && s'.file == s.file
    && s'.up == AfterBlock(s.up, offset, block, SyncDue(s.up, offset, block))
    && (if s'.up.direct && s'.up.phase == 4
        then s'.session == Idle && reply == AckedVerified(offset + |block|, s'.up.commitSize, s'.up.commitCrc)
        else s'.session == Putting && reply == Acked(offset + |block|))
  }

  /** What PUT_DATA answers and leaves: a failure that ends or ignores it, or a block taken. */
  lemma PutDataOutcome(s: Server, offset: nat, block: seq<byte>, env: Env)
    ensures var (s', reply) := PutDataStep(s, offset, block, env);
            (reply.Failed? && (s' == s || s'.session == Idle)) || Stored(s, offset, block, s', reply)
  {
    if block != [] && s.session == Putting && BlockAccepted(s.up, offset, |block|)
       && WriteBlock(s, offset, block, env).1 == Ok && WriteCount(env.write, |block|) == |block| {
      WrittenWhole(s, offset, block, env);
    }
  }

  /** PUT_DATA, whatever mix of new and repeated blocks and whatever failures. */
  lemma PutDataKeeps(s: Server, offset: nat, block: seq<byte>, env: Env)
    requires UploadOk(s) && Honest(s, PutData(offset, block))
    ensures UploadOk(PutDataStep(s, offset, block, env).0)
  {
    var (s', reply) := PutDataStep(s, offset, block, env);
    PutDataOutcome(s, offset, block, env);
    if s'.session == Putting && s' != s {
      BlockKeepsFilling(s, offset, block);
      AfterBlockFields(s.up, offset, block, SyncDue(s.up, offset, block));
    }
  }

  /** Without the repeated block's bytes the file no longer matches what was accepted. */
  lemma RepeatMustMatch(s: Server, offset: nat, block: seq<byte>, env: Env)
    requires s.session == Putting && s.up.phase == 0 && Filling(s) && offset < s.up.received
    requires PutDataStep(s, offset, block, env).1.Acked?
    ensures var s' := PutDataStep(s, offset, block, env).0;
            && s'.up.log == s.up.log && s'.up.running == s.up.running
            && (Content(s'.disk, s'.file)[..s'.up.received] == s'.up.log <==> HonestBlock(s.up, offset, block))
  {
    PutDataOutcome(s, offset, block, env);
    AfterBlockFields(s.up, offset, block, SyncDue(s.up, offset, block));
    WriteRepeat(s.disk[s.file].data, s.up.log, offset, block);
  }

  // ----- Begin, commit and everything else

  /** A file opened for an upload: the target at its declared size or empty, or the empty temporary file. */
  lemma PutOpenLeaves(d: Disk, target: Path, size: nat, env: Env)
    requires PutOpen(d, target, size, env).1 == Ok
    ensures var (d', _, direct) := PutOpen(d, target, size, env);
            var file := if direct then target else Temp;
            && file in d' && d'[file].File? && |d'[file].data| <= size && (!direct ==> d'[file].data == [])
  {
  }

  lemma OpenKeeps(s: Server, size: nat, crc: bv32, target: Path, env: Env)
    requires s.session == Idle && size <= MAX32 && target.Drive?
    ensures UploadOk(OpenStep(s, size, crc, target, env).0)
  {
    if env.parent == NoFault && PutOpen(s.disk, target, size, env).1 == Ok {
      PutOpenLeaves(s.disk, target, size, env);
    }
  }

  lemma PutBeginKeeps(s: Server, size: nat, crc: bv32, path: Option<string>, env: Env)
    requires UploadOk(s) && size <= MAX32
    ensures UploadOk(PutBeginStep(s, size, crc, path, env).0)
  {
    if s.session == Idle && path.Some? {
      OpenKeeps(s.(board := Suspend(s.board, env).0), size, crc, Drive(path.value), env);
    }
  }

  /** Phase 0 lets only a complete upload with the announced CRC through. */
  lemma CheckKeeps(s: Server, env: Env)
    requires s.session == Putting && s.up.phase == 0 && UploadOk(s) && CommitCheck(s, env).1 == Ok
    ensures var s' := CommitCheck(s, env).0;
            && s'.disk == s.disk && s'.session == Putting && s'.up.target == s.up.target && s'.up.log == s.up.log
            && s'.up.phase == (if s.up.direct then 4 else 1) && s'.up.direct == s.up.direct
            && s'.up.backup == s.up.backup
            && |s'.up.log| == s'.up.size == s'.up.commitSize == |Content(s.disk, s.file)| == s'.up.received
            && Crc32(s'.up.log) == s'.up.crc == s'.up.commitCrc
            && s'.up.size == s.up.size && s'.up.crc == s.up.crc
            && Content(s.disk, s.file) == s.up.log
  {
    var c := s.disk[s.file].data;
    assert c[..s.up.received] == s.up.log;
  }

  /** Phase 1 leaves the temporary file alone. */
  lemma BackupLeaves(s: Server, env: Env)
    requires s.up.target.Drive? && CommitBackup(s, env).1 == Ok
    ensures var s' := CommitBackup(s, env).0;
            && s' == s.(disk := s'.disk, up := s.up.(phase := 2, backup := s'.up.backup))
            && (Temp in s.disk ==> Temp in s'.disk && s'.disk[Temp] == s.disk[Temp])
  {
  }

  lemma BackupKeeps(s: Server, env: Env)
    requires s.session == Putting && s.up.phase == 1 && UploadOk(s) && CommitBackup(s, env).1 == Ok
    ensures UploadOk(CommitBackup(s, env).0)
  {
    BackupLeaves(s, env);
  }

  lemma InstallKeeps(s: Server, env: Env)
    requires s.session == Putting && s.up.phase == 2 && UploadOk(s) && CommitInstall(s, env).1 == Ok
    ensures UploadOk(CommitInstall(s, env).0)
  {
  }

  lemma CommitKeeps(s: Server, env: Env)
    requires UploadOk(s)
    ensures UploadOk(CommitStep(s, env).0)
  {
    var s', code := CommitPhase(s, env).0, CommitPhase(s, env).1;
    if s.session == Putting && env.lock && code == Ok {
      if s.up.phase == 0 {
        CheckKeeps(s, env);
        assert s.up.direct || s.disk[Temp] == File(s.up.log);
      } else if s.up.phase == 1 {
        BackupKeeps(s, env);
      } else if s.up.phase == 2 {
        InstallKeeps(s, env);
      }
    }
  }

  /** Any request that is not one of the three upload commands leaves an upload alone or ends it. */
  lemma OthersKeep(s: Server, r: Request, env: Env)
    requires UploadOk(s) && !(r.PutBegin? || r.PutData? || r.PutCommit?)
    ensures UploadOk(FileStep(s, r, env).0)
  {
    OthersLeave(s, r, env);
  }

  lemma OthersLeave(s: Server, r: Request, env: Env)
    requires !(r.PutBegin? || r.PutData? || r.PutCommit?)
    ensures var (s', reply) := FileStep(s, r, env);
            && (s'.session == Putting ==>
                  s.session == Putting && s'.up == s.up && s'.disk == s.disk && s'.file == s.file)
            && !reply.Verified? && !reply.AckedVerified?
  {
  }

  lemma FileKeepsUpload(s: Server, r: Request, env: Env)
    requires UploadOk(s) && Honest(s, r) && (r.PutBegin? ==> r.size <= MAX32)
    ensures UploadOk(FileStep(s, r, env).0)
  {
    if r.PutBegin? {
      PutBeginKeeps(s, r.size, r.crc, r.path, env);
    } else if r.PutData? {
      PutDataKeeps(s, r.offset, r.block, env);
    } else if r.PutCommit? {
      CommitKeeps(s, env);
    } else {
      OthersKeep(s, r, env);
    }
  }

  /** FPGA commands and the actions after a reply touch neither the card nor, short of a reboot, the session. */
  lemma BoardOnly(s: Server, board: Board, env: Env)
    requires UploadOk(s)
    ensures UploadOk(s.(board := board)) && UploadOk(AfterReply(s, env))
  {
  }

  lemma ServeKeepsUpload(s: Server, r: Request, env: Env)
    requires UploadOk(s) && Honest(s, r) && (r.PutBegin? ==> r.size <= MAX32)
    ensures UploadOk(Serve(s, r, env).0)
  {
    if r.Fpga? {
      BoardOnly(s, FpgaStep(s.board, r.command, env).0, env);
    } else {
      FileKeepsUpload(s, r, env);
    }
    BoardOnly(Handle(s, r, env).0, s.board, env);
  }

  /** Every step of the run repeats bytes honestly and announces a 32-bit size. */
  ghost predicate HonestRun(s: Server, events: seq<Event>)
    decreases |events|
  {
    events == [] ||
    (var before, last := events[..|events| - 1], events[|events| - 1];
     HonestRun(s, before) && HonestEvent(Run(s, before), last))
  }

  ghost predicate HonestEvent(s: Server, e: Event) {
    e.Receive? ==> Honest(s, e.request) && (e.request.PutBegin? ==> e.request.size <= MAX32)
  }

  lemma NextKeepsUpload(s: Server, e: Event)
    requires UploadOk(s) && HonestEvent(s, e)
    ensures UploadOk(Next(s, e))
  {
    match e {
      case Receive(r, env) => ServeKeepsUpload(s, r, env);
      case Reset(env) =>
    }
  }

  /**
   * Over every honest run, in every state of an upload: the file starts with exactly the bytes
   * accepted, the running CRC is theirs, no write left a hole or passed the declared size, fewer
   * than 4096 accepted bytes are unsynced, and no counter leaves 32 bits.
   */
  lemma {:induction false} UploadInvariant(s: Server, events: seq<Event>)
    requires UploadOk(s) && HonestRun(s, events)
    ensures UploadOk(Run(s, events))
    decreases |events|
  {
    if events != [] {
      var before := events[..|events| - 1];
      UploadInvariant(s, before);
      NextKeepsUpload(Run(s, before), events[|events| - 1]);
    }
  }

  /** In every state of every honest run, an open upload has fewer than 4096 unsynced bytes. */
  lemma FewUnsynced(s: Server, events: seq<Event>)
    requires UploadOk(s) && HonestRun(s, events)
    ensures var t := Run(s, events); t.session == Putting ==> t.up.synced <= t.up.received < t.up.synced + SYNC_INTERVAL
  {
    UploadInvariant(s, events);
  }
}
