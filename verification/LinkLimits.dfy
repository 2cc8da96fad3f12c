/** Where the guarantees of the upload protocol end, with the exact conditions and concrete runs. */
module LinkLimits {
  import opened Bytes
  import opened Checksums
  import opened LinkDisk
  import opened LinkServer
  import opened LinkUpload
  import opened LinkReplace

  // ----- A backup left by an earlier session

  /** A commit that gets as far as its phase. */
  predicate Commits(s: Server, e: Event) {
    e.Receive? && e.request.PutCommit? && e.env.sdReady && e.env.lock && s.session == Putting
  }

  /**
   * Phase 1 of an upload over an existing file: removing the old backup takes effect, and the
   * target's contents do not replace it with the same bytes.
   */
  predicate ClearsBackup(s: Server, e: Event, saved: seq<byte>) {
    && Commits(s, e) && s.up.phase == 1
    && e.env.stat == NoFault && s.up.target in s.disk && s.disk[s.up.target].File?
    && !e.env.unlink.FailsBefore?
    && (e.env.rename.FailsBefore? || s.disk[s.up.target].data != saved)
  }

  /** Phase 2 fails to install, and the rollback takes effect: the contents go back to the target. */
  predicate RollsBack(s: Server, e: Event) {
    && Commits(s, e) && s.up.phase == 2 && s.up.backup
    && e.env.rename.FailsBefore? && s.up.target !in s.disk && !e.env.rollback.FailsBefore?
  }

  /** Phase 3 of a session that made the backup: removing it takes effect. */
  predicate RemovesBackup(s: Server, e: Event) {
    Commits(s, e) && s.up.phase == 3 && s.up.backup && !e.env.unlink.FailsBefore?
  }

  /** The steps that take contents out of the backup file: there are no others. */
  predicate DropsBackup(s: Server, e: Event, saved: seq<byte>) {
    ClearsBackup(s, e, saved) || RollsBack(s, e) || RemovesBackup(s, e)
  }

  /** What holds of every session whatever the host sends, honest repeats or not. */
  ghost predicate Shaped(s: Server) {
    s.session == Putting ==>
      && s.up.target.Drive? && s.up.phase <= 3 && (s.up.phase <= 1 ==> !s.up.backup)
      && (s.up.direct ==> s.up.phase == 0 && s.file == s.up.target)
      && (!s.up.direct && s.up.phase == 0 ==> s.file == Temp)
      && (!s.up.direct && s.up.phase <= 2 ==> Temp in s.disk)
      && (s.up.phase == 3 ==> s.up.target in s.disk)
  }

  lemma BlockShaped(u: Upload, offset: nat, block: seq<byte>, due: bool)
    ensures var v := AfterBlock(u, offset, block, due);
            && v.target == u.target && v.direct == u.direct && v.backup == u.backup
            && (v.phase == u.phase || (v.direct && v.phase == 4))
  {
  }

  lemma PutDataShaped(s: Server, offset: nat, block: seq<byte>, env: Env)
    requires Shaped(s)
    ensures Shaped(PutDataStep(s, offset, block, env).0)
  {
    PutDataOutcome(s, offset, block, env);
    BlockShaped(s.up, offset, block, SyncDue(s.up, offset, block));
  }

  lemma CommitShaped(s: Server, env: Env)
    requires Shaped(s)
    ensures Shaped(CommitStep(s, env).0)
  {
  }

  lemma FileShaped(s: Server, r: Request, env: Env)
    requires Shaped(s)
    ensures Shaped(FileStep(s, r, env).0)
  {
    if r.PutData? {
      PutDataShaped(s, r.offset, r.block, env);
    } else if r.PutCommit? {
      CommitShaped(s, env);
    } else if r.PutBegin? {
      PutBeginShaped(s, r.size, r.crc, r.path, env);
    } else {
      OthersShaped(s, r, env);
    }
  }

  lemma PutBeginShaped(s: Server, size: nat, crc: bv32, path: Option<string>, env: Env)
    requires Shaped(s)
    ensures Shaped(PutBeginStep(s, size, crc, path, env).0)
  {
  }

  lemma OthersShaped(s: Server, r: Request, env: Env)
    requires Shaped(s) && !(r.PutBegin? || r.PutData? || r.PutCommit?)
    ensures Shaped(FileStep(s, r, env).0)
  {
  }

  lemma NextShaped(s: Server, e: Event)
    requires Shaped(s)
    ensures Shaped(Next(s, e))
  {
    match e {
      case Reset(env) =>
      case Receive(r, env) =>
        if !r.Fpga? {
          FileShaped(s, r, env);
        }
        ReplyShaped(Handle(s, r, env).0, env);
    }
  }

  lemma ReplyShaped(s: Server, env: Env)
    requires Shaped(s)
    ensures Shaped(AfterReply(s, env))
  {
  }

  ghost predicate Saved(d: Disk, saved: seq<byte>) {
    Backup in d && d[Backup] == File(saved)
  }

  lemma PutOpenSparesBackup(d: Disk, target: Path, size: nat, env: Env)
    requires target.Drive?
    ensures (Backup in PutOpen(d, target, size, env).0) == (Backup in d)
    ensures Backup in d ==> PutOpen(d, target, size, env).0[Backup] == d[Backup]
  {
  }

  lemma PutBeginSparesBackup(s: Server, size: nat, crc: bv32, path: Option<string>, env: Env)
    ensures (Backup in PutBeginStep(s, size, crc, path, env).0.disk) == (Backup in s.disk)
    ensures Backup in s.disk ==> PutBeginStep(s, size, crc, path, env).0.disk[Backup] == s.disk[Backup]
  {
    if path.Some? {
      PutOpenSparesBackup(s.disk, Drive(path.value), size, env);
    }
  }

  lemma OthersSpareBackup(s: Server, r: Request, env: Env)
    requires !(r.PutBegin? || r.PutData? || r.PutCommit?)
    ensures (Backup in FileStep(s, r, env).0.disk) == (Backup in s.disk)
    ensures Backup in s.disk ==> FileStep(s, r, env).0.disk[Backup] == s.disk[Backup]
  {
  }

  lemma FileBackupFate(s: Server, r: Request, env: Env, saved: seq<byte>)
    requires Shaped(s) && Saved(s.disk, saved)
    ensures Saved(FileStep(s, r, env).0.disk, saved) <==> !DropsBackup(s, Receive(r, env), saved)
  {
    if r.PutBegin? {
      PutBeginSparesBackup(s, r.size, r.crc, r.path, env);
    } else if r.PutData? {
      if s.session == Putting {
        PutDataSparesBackup(s, r.offset, r.block, env);
      }
    } else if r.PutCommit? {
      CommitBackupFate(s, env, saved);
    } else {
      OthersSpareBackup(s, r, env);
    }
  }

  lemma PutDataSparesBackup(s: Server, offset: nat, block: seq<byte>, env: Env)
    requires Shaped(s) && s.session == Putting
    ensures (Backup in PutDataStep(s, offset, block, env).0.disk) == (Backup in s.disk)
    ensures Backup in s.disk ==> PutDataStep(s, offset, block, env).0.disk[Backup] == s.disk[Backup]
  {
    BlockSparesBackup(s, offset, block, env);
    var (disk, _, due) := WriteBlock(s, offset, block, env);
    AbortTouchesTemp(s.(disk := disk, up := Tried(s.up, offset + |block|, due)), env);
  }

  lemma BlockSparesBackup(s: Server, offset: nat, block: seq<byte>, env: Env)
    requires Shaped(s) && s.session == Putting
    ensures var disk := WriteBlock(s, offset, block, env).0;
            (Backup in disk) == (Backup in s.disk) && (Backup in s.disk ==> disk[Backup] == s.disk[Backup])
  {
  }

  lemma CommitBackupFate(s: Server, env: Env, saved: seq<byte>)
    requires Shaped(s) && Saved(s.disk, saved)
    ensures env.sdReady ==>
              (Saved(CommitStep(s, env).0.disk, saved) <==> !DropsBackup(s, Receive(PutCommit, env), saved))
  {
  }

  /** Contents in the backup file survive a step exactly when it is not one of those. */
  lemma StepBackupFate(s: Server, e: Event, saved: seq<byte>)
    requires Shaped(s) && Saved(s.disk, saved)
    ensures Saved(Next(s, e).disk, saved) <==> !DropsBackup(s, e, saved)
  {
    match e {
      case Reset(env) =>
      case Receive(r, env) =>
        if !r.Fpga? {
          FileBackupFate(s, r, env, saved);
        }
    }
  }

  /** No event of the run takes the contents out of the backup. */
  ghost predicate NoneDrops(s: Server, events: seq<Event>, saved: seq<byte>)
    decreases |events|
  {
    events == [] ||
    (var before, last := events[..|events| - 1], events[|events| - 1];
     NoneDrops(s, before, saved) && !DropsBackup(Run(s, before), last, saved))
  }

  /** The contents are in the backup in every state of the run. */
  ghost predicate AlwaysSaved(s: Server, events: seq<Event>, saved: seq<byte>)
    decreases |events|
  {
    Saved(Run(s, events).disk, saved) && (events == [] || AlwaysSaved(s, events[..|events| - 1], saved))
  }

  lemma {:induction false} RunShaped(s: Server, events: seq<Event>)
    requires Shaped(s)
    ensures Shaped(Run(s, events))
    decreases |events|
  {
    if events != [] {
      RunShaped(s, events[..|events| - 1]);
      NextShaped(Run(s, events[..|events| - 1]), events[|events| - 1]);
    }
  }

  /**
   * Over every run, of any number of sessions: contents that are in the backup stay there throughout
   * exactly when no event of the run is a phase 1 that clears it, a rollback, or a phase 3 that drops it.
   */
  lemma {:induction false} BackupFate(s: Server, events: seq<Event>, saved: seq<byte>)
    requires Shaped(s) && Saved(s.disk, saved)
    ensures AlwaysSaved(s, events, saved) <==> NoneDrops(s, events, saved)
    decreases |events|
  {
    if events != [] {
      var before := events[..|events| - 1];
      BackupFate(s, before, saved);
      RunShaped(s, before);
      if NoneDrops(s, before, saved) {
        StepBackupFate(Run(s, before), events[|events| - 1], saved);
      }
    }
  }

  /** Of the three, the rollback loses nothing: the contents are at the target again. */
  lemma RollbackRestores(s: Server, e: Event, saved: seq<byte>)
    requires Shaped(s) && Saved(s.disk, saved) && RollsBack(s, e)
    ensures s.up.target in Next(s, e).disk && Next(s, e).disk[s.up.target] == File(saved)
  {
  }

  // ----- Two concrete runs

  /** Every call succeeds. */
  function Fine(): Env {
    Env(true, true, true, NoFault, NoFault, NoFault, NoFault, NoFault, NoFault, NoFault, Full, NoFault, NoFault,
        true, true, true, false, false)
  }

  function Good(r: Request): Event {
    Receive(r, Fine())
  }

  function Step(s: Server, r: Request): Server {
    Next(s, Good(r))
  }

  /** Begin to replace a file by an empty one, and run the first two commit phases. */
  function UpToBackup(s: Server, name: string): Server {
    Step(Step(Step(s, PutBegin(0, Crc32([]), Some(name))), PutCommit), PutCommit)
  }

  lemma EmptyReplacement(s: Server, name: string, contents: seq<byte>)
    requires s.session == Idle && NotPending(s.board) && !s.board.companion && name != "MDV1.mdv" && contents != []
    requires Drive(name) in s.disk && s.disk[Drive(name)] == File(contents)
    ensures var s' := UpToBackup(s, name);
            && s'.session == Putting && !s'.up.direct && NotPending(s'.board) && !s'.board.companion
            && s'.disk == (s.disk - {Backup, Drive(name)})[Temp := File([])][Backup := File(contents)]
  {
    EmptyBegins(s, name, contents);
    var s1 := Step(s, PutBegin(0, Crc32([]), Some(name)));
    EmptyChecks(s1);
    var s2 := Step(s1, PutCommit);
    EmptyBacksUp(s2, contents);
  }

  lemma EmptyBegins(s: Server, name: string, contents: seq<byte>)
    requires s.session == Idle && NotPending(s.board) && !s.board.companion && name != "MDV1.mdv" && contents != []
    requires Drive(name) in s.disk && s.disk[Drive(name)] == File(contents)
    ensures Step(s, PutBegin(0, Crc32([]), Some(name)))
         == Server((s.disk - {Temp})[Temp := File([])], Putting, Temp,
                   Opening(s.up, Drive(name), 0, Crc32([]), false), s.board)
  {
  }

  lemma EmptyChecks(s: Server)
    requires s.session == Putting && s.file == Temp && Temp in s.disk && s.disk[Temp] == File([]) && NotPending(s.board)
    requires s.up == Opening(s.up, s.up.target, 0, Crc32([]), false)
    ensures Step(s, PutCommit) == s.(up := s.up.(commitSize := 0, commitCrc := Crc32([]), phase := 1))
  {
    assert Crc32([]) == Complement(ALL_ONES);
  }

  lemma EmptyBacksUp(s: Server, contents: seq<byte>)
    requires s.session == Putting && s.up.phase == 1 && NotPending(s.board) && s.up.target.Drive?
    requires s.up.target in s.disk && s.disk[s.up.target] == File(contents)
    ensures Step(s, PutCommit) == s.(up := s.up.(phase := 2, backup := true),
                                     disk := ((s.disk - {Backup}) - {s.up.target})[Backup := File(contents)])
  {
  }

  lemma CancelledUpload(s: Server)
    requires s.session == Putting && !s.up.direct && NotPending(s.board)
    ensures var s' := Step(s, Cancel);
            s'.session == Idle && s'.disk == s.disk - {Temp} && s'.board == s.board
  {
  }

  predicate NotPending(b: Board) {
    !b.suspended && !b.resumeAfterTx && !b.startAfterTx && !b.returnPending && !b.resetPending
  }

  /**
   * Across sessions the promise does not hold: replace "a", cancel between the second and the third
   * commit phase, then begin to replace "b".  The contents of "a" are then nowhere on the card.
   */
  lemma CancelThenReplaceLoses(x: byte, y: byte)
    requires x != y
    ensures var s := Boot(map[Drive("a") := File([x]), Drive("b") := File([y])], true);
            var idle := Step(UpToBackup(s, "a"), Cancel);
            var end := UpToBackup(idle, "b");
            Saved(idle.disk, [x]) && forall p :: p in end.disk ==> end.disk[p] != File([x])
  {
    var s := Boot(map[Drive("a") := File([x]), Drive("b") := File([y])], true);
    var idle := Step(UpToBackup(s, "a"), Cancel);
    HalfReplaced(s, UpToBackup(s, "a"), x, y);
    LostFile(idle, UpToBackup(idle, "b"), x, y);
  }

  lemma LostFile(idle: Server, end: Server, x: byte, y: byte)
    requires x != y && end == UpToBackup(idle, "b")
    requires idle.session == Idle && NotPending(idle.board) && !idle.board.companion
    requires idle.disk == map[Drive("b") := File([y]), Backup := File([x])]
    ensures forall p :: p in end.disk ==> end.disk[p] != File([x])
  {
    EmptyReplacement(idle, "b", [y]);
    LostOnDisk(idle.disk, end.disk, x, y);
  }

  lemma LostOnDisk(d: Disk, e: Disk, x: byte, y: byte)
    requires x != y && d == map[Drive("b") := File([y]), Backup := File([x])]
    requires e == (d - {Backup, Drive("b")})[Temp := File([])][Backup := File([y])]
    ensures forall p :: p in e ==> e[p] != File([x])
  {
  }

  lemma HalfReplacedDisk(d: Disk, mid: Disk, x: byte, y: byte)
    requires d == map[Drive("a") := File([x]), Drive("b") := File([y])]
    requires mid == (d - {Backup, Drive("a")})[Temp := File([])][Backup := File([x])]
    ensures mid - {Temp} == map[Drive("b") := File([y]), Backup := File([x])]
  {
  }

  lemma HalfReplaced(s: Server, mid: Server, x: byte, y: byte)
    requires s.session == Idle && NotPending(s.board) && !s.board.companion && mid == UpToBackup(s, "a")
    requires s.disk == map[Drive("a") := File([x]), Drive("b") := File([y])]
    ensures var idle := Step(mid, Cancel);
            && idle.session == Idle && NotPending(idle.board) && !idle.board.companion
            && idle.disk == map[Drive("b") := File([y]), Backup := File([x])]
  {
    EmptyReplacement(s, "a", [x]);
    CancelledUpload(mid);
    HalfReplacedDisk(s.disk, mid.disk, x, y);
  }

  /**
   * A repeated block with other bytes escapes the check: one byte is sent as x and then again as y,
   * and the commit certifies the size and CRC of x while the file holds y.
   */
  lemma DishonestRepeatEscapes(x: byte, y: byte)
    requires x != y
    ensures var s := Boot(map[], true);
            var sent := Step(Step(Step(s, PutBegin(1, Crc32([x]), Some("a"))), PutData(0, [x])), PutData(0, [y]));
            var ready := Step(Step(Step(sent, PutCommit), PutCommit), PutCommit);
            && Serve(ready, PutCommit, Fine()).1 == Verified(1, Crc32([x]))
            && Serve(ready, PutCommit, Fine()).0.disk == map[Drive("a") := File([y])]
  {
    OneByteTwice(x, y);
    var sent := Step(Step(Step(Boot(map[], true), PutBegin(1, Crc32([x]), Some("a"))), PutData(0, [x])),
                     PutData(0, [y]));
    OneByteCommits(sent, x, y);
  }

  /** The state after one byte was sent as x and repeated as y: complete, synced, and wrong. */
  ghost predicate SentTwice(s: Server, x: byte, y: byte) {
    && s.session == Putting && s.file == Temp && s.disk == map[Temp := File([y])]
    && NotPending(s.board) && !s.board.companion
    && s.up.target == Drive("a") && s.up.size == 1 == s.up.received && s.up.crc == Crc32([x]) && !s.up.direct
    && !s.up.backup
    && s.up.running == CrcUpdate(ALL_ONES, [x]) && s.up.finalSynced && s.up.phase == 0
  }

  lemma BlockServed(s: Server, offset: nat, block: seq<byte>, s': Server, reply: Reply)
    requires PutDataStep(s, offset, block, Fine()) == (s', reply)
    ensures Step(s, PutData(offset, block)) == AfterReply(s', Fine())
  {
  }

  /** A block that is accepted and written without a fault. */
  lemma GoodData(s: Server, offset: nat, block: seq<byte>)
    requires s.session == Putting && s.up.phase == 0 && !s.up.direct && NotPending(s.board)
    requires block != [] && BlockAccepted(s.up, offset, |block|)
    ensures var s' := Step(s, PutData(offset, block));
            && s'.disk == WriteFile(s.disk, s.file, offset, block)
            && s'.up == AfterBlock(s.up, offset, block, SyncDue(s.up, offset, block))
            && s'.session == Putting && s'.file == s.file && s'.board == s.board
  {
    var (s', reply) := PutDataStep(s, offset, block, Fine());
    GoodBlock(s, offset, block);
    BlockServed(s, offset, block, s', reply);
  }

  lemma GoodBlock(s: Server, offset: nat, block: seq<byte>)
    requires s.session == Putting && s.up.phase == 0 && !s.up.direct
    requires block != [] && BlockAccepted(s.up, offset, |block|)
    ensures PutDataStep(s, offset, block, Fine()).0
         == s.(disk := WriteFile(s.disk, s.file, offset, block),
               up := AfterBlock(s.up, offset, block, SyncDue(s.up, offset, block)))
  {
    WrittenWhole(s, offset, block, Fine());
    AfterBlockFields(s.up, offset, block, SyncDue(s.up, offset, block));
  }

  lemma OneByteBegins(crc: bv32)
    ensures var s := Step(Boot(map[], true), PutBegin(1, crc, Some("a")));
            && s.session == Putting && s.file == Temp && s.disk == map[Temp := File([])]
            && s.up == FreshUpload(Drive("a"), 1, crc, false) && NotPending(s.board) && !s.board.companion
  {
  }

  lemma FreshByte(u: Upload, x: byte, crc: bv32)
    requires u == FreshUpload(Drive("a"), 1, crc, false)
    ensures var v := AfterBlock(u, 0, [x], SyncDue(u, 0, [x]));
            && v.target == u.target && v.size == 1 == v.received && v.crc == crc && !v.direct && !v.backup
            && v.running == CrcUpdate(ALL_ONES, [x]) && v.finalSynced && v.phase == 0
  {
    assert SyncDue(u, 0, [x]);
    assert AfterBlock(u, 0, [x], true) == Grown(Synced(u, 1), [x]);
  }

  lemma FirstByteFrom(s: Server, x: byte, crc: bv32)
    requires s.session == Putting && s.file == Temp && s.disk == map[Temp := File([])]
    requires s.up == FreshUpload(Drive("a"), 1, crc, false) && NotPending(s.board) && !s.board.companion
    requires crc == Crc32([x])
    ensures SentTwice(Step(s, PutData(0, [x])), x, x)
  {
    GoodData(s, 0, [x]);
    FreshByte(s.up, x, crc);
    assert WriteAt([], 0, [x]) == [x];
  }

  lemma FirstByte(x: byte)
    ensures SentTwice(Step(Step(Boot(map[], true), PutBegin(1, Crc32([x]), Some("a"))), PutData(0, [x])), x, x)
  {
    OneByteBegins(Crc32([x]));
    FirstByteFrom(Step(Boot(map[], true), PutBegin(1, Crc32([x]), Some("a"))), x, Crc32([x]));
  }

  lemma OneByteTwice(x: byte, y: byte)
    ensures SentTwice(Step(Step(Step(Boot(map[], true), PutBegin(1, Crc32([x]), Some("a"))), PutData(0, [x])),
                           PutData(0, [y])), x, y)
  {
    FirstByte(x);
    RepeatByte(Step(Step(Boot(map[], true), PutBegin(1, Crc32([x]), Some("a"))), PutData(0, [x])), x, y);
  }

  lemma RepeatByte(s: Server, x: byte, y: byte)
    requires SentTwice(s, x, x)
    ensures SentTwice(Step(s, PutData(0, [y])), x, y)
  {
    GoodData(s, 0, [y]);
    assert WriteAt([x], 0, [y]) == [y];
  }

  lemma GoodCheck(s: Server)
    requires s.session == Putting && s.up.phase == 0 && !s.up.direct && s.up.finalSynced && NotPending(s.board)
    requires s.up.received == s.up.size == |Content(s.disk, s.file)| <= MAX32 && Complement(s.up.running) == s.up.crc
    ensures Step(s, PutCommit) ==
            s.(up := s.up.(commitCrc := s.up.crc, commitSize := s.up.size, phase := 1, synced := s.up.received))
  {
  }

  lemma GoodInstall(s: Server)
    requires s.session == Putting && s.up.phase == 1 && !s.up.backup && NotPending(s.board)
    requires s.up.target !in s.disk && Temp in s.disk && s.up.target != Temp
    ensures var s' := Step(Step(s, PutCommit), PutCommit);
            s' == s.(up := s.up.(phase := 3), disk := (s.disk - {Temp})[s.up.target := s.disk[Temp]])
  {
    assert Step(s, PutCommit) == s.(up := s.up.(phase := 2));
  }

  lemma OneByteCommits(s: Server, x: byte, y: byte)
    requires SentTwice(s, x, y)
    ensures var ready := Step(Step(Step(s, PutCommit), PutCommit), PutCommit);
            && Serve(ready, PutCommit, Fine()).1 == Verified(1, Crc32([x]))
            && Serve(ready, PutCommit, Fine()).0.disk == map[Drive("a") := File([y])]
  {
    assert Content(s.disk, s.file) == [y];
    GoodCheck(s);
    OneByteInstalls(Step(s, PutCommit), x, y);
  }

  lemma OneByteInstalls(s: Server, x: byte, y: byte)
    requires s.session == Putting && s.up.phase == 1 && !s.up.backup && NotPending(s.board)
    requires s.up.target == Drive("a") && s.disk == map[Temp := File([y])]
    requires s.up.commitSize == 1 && s.up.commitCrc == Crc32([x])
    ensures var ready := Step(Step(s, PutCommit), PutCommit);
            && Serve(ready, PutCommit, Fine()).1 == Verified(1, Crc32([x]))
            && Serve(ready, PutCommit, Fine()).0.disk == map[Drive("a") := File([y])]
  {
    GoodInstall(s);
    GoodClean(Step(Step(s, PutCommit), PutCommit));
  }

  lemma GoodClean(s: Server)
    requires s.session == Putting && s.up.phase == 3 && !s.up.backup
    ensures Serve(s, PutCommit, Fine()).1 == Verified(s.up.commitSize, s.up.commitCrc)
    ensures Step(s, PutCommit).disk == s.disk
  {
  }
}
