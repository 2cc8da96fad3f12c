/** The counterpart of safety: when nothing fails and nothing is lost, every upload succeeds. */
module LinkCompletes {
  import opened Bytes
  import opened Checksums
  import opened LinkDisk
  import opened LinkServer
  import opened LinkUpload
  import opened LinkUploadSafety
  import opened LinkLimits

  /** No action waits for a reply. */
  predicate Settled(b: Board) {
    !b.resumeAfterTx && !b.startAfterTx && !b.returnPending && !b.resetPending
  }

  /** Nothing but the target and the two working files differs. */
  ghost predicate OthersUntouched(d: Disk, d': Disk, target: Path) {
    forall p :: p != target && p != Temp && p != Backup ==> ((p in d) == (p in d')) && (p in d ==> d[p] == d'[p])
  }

  /** An upload over the disk `d` has taken `sent` bytes. */
  ghost predicate Taken(s: Server, d: Disk, sync: bool, g: Goal, sent: nat) {
    && s.session == Putting && Ours(s, g) && s.up.phase == 0 && s.up.received == sent && !s.up.backup
    && Settled(s.board) && s.board.sync == sync
    && OthersUntouched(d, s.disk, Drive(g.name))
    && (Drive(g.name) in s.disk ==> s.disk[Drive(g.name)].File?)
  }

  /** The upload is over: the target is the source, nothing else changed, and the Companion runs again. */
  ghost predicate Succeeded(s: Server, d: Disk, sync: bool, g: Goal) {
    && Complete(s, g) && Settled(s.board) && (s.board.suspended ==> sync)
    && OthersUntouched(d, s.disk, Drive(g.name))
  }

  function BlockAt(g: Goal, sent: nat): (block: seq<byte>)
    requires sent < |g.source|
    ensures 0 < |block| <= CHUNK && sent + |block| <= |g.source| && SourceBlock(PutData(sent, block), g)
  {
    g.source[sent..Min(sent + CHUNK, |g.source|)]
  }

  /** A block was acknowledged, and the upload goes on; or the acknowledgement verifies it. */
  ghost predicate BlockAnswered(s: Server, reply: Reply, d: Disk, sync: bool, g: Goal, sent: nat) {
    if reply.AckedVerified? then
      reply == AckedVerified(sent, |g.source|, Crc32(g.source)) && sent == |g.source| && Succeeded(s, d, sync, g)
    else
      reply == Acked(sent) && Taken(s, d, sync, g, sent)
  }

  /** All blocks of up to 240 bytes from `sent` on. */
  function SendFrom(s: Server, g: Goal, sent: nat): Server
    requires sent <= |g.source|
    decreases |g.source| - sent
  {
    if sent == |g.source| then s
    else SendFrom(Step(s, PutData(sent, BlockAt(g, sent))), g, sent + |BlockAt(g, sent)|)
  }

  function CommitTwice(s: Server): Server {
    Step(Step(s, PutCommit), PutCommit)
  }

  /** BEGIN, all blocks, and one COMMIT for each phase. */
  function UploadAll(s: Server, g: Goal): Server {
    CommitTwice(CommitTwice(SendFrom(Step(s, PutBegin(|g.source|, Crc32(g.source), Some(g.name))), g, 0)))
  }

  lemma SettledReply(s: Server, env: Env)
    requires Settled(s.board)
    ensures AfterReply(s, env) == s
  {
  }

  /** An answer that leaves a resume for later resumes the Companion, unless a synchronisation is active. */
  lemma ResumedReply(s: Server, env: Env, b: Board)
    requires Settled(b) && s.board == ResumeLater(b)
    ensures var s' := AfterReply(s, env);
            && s'.disk == s.disk && s'.session == s.session && Settled(s'.board) && (s'.board.suspended ==> b.sync)
  {
  }

  // ----- Begin

  lemma OpensFine(d: Disk, target: Path, size: nat)
    requires target.Drive? && (target in d ==> d[target].File?)
    ensures var (d', code, direct) := PutOpen(d, target, size, Fine());
            && code == Ok && OthersUntouched(d, d', target) && (target in d' ==> d'[target].File?)
  {
  }

  lemma BeginsFine(s: Server, g: Goal)
    requires s.session == Idle && Settled(s.board) && (Drive(g.name) in s.disk ==> s.disk[Drive(g.name)].File?)
    ensures var (s', reply) := PutBeginStep(s, |g.source|, Crc32(g.source), Some(g.name), Fine());
            && reply.Opened?
            && s'.session == Putting && s'.up.phase == 0 && s'.up.received == 0 && !s'.up.backup
            && Settled(s'.board) && s'.board.sync == s.board.sync
            && OthersUntouched(s.disk, s'.disk, Drive(g.name))
            && (Drive(g.name) in s'.disk ==> s'.disk[Drive(g.name)].File?)
  {
    OpensFine(s.disk, Drive(g.name), |g.source|);
  }

  lemma Begins(s: Server, g: Goal)
    requires s.session == Idle && Settled(s.board) && |g.source| <= MAX32
    requires Drive(g.name) in s.disk ==> s.disk[Drive(g.name)].File?
    ensures Taken(Step(s, PutBegin(|g.source|, Crc32(g.source), Some(g.name))), s.disk, s.board.sync, g, 0)
    ensures Serve(s, PutBegin(|g.source|, Crc32(g.source), Some(g.name)), Fine()).1.Opened?
  {
    var s' := PutBeginStep(s, |g.source|, Crc32(g.source), Some(g.name), Fine()).0;
    BeginOurs(s, Fine(), g);
    BeginsFine(s, g);
    SettledReply(s', Fine());
  }

  // ----- Data

  lemma WritesFine(s: Server, offset: nat, block: seq<byte>)
    requires s.session == Putting && s.up.phase == 0 && block != [] && BlockAccepted(s.up, offset, |block|)
    ensures var (s', reply) := PutDataStep(s, offset, block, Fine());
            && !reply.Failed? && s'.board == (if Verifies(reply) then ResumeLater(s.board) else s.board)
  {
  }

  lemma WriteTouches(d: Disk, file: Path, offset: nat, block: seq<byte>, target: Path)
    requires file == Temp || file == target
    ensures OthersUntouched(d, WriteFile(d, file, offset, block), target)
    ensures target in d && d[target].File? && target in WriteFile(d, file, offset, block) ==>
              WriteFile(d, file, offset, block)[target].File?
    ensures target in WriteFile(d, file, offset, block) <==> target in d
  {
  }

  lemma OthersTwice(a: Disk, b: Disk, c: Disk, target: Path)
    requires OthersUntouched(a, b, target) && OthersUntouched(b, c, target)
    ensures OthersUntouched(a, c, target)
  {
  }

  lemma BlockPhase(u: Upload, offset: nat, block: seq<byte>, due: bool)
    ensures var v := AfterBlock(u, offset, block, due);
            (v.phase == u.phase || (v.direct && v.phase == 4 && v.received == v.size)) && v.backup == u.backup
  {
  }

  /** What one block does to the card. */
  lemma BlockTouches(s: Server, d: Disk, g: Goal, block: seq<byte>)
    requires s.session == Putting && Ours(s, g) && s.up.phase == 0 && OthersUntouched(d, s.disk, Drive(g.name))
    requires Drive(g.name) in s.disk ==> s.disk[Drive(g.name)].File?
    ensures var d' := WriteFile(s.disk, s.file, s.up.received, block);
            OthersUntouched(d, d', Drive(g.name)) && (Drive(g.name) in d' ==> d'[Drive(g.name)].File?)
  {
    WriteTouches(s.disk, s.file, s.up.received, block, Drive(g.name));
    OthersTwice(d, s.disk, WriteFile(s.disk, s.file, s.up.received, block), Drive(g.name));
  }

  /** The block is stored; it verifies the upload, or more is to come. */
  ghost predicate BlockStands(s: Server, reply: Reply, b: Board, d: Disk, g: Goal, sent: nat) {
    && s.board == (if Verifies(reply) then ResumeLater(b) else b) && StaysTrue(s, reply, g)
    && (if Verifies(reply) then sent == |g.source| && reply == AckedVerified(sent, |g.source|, Crc32(g.source))
        else s.session == Putting && s.up.phase == 0 && s.up.received == sent && !s.up.backup && reply == Acked(sent))
    && OthersUntouched(d, s.disk, Drive(g.name)) && (Drive(g.name) in s.disk ==> s.disk[Drive(g.name)].File?)
  }

  lemma BlockGoesOn(s: Server, d: Disk, sync: bool, g: Goal, block: seq<byte>, s': Server, reply: Reply)
    requires Taken(s, d, sync, g, s.up.received) && s.up.received < |g.source| <= MAX32
    requires block == BlockAt(g, s.up.received) && (s', reply) == PutDataStep(s, s.up.received, block, Fine())
    ensures BlockStands(s', reply, s.board, d, g, s.up.received + |block|)
  {
    var sent := s.up.received;
    BlockOurs(s, PutData(sent, block), Fine(), g);
    WritesFine(s, sent, block);
    PutDataOutcome(s, sent, block, Fine());
    BlockTouches(s, d, g, block);
    BlockStored(s, g, sent, block, s', reply);
  }

  /** Every block is taken, and the last block of a direct update completes it. */
  lemma BlockSends(s: Server, d: Disk, sync: bool, g: Goal, sent: nat)
    requires Taken(s, d, sync, g, sent) && sent < |g.source| <= MAX32
    ensures var block := BlockAt(g, sent);
            BlockAnswered(Step(s, PutData(sent, block)), Serve(s, PutData(sent, block), Fine()).1, d, sync, g,
                          sent + |block|)
  {
    var block := BlockAt(g, sent);
    var (s', reply) := PutDataStep(s, sent, block, Fine());
    BlockGoesOn(s, d, sync, g, block, s', reply);
    BlockReply(s', reply, s.board, d, sync, g, sent + |block|);
    BlockServed(s, sent, block, s', reply);
    ReplyServed(s, sent, block, s', reply);
  }

  lemma ReplyServed(s: Server, offset: nat, block: seq<byte>, s': Server, reply: Reply)
    requires PutDataStep(s, offset, block, Fine()) == (s', reply)
    ensures Serve(s, PutData(offset, block), Fine()).1 == reply
  {
  }

  lemma BlockStored(s: Server, g: Goal, sent: nat, block: seq<byte>, s': Server, reply: Reply)
    requires s.up.received == sent && !s.up.backup && Stored(s, sent, block, s', reply) && StaysTrue(s', reply, g)
    ensures Verifies(reply) ==> reply == AckedVerified(sent + |block|, |g.source|, Crc32(g.source))
    ensures !Verifies(reply) ==>
              && s'.session == Putting && s'.up.phase == 0 && s'.up.received == sent + |block| && !s'.up.backup
              && reply == Acked(sent + |block|)
  {
    BlockPhase(s.up, sent, block, SyncDue(s.up, sent, block));
    AfterBlockFields(s.up, sent, block, SyncDue(s.up, sent, block));
  }

  /** After the acknowledgement the upload goes on, or it is over and the Companion runs again. */
  lemma BlockReply(s: Server, reply: Reply, b: Board, d: Disk, sync: bool, g: Goal, sent: nat)
    requires Settled(b) && b.sync == sync && BlockStands(s, reply, b, d, g, sent)
    ensures BlockAnswered(AfterReply(s, Fine()), reply, d, sync, g, sent)
  {
    if Verifies(reply) {
      ResumedReply(s, Fine(), b);
    } else {
      SettledReply(s, Fine());
    }
  }

  lemma {:induction false} AllSent(s: Server, d: Disk, sync: bool, g: Goal, sent: nat)
    requires Taken(s, d, sync, g, sent) && sent <= |g.source| <= MAX32
    ensures var t := SendFrom(s, g, sent); Taken(t, d, sync, g, |g.source|) || Succeeded(t, d, sync, g)
    decreases |g.source| - sent, 0
  {
    if sent < |g.source| {
      var s', next := OneSent(s, d, sync, g, sent);
      SentRest(s', d, sync, g, next);
    }
  }

  /** The board after the next block, from where the rest is sent. */
  lemma OneSent(s: Server, d: Disk, sync: bool, g: Goal, sent: nat) returns (s': Server, next: nat)
    requires Taken(s, d, sync, g, sent) && sent < |g.source| <= MAX32
    ensures sent < next <= |g.source| && SendFrom(s', g, next) == SendFrom(s, g, sent)
    ensures Taken(s', d, sync, g, next) || (next == |g.source| && Succeeded(s', d, sync, g))
  {
    s', next := Step(s, PutData(sent, BlockAt(g, sent))), sent + |BlockAt(g, sent)|;
    BlockSends(s, d, sync, g, sent);
  }

  lemma {:induction false} SentRest(s: Server, d: Disk, sync: bool, g: Goal, sent: nat)
    requires sent <= |g.source| <= MAX32
    requires Taken(s, d, sync, g, sent) || (sent == |g.source| && Succeeded(s, d, sync, g))
    ensures var t := SendFrom(s, g, sent); Taken(t, d, sync, g, |g.source|) || Succeeded(t, d, sync, g)
    decreases |g.source| - sent, 1
  {
    if Taken(s, d, sync, g, sent) {
      AllSent(s, d, sync, g, sent);
    }
  }

  // ----- Commit

  /** Everything is sent; `phase` commit phases are done. */
  ghost predicate Committing(s: Server, d: Disk, sync: bool, g: Goal, phase: nat) {
    && s.session == Putting && Ours(s, g) && s.up.phase == phase && s.up.received == |g.source| && !s.up.direct
    && Settled(s.board) && s.board.sync == sync
    && OthersUntouched(d, s.disk, Drive(g.name))
    && (Drive(g.name) in s.disk ==> s.disk[Drive(g.name)].File?)
    && (phase == 2 ==> Drive(g.name) !in s.disk)
  }

  lemma ChecksFine(s: Server, g: Goal)
    requires Ours(s, g) && s.session == Putting && s.up.phase == 0 && s.up.received == |g.source| <= MAX32
    ensures CommitCheck(s, Fine()).1 == Ok
  {
    assert s.up.log == g.source;
  }

  /** A commit step whose phase succeeds. */
  lemma CommitSucceeds(s: Server, next: Server)
    requires s.session == Putting && s.up.phase < 4 && CommitPhase(s, Fine()) == (next, Ok) && Settled(next.board)
    ensures Serve(s, PutCommit, Fine()).1
         == if next.up.phase < 4 then Phase(next.up.phase) else Verified(next.up.commitSize, next.up.commitCrc)
    ensures next.up.phase < 4 ==> Step(s, PutCommit) == next
    ensures next.up.phase >= 4 ==>
              Step(s, PutCommit) == AfterReply(next.(session := Idle, board := ResumeLater(next.board)), Fine())
  {
    SettledReply(next, Fine());
  }

  /** The next COMMIT is answered with the verification of the whole upload. */
  ghost predicate LastReply(s: Server, g: Goal) {
    Serve(s, PutCommit, Fine()).1 == Verified(|g.source|, Crc32(g.source))
  }

  /** A commit step that completes the upload. */
  lemma CommitCompletes(s: Server, next: Server, d: Disk, sync: bool, g: Goal)
    requires s.session == Putting && s.up.phase < 4 && CommitPhase(s, Fine()) == (next, Ok) && Settled(next.board)
    requires Ours(s, g) && Advanced(s, next, g) && next.up.phase == 4 && next.board.sync == sync
    requires OthersUntouched(d, next.disk, Drive(g.name))
    ensures Succeeded(Step(s, PutCommit), d, sync, g) && LastReply(s, g)
  {
    CommitSucceeds(s, next);
    ResumedReply(next.(session := Idle, board := ResumeLater(next.board)), Fine(), next.board);
  }

  /** A direct update that only needs its check. */
  lemma DirectCommits(s: Server, d: Disk, sync: bool, g: Goal)
    requires Taken(s, d, sync, g, |g.source|) && s.up.direct && |g.source| <= MAX32
    ensures Succeeded(Step(s, PutCommit), d, sync, g) && LastReply(s, g)
  {
    ChecksFine(s, g);
    CheckAdvances(s, Fine(), g);
    CommitCompletes(s, CommitCheck(s, Fine()).0, d, sync, g);
  }

  /** A step inside the four phases keeps the upload ours. */
  lemma PhaseOurs(s: Server, next: Server, g: Goal)
    requires Ours(s, g) && s.session == Putting && s.up.phase < 4 && CommitPhase(s, Fine()) == (next, Ok)
    requires next.up.phase < 4 && Settled(next.board) && |g.source| <= MAX32
    ensures Ours(next, g) && Step(s, PutCommit) == next && Serve(s, PutCommit, Fine()).1 == Phase(next.up.phase)
  {
    CommitSucceeds(s, next);
    FairStep(s, PutCommit, Fine(), g);
  }

  lemma FirstPhase(s: Server, d: Disk, sync: bool, g: Goal)
    requires Taken(s, d, sync, g, |g.source|) && !s.up.direct && |g.source| <= MAX32
    ensures Committing(Step(s, PutCommit), d, sync, g, 1) && !Step(s, PutCommit).up.backup
    ensures Serve(s, PutCommit, Fine()).1 == Phase(1)
  {
    ChecksFine(s, g);
    CheckAdvances(s, Fine(), g);
    PhaseOurs(s, CommitCheck(s, Fine()).0, g);
  }

  lemma BacksUpFine(s: Server, d: Disk, sync: bool, g: Goal)
    requires Committing(s, d, sync, g, 1) && !s.up.backup
    ensures var (next, code) := CommitBackup(s, Fine());
            && code == Ok && next.up.phase == 2 && next.board == s.board && !next.up.direct
            && OthersUntouched(d, next.disk, Drive(g.name)) && Drive(g.name) !in next.disk
  {
  }

  lemma SecondPhase(s: Server, d: Disk, sync: bool, g: Goal)
    requires Committing(s, d, sync, g, 1) && !s.up.backup && |g.source| <= MAX32
    ensures Committing(Step(s, PutCommit), d, sync, g, 2) && Serve(s, PutCommit, Fine()).1 == Phase(2)
  {
    var next := CommitBackup(s, Fine()).0;
    BacksUpFine(s, d, sync, g);
    RenamesAdvance(s, Fine(), g);
    PhaseOurs(s, next, g);
  }

  lemma InstallsFine(s: Server, d: Disk, sync: bool, g: Goal)
    requires Committing(s, d, sync, g, 2)
    ensures var (next, code) := CommitInstall(s, Fine());
            && code == Ok && next.up.phase == 3 && next.board == s.board && !next.up.direct
            && OthersUntouched(d, next.disk, Drive(g.name))
            && Drive(g.name) in next.disk && next.disk[Drive(g.name)].File?
  {
  }

  lemma ThirdPhase(s: Server, d: Disk, sync: bool, g: Goal)
    requires Committing(s, d, sync, g, 2) && |g.source| <= MAX32
    ensures Committing(Step(s, PutCommit), d, sync, g, 3) && Serve(s, PutCommit, Fine()).1 == Phase(3)
  {
    var next := CommitInstall(s, Fine()).0;
    InstallsFine(s, d, sync, g);
    RenamesAdvance(s, Fine(), g);
    PhaseOurs(s, next, g);
  }

  lemma CleansFine(s: Server, d: Disk, sync: bool, g: Goal)
    requires Committing(s, d, sync, g, 3)
    ensures var (next, code) := CommitClean(s, Fine());
            && code == Ok && next.up.phase == 4 && next.board == s.board && OthersUntouched(d, next.disk, Drive(g.name))
  {
  }

  lemma FourthPhase(s: Server, d: Disk, sync: bool, g: Goal)
    requires Committing(s, d, sync, g, 3)
    ensures Succeeded(Step(s, PutCommit), d, sync, g) && LastReply(s, g)
  {
    CleansFine(s, d, sync, g);
    CleanAdvances(s, Fine(), g);
    CommitCompletes(s, CommitClean(s, Fine()).0, d, sync, g);
  }

  /** The upload before its COMMIT number `turn`, counted from zero. */
  ghost predicate BeforeCommit(s: Server, d: Disk, sync: bool, g: Goal, turn: nat) {
    if turn == 0 then Taken(s, d, sync, g, |g.source|)
    else 1 <= turn <= 3 && Committing(s, d, sync, g, turn) && (turn == 1 ==> !s.up.backup)
  }

  /** One COMMIT: it completes the upload, as it does an update in place, or one more is needed. */
  lemma CommitTurn(s: Server, d: Disk, sync: bool, g: Goal, turn: nat)
    requires BeforeCommit(s, d, sync, g, turn) && |g.source| <= MAX32
    ensures var reply := Serve(s, PutCommit, Fine()).1;
            if turn == 3 || (turn == 0 && s.up.direct)
            then Succeeded(Step(s, PutCommit), d, sync, g) && LastReply(s, g)
            else reply == Phase(turn + 1) && BeforeCommit(Step(s, PutCommit), d, sync, g, turn + 1)
  {
    if turn == 0 && s.up.direct {
      DirectCommits(s, d, sync, g);
    } else if turn == 0 {
      FirstPhase(s, d, sync, g);
    } else if turn == 1 {
      SecondPhase(s, d, sync, g);
    } else if turn == 2 {
      ThirdPhase(s, d, sync, g);
    } else {
      FourthPhase(s, d, sync, g);
    }
  }

  lemma CommitWhenDone(s: Server, d: Disk, sync: bool, g: Goal)
    requires Succeeded(s, d, sync, g)
    ensures Succeeded(CommitTwice(s), d, sync, g)
  {
    DoneThenOne(s, d, sync, g);
    DoneThenOne(Step(s, PutCommit), d, sync, g);
  }

  lemma CommitsAll(s: Server, d: Disk, sync: bool, g: Goal)
    requires Taken(s, d, sync, g, |g.source|) || Succeeded(s, d, sync, g)
    requires |g.source| <= MAX32
    ensures Succeeded(CommitTwice(CommitTwice(s)), d, sync, g)
  {
    if Succeeded(s, d, sync, g) {
      CommitWhenDone(s, d, sync, g);
      CommitWhenDone(CommitTwice(s), d, sync, g);
    } else if s.up.direct {
      DirectCommits(s, d, sync, g);
      DoneThenOne(Step(s, PutCommit), d, sync, g);
      CommitWhenDone(CommitTwice(s), d, sync, g);
    } else {
      var s1 := Step(s, PutCommit);
      FirstPhase(s, d, sync, g);
      SecondPhase(s1, d, sync, g);
      ThirdPhase(Step(s1, PutCommit), d, sync, g);
      FourthPhase(Step(Step(s1, PutCommit), PutCommit), d, sync, g);
    }
  }

  /** Further commits find no session. */
  lemma DoneThenOne(s: Server, d: Disk, sync: bool, g: Goal)
    requires Succeeded(s, d, sync, g)
    ensures Succeeded(Step(s, PutCommit), d, sync, g)
  {
    SettledReply(s, Fine());
  }

  // ----- Reading back

  /** On a card that works, a file that is there is opened for reading, and answers its size. */
  lemma OpensReading(s: Server, name: string)
    requires s.session == Idle && Settled(s.board) && Drive(name) in s.disk && s.disk[Drive(name)].File?
    requires |s.disk[Drive(name)].data| <= MAX32
    ensures Serve(s, GetBegin(Some(name)), Fine())
         == (s.(session := Getting, file := Drive(name)), Size(|s.disk[Drive(name)].data|))
  {
    SettledReply(s.(session := Getting, file := Drive(name)), Fine());
  }

  /** Then every chunk asked for comes back. */
  lemma ReadsOn(s: Server, offset: nat, count: nat)
    requires s.session == Getting && Settled(s.board) && s.file in s.disk && s.disk[s.file].File?
    requires 0 < count <= CHUNK
    ensures Serve(s, GetData(offset, count), Fine()) == (s, Data(ReadAt(s.disk[s.file].data, offset, count)))
  {
    SettledReply(s, Fine());
  }

  lemma EndsReading(s: Server)
    requires s.session == Getting && Settled(s.board)
    ensures Serve(s, GetEnd, Fine()) == (s.(session := Idle), Done0)
  {
    SettledReply(s.(session := Idle), Fine());
  }

  lemma InfoFine(s: Server)
    requires Settled(s.board)
    ensures Serve(s, Info, Fine()) == (s, Done0)
  {
    SettledReply(s, Fine());
  }

  /**
   * When no call fails and no frame is lost, the upload of any source of up to 2^32 - 1 bytes to any
   * name that is not a directory succeeds from any idle board: the target is the source, no other
   * user file has changed, and the Companion runs again unless a synchronisation holds it.
   */
  lemma FaultlessUploadSucceeds(s: Server, g: Goal)
    requires s.session == Idle && Settled(s.board) && |g.source| <= MAX32
    requires Drive(g.name) in s.disk ==> s.disk[Drive(g.name)].File?
    ensures Succeeded(UploadAll(s, g), s.disk, s.board.sync, g)
  {
    Begins(s, g);
    var begun := Step(s, PutBegin(|g.source|, Crc32(g.source), Some(g.name)));
    AllSent(begun, s.disk, s.board.sync, g, 0);
    CommitsAll(SendFrom(begun, g, 0), s.disk, s.board.sync, g);
  }
}
