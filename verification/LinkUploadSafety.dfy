/**
 * What an upload over a lossy link may conclude from the replies it gets: a reply that verifies the
 * upload means that the target holds the source, and a read-back means equal size and CRC-32.
 */
module LinkUploadSafety {
  import opened Bytes
  import opened Checksums
  import opened LinkDisk
  import opened LinkServer
  import opened LinkUpload

  /** What the desktop wants: this source under this name. */
  datatype Goal = Goal(name: string, source: seq<byte>)

  /** An open upload, if there is one, is this one, and it has taken a prefix of the source. */
  ghost predicate Ours(s: Server, g: Goal) {
    s.session == Putting ==>
      && UploadOk(s) && s.up.target == Drive(g.name) && s.up.size == |g.source| && s.up.crc == Crc32(g.source)
      && s.up.received <= |g.source| && s.up.log == g.source[..s.up.received]
  }

  /** The target holds exactly the source and no session is open. */
  ghost predicate Complete(s: Server, g: Goal) {
    s.session == Idle && Drive(g.name) in s.disk && s.disk[Drive(g.name)] == File(g.source)
  }

  predicate BeginsGoal(r: Request, g: Goal) {
    r == PutBegin(|g.source|, Crc32(g.source), Some(g.name))
  }

  /** A block of the source at its own place. */
  predicate SourceBlock(r: Request, g: Goal) {
    r.PutData? && r.offset + |r.block| <= |g.source| && r.block == g.source[r.offset..r.offset + |r.block|]
  }

  predicate Reads(r: Request, name: string) {
    r == GetBegin(Some(name)) || r.GetData? || r.GetEnd?
  }

  /** The requests that this upload sends, in any number and any order. */
  predicate Fair(r: Request, g: Goal) {
    r.Info? || BeginsGoal(r, g) || SourceBlock(r, g) || r.PutCommit? || Reads(r, g.name) || r.Cancel?
  }

  predicate Verifies(reply: Reply) {
    reply.Verified? || reply.AckedVerified?
  }

  // ----- One request

  lemma SettledOurs(s: Server, env: Env, g: Goal)
    ensures Ours(s, g) ==> Ours(AfterReply(s, env), g)
    ensures Complete(s, g) ==> Complete(AfterReply(s, env), g)
  {
  }

  /** A reply that verifies this very source. */
  predicate VerifiesGoal(reply: Reply, g: Goal) {
    reply == Verified(|g.source|, Crc32(g.source)) || reply == AckedVerified(|g.source|, |g.source|, Crc32(g.source))
  }

  /** The upload is still ours, and a reply that verifies it is true. */
  ghost predicate StaysTrue(s: Server, reply: Reply, g: Goal) {
    Ours(s, g) && (Verifies(reply) ==> Complete(s, g) && VerifiesGoal(reply, g))
  }

  lemma BlockOurs(s: Server, r: Request, env: Env, g: Goal)
    requires Ours(s, g) && SourceBlock(r, g)
    ensures var (s', reply) := PutDataStep(s, r.offset, r.block, env);
            StaysTrue(s', reply, g)
  {
    PutDataOutcome(s, r.offset, r.block, env);
    var (s', reply) := PutDataStep(s, r.offset, r.block, env);
    if !reply.Failed? {
      SourceIsHonest(s, r, g);
      PutDataKeeps(s, r.offset, r.block, env);
      TakenOurs(s, r, s', reply, g);
    }
  }

  /** Blocks of the source repeat their own bytes. */
  lemma SourceIsHonest(s: Server, r: Request, g: Goal)
    requires Ours(s, g) && SourceBlock(r, g)
    ensures Honest(s, r)
  {
    if s.session == Putting && r.offset + |r.block| <= |s.up.log| {
      assert s.up.log[r.offset..r.offset + |r.block|] == r.block;
    }
  }

  lemma TakenOurs(s: Server, r: Request, s': Server, reply: Reply, g: Goal)
    requires Ours(s, g) && SourceBlock(r, g) && Stored(s, r.offset, r.block, s', reply) && UploadOk(s')
    ensures StaysTrue(s', reply, g)
  {
    BlockTaken(s, r, s', g);
  }

  /** A block taken, new or repeated, leaves a prefix of the source, and completes it if it certifies it. */
  lemma BlockTaken(s: Server, r: Request, s': Server, g: Goal)
    requires Ours(s, g) && SourceBlock(r, g) && s.session == Putting && s.up.phase == 0
    requires r.block != [] && BlockAccepted(s.up, r.offset, |r.block|) && s'.file == s.file
    requires s'.disk == WriteFile(s.disk, s.file, r.offset, r.block)
    requires s'.up == AfterBlock(s.up, r.offset, r.block, SyncDue(s.up, r.offset, r.block))
    ensures s'.up.target == s.up.target && s'.up.size == s.up.size && s'.up.crc == s.up.crc
    ensures s'.up.received <= |g.source| && s'.up.log == g.source[..s'.up.received]
    ensures s'.up.direct && s'.up.phase == 4 ==>
              && Drive(g.name) in s'.disk && s'.disk[Drive(g.name)] == File(g.source)
              && r.offset + |r.block| == s'.up.commitSize == |g.source| && s'.up.commitCrc == Crc32(g.source)
  {
    var u, due := s.up, SyncDue(s.up, r.offset, r.block);
    AfterBlockFields(u, r.offset, r.block, due);
    if r.offset == u.received {
      assert g.source[..u.received] + r.block == g.source[..u.received + |r.block|];
    }
    if s'.up.direct && s'.up.phase == 4 {
      BlockKeepsFilling(s, r.offset, r.block);
      CertifiedComplete(s'.(session := s.session), g);
    }
  }

  /** A certified direct update has filled its target with the source. */
  lemma CertifiedComplete(s: Server, g: Goal)
    requires Filling(s) && s.up.direct && s.up.target == Drive(g.name)
    requires s.up.received == |g.source| == s.up.size && s.up.log == g.source[..s.up.received]
    ensures Drive(g.name) in s.disk && s.disk[Drive(g.name)] == File(g.source)
  {
    var c := s.disk[s.file].data;
    assert c == c[..s.up.received];
  }

  /** A commit phase that succeeds keeps the upload ours, and the last one leaves the source at the target. */
  ghost predicate Advanced(s: Server, s': Server, g: Goal) {
    && s'.session == Putting
    && s'.up.target == s.up.target && s'.up.size == s.up.size && s'.up.crc == s.up.crc
    && s'.up.received == s.up.received && s'.up.log == s.up.log
    && (s'.up.phase == 4 ==>
          && Drive(g.name) in s'.disk && s'.disk[Drive(g.name)] == File(g.source)
          && s'.up.commitSize == |g.source| && s'.up.commitCrc == Crc32(g.source))
  }

  lemma CheckAdvances(s: Server, env: Env, g: Goal)
    requires Ours(s, g) && s.session == Putting && s.up.phase == 0 && CommitCheck(s, env).1 == Ok
    ensures Advanced(s, CommitCheck(s, env).0, g)
  {
    CheckKeeps(s, env);
    var c := s.disk[s.file].data;
    assert s.up.log == g.source;
    assert c == g.source;
  }

  lemma BackupAdvances(s: Server, env: Env, g: Goal)
    requires Ours(s, g) && s.session == Putting && s.up.phase == 1 && CommitBackup(s, env).1 == Ok
    ensures Advanced(s, CommitBackup(s, env).0, g)
  {
  }

  lemma InstallAdvances(s: Server, env: Env, g: Goal)
    requires Ours(s, g) && s.session == Putting && s.up.phase == 2 && CommitInstall(s, env).1 == Ok
    ensures Advanced(s, CommitInstall(s, env).0, g)
  {
  }

  lemma RenamesAdvance(s: Server, env: Env, g: Goal)
    requires Ours(s, g) && s.session == Putting && 1 <= s.up.phase <= 2 && CommitPhase(s, env).1 == Ok
    ensures Advanced(s, CommitPhase(s, env).0, g)
  {
    if s.up.phase == 1 {
      BackupAdvances(s, env, g);
    } else {
      InstallAdvances(s, env, g);
    }
  }

  lemma CleanAdvances(s: Server, env: Env, g: Goal)
    requires Ours(s, g) && s.session == Putting && s.up.phase == 3 && CommitClean(s, env).1 == Ok
    ensures Advanced(s, CommitClean(s, env).0, g)
  {
    assert s.up.log == g.source;
  }

  lemma PhaseAdvances(s: Server, env: Env, g: Goal)
    requires Ours(s, g) && s.session == Putting && CommitPhase(s, env).1 == Ok
    ensures Advanced(s, CommitPhase(s, env).0, g)
  {
    if s.up.phase == 0 {
      CheckAdvances(s, env, g);
    } else if s.up.phase <= 2 {
      RenamesAdvance(s, env, g);
    } else {
      CleanAdvances(s, env, g);
    }
  }

  lemma CommitOurs(s: Server, env: Env, g: Goal)
    requires Ours(s, g)
    ensures var (s', reply) := CommitStep(s, env);
            StaysTrue(s', reply, g)
  {
    CommitKeeps(s, env);
    if s.session == Putting && env.lock && CommitPhase(s, env).1 == Ok {
      PhaseAdvances(s, env, g);
      CommitAnswer(s, CommitPhase(s, env).0, env, g);
    }
  }

  lemma CommitAnswer(s: Server, next: Server, env: Env, g: Goal)
    requires Ours(s, g) && s.session == Putting && env.lock
    requires CommitPhase(s, env) == (next, Ok) && Advanced(s, next, g) && UploadOk(CommitStep(s, env).0)
    ensures var (s', reply) := CommitStep(s, env);
            StaysTrue(s', reply, g)
  {
  }

  lemma BeginOurs(s: Server, env: Env, g: Goal)
    requires Ours(s, g) && |g.source| <= MAX32
    ensures Ours(PutBeginStep(s, |g.source|, Crc32(g.source), Some(g.name), env).0, g)
  {
    if s.session == Idle {
      PutBeginKeeps(s, |g.source|, Crc32(g.source), Some(g.name), env);
    }
  }

  lemma FairHandled(s: Server, r: Request, env: Env, g: Goal)
    requires Ours(s, g) && Fair(r, g) && |g.source| <= MAX32
    ensures StaysTrue(Handle(s, r, env).0, Handle(s, r, env).1, g)
  {
    if r.PutBegin? {
      BeginHandled(s, r, env, g);
    } else if r.PutData? {
      BlockHandled(s, r, env, g);
    } else if r.PutCommit? {
      CommitHandled(s, env, g);
    } else {
      OthersOurs(s, r, env, g);
    }
  }

  lemma BeginHandled(s: Server, r: Request, env: Env, g: Goal)
    requires Ours(s, g) && BeginsGoal(r, g) && |g.source| <= MAX32
    ensures StaysTrue(Handle(s, r, env).0, Handle(s, r, env).1, g)
  {
    BeginOurs(s, env, g);
  }

  lemma BlockHandled(s: Server, r: Request, env: Env, g: Goal)
    requires Ours(s, g) && SourceBlock(r, g)
    ensures StaysTrue(Handle(s, r, env).0, Handle(s, r, env).1, g)
  {
    BlockOurs(s, r, env, g);
  }

  lemma CommitHandled(s: Server, env: Env, g: Goal)
    requires Ours(s, g)
    ensures StaysTrue(Handle(s, PutCommit, env).0, Handle(s, PutCommit, env).1, g)
  {
    CommitOurs(s, env, g);
  }

  lemma OthersOurs(s: Server, r: Request, env: Env, g: Goal)
    requires Ours(s, g) && Fair(r, g) && !r.PutBegin? && !r.PutData? && !r.PutCommit?
    ensures Ours(FileStep(s, r, env).0, g) && !Verifies(FileStep(s, r, env).1)
  {
    OthersLeave(s, r, env);
    OthersKeep(s, r, env);
  }

  /**
   * Whatever fair request arrives, and whatever fails while it is served, the upload stays ours and a
   * verifying reply is true.
   */
  lemma FairStep(s: Server, r: Request, env: Env, g: Goal)
    requires Ours(s, g) && Fair(r, g) && |g.source| <= MAX32
    ensures var (s', reply) := Serve(s, r, env);
            Ours(s', g) && (Verifies(reply) ==> Complete(s', g) && VerifiesGoal(reply, g))
  {
    FairHandled(s, r, env, g);
    SettledOurs(Handle(s, r, env).0, env, g);
  }

  /** An acknowledged opening starts our upload, whatever state the board was in. */
  lemma OpeningIsOurs(s: Server, r: Request, env: Env, g: Goal)
    requires BeginsGoal(r, g) && |g.source| <= MAX32 && !Serve(s, r, env).1.Failed?
    ensures Ours(Serve(s, r, env).0, g)
  {
    assert s.session == Idle;
    BeginOurs(s, env, g);
    SettledOurs(Handle(s, r, env).0, env, g);
  }

  // ----- Whole runs

  /** Every event is a USB reset or the arrival of one of these requests. */
  predicate Within(events: seq<Event>, requests: seq<Request>) {
    forall e :: e in events && e.Receive? ==> e.request in requests
  }

  predicate FairEvents(events: seq<Event>, g: Goal) {
    forall e :: e in events && e.Receive? ==> Fair(e.request, g)
  }

  lemma {:induction false} RunOurs(s: Server, events: seq<Event>, g: Goal)
    requires Ours(s, g) && FairEvents(events, g) && |g.source| <= MAX32
    ensures Ours(Run(s, events), g)
    decreases |events|
  {
    if events != [] {
      RunOurs(s, events[..|events| - 1], g);
      var last := events[|events| - 1];
      if last.Receive? {
        FairStep(Run(s, events[..|events| - 1]), last.request, last.env, g);
      }
    }
  }

  /**
   * Upload safety.  The opening was acknowledged; then any requests of this upload arrive, lost,
   * repeated, late and in any order, between USB resets and failing calls on the card.  If one of
   * them is answered by a verification, then at that moment the target equals the source byte for
   * byte, and the size and CRC-32 in the answer are the source's.
   */
  lemma UploadSafety(s: Server, opening: Event, events: seq<Event>, last: Event, g: Goal)
    requires |g.source| <= MAX32
    requires opening.Receive? && BeginsGoal(opening.request, g) && !Serve(s, opening.request, opening.env).1.Failed?
    requires FairEvents(events, g) && last.Receive? && Fair(last.request, g)
    requires Verifies(Serve(Run(Next(s, opening), events), last.request, last.env).1)
    ensures var (end, reply) := Serve(Run(Next(s, opening), events), last.request, last.env);
            && Complete(end, g)
            && reply.size == |g.source| && reply.crc == Crc32(g.source)
  {
    OpeningIsOurs(s, opening.request, opening.env, g);
    RunOurs(Next(s, opening), events, g);
    FairStep(Run(Next(s, opening), events), last.request, last.env, g);
  }

  /** Repeats of the verified request and USB resets leave the finished file alone. */
  lemma {:induction false} StaysComplete(s: Server, events: seq<Event>, g: Goal)
    requires Complete(s, g)
    requires forall e :: e in events && e.Receive? ==> e.request.PutData? || e.request.PutCommit?
    ensures Complete(Run(s, events), g)
    decreases |events|
  {
    if events != [] {
      StaysComplete(s, events[..|events| - 1], g);
      var last := events[|events| - 1];
    }
  }

  // ----- Reading back

  /** The named file is there, and a download, if one is open, is of that file. */
  ghost predicate Reading(s: Server, name: string, data: seq<byte>) {
    && (s.session == Idle || (s.session == Getting && s.file == Drive(name)))
    && Drive(name) in s.disk && s.disk[Drive(name)] == File(data)
  }

  lemma NextReading(s: Server, e: Event, name: string, data: seq<byte>)
    requires Reading(s, name, data) && (e.Receive? ==> Reads(e.request, name))
    ensures Reading(Next(s, e), name, data)
  {
  }

  lemma {:induction false} StaysReading(s: Server, events: seq<Event>, name: string, data: seq<byte>)
    requires Reading(s, name, data)
    requires forall e :: e in events && e.Receive? ==> Reads(e.request, name)
    ensures Reading(Run(s, events), name, data)
    decreases |events|
  {
    if events != [] {
      StaysReading(s, events[..|events| - 1], name, data);
      NextReading(Run(s, events[..|events| - 1]), events[|events| - 1], name, data);
    }
  }

  lemma SizeIsTrue(s: Server, name: string, env: Env)
    requires Serve(s, GetBegin(Some(name)), env).1.Size?
    ensures var (s', reply) := Serve(s, GetBegin(Some(name)), env);
            |Content(s.disk, Drive(name))| == reply.size && Reading(s', name, Content(s.disk, Drive(name)))
  {
  }

  lemma DataIsTrue(s: Server, name: string, data: seq<byte>, offset: nat, count: nat, env: Env)
    requires Reading(s, name, data) && Serve(s, GetData(offset, count), env).1.Data?
    ensures Serve(s, GetData(offset, count), env).1.block == ReadAt(data, offset, count)
  {
  }
}
