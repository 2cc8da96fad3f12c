/** Which steps can change a user file: over every run, no others do. */
module LinkIsolation {
  import opened Bytes
  import opened Checksums
  import opened LinkDisk
  import opened LinkServer
  import opened LinkUpload
  import opened LinkReplace
  import opened LinkLimits
  import opened LinkOutcomes

  /** The path is as free, or holds the same, on both disks. */
  ghost predicate Same(d: Disk, d': Disk, p: Path) {
    (p in d) == (p in d') && (p in d ==> d[p] == d'[p])
  }

  predicate Named(path: Option<string>, p: Path) {
    path.Some? && Drive(path.value) == p
  }

  /**
   * The steps that may change the file at `p`: its DELETE, a BEGIN for the Microdrive image, a block of
   * an update in place, and the two commit phases of its own upload that rename.
   */
  predicate MayChange(s: Server, e: Event, p: Path) {
    e.Receive? &&
    match e.request
    case Delete(path) => s.session == Idle && Named(path, p)
    case PutBegin(_, _, path) => s.session == Idle && Named(path, p) && p == MDV_IMAGE
    case PutData(_, _) => s.session == Putting && s.up.target == p && s.up.direct
    case PutCommit => s.session == Putting && s.up.target == p && 1 <= s.up.phase <= 2
    case _ => false
  }

  lemma OpenSpares(d: Disk, target: Path, size: nat, env: Env, p: Path)
    requires target.Drive? && p.Drive? && (target == p ==> p != MDV_IMAGE)
    ensures Same(d, PutOpen(d, target, size, env).0, p)
  {
    OpenOutcome(d, target, size, env);
  }

  lemma BeginSpares(s: Server, size: nat, crc: bv32, path: Option<string>, env: Env, p: Path)
    requires p.Drive? && !(s.session == Idle && Named(path, p) && p == MDV_IMAGE)
    ensures Same(s.disk, PutBeginStep(s, size, crc, path, env).0.disk, p)
  {
    if s.session == Idle && path.Some? {
      OpenSpares(s.disk, Drive(path.value), size, env, p);
    }
  }

  lemma DataSpares(s: Server, offset: nat, block: seq<byte>, env: Env, p: Path)
    requires Shaped(s) && p.Drive? && !(s.session == Putting && s.up.target == p && s.up.direct)
    ensures Same(s.disk, PutDataStep(s, offset, block, env).0.disk, p)
  {
    if s.session == Putting {
      var (disk, _, due) := WriteBlock(s, offset, block, env);
      AbortOutcome(s.(disk := disk, up := Tried(s.up, offset + |block|, due)), env);
      WriteSpares(s, offset, block, env, p);
    }
  }

  lemma WriteSpares(s: Server, offset: nat, block: seq<byte>, env: Env, p: Path)
    requires s.up.phase == 0 ==> s.file != p
    ensures Same(s.disk, WriteBlock(s, offset, block, env).0, p)
  {
  }

  lemma CommitSpares(s: Server, env: Env, p: Path)
    requires Shaped(s) && p.Drive? && !(s.session == Putting && s.up.target == p && 1 <= s.up.phase <= 2)
    ensures Same(s.disk, CommitStep(s, env).0.disk, p)
  {
    if s.session == Putting {
      PhaseSpares(s, env, p);
      var failed := CommitPhase(s, env).0;
      GiveUpOutcome(failed, env);
      if s.up.target != p {
        RenameSpares(failed.disk, Backup, s.up.target, env.rollback, p);
      }
    }
  }

  lemma RenameSpares(d: Disk, from: Path, to: Path, f: Fault, p: Path)
    requires p != from && p != to
    ensures Same(d, Rename(d, from, to, f).0, p)
  {
  }

  /** A phase leaves other files alone, and what it leaves to the rollback. */
  lemma PhaseSpares(s: Server, env: Env, p: Path)
    requires Shaped(s) && s.session == Putting && p.Drive? && !(s.up.target == p && 1 <= s.up.phase <= 2)
    ensures var s' := CommitPhase(s, env).0;
            && Same(s.disk, s'.disk, p) && s'.up.target == s.up.target
            && (s.up.target == p ==> !s'.up.backup || p in s'.disk)
  {
  }

  lemma OthersSpare(s: Server, r: Request, env: Env, p: Path)
    requires p.Drive? && !(r.PutBegin? || r.PutData? || r.PutCommit?) && !MayChange(s, Receive(r, env), p)
    ensures Same(s.disk, FileStep(s, r, env).0.disk, p)
  {
    AbortOutcome(s, env);
  }

  /** One step, whatever the request and whatever fails. */
  lemma StepSpares(s: Server, e: Event, p: Path)
    requires Shaped(s) && p.Drive? && !MayChange(s, e, p)
    ensures Same(s.disk, Next(s, e).disk, p)
  {
    match e {
      case Reset(env) => AbortOutcome(s, env);
      case Receive(r, env) =>
        if r.PutBegin? {
          BeginSpares(s, r.size, r.crc, r.path, env, p);
        } else if r.PutData? {
          DataSpares(s, r.offset, r.block, env, p);
        } else if r.PutCommit? {
          CommitSpares(s, env, p);
        } else if !r.Fpga? {
          OthersSpare(s, r, env, p);
        }
    }
  }

  /** No event of the run is such a step. */
  ghost predicate NoneChanges(s: Server, events: seq<Event>, p: Path)
    decreases |events|
  {
    events == [] ||
    (var before, last := events[..|events| - 1], events[|events| - 1];
     NoneChanges(s, before, p) && !MayChange(Run(s, before), last, p))
  }

  /**
   * Over every run, of any number of sessions and whatever fails: a user file that no step of the run
   * may change is there with the same contents at the end, and a name that was free is free.
   */
  lemma {:induction false} UserFilesKept(s: Server, events: seq<Event>, p: Path)
    requires Shaped(s) && p.Drive? && NoneChanges(s, events, p)
    ensures Same(s.disk, Run(s, events).disk, p)
    decreases |events|
  {
    if events != [] {
      var before := events[..|events| - 1];
      UserFilesKept(s, before, p);
      RunShaped(s, before);
      StepSpares(Run(s, before), events[|events| - 1], p);
    }
  }

  /** The request opens or deletes this file. */
  predicate Concerns(e: Event, p: Path) {
    e.Receive? && ((e.request.PutBegin? && Named(e.request.path, p)) || (e.request.Delete? && Named(e.request.path, p)))
  }

  /** No upload to `p` is open. */
  predicate NotUploading(s: Server, p: Path) {
    s.session == Putting ==> s.up.target != p
  }

  lemma DataElsewhere(s: Server, offset: nat, block: seq<byte>, env: Env, p: Path)
    requires NotUploading(s, p)
    ensures NotUploading(PutDataStep(s, offset, block, env).0, p)
  {
    PutDataOutcome(s, offset, block, env);
    AfterBlockFields(s.up, offset, block, SyncDue(s.up, offset, block));
  }

  lemma CommitElsewhere(s: Server, env: Env, p: Path)
    requires NotUploading(s, p)
    ensures NotUploading(CommitStep(s, env).0, p)
  {
    assert CommitPhase(s, env).0.up.target == s.up.target;
  }

  lemma BeginElsewhere(s: Server, size: nat, crc: bv32, path: Option<string>, env: Env, p: Path)
    requires NotUploading(s, p) && !Named(path, p)
    ensures NotUploading(PutBeginStep(s, size, crc, path, env).0, p)
  {
  }

  lemma FileElsewhere(s: Server, r: Request, env: Env, p: Path)
    requires NotUploading(s, p) && !Concerns(Receive(r, env), p)
    ensures NotUploading(FileStep(s, r, env).0, p)
  {
    if r.PutBegin? {
      BeginElsewhere(s, r.size, r.crc, r.path, env, p);
    } else if r.PutData? {
      DataElsewhere(s, r.offset, r.block, env, p);
    } else if r.PutCommit? {
      CommitElsewhere(s, env, p);
    } else {
      OthersLeave(s, r, env);
    }
  }

  lemma StaysElsewhere(s: Server, e: Event, p: Path)
    requires NotUploading(s, p) && !Concerns(e, p)
    ensures NotUploading(Next(s, e), p)
  {
    if e.Receive? && !e.request.Fpga? {
      FileElsewhere(s, e.request, e.env, p);
    }
  }

  /**
   * What a host sends about other files, in any order and with any failures, cancels and resets,
   * never touches this one.
   */
  lemma {:induction false} OtherFilesUntouched(s: Server, events: seq<Event>, p: Path)
    requires Shaped(s) && p.Drive? && NotUploading(s, p)
    requires forall e :: e in events ==> !Concerns(e, p)
    ensures Same(s.disk, Run(s, events).disk, p) && NotUploading(Run(s, events), p)
    decreases |events|
  {
    if events != [] {
      var before, last := events[..|events| - 1], events[|events| - 1];
      OtherFilesUntouched(s, before, p);
      RunShaped(s, before);
      StaysElsewhere(Run(s, before), last, p);
      StepSpares(Run(s, before), last, p);
    }
  }
}
