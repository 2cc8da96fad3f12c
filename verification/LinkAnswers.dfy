/**
 * Which requests are acknowledged, and what an acknowledgement is worth: for every command the exact
 * condition, in terms of the session, the card and the calls that fail, and the effect on the card.
 */
module LinkAnswers {
  import opened Bytes
  import opened Checksums
  import opened LinkDisk
  import opened LinkServer
  import opened LinkUpload
  import opened LinkReplace
  import opened LinkOutcomes
  import opened LinkIsolation

  // ----- Files

  /**
   * DELETE: acknowledged exactly if no session is open, the file is there and the call works.  Then it
   * is gone; and in no case is any other file touched.
   */
  lemma DeleteAcknowledged(s: Server, path: Option<string>, env: Env)
    ensures var (s', reply) := FileStep(s, Delete(path), env);
            && (reply == Done0 || reply.Failed?)
            && (reply == Done0 <==>
                  && env.sdReady && s.session == Idle && env.unlink == NoFault
                  && path.Some? && Drive(path.value) in s.disk)
            && (reply == Done0 ==> Drive(path.value) !in s'.disk)
            && (forall p :: !(path.Some? && p == Drive(path.value)) ==> Same(s.disk, s'.disk, p))
            && s' == s.(disk := s'.disk)
  {
  }

  /** GET_BEGIN: acknowledged exactly if no session is open and the file is there, opens, and is not too large. */
  lemma DownloadAcknowledged(s: Server, path: Option<string>, env: Env)
    ensures var (s', reply) := FileStep(s, GetBegin(path), env);
            && (reply.Size? || reply.Failed?)
            && (reply.Size? <==>
                  && env.sdReady && s.session == Idle && path.Some? && env.open == NoFault
                  && Drive(path.value) in s.disk && s.disk[Drive(path.value)].File?
                  && |s.disk[Drive(path.value)].data| < 0x1_0000_0000)
            && (reply.Size? ==>
                  && reply.size == |s.disk[Drive(path.value)].data|
                  && s' == s.(session := Getting, file := Drive(path.value)))
            && (reply.Failed? ==> s' == s)
  {
  }

  /** GET_DATA: acknowledged exactly in a download, for 1 to 240 bytes that can be read; it answers those there are. */
  lemma ChunkAcknowledged(s: Server, offset: nat, count: nat, env: Env)
    requires s.session == Getting ==> s.file in s.disk && s.disk[s.file].File?
    ensures var (s', reply) := FileStep(s, GetData(offset, count), env);
            && (reply.Data? || reply.Failed?)
            && (reply.Data? <==> env.sdReady && s.session == Getting && 1 <= count <= 240 && env.read == NoFault)
            && (reply.Data? ==>
                  && s' == s && |reply.block| <= count
                  && (forall k :: 0 <= k < |reply.block| ==> reply.block[k] == s.disk[s.file].data[offset + k])
                  && (|reply.block| < count ==> offset + |reply.block| >= |s.disk[s.file].data|))
  {
  }

  /** GET_END, CANCEL, INFO, MKDIR and the listing commands. */
  lemma SimpleAcknowledged(s: Server, r: Request, env: Env)
    requires r.GetEnd? || r.Cancel? || r.Info? || r.Mkdir? || r.ListBegin? || r.ListNext?
    ensures var (s', reply) := FileStep(s, r, env);
            && (reply == Done0 || reply.Failed?)
            && (reply == Done0 <==>
                  && env.sdReady
                  && match r
                     case GetEnd => s.session == Getting
                     case Info => env.lock
                     case Mkdir(valid) => s.session == Idle && valid && env.parent == NoFault
                     case ListBegin(valid) => s.session == Idle && valid && env.open == NoFault
                     case ListNext => s.session == Listing && env.read == NoFault
                     case _ => true)
            && (reply == Done0 && (r.GetEnd? || r.Cancel?) ==> s'.session == Idle)
            && (reply == Done0 && r.ListBegin? ==> s'.session == Listing)
            && SameButTemp(s.disk, s'.disk)
  {
    AbortOutcome(s, env);
  }

  // ----- Uploads

  /**
   * PUT_DATA: acknowledged exactly in an open, unfinished upload, for 1 to 240 bytes that lie inside the
   * announced size and either begin where the accepted ones end or repeat some of these, if seek and
   * write work and so does the sync, where one is due.
   */
  lemma BlockAcknowledged(s: Server, offset: nat, block: seq<byte>, env: Env)
    ensures var (s', reply) := FileStep(s, PutData(offset, block), env);
            && (reply.Acked? || reply.AckedVerified? || reply.Failed?)
            && (!reply.Failed? <==>
                  && env.sdReady && s.session == Putting && s.up.phase == 0
                  && 1 <= |block| <= 240 && offset + |block| <= s.up.size
                  && (offset == s.up.received || offset + |block| <= s.up.received)
                  && env.seek == NoFault && WriteCount(env.write, |block|) == |block| && WriteCode(env.write) == Ok
                  && (SyncDue(s.up, offset, block) ==> env.sync == NoFault))
            && (!reply.Failed? ==> reply.offset == offset + |block|)
  {
  }

  /** A lost acknowledgement costs nothing: the block just taken, sent again, is taken again and changes nothing. */
  lemma RepeatAcknowledged(s: Server, block: seq<byte>, env: Env, again: Env)
    requires UploadOk(s) && s.session == Putting && env.sdReady
    requires var (s', reply) := FileStep(s, PutData(s.up.received, block), env); reply.Acked? && s'.session == Putting
    requires again.sdReady && again.seek == NoFault && again.write == Full
    ensures var s' := FileStep(s, PutData(s.up.received, block), env).0;
            FileStep(s', PutData(s.up.received, block), again) == (s', Acked(s.up.received + |block|))
  {
    var offset := s.up.received;
    var s' := FileStep(s, PutData(offset, block), env).0;
    BlockAcknowledged(s, offset, block, env);
    PutDataOutcome(s, offset, block, env);
    PutDataKeeps(s, offset, block, env);
    TakenOpen(s.up, offset, block, SyncDue(s.up, offset, block));
    RepeatTaken(s', offset, block, again);
  }

  lemma TakenOpen(u: Upload, offset: nat, block: seq<byte>, due: bool)
    requires offset == u.received && u.phase == 0 && SyncOk(u) && block != [] && |u.log| == u.received
    requires var v := AfterBlock(u, offset, block, due); !(v.direct && v.phase == 4)
    ensures var v := AfterBlock(u, offset, block, due);
            && v.phase == 0 && v.size == u.size && v.received == offset + |block|
            && v.log[offset..offset + |block|] == block
  {
  }

  lemma RepeatTaken(s: Server, offset: nat, block: seq<byte>, env: Env)
    requires UploadOk(s) && s.session == Putting && s.up.phase == 0 && 1 <= |block| <= 240
    requires offset + |block| == s.up.received && s.up.log[offset..offset + |block|] == block
    requires env.sdReady && env.seek == NoFault && env.write == Full
    ensures FileStep(s, PutData(offset, block), env) == (s, Acked(offset + |block|))
  {
    assert block[..|block|] == block;
    WriteRepeat(s.disk[s.file].data, s.up.log, offset, block);
    SameDisk(s.disk, s.file);
  }

  lemma SameDisk(d: Disk, p: Path)
    requires p in d && d[p].File?
    ensures d[p := File(d[p].data)] == d
  {
  }

  /** An update in place is certified by the acknowledgement of its last block, and by no other. */
  lemma CertifiedExactly(s: Server, offset: nat, block: seq<byte>, env: Env)
    requires UploadOk(s) && s.session == Putting && !FileStep(s, PutData(offset, block), env).1.Failed?
    ensures FileStep(s, PutData(offset, block), env).1.AckedVerified? <==>
              && s.up.direct && offset == s.up.received && offset + |block| == s.up.size
              && Crc32(s.up.log + block) == s.up.crc
  {
    BlockAcknowledged(s, offset, block, env);
    PutDataOutcome(s, offset, block, env);
    if offset == s.up.received {
      CrcAppend(ALL_ONES, s.up.log, block);
      CertifiedWhenWhole(s.up, offset, block, SyncDue(s.up, offset, block));
    } else {
      NotCertified(s.up, offset, block, SyncDue(s.up, offset, block));
    }
  }

  lemma NotCertified(u: Upload, offset: nat, block: seq<byte>, due: bool)
    requires u.phase == 0 && offset != u.received
    ensures AfterBlock(u, offset, block, due).phase == 0
  {
  }

  lemma CertifiedWhenWhole(u: Upload, offset: nat, block: seq<byte>, due: bool)
    requires u.phase == 0 && offset == u.received && offset + |block| <= u.size && block != [] && SyncOk(u)
    requires due <==> (offset + |block| >= u.nextSync || offset + |block| == u.size)
    ensures AfterBlock(u, offset, block, due).phase == 4 <==>
              u.direct && offset + |block| == u.size && Complement(CrcUpdate(u.running, block)) == u.crc
    ensures AfterBlock(u, offset, block, due).direct == u.direct
  {
  }

  // ----- The Microdrive and the FPGA

  /** The Companion can be taken off the bus: it is not on it, or the card and the bus can be had. */
  predicate CanSuspend(b: Board, env: Env) {
    !b.companion || b.suspended || (env.lock && env.spi)
  }

  lemma MdvAcknowledged(s: Server, operation: nat, env: Env)
    ensures var reply := FileStep(s, MdvControl(operation), env).1;
            && (reply == Done0 || reply.Failed?)
            && (reply == Done0 <==>
                  && env.sdReady && s.session == Idle && operation <= 5
                  && (operation == 0 ==> CanSuspend(s.board, env) && env.mount)
                  && (operation == 1 ==> env.mount)
                  && (operation == 3 ==> s.board.sync && env.mount)
                  && (operation == 4 || operation == 5 ==> s.board.sync))
  {
  }

  lemma TransferAcknowledged(b: Board, flash: bool, size: nat, crc: bv32, env: Env)
    ensures var reply := FpgaStep(b, Begin(flash, size, crc), env).1;
            && (reply == Done0 || reply.Failed?)
            && (reply == Done0 <==>
                  0x4_0000 <= size <= 0x20_0000 && CanSuspend(FpgaAbort(b), env) && env.device)
  {
  }

  lemma FpgaBlockAcknowledged(b: Board, block: seq<byte>, env: Env)
    ensures var (c, reply) := FpgaStep(b, TransferData(block), env);
            && (reply == Done0 || reply.Failed?)
            && (reply == Done0 <==>
                  && b.fpga.Some? && block != [] && b.fpga.value.received + |block| <= b.fpga.value.size
                  && (b.fpga.value.received > 0 || env.headerValid) && env.device)
  {
  }

  /** A block refused for its place leaves the transfer as it is; any other failure ends it. */
  lemma FpgaBlockRefused(b: Board, block: seq<byte>, env: Env)
    requires FpgaStep(b, TransferData(block), env).1.Failed?
    ensures var (c, reply) := FpgaStep(b, TransferData(block), env);
            if reply == Failed(6) then c == b else c.fpga.None? && !c.suspended
  {
  }

  /**
   * After an acknowledged programming request the transfer is over.  A core loaded in recovery runs on,
   * and the Companion starts; otherwise the board restarts, with a Companion unless it comes up in
   * recovery.
   */
  lemma ProgramEffect(s: Server, flash: bool, env: Env)
    requires !s.board.returnPending && !s.board.startAfterTx
    requires Serve(s, Fpga(Program(flash)), env).1 == Done0
    ensures var s' := Serve(s, Fpga(Program(flash)), env).0;
            && s'.board.fpga.None? && s'.disk == s.disk
            && (if !flash && s.board.recovery
                then s'.board.companion && !s'.board.recovery && s'.session == s.session && s'.up == s.up
                else s' == Boot(s.disk, env.bootsToRecovery))
  {
  }
}
