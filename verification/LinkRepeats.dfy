/** Repeated blocks over a whole upload: exactly when the file still holds what was accepted. */
module LinkRepeats {
  import opened Bytes
  import opened Checksums
  import opened LinkDisk
  import opened LinkServer
  import opened LinkUpload

  /** A block that arrives, and how the calls it makes go. */
  datatype Arrival = Arrival(offset: nat, block: seq<byte>, env: Env)

  function Take(s: Server, a: Arrival): (Server, Reply) {
    PutDataStep(s, a.offset, a.block, a.env)
  }

  /** The state after some blocks, in order, new ones and repeats. */
  function TakeAll(s: Server, arrivals: seq<Arrival>): Server {
    if arrivals == [] then s else Take(TakeAll(s, arrivals[..|arrivals| - 1]), arrivals[|arrivals| - 1]).0
  }

  /** Every block was acknowledged. */
  predicate AllTaken(s: Server, arrivals: seq<Arrival>) {
    arrivals == [] ||
    (AllTaken(s, arrivals[..|arrivals| - 1]) &&
     !Take(TakeAll(s, arrivals[..|arrivals| - 1]), arrivals[|arrivals| - 1]).1.Failed?)
  }

  predicate Reaches(a: Arrival, k: nat) {
    a.offset <= k < a.offset + |a.block|
  }

  /** What the last block to reach position `k` carried there, if any did. */
  function LastAt(arrivals: seq<Arrival>, k: nat): Option<byte> {
    if arrivals == [] then None
    else
      var last := arrivals[|arrivals| - 1];
      if Reaches(last, k) then Some(last.block[k - last.offset]) else LastAt(arrivals[..|arrivals| - 1], k)
  }

  /** The open file has every accepted position. */
  predicate Backed(s: Server) {
    s.file in s.disk && s.disk[s.file].File? && |s.up.log| == s.up.received <= |s.disk[s.file].data|
  }

  /** What the open file holds at `k`. */
  function Held(s: Server, k: nat): Option<byte> {
    if k < |Content(s.disk, s.file)| then Some(Content(s.disk, s.file)[k]) else None
  }

  lemma WrittenAt(data: seq<byte>, offset: nat, block: seq<byte>, k: nat)
    requires offset <= |data|
    ensures var after := WriteAt(data, offset, block);
            && |after| >= |data| && |after| >= offset + |block|
            && (k < |data| || k < offset + |block| ==>
                  after[k] == if offset <= k < offset + |block| then block[k - offset] else data[k])
  {
  }

  /** The same file, with every accepted byte still accepted. */
  predicate Continues(s: Server, t: Server) {
    && Backed(s) && Backed(t) && t.file == s.file
    && |t.up.log| >= |s.up.log| && t.up.log[..|s.up.log|] == s.up.log
  }

  /** One acknowledged block: the file and the log behind it. */
  lemma TakeOne(s: Server, a: Arrival, k: nat)
    requires Backed(s) && !Take(s, a).1.Failed?
    ensures Continues(s, Take(s, a).0)
    ensures k < Take(s, a).0.up.received && !Reaches(a, k) ==> k < s.up.received
    ensures k < Take(s, a).0.up.received ==>
              Held(Take(s, a).0, k) == if Reaches(a, k) then Some(a.block[k - a.offset]) else Held(s, k)
  {
    PutDataOutcome(s, a.offset, a.block, a.env);
    AfterBlockFields(s.up, a.offset, a.block, SyncDue(s.up, a.offset, a.block));
    WrittenAt(s.disk[s.file].data, a.offset, a.block, k);
  }

  /** After acknowledged blocks every accepted position holds what the last block to reach it carried. */
  lemma {:induction false} FileHoldsLast(s: Server, arrivals: seq<Arrival>, k: nat)
    requires Backed(s) && AllTaken(s, arrivals)
    ensures Continues(s, TakeAll(s, arrivals))
    ensures k < TakeAll(s, arrivals).up.received && LastAt(arrivals, k).None? ==> k < s.up.received
    ensures k < TakeAll(s, arrivals).up.received ==>
              Held(TakeAll(s, arrivals), k) == if LastAt(arrivals, k).Some? then LastAt(arrivals, k) else Held(s, k)
    decreases |arrivals|
  {
    if arrivals != [] {
      var front, last := arrivals[..|arrivals| - 1], arrivals[|arrivals| - 1];
      FileHoldsLast(s, front, k);
      TakeOne(TakeAll(s, front), last, k);
    }
  }

  /**
   * Over any acknowledged blocks of an upload, repeats with any bytes among them: the file starts
   * with exactly the accepted bytes, those that the running CRC covers, if and only if at every
   * accepted position the last block to reach it carried the accepted byte.
   */
  lemma FileMatchesExactly(s: Server, arrivals: seq<Arrival>)
    requires Filling(s) && AllTaken(s, arrivals)
    ensures var t := TakeAll(s, arrivals);
            && Backed(t)
            && (Content(t.disk, t.file)[..t.up.received] == t.up.log <==>
                  forall k: nat :: k < t.up.received ==> LastAt(arrivals, k) in {None, Some(t.up.log[k])})
  {
    var t := TakeAll(s, arrivals);
    FileHoldsLast(s, arrivals, 0);
    forall k: nat | k < t.up.received
      ensures Held(t, k) == Some(t.up.log[k]) <==> LastAt(arrivals, k) in {None, Some(t.up.log[k])}
    {
      FileHoldsLast(s, arrivals, k);
      OldByte(s, t, k);
    }
    SameSequence(t);
  }

  /** A byte accepted before the run started out right. */
  lemma OldByte(s: Server, t: Server, k: nat)
    requires Filling(s) && Continues(s, t)
    ensures k < s.up.received ==> Held(s, k) == Some(t.up.log[k])
  {
    if k < s.up.received {
      assert Content(s.disk, s.file)[k] == Content(s.disk, s.file)[..s.up.received][k];
      assert t.up.log[k] == t.up.log[..|s.up.log|][k];
    }
  }

  lemma SameSequence(t: Server)
    requires Backed(t)
    ensures Content(t.disk, t.file)[..t.up.received] == t.up.log <==>
              forall k: nat :: k < t.up.received ==> Held(t, k) == Some(t.up.log[k])
  {
    var c := Content(t.disk, t.file);
    forall k: nat | k < t.up.received ensures Held(t, k) == Some(c[..t.up.received][k]) {
    }
    if forall k: nat :: k < t.up.received ==> Held(t, k) == Some(t.up.log[k]) {
      assert c[..t.up.received] == t.up.log;
    }
  }

  /** The running CRC covers the log whatever the repeats carried. */
  lemma {:induction false} CrcCoversLog(s: Server, arrivals: seq<Arrival>)
    requires Filling(s) && AllTaken(s, arrivals)
    ensures var t := TakeAll(s, arrivals); t.up.running == CrcUpdate(ALL_ONES, t.up.log)
    decreases |arrivals|
  {
    if arrivals != [] {
      var front, last := arrivals[..|arrivals| - 1], arrivals[|arrivals| - 1];
      CrcCoversLog(s, front);
      var u := TakeAll(s, front);
      PutDataOutcome(u, last.offset, last.block, last.env);
      AfterBlockFields(u.up, last.offset, last.block, SyncDue(u.up, last.offset, last.block));
      CrcAppend(ALL_ONES, u.up.log, last.block);
    }
  }
}
