/**
 * The desktop side of an upload, over a link that loses frames and replies, delivers late, repeats
 * and resets.  Whatever the link does, an upload that returns success put the source on the card.
 */
module LinkClient {
  import opened Bytes
  import opened Checksums
  import opened LinkDisk
  import opened LinkServer
  import opened LinkUploadSafety
  import opened LinkLimits
  import opened LinkCompletes

  /** A request under way, with the eight-bit sequence number of its exchange. */
  datatype Frame = Frame(sequence: byte, request: Request)

  /** How many exchanges ago a sequence number was current, as far as eight bits tell. */
  function Age(now: byte, sequence: byte): (age: nat)
    ensures age < 256 && (age == 0 <==> now == sequence)
  {
    (now as int - sequence as int) % 256
  }

  function NextSequence(now: byte): byte {
    (now as int + 1) % 256
  }

  lemma Aging(now: byte, sequence: byte)
    requires Age(now, sequence) < 255
    ensures Age(NextSequence(now), sequence) == Age(now, sequence) + 1
  {
  }

  /** The sequence number that many exchanges later. */
  function Later(now: byte, exchanges: nat): byte {
    if exchanges == 0 then now else NextSequence(Later(now, exchanges - 1))
  }

  /** A frame is taken for a current one exactly a multiple of 256 exchanges after its own. */
  lemma {:induction false} NumbersRepeat(now: byte, exchanges: nat)
    ensures Later(now, exchanges) as int == (now as int + exchanges) % 256
    ensures Later(now, exchanges) == now <==> exchanges % 256 == 0
  {
    Turned(now as int, exchanges);
    if exchanges > 0 {
      NumbersRepeat(now, exchanges - 1);
      OneMore(now as int + exchanges - 1);
    }
  }

  lemma OneMore(n: nat)
    ensures (n % 256 + 1) % 256 == (n + 1) % 256
  {
  }

  lemma Turned(a: nat, n: nat)
    requires a < 256
    ensures (a + n) % 256 == a <==> n % 256 == 0
  {
    var q, r := n / 256, n % 256;
    assert n == 256 * q + r;
    assert a + r < 256 ==> (a + n) % 256 == a + r;
    assert a + r >= 256 ==> (a + n) % 256 == a + r - 256;
  }

  /** The desktop can tell its own frames by nothing but their number. */
  predicate Current(now: byte, frame: Frame) {
    frame.sequence == now
  }

  /** How an exchange ends: no usable reply, an error from the firmware, or an answer. */
  datatype Outcome = LinkFailure | Refused(code: nat) | Answer(reply: Reply)

  /** What the desktop makes of a reply, or of none. */
  function OutcomeOf(captured: Option<Reply>): Outcome {
    if captured.None? then LinkFailure
    else if captured.value.Failed? then Refused(captured.value.code)
    else Answer(captured.value)
  }

  /** What happened at the board during an exchange, and which event gave the answer, if one came. */
  datatype Trace = Trace(events: seq<Event>, at: nat)

  /** The reply that the event at `t.at` gives. */
  ghost predicate Answers(start: Server, t: Trace, r: Request, reply: Reply) {
    && t.at < |t.events| && t.events[t.at].Receive? && t.events[t.at].request == r
    && reply == Serve(Run(start, t.events[..t.at]), r, t.events[t.at].env).1
    && Within(t.events[t.at + 1..], [r])
  }

  predicate Requests(frames: seq<Frame>, requests: seq<Request>) {
    forall f :: f in frames ==> f.request in requests
  }

  /** The requests of these frames. */
  function RequestsOf(frames: seq<Frame>): (requests: seq<Request>)
    ensures |requests| == |frames|
    ensures forall f :: f in frames ==> f.request in requests
    ensures forall r :: r in requests ==> exists f :: f in frames && f.request == r
  {
    if frames == [] then [] else [frames[0].request] + RequestsOf(frames[1..])
  }

  lemma RunStep(s: Server, events: seq<Event>, e: Event)
    ensures Run(s, events + [e]) == Next(Run(s, events), e)
  {
    assert (events + [e])[..|events + [e]| - 1] == events;
  }

  lemma RunLast(s: Server, a: seq<Event>, m: Server, b: seq<Event>, e: Event)
    requires Run(s, a) == Run(m, b)
    ensures Run(s, a + [e]) == Run(m, b + [e])
  {
    RunStep(s, a, e);
    RunStep(m, b, e);
  }

  lemma {:induction false} RunThrough(s: Server, before: seq<Event>, m: Server, after: seq<Event>)
    requires m == Run(s, before)
    ensures Run(s, before + after) == Run(m, after)
    decreases |after|
  {
    if after == [] {
      assert before + after == before;
    } else {
      var n := |after| - 1;
      assert before + after == before + after[..n] + [after[n]] && after == after[..n] + [after[n]];
      RunThrough(s, before, m, after[..n]);
      RunLast(s, before + after[..n], m, after[..n], after[n]);
    }
  }

  ghost function Happened(t: Trace, e: Event): Trace {
    t.(events := t.events + [e])
  }

  lemma HappenedRuns(start: Server, t: Trace, e: Event)
    ensures Run(start, Happened(t, e).events) == Next(Run(start, t.events), e)
  {
    RunStep(start, t.events, e);
  }

  lemma StillAnswers(start: Server, t: Trace, r: Request, reply: Reply, e: Event)
    requires Answers(start, t, r, reply) && (e.Receive? ==> e.request == r)
    ensures Answers(start, Happened(t, e), r, reply)
  {
    var events := t.events + [e];
    assert events[..t.at] == t.events[..t.at] && events[t.at + 1..] == t.events[t.at + 1..] + [e];
  }

  lemma NowAnswers(start: Server, t: Trace, r: Request, env: Env)
    ensures Answers(start, Happened(t, Receive(r, env)).(at := |t.events|), r, Serve(Run(start, t.events), r, env).1)
  {
    assert (t.events + [Receive(r, env)])[..|t.events|] == t.events;
  }

  /**
   * The bound is needed.  An INFO frame held up on the way passes for the frame of the exchange that is
   * then going on exactly after every 256 exchanges.  If that one is a DELETE, the desktop takes the
   * answer to INFO for the answer to it, and the file is still there.
   */
  lemma LateFrameTaken(s: Server, name: string, now: byte, exchanges: nat, env: Env)
    requires s.session == Idle && Drive(name) in s.disk && env.sdReady && env.lock
    ensures Current(Later(now, exchanges), Frame(now, Info)) <==> exchanges % 256 == 0
    ensures Serve(s, Info, env).1 == Done0
    ensures Serve(s, Info, env).0.disk == s.disk && Drive(name) in Serve(s, Info, env).0.disk
    ensures forall at: nat :: !Answers(s, Trace([Receive(Info, env)], at), Delete(Some(name)), Done0)
  {
    InfoAnswered(s, env);
    NotAnswered(s, Receive(Info, env), Delete(Some(name)), Done0);
    NumbersRepeat(now, exchanges);
  }

  lemma NotAnswered(s: Server, e: Event, r: Request, reply: Reply)
    requires e.Receive? && e.request != r
    ensures forall at: nat :: !Answers(s, Trace([e], at), r, reply)
  {
  }

  lemma InfoAnswered(s: Server, env: Env)
    requires env.sdReady && env.lock
    ensures Serve(s, Info, env).1 == Done0 && Serve(s, Info, env).0.disk == s.disk
  {
  }

  // ----- What an answered exchange shows

  /** The server when the answered frame arrived, its state right after, and what followed. */
  lemma AnsweredRun(start: Server, t: Trace, r: Request, reply: Reply)
    requires Answers(start, t, r, reply)
    ensures var served := Serve(Run(start, t.events[..t.at]), r, t.events[t.at].env).0;
            Run(start, t.events) == Run(served, t.events[t.at + 1..])
  {
    var head, e, tail := t.events[..t.at], t.events[t.at], t.events[t.at + 1..];
    assert t.events == head + [e] + tail;
    RunStep(start, head, e);
    RunThrough(start, head + [e], Next(Run(start, head), e), tail);
  }

  lemma OpeningAnswered(start: Server, t: Trace, r: Request, reply: Reply, g: Goal)
    requires Answers(start, t, r, reply) && BeginsGoal(r, g) && !reply.Failed? && |g.source| <= MAX32
    ensures Ours(Run(start, t.events), g)
  {
    AnsweredRun(start, t, r, reply);
    OpenedThenQuiet(Run(start, t.events[..t.at]), r, t.events[t.at].env, t.events[t.at + 1..], g);
  }

  /** An acknowledged opening, and nothing but repeats and resets after it. */
  lemma OpenedThenQuiet(s: Server, r: Request, env: Env, after: seq<Event>, g: Goal)
    requires BeginsGoal(r, g) && !Serve(s, r, env).1.Failed? && |g.source| <= MAX32 && Within(after, [r])
    ensures Ours(Run(Serve(s, r, env).0, after), g)
  {
    OpeningIsOurs(s, r, env, g);
    RunOurs(Serve(s, r, env).0, after, g);
  }

  lemma VerifyingAnswered(start: Server, t: Trace, r: Request, reply: Reply, g: Goal)
    requires Answers(start, t, r, reply) && Ours(start, g) && FairEvents(t.events, g) && |g.source| <= MAX32
    requires Fair(r, g) && (r.PutData? || r.PutCommit?) && Verifies(reply)
    ensures Complete(Run(start, t.events), g) && VerifiesGoal(reply, g)
  {
    AnsweredRun(start, t, r, reply);
    RunOurs(start, t.events[..t.at], g);
    VerifiedThenQuiet(Run(start, t.events[..t.at]), r, t.events[t.at].env, t.events[t.at + 1..], g);
  }

  /** A verifying answer, and nothing but repeats and resets after it. */
  lemma VerifiedThenQuiet(s: Server, r: Request, env: Env, after: seq<Event>, g: Goal)
    requires Ours(s, g) && Fair(r, g) && (r.PutData? || r.PutCommit?) && |g.source| <= MAX32 && Within(after, [r])
    requires Verifies(Serve(s, r, env).1)
    ensures Complete(Run(Serve(s, r, env).0, after), g) && VerifiesGoal(Serve(s, r, env).1, g)
  {
    FairStep(s, r, env, g);
    StaysComplete(Serve(s, r, env).0, after, g);
  }

  lemma SizeAnswered(start: Server, t: Trace, name: string, reply: Reply) returns (data: seq<byte>)
    requires Answers(start, t, GetBegin(Some(name)), reply) && reply.Size?
    ensures Reading(Run(start, t.events), name, data) && |data| == reply.size
  {
    var at, env := Run(start, t.events[..t.at]), t.events[t.at].env;
    data := Content(at.disk, Drive(name));
    AnsweredRun(start, t, GetBegin(Some(name)), reply);
    SizeIsTrue(at, name, env);
    StaysReading(Serve(at, GetBegin(Some(name)), env).0, t.events[t.at + 1..], name, data);
  }

  lemma DataAnswered(start: Server, t: Trace, name: string, data: seq<byte>, offset: nat, count: nat, reply: Reply)
    requires Answers(start, t, GetData(offset, count), reply) && reply.Data? && Reading(start, name, data)
    requires forall e :: e in t.events && e.Receive? ==> Reads(e.request, name)
    ensures reply.block == ReadAt(data, offset, count)
  {
    StaysReading(start, t.events[..t.at], name, data);
    DataIsTrue(Run(start, t.events[..t.at]), name, data, offset, count, t.events[t.at].env);
  }

  /** The target has the source's size and CRC-32. */
  ghost predicate Holds(d: Disk, g: Goal) {
    && Drive(g.name) in d && d[Drive(g.name)].File?
    && |d[Drive(g.name)].data| == |g.source| && Crc32(d[Drive(g.name)].data) == Crc32(g.source)
  }

  /** The running CRC-32 of the first bytes of a file. */
  ghost predicate Folded(crc: bv32, data: seq<byte>, received: nat) {
    received <= |data| && crc == CrcContinue(0, data[..received])
  }

  lemma ChunkFolded(data: seq<byte>, received: nat, crc: bv32, block: seq<byte>, crc': bv32)
    requires Folded(crc, data, received) && crc' == CrcContinue(crc, block)
    requires received + |block| <= |data| && block == data[received..received + |block|]
    ensures Folded(crc', data, received + |block|)
  {
    CrcContinueAppend(0, data[..received], block);
    assert data[..received] + block == data[..received + |block|];
  }

  method FoldChunk(crc: bv32, block: seq<byte>, received: nat, ghost data: seq<byte>) returns (crc': bv32)
    requires Folded(crc, data, received) && received + |block| <= |data| && block == data[received..received + |block|]
    ensures Folded(crc', data, received + |block|)
  {
    crc' := ContinueCrc32(crc, block);
    ChunkFolded(data, received, crc, block, crc');
  }

  lemma ReadInside(data: seq<byte>, offset: nat, count: nat)
    requires offset + count <= |data| && count > 0
    ensures var block := ReadAt(data, offset, count); block == data[offset..offset + |block|] && |block| == count
  {
  }

  /** Takes a block that came back for a request, unless it is empty or too long. */
  method TakeChunk(block: seq<byte>, received: nat, count: nat, crc: bv32, ghost data: seq<byte>)
    returns (ok: bool, next: nat, crc': bv32)
    requires received + count <= |data| && count > 0 && block == ReadAt(data, received, count)
             && Folded(crc, data, received)
    ensures received <= next && (ok ==> received < next && Folded(crc', data, next)) && (ok <==> 0 < |block| <= count)
  {
    ok, next, crc' := block != [] && |block| <= count, received, crc;
    if ok {
      ReadInside(data, received, count);
      crc' := FoldChunk(crc, block, received, data);
      next := received + |block|;
    }
  }

  lemma WholeFolded(data: seq<byte>, crc: bv32)
    requires Folded(crc, data, |data|)
    ensures crc == Crc32(data)
  {
    assert data[..|data|] == data;
    CrcOfWhole(data);
  }

  lemma NothingFolded(data: seq<byte>)
    ensures Folded(0, data, 0)
  {
    CrcContinueNothing(0);
  }

  /**
   * What the link may do: anything at all; nothing wrong, to a card and a board where nothing fails
   * either; or the same but for the replies to COMMIT, which do not come back.
   */
  datatype Link = Any | Clean | Mute

  /** The requests of the blocks of a file: 240 bytes each but for the last, in order. */
  function DataRequests(source: seq<byte>): (requests: seq<Request>)
    ensures |requests| == (|source| + 239) / 240
    ensures forall i :: 0 <= i < |requests| ==>
              requests[i] == PutData(240 * i, source[240 * i..Min(240 * i + 240, |source|)])
  {
    seq((|source| + 239) / 240, i requires 0 <= i < (|source| + 239) / 240 =>
      PutData(240 * i, source[240 * i..Min(240 * i + 240, |source|)]))
  }

  /** So many blocks end at this byte. */
  predicate Blocks(source: seq<byte>, blocks: nat, sent: nat) {
    blocks <= |DataRequests(source)| && sent == Min(240 * blocks, |source|)
  }

  lemma NextBlock(source: seq<byte>, blocks: nat, sent: nat)
    requires Blocks(source, blocks, sent) && sent < |source|
    ensures blocks < |DataRequests(source)| && Blocks(source, blocks + 1, Min(sent + CHUNK, |source|))
    ensures DataRequests(source)[..blocks + 1]
         == DataRequests(source)[..blocks] + [PutData(sent, source[sent..Min(sent + CHUNK, |source|)])]
  {
  }

  lemma AllBlocks(source: seq<byte>, blocks: nat)
    requires Blocks(source, blocks, |source|)
    ensures DataRequests(source)[..blocks] == DataRequests(source)
  {
  }

  method Checksum(source: seq<byte>) returns (crc: bv32)
    ensures crc == Crc32(source)
  {
    CrcOfWhole(source);
    crc := ContinueCrc32(0, source);
  }

  /** An idle board with no action pending, on which the target can be opened for writing. */
  predicate Ready(s: Server, g: Goal) {
    && s.session == Idle && Settled(s.board) && |g.source| <= MAX32
    && (Drive(g.name) in s.disk ==> s.disk[Drive(g.name)].File?)
  }

  /** An idle board with no action pending, and a file of that name that fits the protocol's size field. */
  predicate Readable(s: Server, name: string) {
    && s.session == Idle && Settled(s.board)
    && Drive(name) in s.disk && s.disk[Drive(name)].File? && |s.disk[Drive(name)].data| <= MAX32
  }

  /** An update in place that only needs its COMMIT, or an upload that is over. */
  ghost predicate NearlyDone(s: Server, d: Disk, sync: bool, g: Goal) {
    |g.source| <= MAX32 && ((Taken(s, d, sync, g, |g.source|) && s.up.direct) || Succeeded(s, d, sync, g))
  }

  lemma LastCommit(s: Server, d: Disk, sync: bool, g: Goal)
    requires NearlyDone(s, d, sync, g)
    ensures Succeeded(Serve(s, PutCommit, Fine()).0, d, sync, g)
  {
    if s.session == Putting {
      DirectCommits(s, d, sync, g);
    } else {
      DoneThenOne(s, d, sync, g);
    }
  }

  /** The same board but for the name of the file it last used. */
  predicate Restored(s: Server, before: Server) {
    s.file.Drive? && s == before.(file := s.file)
  }

  class Host {
    const link: Link
    /** The request of every exchange, and of every exchange that brought an answer, in order. */
    ghost var asked: seq<Request>
    ghost var answered: seq<Request>
    /** The board at the far end, and the frames that have not reached it yet, oldest first. */
    var board: Server
    var pending: seq<Frame>
    var sequence: byte
    /** How many exchanges in a row have gone unanswered; up to 255 of them, no frame under way is older. */
    ghost var unanswered: nat

    ghost predicate Valid()
      reads this
    {
      unanswered < 256 ==>
      && (forall k :: 0 <= k < |pending| ==> Age(sequence, pending[k].sequence) <= unanswered)
      && (forall j, k :: 0 <= j < k < |pending| ==>
            Age(sequence, pending[j].sequence) >= Age(sequence, pending[k].sequence))
    }

    constructor (s: Server, link: Link)
      ensures Valid() && board == s && unanswered == 0 && pending == [] && this.link == link && answered == []
      ensures asked == []
    {
      this.link := link;
      board, pending, sequence, unanswered, asked, answered := s, [], 0, 0, [], [];
    }

    /** Replies to this request come back. */
    predicate Hears(r: Request) {
      link == Clean || (link == Mute && !r.PutCommit?)
    }

    /** A link that does nothing wrong to what it carries, and nothing is under way on it. */
    ghost predicate Calm()
      reads this
    {
      link != Any && pending == []
    }

    /** The next sequence number; every frame under way is one exchange older. */
    method Advance()
      requires Valid()
      modifies this`sequence, this`unanswered
      ensures Valid() && unanswered == old(unanswered) + 1
      ensures unanswered < 256 ==> forall f :: f in pending ==> f.sequence != sequence
    {
      forall k | 0 <= k < |pending| && unanswered < 255
        ensures Age(NextSequence(sequence), pending[k].sequence) == Age(sequence, pending[k].sequence) + 1
      {
        Aging(sequence, pending[k].sequence);
      }
      sequence := NextSequence(sequence);
      unanswered := unanswered + 1;
    }

    /** The middle of an exchange that has sent `r`; unless too many went unanswered, its own frames are the newest. */
    ghost predicate Underway(start: Server, known: seq<Request>, r: Request, captured: Option<Reply>, t: Trace)
      reads this
    {
      && Valid() && board == Run(start, t.events) && r in known
      && Within(t.events, known) && Requests(pending, known)
      && (unanswered < 256 ==> forall f :: f in pending && f.sequence == sequence ==> f.request == r)
      && (unanswered < 256 && captured.Some? ==>
            Answers(start, t, r, captured.value) && forall f :: f in pending ==> f.sequence == sequence)
    }

    /** The frame goes out (again). */
    method Send(r: Request, captured: Option<Reply>, ghost start: Server, ghost known: seq<Request>, ghost t: Trace)
      requires Underway(start, known, r, captured, t)
      modifies this`pending
      ensures Underway(start, known, r, captured, t) && pending == old(pending) + [Frame(sequence, r)]
    {
      pending := pending + [Frame(sequence, r)];
    }

    /** The oldest frame is lost. */
    method Lose(r: Request, captured: Option<Reply>, ghost start: Server, ghost known: seq<Request>, ghost t: Trace)
      requires pending != [] && Underway(start, known, r, captured, t)
      modifies this`pending
      ensures Underway(start, known, r, captured, t) && pending == old(pending)[1..]
    {
      pending := pending[1..];
    }

    /** The oldest frame reaches the board; what follows one of ours is ours. */
    method TakeOldest(r: Request, captured: Option<Reply>, ghost start: Server, ghost known: seq<Request>,
                      ghost t: Trace)
      returns (frame: Frame)
      requires pending != [] && Underway(start, known, r, captured, t)
      modifies this`pending
      ensures Underway(start, known, r, captured, t) && frame.request in known
      ensures frame == old(pending)[0] && pending == old(pending)[1..]
      ensures unanswered < 256 && (captured.Some? || frame.sequence == sequence) ==> frame.request == r
      ensures unanswered < 256 && frame.sequence == sequence ==> forall f :: f in pending ==> f.sequence == sequence
    {
      frame := pending[0];
      Lose(r, captured, start, known, t);
      forall k | 0 <= k < |pending|
        ensures unanswered < 256 && frame.sequence == sequence ==> pending[k].sequence == sequence
      {
        assert pending[k] == old(pending)[k + 1];
      }
    }

    /** The oldest frame arrives; if it carries our number, the desktop takes the reply that reaches it. */
    method Arrive(r: Request, before: Option<Reply>, ghost start: Server, ghost known: seq<Request>, ghost t0: Trace)
      returns (captured: Option<Reply>, ghost t: Trace)
      requires pending != [] && Underway(start, known, r, before, t0)
      modifies this`board, this`pending
      ensures Underway(start, known, r, captured, t)
      ensures link != Any && before.None? && old(pending) == [Frame(sequence, r)] ==>
                && pending == [] && board == Serve(old(board), r, Fine()).0
                && captured == if Hears(r) then Some(Serve(old(board), r, Fine()).1) else None
    {
      var env: Env := *;
      var arrives: bool := *;
      if link != Any {
        env, arrives := Fine(), Hears(r);
      }
      var frame := TakeOldest(r, before, start, known, t0);
      captured, t := Deliver(frame, env, arrives, r, before, start, known, t0);
    }

    /** A frame reaches the board; if it carries our number, its reply may reach the desktop. */
    method Deliver(frame: Frame, env: Env, arrives: bool, r: Request, before: Option<Reply>,
                   ghost start: Server, ghost known: seq<Request>, ghost t0: Trace)
      returns (captured: Option<Reply>, ghost t: Trace)
      requires Underway(start, known, r, before, t0) && frame.request in known
      requires unanswered < 256 && (before.Some? || frame.sequence == sequence) ==> frame.request == r
      requires unanswered < 256 && frame.sequence == sequence ==> forall f :: f in pending ==> f.sequence == sequence
      modifies this`board
      ensures Underway(start, known, r, captured, t) && board == Serve(old(board), frame.request, env).0
      ensures captured == if before.None? && Current(sequence, frame) && arrives
                          then Some(Serve(old(board), frame.request, env).1) else before
    {
      captured, t := before, Happened(t0, Receive(frame.request, env));
      HappenedRuns(start, t0, Receive(frame.request, env));
      if before.Some? {
        if unanswered < 256 {
          StillAnswers(start, t0, r, before.value, Receive(frame.request, env));
        }
      } else if Current(sequence, frame) && arrives {
        captured, t := Some(Serve(board, frame.request, env).1), t.(at := |t0.events|);
        NowAnswers(start, t0, frame.request, env);
      }
      board := Next(board, Receive(frame.request, env));
    }

    /** The USB link resets. */
    method ResetLink(r: Request, captured: Option<Reply>, ghost start: Server, ghost known: seq<Request>,
                     ghost t0: Trace)
      returns (ghost t: Trace)
      requires Underway(start, known, r, captured, t0)
      modifies this`board
      ensures Underway(start, known, r, captured, t)
    {
      var env: Env := *;
      t := Happened(t0, Reset(env));
      HappenedRuns(start, t0, Reset(env));
      if unanswered < 256 && captured.Some? {
        StillAnswers(start, t0, r, captured.value, Reset(env));
      }
      board := Next(board, Reset(env));
    }

    /**
     * One exchange: the frame goes out, up to three more times, and until the desktop takes a reply
     * or gives up, frames arrive in order or are lost, and the USB link may reset.  An answer is the
     * board's to this exchange's own frame, which eight bits can tell unless 255 exchanges in a row
     * have gone unanswered before it.
     */
    method Exchange(r: Request) returns (outcome: Outcome, ghost t: Trace)
      requires Valid()
      modifies this
      ensures Valid() && unanswered == if outcome.Answer? && old(unanswered) < 255 then 0 else old(unanswered) + 1
      ensures board == Run(old(board), t.events) && Within(t.events, RequestsOf(old(pending)) + [r])
      ensures Requests(pending, RequestsOf(old(pending)) + [r])
      ensures asked == old(asked) + [r] && (outcome.Answer? ==> !outcome.reply.Failed?)
      ensures outcome.Answer? && old(unanswered) < 255 ==>
                Answers(old(board), t, r, outcome.reply) && Requests(pending, [r])
      ensures Recorded(old(answered), r, outcome) && (old(Calm()) ==> Served(old(board), r, outcome))
    {
      Advance();
      ghost var known := RequestsOf(old(pending)) + [r];
      t := Trace([], 0);
      Send(r, None, old(board), known, t);
      var captured;
      captured, t := Converse(r, old(board), known, t);
      outcome, asked := OutcomeOf(captured), asked + [r];
      if outcome.Answer? {
        answered := answered + [r];
        if unanswered < 256 {
          unanswered := 0;
        }
      }
    }

    /** What happens after the frame has gone out, up to the reply that the desktop takes, or none. */
    method Converse(r: Request, ghost start: Server, ghost known: seq<Request>, ghost t0: Trace)
      returns (captured: Option<Reply>, ghost t: Trace)
      requires Underway(start, known, r, None, t0)
      modifies this`board, this`pending
      ensures Underway(start, known, r, captured, t)
      ensures old(link != Any && board == start && pending == [Frame(sequence, r)]) ==>
                Proceeds(start, r, captured, 0)
    {
      var attempts: nat := 0;
      captured, t := None, t0;
      var patience: nat := *;
      if link != Any {
        patience := if Hears(r) then 2 else 1;
      }
      while patience > 0
        invariant Underway(start, known, r, captured, t)
        invariant old(link != Any && board == start && pending == [Frame(sequence, r)]) ==>
                    Proceeds(start, r, captured, patience)
      {
        patience := patience - 1;
        var happening: nat := *;
        if link != Any {
          happening := if captured.Some? then 3 else 2;
        }
        if happening == 0 && attempts < 3 {
          attempts := attempts + 1;
          Send(r, captured, start, known, t);
        } else if happening == 1 && pending != [] {
          Lose(r, captured, start, known, t);
        } else if happening == 2 && pending != [] {
          captured, t := Arrive(r, captured, start, known, t);
        } else if happening == 3 && captured.Some? {
          break;
        } else {
          t := ResetLink(r, captured, start, known, t);
        }
      }
    }

    /** How an exchange goes on a link that does nothing wrong: the frame, and then its reply, if that comes back. */
    ghost predicate Proceeds(start: Server, r: Request, captured: Option<Reply>, patience: nat)
      reads this
    {
      if patience == (if Hears(r) then 2 else 1) then
        board == start && pending == [Frame(sequence, r)] && captured.None?
      else
        && board == Serve(start, r, Fine()).0 && pending == []
        && captured == if Hears(r) then Some(Serve(start, r, Fine()).1) else None
    }

    /** An exchange on a link that does nothing wrong: the board has served the request, and the desktop knows it. */
    ghost predicate Served(before: Server, r: Request, outcome: Outcome)
      reads this
    {
      && Calm() && board == Serve(before, r, Fine()).0
      && outcome == OutcomeOf(if Hears(r) then Some(Serve(before, r, Fine()).1) else None)
    }

    /** The list of answered requests grows by this one if it was answered. */
    ghost predicate Recorded(before: seq<Request>, r: Request, outcome: Outcome)
      reads this
    {
      answered == if outcome.Answer? then before + [r] else before
    }

    // ----- The upload

    /** Our upload may be open, and nothing but its own requests is under way. */
    ghost predicate Sending(g: Goal)
      reads this
    {
      Valid() && |g.source| <= MAX32 && Ours(board, g) && forall f :: f in pending ==> Fair(f.request, g)
    }

    /** An exchange of a running upload: an answer that verifies it is true. */
    method ExchangeFair(r: Request, ghost g: Goal) returns (outcome: Outcome)
      requires Sending(g) && Fair(r, g) && unanswered < 255
      modifies this
      ensures Sending(g) && unanswered == if outcome.Answer? then 0 else old(unanswered) + 1
      ensures outcome.Answer? && Verifies(outcome.reply) && (r.PutData? || r.PutCommit?) ==>
                Complete(board, g) && VerifiesGoal(outcome.reply, g)
      ensures Recorded(old(answered), r, outcome) && (old(Calm()) ==> Served(old(board), r, outcome))
    {
      ghost var t;
      outcome, t := Exchange(r);
      RunOurs(old(board), t.events, g);
      if outcome.Answer? && Verifies(outcome.reply) && (r.PutData? || r.PutCommit?) {
        VerifyingAnswered(old(board), t, r, outcome.reply, g);
      }
    }

    /** An opening that is acknowledged is ours. */
    method ExchangeBegin(r: Request, ghost g: Goal) returns (outcome: Outcome)
      requires Valid() && BeginsGoal(r, g) && |g.source| <= MAX32 && unanswered < 255
      modifies this
      ensures Valid() && (outcome.Answer? ==> Sending(g) && unanswered == 0)
      ensures Recorded(old(answered), r, outcome) && (old(Calm()) ==> Served(old(board), r, outcome))
    {
      ghost var t;
      outcome, t := Exchange(r);
      if outcome.Answer? {
        OpeningAnswered(old(board), t, r, outcome.reply, g);
      }
    }

    method Open(name: string, size: nat, crc: bv32, ghost g: Goal) returns (ok: bool)
      requires Valid() && g.name == name && size == |g.source| <= MAX32 && crc == Crc32(g.source) && unanswered < 255
      modifies this
      ensures Valid() && (ok ==> Sending(g) && unanswered == 0)
      ensures ok ==> answered == old(answered) + [PutBegin(size, crc, Some(name))]
      ensures old(Calm() && Ready(board, g)) ==>
                ok && Calm() && Taken(board, old(board.disk), old(board.board.sync), g, 0)
    {
      var outcome := ExchangeBegin(PutBegin(size, crc, Some(name)), g);
      ok := outcome.Answer?;
      if old(Calm() && Ready(board, g)) {
        Begins(old(board), g);
      }
    }

    /** INFO, and then the opening. */
    method Start(name: string, size: nat, crc: bv32, ghost g: Goal) returns (ok: bool)
      requires Valid() && g.name == name && size == |g.source| <= MAX32 && crc == Crc32(g.source) && unanswered < 255
      modifies this
      ensures Valid() && (ok ==> Sending(g) && unanswered == 0)
      ensures ok ==> answered == old(answered) + [Info, PutBegin(size, crc, Some(name))]
      ensures old(Calm() && Ready(board, g)) ==>
                ok && Calm() && Taken(board, old(board.disk), old(board.board.sync), g, 0)
    {
      if old(Calm() && Ready(board, g)) {
        InfoFine(board);
      }
      var info, _ := Exchange(Info);
      ok := info.Answer?;
      if ok {
        ok := Open(name, size, crc, g);
      }
    }

    /** The exchange of the next block; when nothing goes wrong, it is taken. */
    method ExchangeBlock(sent: nat, block: seq<byte>, ghost g: Goal, ghost d: Disk, ghost sync: bool)
      returns (outcome: Outcome)
      requires Sending(g) && unanswered < 255 && sent < |g.source| && block == BlockAt(g, sent)
      modifies this
      ensures Sending(g) && unanswered == if outcome.Answer? then 0 else old(unanswered) + 1
      ensures outcome.Answer? && Verifies(outcome.reply) ==> Complete(board, g) && VerifiesGoal(outcome.reply, g)
      ensures Recorded(old(answered), PutData(sent, block), outcome)
      ensures old(Calm() && Taken(board, d, sync, g, sent)) ==>
                Calm() && outcome.Answer? && BlockAnswered(board, outcome.reply, d, sync, g, sent + |block|)
    {
      outcome := ExchangeFair(PutData(sent, block), g);
      if old(Calm() && Taken(board, d, sync, g, sent)) {
        BlockSends(old(board), d, sync, g, sent);
      }
    }

    /** The next block. */
    method SendBlock(sent: nat, name: string, source: seq<byte>, ghost d: Disk, ghost sync: bool)
      returns (ok: bool, next: nat, verification: Option<Reply>)
      requires Sending(Goal(name, source)) && unanswered == 0 && sent < |source|
      modifies this
      ensures Sending(Goal(name, source)) && unanswered <= if ok then 0 else 1
      ensures next == Min(sent + CHUNK, |source|)
      ensures ok ==> answered == old(answered) + [PutData(sent, source[sent..next])]
      ensures ok && verification.Some? ==>
                && next == |source| && Complete(board, Goal(name, source))
                && VerifiesGoal(verification.value, Goal(name, source))
      ensures old(Calm() && Taken(board, d, sync, Goal(name, source), sent)) ==>
                ok && Reached(verification, d, sync, Goal(name, source), next)
    {
      ghost var g := Goal(name, source);
      next, verification := Min(sent + CHUNK, |source|), None;
      var block := source[sent..next];
      assert block == BlockAt(g, sent);
      var outcome := ExchangeBlock(sent, block, g, d, sync);
      ok := outcome.Answer? && (outcome.reply.Acked? || outcome.reply.AckedVerified?) && outcome.reply.offset == next;
      if ok && outcome.reply.AckedVerified? {
        verification := Some(outcome.reply);
      }
    }

    /** So much of the source has been taken, or the upload is over already. */
    ghost predicate Reached(verification: Option<Reply>, d: Disk, sync: bool, g: Goal, sent: nat)
      reads this
    {
      && Calm()
      && if verification.Some? then sent == |g.source| && Succeeded(board, d, sync, g)
         else Taken(board, d, sync, g, sent)
    }

    /**
     * All blocks in order; the last acknowledgement may already verify the upload.  On every link,
     * success means that each block of the source was acknowledged, once and in order.
     */
    method SendBlocks(name: string, source: seq<byte>, ghost d: Disk, ghost sync: bool)
      returns (ok: bool, verification: Option<Reply>)
      requires Sending(Goal(name, source)) && unanswered == 0
      modifies this
      ensures Sending(Goal(name, source)) && unanswered <= 1
      ensures ok && verification.Some? ==>
                Complete(board, Goal(name, source)) && VerifiesGoal(verification.value, Goal(name, source))
      ensures ok ==> answered == old(answered) + DataRequests(source)
      ensures old(Calm() && Taken(board, d, sync, Goal(name, source), 0)) ==>
                ok && Reached(verification, d, sync, Goal(name, source), |source|)
    {
      ghost var g := Goal(name, source);
      ok, verification := true, None;
      var sent := 0;
      ghost var blocks: nat := 0;
      while sent < |source| && ok
        invariant sent <= |source| && Sending(g) && unanswered <= (if ok then 0 else 1)
        invariant ok && verification.Some? ==>
                    sent == |source| && Complete(board, g) && VerifiesGoal(verification.value, g)
        invariant ok ==> Blocks(source, blocks, sent) && answered == old(answered) + DataRequests(source)[..blocks]
        invariant old(Calm() && Taken(board, d, sync, g, 0)) ==> ok && Reached(verification, d, sync, g, sent)
        decreases |source| - sent, ok
      {
        NextBlock(source, blocks, sent);
        ok, sent, verification := SendBlock(sent, name, source, d, sync);
        blocks := blocks + 1;
      }
      if ok {
        AllBlocks(source, blocks);
      }
    }

    /** A download of this file may be open, and only its requests are under way. */
    ghost predicate Downloading(name: string, data: seq<byte>)
      reads this
    {
      Valid() && Reading(board, name, data) && forall f :: f in pending ==> Reads(f.request, name)
    }

    /** A download of this file is open on a link that does nothing wrong. */
    ghost predicate Fetching(name: string, data: seq<byte>)
      reads this
    {
      Calm() && board.session == Getting && Settled(board.board) && Reading(board, name, data)
    }

    /** Any exchange of the download leaves the file and the download alone. */
    method ExchangeReading(r: Request, name: string, ghost data: seq<byte>) returns (outcome: Outcome)
      requires Downloading(name, data) && Reads(r, name) && unanswered < 255
      modifies this
      ensures Downloading(name, data) && unanswered == if outcome.Answer? then 0 else old(unanswered) + 1
      ensures outcome.Answer? && outcome.reply.Data? && r.GetData? ==>
                outcome.reply.block == ReadAt(data, r.offset, r.count)
      ensures Recorded(old(answered), r, outcome) && (old(Calm()) ==> Served(old(board), r, outcome))
    {
      ghost var t;
      outcome, t := Exchange(r);
      StaysReading(old(board), t.events, name, data);
      if outcome.Answer? && outcome.reply.Data? && r.GetData? {
        DataAnswered(old(board), t, name, data, r.offset, r.count, outcome.reply);
      }
    }

    method OpenReading(name: string) returns (ok: bool, size: nat, ghost data: seq<byte>)
      requires Valid() && unanswered < 255
      modifies this
      ensures old(answered) <= answered
      ensures Valid() && unanswered <= if ok then 0 else old(unanswered) + 1
      ensures ok ==> Downloading(name, data) && size == |data|
      ensures old(Calm() && Readable(board, name)) ==>
                ok && Fetching(name, data) && board == old(board).(session := Getting, file := Drive(name))
    {
      ok, size, data := false, 0, [];
      var outcome, t := Exchange(GetBegin(Some(name)));
      if outcome.Answer? && outcome.reply.Size? {
        data := SizeAnswered(old(board), t, name, outcome.reply);
        ok, size := true, outcome.reply.size;
      }
      if old(Calm() && Readable(board, name)) {
        OpensReading(old(board), name);
      }
    }

    /** The next chunk of the file, folded into the CRC-32. */
    method ReadChunk(name: string, received: nat, size: nat, crc: bv32, ghost data: seq<byte>)
      returns (ok: bool, next: nat, crc': bv32)
      requires Downloading(name, data) && received < size == |data| && Folded(crc, data, received) && unanswered == 0
      modifies this
      ensures old(answered) <= answered
      ensures Downloading(name, data) && unanswered <= if ok then 0 else 1
      ensures received <= next && (ok ==> received < next && Folded(crc', data, next))
      ensures old(Fetching(name, data)) ==> ok && Fetching(name, data) && board == old(board)
    {
      var count := Min(CHUNK, size - received);
      var outcome := ExchangeReading(GetData(received, count), name, data);
      ok, next, crc' := false, received, crc;
      if old(Fetching(name, data)) {
        ReadsOn(old(board), received, count);
        ReadInside(data, received, count);
      }
      if outcome.Answer? && outcome.reply.Data? {
        ok, next, crc' := TakeChunk(outcome.reply.block, received, count, crc, data);
      }
    }

    /** All chunks in order, folded into the CRC-32. */
    method ReadChunks(name: string, size: nat, ghost data: seq<byte>) returns (ok: bool, crc: bv32)
      requires Downloading(name, data) && size == |data| && unanswered == 0
      modifies this
      ensures old(answered) <= answered
      ensures Downloading(name, data) && unanswered <= if ok then 0 else 1
      ensures ok ==> crc == Crc32(data)
      ensures old(Fetching(name, data)) ==> ok && Fetching(name, data) && board == old(board)
    {
      ok, crc := true, 0;
      NothingFolded(data);
      var received := 0;
      while received < size && ok
        invariant Downloading(name, data) && unanswered <= if ok then 0 else 1
        invariant old(answered) <= answered
        invariant ok ==> Folded(crc, data, received)
        invariant old(Fetching(name, data)) ==> ok && Fetching(name, data) && board == old(board)
        decreases size - received, ok
      {
        ok, received, crc := ReadChunk(name, received, size, crc, data);
      }
      if ok {
        WholeFolded(data, crc);
      }
    }

    /**
     * Reads the file back for its size and CRC-32 only.  On a link that does nothing wrong, a file that
     * is there is read, and the board is as before.
     */
    method ReadBack(name: string) returns (ok: bool, size: nat, crc: bv32, ghost data: seq<byte>)
      requires Valid() && unanswered < 253
      modifies this
      ensures old(answered) <= answered
      ensures Valid() && unanswered <= old(unanswered) + 2
      ensures ok ==> Reading(board, name, data) && size == |data| && crc == Crc32(data)
      ensures old(Calm() && Readable(board, name)) ==>
                ok && Calm() && Restored(board, old(board))
    {
      crc := 0;
      ok, size, data := OpenReading(name);
      if !ok {
        return;
      }
      ok, crc := ReadChunks(name, size, data);
      if ok {
        ok := CloseReading(name, data);
      }
      if !ok {
        var cancelled, _ := Exchange(Cancel);
      }
    }

    method CloseReading(name: string, ghost data: seq<byte>) returns (ok: bool)
      requires Downloading(name, data) && unanswered == 0
      modifies this
      ensures old(answered) <= answered
      ensures Downloading(name, data) && unanswered <= 1
      ensures old(Fetching(name, data)) ==> ok && Calm() && board == old(board).(session := Idle)
    {
      var outcome := ExchangeReading(GetEnd, name, data);
      ok := outcome.Answer?;
      if old(Fetching(name, data)) {
        EndsReading(old(board));
      }
    }

    /** How far the COMMITs of an upload on a link that does nothing wrong have come. */
    ghost predicate Committed(outcome: Outcome, patience: nat, d: Disk, sync: bool, g: Goal)
      reads this
    {
      && Calm() && outcome.Answer?
      && if outcome.reply.Phase? then
           outcome.reply.phase + patience >= 4 && outcome.reply.phase > 0
           && BeforeCommit(board, d, sync, g, outcome.reply.phase)
         else
           outcome.reply == Verified(|g.source|, Crc32(g.source)) && Succeeded(board, d, sync, g)
    }

    /** One more COMMIT. */
    method CommitOnce(ghost g: Goal, ghost patience: nat, ghost d: Disk, ghost sync: bool, ghost turn: nat)
      returns (outcome: Outcome)
      requires Sending(g) && unanswered < 255
      modifies this
      ensures old(answered) <= answered
      ensures Sending(g) && unanswered == if outcome.Answer? then 0 else old(unanswered) + 1
      ensures outcome.Answer? && Verifies(outcome.reply) ==> Complete(board, g) && VerifiesGoal(outcome.reply, g)
      ensures link == Clean && old(Calm() && BeforeCommit(board, d, sync, g, turn)) && turn + 1 + patience >= 4 ==>
                Committed(outcome, patience, d, sync, g)
      ensures link == Mute && old(Calm() && NearlyDone(board, d, sync, g)) ==>
                outcome.LinkFailure? && Calm() && Succeeded(board, d, sync, g)
    {
      outcome := ExchangeFair(PutCommit, g);
      if old(Calm() && BeforeCommit(board, d, sync, g, turn)) {
        CommitTurn(old(board), d, sync, g, turn);
      }
      if old(Calm() && NearlyDone(board, d, sync, g)) {
        LastCommit(old(board), d, sync, g);
      }
    }

    /**
     * COMMIT, with one repetition and then the read-back when the link fails, through all phases.  When
     * only the replies to COMMIT fail to come back, an update in place is still found to be complete.
     */
    method Commit(name: string, size: nat, crc: bv32, ghost g: Goal, ghost d: Disk, ghost sync: bool)
      returns (ok: bool, readBack: bool)
      requires Sending(g) && g.name == name && size == |g.source| && crc == Crc32(g.source) && unanswered <= 1
      modifies this
      ensures old(answered) <= answered
      ensures Valid() && unanswered <= 5
      ensures ok ==> Holds(board.disk, g)
      ensures ok && !readBack ==> Complete(board, g)
      ensures link == Clean && old(Calm() && Taken(board, d, sync, g, |g.source|)) ==>
                ok && !readBack && Calm() && Succeeded(board, d, sync, g)
      ensures link == Mute && old(Calm() && Taken(board, d, sync, g, |g.source|) && board.up.direct) ==> ok && readBack
    {
      var patience: nat := *;
      if link == Clean {
        patience := 3;
      }
      var outcome := CommitOnce(g, patience, d, sync, 0);
      ok, readBack := false, outcome.LinkFailure?;
      if readBack {
        outcome := CommitOnce(g, patience, d, sync, 0);
        if !outcome.Answer? {
          var remoteSize, remoteCrc;
          ghost var data;
          ok, remoteSize, remoteCrc, data := ReadBack(name);
          return ok && remoteSize == size && remoteCrc == crc, true;
        }
        readBack := false;
      }
      while outcome.Answer? && outcome.reply.Phase? && patience > 0
        invariant Sending(g) && unanswered <= 3
        invariant old(answered) <= answered
        invariant outcome.Answer? ==> unanswered == 0
        invariant outcome.Answer? && Verifies(outcome.reply) ==> Complete(board, g) && VerifiesGoal(outcome.reply, g)
        invariant link == Clean && old(Calm() && Taken(board, d, sync, g, |g.source|)) ==>
                    Committed(outcome, patience, d, sync, g)
        decreases patience
      {
        patience := patience - 1;
        outcome := CommitOnce(g, patience, d, sync, outcome.reply.phase);
      }
      ok := outcome.Answer? && outcome.reply.Verified? && outcome.reply.size == size && outcome.reply.crc == crc;
    }

    /**
     * The upload.  Success means that the target has the source's size and CRC-32; unless the
     * desktop had to read the file back itself, it means that the target is the source, byte for byte.
     * On every link it also means that INFO, BEGIN and each block of the source were answered, in that
     * order.  When nothing goes wrong, the upload of any source to any name that is no directory
     * succeeds, and nothing else on the card changes.
     */
    method Put(name: string, source: seq<byte>) returns (ok: bool, readBack: bool)
      requires Valid() && unanswered < 255
      modifies this
      ensures Valid()
      ensures ok ==> |source| <= MAX32 && Holds(board.disk, Goal(name, source))
      ensures ok && !readBack ==> Drive(name) in board.disk && board.disk[Drive(name)] == File(source)
      ensures ok ==> old(answered) + [Info, PutBegin(|source|, Crc32(source), Some(name))] + DataRequests(source)
                     <= answered
      ensures link == Clean && old(Calm() && Ready(board, Goal(name, source))) ==>
                && ok && !readBack && Calm()
                && Succeeded(board, old(board.disk), old(board.board.sync), Goal(name, source))
    {
      ghost var g := Goal(name, source);
      ok, readBack := false, false;
      if |source| <= MAX32 {
        var crc := Checksum(source);
        ok := Start(name, |source|, crc, g);
        if ok {
          ok, readBack := Transfer(name, source, crc, old(board.disk), old(board.board.sync));
        }
      }
    }

    /** The blocks, and then COMMIT unless the last acknowledgement verified the upload; a failure ends in CANCEL. */
    method Transfer(name: string, source: seq<byte>, crc: bv32, ghost d: Disk, ghost sync: bool)
      returns (ok: bool, readBack: bool)
      requires Sending(Goal(name, source)) && unanswered == 0 && crc == Crc32(source)
      modifies this
      ensures Valid()
      ensures ok ==> Holds(board.disk, Goal(name, source))
      ensures ok && !readBack ==> Complete(board, Goal(name, source))
      ensures ok ==> old(answered) + DataRequests(source) <= answered
      ensures !ok ==> asked != [] && asked[|asked| - 1] == Cancel
      ensures link == Clean && old(Calm() && Taken(board, d, sync, Goal(name, source), 0)) ==>
                ok && !readBack && Calm() && Succeeded(board, d, sync, Goal(name, source))
    {
      ghost var g := Goal(name, source);
      var verification;
      readBack := false;
      ok, verification := SendBlocks(name, source, d, sync);
      if ok && verification.None? {
        ok, readBack := Commit(name, |source|, crc, g, d, sync);
      } else if ok {
        ok := verification.value.size == |source| && verification.value.crc == crc;
      }
      if !ok {
        var cancelled, _ := Exchange(Cancel);
      }
    }
  }
}
