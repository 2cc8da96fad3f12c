/** The wire format of NanoQL Link: CRC-8, request frames, and the receiver's automaton. */
module LinkFrame {
  import opened Bytes

  const VERSION: byte := 1
  const MAX_PAYLOAD: nat := 245

  // ----- CRC-8

  /** One bit: shift up, subtracting the polynomial when a one falls out. */
  function Bit8(v: bv8): bv8 {
    if v & 0x80 != 0 then (v << 1) ^ 0x07 else v << 1
  }

  function Bits8(v: bv8, n: nat): bv8
    decreases n, v
  {
    if n == 0 then v else Bit8(Bits8(v, n - 1))
  }

  function Word8(b: byte): bv8 {
    b as bv8
  }

  /** The step for one byte: exclusive-or, then eight bits. */
  function Step8(v: bv8, w: bv8): bv8 {
    Bits8(v ^ w, 8)
  }

  /** The register after a message, from the given register. */
  function Register8(v: bv8, data: seq<byte>): bv8 {
    if data == [] then v else Step8(Register8(v, data[..|data| - 1]), Word8(data[|data| - 1]))
  }

  function Crc8(data: seq<byte>): byte {
    Register8(0, data) as int
  }

  lemma NextRegister(data: seq<byte>, b: byte, v: bv8, v': bv8)
    requires Register8(0, data) == v && Step8(v, Word8(b)) == v'
    ensures Register8(0, data + [b]) == v'
  {
    assert (data + [b])[..|data + [b]| - 1] == data;
  }

  lemma FirstSteps()
    ensures Step8(0x00, Word8(0x31)) == 0x97
    ensures Step8(0x97, Word8(0x32)) == 0x72
    ensures Step8(0x72, Word8(0x33)) == 0xc0
  {
  }

  lemma MiddleSteps()
    ensures Step8(0xc0, Word8(0x34)) == 0xc2
    ensures Step8(0xc2, Word8(0x35)) == 0xcb
    ensures Step8(0xcb, Word8(0x36)) == 0xfd
  {
  }

  lemma LastSteps()
    ensures Step8(0xfd, Word8(0x37)) == 0x78
    ensures Step8(0x78, Word8(0x38)) == 0xc7
    ensures Step8(0xc7, Word8(0x39)) == 0xf4
  {
  }

  /** The check value of this CRC, that of the digits 1 to 9: its polynomial is 7, and nothing is reflected. */
  lemma CheckValue(digits: seq<byte>)
    requires digits == [0x31, 0x32, 0x33, 0x34, 0x35, 0x36, 0x37, 0x38, 0x39]
    ensures Crc8(digits) == 0xF4
  {
    FirstSteps();
    MiddleSteps();
    LastSteps();
    NextRegister([], 0x31, 0x00, 0x97);
    assert [] + [0x31] == digits[..1];
    NextRegister(digits[..1], 0x32, 0x97, 0x72);
    assert digits[..1] + [0x32] == digits[..2];
    NextRegister(digits[..2], 0x33, 0x72, 0xc0);
    assert digits[..2] + [0x33] == digits[..3];
    NextRegister(digits[..3], 0x34, 0xc0, 0xc2);
    assert digits[..3] + [0x34] == digits[..4];
    NextRegister(digits[..4], 0x35, 0xc2, 0xcb);
    assert digits[..4] + [0x35] == digits[..5];
    NextRegister(digits[..5], 0x36, 0xcb, 0xfd);
    assert digits[..5] + [0x36] == digits[..6];
    NextRegister(digits[..6], 0x37, 0xfd, 0x78);
    assert digits[..6] + [0x37] == digits[..7];
    NextRegister(digits[..7], 0x38, 0x78, 0xc7);
    assert digits[..7] + [0x38] == digits[..8];
    NextRegister(digits[..8], 0x39, 0xc7, 0xf4);
    assert digits[..8] + [0x39] == digits;
  }

  lemma BitInjective(u: bv8, v: bv8)
    requires Bit8(u) == Bit8(v)
    ensures u == v
  {
  }

  lemma {:induction false} BitsInjective(u: bv8, v: bv8, n: nat)
    requires Bits8(u, n) == Bits8(v, n)
    ensures u == v
    decreases n
  {
    if n > 0 {
      BitInjective(Bits8(u, n - 1), Bits8(v, n - 1));
      BitsInjective(u, v, n - 1);
    }
  }

  lemma XorInjective(u: bv8, v: bv8, w: bv8)
    requires u ^ w == v ^ w
    ensures u == v
  {
  }

  lemma ByteOfRegister(v: bv8)
    ensures (v as int) as bv8 == v
  {
  }

  lemma RegisterOfByte(b: byte)
    ensures (b as bv8) as int == b
  {
    var v: bv8 := b as bv8;
    if b < 64 {
      assert v as int == b;
    } else if b < 128 {
      assert v as int == b;
    } else if b < 192 {
      assert v as int == b;
    } else {
      assert v as int == b;
    }
  }

  lemma XorSwap(u: bv8, v: bv8)
    ensures u ^ v == v ^ u
  {
  }

  /** For a given byte the step is a bijection of the register. */
  lemma RegisterStepInjective(u: bv8, v: bv8, w: bv8)
    requires Step8(u, w) == Step8(v, w)
    ensures u == v
  {
    BitsInjective(u ^ w, v ^ w, 8);
    XorInjective(u, v, w);
  }

  /** For a given register the step is a bijection of the byte. */
  lemma ByteStepInjective(v: bv8, x: bv8, y: bv8)
    requires Step8(v, x) == Step8(v, y)
    ensures x == y
  {
    BitsInjective(v ^ x, v ^ y, 8);
    XorSwap(v, x);
    XorSwap(v, y);
    XorInjective(x, y, v);
  }

  lemma WordInjective(a: byte, b: byte)
    requires Word8(a) == Word8(b)
    ensures a == b
  {
    RegisterOfByte(a);
    RegisterOfByte(b);
  }

  /** Registers that differ stay different over any common tail. */
  lemma {:induction false} RegistersStayApart(u: bv8, v: bv8, tail: seq<byte>)
    requires u != v
    ensures Register8(u, tail) != Register8(v, tail)
    decreases |tail|
  {
    if tail != [] {
      var front, last := tail[..|tail| - 1], tail[|tail| - 1];
      RegistersStayApart(u, v, front);
      var x, y, w := Register8(u, front), Register8(v, front), Word8(last);
      if Step8(x, w) == Step8(y, w) {
        RegisterStepInjective(x, y, w);
      }
    }
  }

  lemma {:induction false} RegisterAppend(v: bv8, a: seq<byte>, b: seq<byte>)
    ensures Register8(v, a + b) == Register8(Register8(v, a), b)
    decreases |b|
  {
    if b == [] {
      assert a + b == a;
    } else {
      assert (a + b)[..|a + b| - 1] == a + b[..|b| - 1];
      RegisterAppend(v, a, b[..|b| - 1]);
    }
  }

  /** Two messages that differ in exactly one byte have different CRCs, however long they are. */
  lemma OneByteDetected(data: seq<byte>, pos: nat, b: byte)
    requires pos < |data| && data[pos] != b
    ensures Crc8(data[pos := b]) != Crc8(data)
  {
    var head, tail := data[..pos], data[pos + 1..];
    assert data == head + [data[pos]] + tail;
    assert data[pos := b] == head + [b] + tail;
    RegisterAppend(0, head + [data[pos]], tail);
    RegisterAppend(0, head + [b], tail);
    OneByteApart(head, data[pos], b);
    RegistersStayApart(Register8(0, head + [data[pos]]), Register8(0, head + [b]), tail);
    ByteOfRegister(Register8(0, data));
    ByteOfRegister(Register8(0, data[pos := b]));
  }

  lemma OneByteApart(head: seq<byte>, a: byte, b: byte)
    requires a != b
    ensures Register8(0, head + [a]) != Register8(0, head + [b])
  {
    assert (head + [a])[..|head|] == head && (head + [b])[..|head|] == head;
    var v, x, y := Register8(0, head), Word8(a), Word8(b);
    if x == y {
      WordInjective(a, b);
    }
    if Step8(v, x) == Step8(v, y) {
      ByteStepInjective(v, x, y);
    }
  }

  // ----- Frames

  /** The body that the CRC covers. */
  function Body(sequence: byte, payload: seq<byte>): seq<byte>
    requires |payload| <= MAX_PAYLOAD
  {
    [VERSION, sequence, |payload|] + payload
  }

  /** A request as the desktop sends it. */
  function Encode(sequence: byte, payload: seq<byte>): seq<byte>
    requires |payload| <= MAX_PAYLOAD
  {
    [0x4E, 0x51] + Body(sequence, payload) + [Crc8(Body(sequence, payload))]
  }

  datatype Message = Message(sequence: byte, payload: seq<byte>)

  predicate Sendable(m: Message) {
    1 <= |m.payload| <= MAX_PAYLOAD
  }

  // ----- The receiver

  datatype Phase = WaitN | WaitQ | ReadVersion | ReadSequence | ReadLength | ReadPayload | ReadCrc

  datatype State = State(phase: Phase, version: byte, sequence: byte, length: byte, payload: seq<byte>)

  /** What the receiver makes of a frame: a request for the handlers, or an error reply. */
  datatype Output = Deliver(message: Message) | Refuse(sequence: byte, code: nat)

  /** A complete frame: the version first, then the CRC. */
  function Judge(version: byte, sequence: byte, payload: seq<byte>, crc: byte): Output
    requires |payload| <= MAX_PAYLOAD
  {
    if version != VERSION then Refuse(sequence, 1)
    else if Crc8([version, sequence, |payload|] + payload) != crc then Refuse(sequence, 2)
    else Deliver(Message(sequence, payload))
  }

  predicate Ready(s: State) {
    && (s.phase == ReadPayload ==> |s.payload| < s.length <= MAX_PAYLOAD)
    && (s.phase == ReadCrc ==> |s.payload| == s.length <= MAX_PAYLOAD)
  }

  function Feed(s: State, b: byte): (r: (State, seq<Output>))
    requires Ready(s)
    ensures Ready(r.0)
  {
    match s.phase
    case WaitN => (if b == 0x4E then s.(phase := WaitQ) else s, [])
    case WaitQ => (s.(phase := if b == 0x51 then ReadVersion else if b == 0x4E then WaitQ else WaitN), [])
    case ReadVersion => (s.(version := b, phase := ReadSequence), [])
    case ReadSequence => (s.(sequence := b, phase := ReadLength), [])
    case ReadLength =>
      if b == 0 || b > MAX_PAYLOAD then (s.(length := b, payload := [], phase := WaitN), [Refuse(s.sequence, 3)])
      else (s.(length := b, payload := [], phase := ReadPayload), [])
    case ReadPayload =>
      (s.(payload := s.payload + [b], phase := if |s.payload| + 1 == s.length then ReadCrc else ReadPayload), [])
    case ReadCrc => (s.(phase := WaitN), [Judge(s.version, s.sequence, s.payload, b)])
  }

  /** The receiver over a whole stream. */
  function FeedAll(s: State, stream: seq<byte>): (r: (State, seq<Output>))
    requires Ready(s)
    ensures Ready(r.0)
  {
    if stream == [] then (s, [])
    else
      var (t, out) := FeedAll(s, stream[..|stream| - 1]);
      var (u, more) := Feed(t, stream[|stream| - 1]);
      (u, out + more)
  }

  lemma {:induction false} FeedAppend(s: State, a: seq<byte>, b: seq<byte>)
    requires Ready(s)
    ensures FeedAll(s, a + b).0 == FeedAll(FeedAll(s, a).0, b).0
    ensures FeedAll(s, a + b).1 == FeedAll(s, a).1 + FeedAll(FeedAll(s, a).0, b).1
    decreases |b|
  {
    if b == [] {
      assert a + b == a;
    } else {
      assert (a + b)[..|a + b| - 1] == a + b[..|b| - 1];
      FeedAppend(s, a, b[..|b| - 1]);
    }
  }

  /** No "N" directly followed by "Q". */
  predicate Quiet(noise: seq<byte>) {
    forall i :: 0 < i < |noise| && noise[i] == 0x51 ==> noise[i - 1] != 0x4E
  }

  /** Noise leaves an idle receiver before the magic, with nothing delivered. */
  lemma {:induction false} NoiseIgnored(s: State, noise: seq<byte>)
    requires s.phase == WaitN && Quiet(noise)
    ensures var (t, out) := FeedAll(s, noise);
            && out == []
            && t.phase == (if noise != [] && noise[|noise| - 1] == 0x4E then WaitQ else WaitN)
    decreases |noise|
  {
    if noise != [] {
      var front := noise[..|noise| - 1];
      assert Quiet(front);
      NoiseIgnored(s, front);
      if front != [] {
        assert front[|front| - 1] == noise[|noise| - 2];
      }
    }
  }

  lemma FeedOne(s: State, b: byte)
    requires Ready(s)
    ensures FeedAll(s, [b]) == Feed(s, b)
  {
    assert [b][..0] == [];
    assert [] + Feed(s, b).1 == Feed(s, b).1;
  }

  /** The payload bytes, up to the last. */
  lemma {:induction false} PayloadFeeds(s: State, payload: seq<byte>)
    requires s.phase == ReadPayload && s.payload == [] && |payload| <= s.length <= MAX_PAYLOAD && s.length > 0
    ensures FeedAll(s, payload)
         == (s.(payload := payload, phase := if |payload| == s.length then ReadCrc else ReadPayload), [])
    decreases |payload|
  {
    if payload != [] {
      var front, last := payload[..|payload| - 1], payload[|payload| - 1];
      PayloadFeeds(s, front);
      var t := FeedAll(s, front).0;
      assert t == s.(payload := front) && FeedAll(s, front).1 == [];
      assert [] + Feed(t, last).1 == Feed(t, last).1;
      assert payload[|payload| - 1] == last && FeedAll(s, payload) == (Feed(t, last).0, [] + Feed(t, last).1);
      assert front + [last] == payload;
      assert Feed(t, last)
           == (s.(payload := payload, phase := if |payload| == s.length then ReadCrc else ReadPayload), []);
    }
  }

  /** The five bytes before the payload, from either waiting phase. */
  lemma HeaderFeeds(s: State, version: byte, sequence: byte, length: byte)
    requires s.phase == WaitN || s.phase == WaitQ
    requires 1 <= length <= MAX_PAYLOAD
    ensures FeedAll(s, [0x4E, 0x51, version, sequence, length])
         == (State(ReadPayload, version, sequence, length, []), [])
  {
    var h: seq<byte> := [0x4E, 0x51, version, sequence, length];
    assert h[..1] == [h[0]] && h[..2][..1] == h[..1] && h[..3][..2] == h[..2] && h[..4][..3] == h[..3] && h[..5] == h;
    FeedOne(s, 0x4E);
    assert FeedAll(s, h[..1]).0.phase == WaitQ;
    assert FeedAll(s, h[..2]).0.phase == ReadVersion;
    assert FeedAll(s, h[..3]).0.phase == ReadSequence;
    assert FeedAll(s, h[..4]).0.phase == ReadLength;
  }

  /** Any frame with a good length, valid or not, is judged as a whole and leaves the receiver idle. */
  lemma FrameJudged(s: State, version: byte, sequence: byte, payload: seq<byte>, crc: byte)
    requires (s.phase == WaitN || s.phase == WaitQ) && 1 <= |payload| <= MAX_PAYLOAD
    ensures var (t, out) := FeedAll(s, [0x4E, 0x51, version, sequence, |payload|] + payload + [crc]);
            t.phase == WaitN && out == [Judge(version, sequence, payload, crc)]
  {
    var header: seq<byte> := [0x4E, 0x51, version, sequence, |payload|];
    HeaderFeeds(s, version, sequence, |payload|);
    var after := FeedAll(s, header).0;
    PayloadFeeds(after, payload);
    FeedAppend(s, header, payload);
    FeedAppend(s, header + payload, [crc]);
    FeedOne(FeedAll(s, header + payload).0, crc);
  }

  /** What the line carries: each request behind its own noise, and noise at the end. */
  function Line(noise: seq<seq<byte>>, messages: seq<Message>, tail: seq<byte>): seq<byte>
    requires |noise| == |messages| && forall i :: 0 <= i < |messages| ==> Sendable(messages[i])
  {
    if messages == [] then tail
    else
      assert Sendable(messages[0]);
      noise[0] + Encode(messages[0].sequence, messages[0].payload) + Line(noise[1..], messages[1..], tail)
  }

  function Deliveries(messages: seq<Message>): (out: seq<Output>)
    ensures |out| == |messages| && forall i :: 0 <= i < |out| ==> out[i] == Deliver(messages[i])
  {
    if messages == [] then [] else [Deliver(messages[0])] + Deliveries(messages[1..])
  }

  lemma EncodeSplit(m: Message)
    requires Sendable(m)
    ensures Encode(m.sequence, m.payload)
         == [0x4E, 0x51, VERSION, m.sequence, |m.payload|] + m.payload
            + [Crc8([VERSION, m.sequence, |m.payload|] + m.payload)]
  {
  }

  lemma FrameDelivered(s: State, m: Message)
    requires (s.phase == WaitN || s.phase == WaitQ) && Sendable(m)
    ensures var (t, out) := FeedAll(s, Encode(m.sequence, m.payload));
            t.phase == WaitN && out == [Deliver(m)]
  {
    EncodeSplit(m);
    FrameJudged(s, VERSION, m.sequence, m.payload, Crc8([VERSION, m.sequence, |m.payload|] + m.payload));
  }

  /** One request behind noise. */
  lemma RequestDelivered(s: State, noise: seq<byte>, m: Message)
    requires s.phase == WaitN && Quiet(noise) && Sendable(m)
    ensures var (t, out) := FeedAll(s, noise + Encode(m.sequence, m.payload));
            t.phase == WaitN && out == [Deliver(m)]
  {
    NoiseIgnored(s, noise);
    FrameDelivered(FeedAll(s, noise).0, m);
    FeedAppend(s, noise, Encode(m.sequence, m.payload));
  }

  /**
   * From idle, any noise without the pair "NQ" and any encoded requests, in any number: exactly
   * those requests are delivered, in order, and the receiver waits for the next magic.
   */
  lemma {:induction false} LineDelivered(s: State, noise: seq<seq<byte>>, messages: seq<Message>, tail: seq<byte>)
    requires s.phase == WaitN && |noise| == |messages| && Quiet(tail)
    requires forall i :: 0 <= i < |messages| ==> Sendable(messages[i])
    requires forall i :: 0 <= i < |noise| ==> Quiet(noise[i])
    ensures var (t, out) := FeedAll(s, Line(noise, messages, tail));
            out == Deliveries(messages) && (t.phase == WaitN || t.phase == WaitQ)
    decreases |messages|
  {
    if messages == [] {
      NoiseIgnored(s, tail);
    } else {
      var first := noise[0] + Encode(messages[0].sequence, messages[0].payload);
      RequestDelivered(s, noise[0], messages[0]);
      LineDelivered(FeedAll(s, first).0, noise[1..], messages[1..], tail);
      FeedAppend(s, first, Line(noise[1..], messages[1..], tail));
    }
  }

  // ----- The other direction: nothing is delivered that was not on the line

  /** The bytes of the frame under way. */
  function Partial(s: State): seq<byte>
    requires Ready(s)
  {
    match s.phase
    case WaitN => []
    case WaitQ => [0x4E]
    case ReadVersion => [0x4E, 0x51]
    case ReadSequence => [0x4E, 0x51, s.version]
    case ReadLength => [0x4E, 0x51, s.version, s.sequence]
    case _ => [0x4E, 0x51, s.version, s.sequence, s.length] + s.payload
  }

  predicate EndsWith(stream: seq<byte>, part: seq<byte>) {
    |part| <= |stream| && stream[|stream| - |part|..] == part
  }

  lemma EndsWithStep(stream: seq<byte>, b: byte, part: seq<byte>)
    requires EndsWith(stream, part)
    ensures EndsWith(stream + [b], part + [b])
  {
    var n := |stream| - |part|;
    assert (stream + [b])[n..] == stream[n..] + [b];
  }

  /** The stream always ends with the frame under way. */
  lemma {:induction false} PartialReceived(s: State, stream: seq<byte>)
    requires s.phase == WaitN
    ensures EndsWith(stream, Partial(FeedAll(s, stream).0))
    decreases |stream|
  {
    if stream != [] {
      var front, b := stream[..|stream| - 1], stream[|stream| - 1];
      assert stream == front + [b];
      PartialReceived(s, front);
      var t := FeedAll(s, front).0;
      EndsWithStep(front, b, Partial(t));
      var u := Feed(t, b).0;
      assert Partial(u) == Partial(t) + [b] || Partial(u) == [] || Partial(u) == [0x4E] == [b];
    }
  }

  lemma JudgedIsEncoded(version: byte, sequence: byte, payload: seq<byte>, crc: byte, m: Message)
    requires |payload| <= MAX_PAYLOAD && Judge(version, sequence, payload, crc) == Deliver(m)
    ensures m == Message(sequence, payload)
    ensures [0x4E, 0x51, version, sequence, |payload|] + payload + [crc] == Encode(m.sequence, m.payload)
  {
    assert version == VERSION;
    assert Body(sequence, payload) == [version, sequence, |payload|] + payload;
  }

  /** Whatever the stream, a request is delivered only at the end of exactly its own encoding. */
  lemma DeliveredWasSent(s: State, stream: seq<byte>, b: byte, m: Message)
    requires s.phase == WaitN
    requires Deliver(m) in Feed(FeedAll(s, stream).0, b).1
    ensures |m.payload| <= MAX_PAYLOAD && EndsWith(stream + [b], Encode(m.sequence, m.payload))
  {
    var t := FeedAll(s, stream).0;
    PartialReceived(s, stream);
    EndsWithStep(stream, b, Partial(t));
    JudgedIsEncoded(t.version, t.sequence, t.payload, b, m);
  }

  /** A frame damaged in one byte of its sequence number, its payload or its CRC is refused with error 2. */
  lemma DamagedFrameRefused(s: State, m: Message, pos: nat, b: byte)
    requires (s.phase == WaitN || s.phase == WaitQ) && Sendable(m)
    requires var frame := Encode(m.sequence, m.payload);
             (pos == 3 || 5 <= pos < |frame|) && frame[pos] != b
    ensures var (t, out) := FeedAll(s, Encode(m.sequence, m.payload)[pos := b]);
            t.phase == WaitN && out == [Refuse(if pos == 3 then b else m.sequence, 2)]
  {
    var body := Body(m.sequence, m.payload);
    var frame := Encode(m.sequence, m.payload);
    var crc := Crc8(body);
    var n := |m.payload|;
    if pos == 3 {
      OneByteDetected(body, 1, b);
      assert body[1 := b] == [VERSION, b, n] + m.payload;
      assert frame[pos := b] == [0x4E, 0x51, VERSION, b, n] + m.payload + [crc];
      FrameJudged(s, VERSION, b, m.payload, crc);
    } else if pos < |frame| - 1 {
      OneByteDetected(body, pos - 2, b);
      var payload := m.payload[pos - 5 := b];
      assert body[pos - 2 := b] == [VERSION, m.sequence, |payload|] + payload;
      assert frame[pos := b] == [0x4E, 0x51, VERSION, m.sequence, |payload|] + payload + [crc];
      FrameJudged(s, VERSION, m.sequence, payload, crc);
    } else {
      assert frame[pos := b] == [0x4E, 0x51, VERSION, m.sequence, n] + m.payload + [b];
      FrameJudged(s, VERSION, m.sequence, m.payload, b);
    }
  }
}
