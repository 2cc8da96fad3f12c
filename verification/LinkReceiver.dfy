/** The receiving side of the firmware in its own form: the ring buffer, the CRC loops and the automaton. */
module LinkReceiver {
  import opened Bytes
  import opened LinkFrame

  const RING_SIZE: nat := 2048

  // ----- The ring buffer

  function RingContents(data: seq<byte>, head: nat, tail: nat): seq<byte>
    requires |data| == RING_SIZE && head < RING_SIZE && tail < RING_SIZE
  {
    if tail <= head then data[tail..head] else data[tail..] + data[..head]
  }

  lemma PushContents(data: seq<byte>, head: nat, tail: nat, v: byte)
    requires |data| == RING_SIZE && head < RING_SIZE && tail < RING_SIZE
    requires (head + 1) % RING_SIZE != tail
    ensures RingContents(data[head := v], (head + 1) % RING_SIZE, tail) == RingContents(data, head, tail) + [v]
  {
    var after := data[head := v];
    if head + 1 == RING_SIZE {
      assert (head + 1) % RING_SIZE == 0;
      assert after[tail..] == data[tail..head] + [v] && after[..0] == [];
    } else {
      assert (head + 1) % RING_SIZE == head + 1;
      if tail <= head {
        assert after[tail..head + 1] == data[tail..head] + [v];
      } else {
        assert after[tail..] == data[tail..] && after[..head + 1] == data[..head] + [v];
      }
    }
  }

  lemma PopContents(data: seq<byte>, head: nat, tail: nat)
    requires |data| == RING_SIZE && head < RING_SIZE && tail < RING_SIZE && head != tail
    ensures RingContents(data, head, tail) == [data[tail]] + RingContents(data, head, (tail + 1) % RING_SIZE)
  {
    if tail + 1 == RING_SIZE {
      assert (tail + 1) % RING_SIZE == 0;
      assert data[tail..] == [data[tail]] && data[0..head] == data[..head];
    } else {
      assert (tail + 1) % RING_SIZE == tail + 1;
      if tail < head {
        assert data[tail..head] == [data[tail]] + data[tail + 1..head];
      } else {
        Regrouped(data[tail], data[tail + 1..], data[..head]);
        assert data[tail..] == [data[tail]] + data[tail + 1..];
      }
    }
  }

  lemma Regrouped(v: byte, a: seq<byte>, b: seq<byte>)
    ensures ([v] + a) + b == [v] + (a + b)
  {
  }

  /** Filled by the USB interrupt, emptied by the link task; one slot always stays free. */
  class Ring {
    const data: array<byte>
    var head: nat
    var tail: nat
    /** Since the last reset: everything stored, and everything taken out again. */
    ghost var stored: seq<byte>
    ghost var taken: seq<byte>

    ghost predicate Valid()
      reads this, data
    {
      && data.Length == RING_SIZE && head < RING_SIZE && tail < RING_SIZE
      && stored == taken + Contents()
    }

    ghost function Contents(): (s: seq<byte>)
      requires data.Length == RING_SIZE && head < RING_SIZE && tail < RING_SIZE
      reads this, data
      ensures |s| < RING_SIZE
    {
      RingContents(data[..], head, tail)
    }

    constructor ()
      ensures Valid() && Contents() == [] && stored == [] && taken == [] && fresh(data)
    {
      data := new byte[RING_SIZE];
      head, tail := 0, 0;
      stored, taken := [], [];
    }

    method Push(v: byte) returns (ok: bool)
      requires Valid()
      modifies this`head, this`stored, data
      ensures Valid()
      ensures ok == (|old(Contents())| < RING_SIZE - 1)
      ensures Contents() == if ok then old(Contents()) + [v] else old(Contents())
      ensures stored == if ok then old(stored) + [v] else old(stored)
    {
      var next := (head + 1) % RING_SIZE;
      ok := next != tail;
      if ok {
        PushContents(data[..], head, tail, v);
        data[head] := v;
        assert data[..] == old(data[..])[head := v];
        head := next;
        stored := stored + [v];
      }
    }

    method Pop() returns (available: bool, v: byte)
      requires Valid()
      modifies this`tail, this`taken
      ensures Valid()
      ensures available == (old(Contents()) != [])
      ensures available ==> old(Contents()) == [v] + Contents() && taken == old(taken) + [v]
      ensures !available ==> Contents() == [] && taken == old(taken)
    {
      available, v := tail != head, 0;
      if available {
        PopContents(data[..], head, tail);
        v := data[tail];
        tail := (tail + 1) % RING_SIZE;
        taken := taken + [v];
      }
    }

    method Clear()
      requires Valid()
      modifies this`tail, this`stored, this`taken
      ensures Valid() && Contents() == [] && stored == [] && taken == []
    {
      tail := head;
      stored, taken := [], [];
    }
  }

  // ----- CRC-8, as each side loops

  lemma BitsFromTop(v: bv8, n: nat)
    ensures Bits8(v, n + 1) == Bit8(Bits8(v, n))
  {
  }

  /** The firmware's loop. */
  method FirmwareCrc8(data: seq<byte>) returns (crc: byte)
    ensures crc == Crc8(data)
  {
    var value: bv8 := 0;
    for index := 0 to |data|
      invariant value == Register8(0, data[..index])
    {
      assert data[..index + 1][..index] == data[..index];
      ghost var start := value ^ Word8(data[index]);
      value := value ^ (data[index] as bv8);
      for bit := 0 to 8
        invariant value == Bits8(start, bit)
      {
        BitsFromTop(start, bit);
        value := if value & 0x80 != 0 then (value << 1) ^ 0x07 else value << 1;
      }
    }
    assert data[..|data|] == data;
    crc := value as int;
  }

  /** One bit on a wider register that is masked back to eight bits. */
  lemma MaskedBit(v: bv16, w: bv8)
    requires v == w as bv16
    ensures (if v & 0x80 != 0 then ((v << 1) ^ 0x07) & 0xFF else (v << 1) & 0xFF) == Bit8(w) as bv16
  {
  }

  lemma MaskedXor(v: bv16, w: bv8, x: bv8)
    requires v == w as bv16
    ensures v ^ (x as bv16) == (w ^ x) as bv16
  {
  }

  /** The desktop's loop, on wider integers that it masks after each shift. */
  method DesktopCrc8(data: seq<byte>) returns (crc: byte)
    ensures crc == Crc8(data)
  {
    var value: bv16 := 0;
    ghost var narrow: bv8 := 0;
    for index := 0 to |data|
      invariant narrow == Register8(0, data[..index]) && value == narrow as bv16
    {
      assert data[..index + 1][..index] == data[..index];
      ghost var start := narrow ^ Word8(data[index]);
      MaskedXor(value, narrow, Word8(data[index]));
      value := value ^ ((data[index] as bv8) as bv16);
      narrow := start;
      for bit := 0 to 8
        invariant narrow == Bits8(start, bit) && value == narrow as bv16
      {
        BitsFromTop(start, bit);
        MaskedBit(value, narrow);
        value := if value & 0x80 != 0 then ((value << 1) ^ 0x07) & 0xFF else (value << 1) & 0xFF;
        narrow := Bit8(narrow);
      }
    }
    assert data[..|data|] == data;
    crc := ((value & 0xFF) as bv8) as int;
  }

  // ----- The automaton

  class Receiver {
    var phase: Phase
    var version: byte
    var sequence: byte
    var length: byte
    var index: nat
    const payload: array<byte>

    ghost predicate Valid()
      reads this, payload
    {
      payload.Length == MAX_PAYLOAD && index <= MAX_PAYLOAD && Ready(View())
    }

    ghost function View(): State
      requires index <= payload.Length
      reads this, payload
    {
      State(phase, version, sequence, length, payload[..index])
    }

    constructor ()
      ensures Valid() && View() == State(WaitN, 0, 0, 0, []) && fresh(payload)
    {
      phase, version, sequence, length, index := WaitN, 0, 0, 0, 0;
      payload := new byte[MAX_PAYLOAD];
    }

    /** A complete frame: error replies first, then the handlers. */
    method ProcessFrame(crc: byte) returns (out: Output)
      requires Valid() && phase == ReadCrc
      ensures out == Judge(version, sequence, payload[..index], crc)
    {
      if version != VERSION {
        return Refuse(sequence, 1);
      }
      var expected := FirmwareCrc8([version, sequence, length] + payload[..index]);
      if expected != crc {
        return Refuse(sequence, 2);
      }
      out := Deliver(Message(sequence, payload[..index]));
    }

    method StorePayload(value: byte)
      requires Valid() && phase == ReadPayload
      modifies this`phase, this`index, payload
      ensures Valid() && (View(), []) == Feed(old(View()), value)
    {
      payload[index] := value;
      assert payload[..index] == old(payload[..index]);
      index := index + 1;
      assert payload[..index] == old(payload[..index]) + [value];
      if index == length {
        phase := ReadCrc;
      }
    }

    method ReadLengthByte(value: byte) returns (out: seq<Output>)
      requires Valid() && phase == ReadLength
      modifies this`phase, this`index, this`length
      ensures Valid() && (View(), out) == Feed(old(View()), value)
    {
      length, index, out := value, 0, [];
      if length == 0 || length > MAX_PAYLOAD {
        out := [Refuse(sequence, 3)];
        phase := WaitN;
      } else {
        phase := ReadPayload;
      }
    }

    method Step(value: byte) returns (out: seq<Output>)
      requires Valid()
      modifies this, payload
      ensures Valid() && (View(), out) == Feed(old(View()), value)
    {
      out := [];
      match phase {
        case WaitN =>
          if value == 0x4E {
            phase := WaitQ;
          }
        case WaitQ =>
          phase := if value == 0x51 then ReadVersion else if value == 0x4E then WaitQ else WaitN;
        case ReadVersion =>
          version, phase := value, ReadSequence;
        case ReadSequence =>
          sequence, phase := value, ReadLength;
        case ReadLength =>
          out := ReadLengthByte(value);
        case ReadPayload =>
          StorePayload(value);
        case ReadCrc =>
          var result := ProcessFrame(value);
          out := [result];
          phase := WaitN;
      }
    }

    /** A USB reset: whatever was under way is forgotten. */
    method Forget()
      requires Valid()
      modifies this`phase, this`index
      ensures Valid() && View().phase == WaitN
    {
      phase, index := WaitN, 0;
    }
  }

  /** The automaton has been fed exactly these bytes since `start`, and this came of it. */
  ghost predicate Fed(start: State, fed: seq<byte>, now: State, out: seq<Output>) {
    Ready(start) && FeedAll(start, fed) == (now, out)
  }

  lemma FedNothing(s: State)
    requires Ready(s)
    ensures Fed(s, [], s, [])
  {
  }

  lemma FedNext(start: State, fed: seq<byte>, now: State, out: seq<Output>, b: byte, next: State, more: seq<Output>)
    requires Fed(start, fed, now, out) && Feed(now, b) == (next, more)
    ensures Fed(start, fed + [b], next, out + more)
  {
    assert (fed + [b])[..|fed + [b]| - 1] == fed;
  }

  method FeedByte(receiver: Receiver, value: byte, before: seq<Output>, ghost start: State, ghost fed: seq<byte>)
    returns (out: seq<Output>)
    requires receiver.Valid() && Fed(start, fed, receiver.View(), before)
    modifies receiver, receiver.payload
    ensures receiver.Valid() && Fed(start, fed + [value], receiver.View(), out)
  {
    ghost var now := receiver.View();
    var more := receiver.Step(value);
    FedNext(start, fed, now, before, value, receiver.View(), more);
    out := before + more;
  }

  /** One turn of the link task: one byte from the ring into the automaton, if there is one. */
  method Poll(ring: Ring, receiver: Receiver, before: seq<Output>, ghost start: State, ghost fed: seq<byte>)
    returns (available: bool, out: seq<Output>, ghost fed': seq<byte>)
    requires ring.Valid() && receiver.Valid() && ring.data != receiver.payload
    requires Fed(start, fed, receiver.View(), before)
    modifies ring`tail, ring`taken, receiver, receiver.payload
    ensures ring.Valid() && receiver.Valid() && Fed(start, fed', receiver.View(), out)
    ensures fed' + ring.Contents() == fed + old(ring.Contents())
    ensures available ==> |ring.Contents()| < |old(ring.Contents())|
    ensures !available ==> ring.Contents() == []
  {
    out, fed' := before, fed;
    var value;
    available, value := ring.Pop();
    if available {
      out := FeedByte(receiver, value, before, start, fed);
      fed' := fed + [value];
    }
  }

  /** The link task: it empties the ring into the automaton. */
  method Drain(ring: Ring, receiver: Receiver) returns (out: seq<Output>)
    requires ring.Valid() && receiver.Valid() && ring.data != receiver.payload
    modifies ring`tail, ring`taken, receiver, receiver.payload
    ensures ring.Valid() && receiver.Valid() && ring.Contents() == []
    ensures Fed(old(receiver.View()), old(ring.Contents()), receiver.View(), out)
  {
    ghost var start, fed := receiver.View(), [];
    out := [];
    var more := true;
    while more
      invariant ring.Valid() && receiver.Valid() && Fed(start, fed, receiver.View(), out)
      invariant fed + ring.Contents() == old(ring.Contents())
      invariant !more ==> ring.Contents() == []
      decreases |ring.Contents()|, more
    {
      more, out, fed := Poll(ring, receiver, out, start, fed);
    }
    assert fed == old(ring.Contents());
  }

  /**
   * The receiving side as a whole: the interrupt fills the ring, the link task empties it, and a USB
   * reset forgets everything, in any interleaving.  `out` is what has come of it since the last reset.
   */
  class LinkInput {
    const ring: Ring
    const receiver: Receiver
    ghost var start: State
    ghost var out: seq<Output>

    ghost predicate Parts()
      reads ring, ring.data, receiver, receiver.payload
    {
      ring.Valid() && receiver.Valid() && ring.data != receiver.payload
    }

    ghost predicate Valid()
      reads this, ring, ring.data, receiver, receiver.payload
    {
      Parts() && start.phase == WaitN && Fed(start, ring.taken, receiver.View(), out)
    }

    constructor ()
      ensures Valid() && fresh(ring) && fresh(ring.data) && fresh(receiver) && fresh(receiver.payload)
      ensures ring.stored == [] && out == []
    {
      ring := new Ring();
      receiver := new Receiver();
      out := [];
      new;
      start := receiver.View();
      FedNothing(start);
    }

    /** The interrupt. */
    method Arrive(v: byte) returns (stored: bool)
      requires Valid()
      modifies ring`head, ring`stored, ring.data
      ensures Valid() && stored == (|old(ring.Contents())| < RING_SIZE - 1)
      ensures ring.stored == if stored then old(ring.stored) + [v] else old(ring.stored)
    {
      stored := ring.Push(v);
    }

    /** The link task. */
    method Turn() returns (more: seq<Output>)
      requires Valid()
      modifies this`out, ring`tail, ring`taken, receiver, receiver.payload
      ensures Valid() && ring.Contents() == [] && out == old(out) + more
      ensures Fed(start, ring.stored, receiver.View(), out)
    {
      FeedAppend(start, ring.taken, ring.Contents());
      more := Drain(ring, receiver);
      out := out + more;
      assert ring.taken == ring.stored;
    }

    /** A USB reset. */
    method Reset()
      requires Parts()
      modifies this`start, this`out, ring`tail, ring`stored, ring`taken, receiver`phase, receiver`index
      ensures Valid() && ring.stored == [] && out == []
    {
      ring.Clear();
      receiver.Forget();
      start, out := receiver.View(), [];
      FedNothing(start);
    }
  }

  /** Whatever the interleaving, once the ring is empty exactly the requests on the line have been delivered. */
  lemma AllDelivered(input: LinkInput, noise: seq<seq<byte>>, messages: seq<Message>, tail: seq<byte>)
    requires input.Valid() && input.ring.Contents() == []
    requires |noise| == |messages| && Quiet(tail)
    requires forall i :: 0 <= i < |messages| ==> Sendable(messages[i])
    requires forall i :: 0 <= i < |noise| ==> Quiet(noise[i])
    requires input.ring.stored == Line(noise, messages, tail)
    ensures input.out == Deliveries(messages)
  {
    assert input.ring.stored == input.ring.taken;
    LineDelivered(input.start, noise, messages, tail);
  }
}
