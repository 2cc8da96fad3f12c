/**
 * The SPI transfer below the Flash writer: bytes go out and come in most significant bit first over
 * a line that shifts least significant bit first, and the replies arrive one bit late.
 */
module Spi {
  /** One transfer: a command, an address, a page and one disposable byte. */
  const MAX_BYTES: nat := 261

  // ----- Bits of a byte

  function Mask(k: nat): bv8
    requires k < 8
  {
    if k == 0 then 1 else if k == 1 then 2 else if k == 2 then 4 else if k == 3 then 8
    else if k == 4 then 16 else if k == 5 then 32 else if k == 6 then 64 else 128
  }

  predicate Bit(v: bv8, k: nat)
    requires k < 8
  {
    v & Mask(k) != 0
  }

  function ReverseByte(v: bv8): bv8 {
    var pairs := ((v & 0x55) << 1) | ((v & 0xAA) >> 1);
    var nibbles := ((pairs & 0x33) << 2) | ((pairs & 0xCC) >> 2);
    ((nibbles & 0x0F) << 4) | ((nibbles & 0xF0) >> 4)
  }

  lemma ReverseBit(v: bv8, k: nat)
    requires k < 8
    ensures Bit(ReverseByte(v), k) == Bit(v, 7 - k)
  {
  }

  lemma ReverseTwice(v: bv8)
    ensures ReverseByte(ReverseByte(v)) == v
  {
  }

  lemma SetBit(v: bv8, k: nat, j: nat)
    requires k < 8 && j < 8
    ensures Bit(v | Mask(k), j) == (j == k || Bit(v, j))
  {
  }

  lemma ZeroBits(k: nat)
    requires k < 8
    ensures !Bit(0, k)
  {
  }

  // ----- The line

  /** Bit `i` of a stream of bytes sent most significant bit first. */
  predicate StreamBit(s: seq<bv8>, i: nat)
    requires i < 8 * |s|
  {
    Bit(s[i / 8], 7 - i % 8)
  }

  /** What the line shows while the other side sends `reply`: every bit one clock late, up to `until`. */
  predicate OneBitLate(line: seq<bool>, reply: seq<bv8>, until: nat) {
    && until <= |line| && until <= 8 * |reply| + 1
    && forall i :: 1 <= i < until ==> line[i] == StreamBit(reply, i - 1)
  }

  /** The bytes that sampling a line least significant bit first leaves. */
  predicate SampledFrom(raw: seq<bv8>, line: seq<bool>, count: nat)
    requires count <= |line| && count <= 8 * |raw|
  {
    forall i :: 0 <= i < count ==> Bit(raw[i / 8], i % 8) == line[i]
  }

  /** What the firmware makes of a sampled byte and its successor. */
  function Rebuild(raw: bv8, next: bv8): bv8 {
    ReverseByte(raw >> 1) | (next & 1)
  }

  lemma RebuildByte(raw: bv8, next: bv8, sent: bv8)
    requires Bit(raw, 1) == Bit(sent, 7) && Bit(raw, 2) == Bit(sent, 6) && Bit(raw, 3) == Bit(sent, 5)
    requires Bit(raw, 4) == Bit(sent, 4) && Bit(raw, 5) == Bit(sent, 3) && Bit(raw, 6) == Bit(sent, 2)
    requires Bit(raw, 7) == Bit(sent, 1)
    ensures Rebuild(raw, next) == sent <==> Bit(next, 0) == Bit(sent, 0)
    ensures Rebuild(raw, next) | 1 == sent | 1
  {
  }

  lemma SampleAt(raw: seq<bv8>, line: seq<bool>, reply: seq<bv8>, until: nat, k: nat, b: nat)
    requires OneBitLate(line, reply, until) && until <= 8 * |raw| && SampledFrom(raw, line, until)
    requires k < |raw| && b < 8 && 1 <= 8 * k + b < until && k < |reply|
    ensures b > 0 ==> Bit(raw[k], b) == Bit(reply[k], 8 - b)
    ensures b == 0 ==> Bit(raw[k], 0) == Bit(reply[k - 1], 0)
  {
    var i := 8 * k + b;
    assert i / 8 == k && i % 8 == b;
    assert line[i] == StreamBit(reply, i - 1);
    if b > 0 {
      assert (i - 1) / 8 == k && (i - 1) % 8 == b - 1;
    } else {
      assert (i - 1) / 8 == k - 1 && (i - 1) % 8 == 7;
    }
  }

  // ----- The transfer

  /** The whole reply, rebuilt from what was sampled, from the first byte to the last but one or the last. */
  lemma RebuiltReply(raw: seq<bv8>, line: seq<bool>, reply: seq<bv8>, until: nat, k: nat)
    requires OneBitLate(line, reply, until) && until <= 8 * |raw| && SampledFrom(raw, line, until)
    requires k + 1 < |raw| && k < |reply| && 8 * k + 8 <= until
    ensures Rebuild(raw[k], raw[k + 1]) | 1 == reply[k] | 1
    ensures 8 * k + 8 < until ==> Rebuild(raw[k], raw[k + 1]) == reply[k]
  {
    SampleAt(raw, line, reply, until, k, 1);
    SampleAt(raw, line, reply, until, k, 2);
    SampleAt(raw, line, reply, until, k, 3);
    SampleAt(raw, line, reply, until, k, 4);
    SampleAt(raw, line, reply, until, k, 5);
    SampleAt(raw, line, reply, until, k, 6);
    SampleAt(raw, line, reply, until, k, 7);
    RebuildByte(raw[k], raw[k + 1], reply[k]);
    if 8 * k + 8 < until {
      NextSample(raw, line, reply, until, k);
    }
  }

  /** The late bit of byte `k` is the first sample of the byte after it. */
  lemma NextSample(raw: seq<bv8>, line: seq<bool>, reply: seq<bv8>, until: nat, k: nat)
    requires OneBitLate(line, reply, until) && until <= 8 * |raw| && SampledFrom(raw, line, until)
    requires k + 1 < |raw| && k < |reply| && 8 * k + 8 < until
    ensures Bit(raw[k + 1], 0) == Bit(reply[k], 0)
  {
    var i := 8 * k + 8;
    assert i / 8 == k + 1 && i % 8 == 0 && (i - 1) / 8 == k && (i - 1) % 8 == 7;
    assert line[i] == StreamBit(reply, i - 1);
  }

  lemma SetSampleBits(rx: seq<bv8>, bit: nat)
    requires bit < 8 * |rx|
    ensures var rx' := rx[bit / 8 := rx[bit / 8] | Mask(bit % 8)];
            forall i :: 0 <= i < 8 * |rx| ==> Bit(rx'[i / 8], i % 8) == (i == bit || Bit(rx[i / 8], i % 8))
  {
    var rx' := rx[bit / 8 := rx[bit / 8] | Mask(bit % 8)];
    forall i | 0 <= i < 8 * |rx| ensures Bit(rx'[i / 8], i % 8) == (i == bit || Bit(rx[i / 8], i % 8)) {
      SetBit(rx[i / 8], bit % 8, i % 8);
    }
  }

  /** The two buffers of the port; a transfer reverses the one and rebuilds the other in place. */
  class SpiPort {
    const tx: array<bv8>
    const rx: array<bv8>

    ghost predicate Valid() {
      tx.Length == MAX_BYTES + 1 && rx.Length == MAX_BYTES + 1 && tx != rx
    }

    constructor ()
      ensures Valid() && fresh(tx) && fresh(rx)
    {
      tx := new bv8[MAX_BYTES + 1];
      rx := new bv8[MAX_BYTES + 1];
    }

    /** Sets one bit of the receive buffer and no other. */
    method SetSample(bit: nat)
      requires Valid() && bit < 8 * rx.Length
      modifies rx
      ensures forall i :: 0 <= i < 8 * rx.Length ==> Bit(rx[i / 8], i % 8) == (i == bit || old(Bit(rx[i / 8], i % 8)))
    {
      ghost var before := rx[..];
      SetSampleBits(before, bit);
      rx[bit / 8] := rx[bit / 8] | Mask(bit % 8);
      assert rx[..] == before[bit / 8 := before[bit / 8] | Mask(bit % 8)];
      forall i | 0 <= i < 8 * rx.Length
        ensures Bit(rx[i / 8], i % 8) == (i == bit || old(Bit(rx[i / 8], i % 8)))
      {
        assert rx[i / 8] == rx[..][i / 8] && old(rx[i / 8]) == before[i / 8];
      }
    }

    /** Clocks the bits out and, if asked, the samples in. */
    method ShiftLine(count: nat, reading: bool, line: seq<bool>) returns (ghost sent: seq<bool>)
      requires Valid() && count <= 8 * tx.Length && (reading ==> count <= |line|)
      requires forall k :: 0 <= k < rx.Length ==> 8 * k < count ==> rx[k] == 0
      modifies rx
      ensures |sent| == count && forall i :: 0 <= i < count ==> sent[i] == Bit(tx[i / 8], i % 8)
      ensures reading ==> SampledFrom(rx[..], line, count)
    {
      sent := [];
      forall i | 0 <= i < count ensures !Bit(rx[i / 8], i % 8) {
        ZeroBits(i % 8);
      }
      for bit := 0 to count
        invariant |sent| == bit && forall i :: 0 <= i < bit ==> sent[i] == Bit(tx[i / 8], i % 8)
        invariant reading ==> forall i :: 0 <= i < bit ==> Bit(rx[i / 8], i % 8) == line[i]
        invariant forall i :: bit <= i < count ==> !Bit(rx[i / 8], i % 8)
      {
        sent := sent + [Bit(tx[bit / 8], bit % 8)];
        if reading && line[bit] {
          SetSample(bit);
        }
      }
    }

    /** Turns the bytes to send around, in place, and adds the empty byte that a reply needs. */
    method PrepareSend(length: nat, wire: nat)
      requires Valid() && length <= wire <= MAX_BYTES + 1
      modifies tx, rx
      ensures forall k :: 0 <= k < wire ==> tx[k] == if k < length then ReverseByte(old(tx[k])) else 0
      ensures forall k :: 0 <= k < wire ==> rx[k] == 0
    {
      for index := 0 to wire
        invariant forall k :: 0 <= k < index ==> tx[k] == if k < length then ReverseByte(old(tx[k])) else 0
        invariant forall k :: index <= k < tx.Length ==> tx[k] == old(tx[k])
      {
        tx[index] := ReverseByte(if index < length then tx[index] else 0);
      }
      for index := 0 to wire
        invariant forall k :: 0 <= k < index ==> rx[k] == 0
        invariant forall k :: 0 <= k < wire ==> tx[k] == if k < length then ReverseByte(old(tx[k])) else 0
      {
        rx[index] := 0;
      }
    }

    /** Rebuilds the reply over its own samples: byte `index + 1` is read before it is overwritten. */
    method RebuildInPlace(length: nat)
      requires Valid() && length <= MAX_BYTES
      modifies rx
      ensures forall k :: 0 <= k < length ==> rx[k] == Rebuild(old(rx[k]), old(rx[k + 1]))
    {
      for index := 0 to length
        invariant forall k :: 0 <= k < index ==> rx[k] == Rebuild(old(rx[k]), old(rx[k + 1]))
        invariant forall k :: index <= k < rx.Length ==> rx[k] == old(rx[k])
      {
        rx[index] := ReverseByte(rx[index] >> 1) | (rx[index + 1] & 1);
      }
    }

    /**
     * One transfer of the first `length` bytes of the send buffer.  The chip sees them most
     * significant bit first.  If it replies one bit late, the receive buffer holds exactly its bytes;
     * if even the very last bit is lost, only the lowest bit of the last byte is in doubt.
     */
    method Transfer(length: nat, reading: bool, line: seq<bool>) returns (ok: bool, ghost sent: seq<bool>)
      requires Valid() && (reading && 1 <= length <= MAX_BYTES ==> 8 * length + 8 <= |line|)
      modifies tx, rx
      ensures ok == (1 <= length <= MAX_BYTES)
      ensures ok ==> Sends(sent, old(tx[..])[..length])
      ensures ok && reading ==> forall reply: seq<bv8> ::
                |reply| >= length && OneBitLate(line, reply, 8 * length + 1) ==> rx[..length] == reply[..length]
      ensures ok && reading ==> forall reply: seq<bv8> ::
                |reply| >= length && OneBitLate(line, reply, 8 * length) ==> rx[..length - 1] == reply[..length - 1]
    {
      sent := [];
      if length == 0 || length > MAX_BYTES {
        return false, sent;
      }
      ok := true;
      var wire := length + (if reading then 1 else 0);
      PrepareSend(length, wire);
      ghost var reversed := tx[..];
      sent := ShiftLine(8 * wire, reading, line);
      forall i | 0 <= i < 8 * length ensures sent[i] == StreamBit(old(tx[..])[..length], i) {
        ReverseBit(old(tx[..])[..length][i / 8], i % 8);
      }
      if reading {
        ghost var raw := rx[..];
        RebuildInPlace(length);
        ReadingRight(raw, rx[..], line, length);
      }
    }

    /** A command byte and its payload, or a payload of zeros, and the bytes that come back with the payload. */
    method Command(command: bv8, payload: seq<bv8>, reading: bool, line: seq<bool>)
      returns (ok: bool, result: seq<bv8>, ghost sent: seq<bool>)
      requires Valid() && (reading && |payload| < MAX_BYTES ==> 8 * |payload| + 16 <= |line|)
      modifies tx, rx
      ensures ok == (|payload| + 1 <= MAX_BYTES)
      ensures ok ==> Sends(sent, [command] + payload)
      ensures ok && reading ==> |result| == |payload| && forall reply: seq<bv8> ::
                |reply| > |payload| && OneBitLate(line, reply, 8 * |payload| + 9) ==> result == reply[1..|payload| + 1]
      ensures ok && reading ==> forall reply: seq<bv8> ::
                |reply| > |payload| > 0 && OneBitLate(line, reply, 8 * |payload| + 8) ==>
                  result[..|payload| - 1] == reply[1..|payload|]
    {
      sent, result := [], [];
      if |payload| + 1 > MAX_BYTES {
        return false, result, sent;
      }
      tx[0] := command;
      forall k | 0 <= k < |payload| {
        tx[k + 1] := payload[k];
      }
      ghost var bytes := tx[..];
      assert bytes[..|payload| + 1] == [command] + payload;
      ok, sent := Transfer(|payload| + 1, reading, line);
      if reading {
        result := rx[1..|payload| + 1];
        ResultRight(rx[..], result, line, |payload|);
      }
    }

    /**
     * A read of the Flash: the command, a three-byte address, and one byte more than is wanted.
     * Whatever the chip replies one bit late, even if the last bit of all is lost, the bytes wanted
     * come out exactly.
     */
    method ReadFlash(address: nat, count: nat, line: seq<bool>)
      returns (ok: bool, data: seq<bv8>, ghost sent: seq<bool>)
      requires Valid() && address < 0x100_0000 && (count <= 256 ==> 8 * count + 48 <= |line|)
      modifies tx, rx
      ensures ok == (1 <= count <= 256)
      ensures ok ==>
                Sends(sent, [0x03, Octet(address / 0x1_0000), Octet(address / 0x100), Octet(address)]
                            + Zeros(count + 1))
      ensures ok ==> |data| == count && forall reply: seq<bv8> ::
                |reply| > count + 4 && OneBitLate(line, reply, 8 * (count + 4) + 8) ==> data == reply[4..count + 4]
    {
      data, sent := [], [];
      if count == 0 || count > 256 {
        return false, data, sent;
      }
      var place := [Octet(address / 0x1_0000), Octet(address / 0x100), Octet(address)];
      var result;
      ok, result, sent := Command(0x03, place + Zeros(count + 1), true, line);
      data := result[3..count + 3];
      assert [0x03] + (place + Zeros(count + 1))
          == [0x03, Octet(address / 0x1_0000), Octet(address / 0x100), Octet(address)] + Zeros(count + 1);
      ReadRight(result, data, line, count);
    }
  }

  function Octet(n: nat): bv8 {
    (n % 256) as bv8
  }

  function Zeros(n: nat): (s: seq<bv8>)
    ensures |s| == n && forall k :: 0 <= k < n ==> s[k] == 0
  {
    if n == 0 then [] else Zeros(n - 1) + [0]
  }

  /** The chip receives at least these bytes, most significant bit first. */
  ghost predicate Sends(sent: seq<bool>, bytes: seq<bv8>) {
    |sent| >= 8 * |bytes| && forall i :: 0 <= i < 8 * |bytes| ==> sent[i] == StreamBit(bytes, i)
  }

  lemma ResultRight(rx: seq<bv8>, result: seq<bv8>, line: seq<bool>, count: nat)
    requires count + 1 <= |rx| && result == rx[1..count + 1]
    requires forall reply: seq<bv8> ::
               |reply| >= count + 1 && OneBitLate(line, reply, 8 * (count + 1) + 1) ==>
                 rx[..count + 1] == reply[..count + 1]
    requires forall reply: seq<bv8> ::
               |reply| >= count + 1 && OneBitLate(line, reply, 8 * (count + 1)) ==> rx[..count] == reply[..count]
    ensures forall reply: seq<bv8> ::
              |reply| > count && OneBitLate(line, reply, 8 * count + 9) ==> result == reply[1..count + 1]
    ensures forall reply: seq<bv8> ::
              |reply| > count > 0 && OneBitLate(line, reply, 8 * count + 8) ==> result[..count - 1] == reply[1..count]
  {
    forall reply: seq<bv8> | |reply| > count && OneBitLate(line, reply, 8 * count + 9)
      ensures result == reply[1..count + 1]
    {
      assert rx[..count + 1] == reply[..count + 1];
      assert rx[1..count + 1] == rx[..count + 1][1..];
    }
    forall reply: seq<bv8> | |reply| > count > 0 && OneBitLate(line, reply, 8 * count + 8)
      ensures result[..count - 1] == reply[1..count]
    {
      assert rx[..count] == reply[..count];
      assert result[..count - 1] == rx[..count][1..] && reply[1..count] == reply[..count][1..];
    }
  }

  lemma ReadRight(result: seq<bv8>, data: seq<bv8>, line: seq<bool>, count: nat)
    requires |result| == count + 4 && data == result[3..count + 3]
    requires forall reply: seq<bv8> ::
               |reply| > count + 4 && OneBitLate(line, reply, 8 * (count + 4) + 8) ==>
                 result[..count + 3] == reply[1..count + 4]
    ensures forall reply: seq<bv8> ::
              |reply| > count + 4 && OneBitLate(line, reply, 8 * (count + 4) + 8) ==> data == reply[4..count + 4]
  {
    forall reply: seq<bv8> | |reply| > count + 4 && OneBitLate(line, reply, 8 * (count + 4) + 8)
      ensures data == reply[4..count + 4]
    {
      assert result[..count + 3] == reply[1..count + 4];
      assert data == result[..count + 3][3..] && reply[4..count + 4] == reply[1..count + 4][3..];
    }
  }

  lemma ReadingRight(raw: seq<bv8>, rx: seq<bv8>, line: seq<bool>, length: nat)
    requires |raw| == |rx| && 1 <= length < |raw| && 8 * length + 8 <= |line| && SampledFrom(raw, line, 8 * length + 8)
    requires forall k :: 0 <= k < length ==> rx[k] == Rebuild(raw[k], raw[k + 1])
    ensures forall reply: seq<bv8> ::
              |reply| >= length && OneBitLate(line, reply, 8 * length + 1) ==> rx[..length] == reply[..length]
    ensures forall reply: seq<bv8> ::
              |reply| >= length && OneBitLate(line, reply, 8 * length) ==> rx[..length - 1] == reply[..length - 1]
  {
    forall reply: seq<bv8> | |reply| >= length && OneBitLate(line, reply, 8 * length)
      ensures rx[..length - 1] == reply[..length - 1]
    {
      RepliesMatch(raw, rx, line, reply, length - 1, 8 * length);
    }
    forall reply: seq<bv8> | |reply| >= length && OneBitLate(line, reply, 8 * length + 1)
      ensures rx[..length] == reply[..length]
    {
      RepliesMatch(raw, rx, line, reply, length, 8 * length + 1);
    }
  }

  /** As many bytes as have all their late bits come out exactly as the chip sent them. */
  lemma RepliesMatch(raw: seq<bv8>, rx: seq<bv8>, line: seq<bool>, reply: seq<bv8>, count: nat, until: nat)
    requires |raw| == |rx| && count < |raw| && count <= |reply| && until <= 8 * |raw| && 8 * count < until
    requires OneBitLate(line, reply, until) && SampledFrom(raw, line, until)
    requires forall k :: 0 <= k < count ==> rx[k] == Rebuild(raw[k], raw[k + 1])
    ensures rx[..count] == reply[..count]
  {
    forall k | 0 <= k < count ensures rx[k] == reply[k] {
      RebuiltReply(raw, line, reply, until, k);
    }
  }
}
