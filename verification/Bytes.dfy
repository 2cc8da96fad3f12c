/** Bytes, big-endian fields, additive sums and a few sequence facts shared by every component. */
module Bytes {

  /** An unsigned octet. */
  type byte = x: int | 0 <= x < 256

  /** The outcome of an operation that the program ends with an exception or an error code. */
  datatype Outcome<+T> = Done(value: T) | Rejected

  function Fill(n: nat, v: byte): (s: seq<byte>)
    ensures |s| == n && forall i :: 0 <= i < n ==> s[i] == v
  {
    seq(n, _ => v)
  }

  /** `count` bytes of the calibration pattern AA 55 AA 55 ... */
  function Calibration(count: nat): (s: seq<byte>)
    ensures |s| == count && forall i :: 0 <= i < count ==> s[i] == if i % 2 == 1 then 0x55 else 0xAA
  {
    seq(count, i => if i % 2 == 1 then 0x55 else 0xAA)
  }

  function Be16(n: nat): (s: seq<byte>)
    ensures |s| == 2
  {
    [n / 256 % 256, n % 256]
  }

  function Be32(n: nat): (s: seq<byte>)
    ensures |s| == 4
  {
    [n / 0x1000000 % 256, n / 0x10000 % 256, n / 256 % 256, n % 256]
  }

  function FromBe16(s: seq<byte>): nat
    requires |s| == 2
  {
    (s[0] as int) * 256 + s[1] as int
  }

  function FromBe32(s: seq<byte>): nat
    requires |s| == 4
  {
    (s[0] as int) * 0x1000000 + (s[1] as int) * 0x10000 + (s[2] as int) * 256 + s[3] as int
  }

  lemma Be16RoundTrip(n: nat)
    requires n < 0x10000
    ensures FromBe16(Be16(n)) == n
  {
  }

  lemma Be32RoundTrip(n: nat)
    requires n < 0x1_0000_0000
    ensures FromBe32(Be32(n)) == n
  {
    var a, b := n / 256, n / 0x10000;
    assert b == a / 256;
    assert n / 0x1000000 == b / 256;
  }

  /** The sum of a run of bytes. */
  function Sum(s: seq<byte>): nat {
    if s == [] then 0 else Sum(s[..|s| - 1]) + s[|s| - 1]
  }

  lemma {:induction false} SumAppend(a: seq<byte>, b: seq<byte>)
    ensures Sum(a + b) == Sum(a) + Sum(b)
    decreases |b|
  {
    if b == [] {
      assert a + b == a;
    } else {
      SumAppend(a, b[..|b| - 1]);
      assert (a + b)[..|a + b| - 1] == a + b[..|b| - 1];
    }
  }

  /** Replacing one byte moves the sum by exactly the difference. */
  lemma SumUpdate(s: seq<byte>, i: nat, v: byte)
    requires i < |s|
    ensures Sum(s[i := v]) == Sum(s) - s[i] + v
  {
    var tail := s[i + 1..];
    assert s == s[..i] + [s[i]] + tail;
    assert s[i := v] == s[..i] + [v] + tail;
    SumAppend(s[..i], [s[i]]);
    SumAppend(s[..i] + [s[i]], tail);
    SumAppend(s[..i], [v]);
    SumAppend(s[..i] + [v], tail);
    assert Sum([s[i]]) == s[i] by { assert [s[i]][..0] == []; }
    assert Sum([v]) == v by { assert [v][..0] == []; }
  }

  lemma SumOne(b: byte)
    ensures Sum([b]) == b
  {
    assert [b][..0] == [];
  }

  lemma {:induction false} SumFill(n: nat, v: byte, s: seq<byte>)
    requires |s| == n && forall i :: 0 <= i < n ==> s[i] == v
    ensures Sum(s) == n * (v as int)
  {
    if n > 0 {
      SumFill(n - 1, v, s[..n - 1]);
    }
  }

  lemma SumTwo(a: byte, b: byte)
    ensures Sum([a, b]) == (a as int) + b as int
  {
    SumOne(a);
    SumOne(b);
    SumAppend([a], [b]);
    assert [a, b] == [a] + [b];
  }

  /** Concatenation of a list of runs, last run outermost. */
  function Flatten<T>(parts: seq<seq<T>>): seq<T> {
    if parts == [] then [] else Flatten(parts[..|parts| - 1]) + parts[|parts| - 1]
  }

  lemma FlattenStep<T>(parts: seq<seq<T>>, k: nat)
    requires k < |parts|
    ensures Flatten(parts[..k + 1]) == Flatten(parts[..k]) + parts[k]
  {
    assert parts[..k + 1][..k] == parts[..k];
  }

  lemma {:induction false} FlattenAppend<T>(a: seq<seq<T>>, b: seq<seq<T>>)
    ensures Flatten(a + b) == Flatten(a) + Flatten(b)
    decreases |b|
  {
    if b == [] {
      assert a + b == a;
    } else {
      FlattenAppend(a, b[..|b| - 1]);
      assert (a + b)[..|a + b| - 1] == a + b[..|b| - 1];
      assert (a + b)[|a + b| - 1] == b[|b| - 1];
    }
  }

  lemma {:induction false} FlattenLength<T>(parts: seq<seq<T>>, width: nat)
    requires forall i :: 0 <= i < |parts| ==> |parts[i]| == width
    ensures |Flatten(parts)| == |parts| * width
  {
    if parts != [] {
      var n := |parts| - 1;
      FlattenLength(parts[..n], width);
      assert Flatten(parts) == Flatten(parts[..n]) + parts[n];
      assert n * width + width == (n + 1) * width;
    }
  }

  lemma {:induction false} FlattenPart<T>(parts: seq<seq<T>>, width: nat, k: nat, start: nat)
    requires forall i :: 0 <= i < |parts| ==> |parts[i]| == width
    requires k < |parts| && start == k * width
    ensures start + width <= |Flatten(parts)|
    ensures Flatten(parts)[start..start + width] == parts[k]
  {
    var init := parts[..|parts| - 1];
    FlattenLength(init, width);
    if k < |init| {
      FlattenPart(init, width, k, start);
      assert Flatten(parts)[start..start + width] == Flatten(init)[start..start + width];
    }
  }

  /** Runs of one common width sit at multiples of that width. */
  lemma FlattenUniform<T>(parts: seq<seq<T>>, width: nat)
    requires forall i :: 0 <= i < |parts| ==> |parts[i]| == width
    ensures |Flatten(parts)| == |parts| * width
    ensures forall k :: 0 <= k < |parts| ==>
              0 <= k * width <= k * width + width <= |Flatten(parts)| &&
              Flatten(parts)[k * width..k * width + width] == parts[k]
  {
    FlattenLength(parts, width);
    forall k | 0 <= k < |parts|
      ensures 0 <= k * width <= k * width + width <= |Flatten(parts)|
      ensures Flatten(parts)[k * width..k * width + width] == parts[k]
    {
      var start := k * width;
      FlattenPart(parts, width, k, start);
    }
  }
}
