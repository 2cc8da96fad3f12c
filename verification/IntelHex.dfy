/** The Intel HEX reader that turns the text form of the 8049 program into its 2048 bytes. */
module IntelHex {
  import opened Bytes

  const ROM_SIZE: nat := 2048

  // ----- Text

  /** What ends a line of ASCII text. */
  predicate EndsLine(c: char) {
    c == '\n' || c == '\r' || c == 11 as char || c == 12 as char || 28 as char <= c <= 30 as char
  }

  predicate Space(c: char) {
    c == ' ' || 9 as char <= c <= 13 as char || 28 as char <= c <= 31 as char
  }

  /** The lines of a text; the last is what follows the last end of line. */
  function Lines(text: string): (lines: seq<string>)
    ensures |lines| > 0
  {
    if text == [] then [[]]
    else
      var before, c := Lines(text[..|text| - 1]), text[|text| - 1];
      if EndsLine(c) then before + [[]] else before[..|before| - 1] + [before[|before| - 1] + [c]]
  }

  function StripLeft(s: string): string {
    if s != [] && Space(s[0]) then StripLeft(s[1..]) else s
  }

  function Strip(s: string): string {
    var t := StripLeft(s);
    StripRight(t)
  }

  function StripRight(s: string): string {
    if s != [] && Space(s[|s| - 1]) then StripRight(s[..|s| - 1]) else s
  }

  /** The value of a hexadecimal digit, or 16. */
  function Digit(c: char): (v: nat)
    ensures v <= 16
  {
    if '0' <= c <= '9' then c as nat - '0' as nat
    else if 'A' <= c <= 'F' then c as nat - 'A' as nat + 10
    else if 'a' <= c <= 'f' then c as nat - 'a' as nat + 10
    else 16
  }

  /** White space as it may stand between pairs of digits. */
  predicate Blank(c: char) {
    c == ' ' || 9 as char <= c <= 13 as char
  }

  function FromHex(s: string): Outcome<seq<byte>> {
    if s == [] then Done([])
    else if Blank(s[0]) then FromHex(s[1..])
    else if |s| < 2 || Digit(s[0]) == 16 || Digit(s[1]) == 16 then Rejected
    else
      match FromHex(s[2..])
      case Rejected => Rejected
      case Done(rest) => Done([16 * Digit(s[0]) + Digit(s[1])] + rest)
  }

  // ----- Records

  /** The reader between two lines. */
  datatype State = State(rom: seq<byte>, written: seq<bool>, upper: nat, eof: bool)

  predicate Sized(s: State) {
    |s.rom| == ROM_SIZE && |s.written| == ROM_SIZE
  }

  function Start(): (s: State)
    ensures Sized(s)
  {
    State(Fill(ROM_SIZE, 0xFF), seq(ROM_SIZE, _ => false), 0, false)
  }

  /** A line that may stand: its record bytes, checked for checksum and length; Nothing for a blank line. */
  datatype Content = Nothing | Bad | Content(record: seq<byte>)

  function Decode(raw: string): (c: Content)
    ensures c.Content? ==> |c.record| >= 5 && |c.record| == c.record[0] as int + 5
  {
    var line := Strip(raw);
    if line == [] then Nothing
    else if line[0] != ':' then Bad
    else
      match FromHex(line[1..])
      case Rejected => Bad
      case Done(record) =>
        if Sum(record) % 256 != 0 || record == [] || |record| != record[0] as int + 5 then Bad else Content(record)
  }

  function DataOf(record: seq<byte>): seq<byte>
    requires |record| >= 5 && |record| == record[0] as int + 5
  {
    record[4..4 + record[0] as int]
  }

  /** Where a data record goes. */
  function PlaceOf(upper: nat, record: seq<byte>): nat
    requires |record| >= 5
  {
    upper + FromBe16(record[1..3])
  }

  function Put(s: State, at: nat, data: seq<byte>): (r: State)
    requires Sized(s) && at + |data| <= ROM_SIZE
    ensures Sized(r) && r.upper == s.upper && r.eof == s.eof
    ensures forall k :: 0 <= k < ROM_SIZE ==> r.rom[k] == if at <= k < at + |data| then data[k - at] else s.rom[k]
    ensures forall k :: 0 <= k < ROM_SIZE ==> r.written[k] == (at <= k < at + |data| || s.written[k])
  {
    s.(rom := s.rom[..at] + data + s.rom[at + |data|..],
       written := s.written[..at] + seq(|data|, _ => true) + s.written[at + |data|..])
  }

  function Apply(s: State, record: seq<byte>): (r: Outcome<State>)
    requires Sized(s) && |record| >= 5 && |record| == record[0] as int + 5
    ensures r.Done? ==> Sized(r.value)
  {
    if record[3] == 0 then
      var at, data := PlaceOf(s.upper, record), DataOf(record);
      if data == [] then Done(s) else if at + |data| > ROM_SIZE then Rejected else Done(Put(s, at, data))
    else if record[3] == 1 then Done(s.(eof := true))
    else if record[3] == 4 then
      if record[0] != 2 then Rejected else Done(s.(upper := FromBe16(record[4..6]) * 0x1_0000))
    else Done(s)
  }

  function Step(s: State, raw: string): (r: Outcome<State>)
    requires Sized(s)
    ensures r.Done? ==> Sized(r.value)
  {
    match Decode(raw)
    case Nothing => Done(s)
    case Bad => Rejected
    case Content(record) => Apply(s, record)
  }

  /** The reader after all these lines. */
  function After(lines: seq<string>): (r: Outcome<State>)
    ensures r.Done? ==> Sized(r.value)
  {
    if lines == [] then Done(Start())
    else
      match After(lines[..|lines| - 1])
      case Rejected => Rejected
      case Done(s) => Step(s, lines[|lines| - 1])
  }

  predicate Complete(s: State) {
    s.eof && forall k :: 0 <= k < |s.written| ==> s.written[k]
  }

  function Finish(r: Outcome<State>): Outcome<seq<byte>> {
    if r.Done? && Complete(r.value) then Done(r.value.rom) else Rejected
  }

  /** What a text stands for. */
  function Parse(text: string): Outcome<seq<byte>> {
    Finish(After(Lines(text)))
  }

  // ----- What an accepted text says

  /** Line `i` is a data record that reaches byte `k`, in the state the lines before it leave. */
  predicate Covers(lines: seq<string>, i: nat, k: nat)
    requires i < |lines|
  {
    && After(lines[..i]).Done? && Decode(lines[i]).Content?
    && var s, record := After(lines[..i]).value, Decode(lines[i]).record;
       record[3] == 0 && PlaceOf(s.upper, record) <= k < PlaceOf(s.upper, record) + |DataOf(record)|
  }

  function Covering(lines: seq<string>, i: nat, k: nat): byte
    requires i < |lines| && Covers(lines, i, k)
  {
    DataOf(Decode(lines[i]).record)[k - PlaceOf(After(lines[..i]).value.upper, Decode(lines[i]).record)]
  }

  /** Line `i` is the last of the first `n` lines that reaches byte `k`. */
  predicate LastToCover(lines: seq<string>, n: nat, i: nat, k: nat)
    requires n <= |lines|
  {
    i < n && Covers(lines, i, k) && NoneCovers(lines, i + 1, n, k)
  }

  /** None of the lines from `from` up to `n` reaches byte `k`. */
  predicate NoneCovers(lines: seq<string>, from: nat, n: nat, k: nat)
    requires n <= |lines|
  {
    n <= from || (NoneCovers(lines, from, n - 1, k) && !Covers(lines, n - 1, k))
  }

  lemma {:induction false} NoneCoversAt(lines: seq<string>, from: nat, n: nat, k: nat, j: nat)
    requires from <= j < n <= |lines| && NoneCovers(lines, from, n, k)
    ensures !Covers(lines, j, k)
  {
    if j < n - 1 {
      NoneCoversAt(lines, from, n - 1, k, j);
    }
  }

  lemma OneLast(lines: seq<string>, n: nat, i: nat, j: nat, k: nat)
    requires n <= |lines| && LastToCover(lines, n, i, k) && LastToCover(lines, n, j, k)
    ensures i == j
  {
    if i < j {
      NoneCoversAt(lines, i + 1, n, k, j);
    } else if j < i {
      NoneCoversAt(lines, j + 1, n, k, i);
    }
  }

  lemma AfterStep(lines: seq<string>, n: nat)
    requires n < |lines|
    ensures After(lines[..n + 1])
         == if After(lines[..n]).Done? then Step(After(lines[..n]).value, lines[n]) else Rejected
  {
    assert lines[..n + 1][..n] == lines[..n];
  }

  lemma CoverStep(lines: seq<string>, n: nat, k: nat)
    requires n < |lines| && k < ROM_SIZE && After(lines[..n + 1]).Done?
    ensures After(lines[..n]).Done?
    ensures var s, s' := After(lines[..n]).value, After(lines[..n + 1]).value;
            && (Covers(lines, n, k) ==> s'.written[k] && s'.rom[k] == Covering(lines, n, k))
            && (!Covers(lines, n, k) ==> s'.written[k] == s.written[k] && s'.rom[k] == s.rom[k])
  {
    AfterStep(lines, n);
  }

  /** A byte is marked when some data record reached it, and holds what the last such record says. */
  lemma {:induction false} LastWriter(lines: seq<string>, n: nat, k: nat) returns (i: nat)
    requires n <= |lines| && k < ROM_SIZE && After(lines[..n]).Done?
    ensures After(lines[..n]).value.written[k] ==>
              LastToCover(lines, n, i, k) && After(lines[..n]).value.rom[k] == Covering(lines, i, k)
    ensures !After(lines[..n]).value.written[k] ==> NoneCovers(lines, 0, n, k)
  {
    i := 0;
    if n == 0 {
      assert lines[..n] == [];
    } else {
      AfterStep(lines, n - 1);
      CoverStep(lines, n - 1, k);
      i := LastWriter(lines, n - 1, k);
      if Covers(lines, n - 1, k) {
        i := n - 1;
      }
    }
  }

  /** The last data record that reaches byte `k` says `v`. */
  ghost predicate Says(lines: seq<string>, k: nat, v: byte) {
    exists i: nat :: LastToCover(lines, |lines|, i, k) && Covering(lines, i, k) == v
  }

  /**
   * A text is accepted exactly when all its lines may stand, one of them is an end record, and every
   * byte is reached; each byte then is what the last data record that reaches it says.
   */
  lemma AcceptedExactly(text: string, rom: seq<byte>)
    ensures var lines := Lines(text);
            Parse(text) == Done(rom) <==>
              && After(lines).Done? && After(lines).value.eof && |rom| == ROM_SIZE
              && forall k: nat :: k < ROM_SIZE ==> Says(lines, k, rom[k])
  {
    var lines := Lines(text);
    if After(lines).Done? {
      var s := After(lines).value;
      assert lines[..|lines|] == lines;
      forall k: nat | k < ROM_SIZE
        ensures s.written[k] ==> Says(lines, k, s.rom[k])
        ensures |rom| == ROM_SIZE && Says(lines, k, rom[k]) ==> s.written[k] && rom[k] == s.rom[k]
      {
        var i := LastWriter(lines, |lines|, k);
        if |rom| == ROM_SIZE && Says(lines, k, rom[k]) {
          var j: nat :| LastToCover(lines, |lines|, j, k) && Covering(lines, j, k) == rom[k];
          if s.written[k] {
            OneLast(lines, |lines|, i, j, k);
          } else {
            NoneCoversAt(lines, 0, |lines|, k, j);
          }
        }
      }
      if Parse(text) == Done(rom) || (|rom| == ROM_SIZE && forall k: nat :: k < ROM_SIZE ==> Says(lines, k, rom[k])) {
        SameRom(s, rom, lines);
      }
    }
  }

  lemma SameRom(s: State, rom: seq<byte>, lines: seq<string>)
    requires Sized(s)
    requires forall k: nat :: k < ROM_SIZE ==> (s.written[k] ==> Says(lines, k, s.rom[k]))
    requires forall k: nat :: k < ROM_SIZE ==>
               (|rom| == ROM_SIZE && Says(lines, k, rom[k]) ==> s.written[k] && rom[k] == s.rom[k])
    ensures (forall k :: 0 <= k < |s.written| ==> s.written[k]) && s.rom == rom <==>
              |rom| == ROM_SIZE && forall k: nat :: k < ROM_SIZE ==> Says(lines, k, rom[k])
  {
  }

  // ----- Files that describe an image

  /** A line of the file: a piece of the image, or the end record. */
  datatype Item = Data(at: nat, data: seq<byte>) | End

  /** The record of a line, with the checksum that makes its sum zero. */
  function WithChecksum(body: seq<byte>): seq<byte> {
    body + [(256 - Sum(body) % 256) % 256]
  }

  function RecordOf(item: Item): seq<byte>
    requires item.Data? ==> |item.data| < 256
  {
    match item
    case Data(at, data) => WithChecksum([|data|] + Be16(at) + [0] + data)
    case End => WithChecksum([0, 0, 0, 1])
  }

  function HexDigit(v: nat): (c: char)
    requires v < 16
    ensures Digit(c) == v && !Blank(c) && !Space(c) && !EndsLine(c)
  {
    if v < 10 then ('0' as nat + v) as char else ('A' as nat + (v - 10)) as char
  }

  function Hex(bytes: seq<byte>): (s: string)
    ensures |s| == 2 * |bytes|
    ensures forall i :: 0 <= i < |s| ==> !Space(s[i]) && !EndsLine(s[i])
  {
    if bytes == [] then [] else [HexDigit(bytes[0] / 16), HexDigit(bytes[0] % 16)] + Hex(bytes[1..])
  }

  function LineOf(item: Item): (s: string)
    requires item.Data? ==> |item.data| < 256
    ensures |s| > 0 && s[0] == ':' && forall i :: 0 <= i < |s| ==> !Space(s[i]) && !EndsLine(s[i])
  {
    [':'] + Hex(RecordOf(item))
  }

  /** Every piece lies inside the image and agrees with it; pieces may come in any order and may overlap. */
  predicate Describes(items: seq<Item>, image: seq<byte>) {
    && |image| == ROM_SIZE
    && forall i :: 0 <= i < |items| ==> Agrees(items[i], image)
  }

  predicate Agrees(item: Item, image: seq<byte>) {
    item.Data? ==>
      |item.data| < 256 && item.at + |item.data| <= |image| && image[item.at..item.at + |item.data|] == item.data
  }

  function TextOf(items: seq<Item>, image: seq<byte>): string
    requires Describes(items, image)
  {
    if items == [] then []
    else TextOf(items[..|items| - 1], image) + LineOf(items[|items| - 1]) + "\n"
  }

  predicate Reaches(item: Item, k: nat) {
    item.Data? && item.at <= k < item.at + |item.data|
  }

  predicate Reached(items: seq<Item>, k: nat) {
    exists i :: 0 <= i < |items| && Reaches(items[i], k)
  }

  lemma HexPair(b: byte, rest: string)
    requires FromHex(rest).Done?
    ensures FromHex([HexDigit(b / 16), HexDigit(b % 16)] + rest) == Done([b] + FromHex(rest).value)
  {
    var s := [HexDigit(b / 16), HexDigit(b % 16)] + rest;
    assert s[2..] == rest && !Blank(s[0]);
    assert 16 * (b as int / 16) + b as int % 16 == b as int;
  }

  lemma {:induction false} HexRoundTrip(bytes: seq<byte>)
    ensures FromHex(Hex(bytes)) == Done(bytes)
  {
    if bytes != [] {
      HexRoundTrip(bytes[1..]);
      HexPair(bytes[0], Hex(bytes[1..]));
      assert [bytes[0]] + bytes[1..] == bytes;
    }
  }

  lemma ChecksumIsZero(body: seq<byte>)
    ensures Sum(WithChecksum(body)) % 256 == 0
  {
    var last: byte := (256 - Sum(body) % 256) % 256;
    SumAppend(body, [last]);
    SumOne(last);
  }

  lemma LineDecodes(item: Item)
    requires item.Data? ==> |item.data| < 256
    ensures Decode(LineOf(item)) == Content(RecordOf(item))
  {
    match item {
      case Data(at, data) => ChecksumIsZero([|data|] + Be16(at) + [0] + data);
      case End => ChecksumIsZero([0, 0, 0, 1]);
    }
    PlainLine(RecordOf(item));
    SoundDecodes(LineOf(item), RecordOf(item));
  }

  /** What a line of the file does to a reader that has seen no extended address. */
  lemma LineApplies(s: State, item: Item, image: seq<byte>)
    requires Sized(s) && s.upper == 0 && |image| == ROM_SIZE && Agrees(item, image)
    ensures Step(s, LineOf(item))
         == Done(match item
                 case End => s.(eof := true)
                 case Data(at, data) => if data == [] then s else Put(s, at, data))
  {
    LineDecodes(item);
    if item.Data? {
      DataApplies(s, item, RecordOf(item));
    } else {
      EndApplies(s, RecordOf(item));
    }
  }

  lemma DataApplies(s: State, item: Item, record: seq<byte>)
    requires Sized(s) && s.upper == 0 && item.Data? && |item.data| < 256 && item.at + |item.data| <= ROM_SIZE
    requires record == RecordOf(item)
    ensures |record| == record[0] as int + 5
    ensures Apply(s, record) == Done(if item.data == [] then s else Put(s, item.at, item.data))
  {
    assert record[0] == |item.data| && record[1..3] == Be16(item.at) && record[3] == 0;
    assert record[4..4 + |item.data|] == item.data;
    Be16RoundTrip(item.at);
  }

  lemma EndApplies(s: State, record: seq<byte>)
    requires Sized(s) && record == RecordOf(End)
    ensures |record| == record[0] as int + 5 && Apply(s, record) == Done(s.(eof := true))
  {
    assert record[0] == 0 && record[3] == 1;
  }

  /** One more character: it ends the last line or joins it. */
  lemma LinesStep(text: string, c: char, before: seq<string>, last: string)
    requires Lines(text) == before + [last]
    ensures Lines(text + [c]) == if EndsLine(c) then before + [last] + [[]] else before + [last + [c]]
  {
    assert (text + [c])[..|text + [c]| - 1] == text && (text + [c])[|text + [c]| - 1] == c;
    assert (before + [last])[..|before + [last]| - 1] == before;
  }

  lemma LineGrows(text: string, front: string, c: char, before: seq<string>)
    requires Lines(text + front) == before + [front] && !EndsLine(c)
    ensures Lines(text + (front + [c])) == before + [front + [c]]
  {
    LinesStep(text + front, c, before, front);
    assert text + front + [c] == text + (front + [c]);
  }

  lemma {:induction false} LinesOfLine(text: string, line: string, before: seq<string>)
    requires Lines(text) == before + [[]] && forall i :: 0 <= i < |line| ==> !EndsLine(line[i])
    ensures Lines(text + line) == before + [line]
    decreases |line|
  {
    if line == [] {
      assert text + line == text;
    } else {
      var front, c := line[..|line| - 1], line[|line| - 1];
      LinesOfLine(text, front, before);
      assert line == front + [c];
      LineGrows(text, front, c, before);
    }
  }

  lemma LinesNext(text: string, line: string, before: seq<string>)
    requires Lines(text) == before + [[]] && forall i :: 0 <= i < |line| ==> !EndsLine(line[i])
    ensures Lines(text + line + "\n") == before + [line] + [[]]
  {
    LinesOfLine(text, line, before);
    LinesStep(text + line, '\n', before, line);
  }

  /** The reader after the lines of some items. */
  predicate Describing(s: State, items: seq<Item>, image: seq<byte>) {
    && Sized(s) && |image| == ROM_SIZE && s.upper == 0 && (s.eof <==> End in items)
    && forall k: nat :: k < ROM_SIZE ==> DescribedAt(s, items, image, k)
  }

  predicate DescribedAt(s: State, items: seq<Item>, image: seq<byte>, k: nat)
    requires Sized(s) && |image| == ROM_SIZE && k < ROM_SIZE
  {
    (s.written[k] <==> Reached(items, k)) && (s.written[k] ==> s.rom[k] == image[k])
  }

  lemma ReachedStep(items: seq<Item>, item: Item, k: nat)
    ensures Reached(items + [item], k) <==> Reached(items, k) || Reaches(item, k)
  {
    var all := items + [item];
    if Reached(items, k) {
      var i :| 0 <= i < |items| && Reaches(items[i], k);
      assert all[i] == items[i];
    }
    if Reaches(item, k) {
      assert all[|items|] == item;
    }
  }

  lemma PutDescribes(s: State, items: seq<Item>, item: Item, image: seq<byte>, k: nat)
    requires Sized(s) && |image| == ROM_SIZE && k < ROM_SIZE && DescribedAt(s, items, image, k)
    requires item.Data? && Agrees(item, image)
    ensures DescribedAt(if item.data == [] then s else Put(s, item.at, item.data), items + [item], image, k)
  {
    ReachedStep(items, item, k);
    if item.at <= k < item.at + |item.data| {
      assert item.data[k - item.at] == image[item.at..item.at + |item.data|][k - item.at];
    }
  }

  lemma DescribingStep(s: State, items: seq<Item>, item: Item, image: seq<byte>)
    requires Describing(s, items, image) && Agrees(item, image)
    ensures Step(s, LineOf(item)).Done? && Describing(Step(s, LineOf(item)).value, items + [item], image)
  {
    LineApplies(s, item, image);
    var t := Step(s, LineOf(item)).value;
    forall k: nat | k < ROM_SIZE ensures DescribedAt(t, items + [item], image, k) {
      assert DescribedAt(s, items, image, k);
      if item.Data? {
        PutDescribes(s, items, item, image, k);
      } else {
        ReachedStep(items, item, k);
      }
    }
  }

  lemma AfterNext(lines: seq<string>, line: string)
    requires After(lines).Done?
    ensures After(lines + [line]) == Step(After(lines).value, line)
  {
    assert (lines + [line])[..|lines + [line]| - 1] == lines;
  }

  lemma TextNext(items: seq<Item>, item: Item, image: seq<byte>)
    requires Describes(items, image) && Agrees(item, image)
    ensures Describes(items + [item], image)
    ensures TextOf(items + [item], image) == TextOf(items, image) + LineOf(item) + "\n"
  {
    assert (items + [item])[..|items + [item]| - 1] == items;
  }

  /** The lines are what the text holds, and the reader gets through them. */
  predicate ReadsTo(items: seq<Item>, image: seq<byte>, lines: seq<string>)
    requires Describes(items, image)
  {
    && Lines(TextOf(items, image)) == lines + [[]]
    && After(lines).Done? && Describing(After(lines).value, items, image)
  }

  lemma ItemRead(items: seq<Item>, item: Item, image: seq<byte>, lines: seq<string>)
    requires Describes(items, image) && Agrees(item, image) && ReadsTo(items, image, lines)
    ensures Describes(items + [item], image) && ReadsTo(items + [item], image, lines + [LineOf(item)])
  {
    TextNext(items, item, image);
    LinesNext(TextOf(items, image), LineOf(item), lines);
    DescribingStep(After(lines).value, items, item, image);
    AfterNext(lines, LineOf(item));
  }

  lemma {:induction false} ItemsRead(items: seq<Item>, image: seq<byte>) returns (lines: seq<string>)
    requires Describes(items, image)
    ensures ReadsTo(items, image, lines)
    decreases |items|
  {
    if items == [] {
      lines := [];
    } else {
      var front, last := items[..|items| - 1], items[|items| - 1];
      var before := ItemsRead(front, image);
      assert Agrees(last, image) && front + [last] == items;
      ItemRead(front, last, image, before);
      lines := before + [LineOf(last)];
    }
  }

  /**
   * Data records with valid checksums that agree with an image, in any order and split, read back as
   * exactly that image if there is an end record and they reach every byte; otherwise the file is
   * refused.
   */
  lemma ReadsBack(items: seq<Item>, image: seq<byte>)
    requires Describes(items, image)
    ensures Parse(TextOf(items, image))
         == if End in items && (forall k: nat :: k < ROM_SIZE ==> Reached(items, k)) then Done(image) else Rejected
  {
    var before := ItemsRead(items, image);
    var lines := Lines(TextOf(items, image));
    assert lines[..|lines| - 1] == before && lines[|lines| - 1] == [];
    AfterNext(before, []);
    BlankLine();
    var s := After(before).value;
    assert before + [[]] == lines && After(lines) == Done(s);
    DescribedFinish(s, items, image);
  }

  lemma BlankLine()
    ensures Decode([]) == Nothing
  {
  }

  lemma DescribedFinish(s: State, items: seq<Item>, image: seq<byte>)
    requires Describing(s, items, image)
    ensures Finish(Done(s))
         == if End in items && (forall k: nat :: k < ROM_SIZE ==> Reached(items, k)) then Done(image) else Rejected
  {
    forall k: nat | k < ROM_SIZE
      ensures s.written[k] <==> Reached(items, k)
      ensures s.written[k] ==> s.rom[k] == image[k]
    {
      assert DescribedAt(s, items, image, k);
    }
    if Complete(s) {
      assert s.rom == image;
    } else if s.eof {
      var k: nat :| k < |s.written| && !s.written[k];
      assert !Reached(items, k);
    }
  }

  // ----- What is refused, and what is ignored, wherever it stands in a text

  predicate AllSpace(s: string) {
    forall i :: 0 <= i < |s| ==> Space(s[i])
  }

  /** A line that spells out these bytes, with or without white space around it. */
  function RecordLine(left: string, record: seq<byte>, right: string): string {
    left + ([':'] + Hex(record)) + right
  }

  lemma {:induction false} StripsLeft(left: string, s: string)
    requires AllSpace(left) && s != [] && !Space(s[0])
    ensures StripLeft(left + s) == s
  {
    if left == [] {
      assert left + s == s;
    } else {
      assert (left + s)[1..] == left[1..] + s;
      StripsLeft(left[1..], s);
    }
  }

  lemma {:induction false} StripsRight(s: string, right: string)
    requires AllSpace(right) && s != [] && !Space(s[|s| - 1])
    ensures StripRight(s + right) == s
    decreases |right|
  {
    if right == [] {
      assert s + right == s;
    } else {
      var front := right[..|right| - 1];
      assert (s + right)[..|s + right| - 1] == s + front;
      StripsRight(s, front);
    }
  }

  lemma Strips(left: string, s: string, right: string)
    requires AllSpace(left) && AllSpace(right) && s != [] && !Space(s[0]) && !Space(s[|s| - 1])
    ensures Strip(left + s + right) == s
  {
    assert left + s + right == left + (s + right);
    StripsLeft(left, s + right);
    StripsRight(s, right);
  }

  /** What a reader makes of the bytes of a record. */
  function Judged(record: seq<byte>): Content {
    if Sum(record) % 256 != 0 || record == [] || |record| != record[0] as int + 5 then Bad else Content(record)
  }

  lemma DecodeStripped(raw: string, line: string, record: seq<byte>)
    requires Strip(raw) == line && line != [] && line[0] == ':' && FromHex(line[1..]) == Done(record)
    ensures Decode(raw) == Judged(record)
  {
  }

  lemma HexEnds(record: seq<byte>)
    ensures var line := [':'] + Hex(record); line != [] && line[0] == ':' && !Space(line[|line| - 1])
  {
    if record != [] {
      assert ([':'] + Hex(record))[2 * |record|] == Hex(record)[2 * |record| - 1];
    }
  }

  lemma LineDecodesTo(left: string, record: seq<byte>, right: string)
    requires AllSpace(left) && AllSpace(right)
    ensures Decode(RecordLine(left, record, right)) == Judged(record)
  {
    var line := [':'] + Hex(record);
    HexEnds(record);
    Strips(left, line, right);
    HexRoundTrip(record);
    assert line[1..] == Hex(record);
    DecodeStripped(RecordLine(left, record, right), line, record);
  }

  lemma {:induction false} RejectedStays(lines: seq<string>, n: nat)
    requires n <= |lines| && After(lines[..n]).Rejected?
    ensures After(lines).Rejected?
    decreases |lines|
  {
    if n < |lines| {
      var front := lines[..|lines| - 1];
      assert front[..n] == lines[..n];
      RejectedStays(front, n);
    } else {
      assert lines[..n] == lines;
    }
  }

  /** A line that stops every reader makes the whole text refused. */
  lemma StoppedText(text: string, i: nat)
    requires i < |Lines(text)| && forall s :: Sized(s) ==> Step(s, Lines(text)[i]).Rejected?
    ensures Parse(text).Rejected?
  {
    AfterStep(Lines(text), i);
    RejectedStays(Lines(text), i + 1);
  }

  /** A record that may not stand: its sum, its length, or the length of an extended address is wrong. */
  predicate Faulty(record: seq<byte>) {
    || Sum(record) % 256 != 0
    || |record| < 5 || |record| != record[0] as int + 5
    || (record[3] == 4 && record[0] != 2)
  }

  /** A text with such a record on any of its lines is refused. */
  lemma FaultyRecordRefused(text: string, i: nat, left: string, record: seq<byte>, right: string)
    requires i < |Lines(text)| && AllSpace(left) && AllSpace(right) && Lines(text)[i] == RecordLine(left, record, right)
    requires Faulty(record)
    ensures Parse(text).Rejected?
  {
    LineDecodesTo(left, record, right);
    StoppedText(text, i);
  }

  /** One altered byte of a record, wherever it is, makes the text refused. */
  lemma AlteredByteRefused(text: string, i: nat, left: string, record: seq<byte>, right: string, j: nat, v: byte)
    requires Sum(record) % 256 == 0 && j < |record| && v != record[j]
    requires i < |Lines(text)| && AllSpace(left) && AllSpace(right)
    requires Lines(text)[i] == RecordLine(left, record[j := v], right)
    ensures Parse(text).Rejected?
  {
    SumUpdate(record, j, v);
    SumMoves(Sum(record), record[j], v);
    FaultyRecordRefused(text, i, left, record[j := v], right);
  }

  lemma SumMoves(sum: int, before: byte, after: byte)
    requires sum % 256 == 0 && before != after
    ensures (sum - before + after) % 256 != 0
  {
    var q := sum / 256;
    assert sum == 256 * q;
    if after > before {
      assert (sum - before + after) % 256 == after as int - before as int;
    } else {
      assert sum - before + after == 256 * (q - 1) + (256 + after - before);
    }
  }

  /** A line whose first character other than white space is no colon makes the text refused. */
  lemma NoColonRefused(text: string, i: nat, left: string, rest: string)
    requires i < |Lines(text)| && Lines(text)[i] == left + rest && AllSpace(left)
    requires rest != [] && !Space(rest[0]) && rest[0] != ':'
    ensures Parse(text).Rejected?
  {
    StripsLeft(left, rest);
    RightKeepsFirst(rest);
    StoppedText(text, i);
  }

  lemma {:induction false} RightKeepsFirst(s: string)
    requires s != [] && !Space(s[0])
    ensures StripRight(s) != [] && StripRight(s)[0] == s[0]
  {
    if Space(s[|s| - 1]) {
      RightKeepsFirst(s[..|s| - 1]);
    }
  }

  /** A character that is neither a digit nor white space, anywhere behind the colon, makes the text refused. */
  lemma BadDigitRefused(text: string, i: nat, front: seq<byte>, c: char, rest: string)
    requires i < |Lines(text)| && Lines(text)[i] == [':'] + (Hex(front) + ([c] + rest))
    requires Digit(c) == 16 && !Blank(c) && !Space(c)
    ensures Parse(text).Rejected?
  {
    var tail := [c] + rest;
    var line := [':'] + (Hex(front) + tail);
    BadDigit(front, tail);
    var at := 1 + |Hex(front)|;
    assert line[at] == c;
    StripsUpTo(line, at);
    var kept := StripRight(line);
    assert kept[1..] == Hex(front) + ([c] + kept[at + 1..]);
    BadDigit(front, [c] + kept[at + 1..]);
    StoppedText(text, i);
  }

  lemma {:induction false} BadDigit(front: seq<byte>, tail: string)
    requires tail != [] && Digit(tail[0]) == 16 && !Blank(tail[0])
    ensures FromHex(Hex(front) + tail).Rejected?
  {
    if front == [] {
      assert Hex(front) + tail == tail;
    } else {
      var s := Hex(front) + tail;
      assert s[2..] == Hex(front[1..]) + tail;
      BadDigit(front[1..], tail);
    }
  }

  lemma {:induction false} StripsUpTo(s: string, at: nat)
    requires at < |s| && !Space(s[at])
    ensures StripRight(s) <= s && at < |StripRight(s)|
  {
    if Space(s[|s| - 1]) {
      StripsUpTo(s[..|s| - 1], at);
    }
  }

  /** A data record that reaches beyond the ROM makes the text refused, whatever extended address is in force. */
  lemma DataOutsideRefused(text: string, i: nat, left: string, record: seq<byte>, right: string)
    requires i < |Lines(text)| && AllSpace(left) && AllSpace(right) && Lines(text)[i] == RecordLine(left, record, right)
    requires |record| > 5 && record[3] == 0
    requires (record[1] as nat) * 256 + record[2] as nat + record[0] as nat > ROM_SIZE
    ensures Parse(text).Rejected?
  {
    LineDecodesTo(left, record, right);
    assert FromBe16(record[1..3]) == record[1] as int * 256 + record[2] as int;
    StoppedText(text, i);
  }

  /** Line `k` spells out an extended address. */
  predicate Extends(lines: seq<string>, k: nat)
    requires k < |lines|
  {
    Decode(lines[k]).Content? && Decode(lines[k]).record[3] == 4
  }

  lemma {:induction false} UpperStays(lines: seq<string>, from: nat, n: nat)
    requires from <= n <= |lines| && forall k :: from <= k < n ==> !Extends(lines, k)
    requires After(lines[..n]).Done?
    ensures After(lines[..from]).Done? && After(lines[..n]).value.upper == After(lines[..from]).value.upper
    decreases n
  {
    if from < n {
      AfterStep(lines, n - 1);
      assert !Extends(lines, n - 1);
      UpperStays(lines, from, n - 1);
    }
  }

  /**
   * An extended address other than zero moves the data records up to the next such record out of the
   * ROM: a text in which one follows is refused.
   */
  lemma ExtendedAddressRefused(text: string, i: nat, address: seq<byte>, j: nat, data: seq<byte>)
    requires i < j < |Lines(text)| && Lines(text)[i] == RecordLine([], address, [])
    requires Lines(text)[j] == RecordLine([], data, [])
    requires |address| == 7 && !Faulty(address) && address[3] == 4 && (address[4] > 0 || address[5] > 0)
    requires |data| > 5 && !Faulty(data) && data[3] == 0
    requires forall k :: i < k < j ==> !Extends(Lines(text), k)
    ensures Parse(text).Rejected?
  {
    SoundDecodes(Lines(text)[i], address);
    SoundDecodes(Lines(text)[j], data);
    FaultyLength(address);
    MovedOut(Lines(text), i, address, j, data);
  }

  lemma PlainLine(record: seq<byte>)
    ensures RecordLine([], record, []) == [':'] + Hex(record)
  {
  }

  lemma FaultyLength(record: seq<byte>)
    requires |record| == 7 && !Faulty(record)
    ensures record[0] == 2
  {
  }

  lemma SoundDecodes(line: string, record: seq<byte>)
    requires line == RecordLine([], record, []) && !Faulty(record)
    ensures Decode(line) == Content(record)
  {
    LineDecodesTo([], record, []);
  }

  lemma MovedOut(lines: seq<string>, i: nat, address: seq<byte>, j: nat, data: seq<byte>)
    requires i < j < |lines| && Decode(lines[i]) == Content(address) && Decode(lines[j]) == Content(data)
    requires |address| == 7 && address[0] == 2 && address[3] == 4 && (address[4] > 0 || address[5] > 0)
    requires |data| > 5 && data[3] == 0 && forall k :: i < k < j ==> !Extends(lines, k)
    ensures After(lines).Rejected?
  {
    AfterStep(lines, i);
    AfterStep(lines, j);
    if After(lines[..j]).Done? {
      UpperStays(lines, i + 1, j);
      AddressApplies(After(lines[..i]).value, address);
      DataMovedOut(After(lines[..j]).value, data);
    }
    RejectedStays(lines, j + 1);
  }

  lemma AddressApplies(s: State, address: seq<byte>)
    requires Sized(s) && |address| == 7 && address[0] == 2 && address[3] == 4 && (address[4] > 0 || address[5] > 0)
    ensures Apply(s, address).Done? && Apply(s, address).value.upper >= 0x1_0000
  {
    assert FromBe16(address[4..6]) == address[4] as int * 256 + address[5] as int;
  }

  lemma DataMovedOut(s: State, data: seq<byte>)
    requires Sized(s) && |data| > 5 && |data| == data[0] as int + 5 && data[3] == 0 && s.upper >= 0x1_0000
    ensures Apply(s, data).Rejected?
  {
  }

  /** Text on both sides of an end of line has its lines one after the other. */
  lemma {:induction false} LinesJoin(before: string, after: string)
    ensures Lines(before + "\n" + after) == Lines(before) + Lines(after)
    decreases |after|
  {
    var first := Lines(before);
    if after == [] {
      assert before + "\n" + after == before + ['\n'];
      assert first == first[..|first| - 1] + [first[|first| - 1]];
      LinesStep(before, '\n', first[..|first| - 1], first[|first| - 1]);
    } else {
      var front, c := after[..|after| - 1], after[|after| - 1];
      LinesJoin(before, front);
      assert after == front + [c] && before + "\n" + after == before + "\n" + front + [c];
      LineAdded(before + "\n" + front, c, first, Lines(front), before + "\n" + after);
      LineAdded(front, c, [], Lines(front), after);
      assert [] + Lines(front) == Lines(front);
    }
  }

  /** The lines with one more character. */
  function Added(lines: seq<string>, c: char): seq<string>
    requires lines != []
  {
    if EndsLine(c) then lines + [[]] else lines[..|lines| - 1] + [lines[|lines| - 1] + [c]]
  }

  lemma LineAdded(text: string, c: char, first: seq<string>, rest: seq<string>, next: string)
    requires rest != [] && Lines(text) == first + rest && next == text + [c]
    ensures Lines(next) == first + Added(rest, c)
  {
    var before, last := first + rest[..|rest| - 1], rest[|rest| - 1];
    assert first + rest == before + [last];
    LinesStep(text, c, before, last);
    RestAdded(first, rest, c);
  }

  lemma RestAdded(first: seq<string>, rest: seq<string>, c: char)
    requires rest != []
    ensures var before, last := first + rest[..|rest| - 1], rest[|rest| - 1];
            first + Added(rest, c) == if EndsLine(c) then before + [last] + [[]] else before + [last + [c]]
  {
    assert rest == rest[..|rest| - 1] + [rest[|rest| - 1]];
  }

  /** A line that changes no reader's state. */
  ghost predicate Idle(line: string) {
    forall s :: Sized(s) ==> Step(s, line) == Done(s)
  }

  lemma SameNext(a: seq<string>, b: seq<string>, line: string)
    requires After(a) == After(b)
    ensures After(a + [line]) == After(b + [line])
  {
    assert (a + [line])[..|a|] == a && (b + [line])[..|b|] == b;
  }

  lemma IdleLast(lines: seq<string>, line: string)
    requires Idle(line)
    ensures After(lines + [line]) == After(lines)
  {
    assert (lines + [line])[..|lines|] == lines;
  }

  lemma {:induction false} NothingHappens(before: seq<string>, line: string, after: seq<string>)
    requires Idle(line)
    ensures After(before + [line] + after) == After(before + after)
    decreases |after|
  {
    if after == [] {
      assert before + [line] + after == before + [line] && before + after == before;
      IdleLast(before, line);
    } else {
      var front, last := after[..|after| - 1], after[|after| - 1];
      NothingHappens(before, line, front);
      SameNext(before + [line] + front, before + front, last);
      assert before + [line] + after == before + [line] + front + [last];
      assert before + after == before + front + [last];
    }
  }

  /** A sound record of any other type than 0, 1 and 4 changes nothing, wherever it stands. */
  lemma OtherTypesIgnored(before: string, left: string, record: seq<byte>, right: string, after: string)
    requires AllSpace(left) && AllSpace(right)
    requires Lines(RecordLine(left, record, right)) == [RecordLine(left, record, right)]
    requires !Faulty(record) && record[3] !in {0, 1, 4}
    ensures Parse(before + "\n" + RecordLine(left, record, right) + "\n" + after) == Parse(before + "\n" + after)
  {
    var line := RecordLine(left, record, right);
    LineDecodesTo(left, record, right);
    LinesJoin(before, line);
    LinesJoin(before + "\n" + line, after);
    LinesJoin(before, after);
    assert Lines(before) + [line] + Lines(after) == Lines(before + "\n" + line + "\n" + after);
    NothingHappens(Lines(before), line, Lines(after));
  }

  // ----- The program

  /** Marks and stores the bytes of one data record, one by one. */
  method StoreData(rom: array<byte>, written: array<bool>, absolute: nat, data: seq<byte>) returns (ok: bool)
    requires rom.Length == ROM_SIZE && written.Length == ROM_SIZE
    modifies rom, written
    ensures ok == (data == [] || absolute + |data| <= ROM_SIZE)
    ensures ok ==> forall k :: 0 <= k < ROM_SIZE ==>
              && rom[k] == (if absolute <= k < absolute + |data| then data[k - absolute] else old(rom[k]))
              && written[k] == (absolute <= k < absolute + |data| || old(written[k]))
  {
    for index := 0 to |data|
      invariant index == 0 || absolute + index <= ROM_SIZE
      invariant forall k :: 0 <= k < ROM_SIZE ==>
                  && rom[k] == (if absolute <= k < absolute + index then data[k - absolute] else old(rom[k]))
                  && written[k] == (absolute <= k < absolute + index || old(written[k]))
    {
      var target := absolute + index;
      if target >= rom.Length {
        return false;
      }
      rom[target] := data[index];
      written[target] := true;
    }
    ok := true;
  }

  class Reader {
    const rom: array<byte>
    const written: array<bool>
    var upper: nat
    var eof: bool

    ghost predicate Valid() {
      rom.Length == ROM_SIZE && written.Length == ROM_SIZE
    }

    ghost function View(): State
      reads this, rom, written
    {
      State(rom[..], written[..], upper, eof)
    }

    constructor ()
      ensures Valid() && View() == Start() && fresh(rom) && fresh(written)
    {
      rom := new byte[ROM_SIZE](_ => 0xFF);
      written := new bool[ROM_SIZE](_ => false);
      upper, eof := 0, false;
      new;
      assert rom[..] == Start().rom && written[..] == Start().written;
    }

    method ApplyRecord(record: seq<byte>) returns (ok: bool)
      requires Valid() && |record| >= 5 && |record| == record[0] as int + 5
      modifies this, rom, written
      ensures ok <==> Apply(old(View()), record).Done?
      ensures ok ==> Apply(old(View()), record) == Done(View())
    {
      var count, address, kind := record[0] as nat, FromBe16(record[1..3]), record[3];
      ok := true;
      if kind == 0 {
        ghost var before := View();
        ok := StoreData(rom, written, upper + address, record[4..4 + count]);
        if ok && count > 0 {
          ghost var after := Put(before, upper + address, record[4..4 + count]);
          assert rom[..] == after.rom && written[..] == after.written;
        } else if ok {
          assert rom[..] == before.rom && written[..] == before.written;
        }
      } else if kind == 1 {
        eof := true;
      } else if kind == 4 {
        if count != 2 {
          return false;
        }
        upper := FromBe16(record[4..6]) * 0x1_0000;
      }
    }

    method ReadLine(raw: string) returns (ok: bool)
      requires Valid()
      modifies this, rom, written
      ensures ok <==> Step(old(View()), raw).Done?
      ensures ok ==> Step(old(View()), raw) == Done(View())
    {
      var line := Strip(raw);
      if line == [] {
        return true;
      }
      if line[0] != ':' {
        return false;
      }
      var decoded := FromHex(line[1..]);
      if decoded.Rejected? {
        return false;
      }
      var record := decoded.value;
      if Sum(record) % 256 != 0 || record == [] || |record| != record[0] as int + 5 {
        return false;
      }
      ok := ApplyRecord(record);
    }
  }

  method AllWritten(written: array<bool>) returns (all: bool)
    ensures all <==> forall k :: 0 <= k < written.Length ==> written[k]
  {
    for k := 0 to written.Length
      invariant forall j :: 0 <= j < k ==> written[j]
    {
      if !written[k] {
        return false;
      }
    }
    all := true;
  }

  method ParseIntelHex(text: string) returns (result: Outcome<seq<byte>>)
    ensures result == Parse(text)
  {
    var reader := new Reader();
    var lines := Lines(text);
    assert lines[..|lines|] == lines;
    for n := 0 to |lines|
      invariant reader.Valid() && fresh(reader) && fresh(reader.rom) && fresh(reader.written)
      invariant After(lines[..n]) == Done(reader.View())
    {
      AfterStep(lines, n);
      var ok := reader.ReadLine(lines[n]);
      if !ok {
        StaysRejected(lines, n + 1);
        return Rejected;
      }
    }
    var all := AllWritten(reader.written);
    if !reader.eof || !all {
      return Rejected;
    }
    result := Done(reader.rom[..]);
  }

  lemma {:induction false} StaysRejected(lines: seq<string>, n: nat)
    requires n <= |lines| && After(lines[..n]).Rejected?
    ensures After(lines).Rejected?
    decreases |lines| - n
  {
    if n < |lines| {
      AfterStep(lines, n);
      StaysRejected(lines, n + 1);
    } else {
      assert lines[..n] == lines;
    }
  }
}
