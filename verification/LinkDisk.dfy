/** The microSD filesystem as the link firmware uses it: names to bytes, and calls that may fail. */
module LinkDisk {
  import opened Bytes

  /** A user file below the drive root, or one of the two working files outside it. */
  datatype Path = Drive(name: string) | Temp | Backup
  datatype Node = File(data: seq<byte>) | Directory

  type Disk = map<Path, Node>

  datatype Code = Ok | NoFile | Exist | Denied | InvalidObject | DiskErr | IntErr | NotReady | WriteProtected

  /** Codes that a failing card can produce; none of them hides the existence of a file. */
  type Failure = c: Code | c in {DiskErr, IntErr, NotReady, WriteProtected} witness DiskErr

  /** How a call on the card goes: as it should, failing without effect, or failing after its effect. */
  datatype Fault = NoFault | FailsBefore(code: Failure) | FailsAfter(code: Failure)

  /** How a write goes: all of it, short without an error, or an error after some bytes. */
  datatype WriteFault = Full | Short(count: nat) | Broken(count: nat, code: Failure)

  function FaultCode(f: Fault, otherwise: Code): Code {
    match f
    case NoFault => otherwise
    case FailsBefore(code) => code
    case FailsAfter(code) => code
  }

  function Stat(d: Disk, p: Path, f: Fault): Code {
    FaultCode(f, if p in d then Ok else NoFile)
  }

  function Unlink(d: Disk, p: Path, f: Fault): (Disk, Code) {
    if f.FailsBefore? then (d, f.code)
    else (d - {p}, FaultCode(f, if p in d then Ok else NoFile))
  }

  /** Renaming refuses an existing destination. */
  function Rename(d: Disk, from: Path, to: Path, f: Fault): (Disk, Code) {
    if f.FailsBefore? then (d, f.code)
    else if from !in d then (d, FaultCode(f, NoFile))
    else if to in d then (d, FaultCode(f, Exist))
    else ((d - {from})[to := d[from]], FaultCode(f, Ok))
  }

  function OpenExisting(d: Disk, p: Path, f: Fault): Code {
    FaultCode(f, if p in d && d[p].File? then Ok else NoFile)
  }

  /** Opening with "create always" truncates an existing file. */
  function Create(d: Disk, p: Path, f: Fault): (Disk, Code) {
    if f.FailsBefore? then (d, f.code)
    else if p in d && d[p].Directory? then (d, FaultCode(f, Denied))
    else (d[p := File([])], FaultCode(f, Ok))
  }

  /** Overwriting from an offset inside the file, growing it at the end if need be. */
  function WriteAt(data: seq<byte>, offset: nat, block: seq<byte>): seq<byte>
    requires offset <= |data|
  {
    if offset + |block| <= |data| then data[..offset] + block + data[offset + |block|..] else data[..offset] + block
  }

  function WriteFile(d: Disk, p: Path, offset: nat, block: seq<byte>): Disk {
    if p in d && d[p].File? && offset <= |d[p].data| then d[p := File(WriteAt(d[p].data, offset, block))] else d
  }

  function Content(d: Disk, p: Path): seq<byte> {
    if p in d && d[p].File? then d[p].data else []
  }

  function Min(a: nat, b: nat): nat {
    if a < b then a else b
  }

  /** How many bytes reach the file, and the code of the call. */
  function WriteCount(w: WriteFault, length: nat): (n: nat)
    ensures n <= length
  {
    match w
    case Full => length
    case Short(count) => Min(count, length)
    case Broken(count, _) => Min(count, length)
  }

  function WriteCode(w: WriteFault): Code {
    if w.Broken? then w.code else Ok
  }
}
