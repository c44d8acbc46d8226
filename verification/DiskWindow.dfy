/**
Writing a disk image through partition windows.

`PartitionView` gives a stretch of the disk file the look of a device of its own;
`Device` below is that device, with no offsets and no machine arithmetic, and
every operation of the view is proved to be the device's.  How many bytes the
operating system moves in one call, and whether the call fails, is an argument of
each operation, so the statements hold for every choice it makes.
*/
module DiskWindow {
  import opened Wrappers

  const I64_MAX: int := 0x7fff_ffff_ffff_ffff
  const U64_MOD: int := 0x1_0000_0000_0000_0000

  type u64 = x: int | 0 <= x < U64_MOD
  type i64 = x: int | -I64_MAX - 1 <= x <= I64_MAX

  /** `x as i64`, and the result of a wrapping `i64` addition. */
  function WrapI64(x: int): i64 {
    var m := x % U64_MOD;
    if m <= I64_MAX then m else m - U64_MOD
  }

  lemma WrapMeaning(x: int)
    requires -I64_MAX - 1 <= x < U64_MOD
    ensures WrapI64(x) == if x <= I64_MAX then x else x - U64_MOD
  {
  }

  /** A wrapping `u64` addition. */
  function AddU64(a: u64, b: u64): u64 {
    (a + b) % U64_MOD
  }

  datatype Os = Fault | Moves(count: nat)

  datatype SeekFrom = Start(at: u64) | End(delta: i64) | Current(delta: i64)

  datatype Failure = OsFault | Full | BadSeek | EspFailed

  datatype Reply = Data(bytes: seq<byte>) | Wrote(count: nat) | At(pos: nat) | Failed(why: Failure)

  datatype Op = ReadOp(want: nat, os: Os) | WriteOp(buf: seq<byte>, os: Os) | SeekOp(from: SeekFrom)

  /** A call that can move up to `max > 0` bytes moves between one and `max` of them. */
  function Moved(max: nat, count: nat): (n: nat)
    requires 0 < max
    ensures 0 < n <= max
  {
    if count == 0 then 1 else Min(count, max)
  }

  function Splice(s: seq<byte>, at: nat, part: seq<byte>): (r: seq<byte>)
    requires at + |part| <= |s|
    ensures |r| == |s|
    ensures forall k :: 0 <= k < |s| ==> r[k] == if at <= k < at + |part| then part[k - at] else s[k]
  {
    s[..at] + part + s[at + |part|..]
  }

  // ------------------------------------------------------- the reference device

  /** A standalone device of fixed length. */
  datatype Device = Device(bytes: seq<byte>, pos: nat) {
    function Remaining(): nat {
      if pos <= |bytes| then |bytes| - pos else 0
    }

    function Read(want: nat, os: Os): (Device, Reply) {
      var max := Min(Remaining(), want);
      if max == 0 then (this, Data([]))
      else if os.Fault? then (this, Failed(OsFault))
      else
        var n := Moved(max, os.count);
        (this.(pos := pos + n), Data(bytes[pos..pos + n]))
    }

    function Write(buf: seq<byte>, os: Os): (Device, Reply) {
      var max := Min(Remaining(), |buf|);
      if max == 0 then (this, Failed(Full))
      else if os.Fault? then (this, Failed(OsFault))
      else
        var n := Moved(max, os.count);
        (Device(Splice(bytes, pos, buf[..n]), pos + n), Wrote(n))
    }

    /** A position is valid when it is a non-negative file offset. */
    function Seek(from: SeekFrom): (Device, Reply) {
      var target := match from
        case Start(at) => at
        case End(delta) => |bytes| + delta
        case Current(delta) => pos + delta;
      if 0 <= target <= I64_MAX then (this.(pos := target), At(target)) else (this, Failed(BadSeek))
    }

    function Step(op: Op): (Device, Reply) {
      match op
      case ReadOp(want, os) => Read(want, os)
      case WriteOp(buf, os) => Write(buf, os)
      case SeekOp(from) => Seek(from)
    }

    function Run(ops: seq<Op>): (Device, seq<Reply>)
      decreases |ops|
    {
      if ops == [] then (this, [])
      else
        var (d, r) := Step(ops[0]);
        var (e, rs) := d.Run(ops[1..]);
        (e, [r] + rs)
    }
  }

  /** Running one more operation at the end. */
  lemma {:induction false} RunSnoc(d: Device, ops: seq<Op>, op: Op)
    ensures d.Run(ops + [op]).0 == d.Run(ops).0.Step(op).0
    ensures d.Run(ops + [op]).1 == d.Run(ops).1 + [d.Run(ops).0.Step(op).1]
    decreases |ops|
  {
    if ops == [] {
      assert ops + [op] == [op] && [op][1..] == [];
    } else {
      assert (ops + [op])[1..] == ops[1..] + [op];
      RunSnoc(d.Step(ops[0]).0, ops[1..], op);
    }
  }

  // ------------------------------------------------------------------- the view

  /** The disk image file, shared by the views of its partitions. */
  class DiskFile {
    const mayFault: bool  // whether calls on the file may fail
    var bytes: seq<byte>

    constructor (size: nat, mayFault: bool)
      ensures bytes == Zeros(size) && this.mayFault == mayFault
    {
      this.mayFault, this.bytes := mayFault, Zeros(size);
    }
  }

  function Zeros(n: nat): seq<byte> {
    seq(n, _ => 0)
  }

  /** Every byte of `now` outside the window is as in `was`. */
  ghost predicate OnlyWindow(was: seq<byte>, now: seq<byte>, start: nat, length: nat)
  {
    && |now| == |was|
    && start + length <= |was|
    && now[..start] == was[..start]
    && now[start + length..] == was[start + length..]
  }

  lemma SpliceInWindow(file: seq<byte>, start: nat, length: nat, pos: nat, part: seq<byte>)
    requires start + length <= |file| && pos + |part| <= length
    ensures var r := Splice(file, start + pos, part);
      && r[start..start + length] == Splice(file[start..start + length], pos, part)
      && OnlyWindow(file, r, start, length)
  {
  }

  lemma SliceInWindow(file: seq<byte>, start: nat, length: nat, pos: nat, n: nat)
    requires start + length <= |file| && pos + n <= length
    ensures file[start + pos..start + pos + n] == file[start..start + length][pos..pos + n]
  {
    var direct, nested := file[start + pos..start + pos + n], file[start..start + length][pos..pos + n];
    assert |direct| == |nested| && forall k :: 0 <= k < n ==> direct[k] == nested[k];
  }

  class PartitionView {
    const file: DiskFile
    const start: u64
    const length: u64
    var pos: u64

    /** The window lies in the file, and file offsets fit a signed 64-bit integer. */
    ghost predicate Valid()
      reads this, file
    {
      start + length <= |file.bytes| <= I64_MAX && pos <= I64_MAX
    }

    /** The device this view stands for. */
    ghost function Contents(): Device
      reads this, file
      requires Valid()
    {
      Device(file.bytes[start..start + length], pos)
    }

    constructor (file: DiskFile, start: u64, length: u64)
      requires start + length <= |file.bytes| <= I64_MAX
      ensures Valid() && this.file == file && this.start == start && this.length == length
      ensures Contents() == Device(file.bytes[start..start + length], 0)
    {
      this.file, this.start, this.length, this.pos := file, start, length, 0;
    }

    function Remaining(): nat
      reads this
    {
      if pos <= length then length - pos else 0
    }

    method Read(want: nat, os: Os) returns (r: Reply)
      requires Valid()
      modifies this`pos
      ensures Valid() && (Contents(), r) == old(Contents()).Read(want, os)
      ensures r.Data? && r.bytes != [] ==>
        && |r.bytes| <= want && start + old(pos) + |r.bytes| <= start + length
        && r.bytes == file.bytes[start + old(pos)..start + old(pos) + |r.bytes|]
      ensures pos == old(pos) + if r.Data? then |r.bytes| else 0
      ensures r == Data([]) <==> want == 0 || length <= old(pos)
      ensures !r.Data? ==> r == Failed(OsFault) && os.Fault?
    {
      var max := Min(Remaining(), want);
      if max == 0 { return Data([]); }
      if os.Fault? { return Failed(OsFault); }
      var at := AddU64(start, pos);
      var n := Moved(max, os.count);
      r := Data(file.bytes[at..at + n]);
      SliceInWindow(file.bytes, start, length, pos, n);
      pos := pos + n;
    }

    method Write(buf: seq<byte>, os: Os) returns (r: Reply)
      requires Valid()
      modifies this`pos, file
      ensures Valid() && (Contents(), r) == old(Contents()).Write(buf, os)
      ensures OnlyWindow(old(file.bytes), file.bytes, start, length)
      ensures r.Wrote? ==>
        && 0 < r.count <= |buf| && old(pos) + r.count <= length && pos == old(pos) + r.count
        && file.bytes == Splice(old(file.bytes), start + old(pos), buf[..r.count])
      ensures !r.Wrote? ==> file.bytes == old(file.bytes) && pos == old(pos)
      ensures r == Failed(Full) <==> buf == [] || length <= old(pos)
      ensures r.Wrote? || r == Failed(Full) || (r == Failed(OsFault) && os.Fault?)
    {
      var max := Min(Remaining(), |buf|);
      if max == 0 { return Failed(Full); }
      if os.Fault? { return Failed(OsFault); }
      var at := AddU64(start, pos);
      var n := Moved(max, os.count);
      SpliceInWindow(file.bytes, start, length, pos, buf[..n]);
      file.bytes := Splice(file.bytes, at, buf[..n]);
      pos := pos + n;
      r := Wrote(n);
    }

    method Seek(from: SeekFrom) returns (r: Reply)
      requires Valid()
      modifies this`pos
      ensures Valid() && (Contents(), r) == old(Contents()).Seek(from)
      ensures
        var target := match from
          case Start(at) => at
          case End(delta) => length + delta
          case Current(delta) => old(pos) + delta;
        if 0 <= target <= 0x7fff_ffff_ffff_ffff then r == At(target) && pos == target
        else r == Failed(BadSeek) && pos == old(pos)
    {
      var newPos: i64;
      WrapMeaning(match from case Start(at) => at case End(delta) => length + delta case Current(delta) => pos + delta);
      assert WrapI64(length) == length && WrapI64(pos) == pos;
      match from {
        case Start(at) => newPos := WrapI64(at);
        case End(delta) => newPos := WrapI64(WrapI64(length) + delta);
        case Current(delta) => newPos := WrapI64(WrapI64(pos) + delta);
      }
      if newPos < 0 { return Failed(BadSeek); }
      pos := newPos;
      r := At(newPos);
    }

    /** `flush` hands nothing on, but may report a failure. */
    method Flush() returns (ok: bool)
      ensures !ok ==> file.mayFault
    {
      var fault: bool := *;
      ok := !(fault && file.mayFault);
    }

    /** Any sequence of operations through the view is that sequence on the device. */
    method RunOps(ops: seq<Op>) returns (replies: seq<Reply>)
      requires Valid()
      modifies this`pos, file
      ensures Valid() && (Contents(), replies) == old(Contents()).Run(ops)
      ensures OnlyWindow(old(file.bytes), file.bytes, start, length)
    {
      replies := [];
      for i := 0 to |ops|
        invariant Valid() && (Contents(), replies) == old(Contents()).Run(ops[..i])
        invariant OnlyWindow(old(file.bytes), file.bytes, start, length)
      {
        RunSnoc(old(Contents()), ops[..i], ops[i]);
        assert ops[..i] + [ops[i]] == ops[..i + 1];
        var r: Reply;
        match ops[i] {
          case ReadOp(want, os) => r := Read(want, os);
          case WriteOp(buf, os) => r := Write(buf, os);
          case SeekOp(from) => r := Seek(from);
        }
        replies := replies + [r];
      }
      assert ops[..|ops|] == ops;
    }
  }

  /** Write, seek back to where the write began, read as much: the same bytes come back. */
  method ReadBack(view: PartitionView, buf: seq<byte>, os: Os, count: nat) returns (w: Reply, r: Reply)
    requires view.Valid()
    modifies view`pos, view.file
    ensures view.Valid()
    ensures w.Wrote? ==>
      && r.Data? && 0 < |r.bytes| <= w.count <= |buf| && r.bytes == buf[..|r.bytes|]
      && (w.count <= count ==> r.bytes == buf[..w.count])
  {
    var at := view.pos;
    w := view.Write(buf, os);
    if !w.Wrote? { return w, w; }
    ghost var file := view.file.bytes;
    var s := view.Seek(Start(at));
    r := view.Read(w.count, Moves(count));
    ghost var from := view.start + at;
    assert forall k :: 0 <= k < |r.bytes| ==> r.bytes[k] == file[from + k] == buf[k];
  }

  // ------------------------------------------------------------- the high water

  /** Where each successful write of a run ended. */
  function WriteEnds(d: Device, ops: seq<Op>): set<nat>
    decreases |ops|
  {
    if ops == [] then {}
    else
      var (e, r) := d.Step(ops[0]);
      (if r.Wrote? then {d.pos + r.count} else {}) + WriteEnds(e, ops[1..])
  }

  /** `high` is the largest element of `ends`, or 0 when there is none. */
  ghost predicate IsMark(high: nat, ends: set<nat>) {
    && (forall e :: e in ends ==> e <= high)
    && (high in ends || (ends == {} && high == 0))
  }

  lemma {:induction false} WriteEndsSnoc(d: Device, ops: seq<Op>, op: Op)
    ensures var (e, r) := d.Run(ops).0.Step(op);
      WriteEnds(d, ops + [op]) ==
        WriteEnds(d, ops) + if r.Wrote? then {d.Run(ops).0.pos + r.count} else {}
    decreases |ops|
  {
    if ops == [] {
      assert ops + [op] == [op] && [op][1..] == [];
    } else {
      assert (ops + [op])[1..] == ops[1..] + [op];
      WriteEndsSnoc(d.Step(ops[0]).0, ops[1..], op);
    }
  }

  /** No write ends past the device, and what lies past every write is untouched. */
  lemma {:induction false} WritesStayBelowMark(d: Device, ops: seq<Op>, high: nat)
    requires forall e :: e in WriteEnds(d, ops) ==> e <= high
    ensures forall e :: e in WriteEnds(d, ops) ==> e <= |d.bytes|
    ensures |d.Run(ops).0.bytes| == |d.bytes|
    ensures forall k :: high <= k < |d.bytes| ==> d.Run(ops).0.bytes[k] == d.bytes[k]
    decreases |ops|
  {
    if ops != [] {
      var (e, r) := d.Step(ops[0]);
      assert r.Wrote? ==> d.pos + r.count in WriteEnds(d, ops);
      assert WriteEnds(e, ops[1..]) <= WriteEnds(d, ops);
      WritesStayBelowMark(e, ops[1..], high);
    }
  }

  /** Records the furthest offset written through a view. */
  class HighWater {
    const inner: PartitionView
    var pos: nat
    var high: nat

    ghost predicate Valid()
      reads this, inner, inner.file
    {
      inner.Valid()
    }

    /** The position this wrapper counts is the position of the device. */
    ghost predicate Synced()
      reads this, inner
    {
      pos == inner.pos
    }

    constructor (inner: PartitionView)
      requires inner.Valid()
      ensures Valid() && this.inner == inner && high == 0
      ensures Synced() <==> inner.pos == 0
    {
      this.inner, this.pos, this.high := inner, 0, 0;
    }

    method Write(buf: seq<byte>, os: Os) returns (r: Reply)
      requires Valid()
      modifies this, inner`pos, inner.file
      ensures Valid() && (inner.Contents(), r) == old(inner.Contents()).Write(buf, os)
      ensures old(Synced()) ==> Synced()
      ensures old(Synced()) && r.Wrote? ==>
                high == if old(high) <= old(inner.pos) + r.count then old(inner.pos) + r.count else old(high)
      ensures !r.Wrote? ==> high == old(high)
      ensures OnlyWindow(old(inner.file.bytes), inner.file.bytes, inner.start, inner.length)
    {
      r := inner.Write(buf, os);
      if r.Wrote? {
        pos := pos + r.count;
        high := if high <= pos then pos else high;
      }
    }

    method Seek(from: SeekFrom) returns (r: Reply)
      requires Valid()
      modifies this`pos, inner`pos
      ensures Valid() && (inner.Contents(), r) == old(inner.Contents()).Seek(from)
      ensures r.At? || old(Synced()) ==> Synced()
    {
      r := inner.Seek(from);
      if r.At? { pos := r.pos; }
    }

    /** After any run of writes and seeks the mark is the true end of what was written. */
    method RunOps(ops: seq<Op>) returns (replies: seq<Reply>)
      requires Valid() && Synced() && high == 0
      requires forall i :: 0 <= i < |ops| ==> !ops[i].ReadOp?
      modifies this, inner`pos, inner.file
      ensures Valid() && Synced()
      ensures (inner.Contents(), replies) == old(inner.Contents()).Run(ops)
      ensures IsMark(high, WriteEnds(old(inner.Contents()), ops))
      ensures high <= inner.length
      ensures OnlyWindow(old(inner.file.bytes), inner.file.bytes, inner.start, inner.length)
    {
      replies := [];
      for i := 0 to |ops|
        invariant Valid() && Synced()
        invariant (inner.Contents(), replies) == old(inner.Contents()).Run(ops[..i])
        invariant IsMark(high, WriteEnds(old(inner.Contents()), ops[..i]))
        invariant OnlyWindow(old(inner.file.bytes), inner.file.bytes, inner.start, inner.length)
      {
        RunSnoc(old(inner.Contents()), ops[..i], ops[i]);
        WriteEndsSnoc(old(inner.Contents()), ops[..i], ops[i]);
        assert ops[..i] + [ops[i]] == ops[..i + 1];
        var r: Reply;
        match ops[i] {
          case WriteOp(buf, os) => r := Write(buf, os);
          case SeekOp(from) => r := Seek(from);
        }
        replies := replies + [r];
      }
      assert ops[..|ops|] == ops;
      WritesStayBelowMark(old(inner.Contents()), ops, high);
    }
  }

  datatype ImageError = WriterFailed | TooLarge(size: nat)

  /**
  The in-process root file system writer: `image` is the run of writes and seeks it
  makes, and `accepts` whether it reports success for the replies it got.  An image
  that does not fit `capacity` is an error; over a view of that same capacity it
  cannot happen.
  */
  method WriteSquashfs(output: PartitionView, capacity: nat, image: seq<Op>, accepts: seq<Reply> -> bool)
    returns (r: Result<nat, ImageError>)
    requires output.Valid() && output.pos == 0
    requires forall i :: 0 <= i < |image| ==> !image[i].ReadOp?
    modifies output`pos, output.file
    ensures output.Valid() && output.Contents() == old(output.Contents()).Run(image).0
    ensures r == Err(WriterFailed) <==> !accepts(old(output.Contents()).Run(image).1)
    ensures r.Ok? ==> IsMark(r.value, WriteEnds(old(output.Contents()), image)) && r.value <= capacity
    ensures r.Err? && r.error.TooLarge? ==>
      IsMark(r.error.size, WriteEnds(old(output.Contents()), image)) && capacity < r.error.size <= output.length
    ensures capacity == output.length ==> r.Ok? || r == Err(WriterFailed)
  {
    var tracked := new HighWater(output);
    var replies := tracked.RunOps(image);
    if !accepts(replies) { return Err(WriterFailed); }
    r := if tracked.high > capacity then Err(TooLarge(tracked.high)) else Ok(tracked.high);
  }

  // ------------------------------------------------------ copying without holes

  const CHUNK := 65536

  /** A source of bytes that may hand them out in pieces of any size. */
  class Source {
    const data: seq<byte>
    const mayFault: bool  // whether a read may fail
    var at: nat

    ghost predicate Valid()
      reads this
    {
      at <= |data|
    }

    constructor (data: seq<byte>, mayFault: bool)
      ensures Valid() && this.data == data && this.mayFault == mayFault && at == 0
    {
      this.data, this.mayFault, this.at := data, mayFault, 0;
    }

    /** Fill some of `buf[from..]`; 0 only at the end of the data or for no room, `None` on a fault. */
    method Read(buf: array<byte>, from: nat) returns (r: Option<nat>)
      requires Valid() && from <= buf.Length
      modifies this`at, buf
      ensures Valid()
      ensures r.None? ==> mayFault && at == old(at) && buf[..] == old(buf[..])
      ensures r.Some? ==>
        && from + r.value <= buf.Length && at == old(at) + r.value
        && (r.value == 0 <==> from == buf.Length || old(at) == |data|)
        && buf[..] == old(buf[..from]) + data[old(at)..at] + old(buf[from + r.value..])
    {
      var fault: bool := *;
      if fault && mayFault { return None; }
      var max := Min(buf.Length - from, |data| - at);
      if max == 0 { return Some(0); }
      var n: nat :| 0 < n <= max;
      forall k | 0 <= k < n { buf[from + k] := data[at + k]; }
      at := at + n;
      r := Some(n);
    }
  }

  /** Read until the buffer is full or the data ends: the split into reads leaves no trace. */
  method ReadFull(src: Source, buf: array<byte>) returns (r: Option<nat>)
    requires src.Valid()
    modifies src`at, buf
    ensures src.Valid() && old(src.at) <= src.at
    ensures r.None? ==> src.mayFault
    ensures r.Some? ==> r.value == Min(buf.Length, |src.data| - old(src.at)) && src.at == old(src.at) + r.value
    ensures r.Some? ==> buf[..r.value] == src.data[old(src.at)..src.at]
  {
    var filled := 0;
    while filled < buf.Length
      invariant src.Valid() && filled <= buf.Length && src.at == old(src.at) + filled
      invariant buf[..filled] == src.data[old(src.at)..src.at]
      decreases buf.Length - filled
    {
      ghost var before := src.at;
      ghost var was := buf[..];
      var n := src.Read(buf, filled);
      if n.None? { return None; }
      if n.value == 0 { break; }
      assert buf[..filled + n.value] == was[..filled] + src.data[before..src.at];
      filled := filled + n.value;
    }
    r := Some(filled);
  }

  predicate AllZero(s: seq<byte>) {
    forall k :: 0 <= k < |s| ==> s[k] == 0
  }

  /** The 64 KiB chunk of `data` that holds offset `j` is all zeros, so nothing is written for it. */
  predicate InHole(data: seq<byte>, j: nat)
    requires j < |data|
  {
    var lo := j - j % CHUNK;
    AllZero(data[lo..Min(lo + CHUNK, |data|)])
  }

  /** A hole, spelt out: every byte of the aligned 65536 around `j` that the data has is zero. */
  lemma HoleMeaning(data: seq<byte>, j: nat)
    requires j < |data|
    ensures InHole(data, j) <==> forall k :: 0 <= k < |data| && k / 65536 == j / 65536 ==> data[k] == 0
  {
    var lo := j - j % CHUNK;
    var hi := Min(lo + CHUNK, |data|);
    assert lo == j / 65536 * 65536;
    forall k | 0 <= k < |data| ensures k / 65536 == j / 65536 <==> lo <= k < hi {
    }
    if InHole(data, j) {
      forall k | 0 <= k < |data| && k / 65536 == j / 65536 ensures data[k] == 0 {
        assert data[lo..hi][k - lo] == data[k];
      }
    }
  }

  /** How many bytes a hole-skipping copy of `data[from..]` writes. */
  function DataBytes(data: seq<byte>, from: nat): nat
    decreases |data| - from
  {
    if from >= |data| then 0
    else
      var to := Min(from + CHUNK, |data|);
      (if AllZero(data[from..to]) then 0 else to - from) + DataBytes(data, to)
  }

  /** The bytes from `from` on that lie in no hole. */
  ghost function DataOffsets(data: seq<byte>, from: nat): set<nat> {
    set j: nat | from <= j < |data| && !InHole(data, j)
  }

  lemma {:induction false} StretchSize(whole: set<nat>, rest: set<nat>, from: nat, to: nat)
    requires from <= to && forall j :: j in rest ==> to <= j
    requires forall j: nat :: j in whole <==> from <= j < to || j in rest
    ensures |whole| == to - from + |rest|
    decreases |whole|
  {
    if from < to {
      StretchSize(whole - {from}, rest, from + 1, to);
    } else {
      assert whole == rest;
    }
  }

  lemma ChunkStretch(data: seq<byte>, from: nat)
    requires from % CHUNK == 0 && from < |data|
    ensures var to := Min(from + CHUNK, |data|);
      forall j :: from <= j < to ==> InHole(data, j) == AllZero(data[from..to])
  {
    var to := Min(from + CHUNK, |data|);
    forall j | from <= j < to ensures InHole(data, j) == AllZero(data[from..to]) {
      ChunkIsUniform(data, from, j);
    }
  }

  /** The count is that of the bytes in no hole. */
  lemma {:induction false} DataBytesMeaning(data: seq<byte>, from: nat)
    requires from % CHUNK == 0 || from == |data|
    ensures DataBytes(data, from) == |DataOffsets(data, from)|
    decreases |data| - from
  {
    if from >= |data| {
      assert DataOffsets(data, from) == {};
    } else {
      var to := Min(from + CHUNK, |data|);
      ChunkStretch(data, from);
      DataBytesMeaning(data, to);
      var whole, rest := DataOffsets(data, from), DataOffsets(data, to);
      if AllZero(data[from..to]) {
        assert whole == rest;
      } else {
        StretchSize(whole, rest, from, to);
      }
    }
  }

  /** A window byte after the first `done` bytes of `data` were copied to `was` at `at`. */
  function CopiedByte(was: seq<byte>, at: nat, data: seq<byte>, done: nat, k: nat): byte
    requires k < |was| && done <= |data|
  {
    if at <= k < at + done && !InHole(data, k - at) then data[k - at] else was[k]
  }

  ghost predicate Copied(was: seq<byte>, at: nat, data: seq<byte>, done: nat, now: seq<byte>)
    requires done <= |data|
  {
    |now| == |was| && forall k :: 0 <= k < |was| ==> now[k] == CopiedByte(was, at, data, done, k)
  }

  /** Every byte that has to be written lies in the window. */
  predicate DataFits(data: seq<byte>, done: nat, at: nat, length: nat)
    requires done <= |data|
  {
    forall j :: 0 <= j < done && !InHole(data, j) ==> at + j < length
  }

  lemma SpliceTwice(was: seq<byte>, at: nat, chunk: seq<byte>, i: nat, n: nat)
    requires i + n <= |chunk| && at + i + n <= |was|
    ensures Splice(Splice(was, at, chunk[..i]), at + i, chunk[i..][..n]) == Splice(was, at, chunk[..i + n])
    ensures Splice(was, at, chunk[..0]) == was
  {
  }

  /** What `write_all` leaves once `i` bytes of `chunk` are in. */
  ghost predicate Written(was: Device, chunk: seq<byte>, i: nat, now: Device)
    requires i <= |chunk|
  {
    && now.pos == was.pos + i
    && if i == 0 then now.bytes == was.bytes
       else was.pos + i <= |was.bytes| && now.bytes == Splice(was.bytes, was.pos, chunk[..i])
  }

  lemma WriteMore(was: Device, chunk: seq<byte>, i: nat, now: Device, os: Os)
    requires i < |chunk| && Written(was, chunk, i, now) && |now.bytes| == |was.bytes|
    ensures var (d, r) := now.Write(chunk[i..], os);
      && (r.Wrote? ==> 0 < r.count <= |chunk| - i && Written(was, chunk, i + r.count, d))
      && (r == Failed(Full) ==> |was.bytes| < was.pos + |chunk|)
      && (r.Wrote? || r == Failed(Full) || (r == Failed(OsFault) && os.Fault?))
  {
    var (d, r) := now.Write(chunk[i..], os);
    if r.Wrote? { SpliceTwice(was.bytes, was.pos, chunk, i, r.count); }
  }

  /** `write_all`: keep writing until all of `chunk` is in, whatever each call moves. */
  method WriteAll(dst: PartitionView, chunk: seq<byte>) returns (r: Option<Failure>)
    requires dst.Valid() && dst.pos + |chunk| <= I64_MAX
    modifies dst`pos, dst.file
    ensures dst.Valid() && OnlyWindow(old(dst.file.bytes), dst.file.bytes, dst.start, dst.length)
    ensures r.None? ==> Written(old(dst.Contents()), chunk, |chunk|, dst.Contents())
    ensures r == Some(Full) ==> dst.length < old(dst.pos) + |chunk|
    ensures r.Some? ==> r.value == Full || (r.value == OsFault && dst.file.mayFault)
  {
    var i := 0;
    ghost var was := dst.Contents();
    while i < |chunk|
      invariant i <= |chunk| && dst.Valid() && Written(was, chunk, i, dst.Contents())
      invariant OnlyWindow(old(dst.file.bytes), dst.file.bytes, dst.start, dst.length)
    {
      var os: Os := *;
      if os.Fault? && !dst.file.mayFault { os := Moves(0); }
      WriteMore(was, chunk, i, dst.Contents(), os);
      var w := dst.Write(chunk[i..], os);
      if w.Failed? { return Some(w.why); }
      i := i + w.count;
    }
    r := None;
  }

  /** All offsets of the chunk that starts at `lo` share its verdict. */
  lemma ChunkIsUniform(data: seq<byte>, lo: nat, j: nat)
    requires lo % CHUNK == 0 && lo <= j < lo + CHUNK && j < |data|
    ensures InHole(data, j) <==> AllZero(data[lo..Min(lo + CHUNK, |data|)])
  {
    assert j - j % CHUNK == lo;
  }

  /** The state of a copy after `lo` bytes of `data`, with `skip` bytes of hole pending. */
  ghost predicate Copying(was: Device, data: seq<byte>, lo: nat, skip: nat, written: nat, now: Device)
    requires lo <= |data|
  {
    && (lo % CHUNK == 0 || lo == |data|)
    && now.pos + skip == was.pos + lo
    && Copied(was.bytes, was.pos, data, lo, now.bytes)
    && DataFits(data, lo, was.pos, |was.bytes|)
    && written + DataBytes(data, lo) == DataBytes(data, 0)
  }

  /** The next chunk is a hole: it only adds to the pending skip. */
  lemma CopyHole(was: Device, data: seq<byte>, lo: nat, skip: nat, written: nat, now: Device)
    requires lo < |data| && Copying(was, data, lo, skip, written, now)
    requires AllZero(data[lo..Min(lo + CHUNK, |data|)])
    ensures var hi := Min(lo + CHUNK, |data|); Copying(was, data, hi, skip + hi - lo, written, now)
  {
    forall j | lo <= j < Min(lo + CHUNK, |data|) ensures InHole(data, j) {
      ChunkIsUniform(data, lo, j);
    }
  }

  /** The next chunk holds data: it is written behind the pending skip. */
  lemma CopyData(was: Device, data: seq<byte>, lo: nat, skip: nat, written: nat, now: Device, after: Device)
    requires lo < |data| && Copying(was, data, lo, skip, written, now)
    requires var hi := Min(lo + CHUNK, |data|);
      && !AllZero(data[lo..hi])
      && Written(now.(pos := now.pos + skip), data[lo..hi], hi - lo, after)
    ensures var hi := Min(lo + CHUNK, |data|); Copying(was, data, hi, 0, written + hi - lo, after)
  {
    var hi := Min(lo + CHUNK, |data|);
    forall j | lo <= j < hi ensures !InHole(data, j) {
      ChunkIsUniform(data, lo, j);
    }
    assert data[lo..hi][..hi - lo] == data[lo..hi];
  }

  /** Seek over the pending hole, then write the chunk. */
  method SkipAndWrite(dst: PartitionView, skip: nat, chunk: seq<byte>) returns (r: Option<Failure>)
    requires dst.Valid() && dst.pos + skip + |chunk| <= I64_MAX
    modifies dst`pos, dst.file
    ensures dst.Valid() && OnlyWindow(old(dst.file.bytes), dst.file.bytes, dst.start, dst.length)
    ensures r.None? ==> Written(old(dst.Contents()).(pos := old(dst.pos) + skip), chunk, |chunk|, dst.Contents())
    ensures r == Some(Full) ==> dst.length < old(dst.pos) + skip + |chunk|
    ensures r.Some? ==> r.value == Full || (r.value == OsFault && dst.file.mayFault)
  {
    if skip != 0 {
      var s := dst.Seek(Current(skip));
      if s.Failed? { return Some(s.why); }
    }
    r := WriteAll(dst, chunk);
  }

  /** One round of the copy loop: skip the chunk that starts at `lo`, or write it. */
  method PlaceChunk(dst: PartitionView, ghost was: Device, ghost data: seq<byte>, ghost lo: nat,
                    chunk: seq<byte>, skip: nat, written: nat)
    returns (failed: Option<Failure>, skip': nat, written': nat)
    requires dst.Valid() && |was.bytes| == dst.length && lo < |data| && was.pos + |data| <= I64_MAX
    requires Copying(was, data, lo, skip, written, dst.Contents())
    requires chunk == data[lo..Min(lo + CHUNK, |data|)]
    modifies dst`pos, dst.file
    ensures dst.Valid() && OnlyWindow(old(dst.file.bytes), dst.file.bytes, dst.start, dst.length)
    ensures failed.None? ==> Copying(was, data, Min(lo + CHUNK, |data|), skip', written', dst.Contents())
    ensures failed == Some(Full) ==> !DataFits(data, |data|, was.pos, dst.length)
    ensures failed.Some? ==> failed.value == Full || (failed.value == OsFault && dst.file.mayFault)
  {
    ghost var now := dst.Contents();
    if AllZero(chunk) {
      CopyHole(was, data, lo, skip, written, now);
      return None, skip + |chunk|, written;
    }
    failed := SkipAndWrite(dst, skip, chunk);
    skip', written' := 0, written + |chunk|;
    if failed.None? {
      CopyData(was, data, lo, skip, written, now, dst.Contents());
    } else if failed.value == Full {
      NoRoom(data, lo, was.pos, dst.length);
    }
  }

  /** Copy `src` into `dst`, seeking over chunks of zeros instead of writing them. */
  method CopySkippingHoles(src: Source, dst: PartitionView) returns (r: Result<nat, Failure>)
    requires src.Valid() && src.at == 0 && dst.Valid() && dst.pos + |src.data| <= I64_MAX
    modifies src`at, dst`pos, dst.file
    ensures dst.Valid() && OnlyWindow(old(dst.file.bytes), dst.file.bytes, dst.start, dst.length)
    ensures r.Ok? ==>
      && r.value == DataBytes(src.data, 0)
      && DataFits(src.data, |src.data|, old(dst.pos), dst.length)
      && Copied(old(dst.Contents().bytes), old(dst.pos), src.data, |src.data|, dst.Contents().bytes)
    ensures r == Err(Full) ==> !DataFits(src.data, |src.data|, old(dst.pos), dst.length)
    ensures r.Err? ==> r.error == Full || (r.error == OsFault && (src.mayFault || dst.file.mayFault))
  {
    var buf := new byte[CHUNK](_ => 0);
    var written: nat, skip: nat := 0, 0;
    ghost var was := dst.Contents();
    while true
      invariant src.Valid() && dst.Valid()
      invariant OnlyWindow(old(dst.file.bytes), dst.file.bytes, dst.start, dst.length)
      invariant Copying(was, src.data, src.at, skip, written, dst.Contents())
      decreases |src.data| - src.at
    {
      ghost var lo := src.at;
      var n := ReadFull(src, buf);
      if n.None? { return Err(OsFault); }
      if n.value == 0 { break; }
      var failed;
      failed, skip, written := PlaceChunk(dst, was, src.data, lo, buf[..n.value], skip, written);
      if failed.Some? { return Err(failed.value); }
    }
    var flushed := dst.Flush();
    if !flushed { return Err(OsFault); }
    r := Ok(written);
  }

  /** A chunk with data that does not fit leaves a byte outside the window. */
  lemma NoRoom(data: seq<byte>, lo: nat, at: nat, length: nat)
    requires lo < |data| && lo % CHUNK == 0
    requires var hi := Min(lo + CHUNK, |data|); !AllZero(data[lo..hi]) && length < at + hi
    ensures !DataFits(data, |data|, at, length)
  {
    var last := Min(lo + CHUNK, |data|) - 1;
    ChunkIsUniform(data, lo, last);
    assert !InHole(data, last) && at + last >= length;
  }

  lemma HoleIsZero(data: seq<byte>, j: nat)
    requires j < |data| && InHole(data, j)
    ensures data[j] == 0
  {
    var lo := j - j % CHUNK;
    assert data[lo..Min(lo + CHUNK, |data|)][j - lo] == data[j];
  }

  /** Skipping holes is a plain copy exactly when the window was zero wherever a hole lands. */
  lemma SparseIsDenseIff(was: seq<byte>, at: nat, data: seq<byte>, now: seq<byte>)
    requires at + |data| <= |was| && Copied(was, at, data, |data|, now)
    ensures now == Splice(was, at, data) <==> forall j :: 0 <= j < |data| && InHole(data, j) ==> was[at + j] == 0
  {
    forall j | 0 <= j < |data| ensures InHole(data, j) ==> data[j] == 0 {
      if InHole(data, j) { HoleIsZero(data, j); }
    }
    if now == Splice(was, at, data) {
      forall j | 0 <= j < |data| && InHole(data, j) ensures was[at + j] == 0 {
        assert now[at + j] == CopiedByte(was, at, data, |data|, at + j);
      }
    }
  }

  /** `data` cut or padded with zeros to `n` bytes. */
  function Padded(data: seq<byte>, n: nat): seq<byte> {
    if |data| <= n then data + Zeros(n - |data|) else data[..n]
  }

  /** Over zeros, skipping holes leaves no trace. */
  lemma CopiedOntoZeros(was: seq<byte>, data: seq<byte>, now: seq<byte>)
    requires AllZero(was) && Copied(was, 0, data, |data|, now)
    ensures now == Padded(data, |was|)
  {
    forall j | 0 <= j < |data| ensures InHole(data, j) ==> data[j] == 0 {
      if InHole(data, j) { HoleIsZero(data, j); }
    }
  }

  /**
  The disk projection: arbitrary activity through the ESP view, then the root
  file system image through the ROOTFS view of the same file.  `accepts` is whether
  the ESP writer reports success for the replies it got; if not, that is the end.
  */
  method ProjectDisk(disk: DiskFile, espStart: u64, espLength: u64, rootStart: u64, rootLength: u64,
                     espOps: seq<Op>, accepts: seq<Reply> -> bool, image: Source)
    returns (r: Result<nat, Failure>)
    requires |disk.bytes| <= I64_MAX && image.Valid() && image.at == 0
    requires espStart + espLength <= |disk.bytes| && rootStart + rootLength <= |disk.bytes|
    requires espStart + espLength <= rootStart || rootStart + rootLength <= espStart
    requires AllZero(disk.bytes[rootStart..rootStart + rootLength])
    requires |image.data| <= I64_MAX
    modifies disk, image`at
    ensures |disk.bytes| == old(|disk.bytes|)
    ensures disk.bytes[espStart..espStart + espLength] ==
              Device(old(disk.bytes)[espStart..espStart + espLength], 0).Run(espOps).0.bytes
    ensures r.Ok? ==>
      && disk.bytes[rootStart..rootStart + rootLength] == Padded(image.data, rootLength)
      && r.value == DataBytes(image.data, 0)
      && DataFits(image.data, |image.data|, 0, rootLength)
    ensures r == Err(EspFailed) <==>
      !accepts(Device(old(disk.bytes)[espStart..espStart + espLength], 0).Run(espOps).1)
    ensures r == Err(EspFailed) ==> AllZero(disk.bytes[rootStart..rootStart + rootLength])
    ensures r == Err(Full) ==> !DataFits(image.data, |image.data|, 0, rootLength)
    ensures r.Err? ==> r.error == EspFailed || r.error == Full || (r.error == OsFault && (image.mayFault || disk.mayFault))
    ensures forall k :: 0 <= k < |disk.bytes|
              && !(espStart <= k < espStart + espLength) && !(rootStart <= k < rootStart + rootLength)
              ==> disk.bytes[k] == old(disk.bytes[k])
  {
    ghost var was := disk.bytes;
    var esp := new PartitionView(disk, espStart, espLength);
    var replies := esp.RunOps(espOps);
    ghost var mid := disk.bytes;
    assert mid[rootStart..rootStart + rootLength] == was[rootStart..rootStart + rootLength] by {
      WindowsApart(was, mid, espStart, espLength, rootStart, rootLength);
    }
    OutsideBoth(was, mid, espStart, espLength);
    if !accepts(replies) { return Err(EspFailed); }
    var root := new PartitionView(disk, rootStart, rootLength);
    r := CopySkippingHoles(image, root);
    WindowsApart(mid, disk.bytes, rootStart, rootLength, espStart, espLength);
    if r.Ok? {
      ghost var zeros := mid[rootStart..rootStart + rootLength];
      CopiedOntoZeros(zeros, image.data, root.Contents().bytes);
    }
    OutsideBoth(mid, disk.bytes, rootStart, rootLength);
  }

  lemma OutsideBoth(was: seq<byte>, now: seq<byte>, start: nat, length: nat)
    requires OnlyWindow(was, now, start, length)
    ensures forall k :: 0 <= k < |was| && !(start <= k < start + length) ==> now[k] == was[k]
  {
    forall k | 0 <= k < |was| && !(start <= k < start + length) ensures now[k] == was[k] {
      if k < start {
        assert now[..start][k] == was[..start][k];
      } else {
        assert now[start + length..][k - start - length] == was[start + length..][k - start - length];
      }
    }
  }

  /** Writing inside one window leaves a disjoint one alone. */
  lemma WindowsApart(was: seq<byte>, now: seq<byte>, start: nat, length: nat, other: nat, size: nat)
    requires OnlyWindow(was, now, start, length) && other + size <= |was|
    requires start + length <= other || other + size <= start
    ensures now[other..other + size] == was[other..other + size]
  {
    OutsideBoth(was, now, start, length);
  }
}
