/** Reading, writing and seeking in one expfs file.

    A regular file is its block's `filesize` and `buffer`; each open file has a position.  Three
    things the code does decide the properties below: a read always copies from the start of the
    buffer, whatever the position; a write sets the size to the position behind it, even when that
    shrinks the file; and the position of a read moves on by what was copied. */
module FileData {
  import opened Bytes

  const EINVAL := 22
  const ENXIO := 6

  /** The range of the `unsigned int` a write truncates its length to. */
  const COUNT_RANGE := 0x1_0000_0000

  datatype File = File(size: int, buf: seq<byte>)

  datatype ReadResult = ReadResult(ret: int, out: seq<byte>, pos: int)
  datatype WriteResult = WriteResult(ret: int, file: File, pos: int)
  datatype SeekResult = SeekResult(ret: int, pos: int)

  ghost predicate FileOk(f: File) {
    0 < |f.buf| && 0 <= f.size <= |f.buf|
  }

  /** `out` is what lands in the user's buffer. */
  function DoRead(f: File, pos: int, len: nat, copy: UserCopy): ReadResult
    requires FileOk(f)
  {
    if pos >= f.size then ReadResult(0, [], pos)
    else
      var n := Min(f.size, len);
      var out := Stored(f.buf[..n], copy);
      if Faults(copy, n) then ReadResult(-EFAULT, out, pos) else ReadResult(n, out, pos + n)
  }

  function DoWrite(f: File, pos: nat, data: seq<byte>, copy: UserCopy): WriteResult
    requires FileOk(f)
  {
    var count := |data| % COUNT_RANGE;
    if pos >= |f.buf| then WriteResult(if count != 0 then -ENXIO else 0, f, pos)
    else
      var n := Min(count, |f.buf| - pos);
      var buf := Splice(f.buf, pos, Stored(data[..n], copy));
      if Faults(copy, n) then WriteResult(-EFAULT, File(f.size, buf), pos)
      else WriteResult(n, File(pos + n, buf), pos + n)
  }

  /** Where a seek aims, and whether the code lets it go there. */
  function SeekTarget(pos: int, offset: int, orig: int): int {
    if orig == 0 then offset else pos + offset
  }

  predicate SeekAllowed(size: nat, pos: int, offset: int, orig: int) {
    (orig == 0 || orig == 1) && 0 <= SeekTarget(pos, offset, orig) <= size
  }

  function DoSeek(f: File, pos: int, offset: int, orig: int): SeekResult {
    if SeekAllowed(|f.buf|, pos, offset, orig)
    then SeekResult(SeekTarget(pos, offset, orig), SeekTarget(pos, offset, orig))
    else SeekResult(-EINVAL, pos)
  }

  // ---------------------------------------------------------------------------------------------
  // What the caller is told

  /** A read returns 0 at or behind the end of the file, -EFAULT when its copy of at least one byte faults,
      and otherwise the number of bytes it delivered, by which the position moves: as many as asked for,
      or the whole file. */
  lemma ReadTellsTruth(f: File, pos: int, len: nat, copy: UserCopy)
    requires FileOk(f)
    ensures var r := DoRead(f, pos, len, copy);
      if pos >= f.size then r.ret == 0 && r.out == [] && r.pos == pos
      else if copy.Faulted? && len > 0 && f.size > 0 then
        r.ret == -EFAULT && r.pos == pos && r.out == copy.left[..Min(|copy.left|, Min(len, f.size))]
      else
        && r.ret == |r.out| == r.pos - pos
        && r.out <= f.buf && r.ret <= len && r.ret <= f.size && (r.ret == len || r.ret == f.size)
  {
  }

  /** A write of at least one byte behind the buffer returns -ENXIO and one of no bytes 0; one whose copy
      faults returns -EFAULT; and otherwise the result is the number of bytes stored, by which the
      position moves and behind which the file ends: all that were offered, or all the room there was. */
  lemma WriteTellsTruth(f: File, pos: nat, data: seq<byte>, copy: UserCopy)
    requires FileOk(f) && |data| < 0x1_0000_0000
    ensures var w := DoWrite(f, pos, data, copy);
      if pos >= |f.buf| then w.file == f && w.pos == pos && w.ret == if data == [] then 0 else -ENXIO
      else if copy.Faulted? && data != [] then
        && w.ret == -EFAULT && w.pos == pos && w.file.size == f.size && |w.file.buf| == |f.buf|
        && w.file.buf[..pos] == f.buf[..pos]
        && forall i :: pos <= i < |f.buf| ==>
          w.file.buf[i] == if i - pos < |copy.left| && i - pos < |data| then copy.left[i - pos] else f.buf[i]
      else
        && 0 <= w.ret == w.pos - pos && w.file.size == w.pos <= |f.buf| == |w.file.buf|
        && w.ret <= |data| && (w.ret == |data| || w.pos == |f.buf|)
        && w.file.buf == f.buf[..pos] + data[..w.ret] + f.buf[w.pos..]
  {
  }

  lemma PrefixOfPrefix(s: seq<byte>, n: nat, m: nat)
    requires m <= n <= |s|
    ensures s[..n][..m] == s[..m]
  {
  }

  /** The length of a longer write is cut to 32 bits first. */
  lemma LongWrite(f: File, pos: nat, data: seq<byte>, copy: UserCopy)
    requires FileOk(f)
    ensures DoWrite(f, pos, data, copy) == DoWrite(f, pos, data[..|data| % 0x1_0000_0000], copy)
  {
    hide Splice, Stored, Faults;
    var n := |data| % COUNT_RANGE;
    assert |data[..n]| % COUNT_RANGE == n;
    if pos < |f.buf| {
      PrefixOfPrefix(data, n, Min(n, |f.buf| - pos));
    }
  }

  // ---------------------------------------------------------------------------------------------
  // The code

  class FileBuf {
    var filesize: int
    const buffer: array<byte>

    constructor (size: nat)
      requires size > 0
      ensures buffer.Length == size && filesize == 0 && fresh(buffer)
    {
      buffer := new byte[size](_ => 0);
      filesize := 0;
    }

    ghost function View(): File
      reads this, buffer
    {
      File(filesize, buffer[..])
    }
  }

  class OpenFile {
    var pos: int
    const blk: FileBuf

    constructor (blk: FileBuf)
      ensures this.blk == blk && pos == 0
    {
      this.blk := blk;
      pos := 0;
    }

    method Read(ubuf: array<byte>, len: nat, copy: UserCopy) returns (ret: int)
      requires FileOk(blk.View()) && len <= ubuf.Length && ubuf != blk.buffer
      modifies this, ubuf
      ensures blk.View() == old(blk.View())
      ensures var r := DoRead(old(blk.View()), old(pos), len, copy);
        && ret == r.ret && pos == r.pos
        && ubuf[..] == Splice(old(ubuf[..]), 0, r.out)
      ensures ret >= 0 ==> ret == pos - old(pos) && ret <= len && ret <= blk.buffer.Length
      ensures ret >= 0 ==> ubuf[..ret] == blk.buffer[..ret] && ubuf[ret..] == old(ubuf[..])[ret..]
      ensures ret < 0 ==> ret == -EFAULT && copy.Faulted? && pos == old(pos)
    {
      if pos >= blk.filesize {
        return 0;
      }
      var n := Min(blk.filesize, len);
      assert blk.buffer[0..n] == blk.buffer[..][..n];
      var failed := UserCopyBytes(ubuf, 0, blk.buffer, 0, n, copy);
      if failed {
        return -EFAULT;
      }
      pos := pos + n;
      ret := n;
    }

    method Write(ubuf: array<byte>, copy: UserCopy) returns (ret: int)
      requires FileOk(blk.View()) && pos >= 0 && ubuf != blk.buffer
      modifies this, blk, blk.buffer
      ensures WriteResult(ret, blk.View(), pos) == DoWrite(old(blk.View()), old(pos), ubuf[..], copy)
      ensures ret >= 0 ==> pos == old(pos) + ret
      ensures ret < 0 ==> pos == old(pos) && blk.filesize == old(blk.filesize)
    {
      var p := pos;
      var count := ubuf.Length % COUNT_RANGE;
      if p >= blk.buffer.Length {
        return if count != 0 then -ENXIO else 0;
      }
      if count > blk.buffer.Length - p {
        count := blk.buffer.Length - p;
      }
      assert ubuf[0..count] == ubuf[..][..count];
      var failed := UserCopyBytes(blk.buffer, p, ubuf, 0, count, copy);
      if failed {
        ret := -EFAULT;
      } else {
        pos := pos + count;
        ret := count;
        blk.filesize := pos;
      }
    }

    /** An absolute or relative seek to any position up to the buffer's end goes there and returns it;
        every other call returns EINVAL and leaves the position. */
    method Seek(offset: int, orig: int) returns (ret: int)
      modifies this
      ensures var target := if orig == 0 then offset else old(pos) + offset;
        && (ret == -EINVAL <==> (orig != 0 && orig != 1) || target < 0 || target > blk.buffer.Length)
        && (ret == -EINVAL ==> pos == old(pos))
        && (ret != -EINVAL ==> ret == pos == target)
      ensures SeekResult(ret, pos) == DoSeek(old(blk.View()), old(pos), offset, orig)
    {
      ret := 0;
      if orig == 0 {
        if offset < 0 || offset > blk.buffer.Length {
          ret := -EINVAL;
        } else {
          pos := offset;
          ret := pos;
        }
      } else if orig == 1 {
        if pos + offset > blk.buffer.Length || pos + offset < 0 {
          ret := -EINVAL;
        } else {
          pos := pos + offset;
          ret := pos;
        }
      } else {
        ret := -EINVAL;
      }
    }
  }

  /** An absolute seek goes where it is told from any position, and a relative seek by 0 tells it. */
  lemma SeekThenTell(f: File, pos: int, a: int)
    ensures if 0 <= a <= |f.buf| then DoSeek(f, pos, a, 0) == SeekResult(a, a) == DoSeek(f, a, 0, 1)
      else DoSeek(f, pos, a, 0) == SeekResult(-EINVAL, pos)
    ensures forall orig :: orig != 0 && orig != 1 ==> DoSeek(f, pos, a, orig) == SeekResult(-EINVAL, pos)
  {
  }

  /** Seeking by `d` and then by `-d` leads back exactly when the position was not beyond the buffer,
      as reads can make it; from beyond, the way back is EINVAL. */
  lemma SeekThereAndBack(f: File, pos: nat, d: int)
    requires SeekAllowed(|f.buf|, pos, d, 1)
    ensures var there := DoSeek(f, pos, d, 1);
      var back := DoSeek(f, there.pos, -d, 1);
      && (pos <= |f.buf| <==> back == SeekResult(pos, pos))
      && (pos > |f.buf| <==> back == SeekResult(-EINVAL, there.pos))
  {
  }

  // ---------------------------------------------------------------------------------------------
  // Bounds over every run of any number of open files

  datatype Call =
    | CallRead(who: nat, len: nat, copy: UserCopy)
    | CallWrite(who: nat, data: seq<byte>, copy: UserCopy)
    | CallSeek(who: nat, offset: int, orig: int)

  /** One file and the positions of everyone who has it open. */
  datatype Sharing = Sharing(file: File, pos: seq<int>)

  ghost predicate InBounds(s: Sharing) {
    && FileOk(s.file)
    && forall i :: 0 <= i < |s.pos| ==> 0 <= s.pos[i] < 2 * |s.file.buf|
  }

  function DoCall(s: Sharing, c: Call): Sharing
    requires FileOk(s.file) && c.who < |s.pos| && s.pos[c.who] >= 0
  {
    match c
    case CallRead(i, len, copy) => s.(pos := s.pos[i := DoRead(s.file, s.pos[i], len, copy).pos])
    case CallWrite(i, data, copy) =>
      var w := DoWrite(s.file, s.pos[i], data, copy);
      Sharing(w.file, s.pos[i := w.pos])
    case CallSeek(i, offset, orig) => s.(pos := s.pos[i := DoSeek(s.file, s.pos[i], offset, orig).pos])
  }

  lemma CallKeepsBounds(s: Sharing, c: Call)
    requires InBounds(s) && c.who < |s.pos|
    ensures InBounds(DoCall(s, c)) && |DoCall(s, c).pos| == |s.pos|
    ensures |DoCall(s, c).file.buf| == |s.file.buf|
  {
  }

  ghost predicate CallsOk(s: Sharing, calls: seq<Call>) {
    forall i :: 0 <= i < |calls| ==> calls[i].who < |s.pos|
  }

  ghost function DoCalls(s: Sharing, calls: seq<Call>): (r: Sharing)
    requires InBounds(s) && CallsOk(s, calls)
    decreases |calls|
  {
    if calls == [] then s
    else
      CallKeepsBounds(s, calls[0]);
      DoCalls(DoCall(s, calls[0]), calls[1..])
  }

  /** Over all runs the size stays within the buffer, which keeps its length, and every position
      stays below twice its length. */
  lemma {:induction false} RunStaysInBounds(s: Sharing, calls: seq<Call>)
    requires InBounds(s) && CallsOk(s, calls)
    ensures var r := DoCalls(s, calls);
      && |r.file.buf| == |s.file.buf|
      && 0 <= r.file.size <= |s.file.buf|
      && forall i :: 0 <= i < |r.pos| ==> 0 <= r.pos[i] < 2 * |s.file.buf|
    decreases |calls|
  {
    if calls != [] {
      CallKeepsBounds(s, calls[0]);
      RunStaysInBounds(DoCall(s, calls[0]), calls[1..]);
    }
  }

  // ---------------------------------------------------------------------------------------------
  // Sequential writes

  function WriteAll(f: File, pos: nat, writes: seq<seq<byte>>): (r: WriteResult)
    requires FileOk(f)
    ensures FileOk(r.file) && r.pos >= 0
    decreases |writes|
  {
    if writes == [] then WriteResult(0, f, pos)
    else
      var w := DoWrite(f, pos, writes[0], Whole);
      WriteAll(w.file, w.pos, writes[1..])
  }

  /** What a run of writes from `pos` on leaves when their concatenation is `all`. */
  ghost predicate OneSplice(f: File, pos: nat, all: seq<byte>, r: WriteResult)
    requires pos <= |f.buf|
  {
    var part := Take(all, |f.buf| - pos);
    && r.pos == pos + |part|
    && r.file.buf == Splice(f.buf, pos, part)
    && r.file.size == if pos < |f.buf| then pos + |part| else f.size
  }

  /** A write is itself one splice. */
  lemma WriteIsOneSplice(f: File, pos: nat, d: seq<byte>)
    requires FileOk(f) && pos <= |f.buf| && |d| < COUNT_RANGE
    ensures OneSplice(f, pos, d, DoWrite(f, pos, d, Whole).(ret := 0))
  {
    if pos < |f.buf| {
      assert d[..Min(|d|, |f.buf| - pos)] == Take(d, |f.buf| - pos);
    }
  }

  /** Two runs of writes one after the other. */
  lemma SplicesCompose(f: File, pos: nat, d: seq<byte>, r: WriteResult, rest: seq<byte>, q: WriteResult)
    requires pos <= |f.buf| && OneSplice(f, pos, d, r)
    requires OneSplice(r.file, r.pos, rest, q)
    ensures OneSplice(f, pos, d + rest, q)
  {
    var room := |f.buf| - pos;
    var first := Take(d, room);
    TakeBoth(d, rest, room);
    SpliceSplice(f.buf, pos, first, Take(rest, room - |first|));
  }

  /** A nonempty run of writes from position `pos` on acts as one splice of their concatenation, cut
      off at the end of the buffer. */
  lemma {:induction false} WritesAreOneSplice(f: File, pos: nat, writes: seq<seq<byte>>)
    requires FileOk(f) && pos <= |f.buf| && writes != []
    requires forall i :: 0 <= i < |writes| ==> |writes[i]| < COUNT_RANGE
    ensures OneSplice(f, pos, Concat(writes), WriteAll(f, pos, writes))
    decreases |writes|
  {
    var w := DoWrite(f, pos, writes[0], Whole);
    WriteIsOneSplice(f, pos, writes[0]);
    if |writes| == 1 {
      assert Concat(writes) == writes[0];
    } else {
      WritesAreOneSplice(w.file, w.pos, writes[1..]);
      SplicesCompose(f, pos, writes[0], w.(ret := 0), Concat(writes[1..]), WriteAll(f, pos, writes));
    }
  }

  /** Writing a nonempty list from position 0 without seeking leaves the size at the total, cut off
      at BUFFER_SIZE, and that prefix of the concatenation in the buffer; one read at position 0
      with room for it returns it. */
  lemma WriteThenRead(f: File, writes: seq<seq<byte>>, len: nat)
    requires FileOk(f) && writes != []
    requires forall i :: 0 <= i < |writes| ==> |writes[i]| < COUNT_RANGE
    requires len >= Min(|f.buf|, |Concat(writes)|)
    ensures var w := WriteAll(f, 0, writes).file;
      && w.size == Min(|f.buf|, |Concat(writes)|)
      && w.buf[..w.size] == Concat(writes)[..w.size]
      && w.buf[w.size..] == f.buf[w.size..]
      && DoRead(w, 0, len, Whole).out == Concat(writes)[..w.size]
      && DoRead(w, 0, len, Whole).ret == w.size
  {
    WritesAreOneSplice(f, 0, writes);
    SpliceInPrefix(f.buf, 0, Take(Concat(writes), |f.buf|));
  }

  // ---------------------------------------------------------------------------------------------
  // The chunked read loop

  /** What a program gets that reads `n` bytes at a time until a read returns 0. */
  function ReadLoop(f: File, pos: nat, n: nat): (r: (nat, seq<byte>))
    requires FileOk(f) && n > 0
    decreases f.size - pos
  {
    var r := DoRead(f, pos, n, Whole);
    if r.ret == 0 then (0, [])
    else
      var rest := ReadLoop(f, r.pos, n);
      (rest.0 + 1, r.out + rest.1)
  }

  /** a / b rounded up: the least k with a <= k * b. */
  function CeilDiv(a: nat, b: nat): (k: nat)
    requires a > 0 && b > 0
    ensures (k - 1) * b < a <= k * b
  {
    if a <= b then 1
    else
      var k := CeilDiv(a - b, b);
      assert (k + 1) * b == k * b + b && (k - 1) * b + b == k * b;
      k + 1
  }

  lemma {:induction false} LoopRepeats(f: File, pos: nat, n: nat)
    requires FileOk(f) && n > 0 && f.size > 0
    ensures var m := Min(f.size, n);
      var k := if pos >= f.size then 0 else CeilDiv(f.size - pos, m);
      ReadLoop(f, pos, n) == (k, Repeat(f.buf[..m], k))
    decreases f.size - pos
  {
    if pos < f.size {
      var m := Min(f.size, n);
      LoopRepeats(f, pos + m, n);
    }
  }

  /** The loop stops after ceil(F / min(F, n)) non-empty reads and yields the first min(F, n) bytes
      that many times over. */
  lemma ChunkedRead(f: File, n: nat)
    requires FileOk(f) && n > 0 && f.size > 0
    ensures var m := Min(f.size, n);
      ReadLoop(f, 0, n) == (CeilDiv(f.size, m), Repeat(f.buf[..m], CeilDiv(f.size, m)))
  {
    LoopRepeats(f, 0, n);
  }

  /** A file whose first byte differs from all others. */
  function Marked(size: nat): File {
    File(size, seq(size, i => if i == 0 then 1 else 0))
  }

  /** The chunk size yields the contents of every file of size F exactly when it is at least F. */
  lemma ChunkedReadExact(size: nat, n: nat)
    requires size > 0 && n > 0
    ensures (forall f :: FileOk(f) && f.size == size ==> ReadLoop(f, 0, n).1 == f.buf[..size]) <==> n >= size
  {
    if n >= size {
      forall f | FileOk(f) && f.size == size ensures ReadLoop(f, 0, n).1 == f.buf[..size] {
        ChunkedRead(f, n);
        assert Repeat(f.buf[..size], 1) == f.buf[..size] + Repeat(f.buf[..size], 0);
      }
    } else {
      var f := Marked(size);
      ChunkedRead(f, n);
      var k := CeilDiv(size, n);
      assert k == 1 + CeilDiv(size - n, n);
      var got, one := Repeat(f.buf[..n], k), f.buf[..n];
      assert got == one + (one + Repeat(one, k - 2));
      assert got[n] == one[0] == 1;
      assert |got| >= size ==> f.buf[..size][n] == 0;
    }
  }
}
