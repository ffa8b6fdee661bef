/** sbull's request transfer: a scatter/gather loop over segments, against one flat splice. */
module Sbull {
  import opened Wrappers
  import opened Bytes

  const KERNEL_SECTOR_SIZE := 512
  const UINT_RANGE := 0x1_0000_0000
  const SECTOR_RANGE := 0x1_0000_0000_0000_0000

  /** Division of ints in C. */
  function Quotient(a: int, b: int): (q: int)
    requires b > 0
    ensures -b < a - q * b < b
    ensures if a >= 0 then q >= 0 && a - q * b >= 0 else q <= 0 && a - q * b <= 0
  {
    if a >= 0 then a / b else -(-a / b)
  }

  /** An int product as the machine has it, and its conversion to the unsigned 64-bit sector_t. */
  function ToInt(x: int): int {
    if x % UINT_RANGE < UINT_RANGE / 2 then x % UINT_RANGE else x % UINT_RANGE - UINT_RANGE
  }

  function ToSector(x: int): nat {
    x % SECTOR_RANGE
  }

  /** `dev->size`, an unsigned int, and the advertised capacity in kernel sectors. */
  function DevSize(nsectors: int, hardsect: int): nat {
    (nsectors * hardsect) % UINT_RANGE
  }

  function Capacity(nsectors: int, hardsect: int): nat {
    ToSector(ToInt(nsectors * Quotient(hardsect, KERNEL_SECTOR_SIZE)))
  }

  /** How much of a segment is copied at `pos`. */
  function Clamped(size: nat, pos: nat, len: nat): nat
    requires pos <= size
  {
    Min(len, size - pos)
  }

  /** The segment loop of a write: the device afterwards, and the position. */
  function PutSegs(data: seq<byte>, pos: nat, segs: seq<seq<byte>>): (r: (seq<byte>, nat))
    requires pos <= |data|
    ensures |r.0| == |data| && pos <= r.1 <= |data|
    decreases |segs|
  {
    if segs == [] then (data, pos)
    else
      var n := Clamped(|data|, pos, |segs[0]|);
      PutSegs(Splice(data, pos, segs[0][..n]), pos + n, segs[1..])
  }

  /** The segment loop of a read: the segments afterwards, and the position. */
  function GetSegs(data: seq<byte>, pos: nat, segs: seq<seq<byte>>): (r: (seq<seq<byte>>, nat))
    requires pos <= |data|
    ensures |r.0| == |segs| && pos <= r.1 <= |data|
    decreases |segs|
  {
    if segs == [] then ([], pos)
    else
      var n := Clamped(|data|, pos, |segs[0]|);
      var rest := GetSegs(data, pos + n, segs[1..]);
      ([Splice(segs[0], 0, data[pos..pos + n])] + rest.0, rest.1)
  }

  /** What a read makes of one segment. */
  function Filled(data: seq<byte>, pos: nat, seg: seq<byte>): seq<byte>
    requires pos <= |data|
  {
    Splice(seg, 0, data[pos..pos + Clamped(|data|, pos, |seg|)])
  }

  // ---------------------------------------------------------------------------------------------
  // The loops are one splice

  /** A write request stores the concatenation of its segments, as far as it fits, as one splice. */
  lemma {:induction false} PutIsSplice(data: seq<byte>, pos: nat, segs: seq<seq<byte>>)
    requires pos <= |data|
    ensures var all := Take(Concat(segs), |data| - pos);
      PutSegs(data, pos, segs) == (Splice(data, pos, all), pos + |all|)
    decreases |segs|
  {
    hide PutSegs;
    var room := |data| - pos;
    if segs == [] {
      PutNone(data, pos);
      assert Splice(data, pos, []) == data;
    } else {
      hide Splice;
      var n := Clamped(|data|, pos, |segs[0]|);
      var rest := Concat(segs[1..]);
      PutStep(data, pos, segs);
      TakeBoth(segs[0], rest, room);
      assert segs[0][..n] == Take(segs[0], room);
      PutIsSplice(Splice(data, pos, segs[0][..n]), pos + n, segs[1..]);
      SpliceSplice(data, pos, segs[0][..n], Take(rest, room - n));
    }
  }

  /** A read request fills its segments, taken as one, from one stretch of the device. */
  lemma {:induction false} GetIsSplice(data: seq<byte>, pos: nat, segs: seq<seq<byte>>)
    requires pos <= |data|
    ensures var n := Min(|Concat(segs)|, |data| - pos);
      GetSegs(data, pos, segs).1 == pos + n &&
      Concat(GetSegs(data, pos, segs).0) == Splice(Concat(segs), 0, data[pos..pos + n])
    decreases |segs|
  {
    hide GetSegs, Splice;
    if segs == [] {
      GetNone(data, pos);
      SpliceAtFront([], []);
    } else {
      var n := Clamped(|data|, pos, |segs[0]|);
      GetStep(data, pos, segs);
      GetIsSplice(data, pos + n, segs[1..]);
      GetGlued(data, pos, segs);
    }
  }

  /** The step of GetIsSplice. */
  lemma GetGlued(data: seq<byte>, pos: nat, segs: seq<seq<byte>>)
    requires pos <= |data| && segs != []
    requires var n := Clamped(|data|, pos, |segs[0]|);
      Concat(GetSegs(data, pos + n, segs[1..]).0) == Filled(data, pos + n, Concat(segs[1..]))
    ensures Concat(GetSegs(data, pos, segs).0) == Filled(data, pos, Concat(segs))
  {
    hide GetSegs, Filled, Splice;
    GetStep(data, pos, segs);
    FillThenFill(data, pos, segs[0], Concat(segs[1..]));
  }

  /** Filling one string, then the next, is filling both in a row. */
  lemma FillThenFill(data: seq<byte>, pos: nat, s: seq<byte>, t: seq<byte>)
    requires pos <= |data|
    ensures var n := Clamped(|data|, pos, |s|);
      Filled(data, pos, s) + Filled(data, pos + n, t) == Filled(data, pos, s + t)
  {
    hide Splice;
    var n := Clamped(|data|, pos, |s|);
    var m := Clamped(|data|, pos + n, |t|);
    ClampsAdd(|data| - pos, |s|, |t|);
    assert Clamped(|data|, pos, |s + t|) == n + m;
    GluedSplice(s, t, data, pos, n, m);
  }

  /** Clamping two lengths in turn is clamping their sum. */
  lemma ClampsAdd(room: nat, a: nat, b: nat)
    ensures Min(a + b, room) == Min(a, room) + Min(b, room - Min(a, room))
  {
  }

  lemma {:induction false} GetKeepsLengths(data: seq<byte>, pos: nat, segs: seq<seq<byte>>, i: nat)
    requires pos <= |data| && i < |segs|
    ensures |GetSegs(data, pos, segs).0[i]| == |segs[i]|
    decreases |segs|
  {
    if i > 0 {
      GetKeepsLengths(data, pos + Clamped(|data|, pos, |segs[0]|), segs[1..], i - 1);
    }
  }

  /** The first segment of a read, and the others. */
  lemma GetStep(data: seq<byte>, pos: nat, segs: seq<seq<byte>>)
    requires pos <= |data| && segs != []
    ensures var n := Clamped(|data|, pos, |segs[0]|);
      var first, rest := Filled(data, pos, segs[0]), GetSegs(data, pos + n, segs[1..]);
      && GetSegs(data, pos, segs) == ([first] + rest.0, rest.1)
      && Concat(GetSegs(data, pos, segs).0) == first + Concat(rest.0)
  {
    var n := Clamped(|data|, pos, |segs[0]|);
    var first, rest := Filled(data, pos, segs[0]), GetSegs(data, pos + n, segs[1..]);
    assert ([first] + rest.0)[1..] == rest.0;
  }

  /** The same, from the middle of a segment list on. */
  lemma GetStepAt(data: seq<byte>, pos: nat, segs: seq<seq<byte>>, i: nat, goal: seq<seq<byte>>)
    requires pos <= |data| && i < |segs| == |goal| && goal[i..] == GetSegs(data, pos, segs[i..]).0
    ensures var n := Clamped(|data|, pos, |segs[i]|);
      && goal[i] == Filled(data, pos, segs[i])
      && goal[i + 1..] == GetSegs(data, pos + n, segs[i + 1..]).0
      && GetSegs(data, pos, segs[i..]).1 == GetSegs(data, pos + n, segs[i + 1..]).1
  {
    hide GetSegs, Filled, Concat;
    GetStep(data, pos, segs[i..]);
    assert segs[i..][0] == segs[i] && goal[i..][0] == goal[i];
    assert segs[i..][1..] == segs[i + 1..] && goal[i..][1..] == goal[i + 1..];
    var n := Clamped(|data|, pos, |segs[i]|);
    var first, rest := Filled(data, pos, segs[i]), GetSegs(data, pos + n, segs[i + 1..]);
    assert goal[i..] == [first] + rest.0;
    assert ([first] + rest.0)[1..] == rest.0;
  }

  lemma GetNone(data: seq<byte>, pos: nat)
    requires pos <= |data|
    ensures GetSegs(data, pos, []) == ([], pos)
  {
  }

  lemma PutNone(data: seq<byte>, pos: nat)
    requires pos <= |data|
    ensures PutSegs(data, pos, []) == (data, pos)
  {
  }

  lemma PutStep(data: seq<byte>, pos: nat, segs: seq<seq<byte>>)
    requires pos <= |data| && segs != []
    ensures var n := Clamped(|data|, pos, |segs[0]|);
      PutSegs(data, pos, segs) == PutSegs(Splice(data, pos, segs[0][..n]), pos + n, segs[1..])
  {
  }

  /** The first segment of a write, from the middle of a segment list on. */
  lemma PutStepAt(data: seq<byte>, pos: nat, segs: seq<seq<byte>>, i: nat)
    requires pos <= |data| && i < |segs|
    ensures var n := Clamped(|data|, pos, |segs[i]|);
      PutSegs(data, pos, segs[i..]) == PutSegs(Splice(data, pos, segs[i][..n]), pos + n, segs[i + 1..])
  {
    hide PutSegs;
    PutStep(data, pos, segs[i..]);
    assert segs[i..][0] == segs[i] && segs[i..][1..] == segs[i + 1..];
  }

  lemma GluedSplice(s: seq<byte>, t: seq<byte>, data: seq<byte>, pos: nat, n: nat, m: nat)
    requires n <= |s| && m <= |t| && pos + n + m <= |data| && (n == |s| || m == 0)
    ensures Splice(s, 0, data[pos..pos + n]) + Splice(t, 0, data[pos + n..pos + n + m])
      == Splice(s + t, 0, data[pos..pos + (n + m)])
  {
    var x, y := data[pos..pos + n], data[pos + n..pos + n + m];
    assert data[pos..pos + (n + m)] == x + y;
    GluedFronts(s, t, x, y);
  }

  lemma GluedFronts(s: seq<byte>, t: seq<byte>, x: seq<byte>, y: seq<byte>)
    requires |x| <= |s| && |y| <= |t| && (|x| == |s| || |y| == 0)
    ensures Splice(s, 0, x) + Splice(t, 0, y) == Splice(s + t, 0, x + y)
  {
    hide Splice;
    var left, right := Splice(s, 0, x) + Splice(t, 0, y), Splice(s + t, 0, x + y);
    assert |left| == |right|;
    forall i | 0 <= i < |left| ensures left[i] == right[i] {
    }
  }

  /** How a request is cut into segments does not matter to the device. */
  lemma WriteSegmentation(data: seq<byte>, pos: nat, segs: seq<seq<byte>>, others: seq<seq<byte>>)
    requires pos <= |data| && Concat(segs) == Concat(others)
    ensures PutSegs(data, pos, segs) == PutSegs(data, pos, others)
  {
    PutIsSplice(data, pos, segs);
    PutIsSplice(data, pos, others);
  }

  /** A later read of the same start and total length, cut into any other segments, returns exactly
      the bytes written, and the rest of the device is as before; when the request runs past the end
      of the device, this holds for the part that fits and the rest of the read's segments keeps what
      it held. */
  lemma WriteThenRead(data: seq<byte>, pos: nat, segs: seq<seq<byte>>, into: seq<seq<byte>>)
    requires pos <= |data| && |Concat(into)| == |Concat(segs)|
    ensures var (data', end) := PutSegs(data, pos, segs);
      var (got, end') := GetSegs(data', pos, into);
      && end == end' == pos + Min(|Concat(segs)|, |data| - pos)
      && Concat(got) == Concat(segs)[..end - pos] + Concat(into)[end - pos..]
      && data'[..pos] == data[..pos] && data'[end..] == data[end..]
  {
    hide PutSegs, GetSegs, Splice, Concat;
    var all := Take(Concat(segs), |data| - pos);
    PutIsSplice(data, pos, segs);
    GetIsSplice(Splice(data, pos, all), pos, into);
    SpliceAround(data, pos, all);
    SpliceAtFront(Concat(into), all);
  }

  lemma SpliceAround(s: seq<byte>, at: nat, t: seq<byte>)
    requires at + |t| <= |s|
    ensures Splice(s, at, t)[at..at + |t|] == t
    ensures Splice(s, at, t)[..at] == s[..at] && Splice(s, at, t)[at + |t|..] == s[at + |t|..]
  {
  }

  lemma SpliceAtFront(s: seq<byte>, t: seq<byte>)
    requires |t| <= |s|
    ensures Splice(s, 0, t) == t + s[|t|..]
  {
  }

  // ---------------------------------------------------------------------------------------------
  // The unsegmented transfer

  /** The device and the buffer after `sbull_transfer`: refused without effect beyond the end. */
  function Transferred(data: seq<byte>, sector: nat, buffer: seq<byte>, write: bool): (r: (seq<byte>, seq<byte>))
    ensures |r.0| == |data| && |r.1| == |buffer|
    ensures sector * 512 + |buffer| > |data| ==> r == (data, buffer)
    ensures if write then r.1 == buffer else r.0 == data
  {
    var offset := sector * KERNEL_SECTOR_SIZE;
    if offset + |buffer| > |data| then (data, buffer)
    else if write then (Splice(data, offset, buffer), buffer)
    else (data, data[offset..offset + |buffer|])
  }

  // ---------------------------------------------------------------------------------------------
  // The code

  ghost function Contents(segs: seq<array<byte>>): (r: seq<seq<byte>>)
    reads segs
    ensures |r| == |segs|
    ensures forall i :: 0 <= i < |segs| ==> r[i] == segs[i][..]
  {
    if segs == [] then [] else [segs[0][..]] + Contents(segs[1..])
  }

  /** How a request ends.  `Escaped` is not an outcome the code reports: with a start beyond the device,
      `dev_size - pos` is negative, the copy length it is turned into is close to 2^64, and the copy
      leaves the array; the model stops before it. */
  datatype Ending = Completed | Bug | Escaped

  /** The first segment of a request would already be copied out of the array. */
  predicate Outside(size: nat, start: nat, nsegs: nat) {
    start > size && nsegs > 0
  }

  class Disk {
    const size: nat
    const capacity: nat
    const data: array<byte>

    ghost predicate Valid() {
      size == data.Length
    }

    /** A device whose memory was allocated, and which is added to the system. */
    constructor (nsectors: int, hardsect: int)
      requires DevSize(nsectors, hardsect) > 0
      ensures Valid() && fresh(data)
      ensures size == DevSize(nsectors, hardsect) && capacity == Capacity(nsectors, hardsect)
    {
      size := (nsectors * hardsect) % UINT_RANGE;
      data := new byte[(nsectors * hardsect) % UINT_RANGE](_ => 0);
      capacity := Capacity(nsectors, hardsect);
    }

    /** One segment of a write. */
    method DrainSegment(seg: array<byte>, pos: nat) returns (b_len: nat)
      requires Valid() && pos <= size && seg != data
      modifies data
      ensures b_len == Clamped(size, pos, seg.Length)
      ensures data[..] == Splice(old(data[..]), pos, seg[..][..b_len])
    {
      b_len := seg.Length;
      if pos + b_len > size {
        b_len := size - pos;
      }
      CopyBytes(data, pos, seg, 0, b_len);
      assert seg[0..b_len] == seg[..][..b_len];
    }

    /** A write request: the segments are only read. */
    method WriteRequest(start: nat, segs: seq<array<byte>>) returns (nr_bytes: Option<nat>)
      requires Valid() && forall i :: 0 <= i < |segs| ==> segs[i] != data
      modifies data
      ensures nr_bytes.None? <==> Outside(size, start, |segs|)
      ensures start > size ==> data[..] == old(data[..]) && (segs == [] ==> nr_bytes == Some(0))
      ensures start <= size ==>
        (data[..], start + nr_bytes.value) == PutSegs(old(data[..]), start, old(Contents(segs)))
    {
      hide PutSegs;
      var pos, nr := start, 0;
      ghost var was, all := data[..], Contents(segs);
      var i := 0;
      assert all[0..] == all;
      while i < |segs|
        invariant 0 <= i <= |segs| && Contents(segs) == all && nr == pos - start >= 0
        invariant start > size ==> i == 0 && pos == start && data[..] == was
        invariant start <= size ==> pos <= size && PutSegs(was, start, all) == PutSegs(data[..], pos, all[i..])
      {
        if pos > size {
          return None;
        }
        PutStepAt(data[..], pos, all, i);
        var b_len := DrainSegment(segs[i], pos);
        pos := pos + b_len;
        nr := nr + b_len;
        i := i + 1;
      }
      if start <= size {
        PutNone(data[..], pos);
      }
      assert all[i..] == [];
      nr_bytes := Some(nr);
    }

    ghost predicate Separate(segs: seq<array<byte>>) {
      && (forall i :: 0 <= i < |segs| ==> segs[i] != data)
      && (forall i, j :: 0 <= i < j < |segs| ==> segs[i] != segs[j])
    }

    /** The first `i` segments hold what they should in the end, the others what they held. */
    ghost predicate FilledUpTo(segs: seq<array<byte>>, i: nat, was: seq<seq<byte>>, goal: seq<seq<byte>>)
      reads segs
    {
      && |was| == |segs| == |goal|
      && forall k :: 0 <= k < |segs| ==> segs[k][..] == if k < i then goal[k] else was[k]
    }

    /** A read that has come to segment `i` and position `pos`. */
    ghost predicate ReadAt(segs: seq<array<byte>>, i: nat, pos: nat, was: seq<seq<byte>>, goal: (seq<seq<byte>>, nat))
      reads data, segs
    {
      && Valid() && pos <= size && i <= |segs|
      && FilledUpTo(segs, i, was, goal.0)
      && goal.0[i..] == GetSegs(data[..], pos, was[i..]).0
      && goal.1 == GetSegs(data[..], pos, was[i..]).1
    }

    method FillOne(seg: array<byte>, pos: nat, n: nat, ghost was: seq<byte>)
      requires Valid() && pos <= size && n == Clamped(size, pos, seg.Length) && seg != data && seg[..] == was
      modifies seg
      ensures seg[..] == Filled(data[..], pos, was)
    {
      assert data[pos..pos + n] == data[..][pos..pos + n];
      CopyBytes(seg, 0, data, pos, n);
    }

    /** One segment of a read. */
    method FillSegment(segs: seq<array<byte>>, i: nat, pos: nat,
                       ghost was: seq<seq<byte>>, ghost goal: (seq<seq<byte>>, nat))
        returns (b_len: nat)
      requires Separate(segs) && i < |segs| && ReadAt(segs, i, pos, was, goal)
      modifies segs[i]
      ensures ReadAt(segs, i + 1, pos + b_len, was, goal)
    {
      hide GetSegs, Filled;
      GetStepAt(data[..], pos, was, i, goal.0);
      b_len := segs[i].Length;
      if pos + b_len > size {
        b_len := size - pos;
      }
      FillOne(segs[i], pos, b_len, was[i]);
    }

    lemma ReadStarts(segs: seq<array<byte>>, start: nat)
      requires Valid() && start <= size
      ensures ReadAt(segs, 0, start, Contents(segs), GetSegs(data[..], start, Contents(segs)))
    {
      assert Contents(segs)[0..] == Contents(segs);
    }

    lemma ReadEnds(segs: seq<array<byte>>, pos: nat, was: seq<seq<byte>>, goal: (seq<seq<byte>>, nat))
      requires ReadAt(segs, |segs|, pos, was, goal)
      ensures (Contents(segs), pos) == goal
    {
      assert was[|segs|..] == [];
      assert Contents(segs) == goal.0;
    }

    /** A read request: the device is only read. */
    method ReadRequest(start: nat, segs: seq<array<byte>>) returns (nr_bytes: Option<nat>)
      requires Valid() && Separate(segs)
      modifies set i | 0 <= i < |segs| :: segs[i]
      ensures data[..] == old(data[..])
      ensures nr_bytes.None? <==> Outside(size, start, |segs|)
      ensures start > size ==> Contents(segs) == old(Contents(segs)) && (segs == [] ==> nr_bytes == Some(0))
      ensures start <= size ==>
        (Contents(segs), start + nr_bytes.value) == GetSegs(data[..], start, old(Contents(segs)))
    {
      hide GetSegs, Contents;
      if start > size {
        nr_bytes := if |segs| > 0 then None else Some(0);
      } else {
        var nr := FillSegments(start, segs);
        nr_bytes := Some(nr);
      }
    }

    /** The loop of a read request that starts within the device. */
    method FillSegments(start: nat, segs: seq<array<byte>>) returns (nr_bytes: nat)
      requires Valid() && start <= size && Separate(segs)
      modifies set i | 0 <= i < |segs| :: segs[i]
      ensures data[..] == old(data[..])
      ensures (Contents(segs), start + nr_bytes) == GetSegs(data[..], start, old(Contents(segs)))
    {
      hide GetSegs, Contents, ReadAt;
      var pos := start;
      nr_bytes := 0;
      ghost var all := Contents(segs);
      ghost var goal := GetSegs(data[..], start, all);
      var i := 0;
      ReadStarts(segs, start);
      while i < |segs|
        invariant 0 <= i <= |segs| && data[..] == old(data[..])
        invariant start <= pos && nr_bytes == pos - start
        invariant ReadAt(segs, i, pos, all, goal)
      {
        var b_len := FillSegment(segs, i, pos, all, goal);
        pos := pos + b_len;
        nr_bytes := nr_bytes + b_len;
        i := i + 1;
      }
      ReadEnds(segs, pos, all, goal);
    }

    /** `_queue_rq` around either: BUG is reached when bytes of the request are left over. */
    method QueueWrite(start: nat, segs: seq<array<byte>>) returns (end: Ending)
      requires Valid() && forall i :: 0 <= i < |segs| ==> segs[i] != data
      modifies data
      ensures end.Escaped? <==> Outside(size, start, |segs|)
      ensures start > size ==> data[..] == old(data[..])
      ensures start <= size ==>
        data[..] == Splice(old(data[..]), start, Take(old(Concat(Contents(segs))), size - start))
      ensures end.Bug? <==> start <= size && start + |old(Concat(Contents(segs)))| > size
    {
      ghost var all := Contents(segs);
      if start <= size {
        PutIsSplice(data[..], start, all);
      }
      var nr := WriteRequest(start, segs);
      if nr.None? {
        return Escaped;
      }
      var total := TotalLength(segs);
      end := if nr.value < total then Bug else Completed;
    }

    method QueueRead(start: nat, segs: seq<array<byte>>) returns (end: Ending)
      requires Valid() && Separate(segs)
      modifies set i | 0 <= i < |segs| :: segs[i]
      ensures end.Escaped? <==> Outside(size, start, |segs|)
      ensures start > size ==> Contents(segs) == old(Contents(segs))
      ensures start <= size ==> var all := old(Concat(Contents(segs)));
        Concat(Contents(segs)) == Splice(all, 0, data[start..start + Min(|all|, size - start)])
      ensures end.Bug? <==> start <= size && start + |old(Concat(Contents(segs)))| > size
    {
      hide GetSegs, Contents;
      ghost var all := Contents(segs);
      if start <= size {
        GetIsSplice(data[..], start, all);
        assert data[..][start..start + Min(|Concat(all)|, size - start)]
            == data[start..start + Min(|Concat(all)|, size - start)];
      }
      var total := TotalLength(segs);
      var nr := ReadRequest(start, segs);
      if nr.None? {
        return Escaped;
      }
      end := if nr.value < total then Bug else Completed;
    }

    /** `sbull_transfer`: one buffer, scaled by the kernel sector size, refused beyond the end. */
    method Transfer(sector: nat, nsect: nat, buffer: array<byte>, write: bool)
      requires Valid() && buffer != data && buffer.Length == nsect * KERNEL_SECTOR_SIZE
      modifies data, buffer
      ensures (data[..], buffer[..]) == Transferred(old(data[..]), sector, old(buffer[..]), write)
    {
      var offset := sector * KERNEL_SECTOR_SIZE;
      var nbytes := nsect * KERNEL_SECTOR_SIZE;
      if offset + nbytes > size {
        return;
      }
      if write {
        CopyBytes(data, offset, buffer, 0, nbytes);
        assert buffer[0..nbytes] == buffer[..];
      } else {
        ghost var was := buffer[..];
        CopyBytes(buffer, 0, data, offset, nbytes);
        SpliceAtFront(was, data[offset..offset + nbytes]);
        assert |was| == nbytes && was[nbytes..] == [];
        assert data[offset..offset + nbytes] == data[..][offset..offset + nbytes];
        assert buffer[..] == data[offset..offset + nbytes];
      }
    }
  }

  /** The memory and capacity part of `setup_device`: an allocation of size 0 fails like any other, and
      the device is then never advertised. */
  method SetupDevice(nsectors: int, hardsect: int, memOk: bool) returns (disk: Option<Disk>)
    ensures disk.None? <==> DevSize(nsectors, hardsect) == 0 || !memOk
    ensures disk.Some? ==>
      && disk.value.Valid() && fresh(disk.value) && fresh(disk.value.data)
      && disk.value.size == DevSize(nsectors, hardsect)
      && disk.value.capacity == Capacity(nsectors, hardsect)
  {
    if (nsectors * hardsect) % UINT_RANGE == 0 || !memOk {
      return None;
    }
    var d := new Disk(nsectors, hardsect);
    disk := Some(d);
  }

  /** The length of a request, as the block layer knows it. */
  method TotalLength(segs: seq<array<byte>>) returns (n: nat)
    ensures n == |Concat(Contents(segs))|
  {
    n := 0;
    var i := |segs|;
    while i > 0
      invariant 0 <= i <= |segs|
      invariant n == |Concat(Contents(segs)[i..])|
    {
      i := i - 1;
      assert Contents(segs)[i..][1..] == Contents(segs)[i + 1..];
      n := n + segs[i].Length;
    }
  }
}
