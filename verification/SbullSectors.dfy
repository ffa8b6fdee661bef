/** sbull seen from the block layer: requests in sectors, and the scale between sectors and bytes.

    `sbull_transfer` multiplies the sector by the kernel sector size; `do_simple_request` uses the
    sector number as a byte position as it is.  The scale is a parameter here. */
module SbullSectors {
  import opened Bytes
  import opened Sbull

  /** A request of whole sectors. */
  ghost predicate WholeSectors(segs: seq<seq<byte>>, nsect: nat) {
    |Concat(segs)| == nsect * KERNEL_SECTOR_SIZE
  }

  // ---------------------------------------------------------------------------------------------
  // Requests inside the capacity

  lemma MulMonotone(a: nat, b: nat, k: nat)
    requires a <= b
    ensures a * k <= b * k
  {
  }

  lemma ScaledWithin(s: nat, n: nat, cap: nat, scale: nat)
    requires scale <= KERNEL_SECTOR_SIZE && s + n <= cap
    ensures s * scale + n * KERNEL_SECTOR_SIZE <= cap * KERNEL_SECTOR_SIZE
  {
    MulMonotone(scale, KERNEL_SECTOR_SIZE, s);
    MulMonotone(s + n, cap, KERNEL_SECTOR_SIZE);
  }

  /** A request that starts within the device and whose bytes are all copied, written or read: the
      position ends up behind the last of them. */
  ghost predicate CopiedInFull(data: seq<byte>, at: nat, segs: seq<seq<byte>>) {
    && at <= |data|
    && PutSegs(data, at, segs).1 == at + |Concat(segs)|
    && GetSegs(data, at, segs).1 == at + |Concat(segs)|
  }

  lemma FitsMeansCopied(data: seq<byte>, at: nat, segs: seq<seq<byte>>)
    ensures CopiedInFull(data, at, segs) <==> at + |Concat(segs)| <= |data|
  {
    hide PutSegs, GetSegs, Concat, Splice;
    if at <= |data| {
      PutIsSplice(data, at, segs);
      GetIsSplice(data, at, segs);
    }
  }

  /** On a device that is set up, every request of whole sectors inside the advertised capacity is copied
      in full. */
  ghost predicate NeverClamped(nsectors: int, hardsect: int, scale: nat) {
    DevSize(nsectors, hardsect) > 0 ==>
      forall data: seq<byte>, s: nat, n: nat, segs: seq<seq<byte>> ::
        |data| == DevSize(nsectors, hardsect) && s + n <= Capacity(nsectors, hardsect) && WholeSectors(segs, n)
        ==> CopiedInFull(data, s * scale, segs)
  }

  /** At either scale, requests inside the capacity are never clamped exactly when the capacity in bytes
      is within the device size, or the size has wrapped to 0 and there is no device. */
  lemma NeverClampedExactly(nsectors: int, hardsect: int, scale: nat)
    requires scale <= KERNEL_SECTOR_SIZE
    ensures var size, cap := DevSize(nsectors, hardsect), Capacity(nsectors, hardsect);
      NeverClamped(nsectors, hardsect, scale) <==> size == 0 || cap * KERNEL_SECTOR_SIZE <= size
  {
    hide CopiedInFull, DevSize, Capacity, Concat;
    var size, cap := DevSize(nsectors, hardsect), Capacity(nsectors, hardsect);
    if cap * KERNEL_SECTOR_SIZE <= size {
      forall data: seq<byte>, s: nat, n: nat, segs: seq<seq<byte>> |
        |data| == size && s + n <= cap && WholeSectors(segs, n)
        ensures CopiedInFull(data, s * scale, segs)
      {
        ScaledWithin(s, n, cap, scale);
        FitsMeansCopied(data, s * scale, segs);
      }
    } else if size > 0 {
      WholeDeviceClamped(size, cap);
      var data, segs := Zeros(size), [Zeros(cap * KERNEL_SECTOR_SIZE)];
      assert |data| == size && 0 + cap <= cap && WholeSectors(segs, cap);
      assert !CopiedInFull(data, 0 * scale, segs);
    }
  }

  function Zeros(n: nat): (r: seq<byte>)
    ensures |r| == n
  {
    seq(n, _ => 0)
  }

  /** The request for all sectors does not fit. */
  lemma WholeDeviceClamped(size: nat, cap: nat)
    requires cap * KERNEL_SECTOR_SIZE > size
    ensures var segs := [Zeros(cap * KERNEL_SECTOR_SIZE)];
      WholeSectors(segs, cap) && !CopiedInFull(Zeros(size), 0, segs)
  {
    OneWholeSegment(cap);
    FitsMeansCopied(Zeros(size), 0, [Zeros(cap * KERNEL_SECTOR_SIZE)]);
  }

  lemma CapacityIsProduct(nsectors: nat, hardsect: nat)
    requires nsectors * hardsect < UINT_RANGE
    ensures Capacity(nsectors, hardsect) == nsectors * (hardsect / KERNEL_SECTOR_SIZE)
    ensures nsectors * (hardsect / KERNEL_SECTOR_SIZE) * KERNEL_SECTOR_SIZE <= nsectors * hardsect
  {
    var h := hardsect / KERNEL_SECTOR_SIZE;
    MulMonotone(h * KERNEL_SECTOR_SIZE, hardsect, nsectors);
    assert nsectors * h * KERNEL_SECTOR_SIZE == h * KERNEL_SECTOR_SIZE * nsectors;
    assert nsectors * h * KERNEL_SECTOR_SIZE < UINT_RANGE;
    SmallProducts(nsectors * h);
  }

  /** Without unsigned overflow of the size, the capacity is within it. */
  lemma CapacityFits(nsectors: nat, hardsect: nat)
    requires nsectors * hardsect < UINT_RANGE
    ensures Capacity(nsectors, hardsect) * KERNEL_SECTOR_SIZE <= DevSize(nsectors, hardsect)
  {
    hide Capacity;
    CapacityIsProduct(nsectors, hardsect);
  }

  /** Without overflow the size is the product, and the capacity in bytes falls short of it by what the
      sector size exceeds a multiple of 512, for every sector; so it is equal for multiples of 512. */
  lemma CapacityIsSize(nsectors: nat, hardsect: nat)
    requires nsectors * hardsect < UINT_RANGE
    ensures DevSize(nsectors, hardsect) == nsectors * hardsect
    ensures DevSize(nsectors, hardsect) - Capacity(nsectors, hardsect) * 512 == nsectors * (hardsect % 512)
    ensures hardsect % 512 == 0 ==> Capacity(nsectors, hardsect) * 512 == DevSize(nsectors, hardsect)
  {
    hide Capacity;
    CapacityIsProduct(nsectors, hardsect);
    var h, rest := hardsect / 512, hardsect % 512;
    assert nsectors * (h * 512 + rest) == nsectors * h * 512 + nsectors * rest;
  }

  /** A negative product of sectors is advertised as close to 2^64 of them. */
  lemma NegativeCapacity(nsectors: int, hardsect: int)
    requires hardsect >= 512 && -0x8000_0000 <= nsectors * (hardsect / 512) < 0
    ensures Capacity(nsectors, hardsect) == 0x1_0000_0000_0000_0000 + nsectors * (hardsect / 512)
  {
    assert Quotient(hardsect, 512) == hardsect / 512;
  }

  lemma SmallProducts(x: nat)
    requires x < UINT_RANGE / 2
    ensures ToSector(ToInt(x)) == x
  {
  }

  /** On a device that is set up, no nonempty request inside the capacity escapes the array. */
  ghost predicate NeverOutside(nsectors: int, hardsect: int, scale: nat) {
    DevSize(nsectors, hardsect) > 0 ==>
      forall s: nat, n: nat, segs: seq<seq<byte>> ::
        n > 0 && s + n <= Capacity(nsectors, hardsect) && WholeSectors(segs, n)
        ==> !Outside(DevSize(nsectors, hardsect), s * scale, |segs|)
  }

  /** At any scale, no nonempty request inside the capacity escapes the array exactly when the last sector
      starts within the device, or there is no sector or no device. */
  lemma StartsInsideExactly(nsectors: int, hardsect: int, scale: nat)
    ensures var size, cap := DevSize(nsectors, hardsect), Capacity(nsectors, hardsect);
      NeverOutside(nsectors, hardsect, scale) <==> size == 0 || cap == 0 || (cap - 1) * scale <= size
  {
    hide DevSize, Capacity, Concat;
    var size, cap := DevSize(nsectors, hardsect), Capacity(nsectors, hardsect);
    if size > 0 && cap > 0 {
      if (cap - 1) * scale <= size {
        forall s: nat, n: nat, segs: seq<seq<byte>> | n > 0 && s + n <= cap && WholeSectors(segs, n)
          ensures !Outside(size, s * scale, |segs|)
        {
          MulMonotone(s, cap - 1, scale);
        }
      } else {
        var segs := [Zeros(1 * KERNEL_SECTOR_SIZE)];
        OneWholeSegment(1);
        assert 1 > 0 && (cap - 1) + 1 <= cap && WholeSectors(segs, 1);
        assert Outside(size, (cap - 1) * scale, |segs|);
      }
    }
  }

  lemma OneWholeSegment(n: nat)
    ensures WholeSectors([Zeros(n * KERNEL_SECTOR_SIZE)], n)
  {
    var z := Zeros(n * KERNEL_SECTOR_SIZE);
    assert Concat([z]) == z + Concat([]) == z;
  }

  /** 2^23 + 1 sectors of 512 bytes: the size wraps to 512, so the device is set up, and advertised with
      all its sectors.  A read or write of its first two sectors is clamped after 512 bytes, and a request
      at sector 1000 starts beyond the device even at scale 1. */
  lemma CapacityOverflows(data: seq<byte>, segs: seq<seq<byte>>)
    requires |data| == DevSize(0x80_0001, 512) && WholeSectors(segs, 2)
    ensures |data| == 512 && Capacity(0x80_0001, 512) == 0x80_0001
    ensures PutSegs(data, 0, segs).1 == 512 && GetSegs(data, 0, segs).1 == 512
    ensures !CopiedInFull(data, 0, segs) && Outside(|data|, 1000, 1)
  {
    hide PutSegs, GetSegs, Concat, Splice, CopiedInFull;
    PutIsSplice(data, 0, segs);
    GetIsSplice(data, 0, segs);
    FitsMeansCopied(data, 0, segs);
  }

  /** Where the capacity is within the size: whatever the segments, a request of whole sectors inside the
      capacity stores or returns every byte at either scale, and nothing is left over for BUG. */
  lemma InsideCapacityCopiesAll(nsectors: int, hardsect: int, data: seq<byte>, s: nat, n: nat, scale: nat,
                                segs: seq<seq<byte>>)
    requires Capacity(nsectors, hardsect) * KERNEL_SECTOR_SIZE <= DevSize(nsectors, hardsect)
    requires |data| == DevSize(nsectors, hardsect) && scale <= KERNEL_SECTOR_SIZE
    requires s + n <= Capacity(nsectors, hardsect) && WholeSectors(segs, n)
    ensures s * scale + n * KERNEL_SECTOR_SIZE <= |data|
    ensures PutSegs(data, s * scale, segs) ==
      (Splice(data, s * scale, Concat(segs)), s * scale + n * KERNEL_SECTOR_SIZE)
    ensures var (got, end) := GetSegs(data, s * scale, segs);
      && Concat(got) == data[s * scale..s * scale + n * KERNEL_SECTOR_SIZE]
      && end == s * scale + n * KERNEL_SECTOR_SIZE
  {
    hide DevSize, Capacity, PutSegs, GetSegs, Concat, Splice;
    ScaledWithin(s, n, Capacity(nsectors, hardsect), scale);
    WholeRequest(data, s * scale, segs);
  }

  /** A request that fits on the device. */
  lemma WholeRequest(data: seq<byte>, at: nat, segs: seq<seq<byte>>)
    requires at + |Concat(segs)| <= |data|
    ensures PutSegs(data, at, segs) == (Splice(data, at, Concat(segs)), at + |Concat(segs)|)
    ensures var (got, end) := GetSegs(data, at, segs);
      Concat(got) == data[at..at + |Concat(segs)|] && end == at + |Concat(segs)|
  {
    hide PutSegs, GetSegs, Concat, Splice;
    PutIsSplice(data, at, segs);
    GetIsSplice(data, at, segs);
    SpliceAtFront(Concat(segs), data[at..at + |Concat(segs)|]);
  }

  // ---------------------------------------------------------------------------------------------
  // Isolation

  ghost predicate DisjointSectors(s: nat, n: nat, t: nat, m: nat) {
    s + n <= t || t + m <= s
  }

  /** A write request at sector `s` leaves the `m` sectors from `t` on as they read. */
  ghost predicate LeavesAlone(scale: nat, data: seq<byte>, s: nat, segs: seq<seq<byte>>, t: nat, m: nat)
    requires s * scale <= |data| && t * scale + m * KERNEL_SECTOR_SIZE <= |data|
  {
    var lo, hi := t * scale, t * scale + m * KERNEL_SECTOR_SIZE;
    PutSegs(data, s * scale, segs).0[lo..hi] == data[lo..hi]
  }

  ghost predicate Fits(scale: nat, data: seq<byte>, s: nat, n: nat) {
    s * scale + n * KERNEL_SECTOR_SIZE <= |data|
  }

  /** The segment loop, writing one sector range, leaves every disjoint sector range as it reads. */
  ghost predicate Isolates(scale: nat) {
    forall data: seq<byte>, s: nat, segs: seq<seq<byte>>, n: nat, t: nat, m: nat ::
      (&& WholeSectors(segs, n) && DisjointSectors(s, n, t, m)
       && Fits(scale, data, s, n) && Fits(scale, data, t, m))
      ==> LeavesAlone(scale, data, s, segs, t, m)
  }

  lemma RangesApart(s: nat, n: nat, t: nat, scale: nat)
    requires s + n <= t && scale >= KERNEL_SECTOR_SIZE
    ensures s * scale + n * KERNEL_SECTOR_SIZE <= t * scale
  {
    MulMonotone(s + n, t, scale);
    MulMonotone(KERNEL_SECTOR_SIZE, scale, n);
  }

  lemma SpliceMisses(data: seq<byte>, at: nat, bytes: seq<byte>, lo: nat, hi: nat)
    requires at + |bytes| <= |data| && lo <= hi <= |data|
    requires hi <= at || at + |bytes| <= lo
    ensures Splice(data, at, bytes)[lo..hi] == data[lo..hi]
  {
  }

  lemma DisjointMisses(scale: nat, data: seq<byte>, s: nat, segs: seq<seq<byte>>, n: nat, t: nat, m: nat)
    requires scale >= KERNEL_SECTOR_SIZE && WholeSectors(segs, n) && DisjointSectors(s, n, t, m)
    requires Fits(scale, data, s, n) && Fits(scale, data, t, m)
    ensures LeavesAlone(scale, data, s, segs, t, m)
  {
    hide PutSegs, Concat, Splice;
    if s + n <= t {
      RangesApart(s, n, t, scale);
    } else {
      RangesApart(t, m, s, scale);
    }
    WholeRequest(data, s * scale, segs);
    SpliceMisses(data, s * scale, Concat(segs), t * scale, t * scale + m * KERNEL_SECTOR_SIZE);
  }

  /** The segment loop isolates sectors exactly when the scale is at least the sector size:
      `sbull_transfer`'s 512 is the least that does, and the 1 of `do_simple_request` does not. */
  lemma IsolationExactly(scale: nat)
    ensures Isolates(scale) <==> scale >= KERNEL_SECTOR_SIZE
  {
    hide WholeSectors, LeavesAlone;
    if scale >= KERNEL_SECTOR_SIZE {
      forall data: seq<byte>, s: nat, segs: seq<seq<byte>>, n: nat, t: nat, m: nat |
        WholeSectors(segs, n) && DisjointSectors(s, n, t, m) && Fits(scale, data, s, n) && Fits(scale, data, t, m)
        ensures LeavesAlone(scale, data, s, segs, t, m)
      {
        DisjointMisses(scale, data, s, segs, n, t, m);
      }
    } else {
      NeighboursOverlap(scale);
    }
  }

  /** Below that scale a write of sector 0 changes sector 1. */
  lemma NeighboursOverlap(scale: nat)
    requires scale < KERNEL_SECTOR_SIZE
    ensures !Isolates(scale)
  {
    hide PutSegs;
    var data := seq(2 * KERNEL_SECTOR_SIZE, _ => 0 as byte);
    var bytes := seq(KERNEL_SECTOR_SIZE, _ => 1 as byte);
    var lo, hi := 1 * scale, 1 * scale + 1 * KERNEL_SECTOR_SIZE;
    assert Concat([bytes]) == bytes + Concat([]) == bytes;
    WholeRequest(data, 0 * scale, [bytes]);
    var after := Splice(data, 0 * scale, bytes);
    assert after[lo..hi][0] == 1 && data[lo..hi][0] == 0;
    assert !LeavesAlone(scale, data, 0, [bytes], 1, 1);
    assert WholeSectors([bytes], 1) && DisjointSectors(0, 1, 1, 1);
    assert Fits(scale, data, 0, 1) && Fits(scale, data, 1, 1);
  }

  // ---------------------------------------------------------------------------------------------
  // sbull_transfer: a map from sectors to contents

  /** The contents of sector `i`. */
  function Sector(data: seq<byte>, i: nat): seq<byte>
    requires (i + 1) * KERNEL_SECTOR_SIZE <= |data|
  {
    data[i * KERNEL_SECTOR_SIZE..(i + 1) * KERNEL_SECTOR_SIZE]
  }

  /** The device as a map from sector numbers to contents. */
  function Sectors(data: seq<byte>): (r: seq<seq<byte>>)
    ensures |r| == |data| / KERNEL_SECTOR_SIZE
    ensures forall i :: 0 <= i < |r| ==> r[i] == Sector(data, i)
  {
    seq(|data| / KERNEL_SECTOR_SIZE, i requires 0 <= i < |data| / KERNEL_SECTOR_SIZE => Sector(data, i))
  }

  /** One call of `sbull_transfer` with a buffer of whole sectors. */
  datatype Call = Call(sector: nat, buffer: seq<byte>, write: bool)

  predicate WholeCall(c: Call) {
    |c.buffer| % KERNEL_SECTOR_SIZE == 0
  }

  function NumSectors(c: Call): nat {
    |c.buffer| / KERNEL_SECTOR_SIZE
  }

  /** The same call on the map: sectors are replaced or looked up, and a call that names a sector the map
      does not have does nothing. */
  function MapTransfer(m: seq<seq<byte>>, c: Call): (seq<seq<byte>>, seq<byte>) {
    var s, n := c.sector, NumSectors(c);
    if s + n > |m| then (m, c.buffer)
    else if c.write then (m[..s] + Sectors(c.buffer) + m[s + n..], c.buffer)
    else (m, Concat(m[s..s + n]))
  }

  lemma SpliceOneSector(data: seq<byte>, s: nat, bytes: seq<byte>, n: nat, i: nat)
    requires |bytes| == n * KERNEL_SECTOR_SIZE && (s + n) * KERNEL_SECTOR_SIZE <= |data|
    requires (i + 1) * KERNEL_SECTOR_SIZE <= |data|
    ensures Sector(Splice(data, s * KERNEL_SECTOR_SIZE, bytes), i) ==
      if s <= i < s + n then Sector(bytes, i - s) else Sector(data, i)
  {
    var at := s * KERNEL_SECTOR_SIZE;
    var lo, hi := i * KERNEL_SECTOR_SIZE, (i + 1) * KERNEL_SECTOR_SIZE;
    if s <= i < s + n {
      SpliceHits(data, at, bytes, lo - at, hi - at);
    } else {
      SpliceMisses(data, at, bytes, lo, hi);
    }
  }

  lemma SpliceHits(data: seq<byte>, at: nat, bytes: seq<byte>, lo: nat, hi: nat)
    requires at + |bytes| <= |data| && lo <= hi <= |bytes|
    ensures Splice(data, at, bytes)[at + lo..at + hi] == bytes[lo..hi]
  {
  }

  lemma StretchOfSectors(data: seq<byte>, s: nat, n: nat, k: nat)
    requires (s + n) * KERNEL_SECTOR_SIZE <= |data| && k < n
    ensures (k + 1) * KERNEL_SECTOR_SIZE <= n * KERNEL_SECTOR_SIZE
    ensures (s + k + 1) * KERNEL_SECTOR_SIZE <= |data|
    ensures Sector(data[s * KERNEL_SECTOR_SIZE..(s + n) * KERNEL_SECTOR_SIZE], k) == Sector(data, s + k)
  {
    var at, end := s * KERNEL_SECTOR_SIZE, (s + n) * KERNEL_SECTOR_SIZE;
    var lo, hi := k * KERNEL_SECTOR_SIZE, (k + 1) * KERNEL_SECTOR_SIZE;
    MulMonotone(k + 1, n, KERNEL_SECTOR_SIZE);
    SliceOfSlice(data, at, end, lo, hi);
  }

  lemma SliceOfSlice(data: seq<byte>, at: nat, end: nat, lo: nat, hi: nat)
    requires at <= end <= |data| && lo <= hi <= end - at
    ensures data[at..end][lo..hi] == data[at + lo..at + hi]
  {
    var part := data[at..end];
    assert |part[lo..hi]| == |data[at + lo..at + hi]|;
    forall i | 0 <= i < hi - lo ensures part[lo..hi][i] == data[at + lo..at + hi][i] {
      assert part[lo..hi][i] == part[lo + i] == data[at + (lo + i)];
    }
  }

  /** Whole sectors glued together. */
  lemma {:induction false} GluedSectors(data: seq<byte>, s: nat, n: nat)
    requires (s + n) * KERNEL_SECTOR_SIZE <= |data| && s + n <= |Sectors(data)|
    ensures Concat(Sectors(data)[s..s + n]) == data[s * KERNEL_SECTOR_SIZE..(s + n) * KERNEL_SECTOR_SIZE]
    decreases n
  {
    hide Sectors;
    var part := Sectors(data)[s..s + n];
    if n > 0 {
      GluedSectors(data, s + 1, n - 1);
      assert part[1..] == Sectors(data)[s + 1..s + 1 + (n - 1)];
      assert part[0] == Sector(data, s);
      GluedSlices(data, s * KERNEL_SECTOR_SIZE, (s + 1) * KERNEL_SECTOR_SIZE, (s + n) * KERNEL_SECTOR_SIZE);
    }
  }

  lemma GluedSlices(data: seq<byte>, lo: nat, mid: nat, hi: nat)
    requires lo <= mid <= hi <= |data|
    ensures data[lo..mid] + data[mid..hi] == data[lo..hi]
  {
  }

  /** A call fits on the device exactly when the map has its sectors. */
  lemma SameLimit(size: nat, c: Call)
    requires WholeCall(c)
    ensures |c.buffer| == NumSectors(c) * KERNEL_SECTOR_SIZE
    ensures c.sector * KERNEL_SECTOR_SIZE + |c.buffer| > size <==> c.sector + NumSectors(c) > size / KERNEL_SECTOR_SIZE
  {
  }

  lemma WriteRefinesMap(data: seq<byte>, s: nat, bytes: seq<byte>, n: nat)
    requires |bytes| == n * KERNEL_SECTOR_SIZE && s + n <= |Sectors(data)|
    ensures s * KERNEL_SECTOR_SIZE + |bytes| <= |data|
    ensures Sectors(Splice(data, s * KERNEL_SECTOR_SIZE, bytes)) ==
      Sectors(data)[..s] + Sectors(bytes) + Sectors(data)[s + n..]
  {
    hide Sectors, Splice, Sector;
    assert (s + n) * KERNEL_SECTOR_SIZE <= |data|;
    var m, m' := Sectors(data), Sectors(Splice(data, s * KERNEL_SECTOR_SIZE, bytes));
    forall i | 0 <= i < |m'| ensures m'[i] == (m[..s] + Sectors(bytes) + m[s + n..])[i] {
      SpliceOneSector(data, s, bytes, n, i);
    }
  }

  lemma TransferRefinesMap(data: seq<byte>, c: Call)
    requires WholeCall(c)
    ensures var (data', buffer) := Transferred(data, c.sector, c.buffer, c.write);
      (Sectors(data'), buffer) == MapTransfer(Sectors(data), c)
  {
    hide Sectors, Splice, WholeCall, NumSectors;
    var n := NumSectors(c);
    SameLimit(|data|, c);
    if c.sector + n <= |Sectors(data)| {
      if c.write {
        WriteRefinesMap(data, c.sector, c.buffer, n);
      } else {
        GluedSectors(data, c.sector, n);
        assert c.sector * KERNEL_SECTOR_SIZE + |c.buffer| == (c.sector + n) * KERNEL_SECTOR_SIZE;
      }
    }
  }

  /** A run of calls on the device, and on the map: what is left, and each call's buffer. */
  function Serve(data: seq<byte>, calls: seq<Call>): (r: (seq<byte>, seq<seq<byte>>))
    ensures |r.0| == |data|
    decreases |calls|
  {
    if calls == [] then (data, [])
    else
      var (data', buffer) := Transferred(data, calls[0].sector, calls[0].buffer, calls[0].write);
      var (end, buffers) := Serve(data', calls[1..]);
      (end, [buffer] + buffers)
  }

  function MapServe(m: seq<seq<byte>>, calls: seq<Call>): (seq<seq<byte>>, seq<seq<byte>>)
    decreases |calls|
  {
    if calls == [] then (m, [])
    else
      var (m', buffer) := MapTransfer(m, calls[0]);
      var (end, buffers) := MapServe(m', calls[1..]);
      (end, [buffer] + buffers)
  }

  ghost predicate WholeCalls(calls: seq<Call>) {
    forall i :: 0 <= i < |calls| ==> WholeCall(calls[i])
  }

  /** Any run of reads and writes, refused ones included, acts on the device as on a map from sectors to
      contents: the same sectors in the end, and the same bytes in every read's buffer. */
  lemma {:induction false} DeviceRefinesSectorMap(data: seq<byte>, calls: seq<Call>)
    requires WholeCalls(calls)
    ensures var (end, buffers) := Serve(data, calls);
      (Sectors(end), buffers) == MapServe(Sectors(data), calls)
    decreases |calls|
  {
    hide Sectors, Transferred, MapTransfer;
    if calls != [] {
      var c := calls[0];
      TransferRefinesMap(data, c);
      DeviceRefinesSectorMap(Transferred(data, c.sector, c.buffer, c.write).0, calls[1..]);
    }
  }

  /** After any run, a read returns in its `k`-th sector what the map holds there. */
  lemma ReadsSeeSectorMap(data: seq<byte>, calls: seq<Call>, c: Call, k: nat)
    requires WholeCalls(calls) && WholeCall(c) && !c.write && k < NumSectors(c)
    requires c.sector + NumSectors(c) <= |Sectors(data)|
    ensures var got := Transferred(Serve(data, calls).0, c.sector, c.buffer, false).1;
      var m := MapServe(Sectors(data), calls).0;
      && |Sectors(got)| == NumSectors(c) && |m| == |Sectors(data)|
      && Sectors(got)[k] == m[c.sector + k]
  {
    hide Sectors, Sector, Serve, MapServe, WholeCall, NumSectors;
    var now := Serve(data, calls).0;
    DeviceRefinesSectorMap(data, calls);
    SameLimit(|now|, c);
    assert c.sector * KERNEL_SECTOR_SIZE + |c.buffer| == (c.sector + NumSectors(c)) * KERNEL_SECTOR_SIZE;
    StretchOfSectors(now, c.sector, NumSectors(c), k);
  }

  /** A sector that no write of the run covers keeps its contents. */
  lemma {:induction false} SectorsUndisturbed(data: seq<byte>, calls: seq<Call>, i: nat)
    requires WholeCalls(calls) && i < |Sectors(data)|
    requires forall j :: 0 <= j < |calls| && calls[j].write ==>
      !(calls[j].sector <= i < calls[j].sector + NumSectors(calls[j]))
    ensures var end := Serve(data, calls).0;
      |Sectors(end)| == |Sectors(data)| && Sectors(end)[i] == Sectors(data)[i]
    decreases |calls|
  {
    hide Sectors, Transferred, NumSectors;
    if calls != [] {
      var c := calls[0];
      var data' := Transferred(data, c.sector, c.buffer, c.write).0;
      TransferRefinesMap(data, c);
      MapKeepsOthers(Sectors(data), c, i);
      SectorsUndisturbed(data', calls[1..], i);
    }
  }

  lemma MapKeepsOthers(m: seq<seq<byte>>, c: Call, i: nat)
    requires i < |m| && (c.write ==> !(c.sector <= i < c.sector + NumSectors(c)))
    ensures |MapTransfer(m, c).0| == |m| && MapTransfer(m, c).0[i] == m[i]
  {
  }

  /** The segment loop of `do_simple_request`, if it started at the sector's byte offset, would do what
      `sbull_transfer` does with the segments glued together. */
  lemma LoopAtSectorScale(data: seq<byte>, sector: nat, segs: seq<seq<byte>>)
    requires sector * KERNEL_SECTOR_SIZE + |Concat(segs)| <= |data|
    ensures var at := sector * KERNEL_SECTOR_SIZE;
      && PutSegs(data, at, segs).0 == Transferred(data, sector, Concat(segs), true).0
      && Concat(GetSegs(data, at, segs).0) == Transferred(data, sector, Concat(segs), false).1
  {
    hide PutSegs, GetSegs, Concat, Splice;
    WholeRequest(data, sector * KERNEL_SECTOR_SIZE, segs);
  }
}
