/** The buffer half of globalfifo: `mem`, `current_len`, and the three places that change them. */
module FifoDevice {
  import opened Bytes

  /** How many bytes a read and a write of a given count may move. */
  function ReadCount(count: nat, len: nat): nat {
    Min(count, len)
  }

  function WriteCount(count: nat, len: nat, cap: nat): nat
    requires len <= cap
  {
    Min(count, cap - len)
  }

  /** What a read or write returns, the bytes it moved, and the contents it leaves. */
  datatype Transfer = Transfer(ret: int, moved: seq<byte>, fifo: seq<byte>)

  /** A read takes from the front.  A copy of no bytes cannot fault. */
  function AfterRead(fifo: seq<byte>, count: nat, fault: bool): Transfer {
    var n := ReadCount(count, |fifo|);
    if fault && n > 0 then Transfer(-EFAULT, [], fifo) else Transfer(n, fifo[..n], fifo[n..])
  }

  /** A write adds behind, as much as there is room for. */
  function AfterWrite(fifo: seq<byte>, cap: nat, data: seq<byte>, fault: bool): Transfer
    requires |fifo| <= cap
  {
    var n := WriteCount(|data|, |fifo|, cap);
    if fault && n > 0 then Transfer(-EFAULT, [], fifo) else Transfer(n, data[..n], fifo + data[..n])
  }

  /** What a read returns is the number of bytes it takes from the front, and unless its copy faults they
      are as many as asked for, or all there are. */
  lemma ReadTellsTruth(fifo: seq<byte>, count: nat, fault: bool)
    ensures var r := AfterRead(fifo, count, fault);
      && r.moved + r.fifo == fifo
      && if fault && count > 0 && fifo != [] then r.ret == -EFAULT && r.moved == []
        else r.ret == |r.moved| <= count && (r.ret == count || r.fifo == [])
  {
  }

  /** What a write returns is the number of bytes it adds behind, and unless its copy faults they are all
      of its bytes, or the buffer is full. */
  lemma WriteTellsTruth(fifo: seq<byte>, cap: nat, data: seq<byte>, fault: bool)
    requires |fifo| <= cap
    ensures var r := AfterWrite(fifo, cap, data, fault);
      && r.fifo == fifo + r.moved && |r.fifo| <= cap
      && if fault && data != [] && |fifo| < cap then r.ret == -EFAULT && r.moved == []
        else r.ret == |r.moved| && r.moved <= data && (r.moved == data || |r.fifo| == cap)
  {
  }

  class Device {
    const mem: array<byte>
    var current_len: nat

    ghost predicate Valid()
      reads this
    {
      current_len <= mem.Length
    }

    ghost function Contents(): seq<byte>
      reads this, mem
      requires Valid()
    {
      mem[..current_len]
    }

    constructor (size: nat)
      ensures Valid() && Contents() == [] && mem.Length == size && fresh(mem)
    {
      mem := new byte[size](_ => 0);
      current_len := 0;
    }

    /** The memcpy between overlapping ranges, as an ascending byte loop: the first `n` bytes drop
        out and the rest move to the front; bytes from the new length on keep their stale values. */
    method ShiftDown(n: nat)
      requires Valid() && n <= current_len
      modifies this`current_len, mem
      ensures Valid() && current_len == old(current_len) - n
      ensures Contents() == old(Contents())[n..]
      ensures mem[current_len..] == old(mem[current_len - n..])
    {
      var m := current_len - n;
      var i := 0;
      while i < m
        invariant i <= m
        invariant forall k :: 0 <= k < i ==> mem[k] == old(mem[k + n])
        invariant forall k :: i <= k < mem.Length ==> mem[k] == old(mem[k])
      {
        mem[i] := mem[i + n];
        i := i + 1;
      }
      current_len := m;
    }

    /** Lines 157-177 of the read path, semaphore held. */
    method TakeFront(ubuf: array<byte>, count: nat, copy: UserCopy) returns (ret: int)
      requires Valid() && count <= ubuf.Length && ubuf != mem
      modifies this`current_len, mem, ubuf
      ensures Valid()
      ensures var r := AfterRead(old(Contents()), count, copy.Faulted?);
        ret == r.ret && Contents() == r.fifo
      ensures var n := ReadCount(count, |old(Contents())|);
        ubuf[..] == Splice(old(ubuf[..]), 0, Stored(old(Contents())[..n], copy))
      ensures ret < 0 ==> ret == -EFAULT && copy.Faulted? && Contents() == old(Contents())
      ensures ret >= 0 ==> ret <= count && (ret == count || Contents() == [])
      ensures ret >= 0 ==> ubuf[..ret] + Contents() == old(Contents())
    {
      var n := count;
      if n > current_len {
        n := current_len;
      }
      assert mem[0..n] == old(Contents())[..n];
      var failed := UserCopyBytes(ubuf, 0, mem, 0, n, copy);
      if failed {
        return -EFAULT;
      }
      ShiftDown(n);
      ret := n;
    }

    /** Lines 222-243 of the write path, semaphore held. */
    method AppendBack(ubuf: array<byte>, copy: UserCopy) returns (ret: int)
      requires Valid() && ubuf != mem
      modifies this`current_len, mem
      ensures Valid()
      ensures var r := AfterWrite(old(Contents()), mem.Length, ubuf[..], copy.Faulted?);
        ret == r.ret && Contents() == r.fifo
      ensures ret < 0 ==> ret == -EFAULT && copy.Faulted? && Contents() == old(Contents())
      ensures ret >= 0 ==> ret <= ubuf.Length && (ret == ubuf.Length || |Contents()| == mem.Length)
      ensures ret >= 0 ==> Contents() == old(Contents()) + ubuf[..ret]
    {
      var n := ubuf.Length;
      if n > mem.Length - current_len {
        n := mem.Length - current_len;
      }
      ghost var was := mem[..];
      assert ubuf[0..n] == ubuf[..n];
      var failed := UserCopyBytes(mem, current_len, ubuf, 0, n, copy);
      SpliceInPrefix(was, current_len, Stored(ubuf[..n], copy));
      if failed {
        return -EFAULT;
      }
      current_len := current_len + n;
      ret := n;
    }

    /** FIFO_CLEAR, semaphore held. */
    method Clear()
      requires Valid()
      modifies this`current_len, mem
      ensures Valid() && Contents() == []
      ensures forall i :: 0 <= i < mem.Length ==> mem[i] == 0
    {
      current_len := 0;
      var i := 0;
      while i < mem.Length
        invariant i <= mem.Length && current_len == 0
        invariant forall k :: 0 <= k < i ==> mem[k] == 0
      {
        mem[i] := 0;
        i := i + 1;
      }
    }
  }
}
