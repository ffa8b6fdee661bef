/** The expfs driver itself: the mutable block table, its loops and its inode operations, each proved
    equal to the atomic step BlockTable gives it. */
module Expfs {
  import opened Wrappers
  import opened Directory
  import opened BlockTable

  /** One element of `blks`.  `count` is the union of `filesize` and `dir_children`; `buffer` is the
      block's buffer seen as directory entries. */
  class FileBlock {
    var used: bool
    var mode: Mode
    var index: int
    var count: int
    const buffer: array<Entry>

    constructor (cap: nat)
      ensures buffer.Length == cap && fresh(buffer)
      ensures View() == Blk(false, Other, 0, 0, [])
    {
      used, mode, index, count := false, Other, 0, 0;
      buffer := new Entry[cap](_ => Entry("", 0));
    }

    ghost function View(): Blk
      reads this, buffer
    {
      Blk(used, mode, index, count, if mode.Dir? && 0 <= count <= buffer.Length then buffer[..count] else [])
    }

    /** The entry scan shared by lookup, unlink, rmdir and rename. */
    method IndexOf(name: Name) returns (i: nat)
      requires 0 <= count <= buffer.Length
      ensures i == Scan(buffer[..count], name)
    {
      i := 0;
      while i < count
        invariant i <= count
        invariant forall j :: 0 <= j < i ==> buffer[j].name != name
      {
        if buffer[i].name == name {
          break;
        }
        i := i + 1;
      }
      ghost var k := Scan(buffer[..count], name);
      assert k < count ==> buffer[..count][k].name == name;
      assert i < count ==> buffer[..count][i].name == name;
    }

    /** The shift loop: later entries move down by one; the last slot keeps its stale entry. */
    method CloseGap(i: nat)
      requires 0 <= i < count <= buffer.Length
      modifies this`count, buffer
      ensures count == old(count) - 1
      ensures var was := old(buffer[..count]);
        buffer[..count] == was[..i] + was[i + 1..]
      ensures buffer[count..] == old(buffer[count - 1..])
    {
      var j := i;
      while j < count - 1
        invariant i <= j <= count - 1 && count == old(count)
        invariant forall k :: i <= k < j ==> buffer[k] == old(buffer[k + 1])
        invariant forall k :: 0 <= k < buffer.Length && !(i <= k < j) ==> buffer[k] == old(buffer[k])
      {
        buffer[j] := buffer[j + 1];
        j := j + 1;
      }
      count := count - 1;
    }

    /** Find the entry and delete it; the index it held, if there was one. */
    method Remove(name: Name) returns (held: Option<int>)
      requires mode.Dir? && 0 <= count <= buffer.Length
      modifies this`count, buffer
      ensures View() == EraseEntry(old(View()), name)
      ensures held == Find(old(View()).dents, name)
      ensures 0 <= count <= buffer.Length
    {
      var i := IndexOf(name);
      assert i == Scan(View().dents, name);
      if i < count {
        held := Some(buffer[i].index);
        CloseGap(i);
      } else {
        held := None;
      }
    }

    /** Store an entry behind the last one. */
    method Append(name: Name, idx: int)
      requires mode.Dir? && 0 <= count < buffer.Length
      modifies this`count, buffer
      ensures View() == AppendEntry(old(View()), name, idx)
      ensures 0 <= count <= buffer.Length
    {
      buffer[count] := Entry(name, idx);
      count := count + 1;
    }
  }

  /** The module's global state, mounted once. */
  class Driver {
    const cap: nat
    const blks: seq<FileBlock>
    var usedBlks: int

    ghost predicate Separate() {
      forall i, j :: 0 <= i < j < |blks| ==> blks[i] != blks[j] && blks[i].buffer != blks[j].buffer
    }

    ghost function Buffers(): set<object> {
      set i | 0 <= i < |blks| :: blks[i].buffer
    }

    ghost predicate Valid()
      reads this, blks
    {
      && |blks| >= 2 && Separate()
      && (forall i :: 0 <= i < |blks| ==> blks[i].buffer.Length == cap)
      && (forall i :: 0 <= i < |blks| && blks[i].mode.Dir? ==> 0 <= blks[i].count <= cap)
    }

    ghost function View(): (t: Table)
      reads this, blks, Buffers()
      ensures |t.blks| == |blks| && t.cap == cap && t.usedBlks == usedBlks
      ensures forall i :: 0 <= i < |blks| ==> t.blks[i] == blks[i].View()
    {
      Table(cap, usedBlks,
        seq(|blks|, i requires 0 <= i < |blks| reads blks, Buffers() => blks[i].View()))
    }

    /** Module load zeroes the table; the mount sets up block 1 as the root directory. */
    constructor (maxFile: nat, cap: nat)
      requires maxFile >= 2
      ensures Valid() && fresh(blks) && fresh(Buffers())
      ensures View() == Mounted(maxFile, cap)
    {
      var all: seq<FileBlock> := [];
      while |all| < maxFile
        invariant |all| <= maxFile
        invariant forall i :: 0 <= i < |all| ==> fresh(all[i]) && fresh(all[i].buffer)
        invariant forall i, j :: 0 <= i < j < |all| ==> all[i] != all[j] && all[i].buffer != all[j].buffer
        invariant forall i :: 0 <= i < |all| ==>
          all[i].buffer.Length == cap && all[i].View() == Blk(false, Other, 0, 0, [])
      {
        var b := new FileBlock(cap);
        all := all + [b];
      }
      this.cap := cap;
      this.blks := all;
      this.usedBlks := 0;
      new;
      blks[ROOT].mode := Dir;
      blks[ROOT].count := 0;
      blks[ROOT].index := ROOT;
      blks[ROOT].used := true;
      usedBlks := usedBlks + 1;
      assert View().blks == Mounted(maxFile, cap).blks;
    }

    /** First fit, from block 2. */
    method GetBlock() returns (r: int)
      requires Valid()
      modifies blks
      ensures Valid()
      ensures r == FirstFree(old(View()).blks, 2)
      ensures r == -1 ==> View() == old(View())
      ensures r != -1 ==>
        View() == old(View()).(blks := old(View()).blks[r := old(View()).blks[r].(used := true)])
    {
      var i := 2;
      while i < |blks|
        invariant 2 <= i <= |blks|
        invariant FirstFree(View().blks, 2) == FirstFree(View().blks, i)
        invariant View() == old(View())
      {
        if !blks[i].used {
          assert FirstFree(View().blks, i) == i;
          blks[i].used := true;
          assert View().blks == old(View()).blks[i := old(View()).blks[i].(used := true)];
          return i;
        }
        i := i + 1;
      }
      return -1;
    }

    /** Lookup of one name in one live directory. */
    method LookupName(dir: int, name: Name) returns (r: Option<int>)
      requires Valid() && IsDir(View(), dir)
      ensures r == Lookup(View(), dir, name)
    {
      var i := blks[dir].IndexOf(name);
      if i < blks[dir].count {
        return Some(blks[dir].buffer[i].index);
      }
      return None;
    }

    /** Set up a block for a new file; a symbolic link leaves the union field as it is. */
    method InitBlock(idx: int, mode: Mode)
      requires Valid() && 0 <= idx < |blks|
      modifies blks[idx]
      ensures Valid()
      ensures View() ==
        old(View()).(blks := old(View()).blks[idx := FreshBlk(old(View()).blks[idx], idx, mode)])
    {
      var blk := blks[idx];
      blk.index := idx;
      blk.mode := mode;
      blk.used := true;
      if mode.Dir? {
        blk.count := 0;
      } else if mode.Reg? {
        blk.count := 0;
      }
      assert View().blks == old(View()).blks[idx := FreshBlk(old(View()).blks[idx], idx, mode)];
    }

    /** Take the first free block, set it up and count it. */
    method Allocate(mode: Mode) returns (idx: int)
      requires Valid()
      modifies this, blks
      ensures Valid()
      ensures idx == FirstFree(old(View()).blks, 2)
      ensures idx == -1 ==> View() == old(View())
      ensures idx != -1 ==> View() == TakeBlock(old(View()), idx, mode)
    {
      idx := GetBlock();
      if idx != -1 {
        ghost var v := View();
        InitBlock(idx, mode);
        usedBlks := usedBlks + 1;
        assert View().blks == TakeBlock(old(View()), idx, mode).blks;
      }
    }

    method Release(b: int)
      requires Valid() && 0 <= b < |blks|
      modifies blks[b]
      ensures Valid()
      ensures View() == old(View()).(blks := old(View()).blks[b := old(View()).blks[b].(used := false)])
    {
      blks[b].used := false;
      assert View().blks == old(View()).blks[b := old(View()).blks[b].(used := false)];
    }

    method RemoveEntry(d: int, name: Name) returns (held: Option<int>)
      requires Valid() && 0 <= d < |blks| && blks[d].mode.Dir?
      modifies blks[d], blks[d].buffer
      ensures Valid()
      ensures View() == old(View()).(blks := old(View()).blks[d := EraseEntry(old(View()).blks[d], name)])
      ensures held == Find(old(View()).blks[d].dents, name)
    {
      held := blks[d].Remove(name);
      assert View().blks == old(View()).blks[d := EraseEntry(old(View()).blks[d], name)];
    }

    method AddEntry(d: int, name: Name, idx: int)
      requires Valid() && IsDir(View(), d) && View().blks[d].count < cap
      modifies blks[d], blks[d].buffer
      ensures Valid()
      ensures View() == old(View()).(blks := old(View()).blks[d := AppendEntry(old(View()).blks[d], name, idx)])
    {
      blks[d].Append(name, idx);
      assert View().blks == old(View()).blks[d := AppendEntry(old(View()).blks[d], name, idx)];
    }

    /** Where the source would store past the entries, or past the name field: it does not test. */
    method HasRoom(d: int, name: Name) returns (ok: bool)
      requires Valid() && IsDir(View(), d)
      ensures ok == EntryFits(cap, View().blks[d], name)
    {
      ok := blks[d].count < cap && |name| < MAX_NAME;
    }

    /** The part of create behind the guards. */
    method CreateEntry(dir: int, name: Name, mode: Mode) returns (res: Outcome)
      requires Valid() && IsDir(View(), dir)
      modifies this, blks, Buffers()
      ensures Valid()
      ensures (View(), res) == AllocateAndName(old(View()), dir, name, mode)
    {
      var idx := Allocate(mode);
      if idx == -1 {
        res := OutOfTable;
      } else {
        var ok := HasRoom(dir, name);
        if ok {
          AddEntry(dir, name, idx);
          res := Done;
        } else {
          res := OutOfBuffer;
        }
      }
    }

    method Create(dir: int, name: Name, mode: Mode, inodeOk: bool) returns (res: Outcome)
      requires Valid() && IsDir(View(), dir)
      modifies this, blks, Buffers()
      ensures Valid()
      ensures (View(), res) == DoCreate(old(View()), dir, name, mode, inodeOk)
    {
      if usedBlks >= |blks| {
        return Einval;
      }
      if mode.Other? {
        return Einval;
      }
      if !inodeOk {
        return Enomem;
      }
      res := CreateEntry(dir, name, mode);
    }

    /** `victim` is the block of the dentry's inode. */
    method Unlink(dir: int, name: Name, victim: int) returns (res: Outcome)
      requires Valid() && IsDir(View(), dir) && Used(View(), victim)
      modifies blks, Buffers()
      ensures Valid()
      ensures (View(), res) == DoUnlink(old(View()), dir, name, victim)
    {
      var held := RemoveEntry(dir, name);
      Release(victim);
      res := Done;
    }

    method Rmdir(dir: int, name: Name, victim: int) returns (res: Outcome)
      requires Valid() && IsDir(View(), dir) && Used(View(), victim)
      modifies blks, Buffers()
      ensures Valid()
      ensures (View(), res) == DoRmdir(old(View()), dir, name, victim)
    {
      if blks[victim].mode.Dir? && blks[victim].count == 0 {
        Release(victim);
        var held := RemoveEntry(dir, name);
        res := Done;
      } else {
        res := Enotempty;
      }
    }

    /** `od` and `nd` may be the same block. */
    method Rename(od: int, on: Name, nd: int, nn: Name) returns (res: Outcome)
      requires Valid() && IsDir(View(), od) && IsDir(View(), nd) && Lookup(View(), od, on).Some?
      modifies blks, Buffers()
      ensures Valid()
      ensures (View(), res) == DoRename(old(View()), od, on, nd, nn)
    {
      var curr := RemoveEntry(od, on);
      var ok := HasRoom(nd, nn);
      if ok {
        AddEntry(nd, nn, curr.value);
        res := Done;
      } else {
        res := OutOfBuffer;
      }
    }
  }
}
