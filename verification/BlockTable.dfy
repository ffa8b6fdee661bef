/** The expfs block table and what each inode operation does to it.

    `usedBlks` and the `blks` array are the whole state of a mounted expfs.  A block is shared by
    directories and files: `count` stands for the union of `filesize` and `dir_children`, and
    `dents` is the part of `buffer` a directory block exposes, its first `dir_children` entries.
    The functions below are one inode operation each, as atomic steps; the class in Expfs.dfy runs
    the loops and is proved equal to them. */
module BlockTable {
  import opened Wrappers
  import opened Directory

  const MAX_NAME := 50
  const ROOT := 1

  /** The file type bits of `mode`: S_IFDIR, S_IFREG, S_IFLNK, or anything else (a zeroed block). */
  datatype Mode = Dir | Reg | Lnk | Other

  datatype Blk = Blk(used: bool, mode: Mode, index: int, count: int, dents: seq<Entry>)

  /** `cap` is the number of entries a buffer holds; |blks| is MAX_FILE. */
  datatype Table = Table(cap: nat, usedBlks: int, blks: seq<Blk>)

  /** What the operation returns.  The last two are not error returns: the source tests neither for
      `getblock` failing nor for room behind the last entry or in its name field, and goes on to write
      through blks[-1], or past the entries; the model stops there. */
  datatype Outcome = Done | Einval | Enomem | Enotempty | OutOfTable | OutOfBuffer

  predicate Escapes(res: Outcome) {
    res.OutOfTable? || res.OutOfBuffer?
  }

  predicate Used(t: Table, b: int) {
    0 <= b < |t.blks| && t.blks[b].used
  }

  predicate IsDir(t: Table, b: int) {
    Used(t, b) && t.blks[b].mode.Dir?
  }

  /** The entries of a live directory. */
  function Children(t: Table, d: int): seq<Entry> {
    if IsDir(t, d) then t.blks[d].dents else []
  }

  /** One step of path lookup. */
  function Lookup(t: Table, d: int, name: Name): Option<int> {
    Find(Children(t, d), name)
  }

  /** The first unused block from `i` on, or -1. */
  function FirstFree(blks: seq<Blk>, i: nat): (r: int)
    ensures r == -1 || (i <= r < |blks| && !blks[r].used)
    ensures forall j :: i <= j < (if r == -1 then |blks| else r) ==> blks[j].used
    decreases |blks| - i
  {
    if i >= |blks| then -1 else if !blks[i].used then i else FirstFree(blks, i + 1)
  }

  /** The parent block after its entry `name` is erased. */
  function EraseEntry(p: Blk, name: Name): Blk {
    if Find(p.dents, name).None? then p
    else p.(count := p.count - 1, dents := Erase(p.dents, name))
  }

  /** The parent block after an entry is stored behind its last one. */
  function AppendEntry(p: Blk, name: Name, index: int): Blk {
    p.(count := p.count + 1, dents := p.dents + [Entry(name, index)])
  }

  /** Whether one more entry called `name`, with its terminating zero, stays inside the buffer. */
  predicate EntryFits(cap: nat, p: Blk, name: Name) {
    |p.dents| < cap && |name| < MAX_NAME
  }

  /** The block handed out by `getblock`, initialised.  Only directories and regular files have
      their size reset: a symbolic link keeps the count of the block's previous owner. */
  function FreshBlk(was: Blk, idx: int, mode: Mode): Blk {
    Blk(true, mode, idx, if mode.Dir? || mode.Reg? then 0 else was.count, [])
  }

  function DoCreate(t: Table, dir: int, name: Name, mode: Mode, inodeOk: bool): (Table, Outcome)
    requires IsDir(t, dir)
  {
    if t.usedBlks >= |t.blks| then (t, Einval)
    else if mode.Other? then (t, Einval)
    else if !inodeOk then (t, Enomem)
    else AllocateAndName(t, dir, name, mode)
  }

  /** Block `idx` handed out, initialised and counted. */
  function TakeBlock(t: Table, idx: int, mode: Mode): Table
    requires 0 <= idx < |t.blks|
  {
    Table(t.cap, t.usedBlks + 1, t.blks[idx := FreshBlk(t.blks[idx], idx, mode)])
  }

  /** Take the first free block, then store an entry for it in its parent. */
  function AllocateAndName(t: Table, dir: int, name: Name, mode: Mode): (Table, Outcome)
    requires 0 <= dir < |t.blks|
  {
    var idx := FirstFree(t.blks, 2);
    if idx == -1 then (t, OutOfTable)
    else
      var taken := TakeBlock(t, idx, mode);
      if !EntryFits(t.cap, taken.blks[dir], name) then (taken, OutOfBuffer)
      else (taken.(blks := taken.blks[dir := AppendEntry(taken.blks[dir], name, idx)]), Done)
  }

  function DoUnlink(t: Table, dir: int, name: Name, victim: int): (Table, Outcome)
    requires IsDir(t, dir) && Used(t, victim)
  {
    var erased := t.blks[dir := EraseEntry(t.blks[dir], name)];
    (t.(blks := erased[victim := erased[victim].(used := false)]), Done)
  }

  function DoRmdir(t: Table, dir: int, name: Name, victim: int): (Table, Outcome)
    requires IsDir(t, dir) && Used(t, victim)
  {
    if t.blks[victim].mode.Dir? && t.blks[victim].count == 0 then
      var freed := t.blks[victim := t.blks[victim].(used := false)];
      (t.(blks := freed[dir := EraseEntry(freed[dir], name)]), Done)
    else (t, Enotempty)
  }

  /** Delete the old entry, then store the new one; the two directories may be the same block. */
  function DoRename(t: Table, od: int, on: Name, nd: int, nn: Name): (Table, Outcome)
    requires IsDir(t, od) && IsDir(t, nd) && Lookup(t, od, on).Some?
  {
    var moved := Lookup(t, od, on).value;
    var erased := t.blks[od := EraseEntry(t.blks[od], on)];
    if !EntryFits(t.cap, erased[nd], nn) then (t.(blks := erased), OutOfBuffer)
    else (t.(blks := erased[nd := AppendEntry(erased[nd], nn, moved)]), Done)
  }

  /** The two tables are alike outside the blocks named, the counter aside. */
  ghost predicate SameFrame(t: Table, t': Table, touched: set<int>) {
    && t'.cap == t.cap && |t'.blks| == |t.blks|
    && forall b :: 0 <= b < |t.blks| && b !in touched ==> t'.blks[b] == t.blks[b]
  }

  /** Block `b` keeps its owner, type and index. */
  ghost predicate SameHeader(t: Table, t': Table, b: int)
    requires 0 <= b < |t.blks| && b < |t'.blks|
  {
    var p, p' := t.blks[b], t'.blks[b];
    p'.used == p.used && p'.mode == p.mode && p'.index == p.index
  }

  /** The effect of a file write on the table: the new size goes into the union field of whatever block
      the open file's inode refers to, without a look at what the block is by now. */
  function DoResize(t: Table, b: int, size: int): (r: (Table, Outcome))
    requires 0 <= b < |t.blks|
    ensures r.1 == Done && SameFrame(t, r.0, {b}) && r.0.usedBlks == t.usedBlks
    ensures r.0.blks[b].count == size && r.0.blks[b].dents == t.blks[b].dents && SameHeader(t, r.0, b)
  {
    (t.(blks := t.blks[b := t.blks[b].(count := size)]), Done)
  }

  /** The table right after mounting: all blocks zeroed, then the root set up. */
  function Mounted(maxFile: nat, cap: nat): (t: Table)
    requires maxFile >= 2
    ensures |t.blks| == maxFile && t.cap == cap
    ensures forall b :: 0 <= b < maxFile && b != ROOT ==> !t.blks[b].used && t.blks[b].count == 0
  {
    Table(cap, 1, seq(maxFile, _ => Blk(false, Other, 0, 0, []))[ROOT := Blk(true, Dir, ROOT, 0, [])])
  }

  // ---------------------------------------------------------------------------------------------
  // What each operation does to the whole table

  /** Every way a create can end. */
  lemma CreateOutcome(t: Table, dir: int, name: Name, mode: Mode, inodeOk: bool)
    requires |t.blks| >= 2 && IsDir(t, dir)
    ensures var (t', res) := DoCreate(t, dir, name, mode, inodeOk);
      var refused := t.usedBlks >= |t.blks| || (mode != Dir && mode != Reg && mode != Lnk);
      var full := forall b :: 2 <= b < |t.blks| ==> Used(t, b);
      var room := |t.blks[dir].dents| < t.cap && |name| <= 49;
      && (res == Einval <==> refused)
      && (res == Enomem <==> !refused && !inodeOk)
      && (res == OutOfTable <==> !refused && inodeOk && full)
      && (res == OutOfBuffer <==> !refused && inodeOk && !full && !room)
      && (res == Done <==> !refused && inodeOk && !full && room)
      && (res != Done && res != OutOfBuffer ==> t' == t)
      && (res == OutOfBuffer ==> t'.blks[dir] == t.blks[dir])
  {
    var x := FirstFree(t.blks, 2);
    assert x != -1 ==> !Used(t, x);
    assert x == -1 ==> forall b :: 2 <= b < |t.blks| ==> t.blks[b].used;
  }

  /** A successful create: the least free block is taken over and initialised, its entry goes behind the
      last one of the parent, and nothing else changes.  A symbolic link keeps the old count. */
  lemma CreateEffect(t: Table, dir: int, name: Name, mode: Mode)
    requires |t.blks| >= 2 && IsDir(t, dir) && DoCreate(t, dir, name, mode, true).1.Done?
    ensures var t', x := DoCreate(t, dir, name, mode, true).0, FirstFree(t.blks, 2);
      && 2 <= x < |t.blks| && x != dir && !t.blks[x].used
      && SameFrame(t, t', {x, dir}) && t'.usedBlks == t.usedBlks + 1
      && t'.blks[x].used && t'.blks[x].mode == mode && t'.blks[x].index == x
      && t'.blks[x].count == (if mode.Lnk? then t.blks[x].count else 0)
      && t'.blks[x].dents == []
      && SameHeader(t, t', dir) && t'.blks[dir].count == t.blks[dir].count + 1
      && t'.blks[dir].dents == t.blks[dir].dents + [Entry(name, x)]
  {
    CreateShape(t, dir, name, mode);
  }

  /** An unlink: the entry leaves the parent, the victim gives up its used flag and keeps everything
      else, its size included, and nothing else changes. */
  lemma UnlinkEffect(t: Table, dir: int, name: Name, victim: int)
    requires IsDir(t, dir) && Used(t, victim) && !t.blks[victim].mode.Dir?
    ensures var (t', res) := DoUnlink(t, dir, name, victim);
      && res == Done && SameFrame(t, t', {victim, dir}) && t'.usedBlks == t.usedBlks
      && !t'.blks[victim].used && t'.blks[victim].(used := true) == t.blks[victim]
      && SameHeader(t, t', dir)
      && t'.blks[dir].dents == Erase(t.blks[dir].dents, name)
      && t'.blks[dir].count == t.blks[dir].count - (if Lookup(t, dir, name).Some? then 1 else 0)
  {
  }

  /** An rmdir: the same for an empty directory, and otherwise no change at all. */
  lemma RmdirEffect(t: Table, dir: int, name: Name, victim: int)
    requires IsDir(t, dir) && Used(t, victim) && victim != dir
    ensures var (t', res) := DoRmdir(t, dir, name, victim);
      if t.blks[victim].mode != Dir || t.blks[victim].count != 0 then t' == t && res == Enotempty
      else
        && res == Done && SameFrame(t, t', {victim, dir}) && t'.usedBlks == t.usedBlks
        && !t'.blks[victim].used && t'.blks[victim].(used := true) == t.blks[victim]
        && SameHeader(t, t', dir)
        && t'.blks[dir].dents == Erase(t.blks[dir].dents, name)
        && t'.blks[dir].count == t.blks[dir].count - (if Lookup(t, dir, name).Some? then 1 else 0)
  {
  }

  /** A rename that fits: the entry leaves the old parent, one with the new name and the same index goes
      behind the last one of the new parent, in the entries that are left when both are one block, and
      nothing else changes. */
  lemma RenameEffect(t: Table, od: int, on: Name, nd: int, nn: Name)
    requires IsDir(t, od) && IsDir(t, nd) && Lookup(t, od, on).Some?
    ensures var (t', res) := DoRename(t, od, on, nd, nn);
      var moved, left := [Entry(nn, Lookup(t, od, on).value)], Erase(t.blks[od].dents, on);
      && (res == Done <==> |nn| <= 49 && |if od == nd then left else t.blks[nd].dents| < t.cap)
      && (res != Done ==> res == OutOfBuffer)
      && SameFrame(t, t', {od, nd}) && t'.usedBlks == t.usedBlks
      && SameHeader(t, t', od) && SameHeader(t, t', nd)
      && (res == Done && od == nd ==> t'.blks[od].dents == left + moved && t'.blks[od].count == t.blks[od].count)
      && (od != nd ==> t'.blks[od].dents == left && t'.blks[od].count == t.blks[od].count - 1)
      && (res == Done && od != nd ==>
          t'.blks[nd].dents == t.blks[nd].dents + moved && t'.blks[nd].count == t.blks[nd].count + 1)
  {
  }

  // ---------------------------------------------------------------------------------------------
  // What each operation does to lookup

  /** Every directory block of the table is a proper entry list. */
  ghost predicate DirsWellFormed(t: Table) {
    && |t.blks| >= 2
    && forall d :: IsDir(t, d) ==>
        UniqueNames(t.blks[d].dents) && t.blks[d].count == |t.blks[d].dents| <= t.cap
  }

  /** The blocks after a create: the new block and its parent, nothing else. */
  lemma CreateShape(t: Table, dir: int, name: Name, mode: Mode)
    requires |t.blks| >= 2 && IsDir(t, dir) && DoCreate(t, dir, name, mode, true).1.Done?
    ensures var x := FirstFree(t.blks, 2);
      && x != dir && 2 <= x < |t.blks| && EntryFits(t.cap, t.blks[dir], name)
      && DoCreate(t, dir, name, mode, true).0 == Table(t.cap, t.usedBlks + 1,
          t.blks[x := FreshBlk(t.blks[x], x, mode)][dir := AppendEntry(t.blks[dir], name, x)])
  {
  }

  lemma CreateKeepsDirs(t: Table, dir: int, name: Name, mode: Mode)
    requires DirsWellFormed(t) && IsDir(t, dir) && Lookup(t, dir, name).None?
    requires DoCreate(t, dir, name, mode, true).1.Done?
    ensures var t' := DoCreate(t, dir, name, mode, true).0;
      DirsWellFormed(t') && forall b :: Used(t', b) <==> Used(t, b) || b == FirstFree(t.blks, 2)
  {
    var idx := FirstFree(t.blks, 2);
    CreateShape(t, dir, name, mode);
    FindAfterAppend(t.blks[dir].dents, Entry(name, idx), name);
  }

  lemma CreateEdits(t: Table, dir: int, name: Name, mode: Mode, d: int, n: Name)
    requires DirsWellFormed(t) && IsDir(t, dir) && Lookup(t, dir, name).None?
    requires DoCreate(t, dir, name, mode, true).1.Done?
    ensures Lookup(DoCreate(t, dir, name, mode, true).0, d, n) ==
      if (d, n) == (dir, name) then Some(FirstFree(t.blks, 2)) else Lookup(t, d, n)
  {
    var t', idx := DoCreate(t, dir, name, mode, true).0, FirstFree(t.blks, 2);
    CreateShape(t, dir, name, mode);
    FindAfterAppend(t.blks[dir].dents, Entry(name, idx), n);
    assert d != dir ==> Children(t', d) == Children(t, d);
  }

  lemma UnlinkKeepsDirs(t: Table, dir: int, name: Name, victim: int)
    requires DirsWellFormed(t) && IsDir(t, dir) && Used(t, victim) && !t.blks[victim].mode.Dir?
    ensures var t' := DoUnlink(t, dir, name, victim).0;
      DirsWellFormed(t') && forall b :: Used(t', b) <==> Used(t, b) && b != victim
  {
    FindAfterErase(t.blks[dir].dents, name, name);
  }

  lemma UnlinkEdits(t: Table, dir: int, name: Name, victim: int, d: int, n: Name)
    requires DirsWellFormed(t) && IsDir(t, dir) && Used(t, victim) && !t.blks[victim].mode.Dir?
    ensures Lookup(DoUnlink(t, dir, name, victim).0, d, n) ==
      if (d, n) == (dir, name) then None else Lookup(t, d, n)
  {
    var t' := DoUnlink(t, dir, name, victim).0;
    FindAfterErase(t.blks[dir].dents, name, n);
    assert d != dir ==> Children(t', d) == Children(t, d);
  }

  /** A directory block after an erasure: still a proper one, with the same header. */
  lemma EraseKeepsBlk(cap: nat, p: Blk, name: Name)
    requires UniqueNames(p.dents) && p.count == |p.dents| <= cap
    ensures var p' := EraseEntry(p, name);
      && p'.used == p.used && p'.mode == p.mode && p'.index == p.index
      && UniqueNames(p'.dents) && p'.count == |p'.dents| <= cap
  {
    FindAfterErase(p.dents, name, name);
  }

  lemma RmdirKeepsDirs(t: Table, dir: int, name: Name, victim: int)
    requires DirsWellFormed(t) && IsDir(t, dir) && Lookup(t, dir, name) == Some(victim)
    requires IsDir(t, victim) && t.blks[victim].count == 0
    ensures var t' := DoRmdir(t, dir, name, victim).0;
      DirsWellFormed(t') && forall b :: Used(t', b) <==> Used(t, b) && b != victim
  {
    hide DoRmdir, EraseEntry;
    EraseKeepsBlk(t.cap, t.blks[dir], name);
    RmdirShape(t, dir, name, victim);
  }

  lemma RmdirEdits(t: Table, dir: int, name: Name, victim: int, d: int, n: Name)
    requires DirsWellFormed(t) && IsDir(t, dir) && Lookup(t, dir, name) == Some(victim)
    requires IsDir(t, victim) && t.blks[victim].count == 0
    ensures Lookup(DoRmdir(t, dir, name, victim).0, d, n) ==
      if (d, n) == (dir, name) then None else Lookup(t, d, n)
  {
    var t' := DoRmdir(t, dir, name, victim).0;
    FindAfterErase(t.blks[dir].dents, name, n);
    RmdirShape(t, dir, name, victim);
    assert d != dir ==> Children(t', d) == Children(t, d);
  }

  lemma RmdirShape(t: Table, dir: int, name: Name, victim: int)
    requires DirsWellFormed(t) && IsDir(t, dir) && Lookup(t, dir, name) == Some(victim)
    requires IsDir(t, victim) && t.blks[victim].count == 0
    ensures dir != victim && t.blks[victim].dents == []
    ensures DoRmdir(t, dir, name, victim).0 == t.(blks :=
      t.blks[dir := EraseEntry(t.blks[dir], name)][victim := t.blks[victim].(used := false)])
  {
    assert t.blks[victim].dents == [];
  }

  /** Rename within one directory: the block is erased from and appended to in turn. */
  lemma RenameSameBlock(t: Table, od: int, on: Name, nn: Name, n: Name)
    requires DirsWellFormed(t) && IsDir(t, od)
    requires Lookup(t, od, on).Some? && Lookup(t, od, nn).None? && DoRename(t, od, on, od, nn).1.Done?
    ensures var b' := AppendEntry(EraseEntry(t.blks[od], on), nn, Lookup(t, od, on).value);
      && DoRename(t, od, on, od, nn).0 == t.(blks := t.blks[od := b'])
      && UniqueNames(b'.dents) && b'.count == |b'.dents| <= t.cap
      && Find(b'.dents, n) ==
        if n == nn then Lookup(t, od, on) else if n == on then None else Lookup(t, od, n)
  {
    var b := EraseEntry(t.blks[od], on);
    var x := Lookup(t, od, on).value;
    FindAfterErase(t.blks[od].dents, on, n);
    FindAfterErase(t.blks[od].dents, on, nn);
    FindAfterAppend(b.dents, Entry(nn, x), n);
    assert t.blks[od := b][od := AppendEntry(b, nn, x)] == t.blks[od := AppendEntry(b, nn, x)];
  }

  /** Rename across two directories: each block changes once. */
  lemma RenameTwoBlocks(t: Table, od: int, on: Name, nd: int, nn: Name, n: Name)
    requires DirsWellFormed(t) && IsDir(t, od) && IsDir(t, nd) && od != nd
    requires Lookup(t, od, on).Some? && Lookup(t, nd, nn).None? && DoRename(t, od, on, nd, nn).1.Done?
    ensures var b' := EraseEntry(t.blks[od], on);
      var c' := AppendEntry(t.blks[nd], nn, Lookup(t, od, on).value);
      && DoRename(t, od, on, nd, nn).0 == t.(blks := t.blks[od := b'][nd := c'])
      && UniqueNames(b'.dents) && b'.count == |b'.dents| <= t.cap
      && UniqueNames(c'.dents) && c'.count == |c'.dents| <= t.cap
      && Find(b'.dents, n) == (if n == on then None else Lookup(t, od, n))
      && Find(c'.dents, n) == (if n == nn then Lookup(t, od, on) else Lookup(t, nd, n))
  {
    FindAfterErase(t.blks[od].dents, on, n);
    FindAfterAppend(t.blks[nd].dents, Entry(nn, Lookup(t, od, on).value), n);
  }

  lemma RenameEdits(t: Table, od: int, on: Name, nd: int, nn: Name, d: int, n: Name)
    requires DirsWellFormed(t) && IsDir(t, od) && IsDir(t, nd)
    requires Lookup(t, od, on).Some? && Lookup(t, nd, nn).None? && DoRename(t, od, on, nd, nn).1.Done?
    ensures var t' := DoRename(t, od, on, nd, nn).0;
      && DirsWellFormed(t')
      && (forall b :: Used(t', b) <==> Used(t, b))
      && Lookup(t', d, n) ==
        if (d, n) == (nd, nn) then Lookup(t, od, on)
        else if (d, n) == (od, on) then None
        else Lookup(t, d, n)
  {
    var t' := DoRename(t, od, on, nd, nn).0;
    if od == nd {
      RenameSameBlock(t, od, on, nn, n);
    } else {
      RenameTwoBlocks(t, od, on, nd, nn, n);
    }
    assert forall b :: IsDir(t', b) <==> IsDir(t, b);
    assert Children(t', od) == t'.blks[od].dents && Children(t', nd) == t'.blks[nd].dents;
    assert d != od && d != nd ==> Children(t', d) == Children(t, d);
  }

  /** Rename edits entries only: no block changes its owner, type or index. */
  lemma RenameKeepsHeaders(t: Table, od: int, on: Name, nd: int, nn: Name)
    requires IsDir(t, od) && IsDir(t, nd) && Lookup(t, od, on).Some?
    ensures var t' := DoRename(t, od, on, nd, nn).0;
      && |t'.blks| == |t.blks|
      && forall b :: 0 <= b < |t.blks| ==>
        && t'.blks[b].used == t.blks[b].used
        && t'.blks[b].mode == t.blks[b].mode
        && t'.blks[b].index == t.blks[b].index
  {
    hide Lookup;
  }

  /** Rename within one directory, on its map: the old name goes, the new name gets the same index,
      and no other block changes. */
  lemma RenameRefinesOneMap(t: Table, od: int, on: Name, nn: Name)
    requires DirsWellFormed(t) && IsDir(t, od)
    requires on in AsMap(t.blks[od].dents) && nn !in AsMap(t.blks[od].dents)
    ensures Lookup(t, od, on) == Some(AsMap(t.blks[od].dents)[on])
    ensures DoRename(t, od, on, od, nn).1 == if |nn| < MAX_NAME then Done else OutOfBuffer
    ensures var (t', res) := DoRename(t, od, on, od, nn);
      res == Done ==>
      && IsDir(t', od) && t' == t.(blks := t.blks[od := t'.blks[od]])
      && UniqueNames(t'.blks[od].dents)
      && AsMap(t'.blks[od].dents) == (AsMap(t.blks[od].dents) - {on})[nn := AsMap(t.blks[od].dents)[on]]
  {
    AsMapIsFind(t.blks[od].dents, on);
    AsMapIsFind(t.blks[od].dents, nn);
    if |nn| < MAX_NAME {
      RenameSameBlock(t, od, on, nn, on);
    }
    EraseRefinesMap(t.blks[od].dents, on);
    AppendRefinesMap(Erase(t.blks[od].dents, on), Entry(nn, AsMap(t.blks[od].dents)[on]));
  }

  /** Rename across two directories, on their maps. */
  lemma RenameRefinesTwoMaps(t: Table, od: int, on: Name, nd: int, nn: Name)
    requires DirsWellFormed(t) && IsDir(t, od) && IsDir(t, nd) && od != nd
    requires on in AsMap(t.blks[od].dents) && nn !in AsMap(t.blks[nd].dents)
    ensures Lookup(t, od, on) == Some(AsMap(t.blks[od].dents)[on])
    ensures DoRename(t, od, on, nd, nn).1 ==
      if |nn| < MAX_NAME && |t.blks[nd].dents| < t.cap then Done else OutOfBuffer
    ensures var (t', res) := DoRename(t, od, on, nd, nn);
      res == Done ==>
      && IsDir(t', od) && IsDir(t', nd) && t' == t.(blks := t.blks[od := t'.blks[od]][nd := t'.blks[nd]])
      && UniqueNames(t'.blks[od].dents) && UniqueNames(t'.blks[nd].dents)
      && AsMap(t'.blks[od].dents) == AsMap(t.blks[od].dents) - {on}
      && AsMap(t'.blks[nd].dents) == AsMap(t.blks[nd].dents)[nn := AsMap(t.blks[od].dents)[on]]
  {
    AsMapIsFind(t.blks[od].dents, on);
    AsMapIsFind(t.blks[nd].dents, nn);
    if DoRename(t, od, on, nd, nn).1.Done? {
      RenameTwoBlocks(t, od, on, nd, nn, on);
    }
    EraseRefinesMap(t.blks[od].dents, on);
    AppendRefinesMap(t.blks[nd].dents, Entry(nn, AsMap(t.blks[od].dents)[on]));
  }
}
