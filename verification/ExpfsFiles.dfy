/** Runs of expfs with open files.  An open file keeps its inode, and the inode its block, after the file
    is unlinked; the block may by then belong to something else.  The tree is kept over all runs exactly
    when no write goes through such a stale descriptor. */
module ExpfsFiles {
  import opened Wrappers
  import opened Directory
  import opened BlockTable
  import opened PathTree
  import opened ExpfsRuns
  import opened ExpfsLimits

  /** An open regular file: the block its inode refers to, and whether it was unlinked since. */
  datatype Fd = Fd(blk: int, stale: bool)

  datatype Mount = Mount(table: Table, fds: seq<Fd>)

  datatype Call =
    | Inode(op: Op)
    | Open(path: Path)
    | Write(fd: nat, size: nat)

  function Fresh(maxFile: nat, cap: nat): Mount
    requires maxFile >= 2
  {
    Mount(Mounted(maxFile, cap), [])
  }

  predicate IsFile(t: Table, b: int) {
    Used(t, b) && t.blks[b].mode.Reg?
  }

  /** The calls the VFS may make: inode operations as before, opening a regular file by its path, and
      storing a new size through any open file; through a stale one only if `staleOk`. */
  ghost predicate Allowed(m: Mount, c: Call, staleOk: bool) {
    match c
    case Inode(op) => !op.Resize? && Legal(m.table, op) && !Escapes(Step(m.table, op).1)
    case Open(p) => Resolve(m.table, ROOT, p).Some? && IsFile(m.table, Resolve(m.table, ROOT, p).value)
    case Write(i, _) => i < |m.fds| && 0 <= m.fds[i].blk < |m.table.blks| && (staleOk || !m.fds[i].stale)
  }

  /** An unlink makes every open file on its victim stale. */
  function MarkStale(fds: seq<Fd>, victim: int): (r: seq<Fd>)
    ensures |r| == |fds|
    ensures forall i :: 0 <= i < |r| ==> r[i] == if fds[i].blk == victim then Fd(victim, true) else fds[i]
  {
    seq(|fds|, i requires 0 <= i < |fds| => if fds[i].blk == victim then Fd(victim, true) else fds[i])
  }

  ghost function After(m: Mount, c: Call, staleOk: bool): Mount
    requires Allowed(m, c, staleOk)
  {
    match c
    case Inode(op) =>
      Mount(Step(m.table, op).0, if op.Unlink? then MarkStale(m.fds, op.victim) else m.fds)
    case Open(p) => m.(fds := m.fds + [Fd(Resolve(m.table, ROOT, p).value, false)])
    case Write(i, size) => m.(table := DoResize(m.table, m.fds[i].blk, size).0)
  }

  ghost predicate Session(m: Mount, calls: seq<Call>, staleOk: bool)
    decreases |calls|
  {
    calls == [] || (Allowed(m, calls[0], staleOk) && Session(After(m, calls[0], staleOk), calls[1..], staleOk))
  }

  ghost function Ends(m: Mount, calls: seq<Call>, staleOk: bool): Mount
    requires Session(m, calls, staleOk)
    decreases |calls|
  {
    if calls == [] then m else Ends(After(m, calls[0], staleOk), calls[1..], staleOk)
  }

  // ---------------------------------------------------------------------------------------------
  // Without writes through stale descriptors

  /** Open files that were not unlinked still refer to their files. */
  ghost predicate MountOk(m: Mount) {
    && TreeInv(m.table)
    && (forall i :: 0 <= i < |m.fds| ==> 0 <= m.fds[i].blk < |m.table.blks|)
    && (forall i :: 0 <= i < |m.fds| && !m.fds[i].stale ==> IsFile(m.table, m.fds[i].blk))
  }

  lemma CreateKeepsFile(t: Table, dir: int, name: Name, mode: Mode, inodeOk: bool, b: int)
    requires |t.blks| >= 2 && IsDir(t, dir) && IsFile(t, b)
    requires !Escapes(DoCreate(t, dir, name, mode, inodeOk).1)
    ensures IsFile(DoCreate(t, dir, name, mode, inodeOk).0, b)
  {
    if DoCreate(t, dir, name, mode, inodeOk).1.Done? {
      CreateShape(t, dir, name, mode);
    }
  }

  lemma DeleteKeepsFile(t: Table, dir: int, name: Name, victim: int, b: int)
    requires IsDir(t, dir) && Used(t, victim) && IsFile(t, b) && b != victim
    ensures IsFile(DoUnlink(t, dir, name, victim).0, b)
    ensures IsFile(DoRmdir(t, dir, name, victim).0, b)
  {
    hide EraseEntry;
    assert b != dir;
  }

  /** A file stays a file over every inode operation but its own unlink. */
  lemma StepKeepsFile(t: Table, op: Op, b: int)
    requires TreeInv(t) && Legal(t, op) && !op.Resize? && !Escapes(Step(t, op).1)
    requires IsFile(t, b) && !(op.Unlink? && op.victim == b)
    ensures IsFile(Step(t, op).0, b)
  {
    hide Resolve, NoSharing, NamesFit, Rooted, DoCreate, DoUnlink, DoRmdir, DoRename;
    match op
    case Create(dir, name, mode, inodeOk) =>
      CreateKeepsFile(t, dir, name, mode, inodeOk, b);
    case Unlink(dir, name, victim) =>
      DeleteKeepsFile(t, dir, name, victim, b);
    case Rmdir(dir, name, victim) =>
      if b == victim {
        NotEmptied(t, dir, name, victim);
      } else {
        DeleteKeepsFile(t, dir, name, victim, b);
      }
    case Rename(od, on, nd, nn) =>
      RenameKeepsHeaders(t, od, on, nd, nn);
  }

  /** rmdir refuses a file. */
  lemma NotEmptied(t: Table, dir: int, name: Name, victim: int)
    requires IsDir(t, dir) && IsFile(t, victim)
    ensures DoRmdir(t, dir, name, victim) == (t, Enotempty)
  {
  }

  lemma StepKeepsTableSize(t: Table, op: Op)
    requires Legal(t, op)
    ensures |Step(t, op).0.blks| == |t.blks|
  {
  }

  lemma CallKeepsMount(m: Mount, c: Call)
    requires MountOk(m) && Allowed(m, c, false)
    ensures MountOk(After(m, c, false))
  {
    hide TreeInv, Resolve, Step;
    var m' := After(m, c, false);
    match c
    case Inode(op) =>
      StepKeepsTree(m.table, op);
      StepKeepsTableSize(m.table, op);
      forall i | 0 <= i < |m'.fds| && !m'.fds[i].stale ensures IsFile(m'.table, m'.fds[i].blk) {
        assert m'.fds[i] == m.fds[i];
        StepKeepsFile(m.table, op, m.fds[i].blk);
      }
    case Open(p) =>
    case Write(i, size) =>
      ResizeKeepsTreeExactly(m.table, m.fds[i].blk, size);
  }

  lemma {:induction false} SessionKeepsMount(m: Mount, calls: seq<Call>)
    requires MountOk(m) && Session(m, calls, false)
    ensures MountOk(Ends(m, calls, false))
    decreases |calls|
  {
    hide MountOk, Allowed, After;
    if calls != [] {
      CallKeepsMount(m, calls[0]);
      SessionKeepsMount(After(m, calls[0], false), calls[1..]);
    }
  }

  /** Over every session of creates, unlinks, renames, opens and writes in which no write goes through an
      unlinked file, the table stays a tree and every open file keeps its block. */
  lemma EverySessionIsATree(maxFile: nat, cap: nat, calls: seq<Call>)
    requires maxFile >= 2 && Session(Fresh(maxFile, cap), calls, false)
    ensures MountOk(Ends(Fresh(maxFile, cap), calls, false))
  {
    hide TreeInv;
    MountedIsTree(maxFile, cap);
    SessionKeepsMount(Fresh(maxFile, cap), calls);
  }

  // ---------------------------------------------------------------------------------------------
  // With them

  const MKDIR := Op.Create(ROOT, FILE, Dir, true)

  /** Create a file, open it, unlink it, make a directory, which gets the same block, and write through
      the open file. */
  function Reuse(size: nat): seq<Call> {
    [Inode(MAKE), Open([FILE]), Inode(DROP), Inode(MKDIR), Write(0, size)]
  }

  /** The table up to the write. */
  lemma BlockIsReused(t: Table)
    requires Blank(t) && t.usedBlks + 2 <= |t.blks|
    ensures Legal(t, MAKE) && !Escapes(Step(t, MAKE).1)
    ensures var t1 := Step(t, MAKE).0;
      && Resolve(t1, ROOT, [FILE]) == Some(2) && IsFile(t1, 2)
      && Legal(t1, DROP) && !Escapes(Step(t1, DROP).1)
      && var t2 := Step(t1, DROP).0;
        && Legal(t2, MKDIR) && !Escapes(Step(t2, MKDIR).1)
        && var t3 := Step(t2, MKDIR).0;
          TreeInv(t3) && IsDir(t3, 2) && t3.blks[2].count == 0
  {
    hide Blank, DoUnlink, Lookup;
    BlankCreates(t);
    BlankAgain(t);
    FileIsThere(t);
    var t2 := Step(Step(t, MAKE).0, DROP).0;
    BlankMakesDir(t2);
  }

  lemma FileIsThere(t: Table)
    requires Creates(t, ROOT, FILE, Reg) && FirstFree(t.blks, 2) == 2
    ensures var t1 := DoCreate(t, ROOT, FILE, Reg, true).0;
      Resolve(t1, ROOT, [FILE]) == Some(2) && IsFile(t1, 2)
  {
    var t1 := DoCreate(t, ROOT, FILE, Reg, true).0;
    CreateEdits(t, ROOT, FILE, Reg, ROOT, FILE);
    CreateShape(t, ROOT, FILE, Reg);
    assert Resolve(t1, 2, []) == Some(2);
  }

  lemma BlankMakesDir(t: Table)
    requires Blank(t) && t.usedBlks < |t.blks|
    ensures Legal(t, MKDIR) && !Escapes(Step(t, MKDIR).1)
    ensures var t' := Step(t, MKDIR).0; TreeInv(t') && IsDir(t', 2) && t'.blks[2].count == 0
  {
    hide TreeInv, Lookup, Resolve;
    BlankCreates(t);
    EmptyDirCreates(t, ROOT, Dir);
    CreateShape(t, ROOT, FILE, Dir);
    StepKeepsTree(t, MKDIR);
  }

  lemma SessionPeels(m: Mount, c: Call, rest: seq<Call>, staleOk: bool)
    requires Allowed(m, c, staleOk) && Session(After(m, c, staleOk), rest, staleOk)
    ensures Session(m, [c] + rest, staleOk)
    ensures Ends(m, [c] + rest, staleOk) == Ends(After(m, c, staleOk), rest, staleOk)
  {
    assert ([c] + rest)[1..] == rest;
  }

  /** For every MAX_FILE of at least 3 and any size but 0: the session is possible, its write is through
      a stale descriptor, and it breaks the tree. */
  lemma StaleWriteBreaksTree(maxFile: nat, cap: nat, size: nat)
    requires maxFile >= 3 && cap >= 1 && size > 0
    ensures Session(Fresh(maxFile, cap), Reuse(size), true)
    ensures !TreeInv(Ends(Fresh(maxFile, cap), Reuse(size), true).table)
  {
    hide Session, Ends, Step, Legal, TreeInv, Resolve;
    var m0 := Fresh(maxFile, cap);
    MountedIsBlank(maxFile, cap);
    BlockIsReused(m0.table);
    var m1 := After(m0, Inode(MAKE), true);
    var m2 := After(m1, Open([FILE]), true);
    var m3 := After(m2, Inode(DROP), true);
    var m4 := After(m3, Inode(MKDIR), true);
    assert m4.fds == [Fd(2, true)];
    var m5 := After(m4, Write(0, size), true);
    ResizeKeepsTreeExactly(m4.table, 2, size);
    SessionOfNothing(m5);
    var r4 := [Write(0, size)] + [];
    var r3 := [Inode(MKDIR)] + r4;
    var r2 := [Inode(DROP)] + r3;
    var r1 := [Open([FILE])] + r2;
    SessionPeels(m4, Write(0, size), [], true);
    SessionPeels(m3, Inode(MKDIR), r4, true);
    SessionPeels(m2, Inode(DROP), r3, true);
    SessionPeels(m1, Open([FILE]), r2, true);
    SessionPeels(m0, Inode(MAKE), r1, true);
    assert Reuse(size) == [Inode(MAKE)] + r1;
  }

  lemma SessionOfNothing(m: Mount)
    ensures Session(m, [], true) && Ends(m, [], true) == m
  {
  }

  lemma MountedIsBlank(maxFile: nat, cap: nat)
    requires maxFile >= 3 && cap >= 1
    ensures Blank(Mounted(maxFile, cap)) && Mounted(maxFile, cap).usedBlks == 1
  {
    MountedIsTree(maxFile, cap);
  }

  /** A mount that has no block, or no entry, to give: nothing is ever created in it. */
  ghost predicate Barren(m: Mount) {
    && m.fds == [] && (|m.table.blks| == 2 || m.table.cap == 0)
    && TreeInv(m.table) && forall d, n :: Lookup(m.table, d, n).None?
  }

  lemma BarrenStays(m: Mount, c: Call, staleOk: bool)
    requires Barren(m) && Allowed(m, c, staleOk)
    ensures After(m, c, staleOk) == m
  {
    hide Resolve, Rooted;
    match c
    case Inode(op) =>
    case Open(p) =>
      OnlyTheRoot(m.table, p);
    case Write(i, size) =>
  }

  lemma OnlyTheRoot(t: Table, p: Path)
    requires (forall d, n :: Lookup(t, d, n).None?) && Resolve(t, ROOT, p).Some?
    ensures Resolve(t, ROOT, p) == Some(ROOT)
  {
  }

  lemma {:induction false} BarrenSession(m: Mount, calls: seq<Call>, staleOk: bool)
    requires Barren(m) && Session(m, calls, staleOk)
    ensures Ends(m, calls, staleOk) == m
    decreases |calls|
  {
    hide Barren, Allowed, After;
    if calls != [] {
      BarrenStays(m, calls[0], staleOk);
      BarrenSession(m, calls[1..], staleOk);
    }
  }

  lemma MountedIsBarren(maxFile: nat, cap: nat)
    requires maxFile == 2 || (maxFile > 2 && cap == 0)
    ensures Barren(Fresh(maxFile, cap))
  {
    MountedIsTree(maxFile, cap);
    assert forall d :: Children(Mounted(maxFile, cap), d) == [];
  }

  /** For every mount: all sessions keep the tree exactly when writes through unlinked files are ruled
      out, or nothing can ever be created in it. */
  lemma TreeNeedsLiveWrites(maxFile: nat, cap: nat, staleOk: bool)
    requires maxFile >= 2
    ensures (forall calls :: Session(Fresh(maxFile, cap), calls, staleOk) ==>
        TreeInv(Ends(Fresh(maxFile, cap), calls, staleOk).table))
      <==> !staleOk || maxFile == 2 || cap == 0
  {
    hide TreeInv, Session, Ends, Reuse;
    if !staleOk || maxFile == 2 || cap == 0 {
      forall calls | Session(Fresh(maxFile, cap), calls, staleOk)
        ensures TreeInv(Ends(Fresh(maxFile, cap), calls, staleOk).table)
      {
        if !staleOk {
          EverySessionIsATree(maxFile, cap, calls);
        } else {
          MountedIsBarren(maxFile, cap);
          BarrenSession(Fresh(maxFile, cap), calls, staleOk);
        }
      }
    } else {
      StaleWriteBreaksTree(maxFile, cap, 1);
    }
  }
}
