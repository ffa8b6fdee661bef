/** Runs of expfs operations from a fresh mount: the tree is kept, blocks are accounted for, deletion
    undoes creation, and rename relocates a subtree. */
module ExpfsRuns {
  import opened Wrappers
  import opened Directory
  import opened BlockTable
  import opened PathTree

  // ---------------------------------------------------------------------------------------------
  // What the VFS guarantees before it calls an operation

  ghost predicate CanCreate(t: Table, dir: int, name: Name) {
    IsDir(t, dir) && Lookup(t, dir, name).None?
  }

  ghost predicate CanUnlink(t: Table, dir: int, name: Name, victim: int) {
    && IsDir(t, dir) && Lookup(t, dir, name) == Some(victim)
    && Used(t, victim) && !t.blks[victim].mode.Dir?
  }

  ghost predicate CanRmdir(t: Table, dir: int, name: Name, victim: int) {
    IsDir(t, dir) && Lookup(t, dir, name) == Some(victim) && Used(t, victim)
  }

  ghost predicate CanRename(t: Table, od: int, on: Name, nd: int, nn: Name) {
    && IsDir(t, od) && IsDir(t, nd)
    && Lookup(t, od, on).Some? && Lookup(t, nd, nn).None?
    && Outside(t, Lookup(t, od, on).value, nd)
  }

  /** In a proper tree, the call is one the VFS may make and it succeeds. */
  ghost predicate Creates(t: Table, dir: int, name: Name, mode: Mode) {
    TreeInv(t) && CanCreate(t, dir, name) && DoCreate(t, dir, name, mode, true).1.Done?
  }

  ghost predicate Renames(t: Table, od: int, on: Name, nd: int, nn: Name) {
    TreeInv(t) && CanRename(t, od, on, nd, nn) && DoRename(t, od, on, nd, nn).1.Done?
  }

  // ---------------------------------------------------------------------------------------------
  // Each operation keeps the tree, and its effect on every path

  lemma AddKeepsSharing(t: Table, t': Table, d0: int, n0: Name, x: int)
    requires NoSharing(t) && Edited(t, t', d0, n0, Some(x))
    requires forall d, n :: Lookup(t, d, n) != Some(x)
    ensures NoSharing(t')
  {
  }

  lemma RemoveKeepsSharing(t: Table, t': Table, d0: int, n0: Name)
    requires NoSharing(t) && Edited(t, t', d0, n0, None)
    ensures NoSharing(t')
  {
  }

  lemma MoveKeepsSharing(t: Table, t': Table, od: int, on: Name, nd: int, nn: Name, x: int)
    requires NoSharing(t) && Moved(t, t', od, on, nd, nn, x)
    requires Lookup(t, od, on) == Some(x) && Lookup(t, nd, nn).None?
    ensures NoSharing(t')
  {
  }

  lemma CreateEdited(t: Table, dir: int, name: Name, mode: Mode)
    requires Creates(t, dir, name, mode)
    ensures var t', x := DoCreate(t, dir, name, mode, true).0, FirstFree(t.blks, 2);
      && x >= 2 && !Used(t, x) && Edited(t, t', dir, name, Some(x))
      && DirsWellFormed(t') && (forall b :: Used(t', b) <==> Used(t, b) || b == x)
      && (forall d, n :: Lookup(t, d, n) != Some(x)) && (forall n :: Lookup(t, x, n).None?)
  {
    var t' := DoCreate(t, dir, name, mode, true).0;
    forall d, n ensures Lookup(t', d, n) ==
        if (d, n) == (dir, name) then Some(FirstFree(t.blks, 2)) else Lookup(t, d, n)
    {
      CreateEdits(t, dir, name, mode, d, n);
    }
    CreateKeepsDirs(t, dir, name, mode);
  }

  /** A successful create adds one path, to the least free block, and changes no other path. */
  lemma CreateAddsOnePath(t: Table, dp: Path, dir: int, name: Name, mode: Mode, r: Path)
    requires Creates(t, dir, name, mode)
    requires Resolve(t, ROOT, dp) == Some(dir)
    ensures Resolve(DoCreate(t, dir, name, mode, true).0, ROOT, r) ==
      if r == dp + [name] then Some(FirstFree(t.blks, 2)) else Resolve(t, ROOT, r)
  {
    CreateEdited(t, dir, name, mode);
    AddedPath(t, DoCreate(t, dir, name, mode, true).0, dp, dir, name, FirstFree(t.blks, 2), r);
  }

  lemma CreateKeepsRoots(t: Table, dir: int, name: Name, mode: Mode)
    requires Creates(t, dir, name, mode)
    ensures Rooted(DoCreate(t, dir, name, mode, true).0)
  {
    var t', x := DoCreate(t, dir, name, mode, true).0, FirstFree(t.blks, 2);
    assert forall b :: Used(t', b) <==> Used(t, b) || b == x by {
      CreateEdited(t, dir, name, mode);
    }
    var dp :| Resolve(t, ROOT, dp) == Some(dir);
    ResolveLast(t, ROOT, dp, name);
    forall b | Used(t', b) ensures exists p :: Resolve(t', ROOT, p) == Some(b) {
      if b == x {
        CreateAddsOnePath(t, dp, dir, name, mode, dp + [name]);
      } else {
        var p :| Resolve(t, ROOT, p) == Some(b);
        CreateAddsOnePath(t, dp, dir, name, mode, p);
      }
    }
  }

  lemma CreateKeepsIndices(t: Table, dir: int, name: Name, mode: Mode)
    requires Creates(t, dir, name, mode)
    ensures var t' := DoCreate(t, dir, name, mode, true).0;
      && IsDir(t', ROOT) && !Used(t', 0)
      && (forall b :: Used(t', b) ==> t'.blks[b].index == b)
  {
    CreateShape(t, dir, name, mode);
  }

  lemma CreateKeepsTree(t: Table, dir: int, name: Name, mode: Mode, inodeOk: bool)
    requires TreeInv(t) && CanCreate(t, dir, name) && !Escapes(DoCreate(t, dir, name, mode, inodeOk).1)
    ensures TreeInv(DoCreate(t, dir, name, mode, inodeOk).0)
  {
    if DoCreate(t, dir, name, mode, inodeOk).1.Done? {
      var t', x := DoCreate(t, dir, name, mode, true).0, FirstFree(t.blks, 2);
      assert DoCreate(t, dir, name, mode, inodeOk).0 == t';
      CreatedIsTree(t, t', dir, name, mode);
    }
  }

  lemma CreatedIsTree(t: Table, t': Table, dir: int, name: Name, mode: Mode)
    requires TreeInv(t) && CanCreate(t, dir, name) && DoCreate(t, dir, name, mode, true) == (t', Done)
    ensures TreeInv(t')
  {
    var x := FirstFree(t.blks, 2);
    CreateKeepsRoots(t, dir, name, mode);
    CreateKeepsIndices(t, dir, name, mode);
    CreateEdited(t, dir, name, mode);
    AddKeepsSharing(t, t', dir, name, x);
    CreateShape(t, dir, name, mode);
    forall d, n | Lookup(t', d, n).Some?
      ensures Lookup(t', d, n).value >= 2 && Used(t', Lookup(t', d, n).value)
    {
      assert (d, n) != (dir, name) ==> Lookup(t', d, n) == Lookup(t, d, n);
    }
  }

  /** The table after a successful unlink or rmdir of a leaf. */
  ghost predicate LeafRemoved(t: Table, t': Table, dir: int, name: Name, victim: int) {
    && Edited(t, t', dir, name, None) && DirsWellFormed(t')
    && (forall b :: Used(t', b) <==> Used(t, b) && b != victim)
    && (forall n :: Lookup(t, victim, n).None?)
  }

  lemma UnlinkRemovesLeaf(t: Table, dir: int, name: Name, victim: int)
    requires TreeInv(t) && CanUnlink(t, dir, name, victim)
    ensures LeafRemoved(t, DoUnlink(t, dir, name, victim).0, dir, name, victim)
  {
    var t' := DoUnlink(t, dir, name, victim).0;
    forall d, n ensures Lookup(t', d, n) == if (d, n) == (dir, name) then None else Lookup(t, d, n) {
      UnlinkEdits(t, dir, name, victim, d, n);
    }
    UnlinkKeepsDirs(t, dir, name, victim);
  }

  lemma RmdirEdited(t: Table, dir: int, name: Name, victim: int)
    requires TreeInv(t) && CanRmdir(t, dir, name, victim) && DoRmdir(t, dir, name, victim).1.Done?
    ensures Edited(t, DoRmdir(t, dir, name, victim).0, dir, name, None)
  {
    var t' := DoRmdir(t, dir, name, victim).0;
    forall d, n ensures Lookup(t', d, n) == if (d, n) == (dir, name) then None else Lookup(t, d, n) {
      RmdirEdits(t, dir, name, victim, d, n);
    }
  }

  lemma RmdirRemovesLeaf(t: Table, dir: int, name: Name, victim: int)
    requires TreeInv(t) && CanRmdir(t, dir, name, victim) && DoRmdir(t, dir, name, victim).1.Done?
    ensures LeafRemoved(t, DoRmdir(t, dir, name, victim).0, dir, name, victim)
  {
    RmdirEdited(t, dir, name, victim);
    RmdirKeepsDirs(t, dir, name, victim);
    assert Children(t, victim) == [];
  }

  lemma LeafRemovalKeepsTree(t: Table, t': Table, dir: int, name: Name, victim: int)
    requires TreeInv(t) && LeafRemoved(t, t', dir, name, victim) && Lookup(t, dir, name) == Some(victim)
    requires IsDir(t', ROOT) && IsDir(t, dir)
    requires forall b :: Used(t', b) ==> t'.blks[b].index == t.blks[b].index
    ensures TreeInv(t')
  {
    RemoveKeepsSharing(t, t', dir, name);
    forall d, n | Lookup(t', d, n).Some?
      ensures Lookup(t', d, n).value >= 2 && Used(t', Lookup(t', d, n).value)
    {
      assert Lookup(t, d, n).Some? && (d, n) != (dir, name);
      assert Lookup(t, d, n) != Lookup(t, dir, name);
    }
    var dp :| Resolve(t, ROOT, dp) == Some(dir);
    ResolveLast(t, ROOT, dp, name);
    forall b | Used(t', b) ensures exists p :: Resolve(t', ROOT, p) == Some(b) {
      var p :| Resolve(t, ROOT, p) == Some(b);
      RemovedPath(t, t', dp, dir, name, victim, p);
    }
    assert Rooted(t');
  }

  /** A successful unlink drops one path and changes no other. */
  lemma UnlinkDropsOnePath(t: Table, dp: Path, dir: int, name: Name, victim: int, r: Path)
    requires TreeInv(t) && CanUnlink(t, dir, name, victim) && Resolve(t, ROOT, dp) == Some(dir)
    ensures Resolve(DoUnlink(t, dir, name, victim).0, ROOT, r) ==
      if r == dp + [name] then None else Resolve(t, ROOT, r)
  {
    UnlinkRemovesLeaf(t, dir, name, victim);
    RemovedPath(t, DoUnlink(t, dir, name, victim).0, dp, dir, name, victim, r);
  }

  /** rmdir drops one path when the victim is an empty directory; otherwise nothing changes. */
  lemma RmdirDropsOnePath(t: Table, dp: Path, dir: int, name: Name, victim: int, r: Path)
    requires TreeInv(t) && CanRmdir(t, dir, name, victim) && Resolve(t, ROOT, dp) == Some(dir)
    ensures var (t', res) := DoRmdir(t, dir, name, victim);
      && (res == Done <==> IsDir(t, victim) && forall n :: Lookup(t, victim, n).None?)
      && (res != Done ==> res == Enotempty && t' == t)
      && (res == Done ==> Resolve(t', ROOT, r) == if r == dp + [name] then None else Resolve(t, ROOT, r))
  {
    if DoRmdir(t, dir, name, victim).1.Done? {
      RmdirRemovesLeaf(t, dir, name, victim);
      RemovedPath(t, DoRmdir(t, dir, name, victim).0, dp, dir, name, victim, r);
    } else if IsDir(t, victim) {
      ScanHits(t.blks[victim].dents, 0);
      assert Lookup(t, victim, t.blks[victim].dents[0].name).Some?;
    }
  }

  lemma UnlinkKeepsTree(t: Table, dir: int, name: Name, victim: int)
    requires TreeInv(t) && CanUnlink(t, dir, name, victim)
    ensures TreeInv(DoUnlink(t, dir, name, victim).0)
  {
    UnlinkRemovesLeaf(t, dir, name, victim);
    LeafRemovalKeepsTree(t, DoUnlink(t, dir, name, victim).0, dir, name, victim);
  }

  lemma RmdirKeepsTree(t: Table, dir: int, name: Name, victim: int)
    requires TreeInv(t) && CanRmdir(t, dir, name, victim)
    ensures TreeInv(DoRmdir(t, dir, name, victim).0)
  {
    if DoRmdir(t, dir, name, victim).1.Done? {
      RmdirRemovesLeaf(t, dir, name, victim);
      LeafRemovalKeepsTree(t, DoRmdir(t, dir, name, victim).0, dir, name, victim);
    }
  }

  lemma RenameMoved(t: Table, od: int, on: Name, nd: int, nn: Name)
    requires Renames(t, od, on, nd, nn)
    ensures var t' := DoRename(t, od, on, nd, nn).0;
      && Moved(t, t', od, on, nd, nn, Lookup(t, od, on).value)
      && DirsWellFormed(t') && forall b :: Used(t', b) <==> Used(t, b)
  {
    var t' := DoRename(t, od, on, nd, nn).0;
    forall d, n ensures Lookup(t', d, n) ==
      if (d, n) == (nd, nn) then Some(Lookup(t, od, on).value)
      else if (d, n) == (od, on) then None else Lookup(t, d, n)
    {
      RenameEdits(t, od, on, nd, nn, d, n);
    }
    RenameEdits(t, od, on, nd, nn, od, on);
  }

  /** Rename moves a whole subtree: every path under the old name now resolves under the new name
      to what it gave before, nothing resolves under the old name, and every path through neither
      name is unchanged. */
  lemma RenameMovesSubtree(t: Table, op: Path, od: int, on: Name, np: Path, nd: int, nn: Name, s: Path, r: Path)
    requires Renames(t, od, on, nd, nn)
    requires Resolve(t, ROOT, op) == Some(od) && Resolve(t, ROOT, np) == Some(nd)
    ensures var t' := DoRename(t, od, on, nd, nn).0;
      && Resolve(t', ROOT, np + [nn] + s) == Resolve(t, ROOT, op + [on] + s)
      && Resolve(t', ROOT, op + [on] + s) == None
      && (!(op + [on] <= r) && !(np + [nn] <= r) ==> Resolve(t', ROOT, r) == Resolve(t, ROOT, r))
  {
    var t', x := DoRename(t, od, on, nd, nn).0, Lookup(t, od, on).value;
    RenameMoved(t, od, on, nd, nn);
    assert RenameSetting(t, op, od, on, np, nd, nn, x);
    RelocatedPath(t, t', op, od, on, np, nd, nn, x, np + [nn] + s);
    RelocatedPath(t, t', op, od, on, np, nd, nn, x, op + [on] + s);
    RelocatedPath(t, t', op, od, on, np, nd, nn, x, r);
    assert (np + [nn] + s)[|np + [nn]|..] == s;
    NewParentOutside(t, op, od, on, np, nd, nn, x);
    PrefixesCompare(op + [on], np + [nn], op + [on] + s);
  }

  lemma RenameKeepsRoots(t: Table, od: int, on: Name, nd: int, nn: Name)
    requires Renames(t, od, on, nd, nn)
    ensures Rooted(DoRename(t, od, on, nd, nn).0)
  {
    var t' := DoRename(t, od, on, nd, nn).0;
    assert forall b :: Used(t', b) <==> Used(t, b) by {
      RenameMoved(t, od, on, nd, nn);
    }
    var op :| Resolve(t, ROOT, op) == Some(od);
    var np :| Resolve(t, ROOT, np) == Some(nd);
    forall b | Used(t', b) ensures exists p :: Resolve(t', ROOT, p) == Some(b) {
      var p :| Resolve(t, ROOT, p) == Some(b);
      var q := PathAfterRename(t, op, od, on, np, nd, nn, p);
    }
  }

  lemma RenameKeepsIndices(t: Table, od: int, on: Name, nd: int, nn: Name)
    requires Renames(t, od, on, nd, nn)
    ensures var t' := DoRename(t, od, on, nd, nn).0;
      && (forall b :: IsDir(t', b) <==> IsDir(t, b))
      && (forall b :: Used(t', b) <==> Used(t, b))
      && (forall b :: Used(t', b) ==> t'.blks[b].index == b)
  {
    hide DoRename, Lookup;
    RenameKeepsHeaders(t, od, on, nd, nn);
  }

  lemma MoveKeepsDangling(t: Table, t': Table, od: int, on: Name, nd: int, nn: Name, x: int)
    requires NoDangling(t) && Moved(t, t', od, on, nd, nn, x) && Lookup(t, od, on) == Some(x)
    requires forall b :: Used(t', b) <==> Used(t, b)
    ensures NoDangling(t')
  {
  }

  lemma MoveKeepsNames(t: Table, t': Table, od: int, on: Name, nd: int, nn: Name, x: int)
    requires NamesFit(t) && Moved(t, t', od, on, nd, nn, x) && |nn| < MAX_NAME
    ensures NamesFit(t')
  {
  }

  lemma RenameKeepsEntries(t: Table, od: int, on: Name, nd: int, nn: Name)
    requires Renames(t, od, on, nd, nn)
    ensures var t' := DoRename(t, od, on, nd, nn).0;
      DirsWellFormed(t') && NoDangling(t') && NoSharing(t') && NamesFit(t')
  {
    hide DirsWellFormed, Resolve, Lookup;
    var t', x := DoRename(t, od, on, nd, nn).0, Lookup(t, od, on).value;
    RenameMoved(t, od, on, nd, nn);
    MoveKeepsSharing(t, t', od, on, nd, nn, x);
    MoveKeepsDangling(t, t', od, on, nd, nn, x);
    MoveKeepsNames(t, t', od, on, nd, nn, x);
  }

  lemma RenameKeepsTree(t: Table, od: int, on: Name, nd: int, nn: Name)
    requires Renames(t, od, on, nd, nn)
    ensures TreeInv(DoRename(t, od, on, nd, nn).0)
  {
    hide DoRename, DirsWellFormed, Rooted, NoDangling, NoSharing, NamesFit, Lookup;
    RenameKeepsRoots(t, od, on, nd, nn);
    RenameKeepsIndices(t, od, on, nd, nn);
    RenameKeepsEntries(t, od, on, nd, nn);
  }

  /** The path that leads to a block after a rename. */
  lemma PathAfterRename(t: Table, op: Path, od: int, on: Name, np: Path, nd: int, nn: Name, p: Path)
      returns (q: Path)
    requires Renames(t, od, on, nd, nn) && Resolve(t, ROOT, p).Some?
    requires Resolve(t, ROOT, op) == Some(od) && Resolve(t, ROOT, np) == Some(nd)
    ensures Resolve(DoRename(t, od, on, nd, nn).0, ROOT, q) == Resolve(t, ROOT, p)
  {
    hide Resolve, DoRename, Lookup, TreeInv;
    if op + [on] <= p {
      var s := p[|op + [on]|..];
      RenameMovesSubtree(t, op, od, on, np, nd, nn, s, []);
      assert p == op + [on] + s;
      q := np + [nn] + s;
    } else {
      NotThroughAbsent(t, np, nd, nn, p);
      RenameMovesSubtree(t, op, od, on, np, nd, nn, [], p);
      q := p;
    }
  }

  lemma ResizeKeepsTree(t: Table, b: int, size: int)
    requires TreeInv(t) && 0 <= b < |t.blks| && !IsDir(t, b)
    ensures TreeInv(DoResize(t, b, size).0)
  {
    hide Lookup, Resolve;
    var t' := DoResize(t, b, size).0;
    SameChildrenSameLookups(t, t');
    forall x | Used(t', x) ensures exists p :: Resolve(t', ROOT, p) == Some(x) {
      var p :| Resolve(t, ROOT, p) == Some(x);
      SameEntriesSamePaths(t, t', ROOT, p);
    }
    assert Rooted(t');
  }

  /** A size stored in block `b` keeps the tree exactly when the block is no live directory, or already
      had that many entries. */
  lemma ResizeKeepsTreeExactly(t: Table, b: int, size: int)
    requires TreeInv(t) && 0 <= b < |t.blks|
    ensures TreeInv(DoResize(t, b, size).0) <==> !IsDir(t, b) || size == t.blks[b].count
  {
    hide Lookup, Resolve;
    var t' := DoResize(t, b, size).0;
    if !IsDir(t, b) {
      ResizeKeepsTree(t, b, size);
    } else if size == t.blks[b].count {
      assert t'.blks == t.blks;
    } else {
      assert IsDir(t', b) && t'.blks[b].count != |t'.blks[b].dents|;
    }
  }

  lemma SameChildrenSameLookups(t: Table, t': Table)
    requires forall d :: Children(t', d) == Children(t, d)
    ensures forall d, n :: Lookup(t', d, n) == Lookup(t, d, n)
  {
  }

  lemma {:induction false} SameEntriesSamePaths(t: Table, t': Table, d: int, p: Path)
    requires forall c, n :: Lookup(t', c, n) == Lookup(t, c, n)
    ensures Resolve(t', d, p) == Resolve(t, d, p)
    decreases |p|
  {
    if p != [] && Lookup(t, d, p[0]).Some? {
      SameEntriesSamePaths(t, t', Lookup(t, d, p[0]).value, p[1..]);
    }
  }

  // ---------------------------------------------------------------------------------------------
  // Runs

  datatype Op =
    | Create(dir: int, name: Name, mode: Mode, inodeOk: bool)
    | Unlink(dir: int, name: Name, victim: int)
    | Rmdir(dir: int, name: Name, victim: int)
    | Rename(od: int, on: Name, nd: int, nn: Name)
    | Resize(blk: int, size: int)

  ghost predicate Legal(t: Table, op: Op) {
    match op
    case Create(dir, name, _, _) => CanCreate(t, dir, name)
    case Unlink(dir, name, victim) => CanUnlink(t, dir, name, victim)
    case Rmdir(dir, name, victim) => CanRmdir(t, dir, name, victim)
    case Rename(od, on, nd, nn) => CanRename(t, od, on, nd, nn)
    case Resize(b, _) => 0 <= b < |t.blks| && !IsDir(t, b)
  }

  ghost function Step(t: Table, op: Op): (Table, Outcome)
    requires Legal(t, op)
  {
    match op
    case Create(dir, name, mode, inodeOk) => DoCreate(t, dir, name, mode, inodeOk)
    case Unlink(dir, name, victim) => DoUnlink(t, dir, name, victim)
    case Rmdir(dir, name, victim) => DoRmdir(t, dir, name, victim)
    case Rename(od, on, nd, nn) => DoRename(t, od, on, nd, nn)
    case Resize(b, size) => DoResize(t, b, size)
  }

  /** A run of calls the VFS may make, none of which writes outside the table. */
  ghost predicate LegalRun(t: Table, ops: seq<Op>)
    decreases |ops|
  {
    ops == [] || (
      && Legal(t, ops[0])
      && !Escapes(Step(t, ops[0]).1)
      && LegalRun(Step(t, ops[0]).0, ops[1..]))
  }

  ghost function Run(t: Table, ops: seq<Op>): Table
    requires LegalRun(t, ops)
    decreases |ops|
  {
    if ops == [] then t else Run(Step(t, ops[0]).0, ops[1..])
  }

  /** How many creates, and how many unlinks and rmdirs, succeeded. */
  ghost function Creations(t: Table, ops: seq<Op>): nat
    requires LegalRun(t, ops)
    decreases |ops|
  {
    if ops == [] then 0
    else (if ops[0].Create? && Step(t, ops[0]).1.Done? then 1 else 0) + Creations(Step(t, ops[0]).0, ops[1..])
  }

  ghost function Deletions(t: Table, ops: seq<Op>): nat
    requires LegalRun(t, ops)
    decreases |ops|
  {
    if ops == [] then 0
    else (if (ops[0].Unlink? || ops[0].Rmdir?) && Step(t, ops[0]).1.Done? then 1 else 0) +
         Deletions(Step(t, ops[0]).0, ops[1..])
  }

  lemma StepKeepsTree(t: Table, op: Op)
    requires TreeInv(t) && Legal(t, op) && !Escapes(Step(t, op).1)
    ensures TreeInv(Step(t, op).0)
  {
    match op
    case Create(dir, name, mode, inodeOk) => CreateKeepsTree(t, dir, name, mode, inodeOk);
    case Unlink(dir, name, victim) => UnlinkKeepsTree(t, dir, name, victim);
    case Rmdir(dir, name, victim) => RmdirKeepsTree(t, dir, name, victim);
    case Rename(od, on, nd, nn) => RenameKeepsTree(t, od, on, nd, nn);
    case Resize(b, size) => ResizeKeepsTree(t, b, size);
  }

  lemma MountedIsTree(maxFile: nat, cap: nat)
    requires maxFile >= 2
    ensures TreeInv(Mounted(maxFile, cap))
  {
    var t := Mounted(maxFile, cap);
    assert forall b :: Used(t, b) <==> b == ROOT;
    assert forall d :: Children(t, d) == [];
    assert Resolve(t, ROOT, []) == Some(ROOT);
  }

  lemma {:induction false} RunKeepsTree(t: Table, ops: seq<Op>)
    requires TreeInv(t) && LegalRun(t, ops)
    ensures TreeInv(Run(t, ops))
    decreases |ops|
  {
    if ops != [] {
      StepKeepsTree(t, ops[0]);
      RunKeepsTree(Step(t, ops[0]).0, ops[1..]);
    }
  }

  /** The tree invariant holds after every run from a fresh mount. */
  lemma EveryRunIsATree(maxFile: nat, cap: nat, ops: seq<Op>)
    requires maxFile >= 2 && LegalRun(Mounted(maxFile, cap), ops)
    ensures TreeInv(Run(Mounted(maxFile, cap), ops))
  {
    MountedIsTree(maxFile, cap);
    RunKeepsTree(Mounted(maxFile, cap), ops);
  }

  // ---------------------------------------------------------------------------------------------
  // Block accounting

  /** Used blocks from position `i` on. */
  function NumUsed(blks: seq<Blk>, i: nat): nat
    decreases |blks| - i
  {
    if i >= |blks| then 0 else (if blks[i].used then 1 else 0) + NumUsed(blks, i + 1)
  }

  lemma {:induction false} NumUsedUpdate(blks: seq<Blk>, i: nat, k: int, b: Blk)
    requires 0 <= k < |blks|
    ensures NumUsed(blks[k := b], i) == NumUsed(blks, i) +
      if i <= k then (if b.used then 1 else 0) - (if blks[k].used then 1 else 0) else 0
    decreases |blks| - i
  {
    if i < |blks| {
      NumUsedUpdate(blks, i + 1, k, b);
    }
  }

  /** All blocks are taken exactly when the scan finds none. */
  lemma {:induction false} FullMeansNoneFree(blks: seq<Blk>, i: nat)
    requires i <= |blks|
    ensures NumUsed(blks, i) <= |blks| - i
    ensures NumUsed(blks, i) == |blks| - i <==> FirstFree(blks, i) == -1
    decreases |blks| - i
  {
    if i < |blks| {
      FullMeansNoneFree(blks, i + 1);
    }
  }

  lemma StepAccounts(t: Table, op: Op)
    requires TreeInv(t) && Legal(t, op) && !Escapes(Step(t, op).1)
    ensures var (t', res) := Step(t, op);
      && |t'.blks| == |t.blks|
      && t'.usedBlks == t.usedBlks + (if op.Create? && res.Done? then 1 else 0)
      && NumUsed(t'.blks, 2) == NumUsed(t.blks, 2)
        + (if op.Create? && res.Done? then 1 else 0)
        - (if (op.Unlink? || op.Rmdir?) && res.Done? then 1 else 0)
  {
    match op
    case Create(dir, name, mode, inodeOk) =>
      var idx := FirstFree(t.blks, 2);
      if Step(t, op).1.Done? {
        var b := FreshBlk(t.blks[idx], idx, mode);
        NumUsedUpdate(t.blks, 2, idx, b);
        NumUsedUpdate(t.blks[idx := b], 2, dir, AppendEntry(t.blks[idx := b][dir], name, idx));
      }
    case Unlink(dir, name, victim) =>
      assert victim >= 2;
      var e := EraseEntry(t.blks[dir], name);
      NumUsedUpdate(t.blks, 2, dir, e);
      NumUsedUpdate(t.blks[dir := e], 2, victim, t.blks[dir := e][victim].(used := false));
    case Rmdir(dir, name, victim) =>
      assert victim >= 2;
      if Step(t, op).1.Done? {
        RmdirShape(t, dir, name, victim);
        var f := t.blks[victim].(used := false);
        NumUsedUpdate(t.blks, 2, victim, f);
        NumUsedUpdate(t.blks[victim := f], 2, dir, EraseEntry(t.blks[victim := f][dir], name));
      }
    case Rename(od, on, nd, nn) =>
      var e := EraseEntry(t.blks[od], on);
      NumUsedUpdate(t.blks, 2, od, e);
      NumUsedUpdate(t.blks[od := e], 2, nd, AppendEntry(t.blks[od := e][nd], nn, Lookup(t, od, on).value));
    case Resize(b, size) =>
      NumUsedUpdate(t.blks, 2, b, t.blks[b].(count := size));
  }

  lemma {:induction false} RunAccounts(t: Table, ops: seq<Op>)
    requires TreeInv(t) && LegalRun(t, ops)
    ensures var t' := Run(t, ops);
      && |t'.blks| == |t.blks|
      && t'.usedBlks == t.usedBlks + Creations(t, ops)
      && NumUsed(t'.blks, 2) + Deletions(t, ops) == NumUsed(t.blks, 2) + Creations(t, ops)
    decreases |ops|
  {
    if ops != [] {
      StepAccounts(t, ops[0]);
      StepKeepsTree(t, ops[0]);
      RunAccounts(Step(t, ops[0]).0, ops[1..]);
    }
  }

  lemma {:induction false} NoneUsed(blks: seq<Blk>, i: nat)
    requires forall k :: i <= k < |blks| ==> !blks[k].used
    ensures NumUsed(blks, i) == 0
    decreases |blks| - i
  {
    if i < |blks| {
      NoneUsed(blks, i + 1);
    }
  }

  /** After any run of one mount, `usedBlks` is one, plus the blocks in use from 2 up, plus the
      successful deletions so far; deletion never gives anything back to it. */
  lemma BlockAccounting(maxFile: nat, cap: nat, ops: seq<Op>)
    requires maxFile >= 2 && LegalRun(Mounted(maxFile, cap), ops)
    ensures var t0 := Mounted(maxFile, cap);
      var t := Run(t0, ops);
      && |t.blks| == maxFile
      && t.usedBlks == 1 + NumUsed(t.blks, 2) + Deletions(t0, ops)
      && t.usedBlks == 1 + Creations(t0, ops)
  {
    MountedIsTree(maxFile, cap);
    RunAccounts(Mounted(maxFile, cap), ops);
    NoneUsed(Mounted(maxFile, cap).blks, 2);
  }

  /** In a reachable state, a create that passes the guard on `usedBlks` and the mode test runs out
      of table exactly when nothing was ever deleted and all MAX_FILE - 2 blocks are taken. */
  lemma GuardMissesExactlyFull(maxFile: nat, cap: nat, ops: seq<Op>, dir: int, name: Name, mode: Mode)
    requires maxFile >= 2 && LegalRun(Mounted(maxFile, cap), ops)
    requires var t := Run(Mounted(maxFile, cap), ops); IsDir(t, dir) && t.usedBlks < maxFile && !mode.Other?
    ensures var t0 := Mounted(maxFile, cap);
      var t := Run(t0, ops);
      DoCreate(t, dir, name, mode, true).1 == OutOfTable <==>
        Deletions(t0, ops) == 0 && NumUsed(t.blks, 2) == maxFile - 2
  {
    BlockAccounting(maxFile, cap, ops);
    FullMeansNoneFree(Run(Mounted(maxFile, cap), ops).blks, 2);
  }

  /** One mount creates at most MAX_FILE - 1 blocks in its lifetime; a create fails with EINVAL
      exactly when it has created that many, however much has been deleted, or the mode is none of
      the three. */
  lemma LifetimeBudget(maxFile: nat, cap: nat, ops: seq<Op>, dir: int, name: Name, mode: Mode, inodeOk: bool)
    requires maxFile >= 2 && LegalRun(Mounted(maxFile, cap), ops)
    requires IsDir(Run(Mounted(maxFile, cap), ops), dir)
    ensures var t0 := Mounted(maxFile, cap);
      && Creations(t0, ops) <= maxFile - 1
      && (DoCreate(Run(t0, ops), dir, name, mode, inodeOk).1 == Einval <==>
          Creations(t0, ops) == maxFile - 1 || mode.Other?)
  {
    BlockAccounting(maxFile, cap, ops);
    MountedIsTree(maxFile, cap);
    GuardBoundsUsedBlks(Mounted(maxFile, cap), ops);
  }

  lemma {:induction false} GuardBoundsUsedBlks(t: Table, ops: seq<Op>)
    requires TreeInv(t) && LegalRun(t, ops) && t.usedBlks <= |t.blks|
    ensures Run(t, ops).usedBlks <= |t.blks|
    decreases |ops|
  {
    if ops != [] {
      StepKeepsTree(t, ops[0]);
      StepAccounts(t, ops[0]);
      GuardBoundsUsedBlks(Step(t, ops[0]).0, ops[1..]);
    }
  }

  // ---------------------------------------------------------------------------------------------
  // Undoing

  lemma {:induction false} SameFlagsSameFree(a: seq<Blk>, b: seq<Blk>, i: nat)
    requires |a| == |b| && forall k :: 0 <= k < |a| ==> a[k].used == b[k].used
    ensures FirstFree(a, i) == FirstFree(b, i)
    decreases |a| - i
  {
    if i < |a| {
      SameFlagsSameFree(a, b, i + 1);
    }
  }

  /** Unlink after create, or rmdir after mkdir. */
  ghost function DeleteAgain(t: Table, dir: int, name: Name, mode: Mode): (Table, Outcome)
    requires Creates(t, dir, name, mode)
  {
    var t1, x := DoCreate(t, dir, name, mode, true).0, FirstFree(t.blks, 2);
    if mode.Dir? then DoRmdir(t1, dir, name, x) else DoUnlink(t1, dir, name, x)
  }

  /** Deleting what was just created: the parent is as before and the new block is free again. */
  lemma DeleteAgainShape(t: Table, dir: int, name: Name, mode: Mode)
    requires Creates(t, dir, name, mode)
    ensures var x := FirstFree(t.blks, 2);
      DeleteAgain(t, dir, name, mode) ==
        (Table(t.cap, t.usedBlks + 1, t.blks[x := FreshBlk(t.blks[x], x, mode).(used := false)]), Done)
  {
    hide FirstFree, Rooted, NoDangling, NoSharing, NamesFit, EraseEntry;
    var x := FirstFree(t.blks, 2);
    var made := FreshBlk(t.blks[x], x, mode);
    CreateShape(t, dir, name, mode);
    EraseUndoesAppend(t.blks[dir], name, x);
    UpdatesUndone(t.blks, x, dir, made, AppendEntry(t.blks[dir], name, x), made.(used := false));
  }

  lemma EraseUndoesAppend(p: Blk, name: Name, x: int)
    requires UniqueNames(p.dents) && Find(p.dents, name).None?
    ensures EraseEntry(AppendEntry(p, name, x), name) == p
  {
    EraseAfterAppend(p.dents, Entry(name, x));
    FindAfterAppend(p.dents, Entry(name, x), name);
  }

  lemma UpdatesUndone(s: seq<Blk>, x: int, d: int, f: Blk, a: Blk, g: Blk)
    requires 0 <= x < |s| && 0 <= d < |s| && x != d
    ensures s[x := f][d := a][d := s[d]][x := g] == s[x := g]
    ensures s[x := f][d := a][x := g][d := s[d]] == s[x := g]
  {
  }

  /** Creating a fresh name and deleting it again restores every directory's entry sequence, the set
      of used blocks, every path's resolution, and the index the next create will get.  What it does
      not restore is `usedBlks`. */
  lemma DeleteUndoesCreate(t: Table, dir: int, name: Name, mode: Mode, d: int, r: Path)
    requires Creates(t, dir, name, mode)
    ensures var (t2, res) := DeleteAgain(t, dir, name, mode);
      && res == Done
      && Children(t2, d) == Children(t, d)
      && (Used(t2, d) <==> Used(t, d))
      && Resolve(t2, ROOT, r) == Resolve(t, ROOT, r)
      && FirstFree(t2.blks, 2) == FirstFree(t.blks, 2)
      && t2.usedBlks == t.usedBlks + 1
  {
    hide DeleteAgain, FirstFree, Resolve, Lookup;
    DeleteAgainShape(t, dir, name, mode);
    var t2 := DeleteAgain(t, dir, name, mode).0;
    SameFlagsSameFree(t2.blks, t.blks, 2);
    SameChildrenSameLookups(t, t2);
    SameEntriesSamePaths(t, t2, ROOT, r);
  }

  /** Renaming back is allowed, and restores every path. */
  lemma RenameBackUndoesRename(t: Table, od: int, on: Name, nd: int, nn: Name, r: Path)
    requires Renames(t, od, on, nd, nn)
    ensures var t1 := DoRename(t, od, on, nd, nn).0;
      && CanRename(t1, nd, nn, od, on) && DoRename(t1, nd, nn, od, on).1.Done?
      && Resolve(DoRename(t1, nd, nn, od, on).0, ROOT, r) == Resolve(t, ROOT, r)
  {
    var t1 := DoRename(t, od, on, nd, nn).0;
    CanRenameBack(t, od, on, nd, nn);
    RenameKeepsTree(t, od, on, nd, nn);
    RenameBackLookups(t, t1, od, on, nd, nn);
    SameEntriesSamePaths(t, DoRename(t1, nd, nn, od, on).0, ROOT, r);
  }

  lemma CanRenameBack(t: Table, od: int, on: Name, nd: int, nn: Name)
    requires Renames(t, od, on, nd, nn)
    ensures var t1 := DoRename(t, od, on, nd, nn).0;
      CanRename(t1, nd, nn, od, on) && DoRename(t1, nd, nn, od, on).1.Done?
  {
    hide DoRename, Lookup, Resolve;
    OldParentOutside(t, od, on, nd, nn);
    RenameKeepsIndices(t, od, on, nd, nn);
    RenameMoved(t, od, on, nd, nn);
    OldNameFitsBack(t, od, on, nd, nn);
  }

  /** The old name came out of the old parent, so there is room for it again. */
  lemma OldNameFitsBack(t: Table, od: int, on: Name, nd: int, nn: Name)
    requires Renames(t, od, on, nd, nn)
    requires CanRename(DoRename(t, od, on, nd, nn).0, nd, nn, od, on)
    ensures DoRename(DoRename(t, od, on, nd, nn).0, nd, nn, od, on).1.Done?
  {
    hide Rooted, NoDangling, NoSharing, Resolve, Outside;
    var t1 := DoRename(t, od, on, nd, nn).0;
    assert |on| < MAX_NAME;
    if od == nd {
      RenameSameBlock(t, od, on, nn, nn);
      RenameFitsInPlace(t1, od, nn, on);
    } else {
      OldParentHasRoom(t, od, on, nd, nn);
    }
  }

  /** A rename within one directory always has room. */
  lemma RenameFitsInPlace(t: Table, d: int, on: Name, nn: Name)
    requires IsDir(t, d) && |t.blks[d].dents| <= t.cap && Lookup(t, d, on).Some? && |nn| < MAX_NAME
    ensures DoRename(t, d, on, d, nn).1.Done?
  {
  }

  lemma RenameBackLookups(t: Table, t1: Table, od: int, on: Name, nd: int, nn: Name)
    requires Renames(t, od, on, nd, nn) && t1 == DoRename(t, od, on, nd, nn).0
    requires TreeInv(t1) && CanRename(t1, nd, nn, od, on) && DoRename(t1, nd, nn, od, on).1.Done?
    ensures forall d, n :: Lookup(DoRename(t1, nd, nn, od, on).0, d, n) == Lookup(t, d, n)
  {
    hide DoRename, Lookup, Resolve;
    RenameMoved(t, od, on, nd, nn);
    RenameMoved(t1, nd, nn, od, on);
  }

  lemma OldParentHasRoom(t: Table, od: int, on: Name, nd: int, nn: Name)
    requires Renames(t, od, on, nd, nn) && od != nd
    ensures var t1 := DoRename(t, od, on, nd, nn).0; IsDir(t1, od) && |t1.blks[od].dents| < t1.cap
  {
    RenameTwoBlocks(t, od, on, nd, nn, on);
  }

  /** After the move the old parent is not below the moved block. */
  lemma OldParentOutside(t: Table, od: int, on: Name, nd: int, nn: Name)
    requires Renames(t, od, on, nd, nn)
    ensures Outside(DoRename(t, od, on, nd, nn).0, Lookup(t, od, on).value, od)
  {
    var t1, x := DoRename(t, od, on, nd, nn).0, Lookup(t, od, on).value;
    var op :| Resolve(t, ROOT, op) == Some(od);
    var np :| Resolve(t, ROOT, np) == Some(nd);
    forall s ensures Resolve(t1, x, s) != Some(od) {
      RenameMovesSubtree(t, op, od, on, np, nd, nn, s, []);
      RenameMovesSubtree(t, op, od, on, np, nd, nn, [], []);
      SubtreeUntouched(t, op, od, on, np, nd, nn, x, s);
      SubtreeUntouched(t, op, od, on, np, nd, nn, x, []);
      assert np + [nn] + [] == np + [nn];
      ResolveAppend(t1, ROOT, np + [nn], s);
    }
  }
}
