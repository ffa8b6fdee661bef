/** Legal runs that use a mount up: `usedBlks` at MAX_FILE with every block free, and every block taken
    with `usedBlks` still below MAX_FILE. */
module ExpfsLimits {
  import opened Wrappers
  import opened Directory
  import opened BlockTable
  import opened PathTree
  import opened ExpfsRuns

  const FILE: Name := "a"

  /** Behind the guard, and with a free block, an empty directory takes a new entry. */
  lemma EmptyDirCreates(t: Table, d: int, mode: Mode)
    requires TreeInv(t) && IsDir(t, d) && Children(t, d) == [] && t.cap >= 1
    requires t.usedBlks < |t.blks| && FirstFree(t.blks, 2) != -1 && !mode.Other?
    ensures Creates(t, d, FILE, mode)
  {
    hide TreeInv, FirstFree;
    assert t.blks[d].dents == [] && |FILE| == 1;
    assert Lookup(t, d, FILE).None?;
    assert FirstFree(t.blks, 2) != d;
  }

  lemma TreeHasRoot(t: Table)
    requires TreeInv(t)
    ensures IsDir(t, ROOT)
  {
  }

  lemma RunOfNothing(t: Table)
    ensures LegalRun(t, []) && Run(t, []) == t
  {
  }

  lemma RunPeels(t: Table, op: Op, rest: seq<Op>)
    requires Legal(t, op) && !Escapes(Step(t, op).1) && LegalRun(Step(t, op).0, rest)
    ensures LegalRun(t, [op] + rest) && Run(t, [op] + rest) == Run(Step(t, op).0, rest)
  {
    assert ([op] + rest)[1..] == rest;
  }

  // ---------------------------------------------------------------------------------------------
  // Creating and deleting one file over and over

  ghost predicate OnlyRoot(t: Table) {
    forall b :: Used(t, b) <==> b == ROOT
  }

  ghost predicate Blank(t: Table) {
    TreeInv(t) && OnlyRoot(t) && t.cap >= 1 && |t.blks| >= 3 && Children(t, ROOT) == []
  }

  const MAKE := Op.Create(ROOT, FILE, Reg, true)
  const DROP := Op.Unlink(ROOT, FILE, 2)

  function CreateDelete(n: nat): seq<Op> {
    if n == 0 then [] else [MAKE, DROP] + CreateDelete(n - 1)
  }

  lemma BlankCreates(t: Table)
    requires Blank(t) && t.usedBlks < |t.blks|
    ensures FirstFree(t.blks, 2) == 2
    ensures Creates(t, ROOT, FILE, Reg)
    ensures DoCreate(t, ROOT, FILE, Reg, true).1 == Done
  {
    hide TreeInv;
    assert IsDir(t, ROOT) by {
      TreeHasRoot(t);
    }
    assert !Used(t, 2);
    EmptyDirCreates(t, ROOT, Reg);
  }

  /** The file just created can be deleted, and the table is blank again. */
  lemma BlankAgain(t: Table)
    requires Blank(t) && t.usedBlks < |t.blks|
    ensures Legal(t, MAKE) && !Escapes(Step(t, MAKE).1)
    ensures var t1 := Step(t, MAKE).0;
      && Legal(t1, DROP) && Step(t1, DROP).1 == Done
      && var t2 := Step(t1, DROP).0;
        Blank(t2) && t2.usedBlks == t.usedBlks + 1 && |t2.blks| == |t.blks|
  {
    hide DoCreate, DoUnlink, FirstFree, Lookup, Resolve, DeleteAgain;
    BlankCreates(t);
    var t1 := Step(t, MAKE).0;
    CreateKeepsTree(t, ROOT, FILE, Reg, true);
    CreatedCanGo(t);
    UnlinkKeepsTree(t1, ROOT, FILE, 2);
    DeleteAgainIs(t);
    DeleteAgainShape(t, ROOT, FILE, Reg);
    forall b ensures Used(Step(t1, DROP).0, b) <==> Used(t, b) {
      DeleteUndoesCreate(t, ROOT, FILE, Reg, b, []);
    }
    DeleteUndoesCreate(t, ROOT, FILE, Reg, ROOT, []);
  }

  lemma CreatedCanGo(t: Table)
    requires Creates(t, ROOT, FILE, Reg) && FirstFree(t.blks, 2) == 2
    ensures CanUnlink(DoCreate(t, ROOT, FILE, Reg, true).0, ROOT, FILE, 2)
  {
    CreateShape(t, ROOT, FILE, Reg);
    CreateEdits(t, ROOT, FILE, Reg, ROOT, FILE);
  }

  lemma DeleteAgainIs(t: Table)
    requires Creates(t, ROOT, FILE, Reg) && FirstFree(t.blks, 2) == 2
    requires CanUnlink(DoCreate(t, ROOT, FILE, Reg, true).0, ROOT, FILE, 2)
    ensures DeleteAgain(t, ROOT, FILE, Reg) == DoUnlink(DoCreate(t, ROOT, FILE, Reg, true).0, ROOT, FILE, 2)
  {
  }

  lemma {:induction false} CreateDeleteRuns(t: Table, n: nat)
    requires Blank(t) && t.usedBlks + n <= |t.blks|
    ensures LegalRun(t, CreateDelete(n))
    ensures var t' := Run(t, CreateDelete(n));
      Blank(t') && t'.usedBlks == t.usedBlks + n && |t'.blks| == |t.blks|
    decreases n
  {
    hide Blank, Legal, Step, LegalRun, Run;
    if n == 0 {
      RunOfNothing(t);
    } else {
      BlankAgain(t);
      var t1 := Step(t, MAKE).0;
      CreateDeleteRuns(Step(t1, DROP).0, n - 1);
      RunPeels(t1, DROP, CreateDelete(n - 1));
      RunPeels(t, MAKE, [DROP] + CreateDelete(n - 1));
      assert CreateDelete(n) == [MAKE] + ([DROP] + CreateDelete(n - 1));
    }
  }

  /** For every MAX_FILE of at least 3: creating and deleting one file MAX_FILE - 1 times ends with
      every block but the root free, and every later create fails with EINVAL. */
  lemma BudgetRunsOut(maxFile: nat, cap: nat) returns (ops: seq<Op>)
    requires maxFile >= 3 && cap >= 1
    ensures LegalRun(Mounted(maxFile, cap), ops)
    ensures var t := Run(Mounted(maxFile, cap), ops);
      && OnlyRoot(t) && IsDir(t, ROOT) && |t.blks| == maxFile
      && forall name: Name, mode: Mode, inodeOk: bool :: DoCreate(t, ROOT, name, mode, inodeOk) == (t, Einval)
  {
    hide TreeInv, LegalRun, Run;
    ops := CreateDelete(maxFile - 1);
    MountedIsTree(maxFile, cap);
    CreateDeleteRuns(Mounted(maxFile, cap), maxFile - 1);
    TreeHasRoot(Run(Mounted(maxFile, cap), ops));
  }

  // ---------------------------------------------------------------------------------------------
  // A chain of directories

  /** Blocks 1 to `p` are in use, and `p` is an empty directory. */
  ghost predicate Tip(t: Table, p: int) {
    && TreeInv(t) && t.cap >= 1 && 1 <= p < |t.blks| && t.usedBlks == p
    && (forall b :: Used(t, b) <==> 1 <= b <= p)
    && IsDir(t, p) && Children(t, p) == []
  }

  /** `n` directories, each inside the one before; the parent `p` gets block `p + 1`. */
  function Mkdirs(p: int, n: nat): seq<Op>
    decreases n
  {
    if n == 0 then [] else [Op.Create(p, FILE, Dir, true)] + Mkdirs(p + 1, n - 1)
  }

  lemma TipCreates(t: Table, p: int)
    requires Tip(t, p) && p + 1 < |t.blks|
    ensures FirstFree(t.blks, 2) == p + 1
    ensures Creates(t, p, FILE, Dir)
  {
    hide TreeInv;
    TipAllocates(t, p);
    EmptyDirCreates(t, p, Dir);
  }

  lemma TipAllocates(t: Table, p: int)
    requires 1 <= p && p + 1 < |t.blks| && forall b :: Used(t, b) <==> 1 <= b <= p
    ensures FirstFree(t.blks, 2) == p + 1
  {
    var r := FirstFree(t.blks, 2);
    assert !Used(t, p + 1) && (r == -1 || !Used(t, r));
  }

  lemma TipMoves(t: Table, p: int)
    requires Tip(t, p) && p + 1 < |t.blks|
    ensures CanCreate(t, p, FILE) && DoCreate(t, p, FILE, Dir, true).1 == Done
    ensures var t' := DoCreate(t, p, FILE, Dir, true).0;
      Tip(t', p + 1) && |t'.blks| == |t.blks| && t'.cap == t.cap
  {
    hide TreeInv, DoCreate, FirstFree;
    TipCreates(t, p);
    CreateKeepsTree(t, p, FILE, Dir, true);
    CreateShape(t, p, FILE, Dir);
    var t' := DoCreate(t, p, FILE, Dir, true).0;
    assert t'.blks[p + 1] == FreshBlk(t.blks[p + 1], p + 1, Dir);
    forall b ensures Used(t', b) <==> 1 <= b <= p + 1 {
      assert Used(t', b) <==> Used(t, b) || b == p + 1;
    }
  }

  lemma {:induction false} MkdirsRun(t: Table, p: int, n: nat)
    requires Tip(t, p) && p + n < |t.blks|
    ensures LegalRun(t, Mkdirs(p, n))
    ensures var t' := Run(t, Mkdirs(p, n)); Tip(t', p + n) && |t'.blks| == |t.blks|
    decreases n
  {
    hide DoCreate, Tip, LegalRun, Run;
    if n == 0 {
      RunOfNothing(t);
    } else {
      TipMoves(t, p);
      MkdirsRun(DoCreate(t, p, FILE, Dir, true).0, p + 1, n - 1);
      RunPeels(t, Op.Create(p, FILE, Dir, true), Mkdirs(p + 1, n - 1));
    }
  }

  /** With every block taken, `getblock` fails behind the guard. */
  lemma TipIsFull(t: Table, p: int, mode: Mode)
    requires Tip(t, p) && p == |t.blks| - 1 && !mode.Other?
    ensures CanCreate(t, p, FILE) && DoCreate(t, p, FILE, mode, true).1 == OutOfTable
  {
    hide TreeInv;
    var r := FirstFree(t.blks, 2);
    assert t.blks[p].dents == [] && (r == -1 || Used(t, r));
  }

  lemma MountedIsTip(maxFile: nat, cap: nat)
    requires maxFile >= 2 && cap >= 1
    ensures Tip(Mounted(maxFile, cap), ROOT)
  {
    hide TreeInv;
    MountedIsTree(maxFile, cap);
    assert forall b :: Used(Mounted(maxFile, cap), b) <==> b == ROOT;
  }

  /** For every MAX_FILE: a chain of MAX_FILE - 2 directories takes every block while `usedBlks` is one
      below MAX_FILE, so the next create passes the guard and finds no block. */
  lemma TableRunsOut(maxFile: nat, cap: nat) returns (ops: seq<Op>, dir: int)
    requires maxFile >= 2 && cap >= 1
    ensures LegalRun(Mounted(maxFile, cap), ops)
    ensures var t := Run(Mounted(maxFile, cap), ops);
      && |t.blks| == maxFile && t.usedBlks < maxFile && CanCreate(t, dir, FILE)
      && forall mode: Mode :: !mode.Other? ==> DoCreate(t, dir, FILE, mode, true).1 == OutOfTable
  {
    hide DoCreate, TreeInv, Mounted, LegalRun, Run;
    ops, dir := Mkdirs(ROOT, maxFile - 2), maxFile - 1;
    MountedIsTip(maxFile, cap);
    MkdirsRun(Mounted(maxFile, cap), ROOT, maxFile - 2);
    forall mode: Mode | !mode.Other?
      ensures DoCreate(Run(Mounted(maxFile, cap), ops), dir, FILE, mode, true).1 == OutOfTable
    {
      TipIsFull(Run(Mounted(maxFile, cap), ops), dir, mode);
    }
    TipIsFull(Run(Mounted(maxFile, cap), ops), dir, Reg);
  }
}
