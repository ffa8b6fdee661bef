/** Path resolution over the block table, the tree invariant, and what each edit does to paths. */
module PathTree {
  import opened Wrappers
  import opened Directory
  import opened BlockTable

  type Path = seq<Name>

  /** Iterated lookup from block `d`. */
  function Resolve(t: Table, d: int, p: Path): Option<int>
    decreases |p|
  {
    if p == [] then Some(d)
    else match Lookup(t, d, p[0])
      case None => None
      case Some(c) => Resolve(t, c, p[1..])
  }

  // ---------------------------------------------------------------------------------------------
  // The invariant

  /** Every entry points to a used block from 2 up. */
  ghost predicate NoDangling(t: Table) {
    forall d, n :: Lookup(t, d, n).Some? ==> Lookup(t, d, n).value >= 2 && Used(t, Lookup(t, d, n).value)
  }

  /** No block is named twice. */
  ghost predicate NoSharing(t: Table) {
    forall d, n, d', n' :: Lookup(t, d, n).Some? && Lookup(t, d', n') == Lookup(t, d, n) ==> d == d' && n == n'
  }

  /** Some path from the root leads to every used block. */
  ghost predicate Rooted(t: Table) {
    forall b :: Used(t, b) ==> exists p :: Resolve(t, ROOT, p) == Some(b)
  }

  /** Every stored name fits its field. */
  ghost predicate NamesFit(t: Table) {
    forall d, n :: Lookup(t, d, n).Some? ==> |n| < MAX_NAME
  }

  ghost predicate TreeInv(t: Table) {
    && DirsWellFormed(t)
    && IsDir(t, ROOT) && !Used(t, 0)
    && (forall b :: Used(t, b) ==> t.blks[b].index == b)
    && NoDangling(t) && NoSharing(t) && NamesFit(t) && Rooted(t)
  }

  // ---------------------------------------------------------------------------------------------
  // Paths in any table

  lemma {:induction false} ResolveAppend(t: Table, d: int, p: Path, q: Path)
    ensures Resolve(t, d, p + q) ==
      match Resolve(t, d, p) case None => None case Some(c) => Resolve(t, c, q)
    decreases |p|
  {
    hide Lookup;
    if p == [] {
      assert p + q == q;
    } else {
      assert (p + q)[1..] == p[1..] + q;
      if Lookup(t, d, p[0]).Some? {
        ResolveAppend(t, Lookup(t, d, p[0]).value, p[1..], q);
      }
    }
  }

  lemma ResolveLast(t: Table, d: int, p: Path, n: Name)
    ensures Resolve(t, d, p + [n]) ==
      match Resolve(t, d, p) case None => None case Some(c) => Lookup(t, c, n)
  {
    hide Lookup;
    ResolveAppend(t, d, p, [n]);
    match Resolve(t, d, p)
    case None =>
    case Some(c) =>
      var o := Lookup(t, c, n);
      if o.Some? {
        assert Resolve(t, o.value, []) == o;
      }
  }

  /** A prefix of a path that resolves, resolves. */
  lemma ResolvePrefix(t: Table, p: Path, q: Path)
    requires p <= q && Resolve(t, ROOT, q).Some?
    ensures Resolve(t, ROOT, p).Some?
  {
    assert q == p + q[|p|..];
    ResolveAppend(t, ROOT, p, q[|p|..]);
  }

  /** A path that resolves does not go through an absent name. */
  lemma NotThroughAbsent(t: Table, dp: Path, d: int, n: Name, p: Path)
    requires Resolve(t, ROOT, dp) == Some(d) && Lookup(t, d, n).None? && Resolve(t, ROOT, p).Some?
    ensures !(dp + [n] <= p)
  {
    hide Resolve, Lookup;
    ResolveLast(t, ROOT, dp, n);
    if dp + [n] <= p {
      ResolvePrefix(t, dp + [n], p);
    }
  }

  // ---------------------------------------------------------------------------------------------
  // The table is a tree

  /** Two paths from the root to one block are the same path. */
  lemma {:induction false} UniquePath(t: Table, p: Path, q: Path)
    requires NoDangling(t) && NoSharing(t)
    requires Resolve(t, ROOT, p).Some? && Resolve(t, ROOT, p) == Resolve(t, ROOT, q)
    ensures p == q
    decreases |p|
  {
    hide Lookup;
    if p != [] && q != [] {
      var p', q' := p[..|p| - 1], q[..|q| - 1];
      var m, n := p[|p| - 1], q[|q| - 1];
      assert p == p' + [m] && q == q' + [n];
      ResolveLast(t, ROOT, p', m);
      ResolveLast(t, ROOT, q', n);
      UniquePath(t, p', q');
    } else if p != [] {
      assert p == p[..|p| - 1] + [p[|p| - 1]];
      ResolveLast(t, ROOT, p[..|p| - 1], p[|p| - 1]);
    } else if q != [] {
      assert q == q[..|q| - 1] + [q[|q| - 1]];
      ResolveLast(t, ROOT, q[..|q| - 1], q[|q| - 1]);
    }
  }

  /** No block lies below itself. */
  lemma NoCycle(t: Table, b: int, s: Path)
    requires TreeInv(t) && Used(t, b) && Resolve(t, b, s) == Some(b)
    ensures s == []
  {
    var p :| Resolve(t, ROOT, p) == Some(b);
    BelowItself(t, p, b, s);
  }

  lemma BelowItself(t: Table, p: Path, b: int, s: Path)
    requires NoDangling(t) && NoSharing(t)
    requires Resolve(t, ROOT, p) == Some(b) && Resolve(t, b, s) == Some(b)
    ensures s == []
  {
    ResolveAppend(t, ROOT, p, s);
    UniquePath(t, p + s, p);
  }

  lemma EntryIsLookup(t: Table, d: int, i: int)
    requires DirsWellFormed(t) && IsDir(t, d) && 0 <= i < |t.blks[d].dents|
    ensures Lookup(t, d, t.blks[d].dents[i].name) == Some(t.blks[d].dents[i].index)
  {
    ScanHits(t.blks[d].dents, i);
  }

  /** Two entries for one block are the same entry. */
  lemma SameBlockSameEntry(t: Table, d: int, i: int, d': int, i': int)
    requires DirsWellFormed(t) && NoSharing(t)
    requires IsDir(t, d) && 0 <= i < |t.blks[d].dents|
    requires IsDir(t, d') && 0 <= i' < |t.blks[d'].dents|
    requires t.blks[d].dents[i].index == t.blks[d'].dents[i'].index
    ensures d == d' && i == i'
  {
    EntryIsLookup(t, d, i);
    EntryIsLookup(t, d', i');
    assert t.blks[d].dents[i].name == t.blks[d'].dents[i'].name;
    ScanHits(t.blks[d].dents, i);
    ScanHits(t.blks[d].dents, i');
  }

  lemma LookupIsEntry(t: Table, d: int, name: Name, b: int) returns (i: int)
    requires Lookup(t, d, name) == Some(b)
    ensures IsDir(t, d) && 0 <= i < |t.blks[d].dents| && t.blks[d].dents[i] == Entry(name, b)
  {
    i := Scan(t.blks[d].dents, name);
  }

  /** The last step of the path to a block. */
  lemma LastStep(t: Table, p: Path, b: int) returns (d: int, name: Name)
    requires Resolve(t, ROOT, p) == Some(b) && p != []
    ensures Resolve(t, ROOT, p[..|p| - 1]) == Some(d) && name == p[|p| - 1] && Lookup(t, d, name) == Some(b)
  {
    assert p == p[..|p| - 1] + [p[|p| - 1]];
    ResolveLast(t, ROOT, p[..|p| - 1], p[|p| - 1]);
    d, name := Resolve(t, ROOT, p[..|p| - 1]).value, p[|p| - 1];
  }

  /** Every used block from 2 up is named by exactly one entry of one used directory. */
  lemma NamedOnce(t: Table, b: int) returns (d: int, i: int)
    requires TreeInv(t) && Used(t, b) && b >= 2
    ensures IsDir(t, d) && 0 <= i < |t.blks[d].dents| && t.blks[d].dents[i].index == b
    ensures forall d', i' :: IsDir(t, d') && 0 <= i' < |t.blks[d'].dents| ==>
      (t.blks[d'].dents[i'].index == b ==> d' == d && i' == i)
  {
    var p :| Resolve(t, ROOT, p) == Some(b);
    var name;
    d, name := LastStep(t, p, b);
    i := LookupIsEntry(t, d, name, b);
    forall d', i' | IsDir(t, d') && 0 <= i' < |t.blks[d'].dents| && t.blks[d'].dents[i'].index == b
      ensures d' == d && i' == i
    {
      SameBlockSameEntry(t, d, i, d', i');
    }
  }

  /** Every entry of a used directory points to a used block from 2 up. */
  lemma EntriesPointToUsed(t: Table, d: int, i: int)
    requires TreeInv(t) && IsDir(t, d) && 0 <= i < |t.blks[d].dents|
    ensures Used(t, t.blks[d].dents[i].index) && t.blks[d].dents[i].index >= 2
  {
    EntryIsLookup(t, d, i);
  }

  ghost predicate IsParent(t: Table, d: int, b: int) {
    exists name :: Lookup(t, d, name) == Some(b)
  }

  /** `n` parent links lead from block `b` to the root. */
  ghost predicate Ascends(t: Table, b: int, n: nat)
    decreases n
  {
    if n == 0 then b == ROOT
    else exists d :: IsParent(t, d, b) && Ascends(t, d, n - 1)
  }

  /** The parent links of every used block reach the root, in exactly one number of steps: there is
      no cycle among the links and no second way up. */
  lemma ParentLinksReachRoot(t: Table, b: int) returns (n: nat)
    requires TreeInv(t) && Used(t, b)
    ensures Ascends(t, b, n)
    ensures forall m: nat :: Ascends(t, b, m) ==> m == n
  {
    var p :| Resolve(t, ROOT, p) == Some(b);
    n := |p|;
    PathAscends(t, b, p);
    forall m: nat | Ascends(t, b, m) ensures m == n {
      var q := AscentPath(t, b, m);
      UniquePath(t, p, q);
    }
  }

  lemma {:induction false} PathAscends(t: Table, b: int, p: Path)
    requires Resolve(t, ROOT, p) == Some(b)
    ensures Ascends(t, b, |p|)
    decreases |p|
  {
    hide Lookup;
    if p != [] {
      var d, name := LastStep(t, p, b);
      PathAscends(t, d, p[..|p| - 1]);
      assert IsParent(t, d, b) && Ascends(t, d, |p| - 1);
    }
  }

  lemma ExtendPath(t: Table, q: Path, d: int, b: int) returns (p: Path)
    requires Resolve(t, ROOT, q) == Some(d) && IsParent(t, d, b)
    ensures |p| == |q| + 1 && Resolve(t, ROOT, p) == Some(b)
  {
    var name :| Lookup(t, d, name) == Some(b);
    ResolveLast(t, ROOT, q, name);
    p := q + [name];
  }

  lemma {:induction false} AscentPath(t: Table, b: int, n: nat) returns (p: Path)
    requires Ascends(t, b, n)
    ensures |p| == n && Resolve(t, ROOT, p) == Some(b)
    decreases n
  {
    hide Lookup;
    if n == 0 {
      p := [];
    } else {
      var d :| IsParent(t, d, b) && Ascends(t, d, n - 1);
      var q := AscentPath(t, d, n - 1);
      p := ExtendPath(t, q, d, b);
    }
  }

  // ---------------------------------------------------------------------------------------------
  // One entry added, one entry removed

  /** The lookup function differs in one place only. */
  ghost predicate Edited(t: Table, t': Table, d0: int, n0: Name, v: Option<int>) {
    forall d, n :: Lookup(t', d, n) == if (d, n) == (d0, n0) then v else Lookup(t, d, n)
  }

  lemma StepInEditedTable(t: Table, t': Table, d0: int, n0: Name, v: Option<int>, r: Path, n: Name)
    requires Edited(t, t', d0, n0, v)
    ensures Resolve(t', ROOT, r + [n]) ==
      match Resolve(t', ROOT, r)
      case None => None
      case Some(c) => if (c, n) == (d0, n0) then v else Lookup(t, c, n)
  {
    ResolveLast(t', ROOT, r, n);
  }

  /** A new leaf adds exactly one path and changes no other. */
  lemma {:induction false} AddedPath(t: Table, t': Table, dp: Path, d0: int, n0: Name, x: int, r: Path)
    requires NoDangling(t) && NoSharing(t) && Edited(t, t', d0, n0, Some(x))
    requires Resolve(t, ROOT, dp) == Some(d0) && Lookup(t, d0, n0).None?
    requires forall d, n :: Lookup(t, d, n) != Some(x)
    requires x != ROOT && forall n :: Lookup(t, x, n).None?
    ensures Resolve(t', ROOT, r) == if r == dp + [n0] then Some(x) else Resolve(t, ROOT, r)
    decreases |r|
  {
    hide Lookup;
    if r == [] {
      assert |dp + [n0]| > 0;
    } else {
      var r', n := r[..|r| - 1], r[|r| - 1];
      assert r == r' + [n];
      AddedPath(t, t', dp, d0, n0, x, r');
      AddedExtends(t, t', dp, d0, n0, x, r', n);
    }
  }

  lemma AddedExtends(t: Table, t': Table, dp: Path, d0: int, n0: Name, x: int, r: Path, n: Name)
    requires NoDangling(t) && NoSharing(t) && Edited(t, t', d0, n0, Some(x))
    requires Resolve(t, ROOT, dp) == Some(d0) && Lookup(t, d0, n0).None?
    requires forall d, n :: Lookup(t, d, n) != Some(x)
    requires x != ROOT && forall n :: Lookup(t, x, n).None?
    requires Resolve(t', ROOT, r) == if r == dp + [n0] then Some(x) else Resolve(t, ROOT, r)
    ensures Resolve(t', ROOT, r + [n]) == if r + [n] == dp + [n0] then Some(x) else Resolve(t, ROOT, r + [n])
  {
    hide Lookup;
    ResolveLast(t, ROOT, r, n);
    ResolveLast(t, ROOT, dp, n0);
    StepInEditedTable(t, t', d0, n0, Some(x), r, n);
    NotResolvedTo(t, dp, x);
    SnocInjective(r, n, dp, n0);
    if r + [n] != dp + [n0] {
      NotAtEdge(t, dp, d0, n0, r, n);
    }
  }

  lemma SnocInjective(p: Path, m: Name, q: Path, n: Name)
    ensures p + [m] == q + [n] <==> p == q && m == n
  {
    if p + [m] == q + [n] {
      assert p == (p + [m])[..|p|] && q == (q + [n])[..|q|];
      assert m == (p + [m])[|p|] && n == (q + [n])[|q|];
    }
  }

  /** A block no entry names is not the end of any path. */
  lemma NotResolvedTo(t: Table, p: Path, x: int)
    requires x != ROOT && forall d, n :: Lookup(t, d, n) != Some(x)
    ensures Resolve(t, ROOT, p) != Some(x)
  {
    if p != [] {
      assert p == p[..|p| - 1] + [p[|p| - 1]];
      ResolveLast(t, ROOT, p[..|p| - 1], p[|p| - 1]);
    }
  }

  /** Removing a leaf removes exactly one path and changes no other. */
  lemma {:induction false} RemovedPath(t: Table, t': Table, dp: Path, d0: int, n0: Name, x: int, r: Path)
    requires NoDangling(t) && NoSharing(t) && Edited(t, t', d0, n0, None)
    requires Resolve(t, ROOT, dp) == Some(d0) && Lookup(t, d0, n0) == Some(x)
    requires forall n :: Lookup(t, x, n).None?
    ensures Resolve(t', ROOT, r) == if r == dp + [n0] then None else Resolve(t, ROOT, r)
    decreases |r|
  {
    hide Lookup;
    if r == [] {
      assert |dp + [n0]| > 0;
    } else {
      var r', n := r[..|r| - 1], r[|r| - 1];
      assert r == r' + [n];
      RemovedPath(t, t', dp, d0, n0, x, r');
      RemovedExtends(t, t', dp, d0, n0, x, r', n);
    }
  }

  lemma RemovedExtends(t: Table, t': Table, dp: Path, d0: int, n0: Name, x: int, r: Path, n: Name)
    requires NoDangling(t) && NoSharing(t) && Edited(t, t', d0, n0, None)
    requires Resolve(t, ROOT, dp) == Some(d0) && Lookup(t, d0, n0) == Some(x)
    requires forall n :: Lookup(t, x, n).None?
    requires Resolve(t', ROOT, r) == if r == dp + [n0] then None else Resolve(t, ROOT, r)
    ensures Resolve(t', ROOT, r + [n]) == if r + [n] == dp + [n0] then None else Resolve(t, ROOT, r + [n])
  {
    hide Lookup;
    ResolveLast(t, ROOT, r, n);
    ResolveLast(t, ROOT, dp, n0);
    StepInEditedTable(t, t', d0, n0, None, r, n);
    SnocInjective(r, n, dp, n0);
    if r + [n] != dp + [n0] {
      NotAtEdge(t, dp, d0, n0, r, n);
    }
  }

  // ---------------------------------------------------------------------------------------------
  // One entry moved

  /** The lookup function after a rename. */
  ghost predicate Moved(t: Table, t': Table, od: int, on: Name, nd: int, nn: Name, x: int) {
    forall d, n :: Lookup(t', d, n) ==
      if (d, n) == (nd, nn) then Some(x) else if (d, n) == (od, on) then None else Lookup(t, d, n)
  }

  /** The destination directory is neither the moved block nor below it. */
  ghost predicate Outside(t: Table, x: int, nd: int) {
    forall s :: Resolve(t, x, s) != Some(nd)
  }

  /** What a path means after the block at `oldp` was moved to `newp`, in terms of the old table. */
  ghost function Relocated(t: Table, oldp: Path, newp: Path, r: Path): Option<int> {
    if newp <= r then Resolve(t, ROOT, oldp + r[|newp|..])
    else if oldp <= r then None
    else Resolve(t, ROOT, r)
  }

  ghost predicate RenameSetting(t: Table, op: Path, od: int, on: Name, np: Path, nd: int, nn: Name, x: int) {
    && NoDangling(t) && NoSharing(t)
    && Resolve(t, ROOT, op) == Some(od) && Lookup(t, od, on) == Some(x)
    && Resolve(t, ROOT, np) == Some(nd) && Lookup(t, nd, nn).None?
    && Outside(t, x, nd)
  }

  /** The new parent is not below the old name. */
  lemma NewParentOutside(t: Table, op: Path, od: int, on: Name, np: Path, nd: int, nn: Name, x: int)
    requires RenameSetting(t, op, od, on, np, nd, nn, x)
    ensures !(op + [on] <= np) && !(op + [on] <= op) && !(np + [nn] <= op) && !(np + [nn] <= np)
    ensures !(np + [nn] <= op + [on]) && !(op + [on] <= np + [nn])
  {
    hide Resolve, Lookup;
    var oldp, newp := op + [on], np + [nn];
    ResolveLast(t, ROOT, op, on);
    NotThroughAbsent(t, np, nd, nn, oldp);
    if oldp <= np {
      assert np == oldp + np[|oldp|..];
      ResolveAppend(t, ROOT, oldp, np[|oldp|..]);
    }
    PrefixOfLonger(np, nn, op, on);
    PrefixOfLonger(op, on, np, nn);
  }

  /** Below the moved block no path reaches either of the two edited directories. */
  lemma SubtreeUntouched(t: Table, op: Path, od: int, on: Name, np: Path, nd: int, nn: Name, x: int, s: Path)
    requires RenameSetting(t, op, od, on, np, nd, nn, x)
    ensures Resolve(t, ROOT, op + [on] + s) == Resolve(t, x, s)
    ensures Resolve(t, x, s) != Some(od) && Resolve(t, x, s) != Some(nd)
  {
    hide Resolve, Lookup;
    ResolveLast(t, ROOT, op, on);
    ResolveAppend(t, ROOT, op + [on], s);
    if Resolve(t, x, s) == Some(od) {
      UniquePath(t, op + [on] + s, op);
      assert false;
    }
  }

  /** A path one step longer has just one more prefix. */
  lemma PrefixOfLonger(a: Path, m: Name, r: Path, n: Name)
    ensures a + [m] <= r + [n] <==> a + [m] <= r || (a == r && m == n)
  {
    var p, q := a + [m], r + [n];
    assert q[..|r|] == r && q[|r|] == n && p[..|a|] == a && p[|a|] == m;
    if p <= q {
      assert p == q[..|p|];
    }
    if p <= r {
      assert p == q[..|p|];
    }
  }

  lemma PrefixesCompare(p: Path, q: Path, r: Path)
    ensures p <= r && q <= r ==> p <= q || q <= p
  {
    if p <= r && q <= r {
      assert p == r[..|p|] && q == r[..|q|];
    }
  }

  /** One more step of a path, looked up the way the new table does it. */
  ghost function MovedLookup(t: Table, od: int, on: Name, nd: int, nn: Name, x: int,
                             c: Option<int>, n: Name): Option<int> {
    match c
    case None => None
    case Some(d) =>
      if (d, n) == (nd, nn) then Some(x) else if (d, n) == (od, on) then None else Lookup(t, d, n)
  }

  /** Extending a path under the new name. */
  lemma RelocatedBelowNew(t: Table, op: Path, od: int, on: Name, np: Path, nd: int, nn: Name, x: int,
                          s: Path, n: Name)
    requires RenameSetting(t, op, od, on, np, nd, nn, x)
    ensures var oldp, newp := op + [on], np + [nn];
      Relocated(t, oldp, newp, newp + s + [n]) ==
      MovedLookup(t, od, on, nd, nn, x, Relocated(t, oldp, newp, newp + s), n)
  {
    hide Resolve, Lookup;
    var oldp, newp := op + [on], np + [nn];
    assert (newp + s)[|newp|..] == s;
    assert (newp + s + [n])[|newp|..] == s + [n];
    SubtreeUntouched(t, op, od, on, np, nd, nn, x, s);
    ResolveLast(t, ROOT, oldp + s, n);
    assert oldp + (s + [n]) == oldp + s + [n];
  }

  /** Extending a path under the old name. */
  lemma RelocatedBelowOld(t: Table, op: Path, od: int, on: Name, np: Path, nd: int, nn: Name, x: int,
                          r: Path, n: Name)
    requires RenameSetting(t, op, od, on, np, nd, nn, x)
    requires op + [on] <= r
    ensures Relocated(t, op + [on], np + [nn], r) == None
    ensures Relocated(t, op + [on], np + [nn], r + [n]) == None
  {
    hide Resolve, Lookup;
    NewParentOutside(t, op, od, on, np, nd, nn, x);
    PrefixOfLonger(np, nn, r, n);
    PrefixesCompare(op + [on], np + [nn], r);
  }

  /** Extending a path that is not yet under either name. */
  lemma RelocatedElsewhere(t: Table, op: Path, od: int, on: Name, np: Path, nd: int, nn: Name, x: int,
                           r: Path, n: Name)
    requires RenameSetting(t, op, od, on, np, nd, nn, x)
    requires !(np + [nn] <= r) && !(op + [on] <= r)
    ensures var oldp, newp := op + [on], np + [nn];
      Relocated(t, oldp, newp, r + [n]) == MovedLookup(t, od, on, nd, nn, x, Resolve(t, ROOT, r), n)
  {
    hide Lookup;
    var oldp, newp := op + [on], np + [nn];
    PrefixOfLonger(np, nn, r, n);
    PrefixOfLonger(op, on, r, n);
    ResolveLast(t, ROOT, r, n);
    if newp <= r + [n] {
      assert oldp + (r + [n])[|newp|..] == oldp;
      ResolveLast(t, ROOT, op, on);
    } else if oldp <= r + [n] {
    } else {
      NotAtEdge(t, op, od, on, r, n);
      NotAtEdge(t, np, nd, nn, r, n);
    }
  }

  /** Only the path of the directory itself leads to one of its entries. */
  lemma NotAtEdge(t: Table, dp: Path, d: int, m: Name, r: Path, n: Name)
    requires NoDangling(t) && NoSharing(t) && Resolve(t, ROOT, dp) == Some(d)
    requires dp + [m] != r + [n]
    ensures Resolve(t, ROOT, r) == Some(d) ==> n != m
  {
    if Resolve(t, ROOT, r) == Some(d) {
      UniquePath(t, r, dp);
    }
  }

  /** Extending any path. */
  lemma RelocatedStep(t: Table, op: Path, od: int, on: Name, np: Path, nd: int, nn: Name, x: int,
                      r: Path, n: Name)
    requires RenameSetting(t, op, od, on, np, nd, nn, x)
    ensures var oldp, newp := op + [on], np + [nn];
      Relocated(t, oldp, newp, r + [n]) == MovedLookup(t, od, on, nd, nn, x, Relocated(t, oldp, newp, r), n)
  {
    hide Resolve, Lookup, RenameSetting;
    var oldp, newp := op + [on], np + [nn];
    if newp <= r {
      var s := r[|newp|..];
      assert r == newp + s;
      RelocatedBelowNew(t, op, od, on, np, nd, nn, x, s, n);
    } else if oldp <= r {
      RelocatedBelowOld(t, op, od, on, np, nd, nn, x, r, n);
    } else {
      RelocatedElsewhere(t, op, od, on, np, nd, nn, x, r, n);
    }
  }

  lemma StepInNewTable(t: Table, t': Table, od: int, on: Name, nd: int, nn: Name, x: int, r: Path, n: Name)
    requires Moved(t, t', od, on, nd, nn, x)
    ensures Resolve(t', ROOT, r + [n]) == MovedLookup(t, od, on, nd, nn, x, Resolve(t', ROOT, r), n)
  {
    ResolveLast(t', ROOT, r, n);
  }

  lemma RelocatedExtends(t: Table, t': Table, op: Path, od: int, on: Name, np: Path, nd: int, nn: Name, x: int,
                         r: Path, n: Name)
    requires RenameSetting(t, op, od, on, np, nd, nn, x) && Moved(t, t', od, on, nd, nn, x)
    requires Resolve(t', ROOT, r) == Relocated(t, op + [on], np + [nn], r)
    ensures Resolve(t', ROOT, r + [n]) == Relocated(t, op + [on], np + [nn], r + [n])
  {
    hide Lookup;
    StepInNewTable(t, t', od, on, nd, nn, x, r, n);
    RelocatedStep(t, op, od, on, np, nd, nn, x, r, n);
  }

  /** Every path of the new table, in terms of the old one. */
  lemma {:induction false} RelocatedPath(t: Table, t': Table, op: Path, od: int, on: Name,
                                         np: Path, nd: int, nn: Name, x: int, r: Path)
    requires RenameSetting(t, op, od, on, np, nd, nn, x) && Moved(t, t', od, on, nd, nn, x)
    ensures Resolve(t', ROOT, r) == Relocated(t, op + [on], np + [nn], r)
    decreases |r|
  {
    hide Lookup;
    if r == [] {
      assert |op + [on]| > 0 && |np + [nn]| > 0;
    } else {
      var r', n := r[..|r| - 1], r[|r| - 1];
      assert r == r' + [n];
      RelocatedPath(t, t', op, od, on, np, nd, nn, x, r');
      RelocatedExtends(t, t', op, od, on, np, nd, nn, x, r', n);
    }
  }
}
