/** The packed entry list of one expfs directory.

    A directory block stores `dir_children` entries side by side in its buffer.  Every operation
    scans that list for the first entry with a given name, and deletion closes the gap by shifting
    the later entries down by one.  Here the list is a sequence; the class in Expfs.dfy runs the
    loops on an array and is proved against these functions. */
module Directory {
  import opened Wrappers

  type Name = string

  datatype Entry = Entry(name: Name, index: int)

  /** The position of the first entry called `name`, or |es| when there is none. */
  function Scan(es: seq<Entry>, name: Name): (i: nat)
    ensures i <= |es|
    ensures i < |es| ==> es[i].name == name
    ensures forall j :: 0 <= j < i ==> es[j].name != name
  {
    if es == [] || es[0].name == name then 0 else 1 + Scan(es[1..], name)
  }

  /** The block index the first entry called `name` points to. */
  function Find(es: seq<Entry>, name: Name): Option<int> {
    var i := Scan(es, name);
    if i < |es| then Some(es[i].index) else None
  }

  /** The list without its first entry called `name`. */
  function Erase(es: seq<Entry>, name: Name): seq<Entry> {
    var i := Scan(es, name);
    if i < |es| then es[..i] + es[i + 1..] else es
  }

  ghost predicate UniqueNames(es: seq<Entry>) {
    forall i, j :: 0 <= i < j < |es| ==> es[i].name != es[j].name
  }

  /** The first entry with a name is the only one when names are unique. */
  lemma ScanHits(es: seq<Entry>, i: int)
    requires UniqueNames(es) && 0 <= i < |es|
    ensures Scan(es, es[i].name) == i
  {
  }

  lemma FindMeaning(es: seq<Entry>, name: Name, x: int)
    requires UniqueNames(es)
    ensures Find(es, name) == Some(x) <==> Entry(name, x) in es
  {
    if Entry(name, x) in es {
      var i :| 0 <= i < |es| && es[i] == Entry(name, x);
      ScanHits(es, i);
    }
  }

  lemma FindNothing(es: seq<Entry>, name: Name)
    ensures Find(es, name) == None <==> forall i :: 0 <= i < |es| ==> es[i].name != name
  {
    var k := Scan(es, name);
    if k < |es| {
      assert es[k].name == name;
    }
  }

  lemma EraseLength(es: seq<Entry>, gone: Name)
    ensures |Erase(es, gone)| == |es| - (if Find(es, gone).Some? then 1 else 0)
  {
  }

  /** The entry at each position after an erasure. */
  lemma EraseAt(es: seq<Entry>, gone: Name, i: int)
    requires 0 <= i < |Erase(es, gone)|
    ensures Erase(es, gone)[i] == if i < Scan(es, gone) then es[i] else es[i + 1]
    ensures UniqueNames(es) ==> Erase(es, gone)[i].name != gone
  {
  }

  lemma EraseKeepsUnique(es: seq<Entry>, gone: Name)
    requires UniqueNames(es)
    ensures UniqueNames(Erase(es, gone))
  {
  }

  lemma EraseKeepsOthers(es: seq<Entry>, gone: Name, i: int)
    requires UniqueNames(es) && 0 <= i < |es| && es[i].name != gone
    ensures Find(Erase(es, gone), es[i].name) == Find(es, es[i].name)
  {
    var k, rest := Scan(es, gone), Erase(es, gone);
    EraseKeepsUnique(es, gone);
    var to := if k < i then i - 1 else i;
    assert rest[to] == es[i];
    ScanHits(rest, to);
    ScanHits(es, i);
  }

  lemma EraseInventsNothing(es: seq<Entry>, gone: Name, name: Name)
    requires Find(es, name).None?
    ensures Find(Erase(es, gone), name).None?
  {
    var rest := Erase(es, gone);
    FindNothing(es, name);
    forall i | 0 <= i < |rest| ensures rest[i].name != name {
      EraseAt(es, gone, i);
    }
    FindNothing(rest, name);
  }

  /** Deleting a name removes exactly that name from the lookup function. */
  lemma FindAfterErase(es: seq<Entry>, gone: Name, name: Name)
    requires UniqueNames(es)
    ensures UniqueNames(Erase(es, gone))
    ensures Find(Erase(es, gone), name) == if name == gone then None else Find(es, name)
  {
    hide Erase;
    EraseKeepsUnique(es, gone);
    if name == gone {
      forall i | 0 <= i < |Erase(es, gone)| ensures Erase(es, gone)[i].name != gone {
        EraseAt(es, gone, i);
      }
      FindNothing(Erase(es, gone), name);
    } else if Find(es, name).Some? {
      EraseKeepsOthers(es, gone, Scan(es, name));
    } else {
      EraseInventsNothing(es, gone, name);
    }
  }

  /** Appending an entry under an absent name adds exactly that name. */
  lemma FindAfterAppend(es: seq<Entry>, e: Entry, name: Name)
    requires UniqueNames(es) && Find(es, e.name) == None
    ensures UniqueNames(es + [e])
    ensures Find(es + [e], name) == if name == e.name then Some(e.index) else Find(es, name)
  {
    FindNothing(es, e.name);
    var all := es + [e];
    var at := Scan(es, name);
    if name == e.name {
      ScanHits(all, |es|);
    } else if at < |es| {
      assert all[at] == es[at];
      ScanHits(all, at);
    } else {
      FindNothing(es, name);
      FindNothing(all, name);
    }
  }

  /** Deleting the entry that was just appended gives back the list, order included. */
  lemma EraseAfterAppend(es: seq<Entry>, e: Entry)
    requires UniqueNames(es) && Find(es, e.name) == None
    ensures Erase(es + [e], e.name) == es
  {
    FindAfterAppend(es, e, e.name);
    ScanHits(es + [e], |es|);
  }

  // ---------------------------------------------------------------------------------------------
  // A directory as a finite map

  ghost function AsMap(es: seq<Entry>): map<Name, int>
    requires UniqueNames(es)
  {
    map i | 0 <= i < |es| :: es[i].name := es[i].index
  }

  lemma AsMapIsFind(es: seq<Entry>, name: Name)
    requires UniqueNames(es)
    ensures name in AsMap(es) <==> Find(es, name).Some?
    ensures name in AsMap(es) ==> Find(es, name) == Some(AsMap(es)[name])
  {
    FindNothing(es, name);
    if name in AsMap(es) {
      var i :| 0 <= i < |es| && es[i].name == name;
      ScanHits(es, i);
    }
  }

  /** Two maps that look up alike are the same map. */
  lemma SameMap(es: seq<Entry>, m: map<Name, int>)
    requires UniqueNames(es)
    requires forall n :: Find(es, n) == if n in m then Some(m[n]) else None
    ensures AsMap(es) == m
  {
    forall n ensures n in AsMap(es) <==> n in m {
      AsMapIsFind(es, n);
    }
    forall n | n in m ensures AsMap(es)[n] == m[n] {
      AsMapIsFind(es, n);
    }
  }

  /** The find-and-shift loop is exact removal from the map. */
  lemma EraseRefinesMap(es: seq<Entry>, name: Name)
    requires UniqueNames(es)
    ensures UniqueNames(Erase(es, name))
    ensures AsMap(Erase(es, name)) == AsMap(es) - {name}
  {
    FindAfterErase(es, name, name);
    var m := AsMap(es) - {name};
    forall n ensures Find(Erase(es, name), n) == if n in m then Some(m[n]) else None {
      FindAfterErase(es, name, n);
      AsMapIsFind(es, n);
    }
    SameMap(Erase(es, name), m);
  }

  /** Storing an entry behind the last one is insertion into the map. */
  lemma AppendRefinesMap(es: seq<Entry>, e: Entry)
    requires UniqueNames(es) && e.name !in AsMap(es)
    ensures UniqueNames(es + [e])
    ensures AsMap(es + [e]) == AsMap(es)[e.name := e.index]
  {
    AsMapIsFind(es, e.name);
    FindAfterAppend(es, e, e.name);
    var m := AsMap(es)[e.name := e.index];
    forall n ensures Find(es + [e], n) == if n in m then Some(m[n]) else None {
      FindAfterAppend(es, e, n);
      AsMapIsFind(es, n);
    }
    SameMap(es + [e], m);
  }
}
