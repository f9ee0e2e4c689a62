/** The source directory of an image: its tree of files, and the order in which the builder meets them. */
module SfsSource {
  /** A file of the host, with its inode number there and what can be read from it; names belong to the directories
      that list them.  Numbers are unique on one file system only, so on a tree that spans several the same number
      can stand for different files.  Unreadable files, which open refuses, can be of any type but symbolic links. */
  datatype Tree =
    | RegularFile(host: nat, bytes: seq<bv8>)
    | Symlink(host: nat, target: seq<bv8>)
    | Directory(host: nat, items: seq<Item>)
    | Special
    | Unreadable

  datatype Item = Item(name: string, tree: Tree)

  predicate Hidden(it: Item) {
    it.name != [] && it.name[0] == '.'
  }

  /** Names that start with a dot, and files of other types, are passed over. */
  predicate Skipped(it: Item) {
    Hidden(it) || it.tree.Special?
  }

  /** The entries that the first n items give. */
  function Shown(items: seq<Item>, n: nat): nat
    requires n <= |items|
  {
    if n == 0 then 0 else Shown(items, n - 1) + if Skipped(items[n - 1]) then 0 else 1
  }

  function Subdirs(items: seq<Item>, n: nat): nat
    requires n <= |items|
  {
    if n == 0 then 0
    else Subdirs(items, n - 1) + if !Skipped(items[n - 1]) && items[n - 1].tree.Directory? then 1 else 0
  }

  // ----- what the walk has met -----

  /** What a host number was found to be. */
  datatype Found = FoundFile(bytes: seq<bv8>) | FoundDir | FoundLink

  datatype Visit = Visit(number: nat, what: Found)

  /** What the walk knows: the file that the last inode made for each number stands for, whether every regular file
      so far has its own bytes in the image, and whether the name of one leads to a directory or symbolic link. */
  datatype Log = Log(found: map<nat, Found>, own: bool, stray: bool)

  function Start(): Log {
    Log(map[], true, false)
  }

  /** A regular file is read only if nothing of its number has been met; directories and symbolic links always get
      an inode. */
  function Note(log: Log, v: Visit): Log {
    if !v.what.FoundFile? || v.number !in log.found then log.(found := log.found[v.number := v.what])
    else Log(log.found, log.own && log.found[v.number] == v.what, log.stray || !log.found[v.number].FoundFile?)
  }

  /** What the name of a regular file leads to, when the walk comes to it. */
  function Meant(log: Log, n: nat, bytes: seq<bv8>): Found {
    if n in log.found then log.found[n] else FoundFile(bytes)
  }

  /** The log after a tree. */
  function After(t: Tree, log: Log): Log
    decreases t, 1, 0
  {
    match t
    case RegularFile(n, bytes) => Note(log, Visit(n, FoundFile(bytes)))
    case Symlink(n, _) => Note(log, Visit(n, FoundLink))
    case Directory(_, items) => AfterUpTo(t, log, |items|)
    case _ => log
  }

  /** The log after a directory's inode and its first n items. */
  function AfterUpTo(t: Tree, log: Log, n: nat): Log
    requires t.Directory? && n <= |t.items|
    decreases t, 0, n
  {
    if n == 0 then Note(log, Visit(t.host, FoundDir))
    else if Skipped(t.items[n - 1]) then AfterUpTo(t, log, n - 1)
    else After(t.items[n - 1].tree, AfterUpTo(t, log, n - 1))
  }

  // ----- files that share a number -----

  /** The files of a tree in the order of the walk. */
  function Visits(t: Tree): seq<Visit>
    decreases t, 1, 0
  {
    match t
    case RegularFile(n, bytes) => [Visit(n, FoundFile(bytes))]
    case Symlink(n, _) => [Visit(n, FoundLink)]
    case Directory(_, items) => VisitsUpTo(t, |items|)
    case _ => []
  }

  function VisitsUpTo(t: Tree, n: nat): seq<Visit>
    requires t.Directory? && n <= |t.items|
    decreases t, 0, n
  {
    if n == 0 then [Visit(t.host, FoundDir)]
    else VisitsUpTo(t, n - 1) + if Skipped(t.items[n - 1]) then [] else Visits(t.items[n - 1].tree)
  }

  /** No regular file has the number of an earlier file that has other bytes or another type. */
  ghost predicate NoClash(vs: seq<Visit>) {
    forall i, j {:trigger vs[i], vs[j]} ::
      0 <= i < j < |vs| && vs[j].what.FoundFile? && vs[i].number == vs[j].number ==> vs[i].what == vs[j].what
  }

  function Noted(log: Log, vs: seq<Visit>): Log {
    if vs == [] then log else Note(Noted(log, vs[..|vs| - 1]), vs[|vs| - 1])
  }

  lemma {:induction false} NotedThen(log: Log, a: seq<Visit>, b: seq<Visit>)
    ensures Noted(log, a + b) == Noted(Noted(log, a), b)
    decreases |b|
  {
    if b == [] {
      assert a + b == a;
    } else {
      var last := |b| - 1;
      assert (a + b)[..|a + b| - 1] == a + b[..last];
      NotedThen(log, a, b[..last]);
    }
  }

  /** The log after a tree notes the files in the order of the walk. */
  lemma {:induction false} AfterNotes(t: Tree, log: Log)
    ensures After(t, log) == Noted(log, Visits(t))
    decreases t, 1, 0
  {
    match t
    case RegularFile(n, bytes) => NotedOne(log, Visit(n, FoundFile(bytes)));
    case Symlink(n, _) => NotedOne(log, Visit(n, FoundLink));
    case Directory(_, items) => AfterNotesUpTo(t, log, |items|);
    case _ =>
  }

  lemma {:induction false} AfterNotesUpTo(t: Tree, log: Log, n: nat)
    requires t.Directory? && n <= |t.items|
    ensures AfterUpTo(t, log, n) == Noted(log, VisitsUpTo(t, n))
    decreases t, 0, n
  {
    if n == 0 {
      NotedOne(log, Visit(t.host, FoundDir));
    } else {
      AfterNotesUpTo(t, log, n - 1);
      AfterNotes(t.items[n - 1].tree, AfterUpTo(t, log, n - 1));
      NotedItem(t, log, n);
    }
  }

  lemma {:induction false} NotedItem(t: Tree, log: Log, n: nat)
    requires t.Directory? && 0 < n <= |t.items| && AfterUpTo(t, log, n - 1) == Noted(log, VisitsUpTo(t, n - 1))
    requires var before := AfterUpTo(t, log, n - 1);
             After(t.items[n - 1].tree, before) == Noted(before, Visits(t.items[n - 1].tree))
    ensures AfterUpTo(t, log, n) == Noted(log, VisitsUpTo(t, n))
  {
    var before := VisitsUpTo(t, n - 1);
    if Skipped(t.items[n - 1]) {
      assert before + [] == before;
    } else {
      NotedThen(log, before, Visits(t.items[n - 1].tree));
    }
  }

  lemma {:induction false} NotedOne(log: Log, v: Visit)
    ensures Noted(log, [v]) == Note(log, v)
  {
    assert [v][..0] == [];
    assert Noted(log, []) == log;
  }

  /** What the log says about a number is what some file of this number was, and it says that this was a regular
      file only as long as all of them were. */
  ghost predicate Recorded(found: map<nat, Found>, vs: seq<Visit>) {
    && (forall i {:trigger vs[i]} :: 0 <= i < |vs| ==> vs[i].number in found)
    && (forall n :: n in found ==> exists i :: 0 <= i < |vs| && vs[i] == Visit(n, found[n]))
    && (forall i {:trigger vs[i]} :: 0 <= i < |vs| && found[vs[i].number].FoundFile? ==> vs[i].what.FoundFile?)
  }

  lemma {:induction false} RecordedNext(log: Log, vs: seq<Visit>, v: Visit)
    requires Recorded(log.found, vs)
    ensures Recorded(Note(log, v).found, vs + [v])
  {
    var found, more := Note(log, v).found, vs + [v];
    forall n | n in found
      ensures exists i :: 0 <= i < |more| && more[i] == Visit(n, found[n])
    {
      if n in log.found && log.found[n] == found[n] {
        var i :| 0 <= i < |vs| && vs[i] == Visit(n, log.found[n]);
        assert more[i] == Visit(n, found[n]);
      } else {
        assert more[|vs|] == Visit(n, found[n]);
      }
    }
  }

  lemma {:induction false} NoClashNext(vs: seq<Visit>, v: Visit)
    ensures NoClash(vs + [v]) <==>
            && NoClash(vs)
            && (v.what.FoundFile? ==>
                  forall i {:trigger vs[i]} :: 0 <= i < |vs| && vs[i].number == v.number ==> vs[i].what == v.what)
  {
    var more := vs + [v];
    assert more[|vs|] == v && forall i :: 0 <= i < |vs| ==> more[i] == vs[i];
    if NoClash(more) {
      forall i, j | 0 <= i < j < |vs| && vs[j].what.FoundFile? && vs[i].number == vs[j].number
        ensures vs[i].what == vs[j].what
      {
        assert more[i] == vs[i] && more[j] == vs[j];
      }
    }
  }

  /** A regular file finds its own bytes in the log, or nothing, just if the files of its number before it had
      them too. */
  lemma {:induction false} OwnNext(log: Log, vs: seq<Visit>, v: Visit)
    requires Recorded(log.found, vs) && NoClash(vs) && v.what.FoundFile?
    ensures (v.number !in log.found || log.found[v.number] == v.what) <==>
            forall i {:trigger vs[i]} :: 0 <= i < |vs| && vs[i].number == v.number ==> vs[i].what == v.what
  {
    if v.number in log.found {
      var k :| 0 <= k < |vs| && vs[k] == Visit(v.number, log.found[v.number]);
      if log.found[v.number] == v.what {
        forall i | 0 <= i < |vs| && vs[i].number == v.number
          ensures vs[i].what == v.what
        {
          assert vs[i].what.FoundFile?;
          assert i < k || i == k || k < i;
        }
      }
    }
  }

  lemma {:induction false} NotedMeans(vs: seq<Visit>)
    ensures var log := Noted(Start(), vs);
            Recorded(log.found, vs) && (log.own <==> NoClash(vs)) && (log.own ==> !log.stray)
    decreases |vs|
  {
    if vs != [] {
      var less, v := vs[..|vs| - 1], vs[|vs| - 1];
      var log := Noted(Start(), less);
      NotedMeans(less);
      assert vs == less + [v];
      RecordedNext(log, less, v);
      NoClashNext(less, v);
      if log.own && v.what.FoundFile? {
        OwnNext(log, less, v);
      }
    }
  }

  /** Every regular file has its own bytes just if none has the number of an earlier file with other bytes or of
      another type; and then no name leads astray. */
  lemma {:induction false} OwnMeans(t: Tree)
    ensures var log := After(t, Start());
            (log.own <==> NoClash(Visits(t))) && (log.own ==> !log.stray)
  {
    AfterNotes(t, Start());
    NotedMeans(Visits(t));
  }
}
