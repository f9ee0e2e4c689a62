/** Names and paths on the finished disk: how much of a name is stored, and which paths lead where. */
module SfsPaths {
  import opened Options
  import opened SfsFile
  import opened SfsImage
  import opened SfsSource
  import opened SfsTree
  import opened SfsDisk

  // ----- one directory -----

  /** The name in entry k of directory f. */
  function NameOf(disk: Disk, f: nat, k: nat): Option<string> {
    var b := Resolve(disk, f, k);
    if b.Some? && b.value in disk && disk[b.value].Entry? then Some(disk[b.value].name) else None
  }

  /** What an entry of 256 bytes holds of a name, 4 bytes being the number of the inode. */
  function Stored(name: string): string {
    if |name| <= 252 then name else name[..252]
  }

  /** What the names of the first n items become: those that start with a dot, and files of other types, are left
      out. */
  function StoredNames(items: seq<Item>, n: nat): seq<string>
    requires n <= |items|
  {
    if n == 0 then []
    else
      var it := items[n - 1];
      StoredNames(items, n - 1)
      + if (it.name != "" && it.name[0] == '.') || it.tree.Special? then [] else [Stored(it.name)]
  }

  lemma {:induction false} StoredCount(items: seq<Item>, n: nat)
    requires n <= |items|
    ensures |StoredNames(items, n)| == Shown(items, n)
  {
    if n > 0 {
      StoredCount(items, n - 1);
    }
  }

  lemma {:induction false} ItemsNamed(disk: Disk, ids: map<nat, nat>, log: Log, exact: bool, f: nat, t: Tree, n: nat,
                                      k: nat)
    requires t.Directory? && n <= |t.items| && ReadsItems(disk, ids, log, exact, f, t, n) && k < Shown(t.items, n)
    ensures k < |StoredNames(t.items, n)| && NameOf(disk, f, 2 + k) == Some(StoredNames(t.items, n)[k])
  {
    StoredCount(t.items, n);
    StoredCount(t.items, n - 1);
    if k < Shown(t.items, n - 1) {
      ItemsNamed(disk, ids, log, exact, f, t, n - 1, k);
    }
  }

  /** All that stands in a directory: itself, its parent, and the names of its items in order, up to 252 characters
      of each. */
  lemma {:induction false} DirectoryNames(disk: Disk, ids: map<nat, nat>, log: Log, exact: bool, up: nat, f: nat,
                                          t: Tree, k: nat)
    requires t.Directory? && ReadsBack(disk, ids, log, exact, up, f, t) && k < disk[f].blocks
    ensures var names := [".", ".."] + StoredNames(t.items, |t.items|);
            |names| == disk[f].blocks && NameOf(disk, f, k) == Some(names[k])
  {
    StoredCount(t.items, |t.items|);
    if k >= 2 {
      ItemsNamed(disk, ids, log, exact, f, t, |t.items|, k - 2);
    }
  }

  lemma {:induction false} StoredAt(items: seq<Item>, n: nat, i: nat)
    requires i < n <= |items| && !Skipped(items[i])
    ensures Shown(items, i) < |StoredNames(items, n)| && StoredNames(items, n)[Shown(items, i)] == Stored(items[i].name)
    decreases n
  {
    StoredCount(items, n - 1);
    if i < n - 1 {
      StoredAt(items, n - 1, i);
    }
  }

  /** A name of up to 252 characters stands in the directory whole, of a longer one its first 252; so two items of
      different names have different names on the disk unless the first 252 characters agree. */
  lemma {:induction false} NamesApart(disk: Disk, ids: map<nat, nat>, log: Log, exact: bool, up: nat, f: nat, t: Tree,
                                      i: nat, j: nat)
    requires t.Directory? && ReadsBack(disk, ids, log, exact, up, f, t)
    requires i < |t.items| && j < |t.items| && !Skipped(t.items[i]) && !Skipped(t.items[j])
    ensures var a, b := t.items[i].name, t.items[j].name;
            var x, y := NameOf(disk, f, 2 + Shown(t.items, i)), NameOf(disk, f, 2 + Shown(t.items, j));
            && x == Some(if |a| <= 252 then a else a[..252])
            && (x == y <==> a == b || (|a| >= 252 && |b| >= 252 && a[..252] == b[..252]))
  {
    DirectoryNames(disk, ids, log, exact, up, f, t, 0);
    StoredAt(t.items, |t.items|, i);
    StoredAt(t.items, |t.items|, j);
    StoredCount(t.items, |t.items|);
    DirectoryNames(disk, ids, log, exact, up, f, t, 2 + Shown(t.items, i));
    DirectoryNames(disk, ids, log, exact, up, f, t, 2 + Shown(t.items, j));
    SameStored(t.items[i].name, t.items[j].name);
  }

  lemma {:induction false} SameStored(a: string, b: string)
    ensures Stored(a) == Stored(b) <==> a == b || (|a| >= 252 && |b| >= 252 && a[..252] == b[..252])
  {
    assert |a| == 252 ==> a[..252] == a;
    assert |b| == 252 ==> b[..252] == b;
  }

  /** Looking a name up, from entry k on. */
  function LookUp(disk: Disk, f: nat, name: string, k: nat): Option<nat>
    requires f in disk && disk[f].InodeBlock?
    decreases disk[f].blocks - k
  {
    if k >= disk[f].blocks then None
    else if NameOf(disk, f, k) == Some(name) then Some(k)
    else LookUp(disk, f, name, k + 1)
  }

  lemma {:induction false} LookUpMeans(disk: Disk, f: nat, name: string, k: nat)
    requires f in disk && disk[f].InodeBlock?
    ensures match LookUp(disk, f, name, k)
            case Some(q) => k <= q < disk[f].blocks && NameOf(disk, f, q) == Some(name)
                            && forall j :: k <= j < q ==> NameOf(disk, f, j) != Some(name)
            case None => forall j :: k <= j < disk[f].blocks ==> NameOf(disk, f, j) != Some(name)
    decreases disk[f].blocks - k
  {
    if k < disk[f].blocks && NameOf(disk, f, k) != Some(name) {
      LookUpMeans(disk, f, name, k + 1);
    }
  }

  /** The first of the first n items whose stored name this is. */
  function Pick(items: seq<Item>, name: string, n: nat): (r: Option<nat>)
    requires n <= |items|
    ensures r.Some? ==> r.value < n && !Skipped(items[r.value]) && Stored(items[r.value].name) == name
    ensures forall i :: 0 <= i < (if r.Some? then r.value else n) && !Skipped(items[i]) ==>
              Stored(items[i].name) != name
  {
    if n == 0 then None
    else
      var r := Pick(items, name, n - 1);
      if r.Some? then r
      else if !Skipped(items[n - 1]) && Stored(items[n - 1].name) == name then Some(n - 1) else None
  }

  lemma {:induction false} PickStored(items: seq<Item>, name: string, n: nat)
    requires n <= |items|
    ensures match Pick(items, name, n)
            case Some(i) => Shown(items, i) < |StoredNames(items, n)| && StoredNames(items, n)[Shown(items, i)] == name
                            && forall j :: 0 <= j < Shown(items, i) ==> StoredNames(items, n)[j] != name
            case None => forall j :: 0 <= j < |StoredNames(items, n)| ==> StoredNames(items, n)[j] != name
  {
    if n > 0 {
      PickStored(items, name, n - 1);
      StoredCount(items, n - 1);
    }
  }

  /** The first place of a name in a list is where it is looked up. */
  ghost predicate FirstPlace(names: seq<string>, name: string, r: Option<nat>) {
    match r
    case Some(q) => q < |names| && names[q] == name && forall j :: 0 <= j < q ==> names[j] != name
    case None => name !in names
  }

  lemma {:induction false} FirstPlaceUnique(names: seq<string>, name: string, r: Option<nat>, r': Option<nat>)
    requires FirstPlace(names, name, r) && FirstPlace(names, name, r')
    ensures r == r'
  {
  }

  lemma {:induction false} LookUpIn(disk: Disk, f: nat, names: seq<string>, name: string)
    requires f in disk && disk[f].InodeBlock? && |names| == disk[f].blocks
    requires forall k {:trigger NameOf(disk, f, k)} :: 0 <= k < |names| ==> NameOf(disk, f, k) == Some(names[k])
    ensures FirstPlace(names, name, LookUp(disk, f, name, 0))
  {
    LookUpMeans(disk, f, name, 0);
    forall k | 0 <= k < |names|
      ensures NameOf(disk, f, k) == Some(names[k])
    {
    }
  }

  lemma {:induction false} DirectoryLookUp(disk: Disk, ids: map<nat, nat>, log: Log, exact: bool, up: nat, f: nat,
                                           t: Tree, name: string)
    requires t.Directory? && ReadsBack(disk, ids, log, exact, up, f, t)
    ensures f in disk && disk[f].InodeBlock?
    ensures FirstPlace([".", ".."] + StoredNames(t.items, |t.items|), name, LookUp(disk, f, name, 0))
  {
    var names := [".", ".."] + StoredNames(t.items, |t.items|);
    DirectoryNames(disk, ids, log, exact, up, f, t, 0);
    forall k {:trigger NameOf(disk, f, k)} | 0 <= k < |names|
      ensures NameOf(disk, f, k) == Some(names[k])
    {
      DirectoryNames(disk, ids, log, exact, up, f, t, k);
    }
    LookUpIn(disk, f, names, name);
  }

  lemma {:induction false} PlaceBehind(rest: seq<string>, name: string, r: Option<nat>)
    requires FirstPlace(rest, name, r) && name !in {".", ".."}
    ensures FirstPlace([".", ".."] + rest, name, match r case Some(q) => Some(2 + q) case None => None)
  {
    var names := [".", ".."] + rest;
    assert forall j :: 2 <= j < |names| ==> names[j] == rest[j - 2];
  }

  /** Looking a name up in a directory finds the entry of the first item that is stored under it. */
  lemma {:induction false} LookUpPicks(disk: Disk, ids: map<nat, nat>, log: Log, exact: bool, up: nat, f: nat, t: Tree,
                                       name: string)
    requires t.Directory? && ReadsBack(disk, ids, log, exact, up, f, t) && name !in {".", ".."}
    ensures f in disk && disk[f].InodeBlock?
    ensures LookUp(disk, f, name, 0) == match Pick(t.items, name, |t.items|)
                                        case Some(i) => Some(2 + Shown(t.items, i))
                                        case None => None
  {
    var names := StoredNames(t.items, |t.items|);
    DirectoryLookUp(disk, ids, log, exact, up, f, t, name);
    PickStored(t.items, name, |t.items|);
    var r := match Pick(t.items, name, |t.items|) case Some(i) => Some(Shown(t.items, i)) case None => None;
    PlaceBehind(names, name, r);
    FirstPlaceUnique([".", ".."] + names, name, LookUp(disk, f, name, 0),
                     match r case Some(q) => Some(2 + q) case None => None);
  }

  /** An item is found under its own name if and only if the name has at most 252 characters and is not what is
      stored of the name of an earlier item. */
  lemma {:induction false} FoundByName(disk: Disk, ids: map<nat, nat>, log: Log, exact: bool, up: nat, f: nat, t: Tree,
                                       m: nat)
    requires t.Directory? && ReadsBack(disk, ids, log, exact, up, f, t) && m < |t.items| && !Skipped(t.items[m])
    ensures var name := t.items[m].name;
            LookUp(disk, f, name, 0) == Some(2 + Shown(t.items, m)) <==>
            |name| <= 252 && forall i :: 0 <= i < m && !Skipped(t.items[i]) ==> Stored(t.items[i].name) != name
  {
    var name := t.items[m].name;
    LookUpPicks(disk, ids, log, exact, up, f, t, name);
    var r := Pick(t.items, name, |t.items|);
    if r.Some? && r.value != m {
      ShownApart(t.items, r.value, m);
    }
  }

  /** Two items that are shown have different places. */
  lemma {:induction false} ShownApart(items: seq<Item>, i: nat, j: nat)
    requires i < |items| && j < |items| && i != j && !Skipped(items[i]) && !Skipped(items[j])
    ensures Shown(items, i) != Shown(items, j)
  {
    if i < j {
      ShownGrows(items, i + 1, j);
    } else {
      ShownGrows(items, j + 1, i);
    }
  }

  lemma {:induction false} ShownGrows(items: seq<Item>, i: nat, j: nat)
    requires i <= j <= |items|
    ensures Shown(items, i) <= Shown(items, j)
    decreases j - i
  {
    if i < j {
      ShownGrows(items, i, j - 1);
    }
  }

  // ----- bytes -----

  /** Byte k of a file is byte k modulo 4096 of its block k / 4096. */
  lemma {:induction false} ByteAt(disk: Disk, f: nat, bytes: seq<bv8>, k: nat)
    requires HoldsBytes(disk, f, bytes) && k < |bytes|
    ensures f in disk && disk[f].InodeBlock? && disk[f].size == |bytes|
    ensures var b := Resolve(disk, f, k / 4096);
            && b.Some? && b.value in disk && disk[b.value].Data?
            && k % 4096 < |disk[b.value].bytes| && disk[b.value].bytes[k % 4096] == bytes[k]
  {
    var blocks: nat :| NodeAt(disk, f, TypeFile, |bytes|, blocks) && ReadsFile(disk, f, bytes, blocks);
    assert ReadAt(disk, f, k / 4096, Data(Piece(bytes, k / 4096)));
  }

  // ----- paths -----

  /** No name in the tree is longer than what an entry holds. */
  ghost predicate Short(t: Tree) {
    t.Directory? ==>
      forall i :: 0 <= i < |t.items| && !Skipped(t.items[i]) ==> |t.items[i].name| <= 252 && Short(t.items[i].tree)
  }

  ghost predicate Plain(path: seq<string>) {
    forall i :: 0 <= i < |path| ==> path[i] !in {".", ".."}
  }

  /** The first shown item of this name. */
  function Named(items: seq<Item>, name: string, n: nat): Option<nat>
    requires n <= |items|
  {
    if n == 0 then None
    else
      var r := Named(items, name, n - 1);
      if r.Some? then r else if !Skipped(items[n - 1]) && items[n - 1].name == name then Some(n - 1) else None
  }

  lemma {:induction false} NamedPicked(items: seq<Item>, name: string, n: nat)
    requires n <= |items| && forall i :: 0 <= i < n && !Skipped(items[i]) ==> |items[i].name| <= 252
    ensures Named(items, name, n) == Pick(items, name, n)
  {
    if n > 0 {
      NamedPicked(items, name, n - 1);
    }
  }

  /** Where a path leads in the source. */
  function Follow(t: Tree, path: seq<string>): Option<Tree>
    decreases |path|
  {
    if path == [] then Some(t)
    else if !t.Directory? then None
    else
      match Named(t.items, path[0], |t.items|)
      case Some(i) => if i < |t.items| then Follow(t.items[i].tree, path[1..]) else None
      case None => None
  }

  /** Where it leads on the disk, from inode f. */
  function FollowDisk(disk: Disk, f: nat, path: seq<string>): Option<nat>
    decreases |path|
  {
    if path == [] then Some(f)
    else if f !in disk || !disk[f].InodeBlock? || disk[f].kind != TypeDir then None
    else
      match LookUp(disk, f, path[0], 0)
      case Some(k) => FollowDisk(disk, NamedAt(disk, f, k), path[1..])
      case None => None
  }

  /** Inode g is the file, symbolic link or directory t. */
  ghost predicate Is(disk: Disk, g: nat, t: Tree) {
    match t
    case RegularFile(_, bytes) => HoldsBytes(disk, g, bytes)
    case Symlink(_, target) => NodeAt(disk, g, TypeLink, |target|, 1) && ReadAt(disk, g, 0, Data(target))
    case Directory(_, items) => NodeAt(disk, g, TypeDir, 256 * (2 + Shown(items, |items|)), 2 + Shown(items, |items|))
    case _ => false
  }

  lemma {:induction false} ItemReads(disk: Disk, ids: map<nat, nat>, log: Log, exact: bool, f: nat, t: Tree, n: nat,
                                     i: nat)
    requires t.Directory? && n <= |t.items| && i < n && !Skipped(t.items[i])
    requires ReadsItems(disk, ids, log, exact, f, t, n) && OwnItems(disk, f, t, n)
    ensures var g := NamedAt(disk, f, 2 + Shown(t.items, i));
            && ReadsBack(disk, ids, AfterUpTo(t, log, i), exact, f, g, t.items[i].tree)
            && OwnBytes(disk, g, t.items[i].tree)
    decreases n
  {
    if i < n - 1 {
      ItemReads(disk, ids, log, exact, f, t, n - 1, i);
    }
  }

  lemma {:induction false} NodeIs(disk: Disk, ids: map<nat, nat>, log: Log, exact: bool, up: nat, f: nat, t: Tree)
    requires ReadsBack(disk, ids, log, exact, up, f, t) && OwnBytes(disk, f, t)
    ensures Is(disk, f, t)
    ensures f in disk && disk[f].InodeBlock? && (disk[f].kind == TypeDir <==> t.Directory?)
  {
  }

  /** The first step of a path: where it leads in the source and on the disk. */
  lemma {:induction false} StepPicks(disk: Disk, ids: map<nat, nat>, log: Log, exact: bool, up: nat, f: nat, t: Tree,
                                     name: string)
    requires t.Directory? && ReadsBack(disk, ids, log, exact, up, f, t) && OwnBytes(disk, f, t) && Short(t)
    requires name !in {".", ".."}
    ensures f in disk && disk[f].InodeBlock? && disk[f].kind == TypeDir
    ensures match Named(t.items, name, |t.items|)
            case Some(i) =>
              && i < |t.items| && LookUp(disk, f, name, 0) == Some(2 + Shown(t.items, i)) && Short(t.items[i].tree)
              && var g := NamedAt(disk, f, 2 + Shown(t.items, i));
              && ReadsBack(disk, ids, AfterUpTo(t, log, i), exact, f, g, t.items[i].tree)
              && OwnBytes(disk, g, t.items[i].tree)
            case None => LookUp(disk, f, name, 0) == None
  {
    NodeIs(disk, ids, log, exact, up, f, t);
    LookUpPicks(disk, ids, log, exact, up, f, t, name);
    NamedPicked(t.items, name, |t.items|);
    var r := Named(t.items, name, |t.items|);
    if r.Some? {
      ItemReads(disk, ids, log, exact, f, t, |t.items|, r.value);
    }
  }

  /** Where every file is in the image with its own bytes and under its whole name, the paths on the disk are those of
      the source, and lead to what they lead to there. */
  lemma {:induction false} PathsRead(disk: Disk, ids: map<nat, nat>, log: Log, exact: bool, up: nat, f: nat, t: Tree,
                                     path: seq<string>)
    requires ReadsBack(disk, ids, log, exact, up, f, t) && OwnBytes(disk, f, t) && Short(t) && Plain(path)
    ensures match Follow(t, path)
            case Some(u) => FollowDisk(disk, f, path).Some? && Is(disk, FollowDisk(disk, f, path).value, u)
            case None => FollowDisk(disk, f, path) == None
    decreases |path|
  {
    if path == [] || !t.Directory? {
      NodeIs(disk, ids, log, exact, up, f, t);
    } else {
      StepPicks(disk, ids, log, exact, up, f, t, path[0]);
      var r := Named(t.items, path[0], |t.items|);
      if r.Some? {
        var i := r.value;
        PathsRead(disk, ids, AfterUpTo(t, log, i), exact, f, NamedAt(disk, f, 2 + Shown(t.items, i)), t.items[i].tree,
                  path[1..]);
      }
    }
  }

  /** The same for a finished image. */
  lemma {:induction false} ImagePaths(inodes: map<nat, Inode>, disk: Disk, next: nat, ninos: nat, t: Tree,
                                      path: seq<string>)
    requires Complete(inodes, disk, next, ninos, t) && NoClash(Visits(t)) && Short(t) && Plain(path)
    ensures match Follow(t, path)
            case Some(u) =>
              FollowDisk(disk, BLKN_ROOT, path).Some? && Is(disk, FollowDisk(disk, BLKN_ROOT, path).value, u)
            case None => FollowDisk(disk, BLKN_ROOT, path) == None
  {
    PathsRead(disk, FileIds(inodes), Start(), !After(t, Start()).stray, BLKN_ROOT, BLKN_ROOT, t, path);
  }
}
