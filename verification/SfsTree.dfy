/** What an image says about the directory tree it was built from. */
module SfsTree {
  import opened SfsFile
  import opened SfsImage
  import opened SfsSource

  const NAME_ROOM: nat := 252      // sizeof(entry->name) - sizeof(entry->ino)
  const MAX_FNAME_LEN: nat := 255

  /** The part of a name that fits into the bytes add_entry writes. */
  function Written(name: string): string {
    if |name| <= NAME_ROOM then name else name[..NAME_ROOM]
  }

  // ----- regular files and symbolic links -----

  function Min(a: nat, b: nat): nat {
    if a < b then a else b
  }

  function Piece(bytes: seq<bv8>, i: nat): seq<bv8>
    requires BLKSIZE * i <= |bytes|
  {
    bytes[BLKSIZE * i..Min(BLKSIZE * (i + 1), |bytes|)]
  }

  /** Block k of file f has been written and holds data. */
  predicate BlockAt(s: Image, f: nat, k: nat, data: Block) {
    f in s.uses && k < |s.uses[f].parts| && s.uses[f].parts[k] in s.disk && s.disk[s.uses[f].parts[k]] == data
  }

  /** File f holds the bytes, in blocks that are full except the last. */
  ghost predicate FileHolds(s: Image, f: nat, bytes: seq<bv8>) {
    && f in s.inodes && f in s.uses && s.inodes[f].size == |bytes|
    && BLKSIZE * |s.uses[f].parts| < |bytes| + BLKSIZE && |bytes| <= BLKSIZE * |s.uses[f].parts|
    && forall i :: 0 <= i < |s.uses[f].parts| ==> BlockAt(s, f, i, Data(Piece(bytes, i)))
  }

  ghost predicate LinkHolds(s: Image, f: nat, bytes: seq<bv8>) {
    && f in s.inodes && f in s.uses && s.inodes[f].size == |bytes| < BLKSIZE
    && |s.uses[f].parts| == 1 && BlockAt(s, f, 0, Data(bytes))
  }

  // ----- directories -----

  /** The inode named by block k of directory f. */
  function Target(s: Image, f: nat, k: nat): nat
    requires f in s.uses && k < |s.uses[f].parts| && s.uses[f].parts[k] in s.disk
  {
    var b := s.disk[s.uses[f].parts[k]];
    if b.Entry? then b.target else 0
  }

  /** Block k of directory f is an entry with this name. */
  predicate NameAt(s: Image, f: nat, k: nat, name: string) {
    f in s.uses && k < |s.uses[f].parts| && s.uses[f].parts[k] in s.disk
    && BlockAt(s, f, k, Entry(Target(s, f, k), name))
  }

  /** Inode f is of the type that the host number n was found to have, and a regular file that is not being read
      holds its bytes. */
  ghost predicate Standing(s: Image, busy: set<nat>, n: nat, f: nat, what: Found) {
    f in s.inodes && s.inodes[f].host == n &&
    match what
    case FoundFile(bytes) => s.inodes[f].kind == TypeFile && (f !in busy ==> FileHolds(s, f, bytes))
    case FoundDir => s.inodes[f].kind == TypeDir
    case FoundLink => s.inodes[f].kind == TypeLink
  }

  /** The same for an inode that a name leads to, which is finished unless it is an open directory. */
  ghost predicate LeadsTo(s: Image, open: set<nat>, f: nat, n: nat, what: Found) {
    Standing(s, {}, n, f, what) && f in s.uses && (what.FoundFile? ==> f !in open)
  }

  /** Inode f is what the image says about the tree t in directory up; the log is that of the walk before t.  The
      name of a regular file leads to what its number was found to be when the walk came to it. */
  ghost predicate Encodes(s: Image, log: Log, open: set<nat>, up: nat, f: nat, t: Tree)
    decreases t, 1, 0
  {
    match t
    case RegularFile(n, bytes) => LeadsTo(s, open, f, n, Meant(log, n, bytes))
    case Symlink(n, target) => LeadsTo(s, open, f, n, FoundLink) && f !in open && LinkHolds(s, f, target)
    case Directory(n, items) =>
      && LeadsTo(s, open, f, n, FoundDir) && f !in open
      && DirSize(s, up, f, Shown(items, |items|)) && Listed(s, log, open, f, t, |items|)
      && (!s.stray ==> s.inodes[f].nlinks == (2 + Subdirs(items, |items|)) % NLINKS_LIMIT)
    case _ => false
  }

  /** A directory has its own two entries and n more. */
  ghost predicate DirSize(s: Image, up: nat, f: nat, n: nat) {
    && f in s.inodes && f in s.uses
    && |s.uses[f].parts| == 2 + n && s.inodes[f].size == ENTRY_SIZE * (2 + n)
    && BlockAt(s, f, 0, Entry(f, ".")) && BlockAt(s, f, 1, Entry(up, ".."))
  }

  /** After its own two entries directory f lists the first n items of t, in order. */
  ghost predicate Listed(s: Image, log: Log, open: set<nat>, f: nat, t: Tree, n: nat)
    requires t.Directory? && n <= |t.items|
    decreases t, 0, n
  {
    n > 0 ==>
      && Listed(s, log, open, f, t, n - 1)
      && (Skipped(t.items[n - 1])
          || (NameAt(s, f, 2 + Shown(t.items, n - 1), Written(t.items[n - 1].name))
              && Encodes(s, AfterUpTo(t, log, n - 1), open, f, Target(s, f, 2 + Shown(t.items, n - 1)),
                         t.items[n - 1].tree)))
  }

  lemma {:induction false} ListedItem(s: Image, log: Log, open: set<nat>, f: nat, t: Tree, n: nat)
    requires t.Directory? && 0 < n <= |t.items| && Listed(s, log, open, f, t, n) && !Skipped(t.items[n - 1])
    ensures var k := 2 + Shown(t.items, n - 1);
            && NameAt(s, f, k, Written(t.items[n - 1].name))
            && Encodes(s, AfterUpTo(t, log, n - 1), open, f, Target(s, f, k), t.items[n - 1].tree)
  {
  }

  // ----- what an operation leaves alone -----

  /** s' comes after s: only the files in c got new blocks, at their ends, and only the directories in l new
      names, unless names of regular files lead to directories. */
  ghost predicate Kept(s: Image, s': Image, c: set<nat>, l: set<nat>) {
    && (forall b {:trigger b in s'.disk} {:trigger s'.disk[b]} :: b in s.disk ==>
          b in s'.disk && s'.disk[b] == s.disk[b])
    && (forall f {:trigger f in s'.inodes} {:trigger s'.inodes[f]} :: f in s.inodes ==>
          f in s'.inodes && SameFile(s.inodes[f], s'.inodes[f], f in c, f in l || s'.stray))
    && (forall f {:trigger f in s'.uses} {:trigger s'.uses[f]} :: f in s.uses ==>
          f in s'.uses && s.uses[f].parts <= s'.uses[f].parts && (f !in c ==> s'.uses[f].parts == s.uses[f].parts))
    && s'.ninos == s.ninos && s.next <= s'.next && (s.stray ==> s'.stray)
  }

  ghost predicate SameFile(a: Inode, b: Inode, grown: bool, renamed: bool) {
    && a.kind == b.kind && a.host == b.host && (grown || a.size == b.size)
    && (renamed || !a.kind.TypeDir? || a.nlinks == b.nlinks)
  }

  lemma {:induction false} KeptThen(s0: Image, s1: Image, s2: Image, c: set<nat>, l: set<nat>)
    requires Kept(s0, s1, c, l) && Kept(s1, s2, c, l)
    ensures Kept(s0, s2, c, l)
  {
  }

  lemma {:induction false} BlockKept(s: Image, s': Image, c: set<nat>, l: set<nat>, f: nat, k: nat, data: Block)
    requires Kept(s, s', c, l) && BlockAt(s, f, k, data)
    ensures BlockAt(s', f, k, data)
  {
  }

  lemma {:induction false} FileKept(s: Image, s': Image, c: set<nat>, l: set<nat>, f: nat, bytes: seq<bv8>)
    requires Kept(s, s', c, l) && f !in c && FileHolds(s, f, bytes)
    ensures FileHolds(s', f, bytes)
  {
    forall i | 0 <= i < |s'.uses[f].parts|
      ensures BlockAt(s', f, i, Data(Piece(bytes, i)))
    {
      BlockKept(s, s', c, l, f, i, Data(Piece(bytes, i)));
    }
  }

  lemma {:induction false} StandingKept(s: Image, t: Image, c: set<nat>, l: set<nat>, busy: set<nat>, n: nat, f: nat,
                                        what: Found)
    requires Standing(s, busy, n, f, what) && Kept(s, t, c, l)
    requires f in c && what.FoundFile? ==> f in busy
    ensures Standing(t, busy, n, f, what)
  {
    if what.FoundFile? && f !in busy {
      FileKept(s, t, c, l, f, what.bytes);
    }
  }

  /** Whatever is encoded stays encoded while only open directories change. */
  lemma {:induction false} EncodesKept(s: Image, s': Image, c: set<nat>, l: set<nat>, log: Log, open: set<nat>,
                                       up: nat, f: nat, t: Tree)
    requires Kept(s, s', c, l) && c + l <= open && Encodes(s, log, open, up, f, t)
    ensures Encodes(s', log, open, up, f, t)
    decreases t, 1, 0
  {
    match t
    case RegularFile(n, bytes) => StandingKept(s, s', c, l, {}, n, f, Meant(log, n, bytes));
    case Symlink(n, target) => BlockKept(s, s', c, l, f, 0, Data(target));
    case Directory(n, items) =>
      BlockKept(s, s', c, l, f, 0, Entry(f, "."));
      BlockKept(s, s', c, l, f, 1, Entry(up, ".."));
      ListedKept(s, s', c, l, log, open, f, t, |items|);
  }

  lemma {:induction false} ListedKept(s: Image, s': Image, c: set<nat>, l: set<nat>, log: Log, open: set<nat>,
                                      f: nat, t: Tree, n: nat)
    requires Kept(s, s', c, l) && c + l <= open && t.Directory? && n <= |t.items|
    requires Listed(s, log, open, f, t, n)
    ensures Listed(s', log, open, f, t, n)
    decreases t, 0, n
  {
    if n > 0 {
      ListedKept(s, s', c, l, log, open, f, t, n - 1);
      var it, k := t.items[n - 1], 2 + Shown(t.items, n - 1);
      if !Skipped(it) {
        var g := Target(s, f, k);
        BlockKept(s, s', c, l, f, k, Entry(g, Written(it.name)));
        EncodesKept(s, s', c, l, AfterUpTo(t, log, n - 1), open, f, g, it.tree);
      }
    }
  }

  // ----- what the operations of the image change -----

  lemma {:induction false} BlockKeeps(s: Image, t: Image, f: nat, data: Block, size: nat)
    requires OneBlockMore(s, t, f, data, size)
    ensures Kept(s, t, {f}, {})
    ensures BlockAt(t, f, |s.uses[f].parts|, data)
  {
  }

  /** t is s with one entry more in directory f, which names g; nothing else has changed. */
  ghost predicate Named(s: Image, t: Image, f: nat, g: nat, name: string) {
    && f in s.inodes && f in s.uses && g in s.inodes && f in t.inodes && f in t.uses && g in t.inodes
    && Kept(s, t, {f}, if s.inodes[g].kind.TypeDir? then {g} else {})
    && NameAt(t, f, |s.uses[f].parts|, name) && Target(t, f, |s.uses[f].parts|) == g
    && t.inodes.Keys == s.inodes.Keys && |t.uses[f].parts| == |s.uses[f].parts| + 1
    && t.inodes[f].size == s.inodes[f].size + ENTRY_SIZE && t.next == s.next + Needed(s.inodes[f].links.nblks)
    && t.inodes[f].nlinks == (if f == g then (s.inodes[f].nlinks + 1) % NLINKS_LIMIT else s.inodes[f].nlinks)
    && t.inodes[g].nlinks == (s.inodes[g].nlinks + 1) % NLINKS_LIMIT
    && t.newest == s.newest && t.stray == s.stray
  }

  lemma {:induction false} EntryNamed(s: Image, t: Image, f: nat, g: nat, name: string)
    requires OneEntryMore(s, t, f, g, name)
    ensures Named(s, t, f, g, name)
  {
  }

  /** t is s with an empty inode f more. */
  ghost predicate Started(s: Image, t: Image, f: nat, kind: Kind, host: nat) {
    && Kept(s, t, {}, {}) && f == s.next && t.next == s.next + 1 && f !in s.inodes && f !in s.uses
    && f in t.inodes && f in t.uses && t.inodes.Keys == s.inodes.Keys + {f}
    && t.inodes[f] == NewInode(kind, host) && t.uses[f].parts == []
    && t.newest == s.newest[host := f] && t.stray == s.stray
  }

  lemma {:induction false} InodeStarted(s: Image, kind: Kind, host: nat)
    requires s.next !in s.inodes && s.next !in s.uses
    ensures Started(s, AddInode(s, kind, host), s.next, kind, host)
  {
  }

  lemma {:induction false} KeptMore(s: Image, t: Image, c: set<nat>, l: set<nat>, c': set<nat>, l': set<nat>)
    requires Kept(s, t, c, l)
    requires forall f :: f in s.inodes || f in s.uses ==> (f in c ==> f in c') && (f in l ==> f in l')
    ensures Kept(s, t, c', l')
  {
  }

  // ----- reading a regular file -----

  lemma {:induction false} PieceOfPrefix(bytes: seq<bv8>, n: nat, m: nat, i: nat)
    requires n <= m <= |bytes| && (BLKSIZE * (i + 1) <= n || (BLKSIZE * i <= n && n == m))
    ensures Piece(bytes[..n], i) == Piece(bytes[..m], i)
  {
  }

  /** One turn of open_file's loop: off bytes are in, and the next block brings them to off'. */
  lemma {:induction false} FileNext(s: Image, t: Image, f: nat, bytes: seq<bv8>, off: nat, off': nat)
    requires off <= off' <= |bytes| && FileHolds(s, f, bytes[..off])
    requires off == BLKSIZE * |s.uses[f].parts| && off < off' == Min(off + BLKSIZE, |bytes|)
    requires OneBlockMore(s, t, f, Data(bytes[off..off']), off' - off)
    ensures FileHolds(t, f, bytes[..off'])
  {
    var k := |s.uses[f].parts|;
    BlockKeeps(s, t, f, Data(bytes[off..off']), off' - off);
    assert Piece(bytes[..off'], k) == bytes[off..off'];
    forall i | 0 <= i < k
      ensures BlockAt(t, f, i, Data(Piece(bytes[..off'], i)))
    {
      assert BLKSIZE * (i + 1) <= BLKSIZE * k;
      PieceOfPrefix(bytes, off, off', i);
      BlockKept(s, t, {f}, {}, f, i, Data(Piece(bytes[..off], i)));
    }
  }

  // ----- one more entry -----

  /** The entry for an item has been added to directory f. */
  ghost predicate Added(s: Image, t: Image, log: Log, open: set<nat>, f: nat, it: Item) {
    && Kept(s, t, {f}, {f}) && f in s.inodes && f in s.uses && f in t.inodes && f in t.uses
    && |t.uses[f].parts| == |s.uses[f].parts| + 1 && t.inodes[f].size == s.inodes[f].size + ENTRY_SIZE
    && NameAt(t, f, |s.uses[f].parts|, Written(it.name))
    && Encodes(t, log, open, f, Target(t, f, |s.uses[f].parts|), it.tree)
    && (!t.stray ==> t.inodes[f].nlinks == (s.inodes[f].nlinks + if it.tree.Directory? then 1 else 0) % NLINKS_LIMIT)
  }

  /** The first n items of t are in directory f, which n0 entries already named. */
  ghost predicate Listing(s: Image, log: Log, open: set<nat>, up: nat, f: nat, t: Tree, n: nat, n0: nat)
    requires t.Directory? && n <= |t.items|
  {
    && DirSize(s, up, f, Shown(t.items, n)) && Listed(s, log, open, f, t, n)
    && (!s.stray ==> s.inodes[f].nlinks == (n0 + Subdirs(t.items, n)) % NLINKS_LIMIT)
  }

  lemma {:induction false} ListingNext(s: Image, t: Image, log: Log, open: set<nat>, up: nat, f: nat, d: Tree, n: nat,
                                       n0: nat)
    requires d.Directory? && n < |d.items| && Listing(s, log, open, up, f, d, n, n0) && f in open
    requires !Skipped(d.items[n]) && Added(s, t, AfterUpTo(d, log, n), open, f, d.items[n])
    ensures Listing(t, log, open, up, f, d, n + 1, n0)
  {
    ListedKept(s, t, {f}, {f}, log, open, f, d, n);
    BlockKept(s, t, {f}, {f}, f, 0, Entry(f, "."));
    BlockKept(s, t, {f}, {f}, f, 1, Entry(up, ".."));
    CountOne(n0 + Subdirs(d.items, n), if d.items[n].tree.Directory? then 1 else 0);
  }

  lemma {:induction false} CountOne(n: nat, d: nat)
    requires d <= 1
    ensures (n % NLINKS_LIMIT + d) % NLINKS_LIMIT == (n + d) % NLINKS_LIMIT
  {
    CountWraps(n);
  }

  lemma {:induction false} ListingSkip(s: Image, log: Log, open: set<nat>, up: nat, f: nat, d: Tree, n: nat, n0: nat)
    requires d.Directory? && n < |d.items| && Listing(s, log, open, up, f, d, n, n0) && Skipped(d.items[n])
    ensures Listing(s, log, open, up, f, d, n + 1, n0)
  {
  }

  // ----- host files and inodes -----

  /** The last inode made for a number is what the log says the number was found to be, and a regular file that is
      not being read holds its bytes.  No number has two inodes that are not symbolic links. */
  ghost predicate Mirrored(s: Image, log: Log, busy: set<nat>) {
    && s.newest.Keys == log.found.Keys && s.stray == log.stray
    && (forall n {:trigger s.newest[n]} :: n in s.newest ==> Standing(s, busy, n, s.newest[n], log.found[n]))
    && (forall f {:trigger s.inodes[f].host} :: f in s.inodes ==> s.inodes[f].host in s.newest)
    && OneInodeEach(s.inodes)
  }

  /** Mirrored, in a form that is only unfolded where Mirrored is mentioned. */
  ghost predicate Faithful(s: Image, log: Log, busy: set<nat>) {
    forall t {:trigger Mirrored(t, log, busy)} :: t == s ==> Mirrored(t, log, busy)
  }

  predicate OneInodeEach(inodes: map<nat, Inode>) {
    forall f, g {:trigger inodes[f].host, inodes[g].host} ::
      f in inodes && g in inodes && !inodes[f].kind.TypeLink? && !inodes[g].kind.TypeLink?
      && inodes[f].host == inodes[g].host ==>
        f == g
  }

  lemma {:induction false} FaithfulKept(s: Image, t: Image, c: set<nat>, l: set<nat>, log: Log, busy: set<nat>)
    requires Faithful(s, log, busy) && Kept(s, t, c, l) && t.inodes.Keys == s.inodes.Keys
    requires t.newest == s.newest && t.stray == s.stray
    requires forall f :: f in c && f in s.inodes && s.inodes[f].kind.TypeFile? ==> f in busy
    ensures Faithful(t, log, busy)
  {
    assert Mirrored(s, log, busy);
    forall n | n in t.newest
      ensures Standing(t, busy, n, t.newest[n], log.found[n])
    {
      StandingKept(s, t, c, l, busy, n, s.newest[n], log.found[n]);
    }
  }

  function KindOf(what: Found): Kind {
    match what
    case FoundFile(_) => TypeFile
    case FoundDir => TypeDir
    case FoundLink => TypeLink
  }

  lemma {:induction false} StartStanding(s: Image, t: Image, f: nat, host: nat, what: Found, log: Log)
    requires Started(s, t, f, KindOf(what), host) && Mirrored(s, log, {})
    ensures var found := log.found[host := what];
            forall n {:trigger t.newest[n]} :: n in t.newest ==> Standing(t, {f}, n, t.newest[n], found[n])
  {
    forall n | n in t.newest
      ensures Standing(t, {f}, n, t.newest[n], log.found[host := what][n])
    {
      if n != host {
        StandingKept(s, t, {}, {}, {}, n, s.newest[n], log.found[n]);
      }
    }
  }

  lemma {:induction false} StartInodes(s: Image, t: Image, f: nat, host: nat, what: Found, log: Log)
    requires Started(s, t, f, KindOf(what), host) && Mirrored(s, log, {}) && (what.FoundLink? || host !in log.found)
    ensures forall g {:trigger t.inodes[g].host} :: g in t.inodes ==> t.inodes[g].host in t.newest
    ensures OneInodeEach(t.inodes)
  {
    StartEach(s.inodes, t.inodes, f);
  }

  /** A new inode stands for its number from now on, and leaves the files there are alone. */
  lemma {:induction false} FaithfulStart(s: Image, t: Image, f: nat, host: nat, what: Found, log: Log)
    requires Started(s, t, f, KindOf(what), host) && Faithful(s, log, {})
    requires what.FoundLink? || host !in log.found
    ensures Faithful(t, Note(log, Visit(host, what)), {f})
  {
    assert Mirrored(s, log, {});
    StartStanding(s, t, f, host, what, log);
    StartInodes(s, t, f, host, what, log);
  }

  lemma {:induction false} StartEach(inodes: map<nat, Inode>, grown: map<nat, Inode>, f: nat)
    requires OneInodeEach(inodes) && f !in inodes && grown.Keys == inodes.Keys + {f}
    requires forall g :: g in inodes ==> grown[g].host == inodes[g].host && grown[g].kind == inodes[g].kind
    requires grown[f].kind.TypeLink? || forall g :: g in inodes ==> inodes[g].host != grown[f].host
    ensures OneInodeEach(grown)
  {
    forall g, k | g in grown && k in grown && !grown[g].kind.TypeLink? && !grown[k].kind.TypeLink?
                  && grown[g].host == grown[k].host
      ensures g == k
    {
      if g != f && k != f {
        assert inodes[g].host == inodes[k].host;
      }
    }
  }

  /** The inode that stands for the number of a regular file is what the file's name will lead to. */
  lemma {:induction false} FaithfulFound(s: Image, log: Log, n: nat, bytes: seq<bv8>)
    requires Faithful(s, log, {}) && n in log.found
    ensures var more := After(RegularFile(n, bytes), log);
            Faithful(if log.found[n].FoundFile? then s else Strayed(s), more, {})
  {
    var t := if log.found[n].FoundFile? then s else Strayed(s);
    assert Mirrored(s, log, {});
    forall k | k in t.newest
      ensures Standing(t, {}, k, t.newest[k], log.found[k])
    {
      StandingKept(s, t, {}, {}, {}, k, s.newest[k], log.found[k]);
    }
  }

  /** A number has an inode just if the walk has met it. */
  lemma {:induction false} FaithfulMet(s: Image, log: Log, busy: set<nat>, n: nat)
    requires Faithful(s, log, busy)
    ensures n in s.newest <==> n in log.found
    ensures n in s.newest ==> s.newest[n] in s.inodes && s.inodes[s.newest[n]].host == n
  {
    assert Mirrored(s, log, busy);
  }

  // ----- why building fails -----

  /** How building ends: every failure stops the program.  Asserted is the failure of the assertion in
      update_cache. */
  datatype Outcome = Done | NoSpace | TooBig | LongName | LongLink | SeenDir | CannotOpen | Asserted

  /** The item itself is one the builder refuses. */
  ghost predicate Refused(s: Image, it: Item, o: Outcome) {
    match o
    case LongName => |it.name| > MAX_FNAME_LEN
    case LongLink => it.tree.Symlink? && |it.tree.target| >= BLKSIZE
    case SeenDir => it.tree.Directory? && exists f :: f in s.inodes && s.inodes[f].host == it.tree.host
    case CannotOpen => it.tree.Unreadable?
    case _ => false
  }

  /** Somewhere below t there is an item the builder refuses. */
  ghost predicate Blamed(s: Image, t: Tree, o: Outcome)
    decreases t
  {
    t.Directory? && exists i :: 0 <= i < |t.items| && (Refused(s, t.items[i], o) || Blamed(s, t.items[i].tree, o))
  }
}
