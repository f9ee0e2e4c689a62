/** The steps of the walk over the host tree, as facts about the images before and after. */
module SfsWalk {
  import opened SfsFile
  import opened SfsImage
  import opened SfsSource
  import opened SfsTree
  import opened SfsNeeds

  /** The directories being filled. */
  ghost predicate OpenOk(s: Image, open: set<nat>) {
    forall f {:trigger f in open} :: f in open ==> f in s.inodes && s.inodes[f].kind.TypeDir?
  }

  lemma {:induction false} OpenKept(s: Image, t: Image, c: set<nat>, l: set<nat>, open: set<nat>)
    requires OpenOk(s, open) && Kept(s, t, c, l)
    ensures OpenOk(t, open)
  {
  }

  // ----- regular files -----

  /** off bytes of file f have been read since s0. */
  ghost predicate ReadSoFar(s0: Image, s: Image, f: nat, bytes: seq<bv8>, off: nat) {
    && off <= |bytes| && Kept(s0, s, {f}, {})
    && FileHolds(s, f, bytes[..off]) && (off < |bytes| ==> off == BLKSIZE * |s.uses[f].parts|)
    && s.ninos == s0.ninos && s.next == s0.next + Full(|s.uses[f].parts|) && s.inodes.Keys == s0.inodes.Keys
    && s.newest == s0.newest && s.stray == s0.stray
  }

  /** ReadSoFar, in a form that is only unfolded where ReadSoFar is mentioned. */
  ghost predicate Reading(s0: Image, s: Image, f: nat, bytes: seq<bv8>, off: nat) {
    forall t {:trigger ReadSoFar(s0, t, f, bytes, off)} :: t == s ==> ReadSoFar(s0, t, f, bytes, off)
  }

  /** There is room for a file with these bytes whose inode is there. */
  predicate FileFits(s: Image, bytes: seq<bv8>) {
    Pieces(bytes) <= LN_NBLKS && s.next + Full(Pieces(bytes)) <= s.ninos
  }

  lemma {:induction false} ReadingStarts(s: Image, f: nat, bytes: seq<bv8>)
    requires f in s.inodes && f in s.uses && s.inodes[f].size == 0 && s.uses[f].parts == []
    ensures Reading(s, s, f, bytes, 0)
  {
  }

  /** One turn of open_file's loop. */
  lemma {:induction false} ReadingNext(s0: Image, s: Image, t: Image, f: nat, bytes: seq<bv8>, off: nat, off': nat)
    requires Reading(s0, s, f, bytes, off) && off < off' == Min(off + BLKSIZE, |bytes|)
    requires OneBlockMore(s, t, f, Data(bytes[off..off']), off' - off)
    requires s.inodes[f].links.nblks == |s.uses[f].parts|
    ensures Reading(s0, t, f, bytes, off')
  {
    assert ReadSoFar(s0, s, f, bytes, off);
    FileNext(s, t, f, bytes, off, off');
    BlockKeeps(s, t, f, Data(bytes[off..off']), off' - off);
    KeptThen(s0, s, t, {f}, {});
  }

  /** The file that is being read is the only one that changes. */
  lemma {:induction false} ReadingFaithful(s: Image, t: Image, f: nat, log: Log, data: Block, size: nat)
    requires Faithful(s, log, {f}) && OneBlockMore(s, t, f, data, size)
    ensures Faithful(t, log, {f})
  {
    BlockKeeps(s, t, f, data, size);
    FaithfulKept(s, t, {f}, {}, log, {f});
  }

  /** If the next block does not fit, the file as a whole does not. */
  lemma {:induction false} ReadingFails(s0: Image, s: Image, f: nat, bytes: seq<bv8>, off: nat)
    requires Reading(s0, s, f, bytes, off) && off < |bytes| && Good(s) && f in s.inodes && !Room(s, f)
    ensures !FileFits(s0, bytes)
  {
    assert ReadSoFar(s0, s, f, bytes, off);
    PartsCount(s, f);
    var k := |s.uses[f].parts|;
    assert k < Pieces(bytes);
    FullGrows(k + 1, Pieces(bytes));
  }

  lemma {:induction false} ReadingEnds(s0: Image, s: Image, log: Log, f: nat, bytes: seq<bv8>)
    requires Reading(s0, s, f, bytes, |bytes|) && Good(s) && Faithful(s, log, {f})
    requires StandsFor(s0, log, f, FoundFile(bytes))
    ensures Faithful(s, log, {}) && FileFits(s0, bytes) && s.next == s0.next + Full(Pieces(bytes))
    ensures Kept(s0, s, {f}, {}) && s.inodes.Keys == s0.inodes.Keys
  {
    assert ReadSoFar(s0, s, f, bytes, |bytes|);
    assert bytes[..|bytes|] == bytes;
    PiecesExact(bytes, |s.uses[f].parts|);
    EndsWithin(s, f);
    FileDone(s, log, f, FoundFile(bytes));
  }

  lemma {:induction false} EndsWithin(s: Image, f: nat)
    requires Good(s) && f in s.inodes
    ensures f in s.uses && |s.uses[f].parts| <= LN_NBLKS && s.next <= s.ninos
  {
    PartsCount(s, f);
  }

  lemma {:induction false} PiecesExact(bytes: seq<bv8>, k: nat)
    requires BLKSIZE * k < |bytes| + BLKSIZE && |bytes| <= BLKSIZE * k
    ensures k == Pieces(bytes)
  {
  }

  /** Inode f, which may still be filled, is the last one made for its number. */
  ghost predicate StandsFor(s: Image, log: Log, f: nat, what: Found) {
    && f in s.inodes && s.inodes[f].host in s.newest && s.newest[s.inodes[f].host] == f
    && s.inodes[f].host in log.found && log.found[s.inodes[f].host] == what
  }

  /** The file is finished. */
  lemma {:induction false} FileDone(s: Image, log: Log, f: nat, what: Found)
    requires Faithful(s, log, {f}) && StandsFor(s, log, f, what)
    requires what.FoundFile? ==> FileHolds(s, f, what.bytes)
    ensures Faithful(s, log, {})
  {
    assert Mirrored(s, log, {f});
    forall n | n in s.newest
      ensures Standing(s, {}, n, s.newest[n], log.found[n])
    {
      assert Standing(s, {f}, n, s.newest[n], log.found[n]);
    }
  }

  lemma {:induction false} LinkStep(s: Image, t: Image, f: nat, log: Log, target: seq<bv8>)
    requires f in s.uses && StandsFor(s, log, f, FoundLink) && s.uses[f].parts == [] && s.inodes[f].size == 0
    requires s.inodes[f].kind.TypeLink?
    requires Faithful(s, log, {f}) && |target| < BLKSIZE && OneBlockMore(s, t, f, Data(target), |target|)
    requires s.inodes[f].links.nblks == 0
    ensures Kept(s, t, {f}, {}) && Faithful(t, log, {}) && LinkHolds(t, f, target)
    ensures t.next == s.next + Full(1) && t.inodes.Keys == s.inodes.Keys
  {
    BlockKeeps(s, t, f, Data(target), |target|);
    FaithfulKept(s, t, {f}, {}, log, {f});
    FileDone(t, log, f, FoundLink);
  }

  /** A new inode was filled: nothing that was there before changed. */
  lemma {:induction false} NewFilled(s: Image, m: Image, t: Image, f: nat, l: set<nat>)
    requires Kept(s, m, {}, {}) && Kept(m, t, {f}, l + {f}) && f !in s.inodes && f !in s.uses
    ensures Kept(s, t, {}, l)
  {
    KeptMore(s, m, {}, {}, {f}, l + {f});
    KeptThen(s, m, t, {f}, l + {f});
    KeptMore(s, t, {f}, l + {f}, {}, l);
  }

  /** Between s and t the inode f was made and filled, and nothing else has changed. */
  ghost predicate Filled(s: Image, t: Image, f: nat, kind: Kind, n: nat) {
    Kept(s, t, {}, {}) && f in t.inodes && t.inodes[f].kind == kind && t.inodes[f].host == n
  }

  lemma {:induction false} NodeFilled(s: Image, m: Image, t: Image, f: nat, kind: Kind, n: nat)
    requires Started(s, m, f, kind, n) && Kept(m, t, {f}, {})
    ensures Filled(s, t, f, kind, n)
  {
    KeptMore(m, t, {f}, {}, {f}, {f});
    NewFilled(s, m, t, f, {});
  }

  // ----- entries -----

  /** The count of a directory that a stray name leads to is not kept track of. */
  lemma {:induction false} KeptStray(s: Image, t: Image, c: set<nat>, l: set<nat>, l': set<nat>)
    requires Kept(s, t, c, l) && t.stray
    ensures Kept(s, t, c, l')
  {
  }

  /** An entry for a file that is there is added: the file is still what it was. */
  lemma {:induction false} LeafKept(m: Image, t: Image, log: Log, open: set<nat>, dir: nat, f: nat, name: string,
                                    tree: Tree)
    requires dir in open && Encodes(m, log, open, dir, f, tree)
    requires Named(m, t, dir, f, name) && (m.inodes[f].kind.TypeDir? ==> m.stray)
    ensures Encodes(t, log, open, dir, f, tree) && Kept(m, t, {dir}, {dir})
  {
    if m.stray {
      KeptStray(m, t, {dir}, if m.inodes[f].kind.TypeDir? then {f} else {}, {});
    }
    EncodesKept(m, t, {dir}, {}, log, open, dir, f, tree);
    KeptMore(m, t, {dir}, {}, {dir}, {dir});
  }

  /** What is left to say once the inode is encoded in t. */
  lemma {:induction false} EntryAdded(s: Image, m: Image, t: Image, log: Log, open: set<nat>, dir: nat, f: nat,
                                      it: Item)
    requires Kept(s, m, {}, {dir}) && Kept(s, t, {dir}, {dir}) && dir in s.inodes && dir in s.uses
    requires !m.stray ==>
               m.inodes[dir].nlinks == (s.inodes[dir].nlinks + if it.tree.Directory? then 1 else 0) % NLINKS_LIMIT
    requires Named(m, t, dir, f, Written(it.name)) && (f != dir || m.stray) && Encodes(t, log, open, dir, f, it.tree)
    ensures Added(s, t, log, open, dir, it)
  {
  }

  /** The entry for a regular file or a symbolic link. */
  lemma {:induction false} LeafAdded(s: Image, m: Image, t: Image, log: Log, open: set<nat>, dir: nat, f: nat, it: Item)
    requires Kept(s, m, {}, {}) && OpenOk(s, open) && dir in open && dir in s.uses
    requires dir in m.inodes && m.inodes[dir].nlinks < NLINKS_LIMIT
    requires Encodes(m, log, open, dir, f, it.tree) && !it.tree.Directory?
    requires Named(m, t, dir, f, Written(it.name)) && (m.inodes[f].kind.TypeDir? ==> m.stray)
    ensures Added(s, t, log, open, dir, it)
  {
    LeafKept(m, t, log, open, dir, f, Written(it.name), it.tree);
    KeptMore(s, m, {}, {}, {}, {dir});
    KeptMore(s, m, {}, {}, {dir}, {dir});
    KeptThen(s, m, t, {dir}, {dir});
    EntryAdded(s, m, t, log, open, dir, f, it);
  }

  // ----- directories -----

  /** What is encoded with more directories open is encoded with fewer. */
  lemma {:induction false} EncodesFewer(s: Image, log: Log, open: set<nat>, fewer: set<nat>, up: nat, f: nat, t: Tree)
    requires fewer <= open && Encodes(s, log, open, up, f, t)
    ensures Encodes(s, log, fewer, up, f, t)
    decreases t, 1, 0
  {
    if t.Directory? {
      ListedFewer(s, log, open, fewer, f, t, |t.items|);
    }
  }

  lemma {:induction false} ListedFewer(s: Image, log: Log, open: set<nat>, fewer: set<nat>, f: nat, t: Tree, n: nat)
    requires fewer <= open && t.Directory? && n <= |t.items| && Listed(s, log, open, f, t, n)
    ensures Listed(s, log, fewer, f, t, n)
    decreases t, 0, n
  {
    if n > 0 {
      ListedFewer(s, log, open, fewer, f, t, n - 1);
      if !Skipped(t.items[n - 1]) {
        EncodesFewer(s, AfterUpTo(t, log, n - 1), open, fewer, f, Target(s, f, 2 + Shown(t.items, n - 1)),
                     t.items[n - 1].tree);
      }
    }
  }

  /** A directory that lists all its items is finished once its parent's entry has counted it. */
  lemma {:induction false} DirEncoded(m: Image, t: Image, log: Log, open: set<nat>, dir: nat, c: nat, name: string,
                                      d: Tree)
    requires d.Directory? && Listing(m, log, open + {c}, dir, c, d, |d.items|, 1)
    requires c != dir && c !in open && dir in open
    requires Named(m, t, dir, c, name)
    requires m.inodes[c].kind.TypeDir? && m.inodes[c].host == d.host
    ensures Encodes(t, log, open, dir, c, d)
  {
    ListedKept(m, t, {dir}, {c}, log, open + {c}, c, d, |d.items|);
    ListedFewer(t, log, open + {c}, open, c, d, |d.items|);
    BlockKept(m, t, {dir}, {c}, c, 0, Entry(c, "."));
    BlockKept(m, t, {dir}, {c}, c, 1, Entry(dir, ".."));
    CountWraps(1 + Subdirs(d.items, |d.items|));
  }

  /** The entry for a directory that has been filled. */
  lemma {:induction false} DirAdded(s: Image, m: Image, t: Image, log: Log, open: set<nat>, dir: nat, c: nat, it: Item)
    requires Kept(s, m, {}, {dir}) && dir in open && dir in s.inodes && dir in s.uses && c !in s.inodes && c !in s.uses
    requires (!m.stray ==> m.inodes[dir].nlinks == (s.inodes[dir].nlinks + 1) % NLINKS_LIMIT) && c !in open
    requires it.tree.Directory? && Listing(m, log, open + {c}, dir, c, it.tree, |it.tree.items|, 1)
    requires Named(m, t, dir, c, Written(it.name))
    requires m.inodes[c].kind.TypeDir? && m.inodes[c].host == it.tree.host
    ensures Added(s, t, log, open, dir, it)
  {
    KeptMore(m, t, {dir}, {c}, {dir}, {dir, c});
    KeptMore(s, m, {}, {dir}, {dir}, {dir, c});
    KeptThen(s, m, t, {dir}, {dir, c});
    KeptMore(s, t, {dir}, {dir, c}, {dir}, {dir});
    DirEncoded(m, t, log, open, dir, c, Written(it.name), it.tree);
    EntryAdded(s, m, t, log, open, dir, c, it);
  }

  lemma {:induction false} DotsKept(s: Image, m: Image, t: Image, up: nat, f: nat)
    requires f in s.inodes && up in s.inodes && s.inodes[f].kind.TypeDir? && s.inodes[up].kind.TypeDir?
    requires Named(s, m, f, f, ".") && Named(m, t, f, up, "..")
    ensures Kept(s, t, {f}, {f, up})
    ensures up != f && !t.stray ==> t.inodes[up].nlinks == (s.inodes[up].nlinks + 1) % NLINKS_LIMIT
  {
    KeptMore(s, m, {f}, {f}, {f}, {f, up});
    KeptMore(m, t, {f}, {up}, {f}, {f, up});
    KeptThen(s, m, t, {f}, {f, up});
  }

  lemma {:induction false} FirstDot(s: Image, m: Image, f: nat)
    requires f in s.uses && s.uses[f].parts == [] && Named(s, m, f, f, ".")
    ensures f in m.uses && |m.uses[f].parts| == 1 && Full(2) == Needed(0) + Needed(1)
  {
    assert Full(2) == Full(1) + Needed(1) && Full(1) == Full(0) + Needed(0);
  }

  /** The two entries every directory starts with. */
  lemma {:induction false} DotsListed(s: Image, m: Image, t: Image, log: Log, open: set<nat>, up: nat, f: nat, d: Tree)
    requires f in s.inodes && f in s.uses && s.inodes[f].kind.TypeDir? && up in m.inodes && m.inodes[up].kind.TypeDir?
    requires s.uses[f].parts == [] && s.inodes[f].size == 0 && s.inodes[f].nlinks == 0 && d.Directory?
    requires Named(s, m, f, f, ".") && Named(m, t, f, up, "..")
    ensures Listing(t, log, open, up, f, d, 0, if up == f then 2 else 1)
  {
    BlockKept(m, t, {f}, {up}, f, 0, Entry(f, "."));
  }

  /** The walk at directory dir, which like those in open is not finished. */
  ghost predicate Walking(s: Image, log: Log, open: set<nat>, dir: nat) {
    && Faithful(s, log, {}) && OpenOk(s, open) && dir in open && dir in s.inodes && dir in s.uses
  }

  lemma {:induction false} WalkingKept(s: Image, t: Image, c: set<nat>, l: set<nat>, log: Log, more: Log,
                                       open: set<nat>, dir: nat)
    requires Walking(s, log, open, dir) && Kept(s, t, c, l) && Faithful(t, more, {})
    ensures Walking(t, more, open, dir)
  {
    OpenKept(s, t, c, l, open);
  }

  /** An entry in an open directory changes no host file's bytes. */
  lemma {:induction false} WalkingNamed(s: Image, t: Image, log: Log, open: set<nat>, dir: nat, f: nat, name: string)
    requires Walking(s, log, open, dir) && Named(s, t, dir, f, name)
    ensures Walking(t, log, open, dir)
  {
    var l := if s.inodes[f].kind.TypeDir? then {f} else {};
    FaithfulKept(s, t, {dir}, l, log, {});
    OpenKept(s, t, {dir}, l, open);
  }

  /** The inode that the log names for the number of a regular file is what the name is to lead to. */
  lemma {:induction false} FileEncoded(s: Image, log: Log, open: set<nat>, up: nat, n: nat, bytes: seq<bv8>)
    requires var t := RegularFile(n, bytes); Faithful(s, After(t, log), {}) && OpenOk(s, open) && Good(s)
    ensures n in s.newest && s.newest[n] in s.inodes && Encodes(s, log, open, up, s.newest[n], RegularFile(n, bytes))
    ensures s.inodes[s.newest[n]].kind.TypeDir? ==> s.stray
  {
    var more := After(RegularFile(n, bytes), log);
    assert Mirrored(s, more, {}) && more.found[n] == Meant(log, n, bytes);
    assert Standing(s, {}, n, s.newest[n], more.found[n]);
  }

  lemma {:induction false} LinkEncoded(s: Image, log: Log, open: set<nat>, up: nat, f: nat, n: nat, target: seq<bv8>)
    requires OpenOk(s, open) && f in s.inodes && s.inodes[f].kind == TypeLink && s.inodes[f].host == n
    requires LinkHolds(s, f, target)
    ensures Encodes(s, log, open, up, f, Symlink(n, target))
  {
  }

  /** What open_dir has done with a directory once n items are behind it. */
  ghost predicate FilledSoFar(s0: Image, s: Image, log: Log, open: set<nat>, up: nat, f: nat, t: Tree, n: nat)
    requires t.Directory? && n <= |t.items|
  {
    && up in s0.inodes && up in s.inodes
    && Kept(s0, s, {f}, {f, up}) && Listing(s, log, open, up, f, t, n, if up == f then 2 else 1)
    && (up != f && !s.stray ==> s.inodes[up].nlinks == (s0.inodes[up].nlinks + 1) % NLINKS_LIMIT)
  }

  /** FilledSoFar, in a form that is only unfolded where FilledSoFar is mentioned. */
  ghost predicate Filling(s0: Image, s: Image, log: Log, open: set<nat>, up: nat, f: nat, t: Tree, n: nat)
    requires t.Directory? && n <= |t.items|
  {
    forall m {:trigger FilledSoFar(s0, m, log, open, up, f, t, n)} :: m == s ==>
      FilledSoFar(s0, m, log, open, up, f, t, n)
  }

  lemma {:induction false} FillingSize(s0: Image, s: Image, log: Log, open: set<nat>, up: nat, f: nat, t: Tree, n: nat)
    requires t.Directory? && n <= |t.items| && Filling(s0, s, log, open, up, f, t, n)
    ensures f in s.uses && |s.uses[f].parts| == 2 + Shown(t.items, n)
  {
    assert FilledSoFar(s0, s, log, open, up, f, t, n);
  }

  lemma {:induction false} FillingStarts(s: Image, m: Image, t: Image, log: Log, open: set<nat>, up: nat, f: nat,
                                         d: Tree)
    requires f in s.inodes && f in s.uses && up in s.inodes && s.inodes[f].kind.TypeDir? && s.inodes[up].kind.TypeDir?
    requires s.uses[f].parts == [] && s.inodes[f].size == 0 && s.inodes[f].nlinks == 0 && d.Directory?
    requires Named(s, m, f, f, ".") && Named(m, t, f, up, "..")
    ensures Filling(s, t, log, open, up, f, d, 0)
  {
    DotsKept(s, m, t, up, f);
    DotsListed(s, m, t, log, open, up, f, d);
  }

  lemma {:induction false} FillingNext(s0: Image, s: Image, t: Image, log: Log, open: set<nat>, up: nat, f: nat,
                                       d: Tree, n: nat)
    requires d.Directory? && n < |d.items| && Filling(s0, s, log, open, up, f, d, n)
    requires OpenOk(s, open) && {f, up} <= open
    requires if Skipped(d.items[n]) then t == s else Added(s, t, AfterUpTo(d, log, n), open, f, d.items[n])
    ensures Filling(s0, t, log, open, up, f, d, n + 1)
  {
    assert FilledSoFar(s0, s, log, open, up, f, d, n);
    if Skipped(d.items[n]) {
      ListingSkip(s, log, open, up, f, d, n, if up == f then 2 else 1);
    } else {
      ListingNext(s, t, log, open, up, f, d, n, if up == f then 2 else 1);
      KeptMore(s, t, {f}, {f}, {f}, {f, up});
      KeptThen(s0, s, t, {f}, {f, up});
    }
  }

  /** An item's turn has been made: its name was passed over, or its entry was added. */
  ghost predicate Turned(s: Image, t: Image, log: Log, open: set<nat>, dir: nat, it: Item) {
    && dir in s.uses
    && (Skipped(it) ==> t == s)
    && (!Skipped(it) ==> Added(s, t, log, open, dir, it)
                         && Spent(s, t, Needs(it.tree, log) + Needed(|s.uses[dir].parts|)))
  }

  /** The first n items of the directory are behind the walk. */
  ghost predicate Behind(s0: Image, s: Image, log: Log, open: set<nat>, up: nat, f: nat, t: Tree, n: nat)
    requires t.Directory? && n <= |t.items|
  {
    Filling(s0, s, log, open, up, f, t, n) && Accounted(s0, s, log, t, n)
  }

  lemma {:induction false} BehindFits(s0: Image, s: Image, log: Log, open: set<nat>, up: nat, f: nat, t: Tree, n: nat)
    requires t.Directory? && n < |t.items| && Behind(s0, s, log, open, up, f, t, n) && s.next <= s.ninos
    ensures DirFits(s0, log, t) ==> ItemFits(s, AfterUpTo(t, log, n), f, t.items[n])
  {
    FillingSize(s0, s, log, open, up, f, t, n);
    AccountFails(s0, s, log, f, t, n);
  }

  /** One turn of open_dir's loop. */
  lemma {:induction false} BehindNext(s0: Image, s: Image, t: Image, log: Log, open: set<nat>, up: nat, f: nat, d: Tree,
                                      n: nat)
    requires d.Directory? && n < |d.items| && Behind(s0, s, log, open, up, f, d, n) && s.next <= s.ninos
    requires OpenOk(s, open) && {f, up} <= open && ItemFits(s, AfterUpTo(d, log, n), f, d.items[n])
    requires Turned(s, t, AfterUpTo(d, log, n), open, f, d.items[n])
    ensures Behind(s0, t, log, open, up, f, d, n + 1)
  {
    FillingSize(s0, s, log, open, up, f, d, n);
    FillingNext(s0, s, t, log, open, up, f, d, n);
    AccountNext(s0, s, t, log, f, d, n);
  }

  /** The walk starts in a root directory with number 0. */
  lemma {:induction false} FreshWalking(ninos: nat, t: Tree)
    requires t.Directory? && t.host == 0
    ensures Walking(Fresh(ninos), AfterUpTo(t, Start(), 0), {BLKN_ROOT}, BLKN_ROOT)
  {
    assert Mirrored(Fresh(ninos), AfterUpTo(t, Start(), 0), {});
  }

  /** A new directory is open next to the ones that are. */
  lemma {:induction false} WalkingInto(s: Image, t: Image, log: Log, open: set<nat>, dir: nat, c: nat, n: nat)
    requires Walking(s, log, open, dir) && Started(s, t, c, TypeDir, n)
    requires Faithful(t, Note(log, Visit(n, FoundDir)), {c})
    ensures Walking(t, Note(log, Visit(n, FoundDir)), open + {c}, c) && c !in open
  {
    FileDone(t, Note(log, Visit(n, FoundDir)), c, FoundDir);
    OpenKept(s, t, {}, {}, open);
  }

  /** Between s and m the inode c was made for the directory t below dir, and filled. */
  ghost predicate FilledDir(s: Image, m: Image, log: Log, open: set<nat>, dir: nat, c: nat, t: Tree) {
    && t.Directory? && dir in s.inodes && dir in m.inodes && c in m.inodes
    && Kept(s, m, {}, {dir}) && c !in open && c !in s.inodes && c !in s.uses
    && (!m.stray ==> m.inodes[dir].nlinks == (s.inodes[dir].nlinks + 1) % NLINKS_LIMIT)
    && m.inodes[c].kind.TypeDir? && m.inodes[c].host == t.host
    && Listing(m, log, open + {c}, dir, c, t, |t.items|, 1)
  }

  /** A directory that has been filled, seen from the one above it. */
  lemma {:induction false} FilledBack(s: Image, m0: Image, m: Image, log: Log, open: set<nat>, dir: nat, c: nat,
                                      t: Tree)
    requires dir in s.inodes && s.inodes[dir].kind.TypeDir? && c !in open && c != dir
    requires t.Directory? && Started(s, m0, c, TypeDir, t.host)
    requires Filling(m0, m, log, open + {c}, dir, c, t, |t.items|)
    ensures FilledDir(s, m, log, open, dir, c, t)
  {
    assert FilledSoFar(m0, m, log, open + {c}, dir, c, t, |t.items|);
    assert !m.stray ==> m0.inodes[dir].nlinks == s.inodes[dir].nlinks;
    KeptMore(m0, m, {c}, {c, dir}, {c}, {dir} + {c});
    NewFilled(s, m0, m, c, {dir});
  }

  lemma {:induction false} WalkingBack(s: Image, m0: Image, m: Image, log: Log, open: set<nat>, dir: nat, c: nat,
                                       t: Tree)
    requires Walking(s, log, open, dir) && t.Directory? && Started(s, m0, c, TypeDir, t.host) && c !in open && c != dir
    requires Filling(m0, m, log, open + {c}, dir, c, t, |t.items|) && Faithful(m, After(t, log), {})
    ensures FilledDir(s, m, log, open, dir, c, t) && Walking(m, After(t, log), open, dir)
  {
    FilledBack(s, m0, m, log, open, dir, c, t);
    WalkingKept(s, m, {}, {dir}, log, After(t, log), open, dir);
  }

  /** The root directory, which is its own parent, is finished when it lists its items. */
  lemma {:induction false} RootEncoded(s: Image, m: Image, log: Log, t: Tree)
    requires t.Directory? && t.host == 0 && BLKN_ROOT in s.inodes && s.inodes[BLKN_ROOT] == NewInode(TypeDir, 0)
    requires BLKN_ROOT in s.uses && Filling(s, m, log, {BLKN_ROOT}, BLKN_ROOT, BLKN_ROOT, t, |t.items|)
    ensures Encodes(m, log, {}, BLKN_ROOT, BLKN_ROOT, t)
  {
    assert FilledSoFar(s, m, log, {BLKN_ROOT}, BLKN_ROOT, BLKN_ROOT, t, |t.items|);
    ListedFewer(m, log, {BLKN_ROOT}, {}, BLKN_ROOT, t, |t.items|);
  }
}
