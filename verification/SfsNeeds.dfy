/** What building an image of a host tree takes: the blocks it needs, and the limits it has to respect. */
module SfsNeeds {
  import opened SfsFile
  import opened SfsImage
  import opened SfsSource
  import opened SfsTree

  /** The blocks that a file of k blocks takes, its index blocks included. */
  function Full(k: nat): nat {
    if k == 0 then 0 else Full(k - 1) + Needed(k - 1)
  }

  /** In closed form: one index block beyond 12 blocks, and beyond 1036 a top block and one leaf for every 1024. */
  lemma {:induction false} FullMeans(k: nat)
    requires k <= LN_NBLKS
    ensures Full(k) == k + (if k > 12 then 1 else 0) + (if k > 1036 then 1 + (k - 1036 + 1023) / 1024 else 0)
  {
    if k > 0 {
      FullMeans(k - 1);
      if k > L1_NBLKS {
        LeavesNext(k - 1);
      }
    }
  }

  /** The limits in figures: a file has up to 128 MB, a link's target less than a block, a name up to 255 characters
      and a directory up to 32768 entries. */
  lemma {:induction false} Limits(s: Image, log: Log, dir: nat, it: Item, n: nat)
    ensures it.tree.RegularFile? ==>
              (Fine(it.tree, log) <==> it.tree.host in log.found || |it.tree.bytes| <= 134217728)
    ensures it.tree.Symlink? ==> (Fine(it.tree, log) <==> |it.tree.target| < 4096)
    ensures ItemFits(s, log, dir, it) && !Hidden(it) ==>
              |it.name| <= 255 && (it.tree.Special? || (dir in s.uses && |s.uses[dir].parts| < 32768))
    ensures FirstFree(n) == 2 + (n + 32767) / 32768
  {
  }

  lemma {:induction false} FullGrows(j: nat, k: nat)
    requires j <= k
    ensures Full(j) + (k - j) <= Full(k)
    decreases k - j
  {
    if j < k {
      FullGrows(j, k - 1);
    }
  }

  /** The blocks of a regular file. */
  function Pieces(bytes: seq<bv8>): nat {
    (|bytes| + BLKSIZE - 1) / BLKSIZE
  }

  /** The blocks that a tree needs when the walk comes to it: a regular file takes its blocks only if nothing of
      its number has been met. */
  function Needs(t: Tree, log: Log): nat
    decreases t, 1, 0
  {
    match t
    case RegularFile(n, bytes) => if n in log.found then 0 else 1 + Full(Pieces(bytes))
    case Symlink(_, _) => 1 + Full(1)
    case Directory(n, items) => 1 + Inside(t, log, |items|)
    case _ => 0
  }

  /** The entries of a directory with its first n items, and these items. */
  function Inside(t: Tree, log: Log, n: nat): nat
    requires t.Directory? && n <= |t.items|
    decreases t, 0, n
  {
    if n == 0 then Full(2)
    else Inside(t, log, n - 1)
         + if Skipped(t.items[n - 1]) then 0
           else Needs(t.items[n - 1].tree, AfterUpTo(t, log, n - 1)) + Needed(2 + Shown(t.items, n - 1))
  }

  /** Everything in the tree can be opened, and nothing is over a limit: the lengths of files, link targets, names
      and directories; and no directory has a number that was met before. */
  ghost predicate Fine(t: Tree, log: Log)
    decreases t, 1, 0
  {
    match t
    case RegularFile(n, bytes) => n in log.found || Pieces(bytes) <= LN_NBLKS
    case Symlink(_, target) => |target| < BLKSIZE
    case Directory(n, items) => n !in log.found && FineUpTo(t, log, |items|)
    case Special => true
    case Unreadable => false
  }

  ghost predicate FineUpTo(t: Tree, log: Log, n: nat)
    requires t.Directory? && n <= |t.items|
    decreases t, 0, n
  {
    n > 0 ==>
      && FineUpTo(t, log, n - 1)
      && (Hidden(t.items[n - 1])
          || (&& |t.items[n - 1].name| <= MAX_FNAME_LEN
              && (t.items[n - 1].tree.Special?
                  || (2 + Shown(t.items, n - 1) < LN_NBLKS
                      && Fine(t.items[n - 1].tree, AfterUpTo(t, log, n - 1))))))
  }

  lemma {:induction false} FineEarlier(t: Tree, log: Log, m: nat, n: nat)
    requires t.Directory? && m <= n <= |t.items| && FineUpTo(t, log, n)
    ensures FineUpTo(t, log, m)
    decreases n - m
  {
    if m < n {
      FineEarlier(t, log, m, n - 1);
    }
  }

  lemma {:induction false} InsideGrows(t: Tree, log: Log, m: nat, n: nat)
    requires t.Directory? && m <= n <= |t.items|
    ensures Inside(t, log, m) <= Inside(t, log, n)
    decreases n - m
  {
    if m < n {
      InsideGrows(t, log, m, n - 1);
    }
  }

  // ----- an image and what was taken of it -----

  /** Between s and t so many blocks were taken. */
  ghost predicate Spent(s: Image, t: Image, blocks: nat) {
    t.ninos == s.ninos && t.next == s.next + blocks
  }

  /** There is room for the tree and for its entry in directory dir. */
  ghost predicate TreeFits(s: Image, log: Log, dir: nat, t: Tree) {
    && dir in s.uses && |s.uses[dir].parts| < LN_NBLKS && Fine(t, log)
    && s.next + Needs(t, log) + Needed(|s.uses[dir].parts|) <= s.ninos
  }

  /** One turn of open_dir's loop can be made. */
  ghost predicate ItemFits(s: Image, log: Log, dir: nat, it: Item) {
    Hidden(it) || (|it.name| <= MAX_FNAME_LEN && (it.tree.Special? || TreeFits(s, log, dir, it.tree)))
  }

  /** There is room for the entries and items of a directory whose inode is there. */
  ghost predicate DirFits(s: Image, log: Log, t: Tree)
    requires t.Directory?
  {
    FineUpTo(t, log, |t.items|) && s.next + Inside(t, log, |t.items|) <= s.ninos
  }

  /** The length of a file, as its inode and its usage know it. */
  lemma {:induction false} PartsCount(s: Image, f: nat)
    requires Good(s) && f in s.inodes
    ensures f in s.uses && s.inodes[f].links.nblks == |s.uses[f].parts| <= LN_NBLKS
    ensures Room(s, f) <==> |s.uses[f].parts| < LN_NBLKS && s.next + Needed(|s.uses[f].parts|) <= s.ninos
  {
    assert FileOk(s.inodes[f], s.store, s.uses[f]);
  }

  // ----- filling a directory -----

  /** What item n takes. */
  function TurnNeeds(d: Tree, log: Log, n: nat): nat
    requires d.Directory? && n < |d.items|
  {
    if Skipped(d.items[n]) then 0 else Needs(d.items[n].tree, AfterUpTo(d, log, n)) + Needed(2 + Shown(d.items, n))
  }

  /** The first n items of the directory are accounted for since s0, and nothing of them is over a limit. */
  ghost predicate AccountIs(s0: Image, s: Image, log: Log, d: Tree, n: nat)
    requires d.Directory? && n <= |d.items|
  {
    Spent(s0, s, Inside(d, log, n)) && FineUpTo(d, log, n)
  }

  /** AccountIs, in a form that is only unfolded where AccountIs is mentioned. */
  ghost predicate Accounted(s0: Image, s: Image, log: Log, d: Tree, n: nat)
    requires d.Directory? && n <= |d.items|
  {
    forall m {:trigger AccountIs(s0, m, log, d, n)} :: m == s ==> AccountIs(s0, m, log, d, n)
  }

  /** An item's turn can be made exactly when the account can be carried on. */
  lemma {:induction false} TurnFine(s0: Image, s: Image, log: Log, dir: nat, d: Tree, n: nat)
    requires d.Directory? && n < |d.items| && dir in s.uses && |s.uses[dir].parts| == 2 + Shown(d.items, n)
    requires Accounted(s0, s, log, d, n) && s.next <= s.ninos
    ensures ItemFits(s, AfterUpTo(d, log, n), dir, d.items[n]) <==>
            FineUpTo(d, log, n + 1) && s0.next + Inside(d, log, n + 1) <= s0.ninos
  {
    assert AccountIs(s0, s, log, d, n);
  }

  lemma {:induction false} AccountNext(s0: Image, s: Image, t: Image, log: Log, dir: nat, d: Tree, n: nat)
    requires d.Directory? && n < |d.items| && dir in s.uses && |s.uses[dir].parts| == 2 + Shown(d.items, n)
    requires Accounted(s0, s, log, d, n) && s.next <= s.ninos && ItemFits(s, AfterUpTo(d, log, n), dir, d.items[n])
    requires Spent(s, t, TurnNeeds(d, log, n))
    ensures Accounted(s0, t, log, d, n + 1)
  {
    assert AccountIs(s0, s, log, d, n);
    TurnFine(s0, s, log, dir, d, n);
  }

  /** If an item's turn cannot be made, the directory as a whole does not fit. */
  lemma {:induction false} AccountFails(s0: Image, s: Image, log: Log, dir: nat, d: Tree, n: nat)
    requires d.Directory? && n < |d.items| && dir in s.uses && |s.uses[dir].parts| == 2 + Shown(d.items, n)
    requires Accounted(s0, s, log, d, n) && s.next <= s.ninos
    ensures DirFits(s0, log, d) ==> ItemFits(s, AfterUpTo(d, log, n), dir, d.items[n])
  {
    TurnFine(s0, s, log, dir, d, n);
    if DirFits(s0, log, d) {
      FineEarlier(d, log, n + 1, |d.items|);
      InsideGrows(d, log, n + 1, |d.items|);
    }
  }

  lemma {:induction false} AccountStarts(s0: Image, s: Image, log: Log, d: Tree)
    requires d.Directory? && Spent(s0, s, Full(2))
    ensures Accounted(s0, s, log, d, 0)
  {
  }

  lemma {:induction false} DotsFail(s0: Image, log: Log, d: Tree)
    requires d.Directory? && s0.next + Full(2) > s0.ninos
    ensures !DirFits(s0, log, d)
  {
    InsideGrows(d, log, 0, |d.items|);
  }

  /** A tree that is a directory: its inode, then its entries and items. */
  lemma {:induction false} DirectoryNeeds(s: Image, m: Image, log: Log, t: Tree, c: nat)
    requires t.Directory? && Started(s, m, c, TypeDir, t.host) && t.host !in log.found
    ensures DirFits(m, log, t) <==> Fine(t, log) && s.next + Needs(t, log) <= s.ninos
  {
  }

  lemma {:induction false} DirectorySpends(s: Image, m: Image, t: Image, log: Log, d: Tree, c: nat)
    requires d.Directory? && Started(s, m, c, TypeDir, d.host)
    requires Accounted(m, t, log, d, |d.items|)
    ensures Spent(s, t, Needs(d, log))
  {
    assert AccountIs(m, t, log, d, |d.items|);
  }

  /** When all items are accounted for, the directory fitted. */
  lemma {:induction false} AccountEnds(s0: Image, s: Image, log: Log, d: Tree)
    requires d.Directory? && Accounted(s0, s, log, d, |d.items|) && s.next <= s.ninos
    ensures DirFits(s0, log, d)
  {
    assert AccountIs(s0, s, log, d, |d.items|);
  }
}
