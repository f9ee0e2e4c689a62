/** The finished image: what close_sfs writes, and what a reader of the disk alone finds there. */
module SfsDisk {
  import opened Options
  import opened SfsFile
  import opened SfsImage
  import opened SfsSource
  import opened SfsTree
  import opened SfsWalk

  const BLKN_SUPER: nat := 0

  type Disk = map<nat, Block>

  /** struct inode, the part of a cached inode that is written. */
  function OnDisk(ci: Inode): Block {
    InodeBlock(ci.kind, ci.size, ci.nlinks, ci.blocks, ci.links.direct, ci.links.indirect, ci.links.dbIndirect)
  }

  // ----- the bitmap -----

  /** The bits of the bitmap block for the blocks from i on. */
  ghost predicate FreemapBits(bits: seq<bool>, i: nat, next: nat, ninos: nat) {
    |bits| == BLKBITS && forall j :: 0 <= j < BLKBITS ==> (bits[j] <==> next <= i + j < ninos)
  }

  /** Bitmap block q is there. */
  ghost predicate FreemapAt(disk: Disk, q: nat, next: nat, ninos: nat) {
    && BLKN_FREEMAP + q in disk && disk[BLKN_FREEMAP + q].Freemap?
    && FreemapBits(disk[BLKN_FREEMAP + q].bits, BLKBITS * q, next, ninos)
  }

  /** The first n bitmap blocks are there. */
  ghost predicate FreemapOk(disk: Disk, n: nat, next: nat, ninos: nat) {
    forall q :: 0 <= q < n ==> FreemapAt(disk, q, next, ninos)
  }

  lemma {:induction false} FreemapGrows(disk: Disk, n: nat, next: nat, ninos: nat, bits: seq<bool>)
    requires FreemapOk(disk, n, next, ninos) && FreemapBits(bits, BLKBITS * n, next, ninos)
    ensures FreemapOk(disk[BLKN_FREEMAP + n := Freemap(bits)], n + 1, next, ninos)
  {
    var grown := disk[BLKN_FREEMAP + n := Freemap(bits)];
    forall q | 0 <= q < n + 1
      ensures FreemapAt(grown, q, next, ninos)
    {
      assert q < n ==> FreemapAt(disk, q, next, ninos);
    }
  }

  /** Bit k of the bitmap on the disk. */
  predicate FreeBit(disk: Disk, k: nat) {
    var b := BLKN_FREEMAP + k / BLKBITS;
    b in disk && disk[b].Freemap? && |disk[b].bits| == BLKBITS && disk[b].bits[k % BLKBITS]
  }

  /** The blocks the bitmap calls free. */
  ghost function FreeBlocks(disk: Disk, ninos: nat): set<nat> {
    set k | 0 <= k < BLKBITS * (FirstFree(ninos) - BLKN_FREEMAP) && FreeBit(disk, k)
  }

  lemma {:induction false} FreeBitMeans(disk: Disk, next: nat, ninos: nat, k: nat)
    requires FreemapOk(disk, FirstFree(ninos) - BLKN_FREEMAP, next, ninos)
    requires k < BLKBITS * (FirstFree(ninos) - BLKN_FREEMAP)
    ensures FreeBit(disk, k) <==> next <= k < ninos
  {
    var q := k / BLKBITS;
    assert q < FirstFree(ninos) - BLKN_FREEMAP && k == BLKBITS * q + k % BLKBITS;
    assert FreemapAt(disk, q, next, ninos);
  }

  ghost function Interval(a: nat, b: nat): (r: set<nat>)
    ensures forall k :: k in r <==> a <= k < b
    ensures a <= b ==> |r| == b - a
    decreases b - a
  {
    if a < b then {a} + Interval(a + 1, b) else {}
  }

  lemma {:induction false} BitmapReaches(ninos: nat)
    ensures ninos <= BLKBITS * (FirstFree(ninos) - BLKN_FREEMAP)
  {
  }

  /** As many bits are set as there are unused blocks. */
  lemma {:induction false} BitmapCounts(disk: Disk, next: nat, ninos: nat)
    requires FreemapOk(disk, FirstFree(ninos) - BLKN_FREEMAP, next, ninos) && next <= ninos
    ensures |FreeBlocks(disk, ninos)| == ninos - next
  {
    BitmapReaches(ninos);
    forall k: nat
      ensures k in FreeBlocks(disk, ninos) <==> next <= k < ninos
    {
      if k < BLKBITS * (FirstFree(ninos) - BLKN_FREEMAP) {
        FreeBitMeans(disk, next, ninos, k);
      }
    }
    assert FreeBlocks(disk, ninos) == Interval(next, ninos);
  }

  // ----- closing -----

  /** The bitmap and the super block are written, and the files are as they were. */
  ghost predicate Prepared(s: Image, disk: Disk) {
    && s.next <= s.ninos
    && (forall b {:trigger b in disk} {:trigger disk[b]} :: b in s.disk ==> b in disk && disk[b] == s.disk[b])
    && (forall b {:trigger b in disk} {:trigger disk[b]} :: b in disk && disk[b].Entry? ==> b in s.disk)
    && BLKN_SUPER in disk && disk[BLKN_SUPER] == Super(s.ninos, s.ninos - s.next)
    && FreemapOk(disk, FirstFree(s.ninos) - BLKN_FREEMAP, s.next, s.ninos)
  }

  /** The index blocks in bs and the inodes in fs are written as well. */
  ghost predicate Flushed(s: Image, disk: Disk, bs: set<nat>, fs: set<nat>) {
    && Prepared(s, disk)
    && (forall b {:trigger b in disk} {:trigger disk[b]} :: b in s.store && b in bs ==>
          b in disk && disk[b] == IndexBlock(s.store[b]))
    && (forall f {:trigger f in disk} {:trigger disk[f]} :: f in s.inodes && f in fs ==>
          f in disk && disk[f] == OnDisk(s.inodes[f]))
  }

  /** The disk is what close_sfs leaves. */
  ghost predicate Closed(s: Image, disk: Disk) {
    Flushed(s, disk, s.store.Keys, s.inodes.Keys)
  }

  /** Block b is none of those written before the caches are flushed. */
  ghost predicate Apart(s: Image, b: nat) {
    b !in s.disk && b != BLKN_SUPER && !(BLKN_FREEMAP <= b < FirstFree(s.ninos))
  }

  /** The bitmap and the super block overwrite nothing. */
  lemma {:induction false} PreparedFirst(s: Image, disk: Disk)
    requires Good(s) && FreemapOk(disk, FirstFree(s.ninos) - BLKN_FREEMAP, s.next, s.ninos)
    requires forall b :: !(BLKN_FREEMAP <= b < FirstFree(s.ninos)) ==>
               (b in disk <==> b in s.disk) && (b in disk ==> disk[b] == s.disk[b])
    ensures Prepared(s, disk[BLKN_SUPER := Super(s.ninos, s.ninos - s.next)])
  {
    var grown := disk[BLKN_SUPER := Super(s.ninos, s.ninos - s.next)];
    forall q | 0 <= q < FirstFree(s.ninos) - BLKN_FREEMAP
      ensures FreemapAt(grown, q, s.next, s.ninos)
    {
      assert FreemapAt(disk, q, s.next, s.ninos);
    }
    forall b | BLKN_FREEMAP <= b < FirstFree(s.ninos)
      ensures b in grown && grown[b].Freemap?
    {
      assert FreemapAt(grown, b - BLKN_FREEMAP, s.next, s.ninos);
    }
  }

  /** Index blocks and inodes overwrite nothing, because every block has one owner. */
  lemma {:induction false} CachesApart(s: Image, b: nat)
    requires Good(s) && (b in s.store || b in s.inodes)
    ensures Apart(s, b) && !(b in s.store && b in s.inodes) && b < s.ninos
  {
    assert b in s.inodes ==> UsedAs(s.uses, b, Node);
  }

  lemma {:induction false} PreparedStays(s: Image, disk: Disk, b: nat, data: Block)
    requires Prepared(s, disk) && Apart(s, b) && !data.Entry?
    ensures Prepared(s, disk[b := data])
  {
    var grown := disk[b := data];
    forall q | 0 <= q < FirstFree(s.ninos) - BLKN_FREEMAP
      ensures FreemapAt(grown, q, s.next, s.ninos)
    {
      assert FreemapAt(disk, q, s.next, s.ninos);
    }
  }

  lemma {:induction false} FlushBlock(s: Image, disk: Disk, bs: set<nat>, fs: set<nat>, b: nat)
    requires Good(s) && Flushed(s, disk, bs, fs) && b in s.store
    ensures Flushed(s, disk[b := IndexBlock(s.store[b])], bs + {b}, fs)
  {
    CachesApart(s, b);
    PreparedStays(s, disk, b, IndexBlock(s.store[b]));
  }

  lemma {:induction false} FlushInode(s: Image, disk: Disk, bs: set<nat>, fs: set<nat>, f: nat)
    requires Good(s) && Flushed(s, disk, bs, fs) && f in s.inodes
    ensures Flushed(s, disk[f := OnDisk(s.inodes[f])], bs, fs + {f})
  {
    CachesApart(s, f);
    PreparedStays(s, disk, f, OnDisk(s.inodes[f]));
  }

  function Members(chain: seq<nat>): set<nat> {
    set b | b in chain
  }

  lemma {:induction false} MembersNext(chain: seq<nat>, k: nat)
    requires k < |chain|
    ensures Members(chain[..k + 1]) == Members(chain[..k]) + {chain[k]}
  {
    assert chain[..k + 1] == chain[..k] + [chain[k]];
  }

  // ----- reading the disk -----

  /** Entry k of index block b. */
  function IndexEntry(disk: Disk, b: nat, k: nat): Option<nat> {
    if b in disk && disk[b].IndexBlock? && k < |disk[b].numbers| then Some(disk[b].numbers[k]) else None
  }

  /** The number of block i of file f, through the direct, indirect and doubly indirect entries. */
  function Resolve(disk: Disk, f: nat, i: nat): Option<nat> {
    if f !in disk || !disk[f].InodeBlock? || i >= disk[f].blocks || |disk[f].direct| != NDIRECT then None
    else if i < NDIRECT then Some(disk[f].direct[i])
    else if i < L1_NBLKS then IndexEntry(disk, disk[f].indirect, i - NDIRECT)
    else
      match IndexEntry(disk, disk[f].dbIndirect, (i - L1_NBLKS) / NENTRY)
      case Some(b) => IndexEntry(disk, b, (i - L1_NBLKS) % NENTRY)
      case None => None
  }

  /** Block i of file f, read from the disk, is the data. */
  predicate ReadAt(disk: Disk, f: nat, i: nat, data: Block) {
    var b := Resolve(disk, f, i);
    b.Some? && b.value in disk && disk[b.value] == data
  }

  /** The blocks of an index block of a file can be read from the disk. */
  lemma {:induction false} IndexRead(s: Image, disk: Disk, b: nat, k: nat)
    requires Closed(s, disk) && b in s.store && k < |s.store[b]|
    ensures IndexEntry(disk, b, k) == Some(s.store[b][k])
  {
    assert disk[b] == IndexBlock(s.store[b]);
  }

  /** On the disk every block number of a file resolves to the block appended at that place. */
  lemma {:induction false} ResolveAgrees(s: Image, disk: Disk, f: nat, i: nat)
    requires Good(s) && Closed(s, disk) && f in s.inodes && f in s.uses && i < |s.uses[f].parts|
    ensures Resolve(disk, f, i) == Some(s.uses[f].parts[i])
  {
    var ci, use := s.inodes[f], s.uses[f];
    assert FileOk(ci, s.store, use);
    assert disk[f] == OnDisk(ci);
    LookupAgrees(ci.links, s.store, use.parts, i);
    if NDIRECT <= i < L1_NBLKS {
      IndexRead(s, disk, ci.links.indirect, i - NDIRECT);
    } else if i >= L1_NBLKS {
      LeafBounds(ci.links.nblks, i);
      var q := (i - L1_NBLKS) / NENTRY;
      IndexRead(s, disk, ci.links.dbIndirect, q);
      IndexRead(s, disk, s.store[ci.links.dbIndirect][q], (i - L1_NBLKS) % NENTRY);
    }
  }

  lemma {:induction false} BlockRead(s: Image, disk: Disk, f: nat, i: nat, data: Block)
    requires Good(s) && Closed(s, disk) && BlockAt(s, f, i, data)
    ensures ReadAt(disk, f, i, data)
  {
    ResolveAgrees(s, disk, f, i);
  }

  // ----- what the disk says about the host tree -----

  /** Inode f on the disk, a file of this kind, size and number of blocks. */
  predicate NodeAt(disk: Disk, f: nat, kind: Kind, size: nat, blocks: nat) {
    && f in disk && disk[f].InodeBlock? && disk[f].kind == kind && disk[f].size == size && disk[f].blocks == blocks
  }

  /** The inode that entry k of directory f names. */
  function NamedAt(disk: Disk, f: nat, k: nat): nat {
    var b := Resolve(disk, f, k);
    if b.Some? && b.value in disk && disk[b.value].Entry? then disk[b.value].target else 0
  }

  /** The host inodes that the inodes of regular files stand for. */
  function FileIds(inodes: map<nat, Inode>): map<nat, nat> {
    map f | f in inodes && inodes[f].kind.TypeFile? :: inodes[f].host
  }

  ghost predicate Injective(ids: map<nat, nat>) {
    forall f, g :: f in ids && g in ids && ids[f] == ids[g] ==> f == g
  }

  /** Inode f of the disk is what the host number n was found to be.  The inode of a regular file stands for its
      host number in ids. */
  ghost predicate ReadsFound(disk: Disk, ids: map<nat, nat>, f: nat, n: nat, what: Found) {
    match what
    case FoundFile(bytes) => f in ids && ids[f] == n && HoldsBytes(disk, f, bytes)
    case FoundDir => f in disk && disk[f].InodeBlock? && disk[f].kind == TypeDir
    case FoundLink => f in disk && disk[f].InodeBlock? && disk[f].kind == TypeLink
  }

  /** Inode f of the disk is the tree t, in directory up: a reader who follows its blocks finds the target of every
      symbolic link and the entries of every directory, in order, and for every regular file what its number was
      found to be when the walk came to it, from the log on.  Where link counts are exact, that of a directory is
      2 more than its subdirectories. */
  ghost predicate ReadsBack(disk: Disk, ids: map<nat, nat>, log: Log, exact: bool, up: nat, f: nat, t: Tree)
    decreases t, 1, 0
  {
    match t
    case RegularFile(n, bytes) => ReadsFound(disk, ids, f, n, Meant(log, n, bytes))
    case Symlink(_, target) => NodeAt(disk, f, TypeLink, |target|, 1) && ReadAt(disk, f, 0, Data(target))
    case Directory(_, items) =>
      && var n := 2 + Shown(items, |items|);
      && NodeAt(disk, f, TypeDir, ENTRY_SIZE * n, n)
      && (exact ==> disk[f].nlinks == 2 + Subdirs(items, |items|))
      && ReadAt(disk, f, 0, Entry(f, ".")) && ReadAt(disk, f, 1, Entry(up, ".."))
      && ReadsItems(disk, ids, log, exact, f, t, |items|)
    case _ => false
  }

  ghost predicate HoldsBytes(disk: Disk, f: nat, bytes: seq<bv8>) {
    exists blocks: nat :: NodeAt(disk, f, TypeFile, |bytes|, blocks) && ReadsFile(disk, f, bytes, blocks)
  }

  /** The blocks of the file are full but for the last, and hold the bytes. */
  ghost predicate ReadsFile(disk: Disk, f: nat, bytes: seq<bv8>, blocks: nat) {
    && |bytes| <= BLKSIZE * blocks < |bytes| + BLKSIZE
    && forall i :: 0 <= i < blocks ==> ReadAt(disk, f, i, Data(Piece(bytes, i)))
  }

  /** The entries after the first two are the first n items. */
  ghost predicate ReadsItems(disk: Disk, ids: map<nat, nat>, log: Log, exact: bool, f: nat, t: Tree, n: nat)
    requires t.Directory? && n <= |t.items|
    decreases t, 0, n
  {
    n > 0 ==>
      && ReadsItems(disk, ids, log, exact, f, t, n - 1)
      && var k := 2 + Shown(t.items, n - 1);
      && (Skipped(t.items[n - 1])
          || (ReadAt(disk, f, k, Entry(NamedAt(disk, f, k), Written(t.items[n - 1].name)))
              && ReadsBack(disk, ids, AfterUpTo(t, log, n - 1), exact, f, NamedAt(disk, f, k), t.items[n - 1].tree)))
  }

  lemma {:induction false} NodeRead(s: Image, disk: Disk, f: nat)
    requires Good(s) && Closed(s, disk) && f in s.inodes
    ensures f in s.uses && disk.Keys >= {f} && disk[f] == OnDisk(s.inodes[f])
    ensures s.inodes[f].blocks == |s.uses[f].parts| <= LN_NBLKS
  {
    assert FileOk(s.inodes[f], s.store, s.uses[f]);
  }

  lemma {:induction false} SubdirsShown(items: seq<Item>, n: nat)
    requires n <= |items|
    ensures Subdirs(items, n) <= Shown(items, n)
  {
    if n > 0 {
      SubdirsShown(items, n - 1);
    }
  }

  lemma {:induction false} FileRead(s: Image, disk: Disk, f: nat, bytes: seq<bv8>)
    requires Good(s) && Closed(s, disk) && FileHolds(s, f, bytes) && s.inodes[f].kind.TypeFile?
    ensures HoldsBytes(disk, f, bytes)
  {
    NodeRead(s, disk, f);
    forall i | 0 <= i < |s.uses[f].parts|
      ensures ReadAt(disk, f, i, Data(Piece(bytes, i)))
    {
      BlockRead(s, disk, f, i, Data(Piece(bytes, i)));
    }
    assert NodeAt(disk, f, TypeFile, |bytes|, |s.uses[f].parts|) && ReadsFile(disk, f, bytes, |s.uses[f].parts|);
  }

  lemma {:induction false} NameRead(s: Image, disk: Disk, f: nat, k: nat, name: string)
    requires Good(s) && Closed(s, disk) && NameAt(s, f, k, name)
    ensures NamedAt(disk, f, k) == Target(s, f, k) && ReadAt(disk, f, k, Entry(Target(s, f, k), name))
  {
    ResolveAgrees(s, disk, f, k);
  }

  /** close_sfs has left the disk, in a form that is only unfolded where Closed is mentioned. */
  ghost predicate Settled(s: Image, disk: Disk) {
    forall m {:trigger Closed(m, disk)} :: m == s ==> Good(m) && Closed(m, disk)
  }

  lemma {:induction false} FoundRead(s: Image, disk: Disk, open: set<nat>, f: nat, n: nat, what: Found)
    requires Settled(s, disk) && LeadsTo(s, open, f, n, what)
    ensures ReadsFound(disk, FileIds(s.inodes), f, n, what)
  {
    assert Closed(s, disk);
    NodeRead(s, disk, f);
    if what.FoundFile? {
      FileRead(s, disk, f, what.bytes);
    }
  }

  /** The image of a tree, once it is closed, reads back as the tree. */
  lemma {:induction false} EncodedReadsBack(s: Image, disk: Disk, log: Log, open: set<nat>, up: nat, f: nat, t: Tree)
    requires Settled(s, disk) && Encodes(s, log, open, up, f, t)
    ensures ReadsBack(disk, FileIds(s.inodes), log, !s.stray, up, f, t)
    decreases t, 1, 0
  {
    match t
    case RegularFile(n, bytes) => FoundRead(s, disk, open, f, n, Meant(log, n, bytes));
    case Symlink(_, target) =>
      assert Closed(s, disk);
    NodeRead(s, disk, f);
      BlockRead(s, disk, f, 0, Data(target));
    case Directory(_, items) =>
      DirRead(s, disk, log, open, up, f, t);
      ListedReadsBack(s, disk, log, open, f, t, |items|);
  }

  lemma {:induction false} DirRead(s: Image, disk: Disk, log: Log, open: set<nat>, up: nat, f: nat, t: Tree)
    requires Settled(s, disk) && t.Directory? && Encodes(s, log, open, up, f, t)
    ensures var n := 2 + Shown(t.items, |t.items|);
            && NodeAt(disk, f, TypeDir, ENTRY_SIZE * n, n)
            && (!s.stray ==> disk[f].nlinks == 2 + Subdirs(t.items, |t.items|))
            && ReadAt(disk, f, 0, Entry(f, ".")) && ReadAt(disk, f, 1, Entry(up, ".."))
  {
    assert Closed(s, disk);
    NodeRead(s, disk, f);
    BlockRead(s, disk, f, 0, Entry(f, "."));
    BlockRead(s, disk, f, 1, Entry(up, ".."));
    SubdirsShown(t.items, |t.items|);
  }

  lemma {:induction false} ListedReadsBack(s: Image, disk: Disk, log: Log, open: set<nat>, f: nat, t: Tree, n: nat)
    requires Settled(s, disk) && t.Directory? && n <= |t.items| && Listed(s, log, open, f, t, n)
    ensures ReadsItems(disk, FileIds(s.inodes), log, !s.stray, f, t, n)
    decreases t, 0, n
  {
    if n > 0 {
      ListedReadsBack(s, disk, log, open, f, t, n - 1);
      if !Skipped(t.items[n - 1]) {
        var k := 2 + Shown(t.items, n - 1);
        ItemRead(s, disk, log, open, f, t, n);
        EncodedReadsBack(s, disk, AfterUpTo(t, log, n - 1), open, f, NamedAt(disk, f, k), t.items[n - 1].tree);
      }
    }
  }

  lemma {:induction false} ItemRead(s: Image, disk: Disk, log: Log, open: set<nat>, f: nat, t: Tree, n: nat)
    requires Settled(s, disk) && t.Directory? && 0 < n <= |t.items| && Listed(s, log, open, f, t, n)
    requires !Skipped(t.items[n - 1])
    ensures var k := 2 + Shown(t.items, n - 1);
            && ReadAt(disk, f, k, Entry(NamedAt(disk, f, k), Written(t.items[n - 1].name)))
            && Encodes(s, AfterUpTo(t, log, n - 1), open, f, NamedAt(disk, f, k), t.items[n - 1].tree)
  {
    assert Closed(s, disk);
    ListedItem(s, log, open, f, t, n);
    NameRead(s, disk, f, 2 + Shown(t.items, n - 1), Written(t.items[n - 1].name));
  }

  /** The link count of every inode on the disk is the number of entries on the disk that name it. */
  lemma {:induction false} LinksRead(s: Image, disk: Disk, f: nat)
    requires Good(s) && LinksOk(s) && Closed(s, disk) && f in s.inodes
    ensures f in disk && disk[f].InodeBlock? && disk[f].nlinks == |Naming(disk, f)| % NLINKS_LIMIT
  {
    NodeRead(s, disk, f);
    assert Naming(disk, f) == Naming(s.disk, f);
  }

  lemma {:induction false} AllLinksRead(s: Image, disk: Disk)
    requires Good(s) && LinksOk(s) && Closed(s, disk)
    ensures forall f :: f in s.inodes ==>
              f in disk && disk[f].InodeBlock? && disk[f].nlinks == |Naming(disk, f)| % NLINKS_LIMIT
  {
    forall f | f in s.inodes
      ensures f in disk && disk[f].InodeBlock? && disk[f].nlinks == |Naming(disk, f)| % NLINKS_LIMIT
    {
      LinksRead(s, disk, f);
    }
  }

  // ----- which blocks are in use -----

  /** Block b resolves to a block that the bitmap does not call free. */
  predicate Taken(disk: Disk, b: Option<nat>) {
    b.Some? && !FreeBit(disk, b.value)
  }

  /** The inode, its data or entry blocks and its index blocks are not called free. */
  ghost predicate NoneFree(disk: Disk, f: nat) {
    && f in disk && disk[f].InodeBlock? && !FreeBit(disk, f)
    && (forall i :: 0 <= i < disk[f].blocks ==> Taken(disk, Resolve(disk, f, i)))
    && (disk[f].blocks > NDIRECT ==> !FreeBit(disk, disk[f].indirect))
    && (disk[f].blocks > L1_NBLKS ==>
          && !FreeBit(disk, disk[f].dbIndirect)
          && forall q :: 0 <= q < Leaves(disk[f].blocks) ==> Taken(disk, IndexEntry(disk, disk[f].dbIndirect, q)))
  }

  /** No two places in the files of the nodes are the same block. */
  ghost predicate NoneShared(disk: Disk, nodes: set<nat>) {
    forall f, i, g, j {:trigger Resolve(disk, f, i), Resolve(disk, g, j)} ::
      f in nodes && g in nodes && f in disk && g in disk && disk[f].InodeBlock? && disk[g].InodeBlock?
      && 0 <= i < disk[f].blocks && 0 <= j < disk[g].blocks && Resolve(disk, f, i) == Resolve(disk, g, j) ==>
        f == g && i == j
  }

  lemma {:induction false} UsedNotFree(s: Image, disk: Disk, b: nat, o: Owner)
    requires Good(s) && Closed(s, disk) && UsedAs(s.uses, b, o)
    ensures !FreeBit(disk, b)
  {
    BitmapReaches(s.ninos);
    FreeBitMeans(disk, s.next, s.ninos, b);
  }

  lemma {:induction false} FileNotFree(s: Image, disk: Disk, f: nat)
    requires Good(s) && Closed(s, disk) && f in s.inodes
    ensures NoneFree(disk, f)
  {
    NodeRead(s, disk, f);
    var ci, use := s.inodes[f], s.uses[f];
    assert FileOk(ci, s.store, use);
    UsedNotFree(s, disk, f, Node);
    forall i | 0 <= i < disk[f].blocks
      ensures Taken(disk, Resolve(disk, f, i))
    {
      ResolveAgrees(s, disk, f, i);
      UsedNotFree(s, disk, use.parts[i], Part(f, i));
    }
    forall b | b in use.index
      ensures !FreeBit(disk, b)
    {
      UsedNotFree(s, disk, b, Index(f));
    }
    LeavesNotFree(s, disk, f);
  }

  lemma {:induction false} LeavesNotFree(s: Image, disk: Disk, f: nat)
    requires Good(s) && Closed(s, disk) && f in s.inodes && f in s.uses && FileOk(s.inodes[f], s.store, s.uses[f])
    ensures var ci := s.inodes[f]; ci.blocks > L1_NBLKS ==>
              forall q :: 0 <= q < Leaves(ci.blocks) ==> Taken(disk, IndexEntry(disk, ci.links.dbIndirect, q))
  {
    var ci := s.inodes[f];
    if ci.blocks > L1_NBLKS {
      var top := s.store[ci.links.dbIndirect];
      forall q | 0 <= q < Leaves(ci.blocks)
        ensures Taken(disk, IndexEntry(disk, ci.links.dbIndirect, q))
      {
        IndexRead(s, disk, ci.links.dbIndirect, q);
        assert top[q] in LeafSet(top, Leaves(ci.links.nblks));
        UsedNotFree(s, disk, top[q], Index(f));
      }
    }
  }

  lemma {:induction false} FilesNotShared(s: Image, disk: Disk)
    requires Good(s) && Closed(s, disk)
    ensures NoneShared(disk, s.inodes.Keys)
  {
    forall f, i, g, j |
      f in s.inodes && g in s.inodes && f in disk && g in disk && disk[f].InodeBlock? && disk[g].InodeBlock?
      && 0 <= i < disk[f].blocks && 0 <= j < disk[g].blocks && Resolve(disk, f, i) == Resolve(disk, g, j)
      ensures f == g && i == j
    {
      NodeRead(s, disk, f);
      NodeRead(s, disk, g);
      ResolveAgrees(s, disk, f, i);
      ResolveAgrees(s, disk, g, j);
      assert UsedAs(s.uses, s.uses[f].parts[i], Part(f, i)) && UsedAs(s.uses, s.uses[g].parts[j], Part(g, j));
    }
  }

  // ----- the finished image -----

  /** The super block and the bitmap count the blocks that are not taken. */
  ghost predicate BitmapRight(disk: Disk, next: nat, ninos: nat) {
    && next <= ninos && |FreeBlocks(disk, ninos)| == ninos - next
    && BLKN_SUPER in disk && disk[BLKN_SUPER] == Super(ninos, ninos - next)
    && (forall k :: 0 <= k < BLKBITS * (FirstFree(ninos) - BLKN_FREEMAP) ==>
          (FreeBit(disk, k) <==> next <= k < ninos))
  }

  lemma {:induction false} ClosedBitmap(s: Image, disk: Disk)
    requires Closed(s, disk)
    ensures BitmapRight(disk, s.next, s.ninos)
  {
    BitmapCounts(disk, s.next, s.ninos);
    forall k | 0 <= k < BLKBITS * (FirstFree(s.ninos) - BLKN_FREEMAP)
      ensures FreeBit(disk, k) <==> s.next <= k < s.ninos
    {
      FreeBitMeans(disk, s.next, s.ninos, k);
    }
  }

  /** The link counts are right, and no block in use is called free or used twice. */
  ghost predicate NodesRight(nodes: set<nat>, disk: Disk) {
    && (forall f :: f in nodes ==>
          f in disk && disk[f].InodeBlock? && disk[f].nlinks == |Naming(disk, f)| % NLINKS_LIMIT)
    && (forall f :: f in nodes ==> NoneFree(disk, f)) && NoneShared(disk, nodes)
  }

  lemma {:induction false} ClosedNodes(s: Image, disk: Disk)
    requires Good(s) && LinksOk(s) && Closed(s, disk)
    ensures NodesRight(s.inodes.Keys, disk)
  {
    AllLinksRead(s, disk);
    FilesNotShared(s, disk);
    forall f | f in s.inodes.Keys
      ensures NoneFree(disk, f)
    {
      FileNotFree(s, disk, f);
    }
  }

  // ----- files with the same number -----

  /** Two names of one host number that lead to regular files lead to one inode of the image. */
  lemma {:induction false} OneInodePerFile(disk: Disk, ids: map<nat, nat>, f: nat, g: nat, n: nat, what: Found,
                                           what': Found)
    requires Injective(ids) && what.FoundFile? && what'.FoundFile?
    requires ReadsFound(disk, ids, f, n, what) && ReadsFound(disk, ids, g, n, what')
    ensures f == g && what == what'
  {
    BytesUnique(disk, f, what.bytes, what'.bytes);
  }

  /** An inode holds the bytes of one file only. */
  lemma {:induction false} BytesUnique(disk: Disk, f: nat, a: seq<bv8>, b: seq<bv8>)
    requires HoldsBytes(disk, f, a) && HoldsBytes(disk, f, b)
    ensures a == b
  {
    var blocks: nat :| NodeAt(disk, f, TypeFile, |a|, blocks) && ReadsFile(disk, f, a, blocks);
    assert ReadsFile(disk, f, b, blocks);
    forall k | 0 <= k < |a|
      ensures a[k] == b[k]
    {
      var i := k / BLKSIZE;
      assert ReadAt(disk, f, i, Data(Piece(a, i))) && ReadAt(disk, f, i, Data(Piece(b, i)));
      assert Piece(a, i)[k % BLKSIZE] == a[k] && Piece(b, i)[k % BLKSIZE] == b[k];
    }
  }

  /** The name of every regular file in the tree at inode f leads to its own bytes. */
  ghost predicate OwnBytes(disk: Disk, f: nat, t: Tree)
    decreases t, 1, 0
  {
    match t
    case RegularFile(_, bytes) => HoldsBytes(disk, f, bytes)
    case Directory(_, items) => OwnItems(disk, f, t, |items|)
    case _ => true
  }

  ghost predicate OwnItems(disk: Disk, f: nat, t: Tree, n: nat)
    requires t.Directory? && n <= |t.items|
    decreases t, 0, n
  {
    n > 0 ==>
      && OwnItems(disk, f, t, n - 1)
      && (Skipped(t.items[n - 1]) || OwnBytes(disk, NamedAt(disk, f, 2 + Shown(t.items, n - 1)), t.items[n - 1].tree))
  }

  /** A name that leads to other bytes, or to a directory or symbolic link, does not lead to the file's own bytes. */
  lemma {:induction false} OwnFound(disk: Disk, ids: map<nat, nat>, f: nat, n: nat, what: Found, bytes: seq<bv8>)
    requires ReadsFound(disk, ids, f, n, what)
    ensures HoldsBytes(disk, f, bytes) <==> what == FoundFile(bytes)
  {
    if what.FoundFile? && HoldsBytes(disk, f, bytes) {
      BytesUnique(disk, f, what.bytes, bytes);
    }
  }

  /** The walk found every regular file's own bytes just if a reader of the disk does. */
  lemma {:induction false} OwnRead(disk: Disk, ids: map<nat, nat>, log: Log, exact: bool, up: nat, f: nat, t: Tree)
    requires ReadsBack(disk, ids, log, exact, up, f, t)
    ensures After(t, log).own <==> log.own && OwnBytes(disk, f, t)
    decreases t, 1, 0
  {
    match t
    case RegularFile(n, bytes) => OwnFound(disk, ids, f, n, Meant(log, n, bytes), bytes);
    case Symlink(_, _) =>
    case Directory(_, items) => OwnItemsRead(disk, ids, log, exact, f, t, |items|);
  }

  lemma {:induction false} OwnItemsRead(disk: Disk, ids: map<nat, nat>, log: Log, exact: bool, f: nat, t: Tree, n: nat)
    requires t.Directory? && n <= |t.items| && ReadsItems(disk, ids, log, exact, f, t, n)
    ensures AfterUpTo(t, log, n).own <==> log.own && OwnItems(disk, f, t, n)
    decreases t, 0, n
  {
    if n > 0 {
      OwnItemsRead(disk, ids, log, exact, f, t, n - 1);
      if !Skipped(t.items[n - 1]) {
        OwnRead(disk, ids, AfterUpTo(t, log, n - 1), exact, f, NamedAt(disk, f, 2 + Shown(t.items, n - 1)),
                t.items[n - 1].tree);
      }
    }
  }

  /** The tree can be read from the disk.  A reader finds the own bytes of every regular file if and only if none
      has the number of an earlier file with other bytes or of another type; and then the link counts of the
      directories are exact as well. */
  ghost predicate TreeRight(disk: Disk, ids: map<nat, nat>, t: Tree) {
    && ReadsBack(disk, ids, Start(), !After(t, Start()).stray, BLKN_ROOT, BLKN_ROOT, t) && Injective(ids)
    && (OwnBytes(disk, BLKN_ROOT, t) <==> NoClash(Visits(t)))
    && (NoClash(Visits(t)) ==> !After(t, Start()).stray)
  }

  /** Files of two file systems can have the same number, and then not all of them get into the image. */
  lemma {:induction false} OwnBytesIff(disk: Disk, ids: map<nat, nat>, t: Tree)
    requires ReadsBack(disk, ids, Start(), !After(t, Start()).stray, BLKN_ROOT, BLKN_ROOT, t) && Injective(ids)
    ensures TreeRight(disk, ids, t)
  {
    OwnRead(disk, ids, Start(), !After(t, Start()).stray, BLKN_ROOT, BLKN_ROOT, t);
    OwnMeans(t);
  }

  /** What a finished image promises: the tree can be read from the disk, with one inode for a host file of
      several names, and the bitmap and the inodes are right. */
  ghost predicate Complete(inodes: map<nat, Inode>, disk: Disk, next: nat, ninos: nat, t: Tree) {
    TreeRight(disk, FileIds(inodes), t) && BitmapRight(disk, next, ninos) && NodesRight(inodes.Keys, disk)
  }

  /** The walk from the root, then close_sfs, complete the image. */
  lemma {:induction false} ImageComplete(s: Image, m: Image, disk: Disk, t: Tree)
    requires s == Fresh(s.ninos) && t.Directory? && t.host == 0
    requires Filling(s, m, Start(), {BLKN_ROOT}, BLKN_ROOT, BLKN_ROOT, t, |t.items|)
    requires Good(m) && LinksOk(m) && Closed(m, disk) && Faithful(m, After(t, Start()), {})
    ensures Complete(m.inodes, disk, m.next, m.ninos, t)
  {
    assert Mirrored(m, After(t, Start()), {});
    RootEncoded(s, m, Start(), t);
    EncodedReadsBack(m, disk, Start(), {}, BLKN_ROOT, BLKN_ROOT, t);
    IdsInjective(m.inodes);
    OwnBytesIff(disk, FileIds(m.inodes), t);
    ClosedBitmap(m, disk);
    ClosedNodes(m, disk);
  }

  lemma {:induction false} IdsInjective(inodes: map<nat, Inode>)
    requires OneInodeEach(inodes)
    ensures Injective(FileIds(inodes))
  {
    forall f, g | f in FileIds(inodes) && g in FileIds(inodes) && FileIds(inodes)[f] == FileIds(inodes)[g]
      ensures f == g
    {
      assert inodes[f].host == inodes[g].host;
    }
  }
}
