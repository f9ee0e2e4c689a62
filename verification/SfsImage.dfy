/** The state of the SFS image builder as a value: which block belongs to what, what the operations that take
    blocks do to it, and the ownership and link-count invariants they keep. */
module SfsImage {
  import opened SfsFile

  const BLKSIZE: nat := 4096
  const BLKBITS: nat := 32768
  const MAX_NBLKS: nat := 524288
  const BLKN_ROOT: nat := 1
  const BLKN_FREEMAP: nat := 2
  const ENTRY_SIZE: nat := 256   // sizeof(entry->name)
  const NLINKS_LIMIT: nat := 65536 // nlinks is a uint16_t

  datatype Kind = TypeFile | TypeDir | TypeLink

  /** struct cache_inode.  host is its inode number on the host. */
  datatype Inode = Inode(kind: Kind, host: nat, size: nat, nlinks: nat, blocks: nat, links: Map)

  /** What a block of the image holds.  A data block holds the bytes and then zeros. */
  datatype Block =
    | Data(bytes: seq<bv8>)
    | Entry(target: nat, name: string)
    | Super(total: nat, unused: nat)
    | Freemap(bits: seq<bool>)
    | IndexBlock(numbers: seq<nat>)
    | InodeBlock(kind: Kind, size: nat, nlinks: nat, blocks: nat, direct: seq<nat>, indirect: nat, dbIndirect: nat)

  /** What a block was taken for: an inode, part i of file f, or an index block of file f. */
  datatype Owner = Node | Part(f: nat, i: nat) | Index(f: nat)

  /** The blocks a file uses: those appended to it, in order, and its index blocks. */
  datatype Usage = Usage(parts: seq<nat>, index: set<nat>)

  /** disk holds the blocks written so far, uses lists the blocks of each file, newest is the last inode made for
      each host number, and stray says whether the name of a regular file leads to something else. */
  datatype Image = Image(ninos: nat, next: nat, inodes: map<nat, Inode>, store: Store, disk: map<nat, Block>,
                         uses: map<nat, Usage>, owner: map<nat, Owner>, newest: map<nat, nat>, stray: bool)

  /** create_sfs: the first block after the bitmap. */
  function FirstFree(ninos: nat): nat {
    BLKN_FREEMAP + (ninos + BLKBITS - 1) / BLKBITS
  }

  /** The block map of the inode holds the parts of the file. */
  ghost predicate FileOk(ci: Inode, st: Store, u: Usage) {
    Holds(ci.links, st, u.parts) && IndexBlocks(ci.links, st) == u.index && ci.blocks == |u.parts|
  }

  /** Every file but the one left out is in order. */
  ghost predicate AllOk(inodes: map<nat, Inode>, st: Store, uses: map<nat, Usage>, out: set<nat>) {
    forall f {:trigger FileOk(inodes[f], st, uses[f])} :: f in inodes && f in uses && f !in out ==>
      FileOk(inodes[f], st, uses[f])
  }

  ghost predicate FilesOk(s: Image) {
    AllOk(s.inodes, s.store, s.uses, {})
  }

  /** Block b is used for o. */
  ghost predicate UsedAs(uses: map<nat, Usage>, b: nat, o: Owner) {
    match o
    case Node => b in uses
    case Part(f, i) => f in uses && i < |uses[f].parts| && uses[f].parts[i] == b
    case Index(f) => f in uses && b in uses[f].index
  }

  /** Every block taken is used for what it was taken for, and nothing else is used. */
  ghost predicate OwnersOk(s: Image) {
    && (forall b :: b in s.owner <==> FirstFree(s.ninos) <= b < s.next)
    && (forall b {:trigger UsedAs(s.uses, b, s.owner[b])} :: b in s.owner ==> UsedAs(s.uses, b, s.owner[b]))
    && (forall b, o {:trigger UsedAs(s.uses, b, o)} :: UsedAs(s.uses, b, o) ==>
          (b == BLKN_ROOT && o == Node) || (b in s.owner && s.owner[b] == o))
  }

  /** The blocks written are the parts of files, and the blocks cached are the index blocks. */
  ghost predicate BlocksOn(cached: set<nat>, disk: map<nat, Block>, owner: map<nat, Owner>) {
    && (forall b :: b in cached <==> b in owner && owner[b].Index?)
    && (forall b :: b in disk <==> b in owner && owner[b].Part?)
    && (forall b :: b in disk ==> disk[b].Data? || disk[b].Entry?)
  }

  ghost predicate BlocksOk(s: Image) {
    BlocksOn(s.store.Keys, s.disk, s.owner)
  }

  ghost predicate SizesOk(s: Image) {
    BLKN_ROOT in s.inodes && FirstFree(s.ninos) <= s.next <= s.ninos && s.inodes.Keys == s.uses.Keys
  }

  ghost predicate Good(s: Image) {
    SizesOk(s) && FilesOk(s) && OwnersOk(s) && BlocksOk(s)
  }

  /** Every block taken since create_sfs has exactly one use. */
  lemma {:induction false} OneOwner(s: Image, b: nat)
    requires Good(s) && FirstFree(s.ninos) <= b < s.next
    ensures exists o :: UsedAs(s.uses, b, o)
    ensures forall o, p :: UsedAs(s.uses, b, o) && UsedAs(s.uses, b, p) ==> o == p
  {
    assert UsedAs(s.uses, b, s.owner[b]);
  }

  /** Blocks outside the ones taken have no use, except the root inode's. */
  lemma {:induction false} NoOwner(s: Image, b: nat, o: Owner)
    requires Good(s) && UsedAs(s.uses, b, o) && b != BLKN_ROOT
    ensures FirstFree(s.ninos) <= b < s.next
  {
  }

  // ----- a new inode -----

  function NewInode(kind: Kind, host: nat): Inode {
    Inode(kind, host, 0, 0, 0, EmptyMap())
  }

  /** create_sfs: nothing but the root inode. */
  function Fresh(ninos: nat): Image {
    Image(ninos, FirstFree(ninos), map[BLKN_ROOT := NewInode(TypeDir, 0)], map[], map[],
          map[BLKN_ROOT := Usage([], {})], map[], map[0 := BLKN_ROOT], false)
  }

  lemma {:induction false} FreshGood(ninos: nat)
    requires FirstFree(ninos) < ninos
    ensures Good(Fresh(ninos)) && LinksOk(Fresh(ninos))
  {
    EmptyHolds(map[]);
    assert Naming(map[], BLKN_ROOT) == {};
  }

  /** alloc_cache_inode with a block of its own. */
  function AddInode(s: Image, kind: Kind, host: nat): Image {
    s.(next := s.next + 1, inodes := s.inodes[s.next := NewInode(kind, host)],
       uses := s.uses[s.next := Usage([], {})], owner := s.owner[s.next := Node],
       newest := s.newest[host := s.next])
  }

  lemma {:induction false} UseInode(uses: map<nat, Usage>, n: nat, b: nat, o: Owner)
    requires n !in uses
    ensures UsedAs(uses[n := Usage([], {})], b, o) <==> UsedAs(uses, b, o) || (b == n && o == Node)
  {
  }

  lemma {:induction false} AddInodeOwners(s: Image, kind: Kind, host: nat)
    requires SizesOk(s) && OwnersOk(s)
    ensures OwnersOk(AddInode(s, kind, host)) && s.next !in s.uses
  {
    assert UsedAs(s.uses, s.next, Node) <==> s.next in s.uses;
    var t := AddInode(s, kind, host);
    forall b, o | UsedAs(t.uses, b, o)
      ensures (b == BLKN_ROOT && o == Node) || (b in t.owner && t.owner[b] == o)
    {
      UseInode(s.uses, s.next, b, o);
    }
    forall b | b in t.owner
      ensures UsedAs(t.uses, b, t.owner[b])
    {
      assert b in s.owner ==> UsedAs(s.uses, b, s.owner[b]);
    }
  }

  lemma {:induction false} AddInodeFiles(s: Image, kind: Kind, host: nat)
    requires FilesOk(s)
    ensures FilesOk(AddInode(s, kind, host))
  {
    EmptyHolds(s.store);
  }

  lemma {:induction false} AddInodeBlocks(s: Image, kind: Kind, host: nat)
    requires BlocksOk(s) && s.next !in s.owner
    ensures BlocksOk(AddInode(s, kind, host))
  {
  }

  lemma {:induction false} AddInodeGood(s: Image, kind: Kind, host: nat)
    requires Good(s) && s.next < s.ninos
    ensures Good(AddInode(s, kind, host)) && s.next !in s.inodes
  {
    AddInodeOwners(s, kind, host);
    AddInodeFiles(s, kind, host);
    AddInodeBlocks(s, kind, host);
  }

  // ----- a block added to a file -----

  /** The blocks that adding a block to a file of n blocks takes. */
  function Needed(n: nat): nat {
    1 + Created(n)
  }

  /** There is room for one more block in file f and in the image. */
  predicate Room(s: Image, f: nat)
    requires f in s.inodes
  {
    s.inodes[f].links.nblks < LN_NBLKS && s.next + Needed(s.inodes[f].links.nblks) <= s.ninos
  }

  function AllTo(bs: set<nat>, o: Owner): map<nat, Owner> {
    map b | b in bs :: o
  }

  /** The image once file f has a further part, the next free block, and the block map m. */
  function Extended(s: Image, f: nat, data: Block, size: nat, m: Map, u: Update): Image
    requires f in s.inodes && f in s.uses
  {
    var ci, use, bs := s.inodes[f], s.uses[f], NewBlocks(s.inodes[f].links.nblks, s.next + 1);
    Image(s.ninos, u.next,
          s.inodes[f := ci.(size := ci.size + size, blocks := ci.blocks + 1, links := m)], u.st,
          s.disk[s.next := data], s.uses[f := Usage(use.parts + [s.next], use.index + bs)],
          s.owner[s.next := Part(f, |use.parts|)] + AllTo(bs, Index(f)), s.newest, s.stray)
  }

  /** append_block can be called for file f. */
  ghost predicate Appendable(s: Image, f: nat) {
    && f in s.inodes && f in s.uses && MapOk(s.inodes[f].links, s.store) && s.inodes[f].links.nblks < LN_NBLKS
    && s.next + 1 !in s.store && s.next + 2 !in s.store
  }

  /** sfs_alloc_ino, write_block and append_block: one block added to file f. */
  ghost function AddBlock(s: Image, f: nat, data: Block, size: nat): Image
    requires Appendable(s, f)
  {
    var r := Append(s.inodes[f].links, s.store, s.next + 1, s.next);
    Extended(s, f, data, size, r.0, r.1)
  }

  /** What append_block did to file f and to the cached blocks. */
  ghost predicate Grew(ci: Inode, st: Store, use: Usage, next: nat, b: nat, size: nat, m: Map, u: Update) {
    var bs := NewBlocks(ci.links.nblks, next);
    && FileOk(ci.(size := ci.size + size, blocks := ci.blocks + 1, links := m), u.st,
              Usage(use.parts + [b], use.index + bs))
    && u.next == next + Created(ci.links.nblks) && u.st.Keys == st.Keys + bs && !u.searched
    && (forall x :: x in st && x !in use.index ==> u.st[x] == st[x])
  }

  lemma {:induction false} AppendGrows(ci: Inode, st: Store, use: Usage, next: nat, b: nat, size: nat)
    requires FileOk(ci, st, use) && ci.links.nblks < LN_NBLKS
    requires next != 0 && next !in st && next + 1 !in st
    ensures var (m, u) := Append(ci.links, st, next, b); Grew(ci, st, use, next, b, size, m, u)
  {
    AppendHolds(ci.links, st, use.parts, next, b);
  }

  /** Another file: its index blocks did not change. */
  lemma {:induction false} OtherFile(ci: Inode, st: Store, use: Usage, st': Store)
    requires FileOk(ci, st, use) && forall x :: x in use.index ==> x in st && x in st' && st'[x] == st[x]
    ensures FileOk(ci, st', use)
  {
    HoldsElsewhere(ci.links, st, use.parts, st');
  }

  /** Two files share no index block. */
  lemma {:induction false} IndexApart(s: Image, f: nat, g: nat, x: nat)
    requires OwnersOk(s) && BlocksOk(s) && f in s.uses && g in s.uses && f != g && x in s.uses[g].index
    requires FirstFree(s.ninos) > BLKN_ROOT
    ensures x !in s.uses[f].index && x in s.store
  {
    assert UsedAs(s.uses, x, Index(g));
    assert x in s.uses[f].index <==> UsedAs(s.uses, x, Index(f));
  }

  lemma {:induction false} OtherFileOk(s: Image, f: nat, g: nat, st: Store)
    requires SizesOk(s) && OwnersOk(s) && BlocksOk(s) && f in s.uses && g in s.inodes && g in s.uses && f != g
    requires FileOk(s.inodes[g], s.store, s.uses[g]) && s.store.Keys <= st.Keys
    requires forall x :: x in s.store && x !in s.uses[f].index ==> st[x] == s.store[x]
    ensures FileOk(s.inodes[g], st, s.uses[g])
  {
    forall x | x in s.uses[g].index
      ensures x in s.store && x in st && st[x] == s.store[x]
    {
      IndexApart(s, f, g, x);
    }
    OtherFile(s.inodes[g], s.store, s.uses[g], st);
  }

  lemma {:induction false} OthersOk(s: Image, f: nat, st: Store)
    requires SizesOk(s) && OwnersOk(s) && BlocksOk(s) && FilesOk(s) && f in s.uses && s.store.Keys <= st.Keys
    requires forall x :: x in s.store && x !in s.uses[f].index ==> st[x] == s.store[x]
    ensures AllOk(s.inodes, st, s.uses, {f})
  {
    forall g | g in s.inodes && g in s.uses && g != f
      ensures FileOk(s.inodes[g], st, s.uses[g])
    {
      assert FileOk(s.inodes[g], s.store, s.uses[g]);
      OtherFileOk(s, f, g, st);
    }
  }

  lemma {:induction false} AllOkWith(inodes: map<nat, Inode>, st: Store, uses: map<nat, Usage>, f: nat, ci: Inode,
                                     use: Usage)
    requires AllOk(inodes, st, uses, {f}) && FileOk(ci, st, use)
    ensures AllOk(inodes[f := ci], st, uses[f := use], {})
  {
    var after, used := inodes[f := ci], uses[f := use];
    forall g | g in after && g in used
      ensures FileOk(after[g], st, used[g])
    {
      assert g in inodes && g in uses && g != f ==> FileOk(inodes[g], st, uses[g]);
    }
  }

  lemma {:induction false} ExtendedFiles(s: Image, f: nat, data: Block, size: nat, m: Map, u: Update)
    requires AllOk(s.inodes, u.st, s.uses, {f}) && f in s.inodes && f in s.uses
    requires Grew(s.inodes[f], s.store, s.uses[f], s.next + 1, s.next, size, m, u)
    ensures FilesOk(Extended(s, f, data, size, m, u))
  {
    var ci, use, bs := s.inodes[f], s.uses[f], NewBlocks(s.inodes[f].links.nblks, s.next + 1);
    AllOkWith(s.inodes, u.st, s.uses, f, ci.(size := ci.size + size, blocks := ci.blocks + 1, links := m),
              Usage(use.parts + [s.next], use.index + bs));
  }

  lemma {:induction false} UseBlock(uses: map<nat, Usage>, f: nat, x: nat, bs: set<nat>, b: nat, o: Owner)
    requires f in uses
    ensures UsedAs(uses[f := Usage(uses[f].parts + [x], uses[f].index + bs)], b, o)
            <==> UsedAs(uses, b, o) || (b == x && o == Part(f, |uses[f].parts|)) || (b in bs && o == Index(f))
  {
  }

  lemma {:induction false} BlocksNext(cached: set<nat>, disk: map<nat, Block>, owner: map<nat, Owner>, n: nat,
                                      data: Block, f: nat, k: nat, bs: set<nat>)
    requires BlocksOn(cached, disk, owner) && n !in owner && n !in bs && owner.Keys !! bs
    requires data.Data? || data.Entry?
    ensures BlocksOn(cached + bs, disk[n := data], owner[n := Part(f, k)] + AllTo(bs, Index(f)))
  {
  }

  lemma {:induction false} ExtendedBlocks(s: Image, f: nat, data: Block, size: nat, m: Map, u: Update)
    requires OwnersOk(s) && BlocksOk(s) && f in s.inodes && f in s.uses && (data.Data? || data.Entry?)
    requires u.st.Keys == s.store.Keys + NewBlocks(s.inodes[f].links.nblks, s.next + 1)
    ensures BlocksOk(Extended(s, f, data, size, m, u))
  {
    BlocksNext(s.store.Keys, s.disk, s.owner, s.next, data, f, |s.uses[f].parts|,
               NewBlocks(s.inodes[f].links.nblks, s.next + 1));
  }

  lemma {:induction false} OwnerNext(owner: map<nat, Owner>, n: nat, o: Owner, bs: set<nat>, p: Owner, b: nat)
    requires n !in owner && n !in bs && owner.Keys !! bs
    ensures var grown := owner[n := o] + AllTo(bs, p);
            && (b in grown <==> b in owner || b == n || b in bs)
            && (b in owner ==> grown[b] == owner[b]) && grown[n] == o && (b in bs ==> grown[b] == p)
  {
  }

  lemma {:induction false} ExtendedUses(s: Image, f: nat, data: Block, size: nat, m: Map, u: Update, b: nat, o: Owner)
    requires SizesOk(s) && OwnersOk(s) && f in s.inodes
    requires var t := Extended(s, f, data, size, m, u); UsedAs(t.uses, b, o)
    ensures var t := Extended(s, f, data, size, m, u);
            (b == BLKN_ROOT && o == Node) || (b in t.owner && t.owner[b] == o)
  {
    var bs, k := NewBlocks(s.inodes[f].links.nblks, s.next + 1), |s.uses[f].parts|;
    UseBlock(s.uses, f, s.next, bs, b, o);
    OwnerNext(s.owner, s.next, Part(f, k), bs, Index(f), b);
  }

  lemma {:induction false} ExtendedUsed(s: Image, f: nat, data: Block, size: nat, m: Map, u: Update, b: nat)
    requires SizesOk(s) && OwnersOk(s) && f in s.inodes && b in Extended(s, f, data, size, m, u).owner
    ensures var t := Extended(s, f, data, size, m, u); UsedAs(t.uses, b, t.owner[b])
  {
    var t := Extended(s, f, data, size, m, u);
    var bs, k := NewBlocks(s.inodes[f].links.nblks, s.next + 1), |s.uses[f].parts|;
    OwnerNext(s.owner, s.next, Part(f, k), bs, Index(f), b);
    UseBlock(s.uses, f, s.next, bs, b, t.owner[b]);
    assert b in s.owner ==> UsedAs(s.uses, b, s.owner[b]);
  }

  lemma {:induction false} ExtendedOwners(s: Image, f: nat, data: Block, size: nat, m: Map, u: Update)
    requires SizesOk(s) && OwnersOk(s) && f in s.inodes
    requires u.next == s.next + 1 + Created(s.inodes[f].links.nblks)
    ensures OwnersOk(Extended(s, f, data, size, m, u))
  {
    var t := Extended(s, f, data, size, m, u);
    forall b, o | UsedAs(t.uses, b, o)
      ensures (b == BLKN_ROOT && o == Node) || (b in t.owner && t.owner[b] == o)
    {
      ExtendedUses(s, f, data, size, m, u, b, o);
    }
    forall b | b in t.owner
      ensures UsedAs(t.uses, b, t.owner[b])
    {
      ExtendedUsed(s, f, data, size, m, u, b);
    }
  }

  lemma {:induction false} ExtendedGood(s: Image, f: nat, data: Block, size: nat, m: Map, u: Update)
    requires Good(s) && f in s.inodes && Room(s, f) && (data.Data? || data.Entry?)
    requires Grew(s.inodes[f], s.store, s.uses[f], s.next + 1, s.next, size, m, u)
    ensures Good(Extended(s, f, data, size, m, u))
  {
    OthersOk(s, f, u.st);
    ExtendedFiles(s, f, data, size, m, u);
    ExtendedOwners(s, f, data, size, m, u);
    ExtendedBlocks(s, f, data, size, m, u);
  }

  /** Adding a block keeps the invariant as long as there is room. */
  lemma {:induction false} AddBlockGood(s: Image, f: nat, data: Block, size: nat)
    requires Good(s) && Appendable(s, f) && Room(s, f) && (data.Data? || data.Entry?)
    ensures Good(AddBlock(s, f, data, size))
  {
    AppendGrows(s.inodes[f], s.store, s.uses[f], s.next + 1, s.next, size);
    var (m, u) := Append(s.inodes[f].links, s.store, s.next + 1, s.next);
    ExtendedGood(s, f, data, size, m, u);
  }

  function Longer(ci: Inode, size: nat, m: Map): Inode {
    ci.(size := ci.size + size, blocks := ci.blocks + 1, links := m)
  }

  /** append_block turned ci, st and next + 1 into ci', st' and next', for the block next. */
  ghost predicate AppendIs(ci: Inode, st: Store, next: nat, size: nat, ci': Inode, st': Store, next': nat) {
    && MapOk(ci.links, st) && ci.links.nblks < LN_NBLKS && next + 1 !in st && next + 2 !in st
    && var r := Append(ci.links, st, next + 1, next);
       ci' == Longer(ci, size, r.0) && st' == r.1.st && next' == r.1.next
  }

  /** AppendIs, in a form that is only unfolded where AppendIs is mentioned. */
  ghost predicate Appending(ci: Inode, st: Store, next: nat, size: nat, ci': Inode, st': Store, next': nat) {
    forall b {:trigger AppendIs(ci, st, b, size, ci', st', next')} :: b == next ==>
      AppendIs(ci, st, b, size, ci', st', next')
  }

  /** A block has been taken, written and appended to file f, and its owner noted. */
  ghost predicate PartPut(s: Image, t: Image, f: nat, data: Block, size: nat) {
    && f in s.inodes && f in s.uses && f in t.inodes && t.inodes == s.inodes[f := t.inodes[f]]
    && Appending(s.inodes[f], s.store, s.next, size, t.inodes[f], t.store, t.next)
    && t.disk == s.disk[s.next := data]
    && (var bs, use := NewBlocks(s.inodes[f].links.nblks, s.next + 1), s.uses[f];
        && t.uses == s.uses[f := Usage(use.parts + [s.next], use.index + bs)]
        && t.owner == s.owner[s.next := Part(f, |use.parts|)] + AllTo(bs, Index(f)))
    && t.ninos == s.ninos && t.newest == s.newest && t.stray == s.stray
  }

  lemma {:induction false} PutExtends(s: Image, t: Image, f: nat, data: Block, size: nat, m: Map, u: Update)
    requires PartPut(s, t, f, data, size)
    requires t.inodes[f] == Longer(s.inodes[f], size, m) && t.store == u.st && t.next == u.next
    ensures t == Extended(s, f, data, size, m, u)
  {
  }

  lemma {:induction false} PutAdds(s: Image, t: Image, f: nat, data: Block, size: nat)
    requires Appendable(s, f) && PartPut(s, t, f, data, size)
    ensures t == AddBlock(s, f, data, size)
  {
    assert AppendIs(s.inodes[f], s.store, s.next, size, t.inodes[f], t.store, t.next);
    var r := Append(s.inodes[f].links, s.store, s.next + 1, s.next);
    PutExtends(s, t, f, data, size, r.0, r.1);
  }

  /** t is s with one block more, the last of file f, which holds the data. */
  ghost predicate OneBlockMore(s: Image, t: Image, f: nat, data: Block, size: nat) {
    && f in s.inodes && f in s.uses && f in t.inodes && s.next !in s.disk
    && t.ninos == s.ninos && t.next == s.next + Needed(s.inodes[f].links.nblks)
    && t.disk == s.disk[s.next := data]
    && t.uses == s.uses[f := Usage(s.uses[f].parts + [s.next],
                                   s.uses[f].index + NewBlocks(s.inodes[f].links.nblks, s.next + 1))]
    && t.inodes == s.inodes[f := Longer(s.inodes[f], size, t.inodes[f].links)]
    && t.newest == s.newest && t.stray == s.stray
  }

  lemma {:induction false} AddBlockChanges(s: Image, f: nat, data: Block, size: nat)
    requires Appendable(s, f) && s.next !in s.disk
    ensures OneBlockMore(s, AddBlock(s, f, data, size), f, data, size)
  {
    var r := Append(s.inodes[f].links, s.store, s.next + 1, s.next);
    var t := Extended(s, f, data, size, r.0, r.1);
  }

  // ----- link counts -----

  /** The directory entries that name inode g. */
  ghost function Naming(disk: map<nat, Block>, g: nat): set<nat> {
    set b | b in disk && disk[b].Entry? && disk[b].target == g
  }

  /** Every link count is the number of entries that name the inode, to the width of the field. */
  ghost predicate CountsOk(inodes: map<nat, Inode>, disk: map<nat, Block>) {
    && (forall g {:trigger Naming(disk, g)} :: g in inodes ==> inodes[g].nlinks == |Naming(disk, g)| % NLINKS_LIMIT)
    && (forall b :: b in disk && disk[b].Entry? ==> disk[b].target in inodes)
  }

  ghost predicate LinksOk(s: Image) {
    CountsOk(s.inodes, s.disk)
  }

  lemma {:induction false} CountFits(s: Image, f: nat)
    requires LinksOk(s) && f in s.inodes
    ensures s.inodes[f].nlinks < NLINKS_LIMIT
  {
    assert s.inodes[f].nlinks == |Naming(s.disk, f)| % NLINKS_LIMIT;
  }

  function Linked(ci: Inode): Inode {
    ci.(nlinks := (ci.nlinks + 1) % NLINKS_LIMIT)
  }

  /** add_entry: t is s with one block more in directory f, which names file g. */
  ghost predicate OneEntryMore(s: Image, t: Image, f: nat, g: nat, name: string) {
    && f in s.inodes && f in t.inodes && g in s.inodes
    && var grown := s.inodes[f := Longer(s.inodes[f], ENTRY_SIZE, t.inodes[f].links)];
      OneBlockMore(s, t.(inodes := grown), f, Entry(g, name), ENTRY_SIZE) && t.inodes == grown[g := Linked(grown[g])]
  }

  function Relinked(s: Image, g: nat): Image
    requires g in s.inodes
  {
    s.(inodes := s.inodes[g := Linked(s.inodes[g])])
  }

  lemma {:induction false} RelinkedEntry(s: Image, m: Image, f: nat, g: nat, name: string)
    requires OneBlockMore(s, m, f, Entry(g, name), ENTRY_SIZE) && g in s.inodes
    ensures g in m.inodes && OneEntryMore(s, Relinked(m, g), f, g, name)
  {
    var t := Relinked(m, g);
    assert m == t.(inodes := s.inodes[f := Longer(s.inodes[f], ENTRY_SIZE, t.inodes[f].links)]);
  }

  lemma {:induction false} RelinkGood(s: Image, g: nat)
    requires Good(s) && g in s.inodes
    ensures Good(Relinked(s, g))
  {
    var t := Relinked(s, g);
    forall f | f in t.inodes && f in t.uses
      ensures FileOk(t.inodes[f], t.store, t.uses[f])
    {
      assert FileOk(s.inodes[f], s.store, s.uses[f]);
    }
  }

  /** The image once the name of a regular file has been found to lead to something else. */
  function Strayed(s: Image): Image {
    s.(stray := true)
  }

  lemma {:induction false} StrayedGood(s: Image)
    requires Good(s) && LinksOk(s)
    ensures Good(Strayed(s)) && LinksOk(Strayed(s))
  {
    var t := Strayed(s);
    forall f | f in t.inodes && f in t.uses
      ensures FileOk(t.inodes[f], t.store, t.uses[f])
    {
      assert FileOk(s.inodes[f], s.store, s.uses[f]);
    }
  }

  lemma {:induction false} NamingNext(disk: map<nat, Block>, b: nat, data: Block, g: nat)
    requires b !in disk
    ensures Naming(disk[b := data], g) == Naming(disk, g) + (if data.Entry? && data.target == g then {b} else {})
    ensures b !in Naming(disk, g)
  {
  }

  lemma {:induction false} CountWraps(n: nat)
    ensures (n % NLINKS_LIMIT + 1) % NLINKS_LIMIT == (n + 1) % NLINKS_LIMIT
  {
  }

  lemma {:induction false} AddInodeLinks(s: Image, kind: Kind, host: nat)
    requires Good(s) && LinksOk(s)
    ensures LinksOk(AddInode(s, kind, host))
  {
    NextUnwritten(s);
    assert Naming(s.disk, s.next) == {};
  }

  /** Writing block b adds one to the count of the inode it names, if it names one. */
  lemma {:induction false} NamingCount(disk: map<nat, Block>, b: nat, data: Block, g: nat)
    requires b !in disk
    ensures |Naming(disk[b := data], g)| % NLINKS_LIMIT
            == if data.Entry? && data.target == g then (|Naming(disk, g)| % NLINKS_LIMIT + 1) % NLINKS_LIMIT
               else |Naming(disk, g)| % NLINKS_LIMIT
  {
    NamingNext(disk, b, data, g);
    CountWraps(|Naming(disk, g)|);
  }

  lemma {:induction false} DataCounts(inodes: map<nat, Inode>, disk: map<nat, Block>, f: nat, ci: Inode, b: nat,
                                      data: Block)
    requires CountsOk(inodes, disk) && f in inodes && ci.nlinks == inodes[f].nlinks && b !in disk && !data.Entry?
    ensures CountsOk(inodes[f := ci], disk[b := data])
  {
    forall g | g in inodes
      ensures |Naming(disk[b := data], g)| % NLINKS_LIMIT == inodes[g].nlinks
    {
      NamingCount(disk, b, data, g);
    }
  }

  lemma {:induction false} EntryCounts(inodes: map<nat, Inode>, disk: map<nat, Block>, f: nat, ci: Inode, b: nat,
                                       g: nat, name: string)
    requires CountsOk(inodes, disk) && f in inodes && ci.nlinks == inodes[f].nlinks && b !in disk && g in inodes
    ensures var grown := inodes[f := ci];
            CountsOk(grown[g := Linked(grown[g])], disk[b := Entry(g, name)])
  {
    forall h | h in inodes
      ensures |Naming(disk[b := Entry(g, name)], h)| % NLINKS_LIMIT
              == if h == g then (inodes[h].nlinks + 1) % NLINKS_LIMIT else inodes[h].nlinks
    {
      NamingCount(disk, b, Entry(g, name), h);
    }
  }

  /** The block about to be taken has not been written. */
  lemma {:induction false} NextUnwritten(s: Image)
    requires Good(s)
    ensures s.next !in s.disk && s.next !in s.inodes && s.next !in s.store
  {
    assert UsedAs(s.uses, s.next, Node) <==> s.next in s.uses;
  }

  lemma {:induction false} DataLinks(s: Image, t: Image, f: nat, bytes: seq<bv8>, size: nat)
    requires LinksOk(s) && OneBlockMore(s, t, f, Data(bytes), size)
    ensures LinksOk(t)
  {
    DataCounts(s.inodes, s.disk, f, t.inodes[f], s.next, Data(bytes));
  }

  /** add_entry counts the entry it writes. */
  lemma {:induction false} EntryLinks(s: Image, t: Image, f: nat, g: nat, name: string)
    requires LinksOk(s) && OneEntryMore(s, t, f, g, name)
    ensures LinksOk(t)
  {
    EntryCounts(s.inodes, s.disk, f, Longer(s.inodes[f], ENTRY_SIZE, t.inodes[f].links), s.next, g, name);
  }
}
