/** The SFS image builder: block and inode caches, append_block, add_entry and the walk over the host tree. */
module SfsBuilder {
  import opened Options
  import opened SfsFile
  import opened SfsImage
  import opened SfsSource
  import opened SfsTree
  import opened SfsNeeds
  import opened SfsWalk
  import opened SfsDisk

  const HASH_LIST_SIZE: nat := 1024

  /** hash32, and hash64, which drops the upper half of its argument. */
  function Hash32(v: nat): (h: nat)
    ensures h < HASH_LIST_SIZE
  {
    v * 0x9e370001 % 0x1_0000_0000 / 0x40_0000
  }

  /** Every cached index block is in the first chain, because alloc_cache_block hashes the number it is given
      and is given 0. */
  ghost predicate ChainsOk(chains: seq<seq<nat>>, st: Store) {
    && |chains| == HASH_LIST_SIZE
    && (forall b {:trigger b in chains[0]} :: b in chains[0] <==> b in st)
    && (forall h :: 0 < h < HASH_LIST_SIZE ==> chains[h] == [])
  }

  /** The first inode of a chain that was made for host number n. */
  function Search(chain: seq<nat>, inodes: map<nat, Inode>, n: nat): Option<nat>
    requires forall k :: 0 <= k < |chain| ==> chain[k] in inodes
  {
    if chain == [] then None else if inodes[chain[0]].host == n then Some(chain[0]) else Search(chain[1..], inodes, n)
  }

  function Newest(m: map<nat, nat>, n: nat): Option<nat> {
    if n in m then Some(m[n]) else None
  }

  /** Every cached inode is in the chain of its host number, the newest of a number first, and the chains hold
      nothing else. */
  ghost predicate NodesOk(nodes: seq<seq<nat>>, inodes: map<nat, Inode>, newest: map<nat, nat>) {
    && |nodes| == HASH_LIST_SIZE
    && (forall f {:trigger inodes[f].host} :: f in inodes ==> f in nodes[Hash32(inodes[f].host)])
    && (forall h, k :: 0 <= h < HASH_LIST_SIZE && 0 <= k < |nodes[h]| ==> nodes[h][k] in inodes)
    && (forall n: nat {:trigger Newest(newest, n)} :: Search(nodes[Hash32(n)], inodes, n) == Newest(newest, n))
  }

  lemma {:induction false} SearchKept(chain: seq<nat>, a: map<nat, Inode>, b: map<nat, Inode>, n: nat)
    requires forall k :: 0 <= k < |chain| ==> chain[k] in a && chain[k] in b && a[chain[k]].host == b[chain[k]].host
    ensures Search(chain, a, n) == Search(chain, b, n)
  {
    if chain != [] {
      SearchKept(chain[1..], a, b, n);
    }
  }

  lemma {:induction false} NodesKept(nodes: seq<seq<nat>>, a: map<nat, Inode>, b: map<nat, Inode>,
                                     newest: map<nat, nat>)
    requires NodesOk(nodes, a, newest) && a.Keys == b.Keys && forall f :: f in a ==> a[f].host == b[f].host
    ensures NodesOk(nodes, b, newest)
  {
    forall n: nat
      ensures Search(nodes[Hash32(n)], b, n) == Newest(newest, n)
    {
      SearchKept(nodes[Hash32(n)], a, b, n);
    }
  }

  class Builder {
    const ninos: nat
    var next: nat
    var unused: nat                    // super.unused_blocks
    var inodes: map<nat, Inode>
    var nodes: seq<seq<nat>>           // the chains of cached inodes
    var store: Store
    var chains: seq<seq<nat>>          // the chains of cached blocks
    var disk: map<nat, Block>
    ghost var uses: map<nat, Usage>
    ghost var owner: map<nat, Owner>
    ghost var newest: map<nat, nat>    // the last inode made for each host number
    ghost var stray: bool              // the name of a regular file leads to something else

    ghost function State(): Image
      reads this
    {
      Image(ninos, next, inodes, store, disk, uses, owner, newest, stray)
    }

    /** unused_blocks is the number of blocks not yet taken. */
    ghost predicate Counted()
      reads this
    {
      next <= ninos && unused == ninos - next
    }

    ghost predicate Valid()
      reads this
    {
      Sound() && LinksInOrder()
    }

    /** Good(State()), in a form that is only unfolded where Good is mentioned. */
    ghost predicate InOrder()
      reads this
    {
      forall s {:trigger Good(s)} :: s == State() ==> Good(s)
    }

    /** LinksOk(State()), likewise. */
    ghost predicate LinksInOrder()
      reads this
    {
      forall s {:trigger LinksOk(s)} :: s == State() ==> LinksOk(s)
    }

    /** The length of a file is the number of its parts. */
    lemma PartsHere(f: nat)
      requires Sound() && f in inodes
      ensures f in uses && inodes[f].links.nblks == |uses[f].parts| <= LN_NBLKS
      ensures Room(State(), f) <==> |uses[f].parts| < LN_NBLKS && next + Needed(|uses[f].parts|) <= ninos
    {
      PartsCount(State(), f);
    }

    method AllocIno() returns (out: Outcome, b: nat)
      requires Counted()
      modifies this`next, this`unused
      ensures Counted() && (out == if old(next) < ninos then Done else NoSpace)
      ensures next == if out == Done then old(next) + 1 else old(next)
      ensures b == old(next)
    {
      b := next;
      if next >= ninos {
        return NoSpace, b;
      }
      unused := unused - 1;
      next := next + 1;
      out := Done;
    }

    method AllocCacheBlock(ino: nat) returns (out: Outcome, b: nat)
      requires Counted() && |chains| == HASH_LIST_SIZE
      modifies this`next, this`unused, this`store, this`chains
      ensures Counted() && (out == if ino != 0 || old(next) < ninos then Done else NoSpace)
      ensures next == if out == Done && ino == 0 then old(next) + 1 else old(next)
      ensures out == Done ==>
                && b == (if ino != 0 then ino else old(next)) && store == old(store)[b := Zeros()]
                && chains == old(chains)[Hash32(ino) := [b] + old(chains)[Hash32(ino)]]
      ensures out != Done ==> store == old(store) && chains == old(chains)
    {
      out, b := Done, ino;
      if ino == 0 {
        out, b := AllocIno();
        if out != Done {
          return;
        }
      }
      store := store[b := Zeros()];
      chains := chains[Hash32(ino) := [b] + chains[Hash32(ino)]];
    }

    /** A cached block is found only if its number happens to hash to the first chain. */
    method SearchCacheBlock(ino: nat) returns (r: Option<nat>)
      requires ChainsOk(chains, store)
      ensures r == if ino in store && Hash32(ino) == 0 then Some(ino) else None
    {
      var chain := chains[Hash32(ino)];
      var k := 0;
      while k < |chain| && chain[k] != ino
        invariant k <= |chain| && ino !in chain[..k]
      {
        k := k + 1;
      }
      if k < |chain| {
        assert ino in chain;
        r := Some(ino);
      } else {
        assert chain[..k] == chain;
        r := None;
      }
    }

    /** The search branch ends the program unless it finds the block. */
    method UpdateCache(cb: nat, ino: nat) returns (out: Outcome, b: nat)
      requires Counted() && ChainsOk(chains, store)
      modifies this`next, this`unused, this`store, this`chains
      ensures Counted() && ChainsOk(chains, store)
      ensures out == if ino == 0 then if old(next) < ninos then Done else NoSpace
                     else if cb == ino || (ino in old(store) && Hash32(ino) == 0) then Done else Asserted
      ensures out == Done ==>
                SfsFile.UpdateCache(old(store), old(next), cb, ino) == Update(store, next, b, ino != 0 && cb != ino)
      ensures out != Done ==> next == old(next) && store == old(store)
    {
      out, b := Done, cb;
      if ino == 0 {
        out, b := AllocCacheBlock(0);
      } else if cb != ino {
        var r := SearchCacheBlock(ino);
        out := if r.Some? then Done else Asserted;
        b := ino;
      }
    }

    /** append_block for a block of the indirect part. */
    method AppendSingle(m: Map, b: nat) returns (out: Outcome, m': Map)
      requires Counted() && ChainsOk(chains, store) && MapOk(m, store) && NDIRECT <= m.nblks < L1_NBLKS
      requires next != 0 && next !in store && next + 1 !in store
      modifies this`next, this`unused, this`store, this`chains
      ensures Counted() && ChainsOk(chains, store)
      ensures out == if old(next) + Created(m.nblks) <= ninos then Done else NoSpace
      ensures out == NoSpace ==> next >= ninos && m' == m
      ensures out == Done ==> var r := Append(m, old(store), old(next), b);
                              m' == r.0 && store == r.1.st && next == r.1.next
    {
      m' := m;
      var n := m.nblks - NDIRECT;
      var index;
      out, index := UpdateCache(m.l1, m.indirect);
      if out != Done {
        return;
      }
      var block: seq<nat> := store[index][n := b];
      store := store[index := block];
      m' := m.(indirect := index, l1 := index, nblks := m.nblks + 1);
    }

    /** append_block for a block of the doubly indirect part. */
    method AppendDouble(m: Map, b: nat) returns (out: Outcome, m': Map)
      requires Counted() && ChainsOk(chains, store) && MapOk(m, store) && L1_NBLKS <= m.nblks < LN_NBLKS
      requires next != 0 && next !in store && next + 1 !in store
      modifies this`next, this`unused, this`store, this`chains
      ensures Counted() && ChainsOk(chains, store)
      ensures out == if old(next) + Created(m.nblks) <= ninos then Done else NoSpace
      ensures out == NoSpace ==> next >= ninos && m' == m
      ensures out == Done ==> var r := Append(m, old(store), old(next), b);
                              m' == r.0 && store == r.1.st && next == r.1.next
    {
      m' := m;
      var n := m.nblks - L1_NBLKS;
      LeavesNext(m.nblks);
      var top, leaf;
      out, top := UpdateCache(m.l2, m.dbIndirect);
      if out != Done {
        return;
      }
      out, leaf := UpdateCache(m.l1, store[top][n / NENTRY]);
      if out != Done {
        return;
      }
      var entries: seq<nat> := store[top][n / NENTRY := leaf];
      var block: seq<nat> := store[leaf][n % NENTRY := b];
      store := store[top := entries][leaf := block];
      m' := m.(dbIndirect := top, l2 := top, l1 := leaf, nblks := m.nblks + 1);
    }

    method AppendBlock(f: nat, size: nat, b: nat) returns (out: Outcome)
      requires Counted() && ChainsOk(chains, store) && f in inodes && MapOk(inodes[f].links, store)
      requires next != 0 && next !in store && next + 1 !in store
      modifies this`next, this`unused, this`store, this`chains, this`inodes
      ensures Counted() && ChainsOk(chains, store)
      ensures var n := old(inodes)[f].links.nblks;
              out == if n >= LN_NBLKS then TooBig else if old(next) + Created(n) <= ninos then Done else NoSpace
      ensures out == NoSpace ==> next >= ninos
      ensures out == Done ==> var ci := old(inodes)[f]; var r := Append(ci.links, old(store), old(next), b);
                && store == r.1.st && next == r.1.next
                && inodes == old(inodes)[f := ci.(size := ci.size + size, blocks := ci.blocks + 1, links := r.0)]
      ensures out != Done ==> inodes == old(inodes)
    {
      out := Done;
      var ci := inodes[f];
      var m, n := ci.links, ci.links.nblks;
      if n >= LN_NBLKS {
        return TooBig;
      }
      if n < NDIRECT {
        m := m.(direct := m.direct[n := b], nblks := n + 1);
      } else if n < L1_NBLKS {
        out, m := AppendSingle(m, b);
      } else {
        out, m := AppendDouble(m, b);
      }
      if out == Done {
        inodes := inodes[f := ci.(size := ci.size + size, blocks := ci.blocks + 1, links := m)];
      }
    }

    method WriteBlock(data: Block, b: nat)
      requires b < ninos
      modifies this`disk
      ensures disk == old(disk)[b := data]
    {
      disk := disk[b := data];
    }

    ghost predicate Sound()
      reads this
    {
      Counted() && ChainsOk(chains, store) && NodesOk(nodes, inodes, newest) && InOrder()
    }

    /** A block taken, written and appended to file f. */
    method PutPart(f: nat, data: Block, size: nat) returns (out: Outcome)
      requires Counted() && ChainsOk(chains, store) && f in inodes && MapOk(inodes[f].links, store)
      requires next + 1 !in store && next + 2 !in store
      modifies this`next, this`unused, this`store, this`chains, this`inodes, this`disk
      ensures Counted() && ChainsOk(chains, store)
      ensures var n := old(inodes)[f].links.nblks;
              out == if old(next) >= ninos then NoSpace else if n >= LN_NBLKS then TooBig
                     else if old(next) + Needed(n) <= ninos then Done else NoSpace
      ensures out == NoSpace ==> next >= ninos
      ensures out != Done ==> inodes == old(inodes)
      ensures out == Done ==>
                && f in inodes && inodes == old(inodes)[f := inodes[f]] && disk == old(disk)[old(next) := data]
                && Appending(old(inodes)[f], old(store), old(next), size, inodes[f], store, next)
    {
      var b;
      out, b := AllocIno();
      if out != Done {
        return;
      }
      WriteBlock(data, b);
      out := AppendBlock(f, size, b);
    }

    /** The same, and the block's owner is noted first. */
    method OwnPart(f: nat, data: Block, size: nat) returns (out: Outcome)
      requires Counted() && ChainsOk(chains, store) && f in inodes && MapOk(inodes[f].links, store)
      requires next + 1 !in store && next + 2 !in store && f in uses
      modifies this`next, this`unused, this`store, this`chains, this`inodes, this`disk, this`uses, this`owner
      ensures Counted() && ChainsOk(chains, store)
      ensures out == Done <==> Room(old(State()), f)
      ensures out == NoSpace ==> next >= ninos
      ensures out == TooBig ==> f in inodes && inodes[f].links.nblks >= LN_NBLKS
      ensures out == Done || out == NoSpace || out == TooBig
      ensures out == Done ==> Appendable(old(State()), f) && PartPut(old(State()), State(), f, data, size)
    {
      NotePart(f);
      out := PutPart(f, data, size);
    }

    ghost method NotePart(f: nat)
      requires f in uses && f in inodes
      modifies this`uses, this`owner
      ensures var bs, use := NewBlocks(inodes[f].links.nblks, next + 1), old(uses)[f];
              && uses == old(uses)[f := Usage(use.parts + [next], use.index + bs)]
              && owner == old(owner)[next := Part(f, |use.parts|)] + AllTo(bs, Index(f))
    {
      var bs, use := NewBlocks(inodes[f].links.nblks, next + 1), uses[f];
      uses := uses[f := Usage(use.parts + [next], use.index + bs)];
      owner := owner[next := Part(f, |use.parts|)] + AllTo(bs, Index(f));
    }

    /** A block of data taken, written and appended to file f, as add_entry, open_file and open_link do. */
    method AddPart(f: nat, data: Block, size: nat) returns (out: Outcome)
      requires Sound() && f in inodes && (data.Data? || data.Entry?)
      modifies this`next, this`unused, this`store, this`chains, this`inodes, this`disk, this`uses, this`owner
      ensures out == Done <==> Room(old(State()), f)
      ensures out == NoSpace ==> next >= ninos
      ensures out == TooBig ==> f in inodes && inodes[f].links.nblks >= LN_NBLKS
      ensures out == Done || out == NoSpace || out == TooBig
      ensures out == Done ==> Sound() && OneBlockMore(old(State()), State(), f, data, size)
    {
      ghost var s := State();
      GoodApart(s, f);
      out := OwnPart(f, data, size);
      if out == Done {
        PartSound(s, State(), f, data, size, nodes);
      }
    }

    /** add_entry. */
    method AddEntry(dir: nat, f: nat, name: string) returns (out: Outcome)
      requires Valid() && dir in inodes && f in inodes && inodes[dir].kind.TypeDir? && |name| <= MAX_FNAME_LEN
      modifies this`next, this`unused, this`store, this`chains, this`inodes, this`disk, this`uses, this`owner
      ensures out == Done <==> Room(old(State()), dir)
      ensures out == NoSpace ==> next >= ninos
      ensures out == TooBig ==> dir in inodes && inodes[dir].links.nblks >= LN_NBLKS
      ensures out == Done || out == NoSpace || out == TooBig
      ensures out == Done ==> Valid() && Named(old(State()), State(), dir, f, Written(name))
      ensures out == Done ==>
                NameAt(State(), dir, |old(uses)[dir].parts|, if |name| <= 252 then name else name[..252])
    {
      ghost var s := State();
      out := AddPart(dir, Entry(f, Written(name)), ENTRY_SIZE);
      if out == Done {
        EntryLinked(s, State(), dir, f, Written(name));
        CountLink(f);
      }
    }

    method CountLink(f: nat)
      requires Sound() && f in inodes
      modifies this`inodes
      ensures Sound() && State() == Relinked(old(State()), f)
    {
      RelinkGood(State(), f);
      NodesKept(nodes, inodes, inodes[f := Linked(inodes[f])], newest);
      inodes := inodes[f := Linked(inodes[f])];
    }

    /** The inode cached for a host number, which is the last one made. */
    method SearchCacheInode(n: nat) returns (r: Option<nat>)
      requires NodesOk(nodes, inodes, newest)
      ensures r == Newest(newest, n)
    {
      var chain := nodes[Hash32(n)];
      var k := 0;
      while k < |chain| && inodes[chain[k]].host != n
        invariant k <= |chain| && Search(chain[k..], inodes, n) == Newest(newest, n)
      {
        k := k + 1;
      }
      r := if k < |chain| then Some(chain[k]) else None;
    }

    method AllocCacheInode(n: nat, ino: nat, kind: Kind) returns (out: Outcome, f: nat)
      requires Counted() && |nodes| == HASH_LIST_SIZE
      modifies this`next, this`unused, this`inodes, this`nodes, this`uses, this`owner, this`newest
      ensures Counted() && (out == if ino != 0 || old(next) < ninos then Done else NoSpace)
      ensures out == NoSpace ==> next >= ninos
      ensures f == if ino != 0 then ino else old(next)
      ensures out == Done ==> nodes == old(nodes)[Hash32(n) := [f] + old(nodes)[Hash32(n)]]
      ensures out == Done && ino == 0 ==> State() == AddInode(old(State()), kind, n)
      ensures out == Done && ino != 0 ==>
                && next == old(next) && inodes == old(inodes)[f := NewInode(kind, n)]
                && uses == old(uses)[f := Usage([], {})] && owner == old(owner)
                && newest == old(newest)[n := f]
    {
      out, f := Done, ino;
      if ino == 0 {
        out, f := AllocIno();
        if out != Done {
          return;
        }
        owner := owner[f := Node];
      }
      inodes := inodes[f := NewInode(kind, n)];
      uses := uses[f := Usage([], {})];
      newest := newest[n := f];
      nodes := nodes[Hash32(n) := [f] + nodes[Hash32(n)]];
    }

    /** A cached inode for a host file that takes a block of its own. */
    method NewNode(n: nat, kind: Kind) returns (out: Outcome, f: nat)
      requires Valid()
      modifies this`next, this`unused, this`inodes, this`nodes, this`uses, this`owner, this`newest
      ensures out == if old(next) < ninos then Done else NoSpace
      ensures out == NoSpace ==> next >= ninos
      ensures out == Done ==> Valid() && Started(old(State()), State(), f, kind, n)
    {
      if next < ninos {
        NodeSound(State(), kind, n, nodes);
      }
      out, f := AllocCacheInode(n, 0, kind);
    }

    /** Why an operation on the image alone fails. */
    ghost predicate Stuck(out: Outcome)
      reads this
    {
      || (out == NoSpace && next >= ninos)
      || (out == TooBig && exists f :: f in inodes && inodes[f].links.nblks >= LN_NBLKS)
    }

    /** A part that is not an entry leaves the link counts alone. */
    method AddData(f: nat, bytes: seq<bv8>, size: nat) returns (out: Outcome)
      requires Valid() && f in inodes
      modifies this`next, this`unused, this`store, this`chains, this`inodes, this`disk, this`uses, this`owner
      ensures out == Done <==> Room(old(State()), f)
      ensures out == Done ==> Valid() && OneBlockMore(old(State()), State(), f, Data(bytes), size)
      ensures out != Done ==> Stuck(out)
    {
      ghost var s := State();
      out := AddPart(f, Data(bytes), size);
      if out == Done {
        DataLinks(s, State(), f, bytes, size);
      }
    }

    /** One turn of open_file's loop: the next piece of the host file is read and appended. */
    method ReadBlock(ghost s0: Image, f: nat, bytes: seq<bv8>, off: nat, ghost log: Log)
      returns (out: Outcome, off': nat)
      requires Valid() && Reading(s0, State(), f, bytes, off) && off < |bytes| && f in inodes
      requires Faithful(State(), log, {f})
      modifies this`next, this`unused, this`store, this`chains, this`inodes, this`disk, this`uses, this`owner
      ensures off < off' <= |bytes|
      ensures out == Done ==> Valid() && Reading(s0, State(), f, bytes, off') && f in inodes
      ensures out == Done ==> Faithful(State(), log, {f})
      ensures out == Done <==> Room(old(State()), f)
      ensures out != Done ==> Stuck(out)
    {
      ghost var s := State();
      PartsHere(f);
      off' := Min(off + BLKSIZE, |bytes|);
      out := AddData(f, bytes[off..off'], off' - off);
      if out == Done {
        ReadingNext(s0, s, State(), f, bytes, off, off');
        ReadingFaithful(s, State(), f, log, Data(bytes[off..off']), off' - off);
      }
    }

    method OpenFile(f: nat, bytes: seq<bv8>, ghost log: Log) returns (out: Outcome)
      requires Valid() && Faithful(State(), log, {f}) && StandsFor(State(), log, f, FoundFile(bytes))
      requires f in uses && uses[f].parts == [] && inodes[f].size == 0
      modifies this`next, this`unused, this`store, this`chains, this`inodes, this`disk, this`uses, this`owner
      ensures out == Done <==> FileFits(old(State()), bytes)
      ensures out == Done ==> Valid() && Kept(old(State()), State(), {f}, {}) && Faithful(State(), log, {})
      ensures out == Done ==> next == old(next) + Full(Pieces(bytes)) && inodes.Keys == old(inodes.Keys)
      ensures out != Done ==> Stuck(out)
    {
      ghost var s := State();
      ReadingStarts(s, f, bytes);
      var off := 0;
      out := Done;
      while off < |bytes|
        invariant off <= |bytes| && out == Done && f in inodes && Faithful(State(), log, {f})
        invariant Valid() && Reading(s, State(), f, bytes, off)
      {
        if !Room(State(), f) {
          ReadingFails(s, State(), f, bytes, off);
        }
        out, off := ReadBlock(s, f, bytes, off, log);
        if out != Done {
          return;
        }
      }
      ReadingEnds(s, State(), log, f, bytes);
    }

    /** open_link: the name of the link's target, which must leave room in one block. */
    method OpenLink(f: nat, target: seq<bv8>, ghost log: Log) returns (out: Outcome)
      requires Valid() && Faithful(State(), log, {f}) && StandsFor(State(), log, f, FoundLink)
      requires f in uses && uses[f].parts == [] && inodes[f].size == 0 && inodes[f].kind.TypeLink?
      modifies this`next, this`unused, this`store, this`chains, this`inodes, this`disk, this`uses, this`owner
      ensures out == Done ==> Valid() && Kept(old(State()), State(), {f}, {}) && Faithful(State(), log, {})
      ensures out == Done ==> LinkHolds(State(), f, target)
      ensures out == Done ==> next == old(next) + Full(1) && inodes.Keys == old(inodes.Keys)
      ensures out == Done <==> |target| < BLKSIZE && old(next) + Full(1) <= ninos
      ensures out == LongLink ==> |target| >= BLKSIZE && inodes == old(inodes)
      ensures out != Done && out != LongLink ==> Stuck(out)
    {
      ghost var s := State();
      PartsHere(f);
      assert Full(1) == Needed(0);
      if next < ninos && |target| >= BLKSIZE {
        return LongLink;
      }
      out := AddData(f, target, Min(|target|, BLKSIZE));
      if out == Done {
        LinkStep(s, State(), f, log, target);
      }
    }

    /** The same, when a regular file or directory has no inode of its number. */
    method StartNode(n: nat, what: Found, kind: Kind, ghost log: Log) returns (out: Outcome, f: nat)
      requires Valid() && Faithful(State(), log, {}) && kind == KindOf(what) && (what.FoundLink? || n !in log.found)
      modifies this`next, this`unused, this`inodes, this`nodes, this`uses, this`owner, this`newest
      ensures out == if old(next) < ninos then Done else NoSpace
      ensures out != Done ==> Stuck(out)
      ensures out == Done ==> Valid() && Started(old(State()), State(), f, kind, n)
      ensures out == Done ==> Faithful(State(), Note(log, Visit(n, what)), {f})
    {
      ghost var s := State();
      out, f := NewNode(n, kind);
      if out == Done {
        FaithfulStart(s, State(), f, n, what, log);
      }
    }

    /** A regular file's inode, made and filled. */
    method MakeFile(n: nat, bytes: seq<bv8>, ghost log: Log) returns (out: Outcome, f: nat)
      requires Valid() && Faithful(State(), log, {}) && n !in log.found
      modifies this
      ensures out == Done ==> Valid() && Faithful(State(), After(RegularFile(n, bytes), log), {})
      ensures out == Done ==> Kept(old(State()), State(), {}, {}) && newest == old(newest)[n := f]
      ensures out == Done <==> Pieces(bytes) <= LN_NBLKS && old(next) + 1 + Full(Pieces(bytes)) <= ninos
      ensures out == Done ==> next == old(next) + 1 + Full(Pieces(bytes))
      ensures out != Done ==> Stuck(out)
    {
      ghost var s := State();
      out, f := StartNode(n, FoundFile(bytes), TypeFile, log);
      if out != Done {
        return;
      }
      ghost var m := State();
      out := OpenFile(f, bytes, Note(log, Visit(n, FoundFile(bytes))));
      if out == Done {
        NodeFilled(s, m, State(), f, TypeFile, n);
      }
    }

    /** The inode of a regular file, which an earlier name may have made: the file is read only if nothing of its
        number is cached. */
    method FindFile(n: nat, bytes: seq<bv8>, ghost log: Log) returns (out: Outcome, f: nat)
      requires Valid() && Faithful(State(), log, {})
      modifies this
      ensures out == Done ==> Valid() && Faithful(State(), After(RegularFile(n, bytes), log), {})
      ensures out == Done ==> Kept(old(State()), State(), {}, {}) && Newest(newest, n) == Some(f)
      ensures var t := RegularFile(n, bytes);
              && (out == Done <==> Fine(t, log) && old(next) + Needs(t, log) <= ninos)
              && (out == Done ==> Spent(old(State()), State(), Needs(t, log)))
      ensures out != Done ==> Stuck(out)
    {
      var r := SearchCacheInode(n);
      FaithfulMet(State(), log, {}, n);
      if r.Some? {
        out, f := Done, r.value;
        FaithfulFound(State(), log, n, bytes);
        if !log.found[n].FoundFile? {
          NoteStray();
        }
      } else {
        out, f := MakeFile(n, bytes, log);
      }
    }

    ghost method NoteStray()
      requires Valid()
      modifies this`stray
      ensures Valid() && State() == Strayed(old(State())) && Kept(old(State()), State(), {}, {})
    {
      StrayedGood(State());
      stray := true;
    }

    /** An entry in a directory that is being filled. */
    method Enter(dir: nat, f: nat, name: string, ghost log: Log, ghost open: set<nat>) returns (out: Outcome)
      requires Valid() && Walking(State(), log, open, dir) && f in inodes && |name| <= MAX_FNAME_LEN
      modifies this
      ensures out == Done ==> Valid() && Walking(State(), log, open, dir)
      ensures out == Done ==> Named(old(State()), State(), dir, f, Written(name))
      ensures var k := |old(uses)[dir].parts|;
              && (out == Done <==> k < LN_NBLKS && old(next) + Needed(k) <= ninos)
              && (out == Done ==> Spent(old(State()), State(), Needed(k)))
      ensures out != Done ==> Stuck(out)
    {
      ghost var s := State();
      PartsHere(dir);
      out := AddEntry(dir, f, name);
      if out == Done {
        WalkingNamed(s, State(), log, open, dir, f, Written(name));
      }
    }

    /** add_entry for a regular file or a symbolic link. */
    method EnterLeaf(ghost s: Image, dir: nat, f: nat, ghost log: Log, ghost open: set<nat>, it: Item)
      returns (out: Outcome)
      requires Valid() && Walking(s, log, open, dir) && Walking(State(), After(it.tree, log), open, dir)
      requires Kept(s, State(), {}, {}) && Encodes(State(), log, open, dir, f, it.tree) && !it.tree.Directory?
      requires f in inodes && (inodes[f].kind.TypeDir? ==> stray) && |it.name| <= MAX_FNAME_LEN
      modifies this
      ensures out == Done ==> Valid() && Walking(State(), After(it.tree, log), open, dir)
      ensures out == Done ==> Added(s, State(), log, open, dir, it)
      ensures var k := |old(uses)[dir].parts|;
              && (out == Done <==> k < LN_NBLKS && old(next) + Needed(k) <= ninos)
              && (out == Done ==> Spent(old(State()), State(), Needed(k)))
      ensures out != Done ==> Stuck(out)
    {
      ghost var m := State();
      CountFits(m, dir);
      out := Enter(dir, f, it.name, After(it.tree, log), open);
      if out == Done {
        LeafAdded(s, m, State(), log, open, dir, f, it);
      }
    }

    method AddFile(dir: nat, name: string, n: nat, bytes: seq<bv8>, ghost log: Log, ghost open: set<nat>)
      returns (out: Outcome)
      requires Valid() && Walking(State(), log, open, dir) && |name| <= MAX_FNAME_LEN
      modifies this
      ensures var t := RegularFile(n, bytes);
              && (out == Done ==> Valid() && Walking(State(), After(t, log), open, dir))
              && (out == Done ==> Added(old(State()), State(), log, open, dir, Item(name, t)))
              && (out == Done <==> TreeFits(old(State()), log, dir, t))
              && (out == Done ==> Spent(old(State()), State(), Needs(t, log) + Needed(|old(uses)[dir].parts|)))
      ensures out != Done ==> Stuck(out)
    {
      ghost var s, t := State(), RegularFile(n, bytes);
      var f;
      out, f := FindFile(n, bytes, log);
      if out == Done {
        WalkingKept(s, State(), {}, {}, log, After(t, log), open, dir);
        FileEncoded(State(), log, open, dir, n, bytes);
        out := EnterLeaf(s, dir, f, log, open, Item(name, RegularFile(n, bytes)));
      }
    }

    /** A symbolic link's inode, made and filled. */
    method MakeLink(n: nat, target: seq<bv8>, ghost log: Log) returns (out: Outcome, f: nat)
      requires Valid() && Faithful(State(), log, {})
      modifies this
      ensures out == Done ==> Valid() && Faithful(State(), After(Symlink(n, target), log), {})
      ensures out == Done ==> Filled(old(State()), State(), f, TypeLink, n) && LinkHolds(State(), f, target)
      ensures out == Done <==> |target| < BLKSIZE && old(next) + 1 + Full(1) <= ninos
      ensures out == Done ==> next == old(next) + 1 + Full(1)
      ensures out != Done ==> Stuck(out) || (out == LongLink && |target| >= BLKSIZE)
    {
      ghost var s := State();
      out, f := StartNode(n, FoundLink, TypeLink, log);
      if out != Done {
        return;
      }
      ghost var m := State();
      out := OpenLink(f, target, Note(log, Visit(n, FoundLink)));
      if out == Done {
        NodeFilled(s, m, State(), f, TypeLink, n);
      }
    }

    method AddLink(dir: nat, name: string, n: nat, target: seq<bv8>, ghost log: Log, ghost open: set<nat>)
      returns (out: Outcome)
      requires Valid() && Walking(State(), log, open, dir) && |name| <= MAX_FNAME_LEN
      modifies this
      ensures var t := Symlink(n, target);
              && (out == Done ==> Valid() && Walking(State(), After(t, log), open, dir))
              && (out == Done ==> Added(old(State()), State(), log, open, dir, Item(name, t)))
              && (out == Done <==> TreeFits(old(State()), log, dir, t))
              && (out == Done ==> Spent(old(State()), State(), Needs(t, log) + Needed(|old(uses)[dir].parts|)))
      ensures out != Done ==> Stuck(out) || (out == LongLink && |target| >= BLKSIZE)
    {
      ghost var s, t := State(), Symlink(n, target);
      var f;
      out, f := MakeLink(n, target, log);
      if out == Done {
        WalkingKept(s, State(), {}, {}, log, After(t, log), open, dir);
        LinkEncoded(State(), log, open, dir, f, n, target);
        out := EnterLeaf(s, dir, f, log, open, Item(name, Symlink(n, target)));
      }
    }

    /** The first two entries of a directory. */
    method AddDots(dir: nat, up: nat, t: Tree, ghost log: Log, ghost open: set<nat>) returns (out: Outcome)
      requires t.Directory? && Valid() && Walking(State(), AfterUpTo(t, log, 0), open, dir) && up in open
      requires uses[dir].parts == [] && inodes[dir].size == 0 && inodes[dir].nlinks == 0
      modifies this
      ensures out == Done ==> Valid() && Walking(State(), AfterUpTo(t, log, 0), open, dir)
      ensures out == Done ==> Filling(old(State()), State(), log, open, up, dir, t, 0)
      ensures out == Done <==> old(next) + Full(2) <= ninos
      ensures out == Done ==> Spent(old(State()), State(), Full(2))
      ensures out != Done ==> Stuck(out)
    {
      ghost var s, more := State(), AfterUpTo(t, log, 0);
      out := Enter(dir, dir, ".", more, open);
      if out != Done {
        return;
      }
      ghost var m := State();
      FirstDot(s, m, dir);
      out := Enter(dir, up, "..", more, open);
      if out == Done {
        FillingStarts(s, m, State(), log, open, up, dir, t);
      }
    }

    /** A directory's inode, made but not filled. */
    method StartDir(dir: nat, n: nat, ghost log: Log, ghost open: set<nat>) returns (out: Outcome, c: nat)
      requires Valid() && Walking(State(), log, open, dir)
      modifies this
      ensures out == Done ==> Valid() && Walking(State(), Note(log, Visit(n, FoundDir)), open + {c}, c) && c !in open
      ensures out == Done ==> Started(old(State()), State(), c, TypeDir, n)
      ensures out == Done <==> n !in log.found && old(next) < ninos
      ensures out != Done ==> Stuck(out) || (out == SeenDir && exists f :: f in inodes && inodes[f].host == n)
    {
      ghost var s := State();
      var r := SearchCacheInode(n);
      FaithfulMet(State(), log, {}, n);
      if r.Some? {
        return SeenDir, 0;
      }
      out, c := StartNode(n, FoundDir, TypeDir, log);
      if out == Done {
        WalkingInto(s, State(), log, open, dir, c, n);
      }
    }

    /** A directory's inode, made and filled. */
    method MakeDir(dir: nat, t: Tree, ghost log: Log, ghost open: set<nat>) returns (out: Outcome, c: nat)
      requires Valid() && Walking(State(), log, open, dir) && t.Directory?
      modifies this
      ensures out == Done ==> Valid() && Walking(State(), After(t, log), open, dir)
      ensures out == Done ==> FilledDir(old(State()), State(), log, open, dir, c, t)
      ensures out == Done <==> Fine(t, log) && old(next) + Needs(t, log) <= ninos
      ensures out == Done ==> Spent(old(State()), State(), Needs(t, log))
      ensures out != Done ==> Stuck(out) || Refused(State(), Item("", t), out) || Blamed(State(), t, out)
      decreases t, 2
    {
      ghost var s := State();
      out, c := StartDir(dir, t.host, log, open);
      if out != Done {
        return;
      }
      ghost var m := State();
      DirectoryNeeds(s, m, log, t, c);
      out := OpenDir(c, dir, t, log, open + {c});
      if out == Done {
        WalkingBack(s, m, State(), log, open, dir, c, t);
        DirectorySpends(s, m, State(), log, t, c);
      }
    }

    method AddDir(dir: nat, name: string, t: Tree, ghost log: Log, ghost open: set<nat>) returns (out: Outcome)
      requires Valid() && Walking(State(), log, open, dir) && |name| <= MAX_FNAME_LEN && t.Directory?
      modifies this
      ensures out == Done ==> Valid() && Walking(State(), After(t, log), open, dir)
      ensures out == Done ==> Added(old(State()), State(), log, open, dir, Item(name, t))
      ensures out == Done <==> TreeFits(old(State()), log, dir, t)
      ensures out == Done ==> Spent(old(State()), State(), Needs(t, log) + Needed(|old(uses)[dir].parts|))
      ensures out != Done ==> Stuck(out) || Refused(State(), Item(name, t), out) || Blamed(State(), t, out)
      decreases t, 3
    {
      ghost var s := State();
      var c;
      out, c := MakeDir(dir, t, log, open);
      if out == Done {
        out := EnterDir(s, dir, c, log, open, Item(name, t));
      }
    }

    /** add_entry for a directory that has been filled. */
    method EnterDir(ghost s: Image, dir: nat, c: nat, ghost log: Log, ghost open: set<nat>, it: Item)
      returns (out: Outcome)
      requires Valid() && Walking(s, log, open, dir) && Walking(State(), After(it.tree, log), open, dir)
      requires FilledDir(s, State(), log, open, dir, c, it.tree) && |it.name| <= MAX_FNAME_LEN
      modifies this
      ensures out == Done ==> Valid() && Walking(State(), After(it.tree, log), open, dir)
      ensures out == Done ==> Added(s, State(), log, open, dir, it)
      ensures var k := |old(uses)[dir].parts|;
              && (out == Done <==> k < LN_NBLKS && old(next) + Needed(k) <= ninos)
              && (out == Done ==> Spent(old(State()), State(), Needed(k)))
      ensures out != Done ==> Stuck(out)
    {
      ghost var m := State();
      out := Enter(dir, c, it.name, After(it.tree, log), open);
      if out == Done {
        DirAdded(s, m, State(), log, open, dir, c, it);
      }
    }

    /** One turn of open_dir's loop, for a name that does not start with a dot. */
    method AddItem(dir: nat, it: Item, ghost log: Log, ghost open: set<nat>) returns (out: Outcome)
      requires Valid() && Walking(State(), log, open, dir) && !Hidden(it)
      modifies this
      ensures out == Done ==> Valid() && Walking(State(), After(it.tree, log), open, dir)
      ensures out == Done ==> Turned(old(State()), State(), log, open, dir, it)
      ensures out == Done <==> ItemFits(old(State()), log, dir, it)
      ensures out != Done ==> Stuck(out) || Refused(State(), it, out) || Blamed(State(), it.tree, out)
      decreases it, 0
    {
      if |it.name| > MAX_FNAME_LEN {
        return LongName;
      }
      match it.tree
      case Symlink(n, target) => out := AddLink(dir, it.name, n, target, log, open);
      case Directory(_, _) => out := AddDir(dir, it.name, it.tree, log, open);
      case RegularFile(n, bytes) => out := AddFile(dir, it.name, n, bytes, log, open);
      case Special => out := Done;
      case Unreadable => out := CannotOpen;
    }

    /** The same for any name. */
    method TurnItem(dir: nat, it: Item, ghost log: Log, ghost open: set<nat>) returns (out: Outcome)
      requires Valid() && Walking(State(), log, open, dir)
      modifies this
      ensures out == Done ==> Valid() && Walking(State(), if Skipped(it) then log else After(it.tree, log), open, dir)
      ensures out == Done ==> Turned(old(State()), State(), log, open, dir, it)
      ensures out == Done <==> ItemFits(old(State()), log, dir, it)
      ensures out != Done ==>
                !Hidden(it) && (Stuck(out) || Refused(State(), it, out) || Blamed(State(), it.tree, out))
      decreases it, 1
    {
      out := Done;
      if !Hidden(it) {
        out := AddItem(dir, it, log, open);
      }
    }

    /** One turn of open_dir's loop. */
    method NextItem(ghost s0: Image, dir: nat, ghost up: nat, t: Tree, n: nat, ghost log: Log, ghost open: set<nat>)
      returns (out: Outcome)
      requires t.Directory? && n < |t.items| && up in open
      requires Valid() && Walking(State(), AfterUpTo(t, log, n), open, dir)
      requires Behind(s0, State(), log, open, up, dir, t, n)
      modifies this
      ensures out == Done ==> Valid() && Walking(State(), AfterUpTo(t, log, n + 1), open, dir)
      ensures if out == Done then Behind(s0, State(), log, open, up, dir, t, n + 1) else !DirFits(s0, log, t)
      ensures out != Done ==> Stuck(out) || Blamed(State(), t, out)
      decreases t, 0
    {
      ghost var s := State();
      BehindFits(s0, s, log, open, up, dir, t, n);
      out := TurnItem(dir, t.items[n], AfterUpTo(t, log, n), open);
      if out == Done {
        BehindNext(s0, s, State(), log, open, up, dir, t, n);
      }
    }

    method OpenDir(dir: nat, up: nat, t: Tree, ghost log: Log, ghost open: set<nat>) returns (out: Outcome)
      requires t.Directory? && Valid() && Walking(State(), AfterUpTo(t, log, 0), open, dir) && up in open
      requires uses[dir].parts == [] && inodes[dir].size == 0 && inodes[dir].nlinks == 0
      modifies this
      ensures out == Done ==> Valid() && Walking(State(), After(t, log), open, dir)
      ensures out == Done ==> Filling(old(State()), State(), log, open, up, dir, t, |t.items|)
      ensures out == Done <==> DirFits(old(State()), log, t)
      ensures out == Done ==> Accounted(old(State()), State(), log, t, |t.items|)
      ensures out != Done ==> Stuck(out) || Blamed(State(), t, out)
      decreases t, 1
    {
      ghost var s0 := State();
      if s0.next + Full(2) > s0.ninos {
        DotsFail(s0, log, t);
      }
      out := AddDots(dir, up, t, log, open);
      if out != Done {
        return;
      }
      AccountStarts(s0, State(), log, t);
      var n := 0;
      while n < |t.items|
        invariant n <= |t.items| && out == Done && Valid() && Walking(State(), AfterUpTo(t, log, n), open, dir)
        invariant Behind(s0, State(), log, open, up, dir, t, n)
      {
        out := NextItem(s0, dir, up, t, n, log, open);
        if out != Done {
          return;
        }
        n := n + 1;
      }
      AccountEnds(s0, State(), log, t);
    }

    /** One block of the bitmap: the bits from start to end are set. */
    method FreemapBuffer(i: nat) returns (bits: seq<bool>)
      requires i < ninos
      ensures FreemapBits(bits, i, next, ninos)
    {
      var buffer := new bool[BLKBITS](j => false);
      if i + BLKBITS > next {
        var start: nat := if i < next then next - i else 0;
        var end: nat := if i + BLKBITS > ninos then ninos - i else BLKBITS;
        var j := start;
        while j < end
          invariant start <= j
          invariant forall k :: 0 <= k < BLKBITS ==> (buffer[k] <==> start <= k < j && k < end)
        {
          buffer[j] := true;
          j := j + 1;
        }
      }
      bits := buffer[..];
    }

    /** The bitmap blocks, from BLKN_FREEMAP up to the first block files can have. */
    method WriteFreemap()
      requires Counted() && FirstFree(ninos) <= ninos
      modifies this`disk
      ensures FreemapOk(disk, FirstFree(ninos) - BLKN_FREEMAP, next, ninos)
      ensures forall b :: !(BLKN_FREEMAP <= b < FirstFree(ninos)) ==>
                (b in disk <==> b in old(disk)) && (b in disk ==> disk[b] == old(disk)[b])
    {
      var i, ino := 0, BLKN_FREEMAP;
      while i < ninos
        invariant BLKN_FREEMAP <= ino <= FirstFree(ninos) && i == BLKBITS * (ino - BLKN_FREEMAP)
        invariant FreemapOk(disk, ino - BLKN_FREEMAP, next, ninos)
        invariant forall b :: !(BLKN_FREEMAP <= b < FirstFree(ninos)) ==>
                    (b in disk <==> b in old(disk)) && (b in disk ==> disk[b] == old(disk)[b])
      {
        var bits := FreemapBuffer(i);
        FreemapGrows(disk, ino - BLKN_FREEMAP, next, ninos, bits);
        WriteBlock(Freemap(bits), ino);
        ino, i := ino + 1, i + BLKBITS;
      }
    }

    /** The cached index blocks of one hash chain are written. */
    method FlushBlocks(ghost s: Image, h: nat, ghost bs: set<nat>, ghost fs: set<nat>)
      requires Good(s) && s.ninos == ninos && s.store == store && Flushed(s, disk, bs, fs)
      requires ChainsOk(chains, store) && h < HASH_LIST_SIZE
      modifies this`disk
      ensures Flushed(s, disk, bs + Members(chains[h]), fs)
    {
      var k := 0;
      assert bs + Members(chains[h][..0]) == bs;
      while k < |chains[h]|
        invariant k <= |chains[h]| && Flushed(s, disk, bs + Members(chains[h][..k]), fs)
      {
        var b := chains[h][k];
        assert b in chains[h] && h == 0;
        CachesApart(s, b);
        FlushBlock(s, disk, bs + Members(chains[h][..k]), fs, b);
        MembersNext(chains[h], k);
        assert bs + Members(chains[h][..k]) + {b} == bs + Members(chains[h][..k + 1]);
        WriteBlock(IndexBlock(store[b]), b);
        k := k + 1;
      }
      assert chains[h][..k] == chains[h];
    }

    /** The cached inodes of one hash chain are written. */
    method FlushInodes(ghost s: Image, h: nat, ghost bs: set<nat>, ghost fs: set<nat>)
      requires Good(s) && s.ninos == ninos && s.inodes == inodes && Flushed(s, disk, bs, fs)
      requires NodesOk(nodes, inodes, newest) && h < HASH_LIST_SIZE
      modifies this`disk
      ensures Flushed(s, disk, bs, fs + Members(nodes[h]))
    {
      var k := 0;
      assert fs + Members(nodes[h][..0]) == fs;
      while k < |nodes[h]|
        invariant k <= |nodes[h]| && Flushed(s, disk, bs, fs + Members(nodes[h][..k]))
      {
        var f := nodes[h][k];
        CachesApart(s, f);
        FlushInode(s, disk, bs, fs + Members(nodes[h][..k]), f);
        MembersNext(nodes[h], k);
        assert fs + Members(nodes[h][..k]) + {f} == fs + Members(nodes[h][..k + 1]);
        WriteBlock(OnDisk(inodes[f]), f);
        k := k + 1;
      }
      assert nodes[h][..k] == nodes[h];
    }

    /** close_sfs. */
    method Close()
      requires Valid()
      modifies this`disk
      ensures Closed(old(State()), disk)
    {
      ghost var s := State();
      assert Good(s);
      WriteFreemap();
      PreparedFirst(s, disk);
      WriteBlock(Super(ninos, unused), BLKN_SUPER);
      ghost var bs: set<nat>, fs: set<nat> := {}, {};
      var h := 0;
      while h < HASH_LIST_SIZE
        invariant h <= HASH_LIST_SIZE && Flushed(s, disk, bs, fs)
        invariant forall i :: 0 <= i < h ==> Members(chains[i]) <= bs && Members(nodes[i]) <= fs
      {
        FlushBlocks(s, h, bs, fs);
        bs := bs + Members(chains[h]);
        FlushInodes(s, h, bs, fs);
        fs := fs + Members(nodes[h]);
        h := h + 1;
      }
      AllFlushed(s, disk, chains, nodes, bs, fs);
    }

    /** create_img: the walk from the root directory, then close_sfs. */
    method CreateImg(items: seq<Item>) returns (out: Outcome)
      requires Valid() && State() == Fresh(ninos)
      modifies this
      ensures out == Done ==> Complete(inodes, disk, next, ninos, Directory(0, items))
      ensures out == Done <==> DirFits(Fresh(ninos), Start(), Directory(0, items))
      ensures out != Done ==> Stuck(out) || Blamed(State(), Directory(0, items), out)
    {
      ghost var s, t := State(), Directory(0, items);
      FreshWalking(ninos, t);
      out := OpenDir(BLKN_ROOT, BLKN_ROOT, Directory(0, items), Start(), {BLKN_ROOT});
      if out == Done {
        ghost var m := State();
        Close();
        ImageComplete(s, m, disk, t);
      }
    }

    /** create_sfs on an image file of a given size; an image too small for its bitmap is refused. */
    constructor (bytes: nat)
      requires FirstFree(Blocks(bytes)) < Blocks(bytes)
      ensures ninos == Blocks(bytes) && Valid() && State() == Fresh(ninos)
    {
      ninos := Blocks(bytes);
      next, unused := FirstFree(Blocks(bytes)), Blocks(bytes) - FirstFree(Blocks(bytes));
      inodes, store, disk := map[], map[], map[];
      uses, owner, newest, stray := map[], map[], map[], false;
      nodes, chains := seq(HASH_LIST_SIZE, i => []), seq(HASH_LIST_SIZE, i => []);
      new;
      var out, root := AllocCacheInode(0, BLKN_ROOT, TypeDir);
      assert State() == Fresh(ninos);
      FreshGood(ninos);
      FreshNodes(ninos, nodes);
    }
  }

  lemma {:induction false} FreshNodes(ninos: nat, nodes: seq<seq<nat>>)
    requires |nodes| == HASH_LIST_SIZE
    requires forall h :: 0 <= h < HASH_LIST_SIZE ==> nodes[h] == if h == Hash32(0) then [BLKN_ROOT] else []
    ensures NodesOk(nodes, Fresh(ninos).inodes, Fresh(ninos).newest)
  {
    var inodes := Fresh(ninos).inodes;
    forall n: nat
      ensures Search(nodes[Hash32(n)], inodes, n) == Newest(Fresh(ninos).newest, n)
    {
      assert Hash32(n) == Hash32(0) ==> nodes[Hash32(n)][1..] == [];
    }
  }

  /** The blocks of an image file. */
  function Blocks(bytes: nat): nat {
    if bytes / BLKSIZE > MAX_NBLKS then MAX_NBLKS else bytes / BLKSIZE
  }

  lemma {:induction false} EntryLinked(s: Image, m: Image, dir: nat, f: nat, name: string)
    requires LinksOk(s) && OneBlockMore(s, m, dir, Entry(f, name), ENTRY_SIZE) && f in s.inodes
    ensures f in m.inodes && LinksOk(Relinked(m, f)) && Named(s, Relinked(m, f), dir, f, name)
  {
    RelinkedEntry(s, m, dir, f, name);
    EntryNamed(s, Relinked(m, f), dir, f, name);
    EntryLinks(s, Relinked(m, f), dir, f, name);
  }

  lemma {:induction false} NodeSound(s: Image, kind: Kind, n: nat, nodes: seq<seq<nat>>)
    requires Good(s) && LinksOk(s) && s.next < s.ninos && NodesOk(nodes, s.inodes, s.newest)
    ensures var t := AddInode(s, kind, n);
            && Good(t) && LinksOk(t) && NodesOk(nodes[Hash32(n) := [s.next] + nodes[Hash32(n)]], t.inodes, t.newest)
            && Started(s, t, s.next, kind, n)
  {
    NextUnwritten(s);
    GoodKeys(s);
    InodeStarted(s, kind, n);
    AddInodeGood(s, kind, n);
    AddInodeLinks(s, kind, n);
    NodesMoreOf(nodes, s.inodes, s.newest, s.next, NewInode(kind, n));
  }

  lemma {:induction false} GoodKeys(s: Image)
    requires Good(s)
    ensures s.uses.Keys == s.inodes.Keys
  {
  }

  /** The new inode comes first in its chain. */
  lemma {:induction false} NodesMoreOf(nodes: seq<seq<nat>>, inodes: map<nat, Inode>, newest: map<nat, nat>, f: nat,
                                       ci: Inode)
    requires NodesOk(nodes, inodes, newest) && f !in inodes
    ensures NodesOk(nodes[Hash32(ci.host) := [f] + nodes[Hash32(ci.host)]], inodes[f := ci], newest[ci.host := f])
  {
    var grown, more := nodes[Hash32(ci.host) := [f] + nodes[Hash32(ci.host)]], inodes[f := ci];
    forall n: nat
      ensures Search(grown[Hash32(n)], more, n) == Newest(newest[ci.host := f], n)
    {
      assert Search(nodes[Hash32(n)], inodes, n) == Newest(newest, n);
      SearchMore(nodes[Hash32(n)], inodes, f, ci, n);
    }
  }

  lemma {:induction false} SearchMore(chain: seq<nat>, inodes: map<nat, Inode>, f: nat, ci: Inode, n: nat)
    requires f !in inodes && forall k :: 0 <= k < |chain| ==> chain[k] in inodes
    ensures var more := inodes[f := ci];
            && Search(chain, more, n) == Search(chain, inodes, n)
            && Search([f] + chain, more, n) == if ci.host == n then Some(f) else Search(chain, inodes, n)
  {
    SearchKept(chain, inodes, inodes[f := ci], n);
    assert ([f] + chain)[1..] == chain;
  }

  lemma {:induction false} PartSound(s: Image, t: Image, f: nat, data: Block, size: nat, nodes: seq<seq<nat>>)
    requires Good(s) && Appendable(s, f) && Room(s, f) && (data.Data? || data.Entry?)
    requires PartPut(s, t, f, data, size) && NodesOk(nodes, s.inodes, s.newest)
    ensures Good(t) && NodesOk(nodes, t.inodes, t.newest) && OneBlockMore(s, t, f, data, size)
  {
    PutAdds(s, t, f, data, size);
    NextUnwritten(s);
    AddBlockGood(s, f, data, size);
    AddBlockChanges(s, f, data, size);
    NodesMore(s, t, f, data, size, nodes);
  }

  lemma {:induction false} NodesMore(s: Image, t: Image, f: nat, data: Block, size: nat, nodes: seq<seq<nat>>)
    requires NodesOk(nodes, s.inodes, s.newest) && OneBlockMore(s, t, f, data, size)
    ensures NodesOk(nodes, t.inodes, t.newest)
  {
    NodesKept(nodes, s.inodes, t.inodes, s.newest);
  }

  lemma {:induction false} GoodApart(s: Image, f: nat)
    requires Good(s) && f in s.inodes
    ensures f in s.uses && MapOk(s.inodes[f].links, s.store) && s.next + 1 !in s.store && s.next + 2 !in s.store
  {
    assert FileOk(s.inodes[f], s.store, s.uses[f]);
  }

  /** Every cached block and every cached inode is in a chain. */
  lemma {:induction false} AllFlushed(s: Image, disk: Disk, chains: seq<seq<nat>>, nodes: seq<seq<nat>>, bs: set<nat>,
                                      fs: set<nat>)
    requires Flushed(s, disk, bs, fs) && ChainsOk(chains, s.store) && NodesOk(nodes, s.inodes, s.newest)
    requires forall i :: 0 <= i < HASH_LIST_SIZE ==> Members(chains[i]) <= bs && Members(nodes[i]) <= fs
    ensures Closed(s, disk)
  {
    forall b | b in s.store
      ensures b in bs
    {
      assert b in Members(chains[0]);
    }
    forall f | f in s.inodes
      ensures f in fs
    {
      assert f in Members(nodes[Hash32(s.inodes[f].host)]);
    }
  }

  /** create_sfs and create_img: an image file of this size is built from the host directory with these items. */
  method CreateImage(bytes: nat, items: seq<Item>) returns (out: Outcome, b: Builder)
    requires FirstFree(Blocks(bytes)) < Blocks(bytes)
    ensures fresh(b) && b.ninos == if bytes / 4096 > 524288 then 524288 else bytes / 4096
    ensures out == Done ==> Complete(b.inodes, b.disk, b.next, b.ninos, Directory(0, items))
    ensures out == Done <==> DirFits(Fresh(b.ninos), Start(), Directory(0, items))
    ensures out != Done ==> b.Stuck(out) || Blamed(b.State(), Directory(0, items), out)
  {
    b := new Builder(bytes);
    out := b.CreateImg(items);
  }

  /** A source directory over two file systems: "b" has the number that "a" has on the other one. */
  function TwoNames(one: Tree, bytes: seq<bv8>): Tree {
    Directory(0, [Item("a", one), Item("b", RegularFile(7, bytes))])
  }

  /** A small file of any type with number 7. */
  predicate SmallSeven(one: Tree) {
    match one
    case RegularFile(n, bytes) => n == 7 && |bytes| <= BLKSIZE
    case Symlink(n, target) => n == 7 && |target| < BLKSIZE
    case Directory(n, items) => n == 7 && items == []
    case _ => false
  }

  lemma {:induction false} SmallNeeds(one: Tree, log: Log)
    requires SmallSeven(one) && 7 !in log.found
    ensures Fine(one, log) && Needs(one, log) <= 3 && 7 in After(one, log).found
    ensures After(one, log) == Note(log, Visit(7, WhatIs(one)))
  {
    assert Full(0) == 0 && Full(1) == Full(0) + Needed(0) && Full(2) == Full(1) + Needed(1);
    if one.RegularFile? {
      assert Pieces(one.bytes) <= 1;
    }
    if one.Directory? {
      assert Inside(one, log, 0) == Full(2) && FineUpTo(one, log, 0);
    }
  }

  function WhatIs(one: Tree): Found {
    match one
    case RegularFile(_, bytes) => FoundFile(bytes)
    case Directory(_, _) => FoundDir
    case _ => FoundLink
  }

  lemma {:induction false} TwoNamesFit(one: Tree, bytes: seq<bv8>)
    requires SmallSeven(one)
    ensures DirFits(Fresh(64), Start(), TwoNames(one, bytes))
  {
    var t := TwoNames(one, bytes);
    var log := AfterUpTo(t, Start(), 0);
    SmallNeeds(one, log);
    assert AfterUpTo(t, Start(), 1) == After(one, log);
    assert FirstFree(64) == 3 && Full(2) == 2;
    assert FineUpTo(t, Start(), 0);
    assert FineUpTo(t, Start(), 1);
    assert FineUpTo(t, Start(), 2);
    assert Inside(t, Start(), 0) == 2;
    assert Inside(t, Start(), 1) <= 6;
    assert Inside(t, Start(), 2) <= 7;
  }

  /** What the two names lead to. */
  ghost predicate TwoRead(disk: Disk, ids: map<nat, nat>, one: Tree, bytes: seq<bv8>, f: nat, g: nat) {
    && ReadAt(disk, BLKN_ROOT, 2, Entry(f, "a")) && ReadAt(disk, BLKN_ROOT, 3, Entry(g, "b"))
    && ReadsFound(disk, ids, f, 7, WhatIs(one)) && ReadsFound(disk, ids, g, 7, WhatIs(one))
  }

  lemma {:induction false} TwoNamesRead(disk: Disk, ids: map<nat, nat>, one: Tree, bytes: seq<bv8>, exact: bool)
    requires SmallSeven(one)
    requires ReadsBack(disk, ids, Start(), exact, BLKN_ROOT, BLKN_ROOT, TwoNames(one, bytes))
    ensures TwoRead(disk, ids, one, bytes, NamedAt(disk, BLKN_ROOT, 2), NamedAt(disk, BLKN_ROOT, 3))
  {
    var t := TwoNames(one, bytes);
    var log := AfterUpTo(t, Start(), 0);
    SmallNeeds(one, log);
    assert Shown(t.items, 0) == 0 && Shown(t.items, 1) == 1 && AfterUpTo(t, Start(), 1) == After(one, log);
    assert ReadsItems(disk, ids, Start(), exact, BLKN_ROOT, t, 2);
    assert ReadsItems(disk, ids, Start(), exact, BLKN_ROOT, t, 1);
    SmallRead(disk, ids, log, exact, NamedAt(disk, BLKN_ROOT, 2), one);
    SmallRead(disk, ids, After(one, log), exact, NamedAt(disk, BLKN_ROOT, 3), RegularFile(7, bytes));
  }

  lemma {:induction false} SmallRead(disk: Disk, ids: map<nat, nat>, log: Log, exact: bool, f: nat, one: Tree)
    requires ReadsBack(disk, ids, log, exact, BLKN_ROOT, f, one)
    ensures match one
      case RegularFile(n, bytes) => ReadsFound(disk, ids, f, n, Meant(log, n, bytes))
      case Symlink(n, _) => ReadsFound(disk, ids, f, n, FoundLink)
      case Directory(n, _) => ReadsFound(disk, ids, f, n, FoundDir)
      case _ => true
  {
  }

  /** The run for such a directory: "b" leads to its own bytes just if "a" is a regular file with the same bytes.
      If "a" is a regular file, both names lead to one inode, which holds the bytes of "a"; otherwise "b" leads to
      an inode of the type of "a". */
  method TwoFileSystems(one: Tree, bytes: seq<bv8>) returns (b: Builder, f: nat, g: nat)
    requires SmallSeven(one)
    ensures ReadAt(b.disk, BLKN_ROOT, 2, Entry(f, "a")) && ReadAt(b.disk, BLKN_ROOT, 3, Entry(g, "b"))
    ensures HoldsBytes(b.disk, g, bytes) <==> one == RegularFile(7, bytes)
    ensures one.RegularFile? ==> f == g && HoldsBytes(b.disk, g, one.bytes)
    ensures !one.RegularFile? ==> g in b.disk && b.disk[g].InodeBlock? && b.disk[g].kind == KindOf(WhatIs(one))
  {
    assert FirstFree(64) == 3 && Blocks(64 * BLKSIZE) == 64;
    TwoNamesFit(one, bytes);
    var out;
    out, b := CreateImage(64 * BLKSIZE, TwoNames(one, bytes).items);
    f, g := NamedAt(b.disk, BLKN_ROOT, 2), NamedAt(b.disk, BLKN_ROOT, 3);
    ghost var ids, exact := FileIds(b.inodes), !After(TwoNames(one, bytes), Start()).stray;
    TwoNamesRead(b.disk, ids, one, bytes, exact);
    OwnFound(b.disk, ids, g, 7, WhatIs(one), bytes);
    if one.RegularFile? {
      OneInodePerFile(b.disk, ids, f, g, 7, WhatIs(one), WhatIs(one));
    }
  }
}
