/** The block map of one file in the image builder: direct, indirect and doubly indirect blocks behind a
    two-entry cache of index blocks. */
module SfsFile {

  const NDIRECT: nat := 12
  const NENTRY: nat := 1024           // SFS_BLK_NENTRY
  const L1_NBLKS: nat := 1036         // SFS_L1_NBLKS
  const LN_NBLKS: nat := 32768        // SFS_LN_NBLKS

  /** The block map of struct cache_inode.  A cached index block is named by its block number, and 0
      stands for the null pointer, which no index block can have for a number. */
  datatype Map = Map(direct: seq<nat>, indirect: nat, dbIndirect: nat, nblks: nat, l1: nat, l2: nat)

  /** The cached index blocks by block number. */
  type Store = map<nat, seq<nat>>

  function EmptyMap(): Map {
    Map(seq(NDIRECT, i => 0), 0, 0, 0, 0, 0)
  }

  /** The second-level index blocks that n blocks need. */
  function Leaves(n: nat): nat {
    if n <= L1_NBLKS then 0 else (n - L1_NBLKS + NENTRY - 1) / NENTRY
  }

  /** Block b is cached and holds one block's worth of entries. */
  predicate Cached(st: Store, b: nat) {
    b != 0 && b in st && |st[b]| == NENTRY
  }

  /** The doubly indirect part: the top block lists one leaf per 1024 blocks and zeros after them. */
  ghost predicate TreeOk(m: Map, st: Store) {
    && Cached(st, m.dbIndirect) && Leaves(m.nblks) <= NENTRY
    && (forall q :: 0 <= q < NENTRY ==>
          if q < Leaves(m.nblks) then Cached(st, st[m.dbIndirect][q]) else st[m.dbIndirect][q] == 0)
    && (forall q :: 0 <= q < Leaves(m.nblks) ==>
          st[m.dbIndirect][q] != m.dbIndirect && st[m.dbIndirect][q] != m.indirect)
    && (forall q, p :: 0 <= q < p < Leaves(m.nblks) ==> st[m.dbIndirect][q] != st[m.dbIndirect][p])
  }

  /** The index blocks exist exactly when they are needed, and the two cache entries are the blocks in use. */
  ghost predicate MapOk(m: Map, st: Store) {
    && |m.direct| == NDIRECT && m.nblks <= LN_NBLKS
    && (if m.nblks > NDIRECT then Cached(st, m.indirect) else m.indirect == 0)
    && (if m.nblks > L1_NBLKS then m.indirect != m.dbIndirect && TreeOk(m, st) else m.dbIndirect == 0)
    && m.l1 == (if m.nblks > L1_NBLKS then st[m.dbIndirect][Leaves(m.nblks) - 1] else m.indirect)
    && m.l2 == m.dbIndirect
  }

  /** Resolving block i through direct, indirect and db_indirect gives c[i], for every block of the file. */
  ghost predicate Resolves(m: Map, st: Store, c: seq<nat>)
    requires MapOk(m, st)
  {
    && |c| == m.nblks
    && (forall i :: 0 <= i < NDIRECT && i < |c| ==> m.direct[i] == c[i])
    && (forall i :: 0 <= i < NENTRY && NDIRECT + i < |c| ==> st[m.indirect][i] == c[NDIRECT + i])
    && (forall q, i {:trigger st[st[m.dbIndirect][q]][i]} ::
          0 <= q < Leaves(m.nblks) && 0 <= i < NENTRY && L1_NBLKS + NENTRY * q + i < |c| ==>
          st[st[m.dbIndirect][q]][i] == c[L1_NBLKS + NENTRY * q + i])
  }

  ghost predicate Holds(m: Map, st: Store, c: seq<nat>) {
    MapOk(m, st) && Resolves(m, st, c)
  }

  /** The index blocks of a file. */
  ghost function IndexBlocks(m: Map, st: Store): set<nat>
    requires MapOk(m, st)
  {
    (if m.nblks > NDIRECT then {m.indirect} else {})
    + (if m.nblks > L1_NBLKS then {m.dbIndirect} + LeafSet(st[m.dbIndirect], Leaves(m.nblks)) else {})
  }

  ghost function LeafSet(top: seq<nat>, n: nat): set<nat>
    requires n <= |top|
  {
    set q | 0 <= q < n :: top[q]
  }

  lemma {:induction false} LeafSetNext(top: seq<nat>, n: nat, b: nat)
    requires n < |top|
    ensures LeafSet(top[n := b], n + 1) == LeafSet(top, n) + {b}
  {
    var after := top[n := b];
    assert after[n] == b;
    forall x
      ensures x in LeafSet(after, n + 1) <==> x in LeafSet(top, n) || x == b
    {
      if x in LeafSet(top, n) {
        var q :| 0 <= q < n && top[q] == x;
        assert after[q] == x;
      }
      if x in LeafSet(after, n + 1) {
        var q :| 0 <= q < n + 1 && after[q] == x;
        assert q < n ==> top[q] == x;
      }
    }
  }

  /** Block i of a file, looked up as the kernel looks it up on the finished image. */
  function Lookup(m: Map, st: Store, i: nat): nat
    requires MapOk(m, st) && i < m.nblks
  {
    if i < NDIRECT then m.direct[i]
    else if i < L1_NBLKS then st[m.indirect][i - NDIRECT]
    else
      LeafBounds(m.nblks, i);
      st[st[m.dbIndirect][(i - L1_NBLKS) / NENTRY]][(i - L1_NBLKS) % NENTRY]
  }

  lemma {:induction false} LeafBounds(n: nat, i: nat)
    requires L1_NBLKS <= i < n <= LN_NBLKS
    ensures (i - L1_NBLKS) / NENTRY < Leaves(n) <= NENTRY
  {
  }

  /** In a file that holds c, every lookup gives the block appended at that place. */
  lemma {:induction false} LookupAgrees(m: Map, st: Store, c: seq<nat>, i: nat)
    requires Holds(m, st, c) && i < |c|
    ensures Lookup(m, st, i) == c[i]
  {
    if i >= L1_NBLKS {
      LeafBounds(m.nblks, i);
      var q, s := (i - L1_NBLKS) / NENTRY, (i - L1_NBLKS) % NENTRY;
      assert i == L1_NBLKS + NENTRY * q + s;
      assert st[st[m.dbIndirect][q]][s] == c[L1_NBLKS + NENTRY * q + s];
    }
  }

  // ----- append_block -----

  /** What update_cache leaves: the store, the next free block, the block now cached, and whether it had
      to search the hash table for it. */
  datatype Update = Update(st: Store, next: nat, block: nat, searched: bool)

  function Zeros(): seq<nat> {
    seq(NENTRY, i => 0)
  }

  /** update_cache for a cache entry cb and a block number field ino. */
  function UpdateCache(st: Store, next: nat, cb: nat, ino: nat): Update {
    if ino == 0 then Update(st[next := Zeros()], next + 1, next, false)
    else Update(st, next, ino, cb != ino)
  }

  /** The index blocks that appending to a file of n blocks creates. */
  function Created(n: nat): nat {
    if n == NDIRECT then 1
    else if n == L1_NBLKS then 2
    else if n > L1_NBLKS && (n - L1_NBLKS) % NENTRY == 0 then 1
    else 0
  }

  function NewBlocks(n: nat, next: nat): set<nat> {
    if Created(n) == 0 then {} else if Created(n) == 1 then {next} else {next, next + 1}
  }

  /** append_block's effect on the block map: the new map, and the last update of the cache. */
  function Append(m: Map, st: Store, next: nat, ino: nat): (Map, Update)
    requires MapOk(m, st) && m.nblks < LN_NBLKS && next != 0 && next !in st && next + 1 !in st
  {
    if m.nblks < NDIRECT then
      (m.(direct := m.direct[m.nblks := ino], nblks := m.nblks + 1), Update(st, next, 0, false))
    else if m.nblks < L1_NBLKS then
      var u := UpdateCache(st, next, m.l1, m.indirect);
      var block: seq<nat> := u.st[u.block][m.nblks - NDIRECT := ino];
      (m.(indirect := u.block, l1 := u.block, nblks := m.nblks + 1), u.(st := u.st[u.block := block]))
    else
      var r := m.nblks - L1_NBLKS;
      var u2 := UpdateCache(st, next, m.l2, m.dbIndirect);
      var u1 := UpdateCache(u2.st, u2.next, m.l1, u2.st[u2.block][r / NENTRY]);
      var top: seq<nat> := u2.st[u2.block][r / NENTRY := u1.block];
      var block: seq<nat> := u1.st[u1.block][r % NENTRY := ino];
      (m.(dbIndirect := u2.block, l2 := u2.block, l1 := u1.block, nblks := m.nblks + 1),
       Update(u1.st[u2.block := top][u1.block := block], u1.next, u1.block, u2.searched || u1.searched))
  }

  /** What append_block promises: the block is added at the end, the cache is never searched, new index
      blocks are taken in order, and no other index block changes. */
  ghost predicate Appended(m: Map, st: Store, c: seq<nat>, next: nat, ino: nat, m': Map, u: Update) {
    && Holds(m, st, c) && Holds(m', u.st, c + [ino])
    && !u.searched && u.next == next + Created(m.nblks)
    && IndexBlocks(m', u.st) == IndexBlocks(m, st) + NewBlocks(m.nblks, next)
    && u.st.Keys == st.Keys + NewBlocks(m.nblks, next)
    && (forall b :: b in st && b !in IndexBlocks(m, st) ==> u.st[b] == st[b])
  }

  lemma {:induction false} AppendDirect(m: Map, st: Store, c: seq<nat>, next: nat, ino: nat)
    requires Holds(m, st, c) && m.nblks < NDIRECT
    requires next != 0 && next !in st && next + 1 !in st
    ensures var (m', u) := Append(m, st, next, ino); Appended(m, st, c, next, ino, m', u)
  {
  }

  lemma {:induction false} AppendIndirect(m: Map, st: Store, c: seq<nat>, next: nat, ino: nat)
    requires Holds(m, st, c) && NDIRECT <= m.nblks < L1_NBLKS
    requires next != 0 && next !in st && next + 1 !in st
    ensures var (m', u) := Append(m, st, next, ino); Appended(m, st, c, next, ino, m', u)
  {
  }

  lemma {:induction false} LeavesNext(n: nat)
    requires L1_NBLKS <= n < LN_NBLKS
    ensures var q := (n - L1_NBLKS) / NENTRY;
            Leaves(n + 1) == q + 1 <= NENTRY && Leaves(n) == if (n - L1_NBLKS) % NENTRY == 0 then q else q + 1
  {
  }

  /** The first doubly indirect block: both levels are created. */
  lemma {:induction false} AppendFirstLeaf(m: Map, st: Store, c: seq<nat>, next: nat, ino: nat)
    requires Holds(m, st, c) && m.nblks == L1_NBLKS
    requires next != 0 && next !in st && next + 1 !in st
    ensures var (m', u) := Append(m, st, next, ino); Appended(m, st, c, next, ino, m', u)
  {
    LeavesNext(m.nblks);
    LeafSetNext(Zeros(), 0, next + 1);
  }

  /** What append_block does when it creates a further leaf. */
  lemma {:induction false} NextLeafIs(m: Map, st: Store, next: nat, ino: nat)
    requires MapOk(m, st) && L1_NBLKS < m.nblks < LN_NBLKS && (m.nblks - L1_NBLKS) % NENTRY == 0
    requires next != 0 && next !in st && next + 1 !in st
    ensures var top: seq<nat> := st[m.dbIndirect][Leaves(m.nblks) := next];
            var block: seq<nat> := Zeros()[0 := ino];
            Append(m, st, next, ino)
            == (m.(l1 := next, nblks := m.nblks + 1),
                Update(st[next := Zeros()][m.dbIndirect := top][next := block], next + 1, next, false))
  {
    LeavesNext(m.nblks);
  }

  /** The first block of a further leaf: the leaf is created, its parent is in the cache. */
  lemma {:induction false} AppendNextLeaf(m: Map, st: Store, c: seq<nat>, next: nat, ino: nat)
    requires Holds(m, st, c) && L1_NBLKS < m.nblks < LN_NBLKS && (m.nblks - L1_NBLKS) % NENTRY == 0
    requires next != 0 && next !in st && next + 1 !in st
    ensures var (m', u) := Append(m, st, next, ino); Appended(m, st, c, next, ino, m', u)
  {
    NextLeafIs(m, st, next, ino);
    var top: seq<nat> := st[m.dbIndirect][Leaves(m.nblks) := next];
    var block: seq<nat> := Zeros()[0 := ino];
    NextLeafHolds(m, st, c, next, ino, st[next := Zeros()][m.dbIndirect := top][next := block]);
  }

  lemma {:induction false} NextLeafHolds(m: Map, st: Store, c: seq<nat>, next: nat, ino: nat, st': Store)
    requires Holds(m, st, c) && L1_NBLKS < m.nblks < LN_NBLKS && (m.nblks - L1_NBLKS) % NENTRY == 0
    requires next != 0 && next !in st && st'.Keys == st.Keys + {next}
    requires st'[m.dbIndirect] == st[m.dbIndirect][Leaves(m.nblks) := next] && st'[next] == Zeros()[0 := ino]
    requires forall b :: b in st && b != m.dbIndirect ==> st'[b] == st[b]
    ensures var m' := m.(l1 := next, nblks := m.nblks + 1);
            Appended(m, st, c, next, ino, m', Update(st', next + 1, next, false))
  {
    LeavesNext(m.nblks);
    LeafSetNext(st[m.dbIndirect], Leaves(m.nblks), next);
  }

  /** Any other doubly indirect block: both levels are in the cache. */
  lemma {:induction false} AppendInLeaf(m: Map, st: Store, c: seq<nat>, next: nat, ino: nat)
    requires Holds(m, st, c) && L1_NBLKS < m.nblks < LN_NBLKS && (m.nblks - L1_NBLKS) % NENTRY != 0
    requires next != 0 && next !in st && next + 1 !in st
    ensures var (m', u) := Append(m, st, next, ino); Appended(m, st, c, next, ino, m', u)
  {
    LeavesNext(m.nblks);
    var q, top := (m.nblks - L1_NBLKS) / NENTRY, st[m.dbIndirect];
    assert top[q := top[q]] == top;
    var (m', u) := Append(m, st, next, ino);
    assert u.st[m.dbIndirect] == top;
  }

  /** append_block on a file of any length: appending to the file is appending to the sequence it holds. */
  lemma {:induction false} AppendHolds(m: Map, st: Store, c: seq<nat>, next: nat, ino: nat)
    requires Holds(m, st, c) && m.nblks < LN_NBLKS
    requires next != 0 && next !in st && next + 1 !in st
    ensures var (m', u) := Append(m, st, next, ino); Appended(m, st, c, next, ino, m', u)
  {
    if m.nblks < NDIRECT {
      AppendDirect(m, st, c, next, ino);
    } else if m.nblks < L1_NBLKS {
      AppendIndirect(m, st, c, next, ino);
    } else if m.nblks == L1_NBLKS {
      AppendFirstLeaf(m, st, c, next, ino);
    } else if (m.nblks - L1_NBLKS) % NENTRY == 0 {
      AppendNextLeaf(m, st, c, next, ino);
    } else {
      AppendInLeaf(m, st, c, next, ino);
    }
  }

  /** Changes to other index blocks do not matter to a file. */
  lemma {:induction false} HoldsElsewhere(m: Map, st: Store, c: seq<nat>, st': Store)
    requires Holds(m, st, c) && forall b :: b in IndexBlocks(m, st) ==> b in st' && b in st && st'[b] == st[b]
    ensures Holds(m, st', c) && IndexBlocks(m, st') == IndexBlocks(m, st)
  {
    if m.nblks > L1_NBLKS {
      assert m.dbIndirect in IndexBlocks(m, st);
      var top := st[m.dbIndirect];
      forall q | 0 <= q < Leaves(m.nblks)
        ensures top[q] in IndexBlocks(m, st)
      {
        assert top[q] in LeafSet(top, Leaves(m.nblks));
      }
    }
  }

  lemma {:induction false} EmptyHolds(st: Store)
    ensures Holds(EmptyMap(), st, []) && IndexBlocks(EmptyMap(), st) == {}
  {
  }
}
