/** Which slab and which object a SLUB request gets, and what a release leaves for the next request. */
module SlubOrder {
  import opened Bits
  import opened BuddyBlocks
  import opened Options
  import opened SlubModel
  import opened SlubRuns
  import B = BuddyModel

  // ----- requests -----

  /** Slab p of class i, the first partial one, lost its first unused object; it is full if that was its last. */
  ghost predicate HeadTaken(s: Slub, t: Slub, p: nat, i: nat) {
    && i < |s.partial| && i < |s.full| && s.partial[i] != [] && s.partial[i][0] == p && p in s.objs && s.objs[p] != []
    && t.heap == s.heap && t.cls == s.cls && t.empty == s.empty && t.objs == s.objs[p := s.objs[p][1..]]
    && if |s.objs[p]| == 1
       then t.partial == s.partial[i := s.partial[i][1..]] && t.full == s.full[i := [p] + s.full[i]]
       else t.partial == s.partial && t.full == s.full
  }

  lemma {:induction false} TakenHead(s: Slub, p: nat, i: nat)
    requires Headed(s, p, i)
    ensures HeadTaken(s, Taken(s, p, i), p, i)
  {
    var rest := s.objs[p][1..];
    assert rest == [] <==> |s.objs[p]| == 1;
  }

  /** While the class has a partial slab, the first unused object of the first one is handed out. */
  lemma {:induction false} AllocPartial(s: Slub, n: nat)
    requires Good(s) && n <= MAX_OBJECT && s.partial[ClassFor(n)] != []
    ensures var i := ClassFor(n);
            var p := s.partial[i][0];
            && HeadTaken(s, Alloc(s, n).0, p, i) && Alloc(s, n).1 == Some(s.objs[p][0])
  {
    var i := ClassFor(n);
    SmallestRequest(s.heap);
    PartialHeaded(s, i);
    TakenHead(s, s.partial[i][0], i);
  }

  /** Otherwise its first empty slab, if there is one, becomes its first partial one. */
  lemma {:induction false} AllocEmpty(s: Slub, n: nat)
    requires Good(s) && n <= MAX_OBJECT && s.partial[ClassFor(n)] == [] && s.empty[ClassFor(n)] != []
    ensures var i := ClassFor(n);
            var p := s.empty[i][0];
            var moved := s.(empty := s.empty[i := s.empty[i][1..]], partial := s.partial[i := [p]]);
            p in s.objs && s.objs[p] != [] && HeadTaken(moved, Alloc(s, n).0, p, i)
            && Alloc(s, n).1 == Some(s.objs[p][0])
  {
    var i := ClassFor(n);
    SmallestRequest(s.heap);
    OpenedHeaded(s, i);
    assert [s.empty[i][0]] + s.partial[i] == [s.empty[i][0]];
    TakenHead(Opened(s, i), s.empty[i][0], i);
  }

  /** A slab of class i was made on the page that the buddy allocator hands out, and its first object taken. */
  ghost predicate PageTaken(s: Slub, t: Slub, p: nat, i: nat) {
    && B.OrderUp(1) <= s.heap.max < |s.heap.lists| && B.Alloc(s.heap, 1) == (t.heap, Some(p))
    && i < CACHE_NUM && |s.partial| == CACHE_NUM && p !in s.cls && |Slots(p, i)| > 1
    && t.cls == s.cls[p := i] && t.objs == s.objs[p := Slots(p, i)[1..]]
    && t.full == s.full && t.empty == s.empty && t.partial == s.partial[i := [p]]
  }

  /** Only when the class has neither, a page is taken, and its first object, behind the header, is handed out. */
  lemma {:induction false} AllocNewPage(s: Slub, n: nat)
    requires Good(s) && n <= MAX_OBJECT && s.partial[ClassFor(n)] == [] && s.empty[ClassFor(n)] == []
    ensures var (t, r) := Alloc(s, n);
            B.OrderUp(1) <= s.heap.max < |s.heap.lists|
            && if B.Alloc(s.heap, 1).1 == None then r == None && t == s
               else var p := B.Alloc(s.heap, 1).1.value;
                    PageTaken(s, t, p, ClassFor(n)) && r == Some(p * PAGE_SIZE + 64)
  {
    var i := ClassFor(n);
    SmallestRequest(s.heap);
    var (heap, page) := B.Alloc(s.heap, 1);
    if page.Some? {
      CreatedGood(s, i);
      NewPage(s, heap, page.value, i);
    }
  }

  lemma {:induction false} NewPage(s: Slub, heap: B.Heap, p: nat, i: nat)
    requires i < CACHE_NUM && |s.partial| == |s.empty| == |s.full| == CACHE_NUM
    requires s.partial[i] == [] && s.empty[i] == []
    ensures var c := Opened(Created(s, heap, p, i), i);
            && c.partial[i] == [p] && c.objs[p] == Slots(p, i) && |Slots(p, i)| > 1
            && Slots(p, i)[0] == p * PAGE_SIZE + 64
            && Taken(c, p, i) == s.(heap := heap, cls := s.cls[p := i], objs := s.objs[p := Slots(p, i)[1..]],
                                    partial := s.partial[i := [p]])
  {
    var c := Created(s, heap, p, i);
    ClassFacts(i);
    assert [p] + s.empty[i] == [p] && [p] + s.partial[i] == [p];
    assert c.empty[i][1..] == [] && c.empty[i := []] == s.empty;
    assert s.objs[p := Slots(p, i)][p := Slots(p, i)[1..]] == s.objs[p := Slots(p, i)[1..]];
  }

  /** Pages are taken from the buddy allocator only for a class that has handed out all its objects, and then one
      page, for this class; its first object is handed out. */
  lemma {:induction false} AllocPages(s: Slub, n: nat)
    requires Good(s) && n <= MAX_OBJECT
    ensures var (t, r) := Alloc(s, n);
            && (!ClassExhausted(s, ClassFor(n)) ==> t.heap == s.heap && t.cls == s.cls && r.Some?)
            && (ClassExhausted(s, ClassFor(n)) && r.Some? ==>
                  var p := r.value / PAGE_SIZE;
                  PageTaken(s, t, p, ClassFor(n)) && r.value == p * PAGE_SIZE + 64)
  {
    var i := ClassFor(n);
    ClassExhaustion(s, i);
    if s.partial[i] != [] {
      AllocPartial(s, n);
    } else if s.empty[i] != [] {
      AllocEmpty(s, n);
    } else {
      AllocNewPage(s, n);
      assert forall p: nat :: (p * PAGE_SIZE + 64) / PAGE_SIZE == p;
    }
  }

  // ----- releases -----

  /** Another object of a's slab is live. */
  ghost predicate Shared(s: Slub, a: nat) {
    exists b: nat :: b != a && b / PAGE_SIZE == a / PAGE_SIZE && Live(s, b)
  }

  /** Object a has become the first unused object of slab p, which heads the partial list if it was full. */
  ghost predicate PutFirst(s: Slub, t: Slub, a: nat, p: nat, i: nat) {
    && p in s.objs && i < |s.full| && i < |s.partial|
    && t.heap == s.heap && t.cls == s.cls && t.empty == s.empty && t.objs == s.objs[p := [a] + s.objs[p]]
    && if s.objs[p] == []
       then t.full == s.full[i := B.Without(s.full[i], p)] && t.partial == s.partial[i := [p] + s.partial[i]]
       else t.full == s.full && t.partial == s.partial
  }

  lemma {:induction false} UnusedWith(s: Slub, a: nat)
    requires Good(s) && Live(s, a)
    ensures var p := a / PAGE_SIZE;
            |[a] + s.objs[p]| == Capacity(s.cls[p]) <==> !Shared(s, a)
    ensures s.cls[a / PAGE_SIZE] < CACHE_NUM
  {
    var p := a / PAGE_SIZE;
    var free := [a] + s.objs[p];
    SlotsNoDup(p, s.cls[p]);
    Pigeonhole(free, Slots(p, s.cls[p]));
    if |free| != Capacity(s.cls[p]) {
      var b :| b in Slots(p, s.cls[p]) && b !in free;
      assert Live(s, b);
    }
  }

  /** The order of a slab's unused objects is that of a stack. */
  lemma {:induction false} FreeFirst(s: Slub, a: nat)
    requires Good(s) && Live(s, a) && Shared(s, a)
    ensures var p := a / PAGE_SIZE; PutFirst(s, Free(s, a), a, p, s.cls[p])
  {
    UnusedWith(s, a);
    FreedGood(s, a);
    ClassFacts(s.cls[a / PAGE_SIZE]);
  }

  /** Slab p is gone and its page given back. */
  ghost predicate PageGone(s: Slub, t: Slub, p: nat, i: nat) {
    && 0 <= s.heap.max < |s.heap.lists| && i < |s.partial|
    && t == s.(heap := B.Free(s.heap, Block(p, 0)), cls := s.cls - {p}, objs := s.objs - {p},
               partial := s.partial[i := B.Without(s.partial[i], p)])
  }

  lemma {:induction false} FreeLast(s: Slub, a: nat)
    requires Good(s) && Live(s, a) && !Shared(s, a)
    ensures PageGone(s, Free(s, a), a / PAGE_SIZE, s.cls[a / PAGE_SIZE])
  {
    UnusedWith(s, a);
    FreedGood(s, a);
  }

  // ----- requests after releases, and releases after requests -----

  /** t is s but for slab p, which heads the full list of its class if it has no unused object. */
  ghost predicate BackAgain(s: Slub, t: Slub, p: nat, i: nat) {
    && i < |s.full| && p in s.objs
    && t == s.(full := if s.objs[p] == [] then s.full[i := [p] + B.Without(s.full[i], p)] else s.full)
  }

  lemma {:induction false} PutThenTaken(s: Slub, m: Slub, t: Slub, a: nat, p: nat, i: nat)
    requires PutFirst(s, m, a, p, i) && HeadTaken(m, t, p, i)
    ensures m.objs[p][0] == a && BackAgain(s, t, p, i)
  {
    assert ([a] + s.objs[p])[1..] == s.objs[p] && s.objs[p := [a] + s.objs[p]][p := s.objs[p]] == s.objs;
    if s.objs[p] == [] {
      assert ([p] + s.partial[i])[1..] == s.partial[i];
      assert s.partial[i := [p] + s.partial[i]][i := s.partial[i]] == s.partial;
    }
  }

  /** Slab p is full or heads the partial list of its class. */
  ghost predicate InFront(s: Slub, p: nat, i: nat) {
    p in s.objs && i < |s.partial| && (s.objs[p] == [] || (s.partial[i] != [] && s.partial[i][0] == p))
  }

  lemma {:induction false} NextServed(s: Slub, m: Slub, a: nat, p: nat, n: nat)
    requires n <= MAX_OBJECT && InFront(s, p, ClassFor(n)) && PutFirst(s, m, a, p, ClassFor(n)) && Good(m)
    ensures Alloc(m, n).1 == Some(a) && BackAgain(s, Alloc(m, n).0, p, ClassFor(n))
  {
    AllocPartial(m, n);
    PutThenTaken(s, m, Alloc(m, n).0, a, p, ClassFor(n));
  }

  /** An object returned to a slab that was full, or that heads the partial list, is the next one of its class to
      be handed out, and the allocator is then as it was, with the slab at the head of the full list if it is
      full. */
  lemma {:induction false} FreeThenAlloc(s: Slub, a: nat, n: nat)
    requires Good(s) && Live(s, a) && Shared(s, a) && n <= MAX_OBJECT && ClassFor(n) == s.cls[a / PAGE_SIZE]
    requires InFront(s, a / PAGE_SIZE, ClassFor(n))
    ensures Good(Free(s, a)) && Alloc(Free(s, a), n).1 == Some(a)
    ensures BackAgain(s, Alloc(Free(s, a), n).0, a / PAGE_SIZE, ClassFor(n))
  {
    FreeFirst(s, a);
    FreeGood(s, a);
    NextServed(s, Free(s, a), a, a / PAGE_SIZE, n);
  }

  lemma {:induction false} TakenThenPut(s: Slub, m: Slub, t: Slub, a: nat, p: nat, i: nat)
    requires HeadTaken(s, m, p, i) && a == s.objs[p][0] && PutFirst(m, t, a, p, i)
    ensures t == s
  {
    assert [a] + s.objs[p][1..] == s.objs[p];
    assert s.objs[p := s.objs[p][1..]][p := s.objs[p]] == s.objs;
    if |s.objs[p]| == 1 {
      assert s.objs[p][1..] == [] && m.objs[p] == [];
      assert [p] + s.partial[i][1..] == s.partial[i] && B.Without([p] + s.full[i], p) == s.full[i];
      assert s.partial[i := s.partial[i][1..]][i := s.partial[i]] == s.partial;
      assert s.full[i := [p] + s.full[i]][i := s.full[i]] == s.full;
    }
  }

  /** A partial slab has a live object, which stays live next to the one handed out. */
  lemma {:induction false} StillShared(s: Slub, n: nat)
    requires Good(s) && n <= MAX_OBJECT && s.partial[ClassFor(n)] != []
    ensures Alloc(s, n).1.Some? && Shared(Alloc(s, n).0, Alloc(s, n).1.value)
    ensures Alloc(s, n).1.value / PAGE_SIZE == s.partial[ClassFor(n)][0]
  {
    var i := ClassFor(n);
    var p := s.partial[i][0];
    assert p in s.partial[i];
    AllocPartial(s, n);
    PartialHeaded(s, i);
    TakenLive(s, p, i);
    SlabCount(s, p);
    var b :| b in Slots(p, i) && b !in s.objs[p];
    SlotsNoDup(p, i);
    assert Live(s, b) && b != s.objs[p][0];
    AllocLive(s, n, b);
  }

  lemma {:induction false} PageThenBack(s: Slub, t: Slub, p: nat, i: nat)
    requires Good(s) && PageTaken(s, t, p, i) && s.partial[i] == []
    ensures forall u :: PageGone(t, u, p, i) ==> u == s
  {
    SmallestRequest(s.heap);
    B.AllocThenFree(s.heap, 1);
    assert s.cls[p := i] - {p} == s.cls && p !in s.objs;
    assert s.objs[p := Slots(p, i)[1..]] - {p} == s.objs;
    assert B.Without([p], p) == [] && s.partial[i := [p]][i := []] == s.partial;
  }

  /** The object handed out of a new slab is its only live one. */
  lemma {:induction false} NotShared(s: Slub, n: nat, p: nat)
    requires Good(s) && Alloc(s, n).1.Some? && Alloc(s, n).1.value / PAGE_SIZE == p && p !in s.cls
    ensures !Shared(Alloc(s, n).0, Alloc(s, n).1.value)
  {
    var a := Alloc(s, n).1.value;
    forall b: nat | b != a && b / PAGE_SIZE == p
      ensures !Live(Alloc(s, n).0, b)
    {
      AllocLive(s, n, b);
    }
  }

  /** Returning what was just handed out restores the allocator exactly, pages and the order of all lists
      included. */
  lemma {:induction false} AllocThenFree(s: Slub, n: nat)
    requires Good(s) && NoneIdle(s) && Alloc(s, n).1.Some?
    ensures var (t, r) := Alloc(s, n);
            Good(t) && Live(t, r.value) && Free(t, r.value) == s
  {
    var (t, r) := Alloc(s, n);
    var i, p := ClassFor(n), r.value / PAGE_SIZE;
    AllocGood(s, n);
    AllocLive(s, n, r.value);
    AllocFits(s, n);
    if s.partial[i] != [] {
      StillShared(s, n);
      AllocPartial(s, n);
      FreeFirst(t, r.value);
      TakenThenPut(s, t, Free(t, r.value), r.value, p, i);
    } else {
      AllocNewPage(s, n);
      assert forall q: nat :: (q * PAGE_SIZE + 64) / PAGE_SIZE == q;
      NotShared(s, n, p);
      FreeLast(t, r.value);
      PageThenBack(s, t, p, i);
    }
  }

  // ----- filling a slab -----

  /** The state after k requests of n bytes. */
  ghost function Requested(s: Slub, n: nat, k: nat): (t: Slub)
    requires Good(s)
    ensures Good(t)
  {
    if k == 0 then s
    else
      AllocGood(Requested(s, n, k - 1), n);
      Alloc(Requested(s, n, k - 1), n).0
  }

  /** The slab on page p is the first partial one of its class, and its first k objects have been taken. */
  ghost predicate TakenUpTo(t: Slub, p: nat, i: nat, k: nat) {
    i < |t.partial| && t.partial[i] == [p] && p in t.objs && k < Capacity(i) && t.objs[p] == Slots(p, i)[k..]
  }

  lemma {:induction false} TakenNext(t: Slub, n: nat, p: nat, k: nat)
    requires Good(t) && n <= MAX_OBJECT && TakenUpTo(t, p, ClassFor(n), k)
    ensures Alloc(t, n).1 == Some(Slot(p, ClassFor(n), k))
    ensures k + 1 < Capacity(ClassFor(n)) ==> TakenUpTo(Alloc(t, n).0, p, ClassFor(n), k + 1)
  {
    var i := ClassFor(n);
    AllocPartial(t, n);
    assert Slots(p, i)[k..][1..] == Slots(p, i)[k + 1..];
  }

  /** Class i has no unused object, and the buddy allocator has page p for it. */
  ghost predicate NewPageNext(s: Slub, p: nat, i: nat) {
    && i < |s.partial| && i < |s.empty| && s.partial[i] == [] && s.empty[i] == []
    && B.OrderUp(1) <= s.heap.max < |s.heap.lists| && B.Alloc(s.heap, 1).1 == Some(p)
  }

  lemma {:induction false} FirstTaken(s: Slub, n: nat, p: nat)
    requires Good(s) && n <= MAX_OBJECT && NewPageNext(s, p, ClassFor(n))
    ensures Alloc(s, n).1 == Some(Slot(p, ClassFor(n), 0)) && TakenUpTo(Alloc(s, n).0, p, ClassFor(n), 1)
  {
    AllocNewPage(s, n);
    FirstSlot(p, ClassFor(n));
  }

  lemma {:induction false} RequestedUpTo(s: Slub, n: nat, p: nat, k: nat)
    requires Good(s) && n <= MAX_OBJECT && NewPageNext(s, p, ClassFor(n)) && 0 < k < Capacity(ClassFor(n))
    ensures TakenUpTo(Requested(s, n, k), p, ClassFor(n), k)
  {
    if k == 1 {
      assert Requested(s, n, 0) == s;
      FirstTaken(s, n, p);
    } else {
      RequestedUpTo(s, n, p, k - 1);
      TakenNext(Requested(s, n, k - 1), n, p, k - 1);
    }
  }

  lemma {:induction false} SlotServed(s: Slub, n: nat, p: nat, k: nat)
    requires Good(s) && n <= MAX_OBJECT && NewPageNext(s, p, ClassFor(n)) && 0 < k < Capacity(ClassFor(n))
    ensures Alloc(Requested(s, n, k), n).1 == Some(Slot(p, ClassFor(n), k))
  {
    RequestedUpTo(s, n, p, k);
    TakenNext(Requested(s, n, k), n, p, k);
  }

  /** A class with no unused object takes a page, and its requests then get the objects of this page in the order
      of their addresses, until all have been handed out. */
  lemma {:induction false} SlabFills(s: Slub, n: nat, p: nat, k: nat)
    requires Good(s) && n <= MAX_OBJECT && NewPageNext(s, p, ClassFor(n)) && k < Capacity(ClassFor(n))
    ensures Alloc(Requested(s, n, k), n).1 == Some(p * PAGE_SIZE + 64 + k * ObjSize(ClassFor(n)))
  {
    if k == 0 {
      FirstTaken(s, n, p);
    } else {
      SlotServed(s, n, p, k);
    }
  }

  lemma {:induction false} FirstSlot(p: nat, i: nat)
    ensures p * PAGE_SIZE + 64 == Slot(p, i, 0)
  {
  }
}
