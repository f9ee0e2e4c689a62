/** What the SLUB calls promise, one at a time and over whole runs. */
module SlubRuns {
  import opened Bits
  import opened BuddyBlocks
  import opened Options
  import opened SlubModel
  import B = BuddyModel

  /** slub_alloc_objs */
  ghost function Alloc(s: Slub, n: nat): (Slub, Option<nat>)
    requires Good(s)
  {
    if n > MAX_OBJECT then (s, None)
    else
      var i := ClassFor(n);
      PreparedHeaded(s, i);
      match Prepared(s, i)
      case None => (s, None)
      case Some(t) =>
        var p := t.partial[i][0];
        (Taken(t, p, i), Some(t.objs[p][0]))
  }

  /** slub_free_objs */
  ghost function Free(s: Slub, a: nat): Slub
    requires Good(s) && Live(s, a)
  {
    FreedGood(s, a);
    Freed(s, a, a / PAGE_SIZE, s.cls[a / PAGE_SIZE])
  }

  /** Every managed page carries a slab. */
  ghost predicate PagesExhausted(s: Slub) {
    forall q: nat :: q < Pow2(s.heap.max) ==> q in s.cls
  }

  /** Every slab of class i has handed out all its objects. */
  ghost predicate ClassExhausted(s: Slub, i: nat) {
    forall p :: p in s.cls && s.cls[p] == i ==> forall a :: a in Slots(p, i) ==> Live(s, a)
  }

  lemma SmallestRequest(h: B.Heap)
    requires B.Good(h)
    ensures B.OrderUp(1) == 0 <= h.max < |h.lists| && 1 <= Pow2(h.max)
  {
  }

  lemma PreparedHeaded(s: Slub, i: nat)
    requires Good(s) && i < CACHE_NUM
    ensures B.OrderUp(1) <= s.heap.max < |s.heap.lists|
    ensures Prepared(s, i).Some? ==>
              Prepared(s, i).value.partial[i] != []
              && Headed(Prepared(s, i).value, Prepared(s, i).value.partial[i][0], i)
  {
    SmallestRequest(s.heap);
    if s.partial[i] != [] {
      PartialHeaded(s, i);
    } else if s.empty[i] != [] {
      OpenedHeaded(s, i);
    } else if B.Alloc(s.heap, 1).1.Some? {
      CreatedGood(s, i);
      var (heap, page) := B.Alloc(s.heap, 1);
      OpenedHeaded(Created(s, heap, page.value, i), i);
    }
  }

  lemma PreparedLive(s: Slub, i: nat, a: nat)
    requires Good(s) && i < CACHE_NUM && B.OrderUp(1) <= s.heap.max < |s.heap.lists|
    requires Prepared(s, i).Some?
    ensures Live(Prepared(s, i).value, a) <==> Live(s, a)
  {
    if s.partial[i] == [] && s.empty[i] == [] {
      CreatedGood(s, i);
    }
  }

  // ----- one call -----

  lemma AllocGood(s: Slub, n: nat)
    requires Good(s)
    ensures Good(Alloc(s, n).0) && Alloc(s, n).0.heap.max == s.heap.max
  {
    if n <= MAX_OBJECT {
      var i := ClassFor(n);
      PreparedHeaded(s, i);
      if Prepared(s, i).Some? {
        var t := Prepared(s, i).value;
        TakenGood(t, t.partial[i][0], i);
      }
    }
  }

  /** A successful request makes live exactly one address, which was not live before. */
  lemma AllocLive(s: Slub, n: nat, a: nat)
    requires Good(s)
    ensures Live(Alloc(s, n).0, a) <==> Live(s, a) || Alloc(s, n).1 == Some(a)
    ensures Alloc(s, n).1 == Some(a) ==> !Live(s, a)
  {
    if n <= MAX_OBJECT {
      var i := ClassFor(n);
      PreparedHeaded(s, i);
      if Prepared(s, i).Some? {
        var t := Prepared(s, i).value;
        PreparedLive(s, i, a);
        TakenLive(t, t.partial[i][0], i);
      }
    }
  }

  /** The object handed out is at least n bytes of its slab's page, past the header. */
  lemma AllocFits(s: Slub, n: nat)
    requires Good(s) && Alloc(s, n).1.Some?
    ensures n <= MAX_OBJECT
    ensures var (t, a, i) := (Alloc(s, n).0, Alloc(s, n).1.value, ClassFor(n));
            var p := a / PAGE_SIZE;
            && p in t.cls && t.cls[p] == i && n <= ObjSize(i)
            && p * PAGE_SIZE + SLAB_SIZE <= a && a + ObjSize(i) <= (p + 1) * PAGE_SIZE
  {
    var i := ClassFor(n);
    PreparedHeaded(s, i);
    var t := Prepared(s, i).value;
    var p := t.partial[i][0];
    TakenLive(t, p, i);
    assert t.objs[p][0] in t.objs[p];
    var j :| 0 <= j < Capacity(i) && Slots(p, i)[j] == t.objs[p][0];
    SlotFacts(p, i, j);
  }

  /** A request fails exactly when it is too large, or its class has no object left and there is no
      page left to make a slab of. */
  lemma AllocFails(s: Slub, n: nat)
    requires Good(s)
    ensures Alloc(s, n).1 == None <==>
            n > MAX_OBJECT || (PagesExhausted(s) && ClassExhausted(s, ClassFor(n)))
  {
    if n <= MAX_OBJECT {
      var i := ClassFor(n);
      ClassExhaustion(s, i);
      if s.partial[i] == [] && s.empty[i] == [] {
        PageExhaustion(s);
      }
    }
  }

  lemma ClassExhaustion(s: Slub, i: nat)
    requires Good(s) && i < CACHE_NUM
    ensures ClassExhausted(s, i) <==> s.partial[i] == [] && s.empty[i] == []
  {
    if s.partial[i] == [] && s.empty[i] == [] {
      forall p, a | p in s.cls && s.cls[p] == i && a in Slots(p, i)
        ensures Live(s, a)
      {
        SlabCount(s, p);
        SlotsNoDup(p, i);
        assert p !in s.partial[i] && p !in s.empty[i];
      }
    } else {
      var p := if s.partial[i] != [] then s.partial[i][0] else s.empty[i][0];
      assert p in s.partial[i] || p in s.empty[i];
      ClassFacts(i);
      var a := s.objs[p][0];
      assert a in s.objs[p] && a in Slots(p, i);
      SlotsNoDup(p, i);
      assert !Live(s, a);
    }
  }

  lemma UnusedPage(max: nat, cls: map<nat, nat>, q: nat)
    ensures InRange(max, Block(q, 0)) && WhollyFree(PageBlocks(cls), Block(q, 0)) <==> q < Pow2(max) && q !in cls
  {
    assert q in cls ==> Block(q, 0) in PageBlocks(cls) && !Disjoint(Block(q, 0), Block(q, 0));
  }

  lemma PageExhaustion(s: Slub)
    requires Good(s)
    ensures B.OrderUp(1) <= s.heap.max < |s.heap.lists|
    ensures B.Alloc(s.heap, 1).1 == None <==> PagesExhausted(s)
  {
    SmallestRequest(s.heap);
    B.AllocComplete(s.heap, 1);
    forall q: nat {
      UnusedPage(s.heap.max, s.cls, q);
    }
  }

  /** Two live objects never overlap. */
  lemma LiveApart(s: Slub, a: nat, b: nat)
    requires Good(s) && Live(s, a) && Live(s, b) && a < b
    ensures a + ObjSize(s.cls[a / PAGE_SIZE]) <= b
  {
    var p, q := a / PAGE_SIZE, b / PAGE_SIZE;
    var j :| 0 <= j < Capacity(s.cls[p]) && Slots(p, s.cls[p])[j] == a;
    var k :| 0 <= k < Capacity(s.cls[q]) && Slots(q, s.cls[q])[k] == b;
    SlotFacts(p, s.cls[p], j);
    SlotFacts(q, s.cls[q], k);
    if p == q {
      if k < j {
        SlotsApart(p, s.cls[p], k, j);
      }
      SlotsApart(p, s.cls[p], j, if j < k then k else j + 1);
    }
  }

  /** Returning an object makes exactly that address not live. */
  lemma FreeGood(s: Slub, a: nat)
    requires Good(s) && Live(s, a)
    ensures Good(Free(s, a)) && Free(s, a).heap.max == s.heap.max
    ensures forall b: nat :: Live(Free(s, a), b) <==> Live(s, b) && b != a
  {
    FreedGood(s, a);
    forall b: nat
      ensures Live(Free(s, a), b) <==> Live(s, b) && b != a
    {
      FreedLive(s, a, b);
    }
  }

  // ----- whole runs -----

  datatype Op = AllocOp(n: nat) | FreeOp(a: nat)

  ghost predicate Legal(s: Slub, op: Op) {
    op.FreeOp? ==> Live(s, op.a)
  }

  ghost function Step(s: Slub, op: Op): (t: Slub)
    requires Good(s) && Legal(s, op)
    ensures Good(t) && t.heap.max == s.heap.max
  {
    AllocGood(s, 0);
    match op
    case AllocOp(n) => AllocGood(s, n); Alloc(s, n).0
    case FreeOp(a) => FreeGood(s, a); Free(s, a)
  }

  ghost predicate Runs(s: Slub, ops: seq<Op>, t: Slub)
    requires Good(s)
    decreases |ops|
  {
    if ops == [] then t == s else Legal(s, ops[0]) && Runs(Step(s, ops[0]), ops[1..], t)
  }

  /** No list of wholly unused slabs has a member. */
  ghost predicate NoneIdle(s: Slub) {
    forall i :: 0 <= i < |s.empty| ==> s.empty[i] == []
  }

  /** The allocator as slub_init and slub_init_memmap leave it. */
  function Initial(max: nat): Slub
    requires max <= B.MAX_ORDER
  {
    var none := seq(CACHE_NUM, i => []);
    Slub(B.Initial(max), none, none, none, map[], map[])
  }

  lemma InitialGood(max: nat)
    requires max <= B.MAX_ORDER
    ensures Good(Initial(max)) && NoneIdle(Initial(max))
  {
    B.InitialGood(max);
    assert PageBlocks(map[]) == {};
  }

  lemma PreparedNoneIdle(s: Slub, i: nat)
    requires NoneIdle(s) && i < |s.partial| && i < |s.empty| && B.OrderUp(1) <= s.heap.max < |s.heap.lists|
    ensures Prepared(s, i).Some? ==> NoneIdle(Prepared(s, i).value)
  {
    var (heap, page) := B.Alloc(s.heap, 1);
    if page.Some? {
      var t := Created(s, heap, page.value, i);
      assert t.empty[i] == [page.value];
    }
  }

  /** An unused slab exists only inside a call: slub_free_objs gives its page back at once. */
  lemma StepNoneIdle(s: Slub, op: Op)
    requires Good(s) && Legal(s, op) && NoneIdle(s)
    ensures NoneIdle(Step(s, op))
  {
    if op.AllocOp? && op.n <= MAX_OBJECT {
      PreparedHeaded(s, ClassFor(op.n));
      PreparedNoneIdle(s, ClassFor(op.n));
    }
  }

  lemma {:induction false} RunNoneIdle(s: Slub, ops: seq<Op>, t: Slub)
    requires Good(s) && Runs(s, ops, t) && NoneIdle(s)
    ensures Good(t) && NoneIdle(t) && t.heap.max == s.heap.max
    decreases |ops|
  {
    if ops != [] {
      StepNoneIdle(s, ops[0]);
      RunNoneIdle(Step(s, ops[0]), ops[1..], t);
    }
  }

  /** A slab is on the full list when no object is unused and on the partial list otherwise, and then
      some but not all of its objects are live. */
  lemma SlabStanding(s: Slub, p: nat)
    requires Good(s) && NoneIdle(s) && p in s.cls
    ensures p in s.objs && s.cls[p] < CACHE_NUM
    ensures p in s.full[s.cls[p]] <==> s.objs[p] == []
    ensures p in s.partial[s.cls[p]] <==> s.objs[p] != []
    ensures exists a :: a in Slots(p, s.cls[p]) && Live(s, a)
  {
    SlabCount(s, p);
    assert p !in s.empty[s.cls[p]];
    var a :| a in Slots(p, s.cls[p]) && a !in s.objs[p];
    SlotsNoDup(p, s.cls[p]);
    assert Live(s, a);
  }

  /** In every state reached by allocating and returning objects, each slab stands on the one list of its
      class that its objects call for. */
  lemma {:induction false} ReachedSlab(max: nat, ops: seq<Op>, s: Slub, p: nat)
    requires max <= B.MAX_ORDER && Good(Initial(max)) && Runs(Initial(max), ops, s) && p in s.cls
    ensures Good(s) && p in s.objs && s.cls[p] < CACHE_NUM
    ensures p in s.full[s.cls[p]] <==> s.objs[p] == []
    ensures p in s.partial[s.cls[p]] <==> s.objs[p] != []
    ensures forall i :: 0 <= i < CACHE_NUM ==> p !in s.empty[i]
    ensures exists a :: a in Slots(p, s.cls[p]) && Live(s, a)
  {
    InitialGood(max);
    RunNoneIdle(Initial(max), ops, s);
    SlabStanding(s, p);
  }

  lemma NoSlabs(s: Slub)
    requires Good(s) && NoneIdle(s) && s.cls == map[]
    ensures s == Initial(s.heap.max)
  {
    assert s.heap.live == {};
    NothingLive(s.heap.max, B.FreeSet(s.heap.lists));
    B.OneBlockLists(s.heap.lists, s.heap.max);
    assert s.objs == map[];
    NoMembers(s);
  }

  lemma NoMembers(s: Slub)
    requires ListsAgree(s, {}) && s.cls == map[]
    ensures forall i :: 0 <= i < CACHE_NUM ==> s.full[i] == [] && s.partial[i] == []
  {
    forall i | 0 <= i < CACHE_NUM
      ensures s.full[i] == [] && s.partial[i] == []
    {
      HasMember(s.full[i]);
      HasMember(s.partial[i]);
    }
  }

  lemma HasMember(s: seq<nat>)
    ensures s != [] ==> exists p :: p in s
  {
    assert s != [] ==> s[0] in s;
  }

  /** Once every object has been returned, in whatever order, the buddy heap is one free block again. */
  lemma DrainedRun(max: nat, ops: seq<Op>, s: Slub)
    requires max <= B.MAX_ORDER && Good(Initial(max)) && Runs(Initial(max), ops, s)
    requires forall a: nat :: !Live(s, a)
    ensures s == Initial(max)
  {
    InitialGood(max);
    RunNoneIdle(Initial(max), ops, s);
    forall p | p in s.cls
      ensures exists a: nat :: Live(s, a)
    {
      ReachedSlab(max, ops, s, p);
    }
    assert s.cls == map[];
    NoSlabs(s);
  }
}
