/** The SLUB allocator as the kernel runs it, on a buddy allocator of its own. */
module SlubSystem {
  import opened Bits
  import opened BuddyBlocks
  import opened Options
  import opened SlubModel
  import B = BuddyModel
  import R = SlubRuns
  import opened BuddySystem

  /** The object sizes that cache_init computes. */
  method CacheSizes() returns (sizes: seq<nat>)
    ensures |sizes| == CACHE_NUM && forall i :: 0 <= i < CACHE_NUM ==> sizes[i] == ObjSize(i)
  {
    sizes := [];
    var size := 32;
    for i := 0 to CACHE_NUM
      invariant size == ObjSize(i) && |sizes| == i
      invariant forall j :: 0 <= j < i ==> sizes[j] == ObjSize(j)
    {
      sizes := sizes + [size];
      size := size * 2;
    }
  }

  datatype Count = Count(free: nat, used: nat)

  /** A slab is named by its page, and its header's fields are kept by page; lists are held head first. */
  class SlubAllocator {
    const buddy: Buddy
    var objSize: seq<nat>            // cache[i].obj_size
    var full: seq<seq<nat>>          // cache[i].slabs_full
    var partial: seq<seq<nat>>       // cache[i].slabs_partial
    var empty: seq<seq<nat>>         // cache[i].slabs_free
    var objList: map<nat, seq<nat>>  // objlist of the slab on each page
    var count: map<nat, Count>       // free_cnt and in_use
    ghost var cls: map<nat, nat>     // the class each slab was created for

    /** The state over the given buddy heap. */
    ghost function View(heap: B.Heap): Slub
      reads this
    {
      Slub(heap, full, partial, empty, objList, cls)
    }

    ghost function State(): Slub
      reads this, buddy
    {
      View(buddy.State())
    }

    ghost predicate Counted(p: nat)
      reads this
    {
      && p in count && p in objList && p in cls
      && count[p].free == |objList[p]| && count[p].free + count[p].used == Capacity(cls[p])
    }

    /** The counters agree with the lists. */
    ghost predicate Coupled()
      reads this
    {
      && |full| == |partial| == |empty| == |objSize| == CACHE_NUM
      && (forall i :: 0 <= i < CACHE_NUM ==> objSize[i] == ObjSize(i))
      && (forall p :: p in cls ==> Counted(p))
    }

    ghost predicate Valid()
      reads this, buddy, buddy.Repr()
    {
      this !in buddy.Repr() && Coupled() && Good(State()) && buddy.Valid()
    }

    /** cache_init, on a buddy allocator that init_memmap has set up. */
    constructor (buddy: Buddy)
      requires buddy.Valid() && buddy.maxOrders <= B.MAX_ORDER && buddy.State() == B.Initial(buddy.maxOrders)
      ensures Valid() && this.buddy == buddy && State() == R.Initial(buddy.maxOrders)
    {
      this.buddy := buddy;
      var none: seq<seq<nat>> := seq(CACHE_NUM, i => []);
      full, partial, empty := none, none, none;
      objList, count, cls := map[], map[], map[];
      var sizes := CacheSizes();
      objSize := sizes;
      new;
      R.InitialGood(buddy.maxOrders);
    }

    /** The search of slub_alloc_objs for the first class that is large enough. */
    method FindClass(bytes: nat) returns (i: nat)
      requires Coupled() && bytes <= ObjSize(CACHE_NUM - 1)
      ensures i == FirstClass(bytes, 0)
    {
      i := 0;
      while objSize[i] < bytes
        invariant i < CACHE_NUM && FirstClass(bytes, 0) == FirstClass(bytes, i)
        decreases CACHE_NUM - i
      {
        i := i + 1;
      }
    }

    /** The search of create_slab for the class of the given size. */
    method FindSize(size: nat) returns (i: Option<nat>)
      requires Coupled()
      ensures i == ClassOf(size, 0)
    {
      for c := 0 to CACHE_NUM
        invariant ClassOf(size, 0) == ClassOf(size, c)
      {
        if objSize[c] == size {
          return Some(c);
        }
      }
      return None;
    }

    /** The loop of create_slab that threads the objects of a new slab on page p. */
    method Thread(p: nat, size: nat) returns (objs: seq<nat>)
      requires size > 0
      ensures objs == Objects(p, size)
    {
      var count := Quotient(PAGE_SIZE - SLAB_SIZE, size);
      objs := [];
      var ptr: nat := p * PAGE_SIZE + SLAB_SIZE;
      for j := 0 to count
        invariant ptr == p * PAGE_SIZE + SLAB_SIZE + j * size && |objs| == j
        invariant forall k :: 0 <= k < j ==> objs[k] == p * PAGE_SIZE + SLAB_SIZE + k * size
      {
        objs := objs + [ptr];
        ptr := ptr + size;
      }
    }

    /** The part of create_slab that sets up the slab header and lists the slab, if some class has its size. */
    method Format(p: nat, size: nat, ghost heap: B.Heap, ghost heap': B.Heap)
      requires Coupled() && size > 0 && (ClassOf(RoundUp(size), 0).Some? || p !in cls)
      modifies `objList, `empty, `cls, `count
      ensures Coupled() && View(heap') == Made(old(View(heap)), heap', p, size)
    {
      var aligned := RoundUp(size);
      var objs := Thread(p, aligned);
      var i := FindSize(aligned);
      objList, count := objList[p := objs], count[p := Count(|objs|, 0)];
      if i.Some? {
        ClassInRange(aligned, 0);
        ClassSlots(p, i.value);
        empty := empty[i.value := [p] + empty[i.value]];
        cls := cls[p := i.value];
      }
    }

    /** create_slab; sizes above the largest class get nothing. */
    method CreateSlab(size: nat) returns (page: Option<nat>)
      requires this !in buddy.Repr() && Coupled() && buddy.Valid() && size > 0
      requires ClassOf(RoundUp(size), 0).Some? || Good(State())
      modifies this, buddy.Repr()
      ensures Coupled() && buddy.Valid() && B.OrderUp(1) <= old(State()).heap.max < |old(State()).heap.lists|
      ensures page == if size > MAX_OBJECT then None else B.Alloc(old(State()).heap, 1).1
      ensures State() == if page.Some? then Made(old(State()), B.Alloc(old(State()).heap, 1).0, page.value, size)
                         else old(State())
    {
      R.SmallestRequest(buddy.State());
      if size > MAX_OBJECT {
        page := None;
      } else {
        ghost var heap := buddy.State();
        if ClassOf(RoundUp(size), 0) == None {
          FreshPage(State());
        }
        page := buddy.AllocPages(1);
        if page.Some? {
          Format(page.value, size, heap, buddy.State());
        }
      }
    }

    /** Move the first empty slab of class i to the partial list. */
    method Open(i: nat, ghost heap: B.Heap)
      requires Coupled() && i < CACHE_NUM && empty[i] != []
      modifies `empty, `partial
      ensures Coupled() && View(heap) == Opened(old(View(heap)), i)
    {
      var p := empty[i][0];
      empty, partial := empty[i := empty[i][1..]], partial[i := [p] + partial[i]];
    }

    /** Unlink the first unused object of slab p and count it as used. */
    method Pop(p: nat) returns (a: nat)
      requires Coupled() && p in cls && objList[p] != []
      modifies `objList, `count
      ensures Coupled() && a == old(objList)[p][0] && objList == old(objList)[p := old(objList)[p][1..]]
    {
      assert Counted(p);
      a := objList[p][0];
      objList := objList[p := objList[p][1..]];
      count := count[p := Count(count[p].free - 1, count[p].used + 1)];
    }

    /** The last part of slub_alloc_objs: hand out the first unused object of the first partial slab. */
    method Take(i: nat, ghost heap: B.Heap) returns (a: nat)
      requires Coupled() && i < CACHE_NUM && partial[i] != []
      requires var p := partial[i][0]; p in cls && cls[p] == i && p in objList && objList[p] != []
      modifies `objList, `partial, `full, `count
      ensures var p := old(partial)[i][0];
              Coupled() && a == old(objList)[p][0] && View(heap) == Taken(old(View(heap)), p, i)
    {
      ClassFacts(i);
      var p := partial[i][0];
      a := Pop(p);
      assert Counted(p);
      if count[p].free == 0 {
        partial, full := partial[i := B.Without(partial[i], p)], full[i := [p] + full[i]];
      }
      if count[p].used == 1 {
        assert [p] + B.Without(partial[i], p) == partial[i];
        partial := partial[i := [p] + B.Without(partial[i], p)];
      }
    }

    /** The branches of slub_alloc_objs that make sure the class has a partial slab. */
    method Prepare(i: nat) returns (ok: bool)
      requires this !in buddy.Repr() && Coupled() && buddy.Valid() && i < CACHE_NUM
      requires B.OrderUp(1) <= State().heap.max < |State().heap.lists|
      modifies this, buddy.Repr()
      ensures Coupled() && buddy.Valid()
      ensures var t := Prepared(old(State()), i);
              ok == t.Some? && State() == if ok then t.value else old(State())
    {
      ok := true;
      if partial[i] == [] {
        if empty[i] == [] {
          ClassFacts(i);
          ClassOfSize(i);
          var page := CreateSlab(objSize[i]);
          ok := page.Some?;
        }
        if ok {
          Open(i, buddy.State());
        }
      }
    }

    /** Serve a request of class i. */
    method Serve(i: nat) returns (r: Option<nat>)
      requires this !in buddy.Repr() && Coupled() && buddy.Valid() && i < CACHE_NUM
      requires B.OrderUp(1) <= State().heap.max < |State().heap.lists|
      requires var t := Prepared(State(), i);
               t.Some? ==> t.value.partial[i] != [] && Headed(t.value, t.value.partial[i][0], i)
      modifies this, buddy.Repr()
      ensures Coupled() && buddy.Valid()
      ensures var t := Prepared(old(State()), i);
              if t.Some? then
                var p := t.value.partial[i][0];
                State() == Taken(t.value, p, i) && r == Some(t.value.objs[p][0])
              else State() == old(State()) && r == None
    {
      var ok := Prepare(i);
      if ok {
        var a := Take(i, buddy.State());
        r := Some(a);
      } else {
        r := None;
      }
    }

    /** slub_alloc_objs */
    method AllocObjs(n: nat) returns (r: Option<nat>)
      requires Valid()
      modifies this, buddy.Repr()
      ensures Valid() && (State(), r) == R.Alloc(old(State()), n)
    {
      if n > MAX_OBJECT {
        r := None;
      } else {
        var order := OrderUpLoop(n);
        ClassExists(n);
        var i := FindClass(Pow2(order));
        R.PreparedHeaded(State(), i);
        R.AllocGood(State(), n);
        r := Serve(i);
      }
    }

    /** The walk of one list by slab2cache. */
    method Walk(list: seq<nat>, p: nat) returns (found: bool)
      ensures found <==> p in list
    {
      for k := 0 to |list|
        invariant p !in list[..k]
      {
        if list[k] == p {
          return true;
        }
      }
      return false;
    }

    /** slab2cache */
    method SlabToCache(p: nat) returns (c: Option<nat>)
      requires |full| == |partial| == CACHE_NUM
      ensures c.Some? ==> c.value < CACHE_NUM && (p in full[c.value] || p in partial[c.value])
      ensures c == None ==> forall i :: 0 <= i < CACHE_NUM ==> p !in full[i] && p !in partial[i]
    {
      for i := 0 to CACHE_NUM
        invariant forall j :: 0 <= j < i ==> p !in full[j] && p !in partial[j]
      {
        var found := Walk(full[i], p);
        if !found {
          found := Walk(partial[i], p);
        }
        if found {
          return Some(i);
        }
      }
      return None;
    }

    /** The part of slub_free_objs that works on the slab: unused is set when its page is to be returned. */
    method GiveBack(a: nat, p: nat, i: nat, ghost heap: B.Heap) returns (unused: bool)
      requires Coupled() && p in cls && cls[p] == i < CACHE_NUM && p in objList && |objList[p]| < Capacity(i)
      requires 0 <= heap.max < |heap.lists|
      modifies `objList, `partial, `full, `cls, `count
      ensures unused <==> |old(objList)[p]| + 1 == Capacity(i)
      ensures Coupled() && View(if unused then B.Free(heap, Block(p, 0)) else heap) == Freed(old(View(heap)), a, p, i)
    {
      ClassFacts(i);
      assert Counted(p);
      var objs, n := [a] + objList[p], Count(count[p].free + 1, count[p].used - 1);
      unused := n.used == 0;
      if unused {
        partial, objList, cls := partial[i := B.Without(partial[i], p)], objList - {p}, cls - {p};
        n := Count(0, 0);
      } else {
        objList := objList[p := objs];
      }
      count := count[p := n];
      if n.free == 1 {
        full, partial := full[i := B.Without(full[i], p)], partial[i := [p] + partial[i]];
      }
    }

    /** The class of the slab on page p, found by walking the lists; none if there is no slab on it. */
    method Locate(p: nat, ghost a: nat) returns (c: Option<nat>)
      requires Valid() && p == a / PAGE_SIZE && (p in cls ==> Live(State(), a))
      ensures c.Some? <==> p in cls
      ensures c.Some? ==> c.value == cls[p] < CACHE_NUM && p in objList && |objList[p]| < Capacity(c.value)
      ensures c.Some? ==> Block(p, 0) in buddy.live
    {
      c := SlabToCache(p);
      if p in cls {
        OnItsList(State(), p, a);
      }
    }

    /** Return object a to its slab, and the slab's page if it was the last object. */
    method Dispose(a: nat, p: nat, i: nat)
      requires this !in buddy.Repr() && Coupled() && buddy.Valid() && Block(p, 0) in buddy.live
      requires p in cls && i == cls[p] < CACHE_NUM && p in objList && |objList[p]| < Capacity(i)
      modifies this, buddy.Repr()
      ensures Coupled() && buddy.Valid() && 0 <= old(State()).heap.max < |old(State()).heap.lists|
      ensures State() == Freed(old(State()), a, p, i)
    {
      var unused := GiveBack(a, p, i, buddy.State());
      if unused {
        buddy.ResetPage(p);
        buddy.FreePages(p, 1);
      }
    }

    /** slub_free_objs; the page of an unused slab goes back after the list changes.  An address on no slab's
        page is ignored. */
    method FreeObjs(a: nat)
      requires Valid() && (a / PAGE_SIZE in cls ==> Live(State(), a))
      modifies this, buddy.Repr()
      ensures Valid() && State() == if a / PAGE_SIZE in old(cls) then R.Free(old(State()), a) else old(State())
    {
      var p := (a - a % PAGE_SIZE) / PAGE_SIZE;
      assert p == a / PAGE_SIZE;
      var c := Locate(p, a);
      if c.Some? {
        FreedGood(State(), a);
        Dispose(a, p, c.value);
      }
    }
  }

  lemma {:induction false} ClassInRange(size: nat, i: nat)
    requires ClassOf(size, i).Some?
    ensures ClassOf(size, i).value < CACHE_NUM && ObjSize(ClassOf(size, i).value) == size
    decreases CACHE_NUM - i
  {
    if ObjSize(i) != size {
      ClassInRange(size, i + 1);
    }
  }

  /** A slab with a live object is on the full or the partial list of its own class, and on no other. */
  lemma OnItsList(s: Slub, p: nat, a: nat)
    requires Good(s) && Live(s, a) && p == a / PAGE_SIZE
    ensures p in s.cls && s.cls[p] < CACHE_NUM && |s.objs[p]| < Capacity(s.cls[p])
    ensures p in s.full[s.cls[p]] || p in s.partial[s.cls[p]]
    ensures forall i: nat :: i < CACHE_NUM && (p in s.full[i] || p in s.partial[i]) ==> i == s.cls[p]
  {
    SlabCount(s, p);
  }
}
