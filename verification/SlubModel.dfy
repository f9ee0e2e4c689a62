/** The SLUB object allocator on top of the buddy heap, as functions on its slab lists.
    An address is a byte offset from the first managed page, so page p begins at p * PAGE_SIZE. */
module SlubModel {
  import opened Bits
  import opened BuddyBlocks
  import opened Options
  import B = BuddyModel

  const SLAB_SIZE := 64  // sizeof(struct slab)
  const CACHE_NUM := 6
  const MAX_OBJECT := 1024

  /** cache[i].obj_size */
  function ObjSize(i: nat): (r: nat)
    ensures r >= 32
  {
    if i == 0 then 32 else 2 * ObjSize(i - 1)
  }

  /** cache[i].obj_count */
  function Capacity(i: nat): nat {
    Quotient(PAGE_SIZE - SLAB_SIZE, ObjSize(i))
  }

  function Quotient(x: nat, d: nat): nat
    requires d > 0
  {
    x / d
  }

  /** Object j of a slab of class i on page p. */
  function Slot(p: nat, i: nat, j: nat): nat {
    p * PAGE_SIZE + SLAB_SIZE + j * ObjSize(i)
  }

  function Slots(p: nat, i: nat): seq<nat> {
    seq(Capacity(i), j requires 0 <= j => Slot(p, i, j))
  }

  /** The slab lists of every class, head first; objs is each slab's list of unused objects,
      and cls the class each slab was created for. */
  datatype Slub = Slub(heap: B.Heap, full: seq<seq<nat>>, partial: seq<seq<nat>>, empty: seq<seq<nat>>,
                       objs: map<nat, seq<nat>>, cls: map<nat, nat>)

  /** The three lists that a slab can be on. */
  datatype Kind = Full | Partial | Empty

  /** The counts of slab p call for list k of class i; its in_use is the capacity less |objs[p]|. */
  ghost predicate Wanted(k: Kind, cls: map<nat, nat>, objs: map<nat, seq<nat>>, p: nat, i: nat) {
    && p in cls && cls[p] == i && p in objs
    && match k
       case Full => |objs[p]| == 0
       case Partial => 0 < |objs[p]| < Capacity(i)
       case Empty => |objs[p]| == Capacity(i)
  }

  /** The lists of kind k hold exactly the slabs wanted there, a held slab excepted. */
  ghost predicate Agrees(k: Kind, lists: seq<seq<nat>>, cls: map<nat, nat>, objs: map<nat, seq<nat>>, held: set<nat>) {
    && |lists| == CACHE_NUM
    && (forall i :: 0 <= i < CACHE_NUM ==> B.NoDup(lists[i]))
    && (forall i: nat, p: nat {:trigger p in lists[i]} :: i < CACHE_NUM && p !in held ==>
          (p in lists[i] <==> Wanted(k, cls, objs, p, i)))
  }

  ghost predicate ListsAgree(s: Slub, held: set<nat>) {
    && Agrees(Full, s.full, s.cls, s.objs, held)
    && Agrees(Partial, s.partial, s.cls, s.objs, held)
    && Agrees(Empty, s.empty, s.cls, s.objs, held)
  }

  ghost predicate SlabOk(p: nat, i: nat, free: seq<nat>) {
    i < CACHE_NUM && B.NoDup(free) && forall a :: a in free ==> a in Slots(p, i)
  }

  ghost predicate SlabsOk(s: Slub) {
    s.objs.Keys == s.cls.Keys && forall p :: p in s.cls ==> SlabOk(p, s.cls[p], s.objs[p])
  }

  ghost function PageBlocks(cls: map<nat, nat>): set<Block> {
    set p | p in cls :: Block(p, 0)
  }

  /** What holds between calls: every slab is on the one list its counts call for, its unused objects
      are distinct slots of its page, and the slab pages are exactly the live buddy blocks. */
  ghost predicate Good(s: Slub) {
    B.Good(s.heap) && ListsAgree(s, {}) && SlabsOk(s) && s.heap.live == PageBlocks(s.cls)
  }

  /** a has been handed out and not yet returned. */
  ghost predicate Live(s: Slub, a: nat) {
    var p := a / PAGE_SIZE;
    p in s.cls && p in s.objs && a in Slots(p, s.cls[p]) && a !in s.objs[p]
  }

  // ----- slots -----

  lemma ClassFacts(i: nat)
    requires i < CACHE_NUM
    ensures ObjSize(i) == 32 * Pow2(i) <= MAX_OBJECT
    ensures Capacity(i) == [126, 63, 31, 15, 7, 3][i] && ObjSize(i) == [32, 64, 128, 256, 512, 1024][i]
  {
    assert i == 0 || i == 1 || i == 2 || i == 3 || i == 4 || i == 5;
  }

  /** A slot lies in its page past the slab header, and masking its address gives back the page. */
  lemma SlotFacts(p: nat, i: nat, j: nat)
    requires i < CACHE_NUM && j < Capacity(i)
    ensures p * PAGE_SIZE + SLAB_SIZE <= Slot(p, i, j) && Slot(p, i, j) + ObjSize(i) <= (p + 1) * PAGE_SIZE
    ensures Slot(p, i, j) / PAGE_SIZE == p
  {
    ClassFacts(i);
    assert j * ObjSize(i) + ObjSize(i) <= PAGE_SIZE - SLAB_SIZE by {
      assert i == 0 || i == 1 || i == 2 || i == 3 || i == 4 || i == 5;
    }
  }

  lemma SlotsApart(p: nat, i: nat, j: nat, k: nat)
    requires i < CACHE_NUM && j < k
    ensures Slot(p, i, j) + ObjSize(i) <= Slot(p, i, k)
  {
    ClassFacts(i);
    assert i == 0 || i == 1 || i == 2 || i == 3 || i == 4 || i == 5;
  }

  lemma SlotsNoDup(p: nat, i: nat)
    requires i < CACHE_NUM
    ensures B.NoDup(Slots(p, i)) && |Slots(p, i)| == Capacity(i)
    ensures forall a :: a in Slots(p, i) ==> a / PAGE_SIZE == p
  {
    forall j, k | 0 <= j < k < Capacity(i)
      ensures Slots(p, i)[j] != Slots(p, i)[k]
    {
      SlotsApart(p, i, j, k);
    }
    forall j | 0 <= j < Capacity(i)
      ensures Slots(p, i)[j] / PAGE_SIZE == p
    {
      SlotFacts(p, i, j);
    }
  }

  ghost function Elements(s: seq<nat>): set<nat> {
    set x | x in s
  }

  lemma {:induction false} NoDupCount(s: seq<nat>)
    requires B.NoDup(s)
    ensures |Elements(s)| == |s|
  {
    if s != [] {
      var t, last := s[..|s| - 1], s[|s| - 1];
      NoDupCount(t);
      assert s == t + [last];
      assert last !in Elements(t);
      assert Elements(s) == Elements(t) + {last};
    }
  }

  /** A duplicate-free list of members of t is no longer than t, and as long only if it has them all. */
  lemma Pigeonhole(s: seq<nat>, t: seq<nat>)
    requires B.NoDup(s) && B.NoDup(t) && forall x :: x in s ==> x in t
    ensures |s| <= |t|
    ensures |s| == |t| <==> forall x :: x in t ==> x in s
  {
    NoDupCount(s);
    NoDupCount(t);
    assert Elements(s) <= Elements(t);
    SubsetCount(Elements(s), Elements(t));
    assert forall x :: x in Elements(t) <==> x in t;
  }

  lemma SubsetCount(a: set<nat>, b: set<nat>)
    requires a <= b
    ensures |a| <= |b| && (|a| == |b| <==> a == b)
  {
    assert b == a + (b - a);
  }

  // ----- the two calls -----

  /** The first class whose objects hold the next power of two from n. */
  function ClassFor(n: nat): (i: nat)
    requires n <= MAX_OBJECT
    ensures i < CACHE_NUM && n <= ObjSize(i) && (i > 0 ==> ObjSize(i - 1) < n)
  {
    ClassExists(n);
    FirstClass(Pow2(B.OrderUp(n)), 0)
  }

  function FirstClass(bytes: nat, i: nat): (r: nat)
    requires i < CACHE_NUM && bytes <= ObjSize(CACHE_NUM - 1)
    ensures i <= r < CACHE_NUM && bytes <= ObjSize(r) && (r > i ==> ObjSize(r - 1) < bytes)
    decreases CACHE_NUM - i
  {
    if ObjSize(i) >= bytes || i == CACHE_NUM - 1 then i else FirstClass(bytes, i + 1)
  }

  lemma ClassExists(n: nat)
    requires n <= MAX_OBJECT
    ensures n <= Pow2(B.OrderUp(n)) <= ObjSize(CACHE_NUM - 1)
    ensures forall i :: 0 <= i < CACHE_NUM && ObjSize(i) < Pow2(B.OrderUp(n)) ==> ObjSize(i) < n
  {
    ClassFacts(CACHE_NUM - 1);
    assert Pow2(10) == MAX_OBJECT;
    B.OrderUpLeast(n, 10);
    Pow2Mono(B.OrderUp(n), 10);
    forall i | 0 <= i < CACHE_NUM && ObjSize(i) < Pow2(B.OrderUp(n))
      ensures ObjSize(i) < n
    {
      ClassFacts(i);
      Pow2Add(5, i);
      assert Pow2(5) == 32;
      B.OrderUpLeast(n, 5 + i);
    }
  }

  /** create_slab: a new slab of class i on page p, at the head of the empty list. */
  function Created(s: Slub, heap: B.Heap, p: nat, i: nat): Slub
    requires i < |s.empty|
  {
    s.(heap := heap, empty := s.empty[i := [p] + s.empty[i]], objs := s.objs[p := Slots(p, i)], cls := s.cls[p := i])
  }

  /** create_slab rounds sizes up to the next multiple of eight. */
  function RoundUp(size: nat): (r: nat)
    ensures size <= r < size + 8
  {
    (size + 7) / 8 * 8
  }

  /** The first class from i on whose objects have exactly this size. */
  function ClassOf(size: nat, i: nat): Option<nat>
    decreases CACHE_NUM - i
  {
    if i >= CACHE_NUM then None else if ObjSize(i) == size then Some(i) else ClassOf(size, i + 1)
  }

  /** The objects of this size that create_slab threads through page p. */
  function Objects(p: nat, size: nat): seq<nat>
    requires size > 0
  {
    seq(Quotient(PAGE_SIZE - SLAB_SIZE, size), j requires 0 <= j => p * PAGE_SIZE + SLAB_SIZE + j * size)
  }

  lemma {:induction false} ClassSlots(p: nat, i: nat)
    ensures Objects(p, ObjSize(i)) == Slots(p, i)
  {
  }

  lemma {:induction false} ClassOfSize(i: nat)
    requires i < CACHE_NUM
    ensures RoundUp(ObjSize(i)) == ObjSize(i) && ClassOf(ObjSize(i), 0) == Some(i)
  {
    ClassFacts(i);
    ClassFrom(i, i);
  }

  lemma {:induction false} ClassFrom(i: nat, j: nat)
    requires i < CACHE_NUM && j <= i
    ensures ClassOf(ObjSize(i), i - j) == Some(i)
    decreases j
  {
    if j > 0 {
      ClassFrom(i, j - 1);
      ClassFacts(i);
      ClassFacts(i - j);
    }
  }

  /** create_slab for any size.  A slab whose rounded size is that of no class is on no list. */
  function Made(s: Slub, heap: B.Heap, p: nat, size: nat): Slub
    requires size > 0 && |s.empty| == CACHE_NUM
  {
    var c := ClassOf(RoundUp(size), 0);
    if c.Some? && c.value < CACHE_NUM then Created(s, heap, p, c.value)
    else s.(heap := heap, objs := s.objs[p := Objects(p, RoundUp(size))])
  }

  /** A page that the buddy heap hands out holds no slab yet. */
  lemma FreshPage(s: Slub)
    requires Good(s)
    ensures B.OrderUp(1) == 0 <= s.heap.max
    ensures var r := B.Alloc(s.heap, 1).1; r.Some? ==> r.value !in s.cls
  {
    B.OrderUpLeast(1, 0);
    Pow2Mono(0, s.heap.max);
    B.AllocGood(s.heap, 1);
    assert forall p: nat :: p in s.cls ==> Block(p, 0) in PageBlocks(s.cls);
  }

  /** Move the first empty slab of class i to the head of the partial list. */
  function Opened(s: Slub, i: nat): Slub
    requires i < |s.empty| && i < |s.partial| && s.empty[i] != []
  {
    s.(empty := s.empty[i := s.empty[i][1..]], partial := s.partial[i := [s.empty[i][0]] + s.partial[i]])
  }

  /** Take the first object of slab p, the first partial slab of class i. */
  function Taken(s: Slub, p: nat, i: nat): Slub
    requires i < |s.full| && i < |s.partial| && s.partial[i] != [] && p == s.partial[i][0]
    requires p in s.objs && s.objs[p] != []
  {
    var rest := s.objs[p][1..];
    if rest == [] then
      s.(objs := s.objs[p := rest], partial := s.partial[i := s.partial[i][1..]], full := s.full[i := [p] + s.full[i]])
    else s.(objs := s.objs[p := rest])
  }

  /** The state in which the slab that serves a request of class i heads the partial list. */
  function Prepared(s: Slub, i: nat): Option<Slub>
    requires i < |s.partial| && i < |s.empty| && B.OrderUp(1) <= s.heap.max < |s.heap.lists|
  {
    if s.partial[i] != [] then Some(s)
    else if s.empty[i] != [] then Some(Opened(s, i))
    else
      var (heap, page) := B.Alloc(s.heap, 1);
      if page == None then None else Some(Opened(Created(s, heap, page.value, i), i))
  }

  /** Return object a to slab p of class i. */
  function Freed(s: Slub, a: nat, p: nat, i: nat): Slub
    requires p in s.objs && i < |s.full| && i < |s.partial| && 0 <= s.heap.max < |s.heap.lists|
  {
    var free := [a] + s.objs[p];
    if |free| == Capacity(i) then
      s.(heap := B.Free(s.heap, Block(p, 0)), partial := s.partial[i := B.Without(s.partial[i], p)],
         objs := s.objs - {p}, cls := s.cls - {p})
    else if |free| == 1 then
      s.(objs := s.objs[p := free], full := s.full[i := B.Without(s.full[i], p)],
         partial := s.partial[i := [p] + s.partial[i]])
    else s.(objs := s.objs[p := free])
  }

  // ----- why the calls keep the invariant -----

  /** Slab p of class i heads its partial list and has an unused object, but need not belong there. */
  ghost predicate Headed(s: Slub, p: nat, i: nat) {
    && B.Good(s.heap) && ListsAgree(s, {p}) && SlabsOk(s) && s.heap.live == PageBlocks(s.cls)
    && i < CACHE_NUM && p in s.cls && s.cls[p] == i && s.objs[p] != []
    && s.partial[i] != [] && s.partial[i][0] == p
    && (forall j :: 0 <= j < CACHE_NUM ==> p !in s.full[j] && p !in s.empty[j])
    && (forall j :: 0 <= j < CACHE_NUM && j != i ==> p !in s.partial[j])
  }

  lemma SlabCount(s: Slub, p: nat)
    requires SlabsOk(s) && p in s.cls
    ensures |s.objs[p]| <= Capacity(s.cls[p]) && Capacity(s.cls[p]) >= 3
    ensures |s.objs[p]| == Capacity(s.cls[p]) <==> forall a :: a in Slots(p, s.cls[p]) ==> a in s.objs[p]
  {
    SlotsNoDup(p, s.cls[p]);
    ClassFacts(s.cls[p]);
    Pigeonhole(s.objs[p], Slots(p, s.cls[p]));
  }

  /** Only slab p was changed or moved. */
  ghost predicate OnlyMoved(lists: seq<seq<nat>>, lists': seq<seq<nat>>, p: nat) {
    |lists'| == |lists| == CACHE_NUM
    && forall i :: 0 <= i < CACHE_NUM ==>
         B.NoDup(lists'[i]) && forall q :: q != p ==> (q in lists'[i] <==> q in lists[i])
  }

  ghost predicate OnlyChanged<T(!new)>(m: map<nat, T>, m': map<nat, T>, p: nat) {
    forall q :: q != p ==> (q in m <==> q in m') && (q in m && q in m' ==> m[q] == m'[q])
  }

  lemma Relisted(k: Kind, lists: seq<seq<nat>>, lists': seq<seq<nat>>, cls: map<nat, nat>, cls': map<nat, nat>,
                 objs: map<nat, seq<nat>>, objs': map<nat, seq<nat>>, p: nat)
    requires Agrees(k, lists, cls, objs, {p}) && OnlyMoved(lists, lists', p)
    requires OnlyChanged(cls, cls', p) && OnlyChanged(objs, objs', p)
    ensures Agrees(k, lists', cls', objs', {p})
    ensures (forall i: nat :: i < CACHE_NUM ==> (p in lists'[i] <==> Wanted(k, cls', objs', p, i))) ==>
              Agrees(k, lists', cls', objs', {})
  {
    forall i: nat, q: nat | i < CACHE_NUM && q != p
      ensures q in lists'[i] <==> Wanted(k, cls', objs', q, i)
    {
      assert q in lists[i] <==> Wanted(k, cls, objs, q, i);
    }
  }

  lemma PushMoves(lists: seq<seq<nat>>, i: nat, p: nat)
    requires |lists| == CACHE_NUM && i < CACHE_NUM && p !in lists[i]
    requires forall j :: 0 <= j < CACHE_NUM ==> B.NoDup(lists[j])
    ensures OnlyMoved(lists, lists[i := [p] + lists[i]], p)
    ensures forall j :: 0 <= j < CACHE_NUM ==> (p in lists[i := [p] + lists[i]][j] <==> j == i || p in lists[j])
  {
  }

  lemma DropMoves(lists: seq<seq<nat>>, i: nat, p: nat)
    requires |lists| == CACHE_NUM && i < CACHE_NUM
    requires forall j :: 0 <= j < CACHE_NUM ==> B.NoDup(lists[j])
    ensures OnlyMoved(lists, lists[i := B.Without(lists[i], p)], p)
    ensures forall j :: 0 <= j < CACHE_NUM ==> (p in lists[i := B.Without(lists[i], p)][j] <==> j != i && p in lists[j])
    ensures lists[i] != [] && lists[i][0] == p ==> B.Without(lists[i], p) == lists[i][1..]
  {
    B.WithoutNoDup(lists[i], p);
  }

  lemma StayMoves(lists: seq<seq<nat>>, p: nat)
    requires |lists| == CACHE_NUM && forall j :: 0 <= j < CACHE_NUM ==> B.NoDup(lists[j])
    ensures OnlyMoved(lists, lists, p)
  {
  }

  lemma PartialHeaded(s: Slub, i: nat)
    requires Good(s) && i < CACHE_NUM && s.partial[i] != []
    ensures Headed(s, s.partial[i][0], i)
  {
    var p := s.partial[i][0];
    assert p in s.partial[i];
    ClassFacts(i);
  }

  lemma OpenedHeaded(s: Slub, i: nat)
    requires Good(s) && i < CACHE_NUM && s.empty[i] != []
    ensures Headed(Opened(s, i), s.empty[i][0], i)
  {
    var p, t := s.empty[i][0], Opened(s, i);
    assert p in s.empty[i];
    ClassFacts(i);
    assert p !in s.partial[i];
    PushMoves(s.partial, i, p);
    DropMoves(s.empty, i, p);
    StayMoves(s.full, p);
    Relisted(Partial, s.partial, t.partial, s.cls, t.cls, s.objs, t.objs, p);
    Relisted(Empty, s.empty, t.empty, s.cls, t.cls, s.objs, t.objs, p);
  }

  lemma CreatedGood(s: Slub, i: nat)
    requires Good(s) && i < CACHE_NUM && B.OrderUp(1) <= s.heap.max && B.Alloc(s.heap, 1).1.Some?
    ensures var (heap, page) := B.Alloc(s.heap, 1);
            page.value !in s.cls && Good(Created(s, heap, page.value, i))
  {
    B.AllocGood(s.heap, 1);
    var (heap, page) := B.Alloc(s.heap, 1);
    var p := page.value;
    assert B.OrderUp(1) == 0;
    assert Block(p, 0) !in s.heap.live;
    var t := Created(s, heap, p, i);
    SlotsNoDup(p, i);
    assert PageBlocks(t.cls) == PageBlocks(s.cls) + {Block(p, 0)};
    CreatedLists(s, heap, p, i);
  }

  lemma CreatedLists(s: Slub, heap: B.Heap, p: nat, i: nat)
    requires ListsAgree(s, {}) && i < CACHE_NUM && p !in s.cls && |Slots(p, i)| == Capacity(i)
    ensures ListsAgree(Created(s, heap, p, i), {})
  {
    var t := Created(s, heap, p, i);
    ClassFacts(i);
    PushMoves(s.empty, i, p);
    StayMoves(s.full, p);
    StayMoves(s.partial, p);
    Relisted(Full, s.full, t.full, s.cls, t.cls, s.objs, t.objs, p);
    Relisted(Partial, s.partial, t.partial, s.cls, t.cls, s.objs, t.objs, p);
    Relisted(Empty, s.empty, t.empty, s.cls, t.cls, s.objs, t.objs, p);
  }

  lemma TakenGood(s: Slub, p: nat, i: nat)
    requires Headed(s, p, i)
    ensures Good(Taken(s, p, i))
  {
    SlabCount(s, p);
    TakenLists(s, p, i);
    var t := Taken(s, p, i);
    assert t.objs[p] == s.objs[p][1..];
    assert t.objs.Keys == s.objs.Keys;
  }

  lemma TakenLists(s: Slub, p: nat, i: nat)
    requires Headed(s, p, i) && 3 <= Capacity(i) && |s.objs[p]| <= Capacity(i)
    ensures ListsAgree(Taken(s, p, i), {})
  {
    var t := Taken(s, p, i);
    StayMoves(s.empty, p);
    if |s.objs[p]| == 1 {
      PushMoves(s.full, i, p);
      DropMoves(s.partial, i, p);
    } else {
      StayMoves(s.full, p);
      StayMoves(s.partial, p);
    }
    Relisted(Full, s.full, t.full, s.cls, t.cls, s.objs, t.objs, p);
    Relisted(Partial, s.partial, t.partial, s.cls, t.cls, s.objs, t.objs, p);
    Relisted(Empty, s.empty, t.empty, s.cls, t.cls, s.objs, t.objs, p);
  }

  lemma TakenLive(s: Slub, p: nat, i: nat)
    requires Headed(s, p, i)
    ensures s.objs[p][0] / PAGE_SIZE == p && !Live(s, s.objs[p][0])
    ensures forall a: nat :: Live(Taken(s, p, i), a) <==> Live(s, a) || a == s.objs[p][0]
  {
    SlotsNoDup(p, i);
    var x, rest := s.objs[p][0], s.objs[p][1..];
    assert s.objs[p] == [x] + rest;
    assert x in s.objs[p] && x !in rest;
  }

  lemma FreedGood(s: Slub, a: nat)
    requires Good(s) && Live(s, a)
    ensures 0 <= s.heap.max < |s.heap.lists| && Good(Freed(s, a, a / PAGE_SIZE, s.cls[a / PAGE_SIZE]))
  {
    var p := a / PAGE_SIZE;
    var i := s.cls[p];
    var free := [a] + s.objs[p];
    SlabCount(s, p);
    SlotsNoDup(p, i);
    Pigeonhole(free, Slots(p, i));
    FreedLists(s, a, p, i);
    if |free| == Capacity(i) {
      assert Block(p, 0) in s.heap.live;
      B.FreeGood(s.heap, Block(p, 0));
      assert PageBlocks(s.cls - {p}) == PageBlocks(s.cls) - {Block(p, 0)};
    }
  }

  lemma FreedLists(s: Slub, a: nat, p: nat, i: nat)
    requires ListsAgree(s, {}) && p in s.cls && s.cls[p] == i && i < CACHE_NUM && p in s.objs
    requires 0 <= s.heap.max < |s.heap.lists| && 3 <= Capacity(i) && |s.objs[p]| < Capacity(i)
    ensures ListsAgree(Freed(s, a, p, i), {})
  {
    var t := Freed(s, a, p, i);
    StayMoves(s.empty, p);
    StayMoves(s.full, p);
    StayMoves(s.partial, p);
    DropMoves(s.full, i, p);
    DropMoves(s.partial, i, p);
    if |s.objs[p]| == 0 {
      PushMoves(s.partial, i, p);
    }
    Relisted(Full, s.full, t.full, s.cls, t.cls, s.objs, t.objs, p);
    Relisted(Partial, s.partial, t.partial, s.cls, t.cls, s.objs, t.objs, p);
    Relisted(Empty, s.empty, t.empty, s.cls, t.cls, s.objs, t.objs, p);
  }

  lemma FreedLive(s: Slub, a: nat, b: nat)
    requires Good(s) && Live(s, a) && 0 <= s.heap.max < |s.heap.lists|
    ensures Live(Freed(s, a, a / PAGE_SIZE, s.cls[a / PAGE_SIZE]), b) <==> Live(s, b) && b != a
  {
    var p := a / PAGE_SIZE;
    var i := s.cls[p];
    var free := [a] + s.objs[p];
    SlotsNoDup(p, i);
    if |free| == Capacity(i) && b / PAGE_SIZE == p {
      Pigeonhole(free, Slots(p, i));
      assert b in Slots(p, i) ==> b in free;
    }
  }
}
