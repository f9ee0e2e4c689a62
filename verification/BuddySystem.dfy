/** The buddy page allocator as the kernel runs it: page descriptors and free lists updated in place.
    Every method is proved to compute the function of the same name in BuddyModel. */
module BuddySystem {
  import opened Bits
  import opened BuddyBlocks
  import opened Options
  import opened BuddyModel

  /** flag is PG_property.  Outside the pages held by a running call, a page is flagged exactly when
      it heads a listed block, and its property is then the order of the list it is on. */
  ghost predicate Agree(lists: Lists, flag: seq<bool>, prop: seq<nat>, nr: seq<nat>, held: set<nat>) {
    && |flag| == |prop| && |nr| == |lists|
    && (forall k :: 0 <= k < |lists| ==> nr[k] == |lists[k]|)
    && (forall p: nat :: p < |flag| && p !in held && flag[p] ==> prop[p] < |lists| && p in lists[prop[p]])
    && (forall k: nat, p: nat {:trigger p in lists[k]} :: k < |lists| && p in lists[k] ==>
          p < |flag| && flag[p] && prop[p] == k)
  }

  /** The first block is listed, on lists that are empty. */
  lemma {:induction false} FirstBlock(lists: Lists, flag: seq<bool>, prop: seq<nat>, nr: seq<nat>, order: nat)
    requires |lists| == |nr| == MAX_ORDER + 1 && |flag| == |prop| > 0 && order <= MAX_ORDER
    requires forall p :: 0 <= p < |flag| ==> !flag[p]
    requires forall k :: 0 <= k <= MAX_ORDER ==> lists[k] == [] && nr[k] == 0
    ensures Push(lists, order, 0) == Initial(order).lists && Good(Initial(order))
    ensures Agree(Push(lists, order, 0), flag[0 := true], prop[0 := order], nr[order := nr[order] + 1], {})
  {
    PushAgree(lists, flag, prop, nr, {}, order, 0);
    FirstPush(lists, order);
    InitialGood(order);
  }

  ghost predicate Unlisted(lists: Lists, p: nat) {
    forall k :: 0 <= k < |lists| ==> p !in lists[k]
  }

  lemma PushAgree(lists: Lists, flag: seq<bool>, prop: seq<nat>, nr: seq<nat>, held: set<nat>, k: nat, q: nat)
    requires Agree(lists, flag, prop, nr, held) && k < |lists| && q < |flag| && Unlisted(lists, q)
    ensures Agree(Push(lists, k, q), flag[q := true], prop[q := k], nr[k := nr[k] + 1], held - {q})
  {
    var after, fs, ps := Push(lists, k, q), flag[q := true], prop[q := k];
    forall p: nat | p < |fs| && p !in held - {q} && fs[p]
      ensures ps[p] < |after| && p in after[ps[p]]
    {
      if p == q {
        assert q in after[k];
      } else {
        assert flag[p] && p in lists[prop[p]];
      }
    }
    forall j: nat, p: nat | j < |after| && p in after[j]
      ensures p < |fs| && fs[p] && ps[p] == j
    {
      assert p == q || p in lists[j];
    }
  }

  lemma DeleteAgree(lists: Lists, flag: seq<bool>, prop: seq<nat>, nr: seq<nat>, held: set<nat>, k: nat, q: nat)
    requires Agree(lists, flag, prop, nr, held) && WellFormed(lists) && k < |lists| && q in lists[k]
    ensures nr[k] > 0
    ensures Agree(Delete(lists, k, q), flag, prop, nr[k := nr[k] - 1], held + {q})
    ensures Unlisted(Delete(lists, k, q), q)
  {
    WithoutNoDup(lists[k], q);
    var after := Delete(lists, k, q);
    forall p: nat | p < |flag| && p !in held + {q} && flag[p]
      ensures prop[p] < |after| && p in after[prop[p]]
    {
      assert p in lists[prop[p]];
    }
    forall j: nat, p: nat | j < |after| && p in after[j]
      ensures p != q && p < |flag| && flag[p] && prop[p] == j
    {
      assert p in lists[j] && q in lists[k];
    }
  }

  lemma ChangeUnlisted(lists: Lists, flag: seq<bool>, prop: seq<nat>, nr: seq<nat>, held: set<nat>,
                       q: nat, f: bool, v: nat)
    requires Agree(lists, flag, prop, nr, held) && q < |flag| && Unlisted(lists, q)
    ensures Agree(lists, flag[q := f], prop[q := v], nr, if f then held + {q} else held - {q})
  {
    forall j: nat, p: nat | j < |lists| && p in lists[j]
      ensures p < |flag| && flag[q := f][p] && prop[q := v][p] == j
    {
      assert p != q;
    }
  }

  /** The pages of a block in hand head no listed block. */
  lemma HeldUnlisted(max: nat, lists: Lists, live: set<Block>, h: Block, q: nat)
    requires max < |lists| && Invariant(max, FreeSet(lists), live + {h}) && h !in live && h.Holds(q)
    ensures Unlisted(lists, q)
  {
    assert Balanced(max, FreeSet(lists), live + {h});
    assert h in FreeSet(lists) + (live + {h});
    forall k | 0 <= k < |lists|
      ensures q !in lists[k]
    {
      var c := Block(q, k);
      assert !Disjoint(h, c) && c in FreeSet(lists) <==> q in lists[k];
    }
  }

  /** While block b is in hand, the flag test on its buddy tells exactly whether the buddy is listed. */
  lemma FlagTestIsMembership(max: nat, lists: Lists, live: set<Block>, flag: seq<bool>, prop: seq<nat>,
                             nr: seq<nat>, b: Block)
    requires max < |lists| && Invariant(max, FreeSet(lists), live + {b}) && b !in live && b.order < max
    requires Agree(lists, flag, prop, nr, {b.start}) && Pow2(max) <= |flag|
    ensures InRange(max, b) && InRange(max, b.Buddy()) && b.Buddy().start < |flag|
    ensures flag[b.Buddy().start] && prop[b.Buddy().start] == b.order <==> b.Buddy().start in lists[b.order]
  {
    assert Balanced(max, FreeSet(lists), live + {b});
    assert b in FreeSet(lists) + (live + {b});
    BuddyFacts(max, b);
    assert b.Buddy().Holds(b.Buddy().start) && b.Holds(b.start);
  }

  /** A running call has block b in hand: neither listed nor, yet, live. */
  ghost predicate InHand(max: nat, lists: Lists, live: set<Block>, flag: seq<bool>, prop: seq<nat>,
                         nr: seq<nat>, b: Block) {
    && WellFormed(lists) && b.order <= max <= MAX_ORDER && Pow2(max) <= |flag|
    && Invariant(max, FreeSet(lists), live + {b}) && b !in live
    && Agree(lists, flag, prop, nr, {b.start})
  }

  /** The sizes, and InHand in a form that is only unfolded where InHand is mentioned. */
  ghost predicate Holding(max: nat, lists: Lists, live: set<Block>, flag: seq<bool>, prop: seq<nat>,
                          nr: seq<nat>, b: Block) {
    && |lists| == |nr| == MAX_ORDER + 1 && |flag| == |prop|
    && b.order <= max <= MAX_ORDER && Pow2(max) <= |flag| && b.start < |flag|
    && forall l {:trigger InHand(max, l, live, flag, prop, nr, b)} :: l == lists ==>
         InHand(max, l, live, flag, prop, nr, b)
  }

  lemma TakeOnce(max: nat, lists: Lists, live: set<Block>, flag: seq<bool>, prop: seq<nat>, nr: seq<nat>, k: nat)
    requires WellFormed(lists) && k <= max <= MAX_ORDER && Pow2(max) <= |flag| && lists[k] != []
    requires Invariant(max, FreeSet(lists), live) && Agree(lists, flag, prop, nr, {})
    ensures nr[k] > 0
    ensures Holding(max, lists[k := lists[k][1..]], live, flag, prop, nr[k := nr[k] - 1], Block(lists[k][0], k))
  {
    assert Balanced(max, FreeSet(lists), live);
    var p := lists[k][0];
    assert Block(p, k) in FreeSet(lists);
    assert lists[k := lists[k][1..]] == Delete(lists, k, p);
    DeleteAgree(lists, flag, prop, nr, {}, k, p);
    DeleteSet(lists, k, p);
    TakeStep(max, FreeSet(lists), live, Block(p, k));
  }

  lemma SplitOnce(max: nat, lists: Lists, live: set<Block>, flag: seq<bool>, prop: seq<nat>, nr: seq<nat>, b: Block)
    requires Holding(max, lists, live, flag, prop, nr, b) && b.order > 0
    ensures b.order <= max
    ensures var k, q := b.order - 1, b.start + Pow2(b.order - 1);
            && q < |flag| && q != b.start
            && Holding(max, Push(lists, k, q), live, flag[q := true], prop[q := k], nr[k := nr[k] + 1],
                       Block(b.start, k))
  {
    assert InHand(max, lists, live, flag, prop, nr, b);
    var k, q := b.order - 1, b.start + Pow2(b.order - 1);
    HeldIsFree(max, FreeSet(lists), live, b);
    SplitStep(max, FreeSet(lists), live, b);
    PushSet(lists, k, q);
    HeldUnlisted(max, lists, live, b, q);
    PushAgree(lists, flag, prop, nr, {b.start}, k, q);
    assert {b.start} - {q} == {b.start};
  }

  lemma MergeOnce(max: nat, lists: Lists, live: set<Block>, flag: seq<bool>, prop: seq<nat>, nr: seq<nat>, b: Block)
    requires Holding(max, lists, live, flag, prop, nr, b) && b.order < max
    requires b.Buddy().start in lists[b.order]
    ensures b.start < |flag| && b.Buddy().start < |flag| && nr[b.order] > 0
    ensures var k, c := b.order, b.Buddy().start;
            var gone := if b.Parent().start == b.start then c else b.start;
            && (b.Parent().start == b.start || b.Parent().start == c)
            && Holding(max, Delete(lists, k, c), live, flag[gone := false], prop, nr[k := nr[k] - 1], b.Parent())
  {
    assert InHand(max, lists, live, flag, prop, nr, b);
    var k, c := b.order, b.Buddy().start;
    FlagTestIsMembership(max, lists, live, flag, prop, nr, b);
    BuddyFacts(max, b);
    assert b.Buddy() in FreeSet(lists);
    MergeStep(max, FreeSet(lists), live, b);
    DeleteSet(lists, k, c);
    DeleteAgree(lists, flag, prop, nr, {b.start}, k, c);
    var after := Delete(lists, k, c);
    var gone := if b.Parent().start == b.start then c else b.start;
    assert b.Parent().Holds(gone);
    HeldUnlisted(max, after, live, b.Parent(), gone);
    ChangeUnlisted(after, flag, prop, nr[k := nr[k] - 1], {b.start, c}, gone, false, prop[gone]);
    assert prop[gone := prop[gone]] == prop;
    assert {b.start, c} - {gone} == {b.Parent().start};
  }

  lemma {:induction false} HeldTest(max: nat, lists: Lists, live: set<Block>, flag: seq<bool>, prop: seq<nat>,
                                    nr: seq<nat>, b: Block)
    requires Holding(max, lists, live, flag, prop, nr, b) && b.order < max
    ensures b.order < |lists| && InRange(max, b) && InRange(max, b.Buddy()) && b.Buddy().start < |flag|
    ensures flag[b.Buddy().start] && prop[b.Buddy().start] == b.order <==> b.Buddy().start in lists[b.order]
  {
    assert InHand(max, lists, live, flag, prop, nr, b);
    FlagTestIsMembership(max, lists, live, flag, prop, nr, b);
  }

  lemma SettleLive(max: nat, lists: Lists, live: set<Block>, flag: seq<bool>, prop: seq<nat>, nr: seq<nat>,
                   b: Block, v: nat)
    requires Holding(max, lists, live, flag, prop, nr, b)
    ensures b.start < |flag| && Agree(lists, flag[b.start := false], prop[b.start := v], nr, {})
  {
    assert InHand(max, lists, live, flag, prop, nr, b);
    HeldIsFree(max, FreeSet(lists), live, b);
    HeldUnlisted(max, lists, live, b, b.start);
    ChangeUnlisted(lists, flag, prop, nr, {b.start}, b.start, false, v);
    assert {b.start} - {b.start} == {};
  }

  lemma SettleFree(max: nat, lists: Lists, live: set<Block>, flag: seq<bool>, prop: seq<nat>, nr: seq<nat>, b: Block)
    requires Holding(max, lists, live, flag, prop, nr, b)
    ensures b.start < |flag| && b.order <= max
    ensures Agree(Push(lists, b.order, b.start), flag[b.start := true], prop[b.start := b.order],
                  nr[b.order := nr[b.order] + 1], {})
  {
    assert InHand(max, lists, live, flag, prop, nr, b);
    HeldIsFree(max, FreeSet(lists), live, b);
    HeldUnlisted(max, lists, live, b, b.start);
    PushAgree(lists, flag, prop, nr, {b.start}, b.order, b.start);
    assert {b.start} - {b.start} == {};
  }

  /** No page of a live block is flagged, so the assertions at the head of free_pages hold. */
  lemma LiveUnflagged(max: nat, lists: Lists, live: set<Block>, flag: seq<bool>, prop: seq<nat>, nr: seq<nat>,
                      b: Block)
    requires max < |lists| && Invariant(max, FreeSet(lists), live) && b in live
    requires Agree(lists, flag, prop, nr, {}) && Pow2(max) <= |flag|
    ensures b.End() <= Pow2(max) && forall q :: b.Holds(q) ==> !flag[q]
  {
    assert Balanced(max, FreeSet(lists), live);
    assert live - {b} + {b} == live;
    assert b in FreeSet(lists) + live;
    forall q | b.Holds(q)
      ensures !flag[q]
    {
      HeldUnlisted(max, lists, live - {b}, b, q);
    }
  }

  lemma EmptyTail(lists: Lists, k: nat, m: nat)
    requires k <= m <= |lists| && forall j :: k <= j < m ==> lists[j] == []
    ensures PagesBelow(lists, m) == PagesBelow(lists, k)
  {
    if k < m {
      EmptyTail(lists, k, m - 1);
    }
  }

  lemma LiveUnlisted(max: nat, lists: Lists, live: set<Block>, b: Block)
    requires max < |lists| && Invariant(max, FreeSet(lists), live) && b in live
    ensures Unlisted(lists, b.start) && b.End() <= Pow2(max)
  {
    assert Balanced(max, FreeSet(lists), live);
    assert live - {b} + {b} == live;
    assert b in FreeSet(lists) + live;
    HeldUnlisted(max, lists, live - {b}, b, b.start);
  }

  /** Taking a live block back in hand, as free_pages does when it flags the block's first page. */
  lemma HoldLive(max: nat, lists: Lists, live: set<Block>, flag: seq<bool>, prop: seq<nat>, nr: seq<nat>,
                 b: Block, v: nat)
    requires WellFormed(lists) && max <= MAX_ORDER && Pow2(max) <= |flag|
    requires Invariant(max, FreeSet(lists), live) && b in live && Agree(lists, flag, prop, nr, {})
    ensures b.start < |flag|
    ensures Holding(max, lists, live - {b}, flag[b.start := true], prop[b.start := v], nr, b)
  {
    assert Balanced(max, FreeSet(lists), live);
    assert live - {b} + {b} == live;
    assert b in FreeSet(lists) + live;
    HeldUnlisted(max, lists, live - {b}, b, b.start);
    ChangeUnlisted(lists, flag, prop, nr, {}, b.start, true, v);
    assert {} + {b.start} == {b.start};
  }

  lemma ListedBelowMax(h: Heap)
    requires Good(h)
    ensures forall k :: h.max < k < |h.lists| ==> h.lists[k] == []
  {
    forall k | 0 <= k < |h.lists| && h.lists[k] != []
      ensures k <= h.max
    {
      ListedInRange(h, k, h.lists[k][0]);
    }
  }

  lemma Pow2AtMost(k: nat)
    ensures k <= MAX_ORDER <==> Pow2(k) < 0x1_0000
    ensures k <= MAX_ORDER ==> Pow2(k) <= 0x8000
  {
    assert Pow2(15) == 0x8000 && Pow2(16) == 0x1_0000;
    if k <= 15 {
      Pow2Mono(k, 15);
    } else {
      Pow2Mono(16, k);
    }
  }

  lemma ScaledQuotient(base: nat, n: nat)
    requires n > 0
    ensures n * PAGE_SIZE > 0 && (base * PAGE_SIZE) / (n * PAGE_SIZE) == base / n
  {
    var q, r := base / n, base % n;
    assert base * PAGE_SIZE == (n * PAGE_SIZE) * q + r * PAGE_SIZE;
    DivModUnique(base * PAGE_SIZE, n * PAGE_SIZE, q, r * PAGE_SIZE);
  }

  /** order_up; the loop ends only if some power of two below 2^64 reaches n. */
  method OrderUpLoop(n: nat) returns (order: nat)
    requires n <= 0x8000_0000_0000_0000
    ensures order == OrderUp(n)
  {
    if n == 0 {
      return 0;
    }
    order := 0;
    var size := 1;
    while size < n
      invariant size == Pow2(order) && order <= OrderUp(n)
      decreases OrderUp(n) - order
    {
      OrderUpLeast(n, order);
      order := order + 1;
      size := size * 2;
    }
    OrderUpLeast(n, order);
  }

  /** order_down */
  method OrderDownLoop(n: nat) returns (order: nat)
    ensures order == OrderDown(n)
  {
    if n == 0 {
      return 0;
    }
    order := 0;
    var m: nat := n / 2;
    while m != 0
      invariant m == n / Pow2(order + 1) && Pow2(order) <= n
      decreases m
    {
      QuotientSmall(n, Pow2(order + 1));
      QuotientHalf(n, Pow2(order + 1));
      order := order + 1;
      m := m / 2;
    }
    QuotientSmall(n, Pow2(order + 1));
    OrderDownGreatest(n, order);
    OrderDownGreatest(n, order + 1);
  }

  /** Pages are named by their distance from the base page given to init_memmap. */
  class Buddy {
    const reserved: array<bool>      // PG_reserved
    const flag: array<bool>          // PG_property
    const property: array<nat>
    const ref: array<int>
    var freeList: Lists              // free_area[k].free_list, head first
    const nrFree: array<nat>         // free_area[k].nr_free
    const baseAddr: nat              // page2pa(base)
    var maxPages: nat
    var maxOrders: nat
    ghost var live: set<Block>

    ghost function Repr(): set<object> {
      {this, reserved, flag, property, ref, nrFree}
    }

    ghost predicate Shape()
      reads this
    {
      && |freeList| == MAX_ORDER + 1
      && flag.Length == property.Length == ref.Length == reserved.Length
      && nrFree.Length == MAX_ORDER + 1
      && reserved != flag && property != nrFree
      && ref as object != property as object && ref as object != nrFree as object
    }

    ghost function State(): Heap
      reads this
    {
      Heap(maxOrders, freeList, live)
    }

    /** The lists and descriptors agree, and the lists and live blocks form a buddy heap. */
    ghost predicate Ready()
      reads Repr()
    {
      && Shape() && Good(State()) && Pow2(maxOrders) <= flag.Length
      && Agree(freeList, flag[..], property[..], nrFree[..], {})
    }

    ghost predicate Valid()
      reads Repr()
    {
      && Ready() && maxPages == Pow2(maxOrders)
      && forall p :: 0 <= p < maxPages ==> !reserved[p]
    }

    /** The page array as page_init leaves it: every page reserved. */
    constructor (npage: nat, addr: nat)
      ensures Shape() && flag.Length == npage && fresh(Repr())
      ensures forall p :: 0 <= p < npage ==> reserved[p]
    {
      reserved := new bool[npage](_ => true);
      flag := new bool[npage](_ => false);
      property := new nat[npage](_ => 0);
      ref := new int[npage](_ => 0);
      freeList := seq(MAX_ORDER + 1, _ => []);
      nrFree := new nat[MAX_ORDER + 1](_ => 0);
      baseAddr := addr;
      maxPages, maxOrders, live := 0, 0, {};
    }

    /** buddy_system_init */
    method Init()
      requires Shape()
      modifies `freeList, nrFree
      ensures Shape()
      ensures forall k :: 0 <= k <= MAX_ORDER ==> freeList[k] == [] && nrFree[k] == 0
    {
      for i := 0 to MAX_ORDER + 1
        invariant Shape()
        invariant forall k :: 0 <= k < i ==> freeList[k] == [] && nrFree[k] == 0
      {
        freeList := freeList[i := []];
        nrFree[i] := 0;
      }
    }

    /** The page loop of init_memmap. */
    method ResetPages(n: nat)
      requires Shape() && n <= flag.Length
      requires forall p :: 0 <= p < n ==> reserved[p]
      requires forall p :: n <= p < flag.Length ==> !flag[p]
      modifies reserved, flag, property, ref
      ensures forall p :: 0 <= p < n ==> ref[p] == 0 && !reserved[p]
      ensures forall p :: 0 <= p < flag.Length ==> !flag[p]
    {
      for p := 0 to n
        invariant forall q :: 0 <= q < p ==> !flag[q] && !reserved[q] && ref[q] == 0
        invariant forall q :: p <= q < n ==> reserved[q]
        invariant forall q :: n <= q < flag.Length ==> !flag[q]
      {
        assert reserved[p];
        reserved[p], flag[p] := false, false;
        property[p] := 0;
        ref[p] := 0;
      }
    }

    /** List everything up to the largest power of two as one free block. */
    method Seed(n: nat)
      requires Shape() && 0 < n <= flag.Length && n < 0x1_0000
      requires forall p :: 0 <= p < n ==> !reserved[p]
      requires forall p :: 0 <= p < flag.Length ==> !flag[p]
      requires forall k :: 0 <= k <= MAX_ORDER ==> freeList[k] == [] && nrFree[k] == 0
      modifies this, flag, property, `freeList, nrFree
      ensures maxOrders == OrderDown(n) <= MAX_ORDER
      ensures Valid() && State() == Initial(maxOrders)
    {
      var order := OrderDownLoop(n);
      Pow2AtMost(order);
      maxOrders, maxPages := order, Pow2(order);
      live := {};
      FirstBlock(freeList, flag[..], property[..], nrFree[..], order);
      Publish(0, order);
      assert State() == Initial(order);
    }

    /** buddy_system_init_memmap, on freshly initialised lists. */
    method InitMemmap(n: nat)
      requires Shape() && 0 < n <= flag.Length && n < 0x1_0000
      requires forall p :: 0 <= p < n ==> reserved[p]
      requires forall p :: n <= p < flag.Length ==> !flag[p]
      requires forall k :: 0 <= k <= MAX_ORDER ==> freeList[k] == [] && nrFree[k] == 0
      modifies Repr()
      ensures maxOrders == OrderDown(n) <= MAX_ORDER
      ensures Valid() && State() == Initial(maxOrders)
      ensures forall p :: 0 <= p < n ==> ref[p] == 0
    {
      ResetPages(n);
      Seed(n);
    }

    /** buddy_location */
    method BuddyLocation(base: nat, order: nat) returns (even: bool)
      ensures even <==> (base / Pow2(order)) % 2 == 0
    {
      var n := Pow2(order);
      var pa := baseAddr + base * PAGE_SIZE;
      var res := (pa - baseAddr) / (n * PAGE_SIZE);
      ScaledQuotient(base, n);
      even := res % 2 == 0;
    }

    /** buddy_block */
    method BuddyBlock(base: nat, order: nat) returns (r: Option<nat>)
      requires Shape() && Block(base, order).Buddy().start < flag.Length
      ensures var c := Block(base, order).Buddy().start;
              r == if flag[c] && property[c] == order then Some(c) else None
    {
      var n := Pow2(order);
      var pa := baseAddr + base * PAGE_SIZE;
      var res := (pa - baseAddr) / (n * PAGE_SIZE);
      ScaledQuotient(base, n);
      var p := if res % 2 == 0 then base + n else base - n;
      r := if flag[p] && property[p] == order then Some(p) else None;
    }

    /** Flag page q as the head of a free block of order k and list it. */
    method Publish(q: nat, k: nat)
      requires Shape() && q < flag.Length && k <= MAX_ORDER
      modifies flag, property, `freeList, nrFree
      ensures freeList == Push(old(freeList), k, q)
      ensures nrFree[..] == old(nrFree[..])[k := old(nrFree[k]) + 1]
      ensures flag[..] == old(flag[..])[q := true] && property[..] == old(property[..])[q := k]
    {
      property[q] := k;
      flag[q] := true;
      freeList := freeList[k := [q] + freeList[k]];
      nrFree[k] := nrFree[k] + 1;
    }

    /** The splitting loop of alloc_pages: halve the block of order k in hand at p down to order. */
    method Split(p: nat, k: nat, order: nat)
      requires Shape() && order <= k
      requires Holding(maxOrders, freeList, live, flag[..], property[..], nrFree[..], Block(p, k))
      modifies flag, property, `freeList, nrFree
      ensures Holding(maxOrders, freeList, live, flag[..], property[..], nrFree[..], Block(p, order))
      ensures freeList == SplitDown(old(freeList), p, k, order)
    {
      var cur := k;
      while cur > order
        invariant order <= cur <= k
        invariant Holding(maxOrders, freeList, live, flag[..], property[..], nrFree[..], Block(p, cur))
        invariant SplitDown(old(freeList), p, k, order) == SplitDown(freeList, p, cur, order)
      {
        SplitOnce(maxOrders, freeList, live, flag[..], property[..], nrFree[..], Block(p, cur));
        cur := cur - 1;
        Publish(p + Pow2(cur), cur);
      }
    }

    /** The scan of alloc_pages for the lowest order, from the given one up, that has a free block. */
    method Scan(order: nat) returns (i: nat)
      requires Ready() && order <= maxOrders + 1
      ensures i == FirstNonEmpty(freeList, order, maxOrders)
    {
      i := order;
      while i <= maxOrders && nrFree[i] == 0
        invariant i <= maxOrders + 1
        invariant FirstNonEmpty(freeList, order, maxOrders) == FirstNonEmpty(freeList, i, maxOrders)
      {
        i := i + 1;
      }
    }

    /** Unlink the first block of order k. */
    method Take(k: nat) returns (p: nat)
      requires Ready() && k <= maxOrders && freeList[k] != []
      modifies `freeList, nrFree
      ensures p == old(freeList[k][0]) && freeList == old(freeList)[k := old(freeList[k][1..])]
      ensures Holding(maxOrders, freeList, live, flag[..], property[..], nrFree[..], Block(p, k))
    {
      TakeOnce(maxOrders, freeList, live, flag[..], property[..], nrFree[..], k);
      p := freeList[k][0];
      freeList := freeList[k := freeList[k][1..]];
      nrFree[k] := nrFree[k] - 1;
    }

    /** Mark the block in hand as allocated. */
    method Settle(p: nat, order: nat)
      requires Shape()
      requires Holding(maxOrders, freeList, live, flag[..], property[..], nrFree[..], Block(p, order))
      modifies flag, property
      ensures p < flag.Length && property[p] == Pow2(order) && !flag[p]
      ensures Agree(freeList, flag[..], property[..], nrFree[..], {})
    {
      SettleLive(maxOrders, freeList, live, flag[..], property[..], nrFree[..], Block(p, order), Pow2(order));
      property[p] := Pow2(order);
      flag[p] := false;
    }

    /** Cut the block for a request of n pages from the first listed block of order k. */
    method Carve(n: nat, order: nat, k: nat) returns (p: nat)
      requires Ready() && n <= Pow2(maxOrders) && order == OrderUp(n)
      requires order <= k <= maxOrders && k == FirstNonEmpty(freeList, order, maxOrders)
      modifies `live, flag, property, `freeList, nrFree
      ensures Ready() && order <= maxOrders && (State(), Some(p)) == Alloc(old(State()), n)
      ensures p < flag.Length && property[p] == Pow2(order) && !flag[p]
    {
      AllocGood(State(), n);
      p := Take(k);
      Split(p, k, order);
      Settle(p, order);
      live := live + {Block(p, order)};
    }

    /** buddy_system_alloc_pages */
    method AllocPages(n: nat) returns (r: Option<nat>)
      requires Valid() && 0 < n <= maxPages
      modifies `live, flag, property, `freeList, nrFree
      ensures Valid()
      ensures OrderUp(n) <= maxOrders && (State(), r) == Alloc(old(State()), n)
      ensures r.Some? ==> r.value < flag.Length && property[r.value] == Pow2(OrderUp(n)) && !flag[r.value]
    {
      Pow2AtMost(maxOrders);
      OrderUpLeast(n, maxOrders);
      var order := OrderUpLoop(n);
      var i := Scan(order);
      if i > maxOrders {
        r := None;
      } else {
        var p := Carve(n, order, i);
        r := Some(p);
      }
    }

    /** The page loop of free_pages. */
    method ClearPages(first: nat, n: nat)
      requires Ready() && Block(first, OrderUp(n)) in live
      requires forall p :: 0 <= p < Pow2(maxOrders) ==> !reserved[p]
      modifies flag, reserved, ref
      ensures Ready()
      ensures flag[..] == old(flag[..]) && reserved[..] == old(reserved[..])
      ensures forall p :: 0 <= p < ref.Length ==> ref[p] == if first <= p < first + n then 0 else old(ref[p])
    {
      LiveUnflagged(maxOrders, freeList, live, flag[..], property[..], nrFree[..], Block(first, OrderUp(n)));
      for p := first to first + n
        invariant flag[..] == old(flag[..]) && reserved[..] == old(reserved[..])
        invariant forall q :: 0 <= q < ref.Length ==> ref[q] == if first <= q < p then 0 else old(ref[q])
      {
        assert !old(reserved[p]) && !old(flag[p]);
        reserved[p], flag[p] := false, false;
        ref[p] := 0;
      }
    }

    /** One turn of the merging loop of free_pages: absorb the listed buddy of the block at base. */
    method Absorb(base: nat, order: nat, page: nat) returns (merged: nat)
      requires Shape() && order < maxOrders <= MAX_ORDER
      requires Holding(maxOrders, freeList, live, flag[..], property[..], nrFree[..], Block(base, order))
      requires page == Block(base, order).Buddy().start && page in freeList[order]
      modifies flag, `freeList, nrFree
      ensures Block(merged, order + 1) == Block(base, order).Parent()
      ensures Holding(maxOrders, freeList, live, flag[..], property[..], nrFree[..], Block(merged, order + 1))
      ensures freeList == Delete(old(freeList), order, page)
    {
      MergeOnce(maxOrders, freeList, live, flag[..], property[..], nrFree[..], Block(base, order));
      freeList := freeList[order := Without(freeList[order], page)];
      nrFree[order] := nrFree[order] - 1;
      var even := BuddyLocation(base, order);
      merged := if even then base else page;
      flag[if even then page else base] := false;
    }

    /** Flag the live block as if it were listed; until it is, its property is not an order. */
    method Hold(first: nat, order: nat, n: nat)
      requires Ready() && Block(first, order) in live
      modifies `live, flag, property
      ensures live == old(live) - {Block(first, order)}
      ensures Holding(maxOrders, freeList, live, flag[..], property[..], nrFree[..], Block(first, order))
    {
      HoldLive(maxOrders, freeList, live, flag[..], property[..], nrFree[..], Block(first, order), n);
      live := live - {Block(first, order)};
      property[first] := n;
      flag[first] := true;
    }

    /** The end of free_pages: the block in hand is listed. */
    method ListFree(base: nat, order: nat)
      requires Shape() && order <= maxOrders <= MAX_ORDER
      requires Holding(maxOrders, freeList, live, flag[..], property[..], nrFree[..], Block(base, order))
      modifies flag, property, `freeList, nrFree
      ensures order < |old(freeList)| && freeList == Push(old(freeList), order, base)
      ensures Agree(freeList, flag[..], property[..], nrFree[..], {})
    {
      SettleFree(maxOrders, freeList, live, flag[..], property[..], nrFree[..], Block(base, order));
      Publish(base, order);
    }

    /** The merging loop of free_pages and the listing of what it leaves. */
    method Merge(first: nat, k: nat)
      requires Shape() && k <= maxOrders <= MAX_ORDER
      requires Holding(maxOrders, freeList, live, flag[..], property[..], nrFree[..], Block(first, k))
      modifies flag, property, `freeList, nrFree
      ensures freeList == Coalesce(old(freeList), Block(first, k), maxOrders)
      ensures Agree(freeList, flag[..], property[..], nrFree[..], {})
    {
      var base, order := first, k;
      while order < maxOrders
        invariant order <= maxOrders
        invariant Holding(maxOrders, freeList, live, flag[..], property[..], nrFree[..], Block(base, order))
        invariant Coalesce(old(freeList), Block(first, k), maxOrders)
               == Coalesce(freeList, Block(base, order), maxOrders)
      {
        HeldTest(maxOrders, freeList, live, flag[..], property[..], nrFree[..], Block(base, order));
        var page := BuddyBlock(base, order);
        if page == None {
          break;
        }
        base := Absorb(base, order, page.value);
        order := order + 1;
      }
      ListFree(base, order);
    }

    /** Put a live block back on the lists. */
    method Return(first: nat, order: nat, n: nat)
      requires Ready() && Block(first, order) in live
      modifies `live, flag, property, `freeList, nrFree
      ensures Ready() && order <= maxOrders && State() == Free(old(State()), Block(first, order))
    {
      FreeGood(State(), Block(first, order));
      Hold(first, order, n);
      Merge(first, order);
    }

    /** buddy_system_free_pages */
    method FreePages(first: nat, n: nat)
      requires Valid() && 0 < n <= maxPages && Block(first, OrderUp(n)) in live
      modifies `live, flag, property, `freeList, nrFree, reserved, ref
      ensures Valid()
      ensures OrderUp(n) <= maxOrders && State() == Free(old(State()), Block(first, OrderUp(n)))
      ensures forall p :: 0 <= p < ref.Length ==> ref[p] == if first <= p < first + n then 0 else old(ref[p])
    {
      Pow2AtMost(maxOrders);
      var order := OrderUpLoop(n);
      ClearPages(first, n);
      Return(first, order, n);
    }

    /** What slub_free_objs writes to a page's descriptor before it returns the page. */
    method ResetPage(p: nat)
      requires Valid() && Block(p, 0) in live
      modifies flag, reserved, property, ref
      ensures Valid() && State() == old(State())
    {
      LiveUnflagged(maxOrders, freeList, live, flag[..], property[..], nrFree[..], Block(p, 0));
      LiveUnlisted(maxOrders, freeList, live, Block(p, 0));
      ChangeUnlisted(freeList, flag[..], property[..], nrFree[..], {}, p, false, 1);
      flag[p] := false;
      reserved[p] := false;
      ref[p] := 0;
      property[p] := 1;
    }

    /** buddy_system_nr_free_pages */
    method NrFreePages() returns (total: nat)
      requires Valid()
      ensures total == Pow2(maxOrders) - Pages(live)
    {
      total := 0;
      for i := 0 to maxOrders + 1
        invariant total == PagesBelow(freeList, i)
      {
        total := total + nrFree[i] * Pow2(i);
      }
      ListedBelowMax(State());
      EmptyTail(freeList, maxOrders + 1, MAX_ORDER + 1);
    }
  }
}
