/** The buddy system as functions on its free lists, and the theorems about whole runs.
    The class in BuddySystem.dfy is proved to compute exactly these functions. */
module BuddyModel {
  import opened Bits
  import opened BuddyBlocks
  import opened Options

  const MAX_ORDER := 15

  /** free_area: for each order, the first pages of the listed blocks, list head first. */
  type Lists = seq<seq<nat>>

  /** 2^max managed pages; live is the set of blocks handed out and not yet returned. */
  datatype Heap = Heap(max: nat, lists: Lists, live: set<Block>)

  /** The least order whose blocks hold n pages. */
  function OrderUp(n: nat): (k: nat)
    ensures n <= Pow2(k) && (k > 0 ==> Pow2(k - 1) < n)
  {
    if n <= 1 then 0 else 1 + OrderUp((n + 1) / 2)
  }

  lemma {:induction false} OrderUpLeast(n: nat, k: nat)
    ensures OrderUp(n) <= k <==> n <= Pow2(k)
  {
    if k < OrderUp(n) {
      Pow2Mono(k, OrderUp(n) - 1);
    } else {
      Pow2Mono(OrderUp(n), k);
    }
  }

  // ----- lists -----

  ghost predicate NoDup<T>(s: seq<T>) {
    forall i, j :: 0 <= i < j < |s| ==> s[i] != s[j]
  }

  /** list_del: s without its first occurrence of x. */
  function Without<T(==)>(s: seq<T>, x: T): (r: seq<T>)
    ensures forall y :: y in r ==> y in s
    ensures forall y :: y in s && y != x ==> y in r
    ensures |r| == if x in s then |s| - 1 else |s|
  {
    if s == [] then [] else if s[0] == x then s[1..] else [s[0]] + Without(s[1..], x)
  }

  lemma {:induction false} WithoutNoDup<T>(s: seq<T>, x: T)
    requires NoDup(s)
    ensures NoDup(Without(s, x)) && x !in Without(s, x)
  {
    if s != [] {
      assert forall j :: 0 <= j < |s| - 1 ==> s[1..][j] == s[j + 1];
      assert s[0] !in s[1..];
      if s[0] != x {
        WithoutNoDup(s[1..], x);
      }
    }
  }

  ghost function FreeSet(lists: Lists): set<Block> {
    set k: nat, p: nat | k < |lists| && p in lists[k] :: Block(p, k)
  }

  ghost predicate WellFormed(lists: Lists) {
    |lists| == MAX_ORDER + 1 && forall k :: 0 <= k < |lists| ==> NoDup(lists[k])
  }

  function Push(lists: Lists, k: nat, p: nat): Lists
    requires k < |lists|
  {
    lists[k := [p] + lists[k]]
  }

  function Delete(lists: Lists, k: nat, p: nat): Lists
    requires k < |lists|
  {
    lists[k := Without(lists[k], p)]
  }

  lemma PushSet(lists: Lists, k: nat, p: nat)
    requires WellFormed(lists) && k < |lists|
    ensures FreeSet(Push(lists, k, p)) == FreeSet(lists) + {Block(p, k)}
    ensures Block(p, k) !in FreeSet(lists) ==> WellFormed(Push(lists, k, p))
  {
    var after := Push(lists, k, p);
    forall b
      ensures b in FreeSet(after) <==> b in FreeSet(lists) + {Block(p, k)}
    {
      if b.order < |lists| {
        assert b in FreeSet(after) <==> b.start in after[b.order];
      }
    }
  }

  lemma DeleteSet(lists: Lists, k: nat, p: nat)
    requires WellFormed(lists) && k < |lists|
    ensures FreeSet(Delete(lists, k, p)) == FreeSet(lists) - {Block(p, k)}
    ensures WellFormed(Delete(lists, k, p))
  {
    WithoutNoDup(lists[k], p);
    var after := Delete(lists, k, p);
    forall b
      ensures b in FreeSet(after) <==> b in FreeSet(lists) - {Block(p, k)}
    {
      if b.order < |lists| {
        assert b in FreeSet(after) <==> b.start in after[b.order];
      }
    }
  }

  // ----- page counts -----

  /** The pages in the lists of order below k. */
  function PagesBelow(lists: Lists, k: nat): nat
    requires k <= |lists|
  {
    if k == 0 then 0 else PagesBelow(lists, k - 1) + |lists[k - 1]| * Pow2(k - 1)
  }

  function FreePages(lists: Lists): nat {
    PagesBelow(lists, |lists|)
  }

  lemma PagesBelowUpdate(lists: Lists, k: nat, s: seq<nat>, m: nat)
    requires k < |lists| && m <= |lists|
    ensures PagesBelow(lists[k := s], m)
         == PagesBelow(lists, m) + (if k < m then (|s| - |lists[k]|) * Pow2(k) else 0)
  {
    if m > 0 {
      PagesBelowUpdate(lists, k, s, m - 1);
      assert (|s| - |lists[k]|) * Pow2(k) == |s| * Pow2(k) - |lists[k]| * Pow2(k);
    }
  }

  lemma PushPages(lists: Lists, k: nat, p: nat)
    requires k < |lists|
    ensures FreePages(Push(lists, k, p)) == FreePages(lists) + Pow2(k)
  {
    PagesBelowUpdate(lists, k, [p] + lists[k], |lists|);
    assert |[p] + lists[k]| - |lists[k]| == 1;
  }

  lemma DeletePages(lists: Lists, k: nat, p: nat)
    requires k < |lists| && p in lists[k]
    ensures FreePages(Delete(lists, k, p)) == FreePages(lists) - Pow2(k)
  {
    PagesBelowUpdate(lists, k, Without(lists[k], p), |lists|);
  }

  /** The pages of a set of blocks. */
  ghost function Pages(s: set<Block>): nat {
    if s == {} then 0 else
      var b :| b in s;
      b.Size() + Pages(s - {b})
  }

  lemma {:induction false} PagesRemove(s: set<Block>, b: Block)
    requires b in s
    ensures Pages(s) == b.Size() + Pages(s - {b})
  {
    var c :| c in s && Pages(s) == c.Size() + Pages(s - {c});
    if c != b {
      PagesRemove(s - {c}, b);
      PagesRemove(s - {b}, c);
      assert s - {c} - {b} == s - {b} - {c};
    }
  }

  // ----- allocation and release -----

  /** The lowest order from i up to max whose list is not empty, or max + 1. */
  function FirstNonEmpty(lists: Lists, i: nat, max: nat): (r: nat)
    requires max < |lists| && i <= max + 1
    ensures i <= r <= max + 1
    ensures r <= max ==> lists[r] != []
    ensures forall j :: i <= j < r ==> lists[j] == []
    decreases max + 1 - i
  {
    if i > max || lists[i] != [] then i else FirstNonEmpty(lists, i + 1, max)
  }

  /** Halve the block of order k at p down to the given order, listing every upper half. */
  function SplitDown(lists: Lists, p: nat, k: nat, order: nat): (r: Lists)
    requires order <= k < |lists|
    ensures |r| == |lists|
    decreases k
  {
    if k == order then lists else SplitDown(Push(lists, k - 1, p + Pow2(k - 1)), p, k - 1, order)
  }

  /** List block b, first absorbing its buddy for as long as the buddy is listed. */
  function Coalesce(lists: Lists, b: Block, max: nat): (r: Lists)
    requires b.order <= max < |lists|
    ensures |r| == |lists|
    decreases max - b.order
  {
    if b.order < max && b.Buddy().start in lists[b.order]
    then Coalesce(Delete(lists, b.order, b.Buddy().start), b.Parent(), max)
    else Push(lists, b.order, b.start)
  }

  /** buddy_system_alloc_pages. */
  function Alloc(h: Heap, n: nat): (Heap, Option<nat>)
    requires h.max < |h.lists| && OrderUp(n) <= h.max
  {
    var order := OrderUp(n);
    var i := FirstNonEmpty(h.lists, order, h.max);
    if i > h.max then (h, None)
    else
      var p := h.lists[i][0];
      var taken := h.lists[i := h.lists[i][1..]];
      (Heap(h.max, SplitDown(taken, p, i, order), h.live + {Block(p, order)}), Some(p))
  }

  /** buddy_system_free_pages. */
  function Free(h: Heap, b: Block): Heap
    requires b.order <= h.max < |h.lists|
  {
    Heap(h.max, Coalesce(h.lists, b, h.max), h.live - {b})
  }

  /** What holds of a buddy heap between calls. */
  ghost predicate Good(h: Heap) {
    && WellFormed(h.lists) && h.max <= MAX_ORDER
    && Invariant(h.max, FreeSet(h.lists), h.live)
    && FreePages(h.lists) + Pages(h.live) == Pow2(h.max)
  }

  /** The heap that init_memmap leaves: one free block. */
  function Initial(max: nat): Heap
    requires max <= MAX_ORDER
  {
    Heap(max, seq(MAX_ORDER + 1, k => if k == max then [0] else []), {})
  }

  lemma InitialGood(max: nat)
    requires max <= MAX_ORDER
    ensures Good(Initial(max))
  {
    var lists := Initial(max).lists;
    InitialInvariant(max);
    assert FreeSet(lists) == {Block(0, max)} by {
      assert Block(0, max).start in lists[Block(0, max).order];
    }
    var none: Lists := seq(MAX_ORDER + 1, k => []);
    FirstPush(none, max);
    EmptyPages(none, |none|);
    PushPages(none, max, 0);
  }

  lemma FirstPush(lists: Lists, max: nat)
    requires max <= MAX_ORDER && |lists| == MAX_ORDER + 1
    requires forall k :: 0 <= k <= MAX_ORDER ==> lists[k] == []
    ensures Push(lists, max, 0) == Initial(max).lists
  {
    assert [0] + lists[max] == [0];
  }

  lemma EmptyPages(lists: Lists, k: nat)
    requires k <= |lists| && forall j :: 0 <= j < |lists| ==> lists[j] == []
    ensures PagesBelow(lists, k) == 0
  {
  }

  /** A listed block never exceeds the managed pages, so lists above max are empty. */
  lemma ListedInRange(h: Heap, k: nat, p: nat)
    requires Good(h) && k < |h.lists| && p in h.lists[k]
    ensures InRange(h.max, Block(p, k)) && Block(p, k) !in h.live
  {
    assert Balanced(h.max, FreeSet(h.lists), h.live);
    assert Block(p, k) in FreeSet(h.lists);
  }

  /** One turn of the splitting loop. */
  lemma {:induction false} SplitTurnGood(max: nat, lists: Lists, live: set<Block>, p: nat, k: nat)
    requires WellFormed(lists) && 0 < k <= max <= MAX_ORDER
    requires Invariant(max, FreeSet(lists), live + {Block(p, k)}) && Block(p, k) !in live
    ensures var r := Push(lists, k - 1, p + Pow2(k - 1));
            && WellFormed(r) && Block(p, k - 1) !in live
            && Invariant(max, FreeSet(r), live + {Block(p, k - 1)})
            && FreePages(r) == FreePages(lists) + Pow2(k - 1)
  {
    var q := p + Pow2(k - 1);
    SplitStep(max, FreeSet(lists), live, Block(p, k));
    PushSet(lists, k - 1, q);
    PushPages(lists, k - 1, q);
  }

  /** Splitting keeps the invariant, with the block in hand counted among the live ones. */
  lemma {:induction false} SplitDownGood(max: nat, lists: Lists, live: set<Block>, p: nat, k: nat, order: nat)
    requires WellFormed(lists) && order <= k <= max <= MAX_ORDER
    requires Invariant(max, FreeSet(lists), live + {Block(p, k)}) && Block(p, k) !in live
    ensures var r := SplitDown(lists, p, k, order);
            && WellFormed(r) && Block(p, order) !in live
            && Invariant(max, FreeSet(r), live + {Block(p, order)})
            && FreePages(r) == FreePages(lists) + Pow2(k) - Pow2(order)
    decreases k
  {
    if k > order {
      SplitTurnGood(max, lists, live, p, k);
      SplitDownGood(max, Push(lists, k - 1, p + Pow2(k - 1)), live, p, k - 1, order);
    }
  }

  /** One turn of the merging loop. */
  lemma {:induction false} MergeTurnGood(max: nat, lists: Lists, live: set<Block>, b: Block)
    requires WellFormed(lists) && b.order < max <= MAX_ORDER && b.Buddy().start in lists[b.order]
    requires Invariant(max, FreeSet(lists), live + {b}) && b !in live
    ensures var r := Delete(lists, b.order, b.Buddy().start);
            && WellFormed(r) && b.Parent() !in live
            && Invariant(max, FreeSet(r), live + {b.Parent()})
            && FreePages(r) == FreePages(lists) - b.Size()
  {
    var c := b.Buddy();
    assert c in FreeSet(lists);
    MergeStep(max, FreeSet(lists), live, b);
    DeleteSet(lists, b.order, c.start);
    DeletePages(lists, b.order, c.start);
  }

  /** Listing the block once its buddy is not free. */
  lemma {:induction false} GiveTurnGood(max: nat, lists: Lists, live: set<Block>, b: Block)
    requires WellFormed(lists) && b.order <= max <= MAX_ORDER
    requires b.order < max ==> b.Buddy().start !in lists[b.order]
    requires Invariant(max, FreeSet(lists), live + {b}) && b !in live
    ensures var r := Push(lists, b.order, b.start);
            && WellFormed(r) && Invariant(max, FreeSet(r), live)
            && FreePages(r) == FreePages(lists) + b.Size()
  {
    assert Balanced(max, FreeSet(lists), live + {b});
    assert b.order < max ==> b.Buddy() !in FreeSet(lists);
    GiveStep(max, FreeSet(lists), live, b);
    assert b in live + {b};
    PushSet(lists, b.order, b.start);
    PushPages(lists, b.order, b.start);
  }

  /** Merging and listing keep the invariant. */
  lemma {:induction false} CoalesceGood(max: nat, lists: Lists, live: set<Block>, b: Block)
    requires WellFormed(lists) && b.order <= max <= MAX_ORDER
    requires Invariant(max, FreeSet(lists), live + {b}) && b !in live
    ensures var r := Coalesce(lists, b, max);
            && WellFormed(r) && Invariant(max, FreeSet(r), live)
            && FreePages(r) == FreePages(lists) + b.Size()
    decreases max - b.order
  {
    if b.order < max && b.Buddy().start in lists[b.order] {
      MergeTurnGood(max, lists, live, b);
      CoalesceGood(max, Delete(lists, b.order, b.Buddy().start), live, b.Parent());
    } else {
      GiveTurnGood(max, lists, live, b);
    }
  }

  lemma AllocGood(h: Heap, n: nat)
    requires Good(h) && n <= Pow2(h.max)
    ensures OrderUp(n) <= h.max && Good(Alloc(h, n).0)
    ensures var (after, r) := Alloc(h, n);
            r.Some? ==> var b := Block(r.value, OrderUp(n));
                        InRange(h.max, b) && b !in h.live && WhollyFree(h.live, b)
  {
    assert Balanced(h.max, FreeSet(h.lists), h.live);
    OrderUpLeast(n, h.max);
    var order := OrderUp(n);
    var i := FirstNonEmpty(h.lists, order, h.max);
    if i <= h.max {
      var p := h.lists[i][0];
      var taken := h.lists[i := h.lists[i][1..]];
      assert Block(p, i) in FreeSet(h.lists);
      assert taken == Delete(h.lists, i, p);
      DeleteSet(h.lists, i, p);
      DeletePages(h.lists, i, p);
      TakeStep(h.max, FreeSet(h.lists), h.live, Block(p, i));
      SplitDownGood(h.max, taken, h.live, p, i, order);
      var b := Block(p, order);
      PagesRemove(h.live + {b}, b);
      assert h.live + {b} - {b} == h.live;
      HeldIsFree(h.max, FreeSet(SplitDown(taken, p, i, order)), h.live, b);
    }
  }

  lemma FreeGood(h: Heap, b: Block)
    requires Good(h) && b in h.live
    ensures b.order <= h.max && Good(Free(h, b))
  {
    assert Balanced(h.max, FreeSet(h.lists), h.live);
    assert b in FreeSet(h.lists) + h.live;
    assert h.live - {b} + {b} == h.live;
    CoalesceGood(h.max, h.lists, h.live - {b}, b);
    PagesRemove(h.live, b);
  }

  // ----- what a single call means -----

  /** Splitting lists one upper half for every order from the requested one up to the block's. */
  lemma {:induction false} SplitDownLists(lists: Lists, p: nat, k: nat, order: nat, j: nat)
    requires order <= k < |lists| && j < |lists|
    ensures SplitDown(lists, p, k, order)[j] == if order <= j < k then [p + Pow2(j)] + lists[j] else lists[j]
    decreases k
  {
    if k > order {
      SplitDownLists(Push(lists, k - 1, p + Pow2(k - 1)), p, k - 1, order, j);
    }
  }

  /** A request fails exactly when no aligned run of its size is wholly free. */
  lemma AllocComplete(h: Heap, n: nat)
    requires Good(h) && n <= Pow2(h.max)
    ensures OrderUp(n) <= h.max
    ensures Alloc(h, n).1 == None <==>
            !exists p: nat :: InRange(h.max, Block(p, OrderUp(n))) && WhollyFree(h.live, Block(p, OrderUp(n)))
  {
    OrderUpLeast(n, h.max);
    var order := OrderUp(n);
    var i := FirstNonEmpty(h.lists, order, h.max);
    if i <= h.max {
      AllocGood(h, n);
      assert InRange(h.max, Block(Alloc(h, n).1.value, order));
    }
    if p: nat :| InRange(h.max, Block(p, order)) && WhollyFree(h.live, Block(p, order)) {
      FreeRunIsListed(h.max, FreeSet(h.lists), h.live, Block(p, order));
      var f :| f in FreeSet(h.lists) && Within(Block(p, order), f);
      SameSpan(Block(p, order), f);
      ListedInRange(h, f.order, f.start);
    }
  }

  /** The block cut up for a request is a smallest listed block that is large enough. */
  lemma AllocSmallest(h: Heap, n: nat, f: Block)
    requires Good(h) && n <= Pow2(h.max) && f in FreeSet(h.lists) && n <= f.Size()
    ensures OrderUp(n) <= h.max && Alloc(h, n).1.Some?
    ensures exists g :: g in FreeSet(h.lists) && g.start == Alloc(h, n).1.value && n <= g.Size() <= f.Size()
  {
    OrderUpLeast(n, h.max);
    OrderUpLeast(n, f.order);
    ListedInRange(h, f.order, f.start);
    var i := FirstNonEmpty(h.lists, OrderUp(n), h.max);
    var g := Block(h.lists[i][0], i);
    assert g in FreeSet(h.lists);
    Pow2Mono(OrderUp(n), i);
    Pow2Mono(i, f.order);
  }

  lemma {:induction false} AllocApart(h: Heap, n: nat, k: nat)
    requires h.max < |h.lists| && OrderUp(n) <= h.max && k == FirstNonEmpty(h.lists, OrderUp(n), h.max) <= h.max
    ensures var p := h.lists[k][0];
            Alloc(h, n) == (Heap(h.max, SplitDown(h.lists[k := h.lists[k][1..]], p, k, OrderUp(n)),
                                 h.live + {Block(p, OrderUp(n))}), Some(p))
  {
  }

  /** A request is served by the first block of the first list, from its order on, that is not empty.  The upper
      halves left over are the only blocks on the lists passed over; all else stays. */
  lemma {:induction false} AllocTakesHead(h: Heap, n: nat, k: nat)
    requires h.max < |h.lists| && OrderUp(n) <= k <= h.max && h.lists[k] != []
    requires forall j :: OrderUp(n) <= j < k ==> h.lists[j] == []
    ensures var (after, r) := Alloc(h, n); var p := h.lists[k][0];
            && r == Some(p) && after.live == h.live + {Block(p, OrderUp(n))} && |after.lists| == |h.lists|
            && forall j :: 0 <= j < |h.lists| ==>
                 after.lists[j] == if j == k then h.lists[k][1..]
                                   else if OrderUp(n) <= j < k then [p + Pow2(j)] else h.lists[j]
  {
    assert FirstNonEmpty(h.lists, OrderUp(n), h.max) == k;
    AllocApart(h, n, k);
    SplitDownAll(h.lists[k := h.lists[k][1..]], h.lists[k][0], k, OrderUp(n));
  }

  lemma {:induction false} SplitDownAll(lists: Lists, p: nat, k: nat, order: nat)
    requires order <= k < |lists|
    ensures var r := SplitDown(lists, p, k, order);
            forall j {:trigger r[j]} :: 0 <= j < |lists| ==>
              r[j] == if order <= j < k then [p + Pow2(j)] + lists[j] else lists[j]
  {
    var r := SplitDown(lists, p, k, order);
    forall j {:trigger r[j]} | 0 <= j < |lists|
      ensures r[j] == if order <= j < k then [p + Pow2(j)] + lists[j] else lists[j]
    {
      SplitDownLists(lists, p, k, order, j);
    }
  }

  /** Merging undoes splitting, list by list. */
  lemma {:induction false} SplitThenMerge(lists: Lists, p: nat, k: nat, order: nat, max: nat)
    requires order <= k <= max < |lists| && InRange(max, Block(p, k))
    ensures Coalesce(SplitDown(lists, p, k, order), Block(p, order), max) == Coalesce(lists, Block(p, k), max)
    decreases k - order
  {
    if order < k {
      var split, q := SplitDown(lists, p, k, order), p + Pow2(order);
      LowerHalf(max, p, k, order);
      SplitDownLists(lists, p, k, order, order);
      assert Without(split[order], q) == lists[order];
      SplitOnceLess(lists, p, k, order);
      SplitThenMerge(lists, p, k, order + 1, max);
    }
  }

  /** The block in hand while splitting is the lower half of the one before. */
  lemma {:induction false} LowerHalf(max: nat, p: nat, k: nat, order: nat)
    requires order < k <= max && InRange(max, Block(p, k))
    ensures Block(p, order).Buddy().start == p + Pow2(order) && Block(p, order).Parent() == Block(p, order + 1)
  {
    AlignedDown(p, order + 1, k);
    Pow2Mono(order + 1, k);
    HalvesFacts(max, Block(p, order + 1));
  }

  lemma {:induction false} SplitOnceLess(lists: Lists, p: nat, k: nat, order: nat)
    requires order < k < |lists|
    ensures SplitDown(lists, p, k, order)[order := lists[order]] == SplitDown(lists, p, k, order + 1)
  {
    var more, less := SplitDown(lists, p, k, order), SplitDown(lists, p, k, order + 1);
    forall j | 0 <= j < |lists| && j != order
      ensures more[j] == less[j]
    {
      SplitDownLists(lists, p, k, order, j);
      SplitDownLists(lists, p, k, order + 1, j);
    }
    SplitDownLists(lists, p, k, order + 1, order);
  }

  lemma {:induction false} BuddyNotListed(h: Heap, b: Block)
    requires Good(h) && b in FreeSet(h.lists) && b.order < h.max
    ensures b.Buddy().start !in h.lists[b.order]
  {
    assert Balanced(h.max, FreeSet(h.lists), h.live);
    assert b.Buddy().start in h.lists[b.order] ==> b.Buddy() in FreeSet(h.lists);
  }

  /** Taking the head of a list and returning it whole. */
  lemma {:induction false} TakenBack(h: Heap, k: nat)
    requires Good(h) && k <= h.max && k < |h.lists| && h.lists[k] != []
    ensures var p := h.lists[k][0];
            InRange(h.max, Block(p, k)) && Coalesce(h.lists[k := h.lists[k][1..]], Block(p, k), h.max) == h.lists
  {
    var p := h.lists[k][0];
    assert Block(p, k) in FreeSet(h.lists);
    ListedInRange(h, k, p);
    if k < h.max {
      BuddyNotListed(h, Block(p, k));
    }
    assert [p] + h.lists[k][1..] == h.lists[k];
    assert Push(h.lists[k := h.lists[k][1..]], k, p) == h.lists;
  }

  /** Returning a block just allocated restores the heap exactly, the order of its lists included. */
  lemma {:induction false} AllocThenFree(h: Heap, n: nat)
    requires Good(h) && n <= Pow2(h.max)
    ensures OrderUp(n) <= h.max
    ensures var (mid, r) := Alloc(h, n);
            r.Some? ==> Free(mid, Block(r.value, OrderUp(n))) == h
  {
    AllocGood(h, n);
    var order := OrderUp(n);
    var k := FirstNonEmpty(h.lists, order, h.max);
    if k <= h.max {
      var b := Block(h.lists[k][0], order);
      AllocApart(h, n, k);
      TakenBack(h, k);
      SplitThenMerge(h.lists[k := h.lists[k][1..]], b.start, k, order, h.max);
      assert h.live + {b} - {b} == h.live;
    }
  }

  /** The block of order k that b is merged into. */
  function Merged(b: Block, k: nat): Block
    requires b.order <= k
  {
    if k == b.order then b else Merged(b, k - 1).Parent()
  }

  lemma {:induction false} MergedOnce(b: Block, k: nat)
    requires b.order < k
    ensures Merged(b.Parent(), k) == Merged(b, k)
  {
    if k > b.order + 1 {
      MergedOnce(b, k - 1);
    } else {
      assert Merged(b, b.order) == b;
    }
  }

  /** Block b was merged up to order m: the buddies are gone from their lists, the block made of them is at the head
      of its list, and its own buddy is not free. */
  ghost predicate MergedTo(lists: Lists, after: Lists, b: Block, max: nat, m: nat)
    requires |lists| == |after|
  {
    && b.order <= m <= max < |lists|
    && (forall j :: b.order <= j < m ==> Merged(b, j).Buddy().start in lists[j])
    && (m < max ==> Merged(b, m).Buddy().start !in lists[m])
    && (forall j {:trigger after[j]} :: 0 <= j < |lists| ==>
          after[j] == if j == m then [Merged(b, m).start] + lists[m]
                      else if b.order <= j < m then Without(lists[j], Merged(b, j).Buddy().start) else lists[j])
  }

  /** Merging takes the buddies off their lists as far as they are listed, and puts the block they make at the
      head of its list. */
  lemma {:induction false} CoalesceLists(lists: Lists, b: Block, max: nat) returns (m: nat)
    requires b.order <= max < |lists|
    ensures MergedTo(lists, Coalesce(lists, b, max), b, max, m)
    decreases max - b.order
  {
    if b.order < max && b.Buddy().start in lists[b.order] {
      var less := Delete(lists, b.order, b.Buddy().start);
      m := CoalesceLists(less, b.Parent(), max);
      MergedFirst(lists, Coalesce(lists, b, max), b, max, m);
    } else {
      m := b.order;
    }
  }

  lemma {:induction false} MergedFirst(lists: Lists, after: Lists, b: Block, max: nat, m: nat)
    requires |after| == |lists| && b.order < max < |lists| && b.Buddy().start in lists[b.order]
    requires MergedTo(Delete(lists, b.order, b.Buddy().start), after, b.Parent(), max, m)
    ensures MergedTo(lists, after, b, max, m)
  {
    assert Merged(b, b.order) == b;
    forall j | b.order < j <= m
      ensures Merged(b.Parent(), j) == Merged(b, j)
    {
      MergedOnce(b, j);
    }
  }

  /** What a release gives back is what the next request of its order gets. */
  lemma {:induction false} FreedIsNext(h: Heap, b: Block) returns (m: nat)
    requires Good(h) && b in h.live
    ensures b.order <= m <= h.max && MergedTo(h.lists, Free(h, b).lists, b, h.max, m)
    ensures forall n {:trigger OrderUp(n)} :: OrderUp(n) == m ==> Alloc(Free(h, b), n).1 == Some(Merged(b, m).start)
  {
    FreeGood(h, b);
    m := CoalesceLists(h.lists, b, h.max);
    var after := Free(h, b);
    forall n {:trigger OrderUp(n)} | OrderUp(n) == m
      ensures Alloc(after, n).1 == Some(Merged(b, m).start)
    {
      AllocTakesHead(after, n, m);
    }
  }

  lemma {:induction false} FreeUnmerged(h: Heap, b: Block)
    requires Good(h) && b in h.live && (b.order == h.max || b.Buddy() !in FreeSet(h.lists))
    ensures b.order <= h.max < |h.lists| && Free(h, b) == Heap(h.max, Push(h.lists, b.order, b.start), h.live - {b})
  {
    FreeGood(h, b);
    assert b.order < h.max && b.Buddy().start in h.lists[b.order] ==> b.Buddy() in FreeSet(h.lists);
  }

  lemma {:induction false} AllocPushed(lists: Lists, max: nat, live: set<Block>, n: nat, p: nat)
    requires OrderUp(n) <= max < |lists|
    ensures Alloc(Heap(max, Push(lists, OrderUp(n), p), live), n)
         == (Heap(max, lists, live + {Block(p, OrderUp(n))}), Some(p))
  {
    var h := Heap(max, Push(lists, OrderUp(n), p), live);
    AllocTakesHead(h, n, OrderUp(n));
    assert Alloc(h, n).0.lists == lists;
  }

  /** A block that is not merged with others is the next one of its order to be handed out, and handing it out
      restores the heap exactly. */
  lemma {:induction false} FreeThenAlloc(h: Heap, b: Block, n: nat)
    requires Good(h) && b in h.live && OrderUp(n) == b.order
    requires b.order == h.max || b.Buddy() !in FreeSet(h.lists)
    ensures b.order <= h.max && Alloc(Free(h, b), n) == (h, Some(b.start))
  {
    FreeUnmerged(h, b);
    AllocPushed(h.lists, h.max, h.live - {b}, n, b.start);
    assert h.live - {b} + {b} == h.live;
  }

  /** In every good heap the lists are exactly the maximal aligned free runs. */
  lemma ListsAreMaximal(h: Heap, b: Block)
    requires Good(h)
    ensures b in FreeSet(h.lists) <==> Maximal(h.max, h.live, b)
  {
    FreeIffMaximal(h.max, FreeSet(h.lists), h.live, b);
  }

  // ----- whole runs -----

  datatype Op = AllocOp(n: nat) | FreeOp(start: nat, n: nat)

  /** What the source asserts of its callers. */
  ghost predicate Legal(h: Heap, op: Op) {
    && 0 < op.n <= Pow2(h.max)
    && (op.FreeOp? ==> Block(op.start, OrderUp(op.n)) in h.live)
  }

  ghost function Step(h: Heap, op: Op): Heap
    requires Good(h) && Legal(h, op)
    ensures Good(Step(h, op)) && Step(h, op).max == h.max
  {
    AllocGood(h, op.n);
    match op
    case AllocOp(n) => Alloc(h, n).0
    case FreeOp(p, n) =>
      FreeGood(h, Block(p, OrderUp(n)));
      Free(h, Block(p, OrderUp(n)))
  }

  /** h' is reached from h by the calls ops, each legal when it is made. */
  ghost predicate Runs(h: Heap, ops: seq<Op>, h': Heap)
    requires Good(h)
    decreases |ops|
  {
    if ops == [] then h' == h
    else Legal(h, ops[0]) && Runs(Step(h, ops[0]), ops[1..], h')
  }

  lemma {:induction false} RunGood(h: Heap, ops: seq<Op>, h': Heap)
    requires Good(h) && Runs(h, ops, h')
    ensures Good(h') && h'.max == h.max
    decreases |ops|
  {
    if ops != [] {
      RunGood(Step(h, ops[0]), ops[1..], h');
    }
  }

  /** Two runs that leave the same blocks live leave the same blocks free. */
  lemma HistoryIndependence(max: nat, ops1: seq<Op>, h1: Heap, ops2: seq<Op>, h2: Heap)
    requires max <= MAX_ORDER && Good(Initial(max))
    requires Runs(Initial(max), ops1, h1) && Runs(Initial(max), ops2, h2)
    requires h1.live == h2.live
    ensures FreeSet(h1.lists) == FreeSet(h2.lists)
  {
    RunGood(Initial(max), ops1, h1);
    RunGood(Initial(max), ops2, h2);
    FreeDeterminedByLive(max, FreeSet(h1.lists), FreeSet(h2.lists), h1.live);
  }

  lemma AllTheSame<T>(s: seq<T>, x: T)
    requires NoDup(s) && x in s && forall j :: 0 <= j < |s| ==> s[j] == x
    ensures s == [x]
  {
    assert s[0] == s[|s| - 1];
  }

  lemma OneBlockLists(lists: Lists, max: nat)
    requires WellFormed(lists) && max <= MAX_ORDER && FreeSet(lists) == {Block(0, max)}
    ensures lists == Initial(max).lists
  {
    forall k, j | 0 <= k < |lists| && 0 <= j < |lists[k]|
      ensures k == max && lists[k][j] == 0
    {
      assert Block(lists[k][j], k) in FreeSet(lists);
    }
    forall k | 0 <= k < |lists| && lists[k] != []
      ensures k == max
    {
      assert Block(lists[k][0], k) in FreeSet(lists);
    }
    assert Block(0, max) in FreeSet(lists);
    AllTheSame(lists[max], 0);
  }

  /** However the blocks were allocated and returned, once none is live the heap is one block again. */
  lemma DrainedRun(max: nat, ops: seq<Op>, h: Heap)
    requires max <= MAX_ORDER && Good(Initial(max))
    requires Runs(Initial(max), ops, h) && h.live == {}
    ensures h == Initial(max)
  {
    RunGood(Initial(max), ops, h);
    NothingLive(max, FreeSet(h.lists));
    OneBlockLists(h.lists, max);
  }
}
